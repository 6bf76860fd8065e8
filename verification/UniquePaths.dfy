/** Fresh output paths: `name`, `name-2`, `name-3`, ... until one is unused. */
module UniquePaths {
  import opened Decimals
  import opened SafePaths

  // ----- Candidates

  /** Where `path.suffix` begins: the last dot, unless it is the first or the last character. */
  function SuffixAt(name: string): (i: nat)
    ensures i <= |name|
  {
    var dot := LastDot(name, |name|);
    if 0 < dot < |name| - 1 then dot else |name|
  }

  /** The position of the last dot before `end`, or 0 if there is none. */
  function LastDot(name: string, end: nat): (i: nat)
    requires end <= |name|
    ensures i <= end
  {
    if end == 0 then 0 else if name[end - 1] == '.' then end - 1 else LastDot(name, end - 1)
  }

  /** `f"{path.stem}-{counter}{path.suffix}"` */
  function Numbered(name: string, counter: nat): string {
    name[..SuffixAt(name)] + "-" + Decimal(counter) + name[SuffixAt(name)..]
  }

  /** `path.with_name(name)` */
  function WithName(path: PosixPath, name: string): PosixPath
    requires path.names != []
  {
    PosixPath(path.root, path.names[..|path.names| - 1] + [name])
  }

  function LastName(path: PosixPath): string
    requires path.names != []
  {
    path.names[|path.names| - 1]
  }

  /** The path tried in round `k`: the path itself, then counters 2, 3, ... */
  function Candidate(path: PosixPath, k: nat): PosixPath
    requires path.names != []
  {
    if k == 0 then path else WithName(path, Numbered(LastName(path), k + 1))
  }

  lemma {:induction false} LastDotIs(name: string, end: nat, i: nat)
    requires i < end <= |name| && name[i] == '.' && forall j :: i < j < end ==> name[j] != '.'
    ensures LastDot(name, end) == i
  {
    if i < end - 1 {
      LastDotIs(name, end - 1, i);
    }
  }

  lemma {:induction false} NoDotFrom(name: string, end: nat)
    requires end <= |name| && forall j :: 0 < j < end ==> name[j] != '.'
    ensures LastDot(name, end) == 0
  {
    if end > 1 {
      NoDotFrom(name, end - 1);
    }
  }

  /** In a numbered name the counter stands in front of the extension. */
  lemma NumberGoesBeforeExtension(stem: string, ext: string, counter: nat)
    requires stem != "" && ext != "" && '.' !in ext
    ensures Numbered(stem + "." + ext, counter) == stem + "-" + Decimal(counter) + "." + ext
  {
    var name := stem + "." + ext;
    assert forall j :: |stem| < j < |name| ==> name[j] == ext[j - |stem| - 1] && name[j] in ext;
    LastDotIs(name, |name|, |stem|);
    assert name[..|stem|] == stem && name[|stem|..] == "." + ext;
    assert stem + "-" + Decimal(counter) + ("." + ext) == stem + "-" + Decimal(counter) + "." + ext;
  }

  /** Without an extension the counter comes last; a leading or a final dot begins none. */
  lemma NumberGoesLast(name: string, counter: nat)
    requires name != "" && ((forall j :: 0 < j < |name| ==> name[j] != '.') || name[|name| - 1] == '.')
    ensures Numbered(name, counter) == name + "-" + Decimal(counter)
  {
    if name[|name| - 1] == '.' {
      LastDotIs(name, |name|, |name| - 1);
    } else {
      NoDotFrom(name, |name|);
    }
    assert name[..|name|] == name && name[|name|..] == "";
  }

  /** The first candidate is the path itself, then come the numbers from 2 on, in the same
      directory. */
  lemma CandidatesInDirectory(path: PosixPath, k: nat)
    requires path.names != []
    ensures
      var front, name := path.names[..|path.names| - 1], path.names[|path.names| - 1];
      Candidate(path, k) == if k == 0 then path else PosixPath(path.root, front + [Numbered(name, k + 1)])
  {
  }

  lemma NumberedDiffer(name: string, a: nat, b: nat)
    requires Numbered(name, a) == Numbered(name, b)
    ensures a == b
  {
    var i := SuffixAt(name);
    var stem, suffix := name[..i], name[i..];
    var x, y := Numbered(name, a), Numbered(name, b);
    assert x[i + 1..|x| - |suffix|] == Decimal(a);
    assert y[i + 1..|y| - |suffix|] == Decimal(b);
    ValueOfDecimal(a);
    ValueOfDecimal(b);
  }

  /** No two rounds try the same path. */
  lemma CandidatesDiffer(path: PosixPath, a: nat, b: nat)
    requires path.names != [] && a != b
    ensures Candidate(path, a) != Candidate(path, b)
  {
    var name := LastName(path);
    assert forall k :: 0 < k ==> LastName(Candidate(path, k)) == Numbered(name, k + 1);
    if a > 0 && b > 0 && Numbered(name, a + 1) == Numbered(name, b + 1) {
      NumberedDiffer(name, a + 1, b + 1);
    }
    assert forall k :: |Numbered(name, k)| > |name|;
  }

  ghost function FirstCandidates(path: PosixPath, n: nat): set<PosixPath>
    requires path.names != []
  {
    if n == 0 then {} else FirstCandidates(path, n - 1) + {Candidate(path, n - 1)}
  }

  lemma {:induction false} CandidatesCount(path: PosixPath, n: nat)
    requires path.names != []
    ensures |FirstCandidates(path, n)| == n
    ensures forall k :: k >= n ==> Candidate(path, k) !in FirstCandidates(path, n)
  {
    if n > 0 {
      CandidatesCount(path, n - 1);
      forall k | k >= n ensures Candidate(path, k) != Candidate(path, n - 1) {
        CandidatesDiffer(path, k, n - 1);
      }
    }
  }

  lemma {:induction false} FirstCandidatesUsed(path: PosixPath, used: set<PosixPath>, n: nat)
    requires path.names != [] && forall j :: 0 <= j < n ==> Candidate(path, j) in used
    ensures FirstCandidates(path, n) <= used
  {
    if n > 0 {
      FirstCandidatesUsed(path, used, n - 1);
    }
  }

  lemma SubsetSize<T>(a: set<T>, b: set<T>)
    requires a <= b
    ensures |a| <= |b|
  {
    assert b == a + (b - a);
  }

  /** Pigeonhole: no more rounds can fail than there are used paths. */
  lemma FailedRounds(path: PosixPath, used: set<PosixPath>, n: nat)
    requires path.names != [] && forall j :: 0 <= j < n ==> Candidate(path, j) in used
    ensures n <= |used|
  {
    CandidatesCount(path, n);
    FirstCandidatesUsed(path, used, n);
    SubsetSize(FirstCandidates(path, n), used);
  }

  /** The number of the first round from `k` on whose path is unused. */
  ghost function FreshRound(path: PosixPath, used: set<PosixPath>, k: nat): (r: nat)
    requires path.names != [] && forall j :: 0 <= j < k ==> Candidate(path, j) in used
    ensures k <= r <= |used|
    ensures Candidate(path, r) !in used && forall j :: 0 <= j < r ==> Candidate(path, j) in used
    decreases |used| + 1 - k
  {
    FailedRounds(path, used, k);
    if Candidate(path, k) !in used then k
    else
      assert k + 1 <= |used| by {
        FailedRounds(path, used, k + 1);
      }
      FreshRound(path, used, k + 1)
  }

  /** The path a target gets when some paths are taken. */
  ghost function Fresh(path: PosixPath, used: set<PosixPath>): PosixPath
    requires path.names != []
  {
    Candidate(path, FreshRound(path, used, 0))
  }

  /** The set of paths used so far in a run, shared and grown by every call. */
  class UsedPaths {
    var paths: set<PosixPath>

    constructor ()
      ensures paths == {}
    {
      paths := {};
    }
  }

  /** Returns the first unused candidate and records it; at most |used| + 1 paths are tested. */
  method UniquePath(path: PosixPath, used: UsedPaths) returns (candidate: PosixPath, ghost tested: nat)
    requires path.names != []
    modifies used
    ensures candidate == Fresh(path, old(used.paths)) && candidate !in old(used.paths)
    ensures used.paths == old(used.paths) + {candidate}
    ensures tested <= |old(used.paths)| + 1
  {
    candidate := path;
    tested := 1;
    var counter := 2;
    while candidate in used.paths
      invariant tested == counter - 1
      invariant candidate == Candidate(path, tested - 1)
      invariant forall j :: 0 <= j < tested - 1 ==> Candidate(path, j) in used.paths
      invariant used.paths == old(used.paths)
      decreases |used.paths| + 1 - tested
    {
      assert tested <= |used.paths| by {
        FailedRounds(path, used.paths, tested);
      }
      candidate := WithName(path, Numbered(LastName(path), counter));
      counter := counter + 1;
      tested := tested + 1;
    }
    FailedRounds(path, used.paths, tested - 1);
    FreshRoundIs(path, used.paths, tested - 1);
    used.paths := used.paths + {candidate};
  }

  lemma FreshRoundIs(path: PosixPath, used: set<PosixPath>, k: nat)
    requires path.names != [] && Candidate(path, k) !in used
    requires forall j :: 0 <= j < k ==> Candidate(path, j) in used
    ensures FreshRound(path, used, 0) == k
  {
  }
}
