/** Sequences: duplicates dropped in first-occurrence order, and text split on a character. */
module Sequences {
  // ----- Duplicates and removal

  ghost predicate NoDuplicates<T>(s: seq<T>) {
    forall i, j :: 0 <= i < j < |s| ==> Differ(s, i, j)
  }

  /** Names one instance of `NoDuplicates`, so that the solver uses it only where it is asked for. */
  ghost predicate Differ<T>(s: seq<T>, i: int, j: int)
    requires 0 <= i < j < |s|
  {
    s[i] != s[j]
  }

  lemma NoDuplicatesAppend<T>(s: seq<T>, x: T)
    requires NoDuplicates(s) && x !in s
    ensures NoDuplicates(s + [x])
  {
    forall i, j | 0 <= i < j < |s + [x]| ensures Differ(s + [x], i, j) {
      assert j < |s| ==> Differ(s, i, j);
    }
  }

  lemma NoDuplicatesFront<T>(s: seq<T>)
    requires NoDuplicates(s) && s != []
    ensures NoDuplicates(s[..|s| - 1]) && s[|s| - 1] !in s[..|s| - 1]
  {
    var front := s[..|s| - 1];
    forall i, j | 0 <= i < j < |front| ensures Differ(front, i, j) {
      assert Differ(s, i, j);
    }
    forall i | 0 <= i < |front| ensures front[i] != s[|s| - 1] {
      assert Differ(s, i, |s| - 1);
    }
  }

  /** The elements of `s` outside `drop`, in order. */
  function Without<T(==)>(s: seq<T>, drop: set<T>): seq<T> {
    if s == [] then []
    else if s[|s| - 1] in drop then Without(s[..|s| - 1], drop)
    else Without(s[..|s| - 1], drop) + [s[|s| - 1]]
  }

  lemma {:induction false} WithoutMembers<T>(s: seq<T>, drop: set<T>)
    ensures forall x :: x in Without(s, drop) <==> x in s && x !in drop
  {
    if s != [] {
      WithoutMembers(s[..|s| - 1], drop);
      assert s == s[..|s| - 1] + [s[|s| - 1]];
    }
  }

  lemma {:induction false} WithoutKeepsNoDuplicates<T>(s: seq<T>, drop: set<T>)
    requires NoDuplicates(s)
    ensures NoDuplicates(Without(s, drop))
  {
    if s != [] {
      var front, last := s[..|s| - 1], s[|s| - 1];
      NoDuplicatesFront(s);
      WithoutKeepsNoDuplicates(front, drop);
      WithoutMembers(front, drop);
      if last !in drop {
        NoDuplicatesAppend(Without(front, drop), last);
      }
    }
  }

  lemma {:induction false} WithoutOne<T>(s: seq<T>, k: T)
    requires NoDuplicates(s)
    ensures |Without(s, {k})| == if k in s then |s| - 1 else |s|
  {
    if s != [] {
      var front := s[..|s| - 1];
      NoDuplicatesFront(s);
      if s[|s| - 1] == k {
        WithoutNothing(front, {k});
      }
      WithoutOne(front, k);
      assert s == front + [s[|s| - 1]];
    }
  }

  lemma {:induction false} WithoutTwice<T>(s: seq<T>, a: set<T>, b: set<T>)
    ensures Without(Without(s, a), b) == Without(s, a + b)
  {
    if s != [] {
      var front, last := s[..|s| - 1], s[|s| - 1];
      WithoutTwice(front, a, b);
      if last !in a {
        assert (Without(front, a) + [last])[..|Without(front, a)|] == Without(front, a);
      }
    }
  }

  lemma {:induction false} WithoutNothing<T>(s: seq<T>, drop: set<T>)
    requires forall x :: x in s ==> x !in drop
    ensures Without(s, drop) == s
  {
    if s != [] {
      assert s == s[..|s| - 1] + [s[|s| - 1]];
      WithoutNothing(s[..|s| - 1], drop);
    }
  }

  lemma {:induction false} WithoutShrinks<T>(s: seq<T>, drop: set<T>)
    ensures |Without(s, drop)| <= |s|
  {
    if s != [] {
      WithoutShrinks(s[..|s| - 1], drop);
    }
  }

  lemma {:induction false} WithoutKeepsAll<T>(s: seq<T>, drop: set<T>)
    requires |Without(s, drop)| == |s|
    ensures Without(s, drop) == s
  {
    if s != [] {
      WithoutShrinks(s[..|s| - 1], drop);
      WithoutKeepsAll(s[..|s| - 1], drop);
    }
  }

  /** Leaving out goes element by element, so what stays keeps its order. */
  lemma {:induction false} WithoutAppend<T>(a: seq<T>, b: seq<T>, drop: set<T>)
    ensures Without(a + b, drop) == Without(a, drop) + Without(b, drop)
  {
    if b == [] {
      assert a + b == a;
    } else {
      assert (a + b)[..|a + b| - 1] == a + b[..|b| - 1];
      WithoutAppend(a, b[..|b| - 1], drop);
    }
  }

  lemma WithoutSingle<T>(x: T, drop: set<T>)
    ensures Without([x], drop) == if x in drop then [] else [x]
  {
    assert [x][..0] == [];
  }

  function SetOf<T(==)>(s: seq<T>): set<T> {
    set x | x in s
  }

  /** Each element once, at the place of its first occurrence. */
  function FirstOccurrences<T(==)>(s: seq<T>): seq<T> {
    if s == [] then []
    else if s[|s| - 1] in s[..|s| - 1] then FirstOccurrences(s[..|s| - 1])
    else FirstOccurrences(s[..|s| - 1]) + [s[|s| - 1]]
  }

  lemma {:induction false} FirstOccurrencesMembers<T>(s: seq<T>, x: T)
    ensures x in FirstOccurrences(s) <==> x in s
  {
    if s != [] {
      FirstOccurrencesMembers(s[..|s| - 1], x);
      assert s == s[..|s| - 1] + [s[|s| - 1]];
    }
  }

  lemma {:induction false} FirstOccurrencesDiffer<T>(s: seq<T>)
    ensures NoDuplicates(FirstOccurrences(s))
  {
    if s != [] {
      var front, last := s[..|s| - 1], s[|s| - 1];
      FirstOccurrencesDiffer(front);
      FirstOccurrencesMembers(front, last);
      if last !in front {
        NoDuplicatesAppend(FirstOccurrences(front), last);
      }
    }
  }

  lemma FirstOccurrencesAppend<T>(s: seq<T>, x: T)
    ensures FirstOccurrences(s + [x]) == if x in s then FirstOccurrences(s) else FirstOccurrences(s) + [x]
  {
    assert (s + [x])[..|s|] == s;
  }

  /** The position of the first `x` in `s`. */
  function FirstIndex<T(==)>(s: seq<T>, x: T): (i: nat)
    requires x in s
    ensures i < |s| && s[i] == x && x !in s[..i]
  {
    if s[0] == x then 0 else 1 + FirstIndex(s[1..], x)
  }

  lemma {:induction false} FirstIndexIs<T>(s: seq<T>, x: T, i: nat)
    requires i < |s| && s[i] == x && x !in s[..i]
    ensures FirstIndex(s, x) == i
  {
    if i > 0 {
      assert s[0] in s[..i];
      assert forall y :: y in s[1..][..i - 1] ==> y in s[..i];
      FirstIndexIs(s[1..], x, i - 1);
    }
  }

  /** `FirstOccurrences` keeps the order in which elements first appear. */
  lemma {:induction false} FirstOccurrencesInOrder<T>(s: seq<T>, i: nat, j: nat)
    requires i < j < |FirstOccurrences(s)|
    ensures FirstOccurrences(s)[i] in s && FirstOccurrences(s)[j] in s
    ensures FirstIndex(s, FirstOccurrences(s)[i]) < FirstIndex(s, FirstOccurrences(s)[j])
  {
    var front, last := s[..|s| - 1], s[|s| - 1];
    var r := FirstOccurrences(front);
    assert s == front + [last];
    FirstOccurrencesMembers(front, r[i]);
    FirstIndexOfPrefix(front, last, r[i]);
    if j < |r| {
      FirstOccurrencesInOrder(front, i, j);
      FirstIndexOfPrefix(front, last, r[j]);
    }
  }

  lemma {:induction false} FirstIndexOfPrefix<T>(front: seq<T>, last: T, x: T)
    requires x in front
    ensures FirstIndex(front + [last], x) == FirstIndex(front, x)
  {
    if front[0] != x {
      assert (front + [last])[1..] == front[1..] + [last];
      FirstIndexOfPrefix(front[1..], last, x);
    }
  }

  /** `order` visits every element of `all` once. */
  ghost predicate IsOrder<T>(order: seq<T>, all: set<T>) {
    NoDuplicates(order) && SetOf(order) == all
  }

  /** A loop that visits a set in some order has visited one element more. */
  lemma OneMoreVisited<T>(order: seq<T>, x: T, visited: set<T>)
    requires IsOrder(order, visited - {x}) && x in visited
    ensures IsOrder(order + [x], visited)
  {
    assert x !in SetOf(order);
    NoDuplicatesAppend(order, x);
    assert SetOf(order + [x]) == SetOf(order) + {x};
  }

  lemma {:induction false} SomeOrder<T>(all: set<T>) returns (order: seq<T>)
    ensures IsOrder(order, all)
    decreases |all|
  {
    if all == {} {
      order := [];
    } else {
      var x :| x in all;
      var front := SomeOrder(all - {x});
      OneMoreVisited(front, x, all);
      order := front + [x];
    }
  }

  // ----- Splitting and joining text

  /** `text.split(sep)`: never empty, and `"".split(sep) == [""]`. */
  function Split(text: string, sep: char): (parts: seq<string>)
    ensures parts != []
    ensures forall p :: p in parts ==> sep !in p
  {
    if text == "" then [""]
    else
      var rest := Split(text[1..], sep);
      if text[0] == sep then [""] + rest
      else
        assert rest == [rest[0]] + rest[1..];
        [[text[0]] + rest[0]] + rest[1..]
  }

  /** `sep.join(parts)` */
  function Join(parts: seq<string>, sep: char): string {
    if parts == [] then ""
    else if |parts| == 1 then parts[0]
    else parts[0] + [sep] + Join(parts[1..], sep)
  }

  /** Joining what was split gives the text back. */
  lemma {:induction false} JoinOfSplit(text: string, sep: char)
    ensures Join(Split(text, sep), sep) == text
  {
    hide Join, Split;
    if text == "" {
      SplitNothing(sep);
    } else {
      JoinOfSplit(text[1..], sep);
      assert text == [text[0]] + text[1..];
      SplitNext(text, sep);
      JoinLonger(text[0], Split(text[1..], sep), sep);
    }
  }

  lemma SplitNothing(sep: char)
    ensures Split("", sep) == [""] && Join([""], sep) == ""
  {
  }

  lemma SplitNext(text: string, sep: char)
    requires text != ""
    ensures
      var rest := Split(text[1..], sep);
      Split(text, sep) == if text[0] == sep then [""] + rest else [[text[0]] + rest[0]] + rest[1..]
  {
  }

  lemma JoinLonger(c: char, parts: seq<string>, sep: char)
    requires parts != []
    ensures Join([[c] + parts[0]] + parts[1..], sep) == [c] + Join(parts, sep)
    ensures Join([""] + parts, sep) == [sep] + Join(parts, sep)
  {
    assert ([[c] + parts[0]] + parts[1..])[1..] == parts[1..];
    assert ([""] + parts)[1..] == parts;
  }

  lemma {:induction false} JoinCut(parts: seq<string>, n: nat, sep: char)
    requires 0 < n < |parts|
    ensures Join(parts, sep) == Join(parts[..n], sep) + [sep] + Join(parts[n..], sep)
  {
    if n == 1 {
      assert parts[..1] == [parts[0]];
    } else {
      JoinCut(parts[1..], n - 1, sep);
      assert parts[1..][..n - 1] == parts[..n][1..];
      assert parts[1..][n - 1..] == parts[n..];
    }
  }

  lemma JoinLast(parts: seq<string>, last: string, sep: char)
    requires parts != []
    ensures Join(parts + [last], sep) == Join(parts, sep) + [sep] + last
  {
    JoinCut(parts + [last], |parts|, sep);
    assert (parts + [last])[..|parts|] == parts && (parts + [last])[|parts|..] == [last];
  }

  /** Splitting what was joined gives the parts back, when no part holds the separator. */
  lemma {:induction false} SplitOfJoin(parts: seq<string>, sep: char)
    requires parts != []
    requires forall p :: p in parts ==> sep !in p
    ensures Split(Join(parts, sep), sep) == parts
    decreases |parts|, |parts[0]|
  {
    var first := parts[0];
    if first == "" {
      if |parts| > 1 {
        SplitOfJoin(parts[1..], sep);
        assert Join(parts, sep)[0] == sep && Join(parts, sep)[1..] == Join(parts[1..], sep);
        assert parts == [""] + parts[1..];
      }
    } else {
      var shorter := [first[1..]] + parts[1..];
      forall p | p in shorter ensures sep !in p {
        if p == first[1..] {
          assert forall c :: c in p ==> c in first;
        } else {
          assert p in parts;
        }
      }
      SplitOfJoin(shorter, sep);
      assert first[0] in first;
      assert Join(parts, sep) == [first[0]] + Join(shorter, sep) by {
        if |parts| > 1 {
          assert shorter[1..] == parts[1..];
          assert first == [first[0]] + first[1..];
        }
      }
      assert Join(parts, sep)[1..] == Join(shorter, sep);
      assert [first[0]] + first[1..] == first;
    }
  }
}
