/** What one call, and any run of calls, guarantees about the partitions. */
module PartitionLaws {
  import opened Dicts
  import opened Options
  import opened Partitions
  import opened Sequences

  // ----- set_members against the other operations

  /** Delete the partition if it is there, create it anew, add the pairs. */
  function DropCreateAdd(s: State, p: string, pairs: seq<Member>, ip: bool): (r: Outcome)
    ensures p in r.state.at
  {
    AddIn(CreateIn(Pop(s, p), p, ip).state, p, pairs)
  }

  /** PUT gives the partition that dropping it, creating it and adding the same
      memberships gives, with the same count; other partitions are untouched. */
  lemma SetIsDropCreateAdd(s: State, p: string, pairs: seq<Member>, ip: bool)
    requires p in s.at ==> s.at[p].pkey == p
    requires s.Valid()
    ensures SetIn(s, p, pairs, ip).reply == DropCreateAdd(s, p, pairs, ip).reply
    ensures SetIn(s, p, pairs, ip).state.at == DropCreateAdd(s, p, pairs, ip).state.at
    ensures SetIn(s, p, pairs, ip).state.order
         == if p in s.at then s.order else DropCreateAdd(s, p, pairs, ip).state.order
  {
    var bare, result := Partition(p, ip, Empty()), Partition(p, ip, PutAll(Empty(), pairs));
    assert CreateIn(Pop(s, p), p, ip).state.at == (s.at - {p})[p := bare];
    assert (s.at - {p})[p := bare][p := result] == s.at[p := result];
    if p !in s.at {
      WithoutNothing(s.order, {p});
    }
  }

  datatype PKeyRequest = PKeyRequest(
    pkey: string, ipOverIb: bool, guids: seq<string>, membership: string, memberships: Option<seq<string>>)

  /** POST: the plural list is ignored. */
  function MembershipsAdd(req: PKeyRequest): seq<string> {
    seq(|req.guids|, _ => req.membership)
  }

  /** PUT: the plural list must match the GUIDs in length (400 otherwise). */
  function MembershipsSet(req: PKeyRequest): Option<seq<string>> {
    match req.memberships
    case Some(list) => if |list| != |req.guids| then None else Some(list)
    case None => Some(seq(|req.guids|, _ => req.membership))
  }

  /** The requests whose pairs `zip` would cut short never reach the store, and every
      non-blank GUID of an accepted request is paired with the membership at its own index. */
  lemma EndpointsNeverTruncate(req: PKeyRequest)
    ensures |MembershipsAdd(req)| == |req.guids|
    ensures KeysOf(Pairs(req.guids, MembershipsAdd(req))) == Normalized(req.guids)
    ensures forall i :: 0 <= i < |req.guids| && req.guids[i] != "" ==>
              Pair(Lower(req.guids[i]), req.membership) in Pairs(req.guids, MembershipsAdd(req))
    ensures MembershipsSet(req).None? <==> req.memberships.Some? && |req.memberships.value| != |req.guids|
    ensures MembershipsSet(req).Some? ==>
              KeysOf(Pairs(req.guids, MembershipsSet(req).value)) == Normalized(req.guids)
    ensures MembershipsSet(req).Some? ==>
              forall i :: 0 <= i < |req.guids| && req.guids[i] != "" ==>
                Pair(Lower(req.guids[i]), if req.memberships.Some? then req.memberships.value[i] else req.membership)
                in Pairs(req.guids, MembershipsSet(req).value)
  {
    PairsOfAligned(req.guids, MembershipsAdd(req));
    forall i | 0 <= i < |req.guids| && req.guids[i] != ""
      ensures Pair(Lower(req.guids[i]), req.membership) in Pairs(req.guids, MembershipsAdd(req))
    {
      PairAt(req.guids, MembershipsAdd(req), i);
    }
    if MembershipsSet(req).Some? {
      var memberships := MembershipsSet(req).value;
      PairsOfAligned(req.guids, memberships);
      forall i | 0 <= i < |req.guids| && req.guids[i] != ""
        ensures Pair(Lower(req.guids[i]), memberships[i]) in Pairs(req.guids, memberships)
      {
        PairAt(req.guids, memberships, i);
      }
    }
  }

  lemma {:induction false} PairsOfAligned(guids: seq<string>, memberships: seq<string>)
    requires |guids| == |memberships|
    ensures KeysOf(Pairs(guids, memberships)) == Normalized(guids)
  {
    if guids != [] {
      PairsOfAligned(guids[1..], memberships[1..]);
      var rest := Pairs(guids[1..], memberships[1..]);
      assert KeysOf(Pairs(guids, memberships))
          == (if guids[0] == "" then [] else [Lower(guids[0])]) + KeysOf(rest);
    }
  }

  lemma {:induction false} PairAt(guids: seq<string>, memberships: seq<string>, i: nat)
    requires i < |guids| && i < |memberships| && guids[i] != ""
    ensures Pair(Lower(guids[i]), memberships[i]) in Pairs(guids, memberships)
  {
    if i == 0 {
      assert Pairs(guids, memberships)[0] == Pair(Lower(guids[0]), memberships[0]);
    } else {
      PairAt(guids[1..], memberships[1..], i - 1);
    }
  }

  // ----- remove_members

  /** The partition goes exactly when it had members and the request names them all. */
  lemma EmptyingRemovalDeletes(s: State, p: string, normalized: seq<string>)
    requires p in s.at
    ensures
      var before, r := s.at[p].guids.order, RemoveIn(s, p, normalized);
      && r.reply.Removed?
      && (r.reply.pkeyRemoved <==> before != [] && forall g :: g in before ==> g in normalized)
      && (r.reply.pkeyRemoved ==> r.state == Pop(s, p) && r.reply.n == |before|)
  {
    var before := s.at[p].guids.order;
    var drop := SetOf(normalized);
    var after := Without(before, drop);
    WithoutMembers(before, drop);
    assert after != [] ==> after[0] in before && after[0] !in normalized;
    assert forall g :: g in before && g !in normalized ==> g in after;
  }

  /** A removal that leaves the partition in place keeps exactly the members it does not
      name, in order; its count is the drop in size; and a no-op removal changes nothing. */
  lemma RemovalIsDifference(s: State, p: string, normalized: seq<string>)
    requires ValidState(s) && p in s.at
    requires !RemoveIn(s, p, normalized).reply.pkeyRemoved
    ensures
      var before, Outcome(after, reply) := s.at[p].guids, RemoveIn(s, p, normalized);
      && p in after.at
      && after.at[p].guids.order == Without(before.order, SetOf(normalized))
      && after.at[p].guids.at == before.at - SetOf(normalized)
      && reply.n == |before.order| - |after.at[p].guids.order|
      && (reply.n == 0 ==> after == s)
  {
    var before := s.at[p].guids;
    var drop := SetOf(normalized);
    if |Without(before.order, drop)| == |before.order| {
      WithoutKeepsAll(before.order, drop);
      WithoutMembers(before.order, drop);
      assert before.at - drop == before.at;
      assert s.at[p := s.at[p]] == s.at;
    }
  }

  /** Order and repetition in the list of GUIDs to remove do not matter. */
  lemma RemovalIgnoresOrderAndDuplicates(s: State, p: string, guids: seq<string>, others: seq<string>)
    requires forall g :: g in Normalized(guids) <==> g in Normalized(others)
    ensures Apply(s, RemoveMembers(p, guids)) == Apply(s, RemoveMembers(p, others))
  {
    assert SetOf(Normalized(guids)) == SetOf(Normalized(others));
  }

  /** The GUID list the DELETE route takes from one comma-separated path segment. */
  function GuidsOfCsv(csv: string): seq<string> {
    Without(Split(csv, ','), {""})
  }

  lemma {:induction false} NormalizedIgnoresBlanks(guids: seq<string>)
    ensures Normalized(Without(guids, {""})) == Normalized(guids)
  {
    if guids != [] {
      var front, last := guids[..|guids| - 1], guids[|guids| - 1];
      NormalizedIgnoresBlanks(front);
      NormalizedAppend(front, last);
      NormalizedAppend(Without(front, {""}), last);
      assert guids == front + [last];
    }
  }

  lemma {:induction false} NormalizedAppend(front: seq<string>, last: string)
    ensures Normalized(front + [last]) == Normalized(front) + if last == "" then [] else [Lower(last)]
  {
    if front != [] {
      assert (front + [last])[1..] == front[1..] + [last];
      NormalizedAppend(front[1..], last);
    }
  }

  lemma EmptySegment()
    ensures GuidsOfCsv(Join([], ',')) == []
  {
    assert Split("", ',') == [""];
    assert [""][..0] == [];
  }

  /** The route on comma-joined GUIDs is the call on the list, for any comma-free GUIDs. */
  lemma RouteIsCall(s: State, p: string, guids: seq<string>)
    requires forall g :: g in guids ==> ',' !in g
    ensures Apply(s, RemoveMembers(p, GuidsOfCsv(Join(guids, ',')))) == Apply(s, RemoveMembers(p, guids))
    ensures guids != [] && "" !in guids ==> GuidsOfCsv(Join(guids, ',')) == guids
  {
    hide Split, Join, Without, Normalized, RemoveIn;
    if guids == [] {
      EmptySegment();
    } else {
      SplitOfJoin(guids, ',');
      NormalizedIgnoresBlanks(guids);
      if "" !in guids {
        WithoutNothing(guids, {""});
      }
    }
  }

  // ----- Case folding

  lemma LowerAt(g: string)
    ensures |Lower(g)| == |g| && IsLower(Lower(g)) && CaseEqual(g, Lower(g))
    ensures forall i :: 0 <= i < |g| ==> Lower(g)[i] == LowerChar(g[i])
  {
  }

  /** Lower-casing makes two texts equal exactly if they are equal up to casing. */
  lemma LowerIsCaseFold(a: string, b: string)
    ensures Lower(a) == Lower(b) <==> CaseEqual(a, b)
  {
    LowerAt(a);
    LowerAt(b);
    if Lower(a) == Lower(b) {
      forall i | 0 <= i < |a| ensures SameLetter(a[i], b[i]) {
        assert Lower(a)[i] == Lower(b)[i];
      }
    }
  }

  /** A text without capital letters is its own lower-case form. */
  lemma LowerOfLower(k: string)
    requires IsLower(k)
    ensures Lower(k) == k
  {
  }

  /** The same GUIDs up to casing. */
  ghost predicate SameGuids(a: seq<string>, b: seq<string>) {
    |a| == |b| && forall i :: 0 <= i < |a| ==> CaseEqual(a[i], b[i])
  }

  ghost predicate Recased(a: Call, b: Call) {
    match a
    case SetMembers(p, g, m, ip) => b.SetMembers? && b == SetMembers(p, b.guids, m, ip) && SameGuids(g, b.guids)
    case AddMembers(p, g, m) => b.AddMembers? && b == AddMembers(p, b.guids, m) && SameGuids(g, b.guids)
    case RemoveMembers(p, g) => b.RemoveMembers? && b == RemoveMembers(p, b.guids) && SameGuids(g, b.guids)
    case _ => a == b
  }

  lemma {:induction false} PairsIgnoreCase(a: seq<string>, b: seq<string>, memberships: seq<string>)
    requires SameGuids(a, b)
    ensures Pairs(a, memberships) == Pairs(b, memberships)
    ensures Normalized(a) == Normalized(b)
  {
    if a != [] {
      LowerIsCaseFold(a[0], b[0]);
      PairsIgnoreCase(a[1..], b[1..], if memberships == [] then [] else memberships[1..]);
    }
  }

  /** Recasing GUIDs anywhere in a run changes no state and no response, at any step. */
  lemma {:induction false} CaseFoldBisimulation(s: State, a: seq<Call>, b: seq<Call>, n: nat)
    requires |a| == |b| && forall i :: 0 <= i < |a| ==> Recased(a[i], b[i])
    requires n <= |a|
    ensures RunAll(s, a[..n]) == RunAll(s, b[..n])
  {
    hide Pairs, Normalized, SetIn, AddIn, RemoveIn;
    if n > 0 {
      CaseFoldBisimulation(s, a, b, n - 1);
      assert a[..n][..n - 1] == a[..n - 1] && b[..n][..n - 1] == b[..n - 1];
      match a[n - 1]
      case SetMembers(p, g, m, ip) => PairsIgnoreCase(g, b[n - 1].guids, m);
      case AddMembers(p, g, m) => PairsIgnoreCase(g, b[n - 1].guids, m);
      case RemoveMembers(p, g) => PairsIgnoreCase(g, b[n - 1].guids, []);
      case _ =>
    }
  }

  // ----- Whole runs

  lemma {:induction false} PairKeysClean(guids: seq<string>, memberships: seq<string>)
    ensures forall q :: q in Pairs(guids, memberships) ==> q.key != "" && IsLower(q.key)
  {
    if guids != [] && memberships != [] {
      LowerAt(guids[0]);
      PairKeysClean(guids[1..], memberships[1..]);
    }
  }

  lemma PutAllClean(d: Members, guids: seq<string>, memberships: seq<string>)
    requires d.Valid() && forall g :: g in d.at ==> g != "" && IsLower(g)
    ensures forall g :: g in PutAll(d, Pairs(guids, memberships)).at ==> g != "" && IsLower(g)
  {
    PairKeysClean(guids, memberships);
    PutAllKeys(d, Pairs(guids, memberships));
  }

  /** Every call keeps the keys clean: own `pkey`, non-blank lower-case GUIDs. */
  lemma ApplyKeepsReachable(s: State, c: Call)
    requires Reachable(s)
    ensures Reachable(Apply(s, c).state)
  {
    ApplyValid(s, c);
    if c.SetMembers? {
      PutAllClean(Empty(), c.guids, c.memberships);
    } else if c.AddMembers? && c.pkey in s.at {
      assert Clean(c.pkey, s.at[c.pkey]);
      PutAllClean(s.at[c.pkey].guids, c.guids, c.memberships);
      assert Clean(c.pkey, Apply(s, c).state.at[c.pkey]);
    } else if c.RemoveMembers? && c.pkey in s.at {
      assert Clean(c.pkey, s.at[c.pkey]);
    }
  }

  lemma {:induction false} RunsStayReachable(calls: seq<Call>)
    ensures Reachable(RunAll(Empty(), calls).state)
  {
    if calls != [] {
      RunsStayReachable(calls[..|calls| - 1]);
      ApplyKeepsReachable(RunAll(Empty(), calls[..|calls| - 1]).state, calls[|calls| - 1]);
    }
  }

  /** What one response tells a client about the size of partition `p`: a create starts it
      at 0, a set at the count it returns, `added` and `removed` move it, and a reset or a
      deleting removal ends it (None). */
  function Entry(p: string, size: Option<int>, c: Call, reply: Response): Option<int> {
    match (c, reply)
    case (Reset, _) => None
    case (Create(q, _), Done) => if q == p then Some(0) else size
    case (SetMembers(q, _, _, _), Count(n)) => if q == p then Some(n) else size
    case (AddMembers(q, _, _), Count(n)) => if q == p && size.Some? then Some(size.value + n) else size
    case (RemoveMembers(q, _), Removed(n, gone)) =>
      if q != p || size.None? then size else if gone then None else Some(size.value - n)
    case _ => size
  }

  /** The entries of a whole run, made from requests and responses alone. */
  function Ledger(p: string, calls: seq<Call>, replies: seq<Response>): Option<int>
    requires |calls| == |replies|
  {
    if calls == [] then None
    else
      var n := |calls| - 1;
      Entry(p, Ledger(p, calls[..n], replies[..n]), calls[n], replies[n])
  }

  function SizeOf(s: State, p: string): Option<int> {
    if p in s.at then Some(|s.at[p].guids.order|) else None
  }

  lemma EntryIsRight(p: string, s: State, c: Call)
    ensures Entry(p, SizeOf(s, p), c, Apply(s, c).reply) == SizeOf(Apply(s, c).state, p)
  {
  }

  /** The ledger is right after every run: it knows which partitions exist and how big they are. */
  lemma {:induction false} LedgerBalances(p: string, calls: seq<Call>)
    ensures
      var Outcomes(s, replies) := RunAll(Empty(), calls);
      Ledger(p, calls, replies) == SizeOf(s, p)
  {
    if calls != [] {
      var n := |calls| - 1;
      LedgerBalances(p, calls[..n]);
      EntryIsRight(p, RunAll(Empty(), calls[..n]).state, calls[n]);
      assert RunAll(Empty(), calls).replies[..n] == RunAll(Empty(), calls[..n]).replies;
    }
  }

  /** No GUID of the request is paired and non-blank. */
  ghost predicate AllBlank(guids: seq<string>, memberships: seq<string>) {
    forall i :: 0 <= i < |guids| && i < |memberships| ==> guids[i] == ""
  }

  lemma {:induction false} AllBlankMeansNoPairs(guids: seq<string>, memberships: seq<string>)
    ensures AllBlank(guids, memberships) <==> Pairs(guids, memberships) == []
  {
    if guids != [] && memberships != [] {
      AllBlankMeansNoPairs(guids[1..], memberships[1..]);
      if AllBlank(guids[1..], memberships[1..]) && guids[0] == "" {
        forall i | 0 <= i < |guids| && i < |memberships| ensures guids[i] == "" {
          if i > 0 {
            assert guids[i] == guids[1..][i - 1];
          }
        }
      }
      if AllBlank(guids, memberships) {
        forall i | 0 <= i < |guids[1..]| && i < |memberships[1..]| ensures guids[1..][i] == "" {
          assert guids[1..][i] == guids[i + 1];
        }
      }
    }
  }

  /** How one call bears on "no non-blank GUID was given to `p` since its last successful
      create or set, that set included". */
  ghost predicate StillNoGuid(p: string, before: bool, c: Call, reply: Response) {
    match (c, reply)
    case (Create(q, _), Done) => q == p || before
    case (SetMembers(q, g, m, _), _) => if q == p then AllBlank(g, m) else before
    case (AddMembers(q, g, m), _) => before && (q == p ==> AllBlank(g, m))
    case _ => before
  }

  /** The same over a whole history, from requests and responses alone. */
  ghost predicate NoGuidSince(p: string, calls: seq<Call>, replies: seq<Response>)
    requires |calls| == |replies|
  {
    calls == [] ||
    (var n := |calls| - 1;
     StillNoGuid(p, NoGuidSince(p, calls[..n], replies[..n]), calls[n], replies[n]))
  }

  lemma EmptinessStep(p: string, s: State, before: bool, c: Call)
    requires ValidState(s)
    requires p in s.at ==> (s.at[p].guids.order == [] <==> before)
    ensures
      var after := Apply(s, c);
      p in after.state.at ==>
        (after.state.at[p].guids.order == [] <==> StillNoGuid(p, before, c, after.reply))
  {
    if c.SetMembers? {
      AllBlankMeansNoPairs(c.guids, c.memberships);
      PutAllEmptiness(Empty(), Pairs(c.guids, c.memberships));
    } else if c.AddMembers? && c.pkey in s.at {
      AllBlankMeansNoPairs(c.guids, c.memberships);
      PutAllEmptiness(s.at[c.pkey].guids, Pairs(c.guids, c.memberships));
    } else if c.RemoveMembers? && c.pkey in s.at {
      EmptyingRemovalDeletes(s, c.pkey, Normalized(c.guids));
    }
  }

  /** A present partition is empty exactly when no GUID has been put in it since its last
      create or set: removals never leave an emptied partition behind. */
  lemma {:induction false} EmptyExactlyWhenNeverFilled(p: string, calls: seq<Call>)
    ensures
      var Outcomes(s, replies) := RunAll(Empty(), calls);
      p in s.at ==> (s.at[p].guids.order == [] <==> NoGuidSince(p, calls, replies))
  {
    if calls != [] {
      var n := |calls| - 1;
      var before := RunAll(Empty(), calls[..n]);
      EmptyExactlyWhenNeverFilled(p, calls[..n]);
      RunAllValid(Empty(), calls[..n]);
      EmptinessStep(p, before.state, NoGuidSince(p, calls[..n], before.replies), calls[n]);
      assert RunAll(Empty(), calls).replies[..n] == before.replies;
    }
  }
}
