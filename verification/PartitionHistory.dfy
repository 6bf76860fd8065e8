/** What a client can tell from requests and responses alone, without looking into the store. */
module PartitionHistory {
  import opened Dicts
  import opened Options
  import opened Partitions
  import opened PartitionLaws
  import opened Sequences

  // ----- One request

  /** The membership that the first `n` entries of a request give to a GUID, in any casing:
      that of the last non-blank entry naming it. */
  ghost function GivenBy(g: string, guids: seq<string>, memberships: seq<string>, n: nat): Option<string>
    requires n <= |guids| && n <= |memberships|
  {
    if n == 0 then None
    else if guids[n - 1] != "" && CaseEqual(guids[n - 1], g) then Some(memberships[n - 1])
    else GivenBy(g, guids, memberships, n - 1)
  }

  /** The same for the whole request, which ends with the shorter list. */
  ghost function Given(g: string, guids: seq<string>, memberships: seq<string>): Option<string> {
    GivenBy(g, guids, memberships, if |guids| <= |memberships| then |guids| else |memberships|)
  }

  /** Some non-blank entry names the GUID, in any casing. */
  ghost predicate Named(g: string, guids: seq<string>) {
    exists i :: 0 <= i < |guids| && guids[i] != "" && CaseEqual(guids[i], g)
  }

  /** The members hold exactly this membership for the GUID, in any casing; None is no member. */
  ghost predicate Stores(members: Members, g: string, membership: Option<string>) {
    && (forall k :: k in members.at && CaseEqual(k, g) ==> membership == Some(members.at[k]))
    && (membership.Some? ==> exists k :: k in members.at && CaseEqual(k, g))
  }

  ghost predicate AllLower(members: Members) {
    forall k :: k in members.at ==> IsLower(k)
  }

  /** Looking a GUID up by its lower-case form finds it in any casing. */
  lemma LookupIsStores(members: Members, g: string)
    requires AllLower(members)
    ensures Stores(members, g, members.Get(Lower(g)))
  {
    LowerAt(g);
    forall k | k in members.at && CaseEqual(k, g) ensures k == Lower(g) {
      LowerIsCaseFold(k, g);
      LowerOfLower(k);
    }
    if Lower(g) in members.at {
      CaseEqualSymmetric(g, Lower(g));
    }
  }

  lemma CaseEqualSymmetric(a: string, b: string)
    requires CaseEqual(a, b)
    ensures CaseEqual(b, a)
  {
  }

  lemma {:induction false} PairsUpTo(guids: seq<string>, memberships: seq<string>, n: nat)
    requires n < |guids| && n < |memberships|
    ensures Pairs(guids[..n + 1], memberships[..n + 1])
         == Pairs(guids[..n], memberships[..n])
            + if guids[n] == "" then [] else [Pair(Lower(guids[n]), memberships[n])]
  {
    if n == 0 {
      assert guids[..1][1..] == [] && memberships[..1][1..] == [];
    } else {
      PairsUpTo(guids[1..], memberships[1..], n - 1);
      assert guids[..n + 1][1..] == guids[1..][..n] && guids[..n][1..] == guids[1..][..n - 1];
      assert memberships[..n + 1][1..] == memberships[1..][..n] && memberships[..n][1..] == memberships[1..][..n - 1];
    }
  }

  lemma {:induction false} PairsStop(guids: seq<string>, memberships: seq<string>, n: nat)
    requires n == if |guids| <= |memberships| then |guids| else |memberships|
    ensures Pairs(guids, memberships) == Pairs(guids[..n], memberships[..n])
  {
    if n > 0 {
      PairsStop(guids[1..], memberships[1..], n - 1);
      assert guids[..n][1..] == guids[1..][..n - 1] && memberships[..n][1..] == memberships[1..][..n - 1];
    }
  }

  lemma PutOneMore(d: Members, pairs: seq<Member>, pair: Member)
    ensures PutAll(d, pairs + [pair]) == Put(PutAll(d, pairs), pair.key, pair.value)
  {
    assert (pairs + [pair])[..|pairs|] == pairs;
  }

  lemma {:induction false} FirstEntriesGive(d: Members, g: string, guids: seq<string>, memberships: seq<string>, n: nat)
    requires n <= |guids| && n <= |memberships|
    ensures PutAll(d, Pairs(guids[..n], memberships[..n])).Get(Lower(g))
         == if GivenBy(g, guids, memberships, n).Some? then GivenBy(g, guids, memberships, n) else d.Get(Lower(g))
  {
    hide Pairs, Lower, CaseEqual, PutAll;
    if n == 0 {
      NothingToPut(d, memberships[..0]);
      assert guids[..0] == [];
    } else {
      FirstEntriesGive(d, g, guids, memberships, n - 1);
      PairsUpTo(guids, memberships, n - 1);
      var before := Pairs(guids[..n - 1], memberships[..n - 1]);
      if guids[n - 1] == "" {
        assert before + [] == before;
      } else {
        PutOneMore(d, before, Pair(Lower(guids[n - 1]), memberships[n - 1]));
        LowerIsCaseFold(guids[n - 1], g);
      }
    }
  }

  lemma NothingToPut(d: Members, memberships: seq<string>)
    ensures PutAll(d, Pairs([], memberships)) == d
  {
  }

  /** Writing a request's pairs gives each GUID what the request gives it. */
  lemma RequestGives(d: Members, g: string, guids: seq<string>, memberships: seq<string>)
    ensures PutAll(d, Pairs(guids, memberships)).Get(Lower(g))
         == if Given(g, guids, memberships).Some? then Given(g, guids, memberships) else d.Get(Lower(g))
  {
    hide Pairs, PutAll, GivenBy;
    var n := if |guids| <= |memberships| then |guids| else |memberships|;
    PairsStop(guids, memberships, n);
    FirstEntriesGive(d, g, guids, memberships, n);
  }

  lemma {:induction false} NormalizedNames(g: string, guids: seq<string>)
    ensures Lower(g) in Normalized(guids) <==> Named(g, guids)
  {
    if guids != [] {
      hide Lower, CaseEqual;
      NormalizedNames(g, guids[1..]);
      LowerIsCaseFold(guids[0], g);
      NamedFirst(g, guids);
      assert Normalized(guids) == (if guids[0] == "" then [] else [Lower(guids[0])]) + Normalized(guids[1..]);
    }
  }

  lemma NamedFirst(g: string, guids: seq<string>)
    requires guids != []
    ensures Named(g, guids) <==> (guids[0] != "" && CaseEqual(guids[0], g)) || Named(g, guids[1..])
  {
    hide CaseEqual;
    if i :| 0 <= i < |guids| && guids[i] != "" && CaseEqual(guids[i], g) && i > 0 {
      assert guids[1..][i - 1] == guids[i];
    }
    if i :| 0 <= i < |guids[1..]| && guids[1..][i] != "" && CaseEqual(guids[1..][i], g) {
      assert guids[i + 1] == guids[1..][i];
    }
  }

  // ----- Whole runs

  /** What a client remembers of the membership of a GUID in partition `p`. */
  ghost function Remember(p: string, g: string, before: Option<string>, c: Call, reply: Response): Option<string> {
    match (c, reply)
    case (Reset, _) => None
    case (Create(q, _), Done) => if q == p then None else before
    case (SetMembers(q, guids, memberships, _), _) => if q == p then Given(g, guids, memberships) else before
    case (AddMembers(q, guids, memberships), Count(_)) =>
      if q == p && Given(g, guids, memberships).Some? then Given(g, guids, memberships) else before
    case (RemoveMembers(q, guids), Removed(_, _)) => if q == p && Named(g, guids) then None else before
    case _ => before
  }

  /** The same over a whole run. */
  ghost function Remembered(p: string, g: string, calls: seq<Call>, replies: seq<Response>): Option<string>
    requires |calls| == |replies|
  {
    if calls == [] then None
    else
      var n := |calls| - 1;
      Remember(p, g, Remembered(p, g, calls[..n], replies[..n]), calls[n], replies[n])
  }

  /** What a client remembers of the flag of partition `p`; None is no partition. */
  function RememberFlag(p: string, before: Option<bool>, c: Call, reply: Response): Option<bool> {
    match (c, reply)
    case (Reset, _) => None
    case (Create(q, ip), Done) => if q == p then Some(ip) else before
    case (SetMembers(q, _, _, ip), _) => if q == p then Some(ip) else before
    case (RemoveMembers(q, _), Removed(_, gone)) => if q == p && gone then None else before
    case _ => before
  }

  function RememberedFlag(p: string, calls: seq<Call>, replies: seq<Response>): Option<bool>
    requires |calls| == |replies|
  {
    if calls == [] then None
    else
      var n := |calls| - 1;
      RememberFlag(p, RememberedFlag(p, calls[..n], replies[..n]), calls[n], replies[n])
  }

  function MemberOf(s: State, p: string, g: string): Option<string> {
    if p in s.at then s.at[p].guids.Get(Lower(g)) else None
  }

  function FlagOf(s: State, p: string): Option<bool> {
    if p in s.at then Some(s.at[p].ipOverIb) else None
  }

  lemma RememberIsRight(p: string, g: string, s: State, c: Call)
    requires ValidState(s)
    ensures Remember(p, g, MemberOf(s, p, g), c, Apply(s, c).reply) == MemberOf(Apply(s, c).state, p, g)
  {
    hide Pairs, Normalized, Lower, Given, Named, PutAll, Without, NoDuplicates;
    if c.SetMembers? {
      RequestGives(Empty(), g, c.guids, c.memberships);
    } else if c.AddMembers? && c.pkey in s.at {
      RequestGives(s.at[c.pkey].guids, g, c.guids, c.memberships);
    } else if c.RemoveMembers? && c.pkey in s.at {
      NormalizedNames(g, c.guids);
      RemovalForgets(s, p, g, c.pkey, c.guids);
    }
  }

  lemma RemovalForgets(s: State, p: string, g: string, q: string, guids: seq<string>)
    requires ValidState(s) && q in s.at
    ensures
      var after := Apply(s, RemoveMembers(q, guids)).state;
      MemberOf(after, p, g) == if q == p && Lower(g) in Normalized(guids) then None else MemberOf(s, p, g)
  {
    hide Normalized, Lower;
    EmptyingRemovalDeletes(s, q, Normalized(guids));
    assert s.at[q].guids.Valid();
  }

  lemma RememberFlagIsRight(p: string, s: State, c: Call)
    ensures RememberFlag(p, FlagOf(s, p), c, Apply(s, c).reply) == FlagOf(Apply(s, c).state, p)
  {
    hide Pairs, Normalized, PutAll, Without;
  }

  lemma {:induction false} RememberedIsRight(p: string, g: string, calls: seq<Call>)
    ensures
      var Outcomes(s, replies) := RunAll(Empty(), calls);
      && Remembered(p, g, calls, replies) == MemberOf(s, p, g)
      && RememberedFlag(p, calls, replies) == FlagOf(s, p)
  {
    if calls != [] {
      hide Remember, RememberFlag, MemberOf, FlagOf, Apply;
      var n := |calls| - 1;
      var before := RunAll(Empty(), calls[..n]);
      RememberedIsRight(p, g, calls[..n]);
      RunAllValid(Empty(), calls[..n]);
      RememberIsRight(p, g, before.state, calls[n]);
      RememberFlagIsRight(p, before.state, calls[n]);
      assert RunAll(Empty(), calls).replies[..n] == before.replies;
    } else {
      NothingRemembered(p, g);
    }
  }

  lemma NothingRemembered(p: string, g: string)
    ensures MemberOf(Empty(), p, g) == None && FlagOf(Empty(), p) == None
  {
  }

  /** A call is refused, with nothing changed, exactly when it creates what is there (409) or
      needs what is not there (404). */
  lemma RefusedExactlyWhen(s: State, c: Call)
    ensures c.Create? && c.pkey in s.at ==> Apply(s, c).reply == Refused(409, c.pkey)
    ensures (c.Get? || c.AddMembers? || c.RemoveMembers?) && c.pkey !in s.at ==>
              Apply(s, c).reply == Refused(404, c.pkey)
    ensures Apply(s, c).reply.Refused? <==>
      (c.Create? && c.pkey in s.at) || ((c.Get? || c.AddMembers? || c.RemoveMembers?) && c.pkey !in s.at)
    ensures Apply(s, c).reply.Refused? ==> Apply(s, c).state == s
  {
  }

  /** After every run, `get` answers what requests and responses so far say: 404 without the
      partition, else its name, the flag of its last create or set, and for every GUID in any
      casing the membership it was last given and not removed from. */
  lemma GetAnswersFromHistory(p: string, calls: seq<Call>)
    ensures
      var Outcomes(s, replies) := RunAll(Empty(), calls);
      var flag := RememberedFlag(p, calls, replies);
      && Apply(s, Get(p, true)).state == s == Apply(s, Get(p, false)).state
      && (flag == None ==> Apply(s, Get(p, false)).reply == Refused(404, p) == Apply(s, Get(p, true)).reply)
      && (flag.Some? ==>
          && Apply(s, Get(p, false)).reply == OneSummary(Summary("ib-pkey-" + p, flag.value))
          && Apply(s, Get(p, true)).reply.OneDetail?
          && Apply(s, Get(p, true)).reply.detail.summary == Summary("ib-pkey-" + p, flag.value)
          && forall g :: Stores(Apply(s, Get(p, true)).reply.detail.guids, g, Remembered(p, g, calls, replies)))
  {
    hide Remembered, RememberedFlag, Stores, RunAll;
    var Outcomes(s, replies) := RunAll(Empty(), calls);
    RunsStayReachable(calls);
    RememberedIsRight(p, "", calls);
    if p in s.at {
      assert Clean(p, s.at[p]);
      forall g ensures Stores(s.at[p].guids, g, Remembered(p, g, calls, replies)) {
        RememberedIsRight(p, g, calls);
        LookupIsStores(s.at[p].guids, g);
      }
    }
  }

  /** `snapshot` and `list_summaries` list the partitions in order and change nothing; each
      entry is what `get` answers. */
  lemma ListingsAgreeWithGet(s: State)
    ensures Apply(s, Snapshot).state == s == Apply(s, ListSummaries).state
    ensures Apply(s, Snapshot).reply.AllDetails? && Apply(s, ListSummaries).reply.AllSummaries?
    ensures
      var details, summaries := Apply(s, Snapshot).reply.details, Apply(s, ListSummaries).reply.summaries;
      && details.order == s.order == summaries.order
      && details.at.Keys == s.at.Keys == summaries.at.Keys
      && forall p :: p in s.at ==>
           && Apply(s, Get(p, true)).reply == OneDetail(details.at[p])
           && Apply(s, Get(p, false)).reply == OneSummary(summaries.at[p])
  {
  }

  /** A new partition comes last in the listing. */
  lemma NewPartitionsComeLast(s: State, c: Call)
    requires s.Valid() && (c.Create? || c.SetMembers?)
    ensures Apply(s, c).state.order == if c.pkey in s.at then s.order else s.order + [c.pkey]
  {
  }

  // ----- The endpoints

  /** A PUT that is not answered 400 gives every GUID, in any casing, the membership at its last
      place in the plural list, or the single membership if there is no such list; GUIDs it
      does not name are no members. */
  lemma PutStores(s: State, req: PKeyRequest, g: string)
    requires Reachable(s) && MembershipsSet(req).Some?
    ensures
      var after := Apply(s, SetMembers(req.pkey, req.guids, MembershipsSet(req).value, req.ipOverIb)).state;
      && req.pkey in after.at && after.at[req.pkey].ipOverIb == req.ipOverIb
      && Stores(after.at[req.pkey].guids, g,
                if req.memberships.Some? then Given(g, req.guids, req.memberships.value)
                else if Named(g, req.guids) then Some(req.membership) else None)
  {
    hide Pairs, Stores, PutAll, CaseEqual, Lower;
    var call := SetMembers(req.pkey, req.guids, MembershipsSet(req).value, req.ipOverIb);
    ApplyKeepsReachable(s, call);
    var after := Apply(s, call).state;
    assert Clean(req.pkey, after.at[req.pkey]);
    RequestGives(Empty(), g, req.guids, MembershipsSet(req).value);
    LookupIsStores(after.at[req.pkey].guids, g);
    if req.memberships == None {
      SingleGiven(g, req.guids, MembershipsSet(req).value, req.membership, |req.guids|);
    }
  }

  /** A POST gives every GUID it names, in any casing, the single membership, plural list or
      not, and leaves the others. */
  lemma PostStores(s: State, req: PKeyRequest, g: string, before: Option<string>)
    requires Reachable(s) && req.pkey in s.at && Stores(s.at[req.pkey].guids, g, before)
    ensures
      var after := Apply(s, AddMembers(req.pkey, req.guids, MembershipsAdd(req))).state;
      && req.pkey in after.at
      && Stores(after.at[req.pkey].guids, g, if Named(g, req.guids) then Some(req.membership) else before)
  {
    hide Pairs, Stores, PutAll, CaseEqual, Lower;
    var call := AddMembers(req.pkey, req.guids, MembershipsAdd(req));
    ApplyKeepsReachable(s, call);
    var members, after := s.at[req.pkey].guids, Apply(s, call).state;
    assert Clean(req.pkey, s.at[req.pkey]) && Clean(req.pkey, after.at[req.pkey]);
    RequestGives(members, g, req.guids, MembershipsAdd(req));
    LookupIsStores(members, g);
    LookupIsStores(after.at[req.pkey].guids, g);
    StoresOnce(members, g, before, members.Get(Lower(g)));
    SingleGiven(g, req.guids, MembershipsAdd(req), req.membership, |req.guids|);
  }

  lemma StoresOnce(members: Members, g: string, a: Option<string>, b: Option<string>)
    requires Stores(members, g, a) && Stores(members, g, b)
    ensures a == b
  {
    hide CaseEqual;
  }

  lemma {:induction false} SingleGiven(g: string, guids: seq<string>, memberships: seq<string>, membership: string,
                                       n: nat)
    requires n <= |guids| == |memberships| && forall i :: 0 <= i < |memberships| ==> memberships[i] == membership
    ensures GivenBy(g, guids, memberships, n)
         == if exists i :: 0 <= i < n && guids[i] != "" && CaseEqual(guids[i], g) then Some(membership) else None
  {
    if n > 0 {
      hide CaseEqual;
      SingleGiven(g, guids, memberships, membership, n - 1);
    }
  }
}
