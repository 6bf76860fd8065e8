/**
 The state of the mock UFM server and what one call of its store does to it:
 the specification that the `Store` class and the lock-step system refine.
 */
module Partitions {
  import opened Dicts
  import opened Options
  import opened Sequences

  /** One PKey partition; `guids` maps a lower-case GUID to its membership. */
  datatype Partition = Partition(pkey: string, ipOverIb: bool, guids: Members)

  type State = Dict<string, Partition>

  datatype Summary = Summary(partition: string, ipOverIb: bool)

  datatype Detail = Detail(summary: Summary, guids: Members)

  datatype Call =
    | Reset
    | Snapshot
    | ListSummaries
    | Create(pkey: string, ipOverIb: bool)
    | Get(pkey: string, withGuids: bool)
    | SetMembers(pkey: string, guids: seq<string>, memberships: seq<string>, ipOverIb: bool)
    | AddMembers(pkey: string, guids: seq<string>, memberships: seq<string>)
    | RemoveMembers(pkey: string, guids: seq<string>)

  /** `Refused` is an HTTPException. */
  datatype Response =
    | Done
    | Count(n: nat)
    | Removed(n: nat, pkeyRemoved: bool)
    | OneSummary(summary: Summary)
    | OneDetail(detail: Detail)
    | AllSummaries(summaries: Dict<string, Summary>)
    | AllDetails(details: Dict<string, Detail>)
    | Refused(status: nat, pkey: string)

  /** A call's effect: the state it leaves and the response it gives. */
  datatype Outcome = Outcome(state: State, reply: Response)

  /** The same for a list of calls. */
  datatype Outcomes = Outcomes(state: State, replies: seq<Response>)

  /** A member map: GUID to membership. */
  type Members = Dict<string, string>

  /** One member of a request. */
  type Member = Pair<string, string>

  // ----- GUIDs

  function LowerChar(c: char): char {
    if 'A' <= c <= 'Z' then (c as int + 32) as char else c
  }

  /** `g.lower()`, on ASCII letters. */
  function Lower(g: string): string {
    seq(|g|, i requires 0 <= i < |g| => LowerChar(g[i]))
  }

  /** The same letter, in one case or the other, or the same other character. */
  predicate SameLetter(a: char, b: char) {
    || a == b
    || ('A' <= a <= 'Z' && b as int == a as int + 32)
    || ('A' <= b <= 'Z' && a as int == b as int + 32)
  }

  /** The same text up to casing. */
  ghost predicate CaseEqual(a: string, b: string) {
    |a| == |b| && forall i :: 0 <= i < |a| ==> SameLetter(a[i], b[i])
  }

  /** No capital letter in it. */
  ghost predicate IsLower(g: string) {
    forall i :: 0 <= i < |g| ==> !('A' <= g[i] <= 'Z')
  }

  /** The (lower-case GUID, membership) pairs of a request: `zip` stops at the
      shorter list and blank GUIDs are dropped. */
  function Pairs(guids: seq<string>, memberships: seq<string>): seq<Member> {
    if guids == [] || memberships == [] then []
    else
      (if guids[0] == "" then [] else [Pair(Lower(guids[0]), memberships[0])])
      + Pairs(guids[1..], memberships[1..])
  }

  /** The GUIDs of a removal: blanks dropped, the rest lower-cased. */
  function Normalized(guids: seq<string>): seq<string> {
    if guids == [] then []
    else (if guids[0] == "" then [] else [Lower(guids[0])]) + Normalized(guids[1..])
  }

  // ----- Views

  function ToSummary(p: Partition): Summary {
    Summary("ib-pkey-" + p.pkey, p.ipOverIb)
  }

  function ToDetail(p: Partition): Detail {
    Detail(ToSummary(p), p.guids)
  }

  function SummariesOf(s: State): Dict<string, Summary> {
    Dict(s.order, map k | k in s.at :: ToSummary(s.at[k]))
  }

  function DetailsOf(s: State): Dict<string, Detail> {
    Dict(s.order, map k | k in s.at :: ToDetail(s.at[k]))
  }

  // ----- Calls

  function CreateIn(s: State, p: string, ip: bool): Outcome {
    if p in s.at then Outcome(s, Refused(409, p))
    else Outcome(Put(s, p, Partition(p, ip, Empty())), Done)
  }

  function GetIn(s: State, p: string, withGuids: bool): Response {
    if p !in s.at then Refused(404, p)
    else if withGuids then OneDetail(ToDetail(s.at[p]))
    else OneSummary(ToSummary(s.at[p]))
  }

  function SetIn(s: State, p: string, pairs: seq<Member>, ip: bool): Outcome {
    var members := PutAll(Empty(), pairs);
    var own := if p in s.at then s.at[p].pkey else p;
    Outcome(Put(s, p, Partition(own, ip, members)), Count(|members.order|))
  }

  function AddIn(s: State, p: string, pairs: seq<Member>): Outcome {
    if p !in s.at then Outcome(s, Refused(404, p))
    else
      var before := s.at[p];
      var members := PutAll(before.guids, pairs);
      Outcome(Put(s, p, before.(guids := members)), Count(|members.order| - |before.guids.order|))
  }

  function RemoveIn(s: State, p: string, normalized: seq<string>): Outcome {
    if p !in s.at then Outcome(s, Refused(404, p))
    else
      var members := DropAll(s.at[p].guids, SetOf(normalized));
      Conclude(s, p, members, |s.at[p].guids.order| - |members.order|)
  }

  /** The end of a removal: the partition goes if members were removed and none is left. */
  function Conclude(s: State, p: string, members: Members, removed: nat): Outcome
    requires p in s.at
  {
    if removed > 0 && members.order == [] then Outcome(Pop(s, p), Removed(removed, true))
    else Outcome(Put(s, p, s.at[p].(guids := members)), Removed(removed, false))
  }

  /** One whole store call, run alone. */
  function Apply(s: State, c: Call): Outcome {
    match c
    case Reset => Outcome(Empty(), Done)
    case Snapshot => Outcome(s, AllDetails(DetailsOf(s)))
    case ListSummaries => Outcome(s, AllSummaries(SummariesOf(s)))
    case Create(p, ip) => CreateIn(s, p, ip)
    case Get(p, withGuids) => Outcome(s, GetIn(s, p, withGuids))
    case SetMembers(p, guids, memberships, ip) => SetIn(s, p, Pairs(guids, memberships), ip)
    case AddMembers(p, guids, memberships) => AddIn(s, p, Pairs(guids, memberships))
    case RemoveMembers(p, guids) => RemoveIn(s, p, Normalized(guids))
  }

  /** Calls run one after the other: the final state and every response. */
  function RunAll(s: State, calls: seq<Call>): (r: Outcomes)
    ensures |r.replies| == |calls|
  {
    if calls == [] then Outcomes(s, [])
    else
      var before := RunAll(s, calls[..|calls| - 1]);
      var after := Apply(before.state, calls[|calls| - 1]);
      Outcomes(after.state, before.replies + [after.reply])
  }

  // ----- Well-formed states

  ghost predicate ValidState(s: State) {
    && s.Valid()
    && (forall k :: k in s.at ==> s.at[k].guids.Valid())
  }

  /** A partition as the server stores it under key `k`: its own `pkey` is `k` and
      every member GUID is non-blank and without capital letters. */
  ghost predicate Clean(k: string, p: Partition) {
    && p.pkey == k
    && p.guids.Valid()
    && (forall g :: g in p.guids.at ==> g != "" && IsLower(g))
  }

  /** What holds of every state the server can reach. */
  ghost predicate Reachable(s: State) {
    && s.Valid()
    && (forall k :: k in s.at ==> Clean(k, s.at[k]))
  }

  lemma PutPartitionValid(s: State, k: string, p: Partition)
    requires ValidState(s) && p.guids.Valid()
    ensures ValidState(Put(s, k, p))
  {
    PutValid(s, k, p);
  }

  lemma ApplyValid(s: State, c: Call)
    requires ValidState(s)
    ensures ValidState(Apply(s, c).state)
  {
    match c
    case Create(p, ip) => PutPartitionValid(s, p, Partition(p, ip, Empty()));
    case SetMembers(p, guids, memberships, ip) =>
      PutAllValid(Empty(), Pairs(guids, memberships));
      PutPartitionValid(s, p, Apply(s, c).state.at[p]);
    case AddMembers(p, guids, memberships) =>
      if p in s.at {
        PutAllValid(s.at[p].guids, Pairs(guids, memberships));
        PutPartitionValid(s, p, Apply(s, c).state.at[p]);
      }
    case RemoveMembers(p, guids) =>
      if p in s.at {
        var members := DropAll(s.at[p].guids, SetOf(Normalized(guids)));
        DropAllValid(s.at[p].guids, SetOf(Normalized(guids)));
        PutPartitionValid(s, p, s.at[p].(guids := members));
        DropAllValid(s, {p});
      }
    case _ =>
  }

  lemma {:induction false} RunAllValid(s: State, calls: seq<Call>)
    requires ValidState(s)
    ensures ValidState(RunAll(s, calls).state)
  {
    if calls != [] {
      RunAllValid(s, calls[..|calls| - 1]);
      ApplyValid(RunAll(s, calls[..|calls| - 1]).state, calls[|calls| - 1]);
    }
  }
}
