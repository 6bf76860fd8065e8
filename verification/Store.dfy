/** The store object: partitions updated in place, one call at a time. */
module Store {
  import opened Dicts
  import opened Options
  import opened Sequences
  import opened Partitions

  class PKeyState {
    const pkey: string
    var ipOverIb: bool
    var guids: Members

    constructor (pkey: string, ipOverIb: bool)
      ensures this.pkey == pkey && this.ipOverIb == ipOverIb && this.guids == Empty()
    {
      this.pkey := pkey;
      this.ipOverIb := ipOverIb;
      this.guids := Empty();
    }

    function Value(): Partition
      reads this
    {
      Partition(pkey, ipOverIb, guids)
    }

    /** The loop of `add_members`: each pair is written, new GUIDs are counted. */
    method Assign(pairs: seq<Member>) returns (added: nat)
      requires guids.Valid()
      modifies `guids
      ensures guids.Valid() && guids == PutAll(old(guids), pairs)
      ensures added == |guids.order| - |old(guids.order)|
    {
      added := 0;
      for i := 0 to |pairs|
        invariant guids.Valid()
        invariant guids == PutAll(old(guids), pairs[..i])
        invariant added == |guids.order| - |old(guids.order)|
      {
        assert pairs[..i + 1][..i] == pairs[..i];
        if pairs[i].key !in guids.at {
          added := added + 1;
        }
        PutValid(guids, pairs[i].key, pairs[i].value);
        guids := Put(guids, pairs[i].key, pairs[i].value);
      }
      assert pairs[..|pairs|] == pairs;
    }

    /** The loop of `remove_members`: each GUID is popped, hits are counted. */
    method Discard(normalized: seq<string>) returns (removed: nat)
      requires guids.Valid()
      modifies `guids
      ensures guids.Valid() && guids == DropAll(old(guids), SetOf(normalized))
      ensures removed == |old(guids.order)| - |guids.order|
    {
      removed := 0;
      DropNothing(guids, SetOf(normalized[..0]));
      for i := 0 to |normalized|
        invariant guids.Valid()
        invariant guids == DropAll(old(guids), SetOf(normalized[..i]))
        invariant removed == |old(guids.order)| - |guids.order|
      {
        DropOneMore(old(guids), SetOf(normalized[..i]), normalized[i]);
        assert SetOf(normalized[..i + 1]) == SetOf(normalized[..i]) + {normalized[i]};
        if normalized[i] in guids.at {
          removed := removed + 1;
        }
        PopSize(guids, normalized[i]);
        DropAllValid(guids, {normalized[i]});
        guids := Pop(guids, normalized[i]);
      }
      assert normalized[..|normalized|] == normalized;
    }
  }

  class PartitionStore {
    var pkeys: Dict<string, PKeyState>
    ghost var contents: State  // the partitions as plain values

    /** Each partition object sits under its own `pkey`, so no two keys share one. */
    ghost predicate Valid()
      reads this, pkeys.at.Values
    {
      && pkeys.Valid()
      && contents.order == pkeys.order
      && contents.at.Keys == pkeys.at.Keys
      && (forall k :: k in pkeys.at ==> Holds(k))
    }

    ghost predicate Holds(k: string)
      requires k in pkeys.at && k in contents.at
      reads this, pkeys.at.Values
    {
      && pkeys.at[k].pkey == k
      && pkeys.at[k].guids.Valid()
      && pkeys.at[k].Value() == contents.at[k]
    }

    lemma ContentsValid()
      requires Valid()
      ensures ValidState(contents)
    {
      forall k | k in contents.at ensures contents.at[k].guids.Valid() {
        assert Holds(k);
      }
    }

    constructor ()
      ensures Valid() && contents == Empty()
    {
      pkeys := Empty();
      contents := Empty();
    }

    method Reset()
      requires Valid()
      modifies this
      ensures Valid() && contents == Apply(old(contents), Call.Reset).state
    {
      pkeys := Empty();
      contents := Empty();
    }

    method Snapshot() returns (details: Dict<string, Detail>)
      requires Valid()
      ensures AllDetails(details) == Apply(contents, Call.Snapshot).reply
    {
      details := Empty();
      for i := 0 to |pkeys.order|
        invariant CutOff(details, DetailsOf(contents)) && |details.order| == i
      {
        CutOffMore(details, DetailsOf(contents));
        var k := pkeys.order[i];
        assert Holds(k);
        details := Put(details, k, ToDetail(pkeys.at[k].Value()));
      }
      CutOffAll(details, DetailsOf(contents));
    }

    method ListSummaries() returns (summaries: Dict<string, Summary>)
      requires Valid()
      ensures AllSummaries(summaries) == Apply(contents, Call.ListSummaries).reply
    {
      summaries := Empty();
      for i := 0 to |pkeys.order|
        invariant CutOff(summaries, SummariesOf(contents)) && |summaries.order| == i
      {
        CutOffMore(summaries, SummariesOf(contents));
        var k := pkeys.order[i];
        assert Holds(k);
        summaries := Put(summaries, k, ToSummary(pkeys.at[k].Value()));
      }
      CutOffAll(summaries, SummariesOf(contents));
    }

    method Create(pkey: string, ipOverIb: bool) returns (r: Response)
      requires Valid()
      modifies this
      ensures Valid() && Outcome(contents, r) == Apply(old(contents), Call.Create(pkey, ipOverIb))
    {
      if pkey in pkeys.at {
        return Refused(409, pkey);
      }
      var created := Insert(pkey, ipOverIb);
      r := Done;
    }

    /** `self._pkeys[pkey] = _PKeyState(pkey=pkey, ip_over_ib=ip_over_ib)` */
    method Insert(pkey: string, ipOverIb: bool) returns (created: PKeyState)
      requires Valid() && pkey !in pkeys.at
      modifies this
      ensures Valid() && fresh(created) && pkeys.Get(pkey) == Some(created)
      ensures pkeys == Put(old(pkeys), pkey, created)
      ensures contents == Put(old(contents), pkey, Partition(pkey, ipOverIb, Empty()))
    {
      created := new PKeyState(pkey, ipOverIb);
      PutValid(pkeys, pkey, created);
      pkeys := Put(pkeys, pkey, created);
      contents := Put(contents, pkey, created.Value());
    }

    /** Writes both fields of a partition that is there. */
    method Overwrite(state: PKeyState, ipOverIb: bool, members: Members)
      requires Valid() && pkeys.Get(state.pkey) == Some(state) && members.Valid()
      modifies this`contents, state
      ensures Valid() && contents == Put(old(contents), state.pkey, Partition(state.pkey, ipOverIb, members))
      ensures state.guids == members
    {
      state.ipOverIb := ipOverIb;
      state.guids := members;
      contents := Put(contents, state.pkey, state.Value());
    }

    method Get(pkey: string, withGuids: bool) returns (r: Response)
      requires Valid()
      ensures r == Apply(contents, Call.Get(pkey, withGuids)).reply
    {
      var state := pkeys.Get(pkey);
      if state == None {
        return Refused(404, pkey);
      }
      assert Holds(pkey);
      if withGuids {
        r := OneDetail(ToDetail(state.value.Value()));
      } else {
        r := OneSummary(ToSummary(state.value.Value()));
      }
    }

    method SetMembers(pkey: string, guids: seq<string>, memberships: seq<string>, ipOverIb: bool)
      returns (r: Response)
      requires Valid()
      modifies this, pkeys.at.Values
      ensures Valid()
      ensures Outcome(contents, r) == Apply(old(contents), Call.SetMembers(pkey, guids, memberships, ipOverIb))
    {
      hide PutAll, Pairs;
      var pairs := Pairs(guids, memberships);
      PutAllValid(Empty(), pairs);
      var found := pkeys.Get(pkey);
      var state: PKeyState;
      if found == None {
        state := Insert(pkey, ipOverIb);
        PutTwice(old(contents), pkey, state.Value(), Partition(pkey, ipOverIb, PutAll(Empty(), pairs)));
      } else {
        state := found.value;
        assert Holds(pkey);
      }
      Overwrite(state, ipOverIb, PutAll(Empty(), pairs));
      r := Count(|state.guids.order|);
    }

    method AddMembers(pkey: string, guids: seq<string>, memberships: seq<string>) returns (r: Response)
      requires Valid()
      modifies this`contents, pkeys.at.Values
      ensures Valid()
      ensures Outcome(contents, r) == Apply(old(contents), Call.AddMembers(pkey, guids, memberships))
    {
      hide PutAll, Pairs, NoDuplicates;
      var pairs := Pairs(guids, memberships);
      var found := pkeys.Get(pkey);
      if found == None {
        return Refused(404, pkey);
      }
      var added := found.value.Assign(pairs);
      contents := Put(contents, pkey, found.value.Value());
      r := Count(added);
    }

    method RemoveMembers(pkey: string, guids: seq<string>) returns (r: Response)
      requires Valid()
      modifies this, pkeys.at.Values
      ensures Valid()
      ensures Outcome(contents, r) == Apply(old(contents), Call.RemoveMembers(pkey, guids))
    {
      hide Without, Normalized, NoDuplicates;
      var normalized := Normalized(guids);
      var found := pkeys.Get(pkey);
      if found == None {
        return Refused(404, pkey);
      }
      var state: PKeyState := found.value;
      var removed := state.Discard(normalized);
      var pkeyRemoved := removed > 0 && state.guids.order == [];
      if pkeyRemoved {
        DropAllValid(pkeys, {pkey});
        pkeys := Pop(pkeys, pkey);
        contents := Pop(contents, pkey);
      } else {
        contents := Put(contents, pkey, state.Value());
      }
      r := Removed(removed, pkeyRemoved);
    }
  }
}
