/**
 The store under threads: every call is split into taking the lock, one step per
 assignment or loop iteration, and giving the lock back, and the steps of any number
 of threads interleave freely.
 */
module LockSteps {
  import opened Dicts
  import opened Options
  import opened Sequences
  import opened Partitions

  // ----- The steps of one call

  /** Where a call holding the lock stands. */
  datatype Pc =
    | Entered
    | Inserting                                   // key absent, new partition object made
    | Flagging                                    // set_members: about to write ip_over_ib
    | Assigning                                   // set_members: about to write the members
    | Counting
    | Adding(i: nat, added: nat)
    | Removing(i: nat, removed: nat)
    | Deleting(removed: nat)
    | Describing(summary: Summary)                // get: summary read, members not yet
    | Summarizing(summaries: Dict<string, Summary>)
    | Dumping(details: Dict<string, Detail>)
    | Returning(reply: Response)                  // result or HTTPException on its way out

  /** The effect of one step: the store it leaves and where the call then stands. */
  datatype Progress = Progress(state: State, pc: Pc)

  ghost predicate PcFits(s: State, c: Call, pc: Pc) {
    match pc
    case Entered => true
    case Inserting => (c.Create? || c.SetMembers?) && c.pkey !in s.at
    case Flagging => c.SetMembers? && c.pkey in s.at
    case Assigning => c.SetMembers? && c.pkey in s.at
    case Counting => c.SetMembers? && c.pkey in s.at
    case Adding(i, _) => c.AddMembers? && c.pkey in s.at && i <= |Pairs(c.guids, c.memberships)|
    case Removing(i, _) => c.RemoveMembers? && c.pkey in s.at && i <= |Normalized(c.guids)|
    case Deleting(_) => c.RemoveMembers? && c.pkey in s.at
    case Describing(_) => c.Get? && c.pkey in s.at
    case Summarizing(part) => c.ListSummaries? && CutOff(part, SummariesOf(s))
    case Dumping(part) => c.Snapshot? && CutOff(part, DetailsOf(s))
    case Returning(_) => true
  }

  /** The first step under the lock: the lookup, or all there is to do. */
  function Enter(s: State, c: Call): Progress {
    match c
    case Reset => Progress(Empty(), Returning(Done))
    case Snapshot => Progress(s, Dumping(Empty()))
    case ListSummaries => Progress(s, Summarizing(Empty()))
    case Create(p, _) => Progress(s, if p in s.at then Returning(Refused(409, p)) else Inserting)
    case Get(p, withGuids) =>
      if p !in s.at then Progress(s, Returning(Refused(404, p)))
      else if withGuids then Progress(s, Describing(ToSummary(s.at[p])))
      else Progress(s, Returning(OneSummary(ToSummary(s.at[p]))))
    case SetMembers(p, _, _, _) => Progress(s, if p in s.at then Flagging else Inserting)
    case AddMembers(p, _, _) => Progress(s, if p in s.at then Adding(0, 0) else Returning(Refused(404, p)))
    case RemoveMembers(p, _) => Progress(s, if p in s.at then Removing(0, 0) else Returning(Refused(404, p)))
  }

  /** `state.guids = members` for the partition under key `p`. */
  function WriteMembers(s: State, p: string, members: Members): State
    requires p in s.at
  {
    Put(s, p, s.at[p].(guids := members))
  }

  /** The assignments of `create` and `set_members`. */
  function WriteStep(s: State, c: Call, pc: Pc): Progress
    requires PcFits(s, c, pc) && (pc.Inserting? || pc.Flagging? || pc.Assigning? || pc.Counting?)
  {
    match pc
    case Inserting =>
      var bare := Partition(c.pkey, c.ipOverIb, Empty());
      Progress(Put(s, c.pkey, bare), if c.Create? then Returning(Done) else Flagging)
    case Flagging => Progress(Put(s, c.pkey, s.at[c.pkey].(ipOverIb := c.ipOverIb)), Assigning)
    case Assigning => Progress(WriteMembers(s, c.pkey, PutAll(Empty(), Pairs(c.guids, c.memberships))), Counting)
    case Counting => Progress(s, Returning(Count(|s.at[c.pkey].guids.order|)))
  }

  /** One pass of the loop in `add_members`, or its end. */
  function AddStep(s: State, p: string, pairs: seq<Member>, i: nat, added: nat): Progress
    requires p in s.at && i <= |pairs|
  {
    if i == |pairs| then Progress(s, Returning(Count(added)))
    else
      var members := s.at[p].guids;
      Progress(WriteMembers(s, p, Put(members, pairs[i].key, pairs[i].value)),
               Adding(i + 1, if pairs[i].key in members.at then added else added + 1))
  }

  /** One pass of the loop in `remove_members`, or its end. */
  function RemoveStep(s: State, p: string, names: seq<string>, i: nat, removed: nat): Progress
    requires p in s.at && i <= |names|
  {
    if i == |names| then Progress(s, Deleting(removed))
    else
      var members := s.at[p].guids;
      Progress(WriteMembers(s, p, Pop(members, names[i])),
               Removing(i + 1, if names[i] in members.at then removed + 1 else removed))
  }

  function DeleteStep(s: State, p: string, removed: nat): Progress
    requires p in s.at
  {
    if removed > 0 && s.at[p].guids.order == [] then Progress(Pop(s, p), Returning(Removed(removed, true)))
    else Progress(s, Returning(Removed(removed, false)))
  }

  /** The loops of `snapshot` and `list_summaries`, and the second half of a detailed `get`. */
  function ReadStep(s: State, c: Call, pc: Pc): Pc
    requires PcFits(s, c, pc) && s.Valid() && (pc.Describing? || pc.Summarizing? || pc.Dumping?)
  {
    match pc
    case Describing(summary) => Returning(OneDetail(Detail(summary, s.at[c.pkey].guids)))
    case Summarizing(part) =>
      if |part.order| == |s.order| then Returning(AllSummaries(part))
      else
        var k := s.order[|part.order|];
        Summarizing(Put(part, k, ToSummary(s.at[k])))
    case Dumping(part) =>
      if |part.order| == |s.order| then Returning(AllDetails(part))
      else
        var k := s.order[|part.order|];
        Dumping(Put(part, k, ToDetail(s.at[k])))
  }

  /** One step of the call that holds the lock. */
  function Micro(s: State, c: Call, pc: Pc): Progress
    requires PcFits(s, c, pc) && s.Valid() && !pc.Returning?
  {
    match pc
    case Entered => Enter(s, c)
    case Adding(i, added) => AddStep(s, c.pkey, Pairs(c.guids, c.memberships), i, added)
    case Removing(i, removed) => RemoveStep(s, c.pkey, Normalized(c.guids), i, removed)
    case Deleting(removed) => DeleteStep(s, c.pkey, removed)
    case Describing(_) => Progress(s, ReadStep(s, c, pc))
    case Summarizing(_) => Progress(s, ReadStep(s, c, pc))
    case Dumping(_) => Progress(s, ReadStep(s, c, pc))
    case Inserting => WriteStep(s, c, pc)
    case Flagging => WriteStep(s, c, pc)
    case Assigning => WriteStep(s, c, pc)
    case Counting => WriteStep(s, c, pc)
  }

  // ----- What a half-done call still owes

  /** The outcome of adding `pairs` to the members as they are, `added` having been counted before. */
  function AddOwed(s: State, p: string, pairs: seq<Member>, added: nat): Outcome
    requires p in s.at
  {
    var before := s.at[p].guids;
    var after := PutAll(before, pairs);
    Outcome(WriteMembers(s, p, after), Count(added + (|after.order| - |before.order|)))
  }

  /** The outcome of removing `names` from the members as they are, `removed` having been counted before. */
  function RemoveOwed(s: State, p: string, names: set<string>, removed: nat): Outcome
    requires p in s.at
  {
    var before := s.at[p].guids;
    var after := DropAll(before, names);
    Conclude(s, p, after, removed + (|before.order| - |after.order|))
  }

  /** The final state and response of a call that stands at `pc`, if nobody else touches the store. */
  function Owed(s: State, c: Call, pc: Pc): Outcome
    requires PcFits(s, c, pc)
  {
    match pc
    case Entered => Apply(s, c)
    case Inserting =>
      if c.Create? then CreateIn(s, c.pkey, c.ipOverIb)
      else SetIn(s, c.pkey, Pairs(c.guids, c.memberships), c.ipOverIb)
    case Flagging => SetIn(s, c.pkey, Pairs(c.guids, c.memberships), c.ipOverIb)
    case Assigning =>
      SetIn(s, c.pkey, Pairs(c.guids, c.memberships), s.at[c.pkey].ipOverIb)
    case Counting => Outcome(s, Count(|s.at[c.pkey].guids.order|))
    case Adding(i, added) => AddOwed(s, c.pkey, Pairs(c.guids, c.memberships)[i..], added)
    case Removing(i, removed) => RemoveOwed(s, c.pkey, SetOf(Normalized(c.guids)[i..]), removed)
    case Deleting(removed) => Conclude(s, c.pkey, s.at[c.pkey].guids, removed)
    case Describing(summary) => Outcome(s, OneDetail(Detail(summary, s.at[c.pkey].guids)))
    case Summarizing(_) => Outcome(s, AllSummaries(SummariesOf(s)))
    case Dumping(_) => Outcome(s, AllDetails(DetailsOf(s)))
    case Returning(reply) => Outcome(s, reply)
  }

  // ----- No step changes what is owed

  lemma WriteTwice(s: State, p: string, a: Members, b: Members)
    requires p in s.at
    ensures WriteMembers(WriteMembers(s, p, a), p, b) == WriteMembers(s, p, b)
  {
    assert s.at[p := s.at[p].(guids := a)][p := s.at[p].(guids := b)] == s.at[p := s.at[p].(guids := b)];
  }

  lemma WriteSame(s: State, p: string)
    requires p in s.at
    ensures WriteMembers(s, p, s.at[p].guids) == s
  {
    assert s.at[p := s.at[p]] == s.at;
  }

  lemma AddStepOwes(s: State, p: string, pairs: seq<Member>, i: nat, added: nat)
    requires p in s.at && i < |pairs|
    ensures
      var next := AddStep(s, p, pairs, i, added);
      AddOwed(next.state, p, pairs[i + 1..], next.pc.added) == AddOwed(s, p, pairs[i..], added)
  {
    var before := s.at[p].guids;
    var put := Put(before, pairs[i].key, pairs[i].value);
    PutAllFront(before, pairs[i], pairs[i + 1..]);
    assert pairs[i..] == [pairs[i]] + pairs[i + 1..];
    WriteTwice(s, p, put, PutAll(put, pairs[i + 1..]));
  }

  lemma AddEndOwes(s: State, p: string, added: nat)
    requires p in s.at
    ensures AddOwed(s, p, [], added) == Outcome(s, Count(added))
  {
    WriteSame(s, p);
  }

  lemma ConcludeAfterWrite(s: State, p: string, a: Members, b: Members, removed: nat)
    requires p in s.at
    ensures Conclude(WriteMembers(s, p, a), p, b, removed) == Conclude(s, p, b, removed)
  {
    if removed > 0 && b.order == [] {
      assert WriteMembers(s, p, a).at - {p} == s.at - {p};
    } else {
      WriteTwice(s, p, a, b);
    }
  }

  lemma RemoveStepOwes(s: State, p: string, names: seq<string>, i: nat, removed: nat)
    requires p in s.at && i < |names| && s.at[p].guids.Valid()
    ensures
      var next := RemoveStep(s, p, names, i, removed);
      RemoveOwed(next.state, p, SetOf(names[i + 1..]), next.pc.removed) == RemoveOwed(s, p, SetOf(names[i..]), removed)
  {
    var before := s.at[p].guids;
    PopSize(before, names[i]);
    DropOneThenRest(before, names[i..]);
    assert names[i..][1..] == names[i + 1..];
    var after := DropAll(before, SetOf(names[i..]));
    ConcludeAfterWrite(s, p, Pop(before, names[i]), after, removed + (|before.order| - |after.order|));
  }

  lemma DeleteStepOwes(s: State, p: string, removed: nat)
    requires p in s.at
    ensures
      var next := DeleteStep(s, p, removed);
      Outcome(next.state, next.pc.reply) == Conclude(s, p, s.at[p].guids, removed)
  {
    WriteSame(s, p);
  }

  lemma WriteStepOwes(s: State, c: Call, pc: Pc)
    requires PcFits(s, c, pc) && (pc.Inserting? || pc.Flagging? || pc.Assigning? || pc.Counting?)
    ensures
      var next := WriteStep(s, c, pc);
      PcFits(next.state, c, next.pc) && Owed(next.state, c, next.pc) == Owed(s, c, pc)
  {
    var p := c.pkey;
    var next := WriteStep(s, c, pc);
    if c.SetMembers? && !pc.Counting? {
      var full := Partition(if p in s.at then s.at[p].pkey else p, c.ipOverIb,
                            PutAll(Empty(), Pairs(c.guids, c.memberships)));
      assert next.state.at[p := full] == s.at[p := full];
    }
  }

  lemma ReadStepOwes(s: State, c: Call, pc: Pc)
    requires PcFits(s, c, pc) && s.Valid() && (pc.Describing? || pc.Summarizing? || pc.Dumping?)
    ensures
      var next := ReadStep(s, c, pc);
      PcFits(s, c, next) && Owed(s, c, next) == Owed(s, c, pc)
  {
    if pc.Summarizing? {
      if |pc.summaries.order| == |s.order| {
        CutOffAll(pc.summaries, SummariesOf(s));
      } else {
        CutOffMore(pc.summaries, SummariesOf(s));
      }
    } else if pc.Dumping? {
      if |pc.details.order| == |s.order| {
        CutOffAll(pc.details, DetailsOf(s));
      } else {
        CutOffMore(pc.details, DetailsOf(s));
      }
    }
  }

  lemma EnterOwes(s: State, c: Call)
    ensures
      var next := Enter(s, c);
      PcFits(next.state, c, next.pc) && Owed(next.state, c, next.pc) == Apply(s, c)
  {
    if c.AddMembers? {
      assert Pairs(c.guids, c.memberships)[0..] == Pairs(c.guids, c.memberships);
    } else if c.RemoveMembers? {
      assert Normalized(c.guids)[0..] == Normalized(c.guids);
    }
  }

  /** Every step leaves the call owing what it owed, so that all of them together do what
      the call run alone does. */
  lemma MicroOwes(s: State, c: Call, pc: Pc)
    requires PcFits(s, c, pc) && ValidState(s) && !pc.Returning?
    ensures
      var next := Micro(s, c, pc);
      PcFits(next.state, c, next.pc) && Owed(next.state, c, next.pc) == Owed(s, c, pc)
  {
    match pc
    case Entered => EnterOwes(s, c);
    case Adding(i, added) =>
      var pairs := Pairs(c.guids, c.memberships);
      if i < |pairs| {
        AddStepOwes(s, c.pkey, pairs, i, added);
      } else {
        assert pairs[i..] == [];
        AddEndOwes(s, c.pkey, added);
      }
    case Removing(i, removed) =>
      var names := Normalized(c.guids);
      if i < |names| {
        RemoveStepOwes(s, c.pkey, names, i, removed);
      } else {
        DropNothing(s.at[c.pkey].guids, SetOf(names[i..]));
      }
    case Deleting(removed) => DeleteStepOwes(s, c.pkey, removed);
    case Describing(_) =>
    case Summarizing(_) => ReadStepOwes(s, c, pc);
    case Dumping(_) => ReadStepOwes(s, c, pc);
    case Inserting => WriteStepOwes(s, c, pc);
    case Flagging => WriteStepOwes(s, c, pc);
    case Assigning => WriteStepOwes(s, c, pc);
    case Counting => WriteStepOwes(s, c, pc);
  }

  lemma MicroValid(s: State, c: Call, pc: Pc)
    requires PcFits(s, c, pc) && ValidState(s) && !pc.Returning?
    ensures ValidState(Micro(s, c, pc).state)
  {
    var next := Micro(s, c, pc).state;
    match pc
    case Adding(i, _) =>
      if i < |Pairs(c.guids, c.memberships)| {
        var pair := Pairs(c.guids, c.memberships)[i];
        PutValid(s.at[c.pkey].guids, pair.key, pair.value);
        PutPartitionValid(s, c.pkey, next.at[c.pkey]);
      }
    case Removing(i, _) =>
      if i < |Normalized(c.guids)| {
        DropAllValid(s.at[c.pkey].guids, {Normalized(c.guids)[i]});
        PutPartitionValid(s, c.pkey, next.at[c.pkey]);
      }
    case Deleting(_) => DropAllValid(s, {c.pkey});
    case Inserting => PutPartitionValid(s, c.pkey, next.at[c.pkey]);
    case Flagging => PutPartitionValid(s, c.pkey, next.at[c.pkey]);
    case Assigning =>
      PutAllValid(Empty(), Pairs(c.guids, c.memberships));
      PutPartitionValid(s, c.pkey, next.at[c.pkey]);
    case _ =>
  }

  /** How many steps the call still needs before it can give the lock back. */
  ghost function StepsLeft(s: State, c: Call, pc: Pc): nat
    requires PcFits(s, c, pc)
  {
    match pc
    case Entered =>
      6 + (if c.AddMembers? then |Pairs(c.guids, c.memberships)| else 0)
      + (if c.RemoveMembers? then |Normalized(c.guids)| else 0) + |s.order|
    case Inserting => 5
    case Flagging => 4
    case Assigning => 3
    case Counting => 2
    case Adding(i, _) => 1 + |Pairs(c.guids, c.memberships)| - i
    case Removing(i, _) => 2 + |Normalized(c.guids)| - i
    case Deleting(_) => 1
    case Describing(_) => 1
    case Summarizing(part) => 1 + |s.order| - |part.order|
    case Dumping(part) => 1 + |s.order| - |part.order|
    case Returning(_) => 0
  }

  /** No call keeps the lock forever. */
  lemma MicroAdvances(s: State, c: Call, pc: Pc)
    requires PcFits(s, c, pc) && ValidState(s) && !pc.Returning?
    ensures PcFits(Micro(s, c, pc).state, c, Micro(s, c, pc).pc)
    ensures StepsLeft(Micro(s, c, pc).state, c, Micro(s, c, pc).pc) < StepsLeft(s, c, pc)
  {
    MicroOwes(s, c, pc);
    if pc.Summarizing? && |pc.summaries.order| < |s.order| {
      CutOffMore(pc.summaries, SummariesOf(s));
    } else if pc.Dumping? && |pc.details.order| < |s.order| {
      CutOffMore(pc.details, DetailsOf(s));
    }
  }

  // ----- Threads

  datatype Local = Idle | Waiting(call: Call) | Running(call: Call, pc: Pc)

  /** A thread: the calls it has yet to start, where it stands, and the responses it has had. */
  datatype Thread = Thread(todo: seq<Call>, local: Local, got: seq<Response>)

  /** The whole server. `log` and `replies` record who took the lock for which call and
      who gave it back with which response; no step reads them. */
  datatype Server = Server(
    store: State,
    lock: Option<nat>,
    threads: seq<Thread>,
    log: seq<(nat, Call)>,
    replies: seq<(nat, Response)>)

  function With(y: Server, t: nat, th: Thread): Server
    requires t < |y.threads|
  {
    y.(threads := y.threads[t := th])
  }

  /** Thread `t` begins its next call (and prepares its pairs) outside the lock. */
  ghost predicate Start(y: Server, z: Server, t: nat)
    requires t < |y.threads|
  {
    var th := y.threads[t];
    && th.local.Idle? && th.todo != []
    && z == With(y, t, th.(todo := th.todo[1..], local := Waiting(th.todo[0])))
  }

  ghost predicate Acquire(y: Server, z: Server, t: nat)
    requires t < |y.threads|
  {
    var th := y.threads[t];
    && th.local.Waiting? && y.lock == None
    && z == With(y, t, th.(local := Running(th.local.call, Entered))).(
              lock := Some(t), log := y.log + [(t, th.local.call)])
  }

  ghost predicate Work(y: Server, z: Server, t: nat)
    requires t < |y.threads|
  {
    var th := y.threads[t];
    && th.local.Running? && !th.local.pc.Returning?
    && y.store.Valid() && PcFits(y.store, th.local.call, th.local.pc)
    && var next := Micro(y.store, th.local.call, th.local.pc);
       z == With(y, t, th.(local := Running(th.local.call, next.pc))).(store := next.state)
  }

  ghost predicate Release(y: Server, z: Server, t: nat)
    requires t < |y.threads|
  {
    var th := y.threads[t];
    && th.local.Running? && th.local.pc.Returning?
    && z == With(y, t, th.(local := Idle, got := th.got + [th.local.pc.reply])).(
              lock := None, replies := y.replies + [(t, th.local.pc.reply)])
  }

  ghost predicate Next(y: Server, z: Server, t: nat) {
    t < |y.threads| && (Start(y, z, t) || Acquire(y, z, t) || Work(y, z, t) || Release(y, z, t))
  }

  /** A server in a valid state on which no thread has begun. */
  ghost predicate Initial(y: Server) {
    && ValidState(y.store)
    && y.lock == None && y.log == [] && y.replies == []
    && forall t :: 0 <= t < |y.threads| ==> y.threads[t].local.Idle? && y.threads[t].got == []
  }

  /** Any interleaving: each state follows from the one before by a step of the scheduled thread. */
  ghost predicate IsRun(run: seq<Server>, schedule: seq<nat>) {
    && |run| == |schedule| + 1
    && Initial(run[0])
    && forall i :: 0 <= i < |schedule| ==> Next(run[i], run[i + 1], schedule[i])
  }

  // ----- The serial run that the interleaving is equivalent to

  function CallsOf(log: seq<(nat, Call)>): seq<Call> {
    seq(|log|, i requires 0 <= i < |log| => log[i].1)
  }

  /** The state and the thread-tagged responses of a serial run. */
  datatype History = History(state: State, replies: seq<(nat, Response)>)

  /** The calls of the log, run one at a time, each response tagged with its thread. */
  function Serial(s: State, log: seq<(nat, Call)>): (r: History)
    ensures |r.replies| == |log|
  {
    var run := RunAll(s, CallsOf(log));
    History(run.state, seq(|log|, i requires 0 <= i < |log| => (log[i].0, run.replies[i])))
  }

  lemma SerialAppend(s: State, log: seq<(nat, Call)>, t: nat, c: Call)
    ensures
      var before, after := Serial(s, log), Serial(s, log + [(t, c)]);
      var last := Apply(before.state, c);
      after == History(last.state, before.replies + [(t, last.reply)])
  {
    assert CallsOf(log + [(t, c)]) == CallsOf(log) + [c];
    assert (CallsOf(log) + [c])[..|log|] == CallsOf(log);
    var after := Serial(s, log + [(t, c)]);
    assert after.replies == Serial(s, log).replies + [(t, Apply(Serial(s, log).state, c).reply)];
  }

  /** The items of thread `t`, in order. */
  function Project<T>(t: nat, items: seq<(nat, T)>): seq<T> {
    if items == [] then []
    else
      var last := items[|items| - 1];
      Project(t, items[..|items| - 1]) + if last.0 == t then [last.1] else []
  }

  lemma ProjectAppend<T>(t: nat, items: seq<(nat, T)>, last: (nat, T))
    ensures Project(t, items + [last]) == Project(t, items) + if last.0 == t then [last.1] else []
  {
    assert (items + [last])[..|items|] == items;
  }

  function Pending(l: Local): seq<Call> {
    if l.Waiting? then [l.call] else []
  }

  /** Program order: what a thread has put in the log, is waiting to run, and has yet to
      start is exactly the list it began with; and it has had the replies logged for it. */
  ghost predicate ThreadInOrder(first: Server, y: Server, t: nat)
    requires t < |first.threads| == |y.threads|
  {
    && first.threads[t].todo == Project(t, y.log) + Pending(y.threads[t].local) + y.threads[t].todo
    && y.threads[t].got == Project(t, y.replies)
  }

  /** Mutual exclusion, and the store as some serial run leaves it: exactly when the lock
      is free, and up to the remaining steps of its holder when it is not. */
  ghost predicate StoreInOrder(first: Server, y: Server) {
    && ValidState(y.store)
    && (forall t :: 0 <= t < |y.threads| && y.threads[t].local.Running? ==> y.lock == Some(t))
    && match y.lock
       case None => History(y.store, y.replies) == Serial(first.store, y.log)
       case Some(t) =>
         && t < |y.threads| && y.threads[t].local.Running?
         && var (c, pc) := (y.threads[t].local.call, y.threads[t].local.pc);
            && y.log != [] && y.log[|y.log| - 1] == (t, c)
            && PcFits(y.store, c, pc)
            && var before := Serial(first.store, y.log[..|y.log| - 1]);
               && y.replies == before.replies
               && Owed(y.store, c, pc) == Apply(before.state, c)
               && (ReadsOnly(c) ==> y.store == before.state)
  }

  predicate ReadsOnly(c: Call) {
    c.Snapshot? || c.ListSummaries? || c.Get?
  }

  ghost predicate Invariant(first: Server, y: Server) {
    && Initial(first)
    && |y.threads| == |first.threads|
    && StoreInOrder(first, y)
    && forall t :: 0 <= t < |y.threads| ==> ThreadInOrder(first, y, t)
  }

  lemma StoreStepAcquire(first: Server, y: Server, z: Server, t: nat)
    requires Invariant(first, y) && t < |y.threads| && Acquire(y, z, t)
    ensures StoreInOrder(first, z)
  {
    assert z.log[..|y.log|] == y.log;
  }

  lemma StoreStepRelease(first: Server, y: Server, z: Server, t: nat)
    requires Invariant(first, y) && t < |y.threads| && Release(y, z, t)
    ensures StoreInOrder(first, z)
  {
    assert y.lock == Some(t);
    var c := y.threads[t].local.call;
    var earlier := y.log[..|y.log| - 1];
    SerialAppend(first.store, earlier, t, c);
    assert y.log == earlier + [(t, c)];
  }

  lemma StoreStepWork(first: Server, y: Server, z: Server, t: nat)
    requires Invariant(first, y) && t < |y.threads| && Work(y, z, t)
    ensures StoreInOrder(first, z)
  {
    assert y.lock == Some(t);
    var Running(c, pc) := y.threads[t].local;
    var next := Micro(y.store, c, pc);
    MicroOwes(y.store, c, pc);
    MicroValid(y.store, c, pc);
    assert z.threads[t].local == Running(c, next.pc);
  }

  lemma StoreStep(first: Server, y: Server, z: Server, t: nat)
    requires Invariant(first, y) && Next(y, z, t)
    ensures StoreInOrder(first, z)
  {
    if Acquire(y, z, t) {
      StoreStepAcquire(first, y, z, t);
    } else if Work(y, z, t) {
      StoreStepWork(first, y, z, t);
    } else if Release(y, z, t) {
      StoreStepRelease(first, y, z, t);
    }
  }

  lemma ThreadStart(first: Server, y: Server, z: Server, t: nat)
    requires t < |first.threads| == |y.threads| && ThreadInOrder(first, y, t) && Start(y, z, t)
    ensures ThreadInOrder(first, z, t)
  {
    var done, todo := Project(t, y.log), y.threads[t].todo;
    assert z.threads[t].todo == todo[1..] && Pending(z.threads[t].local) == [todo[0]];
    assert done + [] + todo == done + [todo[0]] + todo[1..];
  }

  lemma ThreadAcquire(first: Server, y: Server, z: Server, t: nat)
    requires t < |first.threads| == |y.threads| && ThreadInOrder(first, y, t) && Acquire(y, z, t)
    ensures ThreadInOrder(first, z, t)
  {
    var done, c := Project(t, y.log), y.threads[t].local.call;
    ProjectAppend(t, y.log, (t, c));
    assert Project(t, z.log) == done + [c] && Pending(z.threads[t].local) == [];
    assert done + [c] + [] == done + [c];
  }

  lemma ThreadRelease(first: Server, y: Server, z: Server, t: nat)
    requires t < |first.threads| == |y.threads| && ThreadInOrder(first, y, t) && Release(y, z, t)
    ensures ThreadInOrder(first, z, t)
  {
    ProjectAppend(t, y.replies, (t, y.threads[t].local.pc.reply));
    assert Pending(z.threads[t].local) == Pending(y.threads[t].local) == [];
  }

  /** A step of thread `t` leaves every other thread's history alone. */
  lemma OtherThread(first: Server, y: Server, z: Server, t: nat, u: nat)
    requires u < |first.threads| == |y.threads| && ThreadInOrder(first, y, u)
    requires Next(y, z, t) && u != t
    ensures ThreadInOrder(first, z, u)
  {
    assert z.threads[u] == y.threads[u];
    if Acquire(y, z, t) {
      ProjectAppend(u, y.log, (t, y.threads[t].local.call));
    } else if Release(y, z, t) {
      ProjectAppend(u, y.replies, (t, y.threads[t].local.pc.reply));
    }
  }

  lemma ThreadStep(first: Server, y: Server, z: Server, t: nat, u: nat)
    requires u < |first.threads| == |y.threads| && ThreadInOrder(first, y, u) && Next(y, z, t)
    ensures ThreadInOrder(first, z, u)
  {
    if u != t {
      OtherThread(first, y, z, t, u);
    } else if Start(y, z, t) {
      ThreadStart(first, y, z, t);
    } else if Acquire(y, z, t) {
      ThreadAcquire(first, y, z, t);
    } else if Release(y, z, t) {
      ThreadRelease(first, y, z, t);
    } else {
      assert Pending(z.threads[t].local) == Pending(y.threads[t].local) == [];
    }
  }

  lemma {:induction false} RunKeepsInvariant(run: seq<Server>, schedule: seq<nat>, n: nat)
    requires IsRun(run, schedule) && n <= |schedule|
    ensures Invariant(run[0], run[n])
  {
    if n > 0 {
      RunKeepsInvariant(run, schedule, n - 1);
      assert Next(run[n - 1], run[n - 1 + 1], schedule[n - 1]);
      StoreStep(run[0], run[n - 1], run[n], schedule[n - 1]);
      forall u | 0 <= u < |run[n].threads| ensures ThreadInOrder(run[0], run[n], u) {
        ThreadStep(run[0], run[n - 1], run[n], schedule[n - 1], u);
      }
    }
  }

  // ----- Results

  /** Every interleaving is equivalent to running the calls one at a time in the order
      in which they took the lock: that order respects each thread's own order, the store
      is the one the serial run leaves, and each thread has had exactly its serial responses. */
  lemma Linearizable(run: seq<Server>, schedule: seq<nat>)
    requires IsRun(run, schedule)
    ensures
      var (first, last) := (run[0], run[|run| - 1]);
      && |last.threads| == |first.threads|
      && (last.lock == None ==>
            && last.store == RunAll(first.store, CallsOf(last.log)).state
            && forall t :: 0 <= t < |last.threads| ==>
                 && last.threads[t].got == Project(t, Serial(first.store, last.log).replies)
                 && Project(t, last.log) <= first.threads[t].todo)
  {
    RunKeepsInvariant(run, schedule, |schedule|);
    var (first, last) := (run[0], run[|run| - 1]);
    forall t | 0 <= t < |last.threads| && last.lock == None
      ensures last.threads[t].got == Project(t, Serial(first.store, last.log).replies)
      ensures Project(t, last.log) <= first.threads[t].todo
    {
      assert ThreadInOrder(first, last, t);
    }
  }

  lemma {:induction false} LogsGrow(run: seq<Server>, schedule: seq<nat>, m: nat, n: nat)
    requires IsRun(run, schedule) && m <= n <= |schedule|
    ensures run[m].log <= run[n].log && run[m].replies <= run[n].replies
  {
    if m < n {
      LogsGrow(run, schedule, m, n - 1);
      assert Next(run[n - 1], run[n - 1 + 1], schedule[n - 1]);
    }
  }

  /** An item of thread `t` comes after the thread's earlier items. */
  lemma {:induction false} ProjectAt<T>(t: nat, items: seq<(nat, T)>, p: nat)
    requires p < |items| && items[p].0 == t
    ensures |Project(t, items[..p])| < |Project(t, items)|
    ensures Project(t, items)[|Project(t, items[..p])|] == items[p].1
  {
    var front := items[..|items| - 1];
    if p < |front| {
      ProjectAt(t, front, p);
      assert front[..p] == items[..p];
    }
  }

  /** Each reply in the record answers the call at the same place in the log. */
  lemma RepliesFollowLog(first: Server, y: Server)
    requires Invariant(first, y)
    ensures |y.replies| <= |y.log|
    ensures forall r :: 0 <= r < |y.replies| ==> y.replies[r].0 == y.log[r].0
  {
  }

  /** The serial order respects real time: a call that has been answered before thread `t`
      starts its next call comes before that call in the log, wherever in the log that is. */
  lemma RealTimeOrder(run: seq<Server>, schedule: seq<nat>, n: nat, t: nat, r: nat, p: nat)
    requires IsRun(run, schedule) && n < |schedule| && schedule[n] == t < |run[n].threads|
    requires Start(run[n], run[n + 1], t)
    requires r < |run[n].replies|
    requires p < |run[|schedule|].log| && run[|schedule|].log[p].0 == t
    requires |Project(t, run[|schedule|].log[..p])| == |Project(t, run[n].log)|
    ensures run[|schedule|].log[p].1 == run[n].threads[t].todo[0]
    ensures r < |run[n].log| <= p && run[n].replies[r].0 == run[|schedule|].log[r].0
  {
    hide Project;
    var log := run[|schedule|].log;
    LogsGrow(run, schedule, n, |schedule|);
    RunKeepsInvariant(run, schedule, n);
    RunKeepsInvariant(run, schedule, |schedule|);
    RepliesFollowLog(run[0], run[n]);
    assert ThreadInOrder(run[0], run[n], t) && ThreadInOrder(run[0], run[|schedule|], t);
    ProjectAt(t, log, p);
    StartedCall(run[0], run[n], run[|schedule|], t);
    if p < |run[n].log| {
      assert run[n].log[..p] == log[..p] && run[n].log[p] == log[p];
      ProjectAt(t, run[n].log, p);
    }
  }

  /** The call a thread is about to start is the one that follows those it has in the log. */
  lemma StartedCall(first: Server, y: Server, z: Server, t: nat)
    requires t < |first.threads| == |y.threads| == |z.threads|
    requires ThreadInOrder(first, y, t) && ThreadInOrder(first, z, t)
    requires y.threads[t].local.Idle? && y.threads[t].todo != []
    ensures |Project(t, y.log)| < |Project(t, z.log)| ==>
              Project(t, z.log)[|Project(t, y.log)|] == y.threads[t].todo[0]
  {
    hide Project;
    var k, todo := |Project(t, y.log)|, first.threads[t].todo;
    assert Pending(y.threads[t].local) == [];
    assert todo[k] == y.threads[t].todo[0];
    assert k < |Project(t, z.log)| ==> todo[k] == Project(t, z.log)[k];
  }

  /** A run that has finished has run every call of every thread exactly once, in program order. */
  lemma FinishedRunsEverything(run: seq<Server>, schedule: seq<nat>, t: nat)
    requires IsRun(run, schedule)
    requires t < |run[|schedule|].threads|
    requires run[|schedule|].threads[t].local.Idle? && run[|schedule|].threads[t].todo == []
    ensures |run[0].threads| == |run[|schedule|].threads|
    ensures Project(t, run[|schedule|].log) == run[0].threads[t].todo
  {
    RunKeepsInvariant(run, schedule, |schedule|);
    assert ThreadInOrder(run[0], run[|schedule|], t);
  }

  /** No reader ever looks at a half-done write: while a read holds the lock, at any of
      its steps, the store is the state some serial run of the earlier calls leaves. */
  lemma ReaderSeesSerialState(run: seq<Server>, schedule: seq<nat>, n: nat, t: nat)
    requires IsRun(run, schedule) && n <= |schedule|
    requires t < |run[n].threads|
    requires run[n].threads[t].local.Running? && ReadsOnly(run[n].threads[t].local.call)
    ensures
      && run[n].log != []
      && run[n].store == RunAll(run[0].store, CallsOf(run[n].log[..|run[n].log| - 1])).state
  {
    RunKeepsInvariant(run, schedule, n);
  }

  /** The lock is always given back: as long as some thread has work left, some step is possible. */
  lemma NoDeadlock(run: seq<Server>, schedule: seq<nat>, n: nat, t: nat)
    requires IsRun(run, schedule) && n <= |schedule|
    requires t < |run[n].threads|
    requires run[n].threads[t].todo != [] || !run[n].threads[t].local.Idle?
    ensures exists u, z :: Next(run[n], z, u)
  {
    RunKeepsInvariant(run, schedule, n);
    var y := run[n];
    var u := if y.lock == None then t else y.lock.value;
    var th := y.threads[u];
    match th.local
    case Idle =>
      var z := With(y, u, th.(todo := th.todo[1..], local := Waiting(th.todo[0])));
      assert Start(y, z, u);
      assert Next(y, z, u);
    case Waiting(c) =>
      var z := With(y, u, th.(local := Running(c, Entered))).(lock := Some(u), log := y.log + [(u, c)]);
      assert Acquire(y, z, u);
      assert Next(y, z, u);
    case Running(c, pc) =>
      if pc.Returning? {
        var z := With(y, u, th.(local := Idle, got := th.got + [pc.reply])).(
          lock := None, replies := y.replies + [(u, pc.reply)]);
        assert Release(y, z, u);
        assert Next(y, z, u);
      } else {
        var next := Micro(y.store, c, pc);
        var z := With(y, u, th.(local := Running(c, next.pc))).(store := next.state);
        assert Work(y, z, u);
        assert Next(y, z, u);
      }
  }
}
