/** Opening a file below a trusted directory, one path component at a time, with an exit at
    every point where the operating system or the caller's body may raise. */
module Descriptors {
  import opened Options

  /** Component names below the file system's root. */
  type Path = seq<string>

  /** What an open descriptor refers to. */
  datatype Target = Directory(path: Path) | File(path: Path)

  type Table = map<nat, Target>

  datatype Event = Opened(fd: nat, target: Target) | Closed(fd: nat) | Yielded(fd: nat, target: Target)

  // ----- Traces

  function Step(open: Table, e: Event): Table {
    match e
    case Opened(fd, target) => open[fd := target]
    case Closed(fd) => open - {fd}
    case Yielded(_, _) => open
  }

  /** The descriptors open after the events. */
  function After(start: Table, events: seq<Event>): Table {
    if events == [] then start else Step(After(start, events[..|events| - 1]), events[|events| - 1])
  }

  /** Only a descriptor that is open, and was opened here, is closed; only an open file is
      handed to the body. */
  ghost predicate LegalStep(start: Table, open: Table, e: Event) {
    match e
    case Opened(fd, _) => fd !in open
    case Closed(fd) => fd in open && fd !in start
    case Yielded(fd, target) => fd in open && open[fd] == target && target.File?
  }

  /** Everything open at the start is still open, and at most two descriptors more. */
  ghost predicate AtMostTwoMore(start: Table, open: Table) {
    && (forall fd :: fd in start ==> fd in open && open[fd] == start[fd])
    && |open| <= |start| + 2
  }

  ghost predicate Safe(start: Table, events: seq<Event>) {
    events != [] ==>
      var front := events[..|events| - 1];
      && Safe(start, front)
      && LegalStep(start, After(start, front), events[|events| - 1])
      && AtMostTwoMore(start, After(start, events))
  }

  lemma SafeMore(start: Table, events: seq<Event>, e: Event)
    ensures After(start, events + [e]) == Step(After(start, events), e)
    ensures Safe(start, events + [e]) <==>
              && Safe(start, events)
              && LegalStep(start, After(start, events), e)
              && AtMostTwoMore(start, Step(After(start, events), e))
  {
    assert (events + [e])[..|events|] == events;
  }

  /** `Safe` speaks of every moment of a run. */
  lemma {:induction false} SafeAtEveryMoment(start: Table, events: seq<Event>, k: nat)
    requires Safe(start, events) && k <= |events|
    ensures AtMostTwoMore(start, After(start, events[..k]))
    ensures k < |events| ==> LegalStep(start, After(start, events[..k]), events[k])
  {
    var n := |events| - 1;
    if events == [] || k > n {
      assert events[..k] == events;
    } else if k < n {
      assert events[..n][..k] == events[..k];
      SafeAtEveryMoment(start, events[..n], k);
    } else if n > 0 {
      SafeAtEveryMoment(start, events[..n], n);
      assert events[..n][..n] == events[..n];
    }
  }

  lemma AfterNext(start: Table, events: seq<Event>, k: nat)
    requires k < |events|
    ensures After(start, events[..k + 1]) == Step(After(start, events[..k]), events[k])
  {
    assert events[..k + 1][..k] == events[..k];
  }

  /** A descriptor number that is free at one moment and open at a later one was opened between. */
  lemma {:induction false} OpenedBetween(start: Table, events: seq<Event>, fd: nat, i: nat, j: nat)
    requires i <= j <= |events|
    requires fd !in After(start, events[..i]) && fd in After(start, events[..j])
    ensures exists k :: i <= k < j && events[k].Opened? && events[k].fd == fd
    decreases j
  {
    hide After;
    AfterNext(start, events, j - 1);
    if !(events[j - 1].Opened? && events[j - 1].fd == fd) {
      OpenedBetween(start, events, fd, i, j - 1);
    }
  }

  /** Nothing is closed twice: between two closes of a number it was opened again. */
  lemma NeverClosedTwice(start: Table, events: seq<Event>, i: nat, j: nat)
    requires Safe(start, events) && i < j < |events|
    requires events[i].Closed? && events[j] == events[i]
    ensures exists k :: i < k < j && events[k].Opened? && events[k].fd == events[i].fd
  {
    hide After, Safe;
    SafeAtEveryMoment(start, events, j);
    AfterNext(start, events, i);
    OpenedBetween(start, events, events[i].fd, i + 1, j);
  }

  /** Nothing but `fd` is opened, closed or redirected. */
  ghost predicate Keeps(was: Table, now: Table, fd: nat) {
    forall d :: d in was && d != fd ==> d in now && now[d] == was[d]
  }

  lemma StillOpen(was: Table, now: Table, fd: nat, d: nat)
    requires Keeps(was, now, fd) && d in was && d != fd
    ensures d in now && now[d] == was[d]
  {
  }

  /** The files handed to a body, in order. */
  function Handed(events: seq<Event>): seq<Target> {
    if events == [] then []
    else
      var last := events[|events| - 1];
      Handed(events[..|events| - 1]) + if last.Yielded? then [last.target] else []
  }

  /** The events are safe, lead to the table, and leave `more` descriptors open beyond those
      of the start. */
  ghost predicate Tracks(start: Table, events: seq<Event>, open: Table, more: nat) {
    && Safe(start, events)
    && After(start, events) == open
    && (forall fd :: fd in start ==> fd in open && open[fd] == start[fd])
    && |open| == |start| + more
  }

  lemma StartsTracked(start: Table)
    ensures Tracks(start, [], start, 0)
  {
  }

  lemma OneMoreOpen(open: Table, fd: nat, target: Target)
    requires fd !in open
    ensures |open[fd := target]| == |open| + 1
  {
    assert open[fd := target].Keys == open.Keys + {fd};
  }

  lemma OneLessOpen(open: Table, fd: nat)
    requires fd in open
    ensures |open - {fd}| == |open| - 1
  {
    assert (open - {fd}).Keys == open.Keys - {fd};
  }

  lemma TracksOpened(start: Table, events: seq<Event>, open: Table, more: nat, fd: nat, target: Target)
    requires Tracks(start, events, open, more) && more < 2 && fd !in open
    ensures Tracks(start, events + [Opened(fd, target)], open[fd := target], more + 1) && fd !in start
    ensures Handed(events + [Opened(fd, target)]) == Handed(events)
  {
    hide Safe, After;
    SafeMore(start, events, Opened(fd, target));
    HandedMore(events, Opened(fd, target));
    OneMoreOpen(open, fd, target);
  }

  lemma TracksClosed(start: Table, events: seq<Event>, open: Table, more: nat, fd: nat)
    requires Tracks(start, events, open, more) && 0 < more <= 2 && fd in open && fd !in start
    ensures Tracks(start, events + [Closed(fd)], open - {fd}, more - 1)
    ensures Handed(events + [Closed(fd)]) == Handed(events)
  {
    hide Safe, After;
    SafeMore(start, events, Closed(fd));
    HandedMore(events, Closed(fd));
    OneLessOpen(open, fd);
  }

  lemma TracksYielded(start: Table, events: seq<Event>, open: Table, more: nat, fd: nat)
    requires Tracks(start, events, open, more) && more <= 2 && fd in open && open[fd].File?
    ensures Tracks(start, events + [Yielded(fd, open[fd])], open, more)
    ensures Handed(events + [Yielded(fd, open[fd])]) == Handed(events) + [open[fd]]
  {
    hide Safe, After;
    SafeMore(start, events, Yielded(fd, open[fd]));
    HandedMore(events, Yielded(fd, open[fd]));
  }

  lemma HandedMore(events: seq<Event>, e: Event)
    ensures Handed(events + [e]) == Handed(events) + if e.Yielded? then [e.target] else []
  {
    assert (events + [e])[..|events|] == events;
  }

  lemma NothingMoreIsOpen(start: Table, events: seq<Event>, open: Table)
    requires Tracks(start, events, open, 0)
    ensures open == start && Safe(start, events) && After(start, events) == start
  {
    assert start.Keys <= open.Keys && |open.Keys - start.Keys| == 0;
  }

  // ----- The operating system

  /** The descriptor table. Each call may fail; `fails` says which calls do. Closing does not. */
  class Kernel {
    var open: Table
    var calls: nat
    const fails: nat -> bool
    /** What was open when the walk began, what has happened since, and how many more are open. */
    ghost var start: Table
    ghost var events: seq<Event>
    ghost var more: nat

    ghost predicate Valid()
      reads this
    {
      Tracks(start, events, open, more)
    }

    constructor (open: Table, fails: nat -> bool)
      ensures this.open == open && this.fails == fails && calls == 0
    {
      this.open, this.fails, this.calls := open, fails, 0;
    }

    /** From here on the events are recorded. */
    ghost method Begin()
      modifies `start, `events, `more
      ensures Valid() && start == open && Handed(events) == [] && more == 0
    {
      StartsTracked(open);
      start, events, more := open, [], 0;
    }

    /** A call that changes no descriptor: `fstat` with its check for a regular file. */
    method IsRegular(fd: nat) returns (ok: bool)
      requires fd in open
      modifies `calls
      ensures calls == old(calls) + 1 && ok == !fails(old(calls))
    {
      ok := !fails(calls);
      calls := calls + 1;
    }

    /** Opens under any number that is free. */
    method Open(target: Target) returns (fd: Option<nat>)
      requires Valid() && more < 2
      modifies `open, `calls, `events, `more
      ensures Valid() && calls == old(calls) + 1 && Handed(events) == old(Handed(events))
      ensures fd.None? <==> fails(old(calls))
      ensures fd.None? ==> open == old(open) && more == old(more)
      ensures fd.Some? ==>
        && fd.value !in old(open) && fd.value !in start && more == old(more) + 1
        && open == Step(old(open), Opened(fd.value, target))
        && fd.value in open && open[fd.value] == target && Keeps(old(open), open, fd.value)
    {
      if fails(calls) {
        calls := calls + 1;
        return None;
      }
      calls := calls + 1;
      SomeNumberIsFree(open.Keys);
      var free: nat :| free !in open;
      TracksOpened(start, events, open, more, free, target);
      open := open[free := target];
      events, more := events + [Opened(free, target)], more + 1;
      fd := Some(free);
    }

    /** `os.open(name, flags, dir_fd=directory)` */
    method OpenAt(directory: nat, name: string, isDirectory: bool) returns (fd: Option<nat>)
      requires Valid() && more < 2
      requires directory in open && open[directory].Directory?
      modifies `open, `calls, `events, `more
      ensures Valid() && calls == old(calls) + 1 && Handed(events) == old(Handed(events))
      ensures fd.None? <==> fails(old(calls))
      ensures fd.None? ==> open == old(open) && more == old(more)
      ensures fd.Some? ==>
        var path := old(open)[directory].path + [name];
        var target := if isDirectory then Directory(path) else File(path);
        && fd.value !in old(open) && fd.value !in start && more == old(more) + 1
        && open == Step(old(open), Opened(fd.value, target))
        && fd.value in open && open[fd.value] == target && Keeps(old(open), open, fd.value)
    {
      var path := open[directory].path + [name];
      fd := Open(if isDirectory then Directory(path) else File(path));
    }

    /** Only what was opened since the walk began may be closed. */
    method Close(fd: nat)
      requires Valid() && 0 < more <= 2
      requires fd in open && fd !in start
      modifies `open, `events, `more
      ensures Valid() && more == old(more) - 1 && Handed(events) == old(Handed(events))
      ensures open == Step(old(open), Closed(fd)) && Keeps(old(open), open, fd)
    {
      TracksClosed(start, events, open, more, fd);
      open := open - {fd};
      events, more := events + [Closed(fd)], more - 1;
    }

    /** Hands the file to the body of the `with` statement, which may raise. */
    method Yield(fd: nat) returns (ok: bool)
      requires Valid() && more <= 2 && fd in open && open[fd].File?
      modifies `calls, `events
      ensures Valid() && calls == old(calls) + 1 && ok == !fails(old(calls))
      ensures Handed(events) == old(Handed(events)) + [open[fd]]
      ensures old(Handed(events)) == [] ==> Handed(events) == [open[fd]]
    {
      TracksYielded(start, events, open, more, fd);
      events := events + [Yielded(fd, open[fd])];
      ok := !fails(calls);
      calls := calls + 1;
    }
  }

  lemma {:induction false} SomeNumberIsFree(taken: set<nat>)
    ensures exists free: nat :: free !in taken
  {
    var bound := Above(taken);
    assert bound !in taken;
  }

  ghost function Above(taken: set<nat>): (bound: nat)
    ensures forall fd :: fd in taken ==> fd < bound
  {
    if taken == {} then 0
    else
      var fd :| fd in taken;
      var rest := Above(taken - {fd});
      assert taken == (taken - {fd}) + {fd};
      if fd < rest then rest else fd + 1
  }

  // ----- The walk

  datatype Outcome = NotOpened | BodyRaised | BodyFinished

  ghost predicate NoneFails(fails: nat -> bool, from: nat, to: nat) {
    forall i: nat :: from <= i < to ==> !fails(i)
  }

  /** What happens depends only on the first call that fails: there are one open for the root
      and one for each component, then `fstat`, then the body. The root itself, which has no
      name below the root, cannot be opened as a file. */
  ghost predicate OutcomeIs(fails: nat -> bool, first: nat, depth: nat, outcome: Outcome) {
    var opens := depth > 0 && NoneFails(fails, first, first + depth + 2);
    && (outcome.NotOpened? <==> !opens)
    && (outcome.BodyFinished? <==> opens && !fails(first + depth + 2))
  }

  lemma OneCallPasses(fails: nat -> bool, first: nat)
    requires !fails(first)
    ensures NoneFails(fails, first, first + 1)
  {
  }

  lemma OneMorePasses(fails: nat -> bool, first: nat, i: nat, next: nat)
    requires first <= i && NoneFails(fails, first, i) && !fails(i) && next == i + 1
    ensures NoneFails(fails, first, next)
  {
  }

  lemma OneFails(fails: nat -> bool, first: nat, i: nat, depth: nat)
    requires first <= i < first + depth + 2 && fails(i)
    ensures OutcomeIs(fails, first, depth, NotOpened)
  {
  }

  lemma NoNameBelowTheRoot(fails: nat -> bool, first: nat)
    ensures OutcomeIs(fails, first, 0, NotOpened)
  {
  }

  lemma BodyIsReached(fails: nat -> bool, first: nat, depth: nat, last: nat, finished: bool)
    requires depth > 0 && last == first + depth + 2
    requires NoneFails(fails, first, last) && finished == !fails(last)
    ensures OutcomeIs(fails, first, depth, if finished then BodyFinished else BodyRaised)
  {
  }

  /** The directory that the first `i` components lead to. */
  function Below(root: Path, parts: Path, i: nat): Path
    requires i <= |parts|
  {
    root + parts[..i]
  }

  lemma BelowStart(root: Path, parts: Path)
    ensures Below(root, parts, 0) == root
  {
  }

  lemma BelowNext(root: Path, parts: Path, i: nat)
    requires i < |parts|
    ensures Below(root, parts, i) + [parts[i]] == Below(root, parts, i + 1)
  {
  }

  lemma BelowEnd(root: Path, parts: Path)
    ensures Below(root, parts, |parts|) == root + parts
  {
  }

  /** The descriptor the walk holds refers to the directory reached. */
  ghost predicate Holds(kernel: Kernel, fd: nat, target: Target)
    reads kernel
  {
    fd !in kernel.start && fd in kernel.open && kernel.open[fd] == target
  }

  /** `open_text_file_within`: whatever raises, the descriptors open at the end are those open
      at the start, none is closed twice, and no more than two are ever open beyond them. The
      body gets exactly the file that the components name. */
  method OpenTextFileWithin(kernel: Kernel, root: Path, parts: Path) returns (outcome: Outcome)
    modifies kernel
    ensures kernel.open == kernel.start == old(kernel.open)
    ensures Safe(kernel.start, kernel.events) && After(kernel.start, kernel.events) == kernel.open
    ensures outcome.NotOpened? <==>
      parts == [] || exists i: nat :: old(kernel.calls) <= i < old(kernel.calls) + |parts| + 2 && kernel.fails(i)
    ensures !outcome.NotOpened? ==>
      (outcome.BodyRaised? <==> kernel.fails(old(kernel.calls) + |parts| + 2))
    ensures Handed(kernel.events) == if outcome.NotOpened? then [] else [File(root + parts)]
  {
    hide Safe, After, OutcomeIs, Handed;
    ghost var first := kernel.calls;
    outcome := Walk(kernel, root, parts);
    OutcomeReads(kernel.fails, first, |parts|, outcome);
  }

  /** The whole function, with its `try` and `finally` blocks. */
  method Walk(kernel: Kernel, root: Path, parts: Path) returns (outcome: Outcome)
    modifies kernel
    ensures kernel.open == kernel.start == old(kernel.open)
    ensures Safe(kernel.start, kernel.events) && After(kernel.start, kernel.events) == kernel.open
    ensures OutcomeIs(kernel.fails, old(kernel.calls), |parts|, outcome)
    ensures Handed(kernel.events) == if outcome.NotOpened? then [] else [File(root + parts)]
  {
    hide Tracks, NoneFails, Safe, After, OutcomeIs, Handed, Below, Step;
    ghost var first := kernel.calls;
    kernel.Begin();
    var rootFd := kernel.Open(Directory(root));
    if rootFd.None? {
      OneFails(kernel.fails, first, first, |parts|);
      NothingMoreIsOpen(kernel.start, kernel.events, kernel.open);
      return NotOpened;
    }
    OneCallPasses(kernel.fails, first);
    BelowStart(root, parts);
    var directoryFd: nat := rootFd.value;
    var fileFd: int := -1;
    outcome := NotOpened;
    if parts == [] {
      NoNameBelowTheRoot(kernel.fails, first);
    } else {
      var reached: bool;
      directoryFd, reached := Descend(kernel, first, directoryFd, root, parts);
      if reached {
        outcome, fileFd := HandOver(kernel, first, directoryFd, root, parts);
      }
    }
    Finally(kernel, directoryFd, fileFd);
    NothingMoreIsOpen(kernel.start, kernel.events, kernel.open);
  }

  lemma OutcomeReads(fails: nat -> bool, first: nat, depth: nat, outcome: Outcome)
    requires OutcomeIs(fails, first, depth, outcome)
    ensures outcome.NotOpened? <==> depth == 0 || exists i: nat :: first <= i < first + depth + 2 && fails(i)
    ensures !outcome.NotOpened? ==> (outcome.BodyRaised? <==> fails(first + depth + 2))
  {
  }

  /** The loop over `parts[:-1]`: one directory is open before and after. */
  method Descend(kernel: Kernel, ghost first: nat, from: nat, root: Path, parts: Path)
    returns (directoryFd: nat, reached: bool)
    requires parts != [] && kernel.calls == first + 1 && NoneFails(kernel.fails, first, kernel.calls)
    requires kernel.Valid() && kernel.more == 1 && Handed(kernel.events) == []
    requires Holds(kernel, from, Directory(Below(root, parts, 0)))
    modifies kernel`open, kernel`calls, kernel`events, kernel`more
    ensures kernel.Valid() && kernel.more == 1 && Handed(kernel.events) == []
    ensures directoryFd !in kernel.start && directoryFd in kernel.open
    ensures reached ==>
      && Holds(kernel, directoryFd, Directory(Below(root, parts, |parts| - 1)))
      && kernel.calls == first + |parts| && NoneFails(kernel.fails, first, kernel.calls)
    ensures !reached ==> OutcomeIs(kernel.fails, first, |parts|, NotOpened)
  {
    hide Tracks, NoneFails, Handed, OutcomeIs, Below, Step;
    directoryFd, reached := from, true;
    for i := 0 to |parts| - 1
      invariant kernel.Valid() && kernel.more == 1 && Handed(kernel.events) == []
      invariant kernel.calls == first + 1 + i && NoneFails(kernel.fails, first, kernel.calls)
      invariant Holds(kernel, directoryFd, Directory(Below(root, parts, i)))
    {
      ghost var calls := kernel.calls;
      var next := kernel.OpenAt(directoryFd, parts[i], true);
      if next.None? {
        OneFails(kernel.fails, first, calls, |parts|);
        return directoryFd, false;
      }
      OneMorePasses(kernel.fails, first, calls, kernel.calls);
      BelowNext(root, parts, i);
      kernel.Close(directoryFd);
      directoryFd := next.value;
    }
  }

  /** What the `try` block can leave open: its directory, and the file unless `fileFd` is -1. */
  ghost predicate LeftOpen(kernel: Kernel, directoryFd: nat, fileFd: int)
    reads kernel
  {
    && -1 <= fileFd && kernel.more == (if fileFd == -1 then 1 else 2)
    && directoryFd in kernel.open && directoryFd !in kernel.start
    && (fileFd >= 0 ==> fileFd in kernel.open && fileFd !in kernel.start && fileFd != directoryFd)
  }

  /** The rest of the `try` block: opening the last component, the check for a regular file, and
      the `with` statement, which takes the descriptor over and closes it however the body ends. */
  method HandOver(kernel: Kernel, ghost first: nat, directoryFd: nat, root: Path, parts: Path)
    returns (outcome: Outcome, fileFd: int)
    requires parts != [] && kernel.calls == first + |parts| && NoneFails(kernel.fails, first, kernel.calls)
    requires kernel.Valid() && kernel.more == 1 && Handed(kernel.events) == []
    requires Holds(kernel, directoryFd, Directory(Below(root, parts, |parts| - 1)))
    modifies kernel`open, kernel`calls, kernel`events, kernel`more
    ensures kernel.Valid() && LeftOpen(kernel, directoryFd, fileFd)
    ensures OutcomeIs(kernel.fails, first, |parts|, outcome)
    ensures Handed(kernel.events) == if outcome.NotOpened? then [] else [File(root + parts)]
  {
    hide Tracks, NoneFails, Handed, OutcomeIs, Below, Step, Keeps, Safe, After, LegalStep, AtMostTwoMore;
    outcome, fileFd := NotOpened, -1;
    ghost var opening, before := kernel.calls, kernel.open;
    var newFd := kernel.OpenAt(directoryFd, parts[|parts| - 1], false);
    if newFd.None? {
      OneFails(kernel.fails, first, opening, |parts|);
      return;
    }
    fileFd := newFd.value;
    StillOpen(before, kernel.open, fileFd, directoryFd);
    OneMorePasses(kernel.fails, first, opening, kernel.calls);
    BelowNext(root, parts, |parts| - 1);
    BelowEnd(root, parts);
    ghost var checking := kernel.calls;
    var isRegular := kernel.IsRegular(fileFd);
    if !isRegular {
      OneFails(kernel.fails, first, checking, |parts|);
      return;
    }
    OneMorePasses(kernel.fails, first, checking, kernel.calls);
    var sourceFile := fileFd;
    fileFd := -1;
    ghost var handing := kernel.calls;
    var finished := kernel.Yield(sourceFile);
    BodyIsReached(kernel.fails, first, |parts|, handing, finished);
    outcome := if finished then BodyFinished else BodyRaised;
    ghost var both := kernel.open;
    kernel.Close(sourceFile);
    StillOpen(both, kernel.open, sourceFile, directoryFd);
  }

  /** The `finally` block, on every way out of the `try` block. */
  method Finally(kernel: Kernel, directoryFd: nat, fileFd: int)
    requires kernel.Valid() && LeftOpen(kernel, directoryFd, fileFd)
    modifies kernel`open, kernel`events, kernel`more
    ensures kernel.Valid() && kernel.more == 0 && Handed(kernel.events) == old(Handed(kernel.events))
  {
    hide Tracks, Handed, Step, Keeps;
    if fileFd >= 0 {
      ghost var both := kernel.open;
      kernel.Close(fileFd);
      StillOpen(both, kernel.open, fileFd, directoryFd);
    }
    kernel.Close(directoryFd);
  }
}
