/** The epoll reactor: the callback table and the kernel's interest list, through callbacks that change both. */
module Epoll {
  import opened Text

  type Callback = nat

  datatype Direction = Reading | Writing

  datatype Callbacks = Callbacks(read: Option<Callback>, write: Option<Callback>)

  /** What the kernel watches a descriptor for; if one-shot, `armed` falls when an event is reported. */
  datatype Interest = Interest(input: bool, output: bool, oneShot: bool, armed: bool)

  datatype Event = Event(fd: int, input: bool, output: bool)

  /** A callback that was invoked: a descriptor's, or a timer's. */
  datatype Call = Ran(fd: int, dir: Direction, cb: Callback) | Fired(id: nat)

  /** The reactor's tables, the kernel's list, the poll under way (events not yet handled and the descriptor
      whose callbacks are running), and the callbacks invoked so far. */
  datatype Reactor = Reactor(
    wakeFd: int,
    callbacks: map<int, Callbacks>,
    interest: map<int, Interest>,
    timersById: map<nat, int>,
    timerIds: map<int, nat>,
    nextTimer: nat,
    remaining: seq<Event>,
    current: Option<int>,
    calls: seq<Call>
  )

  /** How timers and the wake-up descriptor are watched. */
  const ALWAYS := Interest(true, false, false, true)

  function Start(wakeFd: int): Reactor {
    Reactor(wakeFd, map[], map[wakeFd := ALWAYS], map[], map[], 1, [], None, [])
  }

  function Wanted(c: Callbacks): Interest { Interest(c.read.Some?, c.write.Some?, true, true) }

  /** `update_epoll`: an add fails on a descriptor the kernel knows, a change on one it does not. */
  function Update(r: Reactor, fd: int, add: bool): Reactor {
    if fd in r.callbacks && (if add then fd !in r.interest else fd in r.interest)
    then r.(interest := r.interest[fd := Wanted(r.callbacks[fd])])
    else r
  }

  function With(c: Callbacks, dir: Direction, cb: Option<Callback>): Callbacks {
    if dir == Reading then c.(read := cb) else c.(write := cb)
  }

  function Register(r: Reactor, fd: int, dir: Direction, cb: Callback): Reactor {
    var isNew := fd !in r.callbacks;
    var c := if isNew then Callbacks(None, None) else r.callbacks[fd];
    Update(r.(callbacks := r.callbacks[fd := With(c, dir, Some(cb))]), fd, isNew)
  }

  function Unregister(r: Reactor, fd: int, dir: Direction): Reactor {
    if fd !in r.callbacks then r
    else
      var c := With(r.callbacks[fd], dir, None);
      if c.read.None? && c.write.None? then r.(interest := r.interest - {fd}, callbacks := r.callbacks - {fd})
      else Update(r.(callbacks := r.callbacks[fd := c]), fd, false)
  }

  /** `tfd` is the kernel's descriptor for the new timer; without one, or if it cannot be set or watched, nothing
      changes. */
  function SetTimer(r: Reactor, tfd: Option<int>): Reactor {
    match tfd
    case None => r
    case Some(d) =>
      r.(interest := r.interest[d := ALWAYS], timersById := r.timersById[r.nextTimer := d],
         timerIds := r.timerIds[d := r.nextTimer], nextTimer := r.nextTimer + 1)
  }

  function Cancel(r: Reactor, id: nat): Reactor {
    if id !in r.timersById then r
    else
      var tfd := r.timersById[id];
      r.(interest := r.interest - {tfd}, timerIds := r.timerIds - {tfd}, timersById := r.timersById - {id})
  }

  datatype Action = Watch(fd: int, dir: Direction, cb: Callback) | Unwatch(fd: int, dir: Direction) | Arm(tfd: Option<int>) | Disarm(id: nat)

  function Perform(r: Reactor, a: Action): Reactor {
    match a
    case Watch(fd, dir, cb) => Register(r, fd, dir, cb)
    case Unwatch(fd, dir) => Unregister(r, fd, dir)
    case Arm(tfd) => SetTimer(r, tfd)
    case Disarm(id) => Cancel(r, id)
  }

  /** Callers watch descriptors of their own, and a new timer's is not in use. */
  predicate Sound(r: Reactor, a: Action) {
    match a
    case Watch(fd, _, _) => fd !in r.timerIds && fd != r.wakeFd
    case Arm(tfd) => tfd.Some? ==> tfd.value !in r.interest
    case _ => true
  }

  // ---------- A poll ----------

  predicate Reported(events: seq<Event>, fd: int) { exists i :: 0 <= i < |events| && events[i].fd == fd }

  /** `epoll_wait`: what it reports it disarms, if it is watched one-shot. */
  function Wait(r: Reactor, events: seq<Event>): Reactor {
    r.(remaining := events,
       interest := map fd | fd in r.interest ::
         if r.interest[fd].oneShot && Reported(events, fd) then r.interest[fd].(armed := false) else r.interest[fd])
  }

  /** An event is taken up: a timer is cancelled before its callback runs, a descriptor's callbacks are about to run. */
  function Begin(r: Reactor): Reactor
    requires r.remaining != []
  {
    var fd, q := r.remaining[0].fd, r.(remaining := r.remaining[1..]);
    if fd == r.wakeFd then q
    else if fd in r.timerIds then Cancel(q, r.timerIds[fd])
    else if fd in r.callbacks then q.(current := Some(fd))
    else q
  }

  /** Its callbacks have run: watched again if it still has any. */
  function End(r: Reactor): Reactor {
    if r.current.None? then r else Update(r.(current := None), r.current.value, false)
  }

  /** Callbacks act between `Begin` and `End`, and between events (timers, posted tasks). */
  datatype Step = Do(action: Action) | Poll(events: seq<Event>) | Take | Done

  predicate Enabled(r: Reactor, step: Step) {
    match step
    case Do(a) => Sound(r, a)
    case Poll(events) => r.remaining == [] && r.current.None?
    case Take => r.remaining != [] && r.current.None?
    case Done => r.current.Some?
  }

  function Next(r: Reactor, step: Step): Reactor {
    match step
    case Do(a) => Perform(r, a)
    case Poll(events) => Wait(r, events)
    case Take => if r.remaining == [] then r else Begin(r)
    case Done => End(r)
  }

  // ---------- Agreement ----------

  predicate Waiting(r: Reactor, fd: int) { r.current == Some(fd) || Reported(r.remaining, fd) }

  /** The kernel watches exactly the descriptors with callbacks, the timers and the wake-up descriptor: the first for
      the directions with a callback, one-shot, and armed unless its turn in this poll is still to come; the
      others always. */
  predicate Agrees(r: Reactor, fd: int) {
    && (fd in r.interest <==> fd in r.callbacks || fd in r.timerIds || fd == r.wakeFd)
    && (fd in r.callbacks ==>
          && (r.callbacks[fd].read.Some? || r.callbacks[fd].write.Some?)
          && r.interest[fd].(armed := true) == Wanted(r.callbacks[fd])
          && (r.interest[fd].armed || Waiting(r, fd)))
    && (fd in r.timerIds || fd == r.wakeFd ==> r.interest[fd] == ALWAYS)
    && (fd in r.timerIds ==> fd != r.wakeFd)
  }

  predicate TimersInverse(r: Reactor) {
    && (forall id :: id in r.timersById ==> id < r.nextTimer && r.timersById[id] in r.timerIds && r.timerIds[r.timersById[id]] == id)
    && (forall tfd :: tfd in r.timerIds ==> r.timerIds[tfd] in r.timersById && r.timersById[r.timerIds[tfd]] == tfd)
  }

  ghost predicate Inv(r: Reactor) {
    (forall fd {:trigger Agrees(r, fd)} :: Agrees(r, fd)) && TimersInverse(r)
  }

  lemma UpdateAgrees(r: Reactor, fd: int, add: bool, other: int)
    requires fd in r.callbacks && (if add then fd !in r.interest else fd in r.interest) && fd !in r.timerIds && fd != r.wakeFd
    requires r.callbacks[fd].read.Some? || r.callbacks[fd].write.Some?
    requires other != fd ==> Agrees(r, other)
    ensures Agrees(Update(r, fd, add), other)
  {
  }

  lemma RegisterAgrees(r: Reactor, fd: int, dir: Direction, cb: Callback, other: int)
    requires Inv(r) && fd !in r.timerIds && fd != r.wakeFd
    ensures Agrees(Register(r, fd, dir, cb), other)
  {
    assert Agrees(r, fd) && Agrees(r, other);
    var c := if fd in r.callbacks then r.callbacks[fd] else Callbacks(None, None);
    UpdateAgrees(r.(callbacks := r.callbacks[fd := With(c, dir, Some(cb))]), fd, fd !in r.callbacks, other);
  }

  lemma UnregisterAgrees(r: Reactor, fd: int, dir: Direction, other: int)
    requires Inv(r)
    ensures Agrees(Unregister(r, fd, dir), other)
  {
    assert Agrees(r, fd) && Agrees(r, other);
    if fd in r.callbacks {
      var c := With(r.callbacks[fd], dir, None);
      if c.read.Some? || c.write.Some? { UpdateAgrees(r.(callbacks := r.callbacks[fd := c]), fd, false, other); }
    }
  }

  lemma CancelInverse(r: Reactor, id: nat)
    requires TimersInverse(r)
    ensures TimersInverse(Cancel(r, id))
  {
  }

  lemma CancelAgrees(r: Reactor, id: nat, fd: int)
    requires Inv(r)
    ensures Agrees(Cancel(r, id), fd)
  {
    assert Agrees(r, fd);
    if id in r.timersById { assert Agrees(r, r.timersById[id]); }
  }

  lemma PerformKeeps(r: Reactor, a: Action)
    requires Inv(r) && Sound(r, a)
    ensures Inv(Perform(r, a))
  {
    var q := Perform(r, a);
    forall fd ensures Agrees(q, fd) {
      assert Agrees(r, fd);
      match a
      case Watch(d, dir, cb) => RegisterAgrees(r, d, dir, cb, fd);
      case Unwatch(d, dir) => UnregisterAgrees(r, d, dir, fd);
      case Arm(tfd) =>
      case Disarm(id) => CancelAgrees(r, id, fd);
    }
    assert a.Arm? && a.tfd.Some? ==> Agrees(r, a.tfd.value);
    if a.Disarm? { CancelInverse(r, a.id); }
  }

  lemma WaitKeeps(r: Reactor, events: seq<Event>)
    requires Inv(r) && r.remaining == [] && r.current.None?
    ensures Inv(Wait(r, events))
  {
    forall fd ensures Agrees(Wait(r, events), fd) { assert Agrees(r, fd); }
  }

  lemma BeginKeeps(r: Reactor)
    requires Inv(r) && r.remaining != [] && r.current.None?
    ensures Inv(Begin(r))
  {
    var first := r.remaining[0].fd;
    if first != r.wakeFd && first in r.timerIds { CancelInverse(r, r.timerIds[first]); }
    forall fd ensures Agrees(Begin(r), fd) {
      assert Agrees(r, fd) && Agrees(r, first);
      if Reported(r.remaining, fd) && first != fd { StillReported(r.remaining, fd); }
    }
  }

  lemma StillReported(events: seq<Event>, fd: int)
    requires events != [] && Reported(events, fd) && events[0].fd != fd
    ensures Reported(events[1..], fd)
  {
    var i :| 0 <= i < |events| && events[i].fd == fd;
    assert events[1..][i - 1].fd == fd;
  }

  lemma EndKeeps(r: Reactor)
    requires Inv(r) && r.current.Some?
    ensures Inv(End(r))
  {
    var d := r.current.value;
    var q := r.(current := None);
    forall fd ensures Agrees(End(r), fd) {
      assert Agrees(r, fd) && Agrees(r, d);
      if d in r.callbacks { UpdateAgrees(q, d, false, fd); }
    }
  }

  lemma StepKeeps(r: Reactor, step: Step)
    requires Inv(r) && Enabled(r, step)
    ensures Inv(Next(r, step))
  {
    match step
    case Do(a) => PerformKeeps(r, a);
    case Poll(events) => WaitKeeps(r, events);
    case Take => BeginKeeps(r);
    case Done => EndKeeps(r);
  }

  predicate Possible(r: Reactor, steps: seq<Step>)
    decreases |steps|
  {
    steps == [] || (Enabled(r, steps[0]) && Possible(Next(r, steps[0]), steps[1..]))
  }

  function Play(r: Reactor, steps: seq<Step>): Reactor
    decreases |steps|
  {
    if steps == [] then r else Play(Next(r, steps[0]), steps[1..])
  }

  lemma {:induction false} PlayKeeps(r: Reactor, steps: seq<Step>)
    requires Inv(r) && Possible(r, steps)
    ensures Inv(Play(r, steps))
    decreases |steps|
  {
    if steps != [] {
      StepKeeps(r, steps[0]);
      PlayKeeps(Next(r, steps[0]), steps[1..]);
    }
  }

  /** Whenever a poll has returned, whatever the callbacks did: each listed descriptor is armed for exactly the
      directions with a callback, no entry is empty, timers and the wake-up descriptor are watched always and have no
      callbacks, nothing else is watched, and the timer maps are inverses of each other. */
  lemma PollLeavesAgreement(wakeFd: int, steps: seq<Step>, fd: int)
    requires var r := Play(Start(wakeFd), steps); Possible(Start(wakeFd), steps) && r.remaining == [] && r.current.None?
    ensures var r := Play(Start(wakeFd), steps);
            && (fd in r.callbacks ==>
                  && fd in r.interest
                  && (r.interest[fd].input <==> Entry(r, fd, Reading).Some?)
                  && (r.interest[fd].output <==> Entry(r, fd, Writing).Some?)
                  && (r.interest[fd].input || r.interest[fd].output)
                  && r.interest[fd].oneShot && r.interest[fd].armed)
            && (fd in r.timerIds || fd == r.wakeFd ==>
                  && fd in r.interest && fd !in r.callbacks
                  && r.interest[fd].input && !r.interest[fd].output && !r.interest[fd].oneShot && r.interest[fd].armed)
            && (fd in r.interest ==> fd in r.callbacks || fd in r.timerIds || fd == r.wakeFd)
            && TimersInverse(r)
  {
    assert forall d :: Agrees(Start(wakeFd), d);
    PlayKeeps(Start(wakeFd), steps);
    assert Agrees(Play(Start(wakeFd), steps), fd);
  }

  /** Watching a descriptor of the reactor's own breaks the agreement: the kernel refuses to add it a second time, and
      goes on watching it for input only and not one-shot. Watching any other keeps it. */
  lemma WatchKeepsIff(r: Reactor, fd: int, dir: Direction, cb: Callback)
    requires Inv(r)
    ensures Inv(Register(r, fd, dir, cb)) <==> fd !in r.timerIds && fd != r.wakeFd
  {
    if fd !in r.timerIds && fd != r.wakeFd {
      PerformKeeps(r, Watch(fd, dir, cb));
    } else {
      assert Agrees(r, fd);
      assert !Agrees(Register(r, fd, dir, cb), fd);
    }
  }

  // ---------- Invoking callbacks ----------

  function PerformAll(r: Reactor, actions: seq<Action>): (q: Reactor)
    ensures q.remaining == r.remaining && q.current == r.current && q.wakeFd == r.wakeFd && q.calls == r.calls
    decreases |actions|
  {
    if actions == [] then r else PerformAll(Perform(r, actions[0]), actions[1..])
  }

  /** What the callbacks of an event do, by how many events are left: the read callback (or the timer's, or the posted
      tasks), then the write callback. */
  type Scripts = nat -> (seq<Action>, seq<Action>)

  function Logged(r: Reactor, call: Call): Reactor { r.(calls := r.calls + [call]) }

  /** A callback runs if there is one and its direction was reported. */
  function RunIf(r: Reactor, fd: int, dir: Direction, reported: bool, cb: Option<Callback>, actions: seq<Action>): (q: Reactor)
    ensures q.remaining == r.remaining && q.current == r.current && q.wakeFd == r.wakeFd
    ensures q.calls == r.calls + if reported && cb.Some? then [Ran(fd, dir, cb.value)] else []
  {
    if reported && cb.Some? then PerformAll(Logged(r, Ran(fd, dir, cb.value)), actions) else r
  }

  /** The state in which the write callback of the first event is about to run, or not. */
  function AfterRead(r: Reactor, scripts: Scripts): Reactor
    requires r.remaining != [] && r.remaining[0].fd in r.callbacks
  {
    var ev := r.remaining[0];
    RunIf(Begin(r), ev.fd, Reading, ev.input, r.callbacks[ev.fd].read, scripts(|r.remaining| - 1).0)
  }

  predicate IsRegular(r: Reactor, fd: int) { fd != r.wakeFd && fd !in r.timerIds && fd in r.callbacks }

  /** One event. The callbacks are those registered when it is taken up, even if the first unregisters the second. */
  function Handle(r: Reactor, scripts: Scripts): (q: Reactor)
    requires r.remaining != [] && r.current.None?
    ensures q.remaining == r.remaining[1..] && q.current.None?
  {
    var ev, left := r.remaining[0], |r.remaining| - 1;
    if ev.fd == r.wakeFd then PerformAll(Begin(r), scripts(left).0)
    else if ev.fd in r.timerIds then
      if r.timerIds[ev.fd] in r.timersById then PerformAll(Logged(Begin(r), Fired(r.timerIds[ev.fd])), scripts(left).0)
      else Begin(r)
    else if ev.fd in r.callbacks then
      End(RunIf(AfterRead(r, scripts), ev.fd, Writing, ev.output, r.callbacks[ev.fd].write, scripts(left).1))
    else Begin(r)
  }

  function Drain(r: Reactor, scripts: Scripts): Reactor
    requires r.current.None?
    decreases |r.remaining|
  {
    if r.remaining == [] then r else Drain(Handle(r, scripts), scripts)
  }

  predicate SoundAll(r: Reactor, actions: seq<Action>)
    decreases |actions|
  {
    actions == [] || (Sound(r, actions[0]) && SoundAll(Perform(r, actions[0]), actions[1..]))
  }

  predicate SoundIf(r: Reactor, fd: int, dir: Direction, reported: bool, cb: Option<Callback>, actions: seq<Action>) {
    reported && cb.Some? ==> SoundAll(Logged(r, Ran(fd, dir, cb.value)), actions)
  }

  /** What the callbacks of one event do is sound. */
  predicate SoundHandle(r: Reactor, scripts: Scripts)
    requires r.remaining != [] && r.current.None?
  {
    var ev, left := r.remaining[0], |r.remaining| - 1;
    if ev.fd == r.wakeFd then SoundAll(Begin(r), scripts(left).0)
    else if ev.fd in r.timerIds then SoundAll(Logged(Begin(r), Fired(r.timerIds[ev.fd])), scripts(left).0)
    else if ev.fd in r.callbacks then
      && SoundIf(Begin(r), ev.fd, Reading, ev.input, r.callbacks[ev.fd].read, scripts(left).0)
      && SoundIf(AfterRead(r, scripts), ev.fd, Writing, ev.output, r.callbacks[ev.fd].write, scripts(left).1)
    else true
  }

  predicate SoundDrain(r: Reactor, scripts: Scripts)
    requires r.current.None?
    decreases |r.remaining|
  {
    r.remaining == [] || (SoundHandle(r, scripts) && SoundDrain(Handle(r, scripts), scripts))
  }

  lemma {:induction false} PerformAllKeeps(r: Reactor, actions: seq<Action>)
    requires Inv(r) && SoundAll(r, actions)
    ensures Inv(PerformAll(r, actions))
    decreases |actions|
  {
    if actions != [] {
      PerformKeeps(r, actions[0]);
      PerformAllKeeps(Perform(r, actions[0]), actions[1..]);
    }
  }

  lemma LoggedKeeps(r: Reactor, call: Call)
    requires Inv(r)
    ensures Inv(Logged(r, call))
  {
    forall fd ensures Agrees(Logged(r, call), fd) { assert Agrees(r, fd); }
  }

  lemma RunIfKeeps(r: Reactor, fd: int, dir: Direction, reported: bool, cb: Option<Callback>, actions: seq<Action>)
    requires Inv(r) && SoundIf(r, fd, dir, reported, cb, actions)
    ensures Inv(RunIf(r, fd, dir, reported, cb, actions))
  {
    if reported && cb.Some? {
      LoggedKeeps(r, Ran(fd, dir, cb.value));
      PerformAllKeeps(Logged(r, Ran(fd, dir, cb.value)), actions);
    }
  }

  lemma HandleKeeps(r: Reactor, scripts: Scripts)
    requires Inv(r) && r.remaining != [] && r.current.None? && SoundHandle(r, scripts)
    ensures Inv(Handle(r, scripts))
  {
    var ev, left := r.remaining[0], |r.remaining| - 1;
    BeginKeeps(r);
    if ev.fd == r.wakeFd {
      PerformAllKeeps(Begin(r), scripts(left).0);
    } else if ev.fd in r.timerIds {
      LoggedKeeps(Begin(r), Fired(r.timerIds[ev.fd]));
      PerformAllKeeps(Logged(Begin(r), Fired(r.timerIds[ev.fd])), scripts(left).0);
    } else if ev.fd in r.callbacks {
      var c := r.callbacks[ev.fd];
      RunIfKeeps(Begin(r), ev.fd, Reading, ev.input, c.read, scripts(left).0);
      RunIfKeeps(AfterRead(r, scripts), ev.fd, Writing, ev.output, c.write, scripts(left).1);
      EndKeeps(RunIf(AfterRead(r, scripts), ev.fd, Writing, ev.output, c.write, scripts(left).1));
    }
  }

  /** A poll brings the tables back into agreement. */
  lemma {:induction false} DrainKeeps(r: Reactor, scripts: Scripts)
    requires Inv(r) && r.current.None? && SoundDrain(r, scripts)
    ensures var q := Drain(r, scripts); Inv(q) && q.remaining == [] && q.current.None?
    decreases |r.remaining|
  {
    if r.remaining != [] {
      HandleKeeps(r, scripts);
      DrainKeeps(Handle(r, scripts), scripts);
    }
  }

  // ---------- Which callbacks are invoked ----------

  /** The callback registered for a descriptor and direction. */
  function Entry(r: Reactor, fd: int, dir: Direction): Option<Callback> {
    if fd !in r.callbacks then None else if dir == Reading then r.callbacks[fd].read else r.callbacks[fd].write
  }

  /** The entry that actions leave: the last one that names it decides. */
  function LastSet(actions: seq<Action>, fd: int, dir: Direction, entry: Option<Callback>): Option<Callback> {
    if actions == [] then entry
    else
      var last := actions[|actions| - 1];
      if last.Watch? && last.fd == fd && last.dir == dir then Some(last.cb)
      else if last.Unwatch? && last.fd == fd && last.dir == dir then None
      else LastSet(actions[..|actions| - 1], fd, dir, entry)
  }

  lemma PerformSets(r: Reactor, a: Action, fd: int, dir: Direction)
    ensures Entry(Perform(r, a), fd, dir) == LastSet([a], fd, dir, Entry(r, fd, dir))
  {
    assert [a][..0] == [];
  }

  lemma {:induction false} PerformAllAppend(r: Reactor, actions: seq<Action>, a: Action)
    ensures PerformAll(r, actions + [a]) == Perform(PerformAll(r, actions), a)
    decreases |actions|
  {
    if actions == [] {
      assert [] + [a] == [a] && [a][1..] == [];
    } else {
      assert (actions + [a])[1..] == actions[1..] + [a];
      PerformAllAppend(Perform(r, actions[0]), actions[1..], a);
    }
  }

  /** Whatever else the actions do, the entry is as the last of them that names it left it. */
  lemma {:induction false} EntryAfter(r: Reactor, actions: seq<Action>, fd: int, dir: Direction)
    ensures Entry(PerformAll(r, actions), fd, dir) == LastSet(actions, fd, dir, Entry(r, fd, dir))
    decreases |actions|
  {
    if actions != [] {
      var rest, last := actions[..|actions| - 1], actions[|actions| - 1];
      assert actions == rest + [last];
      EntryAfter(r, rest, fd, dir);
      PerformAllAppend(r, rest, last);
      PerformSets(PerformAll(r, rest), last, fd, dir);
      assert [last][..0] == [];
    }
  }

  lemma BeginEntry(r: Reactor, fd: int, dir: Direction)
    requires r.remaining != []
    ensures Entry(Begin(r), fd, dir) == Entry(r, fd, dir)
  {
  }

  /** An event invokes exactly the callbacks registered when it is taken up, in the directions reported, the read
      callback first; the read callback is still the one registered when it runs. */
  lemma HandleInvokes(r: Reactor, scripts: Scripts)
    requires r.remaining != [] && r.current.None? && IsRegular(r, r.remaining[0].fd)
    ensures var ev := r.remaining[0];
            var read, write := Entry(r, ev.fd, Reading), Entry(r, ev.fd, Writing);
            && Handle(r, scripts).calls == r.calls
                 + (if ev.input && read.Some? then [Ran(ev.fd, Reading, read.value)] else [])
                 + (if ev.output && write.Some? then [Ran(ev.fd, Writing, write.value)] else [])
            && Entry(Begin(r), ev.fd, Reading) == read
  {
    BeginEntry(r, r.remaining[0].fd, Reading);
  }

  /** The write callback that an event invokes is the one registered at that moment exactly if no read callback ran,
      or the last thing that one did to the write entry, if anything, was to register the same callback. */
  lemma WriteIsCurrentIff(r: Reactor, scripts: Scripts)
    requires r.remaining != [] && r.current.None? && IsRegular(r, r.remaining[0].fd)
    requires Entry(r, r.remaining[0].fd, Writing).Some?
    ensures var ev := r.remaining[0];
            var read, write := Entry(r, ev.fd, Reading), Entry(r, ev.fd, Writing);
            Entry(AfterRead(r, scripts), ev.fd, Writing) == write <==>
            (ev.input && read.Some? ==> LastSet(scripts(|r.remaining| - 1).0, ev.fd, Writing, write) == write)
  {
    var ev, left := r.remaining[0], |r.remaining| - 1;
    BeginEntry(r, ev.fd, Writing);
    if ev.input && Entry(r, ev.fd, Reading).Some? {
      var a := Logged(Begin(r), Ran(ev.fd, Reading, Entry(r, ev.fd, Reading).value));
      EntryAfter(a, scripts(left).0, ev.fd, Writing);
    }
  }

  /** The descriptor of a pending timer. */
  function TimerOf(r: Reactor, id: nat): Option<int> {
    if id in r.timersById then Some(r.timersById[id]) else None
  }

  /** How many timers the actions arm. */
  function ArmedBy(actions: seq<Action>): nat {
    if actions == [] then 0
    else ArmedBy(actions[..|actions| - 1]) + if actions[|actions| - 1].Arm? && actions[|actions| - 1].tfd.Some? then 1 else 0
  }

  lemma {:induction false} NumbersGiven(r: Reactor, actions: seq<Action>)
    ensures PerformAll(r, actions).nextTimer == r.nextTimer + ArmedBy(actions)
    decreases |actions|
  {
    if actions != [] {
      var rest, last := actions[..|actions| - 1], actions[|actions| - 1];
      assert actions == rest + [last];
      NumbersGiven(r, rest);
      PerformAllAppend(r, rest, last);
    }
  }

  lemma TimerStep(r: Reactor, a: Action, id: nat)
    requires id < r.nextTimer
    ensures TimerOf(Perform(r, a), id) == if a == Disarm(id) then None else TimerOf(r, id)
  {
  }

  lemma InFrontOf(actions: seq<Action>, rest: seq<Action>, a: Action)
    requires actions != [] && rest == actions[..|actions| - 1]
    ensures a in actions <==> a in rest || actions[|actions| - 1] == a
  {
    assert actions == rest + [actions[|actions| - 1]];
  }

  /** A timer that had its number before the actions is pending behind them exactly if it was and none disarms it. */
  lemma {:induction false} TimerKept(r: Reactor, actions: seq<Action>, id: nat)
    requires id < r.nextTimer
    ensures TimerOf(PerformAll(r, actions), id) == if Disarm(id) in actions then None else TimerOf(r, id)
    decreases |actions|
  {
    if actions != [] {
      var rest, last := actions[..|actions| - 1], actions[|actions| - 1];
      assert actions == rest + [last];
      TimerKept(r, rest, id);
      NumbersGiven(r, rest);
      PerformAllAppend(r, rest, last);
      TimerStep(PerformAll(r, rest), last, id);
      InFrontOf(actions, rest, Disarm(id));
    }
  }

  lemma ArmStep(r: Reactor, a: Action)
    requires a.Arm? && a.tfd.Some?
    ensures TimerOf(Perform(r, a), r.nextTimer) == a.tfd
  {
  }

  /** One that the `i`-th action arms gets the next number, and is pending behind the actions, with the kernel's
      descriptor, exactly if no later one disarms it. */
  lemma {:induction false} TimerArmed(r: Reactor, actions: seq<Action>, i: nat, id: nat)
    requires i < |actions| && actions[i].Arm? && actions[i].tfd.Some? && id == r.nextTimer + ArmedBy(actions[..i])
    ensures TimerOf(PerformAll(r, actions), id) == (if Disarm(id) in actions[i + 1..] then None else actions[i].tfd)
    ensures id < PerformAll(r, actions).nextTimer
    decreases |actions|
  {
    var n := |actions| - 1;
    var rest, last := actions[..n], actions[n];
    assert actions == rest + [last];
    PerformAllAppend(r, rest, last);
    if i == n {
      NumbersGiven(r, rest);
      ArmStep(PerformAll(r, rest), last);
    } else {
      assert rest[..i] == actions[..i] && rest[i + 1..] == actions[i + 1..][..n - i - 1];
      TimerArmed(r, rest, i, id);
      TimerStep(PerformAll(r, rest), last, id);
      InFrontOf(actions[i + 1..], rest[i + 1..], Disarm(id));
    }
  }

  // ---------- What an event makes run ----------

  /** Posted tasks, a timer's callback, or those of a descriptor's that are registered and reported. */
  function RunBy(r: Reactor, scripts: Scripts): seq<Action>
    requires r.remaining != []
  {
    var ev, script := r.remaining[0], scripts(|r.remaining| - 1);
    if ev.fd == r.wakeFd || ev.fd in r.timerIds then script.0
    else (if ev.input && Entry(r, ev.fd, Reading).Some? then script.0 else [])
         + (if ev.output && Entry(r, ev.fd, Writing).Some? then script.1 else [])
  }

  /** An event of any descriptor invokes a timer's callback, or a descriptor's as they are registered and reported, and no
      other. */
  lemma EventInvokes(r: Reactor, scripts: Scripts)
    requires r.remaining != [] && r.current.None? && Inv(r)
    ensures var ev := r.remaining[0];
            var read, write := Entry(r, ev.fd, Reading), Entry(r, ev.fd, Writing);
            Handle(r, scripts).calls == r.calls +
              if ev.fd in r.timerIds then [Fired(r.timerIds[ev.fd])]
              else (if ev.input && read.Some? then [Ran(ev.fd, Reading, read.value)] else [])
                   + (if ev.output && write.Some? then [Ran(ev.fd, Writing, write.value)] else [])
  {
    assert Agrees(r, r.remaining[0].fd);
    if IsRegular(r, r.remaining[0].fd) { HandleInvokes(r, scripts); }
  }

  lemma {:induction false} LastSetAppend(a: seq<Action>, b: seq<Action>, fd: int, dir: Direction, entry: Option<Callback>)
    ensures LastSet(a + b, fd, dir, entry) == LastSet(b, fd, dir, LastSet(a, fd, dir, entry))
    decreases |b|
  {
    if b == [] {
      assert a + b == a;
    } else {
      assert (a + b)[..|a + b| - 1] == a + b[..|b| - 1];
      LastSetAppend(a, b[..|b| - 1], fd, dir, entry);
    }
  }

  lemma RunIfEntry(r: Reactor, fd: int, dir: Direction, reported: bool, cb: Option<Callback>, actions: seq<Action>, d: int, e: Direction)
    ensures Entry(RunIf(r, fd, dir, reported, cb, actions), d, e)
            == LastSet(if reported && cb.Some? then actions else [], d, e, Entry(r, d, e))
  {
    if reported && cb.Some? { EntryAfter(Logged(r, Ran(fd, dir, cb.value)), actions, d, e); }
  }

  lemma EndEntry(r: Reactor, fd: int, dir: Direction)
    ensures Entry(End(r), fd, dir) == Entry(r, fd, dir)
  {
  }

  lemma RegularEntry(r: Reactor, scripts: Scripts, fd: int, dir: Direction)
    requires r.remaining != [] && r.current.None? && IsRegular(r, r.remaining[0].fd)
    ensures Entry(Handle(r, scripts), fd, dir) == LastSet(RunBy(r, scripts), fd, dir, Entry(r, fd, dir))
  {
    var ev, script := r.remaining[0], scripts(|r.remaining| - 1);
    var c, mid := r.callbacks[ev.fd], AfterRead(r, scripts);
    BeginEntry(r, fd, dir);
    RunIfEntry(Begin(r), ev.fd, Reading, ev.input, c.read, script.0, fd, dir);
    RunIfEntry(mid, ev.fd, Writing, ev.output, c.write, script.1, fd, dir);
    EndEntry(RunIf(mid, ev.fd, Writing, ev.output, c.write, script.1), fd, dir);
    LastSetAppend(if ev.input && c.read.Some? then script.0 else [], if ev.output && c.write.Some? then script.1 else [],
                  fd, dir, Entry(r, fd, dir));
  }

  /** What an event makes run leaves every callback as the last action that names it says. */
  lemma EventSets(r: Reactor, scripts: Scripts, fd: int, dir: Direction)
    requires r.remaining != [] && r.current.None? && Inv(r)
    ensures Entry(Handle(r, scripts), fd, dir) == LastSet(RunBy(r, scripts), fd, dir, Entry(r, fd, dir))
  {
    var ev, ran := r.remaining[0], RunBy(r, scripts);
    assert Agrees(r, ev.fd);
    BeginEntry(r, fd, dir);
    if IsRegular(r, ev.fd) {
      RegularEntry(r, scripts, fd, dir);
    } else if ev.fd == r.wakeFd {
      EntryAfter(Begin(r), ran, fd, dir);
    } else if ev.fd in r.timerIds {
      EntryAfter(Logged(Begin(r), Fired(r.timerIds[ev.fd])), ran, fd, dir);
    }
  }

  lemma BeginTimer(r: Reactor, id: nat)
    requires r.remaining != [] && Inv(r)
    ensures TimerOf(Begin(r), id) == if TimerOf(r, id) == Some(r.remaining[0].fd) then None else TimerOf(r, id)
    ensures Begin(r).nextTimer == r.nextTimer
  {
    assert Agrees(r, r.remaining[0].fd);
  }

  lemma RunIfTimer(r: Reactor, fd: int, dir: Direction, reported: bool, cb: Option<Callback>, actions: seq<Action>, id: nat)
    requires id < r.nextTimer
    ensures var q, ran := RunIf(r, fd, dir, reported, cb, actions), reported && cb.Some?;
            id < q.nextTimer && TimerOf(q, id) == if ran && Disarm(id) in actions then None else TimerOf(r, id)
  {
    if reported && cb.Some? {
      TimerKept(Logged(r, Ran(fd, dir, cb.value)), actions, id);
      NumbersGiven(Logged(r, Ran(fd, dir, cb.value)), actions);
    }
  }

  lemma RegularTimer(r: Reactor, scripts: Scripts, id: nat)
    requires r.remaining != [] && r.current.None? && IsRegular(r, r.remaining[0].fd) && id < r.nextTimer
    ensures TimerOf(Handle(r, scripts), id) == if Disarm(id) in RunBy(r, scripts) then None else TimerOf(r, id)
  {
    var ev, script := r.remaining[0], scripts(|r.remaining| - 1);
    var c, mid := r.callbacks[ev.fd], AfterRead(r, scripts);
    RunIfTimer(Begin(r), ev.fd, Reading, ev.input, c.read, script.0, id);
    RunIfTimer(mid, ev.fd, Writing, ev.output, c.write, script.1, id);
    EndTimer(RunIf(mid, ev.fd, Writing, ev.output, c.write, script.1), id);
    InEither(if ev.input && c.read.Some? then script.0 else [], if ev.output && c.write.Some? then script.1 else [], Disarm(id));
  }

  lemma EndTimer(r: Reactor, id: nat)
    ensures TimerOf(End(r), id) == TimerOf(r, id)
  {
  }

  lemma InEither(a: seq<Action>, b: seq<Action>, x: Action)
    ensures x in a + b <==> x in a || x in b
  {
  }

  /** A timer is pending behind an event exactly if it was, the event is not its own, and nothing that runs disarms it. */
  lemma EventTimers(r: Reactor, scripts: Scripts, id: nat)
    requires r.remaining != [] && r.current.None? && Inv(r) && id < r.nextTimer
    ensures TimerOf(Handle(r, scripts), id)
            == if Disarm(id) in RunBy(r, scripts) || TimerOf(r, id) == Some(r.remaining[0].fd) then None else TimerOf(r, id)
  {
    var ev, ran := r.remaining[0], RunBy(r, scripts);
    assert Agrees(r, ev.fd);
    BeginTimer(r, id);
    if IsRegular(r, ev.fd) {
      RegularTimer(r, scripts, id);
    } else if ev.fd == r.wakeFd {
      TimerKept(Begin(r), ran, id);
    } else if ev.fd in r.timerIds {
      TimerKept(Logged(Begin(r), Fired(r.timerIds[ev.fd])), ran, id);
    }
  }

  /** `epoll_wait` disarms exactly the reported descriptors that are watched one-shot. */
  lemma WaitDisarms(r: Reactor, events: seq<Event>, fd: int)
    requires Inv(r) && r.remaining == [] && r.current.None?
    ensures var q := Wait(r, events);
            && q.interest.Keys == r.interest.Keys
            && (fd in q.interest && fd in r.callbacks ==> (q.interest[fd].armed <==> forall i :: 0 <= i < |events| ==> events[i].fd != fd))
            && (fd in q.interest && fd !in r.callbacks ==> q.interest[fd].armed)
  {
    assert Agrees(r, fd);
  }

  /** A descriptor watched both ways. */
  function Both(wakeFd: int, fd: int, read: Callback, write: Callback): Reactor {
    Register(Register(Start(wakeFd), fd, Reading, read), fd, Writing, write)
  }

  /** The input at which a callback runs after its unregister: both directions are reported, and the read callback
      unregisters writing. */
  lemma StaleWriteRuns(wakeFd: int, fd: int, read: Callback, write: Callback, scripts: Scripts)
    requires fd != wakeFd && scripts(0).0 == [Unwatch(fd, Writing)]
    ensures var r := Wait(Both(wakeFd, fd, read, write), [Event(fd, true, true)]);
            && Entry(AfterRead(r, scripts), fd, Writing) == None
            && Handle(r, scripts).calls == [Ran(fd, Reading, read), Ran(fd, Writing, write)]
  {
    var r := Wait(Both(wakeFd, fd, read, write), [Event(fd, true, true)]);
    HandleInvokes(r, scripts);
    BeginEntry(r, fd, Writing);
    var a, script := Logged(Begin(r), Ran(fd, Reading, read)), scripts(0).0;
    EntryAfter(a, script, fd, Writing);
    assert script[|script| - 1] == Unwatch(fd, Writing);
  }

  // ---------- The object ----------

  class EpollReactor {
    const wakeFd: int
    var callbacks: map<int, Callbacks>
    var interest: map<int, Interest>
    var timersById: map<nat, int>
    var timerIds: map<int, nat>
    var nextTimer: nat
    var remaining: seq<Event>
    var current: Option<int>
    var calls: seq<Call>

    function View(): Reactor reads this {
      Reactor(wakeFd, callbacks, interest, timersById, timerIds, nextTimer, remaining, current, calls)
    }

    constructor (wakeFd: int)
      ensures View() == Start(wakeFd)
    {
      this.wakeFd := wakeFd;
      callbacks, interest, timersById, timerIds, nextTimer := map[], map[wakeFd := ALWAYS], map[], map[], 1;
      remaining, current, calls := [], None, [];
    }

    method UpdateEpoll(fd: int, add: bool)
      requires fd in callbacks
      modifies `interest
      ensures View() == Update(old(View()), fd, add)
    {
      var events := Interest(callbacks[fd].read.Some?, callbacks[fd].write.Some?, true, true);
      if add == (fd !in interest) {
        interest := interest[fd := events];
      }
    }

    method RegisterEvent(fd: int, dir: Direction, cb: Callback)
      modifies `callbacks, `interest
      ensures View() == Register(old(View()), fd, dir, cb)
    {
      var isNew := fd !in callbacks;
      var c := if isNew then Callbacks(None, None) else callbacks[fd];
      callbacks := callbacks[fd := if dir == Reading then c.(read := Some(cb)) else c.(write := Some(cb))];
      UpdateEpoll(fd, isNew);
    }

    method UnregisterEvent(fd: int, dir: Direction)
      modifies `callbacks, `interest
      ensures View() == Unregister(old(View()), fd, dir)
    {
      if fd !in callbacks {
        return;
      }
      var c := callbacks[fd];
      c := if dir == Reading then c.(read := None) else c.(write := None);
      if c.read.None? && c.write.None? {
        interest := interest - {fd};
        callbacks := callbacks - {fd};
      } else {
        callbacks := callbacks[fd := c];
        UpdateEpoll(fd, false);
      }
    }

    /** `tfd` is the kernel's answer: a descriptor that was created, set and added, or none. */
    method RegisterTimer(tfd: Option<int>) returns (id: Option<nat>)
      modifies `interest, `timersById, `timerIds, `nextTimer
      ensures id == (if tfd.Some? then Some(old(nextTimer)) else None) && View() == SetTimer(old(View()), tfd)
    {
      if tfd.None? {
        return None;
      }
      interest := interest[tfd.value := ALWAYS];
      id := Some(nextTimer);
      nextTimer := nextTimer + 1;
      timersById := timersById[id.value := tfd.value];
      timerIds := timerIds[tfd.value := id.value];
    }

    method UnregisterTimer(id: nat)
      modifies `interest, `timersById, `timerIds
      ensures View() == Cancel(old(View()), id)
    {
      if id !in timersById {
        return;
      }
      interest := interest - {timersById[id]};
      timerIds := timerIds - {timersById[id]};
      timersById := timersById - {id};
    }

    method RunCallback(actions: seq<Action>)
      modifies this
      ensures View() == PerformAll(old(View()), actions)
    {
      for i := 0 to |actions|
        invariant PerformAll(View(), actions[i..]) == PerformAll(old(View()), actions)
      {
        assert actions[i..][1..] == actions[i + 1..];
        match actions[i]
        case Watch(fd, dir, cb) => RegisterEvent(fd, dir, cb);
        case Unwatch(fd, dir) => UnregisterEvent(fd, dir);
        case Arm(tfd) => var _ := RegisterTimer(tfd);
        case Disarm(id) => UnregisterTimer(id);
      }
    }

    method Invoke(call: Call, actions: seq<Action>)
      modifies this
      ensures View() == PerformAll(Logged(old(View()), call), actions)
    {
      calls := calls + [call];
      RunCallback(actions);
    }

    /** A regular event: copies of the callbacks, then watched again if anything is left to watch. */
    method HandleDescriptor(ev: Event, scripts: Scripts)
      requires remaining != [] && remaining[0] == ev && current.None? && IsRegular(View(), ev.fd)
      modifies this
      ensures View() == Handle(old(View()), scripts)
    {
      var left := |remaining| - 1;
      remaining := remaining[1..];
      current := Some(ev.fd);
      var c := callbacks[ev.fd];
      if ev.input && c.read.Some? {
        Invoke(Ran(ev.fd, Reading, c.read.value), scripts(left).0);
      }
      if ev.output && c.write.Some? {
        Invoke(Ran(ev.fd, Writing, c.write.value), scripts(left).1);
      }
      current := None;
      if ev.fd in callbacks {
        UpdateEpoll(ev.fd, false);
      }
    }

    method HandleTimer(ev: Event, scripts: Scripts)
      requires remaining != [] && remaining[0] == ev && current.None? && ev.fd in timerIds && ev.fd != wakeFd
      modifies this
      ensures View() == Handle(old(View()), scripts)
    {
      remaining := remaining[1..];
      var id := timerIds[ev.fd];
      if id in timersById {
        UnregisterTimer(id);
        Invoke(Fired(id), scripts(|remaining|).0);
      }
    }

    /** `poll`, for the events the kernel reports; the wake-up descriptor stands for the tasks posted. */
    method PollOnce(events: seq<Event>, scripts: Scripts)
      requires remaining == [] && current.None?
      modifies this
      ensures View() == Drain(Wait(old(View()), events), scripts)
    {
      remaining := events;
      interest := map fd | fd in interest ::
        if interest[fd].oneShot && Reported(events, fd) then interest[fd].(armed := false) else interest[fd];
      while remaining != []
        invariant current.None? && Drain(View(), scripts) == Drain(Wait(old(View()), events), scripts)
        decreases |remaining|
      {
        var ev := remaining[0];
        if ev.fd == wakeFd {
          remaining := remaining[1..];
          RunCallback(scripts(|remaining|).0);
        } else if ev.fd in timerIds {
          HandleTimer(ev, scripts);
        } else if ev.fd in callbacks {
          HandleDescriptor(ev, scripts);
        } else {
          remaining := remaining[1..];
        }
      }
    }
  }
}
