/** The io_uring reactor: persistent subscriptions made of one-shot operations with fresh tokens. */
module IoUring {
  import opened Text

  datatype Direction = Reading | Writing

  /** What an operation is for; the reactor's three token maps are one map over these keys. */
  datatype Key = Poll(fd: int, dir: Direction) | Alarm(id: nat) | WakeUp

  /** A pending operation. A callback is known by the number of the registration that brought it. */
  datatype Op = Op(key: Key, reg: nat)

  /** Whether a completion reports success (for a timer: that it expired). */
  datatype Event = Event(token: nat, ok: bool)

  /** The reactor (`nextToken` to `tokens`), the kernel (`armed`, `ready`), the completions that the current poll
      has collected, and whom each token was ever issued to. Token 0 marks completions of cancel requests. */
  datatype Ring = Ring(
    nextToken: nat,
    nextTimer: nat,
    nextReg: nat,
    ops: map<nat, Op>,
    tokens: map<Key, nat>,
    armed: set<nat>,
    ready: seq<Event>,
    batch: seq<Event>,
    owners: seq<nat>
  )

  /** A fresh token for an operation, submitted to the kernel. */
  function Submit(r: Ring, op: Op): Ring {
    var t := r.nextToken;
    r.(nextToken := t + 1, ops := r.ops[t := op], tokens := r.tokens[op.key := t], armed := r.armed + {t}, owners := r.owners + [op.reg])
  }

  const IDLE := Ring(1, 1, 1, map[], map[], {}, [], [], [0])

  /** The constructor arms the wake-up poll. */
  const START := Submit(IDLE, Op(WakeUp, 0))

  /** What callers and callbacks do. */
  datatype Action = Watch(fd: int, dir: Direction) | Unwatch(fd: int, dir: Direction) | Arm | Disarm(id: nat)

  function Forget(r: Ring, key: Key): Ring {
    if key in r.tokens then r.(tokens := r.tokens - {key}, ops := r.ops - {r.tokens[key]}) else r
  }

  function Perform(r: Ring, a: Action): Ring {
    match a
    case Watch(fd, dir) => Submit(r.(nextReg := r.nextReg + 1), Op(Poll(fd, dir), r.nextReg))
    case Unwatch(fd, dir) => Forget(r, Poll(fd, dir))
    case Arm => Submit(r.(nextReg := r.nextReg + 1, nextTimer := r.nextTimer + 1), Op(Alarm(r.nextTimer), r.nextReg))
    case Disarm(id) => Forget(r, Alarm(id))
  }

  /** One completion of the batch. */
  function Handle(r: Ring, ev: Event): Ring {
    if ev.token == 0 || ev.token !in r.ops then r
    else
      var op := r.ops[ev.token];
      var q := r.(ops := r.ops - {ev.token});
      match op.key
      case WakeUp => Submit(q, op)
      case Poll(_, _) =>
        if !ev.ok then q.(tokens := q.tokens - {op.key})
        else if op.key in q.tokens then Submit(q, op) else q
      case Alarm(_) => q.(tokens := q.tokens - {op.key})
  }

  /** The callback that the completion reaches. */
  function Calls(r: Ring, ev: Event): Option<Op> {
    if ev.token == 0 || ev.token !in r.ops then None
    else if ev.ok || r.ops[ev.token].key.WakeUp? then Some(r.ops[ev.token])
    else None
  }

  /** Actions come between any two dispatches: that is where callbacks run. */
  datatype Step = Do(action: Action) | Finish(event: Event) | Collect | Dispatch

  /** The kernel completes what is armed, once; completions of cancel requests come at any time. A poll
      collects when it has nothing left. A subscription that is there is not registered again. */
  predicate Enabled(r: Ring, step: Step) {
    match step
    case Do(Watch(fd, dir)) => Poll(fd, dir) !in r.tokens
    case Do(_) => true
    case Finish(ev) => ev.token == 0 || ev.token in r.armed
    case Collect => r.batch == []
    case Dispatch => r.batch != []
  }

  function Next(r: Ring, step: Step): Ring {
    match step
    case Do(a) => Perform(r, a)
    case Finish(ev) => r.(armed := r.armed - {ev.token}, ready := r.ready + [ev])
    case Collect => r.(batch := r.ready, ready := [])
    case Dispatch => if r.batch == [] then r else Handle(r.(batch := r.batch[1..]), r.batch[0])
  }

  // ---------- Invariant ----------

  function Count(events: seq<Event>, t: nat): nat {
    if events == [] then 0 else (if events[0].token == t then 1 else 0) + Count(events[1..], t)
  }

  /** The completions still to come, or to be handled, for a token. */
  function Owed(r: Ring, t: nat): nat {
    (if t in r.armed then 1 else 0) + Count(r.ready, t) + Count(r.batch, t)
  }

  predicate KeyLive(r: Ring, k: Key) { k in r.tokens ==> r.tokens[k] in r.ops && r.ops[r.tokens[k]].key == k }

  predicate OpKnown(r: Ring, t: nat) { t in r.ops ==> r.ops[t].key in r.tokens && r.tokens[r.ops[t].key] == t }

  /** Keys and live operations correspond one to one. */
  ghost predicate Matched(r: Ring) {
    && (forall k {:trigger KeyLive(r, k)} :: KeyLive(r, k))
    && (forall t {:trigger OpKnown(r, t)} :: OpKnown(r, t))
  }

  /** Each live operation is owed exactly one completion, a token not yet issued none, a dead one at most one. */
  ghost predicate Accounted(r: Ring) {
    && (forall t: nat {:trigger Owed(r, t)} :: t > 0 ==> Owed(r, t) <= 1)
    && (forall t: nat {:trigger Owed(r, t)} :: t >= r.nextToken ==> Owed(r, t) == 0)
    && (forall t: nat {:trigger Owed(r, t)} :: t in r.ops ==> Owed(r, t) == 1)
  }

  predicate Fresh(r: Ring) {
    && 0 < r.nextToken == |r.owners|
    && (forall t :: t in r.ops ==> 0 < t < r.nextToken && r.ops[t].reg < r.nextReg && r.owners[t] == r.ops[t].reg)
    && (forall k :: k in r.tokens && k.Alarm? ==> k.id < r.nextTimer)
    && WakeUp in r.tokens
  }

  ghost predicate Inv(r: Ring) { Matched(r) && Accounted(r) && Fresh(r) }

  // ---------- The plain table ----------

  /** Persistent subscriptions, and the next registration number. */
  datatype Table = Table(subs: map<Key, nat>, next: nat)

  function Subs(r: Ring): Table {
    Table(map k | k in r.tokens && r.tokens[k] in r.ops :: r.ops[r.tokens[k]].reg, r.nextReg)
  }

  datatype Obs = Added(reg: nat, key: Key) | Removed(reg: nat, key: Key) | Called(reg: nat, key: Key) | Dropped(reg: nat, key: Key)

  /** A table adds what is absent under a new number, and calls, removes or drops only what is there. */
  predicate Legal(t: Table, o: Obs) {
    match o
    case Added(reg, key) => key !in t.subs && reg == t.next
    case _ => o.key in t.subs && t.subs[o.key] == o.reg
  }

  function After(t: Table, o: Obs): Table {
    match o
    case Added(reg, key) => Table(t.subs[key := reg], reg + 1)
    case Called(reg, key) => if key.Alarm? then t.(subs := t.subs - {key}) else t
    case _ => t.(subs := t.subs - {o.key})
  }

  /** What a step lets the outside see. */
  function Seen(r: Ring, step: Step): Option<Obs> {
    match step
    case Do(Watch(fd, dir)) => Some(Added(r.nextReg, Poll(fd, dir)))
    case Do(Arm) => Some(Added(r.nextReg, Alarm(r.nextTimer)))
    case Do(Unwatch(fd, dir)) => Forgotten(r, Poll(fd, dir))
    case Do(Disarm(id)) => Forgotten(r, Alarm(id))
    case Dispatch =>
      if r.batch == [] then None
      else
        var ev := r.batch[0];
        var call := Calls(r, ev);
        if call.Some? then Some(Called(call.value.reg, call.value.key))
        else if ev.token != 0 && ev.token in r.ops then Some(Dropped(r.ops[ev.token].reg, r.ops[ev.token].key))
        else None
    case _ => None
  }

  function Forgotten(r: Ring, key: Key): Option<Obs> {
    if key in r.tokens && r.tokens[key] in r.ops then Some(Removed(r.ops[r.tokens[key]].reg, key)) else None
  }

  /** The step from `t` to `u` that shows `o` is one of the table's, or invisible to it. */
  predicate Simulates(t: Table, u: Table, o: Option<Obs>) {
    match o case None => u == t case Some(obs) => Legal(t, obs) && u == After(t, obs)
  }

  // ---------- Every step keeps the correspondence and is one of the table's ----------

  lemma SubsKeys(r: Ring)
    requires Matched(r)
    ensures Subs(r).subs.Keys == r.tokens.Keys
  {
    forall k | k in r.tokens ensures k in Subs(r).subs { assert KeyLive(r, k); }
  }

  lemma SubmitMatched(r: Ring, op: Op, q: Ring)
    requires Matched(r) && op.key !in r.tokens && r.nextToken !in r.ops && q == Submit(r, op)
    ensures Matched(q) && Subs(q) == Subs(r).(subs := Subs(r).subs[op.key := op.reg])
  {
    forall k ensures KeyLive(q, k) { assert KeyLive(r, k); }
    forall t ensures OpKnown(q, t) { assert OpKnown(r, t); }
    SubsKeys(r);
    SubsKeys(q);
    assert Subs(q).subs == Subs(r).subs[op.key := op.reg];
  }

  lemma ForgetMatched(r: Ring, key: Key, q: Ring)
    requires Matched(r) && q == Forget(r, key)
    ensures Matched(q) && Subs(q) == Subs(r).(subs := Subs(r).subs - {key})
  {
    assert KeyLive(r, key);
    forall k ensures KeyLive(q, k) { assert KeyLive(r, k); }
    forall t ensures OpKnown(q, t) { assert OpKnown(r, t); }
    SubsKeys(r);
    SubsKeys(q);
    assert Subs(q).subs == Subs(r).subs - {key};
  }

  lemma ForgetIs(r: Ring, t: nat)
    requires Matched(r) && t in r.ops
    ensures Forget(r, r.ops[t].key) == r.(ops := r.ops - {t}, tokens := r.tokens - {r.ops[t].key})
    ensures r.ops[t].key in Subs(r).subs && Subs(r).subs[r.ops[t].key] == r.ops[t].reg
  {
    assert OpKnown(r, t);
  }

  lemma RenewIs(r: Ring, t: nat, op: Op)
    requires Matched(r) && t in r.ops && op == r.ops[t]
    ensures Submit(r.(ops := r.ops - {t}), op) == Submit(Forget(r, op.key), op)
  {
    ForgetIs(r, t);
    assert (r.tokens - {op.key})[op.key := r.nextToken] == r.tokens[op.key := r.nextToken];
  }

  /** The operation `t` is done and its key gets a new one. */
  lemma RenewMatched(r: Ring, t: nat, op: Op, q: Ring)
    requires Matched(r) && t in r.ops && op == r.ops[t] && r.nextToken !in r.ops && q == Submit(r.(ops := r.ops - {t}), op)
    ensures Matched(q) && Subs(q) == Subs(r)
  {
    RenewIs(r, t, op);
    ForgetIs(r, t);
    ForgetMatched(r, op.key, Forget(r, op.key));
    SubmitMatched(Forget(r, op.key), op, q);
    assert (Subs(r).subs - {op.key})[op.key := op.reg] == Subs(r).subs;
  }

  /** A completion of a live operation: its key is renewed or forgotten. */
  lemma HandleMatched(r: Ring, ev: Event, op: Op, q: Ring)
    requires Matched(r) && 0 < ev.token && ev.token in r.ops && op == r.ops[ev.token] && r.nextToken !in r.ops && q == Handle(r, ev)
    ensures Matched(q) && op.key in Subs(r).subs && Subs(r).subs[op.key] == op.reg
    ensures Subs(q) == if op.key.WakeUp? || (op.key.Poll? && ev.ok) then Subs(r) else Subs(r).(subs := Subs(r).subs - {op.key})
  {
    ForgetIs(r, ev.token);
    if op.key.WakeUp? || (op.key.Poll? && ev.ok) {
      assert OpKnown(r, ev.token);
      RenewMatched(r, ev.token, op, q);
    } else {
      ForgetMatched(r, op.key, q);
    }
  }

  lemma SameMatched(r: Ring, q: Ring)
    requires Matched(r) && q.ops == r.ops && q.tokens == r.tokens
    ensures Matched(q) && Subs(q).subs == Subs(r).subs
  {
    forall k ensures KeyLive(q, k) { assert KeyLive(r, k); }
    forall t ensures OpKnown(q, t) { assert OpKnown(r, t); }
  }

  /** A registration: `p` is `r` with its counters advanced. */
  lemma AddSimulates(r: Ring, p: Ring, op: Op, q: Ring)
    requires Matched(r) && op.key !in r.tokens && r.nextToken !in r.ops && op.reg == r.nextReg
    requires p.ops == r.ops && p.tokens == r.tokens && p.nextToken == r.nextToken && p.nextReg == r.nextReg + 1 && q == Submit(p, op)
    ensures Matched(q) && Simulates(Subs(r), Subs(q), Some(Added(op.reg, op.key)))
  {
    SameMatched(r, p);
    SubsKeys(r);
    SubmitMatched(p, op, q);
  }

  lemma ForgetSimulates(r: Ring, key: Key, q: Ring)
    requires Matched(r) && q == Forget(r, key)
    ensures Matched(q) && Simulates(Subs(r), Subs(q), Forgotten(r, key))
  {
    assert KeyLive(r, key);
    ForgetMatched(r, key, q);
  }

  lemma PerformSimulates(r: Ring, a: Action, q: Ring)
    requires Inv(r) && Enabled(r, Do(a)) && q == Perform(r, a)
    ensures Matched(q) && Simulates(Subs(r), Subs(q), Seen(r, Do(a)))
  {
    match a
    case Watch(fd, dir) => AddSimulates(r, r.(nextReg := r.nextReg + 1), Op(Poll(fd, dir), r.nextReg), q);
    case Arm => AddSimulates(r, r.(nextReg := r.nextReg + 1, nextTimer := r.nextTimer + 1), Op(Alarm(r.nextTimer), r.nextReg), q);
    case Unwatch(fd, dir) => ForgetSimulates(r, Poll(fd, dir), q);
    case Disarm(id) => ForgetSimulates(r, Alarm(id), q);
  }

  lemma DispatchSimulates(r: Ring, q: Ring)
    requires Inv(r) && r.batch != [] && q == Next(r, Dispatch)
    ensures Matched(q) && Simulates(Subs(r), Subs(q), Seen(r, Dispatch))
  {
    var p, ev := r.(batch := r.batch[1..]), r.batch[0];
    SameMatched(r, p);
    if ev.token in p.ops {
      HandleMatched(p, ev, p.ops[ev.token], q);
    }
  }

  lemma StepSimulates(r: Ring, step: Step, q: Ring)
    requires Inv(r) && Enabled(r, step) && q == Next(r, step)
    ensures Matched(q) && Simulates(Subs(r), Subs(q), Seen(r, step))
  {
    match step
    case Do(a) => PerformSimulates(r, a, q);
    case Dispatch => DispatchSimulates(r, q);
    case _ => SameMatched(r, q);
  }

  // ---------- Every step keeps the account of completions ----------

  lemma {:induction false} CountAppend(events: seq<Event>, ev: Event, t: nat)
    ensures Count(events + [ev], t) == Count(events, t) + Count([ev], t)
  {
    if events == [] {
      assert events + [ev] == [ev];
    } else {
      assert (events + [ev])[1..] == events[1..] + [ev];
      CountAppend(events[1..], ev, t);
    }
  }

  lemma SubmitAccounted(r: Ring, op: Op)
    requires Accounted(r) && r.nextToken > 0
    ensures Accounted(Submit(r, op))
  {
    var q := Submit(r, op);
    forall t: nat ensures Owed(q, t) == Owed(r, t) + if t == r.nextToken then 1 else 0 {
      assert Owed(r, r.nextToken) == 0;
    }
  }

  lemma FewerAccounted(r: Ring, q: Ring)
    requires Accounted(r) && q == r.(ops := q.ops, tokens := q.tokens, nextReg := q.nextReg, nextTimer := q.nextTimer) && q.ops.Keys <= r.ops.Keys
    ensures Accounted(q)
  {
    forall t: nat ensures Owed(q, t) == Owed(r, t) {}
  }

  /** Taking a completion off the batch, with the operation it completes. */
  lemma PopAccounted(r: Ring)
    requires Accounted(r) && r.batch != [] && 0 !in r.ops
    ensures Accounted(r.(batch := r.batch[1..], ops := r.ops - {r.batch[0].token}))
  {
    var q := r.(batch := r.batch[1..], ops := r.ops - {r.batch[0].token});
    forall t: nat ensures Owed(r, t) == Owed(q, t) + if t == r.batch[0].token then 1 else 0 {}
  }

  lemma FinishAccounted(r: Ring, ev: Event)
    requires Accounted(r) && (ev.token == 0 || ev.token in r.armed) && 0 !in r.ops && r.nextToken > 0
    ensures Accounted(Next(r, Finish(ev)))
  {
    var q := Next(r, Finish(ev));
    forall t: nat | t > 0 ensures Owed(q, t) == Owed(r, t) {
      CountAppend(r.ready, ev, t);
      assert [ev][1..] == [];
    }
  }

  lemma CollectAccounted(r: Ring)
    requires Accounted(r) && r.batch == []
    ensures Accounted(Next(r, Collect))
  {
    forall t: nat ensures Owed(Next(r, Collect), t) == Owed(r, t) {}
  }

  lemma DispatchAccounted(r: Ring)
    requires Inv(r) && r.batch != []
    ensures Accounted(Next(r, Dispatch))
  {
    var ev := r.batch[0];
    var q := r.(batch := r.batch[1..], ops := r.ops - {ev.token});
    PopAccounted(r);
    if ev.token !in r.ops {
      assert q.ops == r.ops;
    } else {
      var op := r.ops[ev.token];
      SubmitAccounted(q, op);
      FewerAccounted(q, q.(tokens := q.tokens - {op.key}));
    }
  }

  lemma PerformAccounted(r: Ring, a: Action)
    requires Inv(r)
    ensures Accounted(Next(r, Do(a)))
  {
    match a
    case Watch(fd, dir) =>
      var q := r.(nextReg := r.nextReg + 1);
      FewerAccounted(r, q);
      SubmitAccounted(q, Op(Poll(fd, dir), r.nextReg));
    case Arm =>
      var q := r.(nextReg := r.nextReg + 1, nextTimer := r.nextTimer + 1);
      FewerAccounted(r, q);
      SubmitAccounted(q, Op(Alarm(r.nextTimer), r.nextReg));
    case Unwatch(fd, dir) => FewerAccounted(r, Forget(r, Poll(fd, dir)));
    case Disarm(id) => FewerAccounted(r, Forget(r, Alarm(id)));
  }

  lemma StepAccounted(r: Ring, step: Step)
    requires Inv(r) && Enabled(r, step)
    ensures Accounted(Next(r, step))
  {
    match step
    case Do(a) => PerformAccounted(r, a);
    case Finish(ev) => FinishAccounted(r, ev);
    case Collect => CollectAccounted(r);
    case Dispatch => DispatchAccounted(r);
  }

  lemma SubmitFresh(r: Ring, op: Op, q: Ring)
    requires Fresh(r) && q == Submit(r, op) && op.reg < r.nextReg && (op.key.Alarm? ==> op.key.id < r.nextTimer)
    ensures Fresh(q) && r.owners <= q.owners
  {
  }

  lemma HandleFresh(r: Ring, ev: Event, q: Ring)
    requires Fresh(r) && Matched(r) && q == Handle(r, ev)
    ensures Fresh(q) && r.owners <= q.owners
  {
    if ev.token in r.ops {
      var op := r.ops[ev.token];
      assert OpKnown(r, ev.token);
      SubmitFresh(r.(ops := r.ops - {ev.token}), op, Submit(r.(ops := r.ops - {ev.token}), op));
    }
  }

  lemma StepFresh(r: Ring, step: Step, q: Ring)
    requires Inv(r) && Enabled(r, step) && q == Next(r, step)
    ensures Fresh(q) && r.owners <= q.owners
  {
    match step
    case Do(Watch(fd, dir)) => SubmitFresh(r.(nextReg := r.nextReg + 1), Op(Poll(fd, dir), r.nextReg), q);
    case Do(Arm) => SubmitFresh(r.(nextReg := r.nextReg + 1, nextTimer := r.nextTimer + 1), Op(Alarm(r.nextTimer), r.nextReg), q);
    case Dispatch =>
      SameMatched(r, r.(batch := r.batch[1..]));
      HandleFresh(r.(batch := r.batch[1..]), r.batch[0], q);
    case _ =>
  }

  /** Every step keeps the invariant, does what the table allows, and never hands out a token again. */
  lemma StepKeeps(r: Ring, step: Step, q: Ring)
    requires Inv(r) && Enabled(r, step) && q == Next(r, step)
    ensures Inv(q) && Simulates(Subs(r), Subs(q), Seen(r, step)) && r.owners <= q.owners
  {
    StepSimulates(r, step, q);
    StepAccounted(r, step);
    StepFresh(r, step, q);
  }

  lemma StartInv()
    ensures Inv(START) && Subs(START) == Table(map[WakeUp := 0], 1)
  {
    forall t: nat ensures Owed(START, t) == if t == 1 then 1 else 0 {}
  }

  // ---------- Runs ----------

  /** The state after the steps. */
  function Run(steps: seq<Step>): Ring {
    if steps == [] then START else Next(Run(steps[..|steps| - 1]), steps[|steps| - 1])
  }

  function Shown(o: Option<Obs>): seq<Obs> { if o.None? then [] else [o.value] }

  /** What was seen of the steps. */
  function Trace(steps: seq<Step>): seq<Obs> {
    if steps == [] then []
    else Trace(steps[..|steps| - 1]) + Shown(Seen(Run(steps[..|steps| - 1]), steps[|steps| - 1]))
  }

  predicate Possible(steps: seq<Step>) {
    steps == [] || (Possible(steps[..|steps| - 1]) && Enabled(Run(steps[..|steps| - 1]), steps[|steps| - 1]))
  }

  /** The table after a trace, if every observation in it was legal. */
  function Replay(t: Table, trace: seq<Obs>): Option<Table> {
    if trace == [] then Some(t)
    else
      match Replay(t, trace[..|trace| - 1])
      case None => None
      case Some(u) => if Legal(u, trace[|trace| - 1]) then Some(After(u, trace[|trace| - 1])) else None
  }

  lemma ReplayMore(t: Table, trace: seq<Obs>, u: Table, v: Table, o: Option<Obs>)
    requires Replay(t, trace) == Some(u) && Simulates(u, v, o)
    ensures Replay(t, trace + Shown(o)) == Some(v)
  {
    match o
    case None => assert trace + [] == trace;
    case Some(obs) => assert (trace + [obs])[..|trace|] == trace;
  }

  const FIRST := Table(map[WakeUp := 0], 1)

  /** Every run of the reactor is a run of the plain table of persistent subscriptions. */
  lemma {:induction false} RunRefines(steps: seq<Step>)
    requires Possible(steps)
    ensures Inv(Run(steps)) && Replay(FIRST, Trace(steps)) == Some(Subs(Run(steps)))
  {
    if steps == [] {
      StartInv();
    } else {
      var before, step := steps[..|steps| - 1], steps[|steps| - 1];
      RunRefines(before);
      var r := Run(before);
      StepKeeps(r, step, Next(r, step));
      ReplayMore(FIRST, Trace(before), Subs(r), Subs(Next(r, step)), Seen(r, step));
    }
  }

  // ---------- What the table promises ----------

  /** The registration is over. */
  predicate Ends(o: Obs) { o.Removed? || o.Dropped? || (o.Called? && o.key.Alarm?) }

  ghost predicate Numbered(t: Table) { forall k :: k in t.subs ==> t.subs[k] < t.next }

  lemma {:induction false} ReplayNumbered(t: Table, trace: seq<Obs>)
    requires Numbered(t) && Replay(t, trace).Some?
    ensures Numbered(Replay(t, trace).value) && t.next <= Replay(t, trace).value.next
  {
    if trace != [] { ReplayNumbered(t, trace[..|trace| - 1]); }
  }

  /** A number that is not in the table at `i` and already given out is not in it later. */
  ghost predicate Gone(t: Table, reg: nat) { reg < t.next && forall k :: k in t.subs ==> t.subs[k] != reg }

  predicate Distinct(t: Table) { forall j, k :: j in t.subs && k in t.subs && t.subs[j] == t.subs[k] ==> j == k }

  lemma {:induction false} ReplayDistinct(t: Table, trace: seq<Obs>)
    requires Numbered(t) && Distinct(t) && Replay(t, trace).Some?
    ensures Distinct(Replay(t, trace).value)
  {
    if trace != [] {
      ReplayDistinct(t, trace[..|trace| - 1]);
      ReplayNumbered(t, trace[..|trace| - 1]);
    }
  }

  lemma {:induction false} StaysGone(t: Table, trace: seq<Obs>, i: nat, reg: nat)
    requires i <= |trace| && Replay(t, trace).Some? && Replay(t, trace[..i]).Some? && Gone(Replay(t, trace[..i]).value, reg)
    ensures Gone(Replay(t, trace).value, reg)
    decreases |trace|
  {
    if i == |trace| {
      assert trace[..i] == trace;
    } else {
      assert trace[..|trace| - 1][..i] == trace[..i];
      StaysGone(t, trace[..|trace| - 1], i, reg);
    }
  }

  lemma {:induction false} ReplayPrefix(t: Table, trace: seq<Obs>, i: nat)
    requires i <= |trace| && Replay(t, trace).Some?
    ensures Replay(t, trace[..i]).Some?
    decreases |trace|
  {
    if i < |trace| {
      ReplayPrefix(t, trace[..|trace| - 1], i);
      assert trace[..|trace| - 1][..i] == trace[..i];
    } else {
      assert trace[..i] == trace;
    }
  }

  /** The table before and after the observation at `i`. */
  lemma TableAt(t: Table, trace: seq<Obs>, i: nat) returns (u: Table)
    requires i < |trace| && Replay(t, trace).Some?
    ensures Replay(t, trace[..i]) == Some(u) && Legal(u, trace[i]) && Replay(t, trace[..i + 1]) == Some(After(u, trace[i]))
  {
    ReplayPrefix(t, trace, i);
    ReplayPrefix(t, trace, i + 1);
    assert trace[..i + 1][..i] == trace[..i];
    u := Replay(t, trace[..i]).value;
  }

  /** Nothing is called after its registration ended: not after an unregister, not after an error, and a timer
      not twice. */
  lemma NeverAfterEnd(t: Table, trace: seq<Obs>, i: nat, j: nat)
    requires Numbered(t) && Distinct(t) && Replay(t, trace).Some?
    requires i < j < |trace| && Ends(trace[i]) && trace[j].Called?
    ensures trace[i].reg != trace[j].reg
  {
    var u := TableAt(t, trace, i);
    var v := TableAt(t, trace, j);
    ReplayNumbered(t, trace[..i]);
    ReplayDistinct(t, trace[..i]);
    assert Gone(After(u, trace[i]), trace[i].reg);
    assert trace[..j][..i + 1] == trace[..i + 1];
    StaysGone(t, trace[..j], i + 1, trace[i].reg);
  }

  /** What is called was added before and has not ended since. */
  lemma {:induction false} CalledWasAdded(t: Table, trace: seq<Obs>, key: Key, reg: nat) returns (i: nat)
    requires Replay(t, trace).Some? && key in Replay(t, trace).value.subs && Replay(t, trace).value.subs[key] == reg
    requires key !in t.subs || t.subs[key] != reg
    ensures i < |trace| && trace[i] == Added(reg, key)
    ensures forall k :: i < k < |trace| && Ends(trace[k]) ==> trace[k].key != key
  {
    var n := |trace| - 1;
    if trace[n] == Added(reg, key) {
      i := n;
    } else {
      i := CalledWasAdded(t, trace[..n], key, reg);
    }
  }

  /** Over every run in which nothing is registered twice at a time. */
  lemma ReactorIsSafe(steps: seq<Step>, i: nat, j: nat)
    requires Possible(steps) && i < j < |Trace(steps)|
    ensures Ends(Trace(steps)[i]) && Trace(steps)[j].Called? ==> Trace(steps)[i].reg != Trace(steps)[j].reg
  {
    RunRefines(steps);
    if Ends(Trace(steps)[i]) && Trace(steps)[j].Called? {
      NeverAfterEnd(FIRST, Trace(steps), i, j);
    }
  }

  /** Each subscription has one live token, owed one completion; a completion reaches the registration its
      token was issued to, or nobody. */
  lemma CompletionsReachTheirOwner(steps: seq<Step>, ev: Event)
    requires Possible(steps)
    ensures forall t: nat :: t in Run(steps).ops ==> Owed(Run(steps), t) == 1
    ensures var call := Calls(Run(steps), ev);
            call.Some? ==> ev.token < |Run(steps).owners| && call.value.reg == Run(steps).owners[ev.token]
  {
    RunRefines(steps);
  }

  lemma TraceMore(steps: seq<Step>, step: Step)
    ensures Trace(steps + [step]) == Trace(steps) + Shown(Seen(Run(steps), step))
  {
    assert (steps + [step])[..|steps|] == steps;
  }

  /** Over every run: a completion whose token is live is heard of, by the registration the token was issued to. If it
      succeeded, or is the wake-up's, the callback is called; otherwise the registration is dropped. No other completion
      is heard of. */
  lemma DispatchShows(steps: seq<Step>)
    requires Possible(steps) && Run(steps).batch != []
    ensures var r, ev := Run(steps), Run(steps).batch[0];
            && (ev.token in r.ops ==> ev.token < |r.owners|)
            && Trace(steps + [Dispatch]) == Trace(steps) +
               if ev.token !in r.ops then []
               else if ev.ok || r.ops[ev.token].key == WakeUp then [Called(r.owners[ev.token], r.ops[ev.token].key)]
               else [Dropped(r.owners[ev.token], r.ops[ev.token].key)]
  {
    RunRefines(steps);
    TraceMore(steps, Dispatch);
  }

  predicate HeardOf(r: Ring, o: Obs) {
    && r.batch != [] && r.batch[0].token < |r.owners|
    && r.owners[r.batch[0].token] == o.reg && (o.Called? <==> r.batch[0].ok || o.key == WakeUp)
  }

  lemma HeardNow(r: Ring, step: Step, o: Obs)
    requires Fresh(r) && Seen(r, step) == Some(o) && (o.Called? || o.Dropped?)
    ensures step == Dispatch && HeardOf(r, o)
  {
  }

  /** The observation at `i` comes from the last step or from an earlier one. */
  lemma TraceAt(steps: seq<Step>, before: seq<Step>, i: nat)
    requires steps != [] && before == steps[..|steps| - 1] && i < |Trace(steps)|
    ensures i < |Trace(before)| ==> Trace(steps)[i] == Trace(before)[i]
    ensures i >= |Trace(before)| ==> i == |Trace(before)| && Seen(Run(before), steps[|steps| - 1]) == Some(Trace(steps)[i])
  {
  }

  /** A callback is called only by a completion of its own that succeeded, unless it is the wake-up's; a registration is
      dropped only by one that failed. */
  lemma {:induction false} HeardOfOnce(steps: seq<Step>, i: nat) returns (k: nat)
    requires Possible(steps) && i < |Trace(steps)| && (Trace(steps)[i].Called? || Trace(steps)[i].Dropped?)
    ensures k < |steps| && steps[k] == Dispatch && |Trace(steps[..k])| == i && HeardOf(Run(steps[..k]), Trace(steps)[i])
    decreases |steps|
  {
    var n := |steps| - 1;
    var before := steps[..n];
    TraceAt(steps, before, i);
    if i < |Trace(before)| {
      k := HeardOfOnce(before, i);
      assert before[..k] == steps[..k];
    } else {
      k := n;
      RunRefines(before);
      HeardNow(Run(before), steps[n], Trace(steps)[i]);
    }
  }

  /** What was added and is no longer in the table has ended. */
  lemma {:induction false} AddedEnds(t: Table, trace: seq<Obs>, i: nat) returns (j: nat)
    requires Replay(t, trace).Some? && i < |trace| && trace[i].Added?
    requires var u := Replay(t, trace).value.subs; trace[i].key !in u || u[trace[i].key] != trace[i].reg
    ensures i < j < |trace| && Ends(trace[j]) && trace[j].reg == trace[i].reg && trace[j].key == trace[i].key
    decreases |trace|
  {
    var n := |trace| - 1;
    var u := Replay(t, trace[..n]).value.subs;
    if i < n && (trace[i].key !in u || u[trace[i].key] != trace[i].reg) {
      j := AddedEnds(t, trace[..n], i);
    } else {
      j := n;
    }
  }

  lemma StillOwed(r: Ring, key: Key) returns (t: nat)
    requires Inv(r) && key in Subs(r).subs
    ensures t < |r.owners| && r.owners[t] == Subs(r).subs[key] && Owed(r, t) == 1
  {
    t := r.tokens[key];
  }

  /** Once no completion is outstanding for a timer, it has been disarmed, or has been called and is not called again, or
      its operation has failed. */
  lemma TimerSettles(steps: seq<Step>, i: nat) returns (j: nat)
    requires Possible(steps) && i < |Trace(steps)| && Trace(steps)[i].Added? && Trace(steps)[i].key.Alarm?
    requires forall t: nat {:trigger Owed(Run(steps), t)} :: t < |Run(steps).owners| && Run(steps).owners[t] == Trace(steps)[i].reg ==> Owed(Run(steps), t) == 0
    ensures i < j < |Trace(steps)| && Ends(Trace(steps)[j]) && Trace(steps)[j].reg == Trace(steps)[i].reg
    ensures forall k :: j < k < |Trace(steps)| && Trace(steps)[k].Called? ==> Trace(steps)[k].reg != Trace(steps)[i].reg
  {
    var r, o, trace := Run(steps), Trace(steps)[i], Trace(steps);
    RunRefines(steps);
    if o.key in Subs(r).subs { var _ := StillOwed(r, o.key); }
    j := AddedEnds(FIRST, trace, i);
    forall k | j < k < |trace| && trace[k].Called? ensures trace[k].reg != o.reg { NeverAfterEnd(FIRST, trace, j, k); }
  }

  // ---------- Registering twice ----------

  /** Registering keeps the correspondence exactly when the key is free. */
  lemma WatchKeepsIff(r: Ring, fd: int, dir: Direction)
    requires Inv(r)
    ensures Inv(Perform(r, Watch(fd, dir))) <==> Poll(fd, dir) !in r.tokens
  {
    var key, q := Poll(fd, dir), Perform(r, Watch(fd, dir));
    if key !in r.tokens {
      StepKeeps(r, Do(Watch(fd, dir)), q);
    } else {
      assert KeyLive(r, key);
      assert !OpKnown(q, r.tokens[key]);
    }
  }

  /** Registered twice and then unregistered, the first callback still fires. */
  lemma DoubleWatchFiresAfterUnwatch(fd: int, dir: Direction)
    ensures var r := Perform(Perform(Perform(START, Watch(fd, dir)), Watch(fd, dir)), Unwatch(fd, dir));
            Poll(fd, dir) !in r.tokens && 2 in r.armed && Calls(r, Event(2, true)) == Some(Op(Poll(fd, dir), 1))
  {
  }
}
