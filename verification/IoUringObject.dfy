/** The io_uring reactor as an object: registering, unregistering, and one poll with its callbacks. */
module IoUringObject {
  import opened Text
  import opened IoUring

  function PerformAll(r: Ring, actions: seq<Action>): (q: Ring)
    ensures q.batch == r.batch
    decreases |actions|
  {
    if actions == [] then r else PerformAll(Perform(r, actions[0]), actions[1..])
  }

  /** What callbacks do, by how many completions of the batch are left when they run. */
  type Scripts = nat -> seq<Action>

  /** What is done about the first completion of the batch: nothing if it reaches no callback. */
  function Reaction(r: Ring, scripts: Scripts): seq<Action>
    requires r.batch != []
  {
    if Calls(r, r.batch[0]).Some? then scripts(|r.batch| - 1) else []
  }

  /** The rest of a poll: each completion in turn, and the callback it reaches. */
  function Drain(r: Ring, scripts: Scripts): Ring
    decreases |r.batch|
  {
    if r.batch == [] then r else Drain(PerformAll(Next(r, Dispatch), Reaction(r, scripts)), scripts)
  }

  /** The steps of the machine that a poll takes. */
  function Play(r: Ring, steps: seq<Step>): Ring
    decreases |steps|
  {
    if steps == [] then r else Play(Next(r, steps[0]), steps[1..])
  }

  predicate AllEnabled(r: Ring, steps: seq<Step>)
    decreases |steps|
  {
    steps == [] || (Enabled(r, steps[0]) && AllEnabled(Next(r, steps[0]), steps[1..]))
  }

  function Doing(actions: seq<Action>): seq<Step> { seq(|actions|, i requires 0 <= i < |actions| => Do(actions[i])) }

  function DrainSteps(r: Ring, scripts: Scripts): seq<Step>
    decreases |r.batch|
  {
    if r.batch == [] then []
    else [Dispatch] + Doing(Reaction(r, scripts)) + DrainSteps(PerformAll(Next(r, Dispatch), Reaction(r, scripts)), scripts)
  }

  lemma {:induction false} PlayAppend(r: Ring, a: seq<Step>, b: seq<Step>)
    ensures Play(r, a + b) == Play(Play(r, a), b)
    decreases |a|
  {
    if a == [] {
      assert a + b == b;
    } else {
      assert (a + b)[1..] == a[1..] + b;
      PlayAppend(Next(r, a[0]), a[1..], b);
    }
  }

  lemma {:induction false} PlayDoing(r: Ring, actions: seq<Action>)
    ensures Play(r, Doing(actions)) == PerformAll(r, actions)
    decreases |actions|
  {
    if actions != [] {
      assert Doing(actions)[1..] == Doing(actions[1..]);
      PlayDoing(Perform(r, actions[0]), actions[1..]);
    }
  }

  lemma PlayTurn(r: Ring, actions: seq<Action>, rest: seq<Step>)
    ensures Play(r, [Dispatch] + Doing(actions) + rest) == Play(PerformAll(Next(r, Dispatch), actions), rest)
  {
    PlayDoing(Next(r, Dispatch), actions);
    PlayAppend(Next(r, Dispatch), Doing(actions), rest);
    assert ([Dispatch] + Doing(actions) + rest)[1..] == Doing(actions) + rest;
  }

  /** A poll is a run of the machine, callbacks included. */
  lemma {:induction false} DrainIsPlay(r: Ring, scripts: Scripts)
    ensures Drain(r, scripts) == Play(r, DrainSteps(r, scripts))
    decreases |r.batch|
  {
    if r.batch != [] {
      var q := PerformAll(Next(r, Dispatch), Reaction(r, scripts));
      DrainIsPlay(q, scripts);
      PlayTurn(r, Reaction(r, scripts), DrainSteps(q, scripts));
    }
  }

  /** A turn of a poll: the completion, and the callback's actions exactly if it is a live token's and succeeded or is the
      wake-up's. */
  lemma TurnRuns(r: Ring, scripts: Scripts)
    requires Inv(r) && r.batch != []
    ensures var ev := r.batch[0];
            var turn := [Dispatch] +
              if ev.token in r.ops && (ev.ok || r.ops[ev.token].key == WakeUp) then Doing(scripts(|r.batch| - 1)) else [];
            DrainSteps(r, scripts) == turn + DrainSteps(Play(r, turn), scripts)
  {
    var turn := [Dispatch] + Doing(Reaction(r, scripts));
    PlayTurn(r, Reaction(r, scripts), []);
    assert turn + [] == turn;
    assert Doing([]) == [];
  }

  lemma {:induction false} PlayKeeps(r: Ring, steps: seq<Step>)
    requires Inv(r) && AllEnabled(r, steps)
    ensures Inv(Play(r, steps))
    decreases |steps|
  {
    if steps != [] {
      StepKeeps(r, steps[0], Next(r, steps[0]));
      PlayKeeps(Next(r, steps[0]), steps[1..]);
    }
  }

  /** A poll whose callbacks register nothing twice keeps the reactor's invariant. */
  lemma PollKeeps(r: Ring, scripts: Scripts)
    requires Inv(r) && r.batch == [] && AllEnabled(Next(r, Collect), DrainSteps(Next(r, Collect), scripts))
    ensures Inv(Drain(Next(r, Collect), scripts))
  {
    StepKeeps(r, Collect, Next(r, Collect));
    PlayKeeps(Next(r, Collect), DrainSteps(Next(r, Collect), scripts));
    DrainIsPlay(Next(r, Collect), scripts);
  }

  class Reactor {
    var nextToken: nat
    var nextTimer: nat
    var nextReg: nat
    var ops: map<nat, Op>
    var tokens: map<Key, nat>
    var armed: set<nat>
    var ready: seq<Event>
    var batch: seq<Event>
    var owners: seq<nat>

    function View(): Ring reads this {
      Ring(nextToken, nextTimer, nextReg, ops, tokens, armed, ready, batch, owners)
    }

    constructor ()
      ensures View() == START
    {
      nextToken, nextTimer, nextReg := 2, 1, 1;
      ops, tokens := map[1 := Op(WakeUp, 0)], map[WakeUp := 1];
      armed, ready, batch, owners := {1}, [], [], [0, 0];
    }

    method SubmitOp(op: Op)
      modifies this
      ensures View() == Submit(old(View()), op)
    {
      var token := nextToken;
      nextToken := nextToken + 1;
      ops := ops[token := op];
      tokens := tokens[op.key := token];
      armed := armed + {token};
      owners := owners + [op.reg];
    }

    method RegisterEvent(fd: int, dir: Direction)
      modifies this
      ensures View() == Perform(old(View()), Watch(fd, dir))
    {
      var reg := nextReg;
      nextReg := nextReg + 1;
      SubmitOp(Op(Poll(fd, dir), reg));
    }

    method UnregisterKey(key: Key)
      modifies this
      ensures View() == Forget(old(View()), key)
    {
      if key !in tokens {
        return;
      }
      var token := tokens[key];
      tokens := tokens - {key};
      ops := ops - {token};
    }

    method UnregisterEvent(fd: int, dir: Direction)
      modifies this
      ensures View() == Perform(old(View()), Unwatch(fd, dir))
    {
      UnregisterKey(Poll(fd, dir));
    }

    method RegisterTimer() returns (id: nat)
      modifies this
      ensures id == old(nextTimer) && View() == Perform(old(View()), Arm)
    {
      id := nextTimer;
      nextTimer := nextTimer + 1;
      var reg := nextReg;
      nextReg := nextReg + 1;
      SubmitOp(Op(Alarm(id), reg));
    }

    method UnregisterTimer(id: nat)
      modifies this
      ensures View() == Perform(old(View()), Disarm(id))
    {
      UnregisterKey(Alarm(id));
    }

    /** One completion: the operation leaves the table, a poll or wake-up is submitted again under a new token. */
    method HandleEvent(ev: Event) returns (call: Option<Op>)
      modifies this
      ensures View() == Handle(old(View()), ev) && call == Calls(old(View()), ev)
      ensures ev.token > 0 && ev.token in old(ops) && (ev.ok || old(ops)[ev.token].key == WakeUp) ==> call == Some(old(ops)[ev.token])
    {
      if ev.token == 0 || ev.token !in ops {
        return None;
      }
      var op := ops[ev.token];
      ops := ops - {ev.token};
      match op.key
      case WakeUp =>
        SubmitOp(op);
        call := Some(op);
      case Poll(_, _) =>
        if !ev.ok {
          tokens := tokens - {op.key};
          return None;
        }
        if op.key in tokens {
          SubmitOp(op);
        }
        call := Some(op);
      case Alarm(_) =>
        tokens := tokens - {op.key};
        call := if ev.ok then Some(op) else None;
    }

    /** A callback's actions. */
    method RunCallback(actions: seq<Action>)
      modifies this
      ensures View() == PerformAll(old(View()), actions)
    {
      for i := 0 to |actions|
        invariant PerformAll(View(), actions[i..]) == PerformAll(old(View()), actions)
      {
        assert actions[i..][1..] == actions[i + 1..];
        match actions[i]
        case Watch(fd, dir) => RegisterEvent(fd, dir);
        case Unwatch(fd, dir) => UnregisterEvent(fd, dir);
        case Arm => var _ := RegisterTimer();
        case Disarm(id) => UnregisterTimer(id);
      }
    }

    /** The first completion of the batch, and the callback it reaches. */
    method HandleFirst(scripts: Scripts)
      requires batch != []
      modifies this
      ensures View() == PerformAll(Next(old(View()), Dispatch), Reaction(old(View()), scripts)) && |batch| == |old(batch)| - 1
    {
      var ev := batch[0];
      batch := batch[1..];
      var call := HandleEvent(ev);
      if call.Some? {
        RunCallback(scripts(|batch|));
      }
    }

    /** `poll`: collects what is ready and handles all of it. */
    method PollOnce(scripts: Scripts) returns (count: nat)
      requires batch == []
      modifies this
      ensures count == |old(ready)| && View() == Drain(Next(old(View()), Collect), scripts)
    {
      batch, ready := ready, [];
      count := |batch|;
      while batch != []
        invariant Drain(View(), scripts) == Drain(Next(old(View()), Collect), scripts)
        decreases |batch|
      {
        HandleFirst(scripts);
      }
    }
  }
}
