/** Posting work to a reactor from other threads: push, signal, clear, swap as separate interleaved steps. */
module Wakeup {
  import opened Text

  type Task = nat

  /** Level: epoll reports the event counter whenever it is non-zero. OneShot: io_uring reports it once per armed poll. */
  datatype Trigger = Level | OneShot

  /** Where the polling thread is: before the wake-up is handled, after the counter was read, after the queue was
      taken, or running what it held. */
  datatype Phase = Idle | Cleared | Swapped | Running

  /** `pending` counts the posters that have pushed and not yet signalled; `reported` is a wake-up that the kernel
      has reported and the poller has not yet handled; `posted` and `executed` are history. */
  datatype State = State(
    trigger: Trigger,
    queue: seq<Task>,
    pending: nat,
    signal: bool,
    armed: bool,
    reported: bool,
    phase: Phase,
    local: seq<Task>,
    executed: seq<Task>,
    posted: seq<Task>
  )

  function Start(trigger: Trigger): State { State(trigger, [], 0, false, true, false, Idle, [], [], []) }

  datatype Step = Push(task: Task) | Signal | Report | Clear | Swap | Rearm | Execute | Finish

  predicate Enabled(s: State, step: Step) {
    match step
    case Push(_) => true
    case Signal => s.pending > 0
    case Report => s.armed && s.signal && !s.reported
    case Clear => s.phase == Idle && s.reported
    case Swap => s.phase == Cleared
    case Rearm => s.phase == Swapped
    case Execute => s.phase == Running && s.local != []
    case Finish => s.phase == Running && s.local == []
  }

  function Next(s: State, step: Step): State
    requires Enabled(s, step)
  {
    match step
    case Push(task) => s.(queue := s.queue + [task], posted := s.posted + [task], pending := s.pending + 1)
    case Signal => s.(pending := s.pending - 1, signal := true)
    case Report => s.(reported := true, armed := s.trigger.Level?)
    case Clear => s.(reported := false, signal := false, phase := Cleared)
    case Swap => s.(local := s.queue, queue := [], phase := if s.trigger.Level? then Running else Swapped)
    case Rearm => s.(armed := true, phase := Running)
    case Execute => s.(executed := s.executed + [s.local[0]], local := s.local[1..])
    case Finish => s.(phase := Idle)
  }

  /** No task is lost, doubled or overtaken; a task in the queue has a wake-up coming; the wake-up is armed
      unless it is being handled. */
  predicate Inv(s: State) {
    && s.executed + s.local + s.queue == s.posted
    && (s.queue != [] ==> s.signal || s.pending > 0 || s.phase == Cleared)
    && (s.armed || s.reported || s.phase in {Cleared, Swapped})
    && (s.reported ==> s.signal)
    && (s.local != [] ==> s.phase in {Swapped, Running})
    && (s.trigger.Level? ==> s.armed && s.phase != Swapped)
    && (s.trigger.OneShot? && (s.armed || s.reported) ==> !(s.armed && s.reported) && s.phase != Cleared && s.phase != Swapped)
  }

  lemma StartInv(trigger: Trigger)
    ensures Inv(Start(trigger))
  {}

  lemma StepKeeps(s: State, step: Step)
    requires Inv(s) && Enabled(s, step)
    ensures Inv(Next(s, step)) && s.posted <= Next(s, step).posted && s.executed <= Next(s, step).executed
  {
    match step
    case Push(task) => assert s.executed + s.local + (s.queue + [task]) == s.executed + s.local + s.queue + [task];
    case Swap => assert s.executed + s.queue + [] == s.executed + s.local + s.queue;
    case Execute => assert s.executed + [s.local[0]] + s.local[1..] == s.executed + s.local;
    case _ =>
  }

  predicate Possible(s: State, steps: seq<Step>)
    decreases |steps|
  {
    steps == [] || (Enabled(s, steps[0]) && Possible(Next(s, steps[0]), steps[1..]))
  }

  function Run(s: State, steps: seq<Step>): State
    requires Possible(s, steps)
    decreases |steps|
  {
    if steps == [] then s else Run(Next(s, steps[0]), steps[1..])
  }

  lemma {:induction false} RunKeeps(s: State, steps: seq<Step>)
    requires Inv(s) && Possible(s, steps)
    ensures Inv(Run(s, steps)) && s.posted <= Run(s, steps).posted && s.executed <= Run(s, steps).executed
    decreases |steps|
  {
    if steps != [] {
      StepKeeps(s, steps[0]);
      RunKeeps(Next(s, steps[0]), steps[1..]);
    }
  }

  /** In every reachable state the executed tasks are a beginning of the posted ones, and a task in the queue
      is announced: signalled, about to be, or about to be taken. */
  lemma NoLostWakeup(trigger: Trigger, steps: seq<Step>)
    requires Possible(Start(trigger), steps)
    ensures var s := Run(Start(trigger), steps);
            && s.executed <= s.posted
            && s.executed + s.local + s.queue == s.posted
            && (s.queue != [] ==> s.signal || s.pending > 0 || s.phase == Cleared)
  {
    RunKeeps(Start(trigger), steps);
    var s := Run(Start(trigger), steps);
    assert s.executed + s.local + s.queue == s.executed + (s.local + s.queue);
  }

  /** How many of the steps are of a kind. */
  function Times(steps: seq<Step>, f: Step -> bool): nat {
    if steps == [] then 0 else (if f(steps[0]) then 1 else 0) + Times(steps[1..], f)
  }

  /** What was posted, in order. */
  function Posts(steps: seq<Step>): seq<Task> {
    if steps == [] then [] else (if steps[0].Push? then [steps[0].task] else []) + Posts(steps[1..])
  }

  /** Over every run: what counts as posted is what was pushed; the posters under way are those that have pushed and not yet
      signalled; a one-shot wake-up is armed exactly if it has been re-armed as often as it was reported. */
  lemma RunCounts(s: State, steps: seq<Step>)
    requires Inv(s) && Possible(s, steps)
    ensures var r := Run(s, steps);
            && r.posted == s.posted + Posts(steps)
            && r.pending + Times(steps, (x: Step) => x.Signal?) == s.pending + Times(steps, (x: Step) => x.Push?)
            && (s.trigger.OneShot? ==>
                  Flag(r.armed) + Times(steps, (x: Step) => x.Report?) == Flag(s.armed) + Times(steps, (x: Step) => x.Rearm?))
  {
    RunPosts(s, steps);
    RunPending(s, steps, (x: Step) => x.Signal?, (x: Step) => x.Push?);
    RunArmed(s, steps, (x: Step) => x.Report?, (x: Step) => x.Rearm?);
  }

  lemma {:induction false} RunPosts(s: State, steps: seq<Step>)
    requires Possible(s, steps)
    ensures Run(s, steps).posted == s.posted + Posts(steps)
    decreases |steps|
  {
    if steps == [] {
      assert s.posted + [] == s.posted;
    } else {
      var first := if steps[0].Push? then [steps[0].task] else [];
      StepPosts(s, steps[0], first);
      RunPosts(Next(s, steps[0]), steps[1..]);
      Assoc(s.posted, first, Posts(steps[1..]));
    }
  }

  lemma StepPosts(s: State, step: Step, first: seq<Task>)
    requires Enabled(s, step) && first == if step.Push? then [step.task] else []
    ensures Next(s, step).posted == s.posted + first
  {
  }

  lemma {:induction false} RunPending(s: State, steps: seq<Step>, signals: Step -> bool, pushes: Step -> bool)
    requires Inv(s) && Possible(s, steps) && forall x :: signals(x) == x.Signal? && pushes(x) == x.Push?
    ensures Run(s, steps).pending + Times(steps, signals) == s.pending + Times(steps, pushes)
    decreases |steps|
  {
    if steps != [] {
      StepKeeps(s, steps[0]);
      StepCounts(s, steps[0]);
      RunPending(Next(s, steps[0]), steps[1..], signals, pushes);
    }
  }

  lemma {:induction false} RunArmed(s: State, steps: seq<Step>, reports: Step -> bool, rearms: Step -> bool)
    requires Inv(s) && Possible(s, steps) && forall x :: reports(x) == x.Report? && rearms(x) == x.Rearm?
    ensures s.trigger.OneShot? ==> Flag(Run(s, steps).armed) + Times(steps, reports) == Flag(s.armed) + Times(steps, rearms)
    decreases |steps|
  {
    if steps != [] {
      StepKeeps(s, steps[0]);
      StepCounts(s, steps[0]);
      RunArmed(Next(s, steps[0]), steps[1..], reports, rearms);
    }
  }

  lemma StepCounts(s: State, step: Step)
    requires Inv(s) && Enabled(s, step)
    ensures var r := Next(s, step);
            && r.trigger == s.trigger
            && r.pending + (if step.Signal? then 1 else 0) == s.pending + (if step.Push? then 1 else 0)
            && (s.trigger.OneShot? ==> Flag(r.armed) + Flag(step.Report?) == Flag(s.armed) + Flag(step.Rearm?))
  {
  }

  /** From the start: posting is always possible, and nothing else is before it. */
  lemma StartsQuiet(trigger: Trigger, s: State, task: Task)
    ensures Quiet(Start(trigger)) && Start(trigger).posted == [] && Enabled(s, Push(task))
  {
  }

  // ---------- Draining ----------

  ghost predicate Quiet(s: State) { forall step :: Enabled(s, step) ==> step.Push? }

  /** When nothing but a new post can happen, every posted task has run, in the order of posting. */
  lemma QuietMeansDone(s: State)
    requires Inv(s) && Quiet(s)
    ensures s.executed == s.posted && s.queue == [] && s.local == []
  {
    assert !Enabled(s, Signal) && !Enabled(s, Report) && !Enabled(s, Clear);
    assert !Enabled(s, Swap) && !Enabled(s, Rearm) && !Enabled(s, Execute) && !Enabled(s, Finish);
    assert s.executed + [] + [] == s.executed;
  }

  function Rank(p: Phase): nat {
    match p case Cleared => 3 case Swapped => 2 case Running => 1 case Idle => 0
  }

  function Flag(b: bool): nat { if b then 1 else 0 }

  /** A scheduler picks some step other than a new post whenever there is one. */
  ghost predicate Fair(schedule: State -> Step) {
    forall s {:trigger schedule(s)} :: !Quiet(s) ==> Enabled(s, schedule(s)) && !schedule(s).Push?
  }

  /** Let the poller, the kernel and the posters under way run as scheduled, with no new posts, to the end. */
  ghost function Settle(s: State, schedule: State -> Step): (r: State)
    requires Inv(s) && Fair(schedule)
    ensures Inv(r) && Quiet(r) && r.posted == s.posted
    decreases s.pending, Flag(s.signal), Rank(s.phase), |s.local|, Flag(!s.reported)
  {
    if Quiet(s) then s
    else
      StepKeeps(s, schedule(s));
      Settle(Next(s, schedule(s)), schedule)
  }

  /** Under every schedule, everything posted is executed: once, in order, after finitely many steps. */
  lemma EverythingRuns(trigger: Trigger, steps: seq<Step>, schedule: State -> Step)
    requires Possible(Start(trigger), steps) && Fair(schedule)
    ensures Inv(Run(Start(trigger), steps))
    ensures Settle(Run(Start(trigger), steps), schedule).executed == Run(Start(trigger), steps).posted
  {
    RunKeeps(Start(trigger), steps);
    QuietMeansDone(Settle(Run(Start(trigger), steps), schedule));
  }
}
