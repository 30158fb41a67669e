/** The multi-producer multi-consumer ring: every atomic access of `try_send` and `try_recv` is a step of its own. */
module Channel {

  type Value = nat
  type Thread = nat

  datatype Slot = Slot(seqno: int, val: Value)

  /** Where a thread is in its call. `Sending` and `Receiving` have loaded a position; `Cas*` have seen the slot
      ready for it; the others own the position they claimed. */
  datatype Pc =
    | Sending(v: Value, pos: nat)
    | CasSend(v: Value, pos: nat)
    | Claimed(v: Value, pos: nat)
    | Stored(pos: nat)
    | Receiving(pos: nat)
    | CasRecv(pos: nat)
    | Taken(pos: nat)
    | Got(pos: nat, v: Value)

  /** The ring, the threads inside a call, and history: the value claimed for each position, the values taken
      out, and which thread owns a position it is writing or reading. */
  datatype State = State(
    cap: nat,
    slots: seq<Slot>,
    head: nat,
    tail: nat,
    threads: map<Thread, Pc>,
    sent: seq<Value>,
    received: map<nat, Value>,
    writing: map<nat, Thread>,
    reading: map<nat, Thread>
  )

  function Start(cap: nat): State
    requires cap >= 2
  {
    State(cap, seq(cap, i => Slot(i, 0)), 0, 0, map[], [], map[], map[], map[])
  }

  datatype Step =
    | LoadTail(t: Thread, v: Value)
    | CheckSend(t: Thread)
    | SwapTail(t: Thread, spurious: bool)
    | Store(t: Thread)
    | Publish(t: Thread)
    | LoadHead(t: Thread)
    | CheckRecv(t: Thread)
    | SwapHead(t: Thread, spurious: bool)
    | Take(t: Thread)
    | Release(t: Thread)

  predicate Formed(s: State) { s.cap >= 2 && |s.slots| == s.cap && |s.sent| == s.tail }

  function At(s: State, p: int): Slot
    requires Formed(s)
  {
    s.slots[p % s.cap]
  }

  function SetSlot(s: State, p: int, slot: Slot): State
    requires Formed(s)
  {
    s.(slots := s.slots[p % s.cap := slot])
  }

  function Goto(s: State, t: Thread, pc: Pc): State { s.(threads := s.threads[t := pc]) }

  function Leave(s: State, t: Thread): State { s.(threads := s.threads - {t}) }

  predicate Enabled(s: State, step: Step) {
    match step
    case LoadTail(t, _) => t !in s.threads
    case LoadHead(t) => t !in s.threads
    case CheckSend(t) => t in s.threads && s.threads[t].Sending?
    case SwapTail(t, _) => t in s.threads && s.threads[t].CasSend?
    case Store(t) => t in s.threads && s.threads[t].Claimed?
    case Publish(t) => t in s.threads && s.threads[t].Stored?
    case CheckRecv(t) => t in s.threads && s.threads[t].Receiving?
    case SwapHead(t, _) => t in s.threads && s.threads[t].CasRecv?
    case Take(t) => t in s.threads && s.threads[t].Taken?
    case Release(t) => t in s.threads && s.threads[t].Got?
  }

  function Next(s: State, step: Step): State
    requires Formed(s) && Enabled(s, step)
  {
    match step
    case LoadTail(t, v) => Goto(s, t, Sending(v, s.tail))
    case CheckSend(t) =>
      var pc := s.threads[t];
      var q := At(s, pc.pos).seqno;
      if q == pc.pos then Goto(s, t, CasSend(pc.v, pc.pos))
      else if q < pc.pos then Leave(s, t)
      else Goto(s, t, Sending(pc.v, s.tail))
    case SwapTail(t, spurious) =>
      var pc := s.threads[t];
      if s.tail == pc.pos && !spurious then
        Goto(s, t, Claimed(pc.v, pc.pos)).(tail := s.tail + 1, sent := s.sent + [pc.v], writing := s.writing[pc.pos := t])
      else Goto(s, t, Sending(pc.v, s.tail))
    case Store(t) =>
      var pc := s.threads[t];
      Goto(SetSlot(s, pc.pos, At(s, pc.pos).(val := pc.v)), t, Stored(pc.pos))
    case Publish(t) =>
      var p := s.threads[t].pos;
      Leave(SetSlot(s, p, At(s, p).(seqno := p + 1)), t).(writing := s.writing - {p})
    case LoadHead(t) => Goto(s, t, Receiving(s.head))
    case CheckRecv(t) =>
      var p := s.threads[t].pos;
      var q := At(s, p).seqno;
      if q == p + 1 then Goto(s, t, CasRecv(p))
      else if q < p + 1 then Leave(s, t)
      else Goto(s, t, Receiving(s.head))
    case SwapHead(t, spurious) =>
      var p := s.threads[t].pos;
      if s.head == p && !spurious then Goto(s, t, Taken(p)).(head := s.head + 1, reading := s.reading[p := t])
      else Goto(s, t, Receiving(s.head))
    case Take(t) =>
      var p := s.threads[t].pos;
      Goto(s, t, Got(p, At(s, p).val)).(received := s.received[p := At(s, p).val])
    case Release(t) =>
      var p := s.threads[t].pos;
      Leave(SetSlot(s, p, At(s, p).(seqno := p + s.cap)), t).(reading := s.reading - {p})
  }

  // ---------- Invariant ----------

  /** Among the last `cap` positions: not yet used, taken out and being read or released, or being written or full. */
  predicate SlotOk(s: State, p: int)
    requires Formed(s)
  {
    s.tail - s.cap <= p < s.tail ==>
      var slot := At(s, p);
      if p < 0 then slot.seqno == p + s.cap
      else if p < s.head then slot.seqno == (if p in s.reading then p + 1 else p + s.cap) && (p in s.reading ==> slot.val == s.sent[p])
      else if p in s.writing then slot.seqno == p
      else slot == Slot(p + 1, s.sent[p])
  }

  predicate ThreadOk(s: State, t: Thread)
    requires Formed(s)
  {
    t in s.threads ==>
      match s.threads[t]
      case Sending(_, p) => p <= s.tail && (p < s.tail ==> At(s, p).seqno >= p)
      case CasSend(_, p) => p <= s.tail && At(s, p).seqno >= p
      case Claimed(v, p) => p in s.writing && s.writing[p] == t && p < s.tail && s.sent[p] == v
      case Stored(p) => p in s.writing && s.writing[p] == t && p < s.tail && At(s, p).val == s.sent[p]
      case Receiving(p) => p <= s.head && (p < s.head ==> At(s, p).seqno >= p + 1)
      case CasRecv(p) => p <= s.head && At(s, p).seqno >= p + 1
      case Taken(p) => p in s.reading && s.reading[p] == t
      case Got(p, v) => p in s.reading && s.reading[p] == t && p < s.tail && v == s.sent[p]
  }

  /** Positions being written or read belong to a thread in the middle of it; what has left the ring was received. */
  predicate OwnerOk(s: State, p: nat) {
    && (p in s.writing ==> s.writing[p] in s.threads && s.threads[s.writing[p]].pos == p && Writes(s.threads[s.writing[p]]))
    && (p in s.reading ==> s.reading[p] in s.threads && s.threads[s.reading[p]].pos == p && Reads(s.threads[s.reading[p]]))
    && (p in s.reading ==> (p !in s.received <==> s.threads[s.reading[p]].Taken?))
    && (p < s.head && p !in s.reading ==> p in s.received)
  }

  predicate Writes(pc: Pc) { pc.Claimed? || pc.Stored? }

  predicate Reads(pc: Pc) { pc.Taken? || pc.Got? }

  ghost predicate Inv(s: State) {
    && Formed(s)
    && s.head <= s.tail <= s.head + s.cap
    && (forall p: nat {:trigger OwnerOk(s, p)} :: OwnerOk(s, p))
    && (forall p {:trigger SlotOk(s, p)} :: SlotOk(s, p))
    && (forall t {:trigger ThreadOk(s, t)} :: ThreadOk(s, t))
    && (forall p :: p in s.writing ==> s.head <= p < s.tail)
    && (forall p :: p in s.reading ==> s.tail - s.cap <= p < s.head)
    && (forall p :: p in s.received ==> p < s.head && s.received[p] == s.sent[p])
  }

  lemma ModUnique(a: int, b: int, c: nat)
    requires c > 0 && a % c == b % c && a - b < c && b - a < c
    ensures a == b
  {
    var k := a / c - b / c;
    assert a - b == c * k;
    assert k >= 1 ==> c * k >= c;
    assert k <= -1 ==> c * k <= 0 - c;
  }

  /** Writing the slot of one recent position leaves those of the others alone. */
  lemma OtherSlot(s: State, q: int, slot: Slot, p: int)
    requires Formed(s) && s.tail - s.cap <= q < s.tail && s.tail - s.cap <= p < s.tail && p != q
    ensures At(SetSlot(s, q, slot), p) == At(s, p)
  {
    if p % s.cap == q % s.cap { ModUnique(p, q, s.cap); }
  }

  lemma StartInv(cap: nat)
    requires cap >= 2
    ensures Inv(Start(cap))
  {
    var s := Start(cap);
    forall p ensures SlotOk(s, p) {
      if -(cap as int) <= p < 0 { WrapsOnce(p, cap); }
    }
    forall t ensures ThreadOk(s, t) {}
    forall p: nat ensures OwnerOk(s, p) {}
  }

  lemma WrapsOnce(p: int, c: nat)
    requires c > 0 && 0 - c <= p < 0
    ensures p % c == p + c
  {
    QuotientIs(p, c, -1, p + c);
  }

  lemma SameThread(s: State, s': State, t: Thread, u: Thread)
    requires s'.threads - {t} == s.threads - {t} && u != t
    ensures (u in s'.threads <==> u in s.threads) && (u in s.threads ==> s'.threads[u] == s.threads[u])
  {
    assert u in s'.threads <==> u in s'.threads - {t};
    assert u in s.threads ==> s'.threads[u] == (s'.threads - {t})[u];
  }

  lemma MoveOwner(s: State, t: Thread, s': State, p: nat)
    requires OwnerOk(s, p) && s' == s.(threads := s'.threads) && s'.threads - {t} == s.threads - {t}
    requires t in s.threads ==> !Owns(s.threads[t])
    ensures OwnerOk(s', p)
  {
    if p in s.writing { SameThread(s, s', t, s.writing[p]); }
    if p in s.reading { SameThread(s, s', t, s.reading[p]); }
  }

  /** A step that moves one thread and touches nothing else. */
  lemma MoveKeeps(s: State, t: Thread, s': State)
    requires Inv(s) && s' == s.(threads := s'.threads) && s'.threads - {t} == s.threads - {t} && ThreadOk(s', t)
    requires t in s.threads ==> !Owns(s.threads[t])
    ensures Inv(s')
  {
    forall p: nat ensures OwnerOk(s', p) {
      assert OwnerOk(s, p);
      MoveOwner(s, t, s', p);
    }
    forall p ensures SlotOk(s', p) { assert SlotOk(s, p); }
    forall u ensures ThreadOk(s', u) {
      assert ThreadOk(s, u);
      if u != t { SameThread(s, s', t, u); }
    }
  }

  lemma LooksKeep(s: State, step: Step)
    requires Inv(s) && Enabled(s, step) && (step.LoadTail? || step.LoadHead? || step.CheckSend? || step.CheckRecv?)
    ensures Inv(Next(s, step))
  {
    assert ThreadOk(s, step.t);
    MoveKeeps(s, step.t, Next(s, step));
  }

  /** A claim of the tail succeeds only when the position a whole lap back has been taken out and released. */
  lemma ClaimFree(s: State, t: Thread)
    requires Inv(s) && t in s.threads && s.threads[t].CasSend? && s.threads[t].pos == s.tail
    ensures var p := s.tail - s.cap; p < s.head && p !in s.reading && At(s, s.tail).seqno == s.tail
  {
    var p := s.tail - s.cap;
    assert ThreadOk(s, t) && SlotOk(s, p);
    SameLap(s.tail, s.cap);
  }

  lemma SameLap(p: int, c: nat)
    requires c > 0
    ensures (p - c) % c == p % c
  {
    var q := p - c;
    assert q % c == p % c by {
      assert p == c * (p / c) + p % c;
      assert q == c * (p / c - 1) + p % c;
      QuotientIs(q, c, p / c - 1, p % c);
    }
  }

  lemma QuotientIs(a: int, c: nat, k: int, r: int)
    requires c > 0 && a == c * k + r && 0 <= r < c
    ensures a % c == r
  {
    var d := a / c - k;
    assert c * (a / c) == c * k + c * d;
    assert r - a % c == c * d;
    assert d >= 1 ==> c * d >= c;
    assert d <= -1 ==> c * d <= 0 - c;
  }

  lemma ClaimTailKeeps(s: State, t: Thread, s': State)
    requires Inv(s) && t in s.threads && s.threads[t].CasSend? && s.threads[t].pos == s.tail
    requires s' == Next(s, SwapTail(t, false))
    ensures Inv(s')
  {
    ClaimFree(s, t);
    forall p: nat ensures OwnerOk(s', p) { assert OwnerOk(s, p); }
    forall p ensures SlotOk(s', p) { assert SlotOk(s, p); }
    forall u ensures ThreadOk(s', u) { assert ThreadOk(s, u); }
  }

  lemma ClaimHead(s: State, t: Thread)
    requires Inv(s) && t in s.threads && s.threads[t].CasRecv? && s.threads[t].pos == s.head
    ensures s.head < s.tail && s.head !in s.writing && At(s, s.head) == Slot(s.head + 1, s.sent[s.head])
  {
    assert ThreadOk(s, t) && SlotOk(s, s.head) && SlotOk(s, s.head - s.cap);
    SameLap(s.head, s.cap);
  }

  lemma ClaimHeadKeeps(s: State, t: Thread, s': State)
    requires Inv(s) && t in s.threads && s.threads[t].CasRecv? && s.threads[t].pos == s.head
    requires s' == Next(s, SwapHead(t, false))
    ensures Inv(s')
  {
    ClaimHead(s, t);
    forall p: nat ensures OwnerOk(s', p) { assert OwnerOk(s, p); }
    forall p ensures SlotOk(s', p) { assert SlotOk(s, p); }
    forall u ensures ThreadOk(s', u) { assert ThreadOk(s, u); }
  }

  /** A thread that owns a position writes its slot; sequence numbers only grow. */
  lemma WriteKeeps(s: State, t: Thread, q: nat, slot: Slot, s': State)
    requires Inv(s) && s.tail - s.cap <= q < s.tail && slot.seqno >= At(s, q).seqno
    requires var w := SetSlot(s, q, slot); s' == w.(threads := s'.threads, writing := s'.writing, reading := s'.reading)
    requires s'.threads - {t} == s.threads - {t} && s'.writing - {q} == s.writing - {q} && s'.reading - {q} == s.reading - {q}
    requires s'.writing.Keys <= s.writing.Keys && s'.reading.Keys <= s.reading.Keys
    requires forall u :: u != t && u in s.threads && s.threads[u].pos == q ==> !Owns(s.threads[u])
    requires SlotOk(s', q) && ThreadOk(s', t) && OwnerOk(s', q) && t in s.threads && Owns(s.threads[t]) && s.threads[t].pos == q
    ensures Inv(s')
  {
    forall p: nat ensures OwnerOk(s', p) { if p != q { OwnersKeep(s, t, q, s', p); } }
    forall p ensures SlotOk(s', p) {
      assert SlotOk(s, p);
      if p != q && s.tail - s.cap <= p < s.tail {
        OtherSlot(s, q, slot, p);
        assert p in s.writing <==> p in s.writing - {q};
        assert p in s.reading <==> p in s.reading - {q};
      }
    }
    forall u ensures ThreadOk(s', u) { if u != t { OthersKeep(s, t, q, slot, s', u); } }
  }

  predicate Owns(pc: Pc) { Writes(pc) || Reads(pc) }

  lemma OthersKeep(s: State, t: Thread, q: nat, slot: Slot, s': State, u: Thread)
    requires Inv(s) && s.tail - s.cap <= q < s.tail && slot.seqno >= At(s, q).seqno && u != t
    requires var w := SetSlot(s, q, slot); s' == w.(threads := s'.threads, writing := s'.writing, reading := s'.reading)
    requires s'.threads - {t} == s.threads - {t} && s'.writing - {q} == s.writing - {q} && s'.reading - {q} == s.reading - {q}
    requires u in s.threads && s.threads[u].pos == q ==> !Owns(s.threads[u])
    ensures ThreadOk(s', u)
  {
    assert ThreadOk(s, u);
    assert u in s'.threads <==> u in s'.threads - {t};
    if u in s.threads {
      var p := s.threads[u].pos;
      assert s'.threads[u] == (s'.threads - {t})[u];
      assert At(s', p).seqno >= At(s, p).seqno;
      if Owns(s.threads[u]) {
        assert p in s.writing ==> p in s.writing - {q} && (s.writing - {q})[p] == s.writing[p] == s'.writing[p];
        assert p in s.reading ==> p in s.reading - {q} && (s.reading - {q})[p] == s.reading[p] == s'.reading[p];
        OtherSlot(s, q, slot, p);
      }
    }
  }

  lemma OwnersKeep(s: State, t: Thread, q: nat, s': State, p: nat)
    requires Inv(s) && p != q && t in s.threads && Owns(s.threads[t]) && s.threads[t].pos == q
    requires s'.threads - {t} == s.threads - {t} && s'.writing - {q} == s.writing - {q} && s'.reading - {q} == s.reading - {q}
    requires s'.head == s.head && s'.received == s.received
    ensures OwnerOk(s', p)
  {
    assert OwnerOk(s, p);
    assert p in s'.writing <==> p in s'.writing - {q};
    assert p in s'.reading <==> p in s'.reading - {q};
    assert p in s.writing ==> s.writing[p] in s.threads - {t} && s'.writing[p] == (s'.writing - {q})[p] == s.writing[p];
    assert p in s.reading ==> s.reading[p] in s.threads - {t} && s'.reading[p] == (s'.reading - {q})[p] == s.reading[p];
    forall u | u in s.threads - {t} ensures u in s'.threads && s'.threads[u] == s.threads[u] {
      assert u in s'.threads - {t} && s'.threads[u] == (s'.threads - {t})[u];
    }
  }

  /** No two threads own the same position. */
  lemma OneOwner(s: State, t: Thread, u: Thread)
    requires Inv(s) && t in s.threads && u in s.threads && t != u && Owns(s.threads[t]) && Owns(s.threads[u])
    ensures s.threads[t].pos != s.threads[u].pos
  {
    assert ThreadOk(s, t) && ThreadOk(s, u);
  }

  lemma AllOthers(s: State, t: Thread)
    requires Inv(s) && t in s.threads && Owns(s.threads[t])
    ensures forall u :: u != t && u in s.threads && s.threads[u].pos == s.threads[t].pos ==> !Owns(s.threads[u])
  {
    forall u | u != t && u in s.threads && Owns(s.threads[u]) ensures s.threads[u].pos != s.threads[t].pos { OneOwner(s, t, u); }
  }

  lemma StoreKeeps(s: State, t: Thread)
    requires Inv(s) && Enabled(s, Store(t))
    ensures Inv(Next(s, Store(t)))
  {
    var pc := s.threads[t];
    assert ThreadOk(s, t) && SlotOk(s, pc.pos) && OwnerOk(s, pc.pos);
    AllOthers(s, t);
    WriteKeeps(s, t, pc.pos, At(s, pc.pos).(val := pc.v), Next(s, Store(t)));
  }

  lemma PublishKeeps(s: State, t: Thread)
    requires Inv(s) && Enabled(s, Publish(t))
    ensures Inv(Next(s, Publish(t)))
  {
    var p := s.threads[t].pos;
    assert ThreadOk(s, t) && SlotOk(s, p) && OwnerOk(s, p);
    AllOthers(s, t);
    WriteKeeps(s, t, p, At(s, p).(seqno := p + 1), Next(s, Publish(t)));
  }

  lemma ReleaseKeeps(s: State, t: Thread)
    requires Inv(s) && Enabled(s, Release(t))
    ensures Inv(Next(s, Release(t)))
  {
    var p := s.threads[t].pos;
    assert ThreadOk(s, t) && SlotOk(s, p) && OwnerOk(s, p);
    AllOthers(s, t);
    WriteKeeps(s, t, p, At(s, p).(seqno := p + s.cap), Next(s, Release(t)));
  }

  /** What is taken out of a position is what was sent at it. */
  lemma TakeKeeps(s: State, t: Thread)
    requires Inv(s) && Enabled(s, Take(t))
    ensures Inv(Next(s, Take(t)))
    ensures var p := s.threads[t].pos; p < s.tail && At(s, p).val == s.sent[p] && p !in s.received
  {
    var s', p := Next(s, Take(t)), s.threads[t].pos;
    assert ThreadOk(s, t) && SlotOk(s, p) && OwnerOk(s, p);
    forall q: nat ensures OwnerOk(s', q) { assert OwnerOk(s, q); }
    forall q ensures SlotOk(s', q) { assert SlotOk(s, q); }
    forall u ensures ThreadOk(s', u) { assert ThreadOk(s, u); }
  }

  lemma StepKeeps(s: State, step: Step)
    requires Inv(s) && Enabled(s, step)
    ensures Inv(Next(s, step))
  {
    match step
    case SwapTail(t, spurious) =>
      if s.threads[t].pos == s.tail && !spurious { ClaimTailKeeps(s, t, Next(s, step)); } else { MoveKeeps(s, t, Next(s, step)); }
    case SwapHead(t, spurious) =>
      if s.threads[t].pos == s.head && !spurious { ClaimHeadKeeps(s, t, Next(s, step)); } else { MoveKeeps(s, t, Next(s, step)); }
    case Store(t) => StoreKeeps(s, t);
    case Publish(t) => PublishKeeps(s, t);
    case Take(t) => TakeKeeps(s, t);
    case Release(t) => ReleaseKeeps(s, t);
    case _ => LooksKeep(s, step);
  }

  // ---------- Whole runs ----------

  predicate Possible(s: State, steps: seq<Step>)
    decreases |steps|
  {
    steps == [] || (Formed(s) && Enabled(s, steps[0]) && Possible(Next(s, steps[0]), steps[1..]))
  }

  function Run(s: State, steps: seq<Step>): State
    requires Possible(s, steps)
    decreases |steps|
  {
    if steps == [] then s else Run(Next(s, steps[0]), steps[1..])
  }

  /** History is only added to. */
  predicate Extends(s: State, s': State) {
    && s.cap == s'.cap && s.sent <= s'.sent
    && (forall p :: p in s.received ==> p in s'.received && s'.received[p] == s.received[p])
  }

  lemma StepExtends(s: State, step: Step)
    requires Inv(s) && Enabled(s, step)
    ensures Extends(s, Next(s, step))
  {
    if step.Take? { TakeKeeps(s, step.t); }
  }

  lemma {:induction false} RunKeeps(s: State, steps: seq<Step>)
    requires Inv(s) && Possible(s, steps)
    ensures Inv(Run(s, steps)) && Extends(s, Run(s, steps))
    decreases |steps|
  {
    if steps != [] {
      StepKeeps(s, steps[0]);
      StepExtends(s, steps[0]);
      RunKeeps(Next(s, steps[0]), steps[1..]);
      ExtendsFurther(s, Next(s, steps[0]), Run(s, steps));
    }
  }

  lemma ExtendsFurther(a: State, b: State, c: State)
    requires Extends(a, b) && Extends(b, c)
    ensures Extends(a, c)
  {}

  /** Over every interleaving: the n-th value taken out is the n-th value that claimed a place, each is taken out
      at most once, none is overwritten before, and the ring never holds more than its capacity. */
  lemma RingIsFifo(cap: nat, steps: seq<Step>)
    requires cap >= 2 && Possible(Start(cap), steps)
    ensures var s := Run(Start(cap), steps);
            && s.head <= s.tail <= s.head + cap && |s.sent| == s.tail
            && (forall p :: p in s.received ==> p < s.head && s.received[p] == s.sent[p])
            && (forall p :: 0 <= p < s.head && p !in s.reading ==> p in s.received)
  {
    StartInv(cap);
    RunKeeps(Start(cap), steps);
    var s := Run(Start(cap), steps);
    forall p | 0 <= p < s.head && p !in s.reading ensures p in s.received { assert OwnerOk(s, p); }
  }

  /** At rest nothing is missing: what was sent is what was received followed by what is in the ring. */
  lemma AtRest(cap: nat, steps: seq<Step>)
    requires cap >= 2 && Possible(Start(cap), steps) && Run(Start(cap), steps).threads == map[]
    ensures var s := Run(Start(cap), steps);
            && Formed(s) && s.head <= s.tail
            && (forall p :: 0 <= p < s.head ==> p in s.received && s.received[p] == s.sent[p])
            && (forall p :: s.head <= p < s.tail ==> At(s, p) == Slot(p + 1, s.sent[p]))
  {
    StartInv(cap);
    RunKeeps(Start(cap), steps);
    var s := Run(Start(cap), steps);
    forall p | 0 <= p < s.head ensures p in s.received { assert OwnerOk(s, p); }
    forall p | s.head <= p < s.tail ensures At(s, p) == Slot(p + 1, s.sent[p]) { assert OwnerOk(s, p) && SlotOk(s, p); }
  }

  lemma ClaimsTail(s: State, t: Thread, v: Value) returns (s1: State, s2: State, s3: State)
    requires Inv(s) && t !in s.threads && s.tail - s.cap < s.head && s.tail - s.cap !in s.reading
    ensures Enabled(s, LoadTail(t, v)) && s1 == Next(s, LoadTail(t, v))
    ensures Formed(s1) && Enabled(s1, CheckSend(t)) && s2 == Next(s1, CheckSend(t))
    ensures Formed(s2) && Enabled(s2, SwapTail(t, false)) && s3 == Next(s2, SwapTail(t, false)) && Formed(s3)
    ensures s3 == s.(threads := s.threads[t := Claimed(v, s.tail)], tail := s.tail + 1, sent := s.sent + [v], writing := s.writing[s.tail := t])
  {
    assert SlotOk(s, s.tail - s.cap);
    SameLap(s.tail, s.cap);
    s1 := Next(s, LoadTail(t, v));
    s2 := Next(s1, CheckSend(t));
    s3 := Next(s2, SwapTail(t, false));
  }

  /** A send that is not disturbed, with the place a lap back released: the value is in the ring, published, behind those
      that were there. */
  lemma SendAlone(s: State, t: Thread, v: Value) returns (s1: State, s2: State, s3: State, s4: State, s5: State)
    requires Inv(s) && t !in s.threads && s.tail - s.cap < s.head && s.tail - s.cap !in s.reading
    ensures Enabled(s, LoadTail(t, v)) && s1 == Next(s, LoadTail(t, v))
    ensures Formed(s1) && Enabled(s1, CheckSend(t)) && s2 == Next(s1, CheckSend(t))
    ensures Formed(s2) && Enabled(s2, SwapTail(t, false)) && s3 == Next(s2, SwapTail(t, false))
    ensures Formed(s3) && Enabled(s3, Store(t)) && s4 == Next(s3, Store(t))
    ensures Formed(s4) && Enabled(s4, Publish(t)) && s5 == Next(s4, Publish(t))
    ensures Formed(s5) && s5.threads == s.threads && s5.sent == s.sent + [v] && s5.head == s.head
    ensures At(s5, s.tail) == Slot(s.tail + 1, v) && s5.received == s.received && s5.reading == s.reading
  {
    s1, s2, s3 := ClaimsTail(s, t, v);
    s4 := Next(s3, Store(t));
    s5 := Next(s4, Publish(t));
    assert s.threads[t := s4.threads[t]] - {t} == s.threads;
  }

  /** With the place a lap back still taken or being read, it gives up and leaves no trace. */
  lemma SendGivesUp(s: State, t: Thread, v: Value)
    requires Inv(s) && t !in s.threads && 0 <= s.tail - s.cap && (s.tail - s.cap >= s.head || s.tail - s.cap in s.reading)
    ensures Enabled(s, LoadTail(t, v)) && Formed(Next(s, LoadTail(t, v))) && Enabled(Next(s, LoadTail(t, v)), CheckSend(t))
    ensures Next(Next(s, LoadTail(t, v)), CheckSend(t)) == s
  {
    assert SlotOk(s, s.tail - s.cap);
    SameLap(s.tail, s.cap);
    assert s.threads[t := Sending(v, s.tail)] - {t} == s.threads;
  }

  lemma ClaimsFirst(s: State, t: Thread) returns (s1: State, s2: State, s3: State)
    requires Inv(s) && t !in s.threads && s.head < s.tail && s.head !in s.writing
    ensures Enabled(s, LoadHead(t)) && s1 == Next(s, LoadHead(t))
    ensures Formed(s1) && Enabled(s1, CheckRecv(t)) && s2 == Next(s1, CheckRecv(t))
    ensures Formed(s2) && Enabled(s2, SwapHead(t, false)) && s3 == Next(s2, SwapHead(t, false))
    ensures s3 == s.(threads := s.threads[t := Taken(s.head)], head := s.head + 1, reading := s.reading[s.head := t])
    ensures Formed(s3) && At(s3, s.head).val == s.sent[s.head] && s.head !in s.reading
  {
    assert SlotOk(s, s.head) && OwnerOk(s, s.head);
    s1 := Next(s, LoadHead(t));
    s2 := Next(s1, CheckRecv(t));
    s3 := Next(s2, SwapHead(t, false));
  }

  /** A receive that is not disturbed, with the first place published: it takes the oldest value and releases the place for
      the next lap. */
  lemma ReceiveAlone(s: State, t: Thread) returns (s1: State, s2: State, s3: State, s4: State, s5: State)
    requires Inv(s) && t !in s.threads && s.head < s.tail && s.head !in s.writing
    ensures Enabled(s, LoadHead(t)) && s1 == Next(s, LoadHead(t))
    ensures Formed(s1) && Enabled(s1, CheckRecv(t)) && s2 == Next(s1, CheckRecv(t))
    ensures Formed(s2) && Enabled(s2, SwapHead(t, false)) && s3 == Next(s2, SwapHead(t, false))
    ensures Formed(s3) && Enabled(s3, Take(t)) && s4 == Next(s3, Take(t)) && s4.threads[t] == Got(s.head, s.sent[s.head])
    ensures Formed(s4) && Enabled(s4, Release(t)) && s5 == Next(s4, Release(t))
    ensures s5.threads == s.threads && s5.head == s.head + 1 && s5.sent == s.sent && s5.writing == s.writing
    ensures s5.received == s.received[s.head := s.sent[s.head]] && Formed(s5) && At(s5, s.head).seqno == s.head + s.cap
  {
    s1, s2, s3 := ClaimsFirst(s, t);
    s4 := Next(s3, Take(t));
    s5 := Next(s4, Release(t));
    assert s.threads[t := s4.threads[t]] - {t} == s.threads;
  }

  /** On an empty ring, or with the first place still being written, it gives up and leaves no trace. */
  lemma ReceiveGivesUp(s: State, t: Thread)
    requires Inv(s) && t !in s.threads && (s.head == s.tail || s.head in s.writing)
    ensures Enabled(s, LoadHead(t)) && Formed(Next(s, LoadHead(t))) && Enabled(Next(s, LoadHead(t)), CheckRecv(t))
    ensures Next(Next(s, LoadHead(t)), CheckRecv(t)) == s
  {
    assert SlotOk(s, s.head) && SlotOk(s, s.head - s.cap);
    SameLap(s.head, s.cap);
    assert s.threads[t := Receiving(s.head)] - {t} == s.threads;
  }

  /** A send gives up only when the ring is full: a whole lap of places is taken, or one is still being read. */
  lemma FullMeansFull(s: State, t: Thread)
    requires Inv(s) && Enabled(s, CheckSend(t)) && t !in Next(s, CheckSend(t)).threads
    ensures s.threads[t].pos == s.tail >= s.cap
    ensures s.tail == s.head + s.cap || s.tail - s.cap in s.reading
  {
    var p := s.tail - s.cap;
    assert ThreadOk(s, t) && SlotOk(s, p);
    SameLap(s.tail, s.cap);
  }

  /** A receive gives up only when there is nothing to take: the ring is empty, or its first place is still being written. */
  lemma EmptyMeansEmpty(s: State, t: Thread)
    requires Inv(s) && Enabled(s, CheckRecv(t)) && t !in Next(s, CheckRecv(t)).threads
    ensures s.threads[t].pos == s.head && (s.head == s.tail || s.head in s.writing)
  {
    assert ThreadOk(s, t) && SlotOk(s, s.head);
  }
}
