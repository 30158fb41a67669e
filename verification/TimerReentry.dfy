/** `tick` with callbacks that cancel and schedule timers of the same wheel. */
module TimerReentry {
  import opened Text
  import opened TimerWheel
  import SlotWalk

  /** What a callback does to the wheel, by the timer it belongs to. */
  datatype Act = Halt(id: nat) | Start(delay: nat)

  type Script = nat -> seq<Act>

  // ---------- On the flat table ----------

  /** One act. The node of the timer that is firing is given back only after its callback, so it counts against the pool. */
  function ActOn(s: Table, act: Act): Table {
    match act
    case Halt(id) => s.(due := s.due - {id})
    case Start(delay) =>
      if |s.due| + 1 >= s.capacity then s else s.(nextId := s.nextId + 1, due := s.due[s.nextId := FireTime(s.now, delay)])
  }

  function ActAll(s: Table, acts: seq<Act>): (r: Table)
    ensures r.now == s.now && r.capacity == s.capacity && r.nextId >= s.nextId
    decreases |acts|
  {
    if acts == [] then s else ActAll(ActOn(s, acts[0]), acts[1..])
  }

  lemma {:induction false} DropShorter(list: seq<nat>, id: nat)
    ensures |Drop(list, id)| <= |list|
  {
    if list != [] { DropShorter(list[1..], id); }
  }

  /** What a callback leaves of the timers still to fire at this instant. */
  function Left(rest: seq<nat>, acts: seq<Act>): (r: seq<nat>)
    ensures |r| <= |rest|
    decreases |acts|
  {
    if acts == [] then rest
    else
      match acts[0]
      case Halt(id) => (DropShorter(rest, id); Left(Drop(rest, id), acts[1..]))
      case Start(_) => Left(rest, acts[1..])
  }

  /** The timers of one instant fire one after the other; each acts before the next is chosen. */
  function FireAll(s: Table, list: seq<nat>, script: Script): (Table, seq<Firing>)
    decreases |list|
  {
    if list == [] then (s, [])
    else
      var id := list[0];
      var r := FireAll(ActAll(s.(due := s.due - {id}), script(id)), Left(list[1..], script(id)), script);
      (r.0, [Firing(id, s.now)] + r.1)
  }

  /** No callback cancels the timer then next in line. */
  predicate Safe(list: seq<nat>, script: Script)
    decreases |list|
  {
    || list == []
    || ((|list| > 1 ==> Halt(list[1]) !in script(list[0])) && Safe(Left(list[1..], script(list[0])), script))
  }

  /** The timers due at an instant, in some order. */
  ghost predicate DueThen(due: map<nat, nat>, t: nat, list: seq<nat>) {
    NoDup(list) && forall id :: id in list <==> id in due && due[id] == t
  }

  lemma {:induction false} LeftIn(rest: seq<nat>, acts: seq<Act>, id: nat)
    ensures id in Left(rest, acts) <==> id in rest && Halt(id) !in acts
    ensures NoDup(rest) ==> NoDup(Left(rest, acts))
    decreases |acts|
  {
    if acts != [] {
      assert Halt(id) in acts <==> acts[0] == Halt(id) || Halt(id) in acts[1..];
      if acts[0].Halt? { LeftIn(Drop(rest, acts[0].id), acts[1..], id); } else { LeftIn(rest, acts[1..], id); }
    }
  }

  /** Whether a timer of the instant is cancelled by one that fires before it. */
  predicate Silenced(list: seq<nat>, script: Script, id: nat)
    decreases |list|
  {
    list != [] && list[0] != id && (Halt(id) in script(list[0]) || Silenced(Left(list[1..], script(list[0])), script, id))
  }

  /** A log entry in front of the others. */
  lemma InFront(f: Firing, log: seq<Firing>, g: Firing)
    ensures g in [f] + log <==> g == f || g in log
    ensures multiset([f] + log)[g] == multiset(log)[g] + if g == f then 1 else 0
  {
    assert multiset([f] + log) == multiset{f} + multiset(log);
  }

  /** At one instant: the timers that fire are those of the list that none before them has cancelled, each of them once. */
  lemma {:induction false} FiresIff(s: Table, list: seq<nat>, script: Script, id: nat)
    requires NoDup(list)
    ensures Firing(id, s.now) in FireAll(s, list, script).1 <==> id in list && !Silenced(list, script, id)
    ensures multiset(FireAll(s, list, script).1)[Firing(id, s.now)] <= 1
    decreases |list|
  {
    if list != [] {
      var first, tail := list[0], list[1..];
      assert list == [first] + tail && NoDup(tail) && first !in tail;
      LeftIn(tail, script(first), id);
      var s', rest := ActAll(s.(due := s.due - {first}), script(first)), Left(tail, script(first));
      FiresIff(s', rest, script, id);
      InFront(Firing(first, s.now), FireAll(s', rest, script).1, Firing(id, s.now));
    }
  }

  lemma {:induction false} FiresNow(s: Table, list: seq<nat>, script: Script)
    ensures forall f :: f in FireAll(s, list, script).1 ==> f.at == s.now
    decreases |list|
  {
    if list != [] { FiresNow(ActAll(s.(due := s.due - {list[0]}), script(list[0])), Left(list[1..], script(list[0])), script); }
  }

  /** The order in which the timers of one instant are taken. */
  datatype Order = Order(ids: seq<nat>)

  /** One more instant: the clock goes on, and its timers fire in the given order. */
  function Then(at: (Table, seq<Firing>), list: Order, script: Script): (Table, seq<Firing>) {
    var now := FireAll(at.0.(now := at.0.now + 1), list.ids, script);
    (now.0, at.1 + now.1)
  }

  function Along<S, X>(s: S, xs: seq<X>, step: (S, X) -> S): S {
    if xs == [] then s else step(Along(s, xs[..|xs| - 1], step), xs[|xs| - 1])
  }

  lemma AlongMore<S, X>(s: S, xs: seq<X>, x: X, step: (S, X) -> S)
    ensures Along(s, xs + [x], step) == step(Along(s, xs, step), x)
  {
    assert (xs + [x])[..|xs|] == xs;
  }

  function Instant(script: Script): ((Table, seq<Firing>), Order) -> (Table, seq<Firing>) {
    (at, list) => Then(at, list, script)
  }

  /** One instant after the other, `lists` giving the order at each. */
  function TickAll(s: Table, lists: seq<Order>, script: Script): (Table, seq<Firing>) {
    Along((s, []), lists, Instant(script))
  }

  lemma TickAllMore(s0: Table, lists: seq<Order>, list: Order, script: Script)
    ensures TickAll(s0, lists + [list], script) == Then(TickAll(s0, lists, script), list, script)
  {
    AlongMore((s0, []), lists, list, Instant(script));
  }

  ghost predicate Orders(s: Table, lists: seq<Order>, script: Script)
    decreases |lists|
  {
    lists == [] ||
    var before := TickAll(s, lists[..|lists| - 1], script).0;
    Orders(s, lists[..|lists| - 1], script) && DueThen(before.due, before.now + 1, lists[|lists| - 1].ids)
  }

  predicate SafeAll(lists: seq<Order>, script: Script) {
    forall k :: 0 <= k < |lists| ==> Safe(lists[k].ids, script)
  }

  // ---------- What becomes of every timer ----------

  /** Inside a callback the calls do what they do outside one, in a pool with one node less. */
  lemma ActIsApply(s: Table, act: Act)
    ensures act.Halt? ==> ActOn(s, act) == Apply(s, Remove(act.id))
    ensures act.Start? && s.capacity > 0 ==>
              ActOn(s, act) == Apply(s.(capacity := s.capacity - 1), Add(act.delay)).(capacity := s.capacity)
  {
  }

  /** In the middle of an instant: the timers due now are those of the list, every other is due later. */
  ghost predicate Midway(s: Table, list: seq<nat>) {
    && s.nextId > 0 && NoDup(list)
    && (forall id :: id in s.due ==> 0 < id < s.nextId && s.due[id] >= s.now)
    && (forall id :: id in list <==> id in s.due && s.due[id] == s.now)
  }

  /** A callback takes away the timers it cancels, and adds only later ones with new numbers. */
  lemma ActOnDue(s: Table, act: Act, id: nat)
    requires forall k :: k in s.due ==> k < s.nextId
    ensures var q := ActOn(s, act);
            && (forall k :: k in q.due ==> k < q.nextId)
            && (id < s.nextId ==> (id in q.due <==> id in s.due && act != Halt(id)) && (id in q.due ==> q.due[id] == s.due[id]))
            && (id >= s.nextId && id in q.due ==> q.due[id] > s.now)
  {
  }

  lemma {:induction false} ActAllDue(s: Table, acts: seq<Act>, id: nat)
    requires forall k :: k in s.due ==> k < s.nextId
    ensures var q := ActAll(s, acts);
            && (forall k :: k in q.due ==> k < q.nextId)
            && (id < s.nextId ==> (id in q.due <==> id in s.due && Halt(id) !in acts) && (id in q.due ==> q.due[id] == s.due[id]))
            && (id >= s.nextId && id in q.due ==> q.due[id] > s.now)
    decreases |acts|
  {
    if acts != [] {
      assert Halt(id) in acts <==> acts[0] == Halt(id) || Halt(id) in acts[1..];
      ActOnDue(s, acts[0], id);
      ActAllDue(ActOn(s, acts[0]), acts[1..], id);
    }
  }

  lemma TurnMidway(s: Table, list: seq<nat>, acts: seq<Act>)
    requires Midway(s, list) && list != []
    ensures Midway(ActAll(s.(due := s.due - {list[0]}), acts), Left(list[1..], acts))
  {
    var first, p := list[0], s.(due := s.due - {list[0]});
    var q, left := ActAll(p, acts), Left(list[1..], acts);
    assert list == [first] + list[1..] && first !in list[1..];
    LeftIn(list[1..], acts, 0);
    forall id | id in q.due ensures 0 < id < q.nextId && q.due[id] >= q.now { ActAllDue(p, acts, id); }
    forall id ensures id in left <==> id in q.due && q.due[id] == q.now {
      ActAllDue(p, acts, id);
      LeftIn(list[1..], acts, id);
    }
  }

  /** A timer that was pending is still, unchanged; or has fired when it was due; or was cancelled by a callback that ran. One
      that was not pending, and has its number, stays so and does not fire. */
  ghost predicate Settled(s: Table, id: nat, r: Table, log: seq<Firing>, script: Script) {
    if id in s.due then
      if id in r.due then r.due[id] == s.due[id]
      else Firing(id, s.due[id]) in log || exists f :: f in log && Halt(id) in script(f.id)
    else id !in r.due && forall f :: f in log ==> f.id != id
  }

  lemma {:induction false} FireAllSettles(s: Table, list: seq<nat>, script: Script, id: nat)
    requires Midway(s, list) && id < s.nextId
    ensures var r := FireAll(s, list, script); Midway(r.0, []) && r.0.now == s.now && Settled(s, id, r.0, r.1, script) && id < r.0.nextId
    decreases |list|
  {
    if list != [] {
      var first, acts := list[0], script(list[0]);
      var p := s.(due := s.due - {first});
      var q, left := ActAll(p, acts), Left(list[1..], acts);
      TurnMidway(s, list, acts);
      ActAllDue(p, acts, id);
      FireAllSettles(q, left, script, id);
      var r, log := FireAll(q, left, script).0, FireAll(q, left, script).1;
      assert first in list;
      SettlesOn(s, id, first, q, r, log, script);
    }
  }

  lemma SettlesOn(s: Table, id: nat, first: nat, q: Table, r: Table, log: seq<Firing>, script: Script)
    requires first in s.due && s.due[first] == s.now && Settled(q, id, r, log, script)
    requires id in q.due <==> id in s.due && id != first && Halt(id) !in script(first)
    requires id in q.due ==> q.due[id] == s.due[id]
    ensures Settled(s, id, r, [Firing(first, s.now)] + log, script)
  {
    var more := [Firing(first, s.now)] + log;
    assert more[0] == Firing(first, s.now) && forall f :: f in log ==> f in more;
    assert Halt(id) in script(first) ==> exists f :: f in more && Halt(id) in script(f.id);
    if f :| f in log && Halt(id) in script(f.id) { assert f in more; }
  }

  /** Over a tick, whatever the callbacks do: every timer of the wheel is still pending with its time to come, or has fired
      at the instant it was due, or was cancelled by a callback that ran. */
  lemma {:induction false} TickSettles(s: Table, lists: seq<Order>, script: Script, id: nat)
    requires Sane(s) && Orders(s, lists, script) && id < s.nextId
    ensures var r := TickAll(s, lists, script);
            Sane(r.0) && r.0.now == s.now + |lists| && Settled(s, id, r.0, r.1, script) && id < r.0.nextId
    decreases |lists|
  {
    if lists != [] {
      var before, list := lists[..|lists| - 1], lists[|lists| - 1];
      assert lists == before + [list];
      TickSettles(s, before, script, id);
      TickAllMore(s, before, list, script);
      InstantSettles(s, id, TickAll(s, before, script), list, script);
    }
  }

  lemma InstantSettles(s: Table, id: nat, at: (Table, seq<Firing>), list: Order, script: Script)
    requires Sane(at.0) && DueThen(at.0.due, at.0.now + 1, list.ids) && Settled(s, id, at.0, at.1, script) && id < at.0.nextId
    ensures var r := Then(at, list, script);
            Sane(r.0) && r.0.now == at.0.now + 1 && Settled(s, id, r.0, r.1, script) && id < r.0.nextId
  {
    var p := at.0.(now := at.0.now + 1);
    FireAllSettles(p, list.ids, script, id);
    SettlesThen(s, id, p, at.1, FireAll(p, list.ids, script).0, FireAll(p, list.ids, script).1, script);
  }

  lemma SettlesThen(s: Table, id: nat, b: Table, log: seq<Firing>, r: Table, more: seq<Firing>, script: Script)
    requires Settled(s, id, b, log, script) && Settled(b, id, r, more, script)
    ensures Settled(s, id, r, log + more, script)
  {
    assert forall f :: f in log + more <==> f in log || f in more;
    if f :| f in log && Halt(id) in script(f.id) { assert f in log + more; }
    if f :| f in more && Halt(id) in script(f.id) { assert f in log + more; }
  }

  // ---------- The wheel during a slot's walk ----------

  /** The entries of the detached list are due now; every other is on course, or awaits its cascade, and fires later. */
  ghost predicate TracksFire(index: map<nat, Entry>, due: map<nat, nat>, t: nat, rest: seq<nat>) {
    && index.Keys == due.Keys
    && (forall id {:trigger MidCourse(index[id], due[id], t, 1)} :: id in index && id !in rest ==> due[id] > t && MidCourse(index[id], due[id], t, 1))
    && (forall id :: id in rest ==> id in index && index[id].expiry <= t && due[id] == t)
  }

  lemma FireStart(index: map<nat, Entry>, due: map<nat, nat>, t: nat, list: seq<nat>)
    requires t > 0 && Tracks(index, due, t - 1)
    requires forall id :: id in list <==> id in index && index[id].level == 0 && index[id].slot == t % 256
    ensures TracksFire(index, due, t, list) && forall id :: id in list <==> id in due && due[id] == t
  {
    forall id | id in index
      ensures id in list ==> due[id] == t && index[id].expiry <= t
      ensures id !in list ==> due[id] > t && MidCourse(index[id], due[id], t, 1)
    {
      assert OnCourse(index[id], due[id], t - 1);
      LevelZeroStep(index[id], due[id], t);
    }
  }

  lemma FirePop(index: map<nat, Entry>, due: map<nat, nat>, t: nat, id: nat, rest: seq<nat>)
    requires TracksFire(index, due, t, [id] + rest) && id !in rest
    ensures TracksFire(index - {id}, due - {id}, t, rest)
  {
    forall x | x in index - {id} && x !in rest ensures due[x] > t && MidCourse(index[x], due[x], t, 1) {
      assert x !in [id] + rest;
    }
    forall x | x in rest ensures x in index && index[x].expiry <= t && due[x] == t { assert x in [id] + rest; }
  }

  lemma FireCancel(index: map<nat, Entry>, due: map<nat, nat>, t: nat, rest: seq<nat>, id: nat, rest': seq<nat>)
    requires TracksFire(index, due, t, rest) && forall x :: x in rest' <==> x in rest && x != id
    ensures TracksFire(index - {id}, due - {id}, t, rest')
  {
    forall x | x in index - {id} && x !in rest' ensures due[x] > t && MidCourse(index[x], due[x], t, 1) {}
  }

  lemma FireSchedule(index: map<nat, Entry>, due: map<nat, nat>, t: nat, rest: seq<nat>, id: nat, e: Entry, delay: nat)
    requires TracksFire(index, due, t, rest) && id !in index && Chosen(e, t + delay, t)
    ensures TracksFire(index[id := e], due[id := FireTime(t, delay)], t, rest)
  {
    var index', due' := index[id := e], due[id := FireTime(t, delay)];
    forall x | x in index' && x !in rest ensures due'[x] > t && MidCourse(index'[x], due'[x], t, 1) {
      assert x != id ==> MidCourse(index[x], due[x], t, 1);
      assert OnCourse(map[0 := e][0], map[0 := FireTime(t, delay)][0], t);
    }
  }

  lemma FireEnd(index: map<nat, Entry>, due: map<nat, nat>, t: nat)
    requires TracksFire(index, due, t, [])
    ensures TracksMid(index, due, t, 1)
  {
  }

  /** A detached entry is forgotten. */
  lemma DetachedGone(slots: TimerWheel.Lists, index: map<nat, Entry>, rest: seq<nat>, id: nat)
    requires Linked(slots, index, rest) && id in rest
    ensures Linked(slots, index - {id}, Drop(rest, id))
  {
    var index', rest' := index - {id}, Drop(rest, id);
    forall x | x in index' && x !in rest' ensures In(slots, index'[x].level, index'[x].slot, x) {
      assert In(slots, index[x].level, index[x].slot, x);
    }
  }

  /** A linked entry is unlinked while a list is detached. */
  lemma UnlinkAside(slots: TimerWheel.Lists, index: map<nat, Entry>, rest: seq<nat>, id: nat)
    requires Linked(slots, index, rest) && id in index && id !in rest
    ensures Linked(Put(slots, index[id].level, index[id].slot, Drop(At(slots, index[id].level, index[id].slot), id)), index - {id}, rest)
  {
    var e := index[id];
    var s' := Put(slots, e.level, e.slot, Drop(At(slots, e.level, e.slot), id));
    forall lv, sl, x | In(s', lv, sl, x) ensures In(slots, lv, sl, x) && x != id { assert In(slots, lv, sl, x); }
    forall x | x in index - {id} && x !in rest ensures In(s', index[x].level, index[x].slot, x) {
      assert In(slots, index[x].level, index[x].slot, x);
    }
    forall lv, sl | InRange(lv, sl) ensures NoDup(At(s', lv, sl)) {
      assert NoDup(At(slots, lv, sl));
    }
  }

  /** While a callback runs: `rest` is detached, and there is room for the node of the timer that is firing. */
  ghost predicate Walking(w: Wheel, rest: seq<nat>)
    reads w
  {
    && w.currentMs > 0 && Linked(w.slots, w.index, rest) && w.Sound() && |w.index| < w.poolCapacity
    && TracksFire(w.index, w.due, w.currentMs, rest)
  }

  lemma {:induction false} SameList(list: seq<nat>, id: nat)
    requires id !in list
    ensures Drop(list, id) == list
  {
    if list != [] { SameList(list[1..], id); }
  }

  /** Unlink an entry, of the detached list or not, dropping the cached minimum if it may have been that entry's. */
  method RemoveInside(w: Wheel, id: nat, rest: seq<nat>)
    requires Linked(w.slots, w.index, rest) && w.Sound() && id in w.index
    modifies w`slots, w`index, w`minValid
    ensures Linked(w.slots, w.index, Drop(rest, id)) && w.Sound() && w.index == old(w.index) - {id}
  {
    var e := w.index[id];
    CacheAfterRemove(w.index, w.cachedMinExpiry, w.minValid, id);
    if id in rest {
      DetachedGone(w.slots, w.index, rest, id);
    } else {
      UnlinkAside(w.slots, w.index, rest, id);
      SameList(rest, id);
      w.slots := Put(w.slots, e.level, e.slot, Drop(At(w.slots, e.level, e.slot), id));
    }
    w.index := w.index - {id};
    if w.minValid && e.expiry <= w.cachedMinExpiry { w.minValid := false; }
  }

  lemma FewerLeft(index: map<nat, Entry>, id: nat)
    ensures |index - {id}| <= |index|
  {
    if id in index { RoomFor(index, id); } else { assert index - {id} == index; }
  }

  method RemoveIfThere(w: Wheel, id: nat, rest: seq<nat>)
    requires Linked(w.slots, w.index, rest) && w.Sound() && (id in rest ==> id in w.index)
    modifies w`slots, w`index, w`minValid
    ensures Linked(w.slots, w.index, Drop(rest, id)) && w.Sound() && w.index == old(w.index) - {id}
  {
    if id in w.index {
      RemoveInside(w, id, rest);
    } else {
      SameList(rest, id);
      assert w.index - {id} == w.index;
    }
  }

  method CancelInside(w: Wheel, id: nat, rest: seq<nat>) returns (rest': seq<nat>)
    requires Walking(w, rest)
    modifies w
    ensures Walking(w, rest') && rest' == Drop(rest, id) && w.View() == ActOn(old(w.View()), Halt(id))
  {
    rest' := Drop(rest, id);
    FireCancel(w.index, w.due, w.currentMs, rest, id, rest');
    ghost var before := w.index;
    RemoveIfThere(w, id, rest);
    FewerLeft(before, id);
    w.due := w.due - {id};
  }

  /** Link a new entry and keep the cached minimum exact. */
  method InsertInside(w: Wheel, id: nat, expiry: nat, ghost rest: seq<nat>) returns (ghost e: Entry)
    requires w.currentMs <= expiry && Linked(w.slots, w.index, rest) && w.Sound()
    requires 0 < id < w.nextId && id !in w.index && |w.index| < w.poolCapacity
    modifies w`slots, w`index, w`cachedMinExpiry
    ensures Linked(w.slots, w.index, rest) && w.Sound()
    ensures Chosen(e, expiry, w.currentMs) && w.index == old(w.index)[id := e]
  {
    assert w.index - {id} == w.index;
    e := w.Insert(id, expiry, rest);
    CacheAfterInsert(old(w.index), w.cachedMinExpiry, w.minValid, id, e);
    if w.minValid && expiry < w.cachedMinExpiry { w.cachedMinExpiry := expiry; }
  }

  lemma SizesSame(index: map<nat, Entry>, due: map<nat, nat>, t: nat, rest: seq<nat>)
    requires TracksFire(index, due, t, rest)
    ensures |index| == |due|
  {
    assert |index| == |index.Keys| && |due| == |due.Keys|;
  }

  method ScheduleInside(w: Wheel, delay: nat, ghost rest: seq<nat>)
    requires Walking(w, rest)
    modifies w
    ensures Walking(w, rest) && w.View() == ActOn(old(w.View()), Start(delay))
  {
    SizesSame(w.index, w.due, w.currentMs, rest);
    if |w.index| + 1 >= w.poolCapacity { return; }
    var id := w.nextId;
    w.nextId := w.nextId + 1;
    ghost var before := w.index;
    ghost var e := InsertInside(w, id, w.currentMs + delay, rest);
    FireSchedule(before, w.due, w.currentMs, rest, id, e, delay);
    w.due := w.due[id := FireTime(w.currentMs, delay)];
  }

  method RunCallback(w: Wheel, acts: seq<Act>, rest: seq<nat>) returns (rest': seq<nat>)
    requires Walking(w, rest)
    modifies w
    ensures Walking(w, rest') && rest' == Left(rest, acts) && w.View() == ActAll(old(w.View()), acts)
  {
    rest' := rest;
    for i := 0 to |acts|
      invariant Walking(w, rest') && Left(rest', acts[i..]) == Left(rest, acts)
      invariant ActAll(w.View(), acts[i..]) == ActAll(old(w.View()), acts)
    {
      assert acts[i..][1..] == acts[i + 1..];
      match acts[i]
      case Halt(id) => rest' := CancelInside(w, id, rest');
      case Start(delay) => ScheduleInside(w, delay, rest');
    }
  }

  // ---------- The slot, the step, the tick ----------

  /** Between two callbacks. */
  ghost predicate Resting(w: Wheel, rest: seq<nat>)
    reads w
  {
    w.currentMs > 0 && Linked(w.slots, w.index, rest) && w.Sound() && TracksFire(w.index, w.due, w.currentMs, rest)
  }

  lemma RoomFor(index: map<nat, Entry>, id: nat)
    requires id in index
    ensures |index - {id}| + 1 == |index|
  {
    assert index.Keys == (index - {id}).Keys + {id};
    assert |index| == |index.Keys| && |index - {id}| == |(index - {id}).Keys|;
  }

  /** The first timer leaves the index. */
  method PopOne(w: Wheel, id: nat, ghost rest: seq<nat>)
    requires Resting(w, [id] + rest)
    modifies w
    ensures Walking(w, rest) && w.View() == old(w.View()).(due := old(w.View()).due - {id})
  {
    assert id in [id] + rest;
    RoomFor(w.index, id);
    PopFront(w.slots, w.index, rest, id);
    FirePop(w.index, w.due, w.currentMs, id, rest);
    var fired := w.FireEntry(id, rest);
    w.due := w.due - {id};
  }

  /** One timer: it leaves the index, and its callback runs. */
  method FireOne(w: Wheel, id: nat, rest: seq<nat>, acts: seq<Act>) returns (rest': seq<nat>)
    requires Resting(w, [id] + rest)
    modifies w
    ensures Resting(w, rest') && rest' == Left(rest, acts)
    ensures w.View() == ActAll(old(w.View()).(due := old(w.View()).due - {id}), acts)
  {
    PopOne(w, id, rest);
    rest' := RunCallback(w, acts, rest);
  }

  /** What has fired and what is left amount to the whole walk. */
  ghost predicate Underway(s: Table, rest: seq<nat>, log: seq<Firing>, s0: Table, list: seq<nat>, script: Script) {
    && (Safe(rest, script) <==> Safe(list, script))
    && FireAll(s0, list, script) == (FireAll(s, rest, script).0, log + FireAll(s, rest, script).1)
  }

  lemma TurnTaken(s: Table, id: nat, rest: seq<nat>, log: seq<Firing>, s0: Table, list: seq<nat>, script: Script)
    requires Underway(s, [id] + rest, log, s0, list, script) && (rest != [] ==> Halt(rest[0]) !in script(id))
    ensures Underway(ActAll(s.(due := s.due - {id}), script(id)), Left(rest, script(id)), log + [Firing(id, s.now)], s0, list, script)
  {
    assert ([id] + rest)[1..] == rest;
    var r := FireAll(ActAll(s.(due := s.due - {id}), script(id)), Left(rest, script(id)), script);
    Assoc(log, [Firing(id, s.now)], r.1);
  }

  /** The loop of `fire_slot` over the detached list; it stops where it would go on to a node that was freed. */
  method FireList(w: Wheel, list: seq<nat>, script: Script) returns (log: seq<Firing>, fault: bool)
    requires Resting(w, list)
    modifies w
    ensures fault <==> !Safe(list, script)
    ensures !fault ==> Resting(w, []) && (w.View(), log) == FireAll(old(w.View()), list, script)
  {
    log, fault := [], false;
    var rest := list;
    assert Underway(w.View(), rest, [], w.View(), list, script) by { assert [] + FireAll(w.View(), list, script).1 == FireAll(w.View(), list, script).1; }
    while rest != []
      invariant Resting(w, rest) && Underway(w.View(), rest, log, old(w.View()), list, script)
      decreases |rest|
    {
      var id, behind := rest[0], rest[1..];
      assert rest == [id] + behind;
      if behind != [] && Halt(behind[0]) in script(id) {
        fault := true;
        return;
      }
      TurnTaken(w.View(), id, behind, log, old(w.View()), list, script);
      log := log + [Firing(id, w.currentMs)];
      rest := FireOne(w, id, behind, script(id));
    }
    assert log + [] == log;
  }

  /** One millisecond: level zero fires, in the order the list has; then the cascades. */
  method Step(w: Wheel, script: Script) returns (log: seq<Firing>, fault: bool, ghost list: seq<nat>)
    requires w.Valid()
    modifies w
    ensures DueThen(old(w.due), old(w.currentMs) + 1, list) && (fault <==> !Safe(list, script))
    ensures !fault ==>
              w.Valid() && (w.View(), log) == FireAll(old(w.View()).(now := old(w.currentMs) + 1), list, script)
  {
    w.currentMs := w.currentMs + 1;
    var ids := w.TakeList(0, w.currentMs % 256);
    FireStart(w.index, w.due, w.currentMs, ids);
    list := ids;
    log, fault := FireList(w, ids, script);
    if !fault {
      FireEnd(w.index, w.due, w.currentMs);
      w.CascadeLevels();
    }
  }

  /** The table after some instants, with the callbacks run so far; used only where the key is turned. */
  ghost predicate Ticked(s0: Table, s: Table, log: seq<Firing>, lists: seq<Order>, script: Script) {
    forall key {:trigger Unfold(key)} :: Unfold(key) ==> Orders(s0, lists, script) && (s, log) == TickAll(s0, lists, script)
  }

  ghost predicate Ordered(s0: Table, lists: seq<Order>, script: Script) {
    forall key {:trigger Unfold(key)} :: Unfold(key) ==> Orders(s0, lists, script)
  }

  lemma OrdersMore(s0: Table, s: Table, log: seq<Firing>, lists: seq<Order>, list: Order, script: Script)
    requires Ticked(s0, s, log, lists, script) && DueThen(s.due, s.now + 1, list.ids)
    ensures Ordered(s0, lists + [list], script)
  {
    assert Unfold(true);
    assert (lists + [list])[..|lists|] == lists;
  }

  lemma TickedMore(s0: Table, s: Table, log: seq<Firing>, lists: seq<Order>, list: Order, now: (Table, seq<Firing>), script: Script)
    requires Ticked(s0, s, log, lists, script) && Ordered(s0, lists + [list], script)
    requires now == FireAll(s.(now := s.now + 1), list.ids, script)
    ensures Ticked(s0, now.0, log + now.1, lists + [list], script)
  {
    assert Unfold(true);
    TickAllMore(s0, lists, list, script);
  }

  lemma SafeMore(lists: seq<Order>, list: Order, script: Script)
    ensures SafeAll(lists + [list], script) <==> SafeAll(lists, script) && Safe(list.ids, script)
  {
    var more := lists + [list];
    assert more[|lists|] == list && forall k :: 0 <= k < |lists| ==> more[k] == lists[k];
  }

  /** One iteration of the loop of `tick`, with the callbacks run so far. */
  method StepTicked(w: Wheel, script: Script, ghost s0: Table, log: seq<Firing>, ghost lists: seq<Order>)
      returns (log': seq<Firing>, fault: bool, ghost lists': seq<Order>)
    requires w.Valid() && Ticked(s0, w.View(), log, lists, script) && SafeAll(lists, script)
    modifies w
    ensures |lists'| == |lists| + 1 && Ordered(s0, lists', script) && (fault <==> !SafeAll(lists', script))
    ensures !fault ==> w.Valid() && Ticked(s0, w.View(), log', lists', script)
  {
    ghost var before := w.View();
    var now;
    ghost var ids;
    now, fault, ids := Step(w, script);
    ghost var list := Order(ids);
    SafeMore(lists, list, script);
    OrdersMore(s0, before, log, lists, list, script);
    lists', log' := lists + [list], log + now;
    if !fault { TickedMore(s0, before, log, lists, list, (w.View(), now), script); }
  }

  /** `tick`, with callbacks that cancel and schedule: as long as no callback cancels the timer then next in line, every
      timer that is due and not cancelled fires at its instant, and the wheel is the table those acts make. */
  method Tick(w: Wheel, elapsed: nat, script: Script) returns (log: seq<Firing>, fault: bool, ghost lists: seq<Order>)
    requires w.Valid()
    modifies w
    ensures Orders(old(w.View()), lists, script) && (fault <==> !SafeAll(lists, script))
    ensures !fault ==> |lists| == elapsed && w.Valid() && (w.View(), log) == TickAll(old(w.View()), lists, script)
  {
    ghost var s0 := w.View();
    log, fault, lists := [], false, [];
    var k := 0;
    while k < elapsed && !fault
      invariant k <= elapsed && |lists| == k && Ordered(s0, lists, script) && (fault <==> !SafeAll(lists, script))
      invariant !fault ==> w.Valid() && Ticked(s0, w.View(), log, lists, script)
    {
      log, fault, lists := StepTicked(w, script, s0, log, lists);
      k := k + 1;
    }
    assert Unfold(true);
  }

  // ---------- The walk along the nodes ----------

  function ToWalk(acts: seq<Act>): seq<SlotWalk.Act> {
    if acts == [] then [] else [if acts[0].Halt? then SlotWalk.Cancel(acts[0].id) else SlotWalk.Schedule] + ToWalk(acts[1..])
  }

  lemma {:induction false} ToWalkIn(acts: seq<Act>, id: nat)
    ensures SlotWalk.Cancel(id) in ToWalk(acts) <==> Halt(id) in acts
  {
    if acts != [] {
      ToWalkIn(acts[1..], id);
      assert acts == [acts[0]] + acts[1..];
    }
  }

  lemma {:induction false} DropAt(list: seq<nat>, id: nat, k: nat)
    requires k < |list| && list[k] == id && id !in list[..k] && id !in list[k + 1..]
    ensures Drop(list, id) == list[..k] + list[k + 1..]
  {
    var tail := list[1..];
    if k == 0 {
      SameList(tail, id);
      assert list[..0] + tail == tail;
    } else {
      assert list[0] == list[..k][0] && list[..k] == [list[0]] + tail[..k - 1] && list[k + 1..] == tail[k..];
      DropAt(tail, id, k - 1);
      Assoc([list[0]], tail[..k - 1], tail[k..]);
    }
  }

  lemma DropIsWithout(list: seq<nat>, id: nat)
    requires NoDup(list) && id in list
    ensures Drop(list, id) == SlotWalk.Without(list, SlotWalk.IndexIn(list, id))
  {
    DropAt(list, id, SlotWalk.IndexIn(list, id));
  }

  lemma {:induction false} LeftIsWalked(l: SlotWalk.Lists, acts: seq<Act>)
    requires SlotWalk.Separate(l)
    ensures SlotWalk.ObeyAll(l, ToWalk(acts)).rest == Left(l.rest, acts)
    decreases |acts|
  {
    if acts != [] {
      var act := ToWalk(acts)[0];
      assert ToWalk(acts)[1..] == ToWalk(acts[1..]);
      SlotWalk.ObeySeparate(l, act);
      if acts[0].Halt? {
        if acts[0].id in l.rest { DropIsWithout(l.rest, acts[0].id); } else { SameList(l.rest, acts[0].id); }
      }
      LeftIsWalked(SlotWalk.Obey(l, act), acts[1..]);
    }
  }

  function Ids(log: seq<Firing>): seq<nat> {
    if log == [] then [] else [log[0].id] + Ids(log[1..])
  }

  /** The same timers fire, and under the same condition, as on the walk along the linked nodes of a slot. */
  lemma {:induction false} WalksAlike(l: SlotWalk.Lists, s: Table, script: Script, walk: SlotWalk.Script)
    requires SlotWalk.Separate(l) && forall id :: walk(id) == ToWalk(script(id))
    ensures SlotWalk.Safe(l, walk) <==> Safe(l.rest, script)
    ensures SlotWalk.Fired(l, walk) == Ids(FireAll(s, l.rest, script).1)
    decreases |l.rest|
  {
    if l.rest != [] {
      var id := l.rest[0];
      var behind := l.(rest := l.rest[1..]);
      assert SlotWalk.Separate(behind);
      LeftIsWalked(behind, script(id));
      SlotWalk.ObeyAllSeparate(behind, walk(id));
      if |l.rest| > 1 { ToWalkIn(script(id), l.rest[1]); }
      WalksAlike(SlotWalk.Behind(l, walk), ActAll(s.(due := s.due - {id}), script(id)), script, walk);
      var log := FireAll(s, l.rest, script).1;
      assert log[0].id == id && log[1..] == FireAll(ActAll(s.(due := s.due - {id}), script(id)), Left(l.rest[1..], script(id)), script).1;
    }
  }
}
