/** The four-level hierarchical timing wheel, and the flat table of deadlines it refines. */
module TimerWheel {

  import opened Text

  const LEVELS := 4
  const SLOTS_PER_LEVEL := 256
  const INVALID_ID := 0

  /** The width of one slot of a level, in milliseconds. */
  function SlotMs(level: nat): nat {
    if level == 0 then 1 else if level == 1 then 256 else if level == 2 then 65536 else 16777216
  }

  /** Whether an instant is on a slot boundary of a level. */
  predicate Boundary(t: nat, level: nat) {
    if level == 0 then true
    else if level == 1 then t % 256 == 0
    else if level == 2 then t % 65536 == 0
    else t % 16777216 == 0
  }

  /** The slot of a level that covers a deadline. */
  function SlotOf(expiry: nat, level: nat): nat {
    if level == 0 then expiry % 256
    else if level == 1 then expiry / 256 % 256
    else if level == 2 then expiry / 65536 % 256
    else expiry / 16777216 % 256
  }

  /** A pending timer, with the place of the list it is linked into. */
  datatype Entry = Entry(expiry: nat, level: nat, slot: nat)

  /** The level and slot that `insert` picks for a deadline when the clock shows `now`. */
  function Place(expiry: nat, now: nat): Entry {
    var delta := if expiry > now then expiry - now else 0;
    var level := if delta >= SlotMs(3) then 3 else if delta >= SlotMs(2) then 2 else if delta >= SlotMs(1) then 1 else 0;
    Entry(expiry, level, SlotOf(expiry, level))
  }

  /** Each level's slots are as wide as a whole round of the level below. */
  lemma WidthsNest(level: nat)
    requires level < 3
    ensures SlotMs(0) == 1 && SlotMs(level + 1) == SLOTS_PER_LEVEL * SlotMs(level)
  {
  }

  /** An entry goes to the highest level whose slots are no wider than the time that is left, and there to the slot that
      covers its deadline. */
  lemma PlaceIs(expiry: nat, now: nat, level: nat)
    requires level <= 3
    ensures var e, delta := Place(expiry, now), if expiry > now then expiry - now else 0;
            && (e.level == level <==> (level == 0 || SlotMs(level) <= delta) && (level == 3 || delta < SlotMs(level + 1)))
            && e.expiry == expiry && e.slot == expiry / SlotMs(e.level) % SLOTS_PER_LEVEL
  {
  }

  // ---------- When a timer fires ----------

  /** The instant at which an upper-level entry is handed down. */
  function CascadeAt(e: Entry): nat {
    if e.level == 0 then e.expiry
    else if e.level == 1 then e.expiry / 256 * 256
    else if e.level == 2 then e.expiry / 65536 * 65536
    else e.expiry / 16777216 * 16777216
  }

  /** What holds of every linked entry once the clock shows `now`. */
  predicate Good(e: Entry, now: nat) {
    && e.level < LEVELS
    && e.slot == SlotOf(e.expiry, e.level)
    && if e.level == 0 then now < e.expiry + 256 && e.expiry < now + 256 else CascadeAt(e) > now
  }

  /** The clock value at which a linked entry will be fired. */
  function Due(e: Entry, now: nat): nat {
    if e.level == 0
    then if e.expiry > now then e.expiry else e.expiry + 256
    else if e.expiry % 256 == 0 then e.expiry + 256 else e.expiry
  }

  /** A linked entry that will fire at `due`. */
  predicate OnCourse(e: Entry, due: nat, now: nat) {
    Good(e, now) && Due(e, now) == due
  }

  /** The clock value at which a timer scheduled at `now` for `delay` milliseconds fires. */
  function FireTime(now: nat, delay: nat): nat {
    if delay == 0 || (delay >= 256 && (now + delay) % 256 == 0) then now + delay + 256 else now + delay
  }

  lemma PlaceOnCourse(expiry: nat, now: nat)
    requires now <= expiry
    ensures OnCourse(Place(expiry, now), FireTime(now, expiry - now), now)
  {
    var e := Place(expiry, now);
    if e.level == 1 { BoundaryAhead(expiry, now, 256); }
    if e.level == 2 { BoundaryAhead(expiry, now, 65536); }
    if e.level == 3 { BoundaryAhead(expiry, now, 16777216); }
  }

  lemma BoundaryAhead(expiry: nat, now: nat, width: nat)
    requires width in {256, 65536, 16777216} && expiry >= now + width
    ensures expiry / width * width > now
  {
    if width == 256 { } else if width == 65536 { } else { }
  }

  /** An entry during the step to time `t`, when the levels below `lv` have been dealt with. */
  predicate MidCourse(e: Entry, due: nat, t: nat, lv: nat) {
    OnCourse(e, due, t) || (t > 0 && e.level >= lv && OnCourse(e, due, t - 1))
  }

  /** Moving an upper-level entry on a boundary of its level does not move its firing time. */
  lemma HandDown(e: Entry, due: nat, t: nat, lv: nat)
    requires 0 < lv == e.level < LEVELS && Boundary(t, lv) && MidCourse(e, due, t, lv)
    ensures t <= e.expiry && due == FireTime(t, e.expiry - t)
  {
    BoundaryGap(e, t);
  }

  lemma BoundaryGap(e: Entry, t: nat)
    requires 0 < e.level < LEVELS && Boundary(t, e.level) && CascadeAt(e) >= t
    ensures e.expiry >= t && Boundary(t, 1)
  {
    BoundaryBelow(e);
    BoundaryNests(t, e.level, 1);
  }

  /** A boundary of a level is a boundary of every lower level. */
  lemma BoundaryNests(t: nat, level: nat, lv: nat)
    requires Boundary(t, level) && lv <= level < LEVELS
    ensures Boundary(t, lv)
  {
    if level == 2 {
      assert t == t / 65536 * 256 * 256;
    } else if level == 3 {
      assert t == t / 16777216 * 65536 * 256;
      assert t == t / 16777216 * 256 * 65536;
    }
  }

  /** An upper-level entry that the step to `t` leaves where it is stays on course. */
  lemma NotVisited(e: Entry, due: nat, t: nat, lv: nat)
    requires t > 0 && 0 < lv <= e.level && MidCourse(e, due, t, lv)
    requires !Boundary(t, lv) || (e.level == lv && e.slot != SlotOf(t, lv))
    ensures OnCourse(e, due, t)
  {
    if CascadeAt(e) == t {
      OnBoundary(e);
      BoundaryNests(t, e.level, lv);
    }
  }

  lemma OnBoundary(e: Entry)
    requires 0 < e.level < LEVELS
    ensures Boundary(CascadeAt(e), e.level) && SlotOf(CascadeAt(e), e.level) == SlotOf(e.expiry, e.level)
  {
    if e.level == 1 {
      assert e.expiry / 256 * 256 / 256 == e.expiry / 256;
    } else if e.level == 2 {
      assert e.expiry / 65536 * 65536 / 65536 == e.expiry / 65536;
    } else {
      assert e.expiry / 16777216 * 16777216 / 16777216 == e.expiry / 16777216;
    }
  }

  /** In the step to `t`, level 0 fires exactly the entries that are due at `t`. */
  lemma LevelZeroStep(e: Entry, due: nat, t: nat)
    requires t > 0 && OnCourse(e, due, t - 1)
    ensures e.level == 0 && e.slot == t % 256 ==> due == t && e.expiry <= t
    ensures e.level == 0 && e.slot != t % 256 ==> due > t && OnCourse(e, due, t)
    ensures e.level > 0 ==> due > t
  {
    if e.level > 0 { BoundaryBelow(e); }
  }

  lemma BoundaryBelow(e: Entry)
    ensures CascadeAt(e) <= e.expiry
    ensures CascadeAt(e) == e.expiry && 0 < e.level < LEVELS ==> e.expiry % 256 == 0
  {
    if 0 < e.level < LEVELS && CascadeAt(e) == e.expiry {
      OnBoundary(e);
      BoundaryNests(e.expiry, e.level, 1);
    }
  }

  // ---------- The intrusive lists ----------

  type Lists = seq<seq<seq<nat>>>

  predicate Shape(slots: Lists) {
    |slots| == LEVELS && forall lv :: 0 <= lv < LEVELS ==> |slots[lv]| == SLOTS_PER_LEVEL
  }

  predicate InRange(lv: int, sl: int) {
    0 <= lv < LEVELS && 0 <= sl < SLOTS_PER_LEVEL
  }

  function At(slots: Lists, lv: int, sl: int): seq<nat>
    requires Shape(slots) && InRange(lv, sl)
  {
    slots[lv][sl]
  }

  predicate In(slots: Lists, lv: int, sl: int, id: nat)
    requires Shape(slots)
  {
    InRange(lv, sl) && id in At(slots, lv, sl)
  }

  function Put(slots: Lists, lv: nat, sl: nat, ids: seq<nat>): (r: Lists)
    requires Shape(slots) && InRange(lv, sl)
    ensures Shape(r) && At(r, lv, sl) == ids
    ensures forall l, s :: InRange(l, s) && (l != lv || s != sl) ==> At(r, l, s) == At(slots, l, s)
  {
    slots[lv := slots[lv][sl := ids]]
  }

  /** Each pending entry is in the list of its own level and slot, once, and nowhere else; the
      entries of a detached list `rest` are in no slot. */
  ghost predicate Linked(slots: Lists, index: map<nat, Entry>, rest: seq<nat>) {
    && Shape(slots)
    && (forall id :: id in index ==> InRange(index[id].level, index[id].slot))
    && (forall lv, sl, id {:trigger In(slots, lv, sl, id)} ::
          In(slots, lv, sl, id) ==> id in index && id !in rest && index[id].level == lv && index[id].slot == sl)
    && (forall id {:trigger In(slots, index[id].level, index[id].slot, id)} ::
          id in index && id !in rest ==> In(slots, index[id].level, index[id].slot, id))
    && (forall lv, sl {:trigger At(slots, lv, sl)} :: InRange(lv, sl) ==> NoDup(At(slots, lv, sl)))
    && NoDup(rest)
    && (forall id :: id in rest ==> id in index)
  }

  lemma Detach(slots: Lists, index: map<nat, Entry>, lv: nat, sl: nat)
    requires Linked(slots, index, []) && InRange(lv, sl)
    ensures Linked(Put(slots, lv, sl, []), index, At(slots, lv, sl))
    ensures forall id :: id in At(slots, lv, sl) <==> id in index && index[id].level == lv && index[id].slot == sl
  {
    var s' := Put(slots, lv, sl, []);
    forall id ensures id in At(slots, lv, sl) <==> id in index && index[id].level == lv && index[id].slot == sl {
      assert In(slots, lv, sl, id) <==> id in At(slots, lv, sl);
      if id in index { assert In(slots, index[id].level, index[id].slot, id); }
    }
    forall l, s, id ensures In(s', l, s, id) ==> In(slots, l, s, id) && (l != lv || s != sl) { }
    forall id | id in index && id !in At(slots, lv, sl) ensures In(s', index[id].level, index[id].slot, id) {
      assert In(slots, index[id].level, index[id].slot, id);
    }
  }

  /** Linking a detached (or new) entry at the head of a list. */
  lemma Relink(slots: Lists, index: map<nat, Entry>, rest: seq<nat>, id: nat, e: Entry)
    requires id !in index && Linked(slots, index, rest)
    requires InRange(e.level, e.slot)
    ensures Linked(Put(slots, e.level, e.slot, [id] + At(slots, e.level, e.slot)), index[id := e], rest)
  {
    var s' := Put(slots, e.level, e.slot, [id] + At(slots, e.level, e.slot));
    var index' := index[id := e];
    forall lv, sl, x | In(s', lv, sl, x)
      ensures x in index' && x !in rest && index'[x].level == lv && index'[x].slot == sl
    {
      assert x == id || In(slots, lv, sl, x);
      assert !In(slots, lv, sl, id);
    }
    forall x | x in index' && x !in rest ensures In(s', index'[x].level, index'[x].slot, x) {
      assert x != id ==> In(slots, index[x].level, index[x].slot, x);
    }
    assert !In(slots, e.level, e.slot, id);
    forall lv, sl | InRange(lv, sl) ensures NoDup(At(s', lv, sl)) {
      assert NoDup(At(slots, lv, sl));
    }
  }

  lemma PopFront(slots: Lists, index: map<nat, Entry>, rest: seq<nat>, id: nat)
    requires Linked(slots, index, [id] + rest)
    ensures id !in rest && id in index
    ensures Linked(slots, index - {id}, rest)
  {
    var all := [id] + rest;
    assert all[1..] == rest && all[0] == id;
    forall k | 0 <= k < |rest| ensures rest[k] != id { assert all[0] != all[k + 1]; }
    forall i, j | 0 <= i < j < |rest| ensures rest[i] != rest[j] { assert all[i + 1] != all[j + 1]; }
    forall x | x in index - {id} && x !in rest ensures In(slots, index[x].level, index[x].slot, x) {
      assert x !in all;
      assert In(slots, index[x].level, index[x].slot, x);
    }
    forall lv, sl, x | In(slots, lv, sl, x) ensures x in index - {id} {
      assert id in all;
    }
  }

  /** A list with one entry unlinked. */
  function Drop(list: seq<nat>, id: nat): (r: seq<nat>)
    ensures forall x :: x in r <==> x in list && x != id
    ensures NoDup(list) ==> NoDup(r)
  {
    if list == [] then []
    else
      var r := Drop(list[1..], id);
      assert list == [list[0]] + list[1..];
      assert NoDup(list) ==> NoDup(list[1..]) && list[0] !in list[1..];
      if list[0] == id then r else [list[0]] + r
  }

  lemma Unlink(slots: Lists, index: map<nat, Entry>, id: nat)
    requires Linked(slots, index, []) && id in index
    ensures Linked(Put(slots, index[id].level, index[id].slot, Drop(At(slots, index[id].level, index[id].slot), id)), index - {id}, [])
  {
    var e := index[id];
    var s' := Put(slots, e.level, e.slot, Drop(At(slots, e.level, e.slot), id));
    forall lv, sl, x | In(s', lv, sl, x) ensures In(slots, lv, sl, x) && x != id { assert In(slots, lv, sl, x); }
    forall x | x in index - {id} ensures In(s', index[x].level, index[x].slot, x) {
      assert In(slots, index[x].level, index[x].slot, x);
    }
    forall lv, sl | InRange(lv, sl) ensures NoDup(At(s', lv, sl)) {
      assert NoDup(At(slots, lv, sl));
    }
  }

  // ---------- The cached earliest expiry ----------

  /** The cached value is the earliest expiry, and some pending timer has it. */
  ghost predicate CacheExact(index: map<nat, Entry>, min: nat) {
    && (forall id :: id in index ==> min <= index[id].expiry)
    && (exists id :: id in index && index[id].expiry == min)
  }

  lemma CacheAfterInsert(index: map<nat, Entry>, min: nat, valid: bool, id: nat, e: Entry)
    requires id !in index && (valid ==> CacheExact(index, min))
    ensures valid ==> CacheExact(index[id := e], if e.expiry < min then e.expiry else min)
  {
    if valid {
      var index' := index[id := e];
      if e.expiry < min {
        assert id in index' && index'[id].expiry == e.expiry;
      } else {
        var m :| m in index && index[m].expiry == min;
        assert m in index' && index'[m].expiry == min;
      }
    }
  }

  lemma CacheAfterRemove(index: map<nat, Entry>, min: nat, valid: bool, id: nat)
    requires id in index && (valid ==> CacheExact(index, min))
    ensures valid && index[id].expiry > min ==> CacheExact(index - {id}, min)
  {
    if valid && index[id].expiry > min {
      var m :| m in index && index[m].expiry == min;
      assert m in index - {id} && (index - {id})[m].expiry == min;
    }
  }

  lemma CacheAfterMove(index: map<nat, Entry>, min: nat, valid: bool, id: nat, e: Entry)
    requires id in index && e.expiry == index[id].expiry && (valid ==> CacheExact(index, min))
    ensures valid ==> CacheExact(index[id := e], min)
  {
    if valid {
      var m :| m in index && index[m].expiry == min;
      assert m in index[id := e] && index[id := e][m].expiry == min;
    }
  }

  // ---------- The flat table of firing times ----------

  /** What a client of the wheel sees: the clock and, for each pending timer, when it fires. */
  datatype Table = Table(now: nat, nextId: nat, capacity: nat, due: map<nat, nat>)

  datatype Op = Add(delay: nat) | Remove(id: nat) | Advance(elapsed: nat)

  /** The timers that fire after `t`. */
  function Later(due: map<nat, nat>, t: nat): map<nat, nat> {
    map id | id in due && due[id] > t :: due[id]
  }

  function Apply(s: Table, op: Op): Table {
    match op
    case Add(delay) =>
      if |s.due| >= s.capacity then s
      else s.(nextId := s.nextId + 1, due := s.due[s.nextId := FireTime(s.now, delay)])
    case Remove(id) => s.(due := s.due - {id})
    case Advance(elapsed) => s.(now := s.now + elapsed, due := Later(s.due, s.now + elapsed))
  }

  function ApplyAll(s: Table, ops: seq<Op>): Table
    decreases |ops|
  {
    if ops == [] then s else ApplyAll(Apply(s, ops[0]), ops[1..])
  }

  ghost predicate Sane(s: Table) {
    && s.nextId > 0
    && forall id :: id in s.due ==> 0 < id < s.nextId && s.due[id] > s.now
  }

  /** A new timer gets the next number exactly if the pool has room; otherwise nothing changes. */
  lemma AddIff(s: Table, delay: nat)
    requires Sane(s)
    ensures var q := Apply(s, Add(delay));
            && q.now == s.now && q.capacity == s.capacity
            && (|s.due| < s.capacity ==>
                  && q.nextId == s.nextId + 1 && q.due.Keys == s.due.Keys + {s.nextId} && s.nextId !in s.due
                  && (forall id :: id in s.due ==> q.due[id] == s.due[id]))
            && (|s.due| >= s.capacity ==> q == s)
  {
  }

  lemma {:induction false} PoolHolds(s: Table, ops: seq<Op>)
    requires |s.due| <= s.capacity
    ensures |ApplyAll(s, ops).due| <= s.capacity == ApplyAll(s, ops).capacity
    decreases |ops|
  {
    if ops != [] {
      var q := Apply(s, ops[0]);
      SizeAfter(s, ops[0]);
      PoolHolds(q, ops[1..]);
    }
  }

  lemma SizeAfter(s: Table, op: Op)
    requires |s.due| <= s.capacity
    ensures |Apply(s, op).due| <= s.capacity
  {
    var q := Apply(s, op);
    if op.Add? {
      assert q.due.Keys <= s.due.Keys + {s.nextId};
      FewerKeys(q.due.Keys, s.due.Keys + {s.nextId});
      assert |q.due| == |q.due.Keys| && |s.due| == |s.due.Keys|;
    } else {
      assert q.due.Keys <= s.due.Keys;
      FewerKeys(q.due.Keys, s.due.Keys);
      assert |q.due| == |q.due.Keys| && |s.due| == |s.due.Keys|;
    }
  }

  lemma FewerKeys(a: set<nat>, b: set<nat>)
    requires a <= b
    ensures |a| <= |b|
  {
    assert b == a + (b - a);
  }

  /** Whatever else is scheduled, cancelled or ticked, a timer is pending until its firing time and not after. */
  lemma {:induction false} PendingUntil(s: Table, ops: seq<Op>, id: nat)
    requires Sane(s) && id in s.due && Remove(id) !in ops
    ensures id in ApplyAll(s, ops).due <==> ApplyAll(s, ops).now < s.due[id]
    decreases |ops|
  {
    if ops != [] {
      var s' := Apply(s, ops[0]);
      if id in s'.due {
        PendingUntil(s', ops[1..], id);
      } else {
        NeverAgain(s', ops[1..], id);
      }
    }
  }

  lemma {:induction false} NeverAgain(s: Table, ops: seq<Op>, id: nat)
    requires Sane(s) && 0 < id < s.nextId && id !in s.due
    ensures id !in ApplyAll(s, ops).due && ApplyAll(s, ops).now >= s.now
    decreases |ops|
  {
    if ops != [] { NeverAgain(Apply(s, ops[0]), ops[1..], id); }
  }

  lemma AddSane(s: Table, delay: nat)
    requires Sane(s) && |s.due| < s.capacity
    ensures Sane(Apply(s, Add(delay))) && s.nextId in Apply(s, Add(delay)).due
    ensures Apply(s, Add(delay)).due[s.nextId] == FireTime(s.now, delay)
  {
  }

  lemma DeadlineIff(now: nat, delay: nat, later: nat, pending: bool)
    requires pending <==> later < FireTime(now, delay)
    ensures later == now + delay ==> (!pending <==> 0 < delay < 256 || (delay >= 256 && (now + delay) % 256 != 0))
    ensures (later < now + delay ==> pending) && (later >= now + delay + 256 ==> !pending)
  {
  }

  /** `schedule` promises to fire after the delay. At the deadline the timer has fired exactly when the
      delay is between 1 and 255, or longer with the deadline off every 256 ms boundary; otherwise it is
      still pending then, and fires 256 ms later. */
  lemma FiredAtDeadlineIff(s: Table, delay: nat, ops: seq<Op>)
    requires Sane(s) && |s.due| < s.capacity && Remove(s.nextId) !in ops
    ensures var s' := ApplyAll(Apply(s, Add(delay)), ops);
            && (s'.now == s.now + delay ==>
                  (s.nextId !in s'.due <==> 0 < delay < 256 || (delay >= 256 && (s.now + delay) % 256 != 0)))
            && (s'.now < s.now + delay ==> s.nextId in s'.due)
            && (s'.now >= s.now + delay + 256 ==> s.nextId !in s'.due)
  {
    var added := Apply(s, Add(delay));
    AddSane(s, delay);
    PendingUntil(added, ops, s.nextId);
    DeadlineIff(s.now, delay, ApplyAll(added, ops).now, s.nextId in ApplyAll(added, ops).due);
  }

  /** The documented case "0 fires on the next tick" fails: after one tick the timer is still pending. */
  lemma ZeroDelayMissesNextTick()
    ensures 1 in ApplyAll(Table(0, 1, 1, map[]), [Add(0), Advance(1)]).due
  {
    var s := Table(0, 1, 1, map[]);
    assert [Add(0), Advance(1)][1..] == [Advance(1)];
    PendingUntil(Apply(s, Add(0)), [Advance(1)], 1);
    assert ApplyAll(Apply(s, Add(0)), [Advance(1)]) == Apply(Apply(s, Add(0)), Advance(1));
  }

  // ---------- Callbacks run ----------

  /** A callback run: the timer and the clock value at which it ran. */
  datatype Firing = Firing(id: nat, at: nat)

  /** The callbacks run at one instant: exactly those due then, each once. */
  ghost predicate Fires(due: map<nat, nat>, due': map<nat, nat>, t: nat, log: seq<Firing>) {
    && (forall i :: 0 <= i < |log| ==> log[i].at == t && log[i].id in due && due[log[i].id] == t)
    && (forall i, j :: 0 <= i < j < |log| ==> log[i].id != log[j].id)
    && (forall id :: id in due && due[id] == t ==> Firing(id, t) in log)
    && (forall id :: id in due ==> due[id] >= t)
    && due' == Later(due, t)
  }

  lemma FiresList(due: map<nat, nat>, t: nat, list: seq<nat>, log: seq<Firing>)
    requires NoDup(list) && |log| == |list| && forall i :: 0 <= i < |list| ==> log[i] == Firing(list[i], t)
    requires forall id :: id in list ==> id in due
    requires forall id :: id in due ==> due[id] >= t && (id in list <==> due[id] == t)
    ensures Fires(due, Without(due, list), t, log)
  {
    forall i | 0 <= i < |log| ensures log[i].at == t && log[i].id in due && due[log[i].id] == t { assert list[i] in list; }
    forall id | id in due && due[id] == t ensures Firing(id, t) in log {
      var i :| 0 <= i < |list| && list[i] == id;
      assert log[i] == Firing(id, t);
    }
  }

  /** The callbacks run from one time to a later one: exactly the timers due in between, each once,
      each at the instant it is due, in order of time. */
  ghost predicate Ran(due: map<nat, nat>, from: nat, to: nat, log: seq<Firing>) {
    && (forall i :: 0 <= i < |log| ==> from < log[i].at <= to && log[i].id in due && due[log[i].id] == log[i].at)
    && (forall i, j :: 0 <= i < j < |log| ==> log[i].id != log[j].id && log[i].at <= log[j].at)
    && (forall id :: id in due && due[id] <= to ==> Firing(id, due[id]) in log)
  }

  lemma RanOn(due: map<nat, nat>, from: nat, mid: map<nat, nat>, t: nat, mid': map<nat, nat>, log: seq<Firing>, now: seq<Firing>)
    requires from <= t && Ran(due, from, t, log)
    requires mid == Later(due, t)
    requires Fires(mid, mid', t + 1, now)
    ensures Ran(due, from, t + 1, log + now)
    ensures mid' == Later(due, t + 1)
  {
    var all := log + now;
    forall i | 0 <= i < |all| ensures from < all[i].at <= t + 1 && all[i].id in due && due[all[i].id] == all[i].at {
      if i >= |log| { assert all[i] == now[i - |log|]; }
    }
    forall i, j | 0 <= i < j < |all| ensures all[i].id != all[j].id && all[i].at <= all[j].at {
      if i >= |log| { assert all[i] == now[i - |log|]; }
      if j >= |log| { assert all[j] == now[j - |log|]; }
    }
    forall id | id in due && due[id] <= t + 1 ensures Firing(id, due[id]) in all {
      if due[id] > t { assert id in mid && mid[id] == t + 1; }
    }
  }

  // ---------- The wheel against its table of firing times ----------

  /** Every pending timer is on course for the firing time the table gives it. */
  ghost predicate Tracks(index: map<nat, Entry>, due: map<nat, nat>, now: nat) {
    && index.Keys == due.Keys
    && forall id {:trigger OnCourse(index[id], due[id], now)} :: id in index ==> OnCourse(index[id], due[id], now)
  }

  /** The same during the step to `t`, when the levels below `lv` have been dealt with. */
  ghost predicate TracksMid(index: map<nat, Entry>, due: map<nat, nat>, t: nat, lv: nat) {
    && index.Keys == due.Keys
    && forall id {:trigger MidCourse(index[id], due[id], t, lv)} :: id in index ==> MidCourse(index[id], due[id], t, lv)
  }

  /** The entry chosen by `insert`: it fires when a timer scheduled now for its deadline would. */
  ghost predicate Chosen(e: Entry, expiry: nat, now: nat) {
    expiry >= now && e.expiry == expiry && InRange(e.level, e.slot) && Tracks(map[0 := e], map[0 := FireTime(now, expiry - now)], now)
  }

  lemma PlaceIsChosen(expiry: nat, now: nat)
    requires now <= expiry
    ensures Chosen(Place(expiry, now), expiry, now)
  {
    PlaceOnCourse(expiry, now);
  }

  lemma ScheduleTracks(index: map<nat, Entry>, due: map<nat, nat>, now: nat, id: nat, e: Entry, delay: nat)
    requires Tracks(index, due, now) && Chosen(e, now + delay, now)
    ensures Tracks(index[id := e], due[id := FireTime(now, delay)], now)
  {
    var index', due' := index[id := e], due[id := FireTime(now, delay)];
    forall x | x in index' ensures OnCourse(index'[x], due'[x], now) {
      assert x != id ==> OnCourse(index[x], due[x], now);
      assert OnCourse(map[0 := e][0], map[0 := FireTime(now, delay)][0], now);
    }
  }

  lemma CancelTracks(index: map<nat, Entry>, due: map<nat, nat>, now: nat, id: nat)
    requires Tracks(index, due, now)
    ensures Tracks(index - {id}, due - {id}, now)
  {
    forall x | x in index - {id} ensures OnCourse((index - {id})[x], (due - {id})[x], now) {
      assert OnCourse(index[x], due[x], now);
    }
  }

  lemma FireExpired(index: map<nat, Entry>, due: map<nat, nat>, t: nat, list: seq<nat>)
    requires t > 0 && Tracks(index, due, t - 1)
    requires forall id :: id in list <==> id in index && index[id].level == 0 && index[id].slot == t % 256
    ensures forall id :: id in list ==> id in index && index[id].expiry <= t
  {
    forall id | id in list ensures index[id].expiry <= t {
      assert OnCourse(index[id], due[id], t - 1);
      LevelZeroStep(index[id], due[id], t);
    }
  }

  /** Level 0 fires exactly the timers due at `t`; the others are on course or await their cascade. */
  lemma FireTracks(index: map<nat, Entry>, due: map<nat, nat>, t: nat, list: seq<nat>, log: seq<Firing>)
    requires t > 0 && Tracks(index, due, t - 1)
    requires forall id :: id in list <==> id in index && index[id].level == 0 && index[id].slot == t % 256
    requires NoDup(list) && |log| == |list| && forall i :: 0 <= i < |list| ==> log[i] == Firing(list[i], t)
    ensures TracksMid(Without(index, list), Without(due, list), t, 1)
    ensures Fires(due, Without(due, list), t, log)
  {
    forall id | id in index
      ensures id in list ==> due[id] == t
      ensures id !in list ==> due[id] > t && MidCourse(index[id], due[id], t, 1)
    {
      assert OnCourse(index[id], due[id], t - 1);
      LevelZeroStep(index[id], due[id], t);
    }
    FiresList(due, t, list, log);
  }

  function Without<V>(m: map<nat, V>, ids: seq<nat>): map<nat, V> {
    map id | id in m && id !in ids :: m[id]
  }

  lemma WithoutNext<V>(m: map<nat, V>, list: seq<nat>, k: nat)
    requires k < |list|
    ensures Without(m, list[..k]) - {list[k]} == Without(m, list[..k + 1])
  {
    assert list[..k + 1] == list[..k] + [list[k]];
  }

  /** During the cascade of level `lv`: the detached entries still wait, the others are dealt with. */
  ghost predicate TracksCascade(index: map<nat, Entry>, due: map<nat, nat>, t: nat, lv: nat, rest: seq<nat>) {
    && index.Keys == due.Keys
    && (forall id {:trigger MidCourse(index[id], due[id], t, lv + 1)} :: id in index && id !in rest ==> MidCourse(index[id], due[id], t, lv + 1))
    && (forall id :: id in rest ==> id in index && index[id].level == lv)
    && (forall id {:trigger MidCourse(index[id], due[id], t, lv)} :: id in rest ==> MidCourse(index[id], due[id], t, lv))
  }

  lemma CascadeStart(index: map<nat, Entry>, due: map<nat, nat>, t: nat, lv: nat, rest: seq<nat>)
    requires t > 0 && 0 < lv && TracksMid(index, due, t, lv)
    requires forall id :: id in rest <==> id in index && index[id].level == lv && index[id].slot == SlotOf(t, lv)
    ensures TracksCascade(index, due, t, lv, rest)
  {
    forall id | id in index && id !in rest ensures MidCourse(index[id], due[id], t, lv + 1) {
      assert MidCourse(index[id], due[id], t, lv);
      if index[id].level == lv { NotVisited(index[id], due[id], t, lv); }
    }
  }

  lemma CascadeExpiry(index: map<nat, Entry>, due: map<nat, nat>, t: nat, lv: nat, rest: seq<nat>, id: nat)
    requires 0 < lv && Boundary(t, lv) && TracksCascade(index, due, t, lv, rest) && id in rest
    ensures t <= index[id].expiry && due[id] == FireTime(t, index[id].expiry - t)
  {
    assert MidCourse(index[id], due[id], t, lv);
    HandDown(index[id], due[id], t, lv);
  }

  lemma CascadeMove(index: map<nat, Entry>, due: map<nat, nat>, t: nat, lv: nat, id: nat, rest: seq<nat>, e: Entry)
    requires 0 < lv && Boundary(t, lv) && TracksCascade(index, due, t, lv, [id] + rest) && id !in rest
    requires Chosen(e, index[id].expiry, t)
    ensures TracksCascade(index[id := e], due, t, lv, rest)
  {
    CascadeExpiry(index, due, t, lv, [id] + rest, id);
    var index' := index[id := e];
    forall x | x in index' && x !in rest ensures MidCourse(index'[x], due[x], t, lv + 1) {
      if x == id {
        assert OnCourse(map[0 := e][0], map[0 := due[id]][0], t);
      } else {
        assert MidCourse(index[x], due[x], t, lv + 1);
      }
    }
    forall x | x in rest ensures x in index' && index'[x].level == lv && MidCourse(index'[x], due[x], t, lv) {
      assert x in [id] + rest;
      assert MidCourse(index[x], due[x], t, lv);
    }
  }

  lemma CascadeEnd(index: map<nat, Entry>, due: map<nat, nat>, t: nat, lv: nat)
    requires TracksCascade(index, due, t, lv, [])
    ensures TracksMid(index, due, t, lv + 1)
  {
  }

  /** Once a level is not on a boundary (or all levels are done) the step is over. */
  lemma StepEnds(index: map<nat, Entry>, due: map<nat, nat>, t: nat, lv: nat)
    requires t > 0 && 0 < lv && TracksMid(index, due, t, lv) && (lv >= LEVELS || !Boundary(t, lv))
    ensures Tracks(index, due, t)
  {
    forall id | id in index ensures OnCourse(index[id], due[id], t) {
      assert MidCourse(index[id], due[id], t, lv);
      if lv < LEVELS && index[id].level >= lv { NotVisited(index[id], due[id], t, lv); }
    }
  }

  lemma SizesAgree(index: map<nat, Entry>, due: map<nat, nat>, now: nat)
    requires Tracks(index, due, now)
    ensures |index| == |due|
  {
    assert |index| == |index.Keys| && |due| == |due.Keys|;
  }

  lemma DueAhead(index: map<nat, Entry>, due: map<nat, nat>, now: nat)
    requires Tracks(index, due, now)
    ensures forall id :: id in due ==> due[id] > now
  {
    forall id | id in due ensures due[id] > now {
      assert OnCourse(index[id], due[id], now);
      BoundaryBelow(index[id]);
    }
  }

  class Wheel {
    var slots: Lists
    var index: map<nat, Entry>
    var currentMs: nat
    var nextId: nat
    var cachedMinExpiry: nat
    var minValid: bool
    const poolCapacity: nat
    ghost var due: map<nat, nat>

    ghost predicate Valid() reads this {
      && Linked(slots, index, [])
      && Tracks(index, due, currentMs)
      && Sound()
    }

    /** Just after the clock has moved: every entry is still where the previous instant left it. */
    ghost predicate Valid0() reads this {
      currentMs > 0 && Linked(slots, index, []) && Tracks(index, due, currentMs - 1) && Sound()
    }

    ghost predicate Sound() reads this {
      && (forall id :: id in index ==> 0 < id < nextId)
      && |index| <= poolCapacity
      && nextId > 0
      && (minValid ==> CacheExact(index, cachedMinExpiry))
    }

    ghost function View(): Table reads this { Table(currentMs, nextId, poolCapacity, due) }

    constructor (poolCapacity: nat)
      ensures Valid() && View() == Table(0, 1, poolCapacity, map[])
    {
      slots := seq(LEVELS, _ => seq(SLOTS_PER_LEVEL, _ => []));
      index, due := map[], map[];
      currentMs, nextId, cachedMinExpiry, minValid := 0, 1, 0, false;
      this.poolCapacity := poolCapacity;
    }

    /** The search of `insert` for the level of a deadline, from the top. */
    method Pick(expiry: nat) returns (e: Entry)
      requires currentMs <= expiry
      ensures Chosen(e, expiry, currentMs)
    {
      var delta := if expiry > currentMs then expiry - currentMs else 0;
      var level := 0;
      var l := LEVELS - 1;
      while l > 0
        invariant 0 <= l < LEVELS && level == 0
        invariant forall k :: l < k < LEVELS ==> delta < SlotMs(k)
      {
        if delta >= SlotMs(l) {
          level := l;
          break;
        }
        l := l - 1;
      }
      e := Entry(expiry, level, SlotOf(expiry, level));
      assert e == Place(expiry, currentMs);
      PlaceIsChosen(expiry, currentMs);
    }

    /** `insert`: link an entry at the head of the list its deadline picks. */
    method Insert(id: nat, expiry: nat, ghost rest: seq<nat>) returns (ghost e: Entry)
      requires currentMs <= expiry
      requires Linked(slots, index - {id}, rest)
      modifies this`slots, this`index
      ensures Linked(slots, index, rest)
      ensures Chosen(e, expiry, currentMs) && index == old(index)[id := e]
    {
      var place := Pick(expiry);
      e := place;
      Relink(slots, index - {id}, rest, id, e);
      assert (index - {id})[id := e] == index[id := e];
      slots := Put(slots, place.level, place.slot, [id] + At(slots, place.level, place.slot));
      index := index[id := place];
    }

    method Schedule(delay: nat) returns (id: nat)
      requires Valid()
      modifies this
      ensures Valid() && View() == Apply(old(View()), Add(delay))
      ensures id == if old(|due|) < poolCapacity then old(nextId) else INVALID_ID
    {
      SizesAgree(index, due, currentMs);
      if |index| == poolCapacity { return INVALID_ID; }
      id := nextId;
      nextId := nextId + 1;
      ghost var e := InsertNew(id, currentMs + delay);
      ScheduleTracks(old(index), due, currentMs, id, e, delay);
      due := due[id := FireTime(currentMs, delay)];
    }

    /** Link a new entry and keep the cached minimum exact. */
    method InsertNew(id: nat, expiry: nat) returns (ghost e: Entry)
      requires currentMs <= expiry && Linked(slots, index, []) && Sound()
      requires 0 < id < nextId && id !in index && |index| < poolCapacity
      modifies this`slots, this`index, this`cachedMinExpiry
      ensures Linked(slots, index, []) && Sound()
      ensures Chosen(e, expiry, currentMs) && index == old(index)[id := e]
    {
      assert index - {id} == index;
      e := Insert(id, expiry, []);
      CacheAfterInsert(old(index), cachedMinExpiry, minValid, id, e);
      if minValid && expiry < cachedMinExpiry { cachedMinExpiry := expiry; }
    }

    /** `cancel`: unlink a pending timer. */
    method Cancel(id: nat) returns (found: bool)
      requires Valid()
      modifies this
      ensures Valid() && View() == Apply(old(View()), Remove(id))
      ensures found <==> id in old(due)
    {
      found := id != INVALID_ID && id in index;
      if found { RemoveEntry(id); }
      assert index == old(index) - {id};
      Forget(id, old(index));
    }

    ghost method Forget(id: nat, before: map<nat, Entry>)
      requires Linked(slots, index, []) && Sound() && Tracks(before, due, currentMs) && index == before - {id}
      modifies this`due
      ensures Valid() && View() == Apply(old(View()), Remove(id))
    {
      CancelTracks(before, due, currentMs, id);
      due := due - {id};
    }

    /** Unlink a pending entry, dropping the cached minimum if it may have been that entry's. */
    method RemoveEntry(id: nat)
      requires Linked(slots, index, []) && Sound() && id in index
      modifies this`slots, this`index, this`minValid
      ensures Linked(slots, index, []) && Sound() && index == old(index) - {id}
    {
      var e := index[id];
      Unlink(slots, index, id);
      CacheAfterRemove(index, cachedMinExpiry, minValid, id);
      slots := Put(slots, e.level, e.slot, Drop(At(slots, e.level, e.slot), id));
      index := index - {id};
      if minValid && e.expiry <= cachedMinExpiry { minValid := false; }
    }

    /** One iteration of `fire_slot`: an expired entry is run, any other is put back. */
    method FireEntry(id: nat, ghost rest: seq<nat>) returns (fired: bool)
      requires Linked(slots, index, [id] + rest) && Sound() && id in index
      modifies this`slots, this`index, this`minValid
      ensures Linked(slots, index, rest) && Sound()
      ensures fired <==> old(index)[id].expiry <= currentMs
      ensures fired ==> index == old(index) - {id}
    {
      PopFront(slots, index, rest, id);
      fired := index[id].expiry <= currentMs;
      if fired {
        CacheAfterRemove(index, cachedMinExpiry, minValid, id);
        if minValid && index[id].expiry <= cachedMinExpiry { minValid := false; }
        index := index - {id};
      } else {
        ghost var e := Insert(id, index[id].expiry, rest);
        CacheAfterMove(old(index), cachedMinExpiry, minValid, id, e);
        assert |index| == |old(index)| by { assert index.Keys == old(index).Keys; }
      }
    }

    /** The loop of `fire_slot` over a detached list of expired entries, newest first. */
    method FireList(list: seq<nat>) returns (log: seq<Firing>)
      requires Linked(slots, index, list) && Sound()
      requires forall id :: id in list ==> id in index && index[id].expiry <= currentMs
      modifies this`slots, this`index, this`minValid
      ensures Linked(slots, index, []) && Sound()
      ensures index == Without(old(index), list)
      ensures |log| == |list| && forall i :: 0 <= i < |list| ==> log[i] == Firing(list[i], currentMs)
    {
      log := [];
      assert list[0..] == list;
      var k := 0;
      while k < |list|
        invariant 0 <= k <= |list|
        invariant Linked(slots, index, list[k..]) && Sound()
        invariant index == Without(old(index), list[..k])
        invariant |log| == k && forall i :: 0 <= i < k ==> log[i] == Firing(list[i], currentMs)
      {
        var id := list[k];
        assert list[k..] == [id] + list[k + 1..];
        WithoutNext(old(index), list, k);
        var fired := FireEntry(id, list[k + 1..]);
        if fired { log := log + [Firing(id, currentMs)]; }
        k := k + 1;
      }
      assert list[..k] == list && list[k..] == [];
    }

    /** Take a whole list off its slot, as `fire_slot` and `cascade` do first. */
    method TakeList(lv: nat, sl: nat) returns (list: seq<nat>)
      requires Linked(slots, index, []) && InRange(lv, sl)
      modifies this`slots
      ensures Linked(slots, index, list)
      ensures forall id :: id in list <==> id in index && index[id].level == lv && index[id].slot == sl
    {
      list := At(slots, lv, sl);
      Detach(slots, index, lv, sl);
      slots := Put(slots, lv, sl, []);
    }

    /** `fire_slot` on level 0. */
    method FireSlot(slot: nat) returns (log: seq<Firing>)
      requires Valid0() && slot == currentMs % 256
      modifies this`slots, this`index, this`minValid, this`due
      ensures Linked(slots, index, []) && Sound()
      ensures TracksMid(index, due, currentMs, 1)
      ensures Fires(old(due), due, currentMs, log)
    {
      var list := TakeList(0, slot);
      FireExpired(index, due, currentMs, list);
      log := FireList(list);
      FireTracks(old(index), due, currentMs, list, log);
      due := Without(due, list);
    }

    /** `cascade`: re-insert every entry of an upper-level slot. */
    method Cascade(lv: nat, sl: nat)
      requires 0 < lv < LEVELS && currentMs > 0 && Boundary(currentMs, lv) && sl == SlotOf(currentMs, lv)
      requires Linked(slots, index, []) && TracksMid(index, due, currentMs, lv) && Sound()
      modifies this`slots, this`index
      ensures Linked(slots, index, []) && TracksMid(index, due, currentMs, lv + 1) && Sound()
    {
      var list := TakeList(lv, sl);
      CascadeStart(index, due, currentMs, lv, list);
      assert list[0..] == list;
      var k := 0;
      while k < |list|
        invariant 0 <= k <= |list|
        invariant Linked(slots, index, list[k..]) && Sound()
        invariant TracksCascade(index, due, currentMs, lv, list[k..])
      {
        assert list[k..] == [list[k]] + list[k + 1..];
        CascadeEntry(lv, list[k], list[k + 1..]);
        k := k + 1;
      }
      assert list[k..] == [];
      CascadeEnd(index, due, currentMs, lv);
    }

    /** One iteration of `cascade`. */
    method CascadeEntry(lv: nat, id: nat, ghost rest: seq<nat>)
      requires 0 < lv < LEVELS && Boundary(currentMs, lv)
      requires Linked(slots, index, [id] + rest) && Sound()
      requires TracksCascade(index, due, currentMs, lv, [id] + rest)
      modifies this`slots, this`index
      ensures Linked(slots, index, rest) && Sound()
      ensures TracksCascade(index, due, currentMs, lv, rest)
    {
      ghost var before := index;
      CascadeExpiry(index, due, currentMs, lv, [id] + rest, id);
      PopFront(slots, index, rest, id);
      ghost var e := Insert(id, index[id].expiry, rest);
      CascadeMove(before, due, currentMs, lv, id, rest, e);
      CacheAfterMove(before, cachedMinExpiry, minValid, id, e);
      assert index.Keys == before.Keys;
    }

    /** The cascades of one step of `tick`: upper levels, as long as the instant is on their boundary. */
    method CascadeLevels()
      requires currentMs > 0
      requires Linked(slots, index, []) && TracksMid(index, due, currentMs, 1) && Sound()
      modifies this`slots, this`index
      ensures Valid()
    {
      var lv := 1;
      while lv < LEVELS
        invariant 1 <= lv <= LEVELS
        invariant Linked(slots, index, []) && TracksMid(index, due, currentMs, lv) && Sound()
      {
        if !Boundary(currentMs, lv) { break; }
        Cascade(lv, SlotOf(currentMs, lv));
        lv := lv + 1;
      }
      StepEnds(index, due, currentMs, lv);
    }

    /** One iteration of the loop of `tick`: advance the clock by a millisecond. */
    method Step() returns (log: seq<Firing>)
      requires Valid()
      modifies this`slots, this`index, this`minValid, this`due, this`currentMs
      ensures Valid() && currentMs == old(currentMs) + 1
      ensures Fires(old(due), due, currentMs, log)
    {
      currentMs := currentMs + 1;
      log := FireSlot(currentMs % 256);
      CascadeLevels();
    }

    /** `tick`: run every timer that is due by the new time, each once, at its own instant, in order of time. */
    method Tick(elapsed: nat) returns (log: seq<Firing>)
      requires Valid()
      modifies this
      ensures Valid() && View() == Apply(old(View()), Advance(elapsed))
      ensures Ran(old(due), old(currentMs), currentMs, log)
    {
      var target := currentMs + elapsed;
      log := [];
      DueAhead(index, due, currentMs);
      assert due == Later(due, currentMs);
      while currentMs < target
        invariant old(currentMs) <= currentMs <= target && Valid() && nextId == old(nextId)
        invariant due == Later(old(due), currentMs) && Ran(old(due), old(currentMs), currentMs, log)
      {
        log := StepLogged(log, old(due), old(currentMs));
      }
    }

    /** One iteration of the loop of `tick`, with the callbacks run so far. */
    method StepLogged(log: seq<Firing>, ghost due0: map<nat, nat>, ghost from: nat) returns (log': seq<Firing>)
      requires Valid() && from <= currentMs
      requires due == Later(due0, currentMs) && Ran(due0, from, currentMs, log)
      modifies this`slots, this`index, this`minValid, this`due, this`currentMs
      ensures Valid() && currentMs == old(currentMs) + 1
      ensures due == Later(due0, currentMs) && Ran(due0, from, currentMs, log')
    {
      var now := Step();
      RanOn(due0, from, old(due), old(currentMs), due, log, now);
      log' := log + now;
    }

    /** `next_expiry_ms`: the time to the earliest deadline, or `None` when no timer is pending. */
    method NextExpiryMs() returns (wait: Option<nat>)
      requires Valid()
      modifies this`cachedMinExpiry, this`minValid
      ensures Valid()
      ensures wait == None <==> index == map[]
      ensures wait.Some? ==> CacheExact(index, cachedMinExpiry)
      ensures wait.Some? ==> wait.value == if cachedMinExpiry <= currentMs then 0 else cachedMinExpiry - currentMs
    {
      if |index| == 0 { return None; }
      if !minValid {
        var keys := index.Keys;
        var id :| id in keys;
        var earliest := index[id].expiry;
        keys := keys - {id};
        while keys != {}
          invariant keys <= index.Keys
          invariant exists m :: m in index && index[m].expiry == earliest
          invariant forall m :: m in index && m !in keys ==> earliest <= index[m].expiry
        {
          var next :| next in keys;
          if index[next].expiry < earliest { earliest := index[next].expiry; }
          keys := keys - {next};
        }
        cachedMinExpiry := earliest;
        minValid := true;
      }
      wait := Some(if cachedMinExpiry <= currentMs then 0 else cachedMinExpiry - currentMs);
    }
  }
}
