/** The walk of `fire_slot` along the list of a slot, node by node, with callbacks that cancel and schedule timers. */
module SlotWalk {
  import opened Text

  /** The nodes in use, with their links; `head` is the slot's new list. Timers elsewhere in the wheel are on
      other lists. A node is called by its timer's id, which is never used again. */
  datatype Heap = Heap(next: map<nat, Option<nat>>, prev: map<nat, Option<nat>>, index: set<nat>, head: Option<nat>, nextId: nat)

  /** What a callback does; a timer it schedules goes into this slot. */
  datatype Act = Cancel(id: nat) | Schedule

  type Script = nat -> seq<Act>

  predicate Alive(h: Heap, x: nat) { x in h.next && x in h.prev }

  /** `unlink`. */
  function Unlink(h: Heap, x: nat): Heap
    requires Alive(h, x)
  {
    var p, n := h.prev[x], h.next[x];
    var next := if p.Some? then h.next[p.value := n] else h.next;
    var prev := if n.Some? then h.prev[n.value := p] else h.prev;
    h.(next := next[x := None], prev := prev[x := None], head := if p.Some? then h.head else n)
  }

  function Free(h: Heap, x: nat): Heap { h.(next := h.next - {x}, prev := h.prev - {x}) }

  function CancelNode(h: Heap, x: nat): Heap
    requires x in h.index ==> Alive(h, x)
  {
    if x !in h.index then h else Free(Unlink(h.(index := h.index - {x}), x), x)
  }

  /** `insert` at the head. */
  function ScheduleNode(h: Heap): Heap {
    var x := h.nextId;
    Heap(h.next[x := h.head], (if h.head.Some? then h.prev[h.head.value := Some(x)] else h.prev)[x := None],
         h.index + {x}, Some(x), x + 1)
  }

  // ---------- Lists ----------

  function At(c: seq<nat>, i: nat): Option<nat> { if i < |c| then Some(c[i]) else None }

  function Before(c: seq<nat>, i: nat, first: Option<nat>): Option<nat>
    requires i <= |c|
  {
    if i == 0 then first else Some(c[i - 1])
  }

  predicate Placed(h: Heap, c: seq<nat>, first: Option<nat>, i: nat)
    requires i < |c|
  {
    Alive(h, c[i]) && h.next[c[i]] == At(c, i + 1) && h.prev[c[i]] == Before(c, i, first)
  }

  /** The nodes of `c` are linked both ways; the first points back to `first`. */
  predicate Linked(h: Heap, c: seq<nat>, first: Option<nat>) {
    forall i {:trigger Placed(h, c, first, i)} :: 0 <= i < |c| ==> Placed(h, c, first, i)
  }

  function Without(c: seq<nat>, k: nat): seq<nat>
    requires k < |c|
  {
    c[..k] + c[k + 1..]
  }

  lemma WithoutAt(c: seq<nat>, k: nat, i: nat)
    requires k < |c| && i < |c| - 1
    ensures Without(c, k)[i] == c[if i < k then i else i + 1]
  {}

  /** Unlinking a node leaves the list without it. */
  lemma UnlinkList(h: Heap, c: seq<nat>, first: Option<nat>, k: nat)
    requires k < |c| && Alive(h, c[k]) && Linked(h, c, first) && NoDup(c) && (first.Some? ==> first.value !in c)
    ensures Linked(Unlink(h, c[k]), Without(c, k), first)
  {
    var d := Without(c, k);
    forall i | 0 <= i < |d| ensures Placed(Unlink(h, c[k]), d, first, i) {
      var j := if i < k then i else i + 1;
      WithoutAt(c, k, i);
      if i + 1 < |d| { WithoutAt(c, k, i + 1); }
      if i > 0 { WithoutAt(c, k, i - 1); }
      UnlinkNode(h, c, first, k, j, c[j]);
    }
  }

  /** The links of another node of the list. */
  lemma UnlinkNode(h: Heap, c: seq<nat>, first: Option<nat>, k: nat, j: nat, x: nat)
    requires k < |c| && j < |c| && j != k && x == c[j] && Alive(h, c[k])
    requires Linked(h, c, first) && NoDup(c) && (first.Some? ==> first.value !in c)
    ensures var g := Unlink(h, c[k]);
            && Alive(g, x)
            && g.next[x] == (if j + 1 == k then At(c, k + 1) else At(c, j + 1))
            && g.prev[x] == (if j == k + 1 then Before(c, k, first) else Before(c, j, first))
  {
    assert Placed(h, c, first, k) && Placed(h, c, first, j);
    assert k > 0 ==> (c[k - 1] == x <==> j == k - 1);
    assert k + 1 < |c| ==> (c[k + 1] == x <==> j == k + 1);
  }

  /** Other nodes are not touched, except one that the list's first node points back to. */
  lemma UnlinkOthers(h: Heap, c: seq<nat>, first: Option<nat>, k: nat, x: nat)
    requires k < |c| && Alive(h, c[k]) && Linked(h, c, first) && Alive(h, x) && x !in c && first != Some(x)
    ensures var g := Unlink(h, c[k]); Alive(g, x) && g.next[x] == h.next[x] && g.prev[x] == h.prev[x]
  {
    assert Placed(h, c, first, k);
  }

  /** No node appears, and the head moves on only if it was the node taken out. */
  lemma UnlinkRest(h: Heap, c: seq<nat>, first: Option<nat>, k: nat)
    requires k < |c| && Alive(h, c[k]) && Linked(h, c, first) && (first.Some? ==> first.value in h.next)
    ensures var g := Unlink(h, c[k]);
            && (forall x :: x in g.next <==> x in h.next) && (forall x :: x in g.prev <==> x in h.prev)
            && g.head == (if k == 0 && first.None? then At(c, 1) else h.head)
            && g.index == h.index && g.nextId == h.nextId
  {
    assert Placed(h, c, first, k);
    assert k > 0 ==> Placed(h, c, first, k - 1);
    assert k + 1 < |c| ==> Placed(h, c, first, k + 1);
  }

  lemma UnlinkApart(h: Heap, c: seq<nat>, first: Option<nat>, k: nat, d: seq<nat>, other: Option<nat>)
    requires k < |c| && Alive(h, c[k]) && Linked(h, c, first) && Linked(h, d, other)
    requires forall i :: 0 <= i < |d| ==> d[i] !in c && first != Some(d[i])
    ensures Linked(Unlink(h, c[k]), d, other)
  {
    forall i | 0 <= i < |d| ensures Placed(Unlink(h, c[k]), d, other, i) {
      assert Placed(h, d, other, i);
      UnlinkOthers(h, c, first, k, d[i]);
    }
  }

  lemma FreeKeeps(h: Heap, x: nat, c: seq<nat>, first: Option<nat>)
    requires Linked(h, c, first) && x !in c
    ensures Linked(Free(h, x), c, first)
  {
    forall i | 0 <= i < |c| ensures Placed(Free(h, x), c, first, i) {
      assert Placed(h, c, first, i) && c[i] in c;
    }
  }

  /** Only the links matter. */
  lemma SameLinks(h: Heap, g: Heap, c: seq<nat>, first: Option<nat>)
    requires Linked(h, c, first) && g.next == h.next && g.prev == h.prev
    ensures Linked(g, c, first)
  {
    forall i | 0 <= i < |c| ensures Placed(g, c, first, i) { assert Placed(h, c, first, i); }
  }

  // ---------- The slot while a callback runs ----------

  /** What is left of the list being walked, and the slot's new list. */
  datatype Lists = Lists(rest: seq<nat>, added: seq<nat>, nextId: nat)

  predicate Separate(l: Lists) {
    && NoDup(l.rest) && NoDup(l.added)
    && (forall i :: 0 <= i < |l.added| ==> l.added[i] !in l.rest && l.added[i] < l.nextId)
    && (forall i :: 0 <= i < |l.rest| ==> l.rest[i] < l.nextId)
  }

  /** The heap holds both lists; the first node of the one being walked points back to the timer whose callback runs. */
  ghost predicate Holds(h: Heap, curr: nat, l: Lists) {
    && Separate(l) && curr !in l.rest && curr !in l.added && curr < l.nextId
    && Linked(h, l.rest, Some(curr)) && Linked(h, l.added, None)
    && h.head == At(l.added, 0) && h.nextId == l.nextId
    && (forall x :: x in h.index <==> x in l.rest || x in l.added)
    && (forall x :: x in h.next <==> x in l.rest || x in l.added || x == curr)
    && (forall x :: x in h.prev <==> x in h.next)
  }

  function IndexIn(c: seq<nat>, x: nat): (k: nat)
    requires x in c
    ensures k < |c| && c[k] == x
  {
    if c[0] == x then 0 else 1 + IndexIn(c[1..], x)
  }

  function Obey(l: Lists, act: Act): Lists {
    match act
    case Cancel(x) =>
      if x in l.rest then l.(rest := Without(l.rest, IndexIn(l.rest, x)))
      else if x in l.added then l.(added := Without(l.added, IndexIn(l.added, x)))
      else l
    case Schedule => l.(added := [l.nextId] + l.added, nextId := l.nextId + 1)
  }

  function ObeyAll(l: Lists, acts: seq<Act>): (m: Lists)
    ensures |m.rest| <= |l.rest|
    decreases |acts|
  {
    if acts == [] then l else ObeyAll(Obey(l, acts[0]), acts[1..])
  }

  function ActOn(h: Heap, act: Act): Heap
    requires act.Cancel? && act.id in h.index ==> Alive(h, act.id)
  {
    match act case Cancel(x) => CancelNode(h, x) case Schedule => ScheduleNode(h)
  }

  lemma InList(h: Heap, c: seq<nat>, first: Option<nat>, x: nat)
    requires Linked(h, c, first) && x in c
    ensures Alive(h, x)
  {
    assert Placed(h, c, first, IndexIn(c, x));
  }

  lemma WithoutMembers(c: seq<nat>, k: nat)
    requires NoDup(c) && k < |c|
    ensures NoDup(Without(c, k)) && c[k] !in Without(c, k)
    ensures forall x :: x in Without(c, k) <==> x in c && x != c[k]
  {
    var d := Without(c, k);
    forall i | 0 <= i < |d| ensures d[i] == c[if i < k then i else i + 1] { WithoutAt(c, k, i); }
    forall x | x in c && x != c[k] ensures x in d {
      var i :| 0 <= i < |c| && c[i] == x;
      WithoutAt(c, k, if i < k then i else i - 1);
    }
  }

  lemma CancelRest(h: Heap, curr: nat, l: Lists, x: nat)
    requires Holds(h, curr, l) && x in l.rest && Alive(h, x)
    ensures Holds(CancelNode(h, x), curr, Obey(l, Cancel(x)))
  {
    var k := IndexIn(l.rest, x);
    var g := h.(index := h.index - {x});
    WithoutMembers(l.rest, k);
    SameLinks(h, g, l.rest, Some(curr));
    SameLinks(h, g, l.added, None);
    UnlinkList(g, l.rest, Some(curr), k);
    UnlinkRest(g, l.rest, Some(curr), k);
    UnlinkApart(g, l.rest, Some(curr), k, l.added, None);
    FreeKeeps(Unlink(g, x), x, Without(l.rest, k), Some(curr));
    FreeKeeps(Unlink(g, x), x, l.added, None);
  }

  lemma CancelAdded(h: Heap, curr: nat, l: Lists, x: nat)
    requires Holds(h, curr, l) && x in l.added && Alive(h, x)
    ensures Holds(CancelNode(h, x), curr, Obey(l, Cancel(x)))
  {
    var k := IndexIn(l.added, x);
    var g := h.(index := h.index - {x});
    WithoutMembers(l.added, k);
    SameLinks(h, g, l.rest, Some(curr));
    SameLinks(h, g, l.added, None);
    UnlinkList(g, l.added, None, k);
    UnlinkRest(g, l.added, None, k);
    assert Without(l.added, k) != [] ==> Without(l.added, k)[0] == l.added[if k == 0 then 1 else 0];
    UnlinkApart(g, l.added, None, k, l.rest, Some(curr));
    FreeKeeps(Unlink(g, x), x, Without(l.added, k), None);
    FreeKeeps(Unlink(g, x), x, l.rest, Some(curr));
  }

  lemma ScheduleKeeps(h: Heap, c: seq<nat>, first: Option<nat>)
    requires Linked(h, c, first) && h.nextId !in c && (h.head.Some? ==> h.head.value !in c)
    ensures Linked(ScheduleNode(h), c, first)
  {
    forall i | 0 <= i < |c| ensures Placed(ScheduleNode(h), c, first, i) { assert Placed(h, c, first, i) && c[i] in c; }
  }

  lemma ScheduleFront(h: Heap, c: seq<nat>, x: nat)
    requires Linked(h, c, None) && h.head == At(c, 0) && x == h.nextId && x !in c && NoDup(c)
    ensures Linked(ScheduleNode(h), [x] + c, None)
  {
    var d := [x] + c;
    forall i | 0 <= i < |d| ensures Placed(ScheduleNode(h), d, None, i) {
      if i > 0 { assert Placed(h, c, None, i - 1) && d[i] == c[i - 1]; }
      if i > 1 { assert c[0] != c[i - 1] && d[i - 1] == c[i - 2]; }
      assert At(d, i + 1) == At(c, i);
    }
  }

  lemma ScheduleHolds(h: Heap, curr: nat, l: Lists)
    requires Holds(h, curr, l)
    ensures Holds(ScheduleNode(h), curr, Obey(l, Schedule))
  {
    ScheduleKeeps(h, l.rest, Some(curr));
    ScheduleFront(h, l.added, h.nextId);
  }

  lemma ActHolds(h: Heap, curr: nat, l: Lists, act: Act)
    requires Holds(h, curr, l)
    ensures act.Cancel? && act.id in h.index ==> Alive(h, act.id)
    ensures Holds(ActOn(h, act), curr, Obey(l, act))
  {
    match act
    case Schedule => ScheduleHolds(h, curr, l);
    case Cancel(x) =>
      if x in l.rest {
        InList(h, l.rest, Some(curr), x);
        CancelRest(h, curr, l, x);
      } else if x in l.added {
        InList(h, l.added, None, x);
        CancelAdded(h, curr, l, x);
      }
  }

  // ---------- The walk ----------

  /** The timers that fire, one after the other: each acts before the next is chosen, and a timer that was cancelled
      does not fire. */
  function Fired(l: Lists, script: Script): seq<nat>
    decreases |l.rest|
  {
    if l.rest == [] then [] else [l.rest[0]] + Fired(Behind(l, script), script)
  }

  /** The lists once the first timer has fired. */
  function Behind(l: Lists, script: Script): (m: Lists)
    requires l.rest != []
    ensures |m.rest| < |l.rest|
  {
    ObeyAll(l.(rest := l.rest[1..]), script(l.rest[0]))
  }

  /** The lists at the end. */
  function Final(l: Lists, script: Script): Lists
    decreases |l.rest|
  {
    if l.rest == [] then l else Final(Behind(l, script), script)
  }

  /** No timer that fires cancels the one then next in line. */
  predicate Safe(l: Lists, script: Script)
    decreases |l.rest|
  {
    || l.rest == []
    || ((|l.rest| > 1 ==> Cancel(l.rest[1]) !in script(l.rest[0])) && Safe(Behind(l, script), script))
  }

  /** A timer leaves the list being walked exactly if it is cancelled. */
  lemma {:induction false} ObeyAllIn(l: Lists, acts: seq<Act>, x: nat)
    requires Separate(l) && x in l.rest
    ensures var m := ObeyAll(l, acts);
            && (x in m.rest <==> Cancel(x) !in acts)
            && x !in m.added
            && (l.rest[0] == x && Cancel(x) !in acts ==> m.rest[0] == x)
    decreases |acts|
  {
    if acts != [] {
      var m := Obey(l, acts[0]);
      ObeySeparate(l, acts[0]);
      ObeyMembers(l, acts[0], x);
      if acts[0] == Cancel(x) {
        NeverBack(m, acts[1..], x);
      } else {
        ObeyAllIn(m, acts[1..], x);
        assert Cancel(x) in acts <==> Cancel(x) in acts[1..];
      }
    }
  }

  lemma ObeySeparate(l: Lists, act: Act)
    requires Separate(l)
    ensures Separate(Obey(l, act))
  {
    match act
    case Schedule =>
    case Cancel(x) =>
      if x in l.rest { WithoutMembers(l.rest, IndexIn(l.rest, x)); }
      else if x in l.added { WithoutMembers(l.added, IndexIn(l.added, x)); }
  }

  lemma {:induction false} NeverBack(l: Lists, acts: seq<Act>, x: nat)
    requires Separate(l) && x !in l.rest && x !in l.added && x < l.nextId
    ensures x !in ObeyAll(l, acts).rest && x !in ObeyAll(l, acts).added
    decreases |acts|
  {
    if acts != [] {
      ObeySeparate(l, acts[0]);
      ObeyMembers(l, acts[0], x);
      NeverBack(Obey(l, acts[0]), acts[1..], x);
    }
  }

  lemma ObeyMembers(l: Lists, act: Act, x: nat)
    requires Separate(l) && x < l.nextId
    ensures x in Obey(l, act).rest <==> x in l.rest && act != Cancel(x)
    ensures x in Obey(l, act).added ==> x in l.added
  {
    if act.Cancel? && act.id in l.rest {
      WithoutMembers(l.rest, IndexIn(l.rest, act.id));
    } else if act.Cancel? && act.id in l.added {
      WithoutMembers(l.added, IndexIn(l.added, act.id));
    }
  }

  /** A callback's acts, one by one. */
  method RunCallback(h: Heap, curr: nat, acts: seq<Act>, ghost l: Lists) returns (g: Heap)
    requires Holds(h, curr, l)
    ensures Holds(g, curr, ObeyAll(l, acts))
  {
    g := h;
    ghost var m := l;
    for i := 0 to |acts|
      invariant Holds(g, curr, m) && ObeyAll(m, acts[i..]) == ObeyAll(l, acts)
    {
      assert acts[i..][1..] == acts[i + 1..];
      ActHolds(g, curr, m, acts[i]);
      g := ActOn(g, acts[i]);
      m := Obey(m, acts[i]);
    }
  }

  /** The heap while no callback runs; the first node's back link may point anywhere. */
  ghost predicate Between(h: Heap, l: Lists) {
    && Separate(l) && (exists first :: Linked(h, l.rest, first)) && Linked(h, l.added, None)
    && h.head == At(l.added, 0) && h.nextId == l.nextId
    && (forall x :: x in h.index <==> x in l.rest || x in l.added)
    && (forall x :: x in h.next <==> x in l.rest || x in l.added)
    && (forall x :: x in h.prev <==> x in h.next)
  }

  lemma FirstLink(h: Heap, l: Lists)
    requires Between(h, l) && l.rest != []
    ensures Alive(h, l.rest[0]) && h.next[l.rest[0]] == At(l.rest, 1)
  {
    var first :| Linked(h, l.rest, first);
    assert Placed(h, l.rest, first, 0);
  }

  /** One timer: its links are cleared, it leaves the index, its callback runs, its node is freed. */
  method FireOne(h: Heap, x: nat, acts: seq<Act>, ghost l: Lists) returns (g: Heap, nxt: Option<nat>)
    requires Between(h, l) && l.rest != [] && l.rest[0] == x
    ensures nxt == At(l.rest, 1) && Between(g, ObeyAll(l.(rest := l.rest[1..]), acts))
  {
    FirstLink(h, l);
    nxt := h.next[x];
    var cleared := h.(next := h.next[x := None], prev := h.prev[x := None], index := h.index - {x});
    ghost var m := l.(rest := l.rest[1..]);
    ClearedHolds(h, cleared, x, l, m);
    g := RunCallback(cleared, x, acts, m);
    FreeBetween(g, x, ObeyAll(m, acts));
    g := Free(g, x);
  }

  lemma ClearedRest(h: Heap, g: Heap, x: nat, c: seq<nat>, first: Option<nat>)
    requires Linked(h, [x] + c, first) && x !in c && g.next == h.next[x := None] && g.prev == h.prev[x := None]
    ensures Linked(g, c, Some(x))
  {
    forall i | 0 <= i < |c| ensures Placed(g, c, Some(x), i) {
      assert Placed(h, [x] + c, first, i + 1) && c[i] in c && ([x] + c)[i + 1] == c[i];
      assert i > 0 ==> ([x] + c)[i] == c[i - 1];
      assert At([x] + c, i + 2) == At(c, i + 1);
    }
  }

  lemma ClearedKeeps(h: Heap, g: Heap, x: nat, c: seq<nat>, first: Option<nat>)
    requires Linked(h, c, first) && x !in c && g.next == h.next[x := None] && g.prev == h.prev[x := None]
    ensures Linked(g, c, first)
  {
    forall i | 0 <= i < |c| ensures Placed(g, c, first, i) { assert Placed(h, c, first, i) && c[i] in c; }
  }

  lemma ClearedHolds(h: Heap, g: Heap, x: nat, l: Lists, m: Lists)
    requires Between(h, l) && l.rest != [] && l.rest[0] == x && m == l.(rest := l.rest[1..])
    requires g == h.(next := h.next[x := None], prev := h.prev[x := None], index := h.index - {x})
    requires Alive(h, x)
    ensures Holds(g, x, m)
  {
    var first :| Linked(h, l.rest, first);
    assert l.rest == [x] + m.rest;
    assert x !in m.rest;
    ClearedRest(h, g, x, m.rest, first);
    ClearedKeeps(h, g, x, l.added, None);
    assert forall y :: y in l.rest <==> y == x || y in m.rest;
  }

  lemma FreeBetween(h: Heap, x: nat, l: Lists)
    requires Holds(h, x, l)
    ensures Between(Free(h, x), l)
  {
    FreeKeeps(h, x, l.rest, Some(x));
    FreeKeeps(h, x, l.added, None);
  }

  /** After a turn the next node is in use exactly if the callback did not cancel it, and then it is the first left. */
  lemma NextInUse(h: Heap, l: Lists, m: Lists, script: Script, n: nat)
    requires l.rest != [] && Separate(l) && m == Behind(l, script) && Between(h, m) && At(l.rest, 1) == Some(n)
    ensures n in h.next <==> Cancel(n) !in script(l.rest[0])
    ensures n in h.next ==> At(m.rest, 0) == Some(n)
  {
    var behind := l.(rest := l.rest[1..]);
    assert Separate(behind) && behind.rest[0] == n;
    ObeyAllIn(behind, script(l.rest[0]), n);
  }

  /** What has fired and what is left amount to the whole walk. */
  ghost predicate Underway(fired: seq<nat>, l: Lists, l0: Lists, script: Script) {
    && (Safe(l, script) <==> Safe(l0, script))
    && fired + Fired(l, script) == Fired(l0, script) && Final(l, script) == Final(l0, script)
  }

  lemma TurnTaken(fired: seq<nat>, l: Lists, l0: Lists, script: Script)
    requires Underway(fired, l, l0, script) && l.rest != []
    requires |l.rest| > 1 ==> Cancel(l.rest[1]) !in script(l.rest[0])
    ensures Underway(fired + [l.rest[0]], Behind(l, script), l0, script)
  {
    var more := Fired(Behind(l, script), script);
    assert fired + ([l.rest[0]] + more) == fired + [l.rest[0]] + more;
  }

  /** The loop of `fire_slot`. It goes on to a node that has been freed exactly if some callback cancels the timer then
      next in line; otherwise every timer fires that was not cancelled by one before it, in order, and the slot
      holds what the callbacks scheduled and did not cancel. */
  method FireSlot(h0: Heap, e0: Option<nat>, script: Script, ghost l0: Lists) returns (h: Heap, fired: seq<nat>, fault: bool)
    requires Between(h0, l0) && e0 == At(l0.rest, 0)
    ensures fault <==> !Safe(l0, script)
    ensures !fault ==> fired == Fired(l0, script) && Between(h, Final(l0, script)) && Final(l0, script).rest == []
  {
    h, fired, fault := h0, [], false;
    var e := e0;
    ghost var l := l0;
    while e.Some?
      invariant Between(h, l) && e == At(l.rest, 0)
      invariant Underway(fired, l, l0, script)
      decreases |l.rest|
    {
      var x := e.value;
      ghost var m := Behind(l, script);
      h, e := FireOne(h, x, script(x), l);
      fired := fired + [x];
      if e.Some? {
        NextInUse(h, l, m, script, e.value);
        if e.value !in h.next {
          fault := true;
          return;
        }
      } else {
        LastInLine(l, script);
      }
      TurnTaken(fired[..|fired| - 1], l, l0, script);
      l := m;
    }
  }

  lemma LastInLine(l: Lists, script: Script)
    requires |l.rest| == 1
    ensures Behind(l, script).rest == []
  {
  }

  // ---------- Who fires ----------

  lemma {:induction false} ObeyAllSeparate(l: Lists, acts: seq<Act>)
    requires Separate(l)
    ensures Separate(ObeyAll(l, acts)) && ObeyAll(l, acts).nextId >= l.nextId
    decreases |acts|
  {
    if acts != [] {
      ObeySeparate(l, acts[0]);
      ObeyAllSeparate(Obey(l, acts[0]), acts[1..]);
    }
  }

  lemma {:induction false} NeverFires(l: Lists, script: Script, x: nat)
    requires Separate(l) && x !in l.rest && x !in l.added && x < l.nextId
    ensures x !in Fired(l, script)
    decreases |l.rest|
  {
    if l.rest != [] {
      var behind := l.(rest := l.rest[1..]);
      assert Separate(behind);
      NeverBack(behind, script(l.rest[0]), x);
      ObeyAllSeparate(behind, script(l.rest[0]));
      NeverFires(Behind(l, script), script, x);
    }
  }

  /** A timer of the list fires unless one that fires before it cancels it. */
  lemma {:induction false} FiresUnlessCancelled(l: Lists, script: Script, x: nat)
    requires Separate(l) && x in l.rest
    ensures var f := Fired(l, script);
            && (x !in f ==> exists i :: 0 <= i < |f| && Cancel(x) in script(f[i]))
            && (forall i, j :: 0 <= j < i < |f| && f[i] == x ==> Cancel(x) !in script(f[j]))
    decreases |l.rest|
  {
    var y, m := l.rest[0], Behind(l, script);
    var behind := l.(rest := l.rest[1..]);
    assert Separate(behind);
    ObeyAllSeparate(behind, script(y));
    var f, g := Fired(l, script), Fired(m, script);
    assert f[0] == y && f[1..] == g;
    if x == y {
      NeverBack(behind, script(y), x);
      NeverFires(m, script, x);
      assert forall i :: 0 < i < |f| ==> f[i] == g[i - 1];
    } else {
      ObeyAllIn(behind, script(y), x);
      if Cancel(x) in script(y) {
        NeverFires(m, script, x);
        assert forall i :: 0 < i < |f| ==> f[i] == g[i - 1];
      } else {
        FiresUnlessCancelled(m, script, x);
        if i :| 0 <= i < |g| && Cancel(x) in script(g[i]) { assert f[i + 1] == g[i]; }
        forall i, j | 0 <= j < i < |f| && f[i] == x ensures Cancel(x) !in script(f[j]) {
          assert f[i] == g[i - 1] && (j > 0 ==> f[j] == g[j - 1]);
        }
      }
    }
  }

  /** Two timers in a slot, and the first cancels the second: the walk reaches a freed node. */
  lemma SecondCancelled(script: Script)
    requires script(1) == [Cancel(2)]
    ensures var h := Heap(map[1 := Some(2), 2 := None], map[1 := None, 2 := Some(1)], {1, 2}, None, 3);
            var l := Lists([1, 2], [], 3);
            Between(h, l) && !Safe(l, script)
  {
    var h := Heap(map[1 := Some(2), 2 := None], map[1 := None, 2 := Some(1)], {1, 2}, None, 3);
    assert Linked(h, [1, 2], None) by {
      assert Placed(h, [1, 2], None, 0) && Placed(h, [1, 2], None, 1);
    }
  }
}
