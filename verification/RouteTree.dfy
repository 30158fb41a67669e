/** The route tree as a table of nodes, and what it means: a map from route shapes to handlers. */
module RouteTree {
  import opened Text

  /** One step of a route: a literal character, or a parameter up to the next slash. */
  datatype Step = Lit(c: char) | Param

  type Shape = seq<Step>

  type Handler = nat

  /** Children are kept sorted by character; links are indices into the table. */
  datatype Node = Node(children: seq<(char, nat)>, param: Option<nat>, name: string, handler: Option<Handler>)

  const BLANK := Node([], None, "", None)

  function Find(children: seq<(char, nat)>, c: char): (r: Option<nat>)
    ensures r.Some? ==> exists k :: 0 <= k < |children| && children[k] == (c, r.value)
    ensures r.None? ==> forall k :: 0 <= k < |children| ==> children[k].0 != c
  {
    if children == [] then None
    else if children[0].0 == c then Some(children[0].1)
    else Find(children[1..], c)
  }

  predicate Sorted(children: seq<(char, nat)>) {
    forall a, b :: 0 <= a < b < |children| ==> children[a].0 < children[b].0
  }

  /** In a sorted list the entry with a key is what `Find` returns. */
  lemma {:induction false} FindIs(children: seq<(char, nat)>, c: char, k: nat)
    requires Sorted(children) && k < |children| && children[k].0 == c
    ensures Find(children, c) == Some(children[k].1)
  {
    if k > 0 { FindIs(children[1..], c, k - 1); }
  }

  lemma FindNone(children: seq<(char, nat)>, c: char)
    requires forall k :: 0 <= k < |children| ==> children[k].0 != c
    ensures Find(children, c) == None
  {
  }

  /** Where a key belongs: everything before is smaller, nothing from there on is. */
  predicate Bound(children: seq<(char, nat)>, c: char, k: nat) {
    && k <= |children|
    && (forall i :: 0 <= i < k ==> children[i].0 < c)
    && (forall i :: k <= i < |children| ==> c <= children[i].0)
  }

  /** `add_child`'s insertion. */
  function Emplace(children: seq<(char, nat)>, k: nat, c: char, j: nat): seq<(char, nat)>
    requires k <= |children|
  {
    children[..k] + [(c, j)] + children[k..]
  }

  function Shifted(children: seq<(char, nat)>, k: nat, c: char, j: nat, i: nat): (char, nat)
    requires k <= |children| && i <= |children|
  {
    if i < k then children[i] else if i == k then (c, j) else children[i - 1]
  }

  lemma EmplaceIndex(children: seq<(char, nat)>, k: nat, c: char, j: nat, i: nat)
    requires k <= |children| && i <= |children|
    ensures Emplace(children, k, c, j)[i] == Shifted(children, k, c, j, i)
  {}

  lemma EmplaceSorted(children: seq<(char, nat)>, k: nat, c: char, j: nat)
    requires Sorted(children) && Bound(children, c, k) && Find(children, c).None?
    ensures Sorted(Emplace(children, k, c, j))
  {
    var e := Emplace(children, k, c, j);
    forall a, b | 0 <= a < b < |e| ensures e[a].0 < e[b].0 {
      EmplaceIndex(children, k, c, j, a);
      EmplaceIndex(children, k, c, j, b);
    }
  }

  lemma EmplaceAt(children: seq<(char, nat)>, k: nat, c: char, j: nat)
    requires k <= |children|
    ensures var e := Emplace(children, k, c, j);
            && (forall i :: 0 <= i < |children| ==> children[i] in e)
            && (forall i :: 0 <= i < |e| ==> e[i] == (c, j) || e[i] in children)
            && e[k] == (c, j)
  {
    var e := Emplace(children, k, c, j);
    forall i | 0 <= i < |children| ensures children[i] in e {
      assert children[i] == e[if i < k then i else i + 1];
    }
  }

  lemma EmplaceFinds(children: seq<(char, nat)>, k: nat, c: char, j: nat, d: char)
    requires Sorted(children) && Bound(children, c, k) && Find(children, c).None?
    ensures Find(Emplace(children, k, c, j), d) == if d == c then Some(j) else Find(children, d)
  {
    var e := Emplace(children, k, c, j);
    EmplaceAt(children, k, c, j);
    EmplaceSorted(children, k, c, j);
    if d == c {
      FindIs(e, d, k);
    } else {
      match Find(children, d)
      case Some(m) =>
        assert (d, m) in e;
        var i :| 0 <= i < |e| && e[i] == (d, m);
        FindIs(e, d, i);
      case None =>
        assert forall i :: 0 <= i < |e| && e[i] != (c, j) ==> e[i].0 != d;
        FindNone(e, d);
    }
  }

  // ---------- Walking the tree ----------

  function Child(nodes: seq<Node>, i: nat, step: Step): Option<nat> {
    if i >= |nodes| then None
    else match step case Lit(c) => Find(nodes[i].children, c) case Param => nodes[i].param
  }

  function Walk(nodes: seq<Node>, i: nat, s: Shape): Option<nat>
    decreases |s|
  {
    if s == [] then Some(i)
    else match Child(nodes, i, s[0]) case None => None case Some(j) => Walk(nodes, j, s[1..])
  }

  function HandlerAt(nodes: seq<Node>, i: nat, s: Shape): Option<Handler> {
    match Walk(nodes, i, s) case Some(j) => (if j < |nodes| then nodes[j].handler else None) case None => None
  }

  /** The name bound by the parameter step behind `s`. */
  function NameAt(nodes: seq<Node>, i: nat, s: Shape): Option<string> {
    match Walk(nodes, i, s)
    case Some(j) => (if j < |nodes| && nodes[j].param.Some? then Some(nodes[j].name) else None)
    case None => None
  }

  /** Each node hangs below exactly one other, later in the table; `shapes` tells where. */
  ghost predicate Linked(nodes: seq<Node>, shapes: seq<Shape>, i: nat, step: Step)
    requires i < |nodes| == |shapes|
  {
    match Child(nodes, i, step) case None => true case Some(j) => i < j < |nodes| && shapes[j] == shapes[i] + [step]
  }

  ghost predicate Tree(nodes: seq<Node>, shapes: seq<Shape>) {
    && |nodes| == |shapes| > 0 && shapes[0] == []
    && (forall i :: 0 <= i < |nodes| ==> Sorted(nodes[i].children))
    && (forall i, step {:trigger Linked(nodes, shapes, i, step)} :: 0 <= i < |nodes| ==> Linked(nodes, shapes, i, step))
  }

  lemma {:induction false} WalkShape(nodes: seq<Node>, shapes: seq<Shape>, i: nat, s: Shape)
    requires Tree(nodes, shapes) && i < |nodes| && Walk(nodes, i, s).Some?
    ensures var j := Walk(nodes, i, s).value; i <= j < |nodes| && shapes[j] == shapes[i] + s
    decreases |s|
  {
    if s != [] {
      assert Linked(nodes, shapes, i, s[0]);
      WalkShape(nodes, shapes, Child(nodes, i, s[0]).value, s[1..]);
      assert [s[0]] + s[1..] == s;
    } else {
      assert shapes[i] + [] == shapes[i];
    }
  }

  lemma {:induction false} WalkAppend(nodes: seq<Node>, i: nat, s: Shape, step: Step)
    ensures Walk(nodes, i, s + [step]) == match Walk(nodes, i, s) case None => None case Some(j) => Child(nodes, j, step)
    decreases |s|
  {
    if s == [] {
      assert [step][1..] == [];
    } else {
      assert (s + [step])[1..] == s[1..] + [step];
      match Child(nodes, i, s[0])
      case None =>
      case Some(j) => WalkAppend(nodes, j, s[1..], step);
    }
  }

  // ---------- Growing the tree ----------

  /** Node `i` with one more child, a blank node at the end of the table. */
  function Link(nodes: seq<Node>, i: nat, step: Step, k: nat, name: string): seq<Node>
    requires i < |nodes| && k <= |nodes[i].children|
  {
    var n := nodes[i];
    var m := match step
      case Lit(c) => n.(children := Emplace(n.children, k, c, |nodes|))
      case Param => n.(param := Some(|nodes|), name := name);
    nodes[i := m] + [BLANK]
  }

  lemma LinkChild(nodes: seq<Node>, i: nat, step: Step, k: nat, name: string, j: nat, other: Step)
    requires i < |nodes| && Sorted(nodes[i].children) && k <= |nodes[i].children|
    requires Child(nodes, i, step).None? && (step.Lit? ==> Bound(nodes[i].children, step.c, k))
    ensures Child(Link(nodes, i, step, k, name), j, other) == if j == i && other == step then Some(|nodes|) else Child(nodes, j, other)
    ensures Sorted(Link(nodes, i, step, k, name)[i].children)
  {
    if step.Lit? {
      EmplaceSorted(nodes[i].children, k, step.c, |nodes|);
      EmplaceFinds(nodes[i].children, k, step.c, |nodes|, if other.Lit? then other.c else step.c);
    }
  }

  lemma LinkTree(nodes: seq<Node>, shapes: seq<Shape>, i: nat, step: Step, k: nat, name: string)
    requires Tree(nodes, shapes) && i < |nodes| && k <= |nodes[i].children|
    requires Child(nodes, i, step).None? && (step.Lit? ==> Bound(nodes[i].children, step.c, k))
    ensures Tree(Link(nodes, i, step, k, name), shapes + [shapes[i] + [step]])
  {
    var nodes', shapes' := Link(nodes, i, step, k, name), shapes + [shapes[i] + [step]];
    LinkChild(nodes, i, step, k, name, i, step);
    forall j, other | 0 <= j < |nodes'| ensures Linked(nodes', shapes', j, other) {
      LinkChild(nodes, i, step, k, name, j, other);
      if j < |nodes| { assert Linked(nodes, shapes, j, other); }
    }
  }

  /** The new node is reached by its own shape, and no other shape leads anywhere new. */
  lemma {:induction false} LinkWalk(nodes: seq<Node>, shapes: seq<Shape>, i: nat, step: Step, k: nat, name: string, s: Shape)
    requires Tree(nodes, shapes) && i < |nodes| && k <= |nodes[i].children| && Walk(nodes, 0, shapes[i]) == Some(i)
    requires Child(nodes, i, step).None? && (step.Lit? ==> Bound(nodes[i].children, step.c, k))
    ensures Walk(Link(nodes, i, step, k, name), 0, s) ==
            if Walk(nodes, 0, s).None? && s == shapes[i] + [step] then Some(|nodes|) else Walk(nodes, 0, s)
    decreases |s|
  {
    if s != [] {
      var nodes' := Link(nodes, i, step, k, name);
      var r, x := s[..|s| - 1], s[|s| - 1];
      assert s == r + [x];
      LinkWalk(nodes, shapes, i, step, k, name, r);
      WalkAppend(nodes, 0, r, x);
      WalkAppend(nodes', 0, r, x);
      assert s == shapes[i] + [step] <==> r == shapes[i] && x == step;
      match Walk(nodes, 0, r)
      case Some(j) =>
        WalkShape(nodes, shapes, 0, r);
        assert [] + r == r;
        LinkChild(nodes, i, step, k, name, j, x);
      case None =>
        LinkChild(nodes, i, step, k, name, |nodes|, x);
    }
  }

  /** What one step down the tree may change: no handler, and only the name of a parameter that had none. */
  ghost predicate Descended(nodes: seq<Node>, nodes': seq<Node>, at: Shape, step: Step, name: string) {
    && (forall s :: HandlerAt(nodes', 0, s) == HandlerAt(nodes, 0, s))
    && (forall s :: NameAt(nodes', 0, s) == if NameAt(nodes, 0, s).None? && step == Param && s == at then Some(name) else NameAt(nodes, 0, s))
  }

  lemma LinkDescends(nodes: seq<Node>, shapes: seq<Shape>, i: nat, step: Step, k: nat, name: string)
    requires Tree(nodes, shapes) && i < |nodes| && k <= |nodes[i].children| && Walk(nodes, 0, shapes[i]) == Some(i)
    requires Child(nodes, i, step).None? && (step.Lit? ==> Bound(nodes[i].children, step.c, k))
    ensures Descended(nodes, Link(nodes, i, step, k, name), shapes[i], step, name)
  {
    var nodes' := Link(nodes, i, step, k, name);
    forall s ensures HandlerAt(nodes', 0, s) == HandlerAt(nodes, 0, s)
      ensures NameAt(nodes', 0, s) == if NameAt(nodes, 0, s).None? && step == Param && s == shapes[i] then Some(name) else NameAt(nodes, 0, s)
    {
      LinkWalk(nodes, shapes, i, step, k, name, s);
      if Walk(nodes, 0, s).Some? {
        WalkShape(nodes, shapes, 0, s);
        assert [] + s == s;
      }
    }
  }

  // ---------- Patterns ----------

  /** The next slash, or the end. */
  function Slash(path: string, i: nat): (j: nat)
    requires i <= |path|
    ensures i <= j <= |path| && (j < |path| ==> path[j] == '/') && forall k :: i <= k < j ==> path[k] != '/'
    decreases |path| - i
  {
    if i == |path| || path[i] == '/' then i else Slash(path, i + 1)
  }

  function StepAt(path: string, i: nat): Step
    requires i < |path|
  {
    if path[i] == ':' then Param else Lit(path[i])
  }

  function NextPos(path: string, i: nat): (j: nat)
    requires i < |path|
    ensures i < j <= |path|
  {
    if path[i] == ':' then Slash(path, i + 1) else i + 1
  }

  /** The steps of a route pattern. */
  function ShapeFrom(path: string, i: nat): Shape
    requires i <= |path|
    decreases |path| - i
  {
    if i == |path| then [] else [StepAt(path, i)] + ShapeFrom(path, NextPos(path, i))
  }

  /** The names of its parameters, one for each step. */
  function NamesFrom(path: string, i: nat): seq<string>
    requires i <= |path|
    decreases |path| - i
  {
    if i == |path| then []
    else [if path[i] == ':' then path[i + 1..NextPos(path, i)] else ""] + NamesFrom(path, NextPos(path, i))
  }

  function ShapeOf(path: string): Shape { ShapeFrom(path, 0) }

  /** The name a pattern gives to the parameter behind `s`, looking at its first `n` steps only. */
  function PatternName(path: string, s: Shape, n: nat): Option<string> {
    var shape, names := ShapeOf(path), NamesFrom(path, 0);
    if |s| < n <= |shape| && |s| < |names| && s == shape[..|s|] && shape[|s|] == Param then Some(names[|s|]) else None
  }

  lemma {:induction false} NamesLength(path: string, i: nat)
    requires i <= |path|
    ensures |NamesFrom(path, i)| == |ShapeFrom(path, i)|
    decreases |path| - i
  {
    if i < |path| { NamesLength(path, NextPos(path, i)); }
  }

  /** The first `n` steps of a pattern have been followed from a table that was `before`. */
  ghost predicate Followed(before: seq<Node>, nodes: seq<Node>, path: string, n: nat) {
    && (forall s :: HandlerAt(nodes, 0, s) == HandlerAt(before, 0, s))
    && (forall s :: NameAt(nodes, 0, s) == if NameAt(before, 0, s).Some? then NameAt(before, 0, s) else PatternName(path, s, n))
  }

  lemma FollowedStep(before: seq<Node>, nodes: seq<Node>, nodes': seq<Node>, path: string, n: nat, at: Shape, step: Step, name: string)
    requires Followed(before, nodes, path, n) && n < |ShapeOf(path)| == |NamesFrom(path, 0)|
    requires at == ShapeOf(path)[..n] && step == ShapeOf(path)[n] && name == NamesFrom(path, 0)[n]
    requires Descended(nodes, nodes', at, step, name)
    ensures Followed(before, nodes', path, n + 1)
  {
    forall s ensures PatternName(path, s, n + 1) == if s == at && step == Param then Some(name) else PatternName(path, s, n) {}
  }

  /** Setting a handler changes the meaning at one shape. */
  lemma SetHandler(nodes: seq<Node>, shapes: seq<Shape>, i: nat, h: Option<Handler>, s: Shape)
    requires Tree(nodes, shapes) && i < |nodes| && Walk(nodes, 0, shapes[i]) == Some(i)
    ensures var nodes' := nodes[i := nodes[i].(handler := h)];
            && HandlerAt(nodes', 0, s) == (if s == shapes[i] then h else HandlerAt(nodes, 0, s))
            && NameAt(nodes', 0, s) == NameAt(nodes, 0, s)
  {
    SameWalk(nodes, nodes[i := nodes[i].(handler := h)], 0, s);
    if Walk(nodes, 0, s).Some? {
      WalkShape(nodes, shapes, 0, s);
      assert [] + s == s;
    }
  }

  lemma {:induction false} SameWalk(nodes: seq<Node>, nodes': seq<Node>, i: nat, s: Shape)
    requires |nodes| == |nodes'|
    requires forall j :: 0 <= j < |nodes| ==> nodes'[j].children == nodes[j].children && nodes'[j].param == nodes[j].param
    ensures Walk(nodes', i, s) == Walk(nodes, i, s)
    decreases |s|
  {
    if s != [] && Child(nodes, i, s[0]).Some? { SameWalk(nodes, nodes', Child(nodes, i, s[0]).value, s[1..]); }
  }

  lemma SetHandlerTree(nodes: seq<Node>, shapes: seq<Shape>, i: nat, h: Option<Handler>)
    requires Tree(nodes, shapes) && i < |nodes|
    ensures Tree(nodes[i := nodes[i].(handler := h)], shapes)
  {
    var nodes' := nodes[i := nodes[i].(handler := h)];
    forall j, step | 0 <= j < |nodes'| ensures Linked(nodes', shapes, j, step) {
      assert Linked(nodes, shapes, j, step);
    }
  }
}
