/** The router as an object: inserting routes and matching requests. */
module RouterObject {
  import opened Text
  import opened RouteTree
  import opened RouteSearch
  import opened RouteRules

  const BINARY_SEARCH_THRESHOLD := 4
  const METHOD_COUNT := 8

  /** `std::lower_bound` over the sorted children. */
  method LowerBound(children: seq<(char, nat)>, c: char) returns (k: nat)
    requires Sorted(children)
    ensures Bound(children, c, k)
  {
    k := 0;
    var count := |children|;
    while count > 0
      invariant 0 <= count && k + count <= |children|
      invariant forall i :: 0 <= i < k ==> children[i].0 < c
      invariant forall i :: k + count <= i < |children| ==> c <= children[i].0
      decreases count
    {
      var half := count / 2;
      if children[k + half].0 < c {
        k := k + half + 1;
        count := count - half - 1;
      } else {
        count := half;
      }
    }
  }

  /** `find_child`: a scan of few children, a binary search of many. */
  method FindChild(children: seq<(char, nat)>, c: char) returns (r: Option<nat>)
    requires Sorted(children)
    ensures r == Find(children, c)
  {
    if |children| > BINARY_SEARCH_THRESHOLD {
      var k := LowerBound(children, c);
      if k < |children| && children[k].0 == c {
        FindIs(children, c, k);
        return Some(children[k].1);
      }
      assert k < |children| ==> forall i :: k < i < |children| ==> children[k].0 < children[i].0;
      FindNone(children, c);
      return None;
    }
    for i := 0 to |children|
      invariant forall k :: 0 <= k < i ==> children[k].0 != c
    {
      if children[i].0 == c {
        FindIs(children, c, i);
        return Some(children[i].1);
      }
    }
    FindNone(children, c);
    return None;
  }

  class RadixTree {
    var nodes: seq<Node>
    ghost var shapes: seq<Shape>
    /** The routes inserted so far. */
    ghost var inserted: Routes

    ghost predicate Grown() reads this { Tree(nodes, shapes) }

    ghost predicate Valid() reads this { Grown() && Holds(nodes, inserted) }

    constructor ()
      ensures Valid() && inserted == []
    {
      nodes, shapes, inserted := [BLANK], [[]], [];
      new;
      forall step ensures Linked(nodes, shapes, 0, step) {}
      forall s ensures HandlerAt(nodes, 0, s) == None && NameAt(nodes, 0, s) == None {}
    }

    /** A new node below `curr`. */
    method Grow(curr: nat, step: Step, k: nat, name: string) returns (next: nat)
      requires Grown() && curr < |nodes| && k <= |nodes[curr].children| && Walk(nodes, 0, shapes[curr]) == Some(curr)
      requires Child(nodes, curr, step).None? && (step.Lit? ==> Bound(nodes[curr].children, step.c, k))
      modifies `nodes, `shapes
      ensures Grown() && next < |nodes| && shapes[next] == old(shapes[curr]) + [step] && Walk(nodes, 0, shapes[next]) == Some(next)
      ensures Descended(old(nodes), nodes, old(shapes[curr]), step, name)
    {
      LinkTree(nodes, shapes, curr, step, k, name);
      LinkDescends(nodes, shapes, curr, step, k, name);
      LinkWalk(nodes, shapes, curr, step, k, name, shapes[curr] + [step]);
      WalkAppend(nodes, 0, shapes[curr], step);
      next := |nodes|;
      shapes := shapes + [shapes[curr] + [step]];
      nodes := Link(nodes, curr, step, k, name);
    }

    /** The child for one step of a pattern, made if it is missing. */
    method Descend(curr: nat, step: Step, name: string) returns (next: nat)
      requires Grown() && curr < |nodes| && Walk(nodes, 0, shapes[curr]) == Some(curr)
      modifies `nodes, `shapes
      ensures Grown() && next < |nodes| && shapes[next] == old(shapes[curr]) + [step] && Walk(nodes, 0, shapes[next]) == Some(next)
      ensures Descended(old(nodes), nodes, old(shapes[curr]), step, name)
    {
      var k, child := 0, None;
      match step {
        case Param => child := nodes[curr].param;
        case Lit(c) =>
          child := FindChild(nodes[curr].children, c);
          k := LowerBound(nodes[curr].children, c);
      }
      if child.None? {
        next := Grow(curr, step, k, name);
      } else {
        next := child.value;
        assert Linked(nodes, shapes, curr, step);
        WalkAppend(nodes, 0, shapes[curr], step);
      }
    }

    /** The scan for the end of a parameter's name. */
    method NameEnd(path: string, i: nat) returns (j: nat)
      requires i <= |path|
      ensures j == Slash(path, i)
    {
      j := i;
      while j < |path| && path[j] != '/'
        invariant i <= j <= |path| && Slash(path, j) == Slash(path, i)
      {
        j := j + 1;
      }
    }

    /** One step of the pattern at `i`. */
    method Follow(curr: nat, path: string, i: nat) returns (next: nat, j: nat, ghost name: string)
      requires Grown() && curr < |nodes| && Walk(nodes, 0, shapes[curr]) == Some(curr) && i < |path|
      modifies `nodes, `shapes
      ensures Grown() && next < |nodes| && shapes[next] == old(shapes[curr]) + [StepAt(path, i)] && Walk(nodes, 0, shapes[next]) == Some(next)
      ensures j == NextPos(path, i) && name == (if path[i] == ':' then path[i + 1..j] else "")
      ensures Descended(old(nodes), nodes, old(shapes[curr]), StepAt(path, i), name)
    {
      if path[i] == ':' {
        j := NameEnd(path, i + 1);
        name := path[i + 1..j];
        next := Descend(curr, Param, path[i + 1..j]);
      } else {
        j := i + 1;
        name := "";
        next := Descend(curr, Lit(path[i]), "");
      }
    }

    /** The position `i` behind the steps of `at`. */
    ghost predicate Reached(path: string, i: nat, at: Shape) {
      && i <= |path|
      && ShapeOf(path) == at + ShapeFrom(path, i)
      && |at| <= |NamesFrom(path, 0)| && NamesFrom(path, 0)[|at|..] == NamesFrom(path, i)
    }

    /** Walks the pattern, making the nodes it misses. */
    method Extend(path: string) returns (curr: nat)
      requires Grown()
      modifies `nodes, `shapes
      ensures Grown() && curr < |nodes| && shapes[curr] == ShapeOf(path) && Walk(nodes, 0, shapes[curr]) == Some(curr)
      ensures Followed(old(nodes), nodes, path, |ShapeOf(path)|)
    {
      curr := 0;
      var i := 0;
      NamesLength(path, 0);
      while i < |path|
        invariant Grown() && curr < |nodes| && Walk(nodes, 0, shapes[curr]) == Some(curr)
        invariant Reached(path, i, shapes[curr])
        invariant Followed(old(nodes), nodes, path, |shapes[curr]|)
        decreases |path| - i
      {
        ghost var before, at := nodes, shapes[curr];
        var next, j;
        ghost var name;
        next, j, name := Follow(curr, path, i);
        ReachedStep(path, i, at);
        FollowedStep(old(nodes), before, nodes, path, |at|, at, StepAt(path, i), name);
        curr, i := next, j;
      }
      assert shapes[curr] + [] == shapes[curr];
    }

    lemma ReachedStep(path: string, i: nat, at: Shape)
      requires Reached(path, i, at) && i < |path|
      ensures Reached(path, NextPos(path, i), at + [StepAt(path, i)])
      ensures |at| < |ShapeOf(path)| == |NamesFrom(path, 0)| && at == ShapeOf(path)[..|at|] && ShapeOf(path)[|at|] == StepAt(path, i)
      ensures NamesFrom(path, 0)[|at|] == if path[i] == ':' then path[i + 1..NextPos(path, i)] else ""
    {
      NamesLength(path, 0);
      var names := NamesFrom(path, 0);
      assert names[|at| + 1..] == names[|at|..][1..];
    }

    /** `insert`: the pattern's shape gets the handler, every other shape keeps its own; a parameter keeps the
        name it was first given. */
    method Insert(path: string, handler: Option<Handler>)
      requires Valid()
      modifies this
      ensures Valid() && inserted == old(inserted) + [(path, handler)]
      ensures forall s :: HandlerAt(nodes, 0, s) == if s == ShapeOf(path) then handler else old(HandlerAt(nodes, 0, s))
      ensures forall s :: NameAt(nodes, 0, s) ==
                if old(NameAt(nodes, 0, s)).Some? then old(NameAt(nodes, 0, s)) else PatternName(path, s, |ShapeOf(path)|)
    {
      ghost var before := nodes;
      var curr := Extend(path);
      var after := nodes[curr := nodes[curr].(handler := handler)];
      SetHandlerTree(nodes, shapes, curr, handler);
      forall s ensures HandlerAt(after, 0, s) == if s == ShapeOf(path) then handler else HandlerAt(before, 0, s)
               ensures NameAt(after, 0, s) == NameAt(nodes, 0, s)
      {
        SetHandler(nodes, shapes, curr, handler, s);
      }
      HoldsMore(before, inserted, after, path, handler);
      nodes, inserted := after, inserted + [(path, handler)];
    }

    /** After any sequence of routes the tree holds them all: each shape has the handler it was last given. */
    method InsertAll(routes: Routes)
      requires Valid()
      modifies this
      ensures Valid() && inserted == old(inserted) + routes
      ensures forall s :: HandlerAt(nodes, 0, s) == LastFor(old(inserted) + routes, s)
    {
      for i := 0 to |routes|
        invariant Valid() && inserted == old(inserted) + routes[..i]
      {
        Insert(routes[i].0, routes[i].1);
      }
    }

    /** `search`: the answer of the plain matcher over the routes inserted, in whatever order they came. */
    method Lookup(path: string, params: Params) returns (r: (Option<Handler>, Params))
      requires Valid()
      ensures Ordered(nodes) && nodes != [] && r == Search(nodes, 0, path, 0, params) && r.0 == Plain(inserted, path)
    {
      TreeOrdered(nodes, shapes);
      SearchIsPlain(nodes, shapes, inserted, path, params);
      r := Search(nodes, 0, path, 0, params);
    }
  }

  lemma HoldsMore(nodes: seq<Node>, routes: Routes, nodes': seq<Node>, path: string, handler: Option<Handler>)
    requires Holds(nodes, routes)
    requires forall s :: HandlerAt(nodes', 0, s) == if s == ShapeOf(path) then handler else HandlerAt(nodes, 0, s)
    requires forall s :: NameAt(nodes', 0, s) ==
               if NameAt(nodes, 0, s).Some? then NameAt(nodes, 0, s) else PatternName(path, s, |ShapeOf(path)|)
    ensures Holds(nodes', routes + [(path, handler)])
  {
    var more := routes + [(path, handler)];
    assert more[..|more| - 1] == routes;
  }

  /** Inserting the two routes and searching: the outer parameter of the route found is missing from the map. */
  method LoseBinding() returns (r: (Option<Handler>, Params))
    ensures r == (Some(2), map["y" := "b"])
  {
    var tree := new RadixTree();
    tree.InsertAll(SHADOWING);
    assert [] + SHADOWING == SHADOWING;
    r := tree.Lookup(SHADOWED_PATH, map[]);
    ShadowedBindingIsLost(tree.nodes);
  }

  class Router {
    const routes: seq<RadixTree>
    var prefixRoutes: seq<PrefixRoute>

    ghost predicate Valid() reads this, routes {
      && |routes| == METHOD_COUNT
      && (forall a, b :: 0 <= a < b < METHOD_COUNT ==> routes[a] != routes[b])
      && (forall v :: 0 <= v < METHOD_COUNT ==> routes[v].Valid())
    }

    constructor ()
      ensures Valid() && prefixRoutes == []
      ensures fresh(routes) && forall v :: 0 <= v < METHOD_COUNT ==> routes[v].inserted == []
    {
      var trees: seq<RadixTree> := [];
      while |trees| < METHOD_COUNT
        invariant |trees| <= METHOD_COUNT && fresh(trees)
        invariant forall a, b :: 0 <= a < b < |trees| ==> trees[a] != trees[b]
        invariant forall v :: 0 <= v < |trees| ==> trees[v].Valid()
        invariant forall v :: 0 <= v < |trees| ==> trees[v].inserted == []
      {
        var tree := new RadixTree();
        trees := trees + [tree];
      }
      routes, prefixRoutes := trees, [];
    }

    /** The trees of all methods. */
    ghost function Tables(): (t: seq<seq<Node>>)
      requires Valid()
      reads this, routes
      ensures |t| == METHOD_COUNT && forall v :: 0 <= v < |t| ==> t[v] == routes[v].nodes && Ordered(t[v]) && t[v] != []
    {
      assert forall v :: 0 <= v < METHOD_COUNT ==> Ordered(routes[v].nodes) by {
        forall v | 0 <= v < METHOD_COUNT ensures Ordered(routes[v].nodes) { TreeOrdered(routes[v].nodes, routes[v].shapes); }
      }
      seq(METHOD_COUNT, v requires 0 <= v < METHOD_COUNT reads this, routes => routes[v].nodes)
    }

    method AddRoute(verb: nat, path: string, handler: Option<Handler>)
      requires Valid() && verb < METHOD_COUNT
      modifies routes[verb]
      ensures Valid() && routes[verb].inserted == old(routes[verb].inserted) + [(path, handler)]
      ensures var nodes := routes[verb].nodes;
              forall s :: HandlerAt(nodes, 0, s) == if s == ShapeOf(path) then handler else old(HandlerAt(routes[verb].nodes, 0, s))
    {
      routes[verb].Insert(path, handler);
    }

    method AddPrefixRoute(verb: nat, prefix: string, handler: Option<Handler>)
      requires Valid()
      modifies `prefixRoutes
      ensures Valid() && prefixRoutes == old(prefixRoutes) + [PrefixRoute(verb, prefix, handler)]
      ensures forall v, path :: Cover(prefixRoutes, v, path) ==
                if old(Cover(prefixRoutes, v, path)).Some? then old(Cover(prefixRoutes, v, path))
                else if v == verb && prefix <= path then Some(PrefixRoute(verb, prefix, handler))
                else None
    {
      forall v, path { CoverMore(prefixRoutes, PrefixRoute(verb, prefix, handler), v, path, 0); }
      prefixRoutes := prefixRoutes + [PrefixRoute(verb, prefix, handler)];
    }

    method MatchRequest(verb: nat, path: string, params: Params) returns (r: (Option<Handler>, Params))
      requires Valid() && verb < METHOD_COUNT
      ensures Ordered(routes[verb].nodes) && routes[verb].nodes != []
      ensures r == Match(routes[verb].nodes, prefixRoutes, verb, path, params)
      ensures r.0 == Answer(routes[verb].inserted, prefixRoutes, verb, path)
    {
      r := routes[verb].Lookup(path, params);
      if r.0.Some? {
        return;
      }
      var k := 0;
      while k < |prefixRoutes|
        invariant k <= |prefixRoutes| && FirstCover(prefixRoutes, verb, path, k) == FirstCover(prefixRoutes, verb, path, 0)
      {
        if Covers(prefixRoutes[k], verb, path) {
          return (prefixRoutes[k].handler, r.1["**" := path[|prefixRoutes[k].prefix|..]]);
        }
        k := k + 1;
      }
    }

    method PathExists(path: string) returns (known: bool)
      requires Valid()
      ensures known <==> Known(Tables(), prefixRoutes, path)
    {
      ghost var tables := Tables();
      for v := 0 to METHOD_COUNT
        invariant forall u :: 0 <= u < v ==> Hit(tables[u], 0, path, 0).None?
      {
        var r := Search(routes[v].nodes, 0, path, 0, map[]);
        SearchSettles(tables[v], 0, path, 0, map[]);
        if r.0.Some? {
          assert Hit(tables[v], 0, path, 0).Some?;
          return true;
        }
      }
      known := exists k :: 0 <= k < |prefixRoutes| && prefixRoutes[k].prefix <= path;
    }
  }
}
