/** What a list of inserted patterns means: a plain matcher over the list, and the tree search against it. */
module RouteRules {
  import opened Text
  import opened RouteTree
  import opened RouteSearch

  type Routes = seq<(string, Option<Handler>)>

  /** The handler last given to a shape by a sequence of routes. */
  function LastFor(routes: Routes, s: Shape): Option<Handler> {
    if routes == [] then None
    else
      var (path, handler) := routes[|routes| - 1];
      if ShapeOf(path) == s then handler else LastFor(routes[..|routes| - 1], s)
  }

  /** The name first given to the parameter behind a shape. */
  function FirstName(routes: Routes, s: Shape): Option<string> {
    if routes == [] then None
    else
      var earlier := FirstName(routes[..|routes| - 1], s);
      var path := routes[|routes| - 1].0;
      if earlier.Some? then earlier else PatternName(path, s, |ShapeOf(path)|)
  }

  /** The tree holds these routes. */
  ghost predicate Holds(nodes: seq<Node>, routes: Routes) {
    && (forall s :: HandlerAt(nodes, 0, s) == LastFor(routes, s))
    && (forall s :: NameAt(nodes, 0, s) == FirstName(routes, s))
  }

  // ---------- A plain matcher ----------

  /** Pattern and path side by side: a parameter takes the path up to the next slash. */
  predicate PatternFits(pattern: string, i: nat, path: string, pos: nat)
    requires i <= |pattern| && pos <= |path|
    decreases |pattern| - i
  {
    if i == |pattern| then pos == |path|
    else if pos == |path| then false
    else if pattern[i] == ':' then PatternFits(pattern, Slash(pattern, i + 1), path, Slash(path, pos))
    else pattern[i] == path[pos] && PatternFits(pattern, i + 1, path, pos + 1)
  }

  lemma {:induction false} PatternFitsShape(pattern: string, i: nat, path: string, pos: nat)
    requires i <= |pattern| && pos <= |path|
    ensures PatternFits(pattern, i, path, pos) == Fits(ShapeFrom(pattern, i), path, pos)
    decreases |pattern| - i
  {
    if i < |pattern| && pos < |path| {
      assert ([StepAt(pattern, i)] + ShapeFrom(pattern, NextPos(pattern, i)))[1..] == ShapeFrom(pattern, NextPos(pattern, i));
      if pattern[i] == ':' {
        PatternFitsShape(pattern, Slash(pattern, i + 1), path, Slash(path, pos));
      } else {
        PatternFitsShape(pattern, i + 1, path, pos + 1);
      }
    }
  }

  /** Route `k` has a handler, and no later route has its shape. */
  predicate InForce(routes: Routes, k: nat) {
    && k < |routes| && routes[k].1.Some?
    && forall m :: k < m < |routes| ==> ShapeOf(routes[m].0) != ShapeOf(routes[k].0)
  }

  predicate Eligible(routes: Routes, k: nat, path: string) {
    InForce(routes, k) && PatternFits(routes[k].0, 0, path, 0)
  }

  /** Going through the first `n` routes, the eligible one that prefers literals from the left. */
  function Best(routes: Routes, path: string, n: nat): (r: Option<nat>)
    requires n <= |routes|
    ensures r.Some? ==> r.value < n && Eligible(routes, r.value, path)
  {
    if n == 0 then None
    else
      var best := Best(routes, path, n - 1);
      if Eligible(routes, n - 1, path) && (best.None? || Prefers(ShapeOf(routes[n - 1].0), ShapeOf(routes[best.value].0)))
      then Some(n - 1) else best
  }

  /** The plain matcher: no tree. */
  function Plain(routes: Routes, path: string): Option<Handler> {
    match Best(routes, path, |routes|) case Some(k) => routes[k].1 case None => None
  }

  // ---------- The tree search computes it ----------

  /** A shape has a handler exactly if a route in force has the shape. */
  lemma {:induction false} LastInForce(routes: Routes, s: Shape) returns (k: nat)
    ensures LastFor(routes, s).Some? ==> InForce(routes, k) && ShapeOf(routes[k].0) == s && routes[k].1 == LastFor(routes, s)
    ensures LastFor(routes, s).None? ==> forall m: nat :: InForce(routes, m) ==> ShapeOf(routes[m].0) != s
  {
    k := 0;
    if routes != [] {
      var last := |routes| - 1;
      if ShapeOf(routes[last].0) == s {
        k := last;
      } else {
        k := LastInForce(routes[..last], s);
        forall m: nat | InForce(routes, m) && ShapeOf(routes[m].0) == s ensures InForce(routes[..last], m) && routes[..last][m] == routes[m] {}
      }
    }
  }

  lemma {:induction false} OneWay(s: Shape, t: Shape)
    requires Prefers(s, t)
    ensures s != t && !Prefers(t, s)
  {
    if s[0] == t[0] { OneWay(s[1..], t[1..]); }
  }

  /** Route `k` is eligible and preferred to all other shapes that are. */
  ghost predicate Wins(routes: Routes, path: string, k: nat) {
    && Eligible(routes, k, path)
    && forall m: nat :: Eligible(routes, m, path) ==> m == k || Prefers(ShapeOf(routes[k].0), ShapeOf(routes[m].0))
  }

  lemma {:induction false} BestWins(routes: Routes, path: string, k: nat, n: nat)
    requires Wins(routes, path, k) && n <= |routes|
    ensures k < n ==> Best(routes, path, n) == Some(k)
  {
    if n > 0 {
      BestWins(routes, path, k, n - 1);
      if k < n - 1 && Eligible(routes, n - 1, path) {
        OneWay(ShapeOf(routes[k].0), ShapeOf(routes[n - 1].0));
      }
    }
  }

  lemma {:induction false} BestNone(routes: Routes, path: string, n: nat)
    requires n <= |routes| && forall m: nat :: !Eligible(routes, m, path)
    ensures Best(routes, path, n) == None
  {
    if n > 0 { BestNone(routes, path, n - 1); }
  }

  lemma EligibleCandidate(nodes: seq<Node>, routes: Routes, path: string, k: nat)
    requires Holds(nodes, routes) && InForce(routes, k)
    ensures Candidate(nodes, 0, path, 0, ShapeOf(routes[k].0)) <==> Eligible(routes, k, path)
  {
    var s := ShapeOf(routes[k].0);
    PatternFitsShape(routes[k].0, 0, path, 0);
    var m := LastInForce(routes, s);
    assert HandlerAt(nodes, 0, s) == LastFor(routes, s);
  }

  /** Whatever routes were inserted, in whatever order, the tree search answers as the plain matcher does. */
  lemma SearchIsPlain(nodes: seq<Node>, shapes: seq<Shape>, routes: Routes, path: string, params: Params)
    requires Tree(nodes, shapes) && Ordered(nodes) && Holds(nodes, routes)
    ensures Search(nodes, 0, path, 0, params).0 == Plain(routes, path)
  {
    SearchFromRoot(nodes, shapes, path, params);
    match Hit(nodes, 0, path, 0)
    case None =>
      forall m: nat ensures !Eligible(routes, m, path) {
        if InForce(routes, m) { EligibleCandidate(nodes, routes, path, m); }
      }
      BestNone(routes, path, |routes|);
    case Some(s) =>
      assert HandlerAt(nodes, 0, s) == LastFor(routes, s);
      var k := LastInForce(routes, s);
      EligibleCandidate(nodes, routes, path, k);
      forall m: nat | Eligible(routes, m, path) ensures m == k || Prefers(s, ShapeOf(routes[m].0)) {
        EligibleCandidate(nodes, routes, path, m);
      }
      BestWins(routes, path, k, |routes|);
  }

  // ---------- Prefix routes ----------

  /** The first prefix route that covers the request. */
  function Cover(routes: seq<PrefixRoute>, verb: nat, path: string): Option<PrefixRoute> {
    var k := FirstCover(routes, verb, path, 0);
    if k < |routes| then Some(routes[k]) else None
  }

  lemma {:induction false} CoverMore(routes: seq<PrefixRoute>, route: PrefixRoute, verb: nat, path: string, k: nat)
    requires k <= |routes|
    ensures FirstCover(routes + [route], verb, path, k) ==
            if FirstCover(routes, verb, path, k) < |routes| then FirstCover(routes, verb, path, k)
            else if Covers(route, verb, path) then |routes| else |routes| + 1
    decreases |routes| - k
  {
    if k < |routes| { CoverMore(routes, route, verb, path, k + 1); }
  }

  /** What a router answers, in terms of the calls that built it: the plain matcher, then the first prefix. */
  function Answer(inserted: Routes, prefixes: seq<PrefixRoute>, verb: nat, path: string): Option<Handler> {
    if Plain(inserted, path).Some? then Plain(inserted, path)
    else match Cover(prefixes, verb, path) case Some(route) => route.handler case None => None
  }

  // ---------- A binding that is lost ----------

  const SHADOWING: Routes := [(":x/b/:x/c", Some(1)), (":x/:y/d", Some(2))]

  const DEEP := [Param, Lit('/'), Lit('b'), Lit('/'), Param, Lit('/'), Lit('c')]
  const FLAT := [Param, Lit('/'), Param, Lit('/'), Lit('d')]

  lemma DeepShape()
    ensures ShapeOf(":x/b/:x/c") == DEEP
  {
    var p := ":x/b/:x/c";
    assert Slash(p, 1) == 2 && Slash(p, 6) == 7;
    assert ShapeFrom(p, 7) == DEEP[5..];
    assert ShapeFrom(p, 4) == DEEP[3..];
    assert ShapeFrom(p, 2) == DEEP[1..];
  }

  lemma DeepNames()
    ensures NamesFrom(":x/b/:x/c", 0) == ["x", "", "", "", "x", "", ""]
  {
    var p := ":x/b/:x/c";
    assert Slash(p, 1) == 2 && Slash(p, 6) == 7 && p[1..2] == "x" && p[6..7] == "x";
    assert NamesFrom(p, 7) == ["", ""];
    assert NamesFrom(p, 4) == ["", "x", "", ""];
    assert NamesFrom(p, 2) == ["", "", "", "x", "", ""];
  }

  lemma FlatPattern()
    ensures ShapeOf(":x/:y/d") == FLAT && NamesFrom(":x/:y/d", 0) == ["x", "", "y", "", ""]
  {
    var p := ":x/:y/d";
    assert Slash(p, 1) == 2 && Slash(p, 4) == 5 && p[1..2] == "x" && p[4..5] == "y";
    assert ShapeFrom(p, 5) == FLAT[3..] && NamesFrom(p, 5) == ["", ""];
    assert ShapeFrom(p, 2) == FLAT[1..] && NamesFrom(p, 2) == ["", "y", "", ""];
  }

  /** Two patterns of these shapes, with these names. */
  ghost predicate Shadows(routes: Routes, p: string, q: string) {
    && routes == [(p, Some(1)), (q, Some(2))] && ShapeOf(p) == DEEP && ShapeOf(q) == FLAT
    && NamesFrom(p, 0) == ["x", "", "", "", "x", "", ""] && NamesFrom(q, 0) == ["x", "", "y", "", ""]
  }

  lemma ShadowsHandler(routes: Routes, p: string, q: string, s: Shape)
    requires Shadows(routes, p, q)
    ensures LastFor(routes, s) == if s == FLAT then Some(2) else if s == DEEP then Some(1) else None
  {
    assert routes[..1] == [(p, Some(1))] && routes[..1][..0] == [];
    assert LastFor(routes[..1], s) == if s == DEEP then Some(1) else None;
  }

  lemma ShadowsName(routes: Routes, p: string, q: string, s: Shape)
    requires Shadows(routes, p, q)
    ensures FirstName(routes, s) == if PatternName(p, s, 7).Some? then PatternName(p, s, 7) else PatternName(q, s, 5)
  {
    assert routes[..1] == [(p, Some(1))] && routes[..1][..0] == [];
    assert FirstName(routes[..1], s) == PatternName(p, s, 7);
  }

  lemma ShadowsHeld(nodes: seq<Node>, routes: Routes, p: string, q: string)
    requires Shadows(routes, p, q) && Holds(nodes, routes)
    ensures HandlerAt(nodes, 0, FLAT) == Some(2)
    ensures forall s :: HandlerAt(nodes, 0, s).Some? ==> s == FLAT || s == DEEP
    ensures NameAt(nodes, 0, []) == Some("x") && NameAt(nodes, 0, FLAT[..2]) == Some("y") && NameAt(nodes, 0, DEEP[..4]) == Some("x")
  {
    forall s ensures HandlerAt(nodes, 0, s) == if s == FLAT then Some(2) else if s == DEEP then Some(1) else None {
      ShadowsHandler(routes, p, q, s);
    }
    ShadowsName(routes, p, q, []);
    ShadowsName(routes, p, q, FLAT[..2]);
    ShadowsName(routes, p, q, DEEP[..4]);
  }

  /** What any tree with the two routes holds. */
  lemma ShadowingHeld(nodes: seq<Node>)
    requires Holds(nodes, SHADOWING)
    ensures HandlerAt(nodes, 0, FLAT) == Some(2)
    ensures forall s :: HandlerAt(nodes, 0, s).Some? ==> s == FLAT || s == DEEP
    ensures NameAt(nodes, 0, []) == Some("x") && NameAt(nodes, 0, FLAT[..2]) == Some("y") && NameAt(nodes, 0, DEEP[..4]) == Some("x")
  {
    DeepShape();
    DeepNames();
    FlatPattern();
    ShadowsHeld(nodes, SHADOWING, ":x/b/:x/c", ":x/:y/d");
  }

  const SHADOWED_PATH := "1/b/d"

  lemma ShadowedFits()
    ensures Fits(FLAT, SHADOWED_PATH, 0) && !Fits(DEEP, SHADOWED_PATH, 0)
    ensures Slash(SHADOWED_PATH, 0) == 1 && Slash(SHADOWED_PATH, 2) == 3
  {
    var p := SHADOWED_PATH;
    assert Slash(p, 0) == 1 && Slash(p, 2) == 3 && Slash(p, 4) == 5;
    assert FLAT[1..][1..] == FLAT[2..] && FLAT[2..][1..] == FLAT[3..] && FLAT[3..][1..] == FLAT[4..] && FLAT[4..][1..] == [];
    assert Fits(FLAT[3..], p, 3);
    assert Fits(FLAT[1..], p, 1);
    assert DEEP[1..][1..] == DEEP[2..] && DEEP[2..][1..] == DEEP[3..] && DEEP[3..][1..] == DEEP[4..] && DEEP[4..][1..] == DEEP[5..];
    assert !Fits(DEEP[4..], p, 4);
    assert !Fits(DEEP[2..], p, 2);
  }

  lemma ShadowedReach()
    ensures Reach(DEEP[..4], SHADOWED_PATH, 0) == Some(4)
  {
    var p, s := SHADOWED_PATH, DEEP[..4];
    assert Slash(p, 0) == 1;
    assert s[1..][1..] == s[2..] && s[2..][1..] == s[3..] && s[3..][1..] == [];
    assert Reach(s[3..], p, 3) == Some(4);
    assert Reach(s[2..], p, 2) == Some(4);
    assert Reach(s[1..], p, 1) == Some(4);
  }

  /** The route's bindings, from the names along it. */
  lemma FlatBindings(nodes: seq<Node>)
    requires Ordered(nodes) && nodes != [] && HandlerAt(nodes, 0, FLAT).Some?
    requires NameAt(nodes, 0, []) == Some("x") && NameAt(nodes, 0, FLAT[..2]) == Some("y")
    ensures Bindings(nodes, 0, FLAT, SHADOWED_PATH, 0) == map["x" := "1", "y" := "b"]
  {
    ShadowedFits();
    var p := SHADOWED_PATH;
    var a := Child(nodes, 0, Param).value;
    var b := Child(nodes, a, Lit('/')).value;
    assert FLAT[..2][1..] == [Lit('/')] && [Lit('/')][1..] == [];
    assert Walk(nodes, 0, FLAT[..2]) == Some(b) && nodes[b].name == "y";
    var c := Child(nodes, b, Param).value;
    assert FLAT[1..][1..] == FLAT[2..] && FLAT[2..][1..] == FLAT[3..];
    assert Bindings(nodes, c, FLAT[3..], p, 3) == map[];
    assert p[0..1] == "1" && p[2..3] == "b";
    assert Bindings(nodes, b, FLAT[2..], p, 2) == map["y" := "b"] + map[];
  }

  lemma ShadowedHit(nodes: seq<Node>)
    requires Ordered(nodes) && nodes != [] && Holds(nodes, SHADOWING)
    ensures Hit(nodes, 0, SHADOWED_PATH, 0) == Some(FLAT)
  {
    ShadowingHeld(nodes);
    ShadowedFits();
    HitIsBest(nodes, 0, SHADOWED_PATH, 0);
    assert Candidate(nodes, 0, SHADOWED_PATH, 0, FLAT);
  }

  /** The second parameter of the route erases the name of the first. */
  lemma ShadowedErased(nodes: seq<Node>)
    requires nodes != [] && Holds(nodes, SHADOWING)
    ensures Erases(nodes, 0, SHADOWED_PATH, 0, FLAT, 2, "x") && Takes(nodes, 0, FLAT, 2, "y")
  {
    ShadowingHeld(nodes);
    ShadowedReach();
    assert FLAT[..2] + [Lit('b'), Lit('/')] == DEEP[..4];
    assert Detour(nodes, 0, SHADOWED_PATH, 0, FLAT[..2], [Lit('b'), Lit('/')], "x");
  }

  lemma ShadowedLost(nodes: seq<Node>)
    requires Ordered(nodes) && nodes != [] && Holds(nodes, SHADOWING)
    ensures "x" in Lost(nodes, 0, SHADOWED_PATH, 0) && "y" !in Lost(nodes, 0, SHADOWED_PATH, 0)
  {
    ShadowedHit(nodes);
    ShadowedErased(nodes);
    LostIff(nodes, 0, SHADOWED_PATH, 0, FLAT, "x");
    LostIff(nodes, 0, SHADOWED_PATH, 0, FLAT, "y");
    assert forall k :: 2 < k < |FLAT| ==> FLAT[k] != Param;
  }

  lemma OneIsLost(lost: set<string>)
    requires "x" in lost && "y" !in lost
    ensures map[] + map["x" := "1", "y" := "b"] - lost == map["y" := "b"]
  {}

  /** In every tree with the two routes: the failed attempt at the first erases the outer "x" of the second. */
  lemma ShadowedBindingIsLost(nodes: seq<Node>)
    requires Ordered(nodes) && nodes != [] && Holds(nodes, SHADOWING)
    ensures Search(nodes, 0, SHADOWED_PATH, 0, map[]) == (Some(2), map["y" := "b"])
  {
    ShadowedHit(nodes);
    ShadowingHeld(nodes);
    SearchSettles(nodes, 0, SHADOWED_PATH, 0, map[]);
    FlatBindings(nodes);
    ShadowedLost(nodes);
    OneIsLost(Lost(nodes, 0, SHADOWED_PATH, 0));
  }
}
