/** Searching the route tree: which route wins, and what becomes of the parameter map. */
module RouteSearch {
  import opened Text
  import opened RouteTree

  type Params = map<string, string>

  /** Links point down the table. */
  ghost predicate Ordered(nodes: seq<Node>) {
    forall i: nat, step {:trigger Child(nodes, i, step)} :: Child(nodes, i, step).Some? ==> i < Child(nodes, i, step).value < |nodes|
  }

  lemma TreeOrdered(nodes: seq<Node>, shapes: seq<Shape>)
    requires Tree(nodes, shapes)
    ensures Ordered(nodes)
  {
    forall i: nat, step | Child(nodes, i, step).Some? ensures i < Child(nodes, i, step).value < |nodes| {
      assert Linked(nodes, shapes, i, step);
    }
  }

  /** `search_recursive`, with the map it leaves behind. */
  function Search(nodes: seq<Node>, i: nat, path: string, pos: nat, params: Params): (Option<Handler>, Params)
    requires Ordered(nodes) && i < |nodes| && pos <= |path|
    decreases |path| - pos, |nodes| - i
  {
    if pos == |path| then (nodes[i].handler, params)
    else
      var lit := match Child(nodes, i, Lit(path[pos]))
        case Some(j) => Search(nodes, j, path, pos + 1, params)
        case None => (None, params);
      if lit.0.Some? then lit
      else match Child(nodes, i, Param)
        case None => (None, lit.1)
        case Some(j) =>
          var end := Slash(path, pos);
          var sub := Search(nodes, j, path, end, lit.1[nodes[i].name := path[pos..end]]);
          if sub.0.Some? then sub else (None, sub.1 - {nodes[i].name})
  }

  // ---------- Which route wins ----------

  /** The path from `pos` on has this shape; a parameter takes the characters up to the next slash, perhaps none. */
  predicate Fits(s: Shape, path: string, pos: nat)
    requires pos <= |path|
  {
    if s == [] then pos == |path|
    else
      && pos < |path|
      && match s[0] case Lit(c) => path[pos] == c && Fits(s[1..], path, pos + 1) case Param => Fits(s[1..], path, Slash(path, pos))
  }

  /** Where the two first differ, `s` is literal and `t` a parameter. */
  predicate Prefers(s: Shape, t: Shape) {
    && s != [] && t != []
    && ((s[0].Lit? && t[0].Param?) || (s[0] == t[0] && Prefers(s[1..], t[1..])))
  }

  /** A route of the subtree at `i` that fits. */
  predicate Candidate(nodes: seq<Node>, i: nat, path: string, pos: nat, s: Shape)
    requires pos <= |path|
  {
    Fits(s, path, pos) && HandlerAt(nodes, i, s).Some?
  }

  /** The shape of the route that the search settles on. */
  function Hit(nodes: seq<Node>, i: nat, path: string, pos: nat): Option<Shape>
    requires Ordered(nodes) && i < |nodes| && pos <= |path|
    decreases |path| - pos, |nodes| - i
  {
    if pos == |path| then (if nodes[i].handler.Some? then Some([]) else None)
    else
      match Below(nodes, i, path, pos, Lit(path[pos]))
      case Some(s) => Some(s)
      case None => Below(nodes, i, path, pos, Param)
  }

  function Below(nodes: seq<Node>, i: nat, path: string, pos: nat, step: Step): Option<Shape>
    requires Ordered(nodes) && i < |nodes| && pos < |path|
    decreases |path| - pos, |nodes| - i, 0
  {
    match Child(nodes, i, step)
    case None => None
    case Some(j) =>
      match Hit(nodes, j, path, if step.Lit? then pos + 1 else Slash(path, pos))
      case None => None
      case Some(s) => Some([step] + s)
  }

  /** The search settles on a route exactly if one fits, and on the one that prefers literals from the left. */
  lemma {:induction false} HitIsBest(nodes: seq<Node>, i: nat, path: string, pos: nat)
    requires Ordered(nodes) && i < |nodes| && pos <= |path|
    ensures match Hit(nodes, i, path, pos)
            case None => forall t :: !Candidate(nodes, i, path, pos, t)
            case Some(s) =>
              && Candidate(nodes, i, path, pos, s)
              && forall t :: Candidate(nodes, i, path, pos, t) ==> t == s || Prefers(s, t)
    decreases |path| - pos, |nodes| - i
  {
    if pos < |path| {
      BelowIsBest(nodes, i, path, pos, Lit(path[pos]));
      BelowIsBest(nodes, i, path, pos, Param);
    } else {
      forall t | Candidate(nodes, i, path, pos, t) ensures t == [] {}
    }
  }

  lemma {:induction false} BelowIsBest(nodes: seq<Node>, i: nat, path: string, pos: nat, step: Step)
    requires Ordered(nodes) && i < |nodes| && pos < |path| && step in {Lit(path[pos]), Param}
    ensures match Below(nodes, i, path, pos, step)
            case None => forall t :: Candidate(nodes, i, path, pos, t) ==> t[0] != step
            case Some(s) =>
              && s != [] && s[0] == step && Candidate(nodes, i, path, pos, s)
              && forall t :: Candidate(nodes, i, path, pos, t) && t[0] == step ==> t == s || Prefers(s, t)
    decreases |path| - pos, |nodes| - i, 0
  {
    match Child(nodes, i, step)
    case None =>
    case Some(j) =>
      var next := if step.Lit? then pos + 1 else Slash(path, pos);
      HitIsBest(nodes, j, path, next);
      forall t | Candidate(nodes, i, path, pos, t) && t[0] == step ensures Candidate(nodes, j, path, next, t[1..]) {}
  }

  // ---------- What becomes of the parameters ----------

  /** The values a route takes from the path; of two parameters with one name, the later counts. */
  function Bindings(nodes: seq<Node>, i: nat, s: Shape, path: string, pos: nat): Params
    requires pos <= |path|
    decreases |s|
  {
    if s == [] || pos == |path| || i >= |nodes| then map[]
    else
      match Child(nodes, i, s[0])
      case None => map[]
      case Some(j) =>
        if s[0].Lit? then Bindings(nodes, j, s[1..], path, pos + 1)
        else map[nodes[i].name := path[pos..Slash(path, pos)]] + Bindings(nodes, j, s[1..], path, Slash(path, pos))
  }

  /** The names that a search without success tries, and erases again. */
  function Tried(nodes: seq<Node>, i: nat, path: string, pos: nat): set<string>
    requires Ordered(nodes) && i < |nodes| && pos <= |path|
    decreases |path| - pos, |nodes| - i
  {
    if pos == |path| then {}
    else
      (match Child(nodes, i, Lit(path[pos])) case Some(j) => Tried(nodes, j, path, pos + 1) case None => {})
      + (match Child(nodes, i, Param) case Some(j) => {nodes[i].name} + Tried(nodes, j, path, Slash(path, pos)) case None => {})
  }

  /** The names that a search with success erases on its way and does not bind again. */
  function Lost(nodes: seq<Node>, i: nat, path: string, pos: nat): set<string>
    requires Ordered(nodes) && i < |nodes| && pos <= |path|
    decreases |path| - pos, |nodes| - i
  {
    if pos == |path| then {}
    else
      var lit, param := Child(nodes, i, Lit(path[pos])), Child(nodes, i, Param);
      if lit.Some? && Hit(nodes, lit.value, path, pos + 1).Some? then Lost(nodes, lit.value, path, pos + 1)
      else
        var tried := if lit.Some? then Tried(nodes, lit.value, path, pos + 1) else {};
        match param
        case None => {}
        case Some(j) =>
          match Hit(nodes, j, path, Slash(path, pos))
          case None => {}
          case Some(s) =>
            (tried - {nodes[i].name} - Bindings(nodes, j, s, path, Slash(path, pos)).Keys) + Lost(nodes, j, path, Slash(path, pos))
  }

  /** The search returns the handler of the route it settles on, and the map is in closed form: the
      route's bindings, less what was lost; or the old map less what was tried. */
  ghost predicate Settles(nodes: seq<Node>, i: nat, path: string, pos: nat, params: Params, r: (Option<Handler>, Params))
    requires Ordered(nodes) && i < |nodes| && pos <= |path|
  {
    match Hit(nodes, i, path, pos)
    case None => r == (None, params - Tried(nodes, i, path, pos))
    case Some(s) =>
      && r.0.Some? && r.0 == HandlerAt(nodes, i, s)
      && r.1 == params + Bindings(nodes, i, s, path, pos) - Lost(nodes, i, path, pos)
  }

  lemma MapHit(params: Params, tried: set<string>, n: string, v: string, b: Params, lost: set<string>)
    ensures (params - tried)[n := v] + b - lost == params + (map[n := v] + b) - ((tried - {n} - b.Keys) + lost)
  {}

  lemma MapMiss(params: Params, tried: set<string>, n: string, v: string, more: set<string>)
    ensures (params - tried)[n := v] - more - {n} == params - (tried + ({n} + more))
  {}

  /** The literal child first: if it fails, the map has lost what it tried. */
  lemma {:induction false} SearchSettles(nodes: seq<Node>, i: nat, path: string, pos: nat, params: Params)
    requires Ordered(nodes) && i < |nodes| && pos <= |path|
    ensures Settles(nodes, i, path, pos, params, Search(nodes, i, path, pos, params))
    decreases |path| - pos, |nodes| - i
  {
    if pos == |path| {
      assert params - {} == params && params + map[] == params;
    } else {
      var lit := Child(nodes, i, Lit(path[pos]));
      assert params - {} == params;
      if lit.Some? {
        SearchSettles(nodes, lit.value, path, pos + 1, params);
      }
      if lit.None? || Hit(nodes, lit.value, path, pos + 1).None? {
        var tried := if lit.Some? then Tried(nodes, lit.value, path, pos + 1) else {};
        ParamSettles(nodes, i, path, pos, params, tried);
      } else {
        LiteralSettles(nodes, i, path, pos, params, lit.value);
      }
    }
  }

  lemma LiteralSettles(nodes: seq<Node>, i: nat, path: string, pos: nat, params: Params, j: nat)
    requires Ordered(nodes) && i < |nodes| && pos < |path| && Child(nodes, i, Lit(path[pos])) == Some(j)
    requires Hit(nodes, j, path, pos + 1).Some?
    requires Settles(nodes, j, path, pos + 1, params, Search(nodes, j, path, pos + 1, params))
    ensures Settles(nodes, i, path, pos, params, Search(nodes, i, path, pos, params))
  {
    var s := Hit(nodes, j, path, pos + 1).value;
    var t := [Lit(path[pos])] + s;
    assert t[1..] == s;
    assert Hit(nodes, i, path, pos) == Some(t);
  }

  lemma {:induction false} ParamSettles(nodes: seq<Node>, i: nat, path: string, pos: nat, params: Params, tried: set<string>)
    requires Ordered(nodes) && i < |nodes| && pos < |path|
    requires var lit := Child(nodes, i, Lit(path[pos]));
             && (lit.None? ==> tried == {})
             && (lit.Some? ==>
                   && Hit(nodes, lit.value, path, pos + 1).None? && tried == Tried(nodes, lit.value, path, pos + 1)
                   && Settles(nodes, lit.value, path, pos + 1, params, Search(nodes, lit.value, path, pos + 1, params)))
    ensures Settles(nodes, i, path, pos, params, Search(nodes, i, path, pos, params))
    decreases |path| - pos, |nodes| - i, 0
  {
    assert params - {} == params;
    assert tried + {} == tried;
    assert Below(nodes, i, path, pos, Lit(path[pos])).None?;
    assert Hit(nodes, i, path, pos) == Below(nodes, i, path, pos, Param);
    if Child(nodes, i, Param).Some? {
      var j, end, n := Child(nodes, i, Param).value, Slash(path, pos), nodes[i].name;
      var v := path[pos..end];
      SearchSettles(nodes, j, path, end, (params - tried)[n := v]);
      match Hit(nodes, j, path, end)
      case None => MapMiss(params, tried, n, v, Tried(nodes, j, path, end));
      case Some(s) =>
        MapHit(params, tried, n, v, Bindings(nodes, j, s, path, end), Lost(nodes, j, path, end));
        assert ([Param] + s)[1..] == s;
        assert Hit(nodes, i, path, pos) == Some([Param] + s);
    }
  }

  /** From the root, for every tree and every path: a handler is returned exactly if some route fits, it is
      the one preferred to all others that fit, and the map is in closed form. */
  lemma SearchFromRoot(nodes: seq<Node>, shapes: seq<Shape>, path: string, params: Params)
    requires Tree(nodes, shapes) && Ordered(nodes)
    ensures var r := Search(nodes, 0, path, 0, params);
            match Hit(nodes, 0, path, 0)
            case None =>
              && r == (None, params - Tried(nodes, 0, path, 0))
              && forall t :: Fits(t, path, 0) ==> HandlerAt(nodes, 0, t).None?
            case Some(s) =>
              && r == (HandlerAt(nodes, 0, s), params + Bindings(nodes, 0, s, path, 0) - Lost(nodes, 0, path, 0))
              && Candidate(nodes, 0, path, 0, s)
              && forall t :: Candidate(nodes, 0, path, 0, t) ==> t == s || Prefers(s, t)
  {
    SearchSettles(nodes, 0, path, 0, params);
    HitIsBest(nodes, 0, path, 0);
    assert forall t :: Fits(t, path, 0) && HandlerAt(nodes, 0, t).Some? ==> Candidate(nodes, 0, path, 0, t);
  }

  // ---------- Which names those are ----------

  /** Where the path is behind the steps of `s`, if it follows them. */
  function Reach(s: Shape, path: string, pos: nat): (r: Option<nat>)
    requires pos <= |path|
    ensures r.Some? ==> pos <= r.value <= |path|
    decreases |s|
  {
    if s == [] then Some(pos)
    else if pos == |path| then None
    else
      match s[0]
      case Lit(c) => if path[pos] == c then Reach(s[1..], path, pos + 1) else None
      case Param => Reach(s[1..], path, Slash(path, pos))
  }

  /** The path follows `s` and goes on, and a parameter called `n` stands there. */
  predicate Meets(nodes: seq<Node>, i: nat, path: string, pos: nat, s: Shape, n: string)
    requires pos <= |path|
  {
    NameAt(nodes, i, s) == Some(n) && Reach(s, path, pos).Some? && Reach(s, path, pos).value < |path|
  }

  function Next(path: string, pos: nat, step: Step): (r: nat)
    requires pos < |path|
    ensures pos <= r <= |path|
  {
    if step.Lit? then pos + 1 else Slash(path, pos)
  }

  lemma MeetsBelow(nodes: seq<Node>, i: nat, path: string, pos: nat, step: Step, s: Shape, n: string)
    requires i < |nodes| && pos < |path| && step in {Lit(path[pos]), Param}
    ensures Meets(nodes, i, path, pos, [step] + s, n) <==>
            Child(nodes, i, step).Some? && Meets(nodes, Child(nodes, i, step).value, path, Next(path, pos, step), s, n)
  {
    assert ([step] + s)[1..] == s;
  }

  /** The names tried are those of the parameters that the path leads to along any route. */
  lemma {:induction false} TriedIff(nodes: seq<Node>, i: nat, path: string, pos: nat, n: string)
    requires Ordered(nodes) && i < |nodes| && pos <= |path|
    ensures n in Tried(nodes, i, path, pos) <==> exists s :: Meets(nodes, i, path, pos, s, n)
    decreases |path| - pos, |nodes| - i
  {
    if pos < |path| {
      TriedBelow(nodes, i, path, pos, Lit(path[pos]), n);
      TriedBelow(nodes, i, path, pos, Param, n);
      assert Meets(nodes, i, path, pos, [], n) <==> nodes[i].param.Some? && nodes[i].name == n;
      forall s | Meets(nodes, i, path, pos, s, n) && s != [] ensures s[0] in {Lit(path[pos]), Param} {}
    }
  }

  lemma {:induction false} TriedBelow(nodes: seq<Node>, i: nat, path: string, pos: nat, step: Step, n: string)
    requires Ordered(nodes) && i < |nodes| && pos < |path| && step in {Lit(path[pos]), Param}
    ensures (Child(nodes, i, step).Some? && n in Tried(nodes, Child(nodes, i, step).value, path, Next(path, pos, step))) <==>
            exists s :: s != [] && s[0] == step && Meets(nodes, i, path, pos, s, n)
    decreases |path| - pos, |nodes| - i, 0
  {
    var child := Child(nodes, i, step);
    if child.Some? {
      TriedIff(nodes, child.value, path, Next(path, pos, step), n);
      if s :| Meets(nodes, child.value, path, Next(path, pos, step), s, n) {
        MeetsBelow(nodes, i, path, pos, step, s, n);
        assert ([step] + s)[0] == step;
      }
    }
    forall s | s != [] && s[0] == step && Meets(nodes, i, path, pos, s, n)
      ensures child.Some? && Meets(nodes, child.value, path, Next(path, pos, step), s[1..], n)
    {
      assert [step] + s[1..] == s;
      MeetsBelow(nodes, i, path, pos, step, s[1..], n);
    }
  }

  /** Step `m` of the route `s` is a parameter called `n`. */
  predicate Takes(nodes: seq<Node>, i: nat, s: Shape, m: int, n: string) {
    0 <= m < |s| && s[m] == Param && NameAt(nodes, i, s[..m]) == Some(n)
  }

  lemma TakesBelow(nodes: seq<Node>, i: nat, step: Step, s: Shape, m: nat, n: string)
    requires i < |nodes| && Child(nodes, i, step).Some?
    ensures Takes(nodes, i, [step] + s, m + 1, n) <==> Takes(nodes, Child(nodes, i, step).value, s, m, n)
    ensures Takes(nodes, i, [step] + s, 0, n) <==> step == Param && nodes[i].name == n
  {
    if m < |s| {
      assert ([step] + s)[..m + 1] == [step] + s[..m];
      assert ([step] + s[..m])[1..] == s[..m];
    }
    assert ([step] + s)[..0] == [];
  }

  /** A route binds exactly the names of its parameters. */
  lemma {:induction false} BoundIff(nodes: seq<Node>, i: nat, s: Shape, path: string, pos: nat, n: string)
    requires Ordered(nodes) && i < |nodes| && pos <= |path| && Candidate(nodes, i, path, pos, s)
    ensures n in Bindings(nodes, i, s, path, pos) <==> exists m :: Takes(nodes, i, s, m, n)
    decreases |s|
  {
    if s != [] {
      var step, t := s[0], s[1..];
      assert s == [step] + t;
      var j := Child(nodes, i, step).value;
      BoundIff(nodes, j, t, path, Next(path, pos, step), n);
      TakesBelow(nodes, i, step, t, 0, n);
      if m :| Takes(nodes, j, t, m, n) { TakesBelow(nodes, i, step, t, m, n); }
      if m :| Takes(nodes, i, s, m, n) && m > 0 { TakesBelow(nodes, i, step, t, m - 1, n); }
    }
  }

  /** At step `k` the route `s` takes a parameter, the literal alternative leads along the path to a parameter
      called `n`, and the route takes no `n` at `k` or later. */
  ghost predicate Erases(nodes: seq<Node>, i: nat, path: string, pos: nat, s: Shape, k: nat, n: string)
    requires pos <= |path|
  {
    && k < |s| && s[k] == Param
    && (exists t :: Detour(nodes, i, path, pos, s[..k], t, n))
    && TakesBefore(nodes, i, s, k, n)
  }

  predicate Detour(nodes: seq<Node>, i: nat, path: string, pos: nat, s: Shape, t: Shape, n: string)
    requires pos <= |path|
  {
    t != [] && t[0].Lit? && Meets(nodes, i, path, pos, s + t, n)
  }

  lemma DetourBelow(nodes: seq<Node>, i: nat, path: string, pos: nat, step: Step, s: Shape, n: string)
    requires i < |nodes| && pos < |path| && step in {Lit(path[pos]), Param} && Child(nodes, i, step).Some?
    ensures (exists t :: Detour(nodes, i, path, pos, [step] + s, t, n)) <==>
            exists t :: Detour(nodes, Child(nodes, i, step).value, path, Next(path, pos, step), s, t, n)
  {
    forall t ensures Detour(nodes, i, path, pos, [step] + s, t, n) <==>
                     Detour(nodes, Child(nodes, i, step).value, path, Next(path, pos, step), s, t, n)
    {
      assert ([step] + s) + t == [step] + (s + t);
      MeetsBelow(nodes, i, path, pos, step, s + t, n);
    }
  }

  ghost predicate TakesBefore(nodes: seq<Node>, i: nat, s: Shape, k: nat, n: string) {
    forall m :: Takes(nodes, i, s, m, n) ==> m < k
  }

  lemma TakesBeforeBelow(nodes: seq<Node>, i: nat, step: Step, s: Shape, k: nat, n: string)
    requires i < |nodes| && Child(nodes, i, step).Some?
    ensures TakesBefore(nodes, i, [step] + s, k + 1, n) <==> TakesBefore(nodes, Child(nodes, i, step).value, s, k, n)
  {
    var j := Child(nodes, i, step).value;
    if m :| Takes(nodes, j, s, m, n) && m >= k { TakesBelow(nodes, i, step, s, m, n); }
    if m :| Takes(nodes, i, [step] + s, m, n) && m >= k + 1 { TakesBelow(nodes, i, step, s, m - 1, n); }
  }

  lemma ErasesBelow(nodes: seq<Node>, i: nat, path: string, pos: nat, step: Step, s: Shape, k: nat, n: string)
    requires i < |nodes| && pos < |path| && step in {Lit(path[pos]), Param} && Child(nodes, i, step).Some?
    ensures Erases(nodes, i, path, pos, [step] + s, k + 1, n) <==>
            Erases(nodes, Child(nodes, i, step).value, path, Next(path, pos, step), s, k, n)
  {
    if k < |s| {
      assert ([step] + s)[..k + 1] == [step] + s[..k];
      DetourBelow(nodes, i, path, pos, step, s[..k], n);
      TakesBeforeBelow(nodes, i, step, s, k, n);
    }
  }

  /** Exactly the names erased at some step of the route found are lost. */
  lemma {:induction false} LostIff(nodes: seq<Node>, i: nat, path: string, pos: nat, s: Shape, n: string)
    requires Ordered(nodes) && i < |nodes| && pos <= |path| && Hit(nodes, i, path, pos) == Some(s)
    ensures n in Lost(nodes, i, path, pos) <==> exists k :: Erases(nodes, i, path, pos, s, k, n)
    decreases |path| - pos, |nodes| - i
  {
    if pos < |path| {
      var step, t := s[0], s[1..];
      assert s == [step] + t;
      var j := Child(nodes, i, step).value;
      LostIff(nodes, j, path, Next(path, pos, step), t, n);
      LostBehind(nodes, i, path, pos, step, t, n);
      if step.Param? {
        ErasedHere(nodes, i, path, pos, t, n);
      }
    }
  }

  lemma LostBehind(nodes: seq<Node>, i: nat, path: string, pos: nat, step: Step, s: Shape, n: string)
    requires i < |nodes| && pos < |path| && step in {Lit(path[pos]), Param} && Child(nodes, i, step).Some?
    ensures (exists k :: Erases(nodes, i, path, pos, [step] + s, k, n)) <==>
            || Erases(nodes, i, path, pos, [step] + s, 0, n)
            || exists k :: Erases(nodes, Child(nodes, i, step).value, path, Next(path, pos, step), s, k, n)
  {
    if k :| Erases(nodes, Child(nodes, i, step).value, path, Next(path, pos, step), s, k, n) {
      ErasesBelow(nodes, i, path, pos, step, s, k, n);
    }
    if k :| k > 0 && Erases(nodes, i, path, pos, [step] + s, k, n) {
      ErasesBelow(nodes, i, path, pos, step, s, k - 1, n);
    }
  }

  /** At the parameter itself: what the literal child tried and the route does not take. */
  lemma ErasedHere(nodes: seq<Node>, i: nat, path: string, pos: nat, s: Shape, n: string)
    requires Ordered(nodes) && i < |nodes| && pos < |path| && Child(nodes, i, Param).Some?
    requires Hit(nodes, Child(nodes, i, Param).value, path, Slash(path, pos)) == Some(s)
    ensures var lit, j := Child(nodes, i, Lit(path[pos])), Child(nodes, i, Param).value;
            Erases(nodes, i, path, pos, [Param] + s, 0, n) <==>
              && lit.Some? && n in Tried(nodes, lit.value, path, pos + 1)
              && n != nodes[i].name && n !in Bindings(nodes, j, s, path, Slash(path, pos))
  {
    assert ([Param] + s)[..0] == [];
    DetourHere(nodes, i, path, pos, n);
    NeverTakes(nodes, i, path, pos, s, n);
  }

  lemma DetourHere(nodes: seq<Node>, i: nat, path: string, pos: nat, n: string)
    requires Ordered(nodes) && i < |nodes| && pos < |path|
    ensures var lit := Child(nodes, i, Lit(path[pos]));
            (exists t :: Detour(nodes, i, path, pos, [], t, n)) <==> lit.Some? && n in Tried(nodes, lit.value, path, pos + 1)
  {
    TriedBelow(nodes, i, path, pos, Lit(path[pos]), n);
    forall t ensures Detour(nodes, i, path, pos, [], t, n) <==> t != [] && t[0] == Lit(path[pos]) && Meets(nodes, i, path, pos, t, n) {
      assert [] + t == t;
    }
  }

  lemma NeverTakes(nodes: seq<Node>, i: nat, path: string, pos: nat, s: Shape, n: string)
    requires Ordered(nodes) && i < |nodes| && pos < |path| && Child(nodes, i, Param).Some?
    requires Hit(nodes, Child(nodes, i, Param).value, path, Slash(path, pos)) == Some(s)
    ensures TakesBefore(nodes, i, [Param] + s, 0, n) <==>
            n != nodes[i].name && n !in Bindings(nodes, Child(nodes, i, Param).value, s, path, Slash(path, pos))
  {
    var j, end := Child(nodes, i, Param).value, Slash(path, pos);
    HitIsBest(nodes, j, path, end);
    BoundIff(nodes, j, s, path, end, n);
    TakesBelow(nodes, i, Param, s, 0, n);
    if m :| Takes(nodes, i, [Param] + s, m, n) && m > 0 { TakesBelow(nodes, i, Param, s, m - 1, n); }
    if m :| Takes(nodes, j, s, m, n) { TakesBelow(nodes, i, Param, s, m, n); }
  }

  // ---------- When no binding is lost ----------

  ghost predicate Occurs(nodes: seq<Node>, i: nat, name: string) {
    exists s :: NameAt(nodes, i, s) == Some(name)
  }

  /** No parameter below another has its name. */
  ghost predicate Apart(nodes: seq<Node>) {
    forall i :: 0 <= i < |nodes| && nodes[i].param.Some? ==> !Occurs(nodes, nodes[i].param.value, nodes[i].name)
  }

  lemma TriedOccurs(nodes: seq<Node>, i: nat, path: string, pos: nat, name: string)
    requires Ordered(nodes) && i < |nodes| && pos <= |path| && name in Tried(nodes, i, path, pos)
    ensures Occurs(nodes, i, name)
  {
    TriedIff(nodes, i, path, pos, name);
  }

  lemma LostOccurs(nodes: seq<Node>, i: nat, path: string, pos: nat, name: string)
    requires Ordered(nodes) && i < |nodes| && pos <= |path| && Hit(nodes, i, path, pos).Some? && name in Lost(nodes, i, path, pos)
    ensures Occurs(nodes, i, name)
  {
    LostIff(nodes, i, path, pos, Hit(nodes, i, path, pos).value, name);
  }

  /** If no name repeats below itself, a route that is found keeps every one of its bindings. */
  lemma {:induction false} NothingLost(nodes: seq<Node>, i: nat, path: string, pos: nat)
    requires Ordered(nodes) && Apart(nodes) && i < |nodes| && pos <= |path| && Hit(nodes, i, path, pos).Some?
    ensures Lost(nodes, i, path, pos) !! Bindings(nodes, i, Hit(nodes, i, path, pos).value, path, pos).Keys
    decreases |path| - pos, |nodes| - i
  {
    if pos < |path| {
      var lit, param := Child(nodes, i, Lit(path[pos])), Child(nodes, i, Param);
      var t := Hit(nodes, i, path, pos).value;
      if lit.Some? && Hit(nodes, lit.value, path, pos + 1).Some? {
        NothingLost(nodes, lit.value, path, pos + 1);
        assert t[1..] == Hit(nodes, lit.value, path, pos + 1).value;
      } else {
        var end := Slash(path, pos);
        NothingLost(nodes, param.value, path, end);
        assert t[1..] == Hit(nodes, param.value, path, end).value;
        if nodes[i].name in Lost(nodes, param.value, path, end) {
          LostOccurs(nodes, param.value, path, end, nodes[i].name);
        }
      }
    }
  }

  /** With names apart, and none of them in the map to begin with, backtracking leaves no trace: without a route
      the map is as before, with one it has gained exactly the bindings of that route. */
  lemma BindingsAreExact(nodes: seq<Node>, path: string, params: Params)
    requires Ordered(nodes) && Apart(nodes) && nodes != []
    requires forall n :: n in params ==> !Occurs(nodes, 0, n)
    ensures Search(nodes, 0, path, 0, params).1 ==
            match Hit(nodes, 0, path, 0) case None => params case Some(s) => params + Bindings(nodes, 0, s, path, 0)
  {
    SearchSettles(nodes, 0, path, 0, params);
    match Hit(nodes, 0, path, 0)
    case None =>
      forall n | n in Tried(nodes, 0, path, 0) ensures n !in params { TriedOccurs(nodes, 0, path, 0, n); }
    case Some(s) =>
      NothingLost(nodes, 0, path, 0);
      forall n | n in Lost(nodes, 0, path, 0) ensures n !in params { LostOccurs(nodes, 0, path, 0, n); }
  }

  lemma DeliveredUnlessLost(nodes: seq<Node>, path: string, params: Params, s: Shape, n: string)
    requires Ordered(nodes) && nodes != [] && Hit(nodes, 0, path, 0) == Some(s)
    ensures var b, r := Bindings(nodes, 0, s, path, 0), Search(nodes, 0, path, 0, params).1;
            n in b ==> (n in r && r[n] == b[n] <==> n !in Lost(nodes, 0, path, 0))
  {
    SearchSettles(nodes, 0, path, 0, params);
  }

  lemma LostUnlessApart(nodes: seq<Node>, path: string, s: Shape, n: string)
    requires Ordered(nodes) && nodes != [] && Hit(nodes, 0, path, 0) == Some(s)
    ensures n in Bindings(nodes, 0, s, path, 0) && n in Lost(nodes, 0, path, 0) <==>
            exists j, k :: Takes(nodes, 0, s, j, n) && Erases(nodes, 0, path, 0, s, k, n)
  {
    HitIsBest(nodes, 0, path, 0);
    BoundIff(nodes, 0, s, path, 0, n);
    LostIff(nodes, 0, path, 0, s, n);
  }

  /** All bindings of the route found are delivered exactly if no name that one of its parameters takes is erased
      at a later one. */
  lemma BindingsDeliveredIff(nodes: seq<Node>, path: string, params: Params)
    requires Ordered(nodes) && nodes != [] && Hit(nodes, 0, path, 0).Some?
    ensures var s := Hit(nodes, 0, path, 0).value;
            var b, r := Bindings(nodes, 0, s, path, 0), Search(nodes, 0, path, 0, params).1;
            (forall n :: n in b ==> n in r && r[n] == b[n]) <==>
            !exists n, j, k :: Takes(nodes, 0, s, j, n) && Erases(nodes, 0, path, 0, s, k, n)
  {
    var s := Hit(nodes, 0, path, 0).value;
    var b, r := Bindings(nodes, 0, s, path, 0), Search(nodes, 0, path, 0, params).1;
    if n, j, k :| Takes(nodes, 0, s, j, n) && Erases(nodes, 0, path, 0, s, k, n) {
      DeliveredUnlessLost(nodes, path, params, s, n);
      LostUnlessApart(nodes, path, s, n);
    } else {
      forall n | n in b ensures n in r && r[n] == b[n] {
        DeliveredUnlessLost(nodes, path, params, s, n);
        LostUnlessApart(nodes, path, s, n);
      }
    }
  }

  // ---------- Matching a request ----------

  datatype PrefixRoute = PrefixRoute(verb: nat, prefix: string, handler: Option<Handler>)

  predicate Covers(route: PrefixRoute, verb: nat, path: string) { route.verb == verb && route.prefix <= path }

  /** The first prefix route that covers the request, or the length. */
  function FirstCover(routes: seq<PrefixRoute>, verb: nat, path: string, k: nat): (j: nat)
    requires k <= |routes|
    ensures k <= j <= |routes| && (j < |routes| ==> Covers(routes[j], verb, path))
    ensures forall i :: k <= i < j ==> !Covers(routes[i], verb, path)
    decreases |routes| - k
  {
    if k == |routes| || Covers(routes[k], verb, path) then k else FirstCover(routes, verb, path, k + 1)
  }

  /** `match`: the tree of the method, then the prefix routes. */
  function Match(nodes: seq<Node>, routes: seq<PrefixRoute>, verb: nat, path: string, params: Params): (Option<Handler>, Params)
    requires Ordered(nodes) && nodes != []
  {
    var r := Search(nodes, 0, path, 0, params);
    var k := FirstCover(routes, verb, path, 0);
    if r.0.Some? then r
    else if k < |routes| then (routes[k].handler, r.1["**" := path[|routes[k].prefix|..]])
    else r
  }

  /** Where no route of the tree fits, the first prefix route that covers the request answers: its handler, and under "**"
      exactly what the path has behind the prefix; other names are as the search left them. */
  lemma PrefixAnswers(nodes: seq<Node>, routes: seq<PrefixRoute>, verb: nat, path: string, params: Params, k: nat)
    requires Ordered(nodes) && nodes != [] && (forall t :: !Candidate(nodes, 0, path, 0, t))
    requires k < |routes| && routes[k].verb == verb && routes[k].prefix <= path
    requires forall i :: 0 <= i < k ==> routes[i].verb != verb || !(routes[i].prefix <= path)
    ensures var r := Match(nodes, routes, verb, path, params);
            && r.0 == routes[k].handler && "**" in r.1 && routes[k].prefix + r.1["**"] == path
            && (forall n :: n != "**" ==>
                  && (n in r.1 <==> n in params && n !in Tried(nodes, 0, path, 0))
                  && (n in r.1 ==> r.1[n] == params[n]))
  {
    HitIsBest(nodes, 0, path, 0);
    SearchSettles(nodes, 0, path, 0, params);
  }

  /** Where neither does, there is no handler and no name but those that were there. */
  lemma NothingAnswers(nodes: seq<Node>, routes: seq<PrefixRoute>, verb: nat, path: string, params: Params)
    requires Ordered(nodes) && nodes != [] && (forall t :: !Candidate(nodes, 0, path, 0, t))
    requires forall i :: 0 <= i < |routes| ==> routes[i].verb != verb || !(routes[i].prefix <= path)
    ensures var r := Match(nodes, routes, verb, path, params);
            r.0 == None && r.1.Keys <= params.Keys && forall n :: n in r.1 ==> r.1[n] == params[n]
  {
    HitIsBest(nodes, 0, path, 0);
    SearchSettles(nodes, 0, path, 0, params);
  }

  /** The path is known under some method. */
  ghost predicate Known(tables: seq<seq<Node>>, routes: seq<PrefixRoute>, path: string)
    requires forall v :: 0 <= v < |tables| ==> Ordered(tables[v]) && tables[v] != []
  {
    || (exists v :: 0 <= v < |tables| && Hit(tables[v], 0, path, 0).Some?)
    || (exists k :: 0 <= k < |routes| && routes[k].prefix <= path)
  }

  /** A path is known exactly if some method matches it: what tells 405 from 404. */
  lemma KnownIffMatched(tables: seq<seq<Node>>, routes: seq<PrefixRoute>, path: string, params: Params)
    requires forall v :: 0 <= v < |tables| ==> Ordered(tables[v]) && tables[v] != []
    requires forall k :: 0 <= k < |routes| ==> routes[k].verb < |tables| && routes[k].handler.Some?
    ensures Known(tables, routes, path) <==> exists v :: 0 <= v < |tables| && Match(tables[v], routes, v, path, params).0.Some?
  {
    forall v | 0 <= v < |tables|
      ensures Match(tables[v], routes, v, path, params).0.Some?
         <==> Hit(tables[v], 0, path, 0).Some? || exists k :: 0 <= k < |routes| && Covers(routes[k], v, path)
    {
      SearchSettles(tables[v], 0, path, 0, params);
    }
    if k :| 0 <= k < |routes| && routes[k].prefix <= path {
      assert Covers(routes[k], routes[k].verb, path);
      assert Match(tables[routes[k].verb], routes, routes[k].verb, path, params).0.Some?;
    }
  }
}
