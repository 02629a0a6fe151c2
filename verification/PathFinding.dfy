/** The path finding service: a graph and an index that are filled in place, paths of at most three hops, and the best
    of them. The list of pools and the pools and tokens that can be looked up are given by the caller. */
module PathFinding {
  import opened Wrappers
  import opened PoolGraph
  import opened SimplePaths
  import opened SwapReturns

  // Connection is an equivalence.

  lemma ConnectedToSelf(g: Graph, a: Token)
    requires a in g.nodes
    ensures Connected(g, a, a)
  {
    assert IsPathBetween(g, [a], a, a);
  }

  lemma ConnectedBack(g: Graph, a: Token, b: Token)
    requires Valid(g) && Connected(g, a, b)
    ensures Connected(g, b, a)
  {
    var p :| IsPathBetween(g, p, a, b);
    var q := seq(|p|, i requires 0 <= i < |p| => p[|p| - 1 - i]);
    forall i | 0 <= i < |q| - 1 ensures HasEdge(g, q[i], q[i + 1]) {
      var k := |p| - 2 - i;
      assert HasEdge(g, p[k], p[k + 1]);
    }
    if |p| > 1 {
      assert HasEdge(g, p[|p| - 2], p[|p| - 2 + 1]);
      EdgeEndsAreNodes(g, p[|p| - 2], p[|p| - 1]);
    }
    assert IsPathBetween(g, q, b, a);
  }

  lemma ConnectedOn(g: Graph, a: Token, b: Token, c: Token)
    requires Connected(g, a, b) && Connected(g, b, c)
    ensures Connected(g, a, c)
  {
    var p :| IsPathBetween(g, p, a, b);
    var q :| IsPathBetween(g, q, b, c);
    var r := p + q[1..];
    forall i | 0 <= i < |r| - 1 ensures HasEdge(g, r[i], r[i + 1]) {
      if i < |p| - 1 {
        assert HasEdge(g, p[i], p[i + 1]);
      } else {
        var k := i - (|p| - 1);
        assert r[i] == q[k] && r[i + 1] == q[k + 1];
        assert HasEdge(g, q[k], q[k + 1]);
      }
    }
    assert IsPathBetween(g, r, a, c);
  }

  /** A component is the component of each of its tokens. */
  lemma ComponentsAgree(g: Graph, c: set<Token>, t: Token, u: Token, v: Token)
    requires Valid(g) && u in c && forall w :: w in c <==> Connected(g, t, w)
    ensures v in c <==> Connected(g, u, v)
  {
    if v in c {
      ConnectedBack(g, t, u);
      ConnectedOn(g, u, t, v);
    }
    if Connected(g, u, v) {
      ConnectedOn(g, t, u, v);
    }
  }

  /** The index lists for each token exactly what it is connected to, but for itself. */
  ghost predicate IsIndexOf(index: map<Token, set<Token>>, g: Graph) {
    && index.Keys == g.nodes
    && forall t, u :: t in index ==> (u in index[t] <==> u != t && Connected(g, t, u))
  }

  // Paths of pools.

  /** The key of the edge between two tokens. */
  function EdgeBetween(edges: seq<Edge>, a: Token, b: Token): Option<string>
    decreases |edges|
  {
    if edges == [] then None else if Joins(edges[0], a, b) then Some(edges[0].id) else EdgeBetween(edges[1..], a, b)
  }

  lemma {:induction false} EdgeBetweenIff(edges: seq<Edge>, a: Token, b: Token)
    ensures EdgeBetween(edges, a, b).Some? <==> exists i :: 0 <= i < |edges| && Joins(edges[i], a, b)
    ensures EdgeBetween(edges, a, b).Some? ==>
      exists i :: 0 <= i < |edges| && Joins(edges[i], a, b) && edges[i].id == EdgeBetween(edges, a, b).value
    decreases |edges|
  {
    if edges != [] {
      EdgeBetweenIff(edges[1..], a, b);
      if !Joins(edges[0], a, b) {
        assert forall i :: 0 <= i < |edges| - 1 ==> edges[1..][i] == edges[i + 1];
        if EdgeBetween(edges[1..], a, b).Some? {
          var i :| 0 <= i < |edges[1..]| && Joins(edges[1..][i], a, b)
            && edges[1..][i].id == EdgeBetween(edges, a, b).value;
          assert edges[i + 1] == edges[1..][i];
        }
        if i :| 0 <= i < |edges| && Joins(edges[i], a, b) {
          assert edges[1..][i - 1] == edges[i];
        }
      }
    }
  }

  /** The pool that a step of a path goes through, if it and its tokens can be looked up. */
  function PoolOf(g: Graph, infos: map<string, PoolPair>, known: set<Token>, a: Token, b: Token): Option<PoolPair> {
    var key := EdgeBetween(g.edges, a, b);
    if key.None? || key.value !in infos then None
    else
      var p := infos[key.value];
      if p.idTokenA in known && p.idTokenB in known then Some(p.(id := key.value)) else None
  }

  function PoolsOf(g: Graph, infos: map<string, PoolPair>, known: set<Token>, path: seq<Token>): Option<seq<PoolPair>>
    requires path != []
    decreases |path|
  {
    if |path| == 1 then Some([])
    else
      var init := PoolsOf(g, infos, known, path[..|path| - 1]);
      var last := PoolOf(g, infos, known, path[|path| - 2], path[|path| - 1]);
      if init.None? || last.None? then None else Some(init.value + [last.value])
  }

  /** A pool that is looked up has the tokens of its edge. */
  ghost predicate SameTokens(g: Graph, infos: map<string, PoolPair>) {
    forall i :: 0 <= i < |g.edges| && g.edges[i].id in infos ==>
      Joins(Edge("", infos[g.edges[i].id].idTokenA, infos[g.edges[i].id].idTokenB), g.edges[i].a, g.edges[i].b)
  }

  /** A pool is shown with the prices and fees it was looked up with, under the key of its edge. */
  lemma PoolIsLookedUp(g: Graph, infos: map<string, PoolPair>, known: set<Token>, a: Token, b: Token)
    requires PoolOf(g, infos, known, a, b).Some?
    ensures var p := PoolOf(g, infos, known, a, b).value;
      exists i :: 0 <= i < |g.edges| && Joins(g.edges[i], a, b) && p.id == g.edges[i].id && p.id in infos
                  && p == infos[p.id].(id := p.id) && p.idTokenA in known && p.idTokenB in known
  {
    EdgeBetweenIff(g.edges, a, b);
  }

  lemma PoolJoins(g: Graph, infos: map<string, PoolPair>, known: set<Token>, a: Token, b: Token)
    requires SameTokens(g, infos) && PoolOf(g, infos, known, a, b).Some?
    ensures var p := PoolOf(g, infos, known, a, b).value;
      Joins(Edge(p.id, p.idTokenA, p.idTokenB), a, b) && Some(p.id) == EdgeBetween(g.edges, a, b)
  {
    EdgeBetweenIff(g.edges, a, b);
    var i :| 0 <= i < |g.edges| && Joins(g.edges[i], a, b) && g.edges[i].id == EdgeBetween(g.edges, a, b).value;
  }

  /** Every path found is walkable: each pool has the two tokens of its step. */
  lemma {:induction false} FoundPathsAreWalkable(g: Graph, infos: map<string, PoolPair>, known: set<Token>,
                                                 path: seq<Token>)
    requires IsPath(g, path) && PoolGraph.Distinct(path) && SameTokens(g, infos) && PoolsOf(g, infos, known, path).Some?
    ensures Walkable(path, PoolsOf(g, infos, known, path).value)
    decreases |path|
  {
    if |path| > 1 {
      var n := |path| - 1;
      var init := path[..n];
      forall i | 0 <= i < |init| - 1 ensures HasEdge(g, init[i], init[i + 1]) {
        assert HasEdge(g, path[i], path[i + 1]);
      }
      FoundPathsAreWalkable(g, infos, known, init);
      PoolJoins(g, infos, known, path[n - 1], path[n]);
      WalksOn(init, PoolsOf(g, infos, known, init).value, path, PoolOf(g, infos, known, path[n - 1], path[n]).value);
    }
  }

  lemma WalksOn(init: seq<Token>, pools: seq<PoolPair>, path: seq<Token>, p: PoolPair)
    requires Walkable(init, pools) && |path| == |init| + 1 && path[..|init|] == init
    requires var n := |init|; path[n - 1] != path[n] && Joins(Edge(p.id, p.idTokenA, p.idTokenB), path[n - 1], path[n])
    ensures Walkable(path, pools + [p])
  {
    var all := pools + [p];
    forall i | 0 <= i < |all|
      ensures path[i] != path[i + 1] && Joins(Edge(all[i].id, all[i].idTokenA, all[i].idTokenB), path[i], path[i + 1])
    {
      if i < |pools| {
        assert path[i] == init[i] && path[i + 1] == init[i + 1] && all[i] == pools[i];
      }
    }
  }

  /** At most three hops. */
  function Short(ps: seq<seq<Token>>): seq<seq<Token>>
    decreases |ps|
  {
    if ps == [] then []
    else Short(ps[..|ps| - 1]) + if |ps[|ps| - 1]| <= 4 then [ps[|ps| - 1]] else []
  }

  /** No path is kept twice. */
  lemma {:induction false} ShortIsUnique(ps: seq<seq<Token>>)
    requires Unique(ps)
    ensures Unique(Short(ps))
    decreases |ps|
  {
    if ps != [] {
      var init, last := ps[..|ps| - 1], ps[|ps| - 1];
      ShortIsUnique(init);
      if |last| <= 4 {
        ShortIff(init, last);
        UniqueAppend(Short(init), [last]);
      }
    }
  }

  lemma {:induction false} ShortIff(ps: seq<seq<Token>>, p: seq<Token>)
    ensures p in Short(ps) <==> p in ps && |p| <= 4
    decreases |ps|
  {
    if ps != [] {
      ShortIff(ps[..|ps| - 1], p);
      assert ps == ps[..|ps| - 1] + [ps[|ps| - 1]];
    }
  }

  /** Every pool of every simple path of at most three hops can be looked up. */
  ghost predicate Resolvable(g: Graph, infos: map<string, PoolPair>, known: set<Token>, a: Token, b: Token) {
    forall p :: IsSimplePath(g, p, a, b) && |p| <= 4 ==> PoolsOf(g, infos, known, p).Some?
  }

  /** What is shown for one path: its hops. */
  ghost predicate ShowsPath(g: Graph, infos: map<string, PoolPair>, known: set<Token>, p: seq<Token>, hops: seq<Hop>) {
    && p != [] && PoolsOf(g, infos, known, p).Some?
    && |p| == |PoolsOf(g, infos, known, p).value| + 1
    && hops == HopsOf(p, PoolsOf(g, infos, known, p).value)
  }

  /** The hops of each short path, in order. */
  ghost predicate ShowsPaths(g: Graph, infos: map<string, PoolPair>, known: set<Token>, ps: seq<seq<Token>>,
                             shown: seq<seq<Hop>>)
  {
    && |shown| == |ps|
    && forall i :: 0 <= i < |ps| ==> ShowsPath(g, infos, known, ps[i], shown[i])
  }

  lemma HopsSnoc(path: seq<Token>, pools: seq<PoolPair>, p: PoolPair, t: Token)
    requires |path| == |pools| + 1
    ensures HopsOf(path + [t], pools + [p]) == HopsOf(path, pools) + [HopOf(p, path[|path| - 1], t)]
  {
  }

  class PoolSwapPathFindingService {
    var tokenGraph: Graph
    var tokensToSwappableTokens: map<Token, set<Token>>
    const mainnet: bool

    constructor (mainnet: bool)
      ensures Valid(tokenGraph) && IsIndexOf(tokensToSwappableTokens, tokenGraph) && tokenGraph == Graph({}, [])
      ensures this.mainnet == mainnet
    {
      tokenGraph, tokensToSwappableTokens, this.mainnet := Graph({}, []), map[], mainnet;
    }

    method AddTokensAndConnectionsToGraph(pools: seq<PoolPair>) returns (ok: bool)
      requires Valid(tokenGraph)
      modifies this`tokenGraph
      ensures Synced(tokenGraph, ok) == Sync(old(tokenGraph), pools, mainnet) && Valid(tokenGraph)
    {
      ghost var was := tokenGraph;
      SyncCovers(was, pools, mainnet);
      for i := 0 to |pools|
        invariant Sync(was, pools, mainnet) == Sync(tokenGraph, pools[i..], mainnet)
      {
        var p := pools[i];
        ghost var g := tokenGraph;
        assert pools[i..][0] == p && pools[i..][1..] == pools[i + 1..];
        if !Ignored(p, mainnet) {
          tokenGraph := tokenGraph.(nodes := tokenGraph.nodes + {p.idTokenA, p.idTokenB});
          if !HasEdge(tokenGraph, p.idTokenA, p.idTokenB) {
            if HasKey(tokenGraph, p.id) {
              return false;
            }
            tokenGraph := tokenGraph.(edges := tokenGraph.edges + [Edge(p.id, p.idTokenA, p.idTokenB)]);
          }
        }
        assert Synced(tokenGraph, true) == AddPool(g, p, mainnet);
      }
      ok := true;
    }

    /** Token after token of a component is looked up before any of them is indexed; an unknown one ends it all. */
    method UpdateTokensToSwappableTokens(known: set<Token>) returns (ok: bool)
      requires Valid(tokenGraph) && tokensToSwappableTokens.Keys <= tokenGraph.nodes
      modifies this`tokensToSwappableTokens
      ensures tokensToSwappableTokens.Keys <= tokenGraph.nodes
      ensures ok <==> tokenGraph.nodes <= known
      ensures ok ==> IsIndexOf(tokensToSwappableTokens, tokenGraph)
    {
      var remaining := tokenGraph.nodes;
      while remaining != {}
        invariant remaining <= tokenGraph.nodes && tokenGraph.nodes - remaining <= known
        invariant tokenGraph.nodes - remaining <= tokensToSwappableTokens.Keys <= tokenGraph.nodes
        invariant forall t, u :: t in tokenGraph.nodes - remaining ==>
          (u in tokensToSwappableTokens[t] <==> u != t && Connected(tokenGraph, t, u))
      {
        var t :| t in remaining;
        var component := ComponentOf(tokenGraph, t);
        ConnectedToSelf(tokenGraph, t);
        if !(component <= known) {
          return false;
        }
        IndexComponent(component);
        forall u, v | u in component ensures v in component <==> Connected(tokenGraph, u, v) {
          ComponentsAgree(tokenGraph, component, t, u, v);
        }
        remaining := remaining - component;
      }
      ok := true;
    }

    method IndexComponent(component: set<Token>)
      modifies this`tokensToSwappableTokens
      ensures tokensToSwappableTokens.Keys == old(tokensToSwappableTokens.Keys) + component
      ensures forall t :: t in component ==> tokensToSwappableTokens[t] == component - {t}
      ensures forall t :: t in old(tokensToSwappableTokens) && t !in component ==>
        tokensToSwappableTokens[t] == old(tokensToSwappableTokens)[t]
    {
      var todo := component;
      while todo != {}
        invariant todo <= component
        invariant tokensToSwappableTokens.Keys == old(tokensToSwappableTokens.Keys) + (component - todo)
        invariant forall t :: t in component - todo ==> tokensToSwappableTokens[t] == component - {t}
        invariant forall t :: t in old(tokensToSwappableTokens) && t !in component ==>
          tokensToSwappableTokens[t] == old(tokensToSwappableTokens)[t]
      {
        var t :| t in todo;
        tokensToSwappableTokens := tokensToSwappableTokens[t := component - {t}];
        todo := todo - {t};
      }
    }

    /** A sync that does not throw leaves the index exactly at connection less self. */
    method SyncTokenGraph(pools: seq<PoolPair>, known: set<Token>) returns (ok: bool)
      requires Valid(tokenGraph) && tokensToSwappableTokens.Keys <= tokenGraph.nodes
      modifies this
      ensures tokenGraph == Sync(old(tokenGraph), pools, mainnet).graph && Valid(tokenGraph)
      ensures tokensToSwappableTokens.Keys <= tokenGraph.nodes
      ensures ok <==> Sync(old(tokenGraph), pools, mainnet).ok && tokenGraph.nodes <= known
      ensures ok ==> IsIndexOf(tokensToSwappableTokens, tokenGraph)
    {
      SyncCovers(tokenGraph, pools, mainnet);
      ok := AddTokensAndConnectionsToGraph(pools);
      if ok {
        ok := UpdateTokensToSwappableTokens(known);
      }
    }

    /** The graph that paths are looked for in: an empty one is synced first. */
    ghost function GraphToSearch(pools: seq<PoolPair>): Graph
      reads this
    {
      if tokenGraph.edges == [] then Sync(tokenGraph, pools, mainnet).graph else tokenGraph
    }

    /** There is an answer: the tokens are known and not the same, a sync that is needed does not throw, and every pool
        on the way can be looked up. */
    ghost predicate Answers(fromTokenId: Token, toTokenId: Token, pools: seq<PoolPair>, infos: map<string, PoolPair>,
                            known: set<Token>)
      reads this
    {
      var g := GraphToSearch(pools);
      && fromTokenId != toTokenId && fromTokenId in known && toTokenId in known
      && (tokenGraph.edges == [] ==> Sync(tokenGraph, pools, mainnet).ok && g.nodes <= known)
      && Resolvable(g, infos, known, fromTokenId, toTokenId)
    }

    /** The hops of each simple path of at most three, or an exception when a pool or a token cannot be looked up. */
    method ComputePathsBetweenTokens(fromTokenId: Token, toTokenId: Token, infos: map<string, PoolPair>,
                                     known: set<Token>)
      returns (r: Option<seq<seq<Hop>>>, ghost simplePaths: seq<seq<Token>>)
      requires Valid(tokenGraph)
      ensures r.Some? <==> Resolvable(tokenGraph, infos, known, fromTokenId, toTokenId)
      ensures IsEnumeration(tokenGraph, fromTokenId, toTokenId, simplePaths)
      ensures r.Some? ==> ShowsPaths(tokenGraph, infos, known, Short(simplePaths), r.value)
    {
      var paths := AllSimplePaths(tokenGraph, fromTokenId, toTokenId);
      simplePaths := paths;
      AllSimplePathsAreEnumerated(tokenGraph, fromTokenId, toTokenId);
      var poolPairPaths: seq<seq<Hop>> := [];
      for n := 0 to |paths|
        invariant ShowsPaths(tokenGraph, infos, known, Short(paths[..n]), poolPairPaths)
      {
        var path := paths[n];
        assert IsSimplePath(tokenGraph, path, fromTokenId, toTokenId);
        assert paths[..n + 1][..n] == paths[..n];
        if |path| <= 4 {
          var poolPairs := ComputeHops(path, infos, known);
          if poolPairs.None? {
            return None, simplePaths;
          }
          poolPairPaths := poolPairPaths + [poolPairs.value];
        }
      }
      assert paths[..|paths|] == paths;
      r := Some(poolPairPaths);
      ShownAreResolvable(tokenGraph, infos, known, fromTokenId, toTokenId, paths, poolPairPaths);
    }

    method ComputeHops(path: seq<Token>, infos: map<string, PoolPair>, known: set<Token>) returns (r: Option<seq<Hop>>)
      requires path != []
      ensures r.Some? <==> PoolsOf(tokenGraph, infos, known, path).Some?
      ensures r.Some? ==> ShowsPath(tokenGraph, infos, known, path, r.value)
    {
      var poolPairs: seq<Hop> := [];
      for i := 1 to |path|
        invariant ShowsPath(tokenGraph, infos, known, path[..i], poolPairs)
      {
        assert path[..i + 1][..i] == path[..i] && path[..i + 1] == path[..i] + [path[i]];
        var poolPair := PoolOf(tokenGraph, infos, known, path[i - 1], path[i]);
        if poolPair.None? {
          NoPoolsBehind(tokenGraph, infos, known, path, i + 1);
          return None;
        }
        HopsSnoc(path[..i], PoolsOf(tokenGraph, infos, known, path[..i]).value, poolPair.value, path[i]);
        poolPairs := poolPairs + [HopOf(poolPair.value, path[i - 1], path[i])];
      }
      assert path[..|path|] == path;
      r := Some(poolPairs);
    }

    method GetAllSwapPaths(fromTokenId: Token, toTokenId: Token, pools: seq<PoolPair>, infos: map<string, PoolPair>,
                           known: set<Token>)
      returns (r: Option<seq<seq<Hop>>>, ghost simplePaths: seq<seq<Token>>)
      requires Valid(tokenGraph) && tokensToSwappableTokens.Keys <= tokenGraph.nodes
      modifies this
      ensures Valid(tokenGraph) && tokensToSwappableTokens.Keys <= tokenGraph.nodes
      ensures tokenGraph == if fromTokenId == toTokenId then old(tokenGraph) else old(GraphToSearch(pools))
      ensures r.Some? <==> old(Answers(fromTokenId, toTokenId, pools, infos, known))
      ensures r.Some? ==> IsEnumeration(tokenGraph, fromTokenId, toTokenId, simplePaths)
      ensures r.Some? ==> ShowsPaths(tokenGraph, infos, known, Short(simplePaths), r.value)
      ensures old(IsIndexOf(tokensToSwappableTokens, tokenGraph)) && r.Some? ==>
        IsIndexOf(tokensToSwappableTokens, tokenGraph)
    {
      simplePaths := [];
      if fromTokenId == toTokenId {
        return None, [];
      }
      if tokenGraph.edges == [] {
        var ok := SyncTokenGraph(pools, known);
        if !ok {
          return None, [];
        }
      }
      if fromTokenId !in known || toTokenId !in known {
        return None, [];
      }
      if fromTokenId !in tokenGraph.nodes || toTokenId !in tokenGraph.nodes {
        NoPathsFromNowhere(tokenGraph, fromTokenId, toTokenId);
        return Some([]), [];
      }
      r, simplePaths := ComputePathsBetweenTokens(fromTokenId, toTokenId, infos, known);
    }

    /** The best of all paths. */
    method GetBestPath(fromTokenId: Token, toTokenId: Token, pools: seq<PoolPair>, infos: map<string, PoolPair>,
                       known: set<Token>)
      returns (r: Option<Best>, ghost paths: seq<seq<Hop>>, ghost simplePaths: seq<seq<Token>>)
      requires Valid(tokenGraph) && tokensToSwappableTokens.Keys <= tokenGraph.nodes
      modifies this
      ensures Valid(tokenGraph) && tokensToSwappableTokens.Keys <= tokenGraph.nodes
      ensures tokenGraph == if fromTokenId == toTokenId then old(tokenGraph) else old(GraphToSearch(pools))
      ensures r.Some? <==> old(Answers(fromTokenId, toTokenId, pools, infos, known))
      ensures r.Some? ==> IsEnumeration(tokenGraph, fromTokenId, toTokenId, simplePaths)
      ensures r.Some? ==> ShowsPaths(tokenGraph, infos, known, Short(simplePaths), paths)
      ensures r.Some? && !HasEdge(tokenGraph, fromTokenId, toTokenId) ==> IsMaximal(paths, fromTokenId, r.value)
      ensures r.Some? && HasEdge(tokenGraph, fromTokenId, toTokenId) ==>
        && |r.value.path| == 1
        && Some(r.value.path[0].poolPairId) == EdgeBetween(tokenGraph.edges, fromTokenId, toTokenId)
      ensures r.Some? && HasEdge(tokenGraph, fromTokenId, toTokenId) ==>
        && r.value.estimatedReturn == Plain(r.value.path, fromTokenId)
        && r.value.estimatedReturnLessDexFees == Less(r.value.path, fromTokenId)
      ensures old(IsIndexOf(tokensToSwappableTokens, tokenGraph)) && r.Some? ==>
        IsIndexOf(tokensToSwappableTokens, tokenGraph)
    {
      var found;
      found, simplePaths := GetAllSwapPaths(fromTokenId, toTokenId, pools, infos, known);
      if found.None? {
        return None, [], simplePaths;
      }
      paths := found.value;
      DirectIff(tokenGraph, infos, known, fromTokenId, toTokenId, simplePaths, paths);
      var b := SwapReturns.GetBestPath(found.value, fromTokenId);
      if HasEdge(tokenGraph, fromTokenId, toTokenId) {
        ghost var i :| IsDirect(paths, fromTokenId, b, i);
        DirectIsTheEdge(tokenGraph, infos, known, fromTokenId, toTokenId, simplePaths, paths, i);
      }
      r := Some(b);
    }
  }

  /** Where all short paths are shown, all of them could be looked up. */
  lemma ShownAreResolvable(g: Graph, infos: map<string, PoolPair>, known: set<Token>, a: Token, b: Token,
                           ps: seq<seq<Token>>, shown: seq<seq<Hop>>)
    requires IsEnumeration(g, a, b, ps) && ShowsPaths(g, infos, known, Short(ps), shown)
    ensures Resolvable(g, infos, known, a, b)
  {
    forall p | IsSimplePath(g, p, a, b) && |p| <= 4 ensures PoolsOf(g, infos, known, p).Some? {
      ShortIff(ps, p);
      var i :| 0 <= i < |Short(ps)| && Short(ps)[i] == p;
      assert ShowsPath(g, infos, known, p, shown[i]);
    }
  }

  /** Without a pool for a step there are none for the path. */
  lemma {:induction false} NoPoolsBehind(g: Graph, infos: map<string, PoolPair>, known: set<Token>, path: seq<Token>,
                                         n: nat)
    requires 0 < n <= |path| && PoolsOf(g, infos, known, path[..n]).None?
    ensures PoolsOf(g, infos, known, path).None?
    decreases |path| - n
  {
    if n < |path| {
      assert path[..n + 1][..n] == path[..n];
      NoPoolsBehind(g, infos, known, path, n + 1);
    } else {
      assert path[..n] == path;
    }
  }

  lemma NoPathsFromNowhere(g: Graph, a: Token, b: Token)
    requires Valid(g) && a != b && (a !in g.nodes || b !in g.nodes)
    ensures forall p :: !IsSimplePath(g, p, a, b)
  {
    forall p ensures !IsSimplePath(g, p, a, b) {
      if IsSimplePath(g, p, a, b) {
        assert HasEdge(g, p[|p| - 2], p[|p| - 2 + 1]);
        EdgeEndsAreNodes(g, p[|p| - 2], p[|p| - 1]);
        assert false;
      }
    }
  }

  /** A path of one hop is shown exactly when a pool joins the two tokens. */
  lemma DirectIff(g: Graph, infos: map<string, PoolPair>, known: set<Token>, a: Token, b: Token, ps: seq<seq<Token>>,
                  shown: seq<seq<Hop>>)
    requires Valid(g) && a != b && IsEnumeration(g, a, b, ps) && ShowsPaths(g, infos, known, Short(ps), shown)
    ensures NoDirect(shown) <==> !HasEdge(g, a, b)
  {
    if HasEdge(g, a, b) {
      EdgeEndsAreNodes(g, a, b);
      assert IsSimplePath(g, [a, b], a, b);
      ShortIff(ps, [a, b]);
      var i :| 0 <= i < |Short(ps)| && Short(ps)[i] == [a, b];
      assert |shown[i]| == 1;
    }
    if i :| 0 <= i < |shown| && |shown[i]| == 1 {
      var p := Short(ps)[i];
      ShortIff(ps, p);
      assert HasEdge(g, p[0], p[0 + 1]);
    }
  }

  lemma DirectIsTheEdge(g: Graph, infos: map<string, PoolPair>, known: set<Token>, a: Token, b: Token,
                        ps: seq<seq<Token>>, shown: seq<seq<Hop>>, i: nat)
    requires IsEnumeration(g, a, b, ps) && ShowsPaths(g, infos, known, Short(ps), shown) && i < |shown|
      && |shown[i]| == 1
    ensures Some(shown[i][0].poolPairId) == EdgeBetween(g.edges, a, b)
  {
    var p := Short(ps)[i];
    ShortIff(ps, p);
    assert IsSimplePath(g, p, a, b);
    assert ShowsPath(g, infos, known, p, shown[i]);
    assert p[..1] == [a];
  }

  /** Some path is shown exactly when the tokens can be connected in at most three hops; and then each is in the
      other's index entry. */
  lemma PathsShownIff(g: Graph, infos: map<string, PoolPair>, known: set<Token>, a: Token, b: Token,
                      ps: seq<seq<Token>>, shown: seq<seq<Hop>>, index: map<Token, set<Token>>)
    requires Valid(g) && a != b && IsEnumeration(g, a, b, ps) && ShowsPaths(g, infos, known, Short(ps), shown)
    requires IsIndexOf(index, g)
    ensures shown != [] <==> exists p :: IsPathBetween(g, p, a, b) && |p| <= 4
    ensures shown != [] ==> a in index && b in index && b in index[a] && a in index[b]
  {
    if p :| IsPathBetween(g, p, a, b) && |p| <= 4 {
      var q := Shortcut(g, p, a, b);
      ShortIff(ps, q);
    }
    if shown != [] {
      var p := Short(ps)[0];
      ShortIff(ps, p);
      assert IsPathBetween(g, p, a, b) && |p| <= 4;
      assert Connected(g, a, b);
      ConnectedBack(g, a, b);
      var q :| IsPathBetween(g, q, b, a);
      assert a in g.nodes && b in g.nodes;
    }
  }

  /** Every path shown ends at the destination and returns, after fees, no more than before. */
  lemma ShownPathsEndThere(g: Graph, infos: map<string, PoolPair>, known: set<Token>, a: Token, b: Token,
                           ps: seq<seq<Token>>, shown: seq<seq<Hop>>, i: nat)
    requires IsEnumeration(g, a, b, ps) && ShowsPaths(g, infos, known, Short(ps), shown) && i < |shown|
      && SameTokens(g, infos)
    ensures Fold(shown[i], a).token == b && |shown[i]| <= 3
    ensures (forall k :: k in infos ==> Sound(infos[k])) ==> 0.0 <= Less(shown[i], a) <= Plain(shown[i], a)
  {
    var p := Short(ps)[i];
    ShortIff(ps, p);
    assert IsSimplePath(g, p, a, b);
    assert ShowsPath(g, infos, known, p, shown[i]);
    FoundPathsAreWalkable(g, infos, known, p);
    var pools := PoolsOf(g, infos, known, p).value;
    FoldWalks(p, pools);
    if forall k :: k in infos ==> Sound(infos[k]) {
      PoolsAreSound(g, infos, known, p);
      FeesNeverPay(p, pools);
    }
  }

  lemma {:induction false} PoolsAreSound(g: Graph, infos: map<string, PoolPair>, known: set<Token>, path: seq<Token>)
    requires path != [] && PoolsOf(g, infos, known, path).Some? && forall k :: k in infos ==> Sound(infos[k])
    ensures forall i :: 0 <= i < |PoolsOf(g, infos, known, path).value| ==>
      Sound(PoolsOf(g, infos, known, path).value[i])
    decreases |path|
  {
    if |path| > 1 {
      PoolsAreSound(g, infos, known, path[..|path| - 1]);
    }
  }
}
