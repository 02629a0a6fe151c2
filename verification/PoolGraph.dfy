/** The token graph: tokens are nodes, pools are edges with their pool id as key. It only ever grows. */
module PoolGraph {
  import opened Wrappers

  type Token = string

  datatype Fees = Fees(ba: real, ab: real)

  /** A listed pool. Prices and percentages are the node's decimals. */
  datatype PoolPair = PoolPair(id: string, idTokenA: Token, idTokenB: Token, status: bool, reserveAPerB: real,
                               reserveBPerA: real, commission: real, inA: Option<real>, outA: Option<real>,
                               inB: Option<real>, outB: Option<real>)

  datatype Edge = Edge(id: string, a: Token, b: Token)

  /** Edges are in the order they were added in. */
  datatype Graph = Graph(nodes: set<Token>, edges: seq<Edge>)

  predicate Joins(e: Edge, a: Token, b: Token) {
    (e.a == a && e.b == b) || (e.a == b && e.b == a)
  }

  predicate HasEdge(g: Graph, a: Token, b: Token) {
    exists i :: 0 <= i < |g.edges| && Joins(g.edges[i], a, b)
  }

  predicate HasKey(g: Graph, id: string) {
    exists i :: 0 <= i < |g.edges| && g.edges[i].id == id
  }

  /** Edges join nodes, no two of them join the same tokens, and no two have the same key. */
  ghost predicate Valid(g: Graph) {
    && (forall i :: 0 <= i < |g.edges| ==> g.edges[i].a in g.nodes && g.edges[i].b in g.nodes)
    && (forall i, j :: 0 <= i < j < |g.edges| ==>
      !Joins(g.edges[i], g.edges[j].a, g.edges[j].b) && g.edges[i].id != g.edges[j].id)
  }

  predicate Ignored(p: PoolPair, mainnet: bool) {
    !p.status || (mainnet && p.id == "48")
  }

  /** A graph, and whether it was reached without an exception. */
  datatype Synced = Synced(graph: Graph, ok: bool)

  /** Adding an edge throws when its key is taken; its nodes are there by then. */
  function AddPool(g: Graph, p: PoolPair, mainnet: bool): Synced {
    if Ignored(p, mainnet) then Synced(g, true)
    else
      var n := g.(nodes := g.nodes + {p.idTokenA, p.idTokenB});
      if HasEdge(n, p.idTokenA, p.idTokenB) then Synced(n, true)
      else if HasKey(n, p.id) then Synced(n, false)
      else Synced(n.(edges := n.edges + [Edge(p.id, p.idTokenA, p.idTokenB)]), true)
  }

  function Sync(g: Graph, pools: seq<PoolPair>, mainnet: bool): Synced
    decreases |pools|
  {
    if pools == [] then Synced(g, true)
    else
      var s := AddPool(g, pools[0], mainnet);
      if !s.ok then s else Sync(s.graph, pools[1..], mainnet)
  }

  /** Nothing is ever taken away. */
  ghost predicate Grows(g: Graph, h: Graph) {
    g.nodes <= h.nodes && g.edges <= h.edges
  }

  lemma GrowsKeeps(g: Graph, h: Graph, a: Token, b: Token)
    requires Grows(g, h) && HasEdge(g, a, b)
    ensures HasEdge(h, a, b)
  {
    var i :| 0 <= i < |g.edges| && Joins(g.edges[i], a, b);
    assert h.edges[i] == g.edges[i];
  }

  /** A pool is in the graph if its tokens are, and some pool joins them; on the main net pool 48 need not be. */
  predicate Covered(g: Graph, p: PoolPair, mainnet: bool) {
    p.status && !(mainnet && p.id == "48") ==>
      p.idTokenA in g.nodes && p.idTokenB in g.nodes && HasEdge(g, p.idTokenA, p.idTokenB)
  }

  lemma AddPoolCovers(g: Graph, p: PoolPair, mainnet: bool)
    requires Valid(g)
    ensures var s := AddPool(g, p, mainnet);
      Valid(s.graph) && Grows(g, s.graph) && (s.ok ==> Covered(s.graph, p, mainnet))
  {
    var s := AddPool(g, p, mainnet);
    if s.graph.edges != g.edges {
      assert Joins(s.graph.edges[|g.edges|], p.idTokenA, p.idTokenB);
    }
  }

  /** After any sync the graph is valid, so there is at most one pool per pair of tokens; it has only grown; and a sync
      that did not throw has covered every listed pool. */
  lemma {:induction false} SyncCovers(g: Graph, pools: seq<PoolPair>, mainnet: bool)
    requires Valid(g)
    ensures var s := Sync(g, pools, mainnet);
      Valid(s.graph) && Grows(g, s.graph)
        && (s.ok ==> forall i :: 0 <= i < |pools| ==> Covered(s.graph, pools[i], mainnet))
    decreases |pools|
  {
    if pools != [] {
      AddPoolCovers(g, pools[0], mainnet);
      var s := AddPool(g, pools[0], mainnet);
      if s.ok {
        SyncCovers(s.graph, pools[1..], mainnet);
        var t := Sync(s.graph, pools[1..], mainnet);
        if t.ok {
          forall i | 0 <= i < |pools| ensures Covered(t.graph, pools[i], mainnet) {
            if i > 0 {
              assert pools[i] == pools[1..][i - 1];
            } else if !Ignored(pools[0], mainnet) {
              GrowsKeeps(s.graph, t.graph, pools[0].idTokenA, pools[0].idTokenB);
            }
          }
        }
      }
    }
  }

  /** A graph that covers the whole list stays as it is. */
  lemma {:induction false} CoveredStays(g: Graph, pools: seq<PoolPair>, mainnet: bool)
    requires forall i :: 0 <= i < |pools| ==> Covered(g, pools[i], mainnet)
    ensures Sync(g, pools, mainnet) == Synced(g, true)
    decreases |pools|
  {
    if pools != [] {
      var p := pools[0];
      assert Covered(g, p, mainnet);
      assert !Ignored(p, mainnet) ==> g.nodes + {p.idTokenA, p.idTokenB} == g.nodes;
      CoveredStays(g, pools[1..], mainnet);
    }
  }

  /** Syncing the same list again changes nothing. */
  lemma ResyncChangesNothing(g: Graph, pools: seq<PoolPair>, mainnet: bool)
    requires Valid(g) && Sync(g, pools, mainnet).ok
    ensures Sync(Sync(g, pools, mainnet).graph, pools, mainnet) == Sync(g, pools, mainnet)
  {
    SyncCovers(g, pools, mainnet);
    CoveredStays(Sync(g, pools, mainnet).graph, pools, mainnet);
  }

  /** An edge is an old one, or a listed pool that is not ignored. */
  lemma {:induction false} EdgesAreListed(g: Graph, pools: seq<PoolPair>, mainnet: bool, e: Edge)
    requires e in Sync(g, pools, mainnet).graph.edges
    ensures e in g.edges
         || exists i :: 0 <= i < |pools| && pools[i].status && !(mainnet && pools[i].id == "48")
                        && e == Edge(pools[i].id, pools[i].idTokenA, pools[i].idTokenB)
    decreases |pools|
  {
    if pools != [] {
      var s := AddPool(g, pools[0], mainnet);
      if s.ok {
        EdgesAreListed(s.graph, pools[1..], mainnet, e);
        if e !in s.graph.edges {
          var i :| 0 <= i < |pools[1..]| && pools[1..][i].status && !(mainnet && pools[1..][i].id == "48")
                   && e == Edge(pools[1..][i].id, pools[1..][i].idTokenA, pools[1..][i].idTokenB);
          assert pools[i + 1] == pools[1..][i];
        }
      }
    }
  }

  /** A pool id always names the same two tokens: on the edges, and in the list. */
  ghost predicate FixedTokens(g: Graph, pools: seq<PoolPair>) {
    && (forall i, j :: 0 <= i < |g.edges| && 0 <= j < |pools| && g.edges[i].id == pools[j].id ==>
          Joins(g.edges[i], pools[j].idTokenA, pools[j].idTokenB))
    && (forall i, j :: 0 <= i < j < |pools| && pools[i].id == pools[j].id ==>
          Joins(Edge(pools[i].id, pools[i].idTokenA, pools[i].idTokenB), pools[j].idTokenA, pools[j].idTokenB))
  }

  /** Then adding edges never throws. */
  lemma {:induction false} SyncSucceeds(g: Graph, pools: seq<PoolPair>, mainnet: bool)
    requires FixedTokens(g, pools)
    ensures Sync(g, pools, mainnet).ok
    decreases |pools|
  {
    if pools != [] {
      var s := AddPool(g, pools[0], mainnet);
      if HasKey(g, pools[0].id) {
        var i :| 0 <= i < |g.edges| && g.edges[i].id == pools[0].id;
        assert Joins(g.edges[i], pools[0].idTokenA, pools[0].idTokenB);
      }
      assert s.ok;
      TokensStayFixed(g, pools, mainnet);
      SyncSucceeds(s.graph, pools[1..], mainnet);
    }
  }

  lemma TokensStayFixed(g: Graph, pools: seq<PoolPair>, mainnet: bool)
    requires pools != [] && FixedTokens(g, pools)
    ensures FixedTokens(AddPool(g, pools[0], mainnet).graph, pools[1..])
  {
  }

  // Paths.

  /** Neighbouring tokens share a pool. */
  ghost predicate IsPath(g: Graph, p: seq<Token>) {
    && p != [] && p[0] in g.nodes
    && forall i :: 0 <= i < |p| - 1 ==> HasEdge(g, p[i], p[i + 1])
  }

  ghost predicate IsPathBetween(g: Graph, p: seq<Token>, a: Token, b: Token) {
    IsPath(g, p) && p[0] == a && p[|p| - 1] == b
  }

  ghost predicate Connected(g: Graph, a: Token, b: Token) {
    exists p :: IsPathBetween(g, p, a, b)
  }

  predicate Distinct(p: seq<Token>) {
    forall i, j :: 0 <= i < j < |p| ==> p[i] != p[j]
  }

  ghost predicate IsSimplePath(g: Graph, p: seq<Token>, a: Token, b: Token) {
    IsPathBetween(g, p, a, b) && Distinct(p)
  }

  /** Going round in circles never helps: a path has a simple path no longer than it. */
  lemma {:induction false} Shortcut(g: Graph, p: seq<Token>, a: Token, b: Token) returns (q: seq<Token>)
    requires IsPathBetween(g, p, a, b)
    ensures IsSimplePath(g, q, a, b) && |q| <= |p|
    decreases |p|
  {
    if Distinct(p) {
      q := p;
    } else {
      var i, j :| 0 <= i < j < |p| && p[i] == p[j];
      var s := p[..i] + p[j..];
      CutIsPath(g, p, i, j);
      q := Shortcut(g, s, a, b);
    }
  }

  lemma CutIsPath(g: Graph, p: seq<Token>, i: nat, j: nat)
    requires IsPath(g, p) && i < j < |p| && p[i] == p[j]
    ensures IsPathBetween(g, p[..i] + p[j..], p[0], p[|p| - 1])
  {
    var s := p[..i] + p[j..];
    forall k | 0 <= k < |s| - 1 ensures HasEdge(g, s[k], s[k + 1]) {
      if k < i {
        assert s[k] == p[k] && s[k + 1] == p[k + 1];
        assert HasEdge(g, p[k], p[k + 1]);
      } else {
        assert s[k] == p[k - i + j] && s[k + 1] == p[k - i + j + 1];
        assert HasEdge(g, p[k - i + j], p[k - i + j + 1]);
      }
    }
  }

  function Neighbours(g: Graph, v: Token): set<Token> {
    set n | n in g.nodes && HasEdge(g, v, n)
  }

  lemma EdgeEndsAreNodes(g: Graph, a: Token, b: Token)
    requires Valid(g) && HasEdge(g, a, b)
    ensures a in g.nodes && b in g.nodes
  {
  }

  /** What a closed set holds of a path's start, it holds of its end. */
  lemma {:induction false} ClosedHoldsPaths(g: Graph, c: set<Token>, p: seq<Token>)
    requires Valid(g) && IsPath(g, p) && p[0] in c && forall u :: u in c ==> Neighbours(g, u) <= c
    ensures p[|p| - 1] in c
    decreases |p|
  {
    if |p| > 1 {
      assert HasEdge(g, p[0], p[0 + 1]);
      EdgeEndsAreNodes(g, p[0], p[1]);
      assert p[1] in Neighbours(g, p[0]);
      forall i | 0 <= i < |p[1..]| - 1 ensures HasEdge(g, p[1..][i], p[1..][i + 1]) {
        assert HasEdge(g, p[i + 1], p[i + 1 + 1]);
      }
      ClosedHoldsPaths(g, c, p[1..]);
    }
  }

  lemma PathGoesOn(g: Graph, t: Token, v: Token, n: Token)
    requires Connected(g, t, v) && HasEdge(g, v, n)
    ensures Connected(g, t, n)
  {
    var p :| IsPathBetween(g, p, t, v);
    var q := p + [n];
    forall i | 0 <= i < |q| - 1 ensures HasEdge(g, q[i], q[i + 1]) {
      if i < |p| - 1 {
        assert HasEdge(g, p[i], p[i + 1]);
      }
    }
    assert IsPathBetween(g, q, t, n);
  }

  /** The component of a token is what it is connected to. */
  method ComponentOf(g: Graph, t: Token) returns (c: set<Token>)
    requires Valid(g) && t in g.nodes
    ensures c <= g.nodes && forall u :: u in c <==> Connected(g, t, u)
  {
    var todo := {t};
    c := {t};
    assert IsPathBetween(g, [t], t, t);
    while todo != {}
      invariant todo <= c <= g.nodes && t in c
      invariant forall u :: u in c ==> Connected(g, t, u)
      invariant forall u :: u in c && u !in todo ==> Neighbours(g, u) <= c
      decreases g.nodes - c, todo
    {
      var v :| v in todo;
      var found := Neighbours(g, v) - c;
      forall n | n in found ensures Connected(g, t, n) {
        PathGoesOn(g, t, v, n);
      }
      todo := todo - {v} + found;
      c := c + found;
    }
    forall u | Connected(g, t, u) ensures u in c {
      var p :| IsPathBetween(g, p, t, u);
      ClosedHoldsPaths(g, c, p);
    }
  }
}
