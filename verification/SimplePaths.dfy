/** The enumeration of simple paths: from the start on, every path is extended over each of its last token's pools, and
    of all paths those that end at the destination are kept. */
module SimplePaths {
  import opened Wrappers
  import opened PoolGraph

  function Other(e: Edge, t: Token): Option<Token> {
    if e.a == t then Some(e.b) else if e.b == t then Some(e.a) else None
  }

  /** One more token, which is not on the path yet. */
  function Extensions(edges: seq<Edge>, p: seq<Token>): seq<seq<Token>>
    requires p != []
    decreases |edges|
  {
    if edges == [] then []
    else
      var x := Other(edges[|edges| - 1], p[|p| - 1]);
      Extensions(edges[..|edges| - 1], p) + if x.Some? && x.value !in p then [p + [x.value]] else []
  }

  function ExtendAll(edges: seq<Edge>, ps: seq<seq<Token>>): seq<seq<Token>>
    decreases |ps|
  {
    if ps == [] then []
    else ExtendAll(edges, ps[..|ps| - 1]) + if ps[|ps| - 1] == [] then [] else Extensions(edges, ps[|ps| - 1])
  }

  /** The simple paths from a token over `n` pools. */
  function PathsOver(g: Graph, a: Token, n: nat): seq<seq<Token>> {
    if n > 0 then ExtendAll(g.edges, PathsOver(g, a, n - 1)) else if a in g.nodes then [[a]] else []
  }

  function Ending(ps: seq<seq<Token>>, b: Token): seq<seq<Token>>
    decreases |ps|
  {
    if ps == [] then []
    else
      var p := ps[|ps| - 1];
      Ending(ps[..|ps| - 1], b) + if p != [] && p[|p| - 1] == b then [p] else []
  }

  function PathsUpTo(g: Graph, a: Token, b: Token, n: nat): seq<seq<Token>> {
    (if n > 0 then PathsUpTo(g, a, b, n - 1) else []) + Ending(PathsOver(g, a, n), b)
  }

  /** A simple path has no more tokens than there are. */
  function AllSimplePaths(g: Graph, a: Token, b: Token): seq<seq<Token>> {
    PathsUpTo(g, a, b, |g.nodes|)
  }

  ghost predicate Unique<T>(ps: seq<T>) {
    forall i, j :: 0 <= i < j < |ps| ==> ps[i] != ps[j]
  }

  lemma UniqueAppend<T>(ps: seq<T>, qs: seq<T>)
    requires Unique(ps) && Unique(qs) && forall p :: p in ps ==> p !in qs
    ensures Unique(ps + qs)
  {
    var all := ps + qs;
    forall i, j | 0 <= i < j < |all| ensures all[i] != all[j] {
      if i < |ps| <= j {
        assert all[i] in ps && all[j] == qs[j - |ps|];
      }
    }
  }

  lemma InInit<T>(ps: seq<T>, p: T)
    requires ps != []
    ensures p in ps <==> p in ps[..|ps| - 1] || p == ps[|ps| - 1]
  {
    assert ps == ps[..|ps| - 1] + [ps[|ps| - 1]];
  }

  /** `q` is `p` and one more token. */
  predicate Extends(q: seq<Token>, p: seq<Token>) {
    |q| == |p| + 1 && q[..|p|] == p
  }

  lemma {:induction false} InExtensions(edges: seq<Edge>, p: seq<Token>, q: seq<Token>)
    requires p != []
    ensures q in Extensions(edges, p) <==>
      Extends(q, p) && q[|p|] !in p && exists i :: 0 <= i < |edges| && Other(edges[i], p[|p| - 1]) == Some(q[|p|])
    decreases |edges|
  {
    if edges != [] {
      var init, last := edges[..|edges| - 1], edges[|edges| - 1];
      InExtensions(init, p, q);
      if Extends(q, p) {
        assert q == p + [q[|p|]];
        if i :| 0 <= i < |edges| && Other(edges[i], p[|p| - 1]) == Some(q[|p|]) {
          assert i < |init| ==> init[i] == edges[i];
        }
        if i :| 0 <= i < |init| && Other(init[i], p[|p| - 1]) == Some(q[|p|]) {
          assert edges[i] == init[i];
        }
      }
    }
  }

  /** No two of the edges lead to the same token, so no extension comes twice. */
  ghost predicate Single(edges: seq<Edge>) {
    forall i, j :: 0 <= i < j < |edges| ==> !Joins(edges[i], edges[j].a, edges[j].b)
  }

  lemma {:induction false} ExtensionsAreUnique(edges: seq<Edge>, p: seq<Token>)
    requires p != [] && Single(edges)
    ensures Unique(Extensions(edges, p))
    decreases |edges|
  {
    if edges != [] {
      var init, last := edges[..|edges| - 1], edges[|edges| - 1];
      ExtensionsAreUnique(init, p);
      var x := Other(last, p[|p| - 1]);
      if x.Some? && x.value !in p {
        var q := p + [x.value];
        InExtensions(init, p, q);
        if q in Extensions(init, p) {
          var i :| 0 <= i < |init| && Other(init[i], p[|p| - 1]) == Some(q[|p|]);
          assert Joins(edges[i], edges[|edges| - 1].a, edges[|edges| - 1].b);
        }
        UniqueAppend(Extensions(init, p), [q]);
      }
    }
  }

  lemma {:induction false} InExtendAll(edges: seq<Edge>, ps: seq<seq<Token>>, q: seq<Token>)
    ensures q in ExtendAll(edges, ps) <==> exists p :: p in ps && p != [] && q in Extensions(edges, p)
    decreases |ps|
  {
    if ps != [] {
      var init, last := ps[..|ps| - 1], ps[|ps| - 1];
      InExtendAll(edges, init, q);
      if p :| p in ps && p != [] && q in Extensions(edges, p) {
        InInit(ps, p);
        assert q in ExtendAll(edges, ps);
      }
      if q in ExtendAll(edges, ps) {
        if q in ExtendAll(edges, init) {
          var p :| p in init && p != [] && q in Extensions(edges, p);
          InInit(ps, p);
        } else {
          assert last in ps && last != [] && q in Extensions(edges, last);
        }
      }
    }
  }

  lemma {:induction false} ExtendAllIsUnique(edges: seq<Edge>, ps: seq<seq<Token>>)
    requires Single(edges) && Unique(ps)
    ensures Unique(ExtendAll(edges, ps))
    decreases |ps|
  {
    if ps != [] {
      var init, last := ps[..|ps| - 1], ps[|ps| - 1];
      ExtendAllIsUnique(edges, init);
      if last != [] {
        ExtensionsAreUnique(edges, last);
        forall q | q in ExtendAll(edges, init) ensures q !in Extensions(edges, last) {
          InExtendAll(edges, init, q);
          var p :| p in init && p != [] && q in Extensions(edges, p);
          InExtensions(edges, p, q);
          InExtensions(edges, last, q);
        }
        UniqueAppend(ExtendAll(edges, init), Extensions(edges, last));
      }
    }
  }

  /** A path of distinct tokens from `a`. */
  ghost predicate Starts(g: Graph, q: seq<Token>, a: Token) {
    IsPath(g, q) && q[0] == a && Distinct(q)
  }

  lemma StartsSnoc(g: Graph, q: seq<Token>, a: Token)
    requires |q| > 1
    ensures Starts(g, q, a) <==>
      Starts(g, q[..|q| - 1], a) && q[|q| - 1] !in q[..|q| - 1]
      && exists i :: 0 <= i < |g.edges| && Other(g.edges[i], q[|q| - 2]) == Some(q[|q| - 1])
  {
    var n := |q| - 1;
    var p := q[..n];
    assert q == p + [q[n]];
    EdgeIsOther(g, q[n - 1], q[n]);
    if Starts(g, q, a) {
      assert HasEdge(g, q[n - 1], q[n - 1 + 1]);
      forall i | 0 <= i < |p| - 1 ensures HasEdge(g, p[i], p[i + 1]) {
        assert HasEdge(g, q[i], q[i + 1]);
      }
    }
    if Starts(g, p, a) && q[n] !in p && HasEdge(g, q[n - 1], q[n]) {
      forall i | 0 <= i < |q| - 1 ensures HasEdge(g, q[i], q[i + 1]) {
        if i < n - 1 {
          assert HasEdge(g, p[i], p[i + 1]);
        }
      }
    }
  }

  lemma EdgeIsOther(g: Graph, t: Token, x: Token)
    ensures HasEdge(g, t, x) <==>
      exists i :: 0 <= i < |g.edges| && (Other(g.edges[i], t) == Some(x) || Joins(g.edges[i], t, x))
  {
  }

  lemma {:induction false} PathsOverStart(g: Graph, a: Token, n: nat, q: seq<Token>)
    requires q in PathsOver(g, a, n)
    ensures Starts(g, q, a) && |q| == n + 1
    decreases n
  {
    if n == 0 {
      assert q == [a];
    } else {
      var shorter := PathsOver(g, a, n - 1);
      InExtendAll(g.edges, shorter, q);
      var p :| p in shorter && p != [] && q in Extensions(g.edges, p);
      PathsOverStart(g, a, n - 1, p);
      InExtensions(g.edges, p, q);
      StartsSnoc(g, q, a);
    }
  }

  lemma {:induction false} AllStartsAreOver(g: Graph, a: Token, n: nat, q: seq<Token>)
    requires Starts(g, q, a) && |q| == n + 1
    ensures q in PathsOver(g, a, n)
    decreases n
  {
    if n == 0 {
      assert q == [a];
    } else {
      var p := q[..n];
      StartsSnoc(g, q, a);
      AllStartsAreOver(g, a, n - 1, p);
      InExtensions(g.edges, p, q);
      InExtendAll(g.edges, PathsOver(g, a, n - 1), q);
    }
  }

  lemma InPathsOver(g: Graph, a: Token, n: nat, q: seq<Token>)
    ensures q in PathsOver(g, a, n) <==> Starts(g, q, a) && |q| == n + 1
  {
    if q in PathsOver(g, a, n) {
      PathsOverStart(g, a, n, q);
    }
    if Starts(g, q, a) && |q| == n + 1 {
      AllStartsAreOver(g, a, n, q);
    }
  }

  lemma {:induction false} PathsOverAreUnique(g: Graph, a: Token, n: nat)
    requires Single(g.edges)
    ensures Unique(PathsOver(g, a, n))
    decreases n
  {
    if n > 0 {
      PathsOverAreUnique(g, a, n - 1);
      ExtendAllIsUnique(g.edges, PathsOver(g, a, n - 1));
    }
  }

  lemma {:induction false} InEnding(ps: seq<seq<Token>>, b: Token, q: seq<Token>)
    ensures q in Ending(ps, b) <==> q in ps && q != [] && q[|q| - 1] == b
    decreases |ps|
  {
    if ps != [] {
      InEnding(ps[..|ps| - 1], b, q);
      InInit(ps, q);
    }
  }

  lemma {:induction false} EndingIsUnique(ps: seq<seq<Token>>, b: Token)
    requires Unique(ps)
    ensures Unique(Ending(ps, b))
    decreases |ps|
  {
    if ps != [] {
      var init, p := ps[..|ps| - 1], ps[|ps| - 1];
      EndingIsUnique(init, b);
      if p != [] && p[|p| - 1] == b {
        InEnding(init, b, p);
        UniqueAppend(Ending(init, b), [p]);
      }
    }
  }

  lemma {:induction false} InPathsUpTo(g: Graph, a: Token, b: Token, n: nat, q: seq<Token>)
    ensures q in PathsUpTo(g, a, b, n) <==> IsSimplePath(g, q, a, b) && |q| <= n + 1
    decreases n
  {
    InEnding(PathsOver(g, a, n), b, q);
    InPathsOver(g, a, n, q);
    if n > 0 {
      InPathsUpTo(g, a, b, n - 1, q);
    }
  }

  lemma {:induction false} PathsUpToAreUnique(g: Graph, a: Token, b: Token, n: nat)
    requires Single(g.edges)
    ensures Unique(PathsUpTo(g, a, b, n))
    decreases n
  {
    PathsOverAreUnique(g, a, n);
    EndingIsUnique(PathsOver(g, a, n), b);
    if n > 0 {
      PathsUpToAreUnique(g, a, b, n - 1);
      forall q | q in PathsUpTo(g, a, b, n - 1) ensures q !in Ending(PathsOver(g, a, n), b) {
        InPathsUpTo(g, a, b, n - 1, q);
        InEnding(PathsOver(g, a, n), b, q);
        InPathsOver(g, a, n, q);
      }
      UniqueAppend(PathsUpTo(g, a, b, n - 1), Ending(PathsOver(g, a, n), b));
    }
  }

  lemma {:induction false} DistinctFit(q: seq<Token>, s: set<Token>)
    requires Distinct(q) && forall i :: 0 <= i < |q| ==> q[i] in s
    ensures |q| <= |s|
    decreases |q|
  {
    if q != [] {
      var n := |q| - 1;
      DistinctFit(q[..n], s - {q[n]});
      assert |s - {q[n]}| == |s| - 1;
    }
  }

  lemma TokensAreNodes(g: Graph, q: seq<Token>)
    requires Valid(g) && IsPath(g, q)
    ensures forall i :: 0 <= i < |q| ==> q[i] in g.nodes
  {
    forall i | 0 <= i < |q| ensures q[i] in g.nodes {
      if i > 0 {
        assert HasEdge(g, q[i - 1], q[i - 1 + 1]);
        EdgeEndsAreNodes(g, q[i - 1], q[i]);
      }
    }
  }

  /** All simple paths, each of them once. */
  ghost predicate IsEnumeration(g: Graph, a: Token, b: Token, ps: seq<seq<Token>>) {
    Unique(ps) && forall p :: p in ps <==> IsSimplePath(g, p, a, b)
  }

  lemma AllSimplePathsAreEnumerated(g: Graph, a: Token, b: Token)
    requires Valid(g)
    ensures IsEnumeration(g, a, b, AllSimplePaths(g, a, b))
  {
    PathsUpToAreUnique(g, a, b, |g.nodes|);
    forall p ensures p in AllSimplePaths(g, a, b) <==> IsSimplePath(g, p, a, b) {
      InPathsUpTo(g, a, b, |g.nodes|, p);
      if IsSimplePath(g, p, a, b) {
        TokensAreNodes(g, p);
        DistinctFit(p, g.nodes);
      }
    }
  }
}
