/** What a swap path returns, before and after fees, and which path is best. Amounts are exact; only the rounding that
    is asked for is done: prices and percentages to the nearest 8 decimals, returns up to 8 decimals. */
module SwapReturns {
  import opened Wrappers
  import opened PoolGraph

  const UNIT := 100000000.0

  /** `toFixed(8)`: to the nearest, halves away from zero. */
  function Fixed8(x: real): real {
    if x < 0.0 then -((-x * UNIT + 0.5).Floor as real / UNIT) else (x * UNIT + 0.5).Floor as real / UNIT
  }

  /** A number of 8 decimals, none of which is nearer; of two as near it is the one away from zero. */
  lemma Fixed8IsNearest(x: real) returns (n: int)
    ensures Fixed8(x) == n as real / UNIT
    ensures x >= 0.0 ==> -0.5 / UNIT < Fixed8(x) - x <= 0.5 / UNIT
    ensures x <= 0.0 ==> -0.5 / UNIT <= Fixed8(x) - x < 0.5 / UNIT
  {
    if x < 0.0 {
      n := -((-x * UNIT + 0.5).Floor);
      assert -x * UNIT - 0.5 < (-n) as real <= -x * UNIT + 0.5;
    } else {
      n := (x * UNIT + 0.5).Floor;
      assert x * UNIT - 0.5 < n as real <= x * UNIT + 0.5;
    }
  }

  /** `decimalPlaces(8, ROUND_CEIL)`. */
  function Ceil8(x: real): real {
    -((-x * UNIT).Floor as real) / UNIT
  }

  /** Rounding up gives the least number of 8 decimals that is not below. */
  lemma Ceil8IsLeastAbove(x: real)
    ensures x <= Ceil8(x) < x + 1.0 / UNIT
    ensures Fixed8(Ceil8(x)) == Ceil8(x)
  {
    var n := -((-x * UNIT).Floor);
    assert Ceil8(x) * UNIT == n as real;
    if n >= 0 {
      assert (n as real + 0.5).Floor == n;
    } else {
      assert ((-n) as real + 0.5).Floor == -n;
    }
  }

  lemma Ceil8IsMonotone(x: real, y: real)
    requires x <= y
    ensures Ceil8(x) <= Ceil8(y)
  {
    var n, m := (-x * UNIT).Floor, (-y * UNIT).Floor;
    assert -y * UNIT <= -x * UNIT;
    assert m <= n;
    assert m as real <= n as real;
  }

  lemma Fixed8KeepsUnitInterval(x: real)
    ensures x >= 0.0 ==> Fixed8(x) >= 0.0
    ensures 0.0 <= x <= 1.0 ==> Fixed8(x) <= 1.0
  {
    if 0.0 <= x <= 1.0 {
      assert x * UNIT + 0.5 <= UNIT + 0.5;
    }
  }

  /** One pool of a path, as the API shows it. */
  datatype Hop = Hop(poolPairId: string, tokenA: Token, tokenB: Token, ab: real, ba: real, commission: real,
                     fees: Option<Fees>)

  function Percent(fee: Option<real>): real {
    Fixed8(if fee.Some? then fee.value else 0.0)
  }

  /** `getDexFeesPct`: nothing only if no fee is set at all. */
  function DexFees(p: PoolPair, fromToken: Token, toToken: Token): Option<Fees> {
    if p.inA.None? && p.outA.None? && p.inB.None? && p.outB.None? then None
    else Some(Fees(Percent(if p.idTokenA == fromToken then p.inA else p.outA),
                   Percent(if p.idTokenB == toToken then p.outB else p.inB)))
  }

  function HopOf(p: PoolPair, fromToken: Token, toToken: Token): Hop {
    Hop(p.id, p.idTokenA, p.idTokenB, Fixed8(p.reserveAPerB), Fixed8(p.reserveBPerA), Fixed8(p.commission),
        DexFees(p, fromToken, toToken))
  }

  /** What one hop takes and gives in the direction it is used in. */
  datatype Terms = Terms(price: real, commission: real, fromFee: real, toFee: real)

  // The fold over a path.

  datatype Running = Running(token: Token, plain: real, less: real)

  /** The token the fold is at decides the direction: only if it is token A, the hop is used from A to B. */
  function HopTerms(h: Hop, token: Token): Terms {
    var ba, ab := if h.fees.Some? then h.fees.value.ba else 0.0, if h.fees.Some? then h.fees.value.ab else 0.0;
    if token == h.tokenA then Terms(h.ba, h.commission, ba, ab) else Terms(h.ab, h.commission, ab, ba)
  }

  function Times(x: real, y: real): real {
    x * y
  }

  function Product(xs: seq<real>): real
    decreases |xs|
  {
    if xs == [] then 1.0 else Times(Product(xs[..|xs| - 1]), xs[|xs| - 1])
  }

  /** What is left of one unit: commission and in-fee come off before the conversion, the out-fee after it. */
  function Net(t: Terms): real {
    Product([1.0 - t.commission, 1.0 - t.fromFee, t.price, 1.0 - t.toFee])
  }

  lemma NetIs(t: Terms)
    ensures Net(t) == Times(Times(Times(1.0 - t.commission, 1.0 - t.fromFee), t.price), 1.0 - t.toFee)
  {
    var xs := [1.0 - t.commission, 1.0 - t.fromFee, t.price, 1.0 - t.toFee];
    assert xs[..3][..2] == xs[..2] && xs[..2][..1] == xs[..1] && xs[..1][..0] == [];
    assert Product(xs[..1]) == Times(1.0, xs[0]) == xs[0];
    assert Product(xs[..2]) == Times(xs[0], xs[1]);
    assert Product(xs[..3]) == Times(Times(xs[0], xs[1]), xs[2]);
  }

  function OneHop(r: Running, h: Hop): Running {
    var t := HopTerms(h, r.token);
    Running(if r.token == h.tokenA then h.tokenB else h.tokenA, Times(r.plain, t.price), Times(r.less, Net(t)))
  }

  function Fold(path: seq<Hop>, fromToken: Token): Running
    decreases |path|
  {
    if path == [] then Running(fromToken, 1.0, 1.0) else OneHop(Fold(path[..|path| - 1], fromToken), path[|path| - 1])
  }

  lemma LessFee(amount: real, kept: real, fee: real)
    ensures Times(amount, kept) - fee * Times(amount, kept) == Times(amount, Times(kept, 1.0 - fee))
  {
  }

  /** Commission, in-fee, conversion and out-fee one after another. */
  method TakeFees(amount: real, t: Terms) returns (less: real)
    ensures less == Times(amount, Net(t))
  {
    var commissionFee := amount * t.commission;
    less := amount - commissionFee;
    ghost var kept := 1.0 - t.commission;
    assert less == Times(amount, kept);
    var fromTokenFee := t.fromFee * less;
    less := less - fromTokenFee;
    LessFee(amount, kept, t.fromFee);
    kept := Times(kept, 1.0 - t.fromFee);
    var converted := less * t.price;
    assert converted == Times(amount, Times(kept, t.price));
    kept := Times(kept, t.price);
    var toTokenFee := t.toFee * converted;
    less := converted - toTokenFee;
    LessFee(amount, kept, t.toFee);
    NetIs(t);
  }

  method ComputeReturns(path: seq<Hop>, fromTokenId: Token)
    returns (estimatedReturn: real, estimatedReturnLessDexFees: real)
    ensures estimatedReturn == Plain(path, fromTokenId) && estimatedReturnLessDexFees == Less(path, fromTokenId)
  {
    var token, plain, less := fromTokenId, 1.0, 1.0;
    for i := 0 to |path|
      invariant Running(token, plain, less) == Fold(path[..i], fromTokenId)
    {
      assert path[..i + 1][..i] == path[..i];
      var terms := HopTerms(path[i], token);
      token := if token == path[i].tokenA then path[i].tokenB else path[i].tokenA;
      plain := Times(plain, terms.price);
      less := TakeFees(less, terms);
    }
    assert path[..|path|] == path;
    estimatedReturn, estimatedReturnLessDexFees := Ceil8(plain), Ceil8(less);
  }

  function Plain(path: seq<Hop>, fromToken: Token): real {
    Ceil8(Fold(path, fromToken).plain)
  }

  function Less(path: seq<Hop>, fromToken: Token): real {
    Ceil8(Fold(path, fromToken).less)
  }

  // What it means: the reference, by the pools themselves.

  /** The price of the paid token in the other one, the in-fee of the paid token and the out-fee of the received one. */
  function PoolTerms(p: PoolPair, paid: Token, received: Token): Terms {
    Terms(Fixed8(if paid == p.idTokenA then p.reserveBPerA else p.reserveAPerB),
          Fixed8(p.commission),
          Percent(if paid == p.idTokenA then p.inA else p.inB),
          Percent(if received == p.idTokenA then p.outA else p.outB))
  }

  /** A token path with the pool of each of its steps. */
  ghost predicate Walkable(tokens: seq<Token>, pools: seq<PoolPair>) {
    && |tokens| == |pools| + 1
    && forall i :: 0 <= i < |pools| ==>
         tokens[i] != tokens[i + 1]
           && Joins(Edge(pools[i].id, pools[i].idTokenA, pools[i].idTokenB), tokens[i], tokens[i + 1])
  }

  function HopsOf(tokens: seq<Token>, pools: seq<PoolPair>): (r: seq<Hop>)
    requires |tokens| == |pools| + 1
    ensures |r| == |pools|
  {
    seq(|pools|, i requires 0 <= i < |pools| => HopOf(pools[i], tokens[i], tokens[i + 1]))
  }

  function Prices(tokens: seq<Token>, pools: seq<PoolPair>): (r: seq<real>)
    requires |tokens| == |pools| + 1
    ensures |r| == |pools|
  {
    seq(|pools|, i requires 0 <= i < |pools| => PoolTerms(pools[i], tokens[i], tokens[i + 1]).price)
  }

  function Nets(tokens: seq<Token>, pools: seq<PoolPair>): (r: seq<real>)
    requires |tokens| == |pools| + 1
    ensures |r| == |pools|
  {
    seq(|pools|, i requires 0 <= i < |pools| => Net(PoolTerms(pools[i], tokens[i], tokens[i + 1])))
  }

  /** A hop is used in the direction it was made for. */
  lemma HopGoesOver(p: PoolPair, paid: Token, received: Token)
    requires paid != received && Joins(Edge(p.id, p.idTokenA, p.idTokenB), paid, received)
    ensures var h := HopOf(p, paid, received);
      HopTerms(h, paid) == PoolTerms(p, paid, received) && received == if paid == h.tokenA then h.tokenB else h.tokenA
  {
    assert Percent(None) == 0.0;
  }

  /** What is shown of a hop has the pool's own sides in either direction: `ab` is what token A there is for one of
      token B, and the fees are those that the direction charges on A and on B, each to the nearest 8 decimals. */
  lemma HopShowsThePool(p: PoolPair, paid: Token, received: Token)
    requires paid != received && Joins(Edge(p.id, p.idTokenA, p.idTokenB), paid, received)
    ensures var h := HopOf(p, paid, received);
      && h.poolPairId == p.id && h.tokenA == p.idTokenA && h.tokenB == p.idTokenB
      && -0.5 / UNIT <= h.ab - p.reserveAPerB <= 0.5 / UNIT && -0.5 / UNIT <= h.ba - p.reserveBPerA <= 0.5 / UNIT
      && -0.5 / UNIT <= h.commission - p.commission <= 0.5 / UNIT
      && (h.fees.None? <==> p.inA.None? && p.outA.None? && p.inB.None? && p.outB.None?)
      && (h.fees.Some? && paid == p.idTokenA ==> h.fees.value == Fees(Percent(p.inA), Percent(p.outB)))
      && (h.fees.Some? && paid == p.idTokenB ==> h.fees.value == Fees(Percent(p.outA), Percent(p.inB)))
  {
    var _ := Fixed8IsNearest(p.reserveAPerB);
    var _ := Fixed8IsNearest(p.reserveBPerA);
    var _ := Fixed8IsNearest(p.commission);
  }

  /** On a walkable path the fold is at one side of each next pool and ends at the destination, and what it returns are
      the products of the prices before and after fees. */
  lemma {:induction false} FoldWalks(tokens: seq<Token>, pools: seq<PoolPair>)
    requires Walkable(tokens, pools)
    ensures Fold(HopsOf(tokens, pools), tokens[0])
         == Running(tokens[|pools|], Product(Prices(tokens, pools)), Product(Nets(tokens, pools)))
    decreases |pools|
  {
    if pools != [] {
      var n := |pools| - 1;
      assert Walkable(tokens[..n + 1], pools[..n]);
      FoldWalks(tokens[..n + 1], pools[..n]);
      OneHopLess(tokens, pools);
      HopGoesOver(pools[n], tokens[n], tokens[n + 1]);
      FoldSnoc(HopsOf(tokens, pools), tokens[0], Prices(tokens, pools), Nets(tokens, pools),
               PoolTerms(pools[n], tokens[n], tokens[n + 1]), tokens[n], tokens[n + 1]);
    }
  }

  /** One unit of a token gives what the other reserve has per unit of its own, to 8 decimals. */
  lemma HopPaysReserves(p: PoolPair, reserveA: real, reserveB: real)
    requires p.idTokenA != p.idTokenB && reserveA > 0.0 && reserveB > 0.0
    requires p.reserveAPerB == reserveA / reserveB && p.reserveBPerA == reserveB / reserveA
    ensures Fold([HopOf(p, p.idTokenA, p.idTokenB)], p.idTokenA).plain == Fixed8(reserveB / reserveA)
    ensures Fold([HopOf(p, p.idTokenB, p.idTokenA)], p.idTokenB).plain == Fixed8(reserveA / reserveB)
  {
    var h, l := HopOf(p, p.idTokenA, p.idTokenB), HopOf(p, p.idTokenB, p.idTokenA);
    HopGoesOver(p, p.idTokenA, p.idTokenB);
    HopGoesOver(p, p.idTokenB, p.idTokenA);
    assert [h][..0] == [] && [l][..0] == [];
    OneTimes(Fixed8(reserveB / reserveA));
    OneTimes(Fixed8(reserveA / reserveB));
  }

  lemma OneHopLess(tokens: seq<Token>, pools: seq<PoolPair>)
    requires |tokens| == |pools| + 1 && pools != []
    ensures var n := |pools| - 1;
      && HopsOf(tokens, pools)[..n] == HopsOf(tokens[..n + 1], pools[..n])
      && Prices(tokens, pools)[..n] == Prices(tokens[..n + 1], pools[..n])
      && Nets(tokens, pools)[..n] == Nets(tokens[..n + 1], pools[..n])
  {
  }

  lemma FoldSnoc(path: seq<Hop>, fromToken: Token, prices: seq<real>, nets: seq<real>, t: Terms, paid: Token,
                 received: Token)
    requires |path| == |prices| == |nets| > 0
    requires var n := |path| - 1;
      && Fold(path[..n], fromToken) == Running(paid, Product(prices[..n]), Product(nets[..n]))
      && HopTerms(path[n], paid) == t && t.price == prices[n] && Net(t) == nets[n]
      && received == if paid == path[n].tokenA then path[n].tokenB else path[n].tokenA
    ensures Fold(path, fromToken) == Running(received, Product(prices), Product(nets))
  {
  }

  predicate IsPercentage(fee: Option<real>) {
    fee.Some? ==> 0.0 <= fee.value <= 1.0
  }

  predicate Sound(p: PoolPair) {
    && p.reserveAPerB >= 0.0 && p.reserveBPerA >= 0.0 && 0.0 <= p.commission <= 1.0
    && IsPercentage(p.inA) && IsPercentage(p.outA) && IsPercentage(p.inB) && IsPercentage(p.outB)
  }

  predicate SoundTerms(t: Terms) {
    t.price >= 0.0 && 0.0 <= t.commission <= 1.0 && 0.0 <= t.fromFee <= 1.0 && 0.0 <= t.toFee <= 1.0
  }

  lemma PercentStays(fee: Option<real>)
    requires IsPercentage(fee)
    ensures 0.0 <= Percent(fee) <= 1.0
  {
    Fixed8KeepsUnitInterval(if fee.Some? then fee.value else 0.0);
  }

  lemma SoundPoolHasSoundTerms(p: PoolPair, paid: Token, received: Token)
    requires Sound(p)
    ensures SoundTerms(PoolTerms(p, paid, received))
  {
    Fixed8KeepsUnitInterval(p.reserveAPerB);
    Fixed8KeepsUnitInterval(p.reserveBPerA);
    Fixed8KeepsUnitInterval(p.commission);
    PercentStays(if paid == p.idTokenA then p.inA else p.inB);
    PercentStays(if received == p.idTokenA then p.outA else p.outB);
  }

  lemma TimesShrinks(x: real, q: real)
    requires 0.0 <= x && 0.0 <= q <= 1.0
    ensures 0.0 <= Times(x, q) <= x && 0.0 <= Times(q, x) <= x
  {
    assert x * (1.0 - q) >= 0.0;
    assert x - x * q == x * (1.0 - q);
  }

  lemma NetIsBelowPrice(t: Terms)
    requires SoundTerms(t)
    ensures 0.0 <= Net(t) <= t.price
  {
    var c := 1.0 - t.commission;
    var cf := Times(c, 1.0 - t.fromFee);
    TimesShrinks(c, 1.0 - t.fromFee);
    TimesShrinks(t.price, cf);
    TimesShrinks(Times(cf, t.price), 1.0 - t.toFee);
    NetIs(t);
  }

  lemma ProductsStayOrdered(x: real, y: real, p: real, n: real)
    requires 0.0 <= y <= x && 0.0 <= n <= p
    ensures 0.0 <= Times(y, n) <= Times(x, p)
  {
    assert y * n <= y * p;
    assert y * p <= x * p;
  }

  lemma {:induction false} ProductIsMonotone(xs: seq<real>, ys: seq<real>)
    requires |xs| == |ys| && forall i :: 0 <= i < |xs| ==> 0.0 <= ys[i] <= xs[i]
    ensures 0.0 <= Product(ys) <= Product(xs)
    decreases |xs|
  {
    if xs != [] {
      var n := |xs| - 1;
      ProductIsMonotone(xs[..n], ys[..n]);
      ProductsStayOrdered(Product(xs[..n]), Product(ys[..n]), xs[n], ys[n]);
    }
  }

  /** The return after fees never exceeds the plain one, after rounding up too. */
  lemma FeesNeverPay(tokens: seq<Token>, pools: seq<PoolPair>)
    requires Walkable(tokens, pools) && forall i :: 0 <= i < |pools| ==> Sound(pools[i])
    ensures 0.0 <= Less(HopsOf(tokens, pools), tokens[0]) <= Plain(HopsOf(tokens, pools), tokens[0])
  {
    FoldWalks(tokens, pools);
    var xs, ys := Prices(tokens, pools), Nets(tokens, pools);
    forall i | 0 <= i < |pools| ensures 0.0 <= ys[i] <= xs[i] {
      SoundPoolHasSoundTerms(pools[i], tokens[i], tokens[i + 1]);
      NetIsBelowPrice(PoolTerms(pools[i], tokens[i], tokens[i + 1]));
    }
    ProductIsMonotone(xs, ys);
    Ceil8IsMonotone(Product(ys), Product(xs));
    Ceil8IsLeastAbove(Product(ys));
  }

  // The best path.

  datatype Best = Best(path: seq<Hop>, estimatedReturn: real, estimatedReturnLessDexFees: real)

  ghost predicate NoDirect(paths: seq<seq<Hop>>) {
    forall i :: 0 <= i < |paths| ==> |paths[i]| != 1
  }

  /** The first direct path. */
  ghost predicate IsDirect(paths: seq<seq<Hop>>, fromToken: Token, b: Best, i: nat) {
    && i < |paths| && |paths[i]| == 1 && (forall j :: 0 <= j < i ==> |paths[j]| != 1)
    && b == Best(paths[i], Plain(paths[i], fromToken), Less(paths[i], fromToken))
  }

  /** No path gives more after fees, and the chosen one is the first to give that much; with nothing to gain no path is
      chosen. The plain return shown is the largest of all paths. */
  ghost predicate IsMaximal(paths: seq<seq<Hop>>, fromToken: Token, b: Best) {
    && b.estimatedReturnLessDexFees >= 0.0 && b.estimatedReturn >= 0.0
    && (forall i :: 0 <= i < |paths| ==> Less(paths[i], fromToken) <= b.estimatedReturnLessDexFees)
    && (forall i :: 0 <= i < |paths| ==> Plain(paths[i], fromToken) <= b.estimatedReturn)
    && (b.estimatedReturnLessDexFees == 0.0 ==> b.path == [])
    && (b.estimatedReturnLessDexFees > 0.0 ==> exists i :: 0 <= i < |paths| && IsFirstBest(paths, fromToken, b, i))
    && (b.estimatedReturn > 0.0 ==> exists i :: 0 <= i < |paths| && Plain(paths[i], fromToken) == b.estimatedReturn)
  }

  ghost predicate IsFirstBest(paths: seq<seq<Hop>>, fromToken: Token, b: Best, i: int)
    requires 0 <= i < |paths|
  {
    && b.path == paths[i] && Less(paths[i], fromToken) == b.estimatedReturnLessDexFees
    && forall j :: 0 <= j < i ==> Less(paths[j], fromToken) < b.estimatedReturnLessDexFees
  }

  method GetBestPath(paths: seq<seq<Hop>>, fromTokenId: Token) returns (b: Best)
    ensures if NoDirect(paths) then IsMaximal(paths, fromTokenId, b) else exists i :: IsDirect(paths, fromTokenId, b, i)
  {
    for i := 0 to |paths|
      invariant forall j :: 0 <= j < i ==> |paths[j]| != 1
    {
      var estimatedReturn, estimatedReturnLessDexFees := ComputeReturns(paths[i], fromTokenId);
      if |paths[i]| == 1 {
        b := Best(paths[i], estimatedReturn, estimatedReturnLessDexFees);
        assert IsDirect(paths, fromTokenId, b, i);
        return;
      }
    }
    var bestPath: seq<Hop>, bestReturnLessDexFees, bestReturn := [], 0.0, 0.0;
    for i := 0 to |paths|
      invariant IsMaximal(paths[..i], fromTokenId, Best(bestPath, bestReturn, bestReturnLessDexFees))
    {
      var estimatedReturn, estimatedReturnLessDexFees := ComputeReturns(paths[i], fromTokenId);
      ghost var before := Best(bestPath, bestReturn, bestReturnLessDexFees);
      if estimatedReturn > bestReturn {
        bestReturn := estimatedReturn;
      }
      if estimatedReturnLessDexFees > bestReturnLessDexFees {
        bestReturnLessDexFees := estimatedReturnLessDexFees;
        bestPath := paths[i];
      }
      StaysMaximal(paths, fromTokenId, i, before, Best(bestPath, bestReturn, bestReturnLessDexFees));
    }
    assert paths[..|paths|] == paths;
    b := Best(bestPath, bestReturn, bestReturnLessDexFees);
  }

  lemma StaysMaximal(paths: seq<seq<Hop>>, fromToken: Token, i: nat, was: Best, b: Best)
    requires i < |paths| && IsMaximal(paths[..i], fromToken, was)
    requires b.estimatedReturn
          == if Plain(paths[i], fromToken) > was.estimatedReturn then Plain(paths[i], fromToken)
            else was.estimatedReturn
    requires if Less(paths[i], fromToken) > was.estimatedReturnLessDexFees
             then b.estimatedReturnLessDexFees == Less(paths[i], fromToken) && b.path == paths[i]
             else b.estimatedReturnLessDexFees == was.estimatedReturnLessDexFees && b.path == was.path
    ensures IsMaximal(paths[..i + 1], fromToken, b)
  {
    var first, now := paths[..i], paths[..i + 1];
    assert forall j :: 0 <= j < i ==> now[j] == first[j];
    assert now[i] == paths[i];
    if b.estimatedReturnLessDexFees > 0.0 {
      if Less(paths[i], fromToken) > was.estimatedReturnLessDexFees {
        assert IsFirstBest(now, fromToken, b, i);
      } else {
        var k :| 0 <= k < |first| && IsFirstBest(first, fromToken, was, k);
        assert IsFirstBest(now, fromToken, b, k);
      }
    }
    if b.estimatedReturn > 0.0 && b.estimatedReturn == was.estimatedReturn {
      var k :| 0 <= k < |first| && Plain(first[k], fromToken) == was.estimatedReturn;
      assert Plain(now[k], fromToken) == b.estimatedReturn;
    } else if b.estimatedReturn > 0.0 {
      assert Plain(now[i], fromToken) == b.estimatedReturn;
    }
  }

  /** Without a direct path, a path is chosen exactly when one gives something after fees. */
  lemma PathChosenIff(paths: seq<seq<Hop>>, fromToken: Token, b: Best)
    requires IsMaximal(paths, fromToken, b) && forall i :: 0 <= i < |paths| ==> paths[i] != []
    ensures b.path != [] <==> exists i :: 0 <= i < |paths| && Less(paths[i], fromToken) > 0.0
  {
    if b.estimatedReturnLessDexFees > 0.0 {
      var i :| 0 <= i < |paths| && IsFirstBest(paths, fromToken, b, i);
    }
  }

  /** The first of the paths that give most after fees. */
  ghost predicate IsFirstMaximal(paths: seq<seq<Hop>>, fromToken: Token, i: nat) {
    && i < |paths| && (forall j :: 0 <= j < |paths| ==> Less(paths[j], fromToken) <= Less(paths[i], fromToken))
    && forall j :: 0 <= j < i ==> Less(paths[j], fromToken) < Less(paths[i], fromToken)
  }

  /** No path has a larger plain return, and there is one. */
  ghost predicate IsMaximalPlain(paths: seq<seq<Hop>>, fromToken: Token, i: nat) {
    && i < |paths| && Plain(paths[i], fromToken) >= 0.0
    && forall j :: 0 <= j < |paths| ==> Plain(paths[j], fromToken) <= Plain(paths[i], fromToken)
  }

  /** The plain return shown is the chosen path's own exactly when the first path to give most after fees also gives
      most before them. */
  lemma OwnReturnIff(paths: seq<seq<Hop>>, fromToken: Token, b: Best)
    requires IsMaximal(paths, fromToken, b) && exists i :: 0 <= i < |paths| && Less(paths[i], fromToken) > 0.0
    ensures b.estimatedReturn == Plain(b.path, fromToken)
       <==> exists i :: IsFirstMaximal(paths, fromToken, i) && IsMaximalPlain(paths, fromToken, i)
  {
    var k :| 0 <= k < |paths| && IsFirstBest(paths, fromToken, b, k);
    assert IsFirstMaximal(paths, fromToken, k);
    if i :| IsFirstMaximal(paths, fromToken, i) && IsMaximalPlain(paths, fromToken, i) {
      FirstMaximalIsOne(paths, fromToken, i, k);
      if b.estimatedReturn > 0.0 {
        var l :| 0 <= l < |paths| && Plain(paths[l], fromToken) == b.estimatedReturn;
      }
    }
    if b.estimatedReturn == Plain(b.path, fromToken) {
      assert IsMaximalPlain(paths, fromToken, k);
    }
  }

  lemma FirstMaximalIsOne(paths: seq<seq<Hop>>, fromToken: Token, i: nat, k: nat)
    requires IsFirstMaximal(paths, fromToken, i) && IsFirstMaximal(paths, fromToken, k)
    ensures i == k
  {
    assert Less(paths[i], fromToken) <= Less(paths[k], fromToken) <= Less(paths[i], fromToken);
  }

  /** Of two paths, one may win after fees and the other before them: the first is chosen, the other's return is
      shown. */
  lemma BestOfTwo(p: seq<Hop>, q: seq<Hop>, fromToken: Token)
    requires |p| > 1 && |q| > 1 && 0.0 < Less(q, fromToken) && Less(p, fromToken) < Less(q, fromToken)
    requires 0.0 <= Plain(q, fromToken) < Plain(p, fromToken)
    ensures NoDirect([p, q]) && IsMaximal([p, q], fromToken, Best(q, Plain(p, fromToken), Less(q, fromToken)))
  {
    var paths, b := [p, q], Best(q, Plain(p, fromToken), Less(q, fromToken));
    assert Plain(paths[0], fromToken) == b.estimatedReturn;
    assert IsFirstBest(paths, fromToken, b, 1);
  }

  lemma Fixed8Stays(n: nat)
    ensures Fixed8(n as real / UNIT) == n as real / UNIT
  {
    var x := n as real / UNIT;
    assert x * UNIT == n as real;
    assert (n as real + 0.5).Floor == n;
  }

  /** A pool without dex fees. */
  function FreePool(a: Token, b: Token, price: real, commission: real): PoolPair {
    PoolPair(a + b, a, b, true, price, price, commission, None, None, None, None)
  }

  lemma FreePoolTerms(a: Token, b: Token, price: real, commission: real)
    requires a != b && Fixed8(price) == price && Fixed8(commission) == commission
    ensures PoolTerms(FreePool(a, b, price, commission), a, b) == Terms(price, commission, 0.0, 0.0)
    ensures Net(Terms(price, commission, 0.0, 0.0)) == Times(1.0 - commission, price)
  {
    Fixed8Stays(0);
    NetIs(Terms(price, commission, 0.0, 0.0));
    assert Times(1.0 - commission, 1.0 - 0.0) == 1.0 - commission;
  }

  lemma ProductOfTwo(x: real)
    ensures Product([1.0, x]) == x
  {
    var xs := [1.0, x];
    assert xs[..1] == [1.0] && [1.0][..0] == [];
    OneTimes(1.0);
    OneTimes(x);
  }

  lemma OneTimes(x: real)
    ensures Times(1.0, x) == x
  {
  }

  /** Two pools, the first of which changes nothing. */
  function TwoPools(a: Token, mid: Token, b: Token, price: real, commission: real): seq<PoolPair> {
    [FreePool(a, mid, 1.0, 0.0), FreePool(mid, b, price, commission)]
  }

  /** The terms of the two pools: the price of the second, and `less` of it after the commission. */
  lemma TwoPoolsTerms(a: Token, mid: Token, b: Token, price: real, commission: real, less: real)
    requires a != mid && mid != b && Fixed8(1.0) == 1.0 && Fixed8(price) == price && Fixed8(commission) == commission
    requires Fixed8(0.0) == 0.0 && less == Times(1.0 - commission, price)
    ensures var tokens, pools := [a, mid, b], TwoPools(a, mid, b, price, commission);
      Prices(tokens, pools) == [1.0, price] && Nets(tokens, pools) == [1.0, less]
  {
    FreePoolTerms(a, mid, 1.0, 0.0);
    FreePoolTerms(mid, b, price, commission);
    OneTimes(1.0);
  }

  lemma TwoPoolsReturn(a: Token, mid: Token, b: Token, price: real, commission: real, less: real)
    requires a != mid && mid != b
    requires var tokens, pools := [a, mid, b], TwoPools(a, mid, b, price, commission);
      Prices(tokens, pools) == [1.0, price] && Nets(tokens, pools) == [1.0, less]
    ensures var tokens, pools := [a, mid, b], TwoPools(a, mid, b, price, commission);
      Walkable(tokens, pools) && Fold(HopsOf(tokens, pools), a) == Running(b, price, less)
  {
    FoldWalks([a, mid, b], TwoPools(a, mid, b, price, commission));
    ProductOfTwo(price);
    ProductOfTwo(less);
  }

  lemma ReturnsBy(path: seq<Hop>, fromToken: Token, end: Running, plain: real, less: real)
    requires Fold(path, fromToken) == end && Ceil8(end.plain) == plain && Ceil8(end.less) == less
    ensures Plain(path, fromToken) == plain && Less(path, fromToken) == less
  {
  }

  lemma ConstantsStay()
    ensures Fixed8(1.0) == 1.0 && Fixed8(2.0) == 2.0 && Fixed8(0.75) == 0.75 && Fixed8(0.0) == 0.0
    ensures Ceil8(1.0) == 1.0 && Ceil8(2.0) == 2.0 && Ceil8(0.5) == 0.5
  {
    Fixed8Stays(100000000);
    Fixed8Stays(200000000);
    Fixed8Stays(75000000);
    Fixed8Stays(0);
  }

  /** There are such pools, with two ways from a to c: over b, with 2 before and 0.5 after the commission, and over d,
      with 1 before and after. */
  lemma SuchPathsExist()
    ensures var overB, overD := TwoPools("a", "b", "c", 2.0, 0.75), TwoPools("a", "d", "c", 1.0, 0.0);
      var p, q := HopsOf(["a", "b", "c"], overB), HopsOf(["a", "d", "c"], overD);
      && (forall i :: 0 <= i < 2 ==> Sound(overB[i]) && Sound(overD[i]))
      && Walkable(["a", "b", "c"], overB) && Walkable(["a", "d", "c"], overD)
      && IsMaximal([p, q], "a", Best(q, 2.0, 1.0)) && Plain(q, "a") == 1.0
  {
    var overB, overD := TwoPools("a", "b", "c", 2.0, 0.75), TwoPools("a", "d", "c", 1.0, 0.0);
    var p, q := HopsOf(["a", "b", "c"], overB), HopsOf(["a", "d", "c"], overD);
    ConstantsStay();
    TwoPoolsTerms("a", "b", "c", 2.0, 0.75, 0.5);
    TwoPoolsTerms("a", "d", "c", 1.0, 0.0, 1.0);
    TwoPoolsReturn("a", "b", "c", 2.0, 0.75, 0.5);
    TwoPoolsReturn("a", "d", "c", 1.0, 0.0, 1.0);
    ReturnsBy(p, "a", Running("c", 2.0, 0.5), 2.0, 0.5);
    ReturnsBy(q, "a", Running("c", 1.0, 1.0), 1.0, 1.0);
    BestOfTwo(p, q, "a");
  }
}
