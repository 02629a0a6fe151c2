/** The rich list as a program, while the node keeps its chain: one crawl and one recalculation bring every stored
    balance to the node's. The class keeps the same invariant as the step system. */
module RichList {
  import opened Wrappers
  import opened BlockTree
  import opened RichListProtocol
  import opened RichListSafety
  import BlockProvider

  /** The blocks of exactly one of two chains. */
  ghost predicate OnOne(c: seq<Block>, d: seq<Block>, b: Block) {
    (b in c) != (b in d)
  }

  /** Pushing or popping `b` moves only `b`, and towards the chain the crawl ends with. */
  lemma PassMovesOne(w: World, c: seq<Block>, d: seq<Block>, b: Block, end: seq<Block>)
    requires IsChain(w, c) && IsChain(w, d) && IsChain(w, end)
      && ((d == c + [b] && b in end) || (c == d + [b] && b !in end))
    ensures forall x :: OnOne(c, end, x) <==> x == b || OnOne(d, end, x)
  {
    if d == c + [b] {
      NotTwice(w, d);
    }
  }

  /** The queue `q` with exactly the addresses of the blocks of exactly one of the chains added to it. */
  ghost predicate Requeued(env: Env, c: seq<Block>, d: seq<Block>, q: set<Address>, q': set<Address>) {
    forall a :: a in q' <==> a in q || exists b :: OnOne(c, d, b) && a in Parse(env, b)
  }

  lemma RequeuedStep(env: Env, c: seq<Block>, d: seq<Block>, b: Block, end: seq<Block>, q: set<Address>,
                     q': set<Address>)
    requires forall x :: OnOne(c, end, x) <==> x == b || OnOne(d, end, x)
    requires Requeued(env, d, end, q + Parse(env, b), q')
    ensures Requeued(env, c, end, q, q')
  {
    forall a ensures a in q' <==> a in q || exists x :: OnOne(c, end, x) && a in Parse(env, x) {
      if a in Parse(env, b) {
        assert OnOne(c, end, b);
      }
    }
  }

  lemma NotTwice(w: World, d: seq<Block>)
    requires IsChain(w, d) && d != []
    ensures d[|d| - 1] !in d[..|d| - 1]
  {
  }

  lemma OffTheChain(w: World, c: seq<Block>, node: seq<Block>)
    requires IsChain(w, c) && IsChain(w, node) && 0 < |c| < |node| && node[|c|].prev != c[|c| - 1].hash
    ensures c[|c| - 1] !in node
  {
  }

  /** The block that the next pass over the crawled chain `c` adds or takes off. */
  function Moved(c: seq<Block>, node: seq<Block>): Block
    requires |c| < |node|
  {
    if c == [] || node[|c|].prev == c[|c| - 1].hash then node[|c|] else c[|c| - 1]
  }

  lemma CrawlPass(env: Env, c: seq<Block>, node: seq<Block>)
    requires ValidWorld(env.tree) && IsChain(env.tree, c) && IsChain(env.tree, node) && |c| < |node|
    ensures var (d, go) := BlockProvider.Pass(c, node);
      && go && BlockProvider.Distance(d, node) < BlockProvider.Distance(c, node)
        && BlockProvider.Settled(d, node) == node
      && (forall x :: OnOne(c, node, x) <==> x == Moved(c, node) || OnOne(d, node, x))
      && (if Moved(c, node) == node[|c|] then Extending(env, c, node[|c|]) && d == c + [node[|c|]]
          else |c| >= 2 && d == c[..|c| - 1])
  {
    var w := env.tree;
    var d := BlockProvider.Pass(c, node).0;
    BlockProvider.PassConverges(w, c, node);
    assert Known(w, node[|c|]);
    if c != [] && c[|c| - 1].hash != node[|c|].prev {
      BlockProvider.PopIsPossible(w, c, node);
      OffTheChain(w, c, node);
      assert c == d + [c[|c| - 1]];
    }
    PassMovesOne(w, c, d, Moved(c, node), node);
  }

  /** The addresses no longer queued have the node's balances; nothing else has changed. */
  ghost predicate Refreshed(env: Env, node: seq<Block>, q: set<Address>, before: map<(Address, Kind), Amount>,
                            left: set<Address>, after: map<(Address, Kind), Amount>) {
    && left <= q
    && (forall a, k :: a in q && a !in left ==> (a, k) in after && after[(a, k)] == Balance(env, node, a, k))
    && (forall a, k :: a !in q || a in left ==>
          ((a, k) in after <==> (a, k) in before) && ((a, k) in after ==> after[(a, k)] == before[(a, k)]))
  }

  /** Both balances of every address of a batch, and nothing else. */
  ghost predicate BalancesOf(env: Env, node: seq<Block>, batch: set<Address>, m: map<(Address, Kind), Amount>) {
    && (forall a, k :: (a, k) in m <==> a in batch)
    && (forall a, k :: (a, k) in m ==> m[(a, k)] == Balance(env, node, a, k))
  }

  lemma Stored(env: Env, node: seq<Block>, q: set<Address>, before: map<(Address, Kind), Amount>, left: set<Address>,
               batch: set<Address>, after: map<(Address, Kind), Amount>, m: map<(Address, Kind), Amount>)
    requires Refreshed(env, node, q, before, left + batch, after) && BalancesOf(env, node, batch, m) && batch !! left
    ensures Refreshed(env, node, q, before, left, after + m)
  {
  }

  class RichListCore {
    var isCatchingUp: bool
    var crawled: seq<Block>
    var rows: map<nat, set<Address>>
    var queue: set<Address>
    var stored: map<(Address, Kind), Amount>

    constructor ()
      ensures !isCatchingUp && crawled == [] && rows == map[] && queue == {} && stored == map[]
    {
      isCatchingUp, crawled, rows, queue, stored := false, [], map[], {}, map[];
    }

    /** The object as a state of the step system at rest. */
    ghost function Snapshot(node: seq<Block>): State
      reads this
    {
      State(node, crawled, rows, queue, stored, Resting, Idle)
    }

    ghost predicate Valid(env: Env, node: seq<Block>)
      reads this
    {
      Inv(env, Snapshot(node))
    }

    method Start(env: Env, node: seq<Block>)
      requires Valid(env, node)
      modifies this
      ensures Valid(env, node) && stored == old(stored)
      ensures if old(isCatchingUp) then unchanged(this)
              else crawled == BlockProvider.Settled(old(crawled), node) && !isCatchingUp
    {
      if isCatchingUp {
        return;
      }
      isCatchingUp := true;
      CatchUp(env, node);
    }

    /** Crawls to the node's tip. Exactly the addresses of the blocks taken off or added are queued. */
    method CatchUp(env: Env, node: seq<Block>)
      requires Valid(env, node)
      modifies this
      ensures Valid(env, node) && !isCatchingUp && stored == old(stored)
      ensures crawled == BlockProvider.Settled(old(crawled), node)
      ensures Requeued(env, old(crawled), crawled, old(queue), queue)
      decreases BlockProvider.Distance(crawled, node)
    {
      var nextHeight := if crawled == [] then 0 else crawled[|crawled| - 1].height + 1;
      if nextHeight >= |node| {
        isCatchingUp := false;
        return;
      }
      var next := node[nextHeight];
      ghost var c, moved, q := crawled, Moved(crawled, node), queue;
      CrawlPass(env, crawled, node);
      if crawled != [] && crawled[|crawled| - 1].hash != next.prev {
        Invalidate(env, node);
      } else {
        Push(env, node, next);
      }
      ghost var d := crawled;
      CatchUp(env, node);
      RequeuedStep(env, c, d, moved, node, q, queue);
    }

    /** The part of `catchUp` that adds a block: its addresses are queued and recorded, then its hash. */
    method Push(env: Env, node: seq<Block>, next: Block)
      requires Valid(env, node) && Extending(env, crawled, next)
      modifies this`queue, this`rows, this`crawled
      ensures Valid(env, node)
      ensures crawled == old(crawled) + [next] && queue == old(queue) + Parse(env, next)
    {
      ghost var s0 := Snapshot(node);
      var todo := Parse(env, next);
      assert RowsAt(s0, next.height) == ExpectedRows(env, s0, next.height);
      while todo != {}
        invariant todo <= Parse(env, next) && crawled == old(crawled)
        invariant queue == old(queue) + (Parse(env, next) - todo)
        invariant forall h :: RowsAt(Snapshot(node), h) == if h == next.height then Parse(env, next) - todo
          else RowsAt(s0, h)
        decreases todo
      {
        var a :| a in todo;
        queue := queue + {a};
        rows := rows[next.height := (if next.height in rows then rows[next.height] else {}) + {a}];
        todo := todo - {a};
      }
      crawled := crawled + [next];
      Pushed(env, s0, Snapshot(node), next);
    }

    lemma Pushed(env: Env, s: State, t: State, b: Block)
      requires Inv(env, s) && s.crawler == Resting && s.calculator == Idle && Extending(env, s.crawled, b)
      requires t == s.(crawled := s.crawled + [b], queue := s.queue + Parse(env, b), rows := t.rows)
      requires forall h :: RowsAt(t, h) == if h == b.height then Parse(env, b) else RowsAt(s, h)
      ensures Inv(env, t)
    {
      forall a ensures a in t.queue || Touching(env, View(t), a) == Touching(env, View(s), a) {
        TouchingSnoc(env, s.crawled, b, a);
      }
      ValuesKept(env, s, t);
      forall h ensures RowsAt(t, h) == ExpectedRows(env, t, h) {
        assert RowsAt(s, h) == ExpectedRows(env, s, h);
      }
    }

    /** `invalidate`: the tip goes, and its addresses are queued again. */
    method Invalidate(env: Env, node: seq<Block>)
      requires Valid(env, node) && |crawled| >= 2
      modifies this`queue, this`rows, this`crawled
      ensures Valid(env, node)
      ensures crawled == old(crawled)[..|old(crawled)| - 1]
      ensures queue == old(queue) + Parse(env, old(crawled)[|old(crawled)| - 1])
    {
      ghost var s0 := Snapshot(node);
      var tip := crawled[|crawled| - 1];
      assert RowsAt(s0, tip.height) == ExpectedRows(env, s0, tip.height) == Parse(env, tip);
      crawled := crawled[..|crawled| - 1];
      if tip.height != 0 {
        var todo := if tip.height in rows then rows[tip.height] else {};
        while todo != {}
          invariant todo <= Parse(env, tip) && crawled == old(crawled)[..|old(crawled)| - 1]
          invariant queue == old(queue) + (Parse(env, tip) - todo)
          invariant forall h :: RowsAt(Snapshot(node), h) == if h == tip.height then todo else RowsAt(s0, h)
          decreases todo
        {
          var a :| a in todo;
          queue := queue + {a};
          todo := todo - {a};
          rows := rows[tip.height := (if tip.height in rows then rows[tip.height] else {}) - {a}];
        }
      }
      Popped(env, s0, Snapshot(node), tip);
    }

    lemma Popped(env: Env, s: State, t: State, b: Block)
      requires Inv(env, s) && s.crawler == Resting && s.calculator == Idle && |s.crawled| >= 2
        && s.crawled == t.crawled + [b]
      requires t == s.(crawled := t.crawled, queue := s.queue + Parse(env, b), rows := t.rows)
      requires forall h :: RowsAt(t, h) == if h == b.height then {} else RowsAt(s, h)
      ensures Inv(env, t)
    {
      forall a ensures a in t.queue || Touching(env, View(t), a) == Touching(env, View(s), a) {
        TouchingSnoc(env, t.crawled, b, a);
      }
      ValuesKept(env, s, t);
      assert s.crawled[|t.crawled|] == b;
      assert forall h :: 0 <= h < |t.crawled| ==> s.crawled[h] == t.crawled[h];
      forall h ensures RowsAt(t, h) == ExpectedRows(env, t, h) {
        assert RowsAt(s, h) == ExpectedRows(env, s, h);
      }
    }

    /** At most `limit` messages, and none only from an empty queue. */
    method Receive(limit: nat) returns (batch: set<Address>)
      modifies this`queue
      ensures batch <= old(queue) && queue == old(queue) - batch
      ensures |batch| <= limit && (batch == {} ==> queue == {} || limit == 0)
    {
      batch := {};
      while queue != {} && |batch| < limit
        invariant batch <= old(queue) && queue == old(queue) - batch && |batch| <= limit
        invariant queue == old(queue) || batch != {}
        decreases queue
      {
        var a :| a in queue;
        batch, queue := batch + {a}, queue - {a};
      }
    }

    /** `getActiveAddressBalances`: the balances of a batch of queued addresses. */
    method GetActiveAddressBalances(env: Env, node: seq<Block>, limit: nat)
      returns (balances: map<(Address, Kind), Amount>, ghost batch: set<Address>)
      modifies this`queue
      ensures batch <= old(queue) && queue == old(queue) - batch
      ensures BalancesOf(env, node, batch, balances)
      ensures (balances == map[] <==> batch == {}) && (batch == {} ==> queue == {} || limit == 0)
    {
      var todo := Receive(limit);
      batch := todo;
      balances := map[];
      while todo != {}
        invariant todo <= batch && BalancesOf(env, node, batch - todo, balances)
        decreases todo
      {
        var a :| a in todo;
        ghost var before := balances;
        balances := balances[(a, Account) := Balance(env, node, a, Account)][(a, Utxo) := Balance(env, node, a, Utxo)];
        todo := todo - {a};
        forall x, k: Kind ensures (x, k) in balances <==> x in batch - todo {
          assert (x, k) in before <==> x in batch - todo - {a};
          assert k == Account || k == Utxo;
        }
      }
      if batch != {} {
        var a :| a in batch;
        assert (a, Account) in balances;
      }
      assert forall p :: p in balances ==> (p.0, p.1) in balances && p.0 in batch;
    }

    /** `calculateNext`: every queued address gets the node's balances. When the crawler has caught up, every
        stored balance is then the node's. */
    method CalculateNext(env: Env, node: seq<Block>, limit: nat)
      requires Valid(env, node)
      modifies this`queue, this`stored
      ensures limit > 0 ==> queue == {}
      ensures Refreshed(env, node, old(queue), old(stored), queue, stored)
      ensures crawled == node ==> Valid(env, node)
      ensures crawled == node && limit > 0 ==> forall p :: p in stored ==> stored[p] == Balance(env, node, p.0, p.1)
    {
      ghost var queue0, stored0, s0 := queue, stored, Snapshot(node);
      var updated, batch := GetActiveAddressBalances(env, node, limit);
      while updated != map[]
        invariant batch <= queue0 - queue && (updated == map[] <==> batch == {})
          && (batch == {} ==> queue == {} || limit == 0)
        invariant BalancesOf(env, node, batch, updated)
        invariant Refreshed(env, node, queue0, stored0, queue + batch, stored)
        decreases queue + batch
      {
        Stored(env, node, queue0, stored0, queue, batch, stored, updated);
        stored := stored + updated;
        ghost var q := queue;
        updated, batch := GetActiveAddressBalances(env, node, limit);
        assert queue + batch == q;
      }
      assert queue + batch == queue;
      if crawled == node {
        Calculated(env, s0, Snapshot(node));
      }
    }

    lemma Calculated(env: Env, s: State, t: State)
      requires Inv(env, s) && s.crawler == Resting && s.calculator == Idle && s.crawled == s.node
      requires t == s.(queue := t.queue, stored := t.stored) && t.queue <= s.queue
      requires Refreshed(env, s.node, s.queue, s.stored, t.queue, t.stored)
      ensures Inv(env, t)
      ensures t.queue == {} ==> forall p :: p in t.stored ==> t.stored[p] == Balance(env, s.node, p.0, p.1)
    {
      forall a, k ensures a in t.queue || Current(env, t, a, k) {
        assert a in s.queue || Waiting(env, s, a) || BeingRead(s, a) || Current(env, s, a, k);
      }
      RowsKept(env, s, t);
      forall p | p in t.stored && t.queue == {} ensures t.stored[p] == Balance(env, s.node, p.0, p.1) {
        assert Current(env, t, p.0, p.1);
      }
    }
  }
}
