/** Blocks, and the best chain of the node an indexer follows. */
module BlockTree {
  type Hash = nat

  /** A block as an indexer sees it. `writes` counts the rows that indexing it stores; row 0 is the row of
      the block itself, which the indexer puts first. */
  datatype Block = Block(hash: Hash, prev: Hash, height: nat, writes: nat)

  /** Every block that any node ever reports, by hash: a hash names one block for good. */
  datatype World = World(genesis: Block, blocks: map<Hash, Block>)

  ghost predicate ValidWorld(w: World) {
    && w.genesis.hash in w.blocks && w.blocks[w.genesis.hash] == w.genesis && w.genesis.height == 0
    && (forall h :: h in w.blocks ==> w.blocks[h].hash == h && w.blocks[h].writes >= 1)
  }

  ghost predicate Known(w: World, b: Block) {
    b.hash in w.blocks && w.blocks[b.hash] == b
  }

  /** A hash-linked chain with contiguous heights from genesis. */
  ghost predicate IsChain(w: World, c: seq<Block>) {
    && (forall i :: 0 <= i < |c| ==> Known(w, c[i]) && c[i].height == i)
    && (forall i :: 0 < i < |c| ==> c[i].prev == c[i - 1].hash)
    && (|c| > 0 ==> c[0] == w.genesis)
  }

  ghost predicate OnChain(c: seq<Block>, h: Hash) {
    exists i :: 0 <= i < |c| && c[i].hash == h
  }

  /** `b` can be pushed on top of `c`. */
  ghost predicate Extends(c: seq<Block>, b: Block) {
    |c| > 0 && b.height == |c| && b.prev == c[|c| - 1].hash
  }

  /** Number of leading blocks two chains share. */
  function Common(a: seq<Block>, b: seq<Block>): (n: nat)
    ensures n <= |a| && n <= |b| && a[..n] == b[..n]
    ensures n < |a| && n < |b| ==> a[n] != b[n]
  {
    if |a| > 0 && |b| > 0 && a[0] == b[0] then
      var n := 1 + Common(a[1..], b[1..]);
      assert a[..n] == [a[0]] + a[1..][..n - 1] && b[..n] == [b[0]] + b[1..][..n - 1];
      n
    else 0
  }

  lemma CommonOf(a: seq<Block>, b: seq<Block>, n: nat)
    requires n <= |a| && n <= |b| && a[..n] == b[..n]
    requires n < |a| && n < |b| ==> a[n] != b[n]
    ensures Common(a, b) == n
  {
    var m := Common(a, b);
    assert forall i :: 0 <= i < n ==> a[..n][i] == a[i] && b[..n][i] == b[i];
    assert forall i :: 0 <= i < m ==> a[..m][i] == a[i] && b[..m][i] == b[i];
  }

  /** The blocks two chains agree on are exactly the heights below `Common`: once they part they never meet. */
  lemma {:induction false} ChainsPartForGood(w: World, a: seq<Block>, b: seq<Block>, i: nat)
    requires IsChain(w, a) && IsChain(w, b) && i < |a| && i < |b|
    ensures a[i] == b[i] <==> i < Common(a, b)
  {
    var n := Common(a, b);
    if i < n {
      assert a[i] == a[..n][i] == b[..n][i];
    } else if a[i] == b[i] && n < i {
      assert a[i - 1].hash == b[i - 1].hash;
      assert Known(w, a[i - 1]) && Known(w, b[i - 1]);
      ChainsPartForGood(w, a, b, i - 1);
    }
  }
}
