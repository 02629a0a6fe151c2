/** What every run of the block provider keeps: the index is a chain, and recovery always finds the one block
    that was left half written or half removed. */
module IndexSafety {
  import opened Wrappers
  import opened BlockTree
  import opened IndexProtocol

  /** The index holds exactly the chain `c`. */
  ghost predicate Clean(w: World, db: Db, c: seq<Block>) {
    && IsChain(w, c)
    && (forall h :: OnChain(c, h) ==> h in w.blocks && FullyStored(db, w.blocks[h]))
    && (forall h :: !OnChain(c, h) ==> db.Stored(h) == {})
  }

  /** The index holds the chain `c`, and on top of it any part of the block `h`. */
  ghost predicate Dirty(w: World, db: Db, c: seq<Block>, h: Hash) {
    && IsChain(w, c)
    && h in w.blocks && Extends(c, w.blocks[h])
    && (forall x :: OnChain(c, x) ==> x in w.blocks && FullyStored(db, w.blocks[x]))
    && (forall x :: !OnChain(c, x) && x != h ==> db.Stored(x) == {})
    && (forall k :: k in db.Stored(h) ==> k < w.blocks[h].writes)
    && (db.Stored(h) != {} ==> h in db.raw)
  }

  /** The record names the block that may be incomplete, whenever there is one. */
  ghost predicate Named(w: World, db: Db, c: seq<Block>, h: Hash) {
    && MustCleanUp(db.record) && db.record.hash == h
    && Dirty(w, db, c, h) && db.record.height == w.blocks[h].height
  }

  ghost predicate Persisted(w: World, db: Db, c: seq<Block>) {
    if MustCleanUp(db.record) then Named(w, db, c, db.record.hash) else Clean(w, db, c)
  }

  /** `h` may be written into a record that asks for a clean-up. */
  ghost predicate Nameable(w: World, db: Db, c: seq<Block>, h: Hash, height: nat) {
    && h in w.blocks && w.blocks[h].height == height
    && if MustCleanUp(db.record) then Named(w, db, c, h)
       else Clean(w, db, c) && (IsTip(c, h) || Extends(c, w.blocks[h]))
  }

  /** `h` is the top of the chain and not its genesis. */
  ghost predicate IsTip(c: seq<Block>, h: Hash) {
    |c| >= 2 && c[|c| - 1].hash == h
  }

  /** The genesis block is being written: the only write that no record covers. */
  ghost predicate WritingGenesis(pc: Pc) {
    (pc.PutRaw? || pc.WriteRow?) && pc.genesis
  }

  /** What holds while the loop waits at `pc`. */
  ghost predicate At(w: World, db: Db, node: seq<Block>, pc: Pc, c: seq<Block>) {
    match pc
    case GetStatus => Persisted(w, db, c)
    case GetHighest => Clean(w, db, c) && !MustCleanUp(db.record)
    case GetHash(tip) => Clean(w, db, c) && !MustCleanUp(db.record) && |c| > 0 && tip == c[|c| - 1]
    case GetBlock(tip, h) =>
      Clean(w, db, c) && !MustCleanUp(db.record) && |c| > 0 && tip == c[|c| - 1] && h in w.blocks
      && w.blocks[h].height == |c| && (|c| == 1 ==> w.blocks[h].prev == w.genesis.hash)
    case GetGenesisHash => Clean(w, db, c) && !MustCleanUp(db.record) && c == []
    case GetGenesisBlock(h) => Clean(w, db, c) && !MustCleanUp(db.record) && c == [] && h == w.genesis.hash
    case PutIndexing(b) => Known(w, b) && Nameable(w, db, c, b.hash, b.height) && Persisted(w, db, c)
                           && !MustCleanUp(db.record) && Extends(c, b)
    case PutRaw(b, genesis) =>
      Known(w, b) && if genesis then c == [] && b == w.genesis && Clean(w, db, []) && !MustCleanUp(db.record)
                     else Named(w, db, c, b.hash) && db.Stored(b.hash) == {}
    case WriteRow(b, k, genesis) =>
      && Known(w, b) && k < b.writes && (forall j: nat :: j in db.Stored(b.hash) <==> j < k) && b.hash in db.raw
      && if genesis
         then c == [] && b == w.genesis && !MustCleanUp(db.record) && (forall x :: x != b.hash ==> db.Stored(x) == {})
         else Named(w, db, c, b.hash)
    case PutIndexed(b) => Known(w, b) && Named(w, db, c, b.hash) && FullyStored(db, b)
    case PutIndexError(b) => Known(w, b) && Nameable(w, db, c, b.hash, b.height)
    case PutInvalidating(h, height, cleaning) => Nameable(w, db, c, h, height)
    case GetRaw(h, height, cleaning) => Named(w, db, c, h) && height == db.record.height
    case DeleteRow(h, height, k, cleaning) =>
      Named(w, db, c, h) && height == db.record.height && k < w.blocks[h].writes && h in db.raw
      && (forall j: nat :: j < k ==> j !in db.Stored(h))
    case PutInvalidated(h, height, cleaning) => Named(w, db, c, h) && height == db.record.height && db.Stored(h) == {}
    case PutInvalidateError(h, height, notFound) =>
      Nameable(w, db, c, h, height) && (notFound ==> h in w.blocks && !Partial(w, db, h))
  }

  /** The invariant of every run. At most one loop is active, and `indexing` says whether one is. */
  ghost predicate Inv(w: World, s: State, c: seq<Block>) {
    && ValidWorld(w) && |s.node| > 0 && IsChain(w, s.node)
    && |s.loops| == (if s.indexing then 1 else 0)
    && if s.loops == [] then Persisted(w, s.db, c) else At(w, s.db, s.node, s.loops[0], c)
  }

  /** The two things the provider relies on: writing the genesis block does not fail, and no indexer reports a
      missing row while part of the block is still stored. */
  ghost predicate Obeys(w: World, s: State, e: Event) {
    match e
    case Crash => forall i :: 0 <= i < |s.loops| ==> !WritingGenesis(s.loops[i])
    case Resume(i, o) =>
      i < |s.loops| ==>
        && (WritingGenesis(s.loops[i]) ==> o.Ok?)
        && (s.loops[i].DeleteRow? && o.ThrowNotFound? ==> !Partial(w, s.db, s.loops[i].hash))
    case _ => true
  }

  ghost predicate RunObeys(w: World, s: State, es: seq<Event>)
    decreases |es|
  {
    es != [] ==> Obeys(w, s, es[0]) && RunObeys(w, Step(w, s, es[0]), es[1..])
  }

  ghost predicate AfterAdvance(w: World, db: Db, node: seq<Block>, next: Next, c: seq<Block>) {
    if next.Go? then At(w, db, node, next.pc, c) else Persisted(w, db, c)
  }

  /** A chain and the same chain with its tip taken off. */
  lemma TakeTip(w: World, c: seq<Block>)
    requires IsChain(w, c) && |c| >= 2
    ensures var d := c[..|c| - 1]; var t := c[|c| - 1];
      && IsChain(w, d) && Extends(d, t) && Known(w, t)
      && (forall h :: OnChain(c, h) <==> OnChain(d, h) || h == t.hash) && !OnChain(d, t.hash)
  {
    var d, t := c[..|c| - 1], c[|c| - 1];
    forall h ensures OnChain(c, h) <==> OnChain(d, h) || h == t.hash {
      if OnChain(d, h) {
        var i :| 0 <= i < |d| && d[i].hash == h;
        assert c[i].hash == h;
      }
      if OnChain(c, h) && h != t.hash {
        var i :| 0 <= i < |c| && c[i].hash == h;
        assert d[i].hash == h;
      }
    }
  }

  lemma PushTip(w: World, c: seq<Block>, b: Block)
    requires IsChain(w, c) && Known(w, b) && Extends(c, b)
    ensures IsChain(w, c + [b]) && (forall h :: OnChain(c + [b], h) <==> OnChain(c, h) || h == b.hash)
    ensures !OnChain(c, b.hash)
  {
    var e := c + [b];
    assert IsChain(w, e);
    TakeTip(w, e);
    assert e[..|e| - 1] == c;
  }

  /** Writing a record that asks for a clean-up of `h` keeps the data recoverable. */
  lemma NameIt(w: World, db: Db, c: seq<Block>, h: Hash, height: nat, status: Status) returns (c': seq<Block>)
    requires ValidWorld(w) && Nameable(w, db, c, h, height)
      && (status == INDEXING || status == INVALIDATING || status == ERROR)
    ensures Named(w, PutRecord(db, h, height, status), c', h)
    ensures c' == if MustCleanUp(db.record) || Extends(c, w.blocks[h]) then c else c[..|c| - 1]
  {
    assert forall x :: PutRecord(db, h, height, status).Stored(x) == db.Stored(x);
    if MustCleanUp(db.record) || Extends(c, w.blocks[h]) {
      c' := c;
      if !MustCleanUp(db.record) {
        PushTip(w, c, w.blocks[h]);
      }
    } else {
      c' := c[..|c| - 1];
      TakeTip(w, c);
    }
  }

  /** Once all of the named block is stored, it is the new tip; once nothing is, it is gone. */
  lemma CloseNamed(w: World, db: Db, c: seq<Block>, h: Hash, r: Record) returns (c': seq<Block>)
    requires ValidWorld(w) && Named(w, db, c, h) && !MustCleanUp(r) && !Partial(w, db, h)
    ensures Clean(w, db.(record := r), c') && c' == if db.Stored(h) == {} then c else c + [w.blocks[h]]
  {
    PushTip(w, c, w.blocks[h]);
    assert forall x :: db.(record := r).Stored(x) == db.Stored(x);
    c' := if db.Stored(h) == {} then c else c + [w.blocks[h]];
  }

  /** The pending call reads: nothing stored changes. */
  lemma ReadKeeps(w: World, db: Db, node: seq<Block>, pc: Pc, o: Outcome, c: seq<Block>)
    requires ValidWorld(w) && IsChain(w, node) && |node| > 0 && At(w, db, node, pc, c) && Possible(w, db, pc, o)
    requires pc.GetStatus? || pc.GetHighest? || pc.GetHash? || pc.GetBlock? || pc.GetGenesisHash? || pc.GetGenesisBlock?
      || pc.GetRaw?
    ensures var (db', next) := Advance(w, db, node, pc, o); db' == db && AfterAdvance(w, db, node, next, c)
  {
    match pc
    case GetHighest =>
      if o.Highest? {
        HighestIsTip(w, db, c, o.tip);
      }
    case GetHash(tip) =>
      if o.Ok? && tip.height + 1 < |node| {
        assert Known(w, node[tip.height + 1]);
      }
    case GetBlock(tip, h) =>
      if tip.hash != w.blocks[h].prev && |c| >= 2 {
        TakeTip(w, c);
      }
    case _ =>
  }

  /** The database's answer to `getHighest` on a clean index is its tip. */
  lemma HighestIsTip(w: World, db: Db, c: seq<Block>, tip: Option<Hash>)
    requires ValidWorld(w) && Clean(w, db, c) && IsHighest(w, db, tip)
    ensures if c == [] then tip == None else tip == Some(c[|c| - 1].hash)
  {
    if c == [] {
    } else {
      var t := c[|c| - 1];
      assert OnChain(c, t.hash) && 0 in db.Stored(t.hash);
      assert tip.Some? && OnChain(c, tip.value);
      var i :| 0 <= i < |c| && c[i].hash == tip.value;
      assert Known(w, c[i]) && Known(w, t);
    }
  }

  lemma NameableIsPersisted(w: World, db: Db, c: seq<Block>, h: Hash, height: nat)
    requires Nameable(w, db, c, h, height)
    ensures Persisted(w, db, c)
  {
  }

  // The pending call writes: one lemma for each call.

  lemma PutIndexingKeeps(w: World, db: Db, node: seq<Block>, b: Block, o: Outcome, c: seq<Block>)
    returns (c': seq<Block>)
    requires ValidWorld(w) && At(w, db, node, PutIndexing(b), c)
    requires !o.Highest?
    ensures var (db', next) := Advance(w, db, node, PutIndexing(b), o); AfterAdvance(w, db', node, next, c')
  {
    var (db', next) := Advance(w, db, node, PutIndexing(b), o);
    c' := c;
    PushTip(w, c, b);
    c' := NameIt(w, db, c, b.hash, b.height, INDEXING);
  }

  lemma PutRawKeeps(w: World, db: Db, node: seq<Block>, b: Block, genesis: bool, o: Outcome, c: seq<Block>)
    returns (c': seq<Block>)
    requires ValidWorld(w) && At(w, db, node, PutRaw(b, genesis), c)
    requires !o.Highest?
    requires genesis ==> o.Ok?
    ensures var (db', next) := Advance(w, db, node, PutRaw(b, genesis), o); AfterAdvance(w, db', node, next, c')
  {
    var (db', next) := Advance(w, db, node, PutRaw(b, genesis), o);
    c' := c;
    assert forall x :: db'.Stored(x) == db.Stored(x);
    if !genesis {
      PushTip(w, c, b);
    } else {
      assert !OnChain(c, b.hash);
    }
  }

  lemma WriteRowKeeps(w: World, db: Db, node: seq<Block>, b: Block, k: nat, o: Outcome, c: seq<Block>)
    returns (c': seq<Block>)
    requires ValidWorld(w) && At(w, db, node, WriteRow(b, k, false), c)
    requires !o.Highest?
    ensures var (db', next) := Advance(w, db, node, WriteRow(b, k, false), o); AfterAdvance(w, db', node, next, c')
  {
    var (db', next) := Advance(w, db, node, WriteRow(b, k, false), o);
    c' := c;
    assert forall x :: x != b.hash ==> db'.Stored(x) == db.Stored(x);
    PushTip(w, c, b);
  }

  lemma WriteGenesisRowKeeps(w: World, db: Db, node: seq<Block>, b: Block, k: nat, o: Outcome, c: seq<Block>)
    returns (c': seq<Block>)
    requires ValidWorld(w) && At(w, db, node, WriteRow(b, k, true), c)
    requires o.Ok?
    ensures var (db', next) := Advance(w, db, node, WriteRow(b, k, true), o); AfterAdvance(w, db', node, next, c')
  {
    var (db', next) := Advance(w, db, node, WriteRow(b, k, true), o);
    c' := c;
    assert forall x :: x != b.hash ==> db'.Stored(x) == db.Stored(x);
    if next.Return? {
      c' := [b];
      assert c'[0].hash == b.hash;
    }
  }

  lemma PutIndexedKeeps(w: World, db: Db, node: seq<Block>, b: Block, o: Outcome, c: seq<Block>)
    returns (c': seq<Block>)
    requires ValidWorld(w) && At(w, db, node, PutIndexed(b), c)
    requires !o.Highest?
    ensures var (db', next) := Advance(w, db, node, PutIndexed(b), o); AfterAdvance(w, db', node, next, c')
  {
    var (db', next) := Advance(w, db, node, PutIndexed(b), o);
    c' := c;
    if o.Ok? || (o.Throw? && o.applied) {
      c' := CloseNamed(w, db, c, b.hash, db'.record);
      assert 0 in db.Stored(b.hash);
    }
  }

  lemma PutIndexErrorKeeps(w: World, db: Db, node: seq<Block>, b: Block, o: Outcome, c: seq<Block>)
    returns (c': seq<Block>)
    requires ValidWorld(w) && At(w, db, node, PutIndexError(b), c)
    requires !o.Highest?
    ensures var (db', next) := Advance(w, db, node, PutIndexError(b), o); AfterAdvance(w, db', node, next, c')
  {
    var (db', next) := Advance(w, db, node, PutIndexError(b), o);
    c' := c;
    if o.Ok? || (o.Throw? && o.applied) {
      c' := NameIt(w, db, c, b.hash, b.height, ERROR);
    } else {
      NameableIsPersisted(w, db, c, b.hash, b.height);
    }
  }

  lemma PutInvalidatingKeeps(w: World, db: Db, node: seq<Block>, h: Hash, height: nat, cleaning: bool, o: Outcome,
                             c: seq<Block>)
    returns (c': seq<Block>)
    requires ValidWorld(w) && At(w, db, node, PutInvalidating(h, height, cleaning), c)
    requires !o.Highest?
    ensures var (db', next) := Advance(w, db, node, PutInvalidating(h, height, cleaning), o);
      AfterAdvance(w, db', node, next, c')
  {
    var (db', next) := Advance(w, db, node, PutInvalidating(h, height, cleaning), o);
    c' := c;
    if o.Ok? || (o.Throw? && o.applied) {
      c' := NameIt(w, db, c, h, height, INVALIDATING);
    } else {
      NameableIsPersisted(w, db, c, h, height);
    }
  }

  lemma DeleteRowKeeps(w: World, db: Db, node: seq<Block>, h: Hash, height: nat, k: nat, cleaning: bool, o: Outcome,
                       c: seq<Block>)
    returns (c': seq<Block>)
    requires ValidWorld(w) && At(w, db, node, DeleteRow(h, height, k, cleaning), c)
    requires !o.Highest?
    requires o.ThrowNotFound? ==> !Partial(w, db, h)
    ensures var (db', next) := Advance(w, db, node, DeleteRow(h, height, k, cleaning), o);
      AfterAdvance(w, db', node, next, c')
  {
    var (db', next) := Advance(w, db, node, DeleteRow(h, height, k, cleaning), o);
    c' := c;
    assert forall x :: x != h ==> db'.Stored(x) == db.Stored(x);
    PushTip(w, c, w.blocks[h]);
    if o.Ok? && k + 1 == w.blocks[h].writes {
      assert forall j: nat :: j !in db'.Stored(h);
    }
  }

  lemma PutInvalidatedKeeps(w: World, db: Db, node: seq<Block>, h: Hash, height: nat, cleaning: bool, o: Outcome,
                            c: seq<Block>)
    returns (c': seq<Block>)
    requires ValidWorld(w) && At(w, db, node, PutInvalidated(h, height, cleaning), c)
    requires !o.Highest?
    ensures var (db', next) := Advance(w, db, node, PutInvalidated(h, height, cleaning), o);
      AfterAdvance(w, db', node, next, c')
  {
    var (db', next) := Advance(w, db, node, PutInvalidated(h, height, cleaning), o);
    c' := c;
    if o.Ok? || (o.Throw? && o.applied) {
      c' := CloseNamed(w, db, c, h, db'.record);
    }
  }

  lemma PutInvalidateErrorKeeps(w: World, db: Db, node: seq<Block>, h: Hash, height: nat, notFound: bool, o: Outcome,
                                c: seq<Block>)
    returns (c': seq<Block>)
    requires ValidWorld(w) && At(w, db, node, PutInvalidateError(h, height, notFound), c)
    requires !o.Highest?
    ensures var (db', next) := Advance(w, db, node, PutInvalidateError(h, height, notFound), o);
      AfterAdvance(w, db', node, next, c')
  {
    var (db', next) := Advance(w, db, node, PutInvalidateError(h, height, notFound), o);
    c' := c;
    if !(o.Ok? || (o.Throw? && o.applied)) {
      NameableIsPersisted(w, db, c, h, height);
    } else if !notFound {
      c' := NameIt(w, db, c, h, height, ERROR);
    } else if MustCleanUp(db.record) {
      c' := CloseNamed(w, db, c, h, db'.record);
    } else {
      assert forall x :: db'.Stored(x) == db.Stored(x);
    }
  }

  lemma IndexRowsKeep(w: World, db: Db, node: seq<Block>, pc: Pc, o: Outcome, c: seq<Block>) returns (c': seq<Block>)
    requires ValidWorld(w) && IsChain(w, node) && |node| > 0 && At(w, db, node, pc, c) && Possible(w, db, pc, o)
    requires WritingGenesis(pc) ==> o.Ok?
    requires pc.DeleteRow? && o.ThrowNotFound? ==> !Partial(w, db, pc.hash)
    requires pc.PutRaw? || pc.WriteRow?
    ensures var (db', next) := Advance(w, db, node, pc, o); AfterAdvance(w, db', node, next, c')
  {
    match pc
    case PutRaw(b, genesis) => c' := PutRawKeeps(w, db, node, b, genesis, o, c);
    case WriteRow(b, k, genesis) =>
      if genesis {
        c' := WriteGenesisRowKeeps(w, db, node, b, k, o, c);
      } else {
        c' := WriteRowKeeps(w, db, node, b, k, o, c);
      }
  }

  lemma IndexRecordKeeps(w: World, db: Db, node: seq<Block>, pc: Pc, o: Outcome, c: seq<Block>) returns (c': seq<Block>)
    requires ValidWorld(w) && IsChain(w, node) && |node| > 0 && At(w, db, node, pc, c) && Possible(w, db, pc, o)
    requires WritingGenesis(pc) ==> o.Ok?
    requires pc.DeleteRow? && o.ThrowNotFound? ==> !Partial(w, db, pc.hash)
    requires pc.PutIndexing? || pc.PutIndexed? || pc.PutIndexError?
    ensures var (db', next) := Advance(w, db, node, pc, o); AfterAdvance(w, db', node, next, c')
  {
    match pc
    case PutIndexing(b) => c' := PutIndexingKeeps(w, db, node, b, o, c);
    case PutIndexed(b) => c' := PutIndexedKeeps(w, db, node, b, o, c);
    case PutIndexError(b) => c' := PutIndexErrorKeeps(w, db, node, b, o, c);
  }

  lemma InvalidateBeginKeeps(w: World, db: Db, node: seq<Block>, pc: Pc, o: Outcome, c: seq<Block>)
    returns (c': seq<Block>)
    requires ValidWorld(w) && IsChain(w, node) && |node| > 0 && At(w, db, node, pc, c) && Possible(w, db, pc, o)
    requires WritingGenesis(pc) ==> o.Ok?
    requires pc.DeleteRow? && o.ThrowNotFound? ==> !Partial(w, db, pc.hash)
    requires pc.PutInvalidating? || pc.DeleteRow?
    ensures var (db', next) := Advance(w, db, node, pc, o); AfterAdvance(w, db', node, next, c')
  {
    match pc
    case PutInvalidating(h, height, cleaning) => c' := PutInvalidatingKeeps(w, db, node, h, height, cleaning, o, c);
    case DeleteRow(h, height, k, cleaning) => c' := DeleteRowKeeps(w, db, node, h, height, k, cleaning, o, c);
  }

  lemma InvalidateEndKeeps(w: World, db: Db, node: seq<Block>, pc: Pc, o: Outcome, c: seq<Block>)
    returns (c': seq<Block>)
    requires ValidWorld(w) && IsChain(w, node) && |node| > 0 && At(w, db, node, pc, c) && Possible(w, db, pc, o)
    requires WritingGenesis(pc) ==> o.Ok?
    requires pc.DeleteRow? && o.ThrowNotFound? ==> !Partial(w, db, pc.hash)
    requires pc.PutInvalidated? || pc.PutInvalidateError?
    ensures var (db', next) := Advance(w, db, node, pc, o); AfterAdvance(w, db', node, next, c')
  {
    match pc
    case PutInvalidated(h, height, cleaning) => c' := PutInvalidatedKeeps(w, db, node, h, height, cleaning, o, c);
    case PutInvalidateError(h, height, notFound) =>
      c' := PutInvalidateErrorKeeps(w, db, node, h, height, notFound, o, c);
  }

  lemma AdvanceKeeps(w: World, db: Db, node: seq<Block>, pc: Pc, o: Outcome, c: seq<Block>) returns (c': seq<Block>)
    requires ValidWorld(w) && IsChain(w, node) && |node| > 0 && At(w, db, node, pc, c) && Possible(w, db, pc, o)
    requires WritingGenesis(pc) ==> o.Ok?
    requires pc.DeleteRow? && o.ThrowNotFound? ==> !Partial(w, db, pc.hash)
    ensures var (db', next) := Advance(w, db, node, pc, o); AfterAdvance(w, db', node, next, c')
  {
    if pc.PutRaw? || pc.WriteRow? {
      c' := IndexRowsKeep(w, db, node, pc, o, c);
    } else if pc.PutIndexing? || pc.PutIndexed? || pc.PutIndexError? {
      c' := IndexRecordKeeps(w, db, node, pc, o, c);
    } else if pc.PutInvalidating? || pc.DeleteRow? {
      c' := InvalidateBeginKeeps(w, db, node, pc, o, c);
    } else if pc.PutInvalidated? || pc.PutInvalidateError? {
      c' := InvalidateEndKeeps(w, db, node, pc, o, c);
    } else {
      ReadKeeps(w, db, node, pc, o, c);
      c' := c;
    }
  }

  /** What holds at a call holds there whatever chain the node turns to meanwhile. */
  lemma ReorgKeeps(w: World, db: Db, node: seq<Block>, node': seq<Block>, pc: Pc, c: seq<Block>)
    requires At(w, db, node, pc, c)
    ensures At(w, db, node', pc, c)
  {
  }

  /** What a crash leaves behind is recoverable, unless the genesis block was being written. */
  lemma CrashKeeps(w: World, db: Db, node: seq<Block>, pc: Pc, c: seq<Block>)
    requires At(w, db, node, pc, c) && !WritingGenesis(pc)
    ensures Persisted(w, db, c)
  {
  }

  lemma ResumeKeeps(w: World, s: State, i: nat, o: Outcome, c: seq<Block>) returns (c': seq<Block>)
    requires Inv(w, s, c) && Obeys(w, s, Resume(i, o))
    ensures Inv(w, Step(w, s, Resume(i, o)), c')
  {
    c' := c;
    if i < |s.loops| && Possible(w, s.db, s.loops[i], o) {
      c' := AdvanceKeeps(w, s.db, s.node, s.loops[0], o, c);
    }
  }

  lemma StepKeeps(w: World, s: State, e: Event, c: seq<Block>) returns (c': seq<Block>)
    requires Inv(w, s, c) && Obeys(w, s, e)
    ensures Inv(w, Step(w, s, e), c')
  {
    c' := c;
    match e
    case Reorg(n) =>
      if s.loops != [] && IsChain(w, n) && |n| > 0 {
        ReorgKeeps(w, s.db, s.node, n, s.loops[0], c);
      }
    case Crash =>
      if s.loops != [] {
        CrashKeeps(w, s.db, s.node, s.loops[0], c);
      }
    case Resume(i, o) => c' := ResumeKeeps(w, s, i, o, c);
    case _ =>
  }

  lemma {:induction false} RunKeeps(w: World, s: State, es: seq<Event>, c: seq<Block>) returns (c': seq<Block>)
    requires Inv(w, s, c) && RunObeys(w, s, es)
    ensures Inv(w, Run(w, s, es), c')
    decreases |es|
  {
    c' := c;
    if es != [] {
      c' := StepKeeps(w, s, es[0], c);
      c' := RunKeeps(w, Step(w, s, es[0]), es[1..], c');
    }
  }
}
