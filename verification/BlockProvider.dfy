/** The block provider as a program: the methods of the class do what it does, every awaited call may fail,
    and each method is shown to take a run of the step system. One `cycle` against a node that keeps its chain is
    shown to end with the index equal to that chain. */
module BlockProvider {
  import opened Wrappers
  import opened BlockTree
  import opened IndexProtocol
  import opened IndexSafety

  /** An outcome the step system allows at `pc`, under the two assumptions of `Obeys`. */
  ghost predicate Allowed(w: World, db: Db, pc: Pc, o: Outcome) {
    && Possible(w, db, pc, o)
    && (WritingGenesis(pc) ==> o.Ok?)
    && (pc.DeleteRow? && o.ThrowNotFound? ==> !Partial(w, db, pc.hash))
  }

  /** The steps of one loop, from `next` on, when its calls end as `os` says. */
  ghost function Drive(w: World, db: Db, node: seq<Block>, next: Next, os: seq<Outcome>): (Db, Next)
    decreases |os|
  {
    if os == [] || !next.Go? then (db, next)
    else if Allowed(w, db, next.pc, os[0]) then
      var (db', next') := Advance(w, db, node, next.pc, os[0]);
      Drive(w, db', node, next', os[1..])
    else Drive(w, db, node, next, os[1..])
  }

  predicate Fault(o: Outcome) {
    o.Throw? || o.ThrowNotFound?
  }

  /** One of the calls that `Drive` makes fails. */
  ghost predicate Fails(w: World, db: Db, node: seq<Block>, next: Next, os: seq<Outcome>)
    decreases |os|
  {
    os != [] && next.Go? &&
    if Allowed(w, db, next.pc, os[0]) then
      var (db', next') := Advance(w, db, node, next.pc, os[0]);
      Fault(os[0]) || Fails(w, db', node, next', os[1..])
    else Fails(w, db, node, next, os[1..])
  }

  lemma {:induction false} DriveAppend(w: World, db: Db, node: seq<Block>, next: Next, a: seq<Outcome>, b: seq<Outcome>)
    ensures var (d, n) := Drive(w, db, node, next, a);
      && Drive(w, db, node, next, a + b) == Drive(w, d, node, n, b)
      && (Fails(w, db, node, next, a + b) <==> Fails(w, db, node, next, a) || Fails(w, d, node, n, b))
    decreases |a|
  {
    if a == [] {
      assert a + b == b;
    } else if !next.Go? {
    } else {
      assert (a + b)[1..] == a[1..] + b;
      if Allowed(w, db, next.pc, a[0]) {
        var (db', next') := Advance(w, db, node, next.pc, a[0]);
        DriveAppend(w, db', node, next', a[1..], b);
      } else {
        DriveAppend(w, db, node, next, a[1..], b);
      }
    }
  }

  /** One more call. */
  lemma DriveOne(w: World, db: Db, node: seq<Block>, next: Next, os: seq<Outcome>, o: Outcome, d: Db, pc: Pc)
    returns (os': seq<Outcome>)
    requires Drive(w, db, node, next, os) == (d, Go(pc)) && Allowed(w, d, pc, o)
    ensures Drive(w, db, node, next, os') == Advance(w, d, node, pc, o)
    ensures Fails(w, db, node, next, os') <==> Fails(w, db, node, next, os) || Fault(o)
  {
    os' := os + [o];
    DriveAppend(w, db, node, next, os, [o]);
    var (d', n') := Advance(w, d, node, pc, o);
    assert Drive(w, d, node, Go(pc), [o]) == Drive(w, d', node, n', [o][1..]);
  }

  /** The call awaited in the `catch` of `invalidate`: the exception goes on, whether or not it succeeds. */
  lemma DriveCatch(w: World, db: Db, node: seq<Block>, next: Next, os: seq<Outcome>, o: Outcome, d: Db, h: Hash,
                   height: nat, nf: bool)
    returns (os': seq<Outcome>)
    requires Drive(w, db, node, next, os) == (d, Go(PutInvalidateError(h, height, nf))) && (o.Ok? || o.Throw?)
    ensures Drive(w, db, node, next, os')
         == (if o.Ok? || o.applied then PutRecord(d, h, height, if nf then REINDEX else ERROR) else d, Raise)
    ensures Fails(w, db, node, next, os') <==> Fails(w, db, node, next, os) || Fault(o)
  {
    os' := DriveOne(w, db, node, next, os, o, d, PutInvalidateError(h, height, nf));
  }

  lemma DriveThen(w: World, db: Db, node: seq<Block>, next: Next, os: seq<Outcome>, d: Db, n: Next, more: seq<Outcome>)
    returns (os': seq<Outcome>)
    requires Drive(w, db, node, next, os) == (d, n)
    ensures Drive(w, db, node, next, os') == Drive(w, d, node, n, more)
    ensures Fails(w, db, node, next, os') <==> Fails(w, db, node, next, os) || Fails(w, d, node, n, more)
  {
    os' := os + more;
    DriveAppend(w, db, node, next, os, more);
  }

  /** Some call of the run fails. */
  predicate RunFails(es: seq<Event>) {
    exists i :: 0 <= i < |es| && es[i].Resume? && Fault(es[i].outcome)
  }

  lemma RunFailsAppend(a: seq<Event>, b: seq<Event>)
    ensures RunFails(a + b) <==> RunFails(a) || RunFails(b)
  {
    if i :| 0 <= i < |b| && b[i].Resume? && Fault(b[i].outcome) {
      assert (a + b)[|a| + i] == b[i];
    }
    if i :| 0 <= i < |a| && a[i].Resume? && Fault(a[i].outcome) {
      assert (a + b)[i] == a[i];
    }
  }

  lemma RunFailsOne(e: Event)
    ensures RunFails([e]) <==> e.Resume? && Fault(e.outcome)
  {
    assert [e][0] == e;
  }

  /** The program's calls are steps of the protocol, so the results about all runs hold of it. */
  lemma {:induction false} DriveIsARun(w: World, s: State, os: seq<Outcome>) returns (es: seq<Event>)
    requires |s.loops| == 1
    ensures var (db, next) := Drive(w, s.db, s.node, Go(s.loops[0]), os);
      Run(w, s, es) == Settle(s, 0, db, next) && RunObeys(w, s, es)
    ensures RunFails(es) <==> Fails(w, s.db, s.node, Go(s.loops[0]), os)
    decreases |os|
  {
    if os == [] {
      es := [];
    } else if !Allowed(w, s.db, s.loops[0], os[0]) {
      es := DriveIsARun(w, s, os[1..]);
    } else {
      var e := Resume(0, os[0]);
      var (db', next') := Advance(w, s.db, s.node, s.loops[0], os[0]);
      var t := Step(w, s, e);
      RunFailsOne(e);
      if next'.Go? {
        es := DriveIsARun(w, t, os[1..]);
        RunFailsAppend([e], es);
        assert ([e] + es)[1..] == es;
        es := [e] + es;
      } else {
        es := [e];
        assert Run(w, t, []) == t;
        assert es[1..] == [];
      }
    }
  }

  lemma {:induction false} DriveKeeps(w: World, db: Db, node: seq<Block>, pc: Pc, os: seq<Outcome>, c: seq<Block>)
    returns (c': seq<Block>)
    requires ValidWorld(w) && IsChain(w, node) && |node| > 0 && At(w, db, node, pc, c)
    ensures var (db', next) := Drive(w, db, node, Go(pc), os); AfterAdvance(w, db', node, next, c')
    decreases |os|
  {
    if os == [] {
      c' := c;
    } else if !Allowed(w, db, pc, os[0]) {
      c' := DriveKeeps(w, db, node, pc, os[1..], c);
    } else {
      var (db', next') := Advance(w, db, node, pc, os[0]);
      c' := AdvanceKeeps(w, db, node, pc, os[0], c);
      if next'.Go? {
        c' := DriveKeeps(w, db', node, next'.pc, os[1..], c');
      }
    }
  }

  /** What one pass of `synchronize` does to the index `c` while the node has the chain `node`: the new index,
      and whether the loop goes on. */
  function Pass(c: seq<Block>, node: seq<Block>): (seq<Block>, bool)
    requires |node| > 0
  {
    if c == [] then ([node[0]], true)
    else if |node| <= |c| then (c, false)
    else if node[|c|].prev == c[|c| - 1].hash then (c + [node[|c|]], true)
    else (c[..|c| - 1], true)
  }

  /** Indexed blocks off the node's chain, plus blocks of the chain not indexed yet. */
  function Distance(c: seq<Block>, node: seq<Block>): nat {
    |c| - Common(c, node) + |node| - Common(c, node)
  }

  lemma PassKeepsChain(w: World, c: seq<Block>, node: seq<Block>)
    requires IsChain(w, c) && IsChain(w, node) && |node| > 0
    ensures IsChain(w, Pass(c, node).0)
  {
  }

  /** Every push and every pop brings the index one block closer to the node's chain, and an index that starts
      shorter than the chain never stops before it is the chain. */
  lemma PassConverges(w: World, c: seq<Block>, node: seq<Block>)
    requires IsChain(w, c) && IsChain(w, node) && |node| > 0
    ensures var (d, go) := Pass(c, node);
      && IsChain(w, d)
      && (go ==> Distance(d, node) == Distance(c, node) - 1)
      && (!go ==> d == c)
      && (|c| < |node| ==> if go then |d| < |node| || d == node else false)
      && (|node| <= |c| ==> !go)
  {
    var n := Common(c, node);
    PassKeepsChain(w, c, node);
    if c == [] {
      CommonOf([node[0]], node, 1);
    } else if |c| < |node| {
      var b := node[|c|];
      var top := |c| - 1;
      ChainsPartForGood(w, c, node, top);
      assert Known(w, c[top]) && Known(w, node[top]) && b.prev == node[top].hash;
      if b.prev == c[top].hash {
        assert n == |c| && c == node[..n];
        CommonOf(c + [b], node, n + 1);
        if |c| + 1 == |node| {
          assert node == node[..n] + [b];
        }
      } else {
        CommonOf(c[..top], node, n);
      }
    }
  }

  /** The index that the loop ends with. */
  function Settled(c: seq<Block>, node: seq<Block>): seq<Block> {
    if |node| > |c| then node else c
  }

  /** The index and the wish to go on after at most `n` passes. */
  function Passes(c: seq<Block>, node: seq<Block>, n: nat): (seq<Block>, bool)
    requires |node| > 0
    decreases n
  {
    if n == 0 then (c, true)
    else
      var (d, go) := Pass(c, node);
      if go then Passes(d, node, n - 1) else (d, false)
  }

  /** Against a node that keeps its chain the loop stops by itself, after as many pushes and pops as separate the
      index from the chain, and then the index is the chain, exactly when the chain is longer than the index was
      (or they were equal). */
  lemma {:induction false} LoopSettles(w: World, c: seq<Block>, node: seq<Block>)
    requires IsChain(w, c) && IsChain(w, node) && |node| > 0
    ensures Passes(c, node, Distance(c, node) + 1) == (Settled(c, node), false)
    ensures Settled(c, node) == node <==> |node| > |c| || c == node
    decreases Distance(c, node)
  {
    PassConverges(w, c, node);
    var (d, go) := Pass(c, node);
    if go {
      LoopSettles(w, d, node);
    }
  }

  /** All rows of the named block are stored and the record says so: it is the new tip. */
  lemma Added(w: World, before: Db, after: Db, c: seq<Block>, b: Block)
    requires ValidWorld(w) && Named(w, before, c, b.hash) && Known(w, b) && !MustCleanUp(after.record)
    requires after.raw == before.raw + {b.hash} && AllRows(after.Stored(b.hash), b)
    requires forall x :: x != b.hash ==> after.Stored(x) == before.Stored(x)
    ensures Clean(w, after, c + [b])
  {
    PushTip(w, c, b);
  }

  /** All rows of the named block are deleted and the record says so: it is gone. */
  lemma Removed(w: World, before: Db, after: Db, c: seq<Block>, h: Hash)
    requires ValidWorld(w) && Named(w, before, c, h) && !MustCleanUp(after.record) && after.raw == before.raw
    requires after.Stored(h) == {} && forall x :: x != h ==> after.Stored(x) == before.Stored(x)
    ensures Clean(w, after, c)
  {
    PushTip(w, c, w.blocks[h]);
  }

  /** A block that does not link to the tip cannot have height 1, so the tip is not the genesis block. */
  lemma PopIsPossible(w: World, c: seq<Block>, node: seq<Block>)
    requires IsChain(w, c) && IsChain(w, node) && 0 < |c| < |node| && node[|c|].prev != c[|c| - 1].hash
    ensures IsTip(c, c[|c| - 1].hash) && Known(w, c[|c| - 1]) && !Extends(c, c[|c| - 1])
  {
    assert node[1].prev == node[0].hash;
  }

  lemma OneStep(w: World, s: State, e: Event)
    ensures Run(w, s, [e]) == Step(w, s, e) && (RunObeys(w, s, [e]) <==> Obeys(w, s, e))
  {
    assert [e][1..] == [];
    assert Run(w, Step(w, s, e), []) == Step(w, s, e);
  }

  lemma {:induction false} ObeysAppend(w: World, s: State, a: seq<Event>, b: seq<Event>)
    ensures RunObeys(w, s, a + b) <==> RunObeys(w, s, a) && RunObeys(w, Run(w, s, a), b)
    decreases |a|
  {
    if a == [] {
      assert a + b == b;
    } else {
      assert (a + b)[1..] == a[1..] + b;
      ObeysAppend(w, Step(w, s, a[0]), a[1..], b);
    }
  }

  class RPCBlockProvider {
    var running: bool
    var indexing: bool
    // The database.
    var record: Record
    var raw: set<Hash>
    var rows: map<Hash, set<nat>>

    constructor ()
      ensures !running && !indexing && Data() == Db(NoRecord, {}, map[])
    {
      running, indexing := false, false;
      record, raw, rows := NoRecord, {}, map[];
    }

    function Data(): Db
      reads this
    {
      Db(record, raw, rows)
    }

    /** The database with one more call made: `done` says whether it succeeded. */
    method Put(h: Hash, height: nat, status: Status) returns (done: bool, ghost o: Outcome)
      modifies this`record
      ensures done <==> o == Ok
      ensures !o.Highest? && !o.ThrowNotFound?
      ensures record == if o.Ok? || o.applied then Record(h, height, status) else old(record)
    {
      done := *;
      var applied: bool := *;
      o := if done then Ok else Throw(applied);
      if done || applied {
        record := Record(h, height, status);
      }
    }

    method Start()
      modifies this`running
      ensures running
    {
      running := true;
    }

    /** The part of `stop` before it starts to wait. */
    method Stop()
      modifies this`running
      ensures !running
    {
      running := false;
    }

    /** `MainIndexer.index`: the raw block, then one row after the other. */
    method IndexRows(w: World, node: seq<Block>, b: Block, genesis: bool) returns (done: bool, ghost os: seq<Outcome>)
      requires b.writes >= 1
      modifies this`raw, this`rows
      ensures genesis ==> done
      ensures Drive(w, old(Data()), node, Go(PutRaw(b, genesis)), os)
           == (Data(), if !done then IndexFailed(b, genesis) else if genesis then Return(true) else Go(PutIndexed(b)))
      ensures !done ==> Fails(w, old(Data()), node, Go(PutRaw(b, genesis)), os)
      ensures done ==>
        && raw == old(raw) + {b.hash}
        && (forall x :: x != b.hash ==> Data().Stored(x) == old(Data()).Stored(x))
        && (forall k: nat :: k in Data().Stored(b.hash) <==> k < b.writes || k in old(Data()).Stored(b.hash))
    {
      os := [];
      ghost var db0, next0 := Data(), Go(PutRaw(b, genesis));
      done := *;
      var applied: bool := *;
      if done || genesis || applied {
        raw := raw + {b.hash};
      }
      if !done && !genesis {
        os := DriveOne(w, db0, node, next0, os, Throw(applied), db0, PutRaw(b, genesis));
        return;
      }
      os := DriveOne(w, db0, node, next0, os, Ok, db0, PutRaw(b, genesis));
      for k := 0 to b.writes
        invariant raw == old(raw) + {b.hash} && record == old(record)
        invariant forall x :: x != b.hash ==> Data().Stored(x) == old(Data()).Stored(x)
        invariant forall j: nat :: j in Data().Stored(b.hash) <==> j < k || j in old(Data()).Stored(b.hash)
        invariant Drive(w, db0, node, next0, os) == (Data(), if k < b.writes then Go(WriteRow(b, k, genesis))
                                                              else if genesis then Return(true) else Go(PutIndexed(b)))
      {
        ghost var db := Data();
        done, applied := *, *;
        if done || genesis || applied {
          rows := rows[b.hash := Data().Stored(b.hash) + {k}];
        }
        if !done && !genesis {
          os := DriveOne(w, db0, node, next0, os, Throw(applied), db, WriteRow(b, k, genesis));
          return;
        }
        os := DriveOne(w, db0, node, next0, os, Ok, db, WriteRow(b, k, genesis));
      }
      done := true;
    }

    /** The guarded part of `index`: false when it throws. */
    method TryIndex(w: World, node: seq<Block>, b: Block) returns (done: bool, ghost os: seq<Outcome>)
      requires b.writes >= 1
      modifies this`record, this`raw, this`rows
      ensures Drive(w, old(Data()), node, Go(PutRaw(b, false)), os)
           == (Data(), if done then Return(true) else Go(PutIndexError(b)))
      ensures !done ==> Fails(w, old(Data()), node, Go(PutRaw(b, false)), os)
      ensures if done then record == Record(b.hash, b.height, INDEXED)
              else record == old(record) || record == Record(b.hash, b.height, INDEXED)
      ensures done || record != old(record) ==>
        raw == old(raw) + {b.hash} && (forall x :: x != b.hash ==> Data().Stored(x) == old(Data()).Stored(x))
      ensures done || record != old(record) ==>
        forall k: nat :: k in Data().Stored(b.hash) <==> k < b.writes || k in old(Data()).Stored(b.hash)
    {
      done, os := IndexRows(w, node, b, false);
      if done {
        ghost var db, o := Data(), Ok;
        done, o := Put(b.hash, b.height, INDEXED);
        assert Data().Stored(b.hash) == db.Stored(b.hash);
        os := DriveOne(w, old(Data()), node, Go(PutRaw(b, false)), os, o, db, PutIndexed(b));
      }
    }

    /** `index`: false when it ends with an exception. */
    method Index(w: World, node: seq<Block>, b: Block, ghost c: seq<Block>) returns (done: bool, ghost os: seq<Outcome>)
      requires ValidWorld(w) && Clean(w, Data(), c) && !MustCleanUp(record) && Known(w, b) && Extends(c, b)
      modifies this`record, this`raw, this`rows
      ensures Drive(w, old(Data()), node, Go(PutIndexing(b)), os) == (Data(), if done then Return(true) else Raise)
      ensures done ==> Clean(w, Data(), c + [b]) && !MustCleanUp(record)
      ensures !done ==> Fails(w, old(Data()), node, Go(PutIndexing(b)), os)
      ensures !done ==> record == old(record)
                        || (record.Record? && record.hash == b.hash && record.height == b.height
                            && (record.status == INDEXING || record.status == ERROR
                                || (record.status == INDEXED && Clean(w, Data(), c + [b]))))
    {
      ghost var db0, next0, o := Data(), Go(PutIndexing(b)), Ok;
      var _ := NameIt(w, db0, c, b.hash, b.height, INDEXING);
      PushTip(w, c, b);
      done, o := Put(b.hash, b.height, INDEXING);
      os := DriveOne(w, db0, node, next0, [], o, db0, PutIndexing(b));
      if done {
        ghost var db1, more := Data(), [];
        done, more := TryIndex(w, node, b);
        os := DriveThen(w, db0, node, next0, os, db1, Go(PutRaw(b, false)), more);
        if done {
          Added(w, db1, Data(), c, b);
        } else {
          ghost var db2 := Data();
          if record.status == INDEXED {
            Added(w, db1, db2, c, b);
          }
          done, o := Put(b.hash, b.height, ERROR);
          os := DriveOne(w, db0, node, next0, os, o, db2, PutIndexError(b));
          done := false;
        }
      }
    }

    /** `MainIndexer.invalidate`: every row goes, unless a call fails or the raw block is missing. An indexer may
        report a missing row only when nothing of the block is stored. */
    method InvalidateRows(w: World, node: seq<Block>, h: Hash, height: nat, cleaning: bool)
      returns (done: bool, notFound: bool, ghost os: seq<Outcome>)
      requires ValidWorld(w) && h in w.blocks
      modifies this`rows
      ensures Drive(w, old(Data()), node, Go(GetRaw(h, height, cleaning)), os)
           == (Data(), if done then Go(PutInvalidated(h, height, cleaning))
             else Go(PutInvalidateError(h, height, notFound)))
      ensures !done ==> Fails(w, old(Data()), node, Go(GetRaw(h, height, cleaning)), os) || (notFound && h !in raw)
      ensures forall x :: x != h ==> Data().Stored(x) == old(Data()).Stored(x)
      ensures done ==> forall k: nat :: k in Data().Stored(h) <==> k >= w.blocks[h].writes && k in old(Data()).Stored(h)
    {
      os := [];
      ghost var db0, next0 := Data(), Go(GetRaw(h, height, cleaning));
      done, notFound := *, false;
      if !done {
        os := DriveOne(w, db0, node, next0, os, Throw(false), db0, GetRaw(h, height, cleaning));
        return;
      }
      os := DriveOne(w, db0, node, next0, os, Ok, db0, GetRaw(h, height, cleaning));
      if h !in raw {
        done, notFound := false, true;
        return;
      }
      for k := 0 to w.blocks[h].writes
        invariant raw == old(raw) && record == old(record) && !notFound
        invariant forall x :: x != h ==> Data().Stored(x) == old(Data()).Stored(x)
        invariant forall j: nat :: j in Data().Stored(h) <==> j >= k && j in old(Data()).Stored(h)
        invariant Drive(w, db0, node, next0, os)
          == (Data(), if k < w.blocks[h].writes then Go(DeleteRow(h, height, k, cleaning))
                                                              else Go(PutInvalidated(h, height, cleaning)))
      {
        ghost var db := Data();
        var applied: bool := *;
        done, notFound := *, *;
        notFound := !done && notFound && h !in rows;
        if done || (!notFound && applied) {
          rows := rows[h := Data().Stored(h) - {k}];
        }
        if !done {
          ghost var o := if notFound then ThrowNotFound else Throw(applied);
          os := DriveOne(w, db0, node, next0, os, o, db, DeleteRow(h, height, k, cleaning));
          return;
        }
        os := DriveOne(w, db0, node, next0, os, Ok, db, DeleteRow(h, height, k, cleaning));
      }
      done := true;
    }

    /** The guarded part of `invalidate`: false when it throws. */
    method TryInvalidate(w: World, node: seq<Block>, h: Hash, height: nat, cleaning: bool)
      returns (done: bool, notFound: bool, ghost os: seq<Outcome>)
      requires ValidWorld(w) && h in w.blocks && (forall k :: k in Data().Stored(h) ==> k < w.blocks[h].writes)
      modifies this`record, this`rows
      ensures Drive(w, old(Data()), node, Go(GetRaw(h, height, cleaning)), os)
           == (Data(), if !done then Go(PutInvalidateError(h, height, notFound))
                       else if cleaning then Go(GetHighest) else Return(true))
      ensures !done ==> Fails(w, old(Data()), node, Go(GetRaw(h, height, cleaning)), os) || (notFound && h !in raw)
      ensures forall x :: x != h ==> Data().Stored(x) == old(Data()).Stored(x)
      ensures done ==> Data().Stored(h) == {} && record.Record? && record.status == INVALIDATED
    {
      done, notFound, os := InvalidateRows(w, node, h, height, cleaning);
      if done {
        ghost var db, o := Data(), Ok;
        done, o := Put(h, height, INVALIDATED);
        assert Data().Stored(h) == db.Stored(h);
        os := DriveOne(w, old(Data()), node, Go(GetRaw(h, height, cleaning)), os, o, db,
                       PutInvalidated(h, height, cleaning));
        notFound := false;
      }
    }

    /** `invalidate`: false when it ends with an exception. `below` is the index without the block. */
    method Invalidate(w: World, node: seq<Block>, h: Hash, height: nat, cleaning: bool, ghost c: seq<Block>)
      returns (done: bool, ghost os: seq<Outcome>, ghost below: seq<Block>)
      requires ValidWorld(w) && Nameable(w, Data(), c, h, height)
      modifies this`record, this`rows
      ensures Drive(w, old(Data()), node, Go(PutInvalidating(h, height, cleaning)), os)
           == (Data(), if !done then Raise else if cleaning then Go(GetHighest) else Return(true))
      ensures done ==> Clean(w, Data(), below) && !MustCleanUp(record)
      ensures !done ==> Fails(w, old(Data()), node, Go(PutInvalidating(h, height, cleaning)), os)
                        || (h !in old(raw) && !MustCleanUp(record))
      ensures below == if old(MustCleanUp(record)) || Extends(c, w.blocks[h]) then c else c[..|c| - 1]
    {
      ghost var db0, next0, o := Data(), Go(PutInvalidating(h, height, cleaning)), Ok;
      below := NameIt(w, db0, c, h, height, INVALIDATING);
      done, o := Put(h, height, INVALIDATING);
      os := DriveOne(w, db0, node, next0, [], o, db0, PutInvalidating(h, height, cleaning));
      if done {
        var notFound: bool;
        ghost var db1, more := Data(), [];
        done, notFound, more := TryInvalidate(w, node, h, height, cleaning);
        os := DriveThen(w, db0, node, next0, os, db1, Go(GetRaw(h, height, cleaning)), more);
        if done {
          Removed(w, db1, Data(), below, h);
        } else {
          ghost var db2 := Data();
          done, o := Put(h, height, if notFound then REINDEX else ERROR);
          os := DriveCatch(w, db0, node, next0, os, o, db2, h, height, notFound);
          done := false;
        }
      }
    }

    /** The record asks for the clean-up of a block that is not there to be read. */
    ghost predicate RawMissing()
      reads this
    {
      MustCleanUp(record) && record.hash !in raw
    }

    /** The block mapper's row with the greatest height. */
    method GetHighestRow(w: World) returns (tip: Option<Hash>)
      requires forall h :: h in rows && 0 in rows[h] ==> h in w.blocks
      ensures IsHighest(w, Data(), tip)
    {
      tip := None;
      var left := rows.Keys;
      while left != {}
        invariant left <= rows.Keys
        invariant tip.Some? ==> tip.value in rows && 0 in rows[tip.value]
        invariant forall h :: h in rows && h !in left && 0 in rows[h] ==>
          tip.Some? && w.blocks[h].height <= w.blocks[tip.value].height
      {
        var h :| h in left;
        if 0 in rows[h] && (tip.None? || w.blocks[tip.value].height < w.blocks[h].height) {
          tip := Some(h);
        }
        left := left - {h};
      }
    }

    /** `cleanup`: false when it ends with an exception. */
    method Cleanup(w: World, node: seq<Block>, ghost c: seq<Block>) returns (done: bool, ghost os: seq<Outcome>)
      requires ValidWorld(w) && Persisted(w, Data(), c)
      modifies this`record, this`rows
      ensures Drive(w, old(Data()), node, Go(GetStatus), os) == (Data(), if done then Go(GetHighest) else Raise)
      ensures done ==> Clean(w, Data(), c) && !MustCleanUp(record)
      ensures !done ==> Fails(w, old(Data()), node, Go(GetStatus), os) || (old(RawMissing()) && !MustCleanUp(record))
    {
      ghost var db0, more, below := Data(), [], [];
      done := *;
      os := DriveOne(w, db0, node, Go(GetStatus), [], if done then Ok else Throw(false), db0, GetStatus);
      if done && MustCleanUp(record) {
        var h, height := record.hash, record.height;
        done, more, below := Invalidate(w, node, h, height, true, c);
        os := DriveThen(w, db0, node, Go(GetStatus), os, db0, Go(PutInvalidating(h, height, true)), more);
      }
    }

    /** `indexGenesis`, whose writes are taken to succeed. */
    method IndexGenesis(w: World, node: seq<Block>) returns (done: bool, ghost os: seq<Outcome>)
      requires ValidWorld(w) && IsChain(w, node) && |node| > 0 && Clean(w, Data(), []) && !MustCleanUp(record)
      modifies this`raw, this`rows
      ensures Drive(w, old(Data()), node, Go(GetGenesisHash), os) == (Data(), if done then Return(true) else Raise)
      ensures done ==> Clean(w, Data(), [w.genesis])
      ensures !done ==> Fails(w, old(Data()), node, Go(GetGenesisHash), os)
    {
      ghost var db0, next0, more := Data(), Go(GetGenesisHash), [];
      done := *;
      os := DriveOne(w, db0, node, next0, [], if done then Ok else Throw(false), db0, GetGenesisHash);
      if done {
        done := *;
        os := DriveOne(w, db0, node, next0, os, if done then Ok else Throw(false), db0, GetGenesisBlock(node[0].hash));
      }
      if done {
        done, more := IndexRows(w, node, w.genesis, true);
        os := DriveThen(w, db0, node, next0, os, db0, Go(PutRaw(w.genesis, true)), more);
        assert [w.genesis][0].hash == w.genesis.hash;
        assert forall h :: !OnChain([], h);
      }
    }

    /** `synchronize` while the node keeps its chain: `done` is false when it ends with an exception. */
    method Synchronize(w: World, node: seq<Block>, ghost c: seq<Block>)
      returns (done: bool, active: bool, ghost os: seq<Outcome>)
      requires ValidWorld(w) && IsChain(w, node) && |node| > 0 && Clean(w, Data(), c) && !MustCleanUp(record)
      modifies this`record, this`raw, this`rows
      ensures Drive(w, old(Data()), node, Go(GetHighest), os) == (Data(), if done then Return(active) else Raise)
      ensures done ==> active == Pass(c, node).1 && Clean(w, Data(), Pass(c, node).0) && !MustCleanUp(record)
      ensures !done ==> Fails(w, old(Data()), node, Go(GetHighest), os)
    {
      ghost var db0, next0, more, below := Data(), Go(GetHighest), [], [];
      done, active := *, true;
      if !done {
        os := DriveOne(w, db0, node, next0, [], Throw(false), db0, GetHighest);
        return;
      }
      assert forall h :: h in rows && 0 in rows[h] ==> OnChain(c, h);
      var highest := GetHighestRow(w);
      HighestIsTip(w, db0, c, highest);
      os := DriveOne(w, db0, node, next0, [], Highest(highest), db0, GetHighest);
      if highest.None? {
        done, more := IndexGenesis(w, node);
        os := DriveThen(w, db0, node, next0, os, db0, Go(GetGenesisHash), more);
        return;
      }
      var tip := w.blocks[highest.value];
      assert Known(w, c[|c| - 1]);
      done := *;
      os := DriveOne(w, db0, node, next0, os, if done then Ok else Throw(false), db0, GetHash(tip));
      if !done {
        return;
      }
      if tip.height + 1 >= |node| {
        active := false;
        return;
      }
      var b := node[tip.height + 1];
      assert Known(w, b);
      done := *;
      os := DriveOne(w, db0, node, next0, os, if done then Ok else Throw(false), db0, GetBlock(tip, b.hash));
      if !done {
        return;
      }
      if tip.hash == b.prev {
        done, more := Index(w, node, b, c);
        os := DriveThen(w, db0, node, next0, os, db0, Go(PutIndexing(b)), more);
      } else {
        PopIsPossible(w, c, node);
        done, more, below := Invalidate(w, node, tip.hash, tip.height, false, c);
        os := DriveThen(w, db0, node, next0, os, db0, Go(PutInvalidating(tip.hash, tip.height, false)), more);
      }
    }

    /** One turn of the loop in `cycle`: `done` is false when an exception ends it. */
    method CycleOnce(w: World, node: seq<Block>, ghost c: seq<Block>)
      returns (done: bool, active: bool, ghost es: seq<Event>, ghost d: seq<Block>)
      requires ValidWorld(w) && IsChain(w, node) && |node| > 0 && Persisted(w, Data(), c) && running
      modifies this`record, this`raw, this`rows
      ensures done ==> (d, active) == Pass(c, node) && Clean(w, Data(), d) && !MustCleanUp(record)
      ensures !done ==> !active && Persisted(w, Data(), d)
      ensures !done ==> RunFails(es) || (old(RawMissing()) && !MustCleanUp(record))
      ensures var s := State(old(Data()), node, true, true, [GetStatus]);
        RunObeys(w, s, es) && Run(w, s, es) == State(Data(), node, true, active, if active then [GetStatus] else [])
    {
      ghost var db0, os, more := Data(), [], [];
      active := false;
      done, os := Cleanup(w, node, c);
      if done {
        ghost var db1 := Data();
        done, active, more := Synchronize(w, node, c);
        os := DriveThen(w, db0, node, Go(GetStatus), os, db1, Go(GetHighest), more);
        active := active && done;
      }
      es := DriveIsARun(w, State(db0, node, true, true, [GetStatus]), os);
      if done {
        d := Pass(c, node).0;
      } else {
        d := DriveKeeps(w, db0, node, GetStatus, os, c);
      }
    }

    /** `cycle` while the node keeps its chain. It ends with the index that `Settled` says, or with an exception, and
        then what it leaves behind is recoverable; either way it took a run of the protocol. There is no exception
        unless a call fails, or the record found at the start asks for the clean-up of a block that is not there to be
        read; and then the record no longer does, so the next cycle gets through. */
    method Cycle(w: World, node: seq<Block>, ghost c: seq<Block>)
      returns (failed: bool, ghost c': seq<Block>, ghost es: seq<Event>)
      requires ValidWorld(w) && IsChain(w, node) && |node| > 0 && Persisted(w, Data(), c)
      modifies this
      ensures running == old(running) && (if old(running) then indexing == old(indexing) else unchanged(this))
      ensures old(running && !indexing) && !failed ==> c' == Settled(c, node) && Clean(w, Data(), c')
      ensures failed ==> RunFails(es) || (old(RawMissing()) && !MustCleanUp(record))
      ensures Persisted(w, Data(), c')
      ensures var s := State(old(Data()), node, old(running), false, []);
        old(!indexing) ==> RunObeys(w, s, es) && Run(w, s, es) == State(Data(), node, running, indexing, [])
    {
      failed, c', es := false, c, [];
      ghost var s0 := State(Data(), node, running, false, []);
      if !running || indexing {
        return;
      }
      indexing := true;
      es := [Tick];
      OneStep(w, s0, Tick);
      while indexing
        invariant running && !(indexing && failed)
        invariant Persisted(w, Data(), c')
        invariant indexing ==> Settled(c', node) == Settled(c, node)
        invariant !indexing && !failed ==> c' == Settled(c, node) && Clean(w, Data(), c')
        invariant Run(w, s0, es) == State(Data(), node, running, indexing, if indexing then [GetStatus] else [])
        invariant RunObeys(w, s0, es)
        invariant failed ==> RunFails(es) || (old(RawMissing()) && !MustCleanUp(record))
        invariant indexing ==> Data() == old(Data()) || !MustCleanUp(record)
        decreases indexing, Distance(c', node)
      {
        var done: bool;
        ghost var pass, d;
        done, indexing, pass, d := CycleOnce(w, node, c');
        RunAppend(w, s0, es, pass);
        ObeysAppend(w, s0, es, pass);
        RunFailsAppend(es, pass);
        es := es + pass;
        failed := !done;
        if done {
          PassConverges(w, c', node);
        }
        c' := d;
      }
    }
  }
}
