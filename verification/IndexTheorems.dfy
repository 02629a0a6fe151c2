/** The main results about runs of the block provider. */
module IndexTheorems {
  import opened Wrappers
  import opened BlockTree
  import opened IndexProtocol
  import opened IndexSafety

  /** The loop is inside `synchronize` and has not started to write. */
  predicate Synchronizing(pc: Pc) {
    pc.GetHighest? || pc.GetHash? || pc.GetBlock? || pc.GetGenesisHash? || pc.GetGenesisBlock?
  }

  /** `synchronize` does not run while some block is incomplete. */
  ghost predicate SyncSafe(w: World, s: State) {
    forall i, h :: 0 <= i < |s.loops| && Synchronizing(s.loops[i]) ==> !Partial(w, s.db, h)
  }

  ghost predicate AlwaysSafe(w: World, s: State) {
    forall es :: RunObeys(w, s, es) ==> SyncSafe(w, Run(w, s, es))
  }

  ghost predicate RealNode(w: World, node: seq<Block>) {
    ValidWorld(w) && IsChain(w, node) && |node| > 0
  }

  lemma InitialInv(w: World, node: seq<Block>)
    requires RealNode(w, node)
    ensures Inv(w, Initial(node), [])
  {
  }

  /** Failure recovery: whatever fails, crashes or reorganises, an incomplete block is named by a record that
      asks for its clean-up (or is the genesis block that is being written right now), and `synchronize` never
      runs while one exists. */
  lemma RecoveryTheorem(w: World, node: seq<Block>, es: seq<Event>)
    requires RealNode(w, node) && RunObeys(w, Initial(node), es)
    ensures var s := Run(w, Initial(node), es);
      && SyncSafe(w, s)
      && (forall h :: Partial(w, s.db, h) ==>
            || (MustCleanUp(s.db.record) && s.db.record.hash == h)
            || (h == w.genesis.hash && |s.loops| == 1 && WritingGenesis(s.loops[0])))
  {
    InitialInv(w, node);
    var s := Run(w, Initial(node), es);
    var c := RunKeeps(w, Initial(node), es, []);
    forall h | Partial(w, s.db, h)
      ensures (MustCleanUp(s.db.record) && s.db.record.hash == h)
           || (h == w.genesis.hash && |s.loops| == 1 && WritingGenesis(s.loops[0]))
      ensures s.loops != [] ==> !Synchronizing(s.loops[0])
    {
      PartialIsNamed(w, s, c, h);
    }
  }

  lemma PartialIsNamed(w: World, s: State, c: seq<Block>, h: Hash)
    requires Inv(w, s, c) && Partial(w, s.db, h)
    ensures (MustCleanUp(s.db.record) && s.db.record.hash == h)
         || (h == w.genesis.hash && |s.loops| == 1 && WritingGenesis(s.loops[0]))
    ensures s.loops != [] ==> !Synchronizing(s.loops[0])
  {
    if Clean(w, s.db, c) {
      CleanHasNoPartial(w, s.db, c, h);
    }
    if s.loops == [] || !WritingGenesis(s.loops[0]) {
      PersistedAt(w, s, c);
    }
  }

  lemma CleanHasNoPartial(w: World, db: Db, c: seq<Block>, h: Hash)
    requires Clean(w, db, c)
    ensures !Partial(w, db, h)
  {
    if OnChain(c, h) {
      assert FullyStored(db, w.blocks[h]);
    }
  }

  lemma PersistedAt(w: World, s: State, c: seq<Block>)
    requires Inv(w, s, c) && (s.loops == [] || !WritingGenesis(s.loops[0]))
    ensures Persisted(w, s.db, c)
  {
  }

  /** The fully indexed blocks are exactly the blocks of one hash-linked chain with contiguous heights from
      genesis, in every state of every run against a node that may reorganise between any two calls. */
  lemma ChainTheorem(w: World, node: seq<Block>, es: seq<Event>) returns (chain: seq<Block>)
    requires RealNode(w, node) && RunObeys(w, Initial(node), es)
    ensures var s := Run(w, Initial(node), es);
      IsChain(w, chain) && forall h :: OnChain(chain, h) <==> h in w.blocks && FullyStored(s.db, w.blocks[h])
  {
    InitialInv(w, node);
    var s := Run(w, Initial(node), es);
    var c := RunKeeps(w, Initial(node), es, []);
    chain := c;
    if s.loops != [] && WritingGenesis(s.loops[0]) {
      forall h | h in w.blocks ensures !FullyStored(s.db, w.blocks[h]) {
        var next := if s.loops[0].WriteRow? && h == w.genesis.hash then s.loops[0].k else 0;
        assert !OnChain(c, h);
        assert next < w.blocks[h].writes && next !in s.db.Stored(h);
      }
    } else {
      PersistedAt(w, s, c);
      chain := StoredChain(w, s.db, c);
    }
  }

  lemma StoredChain(w: World, db: Db, c: seq<Block>) returns (chain: seq<Block>)
    requires ValidWorld(w) && Persisted(w, db, c)
    ensures IsChain(w, chain) && forall h :: OnChain(chain, h) <==> h in w.blocks && FullyStored(db, w.blocks[h])
  {
    forall h | h in w.blocks && db.Stored(h) == {} ensures !FullyStored(db, w.blocks[h]) {
      assert 0 < w.blocks[h].writes && 0 !in db.Stored(h);
    }
    chain := c;
    if MustCleanUp(db.record) {
      var h := db.record.hash;
      PushTip(w, c, w.blocks[h]);
      if FullyStored(db, w.blocks[h]) {
        chain := c + [w.blocks[h]];
      }
    }
  }

  /** Only the tip is ever removed: while rows of `h` are deleted, every other stored block lies below it. */
  lemma OnlyTheTipIsRemoved(w: World, node: seq<Block>, es: seq<Event>, i: nat, x: Hash)
    requires RealNode(w, node) && RunObeys(w, Initial(node), es)
    requires var s := Run(w, Initial(node), es); i < |s.loops| && s.loops[i].DeleteRow? && s.db.Stored(x) != {}
    ensures var s := Run(w, Initial(node), es); var h := s.loops[i].hash;
      x == h || (h in w.blocks && x in w.blocks && w.blocks[x].height < w.blocks[h].height)
  {
    InitialInv(w, node);
    var s := Run(w, Initial(node), es);
    var c := RunKeeps(w, Initial(node), es, []);
    if x != s.loops[i].hash {
      assert OnChain(c, x);
      var j :| 0 <= j < |c| && c[j].hash == x;
      assert Known(w, c[j]);
    }
  }

  /** The two assumptions of `Obeys` cannot be dropped. First: when an indexer reports a missing row during a
      removal, the program stays safe for ever exactly when nothing, or everything, of the block is stored. */
  lemma NotFoundContract(w: World, s: State, c: seq<Block>)
    requires Inv(w, s, c) && s.running && s.loops != [] && s.loops[0].DeleteRow?
    ensures AlwaysSafe(w, Step(w, s, Resume(0, ThrowNotFound))) <==> !Partial(w, s.db, s.loops[0].hash)
  {
    if Partial(w, s.db, s.loops[0].hash) {
      NotFoundIsUnsafe(w, s, s.loops[0].hash);
    } else {
      var c1 := StepKeeps(w, s, Resume(0, ThrowNotFound), c);
      SafeFromInv(w, Step(w, s, Resume(0, ThrowNotFound)), c1);
    }
  }

  lemma NotFoundIsUnsafe(w: World, s: State, h: Hash)
    requires s.running && |s.loops| == 1 && s.loops[0].DeleteRow? && s.loops[0].hash == h && Partial(w, s.db, h)
    ensures !AlwaysSafe(w, Step(w, s, Resume(0, ThrowNotFound)))
  {
    var s1 := Step(w, s, Resume(0, ThrowNotFound));
    var es := [Resume(0, Ok), Tick, Resume(0, Ok)];
    var s2 := Step(w, s1, es[0]);
    assert s2.loops == [] && s2.db.record.status == REINDEX;
    var s4 := Step(w, Step(w, s2, es[1]), es[2]);
    assert s4.loops == [GetHighest];
    assert s4.db.Stored(h) == s.db.Stored(h);
    Unsafe(w, s1, es, s4, h);
  }

  lemma Unsafe(w: World, s: State, es: seq<Event>, t: State, h: Hash)
    requires |es| == 3 && t == Step(w, Step(w, Step(w, s, es[0]), es[1]), es[2])
    requires Obeys(w, s, es[0]) && Obeys(w, Step(w, s, es[0]), es[1])
      && Obeys(w, Step(w, Step(w, s, es[0]), es[1]), es[2])
    requires |t.loops| == 1 && Synchronizing(t.loops[0]) && Partial(w, t.db, h)
    ensures !AlwaysSafe(w, s)
  {
    RunOfThree(w, s, es);
    assert RunObeys(w, s, es) && !SyncSafe(w, Run(w, s, es));
  }

  /** Second: when a write of the genesis block fails, the program stays safe for ever exactly when that leaves
      nothing, or everything, of the genesis block stored. */
  lemma GenesisContract(w: World, s: State, c: seq<Block>, applied: bool)
    requires Inv(w, s, c) && s.running && s.loops != [] && WritingGenesis(s.loops[0])
    ensures var s1 := Step(w, s, Resume(0, Throw(applied)));
      AlwaysSafe(w, s1) <==> !Partial(w, s1.db, w.genesis.hash)
  {
    var s1 := Step(w, s, Resume(0, Throw(applied)));
    var g := w.genesis.hash;
    if Partial(w, s1.db, g) {
      PartialGenesisIsUnsafe(w, s1, g);
    } else {
      FailedGenesis(w, s, c, applied);
      assert forall h :: !OnChain([], h);
      if s1.db.Stored(g) == {} {
        SafeFromInv(w, s1, []);
      } else {
        var d := [w.genesis];
        assert d[0].hash == g;
        SafeFromInv(w, s1, d);
      }
    }
  }

  lemma FailedGenesis(w: World, s: State, c: seq<Block>, applied: bool)
    requires Inv(w, s, c) && s.loops != [] && WritingGenesis(s.loops[0])
    ensures var s1 := Step(w, s, Resume(0, Throw(applied)));
      && s1.loops == [] && !s1.indexing && s1.node == s.node && !MustCleanUp(s1.db.record)
      && (forall x :: x != w.genesis.hash ==> s1.db.Stored(x) == {})
      && (s1.db.Stored(w.genesis.hash) != {} ==> w.genesis.hash in s1.db.raw)
  {
    assert forall h :: !OnChain(c, h);
    var s1 := Step(w, s, Resume(0, Throw(applied)));
    assert forall x :: x != w.genesis.hash ==> s1.db.Stored(x) == s.db.Stored(x);
  }

  lemma PartialGenesisIsUnsafe(w: World, s: State, g: Hash)
    requires s.running && !s.indexing && s.loops == [] && !MustCleanUp(s.db.record) && Partial(w, s.db, g)
    ensures !AlwaysSafe(w, s)
  {
    var es := [Tick, Resume(0, Ok), Start];
    var t := Step(w, Step(w, Step(w, s, es[0]), es[1]), es[2]);
    assert t.loops == [GetHighest] && t.db == s.db;
    Unsafe(w, s, es, t, g);
  }

  lemma RunOfThree(w: World, s: State, es: seq<Event>)
    requires |es| == 3
    ensures Run(w, s, es) == Step(w, Step(w, Step(w, s, es[0]), es[1]), es[2])
    ensures RunObeys(w, s, es) <==> Obeys(w, s, es[0]) && Obeys(w, Step(w, s, es[0]), es[1])
                                    && Obeys(w, Step(w, Step(w, s, es[0]), es[1]), es[2])
  {
    assert es[1..][0] == es[1] && es[1..][1..][0] == es[2] && es[1..][1..][1..] == [];
    var s1 := Step(w, s, es[0]);
    var s2 := Step(w, s1, es[1]);
    assert Run(w, s1, es[1..]) == Run(w, s2, es[1..][1..]);
    assert Run(w, s2, es[1..][1..]) == Step(w, s2, es[2]);
    assert RunObeys(w, s2, es[1..][1..]) <==> Obeys(w, s2, es[2]);
    assert RunObeys(w, s1, es[1..]) <==> Obeys(w, s1, es[1]) && RunObeys(w, s2, es[1..][1..]);
  }

  lemma SafeFromInv(w: World, s: State, c: seq<Block>)
    requires Inv(w, s, c)
    ensures AlwaysSafe(w, s)
  {
    forall es | RunObeys(w, s, es) ensures SyncSafe(w, Run(w, s, es)) {
      var t := Run(w, s, es);
      var d := RunKeeps(w, s, es, c);
      forall i, h | 0 <= i < |t.loops| && Synchronizing(t.loops[i]) ensures !Partial(w, t.db, h) {
        if Partial(w, t.db, h) {
          PartialIsNamed(w, t, d, h);
        }
      }
    }
  }

  ghost predicate OneLoop(s: State) {
    |s.loops| == if s.indexing then 1 else 0
  }

  /** At most one loop is ever active, and `indexing` says exactly whether one is: in every run, with no
      assumption about failures. */
  lemma {:induction false} OneLoopTheorem(w: World, s: State, es: seq<Event>)
    requires OneLoop(s)
    ensures OneLoop(Run(w, s, es))
    decreases |es|
  {
    if es != [] {
      OneLoopTheorem(w, Step(w, s, es[0]), es[1..]);
    }
  }

  lemma {:induction false} StaysStopped(w: World, s: State, es: seq<Event>)
    requires OneLoop(s) && !s.running && Start !in es
    ensures !Run(w, s, es).running
    ensures s.loops == [] ==> Run(w, s, es).loops == []
    decreases |es|
  {
    if es != [] {
      assert es[0] != Start;
      assert forall e :: e in es[1..] ==> e in es;
      StaysStopped(w, Step(w, s, es[0]), es[1..]);
    }
  }

  /** Exactly when `running` is true after a run: the last of the calls that change it was `start`, or there was none
      and it was true before. */
  predicate LastIsStart(running: bool, es: seq<Event>)
    decreases |es|
  {
    if es == [] then running
    else
      var e := es[|es| - 1];
      if e == Start then true else if e == Stop || e == Crash then false else LastIsStart(running, es[..|es| - 1])
  }

  lemma RunSnoc(w: World, s: State, es: seq<Event>, e: Event)
    ensures Run(w, s, es + [e]) == Step(w, Run(w, s, es), e)
  {
    RunAppend(w, s, es, [e]);
    assert [e][1..] == [];
    assert Run(w, Step(w, Run(w, s, es), e), []) == Step(w, Run(w, s, es), e);
  }

  lemma {:induction false} RunningIff(w: World, s: State, es: seq<Event>)
    ensures Run(w, s, es).running <==> LastIsStart(s.running, es)
    decreases |es|
  {
    if es != [] {
      var init, e := es[..|es| - 1], es[|es| - 1];
      assert es == init + [e];
      RunSnoc(w, s, init, e);
      RunningIff(w, s, init);
    }
  }

  /** No loop will be active until `start` is called again. */
  ghost predicate Stopped(w: World, s: State) {
    forall after :: Start !in after ==> Run(w, s, after).loops == []
  }

  lemma StoppedIff(w: World, s: State)
    requires OneLoop(s) && !s.indexing
    ensures Stopped(w, s) <==> !s.running
  {
    if s.running {
      assert Run(w, s, [Tick]) == Step(w, s, Tick) by {
        RunSnoc(w, s, [], Tick);
        assert [] + [Tick] == [Tick];
      }
      assert Start !in [Tick] && Run(w, s, [Tick]).loops != [];
    } else {
      forall after | Start !in after ensures Run(w, s, after).loops == [] {
        StaysStopped(w, s, after);
      }
    }
  }

  /** `stop` clears `running`, waits, and resolves when it sees `indexing` false. From then on no loop is active until
      `start` is called again, exactly when the last call that came while it waited was not `start`: a `start` that no
      further `stop` or crash follows lets a new loop begin. */
  lemma StopTheorem(w: World, s: State, waiting: seq<Event>)
    requires OneLoop(s) && !Run(w, Step(w, s, Stop), waiting).indexing
    ensures Stopped(w, Run(w, Step(w, s, Stop), waiting)) <==> !LastIsStart(false, waiting)
  {
    var s1 := Step(w, s, Stop);
    RunningIff(w, s1, waiting);
    OneLoopTheorem(w, s1, waiting);
    StoppedIff(w, Run(w, s1, waiting));
  }
}
