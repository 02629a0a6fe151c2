/** The two situations the block provider relies on never to fail in are reached from the start: runs of a world of two
    blocks, each with two rows, one that ends while the genesis block is half written and one that ends while a half
    written block is being removed. */
module IndexReach {
  import opened Wrappers
  import opened BlockTree
  import opened IndexProtocol
  import opened IndexSafety
  import opened IndexTheorems

  function SmallWorld(): World {
    var g, b := Block(0, 0, 0, 2), Block(1, 0, 1, 2);
    World(g, map[0 := g, 1 := b])
  }

  function Node(): seq<Block> {
    [SmallWorld().genesis, SmallWorld().blocks[1]]
  }

  /** The program runs, and its one loop awaits `pc`. */
  function Awaiting(db: Db, pc: Pc): State {
    State(db, Node(), true, true, [pc])
  }

  /** A run from the start under the two assumptions. */
  ghost predicate Reaches(es: seq<Event>, t: State) {
    RunObeys(SmallWorld(), Initial(Node()), es) && Run(SmallWorld(), Initial(Node()), es) == t
  }

  lemma {:induction false} ObeysAppend(w: World, s: State, a: seq<Event>, b: seq<Event>)
    ensures RunObeys(w, s, a + b) <==> RunObeys(w, s, a) && RunObeys(w, Run(w, s, a), b)
    decreases |a|
  {
    if a == [] {
      assert a + b == b;
    } else {
      assert (a + b)[1..] == a[1..] + b;
      ObeysAppend(w, Step(w, s, a[0]), a[1..], b);
    }
  }

  /** One more event. */
  lemma Then(es: seq<Event>, s: State, e: Event, t: State) returns (es': seq<Event>)
    requires Reaches(es, s) && Obeys(SmallWorld(), s, e) && Step(SmallWorld(), s, e) == t
    ensures Reaches(es', t)
  {
    es' := es + [e];
    RunSnoc(SmallWorld(), Initial(Node()), es, e);
    ObeysAppend(SmallWorld(), Initial(Node()), es, [e]);
    assert [e][1..] == [];
  }

  /** The pending call ends, and the loop awaits its next one. */
  lemma Goes(es: seq<Event>, db: Db, pc: Pc, o: Outcome, db': Db, pc': Pc) returns (es': seq<Event>)
    requires Reaches(es, Awaiting(db, pc)) && Obeys(SmallWorld(), Awaiting(db, pc), Resume(0, o))
    requires Possible(SmallWorld(), db, pc, o) && Advance(SmallWorld(), db, Node(), pc, o) == (db', Go(pc'))
    ensures Reaches(es', Awaiting(db', pc'))
  {
    assert [pc][0 := pc'] == [pc'];
    es' := Then(es, Awaiting(db, pc), Resume(0, o), Awaiting(db', pc'));
  }

  /** From the start to the first row of the genesis block. */
  lemma WritesGenesis() returns (es: seq<Event>, db: Db)
    ensures Reaches(es, Awaiting(db, WriteRow(SmallWorld().genesis, 0, true)))
    ensures db.record.NoRecord? && db.raw == {0} && db.rows == map[]
  {
    var w, g := SmallWorld(), SmallWorld().genesis;
    var s := Initial(Node());
    var d := s.db;
    es := Then([], s, Start, s.(running := true));
    es := Then(es, s.(running := true), Tick, Awaiting(d, GetStatus));
    es := Goes(es, d, GetStatus, Ok, d, GetHighest);
    assert IsHighest(w, d, None);
    es := Goes(es, d, GetHighest, Highest(None), d, GetGenesisHash);
    es := Goes(es, d, GetGenesisHash, Ok, d, GetGenesisBlock(0));
    es := Goes(es, d, GetGenesisBlock(0), Ok, d, PutRaw(g, true));
    db := d.(raw := {0});
    assert d.raw + {g.hash} == {0};
    es := Goes(es, d, PutRaw(g, true), Ok, db, WriteRow(g, 0, true));
  }

  /** A run ends with the genesis block half written; should its next write fail, the program is unsafe from then on. */
  lemma HalfWrittenGenesisIsReached() returns (es: seq<Event>)
    ensures RealNode(SmallWorld(), Node()) && RunObeys(SmallWorld(), Initial(Node()), es)
    ensures var w := SmallWorld(); var t := Run(w, Initial(Node()), es);
      && t.running && |t.loops| == 1 && WritingGenesis(t.loops[0]) && Partial(w, t.db, w.genesis.hash)
      && !AlwaysSafe(w, Step(w, t, Resume(0, Throw(false))))
  {
    var w, g := SmallWorld(), SmallWorld().genesis;
    var d;
    es, d := WritesGenesis();
    es := Goes(es, d, WriteRow(g, 0, true), Ok, d.Put(0, 0), WriteRow(g, 1, true));
    d := d.Put(0, 0);
    assert d.Stored(0) == {0} && 1 !in d.Stored(0);
    var t := Awaiting(d, WriteRow(g, 1, true));
    var t1 := Step(w, t, Resume(0, Throw(false)));
    assert t1.db == d && t1.loops == [] && !t1.indexing;
    PartialGenesisIsUnsafe(w, t1, 0);
  }

  /** The genesis block gets indexed, and the loop goes on to the first row of the next block. */
  lemma WritesBlock() returns (es: seq<Event>, db: Db)
    ensures Reaches(es, Awaiting(db, WriteRow(Node()[1], 0, false)))
    ensures 1 in db.raw && db.Stored(1) == {}
  {
    var w, g, b := SmallWorld(), SmallWorld().genesis, Node()[1];
    var d;
    es, d := WritesGenesis();
    es := Goes(es, d, WriteRow(g, 0, true), Ok, d.Put(0, 0), WriteRow(g, 1, true));
    d := d.Put(0, 0);
    es := Then(es, Awaiting(d, WriteRow(g, 1, true)), Resume(0, Ok), Awaiting(d.Put(0, 1), GetStatus));
    d := d.Put(0, 1);
    es := Goes(es, d, GetStatus, Ok, d, GetHighest);
    assert IsHighest(w, d, Some(0));
    es := Goes(es, d, GetHighest, Highest(Some(0)), d, GetHash(g));
    es := Goes(es, d, GetHash(g), Ok, d, GetBlock(g, 1));
    es := Goes(es, d, GetBlock(g, 1), Ok, d, PutIndexing(b));
    es := Goes(es, d, PutIndexing(b), Ok, PutRecord(d, 1, 1, INDEXING), PutRaw(b, false));
    d := PutRecord(d, 1, 1, INDEXING);
    db := d.(raw := d.raw + {1});
    es := Goes(es, d, PutRaw(b, false), Ok, db, WriteRow(b, 0, false));
  }

  /** The second row fails, and the exception ends the loop. */
  lemma FailsBlock() returns (es: seq<Event>, db: Db)
    ensures Reaches(es, State(db, Node(), true, false, []))
    ensures db.record == Record(1, 1, ERROR) && 1 in db.raw && db.Stored(1) == {0}
  {
    var b := Node()[1];
    var d;
    es, d := WritesBlock();
    es := Goes(es, d, WriteRow(b, 0, false), Ok, d.Put(1, 0), WriteRow(b, 1, false));
    d := d.Put(1, 0);
    es := Goes(es, d, WriteRow(b, 1, false), Throw(false), d, PutIndexError(b));
    db := PutRecord(d, 1, 1, ERROR);
    es := Then(es, Awaiting(d, PutIndexError(b)), Resume(0, Ok), State(db, Node(), true, false, []));
  }

  /** A run ends with a half written block about to be removed; should an indexer then miss a row, the program is unsafe
      from then on. */
  lemma HalfRemovedIsReached() returns (es: seq<Event>)
    ensures RealNode(SmallWorld(), Node()) && RunObeys(SmallWorld(), Initial(Node()), es)
    ensures var w := SmallWorld(); var t := Run(w, Initial(Node()), es);
      && t.running && |t.loops| == 1 && t.loops[0].DeleteRow? && Partial(w, t.db, t.loops[0].hash)
      && !AlwaysSafe(w, Step(w, t, Resume(0, ThrowNotFound)))
  {
    var w := SmallWorld();
    var d;
    es, d := FailsBlock();
    es := Then(es, State(d, Node(), true, false, []), Tick, Awaiting(d, GetStatus));
    es := Goes(es, d, GetStatus, Ok, d, PutInvalidating(1, 1, true));
    es := Goes(es, d, PutInvalidating(1, 1, true), Ok, PutRecord(d, 1, 1, INVALIDATING), GetRaw(1, 1, true));
    d := PutRecord(d, 1, 1, INVALIDATING);
    es := Goes(es, d, GetRaw(1, 1, true), Ok, d, DeleteRow(1, 1, 0, true));
    assert 1 !in d.Stored(1);
    NotFoundIsUnsafe(w, Awaiting(d, DeleteRow(1, 1, 0, true)), 1);
  }
}
