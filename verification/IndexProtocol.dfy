/** The block provider as a step system. One step is what runs between two `await`s of the single-threaded
    program: a pending call completes or throws, a timer ticks, `start`/`stop` are called, the node
    reorganises, or the process dies. A run is any sequence of steps, so every interleaving is covered. */
module IndexProtocol {
  import opened Wrappers
  import opened BlockTree

  datatype Status = INDEXING | INDEXED | INVALIDATING | INVALIDATED | ERROR | REINDEX

  datatype Record = NoRecord | Record(hash: Hash, height: nat, status: Status)

  /** Where a running `cycle` loop waits: the call it awaits, with the local variables it needs afterwards.
      `cleaning` tells an invalidation asked for by `cleanup` from one asked for by `synchronize`. */
  datatype Pc =
    | GetStatus
    | GetHighest
    | GetHash(tip: Block)
    | GetBlock(tip: Block, next: Hash)
    | GetGenesisHash
    | GetGenesisBlock(next: Hash)
    | PutIndexing(b: Block)
    | PutRaw(b: Block, genesis: bool)
    | WriteRow(b: Block, k: nat, genesis: bool)
    | PutIndexed(b: Block)
    | PutIndexError(b: Block)
    | PutInvalidating(hash: Hash, height: nat, cleaning: bool)
    | GetRaw(hash: Hash, height: nat, cleaning: bool)
    | DeleteRow(hash: Hash, height: nat, k: nat, cleaning: bool)
    | PutInvalidated(hash: Hash, height: nat, cleaning: bool)
    | PutInvalidateError(hash: Hash, height: nat, notFound: bool)

  /** The persisted data: the status record, the raw blocks and the rows stored for each block. */
  datatype Db = Db(record: Record, raw: set<Hash>, rows: map<Hash, set<nat>>) {
    function Stored(h: Hash): set<nat> {
      if h in rows then rows[h] else {}
    }

    function Put(h: Hash, k: nat): Db {
      this.(rows := rows[h := Stored(h) + {k}])
    }

    function Delete(h: Hash, k: nat): Db {
      this.(rows := rows[h := Stored(h) - {k}])
    }
  }

  /** `loops` holds one program counter for every activation of `cycle` that is still running. */
  datatype State = State(db: Db, node: seq<Block>, running: bool, indexing: bool, loops: seq<Pc>)

  /** How a pending call ends. `Throw(true)` is a write that took effect although its promise was rejected. */
  datatype Outcome = Ok | Highest(tip: Option<Hash>) | Throw(applied: bool) | ThrowNotFound

  datatype Event = Resume(loop: nat, outcome: Outcome) | Tick | Start | Stop | Crash | Reorg(chain: seq<Block>)

  datatype Next = Go(pc: Pc) | Return(active: bool) | Raise

  /** Exactly the rows of `b`. */
  ghost predicate AllRows(rows: set<nat>, b: Block) {
    forall k: nat :: k in rows <==> k < b.writes
  }

  ghost predicate FullyStored(db: Db, b: Block) {
    b.hash in db.raw && AllRows(db.Stored(b.hash), b)
  }

  /** Something of the block is stored, but not all of it. */
  ghost predicate Partial(w: World, db: Db, h: Hash) {
    h in w.blocks && db.Stored(h) != {} && !AllRows(db.Stored(h), w.blocks[h])
  }

  function MustCleanUp(r: Record): bool {
    r.Record? && (r.status == INDEXING || r.status == INVALIDATING || r.status == ERROR)
  }

  /** A row of the block mapper with the greatest height, or none when the mapper is empty. */
  ghost predicate IsHighest(w: World, db: Db, tip: Option<Hash>) {
    match tip
    case None => forall h :: h in db.rows ==> 0 !in db.rows[h]
    case Some(t) =>
      && t in db.rows && 0 in db.rows[t] && t in w.blocks
      && (forall h :: h in db.rows && 0 in db.rows[h] && h in w.blocks ==> w.blocks[h].height <= w.blocks[t].height)
  }

  /** The outcomes a pending call can have. */
  ghost predicate Possible(w: World, db: Db, pc: Pc, o: Outcome) {
    match o
    case Ok => !pc.GetHighest?
    case Highest(tip) => pc.GetHighest? && IsHighest(w, db, tip)
    case Throw(_) => true
    case ThrowNotFound => pc.WriteRow? || pc.DeleteRow?
  }

  function PutRecord(db: Db, h: Hash, height: nat, status: Status): Db {
    db.(record := Record(h, height, status))
  }

  function Resolve(w: World, h: Hash, otherwise: Block): Block {
    if h in w.blocks then w.blocks[h] else otherwise
  }

  /** What the loop does when its pending call ends with `o`, up to its next call. */
  function Advance(w: World, db: Db, node: seq<Block>, pc: Pc, o: Outcome): (Db, Next) {
    var failed := o.Throw? || o.ThrowNotFound?;
    var effect := o.Ok? || (o.Throw? && o.applied);
    match pc
    case GetStatus =>
      (db, if failed then Raise
           else if MustCleanUp(db.record) then Go(PutInvalidating(db.record.hash, db.record.height, true))
           else Go(GetHighest))
    case GetHighest =>
      (db, if !o.Highest? then Raise
           else if o.tip.None? then Go(GetGenesisHash)
           else Go(GetHash(Resolve(w, o.tip.value, w.genesis))))
    case GetHash(tip) =>
      (db, if failed then Raise
           else if tip.height + 1 >= |node| then Return(false)
           else Go(GetBlock(tip, node[tip.height + 1].hash)))
    case GetBlock(tip, h) =>
      var b := Resolve(w, h, w.genesis);
      (db, if failed then Raise
           else if tip.hash == b.prev then Go(PutIndexing(b))
           else Go(PutInvalidating(tip.hash, tip.height, false)))
    case GetGenesisHash => (db, if failed || |node| == 0 then Raise else Go(GetGenesisBlock(node[0].hash)))
    case GetGenesisBlock(h) => (db, if failed then Raise else Go(PutRaw(Resolve(w, h, w.genesis), true)))
    case PutIndexing(b) =>
      (if effect then PutRecord(db, b.hash, b.height, INDEXING) else db,
       if failed then Raise else Go(PutRaw(b, false)))
    case PutRaw(b, genesis) =>
      (if effect then db.(raw := db.raw + {b.hash}) else db,
       if failed then IndexFailed(b, genesis) else Go(WriteRow(b, 0, genesis)))
    case WriteRow(b, k, genesis) =>
      (if effect then db.Put(b.hash, k) else db,
       if failed then IndexFailed(b, genesis)
       else if k + 1 < b.writes then Go(WriteRow(b, k + 1, genesis))
       else if genesis then Return(true)
       else Go(PutIndexed(b)))
    case PutIndexed(b) =>
      (if effect then PutRecord(db, b.hash, b.height, INDEXED) else db,
       if failed then Go(PutIndexError(b)) else Return(true))
    case PutIndexError(b) =>
      (if effect then PutRecord(db, b.hash, b.height, ERROR) else db, Raise)
    case PutInvalidating(h, height, cleaning) =>
      (if effect then PutRecord(db, h, height, INVALIDATING) else db,
       if failed then Raise else Go(GetRaw(h, height, cleaning)))
    case GetRaw(h, height, cleaning) =>
      (db, if failed then Go(PutInvalidateError(h, height, false))
           else if h !in db.raw then Go(PutInvalidateError(h, height, true))
           else Go(DeleteRow(h, height, 0, cleaning)))
    case DeleteRow(h, height, k, cleaning) =>
      (if effect then db.Delete(h, k) else db,
       if failed then Go(PutInvalidateError(h, height, o.ThrowNotFound?))
       else if k + 1 < Resolve(w, h, w.genesis).writes then Go(DeleteRow(h, height, k + 1, cleaning))
       else Go(PutInvalidated(h, height, cleaning)))
    case PutInvalidated(h, height, cleaning) =>
      (if effect then PutRecord(db, h, height, INVALIDATED) else db,
       if failed then Go(PutInvalidateError(h, height, false))
       else if cleaning then Go(GetHighest)
       else Return(true))
    case PutInvalidateError(h, height, notFound) =>
      (if effect then PutRecord(db, h, height, if notFound then REINDEX else ERROR) else db, Raise)
  }

  /** `indexGenesis` writes no status record, so it has no record to mark as failed either. */
  function IndexFailed(b: Block, genesis: bool): Next {
    if genesis then Raise else Go(PutIndexError(b))
  }

  /** The end of one pass of the loop: another pass, or the loop is over and `indexing` is false. */
  function Settle(s: State, i: nat, db: Db, next: Next): State
    requires i < |s.loops|
  {
    match next
    case Go(pc) => s.(db := db, loops := s.loops[i := pc])
    case _ =>
      if next.Return? && next.active && s.running
      then s.(db := db, indexing := true, loops := s.loops[i := GetStatus])
      else s.(db := db, indexing := false, loops := s.loops[..i] + s.loops[i + 1..])
  }

  /** Steps that cannot happen in `s` leave it unchanged. */
  ghost function Step(w: World, s: State, e: Event): State {
    match e
    case Tick => if s.running && !s.indexing then s.(indexing := true, loops := s.loops + [GetStatus]) else s
    case Start => s.(running := true)
    case Stop => s.(running := false)
    case Crash => s.(running := false, indexing := false, loops := [])
    case Reorg(c) => if IsChain(w, c) && |c| > 0 then s.(node := c) else s
    case Resume(i, o) =>
      if i < |s.loops| && Possible(w, s.db, s.loops[i], o) then
        var (db, next) := Advance(w, s.db, s.node, s.loops[i], o);
        Settle(s, i, db, next)
      else s
  }

  ghost function Run(w: World, s: State, es: seq<Event>): State
    decreases |es|
  {
    if es == [] then s else Run(w, Step(w, s, es[0]), es[1..])
  }

  function Initial(node: seq<Block>): State {
    State(Db(NoRecord, {}, map[]), node, false, false, [])
  }

  lemma {:induction false} RunAppend(w: World, s: State, a: seq<Event>, b: seq<Event>)
    ensures Run(w, s, a + b) == Run(w, Run(w, s, a), b)
    decreases |a|
  {
    if a == [] {
      assert a + b == b;
    } else {
      assert (a + b)[1..] == a[1..] + b;
      RunAppend(w, Step(w, s, a[0]), a[1..], b);
    }
  }
}
