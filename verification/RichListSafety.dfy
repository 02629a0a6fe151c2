/** When a stored balance may be stale: what every interleaving of the rich list keeps, as long as balances are read at
    moments at which they may be. */
module RichListSafety {
  import opened Wrappers
  import opened BlockTree
  import opened RichListProtocol

  /** Addresses of the block in process that will certainly be pushed. */
  ghost predicate Waiting(env: Env, s: State, a: Address) {
    match s.crawler
    case PushAddress(_, todo) => a in todo
    case PutAddress(_, _, todo) => a in todo
    case DeleteHash(b) => a in Parse(env, b)
    case ListAddresses(b) => a in Parse(env, b)
    case RequeueAddress(_, todo) => a in todo
    case DeleteAddress(_, _, todo) => a in todo
    case _ => false
  }

  predicate BeingRead(s: State, a: Address) {
    match s.calculator
    case Reading(todo, _) => a in todo
    case ReadingUtxo(x, _, todo, _) => a == x || a in todo
    case _ => false
  }

  function Got(s: State): map<(Address, Kind), Amount> {
    match s.calculator
    case Reading(_, got) => got
    case ReadingUtxo(_, _, _, got) => got
    case Storing(got) => got
    case _ => map[]
  }

  /** The last balance read, if any, is the one the crawled chain gives. */
  ghost predicate Current(env: Env, s: State, a: Address, k: Kind) {
    if (a, k) in Got(s) then Got(s)[(a, k)] == Balance(env, View(s), a, k)
    else (a, k) in s.stored ==> s.stored[(a, k)] == Balance(env, View(s), a, k)
  }

  ghost predicate Values(env: Env, s: State) {
    && (forall a, k :: a in s.queue || Waiting(env, s, a) || BeingRead(s, a) || Current(env, s, a, k))
    && (s.calculator.ReadingUtxo? ==>
          var a := s.calculator.a;
          a in s.queue || Waiting(env, s, a) || s.calculator.account == Balance(env, View(s), a, Account))
  }

  ghost predicate Extending(env: Env, c: seq<Block>, b: Block) {
    Known(env.tree, b) && if c == [] then b == env.tree.genesis else Extends(c, b)
  }

  ghost predicate CrawlerInv(env: Env, s: State) {
    var c := s.crawled;
    match s.crawler
    case GetNextHash(tip) => tip == if c == [] then None else Some(c[|c| - 1])
    case GetNext(tip, h) =>
      && tip == (if c == [] then None else Some(c[|c| - 1])) && h in env.tree.blocks
      && (if c == [] then env.tree.blocks[h] == env.tree.genesis
          else env.tree.blocks[h].height == |c| && (|c| == 1 ==> env.tree.blocks[h].prev == env.tree.genesis.hash))
    case PushAddress(b, todo) => Extending(env, c, b) && todo <= Parse(env, b) && todo != {}
    case PutAddress(b, a, todo) => Extending(env, c, b) && a in Parse(env, b) - todo && todo <= Parse(env, b)
    case PutHash(b) => Extending(env, c, b)
    case DeleteHash(b) => |c| >= 2 && b == c[|c| - 1]
    case ListAddresses(b) => Extending(env, c, b) && c != []
    case RequeueAddress(b, todo) => Extending(env, c, b) && c != [] && todo <= Parse(env, b) && todo != {}
    case DeleteAddress(b, a, todo) => Extending(env, c, b) && c != [] && a !in todo && todo <= Parse(env, b)
    case _ => true
  }

  /** The address rows of height `h`: those of the crawled block there, and of the block in process the part
      already put, or not yet deleted. */
  ghost function ExpectedRows(env: Env, s: State, h: nat): set<Address> {
    if h < |s.crawled| then Parse(env, s.crawled[h])
    else if h > |s.crawled| then {}
    else match s.crawler
      case PushAddress(b, todo) => Parse(env, b) - todo
      case PutAddress(b, a, todo) => Parse(env, b) - todo - {a}
      case PutHash(b) => Parse(env, b)
      case ListAddresses(b) => Parse(env, b)
      case RequeueAddress(_, todo) => todo
      case DeleteAddress(_, a, todo) => todo + {a}
      case _ => {}
  }

  /** An address is read once per batch, and a batch is not empty. */
  predicate CalculatorInv(s: State) {
    match s.calculator
    case Reading(todo, _) => todo != {}
    case ReadingUtxo(a, _, todo, _) => a !in todo
    case _ => true
  }

  /** Everything but the balances. */
  ghost predicate Shape(env: Env, s: State) {
    && ValidWorld(env.tree) && IsChain(env.tree, s.node) && |s.node| > 0 && IsChain(env.tree, s.crawled)
    && CrawlerInv(env, s) && CalculatorInv(s)
    && (forall h :: RowsAt(s, h) == ExpectedRows(env, s, h))
    && (View(s) == [] ==> s.queue == {} && s.stored == map[] && (s.calculator.Idle? || s.calculator.Receiving?))
  }

  ghost predicate Inv(env: Env, s: State) {
    Shape(env, s) && Values(env, s)
  }

  /** The balance that a read would give now is the one the crawled chain gives, or will be read again anyway. */
  ghost predicate Fresh(env: Env, s: State, a: Address, k: Kind) {
    a in s.queue || Waiting(env, s, a) || Balance(env, s.node, a, k) == Balance(env, View(s), a, k)
  }

  /** A step that reads a balance does so while that is fresh. */
  ghost predicate ReadsFresh(env: Env, s: State, e: Event) {
    && (e.ReadAccount? && s.calculator.Reading? && e.a in s.calculator.todo ==> Fresh(env, s, e.a, Account))
    && (e.ReadUtxo? && s.calculator.ReadingUtxo? ==> Fresh(env, s, s.calculator.a, Utxo))
  }

  ghost predicate RunReadsFresh(env: Env, s: State, es: seq<Event>)
    decreases |es|
  {
    es != [] ==> ReadsFresh(env, s, es[0]) && RunReadsFresh(env, Step(env, s, es[0]), es[1..])
  }

  /** Why a stored balance may differ from the node's: the address is queued, received, in the block being
      processed, or touched by a non-genesis block of exactly one of the two chains. */
  ghost predicate Explained(env: Env, s: State, a: Address) {
    || a in s.queue
    || InFlight(s, a)
    || (InProcess(s).Some? && a in Parse(env, InProcess(s).value))
    || (exists b: Block :: b.height > 0 && a in Parse(env, b) && ((b in s.crawled) != (b in s.node)))
  }

  ghost predicate StalenessExplained(env: Env, s: State) {
    forall a, k :: (a, k) in s.stored && s.stored[(a, k)] != Balance(env, s.node, a, k) ==> Explained(env, s, a)
  }

  lemma TouchingSnoc(env: Env, c: seq<Block>, b: Block, a: Address)
    ensures Touching(env, c + [b], a) == Touching(env, c, a) + if a in Parse(env, b) then [b] else []
  {
    assert (c + [b])[..|c|] == c;
  }

  lemma {:induction false} TouchingPrefix(env: Env, c: seq<Block>, m: nat, a: Address)
    requires m <= |c| && forall i :: m <= i < |c| ==> a !in Parse(env, c[i])
    ensures Touching(env, c, a) == Touching(env, c[..m], a)
    decreases |c|
  {
    if m == |c| {
      assert c[..m] == c;
    } else {
      var d := c[..|c| - 1];
      TouchingPrefix(env, d, m, a);
      assert d[..m] == c[..m];
    }
  }

  /** Two chains that give an address different histories differ in a non-genesis block that touches it. */
  lemma HistoriesDiffer(env: Env, c: seq<Block>, n: seq<Block>, a: Address) returns (b: Block)
    requires IsChain(env.tree, c) && IsChain(env.tree, n) && c != [] && n != []
    requires Touching(env, c, a) != Touching(env, n, a)
    ensures b.height > 0 && a in Parse(env, b) && ((b in c) != (b in n))
  {
    var m := Common(c, n);
    if forall i :: m <= i < |c| ==> a !in Parse(env, c[i]) {
      TouchingPrefix(env, c, m, a);
      if forall i :: m <= i < |n| ==> a !in Parse(env, n[i]) {
        TouchingPrefix(env, n, m, a);
        assert false;
      } else {
        var i :| m <= i < |n| && a in Parse(env, n[i]);
        b := n[i];
        OnlyOnOne(env, n, c, i);
      }
    } else {
      var i :| m <= i < |c| && a in Parse(env, c[i]);
      b := c[i];
      OnlyOnOne(env, c, n, i);
    }
  }

  lemma OnlyOnOne(env: Env, c: seq<Block>, n: seq<Block>, i: nat)
    requires IsChain(env.tree, c) && IsChain(env.tree, n) && c != [] && n != []
    requires i < |c| && (Common(c, n) <= i || Common(n, c) <= i)
    ensures i > 0 && c[i] in c && c[i] !in n
  {
    ChainsPartForGood(env.tree, c, n, 0);
    ChainsPartForGood(env.tree, n, c, 0);
    if c[i] in n {
      var j :| 0 <= j < |n| && n[j] == c[i];
      assert j == i;
      ChainsPartForGood(env.tree, c, n, i);
      ChainsPartForGood(env.tree, n, c, i);
    }
  }

  /** Addresses that are neither waiting nor current stay so as long as what the crawler adds or removes does not
      touch them. */
  lemma ValuesKept(env: Env, s: State, t: State)
    requires Values(env, s) && t.calculator == s.calculator && t.stored == s.stored
    requires forall a :: a in s.queue || Waiting(env, s, a) ==> a in t.queue || Waiting(env, t, a)
    requires forall a :: a in t.queue || Waiting(env, t, a) || Touching(env, View(t), a) == Touching(env, View(s), a)
    ensures Values(env, t)
  {
    forall a, k ensures a in t.queue || Waiting(env, t, a) || BeingRead(t, a) || Current(env, t, a, k) {
      assert a in s.queue || Waiting(env, s, a) || BeingRead(s, a) || Current(env, s, a, k);
    }
  }

  lemma RowsKept(env: Env, s: State, t: State)
    requires forall h :: RowsAt(s, h) == ExpectedRows(env, s, h)
    requires t.rows == s.rows && forall h :: ExpectedRows(env, t, h) == ExpectedRows(env, s, h)
    ensures forall h :: RowsAt(t, h) == ExpectedRows(env, t, h)
  {
    forall h ensures RowsAt(t, h) == ExpectedRows(env, t, h) {
      assert RowsAt(s, h) == ExpectedRows(env, s, h);
    }
  }

  lemma PutAddressRows(env: Env, s: State)
    requires Shape(env, s) && s.crawler.PutAddress?
    ensures var t := CrawlStep(env, s); forall h :: RowsAt(t, h) == ExpectedRows(env, t, h)
  {
    var t := CrawlStep(env, s);
    forall h ensures RowsAt(t, h) == ExpectedRows(env, t, h) {
      assert RowsAt(s, h) == ExpectedRows(env, s, h);
    }
  }

  lemma DeleteAddressRows(env: Env, s: State)
    requires Shape(env, s) && s.crawler.DeleteAddress?
    ensures var t := CrawlStep(env, s); forall h :: RowsAt(t, h) == ExpectedRows(env, t, h)
  {
    var t := CrawlStep(env, s);
    forall h ensures RowsAt(t, h) == ExpectedRows(env, t, h) {
      assert RowsAt(s, h) == ExpectedRows(env, s, h);
    }
  }

  lemma PutAddressKeeps(env: Env, s: State)
    requires Inv(env, s) && s.crawler.PutAddress?
    ensures Inv(env, CrawlStep(env, s))
  {
    ValuesKept(env, s, CrawlStep(env, s));
    PutAddressRows(env, s);
  }

  lemma DeleteAddressKeeps(env: Env, s: State)
    requires Inv(env, s) && s.crawler.DeleteAddress?
    ensures Inv(env, CrawlStep(env, s))
  {
    ValuesKept(env, s, CrawlStep(env, s));
    DeleteAddressRows(env, s);
  }

  lemma GetNextKeeps(env: Env, s: State)
    requires Inv(env, s) && s.crawler.GetNext?
    ensures Inv(env, CrawlStep(env, s))
  {
    var t := CrawlStep(env, s);
    if t.crawler.DeleteHash? {
      ValuesKept(env, s, t);
    } else {
      PushBeginKeeps(env, s);
    }
    RowsKept(env, s, t);
  }

  /** The next block joins what the queue accounts for, and all its addresses wait. */
  lemma PushBeginKeeps(env: Env, s: State)
    requires Inv(env, s) && s.crawler.GetNext? && !CrawlStep(env, s).crawler.DeleteHash?
    ensures var t := CrawlStep(env, s); Values(env, t) && CrawlerInv(env, t) && View(t) != []
  {
    var t := CrawlStep(env, s);
    var b := env.tree.blocks[s.crawler.next];
    assert View(t) == s.crawled + [b];
    forall a ensures a in Parse(env, b) || Touching(env, View(t), a) == Touching(env, View(s), a) {
      TouchingSnoc(env, s.crawled, b, a);
    }
    ValuesKept(env, s, t);
  }

  lemma DeleteHashKeeps(env: Env, s: State)
    requires Inv(env, s) && s.crawler.DeleteHash?
    ensures Inv(env, CrawlStep(env, s))
  {
    var t := CrawlStep(env, s);
    var b := s.crawler.b;
    assert s.crawled == t.crawled + [b];
    forall a ensures a in Parse(env, b) || Touching(env, View(t), a) == Touching(env, View(s), a) {
      TouchingSnoc(env, t.crawled, b, a);
    }
    ValuesKept(env, s, t);
    RowsKept(env, s, t);
  }

  lemma PutHashKeeps(env: Env, s: State)
    requires Inv(env, s) && s.crawler.PutHash?
    ensures Inv(env, CrawlStep(env, s))
  {
    var t := CrawlStep(env, s);
    assert View(t) == View(s);
    ValuesKept(env, s, t);
    assert IsChain(env.tree, t.crawled);
    RowsKept(env, s, t);
  }

  lemma GetNextHashKeeps(env: Env, s: State)
    requires Inv(env, s) && s.crawler.GetNextHash?
    ensures Inv(env, CrawlStep(env, s))
  {
    var t := CrawlStep(env, s);
    var h := if s.crawler.tip.None? then 0 else s.crawler.tip.value.height + 1;
    if h < |s.node| {
      assert Known(env.tree, s.node[h]);
      assert h == 1 ==> s.node[1].prev == s.node[0].hash;
    }
    ValuesKept(env, s, t);
    RowsKept(env, s, t);
  }

  lemma ListAddressesKeeps(env: Env, s: State)
    requires Inv(env, s) && s.crawler.ListAddresses?
    ensures Inv(env, CrawlStep(env, s))
  {
    var t := CrawlStep(env, s);
    assert RowsAt(s, s.crawler.b.height) == ExpectedRows(env, s, |s.crawled|);
    ValuesKept(env, s, t);
    RowsKept(env, s, t);
  }

  lemma CrawlKeeps(env: Env, s: State)
    requires Inv(env, s)
    ensures Inv(env, CrawlStep(env, s))
  {
    match s.crawler
    case GetNextHash(_) => GetNextHashKeeps(env, s);
    case GetNext(_, _) => GetNextKeeps(env, s);
    case PutAddress(_, _, _) => PutAddressKeeps(env, s);
    case PutHash(_) => PutHashKeeps(env, s);
    case DeleteHash(_) => DeleteHashKeeps(env, s);
    case ListAddresses(_) => ListAddressesKeeps(env, s);
    case DeleteAddress(_, _, _) => DeleteAddressKeeps(env, s);
    case GetTip => GetTipKeeps(env, s);
    case _ =>
  }

  lemma GetTipKeeps(env: Env, s: State)
    requires Inv(env, s) && s.crawler.GetTip?
    ensures Inv(env, CrawlStep(env, s))
  {
    ValuesKept(env, s, CrawlStep(env, s));
    RowsKept(env, s, CrawlStep(env, s));
  }

  lemma PushKeeps(env: Env, s: State, a: Address)
    requires Inv(env, s)
    ensures Inv(env, PushStep(s, a))
  {
    var t := PushStep(s, a);
    if t != s {
      PushKeepsRows(env, s, a);
      ValuesKept(env, s, t);
    }
  }

  lemma PushKeepsRows(env: Env, s: State, a: Address)
    requires forall h :: RowsAt(s, h) == ExpectedRows(env, s, h)
    requires CrawlerInv(env, s)
    ensures var t := PushStep(s, a); CrawlerInv(env, t) && forall h :: RowsAt(t, h) == ExpectedRows(env, t, h)
  {
    var t := PushStep(s, a);
    RowsKept(env, s, t);
  }

  /** What receiving, reading and storing leave as it is. */
  lemma CalculateShape(env: Env, s: State, t: State)
    requires Shape(env, s) && CalculatorInv(t)
    requires t == s.(queue := t.queue, stored := t.stored, calculator := t.calculator)
    requires View(s) == [] ==> t.queue == {} && t.stored == map[] && (t.calculator.Idle? || t.calculator.Receiving?)
    ensures Shape(env, t)
  {
    RowsKept(env, s, t);
  }

  lemma CalculateFrame(env: Env, s: State, t: State)
    requires Inv(env, s) && CalculatorInv(t)
    requires t == s.(queue := t.queue, stored := t.stored, calculator := t.calculator)
    requires Values(env, t) && (View(s) == [] ==>
      t.queue == {} && t.stored == map[] && (t.calculator.Idle? || t.calculator.Receiving?))
    ensures Inv(env, t)
  {
    CalculateShape(env, s, t);
  }

  lemma StartCalculateKeeps(env: Env, s: State)
    requires Inv(env, s)
    ensures Inv(env, Step(env, s, StartCalculate))
  {
    var t := Step(env, s, StartCalculate);
    forall a, k ensures a in t.queue || Waiting(env, t, a) || BeingRead(t, a) || Current(env, t, a, k) {
      assert a in s.queue || Waiting(env, s, a) || BeingRead(s, a) || Current(env, s, a, k);
    }
    CalculateFrame(env, s, t);
  }

  lemma ReceiveKeeps(env: Env, s: State, batch: set<Address>)
    requires Inv(env, s)
    ensures Inv(env, Step(env, s, Receive(batch)))
  {
    var t := Step(env, s, Receive(batch));
    forall a, k ensures a in t.queue || Waiting(env, t, a) || BeingRead(t, a) || Current(env, t, a, k) {
      assert a in s.queue || Waiting(env, s, a) || BeingRead(s, a) || Current(env, s, a, k);
    }
    CalculateFrame(env, s, t);
  }

  lemma ReadAccountValues(env: Env, s: State, x: Address)
    requires Values(env, s) && s.calculator.Reading? && x in s.calculator.todo && Fresh(env, s, x, Account)
    ensures Values(env, Step(env, s, ReadAccount(x)))
  {
    var t := Step(env, s, ReadAccount(x));
    forall a, k ensures a in t.queue || Waiting(env, t, a) || BeingRead(t, a) || Current(env, t, a, k) {
      assert a in s.queue || Waiting(env, s, a) || BeingRead(s, a) || Current(env, s, a, k);
    }
  }

  lemma ReadAccountKeeps(env: Env, s: State, x: Address)
    requires Inv(env, s) && ReadsFresh(env, s, ReadAccount(x))
    ensures Inv(env, Step(env, s, ReadAccount(x)))
  {
    if s.calculator.Reading? && x in s.calculator.todo {
      ReadAccountValues(env, s, x);
      CalculateFrame(env, s, Step(env, s, ReadAccount(x)));
    }
  }

  lemma ReadUtxoValues(env: Env, s: State)
    requires Values(env, s) && s.calculator.ReadingUtxo? && Fresh(env, s, s.calculator.a, Utxo)
    ensures Values(env, Step(env, s, ReadUtxo))
  {
    var t := Step(env, s, ReadUtxo);
    forall a, k ensures a in t.queue || Waiting(env, t, a) || BeingRead(t, a) || Current(env, t, a, k) {
      assert a in s.queue || Waiting(env, s, a) || BeingRead(s, a) || Current(env, s, a, k);
      assert k == Account || k == Utxo;
    }
  }

  lemma ReadUtxoKeeps(env: Env, s: State)
    requires Inv(env, s) && s.calculator.ReadingUtxo? && Fresh(env, s, s.calculator.a, Utxo)
    ensures Inv(env, Step(env, s, ReadUtxo))
  {
    ReadUtxoValues(env, s);
    CalculateFrame(env, s, Step(env, s, ReadUtxo));
  }

  lemma StoreValues(env: Env, s: State, x: Address, kind: Kind)
    requires Values(env, s)
    ensures Values(env, Step(env, s, Store(x, kind)))
  {
    var t := Step(env, s, Store(x, kind));
    forall a, k ensures a in t.queue || Waiting(env, t, a) || BeingRead(t, a) || Current(env, t, a, k) {
      assert a in s.queue || Waiting(env, s, a) || BeingRead(s, a) || Current(env, s, a, k);
      assert (a, k) in Got(t) <==> (a, k) in Got(s) && (t == s || (a, k) != (x, kind));
    }
  }

  lemma StoreKeeps(env: Env, s: State, x: Address, kind: Kind)
    requires Inv(env, s)
    ensures Inv(env, Step(env, s, Store(x, kind)))
  {
    StoreValues(env, s, x, kind);
    CalculateFrame(env, s, Step(env, s, Store(x, kind)));
  }

  lemma StepKeeps(env: Env, s: State, e: Event)
    requires Inv(env, s) && ReadsFresh(env, s, e)
    ensures Inv(env, Step(env, s, e))
  {
    match e
    case Crawl => CrawlKeeps(env, s);
    case CrawlAddress(a) => PushKeeps(env, s, a);
    case Reorg(_) => SameView(env, s, Step(env, s, e));
    case StartCrawl => SameView(env, s, Step(env, s, e));
    case StartCalculate => StartCalculateKeeps(env, s);
    case Receive(batch) => ReceiveKeeps(env, s, batch);
    case ReadAccount(a) => ReadAccountKeeps(env, s, a);
    case ReadUtxo =>
      if s.calculator.ReadingUtxo? {
        ReadUtxoKeeps(env, s);
      }
    case Store(a, k) => StoreKeeps(env, s, a, k);
  }

  lemma SameView(env: Env, s: State, t: State)
    requires Inv(env, s) && IsChain(env.tree, t.node) && |t.node| > 0
    requires t == s.(node := t.node) || (s.crawler.Resting? && t == s.(crawler := GetTip))
    ensures Inv(env, t)
  {
    ValuesKept(env, s, t);
    RowsKept(env, s, t);
  }

  lemma {:induction false} RunKeeps(env: Env, s: State, es: seq<Event>)
    requires Inv(env, s) && RunReadsFresh(env, s, es)
    ensures Inv(env, Run(env, s, es))
    decreases |es|
  {
    if es != [] {
      StepKeeps(env, s, es[0]);
      RunKeeps(env, Step(env, s, es[0]), es[1..]);
    }
  }

  /** A stored balance of an address that nothing is going on with is the one the crawled chain gives. */
  lemma QuietIsCurrent(env: Env, s: State, a: Address, k: Kind)
    requires Values(env, s) && (a, k) in s.stored
    requires a !in s.queue && !InFlight(s, a) && !(InProcess(s).Some? && a in Parse(env, InProcess(s).value))
      && CrawlerInv(env, s)
    ensures s.stored[(a, k)] == Balance(env, View(s), a, k)
  {
    assert k == Account || k == Utxo;
    assert !Waiting(env, s, a) && !BeingRead(s, a) && (a, k) !in Got(s);
    assert Current(env, s, a, k);
  }

  lemma ViewIsChain(env: Env, s: State)
    requires Inv(env, s)
    ensures IsChain(env.tree, View(s))
    ensures forall b :: InProcess(s) != Some(b) ==> (b in View(s) <==> b in s.crawled)
  {
  }

  lemma InvExplains(env: Env, s: State)
    requires Inv(env, s)
    ensures StalenessExplained(env, s)
  {
    forall a, k | (a, k) in s.stored && s.stored[(a, k)] != Balance(env, s.node, a, k) ensures Explained(env, s, a) {
      if a !in s.queue && !InFlight(s, a) && !(InProcess(s).Some? && a in Parse(env, InProcess(s).value)) {
        QuietIsCurrent(env, s, a, k);
        ViewIsChain(env, s);
        var b := HistoriesDiffer(env, View(s), s.node, a);
      }
    }
  }
}
