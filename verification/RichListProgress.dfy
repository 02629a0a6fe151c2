/** What a crawl and a recalculation come to in the step system while the node keeps its chain, in every interleaving of
    the two. */
module RichListProgress {
  import opened Wrappers
  import opened BlockTree
  import opened RichListProtocol
  import opened RichListSafety
  import opened RichListTheorems
  import opened RichList
  import BlockProvider

  // The crawl.

  /** The crawled chain once the block in process is added or taken off. */
  function Ahead(s: State): seq<Block> {
    if s.crawler.DeleteHash? && s.crawled != [] then s.crawled[..|s.crawled| - 1] else View(s)
  }

  /** The addresses of the block in process that are not queued yet. */
  function Awaited(env: Env, s: State): set<Address> {
    match s.crawler
    case PushAddress(_, todo) => todo
    case PutAddress(_, _, todo) => todo
    case DeleteHash(b) => Parse(env, b)
    case ListAddresses(b) => Parse(env, b)
    case RequeueAddress(_, todo) => todo
    case DeleteAddress(_, _, todo) => todo
    case _ => {}
  }

  /** The hash that was asked for is of the node's chain. */
  predicate OnPath(s: State) {
    s.crawler.GetNext? ==> |s.crawled| < |s.node| && s.crawler.next == s.node[|s.crawled|].hash
  }

  /** The node keeps its chain, and no other crawl is started. */
  predicate Undisturbed(es: seq<Event>) {
    forall i :: 0 <= i < |es| ==> !es[i].Reorg? && !es[i].StartCrawl?
  }

  ghost function ReceivedBy(env: Env, s: State, e: Event): set<Address> {
    if e.Receive? then s.queue - Step(env, s, e).queue else {}
  }

  /** What the recalculation takes from the queue in a run. */
  ghost function Received(env: Env, s: State, es: seq<Event>): set<Address>
    decreases |es|
  {
    if es == [] then {} else ReceivedBy(env, s, es[0]) + Received(env, Step(env, s, es[0]), es[1..])
  }

  /** The next block is looked at, and it is settled whether one is added or taken off. */
  lemma NextBlock(env: Env, s: State)
    requires Shape(env, s) && OnPath(s) && s.crawler.GetNext?
    ensures var t := CrawlStep(env, s); var c, node := s.crawled, s.node;
      && Ahead(s) == c && Ahead(t) == BlockProvider.Pass(c, node).0
      && t.queue + Awaited(env, t) == s.queue + Parse(env, Moved(c, node))
      && t.node == node && OnPath(t) && !t.crawler.Resting?
  {
    var b := s.node[|s.crawled|];
    assert Known(env.tree, b);
  }

  lemma CrawlOtherStep(env: Env, s: State)
    requires Shape(env, s) && OnPath(s) && !s.crawler.GetNext? && !s.crawler.DeleteHash? && !s.crawler.ListAddresses?
    ensures var t := CrawlStep(env, s);
      && Ahead(t) == Ahead(s) && t.node == s.node && OnPath(t) && t.queue == s.queue
      && Awaited(env, t) == Awaited(env, s)
      && (t.crawler.Resting? && !s.crawler.Resting? ==> |s.node| <= |s.crawled| && t.crawled == s.crawled)
  {
    if s.crawler.GetTip? || s.crawler.GetNextHash? {
      CrawlAsks(env, s);
    } else if s.crawler.PutAddress? || s.crawler.DeleteAddress? {
      CrawlRecords(env, s);
    }
  }

  lemma CrawlAsks(env: Env, s: State)
    requires Shape(env, s) && (s.crawler.GetTip? || s.crawler.GetNextHash?)
    ensures var t := CrawlStep(env, s);
      && t == s.(crawler := t.crawler) && Ahead(t) == Ahead(s) && OnPath(t) && Awaited(env, t) == Awaited(env, s)
      && (t.crawler.Resting? ==> |s.node| <= |s.crawled|)
  {
  }

  lemma CrawlRecords(env: Env, s: State)
    requires s.crawler.PutAddress? || s.crawler.DeleteAddress?
    ensures var t := CrawlStep(env, s);
      && t == s.(crawler := t.crawler, rows := t.rows) && Ahead(t) == Ahead(s) && OnPath(t)
      && Awaited(env, t) == Awaited(env, s) && !t.crawler.Resting?
  {
  }

  /** The block is off the chain at once; its addresses are those recorded at its height. */
  lemma CrawlOffStep(env: Env, s: State)
    requires Shape(env, s) && (s.crawler.DeleteHash? || s.crawler.ListAddresses?)
    ensures var t := CrawlStep(env, s);
      && Ahead(t) == Ahead(s) && t.node == s.node && OnPath(t) && t.queue == s.queue
      && Awaited(env, t) == Awaited(env, s) && !t.crawler.Resting?
  {
    assert RowsAt(s, s.crawler.b.height) == ExpectedRows(env, s, s.crawler.b.height);
  }

  lemma PushOtherStep(env: Env, s: State, a: Address)
    requires OnPath(s)
    ensures var t := PushStep(s, a);
      && Ahead(t) == Ahead(s) && t.node == s.node && OnPath(t) && (t.crawler.Resting? ==> s.crawler.Resting?)
      && t.queue + Awaited(env, t) == s.queue + Awaited(env, s)
  {
  }

  lemma CalculateOtherStep(env: Env, s: State, e: Event)
    requires !e.Reorg? && !e.StartCrawl? && !e.Crawl? && !e.CrawlAddress?
    ensures var t := Step(env, s, e);
      && t == s.(queue := t.queue, stored := t.stored, calculator := t.calculator)
      && t.queue + ReceivedBy(env, s, e) == s.queue
  {
  }

  /** Anything else changes neither what the block in process comes to nor what will be queued. */
  lemma OtherStep(env: Env, s: State, e: Event)
    requires Shape(env, s) && OnPath(s) && !e.Reorg? && !e.StartCrawl? && !(e.Crawl? && s.crawler.GetNext?)
    ensures var t := Step(env, s, e);
      && Ahead(t) == Ahead(s) && t.node == s.node && OnPath(t)
      && t.queue + Awaited(env, t) + ReceivedBy(env, s, e) == s.queue + Awaited(env, s)
      && (t.crawler.Resting? && !s.crawler.Resting? ==> |s.node| <= |s.crawled| && t.crawled == s.crawled)
  {
    if e.Crawl? {
      if s.crawler.DeleteHash? || s.crawler.ListAddresses? {
        CrawlOffStep(env, s);
      } else {
        CrawlOtherStep(env, s);
      }
    } else if e.CrawlAddress? {
      PushOtherStep(env, s, e.a);
    } else {
      CalculateOtherStep(env, s, e);
    }
  }

  /** A crawl that has ended leaves everything as it is. */
  lemma {:induction false} RestStays(env: Env, s: State, es: seq<Event>)
    requires s.crawler.Resting? && Undisturbed(es)
    ensures var t := Run(env, s, es);
      t.crawler.Resting? && t.crawled == s.crawled && t.queue + Received(env, s, es) == s.queue
    decreases |es|
  {
    if es != [] {
      assert Undisturbed(es[1..]);
      var s1 := Step(env, s, es[0]);
      RestStays(env, s1, es[1..]);
      assert s1.queue + ReceivedBy(env, s, es[0]) == s.queue;
    }
  }

  lemma PassThenEnd(env: Env, s: State, end: seq<Block>, q: set<Address>)
    requires Shape(env, s) && OnPath(s) && s.crawler.GetNext?
    requires var t := CrawlStep(env, s);
      end == BlockProvider.Settled(Ahead(t), s.node) && Requeued(env, Ahead(t), end, t.queue + Awaited(env, t), q)
    ensures end == BlockProvider.Settled(s.crawled, s.node) && Requeued(env, s.crawled, end, s.queue, q)
  {
    NextBlock(env, s);
    CrawlPass(env, s.crawled, s.node);
    RequeuedStep(env, s.crawled, Ahead(CrawlStep(env, s)), Moved(s.crawled, s.node), s.node, s.queue, q);
  }

  /** Any other step changes nothing of what the crawl ends with. */
  lemma OtherThenEnd(env: Env, s: State, e: Event, end: seq<Block>, q: set<Address>)
    requires Shape(env, s) && OnPath(s) && !e.Reorg? && !e.StartCrawl? && !(e.Crawl? && s.crawler.GetNext?)
    requires var t := Step(env, s, e);
      end == BlockProvider.Settled(Ahead(t), s.node) && Requeued(env, Ahead(t), end, t.queue + Awaited(env, t), q)
    ensures end == BlockProvider.Settled(Ahead(s), s.node)
    ensures Requeued(env, Ahead(s), end, s.queue + Awaited(env, s), ReceivedBy(env, s, e) + q)
  {
    OtherStep(env, s, e);
  }

  /** The crawl finds that the crawled chain is as long as the node's. */
  lemma RestsNow(env: Env, s: State, e: Event, es: seq<Event>)
    requires Shape(env, s) && OnPath(s) && !s.crawler.Resting? && !e.Reorg? && !e.StartCrawl?
    requires !(e.Crawl? && s.crawler.GetNext?) && Step(env, s, e).crawler.Resting? && Undisturbed(es)
    ensures var s1 := Step(env, s, e); var t := Run(env, s1, es);
      && t.crawled == BlockProvider.Settled(Ahead(s1), s.node)
      && Requeued(env, Ahead(s1), t.crawled, s1.queue + Awaited(env, s1), t.queue + Received(env, s1, es))
  {
    var s1 := Step(env, s, e);
    OtherStep(env, s, e);
    RestStays(env, s1, es);
  }

  /** Whatever is interleaved: when a crawl ends, the crawled chain is the node's, unless it was as long already, and
      the addresses queued in the meantime are exactly those of the blocks added or taken off. */
  lemma {:induction false} CrawlEnds(env: Env, s: State, es: seq<Event>)
    requires Shape(env, s) && OnPath(s) && !s.crawler.Resting? && Undisturbed(es)
    requires Run(env, s, es).crawler.Resting?
    ensures var t := Run(env, s, es);
      && t.crawled == BlockProvider.Settled(Ahead(s), s.node)
      && Requeued(env, Ahead(s), t.crawled, s.queue + Awaited(env, s), t.queue + Received(env, s, es))
    decreases |es|
  {
    var e, rest := es[0], es[1..];
    var s1, t := Step(env, s, e), Run(env, s, es);
    assert Undisturbed(rest) && t == Run(env, s1, rest);
    StepKeepsShape(env, s, e);
    if e.Crawl? && s.crawler.GetNext? {
      NextBlock(env, s);
      CrawlEnds(env, s1, rest);
      PassThenEnd(env, s, t.crawled, t.queue + Received(env, s1, rest));
      assert Received(env, s, es) == Received(env, s1, rest);
    } else {
      OtherStep(env, s, e);
      if s1.crawler.Resting? {
        RestsNow(env, s, e, rest);
      } else {
        CrawlEnds(env, s1, rest);
      }
      OtherThenEnd(env, s, e, t.crawled, t.queue + Received(env, s1, rest));
      assert ReceivedBy(env, s, e) + (t.queue + Received(env, s1, rest)) == t.queue + Received(env, s, es);
    }
  }

  /** What the crawler can do next. */
  predicate Crawls(s: State, e: Event) {
    if s.crawler.PushAddress? || s.crawler.RequeueAddress? then e.CrawlAddress? && e.a in s.crawler.todo
    else e.Crawl? && !s.crawler.Resting?
  }

  /** Steps up to the end of the pass, at most. */
  function StepsInPass(env: Env, s: State): nat {
    match s.crawler
    case Resting => 0
    case GetNext(_, _) => 1
    case GetNextHash(_) => 2
    case GetTip => 3
    case PutHash(_) => 4
    case PushAddress(_, todo) => 4 + 2 * |todo|
    case PutAddress(_, _, todo) => 5 + 2 * |todo|
    case RequeueAddress(_, todo) => 4 + 2 * |todo|
    case DeleteAddress(_, _, todo) => 5 + 2 * |todo|
    case ListAddresses(b) => 5 + 2 * |Parse(env, b)|
    case DeleteHash(b) => 6 + 2 * |Parse(env, b)|
  }

  /** Every step of the crawler is one closer to the end of its pass, or to the node's chain. */
  lemma CrawlGetsCloser(env: Env, s: State, e: Event)
    requires Shape(env, s) && OnPath(s) && Crawls(s, e)
    ensures var t := Step(env, s, e); var before, after :=
        BlockProvider.Distance(Ahead(s), s.node), BlockProvider.Distance(Ahead(t), s.node);
      after < before || (after == before && StepsInPass(env, t) < StepsInPass(env, s))
  {
    if e.Crawl? && s.crawler.GetNext? {
      NextBlock(env, s);
      CrawlPass(env, s.crawled, s.node);
    } else {
      OtherStep(env, s, e);
      StepInPass(env, s, e);
    }
  }

  lemma StepInPass(env: Env, s: State, e: Event)
    requires Shape(env, s) && Crawls(s, e) && !s.crawler.GetNext?
    ensures StepsInPass(env, Step(env, s, e)) < StepsInPass(env, s)
  {
    if e.CrawlAddress? {
      PushInPass(env, s, e.a);
    } else if s.crawler.ListAddresses? {
      ListInPass(env, s);
    } else {
      OtherInPass(env, s);
    }
  }

  lemma PushInPass(env: Env, s: State, a: Address)
    requires (s.crawler.PushAddress? || s.crawler.RequeueAddress?) && a in s.crawler.todo
    ensures StepsInPass(env, PushStep(s, a)) < StepsInPass(env, s)
  {
    assert |s.crawler.todo - {a}| == |s.crawler.todo| - 1;
  }

  lemma ListInPass(env: Env, s: State)
    requires Shape(env, s) && s.crawler.ListAddresses?
    ensures StepsInPass(env, CrawlStep(env, s)) < StepsInPass(env, s)
  {
    assert RowsAt(s, s.crawler.b.height) == ExpectedRows(env, s, s.crawler.b.height);
  }

  lemma OtherInPass(env: Env, s: State)
    requires !s.crawler.Resting? && !s.crawler.GetNext? && !s.crawler.ListAddresses?
    requires !s.crawler.PushAddress? && !s.crawler.RequeueAddress?
    ensures StepsInPass(env, CrawlStep(env, s)) < StepsInPass(env, s)
  {
  }

  lemma CanCrawl(env: Env, s: State) returns (e: Event)
    requires Shape(env, s) && !s.crawler.Resting?
    ensures Crawls(s, e)
  {
    e := Crawl;
    if s.crawler.PushAddress? || s.crawler.RequeueAddress? {
      var a :| a in s.crawler.todo;
      e := CrawlAddress(a);
    }
  }

  lemma FirstThen(env: Env, s: State, e: Event, rest: seq<Event>) returns (es: seq<Event>)
    ensures Run(env, s, es) == Run(env, Step(env, s, e), rest)
    ensures OnlyCrawls(rest) && (e.Crawl? || e.CrawlAddress?) ==> OnlyCrawls(es)
    ensures OnlyCalculates(rest) && OnlyCalculates([e]) ==> OnlyCalculates(es)
  {
    es := [e] + rest;
    assert es[1..] == rest;
    assert OnlyCalculates([e]) ==> [e][0] == e;
  }

  predicate OnlyCrawls(es: seq<Event>) {
    forall i :: 0 <= i < |es| ==> es[i].Crawl? || es[i].CrawlAddress?
  }

  /** So the crawl steps alone come to its end, from wherever it is. */
  lemma {:induction false} CrawlComesToRest(env: Env, s: State) returns (es: seq<Event>)
    requires Shape(env, s) && OnPath(s)
    ensures OnlyCrawls(es) && Run(env, s, es).crawler.Resting?
    decreases BlockProvider.Distance(Ahead(s), s.node), StepsInPass(env, s)
  {
    if s.crawler.Resting? {
      es := [];
    } else {
      var e := CanCrawl(env, s);
      CrawlGetsCloser(env, s, e);
      StepKeepsShape(env, s, e);
      StaysOnPath(env, s, e);
      var rest := CrawlComesToRest(env, Step(env, s, e));
      es := FirstThen(env, s, e, rest);
    }
  }

  lemma StaysOnPath(env: Env, s: State, e: Event)
    requires Shape(env, s) && OnPath(s) && Crawls(s, e)
    ensures OnPath(Step(env, s, e)) && Step(env, s, e).node == s.node
  {
    if e.Crawl? && s.crawler.GetNext? {
      NextBlock(env, s);
    } else {
      OtherStep(env, s, e);
    }
  }

  lemma {:induction false} CrawlsReceiveNothing(env: Env, s: State, es: seq<Event>)
    requires OnlyCrawls(es)
    ensures Received(env, s, es) == {}
    decreases |es|
  {
    if es != [] {
      assert OnlyCrawls(es[1..]);
      CrawlsReceiveNothing(env, Step(env, s, es[0]), es[1..]);
    }
  }

  /** A whole crawl by itself: it can come to its end, and however it does, it ends as a crawl of the program does. */
  lemma CrawlTheorem(env: Env, s: State) returns (es: seq<Event>)
    requires Shape(env, s) && s.crawler == GetTip
    ensures OnlyCrawls(es) && Run(env, s, es).crawler.Resting?
    ensures forall more :: OnlyCrawls(more) && Run(env, s, more).crawler.Resting? ==>
      var t := Run(env, s, more);
      && t.crawled == BlockProvider.Settled(s.crawled, s.node)
      && Requeued(env, s.crawled, t.crawled, s.queue, t.queue)
  {
    es := CrawlComesToRest(env, s);
    forall more | OnlyCrawls(more) && Run(env, s, more).crawler.Resting?
      ensures var t := Run(env, s, more);
        && t.crawled == BlockProvider.Settled(s.crawled, s.node)
        && Requeued(env, s.crawled, t.crawled, s.queue, t.queue)
    {
      CrawlEnds(env, s, more);
      CrawlsReceiveNothing(env, s, more);
      var t := Run(env, s, more);
      assert s.queue + Awaited(env, s) == s.queue && t.queue + {} == t.queue;
    }
  }

  // The recalculation.

  /** The last balance got or stored. */
  function Last(s: State, a: Address, k: Kind): Option<Amount> {
    if (a, k) in Got(s) then Some(Got(s)[(a, k)])
    else if (a, k) in s.stored then Some(s.stored[(a, k)])
    else None
  }

  /** An address received so far has the node's balance unless it is still being read, and no other has changed. */
  ghost predicate TracksOne(env: Env, stored: map<(Address, Kind), Amount>, received: set<Address>, s: State,
                            a: Address, k: Kind)
  {
    && (BeingRead(s, a) ==> a in received)
    && (a in received && !BeingRead(s, a) ==> Last(s, a, k) == Some(Balance(env, s.node, a, k)))
    && (a !in received ==> Last(s, a, k) == StoredAs(stored, a, k))
  }

  ghost predicate Tracks(env: Env, stored: map<(Address, Kind), Amount>, received: set<Address>, s: State) {
    && (forall a, k :: TracksOne(env, stored, received, s, a, k))
    && (s.calculator.ReadingUtxo? ==> s.calculator.account == Balance(env, s.node, s.calculator.a, Account))
  }

  function StoredAs(stored: map<(Address, Kind), Amount>, a: Address, k: Kind): Option<Amount> {
    if (a, k) in stored then Some(stored[(a, k)]) else None
  }

  lemma StaysTracked(env: Env, stored: map<(Address, Kind), Amount>, received: set<Address>, s: State, e: Event)
    requires Tracks(env, stored, received, s) && !e.Reorg?
    ensures Tracks(env, stored, received + ReceivedBy(env, s, e), Step(env, s, e))
  {
    if e.Crawl? || e.CrawlAddress? || e.StartCrawl? {
      CrawlTracks(env, stored, received, s, e);
    } else if e.Receive? {
      ReceiveTracks(env, stored, received, s, e.batch);
    } else if e.ReadUtxo? {
      ReadTracks(env, stored, received, s);
    } else if e.Store? {
      StoreTracks(env, stored, received, s, e.a, e.k);
    } else if e.ReadAccount? {
      ReadAccountTracks(env, stored, received, s, e.a);
    } else {
      StartTracks(env, stored, received, s);
    }
    assert !e.Receive? ==> received + ReceivedBy(env, s, e) == received;
  }

  lemma StartTracks(env: Env, stored: map<(Address, Kind), Amount>, received: set<Address>, s: State)
    requires Tracks(env, stored, received, s)
    ensures Tracks(env, stored, received, Step(env, s, StartCalculate))
  {
    var t := Step(env, s, StartCalculate);
    forall a, k ensures TracksOne(env, stored, received, t, a, k) {
      assert TracksOne(env, stored, received, s, a, k);
    }
  }

  lemma CrawlTracks(env: Env, stored: map<(Address, Kind), Amount>, received: set<Address>, s: State, e: Event)
    requires Tracks(env, stored, received, s) && (e.Crawl? || e.CrawlAddress? || e.StartCrawl?)
    ensures Tracks(env, stored, received, Step(env, s, e))
  {
    var t := Step(env, s, e);
    assert t.calculator == s.calculator && t.stored == s.stored && t.node == s.node;
    forall a, k ensures TracksOne(env, stored, received, t, a, k) {
      assert TracksOne(env, stored, received, s, a, k);
    }
  }

  lemma ReceiveTracks(env: Env, stored: map<(Address, Kind), Amount>, received: set<Address>, s: State,
                      batch: set<Address>)
    requires Tracks(env, stored, received, s)
    ensures Tracks(env, stored, received + ReceivedBy(env, s, Receive(batch)), Step(env, s, Receive(batch)))
  {
    var t, all := Step(env, s, Receive(batch)), received + ReceivedBy(env, s, Receive(batch));
    forall a, k ensures TracksOne(env, stored, all, t, a, k) {
      assert TracksOne(env, stored, received, s, a, k);
    }
  }

  lemma ReadTracks(env: Env, stored: map<(Address, Kind), Amount>, received: set<Address>, s: State)
    requires Tracks(env, stored, received, s)
    ensures Tracks(env, stored, received, Step(env, s, ReadUtxo))
  {
    var t := Step(env, s, ReadUtxo);
    forall a, k ensures TracksOne(env, stored, received, t, a, k) {
      assert TracksOne(env, stored, received, s, a, k);
      assert k == Account || k == Utxo;
    }
  }

  lemma ReadAccountTracks(env: Env, stored: map<(Address, Kind), Amount>, received: set<Address>, s: State, a: Address)
    requires Tracks(env, stored, received, s)
    ensures Tracks(env, stored, received, Step(env, s, ReadAccount(a)))
  {
    var t := Step(env, s, ReadAccount(a));
    forall x, k ensures TracksOne(env, stored, received, t, x, k) {
      assert TracksOne(env, stored, received, s, x, k);
    }
  }

  lemma StoreTracks(env: Env, stored: map<(Address, Kind), Amount>, received: set<Address>, s: State, a: Address,
                    k: Kind)
    requires Tracks(env, stored, received, s)
    ensures Tracks(env, stored, received, Step(env, s, Store(a, k)))
  {
    var t := Step(env, s, Store(a, k));
    forall x, l ensures TracksOne(env, stored, received, t, x, l) {
      assert TracksOne(env, stored, received, s, x, l);
    }
  }

  predicate KeepsNode(es: seq<Event>) {
    forall i :: 0 <= i < |es| ==> !es[i].Reorg?
  }

  lemma {:induction false} RunTracks(env: Env, stored: map<(Address, Kind), Amount>, received: set<Address>, s: State,
                                     es: seq<Event>)
    requires Tracks(env, stored, received, s) && KeepsNode(es)
    ensures Tracks(env, stored, received + Received(env, s, es), Run(env, s, es)) && Run(env, s, es).node == s.node
    decreases |es|
  {
    if es == [] {
      assert received + {} == received;
    } else {
      assert KeepsNode(es[1..]);
      var s1 := Step(env, s, es[0]);
      StaysTracked(env, stored, received, s, es[0]);
      NodeStays(env, s, es[0]);
      RunTracks(env, stored, received + ReceivedBy(env, s, es[0]), s1, es[1..]);
      assert received + ReceivedBy(env, s, es[0]) + Received(env, s1, es[1..]) == received + Received(env, s, es);
    }
  }

  lemma NodeStays(env: Env, s: State, e: Event)
    requires !e.Reorg?
    ensures Step(env, s, e).node == s.node
  {
  }

  /** Whatever is interleaved: when a recalculation has nothing left in hand, both balances of every address it received
      are the node's, and nothing else that is stored has changed. */
  lemma CalculationEnds(env: Env, s: State, es: seq<Event>)
    requires (s.calculator.Idle? || s.calculator.Receiving?) && KeepsNode(es)
    requires Run(env, s, es).calculator.Idle? || Run(env, s, es).calculator.Receiving?
    ensures var t := Run(env, s, es);
      forall a, k :: StoredAs(t.stored, a, k)
                  == if a in Received(env, s, es) then Some(Balance(env, s.node, a, k)) else StoredAs(s.stored, a, k)
  {
    forall a, k ensures TracksOne(env, s.stored, {}, s, a, k) {
    }
    RunTracks(env, s.stored, {}, s, es);
    var t, received := Run(env, s, es), Received(env, s, es);
    assert {} + received == received;
    forall a, k ensures TracksOne(env, s.stored, received, t, a, k) && Last(t, a, k) == StoredAs(t.stored, a, k) {
    }
  }

  /** What the recalculation can do next. */
  predicate Calculates(s: State, e: Event) {
    match s.calculator
    case Idle => false
    case Receiving => e.Receive? && e.batch <= s.queue && (e.batch == {} ==> s.queue == {})
    case Reading(todo, _) => e.ReadAccount? && e.a in todo
    case ReadingUtxo(_, _, _, _) => e.ReadUtxo?
    case Storing(got) => e.Store? && (e.a, e.k) in got
  }

  /** Steps until nothing is queued or in hand, at most. */
  function StepsToCalculate(s: State): nat {
    6 * |s.queue| +
    match s.calculator
    case Idle => 0
    case Receiving => 1
    case Reading(todo, got) => 1 + 5 * |todo| + |got|
    case ReadingUtxo(_, _, todo, got) => 5 + 5 * |todo| + |got|
    case Storing(got) => 1 + |got|
  }

  lemma CalculationGetsCloser(env: Env, s: State, e: Event)
    requires Calculates(s, e)
    ensures StepsToCalculate(Step(env, s, e)) < StepsToCalculate(s)
  {
    if e.Receive? {
      assert s.queue == (s.queue - e.batch) + e.batch;
      assert |s.queue| == |s.queue - e.batch| + |e.batch|;
    } else if e.ReadAccount? {
      assert |s.calculator.todo - {e.a}| == |s.calculator.todo| - 1;
    } else if e.ReadUtxo? {
      GotGrows(s.calculator.got, (s.calculator.a, Account), s.calculator.account, (s.calculator.a, Utxo),
               Balance(env, s.node, s.calculator.a, Utxo));
    } else {
      StoreGetsCloser(env, s, e.a, e.k);
    }
  }

  lemma StoreGetsCloser(env: Env, s: State, a: Address, k: Kind)
    requires s.calculator.Storing? && (a, k) in s.calculator.got
    ensures StepsToCalculate(Step(env, s, Store(a, k))) < StepsToCalculate(s)
  {
    var got := s.calculator.got;
    assert (got - {(a, k)}).Keys == got.Keys - {(a, k)};
  }

  predicate OnlyCalculates(es: seq<Event>) {
    forall i :: 0 <= i < |es| ==> !es[i].Reorg? && !es[i].StartCrawl? && !es[i].Crawl? && !es[i].CrawlAddress?
                                  && !es[i].StartCalculate?
  }

  /** By itself it ends only when nothing is queued any more, and so it has received all that was. */
  lemma {:induction false} IdleWhenEmpty(env: Env, s: State, es: seq<Event>)
    requires OnlyCalculates(es) && (s.calculator.Idle? ==> s.queue == {})
    ensures var t := Run(env, s, es);
      t.queue + Received(env, s, es) == s.queue && (t.calculator.Idle? ==> t.queue == {})
    decreases |es|
  {
    if es != [] {
      assert OnlyCalculates(es[1..]);
      CalculateOtherStep(env, s, es[0]);
      IdleWhenEmpty(env, Step(env, s, es[0]), es[1..]);
    }
  }

  /** A whole recalculation by itself: every queued address gets the node's balances and no longer is, and nothing else
      has changed, as in the program. */
  lemma CalculationTheorem(env: Env, s: State, es: seq<Event>)
    requires s.calculator == Receiving && OnlyCalculates(es) && Run(env, s, es).calculator.Idle?
    ensures var t := Run(env, s, es); t.queue == {} && Refreshed(env, s.node, s.queue, s.stored, {}, t.stored)
  {
    IdleWhenEmpty(env, s, es);
    CalculationEnds(env, s, es);
    var t := Run(env, s, es);
    assert {} + Received(env, s, es) == Received(env, s, es) == s.queue;
    forall a, k ensures StoredAs(t.stored, a, k)
                     == if a in s.queue then Some(Balance(env, s.node, a, k)) else StoredAs(s.stored, a, k)
    {
    }
    AsRefreshed(env, s, t);
  }

  lemma AsRefreshed(env: Env, s: State, t: State)
    requires forall a, k :: StoredAs(t.stored, a, k)
                         == if a in s.queue then Some(Balance(env, s.node, a, k)) else StoredAs(s.stored, a, k)
    ensures Refreshed(env, s.node, s.queue, s.stored, {}, t.stored)
  {
    forall a, k | a in s.queue ensures (a, k) in t.stored && t.stored[(a, k)] == Balance(env, s.node, a, k) {
      assert StoredAs(t.stored, a, k) == Some(Balance(env, s.node, a, k));
    }
    forall a, k | a !in s.queue
      ensures ((a, k) in t.stored <==> (a, k) in s.stored)
           && ((a, k) in t.stored ==> t.stored[(a, k)] == s.stored[(a, k)])
    {
      assert StoredAs(t.stored, a, k) == StoredAs(s.stored, a, k);
    }
  }

  /** And it comes to that end. */
  lemma {:induction false} CalculationComesToRest(env: Env, s: State) returns (es: seq<Event>)
    requires CalculatorInv(s) && (s.calculator.Storing? ==> s.calculator.got != map[])
    ensures OnlyCalculates(es) && Run(env, s, es).calculator.Idle?
    decreases StepsToCalculate(s)
  {
    if s.calculator.Idle? {
      es := [];
    } else {
      var e := CanCalculate(s);
      CalculationGetsCloser(env, s, e);
      CalculationKeeps(env, s, e);
      var rest := CalculationComesToRest(env, Step(env, s, e));
      es := FirstThen(env, s, e, rest);
    }
  }

  lemma CalculationKeeps(env: Env, s: State, e: Event)
    requires CalculatorInv(s) && Calculates(s, e)
    ensures var t := Step(env, s, e); CalculatorInv(t) && (t.calculator.Storing? ==> t.calculator.got != map[])
  {
    if e.ReadUtxo? {
      assert (s.calculator.a, Utxo) in
        s.calculator.got[(s.calculator.a, Account) := s.calculator.account]
                        [(s.calculator.a, Utxo) := Balance(env, s.node, s.calculator.a, Utxo)];
    }
  }

  lemma CanCalculate(s: State) returns (e: Event)
    requires CalculatorInv(s) && !s.calculator.Idle? && (s.calculator.Storing? ==> s.calculator.got != map[])
    ensures Calculates(s, e) && OnlyCalculates([e])
  {
    match s.calculator
    case Receiving => e := Receive(s.queue);
    case Reading(todo, _) =>
      var a :| a in todo;
      e := ReadAccount(a);
    case ReadingUtxo(_, _, _, _) => e := ReadUtxo;
    case Storing(got) =>
      var p :| p in got;
      assert p == (p.0, p.1);
      e := Store(p.0, p.1);
  }
}
