/** The main results about runs of the rich list: staleness is explained as long as balances are read fresh, and the
    exact moments at which that may not be dropped. */
module RichListTheorems {
  import opened Wrappers
  import opened BlockTree
  import opened RichListProtocol
  import opened RichListSafety

  /** The staleness theorem: in every interleaving of reorganisations, crawl steps and recalculation steps in which
      balances are read fresh, a stored balance that differs from the node's is explained. */
  lemma StalenessTheorem(env: Env, node: seq<Block>, es: seq<Event>)
    requires ValidWorld(env.tree) && IsChain(env.tree, node) && |node| > 0
    requires RunReadsFresh(env, Initial(node), es)
    ensures StalenessExplained(env, Run(env, Initial(node), es))
  {
    assert Inv(env, Initial(node));
    RunKeeps(env, Initial(node), es);
    InvExplains(env, Run(env, Initial(node), es));
  }

  /** Differences stay explained, whatever comes, as long as balances are read fresh from here on. */
  ghost predicate AlwaysExplained(env: Env, s: State) {
    forall es :: RunReadsFresh(env, s, es) ==> StalenessExplained(env, Run(env, s, es))
  }

  lemma StaysAlwaysExplained(env: Env, s: State, e: Event)
    requires AlwaysExplained(env, s) && ReadsFresh(env, s, e)
    ensures AlwaysExplained(env, Step(env, s, e))
  {
    forall es | RunReadsFresh(env, Step(env, s, e), es) ensures StalenessExplained(env, Run(env, Step(env, s, e), es)) {
      assert ([e] + es)[1..] == es;
      assert RunReadsFresh(env, s, [e] + es);
    }
  }

  /** The same without balances. */
  function Bare(s: State): State {
    s.(stored := map[], calculator := Idle)
  }

  lemma BareHasInv(env: Env, s: State)
    requires Shape(env, s)
    ensures Inv(env, Bare(s))
  {
    RowsKept(env, s, Bare(s));
  }

  lemma WithBalances(env: Env, s: State, t: State)
    requires Shape(env, t) && t == Bare(s) && CalculatorInv(s)
    requires View(s) == [] ==> s.stored == map[] && (s.calculator.Idle? || s.calculator.Receiving?)
    ensures Shape(env, s)
  {
    RowsKept(env, t, s);
  }

  lemma StepIsBlind(env: Env, s: State)
    ensures Bare(CrawlStep(env, s)) == CrawlStep(env, Bare(s))
    ensures CrawlStep(env, s).stored == s.stored && CrawlStep(env, s).calculator == s.calculator
  {
    if s.crawler.PutAddress? || s.crawler.DeleteAddress? || s.crawler.ListAddresses? {
      RowStepIsBlind(env, s);
    } else if s.crawler.GetNext? {
      NextIsBlind(env, s);
    } else {
      OtherStepIsBlind(env, s);
    }
  }

  lemma RowStepIsBlind(env: Env, s: State)
    requires s.crawler.PutAddress? || s.crawler.DeleteAddress? || s.crawler.ListAddresses?
    ensures Bare(CrawlStep(env, s)) == CrawlStep(env, Bare(s))
    ensures CrawlStep(env, s).stored == s.stored && CrawlStep(env, s).calculator == s.calculator
  {
  }

  lemma NextIsBlind(env: Env, s: State)
    requires s.crawler.GetNext?
    ensures Bare(CrawlStep(env, s)) == CrawlStep(env, Bare(s))
    ensures CrawlStep(env, s).stored == s.stored && CrawlStep(env, s).calculator == s.calculator
  {
  }

  lemma OtherStepIsBlind(env: Env, s: State)
    requires !s.crawler.PutAddress? && !s.crawler.DeleteAddress? && !s.crawler.ListAddresses? && !s.crawler.GetNext?
    ensures Bare(CrawlStep(env, s)) == CrawlStep(env, Bare(s))
    ensures CrawlStep(env, s).stored == s.stored && CrawlStep(env, s).calculator == s.calculator
  {
  }

  lemma PushIsBlind(s: State, a: Address)
    ensures Bare(PushStep(s, a)) == PushStep(Bare(s), a)
    ensures PushStep(s, a).stored == s.stored && PushStep(s, a).calculator == s.calculator
  {
  }

  lemma CrawlIsBlind(env: Env, s: State, e: Event)
    requires e.Crawl? || e.CrawlAddress?
    ensures Bare(Step(env, s, e)) == Step(env, Bare(s), e)
    ensures Step(env, s, e).stored == s.stored && Step(env, s, e).calculator == s.calculator
  {
    if e.Crawl? {
      StepIsBlind(env, s);
    } else {
      PushIsBlind(s, e.a);
    }
  }

  lemma ViewStays(env: Env, s: State, e: Event)
    requires Shape(env, s) && (e.Crawl? || e.CrawlAddress?)
    ensures View(Step(env, s, e)) == [] ==> View(s) == []
  {
  }

  /** The crawler does not look at balances. */
  lemma CrawlKeepsShape(env: Env, s: State, e: Event)
    requires Shape(env, s) && (e.Crawl? || e.CrawlAddress?)
    ensures Shape(env, Step(env, s, e))
  {
    BareHasInv(env, s);
    StepKeeps(env, Bare(s), e);
    CrawlIsBlind(env, s, e);
    ViewStays(env, s, e);
    WithBalances(env, Step(env, s, e), Step(env, Bare(s), e));
  }

  lemma StepKeepsShape(env: Env, s: State, e: Event)
    requires Shape(env, s)
    ensures Shape(env, Step(env, s, e))
  {
    if e.Crawl? || e.CrawlAddress? {
      CrawlKeepsShape(env, s, e);
    } else if e.Reorg? || e.StartCrawl? {
      OthersKeepShape(env, s, e);
    } else {
      CalculateShape(env, s, Step(env, s, e));
    }
  }

  lemma OthersKeepShape(env: Env, s: State, e: Event)
    requires Shape(env, s) && (e.Reorg? || e.StartCrawl?)
    ensures Shape(env, Step(env, s, e))
  {
    RowsKept(env, s, Step(env, s, e));
  }

  /** The last balance read is wrong and will not be read again. */
  ghost predicate Wrong(env: Env, s: State, a: Address, k: Kind) {
    a !in s.queue && !Waiting(env, s, a) && !BeingRead(s, a) && !Current(env, s, a, k)
  }

  /** Steps that the crawler needs at most to be done with the block in process. */
  function CrawlsLeft(s: State): nat {
    match s.crawler
    case PushAddress(_, todo) => 2 * |todo| + 1
    case PutAddress(_, _, todo) => 2 * |todo| + 2
    case PutHash(_) => 1
    case RequeueAddress(_, todo) => 2 * |todo| + 1
    case DeleteAddress(_, _, todo) => 2 * |todo| + 2
    case _ => 0
  }

  /** Steps until everything received is stored, at most. */
  function StoresLeft(s: State): nat {
    match s.calculator
    case Reading(todo, got) => 10 * |todo| + |got|
    case ReadingUtxo(_, _, todo, got) => 10 * |todo| + |got| + 5
    case Storing(got) => |got|
    case _ => 0
  }

  lemma StaysWrong(env: Env, s: State, t: State, a: Address, k: Kind)
    requires Wrong(env, s, a, k) && a !in t.queue && !Waiting(env, t, a) && View(t) == View(s)
    requires t.calculator == s.calculator && t.stored == s.stored
    ensures Wrong(env, t, a, k)
  {
  }

  /** The crawler goes on with its block, and nothing wrong is put right. */
  lemma CrawlLeavesWrong(env: Env, s: State, a: Address, k: Kind) returns (e: Event)
    requires Shape(env, s) && Wrong(env, s, a, k) && CrawlsLeft(s) > 0
    ensures (e.Crawl? || e.CrawlAddress?) && Wrong(env, Step(env, s, e), a, k)
    ensures var t := Step(env, s, e); View(t) == View(s) && t.node == s.node && CrawlsLeft(t) < CrawlsLeft(s)
  {
    e := Crawl;
    if s.crawler.PushAddress? || s.crawler.RequeueAddress? {
      var x :| x in s.crawler.todo;
      e := CrawlAddress(x);
    }
    CrawlGoesOn(env, s, e, a);
    CrawlIsBlind(env, s, e);
    StaysWrong(env, s, Step(env, s, e), a, k);
  }

  lemma CrawlGoesOn(env: Env, s: State, e: Event, a: Address)
    requires Shape(env, s) && CrawlsLeft(s) > 0 && a !in s.queue && !Waiting(env, s, a)
    requires if s.crawler.PushAddress? || s.crawler.RequeueAddress? then e.CrawlAddress? && e.a in s.crawler.todo
      else e.Crawl?
    ensures var t := Step(env, s, e);
      && View(t) == View(s) && t.node == s.node && CrawlsLeft(t) < CrawlsLeft(s)
      && a !in t.queue && !Waiting(env, t, a)
  {
    if e.CrawlAddress? {
      PushGoesOn(env, s, e.a, a);
    } else if s.crawler.PutHash? {
    } else {
      RowGoesOn(env, s, a);
    }
  }

  lemma PushGoesOn(env: Env, s: State, x: Address, a: Address)
    requires (s.crawler.PushAddress? || s.crawler.RequeueAddress?) && x in s.crawler.todo
    requires a !in s.queue && !Waiting(env, s, a)
    ensures var t := PushStep(s, x);
      && View(t) == View(s) && t.node == s.node && CrawlsLeft(t) < CrawlsLeft(s)
      && a !in t.queue && !Waiting(env, t, a)
  {
  }

  lemma RowGoesOn(env: Env, s: State, a: Address)
    requires s.crawler.PutAddress? || s.crawler.DeleteAddress?
    requires a !in s.queue && !Waiting(env, s, a)
    ensures var t := CrawlStep(env, s);
      && View(t) == View(s) && t.node == s.node && CrawlsLeft(t) < CrawlsLeft(s)
      && a !in t.queue && !Waiting(env, t, a)
  {
  }

  /** So does the calculator, at a node that has the crawled chain. */
  lemma CalculateLeavesWrong(env: Env, s: State, a: Address, k: Kind) returns (e: Event)
    requires Shape(env, s) && Wrong(env, s, a, k) && StoresLeft(s) > 0 && s.node == View(s)
    ensures (e.ReadAccount? || e.ReadUtxo? || e.Store?) && ReadsFresh(env, s, e) && Wrong(env, Step(env, s, e), a, k)
    ensures var t := Step(env, s, e);
      t == s.(stored := t.stored, calculator := t.calculator) && StoresLeft(t) < StoresLeft(s)
  {
    if s.calculator.Reading? {
      var x :| x in s.calculator.todo;
      e := ReadAccount(x);
      ReadAccountLeavesWrong(env, s, a, k, x);
    } else if s.calculator.ReadingUtxo? {
      e := ReadUtxo;
      ReadUtxoLeavesWrong(env, s, a, k);
    } else {
      var p :| p in s.calculator.got;
      e := Store(p.0, p.1);
      StoreLeavesWrong(env, s, a, k, p);
    }
  }

  lemma GotGrows<K, V>(m: map<K, V>, k: K, v: V, l: K, w: V)
    ensures |m[k := v][l := w]| <= |m| + 2
  {
  }

  lemma ReadAccountLeavesWrong(env: Env, s: State, a: Address, k: Kind, x: Address)
    requires Wrong(env, s, a, k) && s.calculator.Reading? && x in s.calculator.todo
    ensures var t := Step(env, s, ReadAccount(x));
      Wrong(env, t, a, k) && t == s.(calculator := t.calculator) && StoresLeft(t) < StoresLeft(s)
  {
    assert |s.calculator.todo - {x}| == |s.calculator.todo| - 1;
  }

  lemma ReadUtxoLeavesWrong(env: Env, s: State, a: Address, k: Kind)
    requires Wrong(env, s, a, k) && s.calculator.ReadingUtxo?
    ensures var t := Step(env, s, ReadUtxo);
      Wrong(env, t, a, k) && t == s.(calculator := t.calculator) && StoresLeft(t) < StoresLeft(s)
  {
    GotGrows(s.calculator.got, (s.calculator.a, Account), s.calculator.account, (s.calculator.a, Utxo),
             Balance(env, s.node, s.calculator.a, Utxo));
  }

  lemma StoreLeavesWrong(env: Env, s: State, a: Address, k: Kind, p: (Address, Kind))
    requires Wrong(env, s, a, k) && s.calculator.Storing? && p in s.calculator.got
    ensures var t := Step(env, s, Store(p.0, p.1));
      Wrong(env, t, a, k) && t == s.(stored := t.stored, calculator := t.calculator) && StoresLeft(t) < StoresLeft(s)
  {
    assert p == (p.0, p.1);
    var left := s.calculator.got - {p};
    assert left.Keys == s.calculator.got.Keys - {p};
  }

  /** In the end it is stored, and nothing explains it. */
  lemma WrongIsUnexplained(env: Env, s: State, a: Address, k: Kind)
    requires Shape(env, s) && Wrong(env, s, a, k) && s.node == View(s) && CrawlsLeft(s) == 0 && StoresLeft(s) == 0
    ensures !StalenessExplained(env, s)
  {
    NothingInFlight(s, a);
    NothingInProcess(env, s, a);
    StoredUnexplained(env, s, a, k);
  }

  lemma NothingInFlight(s: State, a: Address)
    requires CalculatorInv(s) && StoresLeft(s) == 0
    ensures Got(s) == map[] && !InFlight(s, a)
  {
  }

  lemma NothingInProcess(env: Env, s: State, a: Address)
    requires Shape(env, s) && CrawlsLeft(s) == 0 && !Waiting(env, s, a)
    ensures View(s) == s.crawled && (InProcess(s).Some? ==> a !in Parse(env, InProcess(s).value))
  {
  }

  lemma StoredUnexplained(env: Env, t: State, a: Address, k: Kind)
    requires t.node == t.crawled && a !in t.queue && !InFlight(t, a)
    requires InProcess(t).Some? ==> a !in Parse(env, InProcess(t).value)
    requires (a, k) in t.stored && t.stored[(a, k)] != Balance(env, t.node, a, k)
    ensures !StalenessExplained(env, t)
  {
    assert !Explained(env, t, a);
  }

  lemma {:induction false} WrongIsNotAlwaysExplained(env: Env, s: State, a: Address, k: Kind)
    requires Shape(env, s) && Wrong(env, s, a, k) && s.node == View(s)
    ensures !AlwaysExplained(env, s)
    decreases CrawlsLeft(s), StoresLeft(s)
  {
    if AlwaysExplained(env, s) {
      var e: Event;
      if CrawlsLeft(s) > 0 {
        e := CrawlLeavesWrong(env, s, a, k);
      } else if StoresLeft(s) > 0 {
        e := CalculateLeavesWrong(env, s, a, k);
      } else {
        assert RunReadsFresh(env, s, []) && Run(env, s, []) == s;
        WrongIsUnexplained(env, s, a, k);
        return;
      }
      StepKeepsShape(env, s, e);
      StaysAlwaysExplained(env, s, e);
      WrongIsNotAlwaysExplained(env, Step(env, s, e), a, k);
    }
  }

  lemma ViewIsAChain(env: Env, s: State)
    requires Shape(env, s)
    ensures IsChain(env.tree, View(s))
  {
  }

  /** What is wrong when `Values` does not hold: a last balance, or the one that has just been read. */
  lemma SomethingIsWrong(env: Env, s: State) returns (a: Address, k: Kind)
    requires !Values(env, s)
    ensures Wrong(env, s, a, k)
         || (s.calculator.ReadingUtxo? && a == s.calculator.a && a !in s.queue && !Waiting(env, s, a)
             && s.calculator.account != Balance(env, View(s), a, Account))
  {
    if x, l :| Wrong(env, s, x, l) {
      a, k := x, l;
    } else {
      forall x, l ensures x in s.queue || Waiting(env, s, x) || BeingRead(s, x) || Current(env, s, x, l) {
        assert !Wrong(env, s, x, l);
      }
      a, k := s.calculator.a, Account;
    }
  }

  /** Differences stay explained for ever exactly when every balance that is not going to be read again is the one that
      the crawled chain gives. */
  lemma AlwaysExplainedIff(env: Env, s: State)
    requires Shape(env, s)
    ensures AlwaysExplained(env, s) <==> Values(env, s)
  {
    if Values(env, s) {
      forall es | RunReadsFresh(env, s, es) ensures StalenessExplained(env, Run(env, s, es)) {
        RunKeeps(env, s, es);
        InvExplains(env, Run(env, s, es));
      }
    } else if AlwaysExplained(env, s) {
      NotAlwaysExplained(env, s);
    }
  }

  /** The node turns to the crawled chain, and from then on every read is fresh. */
  lemma NotAlwaysExplained(env: Env, s: State)
    requires Shape(env, s) && !Values(env, s)
    ensures !AlwaysExplained(env, s)
  {
    if AlwaysExplained(env, s) {
      ViewIsAChain(env, s);
      var a, k := SomethingIsWrong(env, s);
      var e := Reorg(View(s));
      var t := Step(env, s, e);
      assert t == s.(node := View(s));
      StepKeepsShape(env, s, e);
      StaysAlwaysExplained(env, s, e);
      if Wrong(env, s, a, k) {
        WrongIsNotAlwaysExplained(env, t, a, k);
      } else {
        StepKeepsShape(env, t, ReadUtxo);
        StaysAlwaysExplained(env, t, ReadUtxo);
        AccountIsWrong(env, t);
        WrongIsNotAlwaysExplained(env, Step(env, t, ReadUtxo), a, Account);
      }
    }
  }

  lemma AccountIsWrong(env: Env, s: State)
    requires Shape(env, s) && s.calculator.ReadingUtxo?
    requires var a := s.calculator.a;
      a !in s.queue && !Waiting(env, s, a) && s.calculator.account != Balance(env, View(s), a, Account)
    ensures var t := Step(env, s, ReadUtxo);
      Wrong(env, t, s.calculator.a, Account) && t.node == s.node && View(t) == View(s)
  {
  }

  /** A step that reads a balance. */
  predicate Reads(s: State, e: Event) {
    (e.ReadAccount? && s.calculator.Reading? && e.a in s.calculator.todo) || (e.ReadUtxo? && s.calculator.ReadingUtxo?)
  }

  /** Fresh reads cannot be dropped: after a read, differences stay explained for ever exactly when it was fresh, that
      is, when the address is queued or will be, or the balance is the one the crawled chain gives. */
  lemma ReadIsFreshIff(env: Env, s: State, e: Event)
    requires Inv(env, s) && Reads(s, e)
    ensures AlwaysExplained(env, Step(env, s, e)) <==> ReadsFresh(env, s, e)
  {
    var t := Step(env, s, e);
    StepKeepsShape(env, s, e);
    AlwaysExplainedIff(env, t);
    if ReadsFresh(env, s, e) {
      StepKeeps(env, s, e);
    } else if e.ReadUtxo? {
      assert Wrong(env, t, s.calculator.a, Utxo);
    }
  }

  // A run that goes wrong.

  lemma {:induction false} RunAppend(env: Env, s: State, a: seq<Event>, b: seq<Event>)
    ensures Run(env, s, a + b) == Run(env, Run(env, s, a), b)
    ensures RunReadsFresh(env, s, a + b) <==> RunReadsFresh(env, s, a) && RunReadsFresh(env, Run(env, s, a), b)
    decreases |a|
  {
    if a == [] {
      assert a + b == b;
    } else {
      assert (a + b)[1..] == a[1..] + b;
      RunAppend(env, Step(env, s, a[0]), a[1..], b);
    }
  }

  /** A run goes on by a step. */
  lemma OneMore(env: Env, s: State, es: seq<Event>, e: Event) returns (es': seq<Event>)
    ensures Run(env, s, es') == Step(env, Run(env, s, es), e)
    ensures RunReadsFresh(env, s, es') <==> RunReadsFresh(env, s, es) && ReadsFresh(env, Run(env, s, es), e)
  {
    es' := es + [e];
    var t := Run(env, s, es);
    RunAppend(env, s, es, [e]);
    assert [e][1..] == [];
    assert Run(env, Step(env, t, e), []) == Step(env, t, e);
    assert RunReadsFresh(env, Step(env, t, e), []);
  }

  /** The node is one block ahead of the crawler when the address is read, and drops that block before the crawler sees
      it: node and crawler agree again, nothing is queued or received, and a wrong balance is stored. */
  lemma StaleRun(env: Env, s: State, c: seq<Block>, x: Block, a: Address) returns (es: seq<Event>)
    requires Shape(env, s) && IsChain(env.tree, c) && Known(env.tree, x) && Extends(c, x) && a in Parse(env, x)
    requires s.node == c && s.crawled == c && s.crawler == Resting && s.calculator == Reading({a}, map[])
      && a !in s.queue
    requires Balance(env, c + [x], a, Account) != Balance(env, c, a, Account)
    ensures var t := Run(env, s, es);
      && t.node == t.crawled == c && t.crawler == Resting && a !in t.queue && !InFlight(t, a)
      && (a, Account) in t.stored && t.stored[(a, Account)] == Balance(env, c + [x], a, Account)
        && !StalenessExplained(env, t)
  {
    assert IsChain(env.tree, c + [x]);
    es := OneMore(env, s, [], Reorg(c + [x]));
    var s1 := s.(node := c + [x]);
    assert Run(env, s, es) == s1;
    es := OneMore(env, s, es, ReadAccount(a));
    var account, utxo := Balance(env, c + [x], a, Account), Balance(env, c + [x], a, Utxo);
    var s2 := s1.(calculator := ReadingUtxo(a, account, {}, map[]));
    assert {a} - {a} == {} && Run(env, s, es) == s2;
    es := OneMore(env, s, es, ReadUtxo);
    var got := map[(a, Account) := account, (a, Utxo) := utxo];
    var s3 := s2.(calculator := Storing(got));
    assert Run(env, s, es) == s3;
    es := StoresBoth(env, s, es, s3, a, account, utxo);
    es := OneMore(env, s, es, Reorg(c));
    var t := s.(stored := s3.stored[(a, Account) := account][(a, Utxo) := utxo], calculator := Receiving);
    assert Run(env, s, es) == t;
    StoredUnexplained(env, t, a, Account);
  }

  lemma StoresBoth(env: Env, s: State, es: seq<Event>, s3: State, a: Address, account: Amount, utxo: Amount)
    returns (es': seq<Event>)
    requires Run(env, s, es) == s3 && s3.calculator == Storing(map[(a, Account) := account, (a, Utxo) := utxo])
    ensures Run(env, s, es')
         == s3.(stored := s3.stored[(a, Account) := account][(a, Utxo) := utxo], calculator := Receiving)
  {
    es' := OneMore(env, s, es, Store(a, Account));
    var s4 := s3.(stored := s3.stored[(a, Account) := account], calculator := Storing(map[(a, Utxo) := utxo]));
    StoresAccount(env, s3, a, account, utxo);
    es' := OneMore(env, s, es', Store(a, Utxo));
    StoresUtxo(env, s4, a, utxo);
  }

  lemma StoresAccount(env: Env, s: State, a: Address, account: Amount, utxo: Amount)
    requires s.calculator == Storing(map[(a, Account) := account, (a, Utxo) := utxo])
    ensures Step(env, s, Store(a, Account))
         == s.(stored := s.stored[(a, Account) := account], calculator := Storing(map[(a, Utxo) := utxo]))
  {
    var left := s.calculator.got - {(a, Account)};
    assert left == map[(a, Utxo) := utxo];
    assert (a, Utxo) in left;
  }

  lemma StoresUtxo(env: Env, s: State, a: Address, utxo: Amount)
    requires s.calculator == Storing(map[(a, Utxo) := utxo])
    ensures Step(env, s, Store(a, Utxo)) == s.(stored := s.stored[(a, Utxo) := utxo], calculator := Receiving)
  {
    assert map[(a, Utxo) := utxo] - {(a, Utxo)} == map[];
  }

  /** No block that touches the address is being added or taken off. */
  ghost predicate Spares(env: Env, s: State, a: Address) {
    InProcess(s).Some? ==> a !in Parse(env, InProcess(s).value)
  }

  ghost predicate RunSpares(env: Env, s: State, es: seq<Event>, a: Address)
    decreases |es|
  {
    Spares(env, s, a) && (es != [] ==> RunSpares(env, Step(env, s, es[0]), es[1..], a))
  }

  lemma SparedStep(env: Env, s: State, e: Event, a: Address)
    requires Shape(env, s) && a !in s.queue && !InFlight(s, a) && Spares(env, s, a)
    ensures var t := Step(env, s, e);
      && a !in t.queue && !InFlight(t, a)
      && forall k :: ((a, k) in t.stored <==> (a, k) in s.stored)
                     && ((a, k) in s.stored ==> t.stored[(a, k)] == s.stored[(a, k)])
  {
    if e.Crawl? || e.CrawlAddress? {
      CrawlIsBlind(env, s, e);
    } else if e.Store? {
      assert e.k == Account || e.k == Utxo;
    }
  }

  /** And it stays: no run in which no block that touches the address is added or taken off changes what is stored. */
  lemma {:induction false} StaleForGood(env: Env, s: State, es: seq<Event>, a: Address)
    requires Shape(env, s) && a !in s.queue && !InFlight(s, a) && RunSpares(env, s, es, a)
    ensures var t := Run(env, s, es);
      && a !in t.queue && !InFlight(t, a)
      && forall k :: ((a, k) in t.stored <==> (a, k) in s.stored)
                     && ((a, k) in s.stored ==> t.stored[(a, k)] == s.stored[(a, k)])
    decreases |es|
  {
    if es != [] {
      StepKeepsShape(env, s, es[0]);
      SparedStep(env, s, es[0], a);
      StaleForGood(env, Step(env, s, es[0]), es[1..], a);
    }
  }

  /** The crawler takes in the genesis block. */
  lemma CrawlsGenesis(env: Env, a: Address) returns (es: seq<Event>)
    requires ValidWorld(env.tree) && Parse(env, env.tree.genesis) == {a}
    ensures var g := env.tree.genesis;
      Run(env, Initial([g]), es) == State([g], [g], map[0 := {a}], {a}, map[], GetTip, Idle)
  {
    var g := env.tree.genesis;
    var s0 := Initial([g]);
    es := OneMore(env, s0, [], StartCrawl);
    es := OneMore(env, s0, es, Crawl);
    assert Run(env, s0, es) == s0.(crawler := GetNextHash(None));
    es := OneMore(env, s0, es, Crawl);
    assert Run(env, s0, es) == s0.(crawler := GetNext(None, g.hash));
    es := OneMore(env, s0, es, Crawl);
    assert Run(env, s0, es) == s0.(crawler := PushAddress(g, {a}));
    es := OneMore(env, s0, es, CrawlAddress(a));
    assert {a} - {a} == {};
    assert Run(env, s0, es) == s0.(queue := {a}, crawler := PutAddress(g, a, {}));
    es := OneMore(env, s0, es, Crawl);
    assert Run(env, s0, es) == s0.(rows := map[0 := {a}], queue := {a}, crawler := PutHash(g));
    es := OneMore(env, s0, es, Crawl);
  }

  lemma CatchesUpWithGenesis(env: Env, a: Address) returns (es: seq<Event>)
    requires ValidWorld(env.tree) && Parse(env, env.tree.genesis) == {a}
    ensures var g := env.tree.genesis;
      Run(env, Initial([g]), es) == State([g], [g], map[0 := {a}], {a}, map[], Resting, Idle)
  {
    var g := env.tree.genesis;
    var s0 := Initial([g]);
    es := CrawlsGenesis(env, a);
    es := OneMore(env, s0, es, Crawl);
    assert Run(env, s0, es).crawler == GetNextHash(Some(g));
    es := OneMore(env, s0, es, Crawl);
  }

  /** It has caught up, and the address of the genesis block is received: the state that the run above starts from. */
  lemma ReceivesGenesis(env: Env, a: Address) returns (es: seq<Event>)
    requires ValidWorld(env.tree) && Parse(env, env.tree.genesis) == {a}
    ensures var g := env.tree.genesis;
      Run(env, Initial([g]), es) == State([g], [g], map[0 := {a}], {}, map[], Resting, Reading({a}, map[]))
  {
    var s0 := Initial([env.tree.genesis]);
    es := CatchesUpWithGenesis(env, a);
    es := OneMore(env, s0, es, StartCalculate);
    assert Run(env, s0, es).calculator == Receiving;
    es := OneMore(env, s0, es, Receive({a}));
    assert {a} - {a} == {};
  }

  lemma {:induction false} RunKeepsShape(env: Env, s: State, es: seq<Event>)
    requires Shape(env, s)
    ensures Shape(env, Run(env, s, es))
    decreases |es|
  {
    if es != [] {
      StepKeepsShape(env, s, es[0]);
      RunKeepsShape(env, Step(env, s, es[0]), es[1..]);
    }
  }

  /** Two blocks that touch address 7, whose balances count the blocks. */
  function SmallEnv(): Env {
    var g, x := Block(0, 0, 0, 1), Block(1, 0, 1, 1);
    Env(World(g, map[0 := g, 1 := x]), map[0 := {7}, 1 := {7}], (_, _, blocks) => |blocks|)
  }

  /** The whole run from the start, in a small world. */
  lemma StaleRunExists() returns (es: seq<Event>)
    ensures var env := SmallEnv(); ValidWorld(env.tree) && IsChain(env.tree, [env.tree.genesis])
    ensures var env := SmallEnv(); var t := Run(env, Initial([env.tree.genesis]), es);
      t.node == t.crawled == [env.tree.genesis] && 7 !in t.queue && !InFlight(t, 7) && !StalenessExplained(env, t)
  {
    var env := SmallEnv();
    var g, x := env.tree.genesis, env.tree.blocks[1];
    var s0 := Initial([g]);
    es := ReceivesGenesis(env, 7);
    RunKeepsShape(env, s0, es);
    var s := Run(env, s0, es);
    BalancesDiffer(env, g, x);
    var more := StaleRun(env, s, [g], x, 7);
    RunAppend(env, s0, es, more);
    es := es + more;
  }

  lemma BalancesDiffer(env: Env, g: Block, x: Block)
    requires 7 in Parse(env, x) && forall blocks: seq<Block> :: env.bal(7, Account, blocks) == |blocks|
    ensures Balance(env, [g] + [x], 7, Account) != Balance(env, [g], 7, Account)
  {
    TouchingSnoc(env, [g], x, 7);
  }
}
