/** The rich list as a step system: the crawler (`catchUp`), one `calculateNext` and a node that may reorganise
    are interleaved at every `await`. No call fails. */
module RichListProtocol {
  import opened Wrappers
  import opened BlockTree

  type Address = nat
  type Amount = int

  /** An account balance and a UTXO balance are read by two calls and stored under different partitions. */
  datatype Kind = Account | Utxo

  /** `touched` gives the addresses a block parses to. An address's balance is a function of the blocks that
      parse to it, in their order: no other block changes it. */
  datatype Env = Env(tree: World, touched: map<Hash, set<Address>>, bal: (Address, Kind, seq<Block>) -> Amount)

  /** Where `catchUp` waits. `b` is the block being processed and `todo` its addresses not pushed yet. */
  datatype Crawler =
    | Resting
    | GetTip
    | GetNextHash(tip: Option<Block>)
    | GetNext(tip: Option<Block>, next: Hash)
    | PushAddress(b: Block, todo: set<Address>)
    | PutAddress(b: Block, a: Address, todo: set<Address>)
    | PutHash(b: Block)
    | DeleteHash(b: Block)
    | ListAddresses(b: Block)
    | RequeueAddress(b: Block, todo: set<Address>)
    | DeleteAddress(b: Block, a: Address, todo: set<Address>)

  /** Where `calculateNext` waits. `got` holds the balances read but not stored yet. */
  datatype Calculator =
    | Idle
    | Receiving
    | Reading(todo: set<Address>, got: map<(Address, Kind), Amount>)
    | ReadingUtxo(a: Address, account: Amount, todo: set<Address>, got: map<(Address, Kind), Amount>)
    | Storing(got: map<(Address, Kind), Amount>)

  /** `crawled` is the partition of crawled blocks in the order of its sort key, `rows` that of their addresses
      by height. The queue drops duplicates. */
  datatype State = State(
    node: seq<Block>, crawled: seq<Block>, rows: map<nat, set<Address>>, queue: set<Address>,
    stored: map<(Address, Kind), Amount>, crawler: Crawler, calculator: Calculator)

  datatype Event =
    | Reorg(chain: seq<Block>)
    | StartCrawl
    | Crawl
    | CrawlAddress(a: Address)
    | StartCalculate
    | Receive(batch: set<Address>)
    | ReadAccount(a: Address)
    | ReadUtxo
    | Store(a: Address, k: Kind)

  function Parse(env: Env, b: Block): set<Address> {
    if b.hash in env.touched then env.touched[b.hash] else {}
  }

  /** The blocks of a chain that parse to an address. */
  function Touching(env: Env, c: seq<Block>, a: Address): seq<Block> {
    if c == [] then []
    else
      var t := c[|c| - 1];
      Touching(env, c[..|c| - 1], a) + if a in Parse(env, t) then [t] else []
  }

  function Balance(env: Env, c: seq<Block>, a: Address, k: Kind): Amount {
    env.bal(a, k, Touching(env, c, a))
  }

  function RowsAt(s: State, height: nat): set<Address> {
    if height in s.rows then s.rows[height] else {}
  }

  function CrawlStep(env: Env, s: State): State {
    match s.crawler
    case GetTip =>
      s.(crawler := GetNextHash(if s.crawled == [] then None else Some(s.crawled[|s.crawled| - 1])))
    case GetNextHash(tip) =>
      var h := if tip.None? then 0 else tip.value.height + 1;
      s.(crawler := if h < |s.node| then GetNext(tip, s.node[h].hash) else Resting)
    case GetNext(tip, next) =>
      if next !in env.tree.blocks then s
      else
        var b := env.tree.blocks[next];
        s.(crawler := if tip.Some? && tip.value.hash != b.prev then DeleteHash(tip.value)
                      else if Parse(env, b) == {} then PutHash(b)
                      else PushAddress(b, Parse(env, b)))
    case PutAddress(b, a, todo) =>
      s.(rows := s.rows[b.height := RowsAt(s, b.height) + {a}],
         crawler := if todo == {} then PutHash(b) else PushAddress(b, todo))
    case PutHash(b) => s.(crawled := s.crawled + [b], crawler := GetTip)
    case DeleteHash(b) =>
      s.(crawled := if s.crawled != [] && s.crawled[|s.crawled| - 1] == b then s.crawled[..|s.crawled| - 1]
        else s.crawled,
         crawler := if b.height == 0 then GetTip else ListAddresses(b))
    case ListAddresses(b) =>
      s.(crawler := if RowsAt(s, b.height) == {} then GetTip else RequeueAddress(b, RowsAt(s, b.height)))
    case DeleteAddress(b, a, todo) =>
      s.(rows := s.rows[b.height := RowsAt(s, b.height) - {a}],
         crawler := if todo == {} then GetTip else RequeueAddress(b, todo))
    case _ => s
  }

  function PushStep(s: State, a: Address): State {
    match s.crawler
    case PushAddress(b, todo) =>
      if a in todo then s.(queue := s.queue + {a}, crawler := PutAddress(b, a, todo - {a})) else s
    case RequeueAddress(b, todo) =>
      if a in todo then s.(queue := s.queue + {a}, crawler := DeleteAddress(b, a, todo - {a})) else s
    case _ => s
  }

  /** Steps that cannot happen in `s` leave it unchanged. */
  ghost function Step(env: Env, s: State, e: Event): State {
    match e
    case Reorg(c) => if IsChain(env.tree, c) && |c| > 0 then s.(node := c) else s
    case StartCrawl => if s.crawler.Resting? then s.(crawler := GetTip) else s
    case Crawl => CrawlStep(env, s)
    case CrawlAddress(a) => PushStep(s, a)
    case StartCalculate => if s.calculator.Idle? then s.(calculator := Receiving) else s
    case Receive(batch) =>
      if s.calculator.Receiving? && batch <= s.queue && (batch == {} ==> s.queue == {})
      then s.(queue := s.queue - batch, calculator := if batch == {} then Idle else Reading(batch, map[]))
      else s
    case ReadAccount(a) =>
      if s.calculator.Reading? && a in s.calculator.todo
      then s.(calculator := ReadingUtxo(a, Balance(env, s.node, a, Account), s.calculator.todo - {a}, s.calculator.got))
      else s
    case ReadUtxo =>
      if s.calculator.ReadingUtxo? then
        var a := s.calculator.a;
        var got := s.calculator.got[(a, Account) := s.calculator.account][(a, Utxo) := Balance(env, s.node, a, Utxo)];
        s.(calculator := if s.calculator.todo == {} then Storing(got) else Reading(s.calculator.todo, got))
      else s
    case Store(a, k) =>
      if s.calculator.Storing? && (a, k) in s.calculator.got then
        var left := s.calculator.got - {(a, k)};
        s.(stored := s.stored[(a, k) := s.calculator.got[(a, k)]],
           calculator := if left == map[] then Receiving else Storing(left))
      else s
  }

  ghost function Run(env: Env, s: State, es: seq<Event>): State
    decreases |es|
  {
    if es == [] then s else Run(env, Step(env, s, es[0]), es[1..])
  }

  function Initial(node: seq<Block>): State {
    State(node, [], map[], {}, map[], Resting, Idle)
  }

  /** Received by `calculateNext` and not stored completely yet. */
  predicate InFlight(s: State, a: Address) {
    match s.calculator
    case Idle => false
    case Receiving => false
    case Reading(todo, got) => a in todo || (a, Account) in got || (a, Utxo) in got
    case ReadingUtxo(x, _, todo, got) => a == x || a in todo || (a, Account) in got || (a, Utxo) in got
    case Storing(got) => (a, Account) in got || (a, Utxo) in got
  }

  /** The block the crawler is adding or taking off right now. */
  function InProcess(s: State): Option<Block> {
    match s.crawler
    case PushAddress(b, _) => Some(b)
    case PutAddress(b, _, _) => Some(b)
    case PutHash(b) => Some(b)
    case DeleteHash(b) => Some(b)
    case ListAddresses(b) => Some(b)
    case RequeueAddress(b, _) => Some(b)
    case DeleteAddress(b, _, _) => Some(b)
    case _ => None
  }

  /** The crawled chain as the queue already accounts for it: a block being added counts at once. */
  function View(s: State): seq<Block> {
    match s.crawler
    case PushAddress(b, _) => s.crawled + [b]
    case PutAddress(b, _, _) => s.crawled + [b]
    case PutHash(b) => s.crawled + [b]
    case _ => s.crawled
  }
}
