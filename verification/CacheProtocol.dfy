/** Double-checked locking as a step system: any number of callers of any number of keys, interleaved between any two
    calls of the cache, the semaphore and the fetch. */
module CacheProtocol {
  import opened Wrappers

  /** Where a caller is: first look, waiting for the semaphore, second look, fetching, storing, releasing the
      semaphore with a result or an exception, storing once more after the release, and the two ways to end. */
  datatype Pc<V> =
    | OuterGet
    | Waiting
    | InnerGet
    | Fetching
    | InnerSet(v: V)
    | Leaving(r: Option<V>)
    | Failing
    | OuterSet(w: V)
    | Returned(result: Option<V>)
    | Threw

  datatype Caller<V> = Caller(key: string, pc: Pc<V>)

  /** `holders` are the semaphores that are taken. `fruitful` counts the fetches that gave a value, and `lost` the
      writes inside the semaphore that failed and stored nothing. */
  datatype State<V> = State(cache: map<string, V>, callers: map<nat, Caller<V>>, holders: map<string, nat>,
                            fruitful: multiset<string>, lost: multiset<string>)

  /** What a caller's next call does or answers. */
  datatype Action<V> =
    | Read
    | ReadFails
    | Enter
    | TimesOut
    | Fetched(fetched: Option<V>)
    | FetchFails
    | Stored
    | StoreFails(stored: bool)
    | Leave

  datatype Event<V> = Call(c: nat, key: string) | Acts(c: nat, action: Action<V>) | Expire(key: string)

  /** Where a caller goes, what it puts into the cache, and what is counted. */
  datatype Move<V> = Move(pc: Pc<V>, puts: Option<V>, fruitful: bool, lost: bool)

  function To<V>(pc: Pc<V>): Move<V> {
    Move(pc, None, false, false)
  }

  /** One call of one caller, which finds `cached` in the cache and the semaphore free or not. */
  function Moves<V>(pc: Pc<V>, a: Action<V>, cached: Option<V>, free: bool): Option<Move<V>> {
    match (pc, a)
    case (OuterGet, Read) => Some(To(if cached.Some? then Returned(cached) else Waiting))
    case (OuterGet, ReadFails) => Some(To(Threw))
    case (Waiting, Enter) => if free then Some(To(InnerGet)) else None
    case (Waiting, TimesOut) => Some(To(Threw))
    case (InnerGet, Read) => Some(To(if cached.Some? then Leaving(cached) else Fetching))
    case (InnerGet, ReadFails) => Some(To(Failing))
    case (Fetching, Fetched(None)) => Some(To(Leaving(None)))
    case (Fetching, Fetched(Some(v))) => Some(To(InnerSet(v)).(fruitful := true))
    case (Fetching, FetchFails) => Some(To(Failing))
    case (InnerSet(v), Stored) => Some(To(Leaving(Some(v))).(puts := Some(v)))
    case (InnerSet(v), StoreFails(true)) => Some(To(Failing).(puts := Some(v)))
    case (InnerSet(v), StoreFails(false)) => Some(To(Failing).(lost := true))
    case (Leaving(None), Leave) => Some(To(Returned(None)))
    case (Leaving(Some(v)), Leave) => Some(To(OuterSet(v)))
    case (Failing, Leave) => Some(To(Threw))
    case (OuterSet(v), Stored) => Some(To(Returned(Some(v))).(puts := Some(v)))
    case (OuterSet(v), StoreFails(stored)) => Some(To(Threw).(puts := if stored then Some(v) else None))
    case _ => None
  }

  /** The places between taking the semaphore and giving it back. */
  predicate Inside<V>(pc: Pc<V>) {
    pc.InnerGet? || pc.Fetching? || pc.InnerSet? || pc.Leaving? || pc.Failing?
  }

  function Apply<V>(s: State<V>, c: nat, m: Move<V>): State<V>
    requires c in s.callers
  {
    var k, was := s.callers[c].key, s.callers[c].pc;
    State(
      if m.puts.Some? then s.cache[k := m.puts.value] else s.cache,
      s.callers[c := Caller(k, m.pc)],
      if Inside(was) == Inside(m.pc) then s.holders else if Inside(m.pc) then s.holders[k := c] else s.holders - {k},
      if m.fruitful then s.fruitful + multiset{k} else s.fruitful,
      if m.lost then s.lost + multiset{k} else s.lost)
  }

  function Cached<V>(s: State<V>, k: string): Option<V> {
    if k in s.cache then Some(s.cache[k]) else None
  }

  /** One step, or nothing if the event is not possible. */
  function Step<V>(s: State<V>, e: Event<V>): Option<State<V>> {
    match e
    case Call(c, key) => if c in s.callers then None else Some(s.(callers := s.callers[c := Caller(key, OuterGet)]))
    case Expire(key) => Some(s.(cache := s.cache - {key}))
    case Acts(c, a) =>
      if c !in s.callers then None
      else
        var k := s.callers[c].key;
        var m := Moves(s.callers[c].pc, a, Cached(s, k), k !in s.holders);
        if m.None? then None else Some(Apply(s, c, m.value))
  }

  function Run<V>(s: State<V>, es: seq<Event<V>>): Option<State<V>>
    decreases |es|
  {
    if es == [] then Some(s)
    else
      var t := Step(s, es[0]);
      if t.None? then None else Run(t.value, es[1..])
  }

  function Initial<V>(): State<V> {
    State(map[], map[], map[], multiset{}, multiset{})
  }

  // Mutual exclusion, which holds in every run.

  ghost predicate Exclusive<V>(s: State<V>) {
    && (forall c :: c in s.callers ==>
          (Inside(s.callers[c].pc) <==> s.callers[c].key in s.holders && s.holders[s.callers[c].key] == c))
    && (forall k :: k in s.holders ==> s.holders[k] in s.callers && s.callers[s.holders[k]].key == k)
  }

  /** A caller goes in only through a free semaphore. */
  lemma GoesInWhenFree<V>(pc: Pc<V>, a: Action<V>, cached: Option<V>, free: bool)
    ensures Moves(pc, a, cached, free).Some? && !Inside(pc) && Inside(Moves(pc, a, cached, free).value.pc) ==> free
  {
  }

  lemma StepIsExclusive<V>(s: State<V>, e: Event<V>)
    requires Exclusive(s) && Step(s, e).Some?
    ensures Exclusive(Step(s, e).value)
  {
    if e.Acts? {
      var k := s.callers[e.c].key;
      GoesInWhenFree(s.callers[e.c].pc, e.action, Cached(s, k), k !in s.holders);
      ApplyIsExclusive(s, e.c, Moves(s.callers[e.c].pc, e.action, Cached(s, k), k !in s.holders).value);
    }
  }

  lemma ApplyIsExclusive<V>(s: State<V>, c: nat, m: Move<V>)
    requires Exclusive(s) && c in s.callers
    requires !Inside(s.callers[c].pc) && Inside(m.pc) ==> s.callers[c].key !in s.holders
    ensures Exclusive(Apply(s, c, m))
  {
  }

  lemma {:induction false} RunIsExclusive<V>(s: State<V>, es: seq<Event<V>>)
    requires Exclusive(s) && Run(s, es).Some?
    ensures Exclusive(Run(s, es).value)
    decreases |es|
  {
    if es != [] {
      StepIsExclusive(s, es[0]);
      RunIsExclusive(Step(s, es[0]).value, es[1..]);
    }
  }

  /** Fetches of one key never overlap, in any run, whatever fails or expires. */
  lemma FetchesNeverOverlap<V>(es: seq<Event<V>>, c: nat, d: nat)
    requires Run(Initial<V>(), es).Some?
    requires var s := Run(Initial<V>(), es).value;
      c in s.callers && d in s.callers && s.callers[c].key == s.callers[d].key
      && s.callers[c].pc == s.callers[d].pc == Fetching
    ensures c == d
  {
    RunIsExclusive(Initial<V>(), es);
  }

  // One value, as long as nothing expires.

  /** The value a caller carries. */
  function Carries<V>(pc: Pc<V>): Option<V> {
    match pc
    case Leaving(r) => r
    case OuterSet(v) => Some(v)
    case Returned(r) => r
    case _ => None
  }

  /** A carried value is the cached one, and nobody fetches or has just fetched what is cached. */
  ghost predicate Agrees<V>(s: State<V>, c: nat)
    requires c in s.callers
  {
    var k, pc := s.callers[c].key, s.callers[c].pc;
    && (Carries(pc).Some? ==> k in s.cache && s.cache[k] == Carries(pc).value)
    && (k in s.cache ==> !pc.Fetching? && !pc.InnerSet?)
  }

  /** Each fetch that gave a value is cached, about to be stored, or lost. */
  ghost predicate Counted<V>(s: State<V>, k: string) {
    s.fruitful[k] == s.lost[k]
      + if k in s.cache || (k in s.holders && s.holders[k] in s.callers && s.callers[s.holders[k]].pc.InnerSet?)
        then 1 else 0
  }

  ghost predicate Inv<V>(s: State<V>) {
    && Exclusive(s)
    && (forall c :: c in s.callers ==> Agrees(s, c))
    && (forall k :: Counted(s, k))
  }

  /** A caller puts the value it holds, finds again what it put, and starts a fetch only when nothing is cached. */
  lemma MoveAgrees<V>(pc: Pc<V>, a: Action<V>, cached: Option<V>, free: bool)
    requires Moves(pc, a, cached, free).Some?
    requires Carries(pc).Some? ==> cached == Carries(pc)
    requires cached.Some? ==> !pc.Fetching? && !pc.InnerSet?
    ensures var m := Moves(pc, a, cached, free).value;
      var now := if m.puts.Some? then m.puts else cached;
      && (Carries(m.pc).Some? ==> now == Carries(m.pc))
      && (now.Some? ==> !m.pc.Fetching? && !m.pc.InnerSet?)
      && (m.puts.Some? ==> (cached.None? && pc.InnerSet?) || cached == m.puts)
  {
  }

  /** Of the fetches that gave a value, each is pending, cached or lost, before a move as after it. */
  lemma MoveCounts<V>(pc: Pc<V>, a: Action<V>, cached: Option<V>, free: bool)
    requires Moves(pc, a, cached, free).Some?
    requires Carries(pc).Some? ==> cached == Carries(pc)
    requires cached.Some? ==> !pc.Fetching? && !pc.InnerSet?
    ensures var m := Moves(pc, a, cached, free).value;
      (if m.fruitful then 1 else 0) + (if cached.Some? || pc.InnerSet? then 1 else 0)
      == (if m.lost then 1 else 0) + if m.puts.Some? || cached.Some? || m.pc.InnerSet? then 1 else 0
    ensures !Inside(pc) ==> !Moves(pc, a, cached, free).value.pc.InnerSet?
  {
  }

  lemma StepAgrees<V>(s: State<V>, e: Event<V>, d: nat)
    requires Inv(s) && Step(s, e).Some? && !e.Expire? && d in Step(s, e).value.callers
    ensures Agrees(Step(s, e).value, d)
  {
    if e.Call? {
      if d != e.c {
        assert Agrees(s, d);
      }
    } else {
      assert Agrees(s, e.c);
      var k := s.callers[e.c].key;
      MoveAgrees(s.callers[e.c].pc, e.action, Cached(s, k), k !in s.holders);
      if d != e.c {
        OthersAgree(s, e.c, Moves(s.callers[e.c].pc, e.action, Cached(s, k), k !in s.holders).value, d);
      }
    }
  }

  /** Another caller is not disturbed: what is new in the cache was put there from inside, where it is not. */
  lemma OthersAgree<V>(s: State<V>, c: nat, m: Move<V>, d: nat)
    requires Inv(s) && c in s.callers && d in s.callers && c != d
    requires m.puts.Some? ==>
      (s.callers[c].key !in s.cache && s.callers[c].pc.InnerSet?) || Cached(s, s.callers[c].key) == m.puts
    ensures Agrees(Apply(s, c, m), d)
  {
    assert Agrees(s, d);
    assert Inside(s.callers[c].pc) && Inside(s.callers[d].pc) ==> s.callers[c].key != s.callers[d].key;
  }

  lemma StepCounts<V>(s: State<V>, e: Event<V>, k: string)
    requires Inv(s) && Step(s, e).Some? && !e.Expire?
    ensures Counted(Step(s, e).value, k)
  {
    assert Counted(s, k);
    if e.Acts? {
      assert Agrees(s, e.c);
      var l := s.callers[e.c].key;
      MoveCounts(s.callers[e.c].pc, e.action, Cached(s, l), l !in s.holders);
      GoesInWhenFree(s.callers[e.c].pc, e.action, Cached(s, l), l !in s.holders);
      ApplyCounts(s, e.c, Moves(s.callers[e.c].pc, e.action, Cached(s, l), l !in s.holders).value, k);
    }
  }

  lemma ApplyCounts<V>(s: State<V>, c: nat, m: Move<V>, k: string)
    requires Exclusive(s) && Counted(s, k) && c in s.callers
    requires var cached, pc := Cached(s, s.callers[c].key), s.callers[c].pc;
      && (if m.fruitful then 1 else 0) + (if cached.Some? || pc.InnerSet? then 1 else 0)
         == (if m.lost then 1 else 0) + (if m.puts.Some? || cached.Some? || m.pc.InnerSet? then 1 else 0)
      && (!Inside(pc) ==> !m.pc.InnerSet?)
      && (!Inside(pc) && Inside(m.pc) ==> s.callers[c].key !in s.holders)
      && (m.puts.Some? && cached.None? ==> pc.InnerSet?)
    ensures Counted(Apply(s, c, m), k)
  {
  }

  lemma StepKeeps<V>(s: State<V>, e: Event<V>)
    requires Inv(s) && Step(s, e).Some? && !e.Expire?
    ensures Inv(Step(s, e).value)
  {
    StepIsExclusive(s, e);
    var t := Step(s, e).value;
    forall d | d in t.callers ensures Agrees(t, d) {
      StepAgrees(s, e, d);
    }
    forall k ensures Counted(t, k) {
      StepCounts(s, e, k);
    }
  }

  predicate NothingExpires<V>(es: seq<Event<V>>) {
    forall i :: 0 <= i < |es| ==> !es[i].Expire?
  }

  lemma {:induction false} RunKeeps<V>(s: State<V>, es: seq<Event<V>>)
    requires Inv(s) && Run(s, es).Some? && NothingExpires(es)
    ensures Inv(Run(s, es).value)
    decreases |es|
  {
    if es != [] {
      StepKeeps(s, es[0]);
      RunKeeps(Step(s, es[0]).value, es[1..]);
    }
  }

  /** Any two callers of a key that return a value return the same one, and it is the cached one. */
  lemma OneValue<V>(es: seq<Event<V>>, c: nat, d: nat)
    requires Run(Initial<V>(), es).Some? && NothingExpires(es)
    requires var s := Run(Initial<V>(), es).value;
      c in s.callers && d in s.callers && s.callers[c].key == s.callers[d].key
      && s.callers[c].pc.Returned? && s.callers[c].pc.result.Some? && s.callers[d].pc.Returned?
        && s.callers[d].pc.result.Some?
    ensures var s := Run(Initial<V>(), es).value;
      s.callers[c].pc == s.callers[d].pc && s.callers[c].key in s.cache
      && s.callers[c].pc.result == Some(s.cache[s.callers[c].key])
  {
    RunKeeps(Initial<V>(), es);
    var s := Run(Initial<V>(), es).value;
    assert Agrees(s, c) && Agrees(s, d);
  }

  /** At most one fetch of a key gives a value, but for those whose write failed and stored nothing. */
  lemma OneFetchGivesAValue<V>(es: seq<Event<V>>, k: string)
    requires Run(Initial<V>(), es).Some? && NothingExpires(es)
    ensures var s := Run(Initial<V>(), es).value; s.lost[k] <= s.fruitful[k] <= s.lost[k] + 1
  {
    RunKeeps(Initial<V>(), es);
    assert Counted(Run(Initial<V>(), es).value, k);
  }

  /** Some caller can always go on without a failure, so a semaphore is always given back. */
  lemma NeverStuck<V>(es: seq<Event<V>>, c: nat, fetched: Option<V>) returns (e: Event<V>)
    requires Run(Initial<V>(), es).Some?
    requires var s := Run(Initial<V>(), es).value;
      c in s.callers && !s.callers[c].pc.Returned? && !s.callers[c].pc.Threw?
    ensures Step(Run(Initial<V>(), es).value, e).Some?
    ensures e.Acts? && (e.action.Read? || e.action.Enter? || e.action.Fetched? || e.action.Stored? || e.action.Leave?)
  {
    RunIsExclusive(Initial<V>(), es);
    var s := Run(Initial<V>(), es).value;
    var k := s.callers[c].key;
    var d := if s.callers[c].pc.Waiting? && k in s.holders then s.holders[k] else c;
    assert Inside(s.callers[d].pc) || d == c;
    e := Acts(d, match s.callers[d].pc
      case OuterGet => Read
      case InnerGet => Read
      case Waiting => Enter
      case Fetching => Fetched(fetched)
      case InnerSet(_) => Stored
      case OuterSet(_) => Stored
      case _ => Leave);
  }

  lemma {:induction false} RunAppend<V>(s: State<V>, a: seq<Event<V>>, b: seq<Event<V>>)
    requires Run(s, a).Some?
    ensures Run(s, a + b) == Run(Run(s, a).value, b)
    decreases |a|
  {
    if a == [] {
      assert a + b == b;
    } else {
      assert (a + b)[1..] == a[1..] + b;
      RunAppend(Step(s, a[0]).value, a[1..], b);
    }
  }

  lemma OneStep<V>(s: State<V>, e: Event<V>)
    requires Step(s, e).Some?
    ensures Run(s, [e]) == Step(s, e)
  {
    assert [e][1..] == [];
  }

  /** A run goes on. */
  lemma GoOn<V>(s: State<V>, es: seq<Event<V>>, t: State<V>, e: Event<V>, u: State<V>)
    requires Run(s, es) == Some(t) && Step(t, e) == Some(u)
    ensures Run(s, es + [e]) == Some(u)
  {
    OneStep(t, e);
    RunAppend(s, es, [e]);
  }

  lemma ThreeSteps<V>(s: State<V>, e: Event<V>, r: State<V>, f: Event<V>, q: State<V>, g: Event<V>, t: State<V>)
    requires Step(s, e) == Some(r) && Step(r, f) == Some(q) && Step(q, g) == Some(t)
    ensures Run(s, [e, f, g]) == Some(t)
  {
    OneStep(s, e);
    GoOn(s, [e], r, f, q);
    assert [e] + [f] == [e, f];
    GoOn(s, [e, f], q, g, t);
    assert [e, f] + [g] == [e, f, g];
  }

  lemma ThreeParts<V>(s: State<V>, a: seq<Event<V>>, r: State<V>, b: seq<Event<V>>, q: State<V>, e: Event<V>,
                      t: State<V>)
    returns (es: seq<Event<V>>)
    requires Run(s, a) == Some(r) && Run(r, b) == Some(q) && Step(q, e) == Some(t)
    ensures Run(s, es) == Some(t) && |es| == |a| + |b| + 1 && es[|es| - 1] == e
    ensures b != [] ==> es[|a|] == b[0]
    ensures a != [] ==> es[0] == a[0]
  {
    es := a + b + [e];
    RunAppend(s, a, b);
    GoOn(s, a + b, q, e, t);
  }

  /** A caller alone looks, enters and looks again. */
  lemma GoesToFetch<V>(s: State<V>, c: nat, k: string) returns (t: State<V>)
    requires c in s.callers && s.callers[c] == Caller(k, OuterGet) && k !in s.cache && k !in s.holders
    ensures Run(s, [Acts(c, Read), Acts(c, Enter), Acts(c, Read)]) == Some(t)
    ensures t == s.(callers := s.callers[c := Caller(k, Fetching)], holders := s.holders[k := c])
  {
    var r := Apply(s, c, To(Waiting));
    var q := Apply(r, c, To(InnerGet));
    t := Apply(q, c, To(Fetching));
    ThreeSteps(s, Acts(c, Read), r, Acts(c, Enter), q, Acts(c, Read), t);
    assert t.callers == s.callers[c := Caller(k, Fetching)];
  }

  /** It fetches, stores and leaves. */
  lemma FetchesAndLeaves<V>(s: State<V>, c: nat, k: string, v: V) returns (t: State<V>)
    requires c in s.callers && s.callers[c] == Caller(k, Fetching) && k in s.holders
    ensures Run(s, [Acts(c, Fetched(Some(v))), Acts(c, Stored), Acts(c, Leave)]) == Some(t)
    ensures t.cache == s.cache[k := v] && t.callers == s.callers[c := Caller(k, OuterSet(v))]
      && t.holders == s.holders - {k}
  {
    var r := Apply(s, c, To(InnerSet(v)).(fruitful := true));
    var q := Apply(r, c, To(Leaving(Some(v))).(puts := Some(v)));
    t := Apply(q, c, To(OuterSet(v)));
    ThreeSteps(s, Acts(c, Fetched(Some(v))), r, Acts(c, Stored), q, Acts(c, Leave), t);
    assert t.callers == s.callers[c := Caller(k, OuterSet(v))];
  }

  function Fetches<V>(c: nat, v: V): seq<Event<V>> {
    [Acts(c, Read), Acts(c, Enter), Acts(c, Read)] + [Acts(c, Fetched(Some(v))), Acts(c, Stored), Acts(c, Leave)]
  }

  lemma FetchesAlone<V>(s: State<V>, c: nat, k: string, v: V) returns (t: State<V>)
    requires c in s.callers && s.callers[c] == Caller(k, OuterGet) && k !in s.cache && k !in s.holders
    ensures Run(s, Fetches(c, v)) == Some(t)
    ensures t.cache == s.cache[k := v] && t.callers == s.callers[c := Caller(k, OuterSet(v))] && t.holders == s.holders
  {
    var r := GoesToFetch(s, c, k);
    t := FetchesAndLeaves(r, c, k, v);
    RunAppend(s, [Acts(c, Read), Acts(c, Enter), Acts(c, Read)],
              [Acts(c, Fetched(Some(v))), Acts(c, Stored), Acts(c, Leave)]);
  }

  /** The write after the release. */
  lemma StoresOnceMore<V>(s: State<V>, c: nat, k: string, v: V) returns (t: State<V>)
    requires c in s.callers && s.callers[c] == Caller(k, OuterSet(v))
    ensures Step(s, Acts(c, Stored)) == Some(t)
    ensures t.cache == s.cache[k := v] && t.callers == s.callers[c := Caller(k, Returned(Some(v)))]
      && t.holders == s.holders
  {
    t := Apply(s, c, To(Returned(Some(v))).(puts := Some(v)));
  }

  /** The value expires, and another caller fetches and stores a newer one to the end. */
  lemma ExpiresAndIsFetchedAgain<V>(s: State<V>, d: nat, k: string, newer: V) returns (es: seq<Event<V>>, t: State<V>)
    requires d in s.callers && s.callers[d] == Caller(k, OuterGet) && k !in s.holders
    ensures Run(s, es) == Some(t) && |es| == 8 && es[0] == Expire(k)
    ensures t.callers == s.callers[d := Caller(k, Returned(Some(newer)))] && t.cache == s.cache[k := newer]
  {
    var r := s.(cache := s.cache - {k});
    OneStep(s, Expire(k));
    var q := FetchesAlone(r, d, k, newer);
    t := StoresOnceMore(q, d, k, newer);
    es := ThreeParts(s, [Expire(k)], r, Fetches(d, newer), q, Acts(d, Stored), t);
    assert t.callers == s.callers[d := Caller(k, Returned(Some(newer)))];
  }

  /** One such run to its end, through the second write, which comes after the semaphore is given back: caller `c` puts
      its old value over the newer one that caller `d` has fetched since, and both are done. */
  lemma ExpiryPutsAnOldValueBack<V>(s: State<V>, c: nat, d: nat, k: string, older: V, newer: V)
    returns (es: seq<Event<V>>, t: State<V>)
    requires c != d && c in s.callers && s.callers[c] == Caller(k, OuterGet) && d in s.callers
      && s.callers[d] == Caller(k, OuterGet)
    requires k !in s.cache && k !in s.holders
    ensures Run(s, es) == Some(t) && |es| == 15 && es[6] == Expire(k) && es[14] == Acts(c, Stored)
    ensures t.callers == s.callers[d := Caller(k, Returned(Some(newer)))][c := Caller(k, Returned(Some(older)))]
    ensures t.cache == s.cache[k := older]
  {
    var r := FetchesAlone(s, c, k, older);
    var again, q := ExpiresAndIsFetchedAgain(r, d, k, newer);
    t := StoresOnceMore(q, c, k, older);
    es := ThreeParts(s, Fetches(c, older), r, again, q, Acts(c, Stored), t);
    Overwritten(s.callers, c, Caller(k, OuterSet(older)), d, Caller(k, Returned(Some(newer))),
                Caller(k, Returned(Some(older))));
    OverwrittenAgain(s.cache, k, older, newer);
  }

  lemma Overwritten<K, T>(m: map<K, T>, c: K, x: T, d: K, y: T, z: T)
    requires c != d
    ensures m[c := x][d := y][c := z] == m[d := y][c := z]
  {
  }

  lemma OverwrittenAgain<K, T>(m: map<K, T>, k: K, older: T, newer: T)
    ensures m[k := older][k := newer][k := older] == m[k := older]
  {
  }

  // A caller by itself.

  predicate OnlyActs<V>(es: seq<Event<V>>, c: nat) {
    forall i :: 0 <= i < |es| ==> es[i].Acts? && es[i].c == c
  }

  predicate Fails<V>(e: Event<V>) {
    e.Acts? && (e.action.ReadFails? || e.action.TimesOut? || e.action.FetchFails? || e.action.StoreFails?)
  }

  ghost predicate HasFetched<V>(es: seq<Event<V>>, c: nat, r: Option<V>) {
    Acts(c, Fetched(r)) in es
  }

  ghost predicate SomeFails<V>(es: seq<Event<V>>) {
    exists i :: 0 <= i < |es| && Fails(es[i])
  }

  /** The cache with what has been fetched. */
  function With<V>(cache: map<string, V>, k: string, r: Option<V>): map<string, V> {
    if r.Some? then cache[k := r.value] else cache
  }

  /** Nothing has been stored, or what has been fetched. */
  ghost predicate MayHaveStored<V(!new)>(cache: map<string, V>, now: map<string, V>, c: nat, k: string,
                                         es: seq<Event<V>>)
  {
    now == cache || exists v :: HasFetched(es, c, Some(v)) && now == cache[k := v]
  }

  /** What has become of a caller of `k` that has acted by itself, from a cache on: the value that was cached; or else
      what it has fetched, which is cached then; or an exception, just when some call has failed. */
  ghost predicate GotBy<V(!new)>(cache: map<string, V>, s: State<V>, c: nat, k: string, es: seq<Event<V>>) {
    && c in s.callers && s.callers[c].key == k && (k in s.holders <==> Inside(s.callers[c].pc))
    && (SomeFails(es) <==> s.callers[c].pc.Failing? || s.callers[c].pc.Threw?)
    && match s.callers[c].pc
       case OuterGet => s.cache == cache
       case InnerSet(v) => k !in cache && HasFetched(es, c, Some(v)) && s.cache == cache
       case Leaving(r) => k !in cache && HasFetched(es, c, r) && s.cache == With(cache, k, r)
       case OuterSet(v) => k !in cache && HasFetched(es, c, Some(v)) && s.cache == cache[k := v]
       case Returned(r) =>
         if k in cache then r == Some(cache[k]) && s.cache == cache
         else HasFetched(es, c, r) && s.cache == With(cache, k, r)
       case Failing => MayHaveStored(cache, s.cache, c, k, es)
       case Threw => MayHaveStored(cache, s.cache, c, k, es)
       case _ => k !in cache && s.cache == cache
  }

  /** What has been fetched, or has failed, stays so. */
  lemma MoreEvents<V(!new)>(c: nat, es: seq<Event<V>>, e: Event<V>)
    ensures forall r :: HasFetched(es, c, r) ==> HasFetched(es + [e], c, r)
    ensures SomeFails(es) || Fails(e) <==> SomeFails(es + [e])
    ensures e.Acts? && e.c == c && e.action.Fetched? ==> HasFetched(es + [e], c, e.action.fetched)
  {
    var all := es + [e];
    assert all[|es|] == e && forall x :: x in es ==> x in all;
    if i :| 0 <= i < |es| && Fails(es[i]) {
      assert Fails(all[i]);
    }
    if i :| 0 <= i < |es| && Fails(all[i]) {
      assert Fails(es[i]);
    }
    assert Fails(e) ==> Fails(all[|es|]);
  }

  lemma Remembers<V(!new)>(cache: map<string, V>, now: map<string, V>, c: nat, k: string, es: seq<Event<V>>,
                           e: Event<V>)
    requires MayHaveStored(cache, now, c, k, es)
    ensures MayHaveStored(cache, now, c, k, es + [e])
  {
    MoreEvents(c, es, e);
  }

  lemma LeavesFailing<V(!new)>(cache: map<string, V>, s: State<V>, c: nat, k: string, es: seq<Event<V>>, e: Event<V>)
    requires GotBy(cache, s, c, k, es) && e.Acts? && e.c == c && Step(s, e).Some? && s.callers[c].pc.Failing?
    ensures GotBy(cache, Step(s, e).value, c, k, es + [e])
  {
    MoreEvents(c, es, e);
    Remembers(cache, s.cache, c, k, es, e);
  }

  lemma FailsGot<V(!new)>(cache: map<string, V>, s: State<V>, c: nat, k: string, es: seq<Event<V>>, e: Event<V>)
    requires GotBy(cache, s, c, k, es) && e.Acts? && e.c == c && Step(s, e).Some? && Fails(e)
    ensures GotBy(cache, Step(s, e).value, c, k, es + [e])
  {
    MoreEvents(c, es, e);
    var pc, t := s.callers[c].pc, Step(s, e).value;
    if e.action.StoreFails? {
      var v := if pc.InnerSet? then pc.v else pc.w;
      assert HasFetched(es + [e], c, Some(v)) && (t.cache == s.cache || t.cache == s.cache[k := v]);
      assert cache[k := v][k := v] == cache[k := v];
    }
  }

  lemma ActsGot<V(!new)>(cache: map<string, V>, s: State<V>, c: nat, k: string, es: seq<Event<V>>, e: Event<V>)
    requires GotBy(cache, s, c, k, es) && e.Acts? && e.c == c && Step(s, e).Some? && !Fails(e)
    requires !s.callers[c].pc.Failing?
    ensures GotBy(cache, Step(s, e).value, c, k, es + [e])
  {
    MoreEvents(c, es, e);
  }

  lemma StaysGot<V(!new)>(cache: map<string, V>, s: State<V>, c: nat, k: string, es: seq<Event<V>>, e: Event<V>)
    requires GotBy(cache, s, c, k, es) && e.Acts? && e.c == c && Step(s, e).Some?
    ensures GotBy(cache, Step(s, e).value, c, k, es + [e])
  {
    if s.callers[c].pc.Failing? {
      LeavesFailing(cache, s, c, k, es, e);
    } else if Fails(e) {
      FailsGot(cache, s, c, k, es, e);
    } else {
      ActsGot(cache, s, c, k, es, e);
    }
  }

  lemma {:induction false} PrefixRuns<V>(s: State<V>, a: seq<Event<V>>, b: seq<Event<V>>)
    requires Run(s, a + b).Some?
    ensures Run(s, a).Some?
    decreases |a|
  {
    if a != [] {
      assert (a + b)[1..] == a[1..] + b;
      PrefixRuns(Step(s, a[0]).value, a[1..], b);
    }
  }

  /** So a caller that meets no failure returns what was cached, or else what it fetches, which it leaves in the cache
      if it is a value; and it gives the semaphore back. */
  lemma {:induction false} AloneGets<V(!new)>(s: State<V>, c: nat, k: string, es: seq<Event<V>>)
    requires c in s.callers && s.callers[c] == Caller(k, OuterGet) && k !in s.holders
    requires OnlyActs(es, c) && Run(s, es).Some?
    ensures GotBy(s.cache, Run(s, es).value, c, k, es)
    decreases |es|
  {
    if es != [] {
      var init, e := es[..|es| - 1], es[|es| - 1];
      assert es == init + [e];
      PrefixRuns(s, init, [e]);
      RunAppend(s, init, [e]);
      AloneGets(s, c, k, init);
      var t := Run(s, init).value;
      assert Run(t, [e]) == Step(t, e) by {
        assert [e][1..] == [];
      }
      StaysGot(s.cache, t, c, k, init, e);
    }
  }

  // When an expiry is harmless.

  /** The value that a caller is still going to write once more. */
  function Pending<V>(pc: Pc<V>): Option<V> {
    match pc
    case Leaving(r) => r
    case OuterSet(v) => Some(v)
    case _ => None
  }

  /** What is pending is cached, and nobody fetches or has just fetched what is cached: `Agrees`, but for the callers
      that are done. An expiry can keep it. */
  ghost predicate Settled<V>(s: State<V>, c: nat)
    requires c in s.callers
  {
    var k, pc := s.callers[c].key, s.callers[c].pc;
    && (Pending(pc).Some? ==> Cached(s, k) == Pending(pc))
    && (k in s.cache ==> !pc.Fetching? && !pc.InnerSet?)
  }

  ghost predicate Quiet<V>(s: State<V>) {
    Exclusive(s) && forall c :: c in s.callers ==> Settled(s, c)
  }

  lemma InvIsQuiet<V>(s: State<V>)
    requires Inv(s)
    ensures Quiet(s)
  {
    forall c | c in s.callers ensures Settled(s, c) {
      assert Agrees(s, c);
    }
  }

  /** The step writes a value over a different one. */
  ghost predicate Overwrites<V>(s: State<V>, e: Event<V>) {
    e.Acts? && e.c in s.callers &&
    var k := s.callers[e.c].key;
    var m := Moves(s.callers[e.c].pc, e.action, Cached(s, k), k !in s.holders);
    k in s.cache && m.Some? && m.value.puts.Some? && m.value.puts.value != s.cache[k]
  }

  /** No further run without expiry does so. */
  ghost predicate NeverOverwrites<V(!new)>(s: State<V>) {
    forall es, e :: NothingExpires(es) && Run(s, es).Some? ==> !Overwrites(Run(s, es).value, e)
  }

  lemma MoveSettles<V>(pc: Pc<V>, a: Action<V>, cached: Option<V>, free: bool)
    requires Moves(pc, a, cached, free).Some?
    requires Pending(pc).Some? ==> cached == Pending(pc)
    requires cached.Some? ==> !pc.Fetching? && !pc.InnerSet?
    ensures var m := Moves(pc, a, cached, free).value;
      var now := if m.puts.Some? then m.puts else cached;
      && (Pending(m.pc).Some? ==> now == Pending(m.pc))
      && (now.Some? ==> !m.pc.Fetching? && !m.pc.InnerSet?)
      && (m.puts.Some? ==> (cached.None? && pc.InnerSet?) || cached == m.puts)
  {
  }

  lemma OthersSettle<V>(s: State<V>, c: nat, m: Move<V>, d: nat)
    requires Quiet(s) && c in s.callers && d in s.callers && c != d
    requires m.puts.Some? ==>
      (s.callers[c].key !in s.cache && s.callers[c].pc.InnerSet?) || Cached(s, s.callers[c].key) == m.puts
    ensures Settled(Apply(s, c, m), d)
  {
    assert Settled(s, d);
    assert Inside(s.callers[c].pc) && Inside(s.callers[d].pc) ==> s.callers[c].key != s.callers[d].key;
  }

  lemma StepSettles<V>(s: State<V>, e: Event<V>, d: nat)
    requires Quiet(s) && Step(s, e).Some? && !e.Expire? && d in Step(s, e).value.callers
    ensures Settled(Step(s, e).value, d) && !Overwrites(s, e)
  {
    if e.Call? {
      if d != e.c {
        assert Settled(s, d);
      }
    } else {
      assert Settled(s, e.c);
      var k := s.callers[e.c].key;
      MoveSettles(s.callers[e.c].pc, e.action, Cached(s, k), k !in s.holders);
      if d != e.c {
        OthersSettle(s, e.c, Moves(s.callers[e.c].pc, e.action, Cached(s, k), k !in s.holders).value, d);
      }
    }
  }

  lemma {:induction false} QuietRun<V>(s: State<V>, es: seq<Event<V>>)
    requires Quiet(s) && NothingExpires(es) && Run(s, es).Some?
    ensures Quiet(Run(s, es).value)
    decreases |es|
  {
    if es != [] {
      var t := Step(s, es[0]).value;
      StepIsExclusive(s, es[0]);
      forall d | d in t.callers ensures Settled(t, d) {
        StepSettles(s, es[0], d);
      }
      QuietRun(t, es[1..]);
    }
  }

  lemma QuietNeverOverwrites<V(!new)>(s: State<V>)
    requires Quiet(s)
    ensures NeverOverwrites(s)
  {
    forall es, e | NothingExpires(es) && Run(s, es).Some? ensures !Overwrites(Run(s, es).value, e) {
      QuietRun(s, es);
      var t := Run(s, es).value;
      if Overwrites(t, e) {
        assert Step(t, e).Some?;
        StepSettles(t, e, e.c);
      }
    }
  }

  lemma StaysNeverOverwriting<V(!new)>(s: State<V>, es: seq<Event<V>>)
    requires NeverOverwrites(s) && NothingExpires(es) && Run(s, es).Some?
    ensures NeverOverwrites(Run(s, es).value)
  {
    var t := Run(s, es).value;
    forall more, e | NothingExpires(more) && Run(t, more).Some? ensures !Overwrites(Run(t, more).value, e) {
      RunAppend(s, es, more);
      assert NothingExpires(es + more);
    }
  }

  /** A call that fails, or a release if there is nothing left to fail. */
  function WayOut<V>(pc: Pc<V>): Action<V> {
    match pc
    case InnerGet => ReadFails
    case Fetching => FetchFails
    case InnerSet(_) => StoreFails(false)
    case _ => Leave
  }

  lemma FailsOrLeaves<V>(s: State<V>, h: nat, k: string)
    requires h in s.callers && s.callers[h].key == k && Inside(s.callers[h].pc) && k in s.holders && s.holders[k] == h
    ensures Step(s, Acts(h, WayOut(s.callers[h].pc))).Some?
    ensures var t := Step(s, Acts(h, WayOut(s.callers[h].pc))).value;
      && t.cache == s.cache && (forall c :: c in s.callers && c != h ==> c in t.callers && t.callers[c] == s.callers[c])
      && (k in t.holders ==>
        t.holders[k] == h && h in t.callers && t.callers[h] == Caller(k, Failing) && !s.callers[h].pc.Failing?)
  {
  }

  /** Whoever is inside the semaphore of a key can leave it by failing. */
  lemma {:induction false} CanBeFreed<V>(s: State<V>, c: nat, k: string) returns (es: seq<Event<V>>)
    requires Exclusive(s) && k in s.holders && c in s.callers && s.holders[k] != c
    ensures NothingExpires(es) && Run(s, es).Some?
    ensures var t := Run(s, es).value;
      Exclusive(t) && t.cache == s.cache && k !in t.holders && c in t.callers && t.callers[c] == s.callers[c]
    decreases if s.holders[k] in s.callers && s.callers[s.holders[k]].pc.Failing? then 0 else 1
  {
    var h := s.holders[k];
    assert Inside(s.callers[h].pc);
    var e := Acts(h, WayOut(s.callers[h].pc));
    FailsOrLeaves(s, h, k);
    StepIsExclusive(s, e);
    OneStep(s, e);
    es := [e];
    var t := Step(s, e).value;
    if k in t.holders {
      var more := CanBeFreed(t, c, k);
      RunAppend(s, [e], more);
      es := [e] + more;
    }
  }

  /** A key that is neither cached nor held: a new caller fetches some value. */
  lemma NewCallerFetches<V>(s: State<V>, c: nat, k: string, w: V) returns (es: seq<Event<V>>)
    requires c in s.callers && k !in s.cache && k !in s.holders
    ensures NothingExpires(es) && Run(s, es).Some?
    ensures var t := Run(s, es).value; c in t.callers && t.callers[c] == s.callers[c] && k in t.cache && t.cache[k] == w
  {
    var d := NewCaller(s);
    var s1 := Step(s, Call(d, k)).value;
    OneStep(s, Call(d, k));
    var s2 := FetchesAlone(s1, d, k, w);
    RunAppend(s, [Call(d, k)], Fetches(d, w));
    es := [Call(d, k)] + Fetches(d, w);
  }

  /** And a caller that is about to write another one overwrites it. */
  lemma FetchedInBetween<V(!new)>(s: State<V>, c: nat, k: string, v: V, w: V)
    requires c in s.callers && s.callers[c] == Caller(k, OuterSet(v)) && v != w && k !in s.cache && k !in s.holders
    ensures !NeverOverwrites(s)
  {
    var es := NewCallerFetches(s, c, k, w);
    OuterWriteOverwrites(Run(s, es).value, c, k, v);
    OverwritesLater(s, es, Acts(c, Stored));
  }

  lemma OuterWriteOverwrites<V>(t: State<V>, c: nat, k: string, v: V)
    requires c in t.callers && t.callers[c] == Caller(k, OuterSet(v)) && k in t.cache && t.cache[k] != v
    ensures Overwrites(t, Acts(c, Stored))
  {
  }

  lemma OverwritesLater<V(!new)>(s: State<V>, es: seq<Event<V>>, e: Event<V>)
    requires NothingExpires(es) && Run(s, es).Some? && Overwrites(Run(s, es).value, e)
    ensures !NeverOverwrites(s)
  {
  }

  lemma NewCaller<V>(s: State<V>) returns (d: nat)
    ensures d !in s.callers
  {
    d := Above(s.callers.Keys);
  }

  lemma {:induction false} Above(ns: set<nat>) returns (d: nat)
    ensures forall n :: n in ns ==> n < d
    decreases ns
  {
    d := 0;
    if ns != {} {
      var n :| n in ns;
      var e := Above(ns - {n});
      d := if n < e then e else n + 1;
      assert forall m :: m in ns ==> m == n || m in ns - {n};
    }
  }

  /** A caller that has left the semaphore, or is about to, with a value. */
  predicate BetweenWrites<V>(s: State<V>, c: nat, k: string) {
    c in s.callers && s.callers[c].key == k && Pending(s.callers[c].pc).Some?
  }

  lemma PendingOverwrites<V(!new)>(s: State<V>, c: nat, k: string, v: V, w: V)
    requires Exclusive(s) && c in s.callers && s.callers[c] == Caller(k, OuterSet(v)) && v != w && k !in s.cache
    ensures !NeverOverwrites(s)
  {
    if k in s.holders {
      var es := CanBeFreed(s, c, k);
      FetchedInBetween(Run(s, es).value, c, k, v, w);
      if NeverOverwrites(s) {
        StaysNeverOverwriting(s, es);
      }
    } else {
      FetchedInBetween(s, c, k, v, w);
    }
  }

  lemma LeavingOverwrites<V(!new)>(s: State<V>, c: nat, k: string, v: V, w: V)
    requires Exclusive(s) && c in s.callers && s.callers[c] == Caller(k, Leaving(Some(v))) && v != w && k !in s.cache
    ensures !NeverOverwrites(s)
  {
    var e := Acts(c, Leave);
    var t := Step(s, e).value;
    OneStep(s, e);
    StepIsExclusive(s, e);
    PendingOverwrites(t, c, k, v, w);
    if NeverOverwrites(s) {
      StaysNeverOverwriting(s, [e]);
    }
  }

  /** After an expiry no run writes a value over a different one exactly when no caller of the key is between its two
      writes; as long as there are two different values. What is asked of the state holds in every run without expiry,
      and after every harmless expiry again. */
  lemma ExpiryIsHarmlessIff<V(!new)>(s: State<V>, k: string, x: V, y: V)
    requires Quiet(s) && x != y
    ensures var t := Step(s, Expire(k)).value;
      NeverOverwrites(t) <==> forall c :: !BetweenWrites(s, c, k)
    ensures (forall c :: !BetweenWrites(s, c, k)) ==> Quiet(Step(s, Expire(k)).value)
  {
    var t := Step(s, Expire(k)).value;
    if c :| BetweenWrites(s, c, k) {
      var v := Pending(s.callers[c].pc).value;
      var w := if v == x then y else x;
      StepIsExclusive(s, Expire(k));
      if s.callers[c].pc.OuterSet? {
        PendingOverwrites(t, c, k, v, w);
      } else {
        LeavingOverwrites(t, c, k, v, w);
      }
    } else {
      ExpiryStaysQuiet(s, k);
      QuietNeverOverwrites(t);
    }
  }

  lemma ExpiryStaysQuiet<V>(s: State<V>, k: string)
    requires Quiet(s) && forall c :: !BetweenWrites(s, c, k)
    ensures Quiet(Step(s, Expire(k)).value)
  {
    var t := Step(s, Expire(k)).value;
    forall c | c in t.callers ensures Settled(t, c) {
      assert Settled(s, c) && !BetweenWrites(s, c, k);
    }
  }
}
