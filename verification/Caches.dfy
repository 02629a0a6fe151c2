/** The two caches as objects: the store behind prefixed keys with its read-through `get` and `batch`, and the record of
    semaphores that is filled when a key is first used. */
module Caches {
  import opened Wrappers

  datatype Prefix = SEMAPHORE | TOKEN_INFO | POOL_PAIR_INFO | TOKEN_INFO_SYMBOL | LOAN_SCHEME_INFO | POOL_PAIRS
    | ALL_TOKEN_INFO

  function Digits(p: Prefix): string {
    match p
    case SEMAPHORE => "-1"
    case TOKEN_INFO => "0"
    case POOL_PAIR_INFO => "1"
    case TOKEN_INFO_SYMBOL => "2"
    case LOAN_SCHEME_INFO => "3"
    case POOL_PAIRS => "4"
    case ALL_TOKEN_INFO => "5"
  }

  function Key(p: Prefix, id: string): string {
    Digits(p) + " " + id
  }

  /** Keys of different prefixes or ids never collide. */
  lemma KeysAreDistinct(p: Prefix, id: string, q: Prefix, id': string)
    requires Key(p, id) == Key(q, id')
    ensures p == q && id == id'
  {
    var k := Key(p, id);
    var n, m := |Digits(p)|, |Digits(q)|;
    assert k[0] == Digits(p)[0] == Digits(q)[0];
    assert k[n + 1..] == id && k[m + 1..] == id';
  }

  /** How a fetch ends: with a value, with `undefined`, or with an exception. */
  datatype Fetch<+V> = Gives(value: V) | Undefined | Throws

  /** What the store or else the fetch gives. */
  function Lookup<V>(store: map<string, V>, p: Prefix, id: string, fetch: string -> Fetch<V>): Fetch<V> {
    if Key(p, id) in store then Gives(store[Key(p, id)]) else fetch(id)
  }

  /** The store after that: a fetched value is kept, a missing one is not. */
  function Filled<V>(store: map<string, V>, p: Prefix, id: string, fetch: string -> Fetch<V>): (r: map<string, V>)
    ensures store.Keys <= r.Keys && forall k :: k in store ==> r[k] == store[k]
  {
    if Key(p, id) !in store && fetch(id).Gives? then store[Key(p, id) := fetch(id).value] else store
  }

  /** What the store alone gives. */
  function InStore<V>(store: map<string, V>, p: Prefix, id: string): Fetch<V> {
    if Key(p, id) in store then Gives(store[Key(p, id)]) else Undefined
  }

  /** A look-up changes no other one. */
  lemma FilledElsewhere<V>(store: map<string, V>, p: Prefix, id: string, fetch: string -> Fetch<V>, other: string)
    ensures var t := Filled(store, p, id, fetch);
      && Lookup(t, p, other, fetch) == Lookup(store, p, other, fetch)
      && (other != id ==> InStore(t, p, other) == InStore(store, p, other))
  {
    if Key(p, other) == Key(p, id) {
      KeysAreDistinct(p, other, p, id);
    }
  }

  /** The store and the records after looking up some ids, none of which throws. */
  ghost predicate Batched<V>(was: map<string, V>, now: map<string, V>, p: Prefix, ids: seq<string>,
                             fetch: string -> Fetch<V>, records: map<string, Fetch<V>>)
  {
    && records.Keys == (set id | id in ids)
    && (forall id :: id in ids ==> records[id] == InStore(now, p, id) == Lookup(was, p, id, fetch))
    && (forall id :: Lookup(now, p, id, fetch) == Lookup(was, p, id, fetch))
    && (forall k :: k in was ==> k in now && now[k] == was[k])
    && (forall k :: k in now && k !in was ==> exists id :: id in ids && k == Key(p, id))
  }

  lemma LookedUpAgain<V>(was: map<string, V>, now: map<string, V>, p: Prefix, ids: seq<string>,
                         fetch: string -> Fetch<V>, records: map<string, Fetch<V>>, id: string)
    requires Batched(was, now, p, ids, fetch, records)
    ensures Lookup(now, p, id, fetch) == Lookup(was, p, id, fetch)
  {
  }

  lemma BatchOne<V>(was: map<string, V>, now: map<string, V>, p: Prefix, ids: seq<string>,
                    fetch: string -> Fetch<V>, records: map<string, Fetch<V>>, id: string)
    requires Batched(was, now, p, ids, fetch, records) && !Lookup(now, p, id, fetch).Throws?
    ensures Batched(was, Filled(now, p, id, fetch), p, ids + [id], fetch, records[id := Lookup(now, p, id, fetch)])
  {
    var t, more := Filled(now, p, id, fetch), ids + [id];
    assert forall other :: other in more <==> other in ids || other == id;
    forall other ensures Lookup(t, p, other, fetch) == Lookup(was, p, other, fetch) {
      FilledElsewhere(now, p, id, fetch, other);
    }
    forall other | other in ids && other != id ensures InStore(t, p, other) == Lookup(was, p, other, fetch) {
      FilledElsewhere(now, p, id, fetch, other);
    }
  }

  class GlobalCache<V> {
    var store: map<string, V>

    constructor ()
      ensures store == map[]
    {
      store := map[];
    }

    method Get(p: Prefix, id: string, fetch: string -> Fetch<V>) returns (r: Fetch<V>)
      modifies this
      ensures r == Lookup(old(store), p, id, fetch) && store == Filled(old(store), p, id, fetch)
      ensures r.Throws? <==> Key(p, id) !in old(store) && fetch(id).Throws?
      ensures r.Undefined? <==> Key(p, id) !in old(store) && fetch(id).Undefined?
      ensures store == if r.Gives? then old(store)[Key(p, id) := r.value] else old(store)
    {
      if Key(p, id) in store {
        return Gives(store[Key(p, id)]);
      }
      var fetched := fetch(id);
      if !fetched.Gives? {
        return fetched;
      }
      store := store[Key(p, id) := fetched.value];
      r := fetched;
    }

    /** One record per id, or an exception exactly if looking up one of the ids throws. Ids do not disturb one another,
        so each record is what looking up that id alone would have given, and other keys stay as they were; what was
        fetched ahead of an exception stays too. */
    method Batch(p: Prefix, ids: seq<string>, fetch: string -> Fetch<V>) returns (r: Option<map<string, Fetch<V>>>)
      modifies this
      ensures r.Some? <==> forall id :: id in ids ==> !Lookup(old(store), p, id, fetch).Throws?
      ensures r.Some? ==> r.value.Keys == set id | id in ids
      ensures r.Some? ==> forall id :: id in ids ==> r.value[id] == Lookup(old(store), p, id, fetch)
      ensures r.Some? ==> forall id :: id in ids ==> InStore(store, p, id) == Lookup(old(store), p, id, fetch)
      ensures forall k :: k in old(store) ==> k in store && store[k] == old(store)[k]
      ensures forall k :: k in store && k !in old(store) ==> exists id :: id in ids && k == Key(p, id)
    {
      var records: map<string, Fetch<V>> := map[];
      ghost var was := store;
      for i := 0 to |ids|
        invariant Batched(was, store, p, ids[..i], fetch, records)
      {
        LookedUpAgain(was, store, p, ids[..i], fetch, records, ids[i]);
        if !Lookup(store, p, ids[i], fetch).Throws? {
          BatchOne(was, store, p, ids[..i], fetch, records, ids[i]);
        }
        assert ids[..i + 1] == ids[..i] + [ids[i]];
        var record := Get(p, ids[i], fetch);
        if record.Throws? {
          return None;
        }
        records := records[ids[i] := record];
      }
      assert ids[..|ids|] == ids;
      r := Some(records);
    }
  }

  class Semaphore {
    var taken: bool

    constructor ()
      ensures !taken
    {
      taken := false;
    }
  }

  /** How the wait for a semaphore ends: by the timeout, or when its holder gives it back, with what that has cached. */
  datatype Wait<+V> = TimedOut | Released(cached: Option<V>)

  function Meanwhile<V>(store: map<string, V>, key: string, wait: Wait<V>): map<string, V> {
    if wait.Released? && wait.cached.Some? then store[Key(SEMAPHORE, key) := wait.cached.value] else store
  }

  class SemaphoreCache<V> {
    const cache: GlobalCache<V>
    var semaphores: map<string, Semaphore>

    /** Every key has a semaphore of its own. */
    ghost predicate Valid()
      reads this
    {
      forall k, l :: k in semaphores && l in semaphores && semaphores[k] == semaphores[l] ==> k == l
    }

    constructor ()
      ensures Valid() && semaphores == map[] && fresh(cache) && cache.store == map[]
    {
      cache := new GlobalCache<V>();
      semaphores := map[];
    }

    /** The semaphore of a key is made when it is first asked for, and stays the same from then on. */
    method AcquireSemaphore(key: string) returns (s: Semaphore)
      requires Valid()
      modifies this`semaphores
      ensures Valid() && semaphores == old(semaphores)[key := s]
      ensures if key in old(semaphores) then s == old(semaphores)[key] else fresh(s) && !s.taken
    {
      if key !in semaphores {
        var made := new Semaphore();
        semaphores := semaphores[key := made];
      }
      s := semaphores[key];
    }

    /** Another caller holds the semaphore of the key, which is not cached. */
    ghost predicate Busy(key: string)
      reads this, cache, set k | k in semaphores :: semaphores[k]
    {
      Key(SEMAPHORE, key) !in cache.store && key in semaphores && semaphores[key].taken
    }

    /** What is cached or else what is fetched, which is then cached, and the semaphore is given back, also when the
        fetch throws. If another caller holds it this one waits for it as `wait` says, and then looks again, so that
        what the other one has cached is not fetched. Nothing is locked on a hit. */
    method Get(key: string, wait: Wait<V>, fetched: Fetch<V>) returns (r: Fetch<V>)
      requires Valid()
      modifies this`semaphores, cache, set k | k in semaphores :: semaphores[k]
      ensures Valid()
      ensures old(Busy(key)) && wait.TimedOut? ==> r == Throws && cache.store == old(cache.store)
      ensures !(old(Busy(key)) && wait.TimedOut?) ==>
        var store := if old(Busy(key)) then Meanwhile(old(cache.store), key, wait) else old(cache.store);
        r == Lookup(store, SEMAPHORE, key, _ => fetched) && cache.store == Filled(store, SEMAPHORE, key, _ => fetched)
      ensures Key(SEMAPHORE, key) in old(cache.store) ==> semaphores == old(semaphores)
      ensures forall k :: k in semaphores ==>
        if k in old(semaphores) then semaphores[k] == old(semaphores[k]) else k == key
      ensures forall k :: k in semaphores ==>
        (semaphores[k].taken <==>
          k in old(semaphores) && old(semaphores[k].taken) && !(k == key && old(Busy(key)) && !wait.TimedOut?))
    {
      if Key(SEMAPHORE, key) in cache.store {
        return Gives(cache.store[Key(SEMAPHORE, key)]);
      }
      var semaphore := AcquireSemaphore(key);
      if semaphore.taken {
        if wait.TimedOut? {
          return Throws;
        }
        cache.store := Meanwhile(cache.store, key, wait);
      }
      semaphore.taken := true;
      r := cache.Get(SEMAPHORE, key, _ => fetched);
      semaphore.taken := false;
      if r.Gives? {
        cache.store := cache.store[Key(SEMAPHORE, key) := r.value];
      }
    }
  }
}
