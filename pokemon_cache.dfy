/**
 * The two-tier record cache: an in-memory map in front of the browser's
 * durable key-value store, with a one-hour time to live.
 *
 * The pure functions describe each operation on a snapshot of both tiers
 * (`Tiers`); the class `PokemonCache` holds the two maps and performs the
 * operations step by step, each method proved to end in the state the
 * corresponding function gives. `Date.now()` is the explicit parameter `now`.
 */
module Cache {
  import opened Records
  import opened StorageKeys

  /** One hour in milliseconds. */
  const CACHE_DURATION: int := 3600000

  /** `{ data, timestamp }`, the value stored in both tiers. */
  datatype Entry = Entry(data: Pokemon, timestamp: int)

  /**
   * What `localStorage.getItem` yields for a key, as `JSON.parse` sees it:
   * a parsed entry, text that does not parse to an entry (or parses to a value
   * on which reading `timestamp` throws), or the empty string.
   */
  datatype DurableValue = Stored(entry: Entry) | Corrupt | Blank

  /** A snapshot of both tiers. The durable map also holds keys of other applications. */
  datatype Tiers = Tiers(memory: map<int, Entry>, durable: map<string, DurableValue>)

  /** The value a read returns (None for `null`) and the tiers after it. */
  datatype Read = Read(value: Option<Pokemon>, after: Tiers)

  /** `isValid`: an entry is fresh while less than `CACHE_DURATION` has passed since it was stored. */
  predicate IsValid(e: Entry, now: int)
  {
    now - e.timestamp < CACHE_DURATION
  }

  /**
   * `loadFromLocalStorage`: a fresh durable entry is promoted into memory and its data
   * returned; an expired or corrupt one is removed; an empty string is ignored
   * (it is falsy, so nothing is parsed and nothing is removed).
   */
  function LoadFromDurable(t: Tiers, id: int, now: int): Read
  {
    var key := KeyFor(id);
    if key !in t.durable then Read(None, t)
    else match t.durable[key]
      case Blank => Read(None, t)
      case Corrupt => Read(None, t.(durable := t.durable - {key}))
      case Stored(e) =>
        if IsValid(e, now) then Read(Some(e.data), t.(memory := t.memory[id := e]))
        else Read(None, t.(durable := t.durable - {key}))
  }

  /** `get`: a fresh memory entry first, otherwise the durable tier. */
  function Lookup(t: Tiers, id: int, now: int): Read
  {
    if id in t.memory && IsValid(t.memory[id], now) then Read(Some(t.memory[id].data), t)
    else LoadFromDurable(t, id, now)
  }

  /**
   * `set`: the same entry goes to memory and, unless `setItem` throws
   * (`durableWriteOk` false), to the durable key; a failed write leaves that key as it was.
   */
  function Store(t: Tiers, id: int, data: Pokemon, now: int, durableWriteOk: bool): Tiers
  {
    var e := Entry(data, now);
    Tiers(t.memory[id := e],
          if durableWriteOk then t.durable[KeyFor(id) := Stored(e)] else t.durable)
  }

  /** A durable key outlives `cleanExpired` unless it is a `pokemon_` key holding no fresh entry. */
  predicate Survives(key: string, v: DurableValue, now: int)
  {
    !IsPokemonKey(key) || (v.Stored? && IsValid(v.entry, now))
  }

  function SweepMemory(m: map<int, Entry>, now: int): map<int, Entry>
  {
    map id | id in m && IsValid(m[id], now) :: m[id]
  }

  function SweepDurable(d: map<string, DurableValue>, now: int): map<string, DurableValue>
  {
    map k | k in d && Survives(k, d[k], now) :: d[k]
  }

  /** `cleanExpired` at time `now`. */
  function Sweep(t: Tiers, now: int): Tiers
  {
    Tiers(SweepMemory(t.memory, now), SweepDurable(t.durable, now))
  }

  /** `clear`: memory emptied, every `pokemon_` key removed, other keys kept. */
  function Cleared(t: Tiers): Tiers
  {
    Tiers(map[], map k | k in t.durable && !IsPokemonKey(k) :: t.durable[k])
  }

  /** The number of `pokemon_` keys in the durable store. */
  function PokemonKeyCount(d: map<string, DurableValue>): nat
  {
    |set k | k in d && IsPokemonKey(k)|
  }

  /**
   * `calculateHitRate` in exact arithmetic: `total > 0 ? Math.min(total / 100, 1) * 100 : 0`.
   * The result is always a percentage, and equals `min(total, 100)`.
   */
  function HitRate(total: nat): (r: real)
    ensures 0.0 <= r <= 100.0
    ensures r == Min(total, 100) as real
  {
    if total > 0 then (if total as real / 100.0 <= 1.0 then total as real / 100.0 else 1.0) * 100.0
    else 0.0
  }

  /** `getStats()`. */
  datatype CacheStats = CacheStats(memoryCache: nat, localStorageItems: nat, cacheHitRate: real)

  class PokemonCache {
    /** The in-memory `Map` from id to entry. */
    var storage: map<int, Entry>
    /** `localStorage`, shared with whatever else the page stores there. */
    var durable: map<string, DurableValue>

    /** A fresh page: the memory tier is empty, the durable tier is what the browser kept. */
    constructor (persisted: map<string, DurableValue>)
      ensures storage == map[] && durable == persisted
    {
      storage := map[];
      durable := persisted;
    }

    function State(): Tiers
      reads this
    {
      Tiers(storage, durable)
    }

    method Get(id: int, now: int) returns (r: Option<Pokemon>)
      modifies this
      ensures Read(r, State()) == Lookup(old(State()), id, now)
    {
      if id in storage && IsValid(storage[id], now) {
        return Some(storage[id].data);
      }
      r := LoadFromLocalStorage(id, now);
    }

    method LoadFromLocalStorage(id: int, now: int) returns (r: Option<Pokemon>)
      modifies this
      ensures Read(r, State()) == LoadFromDurable(old(State()), id, now)
    {
      var key := KeyFor(id);
      r := None;
      if key in durable {
        match durable[key]
        case Blank =>
        case Corrupt =>
          durable := durable - {key};
        case Stored(e) =>
          if IsValid(e, now) {
            storage := storage[id := e];
            r := Some(e.data);
          } else {
            durable := durable - {key};
          }
      }
    }

    method Set(id: int, data: Pokemon, now: int, durableWriteOk: bool)
      modifies this
      ensures State() == Store(old(State()), id, data, now, durableWriteOk)
    {
      var e := Entry(data, now);
      storage := storage[id := e];
      if durableWriteOk {
        durable := durable[KeyFor(id) := Stored(e)];
      }
    }

    method CleanExpired(now: int)
      modifies this
      ensures State() == Sweep(old(State()), now)
    {
      // Memory tier: walk the entries and delete every one that is no longer fresh.
      var pending := storage.Items;
      while pending != {}
        invariant pending <= old(storage).Items
        invariant durable == old(durable)
        invariant storage.Keys <= old(storage).Keys
        invariant forall id :: id in storage ==> storage[id] == old(storage)[id]
        invariant forall id :: id in old(storage) && ((id, old(storage)[id]) in pending || IsValid(old(storage)[id], now)) ==> id in storage
        invariant forall id :: id in storage && (id, storage[id]) !in pending ==> IsValid(storage[id], now)
        decreases pending
      {
        var entry :| entry in pending;
        var (id, cached) := entry;
        if !IsValid(cached, now) {
          storage := storage - {id};
        }
        pending := pending - {entry};
      }
      IntMapsEqual(storage, SweepMemory(old(storage), now));
      // Durable tier: remove every `pokemon_` key that holds no fresh entry.
      var keys := durable.Keys;
      while keys != {}
        invariant keys <= old(durable).Keys
        invariant storage == SweepMemory(old(storage), now)
        invariant durable.Keys <= old(durable).Keys
        invariant forall k :: k in durable ==> durable[k] == old(durable)[k]
        invariant forall k :: k in old(durable) && (k in keys || Survives(k, old(durable)[k], now)) ==> k in durable
        invariant forall k :: k in durable && k !in keys ==> Survives(k, durable[k], now)
        decreases keys
      {
        var k :| k in keys;
        if IsPokemonKey(k) {
          match durable[k]
          case Stored(e) =>
            if !IsValid(e, now) {
              durable := durable - {k};
            }
          case _ =>
            durable := durable - {k};
        }
        keys := keys - {k};
      }
      assert durable == SweepDurable(old(durable), now);
    }

    method Clear()
      modifies this
      ensures State() == Cleared(old(State()))
    {
      storage := map[];
      var keys := durable.Keys;
      while keys != {}
        invariant storage == map[]
        invariant keys <= old(durable).Keys
        invariant durable.Keys <= old(durable).Keys
        invariant forall k :: k in durable ==> durable[k] == old(durable)[k]
        invariant forall k :: k in old(durable) && (k in keys || !IsPokemonKey(k)) ==> k in durable
        invariant forall k :: k in durable && k !in keys ==> !IsPokemonKey(k)
        decreases keys
      {
        var k :| k in keys;
        if IsPokemonKey(k) {
          durable := durable - {k};
        }
        keys := keys - {k};
      }
      assert durable == Cleared(old(State())).durable;
    }

    /** `getStats`: the counts of both tiers and a hit rate that is always a percentage. */
    function GetStats(): (s: CacheStats)
      reads this
      // The entries in memory, the `pokemon_` keys of the durable store (other keys are
      // not counted, so never more than the store holds), and a "hit rate" that is in
      // fact the memory size capped at 100.
      ensures s.memoryCache == |storage|
      ensures s.localStorageItems == PokemonKeyCount(durable) <= |durable|
      ensures s.cacheHitRate == Min(|storage|, 100) as real
      ensures 0.0 <= s.cacheHitRate <= 100.0
    {
      var pokemonKeys := set k | k in durable && IsPokemonKey(k);
      assert pokemonKeys <= durable.Keys;
      SubsetCard(pokemonKeys, durable.Keys);
      CacheStats(|storage|, PokemonKeyCount(durable), HitRate(|storage|))
    }
  }

  lemma SubsetCard<T>(a: set<T>, b: set<T>)
    requires a <= b
    ensures |a| <= |b|
  {
    assert b == a + (b - a);
  }
}
