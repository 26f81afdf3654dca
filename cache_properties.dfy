/** What the cache promises its callers, stated over snapshots of both tiers. */
module CacheProperties {
  import opened Records
  import opened StorageKeys
  import opened Cache

  /** Within the time to live, `get` after `set` returns exactly the stored data, from memory, changing nothing. */
  lemma SetThenGetHitsMemory(t: Tiers, id: int, data: Pokemon, storedAt: int, now: int, durableWriteOk: bool)
    requires now - storedAt < CACHE_DURATION
    ensures var s := Store(t, id, data, storedAt, durableWriteOk);
      Lookup(s, id, now) == Read(Some(data), s)
  {
  }

  /**
   * Once the time to live has passed, `get` after a successful `set` returns nothing:
   * the expired memory entry stays where it is and the expired durable copy is removed.
   */
  lemma SetThenGetAfterExpiry(t: Tiers, id: int, data: Pokemon, storedAt: int, now: int)
    requires now - storedAt >= CACHE_DURATION
    ensures var s := Store(t, id, data, storedAt, true);
      Lookup(s, id, now) == Read(None, Tiers(s.memory, s.durable - {KeyFor(id)}))
  {
  }

  /** `set` writes one memory slot and one durable key; every other id keeps its entries in both tiers. */
  lemma StoreTouchesOnlyItsId(t: Tiers, id: int, data: Pokemon, storedAt: int, durableWriteOk: bool, other: int)
    requires other != id
    ensures var s := Store(t, id, data, storedAt, durableWriteOk);
      && (other in s.memory <==> other in t.memory)
      && (other in t.memory ==> s.memory[other] == t.memory[other])
      && (KeyFor(other) in s.durable <==> KeyFor(other) in t.durable)
      && (KeyFor(other) in t.durable ==> s.durable[KeyFor(other)] == t.durable[KeyFor(other)])
  {
    KeyForInjective(id, other);
  }

  /** A memory entry that has expired is never returned from memory, and `get` does not delete it. */
  lemma ExpiredMemoryEntryIsSkippedNotDeleted(t: Tiers, id: int, now: int)
    requires id in t.memory && !IsValid(t.memory[id], now)
    ensures Lookup(t, id, now) == LoadFromDurable(t, id, now)
    ensures id in Lookup(t, id, now).after.memory
  {
  }

  /**
   * On a memory miss the durable tier decides: a fresh entry is promoted into memory and
   * its data returned; an expired or corrupt one is removed and nothing is returned; an
   * absent key or an empty string leaves both tiers as they were.
   */
  lemma MissFallsBackToDurable(t: Tiers, id: int, now: int)
    requires !(id in t.memory && IsValid(t.memory[id], now))
    ensures var key := KeyFor(id);
      && (key in t.durable && t.durable[key].Stored? && IsValid(t.durable[key].entry, now) ==>
            Lookup(t, id, now) == Read(Some(t.durable[key].entry.data), Tiers(t.memory[id := t.durable[key].entry], t.durable)))
      && (key in t.durable && (t.durable[key].Corrupt? || (t.durable[key].Stored? && !IsValid(t.durable[key].entry, now))) ==>
            Lookup(t, id, now) == Read(None, Tiers(t.memory, t.durable - {key})))
      && (key !in t.durable || t.durable[key].Blank? ==>
            Lookup(t, id, now) == Read(None, t))
  {
  }

  /** `get` only moves entries from the durable tier into memory and removes durable keys; it stores nothing new. */
  lemma LookupStoresNothing(t: Tiers, id: int, now: int)
    ensures OnlyPromotesAndPurges(t, Lookup(t, id, now).after)
  {
  }

  /**
   * The effect of reads: the durable tier only loses keys, and every memory entry is
   * either one that was there or a copy of the durable entry under the same id.
   */
  ghost predicate OnlyPromotesAndPurges(t: Tiers, u: Tiers)
  {
    && (forall k :: k in u.durable ==> k in t.durable && u.durable[k] == t.durable[k])
    && (forall id :: id in u.memory ==>
          (id in t.memory && u.memory[id] == t.memory[id])
          || (KeyFor(id) in t.durable && t.durable[KeyFor(id)] == Stored(u.memory[id])))
  }

  lemma PromotesAndPurgesTransitive(t: Tiers, u: Tiers, v: Tiers)
    requires OnlyPromotesAndPurges(t, u) && OnlyPromotesAndPurges(u, v)
    ensures OnlyPromotesAndPurges(t, v)
  {
  }

  /**
   * `cleanExpired` at time `now` removes exactly the entries that are not fresh and the
   * `pokemon_` keys that hold no fresh entry (corrupt text and empty strings included);
   * every other key of the durable store is untouched.
   */
  lemma SweepRemovesExactlyTheStale(t: Tiers, now: int)
    ensures var s := Sweep(t, now);
      && (forall id :: id in s.memory <==> id in t.memory && IsValid(t.memory[id], now))
      && (forall id :: id in s.memory ==> s.memory[id] == t.memory[id])
      && (forall k :: k in s.durable <==> k in t.durable && Survives(k, t.durable[k], now))
      && (forall k :: k in s.durable ==> s.durable[k] == t.durable[k])
      && (forall k :: k in t.durable && !IsPokemonKey(k) ==> k in s.durable)
  {
  }

  /** Cleaning twice at the same time is the same as cleaning once. */
  lemma SweepIdempotent(t: Tiers, now: int)
    ensures Sweep(Sweep(t, now), now) == Sweep(t, now)
  {
    var once := Sweep(t, now);
    var twice := Sweep(once, now);
    IntMapsEqual(twice.memory, once.memory);
    assert twice.durable == once.durable;
  }

  /** Cleaning never changes what `get` returns at the same time. */
  lemma SweepKeepsLookups(t: Tiers, id: int, now: int)
    ensures Lookup(Sweep(t, now), id, now).value == Lookup(t, id, now).value
  {
    var s := Sweep(t, now);
    var key := KeyFor(id);
    KeyRoundTrip(id);
    if id in t.memory && IsValid(t.memory[id], now) {
      assert id in s.memory && s.memory[id] == t.memory[id];
    } else {
      assert id !in s.memory;
      if key in t.durable {
        if Survives(key, t.durable[key], now) {
          assert key in s.durable && s.durable[key] == t.durable[key];
        } else {
          assert key !in s.durable;
        }
      } else {
        assert key !in s.durable;
      }
    }
  }

  /** After `clear` no id is found, and the keys other code stored are still there. */
  lemma ClearForgetsEveryRecord(t: Tiers, id: int, now: int)
    ensures Lookup(Cleared(t), id, now) == Read(None, Cleared(t))
    ensures forall k :: k in t.durable && !IsPokemonKey(k) ==> k in Cleared(t).durable && Cleared(t).durable[k] == t.durable[k]
    ensures forall k :: k in Cleared(t).durable ==> !IsPokemonKey(k)
  {
    KeyRoundTrip(id);
  }

  /** The statistics count the memory tier and the `pokemon_` keys only. */
  lemma StatsIgnoreOtherKeys(d: map<string, DurableValue>, other: string, v: DurableValue)
    requires !IsPokemonKey(other) && other !in d
    ensures PokemonKeyCount(d[other := v]) == PokemonKeyCount(d)
  {
    assert (set k | k in d[other := v] && IsPokemonKey(k)) == (set k | k in d && IsPokemonKey(k));
  }

  /** After `clear` the statistics report nothing in memory, no `pokemon_` key, and a zero rate. */
  lemma ClearZeroesStats(t: Tiers)
    ensures |Cleared(t).memory| == 0 && PokemonKeyCount(Cleared(t).durable) == 0
    ensures HitRate(|Cleared(t).memory|) == 0.0
  {
    var d := Cleared(t).durable;
    assert (set k | k in d && IsPokemonKey(k)) == {};
  }

  /**
   * `set` with a successful durable write adds one `pokemon_` key when the id had none,
   * and none when it had one; a failed write adds none.
   */
  lemma StoreCountsItsKeyOnce(t: Tiers, id: int, data: Pokemon, now: int, durableWriteOk: bool)
    ensures var n := PokemonKeyCount(Store(t, id, data, now, durableWriteOk).durable);
      n == PokemonKeyCount(t.durable) + (if durableWriteOk && KeyFor(id) !in t.durable then 1 else 0)
  {
    KeyRoundTrip(id);
    var before := set k | k in t.durable && IsPokemonKey(k);
    var after := set k | k in Store(t, id, data, now, durableWriteOk).durable && IsPokemonKey(k);
    if durableWriteOk {
      assert after == before + {KeyFor(id)};
      if KeyFor(id) !in t.durable {
        assert KeyFor(id) !in before;
      } else {
        assert before + {KeyFor(id)} == before;
      }
    } else {
      assert after == before;
    }
  }

  /** `cleanExpired` never adds a `pokemon_` key. */
  lemma SweepNeverAddsKeys(t: Tiers, now: int)
    ensures PokemonKeyCount(Sweep(t, now).durable) <= PokemonKeyCount(t.durable)
  {
    var before := set k | k in t.durable && IsPokemonKey(k);
    var after := set k | k in Sweep(t, now).durable && IsPokemonKey(k);
    assert after <= before;
    SubsetCard(after, before);
  }
}
