/**
 * What `fetchSinglePokemon` promises: excluded ids are never touched, a failed call
 * stores nothing, a returned record either came out of the cache or was normalized
 * from the last reply and stored under the id that was drawn, and the loop gives up
 * after ten spent attempts.
 */
module FetchProperties {
  import opened Records
  import opened StorageKeys
  import opened Cache
  import opened CacheProperties
  import opened Normalization
  import opened FetchSingle

  /** `p` is what the cache holds for `id`, in memory or in the durable tier. */
  ghost predicate CachedUnder(t: Tiers, id: int, p: Pokemon)
  {
    || (id in t.memory && t.memory[id].data == p)
    || (KeyFor(id) in t.durable && t.durable[KeyFor(id)].Stored?
        && t.durable[KeyFor(id)].entry.data == p)
  }

  /** Like `OnlyPromotesAndPurges`, except at `id` and its durable key, which are written. */
  ghost predicate OnlyPromotesAndPurgesBut(t: Tiers, u: Tiers, id: int)
  {
    && (forall k :: k in u.durable && k != KeyFor(id) ==> k in t.durable && u.durable[k] == t.durable[k])
    && (forall i :: i in u.memory && i != id ==>
          (i in t.memory && u.memory[i] == t.memory[i])
          || (KeyFor(i) in t.durable && t.durable[KeyFor(i)] == Stored(u.memory[i])))
  }

  /** The memory entry at `id` and the durable value under its key are as in `t`. */
  ghost predicate SameAt(t: Tiers, u: Tiers, id: int)
  {
    && (id in u.memory <==> id in t.memory)
    && (id in t.memory ==> u.memory[id] == t.memory[id])
    && (KeyFor(id) in u.durable <==> KeyFor(id) in t.durable)
    && (KeyFor(id) in t.durable ==> u.durable[KeyFor(id)] == t.durable[KeyFor(id)])
  }

  lemma SameAtTransitive(t: Tiers, u: Tiers, v: Tiers, x: int)
    requires SameAt(t, u, x) && SameAt(u, v, x)
    ensures SameAt(t, v, x)
  {
  }

  // ---------------------------------------------------------------------------
  // One attempt
  // ---------------------------------------------------------------------------

  /** On a cache hit the attempt returns the cached record, whatever the upstream would have replied. */
  lemma CacheHitSkipsUpstream(t: Tiers, exclude: set<int>, d: Draw, signal: bool, other: Reply)
    requires !(signal && d.aborted) && SampleId(d.random) !in exclude
    requires Lookup(t, SampleId(d.random), d.now).value.Some?
    ensures var read := Lookup(t, SampleId(d.random), d.now);
      && TryOnce(t, exclude, d, signal) == Found(read.value.value, read.after)
      && TryOnce(t, exclude, d.(reply := other), signal) == TryOnce(t, exclude, d, signal)
      && OnlyPromotesAndPurges(t, read.after)
  {
    LookupStoresNothing(t, SampleId(d.random), d.now);
  }

  /**
   * A non-ok response, a rejection that is not an abort, or a body that fails to
   * normalize spends the attempt and writes nothing to the cache.
   */
  lemma FailedReplyCostsAnAttempt(t: Tiers, exclude: set<int>, d: Draw, signal: bool)
    requires !(signal && d.aborted) && SampleId(d.random) !in exclude
    requires Lookup(t, SampleId(d.random), d.now).value.None?
    requires || d.reply.NotOk?
             || d.reply == Rejected(false)
             || (d.reply.Body? && !(signal && d.reply.abortedAfter) && Normalize(d.reply.raw).None?)
    ensures TryOnce(t, exclude, d, signal).Retry?
    ensures OnlyPromotesAndPurges(t, TryOnce(t, exclude, d, signal).after)
  {
    LookupStoresNothing(t, SampleId(d.random), d.now);
  }

  /**
   * On a cache miss, an ok body that normalizes ends the attempt: its record is
   * returned and stored under the id drawn, in memory and, when the write succeeds,
   * under the durable key; the record keeps the upstream id, which may differ from
   * the id drawn.
   */
  lemma FreshBodyIsStored(t: Tiers, exclude: set<int>, d: Draw, signal: bool, p: Pokemon)
    requires !(signal && d.aborted) && SampleId(d.random) !in exclude
    requires Lookup(t, SampleId(d.random), d.now).value.None?
    requires d.reply.Body? && !(signal && d.reply.abortedAfter) && Normalize(d.reply.raw) == Some(p)
    ensures var id := SampleId(d.random);
      var after := Store(Lookup(t, id, d.now).after, id, p, d.reply.savedAt, d.reply.durableWriteOk);
      && TryOnce(t, exclude, d, signal) == Found(p, after)
      && p.id == d.reply.raw.id
      && id in after.memory && after.memory[id] == Entry(p, d.reply.savedAt)
      && (d.reply.durableWriteOk ==> KeyFor(id) in after.durable && after.durable[KeyFor(id)] == Stored(Entry(p, d.reply.savedAt)))
  {
  }

  /** A lookup that finds nothing leaves the memory tier as it was: only a hit promotes. */
  lemma MissKeepsMemory(t: Tiers, id: int, now: int)
    requires Lookup(t, id, now).value.None?
    ensures Lookup(t, id, now).after.memory == t.memory
  {
  }

  /** Every step that does not end the call leaves the cache with promotions and purges only. */
  lemma RetryStoresNothing(t: Tiers, exclude: set<int>, d: Draw, signal: bool)
    requires TryOnce(t, exclude, d, signal).Retry? || TryOnce(t, exclude, d, signal).AbortedAfterDraw?
    ensures OnlyPromotesAndPurges(t, TryOnce(t, exclude, d, signal).after)
  {
    var id := SampleId(d.random);
    if id !in exclude {
      LookupStoresNothing(t, id, d.now);
    }
  }

  /** An attempt neither reads nor writes an excluded id, nor an id other than the one drawn. */
  lemma StepLeavesOthersAlone(t: Tiers, exclude: set<int>, d: Draw, signal: bool, x: int)
    requires !TryOnce(t, exclude, d, signal).AbortedBeforeDraw?
    requires x in exclude || x != SampleId(d.random)
    ensures SameAt(t, TryOnce(t, exclude, d, signal).after, x)
  {
    var id := SampleId(d.random);
    if id !in exclude {
      assert x != id;
      KeyForInjective(x, id);
      var read := Lookup(t, id, d.now);
      assert SameAt(t, read.after, x);
      match TryOnce(t, exclude, d, signal)
      case Found(p, after) =>
        if after != read.after {
          StoreTouchesOnlyItsId(read.after, id, p, d.reply.savedAt, d.reply.durableWriteOk, x);
        }
      case _ =>
    }
  }

  // ---------------------------------------------------------------------------
  // The whole call
  // ---------------------------------------------------------------------------

  /** A signal that is already aborted ends the call before anything is drawn or read. */
  lemma FetchAbortsImmediately(t: Tiers, exclude: set<int>, env: Env, cursor: nat, attempts: nat)
    requires attempts < MAX_ATTEMPTS && env(cursor).aborted
    ensures FetchLoop(t, exclude, env, cursor, attempts, true) == Fetch(None, t, cursor)
  {
  }

  /** An abort seen once the request is under way also ends the call with `null`. */
  lemma AbortAfterRequestReturnsNull(t: Tiers, exclude: set<int>, env: Env, cursor: nat, attempts: nat)
    requires attempts < MAX_ATTEMPTS
    requires TryOnce(t, exclude, env(cursor), true).AbortedAfterDraw?
    ensures FetchLoop(t, exclude, env, cursor, attempts, true).pokemon == None
    ensures FetchLoop(t, exclude, env, cursor, attempts, true).cursor == cursor + 1
  {
  }

  /** The entries of an excluded id, in both tiers, are exactly as they were. */
  lemma {:induction false} FetchLeavesExcludedAlone(t: Tiers, exclude: set<int>, env: Env, cursor: nat, attempts: nat, signal: bool, x: int)
    requires attempts <= MAX_ATTEMPTS && x in exclude
    ensures SameAt(t, FetchLoop(t, exclude, env, cursor, attempts, signal).after, x)
    decreases MAX_ATTEMPTS - attempts
  {
    if attempts < MAX_ATTEMPTS {
      var step := TryOnce(t, exclude, env(cursor), signal);
      if !step.AbortedBeforeDraw? {
        StepLeavesOthersAlone(t, exclude, env(cursor), signal, x);
        assert SameAt(t, step.after, x);
        if step.Retry? {
          FetchLeavesExcludedAlone(step.after, exclude, env, cursor + 1, attempts + 1, signal, x);
          var r := FetchLoop(step.after, exclude, env, cursor + 1, attempts + 1, signal);
          assert r == FetchLoop(t, exclude, env, cursor, attempts, signal);
          SameAtTransitive(t, step.after, r.after, x);
        }
      }
    }
  }

  /** A call that returns `null` has stored nothing: it has only promoted and purged. */
  lemma {:induction false} FailedFetchStoresNothing(t: Tiers, exclude: set<int>, env: Env, cursor: nat, attempts: nat, signal: bool)
    requires attempts <= MAX_ATTEMPTS
    ensures var r := FetchLoop(t, exclude, env, cursor, attempts, signal);
      r.pokemon.None? ==> OnlyPromotesAndPurges(t, r.after)
    decreases MAX_ATTEMPTS - attempts
  {
    if attempts < MAX_ATTEMPTS {
      var step := TryOnce(t, exclude, env(cursor), signal);
      if step.Retry? || step.AbortedAfterDraw? {
        RetryStoresNothing(t, exclude, env(cursor), signal);
      }
      if step.Retry? {
        FailedFetchStoresNothing(step.after, exclude, env, cursor + 1, attempts + 1, signal);
        var r := FetchLoop(step.after, exclude, env, cursor + 1, attempts + 1, signal);
        if r.pokemon.None? {
          PromotesAndPurgesTransitive(t, step.after, r.after);
        }
      }
    }
  }

  /** What the record returned by the call can be, told from the last attempt it read. */
  ghost predicate Provenance(t: Tiers, exclude: set<int>, env: Env, signal: bool, r: Fetch)
    requires r.pokemon.Some? && r.cursor > 0
  {
    var p := r.pokemon.value;
    var d := env(r.cursor - 1);
    var id := SampleId(d.random);
    && !(signal && d.aborted)
    && id !in exclude
    && (|| (CachedUnder(t, id, p) && OnlyPromotesAndPurges(t, r.after))
        || (&& d.reply.Body?
            && Normalize(d.reply.raw) == Some(p)
            && id in r.after.memory && r.after.memory[id] == Entry(p, d.reply.savedAt)
            && (d.reply.durableWriteOk ==> KeyFor(id) in r.after.durable && r.after.durable[KeyFor(id)] == Stored(Entry(p, d.reply.savedAt)))
            && OnlyPromotesAndPurgesBut(t, r.after, id)))
  }

  lemma CachedUnderKept(t: Tiers, u: Tiers, id: int, p: Pokemon)
    requires OnlyPromotesAndPurges(t, u) && CachedUnder(u, id, p)
    ensures CachedUnder(t, id, p)
  {
  }

  lemma ButAfterPromotes(t: Tiers, u: Tiers, v: Tiers, id: int)
    requires OnlyPromotesAndPurges(t, u) && OnlyPromotesAndPurgesBut(u, v, id)
    ensures OnlyPromotesAndPurgesBut(t, v, id)
  {
  }

  /** One attempt that finds a record satisfies the provenance statement for that attempt. */
  lemma FoundStepProvenance(t: Tiers, exclude: set<int>, env: Env, cursor: nat, signal: bool)
    requires TryOnce(t, exclude, env(cursor), signal).Found?
    ensures var step := TryOnce(t, exclude, env(cursor), signal);
      Provenance(t, exclude, env, signal, Fetch(Some(step.pokemon), step.after, cursor + 1))
  {
    var d := env(cursor);
    var id := SampleId(d.random);
    var read := Lookup(t, id, d.now);
    LookupStoresNothing(t, id, d.now);
    if read.value.None? {
      var p := Normalize(d.reply.raw).value;
      var s := Store(read.after, id, p, d.reply.savedAt, d.reply.durableWriteOk);
      assert OnlyPromotesAndPurgesBut(read.after, s, id);
      ButAfterPromotes(t, read.after, s, id);
    }
  }

  /**
   * A record returned by the call was drawn under an id outside `exclude`, and it is
   * either what the cache already held for that id (nothing stored), or the normalized
   * body of the last reply, stored under that id and nowhere else.
   */
  lemma {:induction false} FetchProvenance(t: Tiers, exclude: set<int>, env: Env, cursor: nat, attempts: nat, signal: bool)
    requires attempts <= MAX_ATTEMPTS
    ensures var r := FetchLoop(t, exclude, env, cursor, attempts, signal);
      r.pokemon.Some? ==> r.cursor > cursor && Provenance(t, exclude, env, signal, r)
    decreases MAX_ATTEMPTS - attempts
  {
    if attempts < MAX_ATTEMPTS {
      var step := TryOnce(t, exclude, env(cursor), signal);
      if step.Found? {
        FoundStepProvenance(t, exclude, env, cursor, signal);
      } else if step.Retry? {
        RetryStoresNothing(t, exclude, env(cursor), signal);
        FetchProvenance(step.after, exclude, env, cursor + 1, attempts + 1, signal);
        var r := FetchLoop(step.after, exclude, env, cursor + 1, attempts + 1, signal);
        if r.pokemon.Some? {
          ProvenanceThroughRetry(t, step.after, exclude, env, signal, r);
        }
      }
    }
  }

  /** Provenance relative to the cache after a spent attempt is provenance relative to the cache before it. */
  lemma ProvenanceThroughRetry(t: Tiers, u: Tiers, exclude: set<int>, env: Env, signal: bool, r: Fetch)
    requires OnlyPromotesAndPurges(t, u)
    requires r.pokemon.Some? && r.cursor > 0 && Provenance(u, exclude, env, signal, r)
    ensures Provenance(t, exclude, env, signal, r)
  {
    var id := SampleId(env(r.cursor - 1).random);
    if CachedUnder(u, id, r.pokemon.value) && OnlyPromotesAndPurges(u, r.after) {
      CachedUnderKept(t, u, id, r.pokemon.value);
      PromotesAndPurgesTransitive(t, u, r.after);
    } else {
      ButAfterPromotes(t, u, r.after, id);
    }
  }

  /** Every draw is `Retry` without touching the cache from `cursor` on: the call gives up, `null`. */
  ghost predicate AllExcluded(exclude: set<int>, env: Env, cursor: nat, n: nat, signal: bool)
  {
    forall c :: cursor <= c < cursor + n ==> !(signal && env(c).aborted) && SampleId(env(c).random) in exclude
  }

  /** When every id drawn is excluded, the call spends its remaining attempts, changes nothing and returns `null`. */
  lemma {:induction false} AllExcludedGivesUp(t: Tiers, exclude: set<int>, env: Env, cursor: nat, attempts: nat, signal: bool)
    requires attempts <= MAX_ATTEMPTS
    requires AllExcluded(exclude, env, cursor, MAX_ATTEMPTS - attempts, signal)
    ensures FetchLoop(t, exclude, env, cursor, attempts, signal) == Fetch(None, t, cursor + (MAX_ATTEMPTS - attempts))
    decreases MAX_ATTEMPTS - attempts
  {
    if attempts < MAX_ATTEMPTS {
      assert TryOnce(t, exclude, env(cursor), signal) == Retry(t);
      AllExcludedGivesUp(t, exclude, env, cursor + 1, attempts + 1, signal);
    }
  }

  /**
   * A request rejected with an error that is not an AbortError spends one attempt and
   * the loop goes on: when the next draw is a miss answered by a body that normalizes,
   * the call returns that record after reading two attempts, and the first id drawn
   * gets no memory entry of its own.
   */
  lemma RejectedThenBody(t: Tiers, exclude: set<int>, env: Env, cursor: nat, attempts: nat, signal: bool, p: Pokemon)
    requires attempts + 1 < MAX_ATTEMPTS
    requires var d := env(cursor);
      && !(signal && d.aborted) && SampleId(d.random) !in exclude
      && Lookup(t, SampleId(d.random), d.now).value.None?
      && d.reply == Rejected(false)
    requires var u := Lookup(t, SampleId(env(cursor).random), env(cursor).now).after;
      var e := env(cursor + 1);
      && !(signal && e.aborted) && SampleId(e.random) !in exclude
      && Lookup(u, SampleId(e.random), e.now).value.None?
      && e.reply.Body? && !(signal && e.reply.abortedAfter) && Normalize(e.reply.raw) == Some(p)
    ensures var r := FetchLoop(t, exclude, env, cursor, attempts, signal);
      var first := SampleId(env(cursor).random);
      && r.pokemon == Some(p) && r.cursor == cursor + 2
      && (first != SampleId(env(cursor + 1).random) ==>
            (first in r.after.memory <==> first in t.memory)
            && (first in t.memory ==> r.after.memory[first] == t.memory[first]))
  {
    var d := env(cursor);
    var first := SampleId(d.random);
    var u := Lookup(t, first, d.now).after;
    MissKeepsMemory(t, first, d.now);
    assert TryOnce(t, exclude, d, signal) == Retry(u);
    var e := env(cursor + 1);
    var second := SampleId(e.random);
    FreshBodyIsStored(u, exclude, e, signal, p);
    MissKeepsMemory(u, second, e.now);
    var after := Store(Lookup(u, second, e.now).after, second, p, e.reply.savedAt, e.reply.durableWriteOk);
    assert FetchLoop(u, exclude, env, cursor + 1, attempts + 1, signal) == Fetch(Some(p), after, cursor + 2);
    assert after.memory == u.memory[second := Entry(p, e.reply.savedAt)];
  }

  // ---------------------------------------------------------------------------
  // When a call succeeds at its first attempt
  // ---------------------------------------------------------------------------

  /** Every record the cache holds, in either tier, is filed under its own id. */
  ghost predicate Coherent(t: Tiers)
  {
    && (forall i :: i in t.memory ==> t.memory[i].data.id == i)
    && (forall i :: KeyFor(i) in t.durable && t.durable[KeyFor(i)].Stored? ==> t.durable[KeyFor(i)].entry.data.id == i)
  }

  /** The draw is not aborted, and the upstream answers it with a readable document of the very id drawn. */
  ghost predicate GoodDraw(d: Draw)
  {
    && !d.aborted && d.reply.Body? && !d.reply.abortedAfter
    && Readable(d.reply.raw) && d.reply.raw.id == SampleId(d.random)
  }

  /** A read of a coherent cache returns a record of the id asked for, and leaves the cache coherent. */
  lemma LookupKeepsCoherent(t: Tiers, id: int, now: int)
    requires Coherent(t)
    ensures Lookup(t, id, now).value.Some? ==> Lookup(t, id, now).value.value.id == id
    ensures Coherent(Lookup(t, id, now).after)
  {
  }

  /** Storing a record under its own id keeps the cache coherent. */
  lemma StoreKeepsCoherent(t: Tiers, id: int, p: Pokemon, now: int, durableWriteOk: bool)
    requires Coherent(t) && p.id == id
    ensures Coherent(Store(t, id, p, now, durableWriteOk))
  {
    var u := Store(t, id, p, now, durableWriteOk);
    forall i | KeyFor(i) in u.durable && u.durable[KeyFor(i)].Stored?
      ensures u.durable[KeyFor(i)].entry.data.id == i
    {
      KeyForInjective(i, id);
    }
  }

  /**
   * On a coherent cache, a good draw of an id outside `exclude` ends the call at
   * once with a record of that id, from the cache or from the upstream, and the
   * cache stays coherent.
   */
  lemma GoodDrawFetches(t: Tiers, exclude: set<int>, env: Env, cursor: nat, signal: bool)
    requires Coherent(t) && GoodDraw(env(cursor)) && SampleId(env(cursor).random) !in exclude
    ensures var r := FetchLoop(t, exclude, env, cursor, 0, signal);
      && r.pokemon.Some? && r.pokemon.value.id == SampleId(env(cursor).random)
      && r.cursor == cursor + 1 && Coherent(r.after)
  {
    var d := env(cursor);
    var id := SampleId(d.random);
    LookupKeepsCoherent(t, id, d.now);
    var read := Lookup(t, id, d.now);
    if read.value.None? {
      var p := Normalize(d.reply.raw).value;
      StoreKeepsCoherent(read.after, id, p, d.reply.savedAt, d.reply.durableWriteOk);
    }
  }
}
