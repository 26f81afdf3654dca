/**
 * The unique random collector of the `useRandomPokemons` hook: `collectPokemons`
 * (a batch of independent calls whose results are folded in order and deduplicated by
 * id, then a sequential fill bounded by `maxRetries`, then truncation to `count`),
 * `fetchMore` and `refetch`.
 *
 * The hook's React state (`pokemons`, `loading`, `progress`) is the class
 * `RandomPokemons`; its setters are field assignments. The record cache is the
 * `PokemonCache` object the calls go through, and every random draw, clock reading,
 * upstream reply and abort-signal state comes from the oracle `env`, read from the
 * position `cursor` on.
 */
module Collect {
  import opened Records
  import opened Cache
  import opened FetchSingle

  // ---------------------------------------------------------------------------
  // The batch fold, as a function of the batch outcomes
  // ---------------------------------------------------------------------------

  /** One result of the batch: kept when it is a record whose id has not been kept yet. */
  function Accept(valid: seq<Pokemon>, result: Option<Pokemon>): seq<Pokemon>
  {
    if result.Some? && result.value.id !in IdSet(valid) then valid + [result.value] else valid
  }

  /** The batch outcomes folded in order, keeping the first record of each id. */
  function Dedup(results: seq<Option<Pokemon>>): seq<Pokemon>
  {
    if results == [] then [] else Accept(Dedup(results[..|results| - 1]), results[|results| - 1])
  }

  /** The ids of the records among the outcomes. */
  function ResultIds(results: seq<Option<Pokemon>>): set<int>
  {
    set i | 0 <= i < |results| && results[i].Some? :: results[i].value.id
  }

  /** The deduplicated list has pairwise-distinct ids, and no more entries than there were outcomes. */
  lemma {:induction false} DedupDistinct(results: seq<Option<Pokemon>>)
    ensures DistinctIds(Dedup(results))
    ensures |Dedup(results)| <= |results|
    decreases |results|
  {
    if results != [] {
      var init := results[..|results| - 1];
      DedupDistinct(init);
      var last := results[|results| - 1];
      if last.Some? && last.value.id !in IdSet(Dedup(init)) {
        DistinctAppend(Dedup(init), last.value);
      }
    }
  }

  /** Every kept record is one of the outcomes, and every id among the outcomes is kept. */
  lemma {:induction false} DedupKeepsEveryId(results: seq<Option<Pokemon>>)
    ensures forall p :: p in Dedup(results) ==> Some(p) in results
    ensures IdSet(Dedup(results)) == ResultIds(results)
    decreases |results|
  {
    if results != [] {
      var init := results[..|results| - 1];
      var last := results[|results| - 1];
      DedupKeepsEveryId(init);
      assert results == init + [last];
      var v := Dedup(init);
      if last.Some? && last.value.id !in IdSet(v) {
        IdSetAppend(v, last.value);
      }
      forall x | x in ResultIds(results) ensures x in IdSet(Dedup(results)) {
        var i :| 0 <= i < |results| && results[i].Some? && results[i].value.id == x;
        if i < |results| - 1 {
          assert init[i] == results[i];
          assert x in ResultIds(init);
          IdSetPrefixOfAccept(v, last);
        } else if last.value.id in IdSet(v) {
          IdSetPrefixOfAccept(v, last);
        }
      }
      forall x | x in IdSet(Dedup(results)) ensures x in ResultIds(results) {
        if x in IdSet(v) {
          assert x in ResultIds(init);
          var i :| 0 <= i < |init| && init[i].Some? && init[i].value.id == x;
          assert results[i] == init[i];
        } else {
          assert results[|results| - 1] == last;
        }
      }
      IntSetsEqual(IdSet(Dedup(results)), ResultIds(results));
    }
  }

  lemma IdSetPrefixOfAccept(v: seq<Pokemon>, r: Option<Pokemon>)
    ensures IdSet(v) <= IdSet(Accept(v, r))
  {
    if r.Some? && r.value.id !in IdSet(v) {
      IdSetAppend(v, r.value);
    }
  }

  /** The fold keeps arrival order: what was kept from a prefix of the outcomes is a prefix of what is kept from all. */
  lemma {:induction false} DedupKeepsOrder(results: seq<Option<Pokemon>>, n: nat)
    requires n <= |results|
    ensures Dedup(results[..n]) <= Dedup(results)
    decreases |results| - n
  {
    if n < |results| {
      var init := results[..|results| - 1];
      assert init[..n] == results[..n];
      DedupKeepsOrder(init, n);
    } else {
      assert results[..n] == results;
    }
  }

  /** The outcome at `i` is a record whose id no earlier outcome carries. */
  predicate FirstOfItsId(results: seq<Option<Pokemon>>, i: int)
    requires 0 <= i < |results|
  {
    results[i].Some? && forall k :: 0 <= k < i ==> !(results[k].Some? && results[k].value.id == results[i].value.id)
  }

  /** The last outcome is the first of its id exactly when no earlier outcome carries its id. */
  lemma LastFirstOfItsId(results: seq<Option<Pokemon>>)
    requires results != [] && results[|results| - 1].Some?
    ensures var init := results[..|results| - 1];
      FirstOfItsId(results, |results| - 1) <==> results[|results| - 1].value.id !in ResultIds(init)
  {
    var init := results[..|results| - 1];
    var last := results[|results| - 1];
    if FirstOfItsId(results, |results| - 1) {
      forall k | 0 <= k < |init| ensures !(init[k].Some? && init[k].value.id == last.value.id) {
        assert results[k] == init[k];
      }
    } else {
      var k :| 0 <= k < |init| && results[k].Some? && results[k].value.id == last.value.id;
      assert init[k] == results[k];
    }
  }

  /**
   * The fold keeps the first record of each id: every record that no earlier outcome
   * shares its id with is kept.
   */
  lemma {:induction false} DedupKeepsFirst(results: seq<Option<Pokemon>>)
    ensures forall i :: 0 <= i < |results| && FirstOfItsId(results, i) ==> results[i].value in Dedup(results)
    // ... at its place: right after what the outcomes before it kept.
    ensures forall i :: 0 <= i < |results| && FirstOfItsId(results, i) ==>
      Dedup(results[..i + 1]) == Dedup(results[..i]) + [results[i].value]
    decreases |results|
  {
    forall i | 0 <= i < |results| && FirstOfItsId(results, i)
      ensures Dedup(results[..i + 1]) == Dedup(results[..i]) + [results[i].value]
    {
      var pre := results[..i + 1];
      assert pre[..i] == results[..i];
      assert FirstOfItsId(pre, i) by {
        forall k | 0 <= k < i ensures pre[k] == results[k] { }
      }
      LastFirstOfItsId(pre);
      DedupKeepsEveryId(results[..i]);
    }
    if results != [] {
      var init := results[..|results| - 1];
      var last := results[|results| - 1];
      DedupKeepsFirst(init);
      DedupKeepsEveryId(init);
      forall i | 0 <= i < |results| && FirstOfItsId(results, i) ensures results[i].value in Dedup(results) {
        if i < |init| {
          assert results[i] == init[i];
          assert FirstOfItsId(init, i);
        } else {
          LastFirstOfItsId(results);
        }
      }
    }
  }

  /**
   * The fold keeps nothing else: every kept record is the first of its id among the
   * outcomes, so a later record with an id already seen is dropped even when its
   * other fields differ.
   */
  lemma {:induction false} DedupKeepsOnlyFirst(results: seq<Option<Pokemon>>)
    ensures forall p :: p in Dedup(results) ==>
      exists i :: 0 <= i < |results| && results[i] == Some(p) && FirstOfItsId(results, i)
    decreases |results|
  {
    if results != [] {
      var init := results[..|results| - 1];
      var last := results[|results| - 1];
      var v := Dedup(init);
      DedupKeepsOnlyFirst(init);
      DedupKeepsEveryId(init);
      forall p | p in Dedup(results)
        ensures exists i :: 0 <= i < |results| && results[i] == Some(p) && FirstOfItsId(results, i)
      {
        if p in v {
          var i :| 0 <= i < |init| && init[i] == Some(p) && FirstOfItsId(init, i);
          assert results[i] == init[i];
          assert FirstOfItsId(results, i);
        } else {
          LastFirstOfItsId(results);
          assert results[|results| - 1] == Some(p);
        }
      }
    }
  }

  /** When the outcomes are all records with pairwise-distinct ids, the fold keeps every one of them, in order. */
  lemma {:induction false} DedupOfDistinctRecords(results: seq<Option<Pokemon>>)
    requires forall i :: 0 <= i < |results| ==> results[i].Some?
    requires forall i, j :: 0 <= i < j < |results| ==> results[i].value.id != results[j].value.id
    ensures |Dedup(results)| == |results|
    ensures forall i :: 0 <= i < |results| ==> Dedup(results)[i] == results[i].value
    decreases |results|
  {
    if results != [] {
      var init := results[..|results| - 1];
      var last := results[|results| - 1];
      DedupOfDistinctRecords(init);
      DedupKeepsEveryId(init);
      forall k | 0 <= k < |init| ensures !(init[k].Some? && init[k].value.id == last.value.id) {
        assert results[k] == init[k];
      }
      assert last.value.id !in ResultIds(init);
      assert Dedup(results) == Dedup(init) + [last.value];
      forall i | 0 <= i < |results| ensures Dedup(results)[i] == results[i].value {
        if i < |init| {
          assert results[i] == init[i];
        }
      }
    }
  }

  // ---------------------------------------------------------------------------
  // The collector as a function of the cache and the oracle
  // ---------------------------------------------------------------------------

  /** The batch outcomes in order, the cache after them, and the next unread attempt. */
  datatype Batch = Batch(results: seq<Option<Pokemon>>, after: Tiers, cursor: nat)

  /**
   * The batch phase: `n` calls of `fetchSinglePokemon`, each with an empty exclusion
   * set (the set is shared but nothing is added to it before every call has settled).
   * The calls read the oracle one after the other.
   */
  function BatchLoop(t: Tiers, env: Env, cursor: nat, n: nat, signal: bool): (b: Batch)
    ensures |b.results| == n && cursor <= b.cursor <= cursor + n * MAX_ATTEMPTS
    decreases n, 2
  {
    if n == 0 then Batch([], t, cursor) else BatchRound(t, env, cursor, n, signal)
  }

  // As for the sequential phase below, the `n`-th call is written as two steps, the
  // exclusion set and then the call, so that the verifier unfolds a call of
  // `fetchSinglePokemon` only where a proof asks for it.

  /** The `n`-th call of the batch is passed the shared set, still empty. */
  function BatchRound(t: Tiers, env: Env, cursor: nat, n: nat, signal: bool): (b: Batch)
    requires n > 0
    ensures |b.results| == n && cursor <= b.cursor <= cursor + n * MAX_ATTEMPTS
    decreases n, 1
  {
    BatchCall(t, {}, env, cursor, n, signal)
  }

  /** The first `n - 1` calls, then the `n`-th, excluding `exclude`. */
  function BatchCall(t: Tiers, exclude: set<int>, env: Env, cursor: nat, n: nat, signal: bool): (b: Batch)
    requires n > 0
    ensures |b.results| == n && cursor <= b.cursor <= cursor + n * MAX_ATTEMPTS
    decreases n, 0
  {
    var b := BatchLoop(t, env, cursor, n - 1, signal);
    var f := FetchLoop(b.after, exclude, env, b.cursor, 0, signal);
    Batch(b.results + [f.pokemon], f.after, f.cursor)
  }

  /** One more call of the batch phase: `r` is that call. */
  lemma BatchLoopStep(t: Tiers, env: Env, cursor: nat, n: nat, signal: bool, r: Fetch)
    requires var b := BatchLoop(t, env, cursor, n, signal); r == FetchLoop(b.after, {}, env, b.cursor, 0, signal)
    ensures var b := BatchLoop(t, env, cursor, n, signal);
      BatchLoop(t, env, cursor, n + 1, signal) == Batch(b.results + [r.pokemon], r.after, r.cursor)
  {
    assert BatchLoop(t, env, cursor, n + 1, signal) == BatchCall(t, {}, env, cursor, n + 1, signal);
  }

  /** The collected list, the cache after the phase, the next unread attempt, and the rounds run. */
  datatype Fill = Fill(valid: seq<Pokemon>, after: Tiers, cursor: nat, rounds: nat)

  /**
   * The sequential phase from round `rounds` on: while fewer than `count` records are
   * kept, rounds remain and the signal is not aborted, one call excluding every id
   * kept so far, whose record is kept when its id is new.
   */
  function FillLoop(t: Tiers, valid: seq<Pokemon>, env: Env, cursor: nat, rounds: nat,
                    count: nat, maxRetries: nat, signal: bool): (f: Fill)
    ensures valid <= f.valid && cursor <= f.cursor && rounds <= f.rounds
    ensures rounds <= maxRetries ==> f.rounds <= maxRetries
    decreases maxRetries - rounds, 2
  {
    if |valid| < count && rounds < maxRetries && !(signal && env(cursor).aborted) then
      FillRound(t, valid, env, cursor, rounds, count, maxRetries, signal)
    else Fill(valid, t, cursor, rounds)
  }

  // A round is written as two steps, the exclusion set and then the call, as the
  // batch's calls are above.

  /** A round that runs: its call excludes every id kept so far. */
  function FillRound(t: Tiers, valid: seq<Pokemon>, env: Env, cursor: nat, rounds: nat,
                     count: nat, maxRetries: nat, signal: bool): (f: Fill)
    requires rounds < maxRetries
    ensures valid <= f.valid && cursor <= f.cursor && rounds < f.rounds <= maxRetries
    decreases maxRetries - rounds, 1
  {
    FillCall(t, valid, IdSet(valid), env, cursor, rounds, count, maxRetries, signal)
  }

  /** The call of a round, excluding `exclude`; its record is kept when its id is new, and the next round follows. */
  function FillCall(t: Tiers, valid: seq<Pokemon>, exclude: set<int>, env: Env, cursor: nat, rounds: nat,
                    count: nat, maxRetries: nat, signal: bool): (f: Fill)
    requires rounds < maxRetries
    ensures valid <= f.valid && cursor <= f.cursor && rounds < f.rounds <= maxRetries
    decreases maxRetries - rounds, 0
  {
    var r := FetchLoop(t, exclude, env, cursor, 0, signal);
    FillLoop(r.after, Accept(valid, r.pokemon), env, r.cursor, rounds + 1, count, maxRetries, signal)
  }

  /** One round of the sequential phase, when it runs: `r` is the call it makes. */
  lemma FillLoopStep(t: Tiers, valid: seq<Pokemon>, env: Env, cursor: nat, rounds: nat,
                     count: nat, maxRetries: nat, signal: bool, r: Fetch)
    requires |valid| < count && rounds < maxRetries && !(signal && env(cursor).aborted)
    requires r == FetchLoop(t, IdSet(valid), env, cursor, 0, signal)
    ensures FillLoop(t, valid, env, cursor, rounds, count, maxRetries, signal)
         == FillLoop(r.after, Accept(valid, r.pokemon), env, r.cursor, rounds + 1, count, maxRetries, signal)
  {
    assert FillLoop(t, valid, env, cursor, rounds, count, maxRetries, signal)
        == FillCall(t, valid, IdSet(valid), env, cursor, rounds, count, maxRetries, signal);
  }

  /**
   * Whatever list it starts from, the sequential phase (and so `fetchMore`) only
   * appends, and what it appends has pairwise-distinct ids, none of them already in
   * the list it started from.
   */
  lemma {:induction false} FillLoopAddsOnlyNew(t: Tiers, valid: seq<Pokemon>, env: Env, cursor: nat, rounds: nat,
                                               count: nat, maxRetries: nat, signal: bool)
    ensures var f := FillLoop(t, valid, env, cursor, rounds, count, maxRetries, signal);
      && (forall i, j :: |valid| <= i < j < |f.valid| ==> f.valid[i].id != f.valid[j].id)
      && (forall i :: |valid| <= i < |f.valid| ==> f.valid[i].id !in IdSet(valid))
    decreases maxRetries - rounds
  {
    if |valid| < count && rounds < maxRetries && !(signal && env(cursor).aborted) {
      var r := FetchLoop(t, IdSet(valid), env, cursor, 0, signal);
      var next := Accept(valid, r.pokemon);
      FillLoopStep(t, valid, env, cursor, rounds, count, maxRetries, signal, r);
      FillLoopAddsOnlyNew(r.after, next, env, r.cursor, rounds + 1, count, maxRetries, signal);
      var f := FillLoop(r.after, next, env, r.cursor, rounds + 1, count, maxRetries, signal);
      if next != valid {
        var p := r.pokemon.value;
        IdSetAppend(valid, p);
        assert f.valid[|valid|] == p;
        forall i | |valid| <= i < |f.valid| ensures f.valid[i].id !in IdSet(valid) {
        }
        forall i, j | |valid| <= i < j < |f.valid| ensures f.valid[i].id != f.valid[j].id {
          if i == |valid| {
            assert f.valid[j].id !in IdSet(next);
          }
        }
      }
    }
  }

  /** What `FillLoop` appends to a list: pairwise distinct ids, none already in the list. */
  lemma NewRecordsOfFill(t: Tiers, valid: seq<Pokemon>, env: Env, cursor: nat, count: nat, maxRetries: nat,
                         result: seq<Pokemon>, added: seq<Pokemon>)
    requires result == valid + added
    requires result == FillLoop(t, valid, env, cursor, 0, count, maxRetries, false).valid
    ensures DistinctIds(added) && forall i :: 0 <= i < |added| ==> added[i].id !in IdSet(valid)
    ensures DistinctIds(valid) ==> DistinctIds(result)
  {
    FillLoopAddsOnlyNew(t, valid, env, cursor, 0, count, maxRetries, false);
    forall i, j | 0 <= i < j < |added| ensures added[i].id != added[j].id {
      assert added[i] == result[|valid| + i] && added[j] == result[|valid| + j];
    }
    forall i | 0 <= i < |added| ensures added[i].id !in IdSet(valid) {
      assert added[i] == result[|valid| + i];
    }
    AppendDistinct(valid, added);
  }

  /**
   * `fetchSinglePokemon(ids)` called from a sequential loop, for a list `valid` whose
   * ids are `ids`: the fill that was to run from before the call is the fill that runs
   * from after it, on the list with the outcome accepted.
   */
  method FetchForFill(cache: PokemonCache, ids: set<int>, env: Env, cursor: nat, signal: bool,
                      ghost valid: seq<Pokemon>, ghost rounds: nat, ghost count: nat, ghost maxRetries: nat)
    returns (pokemon: Option<Pokemon>, next: nat)
    modifies cache
    requires ids == IdSet(valid)
    requires |valid| < count && rounds < maxRetries && !(signal && env(cursor).aborted)
    ensures FillLoop(cache.State(), Accept(valid, pokemon), env, next, rounds + 1, count, maxRetries, signal)
         == FillLoop(old(cache.State()), valid, env, cursor, rounds, count, maxRetries, signal)
    ensures cursor <= next
  {
    pokemon, next := FetchSinglePokemon(cache, ids, env, cursor, signal);
    FillLoopStep(old(cache.State()), valid, env, cursor, rounds, count, maxRetries, signal, Fetch(pokemon, cache.State(), next));
  }


  /** Everything `collectPokemons` computes: the batch outcomes, whether it stopped on an abort, and the fill. */
  datatype Collection = Collection(batch: seq<Option<Pokemon>>, stopped: bool, valid: seq<Pokemon>,
                                   after: Tiers, cursor: nat, rounds: nat)

  /**
   * `collectPokemons`: the batch, the abort check once it has settled, the fold of
   * its outcomes, then the sequential phase.
   */
  function Collected(t: Tiers, env: Env, cursor: nat, count: nat, batchSize: nat, maxRetries: nat, signal: bool): (c: Collection)
    ensures |c.batch| == batchSize && cursor <= c.cursor
    ensures c.stopped <==> signal && env(BatchLoop(t, env, cursor, batchSize, signal).cursor).aborted
    ensures !c.stopped ==> Dedup(c.batch) <= c.valid
  {
    var b := BatchLoop(t, env, cursor, batchSize, signal);
    if signal && env(b.cursor).aborted then Collection(b.results, true, [], b.after, b.cursor, 0)
    else
      var f := FillLoop(b.after, Dedup(b.results), env, b.cursor, 0, count, maxRetries, signal);
      Collection(b.results, false, f.valid, f.after, f.cursor, f.rounds)
  }

  // ---------------------------------------------------------------------------
  // The hook's state and its asynchronous operations
  // ---------------------------------------------------------------------------

  class RandomPokemons {
    /** The `pokemons` state shown by the game. */
    var pokemons: seq<Pokemon>
    var loading: bool
    /** The `progress` state: `{ current, total }`. */
    var progressCurrent: int
    var progressTotal: int

    const count: nat
    const maxRetries: nat
    const batchSize: nat
    const enableProgress: bool

    /** `useRandomPokemons(count, { enableProgress, maxRetries, batchSize })` on first render. */
    constructor (count: nat, enableProgress: bool, maxRetries: nat, batchSize: nat)
      ensures this.count == count && this.enableProgress == enableProgress
      ensures this.maxRetries == maxRetries && this.batchSize == batchSize
      ensures pokemons == [] && !loading && progressCurrent == 0 && progressTotal == count
    {
      this.count := count;
      this.enableProgress := enableProgress;
      this.maxRetries := maxRetries;
      this.batchSize := batchSize;
      pokemons := [];
      loading := false;
      progressCurrent := 0;
      progressTotal := count;
    }

    /** The progress display never claims more than the total. */
    predicate ProgressInRange()
      reads this
    {
      0 <= progressCurrent <= progressTotal == count
    }

    /** The batch phase: `batchSize` calls, none excluding anything, read one after the other. */
    method RunBatch(cache: PokemonCache, env: Env, cursor: nat, signal: bool)
      returns (batch: seq<Option<Pokemon>>, next: nat)
      modifies cache
      ensures Batch(batch, cache.State(), next) == BatchLoop(old(cache.State()), env, cursor, batchSize, signal)
    {
      batch := [];
      next := cursor;
      var i := 0;
      while i < batchSize
        invariant i <= batchSize
        invariant Batch(batch, cache.State(), next) == BatchLoop(old(cache.State()), env, cursor, i, signal)
      {
        var p, n := FetchSinglePokemon(cache, {}, env, next, signal);
        BatchLoopStep(old(cache.State()), env, cursor, i, signal, Fetch(p, cache.State(), n));
        batch, next, i := batch + [p], n, i + 1;
      }
    }

    /**
     * The fold of the batch outcomes, in order, skipping ids already kept; each kept
     * record updates the progress and the shown list.
     */
    method FoldBatch(batch: seq<Option<Pokemon>>) returns (valid: seq<Pokemon>, collectedIds: set<int>)
      modifies this
      requires ProgressInRange()
      ensures valid == Dedup(batch) && collectedIds == IdSet(valid)
      ensures ProgressInRange() && loading == old(loading)
      // Nothing kept: the list and the progress shown stay as they were. Otherwise the
      // list shown is the first `count` kept, and the progress counts them.
      ensures valid == [] ==> pokemons == old(pokemons) && progressCurrent == old(progressCurrent)
      ensures valid != [] ==> pokemons == valid[..Min(count, |valid|)]
      ensures valid != [] && enableProgress ==> progressCurrent == Min(|valid|, count)
      ensures !enableProgress ==> progressCurrent == old(progressCurrent)
    {
      valid, collectedIds := [], {};
      var k := 0;
      while k < |batch|
        invariant k <= |batch|
        invariant valid == Dedup(batch[..k]) && collectedIds == IdSet(valid)
        invariant ProgressInRange() && loading == old(loading)
        invariant valid == [] ==> pokemons == old(pokemons) && progressCurrent == old(progressCurrent)
        invariant valid != [] ==> pokemons == valid[..Min(count, |valid|)]
        invariant valid != [] && enableProgress ==> progressCurrent == Min(|valid|, count)
        invariant !enableProgress ==> progressCurrent == old(progressCurrent)
      {
        assert batch[..k + 1][..k] == batch[..k];
        var result := batch[k];
        if result.Some? && result.value.id !in collectedIds {
          IdSetAppend(valid, result.value);
          collectedIds := collectedIds + {result.value.id};
          valid := valid + [result.value];
          if enableProgress {
            progressCurrent := Min(|valid|, count);
          }
          pokemons := valid[..Min(count, |valid|)];
        }
        k := k + 1;
      }
      assert batch[..|batch|] == batch;
    }

    /** The sequential phase: fill up to `count`, at most `maxRetries` calls, each excluding the ids kept. */
    method FillUp(cache: PokemonCache, env: Env, cursor: nat, signal: bool, kept: seq<Pokemon>, keptIds: set<int>)
      returns (valid: seq<Pokemon>, next: nat, rounds: nat)
      modifies this, cache
      requires DistinctIds(kept) && keptIds == IdSet(kept) && ProgressInRange()
      ensures Fill(valid, cache.State(), next, rounds) == FillLoop(old(cache.State()), kept, env, cursor, 0, count, maxRetries, signal)
      ensures DistinctIds(valid) && kept <= valid
      ensures |valid| <= if |kept| > count then |kept| else count
      ensures rounds <= maxRetries
      ensures |valid| < count ==> rounds == maxRetries || (signal && env(next).aborted)
      ensures ProgressInRange() && loading == old(loading)
      // Each record added is shown at once, the whole list, and counted by the progress.
      ensures |valid| == |kept| ==> pokemons == old(pokemons) && progressCurrent == old(progressCurrent)
      ensures |valid| > |kept| ==> pokemons == valid
      ensures |valid| > |kept| && enableProgress ==> progressCurrent == Min(|valid|, count)
      ensures !enableProgress ==> progressCurrent == old(progressCurrent)
    {
      valid, next, rounds := kept, cursor, 0;
      var collectedIds := keptIds;
      while |valid| < count && rounds < maxRetries && !(signal && env(next).aborted)
        invariant DistinctIds(valid) && collectedIds == IdSet(valid)
        invariant kept <= valid
        invariant |valid| <= if |kept| > count then |kept| else count
        invariant rounds <= maxRetries
        invariant FillLoop(cache.State(), valid, env, next, rounds, count, maxRetries, signal)
               == FillLoop(old(cache.State()), kept, env, cursor, 0, count, maxRetries, signal)
        invariant ProgressInRange() && loading == old(loading)
        invariant |valid| == |kept| ==> pokemons == old(pokemons) && progressCurrent == old(progressCurrent)
        invariant |valid| > |kept| ==> pokemons == valid
        invariant |valid| > |kept| && enableProgress ==> progressCurrent == Min(|valid|, count)
        invariant !enableProgress ==> progressCurrent == old(progressCurrent)
        decreases maxRetries - rounds
      {
        ghost var v := valid;
        var extra, n := FetchForFill(cache, collectedIds, env, next, signal, valid, rounds, count, maxRetries);
        next := n;
        if extra.Some? && extra.value.id !in collectedIds {
          DistinctAppend(valid, extra.value);
          IdSetAppend(valid, extra.value);
          collectedIds := collectedIds + {extra.value.id};
          valid := valid + [extra.value];
          if enableProgress {
            progressCurrent := Min(|valid|, count);
          }
          pokemons := valid;
        }
        assert valid == Accept(v, extra);
        rounds := rounds + 1;
      }
    }

    /**
     * `collectPokemons(abortSignal)`. `signal` tells whether a signal was passed;
     * its state at each check is `env(next).aborted`, where `next` is the first attempt
     * not yet read. `batch` and `valid` expose the batch outcomes and the collected list
     * before truncation; `rounds` counts the sequential iterations.
     */
    method CollectPokemons(cache: PokemonCache, env: Env, cursor: nat, signal: bool)
      returns (next: nat, batch: seq<Option<Pokemon>>, stopped: bool, valid: seq<Pokemon>, rounds: nat)
      modifies this, cache
      // Every outcome, the cache afterwards and the attempts read are those of `Collected`.
      ensures Collection(batch, stopped, valid, cache.State(), next, rounds)
           == Collected(old(cache.State()), env, cursor, count, batchSize, maxRetries, signal)
      ensures cursor <= next
      ensures progressTotal == count && ProgressInRange()
      // The progress ends at the number of records shown, or stays 0 when it is not
      // reported or the run was stopped.
      ensures !stopped && enableProgress ==> progressCurrent == |pokemons|
      ensures stopped || !enableProgress ==> progressCurrent == 0
      ensures |batch| == batchSize
      ensures loading <==> signal && env(next).aborted
      // An abort seen once the batch has settled: the outcomes are dropped, nothing is shown.
      ensures stopped ==> signal && env(next).aborted && pokemons == old(pokemons) && valid == [] && rounds == 0
      // Otherwise the final list is the first `count` records collected, in arrival order,
      // starting with the deduplicated batch.
      ensures !stopped ==> pokemons == valid[..Min(count, |valid|)]
      ensures !stopped ==> DistinctIds(valid) && DistinctIds(pokemons) && |pokemons| <= count
      ensures !stopped ==> Dedup(batch) <= valid
      ensures rounds <= maxRetries
      // The sequential phase adds nothing once `count` records are there.
      ensures |valid| <= if |Dedup(batch)| > count then |Dedup(batch)| else count
      // It stops short of `count` only when its retries are spent or the signal is aborted.
      ensures !stopped && |valid| < count ==> rounds == maxRetries || (signal && env(next).aborted)
    {
      loading := true;
      progressCurrent, progressTotal := 0, count;
      valid, rounds, stopped := [], 0, false;

      batch, next := RunBatch(cache, env, cursor, signal);
      if signal && env(next).aborted {
        stopped := true;
        return;
      }

      var collectedIds;
      valid, collectedIds := FoldBatch(batch);
      DedupDistinct(batch);
      valid, next, rounds := FillUp(cache, env, next, signal, valid, collectedIds);

      // The final list: the first `count` records.
      pokemons := valid[..Min(count, |valid|)];
      DistinctPrefix(valid, Min(count, |valid|));
      if enableProgress {
        progressCurrent := |pokemons|;
      }
      loading := signal && env(next).aborted;
    }

    /** `refetch()`: clear the list and collect again, with no abort signal. */
    method Refetch(cache: PokemonCache, env: Env, cursor: nat)
      returns (next: nat)
      modifies this, cache
      // The run is `Collected` with no signal: it never stops early, and the list shown
      // is the first `count` records it collects.
      ensures var c := Collected(old(cache.State()), env, cursor, count, batchSize, maxRetries, false);
        && !c.stopped && pokemons == c.valid[..Min(count, |c.valid|)]
        && cache.State() == c.after && next == c.cursor
      ensures cursor <= next && !loading
      ensures DistinctIds(pokemons) && |pokemons| <= count
      ensures ProgressInRange() && progressTotal == count
      // The progress ends at the number of records shown, or at 0 when it is not reported.
      ensures enableProgress ==> progressCurrent == |pokemons|
      ensures !enableProgress ==> progressCurrent == 0
    {
      pokemons := [];
      var batch, stopped, valid, rounds;
      next, batch, stopped, valid, rounds := CollectPokemons(cache, env, cursor, false);
    }

    /**
     * `fetchMore(additionalCount)`: at most `2 * additionalCount` calls, with no abort
     * signal, each excluding every id already shown or added; a record is appended only
     * when its id is new.
     */
    method FetchMore(cache: PokemonCache, additionalCount: nat, env: Env, cursor: nat)
      returns (next: nat, added: seq<Pokemon>, rounds: nat)
      modifies this, cache
      // The loop is the sequential fill asked for `additionalCount` records more than are
      // shown, with `2 * additionalCount` rounds and no signal: the list, the cache
      // afterwards and the attempts read are those of `FillLoop`.
      ensures Fill(pokemons, cache.State(), next, rounds)
           == FillLoop(old(cache.State()), old(pokemons), env, cursor, 0,
                       |old(pokemons)| + additionalCount, 2 * additionalCount, false)
      ensures cursor <= next && !loading
      ensures pokemons == old(pokemons) + added
      ensures |added| <= additionalCount && rounds <= 2 * additionalCount
      ensures DistinctIds(added)
      ensures forall i :: 0 <= i < |added| ==> added[i].id !in IdSet(old(pokemons))
      ensures |added| < additionalCount ==> rounds == 2 * additionalCount
      ensures DistinctIds(old(pokemons)) ==> DistinctIds(pokemons)
      ensures progressCurrent == old(progressCurrent) && progressTotal == old(progressTotal)
    {
      var currentIds := IdSet(pokemons);
      var shown := pokemons;
      ghost var before := pokemons;
      loading := true;
      added, rounds := [], 0;
      next := cursor;
      var maxAttempts := additionalCount * 2;
      ghost var count := |before| + additionalCount;
      while |added| < additionalCount && rounds < maxAttempts
        invariant shown == before + added && pokemons == shown
        invariant |added| <= additionalCount && rounds <= maxAttempts
        invariant cursor <= next
        invariant currentIds == IdSet(shown)
        invariant FillLoop(cache.State(), shown, env, next, rounds, count, maxAttempts, false)
               == FillLoop(old(cache.State()), before, env, cursor, 0, count, maxAttempts, false)
        invariant progressCurrent == old(progressCurrent) && progressTotal == old(progressTotal)
        decreases maxAttempts - rounds
      {
        ghost var v := shown;
        var pokemon, n := FetchForFill(cache, currentIds, env, next, false, shown, rounds, count, maxAttempts);
        next := n;
        if pokemon.Some? && pokemon.value.id !in currentIds {
          IdSetAppend(shown, pokemon.value);
          currentIds := currentIds + {pokemon.value.id};
          added := added + [pokemon.value];
          shown := shown + [pokemon.value];
          pokemons := shown;
        }
        assert shown == Accept(v, pokemon);
        rounds := rounds + 1;
      }
      loading := false;
      NewRecordsOfFill(old(cache.State()), before, env, cursor, count, maxAttempts, pokemons, added);
    }
  }

  lemma DistinctPrefix(s: seq<Pokemon>, n: nat)
    requires n <= |s| && DistinctIds(s)
    ensures DistinctIds(s[..n])
  {
  }

  /** Two lists without repeated ids, sharing no id, concatenate to a list without repeated ids. */
  lemma AppendDistinct(s: seq<Pokemon>, t: seq<Pokemon>)
    requires DistinctIds(t)
    requires forall i :: 0 <= i < |t| ==> t[i].id !in IdSet(s)
    ensures DistinctIds(s) ==> DistinctIds(s + t)
  {
    if DistinctIds(s) {
      var u := s + t;
      forall i, j | 0 <= i < j < |u| ensures u[i].id != u[j].id {
        if i < |s| && j >= |s| {
          assert u[i] == s[i] && s[i].id in IdSet(s);
          assert u[j] == t[j - |s|];
        } else if i >= |s| {
          assert u[i] == t[i - |s|] && u[j] == t[j - |s|];
        }
      }
    }
  }
}
