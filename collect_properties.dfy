/**
 * What the collector promises, stated on `BatchLoop`, `FillLoop` and `Collected`
 * (`fetchMore` runs `FillLoop` too): the lists it builds never repeat an id, it stops short only for a
 * reason, and when the draws are good and distinct it collects all it was asked for.
 */
module CollectProperties {
  import opened Records
  import opened Cache
  import opened FetchSingle
  import opened FetchProperties
  import opened Collect

  /** The id drawn at attempt `c` of the oracle. */
  function DrawnId(env: Env, c: nat): (id: int)
    ensures 1 <= id <= ID_SPACE
  {
    SampleId(env(c).random)
  }

  // ---------------------------------------------------------------------------
  // Safety
  // ---------------------------------------------------------------------------

  /**
   * The sequential phase keeps the ids distinct and adds nothing once `count` records
   * are there.
   */
  lemma {:induction false} FillLoopKeepsDistinct(t: Tiers, valid: seq<Pokemon>, env: Env, cursor: nat, rounds: nat,
                                                 count: nat, maxRetries: nat, signal: bool)
    requires DistinctIds(valid)
    ensures var f := FillLoop(t, valid, env, cursor, rounds, count, maxRetries, signal);
      DistinctIds(f.valid) && |f.valid| <= (if |valid| > count then |valid| else count)
    decreases maxRetries - rounds
  {
    if |valid| < count && rounds < maxRetries && !(signal && env(cursor).aborted) {
      var r := FetchLoop(t, IdSet(valid), env, cursor, 0, signal);
      FillLoopStep(t, valid, env, cursor, rounds, count, maxRetries, signal, r);
      AcceptKeepsDistinct(valid, r.pokemon);
      FillLoopKeepsDistinct(r.after, Accept(valid, r.pokemon), env, r.cursor, rounds + 1, count, maxRetries, signal);
    }
  }

  /** The sequential phase stops short of `count` only when the rounds are spent or the signal is aborted. */
  lemma {:induction false} FillLoopStopsForAReason(t: Tiers, valid: seq<Pokemon>, env: Env, cursor: nat, rounds: nat,
                                                   count: nat, maxRetries: nat, signal: bool)
    requires rounds <= maxRetries
    ensures var f := FillLoop(t, valid, env, cursor, rounds, count, maxRetries, signal);
      |f.valid| < count ==> f.rounds == maxRetries || (signal && env(f.cursor).aborted)
    decreases maxRetries - rounds
  {
    if |valid| < count && rounds < maxRetries && !(signal && env(cursor).aborted) {
      var r := FetchLoop(t, IdSet(valid), env, cursor, 0, signal);
      FillLoopStep(t, valid, env, cursor, rounds, count, maxRetries, signal, r);
      FillLoopStopsForAReason(r.after, Accept(valid, r.pokemon), env, r.cursor, rounds + 1, count, maxRetries, signal);
    }
  }

  /** Keeping one more outcome keeps the ids distinct and grows the list by at most one. */
  lemma AcceptKeepsDistinct(valid: seq<Pokemon>, result: Option<Pokemon>)
    requires DistinctIds(valid)
    ensures DistinctIds(Accept(valid, result)) && |Accept(valid, result)| <= |valid| + 1
  {
    if result.Some? && result.value.id !in IdSet(valid) {
      DistinctAppend(valid, result.value);
    }
  }

  /** A run that is not stopped by an abort collects a list without repeated ids. */
  lemma CollectedIsDistinct(t: Tiers, env: Env, cursor: nat, count: nat, batchSize: nat, maxRetries: nat, signal: bool)
    ensures var c := Collected(t, env, cursor, count, batchSize, maxRetries, signal);
      !c.stopped ==> DistinctIds(c.valid) && DistinctIds(c.valid[..Min(count, |c.valid|)])
  {
    var b := BatchLoop(t, env, cursor, batchSize, signal);
    DedupDistinct(b.results);
    FillLoopKeepsDistinct(b.after, Dedup(b.results), env, b.cursor, 0, count, maxRetries, signal);
    var c := Collected(t, env, cursor, count, batchSize, maxRetries, signal);
    if !c.stopped {
      DistinctPrefix(c.valid, Min(count, |c.valid|));
    }
  }

  // ---------------------------------------------------------------------------
  // Liveness: good, distinct draws collect everything asked for
  // ---------------------------------------------------------------------------

  /** The draws at attempts `cursor` to `cursor + n - 1` are good. */
  ghost predicate GoodDraws(env: Env, cursor: nat, n: nat)
  {
    forall c :: cursor <= c < cursor + n ==> GoodDraw(env(c))
  }

  /** The draws at attempts `cursor` to `cursor + n - 1` read pairwise-distinct ids. */
  ghost predicate DistinctDraws(env: Env, cursor: nat, n: nat)
  {
    forall a, b :: cursor <= a < b < cursor + n ==> DrawnId(env, a) != DrawnId(env, b)
  }

  /** On a coherent cache, `n` good draws give a batch of `n` records, the `j`-th of the id drawn at attempt `cursor + j`. */
  lemma {:induction false} GoodBatch(t: Tiers, env: Env, cursor: nat, n: nat, signal: bool)
    requires Coherent(t) && GoodDraws(env, cursor, n)
    ensures var b := BatchLoop(t, env, cursor, n, signal);
      && b.cursor == cursor + n && Coherent(b.after)
      && (forall j :: 0 <= j < n ==> b.results[j].Some? && b.results[j].value.id == DrawnId(env, cursor + j))
  {
    if n > 0 {
      GoodBatch(t, env, cursor, n - 1, signal);
      var b := BatchLoop(t, env, cursor, n - 1, signal);
      assert b.cursor == cursor + n - 1 && GoodDraw(env(b.cursor));
      GoodDrawFetches(b.after, {}, env, b.cursor, signal);
      var f := FetchLoop(b.after, {}, env, b.cursor, 0, signal);
      BatchLoopStep(t, env, cursor, n - 1, signal, f);
      var results := b.results + [f.pokemon];
      forall j | 0 <= j < n ensures results[j].Some? && results[j].value.id == DrawnId(env, cursor + j) {
        if j < n - 1 {
          assert results[j] == b.results[j];
        }
      }
    }
  }

  /**
   * On a coherent cache, when each of the next `count - |valid|` draws is good, reads
   * an id not collected yet, and the draws are pairwise distinct, the sequential
   * phase collects exactly `count` records, provided rounds remain for each.
   */
  lemma {:induction false} GoodFill(t: Tiers, valid: seq<Pokemon>, env: Env, cursor: nat, rounds: nat,
                                    count: nat, maxRetries: nat, signal: bool)
    requires Coherent(t) && |valid| <= count && count + rounds <= |valid| + maxRetries
    requires GoodDraws(env, cursor, count - |valid|) && DistinctDraws(env, cursor, count - |valid|)
    requires forall c :: cursor <= c < cursor + (count - |valid|) ==> DrawnId(env, c) !in IdSet(valid)
    ensures |FillLoop(t, valid, env, cursor, rounds, count, maxRetries, signal).valid| == count
    decreases count - |valid|
  {
    if |valid| < count {
      assert GoodDraw(env(cursor)) && DrawnId(env, cursor) !in IdSet(valid);
      GoodDrawFetches(t, IdSet(valid), env, cursor, signal);
      var r := FetchLoop(t, IdSet(valid), env, cursor, 0, signal);
      var p := r.pokemon.value;
      var more := valid + [p];
      assert Accept(valid, r.pokemon) == more;
      IdSetAppend(valid, p);
      forall c | cursor + 1 <= c < cursor + (count - |valid|) ensures DrawnId(env, c) !in IdSet(more) {
        assert DrawnId(env, cursor) != DrawnId(env, c);
      }
      FillLoopStep(t, valid, env, cursor, rounds, count, maxRetries, signal, r);
      GoodFill(r.after, more, env, cursor + 1, rounds + 1, count, maxRetries, signal);
    }
  }

  /**
   * Liveness of `collectPokemons`: on a coherent cache, when the
   * first `max(batchSize, count)` draws are good and read pairwise-distinct ids,
   * `count` is at most `batchSize + maxRetries`, and the signal is not aborted once
   * the batch has settled, the run is not stopped and the list shown holds exactly
   * `count` records.
   */
  lemma CollectReachesCount(t: Tiers, env: Env, cursor: nat, count: nat, batchSize: nat, maxRetries: nat, signal: bool)
    requires Coherent(t) && count <= batchSize + maxRetries
    requires var n := if count > batchSize then count else batchSize;
      GoodDraws(env, cursor, n) && DistinctDraws(env, cursor, n)
    requires !(signal && env(cursor + batchSize).aborted)
    ensures var c := Collected(t, env, cursor, count, batchSize, maxRetries, signal);
      !c.stopped && count <= |c.valid| && |c.valid[..Min(count, |c.valid|)]| == count
  {
    var n := if count > batchSize then count else batchSize;
    GoodBatchKeptWhole(t, env, cursor, batchSize, n, signal);
    var b := BatchLoop(t, env, cursor, batchSize, signal);
    var valid := Dedup(b.results);
    var f := FillLoop(b.after, valid, env, b.cursor, 0, count, maxRetries, signal);
    assert Collected(t, env, cursor, count, batchSize, maxRetries, signal)
        == Collection(b.results, false, f.valid, f.after, f.cursor, f.rounds);
    if count > batchSize {
      assert GoodDraws(env, b.cursor, count - |valid|);
      assert DistinctDraws(env, b.cursor, count - |valid|);
      GoodFill(b.after, valid, env, b.cursor, 0, count, maxRetries, signal);
    }
  }

  /**
   * On a coherent cache, good draws with pairwise-distinct ids give a batch that the
   * fold keeps whole, and whose ids none of the later draws reads.
   */
  lemma GoodBatchKeptWhole(t: Tiers, env: Env, cursor: nat, batchSize: nat, n: nat, signal: bool)
    requires Coherent(t) && batchSize <= n
    requires GoodDraws(env, cursor, n) && DistinctDraws(env, cursor, n)
    ensures var b := BatchLoop(t, env, cursor, batchSize, signal);
      && b.cursor == cursor + batchSize && Coherent(b.after)
      && |Dedup(b.results)| == batchSize
      && (forall c :: cursor + batchSize <= c < cursor + n ==> DrawnId(env, c) !in IdSet(Dedup(b.results)))
  {
    assert GoodDraws(env, cursor, batchSize);
    GoodBatch(t, env, cursor, batchSize, signal);
    var b := BatchLoop(t, env, cursor, batchSize, signal);
    forall i, j | 0 <= i < j < batchSize ensures b.results[i].value.id != b.results[j].value.id {
      assert DrawnId(env, cursor + i) != DrawnId(env, cursor + j);
    }
    DedupOfDistinctRecords(b.results);
    var valid := Dedup(b.results);
    forall c | cursor + batchSize <= c < cursor + n ensures DrawnId(env, c) !in IdSet(valid) {
      forall i | 0 <= i < |valid| ensures valid[i].id != DrawnId(env, c) {
        assert valid[i] == b.results[i].value;
        assert DrawnId(env, cursor + i) != DrawnId(env, c);
      }
    }
  }

  /**
   * Liveness of `fetchMore`: on a coherent cache, when the next `additionalCount`
   * draws are good, read pairwise-distinct ids, and none of them is shown already,
   * exactly `additionalCount` records are added.
   */
  lemma FetchMoreReachesCount(t: Tiers, shown: seq<Pokemon>, env: Env, cursor: nat, additionalCount: nat)
    requires Coherent(t)
    requires GoodDraws(env, cursor, additionalCount) && DistinctDraws(env, cursor, additionalCount)
    requires forall c :: cursor <= c < cursor + additionalCount ==> DrawnId(env, c) !in IdSet(shown)
    ensures |FillLoop(t, shown, env, cursor, 0, |shown| + additionalCount, 2 * additionalCount, false).valid|
         == |shown| + additionalCount
  {
    GoodFill(t, shown, env, cursor, 0, |shown| + additionalCount, 2 * additionalCount, false);
  }
}
