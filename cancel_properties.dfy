/**
 * What the abort signal of `collectPokemons` promises. Every attempt checks the
 * signal before it draws, and the sequential loop checks it before each round, so
 * once the signal reads aborted at some attempt of the oracle, no attempt from there
 * on is read: the run stops there, and nothing the oracle holds from there on (later
 * draws, replies, cache writes) has any effect.
 *
 * The oracle itself fixes the signal state attempt by attempt. `AbortSticks` says
 * when it behaves as a real `AbortController`: once aborted it stays aborted, and an
 * abort that a reply observed is seen by the next attempt.
 */
module CancelProperties {
  import opened Records
  import opened Cache
  import opened FetchSingle
  import opened Collect

  /** The signal reads aborted at attempt `c`. */
  predicate AbortedAt(env: Env, c: nat)
  {
    env(c).aborted
  }

  /** The reply at attempt `c` observes an abort: an `AbortError` rejection, or a signal aborted once the body was read. */
  predicate AbortSeenAt(env: Env, c: nat)
  {
    match env(c).reply
    case Rejected(abortError) => abortError
    case Body(_, abortedAfter, _, _) => abortedAfter
    case NotOk => false
  }

  /** The signal of a real `AbortController`: it is never cleared, and an abort a reply observed is still there at the next attempt. */
  ghost predicate AbortSticks(env: Env)
  {
    && (forall a: nat, b: nat :: a <= b && AbortedAt(env, a) ==> AbortedAt(env, b))
    && (forall c: nat :: AbortSeenAt(env, c) ==> AbortedAt(env, c + 1))
  }

  /** Two oracles that agree on every attempt before `c`, and both read the signal aborted at `c`. */
  ghost predicate SameUntilAbort(env: Env, env2: Env, c: nat)
  {
    && (forall p: nat :: p < c ==> env(p) == env2(p))
    && AbortedAt(env, c) && AbortedAt(env2, c)
  }

  // ---------------------------------------------------------------------------
  // Nothing from the abort on is read
  // ---------------------------------------------------------------------------

  /**
   * A call with a signal never reads past an attempt where the signal is aborted, and
   * what it returns, the cache afterwards included, depends only on the attempts before.
   */
  lemma {:induction false} FetchStopsAtAbort(t: Tiers, exclude: set<int>, env: Env, env2: Env, cursor: nat, attempts: nat, c: nat)
    requires attempts <= MAX_ATTEMPTS && cursor <= c && SameUntilAbort(env, env2, c)
    ensures var r := FetchLoop(t, exclude, env, cursor, attempts, true);
      r.cursor <= c && r == FetchLoop(t, exclude, env2, cursor, attempts, true)
    decreases MAX_ATTEMPTS - attempts
  {
    if attempts < MAX_ATTEMPTS {
      if cursor == c {
        assert TryOnce(t, exclude, env(cursor), true) == AbortedBeforeDraw;
        assert TryOnce(t, exclude, env2(cursor), true) == AbortedBeforeDraw;
      } else {
        assert env(cursor) == env2(cursor);
        var step := TryOnce(t, exclude, env(cursor), true);
        if step.Retry? {
          FetchStopsAtAbort(step.after, exclude, env, env2, cursor + 1, attempts + 1, c);
        }
      }
    }
  }

  /** A call whose first attempt is not aborted reads at least that attempt. */
  lemma FetchReadsUnlessAborted(t: Tiers, exclude: set<int>, env: Env, cursor: nat)
    requires !AbortedAt(env, cursor)
    ensures cursor < FetchLoop(t, exclude, env, cursor, 0, true).cursor
  {
    assert !TryOnce(t, exclude, env(cursor), true).AbortedBeforeDraw?;
  }

  /**
   * The batch never reads past an aborted attempt: the calls after it each stop at
   * once. Its outcomes and the cache afterwards depend only on the attempts before.
   */
  lemma {:induction false} BatchStopsAtAbort(t: Tiers, env: Env, env2: Env, cursor: nat, n: nat, c: nat)
    requires cursor <= c && SameUntilAbort(env, env2, c)
    ensures var b := BatchLoop(t, env, cursor, n, true);
      b.cursor <= c && b == BatchLoop(t, env2, cursor, n, true)
  {
    if n > 0 {
      BatchStopsAtAbort(t, env, env2, cursor, n - 1, c);
      var b := BatchLoop(t, env, cursor, n - 1, true);
      FetchStopsAtAbort(b.after, {}, env, env2, b.cursor, 0, c);
      var f := FetchLoop(b.after, {}, env, b.cursor, 0, true);
      BatchLoopStep(t, env, cursor, n - 1, true, f);
      BatchLoopStep(t, env2, cursor, n - 1, true, f);
    }
  }

  /**
   * The sequential phase stops at the round that reaches an aborted attempt: it never
   * reads past it, each round it runs reads at least one attempt, and its list, cache
   * and rounds depend only on the attempts before.
   */
  lemma {:induction false} FillStopsAtAbort(t: Tiers, valid: seq<Pokemon>, env: Env, env2: Env, cursor: nat, rounds: nat,
                                            count: nat, maxRetries: nat, c: nat)
    requires cursor <= c && SameUntilAbort(env, env2, c)
    ensures var f := FillLoop(t, valid, env, cursor, rounds, count, maxRetries, true);
      && f.cursor <= c && f.rounds - rounds <= f.cursor - cursor
      && f == FillLoop(t, valid, env2, cursor, rounds, count, maxRetries, true)
    decreases maxRetries - rounds
  {
    assert env(cursor).aborted == env2(cursor).aborted;
    if |valid| < count && rounds < maxRetries && !env(cursor).aborted {
      assert cursor < c;
      FetchStopsAtAbort(t, IdSet(valid), env, env2, cursor, 0, c);
      FetchReadsUnlessAborted(t, IdSet(valid), env, cursor);
      var r := FetchLoop(t, IdSet(valid), env, cursor, 0, true);
      FillLoopStep(t, valid, env, cursor, rounds, count, maxRetries, true, r);
      FillLoopStep(t, valid, env2, cursor, rounds, count, maxRetries, true, r);
      FillStopsAtAbort(r.after, Accept(valid, r.pokemon), env, env2, r.cursor, rounds + 1, count, maxRetries, c);
    }
  }

  /**
   * `collectPokemons` with a signal never reads past an aborted attempt, and what it
   * collects, shows and caches depends only on the attempts before. When the batch
   * reaches the abort, the run is stopped and nothing is collected.
   */
  lemma CollectedStopsAtAbort(t: Tiers, env: Env, env2: Env, cursor: nat, count: nat, batchSize: nat, maxRetries: nat, c: nat)
    requires cursor <= c && SameUntilAbort(env, env2, c)
    ensures var col := Collected(t, env, cursor, count, batchSize, maxRetries, true);
      && col.cursor <= c
      && col == Collected(t, env2, cursor, count, batchSize, maxRetries, true)
      && (BatchLoop(t, env, cursor, batchSize, true).cursor == c ==> col.stopped && col.valid == [] && col.rounds == 0)
  {
    BatchStopsAtAbort(t, env, env2, cursor, batchSize, c);
    var b := BatchLoop(t, env, cursor, batchSize, true);
    assert env(b.cursor).aborted == env2(b.cursor).aborted;
    if !env(b.cursor).aborted {
      FillStopsAtAbort(b.after, Dedup(b.results), env, env2, b.cursor, 0, count, maxRetries, c);
    }
  }

  // ---------------------------------------------------------------------------
  // An abort observed by a reply ends the run
  // ---------------------------------------------------------------------------

  /**
   * With a signal that sticks, an abort observed by the reply at attempt `cursor`
   * ends the sequential phase with the round in progress: it reads nothing after the
   * next attempt and runs at most one more round.
   */
  lemma ObservedAbortEndsFill(t: Tiers, valid: seq<Pokemon>, env: Env, cursor: nat, rounds: nat,
                              count: nat, maxRetries: nat)
    requires AbortSticks(env) && AbortSeenAt(env, cursor)
    ensures var f := FillLoop(t, valid, env, cursor, rounds, count, maxRetries, true);
      f.cursor <= cursor + 1 && f.rounds <= rounds + 1
  {
    assert AbortedAt(env, cursor + 1);
    FillStopsAtAbort(t, valid, env, env, cursor, rounds, count, maxRetries, cursor + 1);
  }

  /**
   * With a signal that sticks, an abort observed by a reply the batch read drops the
   * whole run: the check once the batch has settled still sees it.
   */
  lemma ObservedAbortDropsBatch(t: Tiers, env: Env, cursor: nat, count: nat, batchSize: nat, maxRetries: nat, p: nat)
    requires AbortSticks(env) && AbortSeenAt(env, p)
    requires cursor <= p < BatchLoop(t, env, cursor, batchSize, true).cursor
    ensures var col := Collected(t, env, cursor, count, batchSize, maxRetries, true);
      col.stopped && col.valid == [] && col.rounds == 0
  {
    var b := BatchLoop(t, env, cursor, batchSize, true);
    assert AbortedAt(env, p + 1);
    assert AbortedAt(env, b.cursor);
  }
}
