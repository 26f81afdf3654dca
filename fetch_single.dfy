/**
 * `fetchSinglePokemon`: draw a random id, skip ids already collected, consult the
 * cache before the network, abandon an id whose request fails, give up after ten
 * attempts, and stop at once when the abort signal is seen.
 *
 * The environment is an oracle `env`: attempt number `c` of a run reads `env(c)`,
 * which fixes the value of `Math.random()`, the clock, the state of the abort signal
 * and what the upstream does with the request. `TryOnce` and `FetchLoop` say what
 * one attempt and the whole call do; the method performs the loop and is proved to
 * agree with `FetchLoop`.
 */
module FetchSingle {
  import opened Records
  import opened JsRandom
  import opened Cache
  import opened Normalization

  const MAX_ATTEMPTS: nat := 10
  /** The number of ids in the catalogue: ids are 1 to 1025. */
  const ID_SPACE: nat := 1025

  /** What happens to one upstream request. */
  datatype Reply =
    | NotOk                          // the response arrives with `ok` false
    | Rejected(abortError: bool)     // `fetch` or `response.json()` rejects; the error may be an AbortError
    | Body(raw: RawPokemon,          // the parsed body of an ok response
           abortedAfter: bool,       // the signal state once the body has been read
           savedAt: int,             // the clock when the record is cached
           durableWriteOk: bool)     // whether `localStorage.setItem` succeeds

  /** What the environment fixes for one attempt. */
  datatype Draw = Draw(aborted: bool, random: Unit, now: int, reply: Reply)

  type Env = nat -> Draw

  /** `Math.floor(Math.random() * 1025) + 1`. */
  function SampleId(u: Unit): (id: int)
    ensures 1 <= id <= ID_SPACE
  {
    FloorTimes(u, ID_SPACE) + 1
  }

  /** The outcome of one pass through the loop body. */
  datatype Step =
    | AbortedBeforeDraw              // the signal was already set: no id is drawn
    | AbortedAfterDraw(after: Tiers) // the abort was seen once the request had been sent
    | Retry(after: Tiers)            // the attempt is spent; draw again
    | Found(pokemon: Pokemon, after: Tiers)

  /**
   * One attempt. `signal` says whether the caller passed an abort signal at all
   * (`abortSignal?.aborted` is falsy without one). The check before the request is
   * the one at the top of the loop: nothing can set the signal in between, since the
   * cache lookup does not suspend.
   */
  function TryOnce(t: Tiers, exclude: set<int>, d: Draw, signal: bool): Step
  {
    if signal && d.aborted then AbortedBeforeDraw
    else
      var id := SampleId(d.random);
      if id in exclude then Retry(t)
      else
        var read := Lookup(t, id, d.now);
        if read.value.Some? then Found(read.value.value, read.after)
        else match d.reply
          case NotOk => Retry(read.after)
          case Rejected(abortError) => if abortError then AbortedAfterDraw(read.after) else Retry(read.after)
          case Body(raw, abortedAfter, savedAt, durableWriteOk) =>
            if signal && abortedAfter then AbortedAfterDraw(read.after)
            else match Normalize(raw)
              case None => Retry(read.after)
              case Some(p) => Found(p, Store(read.after, id, p, savedAt, durableWriteOk))
  }

  /** The record found (None for `null`), the cache afterwards, and the next unread attempt of the oracle. */
  datatype Fetch = Fetch(pokemon: Option<Pokemon>, after: Tiers, cursor: nat)

  /**
   * The loop from attempt number `attempts` on. It reads at most the remaining
   * attempts of the oracle, so a call reads at most ten.
   */
  function FetchLoop(t: Tiers, exclude: set<int>, env: Env, cursor: nat, attempts: nat, signal: bool): (r: Fetch)
    requires attempts <= MAX_ATTEMPTS
    ensures cursor <= r.cursor <= cursor + (MAX_ATTEMPTS - attempts)
    decreases MAX_ATTEMPTS - attempts
  {
    if attempts == MAX_ATTEMPTS then Fetch(None, t, cursor)
    else match TryOnce(t, exclude, env(cursor), signal)
      case AbortedBeforeDraw => Fetch(None, t, cursor)
      case AbortedAfterDraw(after) => Fetch(None, after, cursor + 1)
      case Retry(after) => FetchLoop(after, exclude, env, cursor + 1, attempts + 1, signal)
      case Found(p, after) => Fetch(Some(p), after, cursor + 1)
  }

  /** One pass through the loop body, proved to do what `TryOnce` says. */
  method Attempt(cache: PokemonCache, exclude: set<int>, d: Draw, signal: bool) returns (step: Step)
    modifies cache
    ensures step == TryOnce(old(cache.State()), exclude, d, signal)
    ensures step.AbortedBeforeDraw? ==> cache.State() == old(cache.State())
    ensures !step.AbortedBeforeDraw? ==> cache.State() == step.after
  {
    if signal && d.aborted {
      return AbortedBeforeDraw;
    }
    var randomId := SampleId(d.random);
    if randomId in exclude {
      return Retry(cache.State());
    }
    var found := cache.Get(randomId, d.now);
    if found.Some? {
      return Found(found.value, cache.State());
    }
    match d.reply {
      case NotOk =>
        step := Retry(cache.State());
      case Rejected(abortError) =>
        step := if abortError then AbortedAfterDraw(cache.State()) else Retry(cache.State());
      case Body(raw, abortedAfter, savedAt, durableWriteOk) =>
        if signal && abortedAfter {
          return AbortedAfterDraw(cache.State());
        }
        var normalized := Normalize(raw);
        if normalized.None? {
          return Retry(cache.State());
        }
        cache.Set(randomId, normalized.value, savedAt, durableWriteOk);
        step := Found(normalized.value, cache.State());
    }
  }

  method FetchSinglePokemon(cache: PokemonCache, exclude: set<int>, env: Env, cursor: nat, signal: bool)
    returns (pokemon: Option<Pokemon>, next: nat)
    modifies cache
    ensures Fetch(pokemon, cache.State(), next) == FetchLoop(old(cache.State()), exclude, env, cursor, 0, signal)
    ensures cursor <= next <= cursor + MAX_ATTEMPTS
  {
    var attempts := 0;
    next := cursor;
    while attempts < MAX_ATTEMPTS
      invariant attempts <= MAX_ATTEMPTS
      invariant FetchLoop(cache.State(), exclude, env, next, attempts, signal)
             == FetchLoop(old(cache.State()), exclude, env, cursor, 0, signal)
      decreases MAX_ATTEMPTS - attempts
    {
      var step := Attempt(cache, exclude, env(next), signal);
      if step.AbortedBeforeDraw? {
        return None, next;
      } else if step.AbortedAfterDraw? {
        return None, next + 1;
      } else if step.Found? {
        return Some(step.pokemon), next + 1;
      }
      attempts, next := attempts + 1, next + 1;
    }
    return None, next;
  }
}
