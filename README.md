# memory-card: a verified model of the game's cache, collector and rules

memory-card is a React memory game. The player is dealt twelve random Pokémon cards,
and each click on a card not clicked before this round scores a point. Three pieces of
sequential logic sit under the UI, and this project models each in Dafny and proves
what it promises:

- **`PokemonCache`** is a two-tier record cache. A memory `Map` sits in front of
  `localStorage`, whose keys are `pokemon_<id>`. An entry is fresh for one hour.
  `get` promotes fresh durable entries into memory and removes expired or corrupt
  ones. `set` writes both tiers and survives a failed durable write. `cleanExpired`
  and `clear` sweep both tiers. `getStats` counts both tiers.
- **The `useRandomPokemons` hook.**
  - `fetchSinglePokemon` is a retry loop of at most ten attempts. Each attempt draws
    an id in 1..1025, skips excluded ids, asks the cache before the upstream, and
    normalizes and caches a fetched body.
  - `collectPokemons` runs a batch of independent calls and folds their outcomes in
    order, dropping repeated ids. A sequential fill bounded by `maxRetries` follows.
    The result is truncated to `count`.
  - `fetchMore` and `refetch` are also modelled.
- **`App`** holds the Fisher–Yates `shuffleArray` on a copy of the cards, and the
  transitions of `(clickedPokemons, score, bestScore)` on a click and on closing the
  victory dialog.

Module map:

- `Records`: records and raw upstream documents.
- `JsRandom`: `Math.random()` as a real in [0, 1).
- `StorageKeys`: the `pokemon_<id>` keys and their injectivity.
- `Cache` and `CacheProperties`.
- `Normalization`.
- `FetchSingle` and `FetchProperties`.
- `Collect`, `CollectProperties` and `CancelProperties`.
- `App`.

Each stateful part is a class whose methods are proved to end in the state given by a
pure function of the old state:

- the cache's methods end as `Cache.Lookup`, `Cache.Store`, `Cache.Sweep` and
  `Cache.Cleared` say;
- `fetchSinglePokemon` ends as `FetchSingle.FetchLoop` says;
- the collector's batch, fill, `collectPokemons`, `refetch` and `fetchMore` end as
  `Collect.BatchLoop`, `Collect.FillLoop` and `Collect.Collected` say. This covers the
  records returned, the list shown, the cache and the attempts read;
- the game's click and shuffle end as `App.Click` and `App.Shuffled` say.

The lemmas are stated about those functions.

The environment is an oracle `env: nat -> Draw`. The collector reads it from a cursor,
one position per attempt that draws an id. Each position fixes four things:

- the value of `Math.random()`;
- the clock;
- the abort-signal state;
- what the upstream does with the request: a non-ok response, a rejection that is or
  is not an `AbortError`, or a parsed body. A body also records the signal state after
  it was read, the time it is cached and whether `localStorage.setItem` succeeds.

## Model

| member | source | states |
|---|---|---|
| `Cache.HitRate` | src/PokemonCache.jsx:110-114 | The hit rate is always a percentage in [0, 100] and equals `min(size, 100)`. |
| `Cache.PokemonCache.constructor` | src/PokemonCache.jsx:8 | A fresh page starts with empty memory and whatever the durable store kept. |
| `Cache.PokemonCache.Get` | src/PokemonCache.jsx:16-30 | `get` returns a fresh memory entry if there is one. Otherwise it returns whatever the durable tier yields, ending in the tiers `Lookup` gives. |
| `Cache.PokemonCache.LoadFromLocalStorage` | src/PokemonCache.jsx:71-91 | A fresh durable entry is promoted and returned. An expired or corrupt one is removed and null is returned. An absent key or an empty string changes nothing. |
| `Cache.PokemonCache.Set` | src/PokemonCache.jsx:37-55 | The same `{data, timestamp}` entry goes to memory and to `pokemon_<id>`. A failed durable write leaves that key as it was and still stores the memory entry. |
| `Cache.PokemonCache.CleanExpired` | src/PokemonCache.jsx:119-145 | Both loops end in exactly the swept tiers: fresh memory entries and surviving durable keys. |
| `Cache.PokemonCache.Clear` | src/PokemonCache.jsx:150-158 | Memory is emptied and exactly the `pokemon_` keys are removed. |
| `Cache.PokemonCache.GetStats` | src/PokemonCache.jsx:97-114 | `memoryCache` is the memory size. `localStorageItems` is the number of `pokemon_` keys, so never more than the store holds. The hit rate is `min(size, 100)`, a percentage. |
| `StorageKeys.KeyRoundTrip` | src/PokemonCache.jsx:49 | `pokemon_<id>` starts with the prefix the sweeps look for, and the id reads back from it. |
| `StorageKeys.KeyForInjective` | src/PokemonCache.jsx:48-51 | Distinct ids are persisted under distinct keys. |
| `CacheProperties.SetThenGetHitsMemory` | src/PokemonCache.jsx:37-44 | Within the time to live, `get` after `set` returns exactly the stored data from memory and changes nothing. |
| `CacheProperties.SetThenGetAfterExpiry` | src/PokemonCache.jsx:80-83 | After the time to live, `get` after a successful `set` returns null. The stale memory entry stays and the durable copy is removed. |
| `CacheProperties.StoreTouchesOnlyItsId` | src/PokemonCache.jsx:44-51 | `set` leaves every other id's memory entry and durable key as they were. |
| `CacheProperties.ExpiredMemoryEntryIsSkippedNotDeleted` | src/PokemonCache.jsx:18-21 | An expired memory entry is never returned from memory, and `get` does not delete it. |
| `CacheProperties.MissFallsBackToDurable` | src/PokemonCache.jsx:71-90 | On a memory miss there are three outcomes. A fresh durable entry is copied into memory and returned. An expired or corrupt one is removed and null is returned. An absent or empty one leaves both tiers alone. |
| `CacheProperties.LookupStoresNothing` | src/PokemonCache.jsx:16-30 | `get` only promotes durable entries into memory under their own id and removes durable keys. |
| `CacheProperties.PromotesAndPurgesTransitive` | src/PokemonCache.jsx:16-30 | A sequence of reads also only promotes and purges. |
| `CacheProperties.SweepRemovesExactlyTheStale` | src/PokemonCache.jsx:119-145 | `cleanExpired` removes exactly the stale memory entries and the `pokemon_` keys holding no fresh entry. Every other key is untouched. |
| `CacheProperties.SweepIdempotent` | src/PokemonCache.jsx:119-145 | Cleaning twice at the same time equals cleaning once. |
| `CacheProperties.SweepKeepsLookups` | src/PokemonCache.jsx:119-145 | Cleaning never changes what `get` returns at the same time. |
| `CacheProperties.ClearForgetsEveryRecord` | src/PokemonCache.jsx:150-158 | After `clear` no id is found, other keys keep their values, and no `pokemon_` key is left. |
| `CacheProperties.StatsIgnoreOtherKeys` | src/PokemonCache.jsx:100-102 | Keys of other applications do not change `localStorageItems`. |
| `CacheProperties.ClearZeroesStats` | src/PokemonCache.jsx:150-158 | After `clear` the statistics report an empty memory, no `pokemon_` key and a rate of 0. |
| `CacheProperties.StoreCountsItsKeyOnce` | src/PokemonCache.jsx:37-55 | A successful `set` adds one `pokemon_` key when the id had none and none otherwise. A failed write adds none. |
| `CacheProperties.SweepNeverAddsKeys` | src/PokemonCache.jsx:119-145 | `cleanExpired` never increases the `pokemon_` key count. |
| `Normalization.Normalize` | src/useRandomPokemons.jsx:66-83 | A record is built exactly when the document has `types`, `stats`, `abilities` and `sprites`, and every type, stat and ability slot has its inner object. The record keeps the upstream id and name. |
| `Normalization.NormalizeReadsEveryField` | src/useRandomPokemons.jsx:66-83 | A readable document gives a record whose i-th type, stat and ability are the i-th slot's, in order. The height and weight are the document's, and the four images come from the sprites named at :77-82. |
| `Normalization.MissingFieldThrows` | src/useRandomPokemons.jsx:69-79 | A missing `types`, `stats`, `abilities` or `sprites` makes normalization throw. |
| `Normalization.SpriteOtherNeverThrows` | src/useRandomPokemons.jsx:77-82 | Whatever `sprites.other` holds, the outcome of normalization is the same. A missing `other` only leaves the official and animated images undefined. |
| `Normalization.BrokenSlotThrows` | src/useRandomPokemons.jsx:69 | A type slot without its inner object makes the whole record fail. |
| `JsRandom.FloorTimes` | src/useRandomPokemons.jsx:35 | `Math.floor(Math.random() * n)` lies in [0, n). |
| `FetchSingle.SampleId` | src/useRandomPokemons.jsx:35 | Every drawn id lies in [1, 1025]. |
| `FetchSingle.FetchLoop` | src/useRandomPokemons.jsx:29-32 | A call reads at most the ten attempts it has left. |
| `FetchSingle.Attempt` | src/useRandomPokemons.jsx:33-98 | One pass through the loop body ends as `TryOnce` says, with the cache it gives. |
| `FetchSingle.FetchSinglePokemon` | src/useRandomPokemons.jsx:28-102 | The loop returns the record and leaves the cache as `FetchLoop` says, reading at most ten attempts. |
| `FetchProperties.CacheHitSkipsUpstream` | src/useRandomPokemons.jsx:45-47 | On a cache hit the cached record is returned whatever the upstream would reply, and nothing is stored. |
| `FetchProperties.FailedReplyCostsAnAttempt` | src/useRandomPokemons.jsx:56-59 | Each of these spends the attempt and stores nothing: a non-ok response, a non-abort rejection, a body that fails to normalize. |
| `FetchProperties.FreshBodyIsStored` | src/useRandomPokemons.jsx:51-89 | On a miss, an ok body that normalizes ends the attempt with its record. The record is stored under the id drawn, in memory and, when the write succeeds, under its durable key. The record keeps the upstream id. |
| `FetchProperties.RetryStoresNothing` | src/useRandomPokemons.jsx:91-98 | An attempt that does not end the call only promotes and purges. |
| `FetchProperties.StepLeavesOthersAlone` | src/useRandomPokemons.jsx:38-41 | An attempt leaves the entries of excluded ids, and of every id other than the one drawn, unchanged. |
| `FetchProperties.FetchAbortsImmediately` | src/useRandomPokemons.jsx:33 | An aborted signal ends the call with null before anything is drawn or read. |
| `FetchProperties.AbortAfterRequestReturnsNull` | src/useRandomPokemons.jsx:92-93 | An abort seen once the request is under way ends the call with null after that attempt. |
| `FetchProperties.FetchLeavesExcludedAlone` | src/useRandomPokemons.jsx:38-41 | The entries of an excluded id, in both tiers, are exactly as they were. |
| `FetchProperties.FailedFetchStoresNothing` | src/useRandomPokemons.jsx:101 | A call that returns null has only promoted and purged. |
| `FetchProperties.FetchProvenance` | src/useRandomPokemons.jsx:85-89 | A returned record was drawn under an id outside the exclusion set. Either the cache already held it there and nothing was stored, or it is the normalized last body, stored under that id and nowhere else. |
| `FetchProperties.AllExcludedGivesUp` | src/useRandomPokemons.jsx:37-41 | When every draw is excluded, the call spends all ten attempts, changes nothing and returns null. |
| `FetchProperties.RejectedThenBody` | src/useRandomPokemons.jsx:91-98 | A rejection that is not an `AbortError` spends one attempt and the loop goes on. A following miss answered by a good body returns that record after two attempts, and the first id drawn gets no memory entry. |
| `FetchProperties.LookupKeepsCoherent` | src/PokemonCache.jsx:16-30 | On a cache that files every record under its own id, a read returns a record of the id asked for and keeps the cache so. |
| `FetchProperties.StoreKeepsCoherent` | src/PokemonCache.jsx:37-55 | Storing a record under its own id keeps every record filed under its own id. |
| `FetchProperties.GoodDrawFetches` | src/useRandomPokemons.jsx:33-89 | On such a cache, a draw that is not aborted, not excluded and answered by a readable document of the id drawn ends the call at once with a record of that id. |
| `Collect.DedupDistinct` | src/useRandomPokemons.jsx:126-145 | The batch fold yields pairwise-distinct ids and no more records than outcomes. |
| `Collect.DedupKeepsEveryId` | src/useRandomPokemons.jsx:126-145 | Every kept record is one of the outcomes, and every id among the outcomes is kept. |
| `Collect.DedupKeepsOrder` | src/useRandomPokemons.jsx:126-145 | What a prefix of the outcomes keeps is a prefix of what all of them keep, so arrival order is preserved. |
| `Collect.DedupKeepsFirst` | src/useRandomPokemons.jsx:126-145 | Every outcome that is the first of its id is kept, right after what the outcomes before it kept. |
| `Collect.DedupKeepsOnlyFirst` | src/useRandomPokemons.jsx:126-145 | Every kept record is the first outcome of its id. A later outcome with the same id is dropped. |
| `Collect.DedupOfDistinctRecords` | src/useRandomPokemons.jsx:126-145 | Outcomes that are all records with pairwise-distinct ids are kept whole and in order. |
| `Collect.BatchLoop` | src/useRandomPokemons.jsx:116-121 | The batch has one outcome per call, each call passed the empty id set. It reads at most ten attempts per call. |
| `Collect.BatchLoopStep` | src/useRandomPokemons.jsx:117-119 | One more batch call appends that call's outcome and continues from its cache and cursor. |
| `Collect.FillLoop` | src/useRandomPokemons.jsx:148-171 | The sequential phase only appends to the list and runs at most `maxRetries` rounds. Each round's call excludes every id kept so far. |
| `Collect.FillLoopStep` | src/useRandomPokemons.jsx:150-170 | A round that runs is one call excluding the kept ids, its record kept when its id is new, then the next round. |
| `Collect.FillLoopAddsOnlyNew` | src/useRandomPokemons.jsx:154-158 | What the sequential phase appends has pairwise-distinct ids, none of them in the list it started from. |
| `Collect.NewRecordsOfFill` | src/useRandomPokemons.jsx:216-222 | The records a fill appends have distinct ids, all new. A list without repeated ids stays so. |
| `Collect.Collected` | src/useRandomPokemons.jsx:107-193 | A run has one outcome per batch call. It stops exactly when a passed signal is aborted once the batch has settled. Otherwise the collected list starts with the deduplicated batch. |
| `Collect.FetchForFill` | src/useRandomPokemons.jsx:154 | One call of the sequential loop advances the fill: the fill from before the call equals the fill from after it, with the outcome accepted. |
| `Collect.RandomPokemons.RunBatch` | src/useRandomPokemons.jsx:116-121 | The batch's outcomes, the cache afterwards and the attempts read are those of `BatchLoop`. |
| `Collect.RandomPokemons.FoldBatch` | src/useRandomPokemons.jsx:126-145 | The loop keeps exactly `Dedup` of the outcomes and their id set. Once a record is kept, the list shown is the first `count` kept and the progress, when reported, is their number capped at `count`. With nothing kept, both stay as they were. |
| `Collect.RandomPokemons.FillUp` | src/useRandomPokemons.jsx:148-171 | The loop ends as `FillLoop` says. The list keeps distinct ids, starts with the fold's, runs at most `maxRetries` rounds and falls short of `count` only when they are spent or the signal is aborted. Once a record is added the whole list is shown and the progress, when reported, counts it; otherwise both stay as they were. |
| `Collect.RandomPokemons.constructor` | src/useRandomPokemons.jsx:12-23 | The hook starts with no records, not loading, and progress 0 of `count`. |
| `Collect.RandomPokemons.CollectPokemons` | src/useRandomPokemons.jsx:107-193 | The outcomes, the collected list, the cache and the attempts read are those of `Collected`. An abort after the batch shows nothing. Otherwise the list shown is the first `count` collected, with distinct ids, starting with the deduplicated batch. It is short only when the retries are spent or the signal is aborted. The progress ends at the number of records shown, or at 0 when it is not reported or the run was stopped. |
| `Collect.RandomPokemons.Refetch` | src/useRandomPokemons.jsx:198-201 | The list shown is the first `count` records of a new `Collected` run without a signal, which never stops early. The cache and cursor are that run's. The list has distinct ids. The progress total is `count`, and the progress ends at the number of records shown, or at 0 when it is not reported. |
| `Collect.RandomPokemons.FetchMore` | src/useRandomPokemons.jsx:206-231 | The list, cache and cursor are those of `FillLoop` asked for `additionalCount` more records with `2 * additionalCount` rounds. The added records are appended and have distinct ids, none already shown. Fewer are added only when all rounds are spent. |
| `CollectProperties.FillLoopKeepsDistinct` | src/useRandomPokemons.jsx:148-171 | From a list without repeated ids, the sequential phase keeps ids distinct and adds nothing once `count` records are there. |
| `CollectProperties.FillLoopStopsForAReason` | src/useRandomPokemons.jsx:150-152 | The sequential phase stops short of `count` only when its rounds are spent or the signal is aborted. |
| `CollectProperties.AcceptKeepsDistinct` | src/useRandomPokemons.jsx:156-158 | Keeping an outcome only when its id is new keeps the ids distinct. |
| `CollectProperties.CollectedIsDistinct` | src/useRandomPokemons.jsx:107-179 | A run not stopped by an abort collects a list without repeated ids, and so shows one. |
| `CollectProperties.GoodBatch` | src/useRandomPokemons.jsx:116-121 | On a cache that files records under their own ids, good draws give a batch of records, the j-th of the id drawn at the j-th attempt. |
| `CollectProperties.GoodFill` | src/useRandomPokemons.jsx:148-171 | Good, distinct, new draws with rounds enough fill the list to exactly `count`. |
| `CollectProperties.GoodBatchKeptWhole` | src/useRandomPokemons.jsx:116-145 | Good, distinct draws give a batch that the fold keeps whole, and whose ids no later draw reads. |
| `CollectProperties.CollectReachesCount` | src/useRandomPokemons.jsx:107-179 | With good, distinct draws, `count <= batchSize + maxRetries` and no abort after the batch, the list shown holds exactly `count` records. |
| `CollectProperties.FetchMoreReachesCount` | src/useRandomPokemons.jsx:206-226 | With good, distinct draws of ids not shown, `fetchMore` adds exactly `additionalCount` records. |
| `CancelProperties.FetchStopsAtAbort` | src/useRandomPokemons.jsx:32-33 | A call with a signal never reads past an attempt where the signal is aborted. Its record and the cache afterwards depend only on the attempts before it. |
| `CancelProperties.FetchReadsUnlessAborted` | src/useRandomPokemons.jsx:33-35 | A call whose first check finds the signal clear draws at that attempt. |
| `CancelProperties.BatchStopsAtAbort` | src/useRandomPokemons.jsx:116-121 | The batch never reads past an aborted attempt, and its outcomes and cache depend only on the attempts before it. |
| `CancelProperties.FillStopsAtAbort` | src/useRandomPokemons.jsx:150-171 | The sequential phase stops at the round that reaches an aborted attempt. It runs no more rounds than attempts it read, and its list, cache and rounds depend only on the attempts before the abort. |
| `CancelProperties.CollectedStopsAtAbort` | src/useRandomPokemons.jsx:107-193 | A run with a signal reads nothing from an aborted attempt on, and what it collects and caches depends only on the attempts before. When the batch reaches the abort, the run is stopped with nothing collected. |
| `CancelProperties.ObservedAbortEndsFill` | src/useRandomPokemons.jsx:150-154 | With a signal that is never cleared, an abort observed by a reply ends the sequential phase: nothing after the next attempt is read and at most one more round runs. |
| `CancelProperties.ObservedAbortDropsBatch` | src/useRandomPokemons.jsx:121-123 | With such a signal, an abort observed by a reply the batch read drops the whole run. |
| `Collect.AppendDistinct` | src/useRandomPokemons.jsx:219-222 | Appending records whose ids are new keeps a list free of repeated ids. |
| `App.SwapIndex` | src/App.jsx:35 | Every swap index `j` satisfies `0 <= j <= i`. |
| `App.ShuffledIsPermutation` | src/App.jsx:31-41 | The shuffle returns the same cards, with the same length and the same multiset, whatever the draws. |
| `App.LastCardIsFirstDraw` | src/App.jsx:33-38 | The first draw alone decides the last card, and later swaps leave it alone. |
| `App.ShuffleArray` | src/App.jsx:31-41 | The in-place loop on a copy yields `Shuffled` of the input: a permutation, with the input unchanged. |
| `App.NewIdScores` | src/App.jsx:46-52 | A new id adds a point, raises the best score to the new score if needed, and is appended. |
| `App.RepeatedIdResets` | src/App.jsx:55-57 | A repeated id resets the score to 0 and clears the clicked ids. The best score is kept. |
| `App.ScoreNeverAboveBest` | src/App.jsx:43-61 | From `[0, 0]`, `0 <= score <= bestScore` after every click and every close. |
| `App.ClicksKeepRoundConsistent` | src/App.jsx:46-57 | Under clicks alone, the clicked ids never repeat and there is one point per clicked id. |
| `App.DistinctClicksFromStart` | src/App.jsx:46-52 | Distinct clicks from the start give a score equal to the number of clicks, with the ids recorded in order. |
| `App.CloseVictoryKeepsClickedIds` | src/App.jsx:78 | As written, closing the dialog after twelve distinct clicks keeps twelve clicked ids with score 0. The next click on a card of that game scores nothing. |
| `App.FixedCloseKeepsRoundConsistent` | src/App.jsx:78 | With a close that also clears the clicked ids, every run keeps the round consistent. |
| `App.FixedCloseStartsFresh` | src/App.jsx:78 | With the corrected close, the first click of the next game scores a point. |
| `App.MemoryGame.constructor` | src/App.jsx:10-11 | The game starts with no clicked ids and scores `[0, 0]`. |
| `App.MemoryGame.ShowPokemons` | src/App.jsx:27-29 | A new list from the collector replaces the cards shown and leaves the scores alone. |
| `App.MemoryGame.OnPokemonClick` | src/App.jsx:43-61 | The round moves as `Click` says, and the shown cards are replaced by a shuffle that is a permutation of them. |
| `App.MemoryGame.CloseVictoryDialog` | src/App.jsx:78 | As written, both scores go to 0 and the clicked ids and cards stay. |

## Left out

- Network I/O and JSON are replaced by the oracle's replies. This covers `fetch`,
  `response.json()`, `JSON.stringify` and `JSON.parse`, and the wording of console
  messages. A durable value is either a parsed entry, text that does not parse, or the
  empty string. A parsed entry is assumed to have the `{data, timestamp}` shape.
- `Date.now()` is the parameter `now`, or a clock value taken from the oracle.
  `Math.random()` is an input real in [0, 1); floating-point rounding of the products
  is not modelled.
- `Promise.allSettled`: the batch calls run one after another here. Their results are
  in order and none excludes another, because the shared id set is empty until they
  all settle. Interleavings of their cache reads and writes are not modelled.
- The abort check at src/useRandomPokemons.jsx:49 reads the same signal state as the
  check at :33. No suspension point lies between them, because the cache lookup is
  synchronous. It is therefore folded into the first check.
- The `catch` branch of `collectPokemons` (src/useRandomPokemons.jsx:183-187) is not
  modelled. Nothing inside it can throw: each call catches its own errors and
  `Promise.allSettled` does not reject. So `error` is never set.
- React wiring is left out. This covers `useState` setters beyond their final values,
  the `useEffect` that starts a collection with an `AbortController` and aborts it on
  unmount, and the re-render that copies `pokemons` into the shown cards. The last is
  the method `ShowPokemons`, which the model does not trigger by itself.
- `isValid` is the predicate `Cache.IsValid`, a definition rather than a member with
  a contract. It reads the clock at each call; within one `cleanExpired` every read
  uses the same `now`.
- `count`, `batchSize`, `maxRetries` and `additionalCount` are natural numbers. A
  negative `count` is not modelled, nor the slice it would give. A negative
  `additionalCount` would run zero rounds, the same as 0.
- The default `additionalCount = count` of `fetchMore` is not modelled: callers pass
  the value.
- The oracle fixes the signal state at each attempt independently, so by itself it
  allows a signal that is cleared again after an abort. The cancellation lemmas that
  need a real `AbortController` (`ObservedAbortEndsFill`, `ObservedAbortDropsBatch`)
  assume `AbortSticks`: once aborted the signal stays aborted, and an abort a reply
  observed is seen at the next attempt. The contracts of the collector's methods do
  not assume it.
- Cache.HitRate: computed in exact reals. JavaScript's `Math.min(n / 100, 1) * 100`
  can differ from `min(n, 100)` in the last binary digit (7.000000000000001 for
  n = 7), which the model does not reproduce; `GetStats` inherits this.
- The liveness lemmas (`CollectReachesCount`, `FetchMoreReachesCount`) state a
  sufficient condition: good draws of pairwise-distinct ids on a cache that files every
  record under its own id. Runs with failed or repeated draws are covered only by the
  safety contracts.
- Normalization follows the code: only the two `sprites.other` lookups use optional
  chaining, so any other missing field throws and the attempt is retried.
- The durable tier holds only the keys modelled. Its quota is not modelled apart
  from the failed write.
- The presentation components are not part of this model: `Card.jsx`, `CardsGrid.jsx`,
  `Header.jsx` and the victory dialog's confetti.

## Findings

| source | as written | input that shows it | evidently intended | confidence | as-written member | corrected member |
|---|---|---|---|---|---|---|
| src/App.jsx:78 | Closing the victory dialog sets the scores to `[0, 0]` but keeps `clickedPokemons`, so twelve ids stay recorded with a score of 0. | Click ids 1 to 12, each once, then close the dialog. The next click on any of those cards is counted as a repeat and scores nothing. | Closing the dialog starts a new round with no clicked ids, so the score again counts the clicked ids. | not executed | `App.CloseVictoryKeepsClickedIds` | `App.FixedCloseKeepsRoundConsistent` |
