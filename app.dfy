/**
 * The memory game: `shuffleArray`, a Fisher–Yates shuffle on a copy of the cards, and
 * the transitions of `(clickedPokemons, score, bestScore)` on a card click and on
 * closing the victory dialog.
 *
 * `Math.random()` is a sequence of draws in [0, 1): the draw for position `i` (from
 * the last position down to 1) is `rand[|s| - 1 - i]`.
 */
module App {
  import opened Records
  import opened JsRandom

  // ---------------------------------------------------------------------------
  // shuffleArray
  // ---------------------------------------------------------------------------

  /** The random index used for position `i`: `Math.floor(Math.random() * (i + 1))`. */
  function SwapIndex(u: Unit, i: nat): (j: nat)
    ensures 0 <= j <= i
  {
    FloorTimes(u, i + 1)
  }

  function Swap<T>(s: seq<T>, i: nat, j: nat): (r: seq<T>)
    requires i < |s| && j < |s|
    ensures |r| == |s|
  {
    s[i := s[j]][j := s[i]]
  }

  /** The sequence after the swaps for positions `i`, `i - 1`, ..., 1. */
  function ShuffleDown<T>(s: seq<T>, rand: seq<Unit>, i: nat): (r: seq<T>)
    requires i < |s| && |s| <= |rand| + 1
    ensures |r| == |s|
    decreases i
  {
    if i == 0 then s
    else ShuffleDown(Swap(s, i, SwapIndex(rand[|s| - 1 - i], i)), rand, i - 1)
  }

  /** The result of `shuffleArray` for the given draws. */
  function Shuffled<T>(s: seq<T>, rand: seq<Unit>): (r: seq<T>)
    requires |s| <= |rand| + 1
    ensures |r| == |s|
  {
    if |s| == 0 then s else ShuffleDown(s, rand, |s| - 1)
  }

  lemma SwapIsPermutation<T>(s: seq<T>, i: nat, j: nat)
    requires i < |s| && j < |s|
    ensures |Swap(s, i, j)| == |s|
    ensures multiset(Swap(s, i, j)) == multiset(s)
  {
  }

  /** Whatever the draws, the shuffle returns the same cards: same length, same multiset. */
  lemma ShuffledIsPermutation<T>(s: seq<T>, rand: seq<Unit>)
    requires |s| <= |rand| + 1
    ensures |Shuffled(s, rand)| == |s|
    ensures multiset(Shuffled(s, rand)) == multiset(s)
  {
    if |s| > 0 {
      ShuffleDownIsPermutation(s, rand, |s| - 1);
    }
  }

  lemma {:induction false} ShuffleDownIsPermutation<T>(s: seq<T>, rand: seq<Unit>, i: nat)
    requires i < |s| && |s| <= |rand| + 1
    ensures |ShuffleDown(s, rand, i)| == |s|
    ensures multiset(ShuffleDown(s, rand, i)) == multiset(s)
    decreases i
  {
    if i > 0 {
      var j := SwapIndex(rand[|s| - 1 - i], i);
      SwapIsPermutation(s, i, j);
      ShuffleDownIsPermutation(Swap(s, i, j), rand, i - 1);
    }
  }

  /** The first draw decides the last card: it is the card at index `floor(u * n)` of the input. */
  lemma LastCardIsFirstDraw<T>(s: seq<T>, rand: seq<Unit>)
    requires 1 < |s| <= |rand| + 1
    ensures Shuffled(s, rand)[|s| - 1] == s[SwapIndex(rand[0], |s| - 1)]
  {
    var n := |s|;
    var t := Swap(s, n - 1, SwapIndex(rand[0], n - 1));
    ShuffleDownKeepsAbove(t, rand, n - 2, n - 1);
  }

  /** Once position `k` has been swapped, later swaps, at lower positions, leave it alone. */
  lemma {:induction false} ShuffleDownKeepsAbove<T>(s: seq<T>, rand: seq<Unit>, i: nat, k: nat)
    requires i < k < |s| && |s| <= |rand| + 1
    ensures ShuffleDown(s, rand, i)[k] == s[k]
    decreases i
  {
    if i > 0 {
      var t := Swap(s, i, SwapIndex(rand[|s| - 1 - i], i));
      ShuffleDownKeepsAbove(t, rand, i - 1, k);
    }
  }

  /**
   * `shuffleArray(array)`: copy the cards into a new array and swap in place from the
   * last index down to 1. The input is not changed.
   */
  method ShuffleArray<T>(cards: seq<T>, rand: seq<Unit>) returns (r: seq<T>)
    requires |cards| <= |rand| + 1
    ensures r == Shuffled(cards, rand)
    ensures |r| == |cards| && multiset(r) == multiset(cards)
  {
    if |cards| == 0 {
      return cards;
    }
    var a := new T[|cards|](k requires 0 <= k < |cards| => cards[k]);
    assert a[..] == cards;
    var i := a.Length - 1;
    while i > 0
      invariant 0 <= i < a.Length == |cards|
      invariant ShuffleDown(a[..], rand, i) == Shuffled(cards, rand)
      decreases i
    {
      var j := SwapIndex(rand[a.Length - 1 - i], i);
      ghost var before := a[..];
      a[i], a[j] := a[j], a[i];
      assert a[..] == Swap(before, i, j);
      i := i - 1;
    }
    r := a[..];
    ShuffledIsPermutation(cards, rand);
  }

  // ---------------------------------------------------------------------------
  // Scores and clicked ids
  // ---------------------------------------------------------------------------

  /** The score at which the victory dialog opens: one point per card. */
  const VICTORY_SCORE: int := 12

  /** `clickedPokemons` and `scores = [score, bestScore]`. */
  datatype Game = Game(clicked: seq<int>, score: int, best: int)

  const Start: Game := Game([], 0, 0)

  /** `onPokemonClick`: a new id scores a point; an id clicked before resets the round. */
  function Click(g: Game, id: int): Game
  {
    if id !in g.clicked then
      var newScore := g.score + 1;
      Game(g.clicked + [id], newScore, if newScore > g.best then newScore else g.best)
    else Game([], 0, g.best)
  }

  /** Closing the victory dialog, as written: both scores go to 0 and the clicked ids stay. */
  function CloseVictory(g: Game): Game
  {
    Game(g.clicked, 0, 0)
  }

  /** Closing the victory dialog as evidently intended: a new round with no clicked ids. */
  function CloseVictoryFixed(g: Game): Game
  {
    Game([], 0, 0)
  }

  datatype Event = ClickOn(id: int) | CloseDialog

  /** The dialog is open only at the victory score, so closing it is only possible then. */
  function Apply(g: Game, e: Event, fixedClose: bool): Game
  {
    match e
    case ClickOn(id) => Click(g, id)
    case CloseDialog =>
      if g.score != VICTORY_SCORE then g
      else if fixedClose then CloseVictoryFixed(g) else CloseVictory(g)
  }

  function Run(g: Game, events: seq<Event>, fixedClose: bool): Game
    decreases |events|
  {
    if events == [] then g else Run(Apply(g, events[0], fixedClose), events[1..], fixedClose)
  }

  /** No id appears twice. */
  predicate NoRepeats(s: seq<int>)
  {
    forall i, j :: 0 <= i < j < |s| ==> s[i] != s[j]
  }

  /** The round invariant: the clicked ids are distinct and there is one point per clicked id. */
  predicate RoundConsistent(g: Game)
  {
    NoRepeats(g.clicked) && |g.clicked| == g.score
  }

  /** A new id adds one point and raises the best score to it if needed; the id is recorded. */
  lemma NewIdScores(g: Game, id: int)
    requires id !in g.clicked
    ensures Click(g, id).score == g.score + 1
    ensures Click(g, id).best == if g.score + 1 > g.best then g.score + 1 else g.best
    ensures Click(g, id).clicked == g.clicked + [id]
  {
  }

  /** An id clicked before ends the round: score 0, no clicked ids, best score kept. */
  lemma RepeatedIdResets(g: Game, id: int)
    requires id in g.clicked
    ensures Click(g, id) == Game([], 0, g.best)
  {
  }

  /** From the start, the score never exceeds the best score and is never negative, whatever happens. */
  lemma {:induction false} ScoreNeverAboveBest(g: Game, events: seq<Event>, fixedClose: bool)
    requires 0 <= g.score <= g.best
    ensures 0 <= Run(g, events, fixedClose).score <= Run(g, events, fixedClose).best
    decreases |events|
  {
    if events != [] {
      ScoreNeverAboveBest(Apply(g, events[0], fixedClose), events[1..], fixedClose);
    }
  }

  lemma ClickKeepsRoundConsistent(g: Game, id: int)
    requires RoundConsistent(g)
    ensures RoundConsistent(Click(g, id))
  {
    if id !in g.clicked {
      var c := g.clicked + [id];
      assert forall i :: 0 <= i < |g.clicked| ==> c[i] == g.clicked[i];
    }
  }

  /** Clicks alone keep the round consistent: no repeated id, and the score counts the clicked ids. */
  lemma {:induction false} ClicksKeepRoundConsistent(g: Game, events: seq<Event>)
    requires RoundConsistent(g)
    requires forall i :: 0 <= i < |events| ==> events[i].ClickOn?
    ensures RoundConsistent(Run(g, events, false))
    decreases |events|
  {
    if events != [] {
      ClickKeepsRoundConsistent(g, events[0].id);
      ClicksKeepRoundConsistent(Apply(g, events[0], false), events[1..]);
    }
  }

  /** With the intended close, every run from the start keeps the round consistent. */
  lemma {:induction false} FixedCloseKeepsRoundConsistent(g: Game, events: seq<Event>)
    requires RoundConsistent(g)
    ensures RoundConsistent(Run(g, events, true))
    decreases |events|
  {
    if events != [] {
      if events[0].ClickOn? {
        ClickKeepsRoundConsistent(g, events[0].id);
      }
      FixedCloseKeepsRoundConsistent(Apply(g, events[0], true), events[1..]);
    }
  }

  /** With the intended close, the first click of the next game scores a point. */
  lemma FixedCloseStartsFresh(g: Game, id: int)
    ensures Click(CloseVictoryFixed(g), id) == Game([id], 1, 1)
  {
  }

  /** Distinct clicks from the start: the score is the number of clicks and the ids are recorded in order. */
  lemma {:induction false} DistinctClicksFromStart(ids: seq<int>)
    requires NoRepeats(ids)
    ensures Run(Start, ClicksOn(ids), false) == Game(ids, |ids|, |ids|)
    decreases |ids|
  {
    if ids != [] {
      var init := ids[..|ids| - 1];
      var last := ids[|ids| - 1];
      assert ids == init + [last];
      assert NoRepeats(init);
      DistinctClicksFromStart(init);
      RunAppend(Start, ClicksOn(init), [ClickOn(last)], false);
      assert ClicksOn(ids) == ClicksOn(init) + [ClickOn(last)];
      assert last !in init;
    }
  }

  function ClicksOn(ids: seq<int>): (events: seq<Event>)
    ensures |events| == |ids|
    ensures forall i :: 0 <= i < |ids| ==> events[i] == ClickOn(ids[i])
  {
    seq(|ids|, i requires 0 <= i < |ids| => ClickOn(ids[i]))
  }

  lemma {:induction false} RunAppend(g: Game, a: seq<Event>, b: seq<Event>, fixedClose: bool)
    ensures Run(g, a + b, fixedClose) == Run(Run(g, a, fixedClose), b, fixedClose)
    decreases |a|
  {
    if a != [] {
      assert (a + b)[1..] == a[1..] + b;
      RunAppend(Apply(g, a[0], fixedClose), a[1..], b, fixedClose);
    } else {
      assert a + b == b;
    }
  }

  /**
   * Closing the dialog as written: after twelve distinct clicks the dialog opens; closing
   * it leaves twelve clicked ids with a score of 0, and clicking any card shown in that
   * game then counts as a repeat, so it scores nothing.
   */
  lemma CloseVictoryKeepsClickedIds()
    ensures var ids := [1, 2, 3, 4, 5, 6, 7, 8, 9, 10, 11, 12];
      var won := Run(Start, ClicksOn(ids), false);
      var closed := Apply(won, CloseDialog, false);
      && won.score == VICTORY_SCORE
      && !RoundConsistent(closed)
      && Click(closed, 1).score == 0
  {
    var ids := [1, 2, 3, 4, 5, 6, 7, 8, 9, 10, 11, 12];
    DistinctClicksFromStart(ids);
  }

  // ---------------------------------------------------------------------------
  // The component's state
  // ---------------------------------------------------------------------------

  class MemoryGame {
    var clickedPokemons: seq<int>
    var score: int
    var bestScore: int
    /** The cards in the order shown. */
    var pokemonsShuffled: seq<Pokemon>

    constructor ()
      ensures State() == Start && pokemonsShuffled == []
    {
      clickedPokemons, score, bestScore := [], 0, 0;
      pokemonsShuffled := [];
    }

    function State(): Game
      reads this
    {
      Game(clickedPokemons, score, bestScore)
    }

    /** A new list of records from the collector replaces the cards shown. */
    method ShowPokemons(pokemons: seq<Pokemon>)
      modifies this
      ensures pokemonsShuffled == pokemons && State() == old(State())
    {
      pokemonsShuffled := pokemons;
    }

    /** `onPokemonClick(pokemon)`: update the round and reshuffle the cards shown. */
    method OnPokemonClick(pokemon: Pokemon, rand: seq<Unit>)
      requires |pokemonsShuffled| <= |rand| + 1
      modifies this
      ensures State() == Click(old(State()), pokemon.id)
      ensures pokemonsShuffled == Shuffled(old(pokemonsShuffled), rand)
      ensures multiset(pokemonsShuffled) == multiset(old(pokemonsShuffled))
    {
      var id := pokemon.id;
      if id !in clickedPokemons {
        var newScore := score + 1;
        var newBestScore := if newScore > bestScore then newScore else bestScore;
        score, bestScore := newScore, newBestScore;
        clickedPokemons := clickedPokemons + [id];
      } else {
        clickedPokemons := [];
        score := 0;
      }
      pokemonsShuffled := ShuffleArray(pokemonsShuffled, rand);
    }

    /** The victory dialog's `onClose`, as written. */
    method CloseVictoryDialog()
      requires score == VICTORY_SCORE
      modifies this
      ensures State() == CloseVictory(old(State()))
      ensures pokemonsShuffled == old(pokemonsShuffled)
    {
      score, bestScore := 0, 0;
    }
  }
}
