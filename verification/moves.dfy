/**
 * Rock-paper-scissors hands and the battle judge (`judge` in server.js).
 */
module Moves {

  /** A hand a player submits; the source's string keys `rock`, `scissors` and `paper`. */
  datatype Hand = Rock | Scissors | Paper

  /** One player's result for a turn: the source's strings `win`, `lose` and `draw`. */
  datatype Outcome = Win | Lose | Draw

  /** The hand that `h` defeats in the cycle rock > scissors > paper > rock. */
  function Prey(h: Hand): Hand {
    match h
    case Rock => Scissors
    case Scissors => Paper
    case Paper => Rock
  }

  /** Reference definition of "a beats b", independent of the judge's own case analysis. */
  predicate Beats(a: Hand, b: Hand) {
    b == Prey(a)
  }

  /**
   * The judgement of a turn, as the pair (first player's result, second player's result).
   * Equal hands draw; otherwise the first player wins exactly when its hand beats the other.
   */
  function Judge(h1: Hand, h2: Hand): (r: (Outcome, Outcome))
    ensures r == (Draw, Draw) <==> h1 == h2
    ensures r == (Win, Lose) <==> Beats(h1, h2)
    ensures r == (Lose, Win) <==> Beats(h2, h1)
    ensures r == (Draw, Draw) || r == (Win, Lose) || r == (Lose, Win)
  {
    if h1 == h2 then (Draw, Draw)
    else
      var win := (h1 == Rock && h2 == Scissors)
              || (h1 == Scissors && h2 == Paper)
              || (h1 == Paper && h2 == Rock);
      if win then (Win, Lose) else (Lose, Win)
  }

  /** The same judgement read from the other player's seat. */
  function Mirror(r: (Outcome, Outcome)): (Outcome, Outcome) {
    (r.1, r.0)
  }

  /** Exchanging the two hands exchanges the two results. */
  lemma JudgeMirror(h1: Hand, h2: Hand)
    ensures Judge(h2, h1) == Mirror(Judge(h1, h2))
  {
  }

  /** Of two different hands exactly one beats the other; no hand beats itself. */
  lemma BeatsTrichotomy(a: Hand, b: Hand)
    ensures !Beats(a, a)
    ensures a != b ==> (Beats(a, b) <==> !Beats(b, a))
  {
  }
}
