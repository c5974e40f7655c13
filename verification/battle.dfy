/**
 * The damage step of a turn (the body of `handleBattle` up to the result
 * messages), as a function of the two rosters and the two submitted hands.
 */
module Battle {
  import opened Moves
  import opened Monsters

  /** Power of the attack the active monster of `ms` makes for hand `h` (`atkMon.moves[hand].power`). */
  function AttackPower(ms: seq<Monster>, h: Hand): (p: nat)
    requires ValidRoster(ms)
    ensures forall i | SoleActive(ms, i) :: p == ms[i].moves.Lookup(h).power
  {
    ms[ActiveIndex(ms)].moves.Lookup(h).power
  }

  /** The judgement of a turn and both rosters after it. */
  datatype Turn = Turn(result: (Outcome, Outcome), roster1: seq<Monster>, roster2: seq<Monster>)

  /**
   * One resolved turn: the winner (if any) attacks the loser's active monster
   * with its active monster's move for the winning hand; a draw changes nothing.
   */
  function ResolveTurn(ms1: seq<Monster>, h1: Hand, ms2: seq<Monster>, h2: Hand): (t: Turn)
    requires ValidRoster(ms1) && ValidRoster(ms2)
    ensures t.result == Judge(h1, h2)
    ensures ValidRoster(t.roster1) && ValidRoster(t.roster2)
    ensures t.result.0 != Lose ==> t.roster1 == ms1
    ensures t.result.1 != Lose ==> t.roster2 == ms2
    ensures t.result.0 == Lose ==> t.roster1 == Hit(ms1, AttackPower(ms2, h2))
    ensures t.result.1 == Lose ==> t.roster2 == Hit(ms2, AttackPower(ms1, h1))
  {
    var result := Judge(h1, h2);
    if result.0 == Win then Turn(result, ms1, Hit(ms2, AttackPower(ms1, h1)))
    else if result.1 == Win then Turn(result, Hit(ms1, AttackPower(ms2, h2)), ms2)
    else Turn(result, ms1, ms2)
  }

  /** The same turn seen with the players listed the other way round. */
  function MirrorTurn(t: Turn): Turn {
    Turn(Mirror(t.result), t.roster2, t.roster1)
  }

  /** Which player is listed first does not matter: exchanging them mirrors the turn. */
  lemma TurnMirror(ms1: seq<Monster>, h1: Hand, ms2: seq<Monster>, h2: Hand)
    requires ValidRoster(ms1) && ValidRoster(ms2)
    ensures ResolveTurn(ms2, h2, ms1, h1) == MirrorTurn(ResolveTurn(ms1, h1, ms2, h2))
  {
  }

  /** Equal hands: no attacker, and no monster's hp or flag changes. */
  lemma DrawKeepsRosters(ms1: seq<Monster>, ms2: seq<Monster>, h: Hand)
    requires ValidRoster(ms1) && ValidRoster(ms2)
    ensures ResolveTurn(ms1, h, ms2, h) == Turn((Draw, Draw), ms1, ms2)
  {
  }

  /**
   * A decisive turn: the loser's active monster loses exactly the attack's power
   * (floored at zero), its benched monster keeps its hp, and a fainted active
   * monster trades places with the benched one.
   */
  lemma WinnerHitsLoser(ms1: seq<Monster>, h1: Hand, ms2: seq<Monster>, h2: Hand)
    requires ValidRoster(ms1) && ValidRoster(ms2)
    requires Beats(h1, h2)
    ensures var t := ResolveTurn(ms1, h1, ms2, h2);
      var i := ActiveIndex(ms2);
      var p := ms1[ActiveIndex(ms1)].moves.Lookup(h1).power;
      && t.result == (Win, Lose)
      && t.roster1 == ms1
      && t.roster2[i].hp == Clamp(ms2[i].hp - p)
      && t.roster2[1 - i].hp == ms2[1 - i].hp
      && (t.roster2[i].hp == 0 <==> (!t.roster2[i].isActive && t.roster2[1 - i].isActive))
  {
  }

  /** Rock against scissors with fresh rosters: the rock attack (20) takes 100 hp to 80, no swap. */
  lemma RockBeatsScissorsFromFresh()
    ensures var start := FreshRoster();
      ResolveTurn(start, Rock, start, Scissors)
        == Turn((Win, Lose), start, [start[0].(hp := 80), start[1]])
  {
  }

  /** A 20-power hit on an active monster with 15 hp leaves it at 0 and brings in the benched one. */
  lemma FaintSwapsIn(ms1: seq<Monster>, ms2: seq<Monster>)
    requires ValidRoster(ms1) && ValidRoster(ms2)
    requires ms1[ActiveIndex(ms1)].moves.Lookup(Rock).power == 20
    requires ms2[0].isActive && ms2[0].hp == 15
    ensures var r := ResolveTurn(ms1, Rock, ms2, Scissors).roster2;
      r[0].hp == 0 && !r[0].isActive && r[1].isActive && r[1].hp == ms2[1].hp
  {
  }
}
