/**
 * Monsters, the shared template they are cloned from, and the roster operations
 * the server performs on them: finding the active/benched monster, swapping,
 * and taking a hit with automatic replacement of a fainted monster.
 */
module Monsters {
  import opened Options
  import opened Moves

  /** A named attack and its power (`{ name, power }` in the template). */
  datatype Attack = Attack(name: string, power: nat)

  /** The move table of a monster: one attack per hand key. */
  datatype MoveSet = MoveSet(rock: Attack, scissors: Attack, paper: Attack) {
    /** `moves[hand]`: the attack a monster uses for a submitted hand. */
    function Lookup(h: Hand): Attack {
      match h
      case Rock => rock
      case Scissors => scissors
      case Paper => paper
    }
  }

  /** The template's fields: what every clone starts with. */
  datatype Species = Species(name: string, hp: int, moves: MoveSet)

  /** One monster of a roster; `hp` and `isActive` are the fields the server updates. */
  datatype Monster = Monster(name: string, hp: int, moves: MoveSet, isActive: bool)

  /** Hit points of a fresh monster; hp never rises above it. */
  const MAX_HP: int := 100

  /** `monsterTemplate`. */
  const TEMPLATE: Species :=
    Species("ドラゴン", MAX_HP,
            MoveSet(Attack("ファイアパンチ", 20),
                    Attack("ドラゴンクロー", 15),
                    Attack("ブレス", 25)))

  /** `{ ...cloneMonster(template), isActive: active }`: an independent copy with its flag set. */
  function Instantiate(t: Species, active: bool): (m: Monster)
    ensures Species(m.name, m.hp, m.moves) == t
    ensures m.isActive == active
  {
    Monster(t.name, t.hp, t.moves, active)
  }

  /** The roster a player receives on joining: two clones, the first one active. */
  function FreshRoster(): (r: seq<Monster>)
    ensures ValidRoster(r)
    ensures r[0].isActive && !r[1].isActive
    ensures forall k | 0 <= k < |r| ::
      r[k].hp == MAX_HP && r[k].name == TEMPLATE.name && r[k].moves == TEMPLATE.moves
  {
    var r := [Instantiate(TEMPLATE, true), Instantiate(TEMPLATE, false)];
    PairOneActive(r);
    r
  }

  /** Monster `i` is the one and only active monster of `ms`. */
  predicate SoleActive(ms: seq<Monster>, i: int) {
    0 <= i < |ms| && ms[i].isActive &&
    forall j | 0 <= j < |ms| && j != i :: !ms[j].isActive
  }

  /** Exactly one monster of the roster is active. */
  predicate OneActive(ms: seq<Monster>) {
    exists i | 0 <= i < |ms| :: SoleActive(ms, i)
  }

  /** The roster of a player who has joined: two monsters, exactly one active, hp in 0..MAX_HP. */
  predicate ValidRoster(ms: seq<Monster>) {
    |ms| == 2 && OneActive(ms) &&
    forall k | 0 <= k < |ms| :: 0 <= ms[k].hp <= MAX_HP
  }

  /** A socket's roster: empty before its first join, a valid roster afterwards. */
  predicate WellFormed(ms: seq<Monster>) {
    ms == [] || ValidRoster(ms)
  }

  /** For a pair, "exactly one active" means the two flags differ. */
  lemma PairOneActive(ms: seq<Monster>)
    requires |ms| == 2
    ensures OneActive(ms) <==> ms[0].isActive != ms[1].isActive
  {
    if ms[0].isActive != ms[1].isActive {
      if ms[0].isActive {
        assert SoleActive(ms, 0);
      } else {
        assert SoleActive(ms, 1);
      }
    }
  }

  /**
   * `monsters.find(m => m.isActive == active)`, giving the position of the first
   * monster whose flag equals `active`, or None when there is none.
   */
  function Find(ms: seq<Monster>, active: bool): (r: Option<nat>)
    ensures r.Some? ==> r.value < |ms| && ms[r.value].isActive == active
    ensures r.Some? ==> forall j | 0 <= j < r.value :: ms[j].isActive != active
    ensures r.None? <==> forall j | 0 <= j < |ms| :: ms[j].isActive != active
  {
    if ms == [] then None
    else if ms[0].isActive == active then Some(0)
    else
      match Find(ms[1..], active)
      case None => None
      case Some(k) => Some(k + 1)
  }

  /** A joined roster has an active and a benched monster; an empty one has neither. */
  lemma HasBenched(ms: seq<Monster>)
    requires WellFormed(ms)
    ensures Find(ms, false).Some? <==> ms != []
    ensures Find(ms, true).Some? <==> ms != []
  {
  }

  /** Position of the active monster of a valid roster. */
  function ActiveIndex(ms: seq<Monster>): (i: nat)
    requires ValidRoster(ms)
    ensures SoleActive(ms, i)
  {
    PairOneActive(ms);
    Find(ms, true).value
  }

  /**
   * `swap`: when a benched monster exists, the active monster is benched and the
   * first benched one becomes active; otherwise nothing changes.
   * On a two-monster roster this flips both flags and touches nothing else.
   */
  function Swapped(ms: seq<Monster>): (r: seq<Monster>)
    requires WellFormed(ms)
    ensures WellFormed(r) && |r| == |ms|
    ensures forall k | 0 <= k < |ms| :: r[k] == ms[k].(isActive := !ms[k].isActive)
  {
    var active := Find(ms, true);
    var benched := Find(ms, false);
    HasBenched(ms);
    if benched.Some? then
      var r := ms[active.value := ms[active.value].(isActive := false)]
                 [benched.value := ms[benched.value].(isActive := true)];
      PairOneActive(r);
      r
    else
      ms
  }

  /** Swapping twice gives the roster back. */
  lemma SwapTwice(ms: seq<Monster>)
    requires WellFormed(ms)
    ensures Swapped(Swapped(ms)) == ms
  {
  }

  /** `hp - power`, floored at zero as the turn resolver does. */
  function Clamp(x: int): (r: nat)
    ensures r >= x && (r == x || r == 0)
  {
    if x < 0 then 0 else x
  }

  /** The defender's active monster faints: the hit leaves it at zero hp. */
  predicate Faints(ms: seq<Monster>, power: nat)
    requires ValidRoster(ms)
  {
    ms[ActiveIndex(ms)].hp <= power
  }

  /**
   * The defending roster after an attack of the given power: the active monster
   * loses `power` hp, floored at zero; when it reaches zero it is benched and the
   * first benched monster becomes active.
   */
  function Hit(ms: seq<Monster>, power: nat): (r: seq<Monster>)
    requires ValidRoster(ms)
    ensures ValidRoster(r)
    ensures forall k | 0 <= k < |ms| :: r[k].name == ms[k].name && r[k].moves == ms[k].moves
    ensures forall k | 0 <= k < |ms| ::
      r[k].hp == if ms[k].isActive then Clamp(ms[k].hp - power) else ms[k].hp
    ensures forall k | 0 <= k < |ms| :: r[k].isActive == (ms[k].isActive != Faints(ms, power))
  {
    var i := ActiveIndex(ms);
    var hp := if ms[i].hp - power < 0 then 0 else ms[i].hp - power;
    var hurt := ms[i := ms[i].(hp := hp)];
    PairOneActive(ms);
    if hp == 0 then
      match Find(hurt, false)
      case Some(j) =>
        var r := hurt[i := hurt[i].(isActive := false)][j := hurt[j].(isActive := true)];
        PairOneActive(r);
        r
      case None => assert false; hurt
    else
      PairOneActive(hurt);
      hurt
  }

  /** Sum of the hit points of a roster. */
  function TeamHp(ms: seq<Monster>): int {
    if ms == [] then 0 else ms[0].hp + TeamHp(ms[1..])
  }

  /** A hit costs the roster exactly the power of the attack, capped by the active monster's hp. */
  lemma HitCost(ms: seq<Monster>, power: nat)
    requires ValidRoster(ms)
    ensures var hp := ms[ActiveIndex(ms)].hp;
      TeamHp(Hit(ms, power)) == TeamHp(ms) - (if power < hp then power else hp)
  {
  }
}
