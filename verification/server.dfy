/**
 * The socket handlers of server.js acting on the room registry and on each
 * socket's roster and pending hand.
 */
module Janken {
  import opened Options
  import opened Moves
  import opened Monsters
  import opened Battle
  import opened Rooms

  /** Per-connection state: `socket.monsters` and `socket.hand`. */
  datatype Socket = Socket(monsters: seq<Monster>, hand: Option<Hand>)

  /** The `result` message one player receives after a turn. */
  datatype Report = Report(yourHand: Hand, opponentHand: Hand, result: Outcome,
                           yourMonsters: seq<Monster>, opponentMonsters: seq<Monster>)

  /** What a submitted hand led to. */
  datatype HandEffect =
    | NoRoom                                  // no room under that passcode: the handler returns
    | Waiting                                 // some player of the room has no hand yet
    | Resolved(first: Report, second: Report) // the turn was fought; one report per player
    | MissingOpponent                         // every hand is in but the room has one player: the source faults

  /** The socket can take part in a turn: it has a hand and a joined roster. */
  predicate Ready(socks: map<PlayerId, Socket>, x: PlayerId) {
    x in socks && socks[x].hand.Some? && ValidRoster(socks[x].monsters)
  }

  /** Every player of the room has a pending hand (`players.every(p => p.hand)`). */
  predicate AllHaveHands(socks: map<PlayerId, Socket>, players: seq<PlayerId>): (all: bool)
    ensures all <==> forall k | 0 <= k < |players| :: players[k] in socks && socks[players[k]].hand.Some?
  {
    forall x | x in players :: x in socks && socks[x].hand.Some?
  }

  /** The sockets after a turn between `a` and `b`, and the two reports sent. */
  datatype Settlement = Settlement(sockets: map<PlayerId, Socket>, first: Report, second: Report)

  /**
   * `handleBattle(a, b)`: resolve the turn, report it to both players from their
   * own side, and clear both pending hands whatever the outcome.
   */
  function Settle(socks: map<PlayerId, Socket>, a: PlayerId, b: PlayerId): (s: Settlement)
    requires Ready(socks, a) && Ready(socks, b)
    ensures s.sockets.Keys == socks.Keys
    ensures s.sockets[a].hand == None && s.sockets[b].hand == None
    ensures var t := ResolveTurn(socks[a].monsters, socks[a].hand.value, socks[b].monsters, socks[b].hand.value);
      s.sockets[a].monsters == t.roster1 && s.sockets[b].monsters == t.roster2
    ensures ValidRoster(s.sockets[a].monsters) && ValidRoster(s.sockets[b].monsters)
    ensures forall x | x in socks && x != a && x != b :: s.sockets[x] == socks[x]
    ensures s.first.yourHand == socks[a].hand.value && s.first.opponentHand == socks[b].hand.value
    ensures s.second.yourHand == socks[b].hand.value && s.second.opponentHand == socks[a].hand.value
    ensures (s.first.result, s.second.result) == Judge(socks[a].hand.value, socks[b].hand.value)
    ensures s.first.yourMonsters == s.second.opponentMonsters == s.sockets[a].monsters
    ensures s.second.yourMonsters == s.first.opponentMonsters == s.sockets[b].monsters
  {
    var h1, h2 := socks[a].hand.value, socks[b].hand.value;
    var t := ResolveTurn(socks[a].monsters, h1, socks[b].monsters, h2);
    var after := socks[a := Socket(t.roster1, None)][b := Socket(t.roster2, None)];
    assert after[a] == Socket(t.roster1, None) by {
      if a == b {
        assert t.roster1 == socks[a].monsters == t.roster2;
      }
    }
    Settlement(after,
               Report(h1, h2, t.result.0, t.roster1, t.roster2),
               Report(h2, h1, t.result.1, t.roster2, t.roster1))
  }

  /** Listing the two players the other way round changes nothing but the order of the reports. */
  lemma SettleSymmetric(socks: map<PlayerId, Socket>, a: PlayerId, b: PlayerId)
    requires Ready(socks, a) && Ready(socks, b)
    ensures Settle(socks, b, a).sockets == Settle(socks, a, b).sockets
    ensures Settle(socks, b, a).first == Settle(socks, a, b).second
    ensures Settle(socks, b, a).second == Settle(socks, a, b).first
  {
  }

  /**
   * No empty room is stored; everyone in a room is connected and has a valid
   * roster (two monsters, exactly one active, hp in 0..MAX_HP); a socket that
   * has not joined yet has no monsters.
   */
  ghost predicate ValidState(rooms: Registry, socks: map<PlayerId, Socket>) {
    && NoEmptyRoom(rooms)
    && (forall pc, x | pc in rooms && x in rooms[pc] :: x in socks && ValidRoster(socks[x].monsters))
    && (forall x | x in socks :: WellFormed(socks[x].monsters))
    && (forall x | x in socks && !InSomeRoom(rooms, x) :: socks[x].monsters == [])
  }

  /** The player is a member of at least one room. */
  ghost predicate InSomeRoom(rooms: Registry, x: PlayerId) {
    exists pc | pc in rooms :: x in rooms[pc]
  }

  /** A turn keeps the server's state valid. */
  lemma SettleKeepsValid(rooms: Registry, socks: map<PlayerId, Socket>, a: PlayerId, b: PlayerId)
    requires ValidState(rooms, socks)
    requires Ready(socks, a) && Ready(socks, b)
    ensures ValidState(rooms, Settle(socks, a, b).sockets)
  {
    var after := Settle(socks, a, b).sockets;
    forall x | x in socks && !InSomeRoom(rooms, x)
      ensures after[x].monsters == []
    {
      assert x != a && x != b;
    }
  }

  /** Recording a hand keeps the server's state valid. */
  lemma HandKeepsValid(rooms: Registry, socks: map<PlayerId, Socket>, id: PlayerId, h: Hand)
    requires ValidState(rooms, socks)
    requires id in socks
    ensures ValidState(rooms, socks[id := socks[id].(hand := Some(h))])
  {
  }

  /** A swap keeps the server's state valid. */
  lemma SwapKeepsValid(rooms: Registry, socks: map<PlayerId, Socket>, id: PlayerId)
    requires ValidState(rooms, socks)
    requires id in socks
    ensures ValidState(rooms, socks[id := socks[id].(monsters := Swapped(socks[id].monsters))])
  {
  }

  /** A disconnect keeps the server's state valid. */
  lemma LeaveKeepsValid(rooms: Registry, socks: map<PlayerId, Socket>, id: PlayerId)
    requires ValidState(rooms, socks)
    ensures ValidState(AfterLeave(rooms, id), socks - {id})
  {
    var after := AfterLeave(rooms, id);
    forall pc, x | pc in after && x in after[pc]
      ensures x in socks && ValidRoster(socks[x].monsters)
    {
      assert x in Members(after, pc);
      assert x in Members(rooms, pc);
    }
    forall x | x in socks && x != id && InSomeRoom(rooms, x)
      ensures InSomeRoom(after, x)
    {
      var q :| q in rooms && x in rooms[q];
      assert x in Members(rooms, q);
      assert x in Members(after, q);
    }
  }

  /** A join keeps the server's state valid. */
  lemma JoinKeepsValid(rooms: Registry, socks: map<PlayerId, Socket>, pc: Passcode, id: PlayerId)
    requires ValidState(rooms, socks)
    requires id in socks
    ensures ValidState(AfterJoin(rooms, pc, id), socks[id := socks[id].(monsters := FreshRoster())])
  {
    var after := AfterJoin(rooms, pc, id);
    forall x | InSomeRoom(rooms, x)
      ensures InSomeRoom(after, x)
    {
      var q :| q in rooms && x in rooms[q];
      assert x in Members(rooms, q) && x in Members(after, q);
    }
    assert id in after[pc];
  }

  /** The server's state: the room registry and every connected socket. */
  class Server {
    var rooms: Registry
    var sockets: map<PlayerId, Socket>

    /** The server's invariant. */
    ghost predicate Valid()
      reads this
    {
      ValidState(rooms, sockets)
    }

    /** The server starts with no rooms and no connections. */
    constructor ()
      ensures Valid()
      ensures rooms == map[] && sockets == map[]
    {
      rooms := map[];
      sockets := map[];
    }

    /** A new connection: a socket with no monsters and no hand. */
    method Connect(id: PlayerId)
      requires Valid()
      requires id !in sockets
      modifies this
      ensures Valid()
      ensures rooms == old(rooms)
      ensures sockets == old(sockets)[id := Socket([], None)]
    {
      sockets := sockets[id := Socket([], None)];
    }

    /**
     * `join`: append the player to the passcode's room (creating it), give it a
     * fresh roster, and announce `matched` to the room's players exactly when the
     * room now holds two.
     */
    method Join(pc: Passcode, id: PlayerId) returns (notified: seq<PlayerId>)
      requires Valid()
      requires id in sockets
      modifies this
      ensures Valid()
      ensures rooms == AfterJoin(old(rooms), pc, id)
      ensures sockets == old(sockets)[id := old(sockets)[id].(monsters := FreshRoster())]
      ensures notified == if IsMatched(rooms, pc) then rooms[pc] else []
      ensures notified != [] <==> |Members(old(rooms), pc)| == 1
    {
      if pc !in rooms {
        rooms := rooms[pc := []];
      }
      rooms := rooms[pc := rooms[pc] + [id]];
      sockets := sockets[id := sockets[id].(monsters := [Instantiate(TEMPLATE, true), Instantiate(TEMPLATE, false)])];
      assert sockets[id].monsters == FreshRoster();
      assert rooms == AfterJoin(old(rooms), pc, id);
      JoinKeepsValid(old(rooms), old(sockets), pc, id);
      if |rooms[pc]| == 2 {
        notified := rooms[pc];
      } else {
        notified := [];
      }
    }

    /** `swap`: exchange the active and the benched monster; a no-op before joining. */
    method Swap(id: PlayerId)
      requires Valid()
      requires id in sockets
      modifies this
      ensures Valid()
      ensures rooms == old(rooms)
      ensures sockets == old(sockets)[id := old(sockets)[id].(monsters := Swapped(old(sockets)[id].monsters))]
    {
      var ms := sockets[id].monsters;
      var active := Find(ms, true);
      var inactive := Find(ms, false);
      if inactive.Some? {
        PairOneActive(ms);
        ms := ms[active.value := ms[active.value].(isActive := false)];
        ms := ms[inactive.value := ms[inactive.value].(isActive := true)];
        assert ms == Swapped(sockets[id].monsters);
        sockets := sockets[id := sockets[id].(monsters := ms)];
        SwapKeepsValid(old(rooms), old(sockets), id);
      }
    }

    /**
     * `handleBattle`: judge the two pending hands, let the winner's active monster
     * hit the loser's, bench a fainted monster, report, and clear both hands.
     */
    method HandleBattle(a: PlayerId, b: PlayerId) returns (first: Report, second: Report)
      requires Ready(sockets, a) && Ready(sockets, b)
      modifies this
      ensures rooms == old(rooms)
      ensures Settlement(sockets, first, second) == Settle(old(sockets), a, b)
    {
      var hand1, hand2 := sockets[a].hand.value, sockets[b].hand.value;
      ghost var t := ResolveTurn(sockets[a].monsters, hand1, sockets[b].monsters, hand2);
      var result := Judge(hand1, hand2);
      var attacker: Option<PlayerId> :=
        if result.0 == Win then Some(a) else if result.1 == Win then Some(b) else None;
      if attacker.Some? {
        var def := if attacker.value == a then b else a;
        Strike(attacker.value, def);
        assert a != b;
        if attacker.value == a {
          assert sockets[b].monsters == t.roster2;
        } else {
          assert sockets[a].monsters == t.roster1;
        }
      }
      assert sockets[a].monsters == t.roster1;
      assert sockets[b].monsters == t.roster2;
      first := Report(hand1, hand2, result.0, sockets[a].monsters, sockets[b].monsters);
      second := Report(hand2, hand1, result.1, sockets[b].monsters, sockets[a].monsters);
      sockets := sockets[a := sockets[a].(hand := None)];
      sockets := sockets[b := sockets[b].(hand := None)];
      assert sockets == old(sockets)[a := Socket(t.roster1, None)][b := Socket(t.roster2, None)];
    }

    /**
     * The attack step of `handleBattle`: the attacker's active monster uses its
     * move for the attacker's hand on the defender's active monster, whose hp is
     * floored at zero; a monster left at zero hp is replaced by the benched one.
     */
    method Strike(att: PlayerId, def: PlayerId)
      requires Ready(sockets, att) && Ready(sockets, def)
      modifies this
      ensures rooms == old(rooms)
      ensures sockets == old(sockets)[def := old(sockets)[def].(monsters :=
        Hit(old(sockets)[def].monsters, AttackPower(old(sockets)[att].monsters, old(sockets)[att].hand.value)))]
    {
      var atkMon := ActiveIndex(sockets[att].monsters);
      var defMon := ActiveIndex(sockets[def].monsters);
      var move := sockets[att].monsters[atkMon].moves.Lookup(sockets[att].hand.value);
      var ms := sockets[def].monsters;
      PairOneActive(ms);
      var hp := ms[defMon].hp - move.power;
      if hp < 0 {
        hp := 0;
      }
      ms := ms[defMon := ms[defMon].(hp := hp)];
      if hp == 0 {
        var next := Find(ms, false);
        if next.Some? {
          ms := ms[defMon := ms[defMon].(isActive := false)];
          ms := ms[next.value := ms[next.value].(isActive := true)];
        }
      }
      sockets := sockets[def := sockets[def].(monsters := ms)];
    }

    /**
     * `hand`: record the player's hand, then, when the room exists and every one
     * of its players has a hand, fight the turn between its first two players.
     */
    method PlayHand(pc: Passcode, id: PlayerId, h: Hand) returns (effect: HandEffect)
      requires Valid()
      requires id in sockets
      modifies this
      ensures Valid()
      ensures rooms == old(rooms)
      ensures var recorded := old(sockets)[id := old(sockets)[id].(hand := Some(h))];
        if pc !in rooms then effect == NoRoom && sockets == recorded
        else if !AllHaveHands(recorded, rooms[pc]) then effect == Waiting && sockets == recorded
        else if |rooms[pc]| < 2 then effect == MissingOpponent && sockets == recorded
        else
          var s := Settle(recorded, rooms[pc][0], rooms[pc][1]);
          effect == Resolved(s.first, s.second) && sockets == s.sockets
    {
      sockets := sockets[id := sockets[id].(hand := Some(h))];
      if pc !in rooms {
        return NoRoom;
      }
      var players := rooms[pc];
      if !AllHaveHands(sockets, players) {
        return Waiting;
      }
      if |players| < 2 {
        return MissingOpponent;
      }
      assert players[0] in players && players[1] in players;
      HandKeepsValid(rooms, old(sockets), id, h);
      SettleKeepsValid(rooms, sockets, players[0], players[1]);
      var first, second := HandleBattle(players[0], players[1]);
      return Resolved(first, second);
    }

    /**
     * `disconnect`: take the player out of every room, deleting each room that
     * becomes empty, and drop the connection's state.
     */
    method Disconnect(id: PlayerId)
      requires Valid()
      modifies this
      ensures Valid()
      ensures rooms == AfterLeave(old(rooms), id)
      ensures sockets == old(sockets) - {id}
    {
      var pending := rooms.Keys;
      while pending != {}
        invariant pending <= old(rooms).Keys
        invariant sockets == old(sockets)
        invariant NoEmptyRoom(rooms)
        invariant forall pc | pc in pending :: pc in rooms && rooms[pc] == old(rooms)[pc]
        invariant forall pc | pc !in pending :: Members(rooms, pc) == Without(Members(old(rooms), pc), id)
        decreases pending
      {
        var pc :| pc in pending;
        rooms := rooms[pc := Without(rooms[pc], id)];
        if |rooms[pc]| == 0 {
          rooms := rooms - {pc};
        }
        pending := pending - {pc};
      }
      LeaveCharacterized(old(rooms), rooms, id);
      sockets := sockets - {id};
      LeaveKeepsValid(old(rooms), old(sockets), id);
    }
  }
}
