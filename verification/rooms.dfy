/**
 * The room registry (`rooms` in server.js): passcode to the ordered list of
 * players waiting or playing under it.
 */
module Rooms {

  /** Identity of a connected socket. */
  type PlayerId = nat

  /** A player-supplied room key. */
  type Passcode = string

  /** `rooms`: only keys that hold a room are present. */
  type Registry = map<Passcode, seq<PlayerId>>

  /** The players of a room, an absent room reading as empty. */
  function Members(rooms: Registry, pc: Passcode): seq<PlayerId> {
    if pc in rooms then rooms[pc] else []
  }

  /** No empty room is ever stored. */
  ghost predicate NoEmptyRoom(rooms: Registry) {
    forall pc | pc in rooms :: rooms[pc] != []
  }

  /** Two registries without empty rooms that agree on every room's members are the same. */
  lemma MembersDetermine(r1: Registry, r2: Registry)
    requires NoEmptyRoom(r1) && NoEmptyRoom(r2)
    requires forall pc :: Members(r1, pc) == Members(r2, pc)
    ensures r1 == r2
  {
    forall pc | pc in r1 ensures pc in r2 {
      assert Members(r1, pc) != [];
    }
    forall pc | pc in r2 ensures pc in r1 {
      assert Members(r2, pc) != [];
    }
    assert r1.Keys == r2.Keys;
    forall pc | pc in r1 ensures r1[pc] == r2[pc] {
      assert Members(r1, pc) == Members(r2, pc);
    }
  }

  /** `join`: the player is appended to the passcode's room, which is created when absent. */
  function AfterJoin(rooms: Registry, pc: Passcode, id: PlayerId): (r: Registry)
    ensures Members(r, pc) == Members(rooms, pc) + [id]
    ensures forall q | q != pc :: Members(r, q) == Members(rooms, q)
    ensures NoEmptyRoom(rooms) ==> NoEmptyRoom(r)
  {
    rooms[pc := Members(rooms, pc) + [id]]
  }

  /** The room for the passcode holds exactly two players: `matched` goes out. */
  predicate IsMatched(rooms: Registry, pc: Passcode): (m: bool)
    ensures m <==> pc in rooms && |rooms[pc]| == 2
  {
    |Members(rooms, pc)| == 2
  }

  /** Number of `matched` signals a run of joins to one passcode sends, in order. */
  function MatchSignals(rooms: Registry, pc: Passcode, ids: seq<PlayerId>): nat
    decreases |ids|
  {
    if ids == [] then 0
    else
      var next := AfterJoin(rooms, pc, ids[0]);
      (if IsMatched(next, pc) then 1 else 0) + MatchSignals(next, pc, ids[1..])
  }

  /**
   * A room is announced as matched once, when its second player arrives: a run
   * of joins starting below two players signals exactly when it reaches two.
   */
  lemma {:induction false} MatchedOnce(rooms: Registry, pc: Passcode, ids: seq<PlayerId>)
    requires |Members(rooms, pc)| < 2
    ensures MatchSignals(rooms, pc, ids) == if |Members(rooms, pc)| + |ids| >= 2 then 1 else 0
    decreases |ids|
  {
    if ids != [] {
      var next := AfterJoin(rooms, pc, ids[0]);
      if |Members(next, pc)| < 2 {
        MatchedOnce(next, pc, ids[1..]);
      } else {
        PastTwoSilent(next, pc, ids[1..]);
      }
    }
  }

  /** Joins to a room that already holds two or more players never signal. */
  lemma {:induction false} PastTwoSilent(rooms: Registry, pc: Passcode, ids: seq<PlayerId>)
    requires |Members(rooms, pc)| >= 2
    ensures MatchSignals(rooms, pc, ids) == 0
    decreases |ids|
  {
    if ids != [] {
      PastTwoSilent(AfterJoin(rooms, pc, ids[0]), pc, ids[1..]);
    }
  }

  /** `s.filter(x => x !== id)`. */
  function Without(s: seq<PlayerId>, id: PlayerId): (r: seq<PlayerId>)
    ensures forall x :: x in r <==> x in s && x != id
    ensures |r| <= |s|
  {
    if s == [] then []
    else if s[0] == id then Without(s[1..], id)
    else [s[0]] + Without(s[1..], id)
  }

  /** Filtering distributes over concatenation, so the other players keep their order. */
  lemma {:induction false} WithoutAppend(a: seq<PlayerId>, b: seq<PlayerId>, id: PlayerId)
    ensures Without(a + b, id) == Without(a, id) + Without(b, id)
  {
    if a == [] {
      assert a + b == b;
    } else {
      assert (a + b)[1..] == a[1..] + b;
      WithoutAppend(a[1..], b, id);
    }
  }

  /** A list without the player is left as it is. */
  lemma {:induction false} WithoutAbsent(s: seq<PlayerId>, id: PlayerId)
    requires id !in s
    ensures Without(s, id) == s
  {
    if s != [] {
      WithoutAbsent(s[1..], id);
    }
  }

  /** Filtering twice is filtering once. */
  lemma WithoutTwice(s: seq<PlayerId>, id: PlayerId)
    ensures Without(Without(s, id), id) == Without(s, id)
  {
  }

  /**
   * `disconnect`: the player leaves every room, and rooms left empty are deleted;
   * every other player stays in the same rooms in the same order.
   */
  function AfterLeave(rooms: Registry, id: PlayerId): (r: Registry)
    ensures NoEmptyRoom(r)
    ensures forall pc :: Members(r, pc) == Without(Members(rooms, pc), id)
    ensures forall pc :: id !in Members(r, pc)
    ensures forall pc, x | x != id :: x in Members(r, pc) <==> x in Members(rooms, pc)
    ensures forall pc | pc in rooms && pc !in r :: forall x | x in rooms[pc] :: x == id
  {
    map pc | pc in rooms && Without(rooms[pc], id) != [] :: Without(rooms[pc], id)
  }

  /** A registry without empty rooms whose every room is the old one filtered is the disconnect result. */
  lemma LeaveCharacterized(rooms: Registry, left: Registry, id: PlayerId)
    requires NoEmptyRoom(left)
    requires forall pc :: Members(left, pc) == Without(Members(rooms, pc), id)
    ensures left == AfterLeave(rooms, id)
  {
    MembersDetermine(left, AfterLeave(rooms, id));
  }

  /** Disconnecting twice has the effect of disconnecting once. */
  lemma {:induction false} LeaveTwice(rooms: Registry, id: PlayerId)
    ensures AfterLeave(AfterLeave(rooms, id), id) == AfterLeave(rooms, id)
  {
    var once := AfterLeave(rooms, id);
    forall pc ensures Members(AfterLeave(once, id), pc) == Members(once, pc) {
      WithoutTwice(Members(rooms, pc), id);
    }
    MembersDetermine(AfterLeave(once, id), once);
  }

  /** A player who is in no room leaves the registry as it is. */
  lemma {:induction false} LeaveAbsent(rooms: Registry, id: PlayerId)
    requires NoEmptyRoom(rooms)
    requires forall pc | pc in rooms :: id !in rooms[pc]
    ensures AfterLeave(rooms, id) == rooms
  {
    forall pc ensures Members(AfterLeave(rooms, id), pc) == Members(rooms, pc) {
      WithoutAbsent(Members(rooms, pc), id);
    }
    MembersDetermine(AfterLeave(rooms, id), rooms);
  }
}
