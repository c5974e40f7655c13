# Janken battle server, modelled in Dafny

This project models the core of a small rock-paper-scissors ("janken") battle server. Players join a
room by passcode. The first two players in a room are announced as matched. Each player gets two
monsters cloned from one template. Every turn, both players submit a hand. The judge compares the
hands, and the winner's active monster hits the loser's active monster. A monster left at zero hp is
benched, and its partner comes in. All of this lives in `server.js`.

Files and modules:

- `options.dfy` (`Options`): `Option`, which stands for JavaScript's `undefined`/`null`.
- `moves.dfy` (`Moves`): hands, outcomes, the reference relation `Beats` (rock > scissors > paper > rock)
  and `Judge`.
- `monsters.dfy` (`Monsters`): the monster template, its clones, the roster invariant (two monsters,
  exactly one active, `0 <= hp <= 100`), and `Find`, the model of `Array.prototype.find`. It also holds
  the pure effect of a swap (`Swapped`) and of a hit (`Hit`).
- `battle.dfy` (`Battle`): one turn as a function of both rosters and both hands (`ResolveTurn`).
- `rooms.dfy` (`Rooms`): the `rooms` registry as a `map<string, seq<PlayerId>>`, with the effect of a
  join (`AfterJoin`) and of a disconnect (`AfterLeave`) and their lemmas.
- `server.dfy` (`Janken`): the handlers. A `Server` class holds `rooms` and the per-socket state
  `sockets: map<PlayerId, Socket>`, where a socket is its `monsters` and its pending `hand`. Each
  handler is a method that updates these fields. Each method's `ensures` gives the new state in terms
  of the pure functions above. Every handler keeps the invariant `Valid()`; `HandleBattle`, which only
  `PlayHand` calls, leaves that proof to its caller through `SettleKeepsValid`:
  - no empty room is stored;
  - everyone in a room is connected and has a valid roster;
  - every socket's roster is either empty or valid;
  - a socket that is in no room has not joined yet, so it has no monsters.

How source behaviour maps to the model:

- A socket is named by a `PlayerId`. `Connect` creates its state when the connection opens.
- In-place writes to `hp` and `isActive` become updates of the roster sequence. Monsters are values,
  so clones can never share state.
- `find` returns a position instead of an object, so the caller can write back through it.
- `emit('matched')` becomes the list of recipients that `Join` returns.
- `emit('result')` becomes the two `Report` values of a resolved turn. Each report holds the
  post-turn rosters, as the source sends the objects after mutating them.
- The `hand` handler records the hand before it looks up the room, so a hand sent with an unknown
  passcode is still recorded (`NoRoom`).
- A room of one player whose hand is in makes the source call `handleBattle(p, undefined)`, which
  throws before changing anything. The model returns `MissingOpponent` and keeps the recorded hand.
- A third join to a full room is appended without a `matched` signal. Turns in such a room are fought
  between its first two players only. The third player's hand is not cleared.
- The same socket joining one passcode twice fills the room with itself. Its turns are then draws.
- The code does not validate hands. The model's three-valued `Hand` type stands in for that.
- The code does not cap rooms at two players.

## Model

| member | source | states |
|---|---|---|
| `Moves.Judge` | server.js:119-127 | equal hands draw; otherwise (win, lose) exactly when the first hand beats the second by the rock > scissors > paper > rock cycle, and (lose, win) exactly when the second beats the first; no other pair occurs |
| `Moves.JudgeMirror` | server.js:119-127 | judging the hands the other way round swaps the two results |
| `Moves.BeatsTrichotomy` | server.js:122-124 | no hand beats itself, and of two different hands exactly one beats the other |
| `Monsters.Instantiate` | server.js:129-131 | a clone carries exactly the template's name, hp and moves, with the active flag it is given; as a value it shares nothing with the template or other clones |
| `Monsters.Clamp` | server.js:91 | the floored hp is the damaged value when that is not negative and 0 otherwise, never below either |
| `Battle.AttackPower` | server.js:89-90 | the power is that of the move for the given hand of the roster's only active monster |
| `Rooms.IsMatched` | server.js:40 | a room is matched exactly when it is stored and holds exactly two players |
| `Janken.AllHaveHands` | server.js:61 | the turn fires only when every player of the room, position by position, is connected and has a pending hand |
| `Monsters.FreshRoster` | server.js:35-38 | a joining player gets two copies of the template (hp 100, the template's name and moves), the first active and the second benched, forming a valid roster |
| `Monsters.Find` | server.js:46-47 | `find` yields the first position whose `isActive` equals the flag asked for, and yields nothing exactly when no monster has that flag |
| `Monsters.ActiveIndex` | server.js:86-87 | in a valid roster the monster `find` returns as active is the only active one |
| `Monsters.Swapped` | server.js:45-53 | a swap flips both monsters' flags of a joined roster, changes nothing else (hp, names, moves), keeps exactly one monster active, and leaves an empty roster empty |
| `Monsters.SwapTwice` | server.js:45-53 | swapping twice restores the roster |
| `Monsters.Hit` | server.js:87-100 | the defender's active monster loses the attack's power with hp floored at 0; the benched monster keeps its hp; names and moves are kept; both flags flip exactly when the active monster faints (hp reaches 0); the roster stays valid |
| `Monsters.HitCost` | server.js:90-91 | a hit lowers the roster's total hp by exactly the power, capped by the active monster's remaining hp |
| `Battle.ResolveTurn` | server.js:78-101 | the turn's result is the judge's; a player who does not lose keeps their roster unchanged; the loser's roster takes a `Hit` from the winner's active monster's move for the winning hand; both rosters stay valid |
| `Battle.TurnMirror` | server.js:82-83 | exchanging the two players mirrors the turn: results swapped, each player's roster the same |
| `Battle.DrawKeepsRosters` | server.js:82-85 | with equal hands the result is (draw, draw) and no monster's hp or flag changes |
| `Battle.WinnerHitsLoser` | server.js:85-100 | when the first hand beats the second, the winner's roster is untouched; the loser's active monster drops by the attack's power, floored at 0; the benched one keeps its hp; the pair trade places exactly when hp reaches 0 |
| `Battle.RockBeatsScissorsFromFresh` | server.js:85-91 | rock against scissors between fresh rosters takes the defender's active monster from 100 to 80 hp with no swap |
| `Battle.FaintSwapsIn` | server.js:93-100 | a 20-power hit on an active monster with 15 hp leaves it at 0 and benched, with the other monster active and unhurt |
| `Rooms.AfterJoin` | server.js:28-32 | a join appends the player to the passcode's room, creating it when absent, leaves every other room as it was, and never stores an empty room |
| `Rooms.MatchedOnce` | server.js:40-42 | a run of joins to a passcode with fewer than two players signals `matched` once if it brings the room to two players and never otherwise |
| `Rooms.PastTwoSilent` | server.js:40-42 | joins to a room that already has two or more players never signal `matched` |
| `Rooms.Without` | server.js:68 | the filter removes exactly the leaving player and keeps every other member |
| `Rooms.WithoutAppend` | server.js:68 | the filter distributes over concatenation, so remaining members keep their order |
| `Rooms.WithoutAbsent` | server.js:68 | filtering out a player who is not in the room leaves it as it is |
| `Rooms.WithoutTwice` | server.js:68 | filtering twice is the same as filtering once |
| `Rooms.AfterLeave` | server.js:66-72 | after a disconnect no room is empty and none contains the player; each room's members are the old ones filtered; every other player is in exactly the rooms they were in; only rooms that held nobody but the player are deleted |
| `Rooms.LeaveCharacterized` | server.js:67-72 | a registry with no empty room whose rooms are the old ones filtered is exactly the disconnect result, so the order the loop visits rooms in does not matter |
| `Rooms.LeaveTwice` | server.js:66-72 | disconnecting twice has the same effect as disconnecting once |
| `Rooms.LeaveAbsent` | server.js:66-72 | disconnecting a player who is in no room changes nothing |
| `Janken.Settle` | server.js:78-117 | after a turn the two players' rosters are exactly `ResolveTurn`'s (damage floored at 0, swap on a faint); both pending hands are cleared whatever the outcome; both rosters stay valid; every other socket is unchanged; each report gives that player's own hand, the opponent's hand, that player's side of the judgement, and the post-turn rosters, the player's own first |
| `Janken.SettleSymmetric` | server.js:104-112 | listing the two players the other way round gives the same sockets, with the two reports exchanged |
| `Janken.SettleKeepsValid` | server.js:78-117 | a turn keeps the server invariant |
| `Janken.JoinKeepsValid` | server.js:25-43 | a join keeps the server invariant |
| `Janken.HandKeepsValid` | server.js:56 | recording a hand keeps the server invariant |
| `Janken.SwapKeepsValid` | server.js:45-53 | a swap keeps the server invariant |
| `Janken.LeaveKeepsValid` | server.js:66-72 | a disconnect keeps the server invariant |
| `Janken.Server.constructor` | server.js:9 | the server starts with an empty room registry and no sockets |
| `Janken.Server.Connect` | server.js:22 | a new connection gets a socket with no monsters and no hand; the rooms are unchanged |
| `Janken.Server.Join` | server.js:25-43 | the rooms become `AfterJoin` of the old ones; the joining socket gets a fresh roster and keeps its hand; `matched` goes to the room's players exactly when the room had one player before, that is, when it now has two |
| `Janken.Server.Swap` | server.js:45-53 | the socket's roster becomes `Swapped` of the old one; nothing else changes |
| `Janken.Server.PlayHand` | server.js:55-64 | the hand is recorded first; with no room nothing more happens; while some member lacks a hand the turn waits; with every hand in and two or more members the turn between the first two is settled as `Settle` says; with one member the source faults, so nothing more changes |
| `Janken.Server.HandleBattle` | server.js:78-117 | the sockets and both reports are those of `Settle` on the old sockets, so the winner's active monster hits the loser's and both hands are cleared; rooms are unchanged |
| `Janken.Server.Strike` | server.js:85-101 | the defender's roster becomes `Hit` by the power of the attacker's active monster's move for the attacker's hand; nothing else changes |
| `Janken.Server.Disconnect` | server.js:66-72 | the per-room loop leaves the rooms equal to `AfterLeave` of the old ones; the socket's state is dropped; the invariant is kept |

## Left out

- Transport and bootstrap: the Express app, the HTTP server, the socket.io server, the connection callback wiring and `listen` (server.js:1-7, 22, 133-135). Only the per-connection state creation is kept, as `Connect`.
- Message delivery: `emit` is not modelled. The `matched` recipients and the two `result` reports are returned values.
- `console.log` calls: output only, with no effect on state.
- `cloneMonster`'s JSON round trip: monsters are immutable values, so every clone is independent by construction.
- Concurrency: each handler runs atomically on Node's single-threaded event loop, so each is one sequential method.
- Hand validation: any value can arrive as `hand`, but the model admits only the three hands. In the source an invalid hand behaves as follows:
  - a falsy hand such as `""` or `0` counts as missing, so the turn waits (server.js:61);
  - an unknown first hand against a valid second hand loses, because the judge answers (lose, win) whenever the first hand matches no winning pattern (server.js:122-126); the turn then resolves normally, since only the winner's hand is looked up (server.js:89);
  - an unknown second hand against a valid first hand wins, and reading `move.power` of the missing move throws (server.js:89-90);
  - a winning hand that names an inherited property, such as `constructor` or `toString`, finds a function instead of a move; `hp -= undefined` then sets the defender's hp to NaN, with no throw and no swap (server.js:90-94).
- Janken.Server.Swap: a `swap` before the socket's first join throws in the source, because `socket.monsters` is undefined. The model treats the not-yet-joined roster as empty, and the swap does nothing.
- Janken.Server.Join: passcodes that name inherited properties of JavaScript objects (for example `constructor` or `__proto__`) make `rooms[passcode]` find a non-array, and the handler throws. The model's registry is a plain map and has no such keys.
- Janken.Server.PlayHand: a `hand` message with such a passcode also finds a non-array, and the handler throws at `players.every` (server.js:58-61). The model returns `NoRoom` there, after recording the hand as the source does.
- Janken.Server.Disconnect: the loop visits rooms in an arbitrary order, not JavaScript's key order. `Rooms.LeaveCharacterized` shows the result does not depend on the order.
- The unused `passcode` argument of the `swap` handler is not modelled.
- Team defeat: the source has no end-of-battle signal when both monsters are at 0 hp. A fainted monster is still swapped in, and the model does the same.
