# Battleship game engine, modelled in Dafny

This project models the game-state engine of a two-player battleship game.

- **Board positions.** A board position is a cell of a 10 × 10 board. It has a canonical key `"x,y"`, a list of neighbours and a straight-line test.
- **Players.** Each player owns a board. The board holds the set of ship cells and the set of shot cells, and it can validate a fleet.
- **The reducer.** A reducer drives the game through four phases, in this order:
  1. Init.
  2. Ship placement. Player 0 places and confirms a fleet, then player 1 does.
  3. Shooting. The players take turns; a hit keeps the turn.
  4. Final. The player who sank the last ship cell of the other fleet is the current player.

A fleet is legal when the ship cells split into groups of touching cells, diagonal contact included, and every group is a straight, unbroken row or column. The group sizes must also be the ship lengths 5, 4, 3, 3, 2. Equivalently (`FleetLegalShipsApart`), the ship cells can be listed as straight ships of those lengths that never touch each other.

There are six modules, one per file:

| file | module | contents |
|---|---|---|
| `wrappers.dfy` | `Wrappers` | `Result` |
| `constants.dfy` | `Constants` | board width, ship lengths, phases |
| `sequences.dfy` | `Sequences` | generic facts about sequences, sets and sums |
| `board_position.dfy` | `BoardPositions` | `BoardPosition` |
| `player.dfy` | `Players` | `Player` and the specification of a legal fleet |
| `store.dfy` | `Store` | the game state, its transitions as functions on values, and the `GameReducer` class |

How the modules are written:

- **`BoardPositions`** is pure, as its source is. A position is a subset type of integer coordinate pairs that the constructor's guard accepts. Keys are decimal strings, and the decoder is proved to be an exact inverse of the encoder.
- **`Players`** is mixed:
  - The `Player` class keeps `ships` and `shots` as fields that its methods update.
  - The flood fill of `getShipCellsGroup` is a `while` loop over an explicit stack. The loop is proved to collect exactly the connected component of the start cell.
  - "Legal fleet" is stated once, independently of the algorithm, as `FleetLegal`. `ValidateShips` is proved to accept exactly the legal fleets.
- **`Store`** is imperative:
  - `GameReducer` holds `phase`, `players` and `currentPlayer` and updates them in place.
  - Each method's `ensures` ties the new state, read through `State()`, to a function on `GameState` values: `Start`, `Click` or `Confirm`.
  - The lemmas about those functions state the rules of the game.
  - One invariant, `Reachable`, holds for every state reached from the initial state, whatever sequence of actions produced it. In that invariant:
    - the current player is 0 or 1
    - both fleets are legal once shooting starts
    - in the final phase the current player is the winner.

## Model

| member | source | states |
|---|---|---|
| BoardPositions.NewPosition | src/models/BoardPosition.ts:6-10 | the constructor accepts exactly the coordinates in [0, 10) on both axes and keeps them; anything else fails with an out-of-bounds error |
| BoardPositions.ParseInt | src/models/BoardPosition.ts:40 | a key field reads as a number exactly when it is a non-empty string of digits, and the number is then non-negative |
| BoardPositions.SplitJoin | src/models/BoardPosition.ts:39 | splitting a string at commas gives comma-free fields that join back to the string |
| BoardPositions.ToString | src/models/BoardPosition.ts:12-14 | the key has exactly two comma-separated fields, and they read back as the x and the y of the position |
| BoardPositions.FromString | src/models/BoardPosition.ts:38-45 | a decoded position re-encodes to the key it came from; a refused key is named in its error, and an out-of-bounds error holds off-board coordinates |
| BoardPositions.FromStringAsWritten | src/models/BoardPosition.ts:38-45 | as written, a decoded pair passes the bounds guard, and a pair of numbers that passes it is on the board |
| BoardPositions.FromStringToString | src/models/BoardPosition.ts:12-45 | decoding the key of any position gives that position back |
| BoardPositions.FromStringOnlyCanonical | src/models/BoardPosition.ts:38-45 | fromString accepts a string as position p exactly when the string is p's canonical key |
| BoardPositions.ToStringInjective | src/models/BoardPosition.ts:12-14 | two positions have the same key exactly when they are the same position, so sets of keys and sets of positions correspond |
| BoardPositions.FromStringRejectsLeadingZero | src/models/BoardPosition.ts:41-43 | a key naming a board cell but written with a leading zero ("03,4") is refused |
| BoardPositions.FromStringOnBoard | src/models/BoardPosition.ts:38-45 | every key the decoder accepts names a cell on the board, and the as-written decoder agrees with it on every such key |
| BoardPositions.FromStringAsWrittenAcceptsNaN | src/models/BoardPosition.ts:7-45 | as written, the key "NaN,NaN" passes the bounds guard and decodes to a position off the board; the corrected decoder refuses it |
| BoardPositions.AdjacentPositions | src/models/BoardPosition.ts:16-36 | at most eight neighbours, each touching the cell along a side or at a corner |
| BoardPositions.AdjacentPositionsSpec | src/models/BoardPosition.ts:16-36 | the neighbours of p are exactly the board cells at Chebyshev distance 1 from p, each listed once |
| BoardPositions.AdjacentPositionsSymmetric | src/models/BoardPosition.ts:16-36 | q is a neighbour of p exactly when p is a neighbour of q |
| BoardPositions.AdjacentPositionsCount | src/models/BoardPosition.ts:16-36 | a corner cell has 3 neighbours, another border cell 5, an inner cell 8 |
| BoardPositions.Sort | src/models/BoardPosition.ts:48 | the comparator sort returns a permutation of its input, ordered by x and then by y |
| BoardPositions.KeySetCard | src/models/BoardPosition.ts:49-52 | the set of keys is as large as the list exactly when no position repeats |
| BoardPositions.RowTestSpec | src/models/BoardPosition.ts:53-56 | on sorted distinct positions, "same y, x counting up by one" holds exactly when the cells form an unbroken row |
| BoardPositions.ColumnTestSpec | src/models/BoardPosition.ts:53-57 | on sorted distinct positions, "same x, y counting up by one" holds exactly when the cells form an unbroken column |
| BoardPositions.AreInLine | src/models/BoardPosition.ts:47-59 | a list with a repeated position is never in line |
| BoardPositions.AreInLineSpec | src/models/BoardPosition.ts:47-59 | areInLine holds exactly when no position repeats and the positions form one straight, unbroken row or column |
| BoardPositions.AreInLinePermutation | src/models/BoardPosition.ts:47-59 | areInLine gives the same answer for any reordering of its input |
| BoardPositions.AreInLineSingle | src/models/BoardPosition.ts:47-59 | a single position is in line |
| BoardPositions.DecodeAllKeys | src/models/BoardPosition.ts:61 | decoding the keys of a list of positions gives the list back |
| BoardPositions.AreInLineStrings | src/models/BoardPosition.ts:60-62 | the call succeeds exactly when every key decodes, and then answers areInLine of the positions the keys decode to, in order; otherwise it fails with the error of the first key that does not |
| BoardPositions.DecodeAllSpec | src/models/BoardPosition.ts:61 | mapping fromString over the keys succeeds exactly when every key decodes, and then position i is fromString of key i; otherwise it fails with the first bad key's error |
| BoardPositions.AreInLineStringsOfKeys | src/models/BoardPosition.ts:60-62 | on keys made by toString, areInLineStrings never fails and agrees with areInLine on the positions |
| Players.Player.constructor | src/models/Player.ts:5-6 | a new board has no ship cells and no shots |
| Players.Player.HasShot | src/models/Player.ts:8-10 | true exactly when the set of shot keys holds the key of the position |
| Players.Player.HasShipCell | src/models/Player.ts:11-13 | true exactly when the set of ship keys holds the key of the position |
| Players.Player.CountOfShipCellsAlive | src/models/Player.ts:41-43 | no more live cells than ship cells, and none exactly when every ship cell has been shot |
| Players.Toggle | src/models/Player.ts:19-26 | a placement click puts p in the ship cells exactly when it was not there and leaves every other cell as it was |
| Players.ToggleTwice | src/models/Player.ts:19-26 | clicking the same cell twice restores the ship cells |
| Players.Player.PlaceShipCell | src/models/Player.ts:19-26 | the ship cells become the toggle of the old ones at p; the shots are unchanged |
| Players.Player.ReceiveShot | src/models/Player.ts:33-40 | a cell already shot is refused and nothing changes; otherwise the shot is recorded and the result says whether a ship cell was hit; the ship cells never change |
| Players.CountAlive | src/models/Player.ts:41-43 | the live cells are at most the ship cells, and none are left exactly when every ship cell has been shot |
| Players.CountAliveAfterShot | src/models/Player.ts:33-43 | a new shot lowers the live count by one on a hit and leaves it unchanged on a miss |
| Players.Player.PushNewShipCells | src/models/Player.ts:104-106 | the stack keeps its old entries, and gains every neighbour of the current cell that is a ship cell not yet in the group, and nothing else |
| Players.Player.CollectShipCells | src/models/Player.ts:91-107 | the stack-driven flood fill collects exactly the connected component of the start cell among the ship cells, each cell once |
| Players.Player.GetShipCellsGroup | src/models/Player.ts:91-112 | the group is returned exactly when the component of the start cell is a straight line, and it is that component; otherwise the error names the start cell |
| Players.PartitionsArePermutations | src/models/Player.ts:74-84 | any two lists of the components of the ship cells are permutations of each other, so the iteration order of the set does not matter |
| Players.PartitionUnique | src/models/Player.ts:53-63 | every list of the components has the same number of groups and the same multiset of sizes |
| Players.PartitionSizesSum | src/models/Player.ts:53-63 | the component sizes add up to the number of ship cells |
| Players.Player.GetAllShipCellsGroups | src/models/Player.ts:74-84 | the walk succeeds exactly when every component is a straight line, and then returns each component once, covering all ship cells; a failure names a ship cell whose component is not straight |
| Players.FleetLegalSize | src/utils/constants.ts:29 | a legal fleet has 17 cells, and every list of its components has 5 groups |
| Players.LegalShipsApart | src/models/Player.ts:44-45 | in a legal fleet, no cell of one ship touches a cell of another ship, along a side or at a corner |
| Players.LegalPartitionIsShipsApart | src/models/Player.ts:44-45 | a list of groups lists the components of a legal fleet exactly when it is a list of non-empty, straight, unbroken ships that share no cell, cover the ship cells, never touch each other and have the lengths 5, 4, 3, 3, 2 |
| Players.SeparatedGroupIsComponent | src/models/Player.ts:44-45 | each ship of such a list of separated ships is a connected component of the ship cells |
| Players.FleetLegalShipsApart | src/models/Player.ts:44-45 | a fleet is legal exactly when its cells can be listed as separated straight ships with the required lengths |
| Players.BentComponentIllegal | src/models/Player.ts:108-110 | a ship cell whose component is not a straight line makes the fleet illegal |
| Players.WrongSizesIllegal | src/models/Player.ts:59-63 | components whose sizes are not the required ship lengths make the fleet illegal |
| Players.Player.ValidateShips | src/models/Player.ts:48-68 | the fleet is accepted exactly when it is legal, and a legal fleet has 17 cells. The reason follows the order of the checks: exactly the empty fleet gets the no-ships reason; otherwise a bent group gives the not-in-line reason, naming a cell of a bent group; otherwise a wrong number of groups gives the count reason, with the expected 5 and the count every component list has; otherwise an illegal fleet gets the wrong-lengths reason, and then every component list has the wrong size multiset |
| Store.GameReducer.CurrentFleetValid | src/store/store.ts:56 | the current player's fleet passes validateShips exactly when it is legal |
| Store.NextTurn | src/store/store.ts:64-73 | the turn wraps to 0 exactly when the current player is the last, and otherwise moves to the next player; a player in range stays in range |
| Store.GameReducer.NextPlayer | src/store/store.ts:64-73 | the new current player and the wrapped flag are those of NextTurn over the number of players |
| Store.GameReducer.constructor | src/store/store.ts:13-17 | the initial state: init phase, two empty new boards, player 0 to move |
| Store.InitialReachable | src/store/store.ts:13-17 | the initial state satisfies the game invariant |
| Store.GameReducer.ResetGame | src/store/store.ts:21-25 | from any state, the game returns to the initial state with two new boards |
| Store.GameReducer.StartGame | src/store/store.ts:26-29 | the state after the call is Start of the state before: init moves to ship phase, every other phase is untouched |
| Store.Start | src/store/store.ts:26-29 | only the phase can change, and it changes exactly from init, to ship placement |
| Store.StartReachable | src/store/store.ts:26-29 | startGame keeps the game invariant |
| Store.GameReducer.CellClick | src/store/store.ts:30-51 | the state after the call is Click of the state before, over the same two player objects |
| Store.Click | src/store/store.ts:30-51 | ship cells change only during placement and shots only while shooting; the current player's own shots never change; the only phase change is from shooting to final |
| Store.GameReducer.PlaceOwnShipCell | src/store/store.ts:33-37 | the placement branch: the state after the call is Click of the state before on the current player's board |
| Store.GameReducer.ShootAt | src/store/store.ts:38-50 | the shooting branch: the state after the call is Click of the state before on the target board |
| Store.GameReducer.FireNewShot | src/store/store.ts:42-48 | a shot at a cell not shot before: the state after the call is Click of the state before |
| Store.ClickPlaces | src/store/store.ts:33-37 | during placement, a click on one's own board toggles that cell there and changes nothing else |
| Store.ClickIgnored | src/store/store.ts:30-51 | the click is a no-op in the init and final phases, on the other player's board during placement, on one's own board while shooting, and on a cell already shot |
| Store.ClickShoots | src/store/store.ts:38-50 | a new shot is recorded on the opponent's board only; a miss passes the turn, a hit keeps it; the game ends exactly when the hit leaves the opponent no live cell, and otherwise shooting goes on |
| Store.ClickShape | src/store/store.ts:30-51 | a click keeps the counting part of the invariant (player in range, live fleets while shooting, winner current in the final phase) |
| Store.ClickKeepsConfirmedShips | src/store/store.ts:30-51 | no click changes a confirmed fleet's ship cells, and no click leaves the placement phase |
| Store.FleetsFollow | src/store/store.ts:30-51 | the frame step for cellClick: a state that needs confirmed fleets keeps them when it follows one that had them with the same ship cells, which ClickKeepsConfirmedShips supplies |
| Store.ClickReachable | src/store/store.ts:30-51 | every click keeps the game invariant |
| Store.GameReducer.ConfirmPlacement | src/store/store.ts:52-63 | the state after the call is Confirm of the state before, with the fleet judged by validateShips |
| Store.Confirm | src/store/store.ts:52-63 | confirmation never changes a board; the only phase change is from ship placement to shooting |
| Store.ConfirmOutcomes | src/store/store.ts:52-63 | confirming outside the placement phase, or with an illegal fleet, is a no-op; a legal fleet of player 0 hands placement to player 1; a legal fleet of player 1 starts the shooting with player 0 |
| Store.ConfirmReachable | src/store/store.ts:52-63 | confirmPlacement keeps the game invariant: both fleets are legal and afloat once shooting starts |
| Store.Step | src/store/store.ts:20-77 | no action but resetGame moves the game to an earlier phase; startGame and confirmPlacement never change a board |
| Store.Run | src/store/store.ts:20-77 | through any run without a reset, the phase never goes back |
| Store.StepReachable | src/store/store.ts:20-73 | every allowed action keeps the game invariant |
| Store.RunReachable | src/store/store.ts:20-73 | every allowed sequence of actions from an invariant state ends in an invariant state |
| Store.GamesFromTheStart | src/store/store.ts:13-73 | in every game played from the initial state, the current player is 0 or 1; while shooting and after it both fleets are legal; in the final phase the current player still has live cells and the other player has none |

## Left out

- The React user interface, the immer draft and copy mechanism (`this.draftState`, `players = [...players]`, the action creators) and the reducer function built from the class are not modelled. Each action is a method that updates the object in place, and `Store.Step` and `Store.Run` apply actions to values.
- BoardPositions.NewPosition: coordinates are integers. The constructor would also accept non-integer numbers in [0, 10), which no caller passes.
- Keys: ship and shot cells are kept as sets of positions rather than sets of `"x,y"` strings. The encoding is injective (`ToStringInjective`, `FromStringToString`), so the two sets correspond one to one.
- BoardPositions.ParseInt: reads only non-empty digit strings. JavaScript's parseInt also skips blanks, reads a sign and ignores trailing characters. Every such key is refused by the source too, by the bounds guard or by the re-encoding check, so only which error arises differs.
- Errors are datatype values, not thrown exceptions with message strings: `PositionError`, `ShotError`, `FleetError`, `Validation`. The message texts are not modelled.
- The NaN coordinates that the constructor as written lets through are modelled only in `FromStringAsWritten`. The rest of the model uses the corrected decoder; see Findings.
- Players.Player.GetAllShipCellsGroups: the JavaScript Set's insertion order is modelled as an arbitrary choice of the next cell. The model therefore does not pin down which bent group is named in the error, only that it is a ship cell of a bent group.
- Players.Player.ValidateShips: the sort-and-JSON comparison of lengths is modelled as multiset equality. For lists of small integers the two agree.
- Store.GameReducer.CellClick: requires that a shot names board 0 or 1. The source indexes the players array with the board number and would fail on any other value.
- Store.GameReducer.CellClick: the `playerBoard !== undefined` and `!!position` checks are left out; every Dafny argument is defined.
- Store.GameReducer.ConfirmPlacement: `Players.Player.ValidateShips` decides the fleet. `Store.Confirm` states the effect with the specification predicate `FleetLegal`, which ValidateShips is proved to match.
- Store.GameReducer: the class invariant `Valid` is structural: two distinct players and a current player in range. The game invariant `Reachable` is proved on `GameState` values for every sequence of actions, not carried as a class invariant.
- The players array is modelled with exactly two entries, which every action of the source preserves. `NextPlayer` and `NextTurn` still take the length as a parameter.
- The constants of src/utils/constants.ts are Dafny constants. The cell-type strings are not part of the engine and are left out.

## Findings

| source | as written | input that shows it | evidently intended | confidence | as-written member | corrected member |
|---|---|---|---|---|---|---|
| src/models/BoardPosition.ts:7,38-45 | the guard `x < 0 \|\| y < 0 \|\| x >= BOARD_WIDTH \|\| y >= BOARD_WIDTH` is false for NaN, so `fromString` accepts a key whose fields parse to NaN, because "NaN,NaN" re-encodes to itself | `BoardPosition.fromString("NaN,NaN")` returns a position with NaN coordinates | every accepted key names a cell on the board | not executed | BoardPositions.FromStringAsWrittenAcceptsNaN | BoardPositions.FromStringOnBoard |
