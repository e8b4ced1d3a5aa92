/**
 * The game state and its reducer (src/store/store.ts): the phase machine that
 * takes both players through placing their fleets and shooting in turns.
 * Every action that does not apply in the current state leaves it unchanged.
 *
 * The reducer object is the class GameReducer; what each action does to the
 * game is stated once, on plain values, by the functions Click and Confirm,
 * and the lemmas below say what those steps guarantee.
 */
module Store {
  import opened Constants
  import opened BoardPositions
  import opened Players

  /** The contents of one Player object. */
  datatype Board = Board(ships: set<BoardPosition>, shots: set<BoardPosition>)

  /**
   * GameState as a value: the phase, the boards of player 0 and player 1, and
   * whose turn it is. The source keeps the two players in an array that every
   * action leaves with two entries.
   */
  datatype GameState = GameState(phase: GamePhase, first: Board, second: Board, currentPlayer: int)

  function BoardOf(s: GameState, i: int): Board {
    if i == 0 then s.first else s.second
  }

  function WithBoard(s: GameState, i: int, b: Board): GameState {
    if i == 0 then s.(first := b) else s.(second := b)
  }

  function Alive(b: Board): nat {
    CountAlive(b.ships, b.shots)
  }

  /** initialGameState. */
  const InitialGameState: GameState := GameState(InitPhase, Board({}, {}), Board({}, {}), 0)

  /**
   * The counting part of the invariant: a current player in {0, 1}, no ship
   * before placement and no shot before shooting, 17 ship cells for player 0
   * once it has confirmed, a fleet afloat on both sides while shooting, and
   * in the final phase a sunk fleet for the player who is not current: the
   * current player is the winner.
   */
  ghost predicate Shape(s: GameState) {
    && 0 <= s.currentPlayer < 2
    && (s.phase == InitPhase ==> s.currentPlayer == 0 && s.first.ships == {} && s.second.ships == {})
    && (s.phase == InitPhase || s.phase == ShipPhase ==> s.first.shots == {} && s.second.shots == {})
    && (s.phase == ShipPhase && s.currentPlayer == 1 ==> |s.first.ships| == 17)
    && (s.phase == ShootPhase ==> Alive(s.first) > 0 && Alive(s.second) > 0)
    && (s.phase == FinalPhase ==> Alive(BoardOf(s, 1 - s.currentPlayer)) == 0 && Alive(BoardOf(s, s.currentPlayer)) > 0)
  }

  /** The fleet part of the invariant: a legal fleet for every player who has confirmed one. */
  ghost predicate FleetsConfirmed(s: GameState) {
    && (s.phase == ShipPhase && s.currentPlayer == 1 ==> FleetLegal(s.first.ships))
    && (s.phase == ShootPhase || s.phase == FinalPhase ==> FleetLegal(s.first.ships) && FleetLegal(s.second.ships))
  }

  /** What every state reached from initialGameState satisfies. */
  ghost predicate Reachable(s: GameState) {
    Shape(s) && FleetsConfirmed(s)
  }

  /** nextPlayer on values: the next player, wrapping round after the last; and whether it wrapped. */
  function NextTurn(currentPlayer: int, playerCount: int): (r: (int, bool))
    ensures r.1 <==> currentPlayer >= playerCount - 1
    ensures 0 <= currentPlayer < playerCount ==> 0 <= r.0 < playerCount
    ensures r.1 ==> r.0 == 0
    ensures !r.1 ==> r.0 == currentPlayer + 1
  {
    if currentPlayer < playerCount - 1 then (currentPlayer + 1, false) else (0, true)
  }

  /** A shot needs a board to land on: the source indexes the players array with it. */
  predicate ClickAllowed(s: GameState, playerBoard: int) {
    s.phase == ShootPhase && playerBoard != s.currentPlayer ==> 0 <= playerBoard < 2
  }

  /** The position of a phase in the order the game goes through them. */
  function PhaseRank(phase: GamePhase): nat {
    match phase
    case InitPhase => 0
    case ShipPhase => 1
    case ShootPhase => 2
    case FinalPhase => 3
  }

  /** startGame on values: only the phase can change, and only from init to ship placement. */
  function Start(s: GameState): (r: GameState)
    ensures r.(phase := s.phase) == s
    ensures r.phase != s.phase <==> s.phase == InitPhase
    ensures r.phase != s.phase ==> r.phase == ShipPhase
  {
    if s.phase == InitPhase then s.(phase := ShipPhase) else s
  }

  /**
   * cellClick on values. Ship cells change only during placement and shots
   * only while shooting; the current player's own shots never change; the
   * only phase change is the end of the game.
   */
  function Click(s: GameState, playerBoard: int, position: BoardPosition): (r: GameState)
    requires ClickAllowed(s, playerBoard)
    ensures r.phase == s.phase || (s.phase == ShootPhase && r.phase == FinalPhase)
    ensures s.phase != ShipPhase ==> r.first.ships == s.first.ships && r.second.ships == s.second.ships
    ensures s.phase != ShootPhase ==> r.first.shots == s.first.shots && r.second.shots == s.second.shots
    ensures 0 <= s.currentPlayer < 2 ==> BoardOf(r, s.currentPlayer).shots == BoardOf(s, s.currentPlayer).shots
  {
    if s.phase == ShipPhase && playerBoard == s.currentPlayer then
      var b := BoardOf(s, playerBoard);
      WithBoard(s, playerBoard, b.(ships := Toggle(b.ships, position)))
    else if s.phase == ShootPhase && playerBoard != s.currentPlayer then
      var b := BoardOf(s, playerBoard);
      if position in b.shots then s
      else
        var shot := b.(shots := b.shots + {position});
        var hit := position in b.ships;
        var afterShot := WithBoard(s, playerBoard, shot);
        var afterTurn := if hit then afterShot else afterShot.(currentPlayer := NextTurn(s.currentPlayer, 2).0);
        if hit && Alive(shot) == 0 then afterTurn.(phase := FinalPhase) else afterTurn
    else
      s
  }

  /** confirmPlacement on values: whether the fleet is legal is decided by validateShips. */
  ghost function Confirm(s: GameState): (r: GameState)
    ensures r.first == s.first && r.second == s.second
    ensures r.phase == s.phase || (s.phase == ShipPhase && r.phase == ShootPhase)
  {
    if s.phase != ShipPhase || !FleetLegal(BoardOf(s, s.currentPlayer).ships) then s
    else
      var (next, wasLastPlayer) := NextTurn(s.currentPlayer, 2);
      if wasLastPlayer then s.(currentPlayer := next, phase := ShootPhase) else s.(currentPlayer := next)
  }

  // ---------------------------------------------------------------------------
  // What the steps guarantee

  lemma InitialReachable()
    ensures Reachable(InitialGameState)
  {
  }

  /** startGame keeps the invariant. */
  lemma StartReachable(s: GameState)
    requires Reachable(s)
    ensures Reachable(Start(s))
  {
  }

  /** During placement a click on one's own board toggles that cell there and changes nothing else. */
  lemma ClickPlaces(s: GameState, playerBoard: int, position: BoardPosition)
    requires s.phase == ShipPhase && playerBoard == s.currentPlayer && 0 <= s.currentPlayer < 2
    ensures var r := Click(s, playerBoard, position);
      && r.phase == s.phase && r.currentPlayer == s.currentPlayer
      && BoardOf(r, playerBoard).ships == Toggle(BoardOf(s, playerBoard).ships, position)
      && BoardOf(r, playerBoard).shots == BoardOf(s, playerBoard).shots
      && BoardOf(r, 1 - playerBoard) == BoardOf(s, 1 - playerBoard)
  {
  }

  /** Clicks outside the placement and shooting rules change nothing. */
  lemma ClickIgnored(s: GameState, playerBoard: int, position: BoardPosition)
    requires ClickAllowed(s, playerBoard)
    requires || s.phase == InitPhase || s.phase == FinalPhase
             || (s.phase == ShipPhase && playerBoard != s.currentPlayer)
             || (s.phase == ShootPhase && playerBoard == s.currentPlayer)
             || (s.phase == ShootPhase && position in BoardOf(s, playerBoard).shots)
    ensures Click(s, playerBoard, position) == s
  {
  }

  /**
   * A legal shot is recorded on the opponent's board only; a miss passes the
   * turn, a hit keeps it, and the game ends exactly when the hit sinks the
   * opponent's last ship cell, with the shooter as the winner.
   */
  lemma ClickShoots(s: GameState, playerBoard: int, position: BoardPosition)
    requires s.phase == ShootPhase && 0 <= s.currentPlayer < 2 && 0 <= playerBoard < 2 && playerBoard != s.currentPlayer
    requires position !in BoardOf(s, playerBoard).shots
    ensures var r := Click(s, playerBoard, position);
      && BoardOf(r, playerBoard) == Board(BoardOf(s, playerBoard).ships, BoardOf(s, playerBoard).shots + {position})
      && BoardOf(r, s.currentPlayer) == BoardOf(s, s.currentPlayer)
      && (position !in BoardOf(s, playerBoard).ships ==> r.phase == ShootPhase && r.currentPlayer == playerBoard)
      && (position in BoardOf(s, playerBoard).ships ==> r.currentPlayer == s.currentPlayer)
      && (r.phase == FinalPhase <==> position in BoardOf(s, playerBoard).ships && Alive(BoardOf(r, playerBoard)) == 0)
      && (r.phase != FinalPhase ==> r.phase == ShootPhase)
  {
  }

  /** A click keeps the counting part of the invariant. */
  lemma ClickShape(s: GameState, playerBoard: int, position: BoardPosition)
    requires Shape(s) && ClickAllowed(s, playerBoard)
    ensures Shape(Click(s, playerBoard, position))
  {
    var b := BoardOf(s, playerBoard);
    if s.phase == ShootPhase && playerBoard != s.currentPlayer && position !in b.shots {
      CountAliveAfterShot(b.ships, b.shots, position);
    }
  }

  /**
   * Where the fleet part of the invariant can come from: a state that needs
   * confirmed fleets follows one that had them, with the same ship cells.
   */
  lemma FleetsFollow(s: GameState, r: GameState)
    requires FleetsConfirmed(s)
    requires r.phase == ShipPhase && r.currentPlayer == 1 ==>
               s.phase == ShipPhase && s.currentPlayer == 1 && r.first.ships == s.first.ships
    requires r.phase == ShootPhase || r.phase == FinalPhase ==>
               (s.phase == ShootPhase || s.phase == FinalPhase) && r.first.ships == s.first.ships && r.second.ships == s.second.ships
    ensures FleetsConfirmed(r)
  {
  }

  /** No click moves a confirmed ship, and none leaves the placement before it is confirmed. */
  lemma ClickKeepsConfirmedShips(s: GameState, playerBoard: int, position: BoardPosition)
    requires ClickAllowed(s, playerBoard)
    ensures var r := Click(s, playerBoard, position);
      && (r.phase == ShipPhase && r.currentPlayer == 1 ==>
            s.phase == ShipPhase && s.currentPlayer == 1 && r.first.ships == s.first.ships)
      && (r.phase == ShootPhase || r.phase == FinalPhase ==>
            (s.phase == ShootPhase || s.phase == FinalPhase) && r.first.ships == s.first.ships && r.second.ships == s.second.ships)
  {
  }

  /** Every click keeps the invariant; in particular the current player stays in {0, 1}. */
  lemma ClickReachable(s: GameState, playerBoard: int, position: BoardPosition)
    requires Reachable(s) && ClickAllowed(s, playerBoard)
    ensures Reachable(Click(s, playerBoard, position))
  {
    ClickShape(s, playerBoard, position);
    ClickKeepsConfirmedShips(s, playerBoard, position);
    FleetsFollow(s, Click(s, playerBoard, position));
  }

  /**
   * Confirming a legal fleet passes placement to player 1, or, after player 1,
   * starts the shooting with player 0; anything else is a no-op.
   */
  lemma ConfirmOutcomes(s: GameState)
    requires 0 <= s.currentPlayer < 2
    ensures s.phase != ShipPhase || !FleetLegal(BoardOf(s, s.currentPlayer).ships) ==> Confirm(s) == s
    ensures s.phase == ShipPhase && FleetLegal(BoardOf(s, s.currentPlayer).ships) && s.currentPlayer == 0 ==>
              Confirm(s) == s.(currentPlayer := 1)
    ensures s.phase == ShipPhase && FleetLegal(BoardOf(s, s.currentPlayer).ships) && s.currentPlayer == 1 ==>
              Confirm(s) == s.(currentPlayer := 0, phase := ShootPhase)
  {
  }

  /** confirmPlacement keeps the invariant: both fleets are legal, and afloat, once shooting starts. */
  lemma ConfirmReachable(s: GameState)
    requires Reachable(s)
    ensures Reachable(Confirm(s))
  {
    if s.phase == ShipPhase && FleetLegal(BoardOf(s, s.currentPlayer).ships) {
      FleetLegalSize(BoardOf(s, s.currentPlayer).ships);
    }
  }

  // ---------------------------------------------------------------------------
  // Runs of actions

  /** The actions GameActionCreators dispatches. */
  datatype Action =
    | ResetGame
    | StartGame
    | CellClick(playerBoard: int, position: BoardPosition)
    | ConfirmPlacement

  /** An action the reducer can run without failing: a shot needs an existing board. */
  predicate Allowed(s: GameState, a: Action) {
    a.CellClick? ==> ClickAllowed(s, a.playerBoard)
  }

  /** gameReducerFunction: one action applied to a state. Only resetGame moves the game back to an earlier phase. */
  ghost function Step(s: GameState, a: Action): (r: GameState)
    requires Allowed(s, a)
    ensures !a.ResetGame? ==> PhaseRank(r.phase) >= PhaseRank(s.phase)
    ensures a.StartGame? || a.ConfirmPlacement? ==> r.first == s.first && r.second == s.second
  {
    match a
    case ResetGame => InitialGameState
    case StartGame => Start(s)
    case CellClick(playerBoard, position) => Click(s, playerBoard, position)
    case ConfirmPlacement => Confirm(s)
  }

  lemma StepReachable(s: GameState, a: Action)
    requires Reachable(s) && Allowed(s, a)
    ensures Reachable(Step(s, a))
  {
    match a
    case ResetGame => InitialReachable();
    case StartGame => StartReachable(s);
    case CellClick(playerBoard, position) => ClickReachable(s, playerBoard, position);
    case ConfirmPlacement => ConfirmReachable(s);
  }

  ghost predicate AllowedRun(s: GameState, actions: seq<Action>)
    decreases |actions|
  {
    actions == [] || (Allowed(s, actions[0]) && AllowedRun(Step(s, actions[0]), actions[1..]))
  }

  /** The state after dispatching the actions one after the other. Without a reset, the phase never goes back. */
  ghost function Run(s: GameState, actions: seq<Action>): (r: GameState)
    requires AllowedRun(s, actions)
    ensures (forall i :: 0 <= i < |actions| ==> !actions[i].ResetGame?) ==> PhaseRank(r.phase) >= PhaseRank(s.phase)
    decreases |actions|
  {
    if actions == [] then s
    else
      assert forall i :: 0 <= i < |actions[1..]| ==> actions[1..][i] == actions[i + 1];
      Run(Step(s, actions[0]), actions[1..])
  }

  /**
   * Every state a game reaches from initialGameState satisfies the invariant:
   * the current player is 0 or 1, and once the game is over the current
   * player is the winner, with ships left afloat against a sunk fleet.
   */
  lemma {:induction false} RunReachable(s: GameState, actions: seq<Action>)
    requires Reachable(s) && AllowedRun(s, actions)
    ensures Reachable(Run(s, actions))
    decreases |actions|
  {
    if actions != [] {
      StepReachable(s, actions[0]);
      RunReachable(Step(s, actions[0]), actions[1..]);
    }
  }

  lemma GamesFromTheStart(actions: seq<Action>)
    requires AllowedRun(InitialGameState, actions)
    ensures var s := Run(InitialGameState, actions);
      && 0 <= s.currentPlayer < 2
      && (s.phase == FinalPhase ==> Alive(BoardOf(s, 1 - s.currentPlayer)) == 0 && Alive(BoardOf(s, s.currentPlayer)) > 0)
      && (s.phase == ShootPhase || s.phase == FinalPhase ==> FleetLegal(s.first.ships) && FleetLegal(s.second.ships))
  {
    InitialReachable();
    RunReachable(InitialGameState, actions);
  }

  // ---------------------------------------------------------------------------
  // The reducer object

  /** GameState held in place, with the GameReducer actions that update it. */
  class GameReducer {
    var phase: GamePhase
    var players: seq<Player>
    var currentPlayer: int

    /** The state as a value. */
    ghost function State(): GameState
      reads this, players
      requires |players| == 2
    {
      GameState(phase, Board(players[0].ships, players[0].shots), Board(players[1].ships, players[1].shots), currentPlayer)
    }

    /** Two separate Player objects and a current player that indexes them. */
    ghost predicate Valid()
      reads this, players
    {
      && |players| == 2
      && players[0] != players[1]
      && 0 <= currentPlayer < 2
    }

    /** initialGameState. */
    constructor ()
      ensures Valid()
      ensures State() == InitialGameState
      ensures fresh(players[0]) && fresh(players[1])
    {
      var first := new Player();
      var second := new Player();
      phase := InitPhase;
      players := [first, second];
      currentPlayer := 0;
    }

    /** resetGame: from any state, back to the initial state with two new boards. */
    method ResetGame()
      modifies this
      ensures Valid()
      ensures State() == InitialGameState
      ensures fresh(players[0]) && fresh(players[1])
    {
      var first := new Player();
      var second := new Player();
      players := [first, second];
      phase := InitPhase;
      currentPlayer := 0;
    }

    /** startGame: init phase to ship phase; a no-op in every other phase. */
    method StartGame()
      requires Valid()
      modifies this
      ensures Valid()
      ensures players == old(players)
      ensures State() == Start(old(State()))
    {
      if phase != InitPhase {
        return;
      }
      phase := ShipPhase;
    }

    /** nextPlayer: pass the turn to the next player, wrapping round after the last one. */
    method NextPlayer() returns (wasLastPlayer: bool)
      modifies this`currentPlayer
      ensures (currentPlayer, wasLastPlayer) == NextTurn(old(currentPlayer), |players|)
    {
      if currentPlayer < |players| - 1 {
        currentPlayer := currentPlayer + 1;
        return false;
      } else {
        currentPlayer := 0;
        return true;
      }
    }

    /** cellClick: place or remove a ship cell, or fire at the opponent's board. */
    method CellClick(playerBoard: int, position: BoardPosition)
      requires Valid() && ClickAllowed(State(), playerBoard)
      modifies this, players
      ensures Valid()
      ensures players == old(players)
      ensures State() == Click(old(State()), playerBoard, position)
    {
      if phase == ShipPhase && playerBoard == currentPlayer {
        PlaceOwnShipCell(position);
      } else if phase == ShootPhase && playerBoard != currentPlayer {
        ShootAt(playerBoard, position);
      }
    }

    /** The placement branch of cellClick: the current player toggles a cell of its own board. */
    method PlaceOwnShipCell(position: BoardPosition)
      requires Valid() && phase == ShipPhase
      modifies players[currentPlayer]
      ensures Valid()
      ensures State() == Click(old(State()), currentPlayer, position)
    {
      ghost var before := State();
      var playerPlacing := players[currentPlayer];
      ghost var placed := BoardOf(before, currentPlayer).(ships := Toggle(playerPlacing.ships, position));
      playerPlacing.PlaceShipCell(position);
      assert State() == WithBoard(before, currentPlayer, placed);
    }

    /** The shooting branch of cellClick: a cell already shot is ignored. */
    method ShootAt(playerBoard: int, position: BoardPosition)
      requires Valid() && phase == ShootPhase && 0 <= playerBoard < 2 && playerBoard != currentPlayer
      modifies this, players[playerBoard]
      ensures Valid()
      ensures players == old(players)
      ensures State() == Click(old(State()), playerBoard, position)
    {
      if players[playerBoard].HasShot(position) {
        return;
      }
      FireNewShot(playerBoard, position);
    }

    /** A shot at a cell not shot before: a miss passes the turn, sinking the last ship cell ends the game. */
    method FireNewShot(playerBoard: int, position: BoardPosition)
      requires Valid() && phase == ShootPhase && 0 <= playerBoard < 2 && playerBoard != currentPlayer
      requires position !in players[playerBoard].shots
      modifies this, players[playerBoard]
      ensures Valid()
      ensures players == old(players)
      ensures State() == Click(old(State()), playerBoard, position)
    {
      ghost var before := State();
      var playerShot := players[playerBoard];
      ghost var shotBoard := BoardOf(before, playerBoard).(shots := playerShot.shots + {position});
      var shot := playerShot.ReceiveShot(position);
      assert State() == WithBoard(before, playerBoard, shotBoard);
      var hit := shot.value;
      if !hit {
        var _ := NextPlayer();
      }
      if hit && playerShot.CountOfShipCellsAlive() == 0 {
        phase := FinalPhase;
      }
    }

    /** confirmPlacement: accept the current player's fleet if it is legal and pass the turn. */
    method ConfirmPlacement()
      requires Valid()
      modifies this
      ensures Valid()
      ensures players == old(players)
      ensures State() == Confirm(old(State()))
    {
      if phase != ShipPhase {
        return;
      }
      var valid := CurrentFleetValid();
      if !valid {
        return;
      }
      var wasLastPlayer := NextPlayer();
      if wasLastPlayer {
        phase := ShootPhase;
      }
    }

    /** The check of confirmPlacement: validateShips on the current player's board. */
    method CurrentFleetValid() returns (valid: bool)
      requires Valid()
      ensures valid <==> FleetLegal(players[currentPlayer].ships)
    {
      var validation := players[currentPlayer].ValidateShips();
      valid := validation.Valid?;
    }
  }
}
