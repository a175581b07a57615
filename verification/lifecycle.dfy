/** The game lifecycle: the player endpoints of the contract, and the
    owner's pause switch they depend on, as a pure step
    from a stored state and a call to either a rejection (the transaction
    aborts and nothing changes) or a new state with the payouts and score
    credits the call emits. The caller, the current epoch and whether the
    attached payment is the configured wager are inputs of the call. */
module Lifecycle {
  import opened Wrappers
  import opened Board
  import opened MoveValidator
  import opened CheckDetector
  import opened Storage

  /** Why a call is refused, one case per `require!` message. */
  datatype Error =
    | Paused                 // "Contract is paused"
    | WrongWager             // "Wrong wager amount" / "Wrong wager token identifier"
    | PlayingYourself        // "You cannot play against yourself"
    | GameNotFound           // "Game does not exist"
    | GameNotActive          // "Game is not active"
    | NotYourTurn            // "It is not your turn or you are not part of the game"
    | TooLate                // "You took too long to make a move"
    | NotParticipant         // "You are not part of the game"
    | JustMoved              // "You just moved"
    | UpToMove               // "You are up to move"
    | OpponentCanStillMove   // "Opponent can still make a move"
    | IllegalMove(reason: MoveError)
    | NotInCheck(cause: CheckError)

  /** What a successful call does outside storage: the stake it receives,
      the wager-token transfers it sends and the score points it adds. */
  datatype Effect =
    | StakeReceived(from: Address, amount: nat)
    | Payout(to: Address, amount: nat)
    | ScoreCredit(player: Address, points: nat)

  datatype StepResult =
    | Reject(error: Error)
    | Accept(state: Contract, effects: seq<Effect>)

  /** The endpoints with their inputs: the owner's `pause` and `unpause`,
      and the player endpoints. */
  datatype Op =
    | Pause
    | Unpause
    | Join(caller: Address, stakeCorrect: bool, now: nat)
    | MakeMove(caller: Address, id: GameId, from: Byte, to: Byte, now: nat)
    | OfferDraw(caller: Address, id: GameId)
    | ClaimIllegalMove(caller: Address, id: GameId)
    | SignalInactivity(caller: Address, id: GameId, now: nat)
    | Resign(caller: Address, id: GameId)

  /** The guards every game endpoint starts with: `require_is_active`,
      `require_game_exists` and `require_game_is_ongoing`. On success, the
      game they found. */
  function OngoingGame(s: Contract, id: GameId): (r: Result<Game, Error>)
    ensures r.Success? <==> !s.paused && GameExists(s, id) && GameAt(s, id).state == Ongoing
    ensures r.Success? ==> r.value == GameAt(s, id)
    ensures s.paused ==> r == Failure(Paused)
  {
    if s.paused then Failure(Paused)
    else if !GameExists(s, id) then Failure(GameNotFound)
    else if GameAt(s, id).state.Code() != 0 then Failure(GameNotActive)
    else Success(GameAt(s, id))
  }

  /** Ends game `id` with the given state. */
  function Finish(s: Contract, id: GameId, g: Game, st: GameState): Contract
    requires GameExists(s, id)
  {
    s.(games := s.games[id - 1 := g.(state := st)])
  }

  /** The payout and score credit of a win: two wagers and two points to the
      winner. */
  function WinEffects(s: Contract, winner: Address): seq<Effect> {
    [Payout(winner, 2 * s.wager), ScoreCredit(winner, 2)]
  }

  /** `join_game`: the first caller takes the waiting slot; the next
      different caller starts a game against them, as Black. */
  function JoinGame(s: Contract, caller: Address, stakeCorrect: bool, now: nat): StepResult {
    if s.paused then Reject(Paused)
    else if !stakeCorrect then Reject(WrongWager)
    else
      match s.waiting
      case Some(player) =>
        if player == caller then Reject(PlayingYourself)
        else
          var id := |s.games| + 1;
          Accept(
            s.(games := s.games + [NewGame(id, player, caller, now)],
               waiting := None,
               drawOffers := s.drawOffers[id := None],
               boards := s.boards[id := StartBoard],
               escrow := s.escrow + s.wager),
            [StakeReceived(caller, s.wager)])
      case None =>
        Accept(s.(waiting := Some(caller), escrow := s.escrow + s.wager),
               [StakeReceived(caller, s.wager)])
  }

  /** `make_move`: the player to move, within one epoch of the last move,
      moves a piece the validator accepts. The stored board is the one the
      validator leaves behind, with the piece relocated. */
  function Move(s: Contract, caller: Address, id: GameId, from: Byte, to: Byte, now: nat): StepResult
    requires HasBoards(s)
  {
    match OngoingGame(s, id)
    case Failure(e) => Reject(e)
    case Success(g) =>
      if g.PlayerToMove() != caller then Reject(NotYourTurn)
      else if !(now <= g.lastMoveEpoch + 1) then Reject(TooLate)
      else
        match ValidateMove(s.boards[id], g.turn, from, to)
        case Failure(e) => Reject(IllegalMove(e))
        case Success(stored) =>
          var g' := g.(lastMoveEpoch := now, turn := g.turn.Opponent());
          Accept(
            s.(boards := s.boards[id := Relocate(stored, from, to)],
               games := s.games[id - 1 := g']),
            [])
  }

  /** `draw`: a participant offers a draw, or accepts the other
      participant's pending offer; repeating one's own offer changes
      nothing. An accepted draw returns each stake and gives each player one
      point. */
  function Draw(s: Contract, caller: Address, id: GameId): StepResult {
    match OngoingGame(s, id)
    case Failure(e) => Reject(e)
    case Success(g) =>
      if !g.IsParticipant(caller) then Reject(NotParticipant)
      else
        match DrawOffer(s, id)
        case None => Accept(s.(drawOffers := s.drawOffers[id := Some(caller)]), [])
        case Some(offerer) =>
          if offerer == caller then Accept(s, [])
          else
            var s' := Finish(s, id, g, StateFromCode(3));
            Accept(
              s'.(drawOffers := s.drawOffers[id := None],
                  scores := Credit(Credit(s.scores, g.white, 1), g.black, 1),
                  escrow := s.escrow - 2 * s.wager),
              [Payout(g.white, s.wager), Payout(g.black, s.wager),
               ScoreCredit(g.white, 1), ScoreCredit(g.black, 1)])
  }

  /** `call_illegal_move`: the player to move claims that the opponent
      ended their move in check, and wins when the check requirement holds
      for the opponent's colour. */
  function ClaimIllegal(s: Contract, caller: Address, id: GameId): StepResult
    requires HasBoards(s)
  {
    match OngoingGame(s, id)
    case Failure(e) => Reject(e)
    case Success(g) =>
      if !g.IsParticipant(caller) then Reject(NotParticipant)
      else
        var mover := g.PlayerToMove();
        if mover != caller then Reject(JustMoved)
        else
          match KingInCheck(s.boards[id], g.turn.Opponent())
          case Fail(e) => Reject(NotInCheck(e))
          case Pass =>
            var s' := Finish(s, id, g, StateFromCode(1 + g.turn.Code()));
            Accept(
              s'.(scores := Credit(s.scores, mover, 2), escrow := s.escrow - 2 * s.wager),
              WinEffects(s, mover))
  }

  /** `signal_inactivity`: the player not to move wins once more than one
      epoch has passed since the last move. */
  function Inactivity(s: Contract, caller: Address, id: GameId, now: nat): StepResult {
    match OngoingGame(s, id)
    case Failure(e) => Reject(e)
    case Success(g) =>
      if !g.IsParticipant(caller) then Reject(NotParticipant)
      else if g.PlayerToMove() == caller then Reject(UpToMove)
      else if !(now > g.lastMoveEpoch + 1) then Reject(OpponentCanStillMove)
      else
        var s' := Finish(s, id, g, StateFromCode(2 - g.turn.Code()));
        Accept(
          s'.(scores := Credit(s.scores, caller, 2), escrow := s.escrow - 2 * s.wager),
          WinEffects(s, caller))
  }

  /** `resign`: a participant gives up and the other player wins. */
  function ResignGame(s: Contract, caller: Address, id: GameId): StepResult {
    match OngoingGame(s, id)
    case Failure(e) => Reject(e)
    case Success(g) =>
      if !g.IsParticipant(caller) then Reject(NotParticipant)
      else
        var (st, winner) := if caller == g.white then (StateFromCode(2), g.black) else (StateFromCode(1), g.white);
        var s' := Finish(s, id, g, st);
        Accept(
          s'.(scores := Credit(s.scores, winner, 2), escrow := s.escrow - 2 * s.wager),
          WinEffects(s, winner))
  }

  /** `pause` and `unpause`: the owner sets the pause flag, whatever its
      current value, and nothing else changes. */
  function SetPaused(s: Contract, paused: bool): StepResult {
    Accept(s.(paused := paused), [])
  }

  /** One call to the contract. */
  function Step(s: Contract, op: Op): StepResult
    requires HasBoards(s)
  {
    match op
    case Pause => SetPaused(s, true)
    case Unpause => SetPaused(s, false)
    case Join(caller, stakeCorrect, now) => JoinGame(s, caller, stakeCorrect, now)
    case MakeMove(caller, id, from, to, now) => Move(s, caller, id, from, to, now)
    case OfferDraw(caller, id) => Draw(s, caller, id)
    case ClaimIllegalMove(caller, id) => ClaimIllegal(s, caller, id)
    case SignalInactivity(caller, id, now) => Inactivity(s, caller, id, now)
    case Resign(caller, id) => ResignGame(s, caller, id)
  }
}
