/** Properties of the game lifecycle: the stored-state invariant and the
    escrow it keeps, what each endpoint accepts and does, isolation between
    games, and facts about whole runs of calls. */
module LifecycleProperties {
  import opened Wrappers
  import opened Board
  import opened MoveValidator
  import opened CheckDetector
  import opened Storage
  import opened Lifecycle

  /** The game a call addresses; joining and the owner calls address
      none. */
  function Target(op: Op): Option<GameId> {
    match op
    case Pause => None
    case Unpause => None
    case Join(_, _, _) => None
    case MakeMove(_, id, _, _, _) => Some(id)
    case OfferDraw(_, id) => Some(id)
    case ClaimIllegalMove(_, id) => Some(id)
    case SignalInactivity(_, id, _) => Some(id)
    case Resign(_, id) => Some(id)
  }

  /** Score points one effect credits to `a`. */
  function CreditOf(e: Effect, a: Address): nat {
    if e.ScoreCredit? && e.player == a then e.points else 0
  }

  /** Wager tokens one effect sends out. */
  function PaidOf(e: Effect): nat {
    if e.Payout? then e.amount else 0
  }

  /** Wager tokens one effect sends to `a`. */
  function PaidToOf(e: Effect, a: Address): nat {
    if e.Payout? && e.to == a then e.amount else 0
  }

  /** Wager tokens one effect takes in. */
  function ReceivedOf(e: Effect): nat {
    if e.StakeReceived? then e.amount else 0
  }

  /** Score points the effects credit to `a`. */
  function Credits(effects: seq<Effect>, a: Address): nat {
    if effects == [] then 0
    else Credits(effects[..|effects| - 1], a) + CreditOf(effects[|effects| - 1], a)
  }

  /** Wager tokens the effects send out. */
  function Paid(effects: seq<Effect>): nat {
    if effects == [] then 0
    else Paid(effects[..|effects| - 1]) + PaidOf(effects[|effects| - 1])
  }

  /** Wager tokens the effects send to `a`. */
  function PaidTo(effects: seq<Effect>, a: Address): nat {
    if effects == [] then 0
    else PaidTo(effects[..|effects| - 1], a) + PaidToOf(effects[|effects| - 1], a)
  }

  /** Wager tokens the effects take in. */
  function Received(effects: seq<Effect>): nat {
    if effects == [] then 0
    else Received(effects[..|effects| - 1]) + ReceivedOf(effects[|effects| - 1])
  }

  /** The sums over the effect lists the endpoints emit, of at most four
      entries, term by term. */
  lemma {:induction false} ShortSums(e: seq<Effect>, a: Address)
    requires |e| <= 4
    ensures Credits(e, a) == (if |e| > 0 then CreditOf(e[0], a) else 0) + (if |e| > 1 then CreditOf(e[1], a) else 0)
                           + (if |e| > 2 then CreditOf(e[2], a) else 0) + (if |e| > 3 then CreditOf(e[3], a) else 0)
    ensures Paid(e) == (if |e| > 0 then PaidOf(e[0]) else 0) + (if |e| > 1 then PaidOf(e[1]) else 0)
                     + (if |e| > 2 then PaidOf(e[2]) else 0) + (if |e| > 3 then PaidOf(e[3]) else 0)
    ensures PaidTo(e, a) == (if |e| > 0 then PaidToOf(e[0], a) else 0) + (if |e| > 1 then PaidToOf(e[1], a) else 0)
                          + (if |e| > 2 then PaidToOf(e[2], a) else 0) + (if |e| > 3 then PaidToOf(e[3], a) else 0)
    ensures Received(e) == (if |e| > 0 then ReceivedOf(e[0]) else 0) + (if |e| > 1 then ReceivedOf(e[1]) else 0)
                         + (if |e| > 2 then ReceivedOf(e[2]) else 0) + (if |e| > 3 then ReceivedOf(e[3]) else 0)
  {
    if |e| > 0 {
      ShortSums(e[..|e| - 1], a);
    }
  }

  // ---------------------------------------------------------------------
  // The invariant

  /** Ending an ongoing game releases its two stakes. */
  lemma FinishStakes(s: Contract, id: GameId, g: Game, st: GameState)
    requires GameExists(s, id) && GameAt(s, id).state == Ongoing && st != Ongoing
    ensures StakesHeld(Finish(s, id, g, st)) == StakesHeld(s) - 2 * s.wager
  {
    OngoingCountUpdate(s.games, id - 1, g.(state := st));
    var c := OngoingCount(s.games);
    var w := if s.waiting.Some? then 1 else 0;
    assert OngoingCount(Finish(s, id, g, st).games) == c - 1;
    assert s.wager * (2 * (c - 1) + w) == s.wager * (2 * c + w) - 2 * s.wager;
  }

  /** The state after ending game `id` with the game the guards returned is
      valid once the escrow gives up the two stakes. */
  lemma FinishValid(s: Contract, id: GameId, st: GameState, scores: map<Address, nat>, offers: map<GameId, Option<Address>>)
    requires Valid(s) && OngoingGame(s, id).Success? && st != Ongoing
    ensures Valid(Finish(s, id, GameAt(s, id), st).(scores := scores, drawOffers := offers, escrow := s.escrow - 2 * s.wager))
  {
    FinishStakes(s, id, GameAt(s, id), st);
  }

  lemma JoinValid(s: Contract, caller: Address, stakeCorrect: bool, now: nat)
    requires Valid(s)
    ensures JoinGame(s, caller, stakeCorrect, now).Accept? ==> Valid(JoinGame(s, caller, stakeCorrect, now).state)
  {
    var r := JoinGame(s, caller, stakeCorrect, now);
    if r.Accept? {
      var c := OngoingCount(s.games);
      if s.waiting.Some? {
        var id := |s.games| + 1;
        var g := NewGame(id, s.waiting.value, caller, now);
        OngoingCountAppend(s.games, g);
        StartBoardLayout();
        assert r.state.games == s.games + [g];
        assert s.wager * (2 * (c + 1)) == s.wager * (2 * c + 1) + s.wager;
      } else {
        assert s.wager * (2 * c + 1) == s.wager * (2 * c) + s.wager;
      }
    }
  }

  lemma MoveValid(s: Contract, caller: Address, id: GameId, from: Byte, to: Byte, now: nat)
    requires Valid(s)
    ensures Move(s, caller, id, from, to, now).Accept? ==> Valid(Move(s, caller, id, from, to, now).state)
  {
    var r := Move(s, caller, id, from, to, now);
    if r.Accept? {
      var g := GameAt(s, id);
      var b := s.boards[id];
      assert Basic(b, g.turn, from, to);
      RelocateCounts(b, from, to);
      OngoingCountUpdate(s.games, id - 1, g.(lastMoveEpoch := now, turn := g.turn.Opponent()));
    }
  }

  lemma DrawValid(s: Contract, caller: Address, id: GameId)
    requires Valid(s)
    ensures Draw(s, caller, id).Accept? ==> Valid(Draw(s, caller, id).state)
  {
    var r := Draw(s, caller, id);
    if r.Accept? && DrawOffer(s, id).Some? && DrawOffer(s, id).value != caller {
      var g := GameAt(s, id);
      FinishValid(s, id, StateFromCode(3), Credit(Credit(s.scores, g.white, 1), g.black, 1), s.drawOffers[id := None]);
    }
  }

  lemma ClaimValid(s: Contract, caller: Address, id: GameId)
    requires Valid(s)
    ensures ClaimIllegal(s, caller, id).Accept? ==> Valid(ClaimIllegal(s, caller, id).state)
  {
    if ClaimIllegal(s, caller, id).Accept? {
      var g := GameAt(s, id);
      FinishValid(s, id, StateFromCode(1 + g.turn.Code()), Credit(s.scores, g.PlayerToMove(), 2), s.drawOffers);
    }
  }

  lemma InactivityValid(s: Contract, caller: Address, id: GameId, now: nat)
    requires Valid(s)
    ensures Inactivity(s, caller, id, now).Accept? ==> Valid(Inactivity(s, caller, id, now).state)
  {
    if Inactivity(s, caller, id, now).Accept? {
      var g := GameAt(s, id);
      FinishValid(s, id, StateFromCode(2 - g.turn.Code()), Credit(s.scores, caller, 2), s.drawOffers);
    }
  }

  lemma ResignValid(s: Contract, caller: Address, id: GameId)
    requires Valid(s)
    ensures ResignGame(s, caller, id).Accept? ==> Valid(ResignGame(s, caller, id).state)
  {
    if ResignGame(s, caller, id).Accept? {
      var g := GameAt(s, id);
      if caller == g.white {
        FinishValid(s, id, StateFromCode(2), Credit(s.scores, g.black, 2), s.drawOffers);
      } else {
        FinishValid(s, id, StateFromCode(1), Credit(s.scores, g.white, 2), s.drawOffers);
      }
    }
  }

  /** Every accepted call keeps the invariant: in particular the balance
      held always equals the open stakes, so it never goes negative and
      every payout is covered. */
  lemma StepPreservesValid(s: Contract, op: Op)
    requires Valid(s)
    ensures Step(s, op).Accept? ==> Valid(Step(s, op).state)
  {
    match op
    case Pause =>
    case Unpause =>
    case Join(caller, stakeCorrect, now) => JoinValid(s, caller, stakeCorrect, now);
    case MakeMove(caller, id, from, to, now) => MoveValid(s, caller, id, from, to, now);
    case OfferDraw(caller, id) => DrawValid(s, caller, id);
    case ClaimIllegalMove(caller, id) => ClaimValid(s, caller, id);
    case SignalInactivity(caller, id, now) => InactivityValid(s, caller, id, now);
    case Resign(caller, id) => ResignValid(s, caller, id);
  }

  // ---------------------------------------------------------------------
  // Scores and tokens

  /** The stored scores move exactly by the credits a call emits, and the
      balance held moves by the stakes received minus the payouts sent; from
      a valid state, the payouts never exceed what is held. */
  lemma StepAccounting(s: Contract, op: Op)
    requires Valid(s)
    ensures Step(s, op).Accept? ==>
      var r := Step(s, op);
      && (forall a :: Score(r.state, a) == Score(s, a) + Credits(r.effects, a))
      && r.state.escrow == s.escrow + Received(r.effects) - Paid(r.effects)
      && Paid(r.effects) <= s.escrow + Received(r.effects)
  {
    var r := Step(s, op);
    if r.Accept? {
      StepPreservesValid(s, op);
      forall a
        ensures Score(r.state, a) == Score(s, a) + Credits(r.effects, a)
      {
        ShortSums(r.effects, a);
      }
      ShortSums(r.effects, 0);
    }
  }

  // ---------------------------------------------------------------------
  // Isolation between games

  /** An accepted call addressed to a game found that game ongoing. */
  lemma TargetWasOngoing(s: Contract, op: Op)
    requires HasBoards(s)
    ensures Step(s, op).Accept? && Target(op).Some? ==> OngoingGame(s, Target(op).value).Success?
  {
  }

  /** Games only grow, and a call leaves every game it is not addressed to
      untouched: its record, its board and its draw offer. */
  lemma OtherGamesUnchanged(s: Contract, op: Op)
    requires HasBoards(s)
    ensures Step(s, op).Accept? ==>
      var s' := Step(s, op).state;
      && |s'.games| >= |s.games|
      && forall j :: GameExists(s, j) && Target(op) != Some(j) ==>
           && GameExists(s', j) && GameAt(s', j) == GameAt(s, j)
           && j in s'.boards && s'.boards[j] == s.boards[j]
           && DrawOffer(s', j) == DrawOffer(s, j)
  {
  }

  /** A finished game is final: every call addressed to it is refused, and
      no other call changes it. */
  lemma TerminalGamesFrozen(s: Contract, op: Op)
    requires HasBoards(s)
    ensures forall j :: Target(op) == Some(j) && GameExists(s, j) && GameAt(s, j).state != Ongoing ==> Step(s, op).Reject?
    ensures Step(s, op).Accept? ==>
      var s' := Step(s, op).state;
      forall j :: GameExists(s, j) && GameAt(s, j).state != Ongoing ==>
        && GameExists(s', j) && GameAt(s', j) == GameAt(s, j)
        && j in s'.boards && s'.boards[j] == s.boards[j]
        && DrawOffer(s', j) == DrawOffer(s, j)
  {
    TargetWasOngoing(s, op);
    OtherGamesUnchanged(s, op);
  }

  /** The owner's calls: the only ones that do not address the players. */
  predicate OwnerCall(op: Op) {
    op.Pause? || op.Unpause?
  }

  /** While the contract is paused, every player call is refused with the
      pause error; only the owner's calls go through. */
  lemma PausedRejectsAll(s: Contract, op: Op)
    requires HasBoards(s) && s.paused
    ensures !OwnerCall(op) ==> Step(s, op) == Reject(Paused)
    ensures Step(s, op).Accept? ==> OwnerCall(op)
  {
  }

  /** The owner's calls are always accepted, emit nothing, and change the
      pause flag alone: `pause` leaves the contract paused and `unpause`
      leaves it active. */
  lemma OwnerCallsOnlyTogglePause(s: Contract, op: Op)
    requires HasBoards(s) && OwnerCall(op)
    ensures Step(s, op).Accept? && Step(s, op).effects == []
    ensures Step(s, op).state.paused <==> op == Pause
    ensures Step(s, op).state.(paused := s.paused) == s
  {
  }

  // ---------------------------------------------------------------------
  // The endpoints one by one

  /** Joining with the correct stake: an empty slot takes the caller; the
      waiting player cannot join again; anyone else starts game
      `len + 1` as Black against the waiting player, on the start board,
      with no draw offer and the slot cleared. Either way the stake is
      received and no game already stored changes. */
  lemma JoinSpec(s: Contract, caller: Address, stakeCorrect: bool, now: nat)
    ensures var r := JoinGame(s, caller, stakeCorrect, now);
      && (r.Accept? <==> !s.paused && stakeCorrect && s.waiting != Some(caller))
      && (!s.paused && stakeCorrect && s.waiting == Some(caller) ==> r == Reject(PlayingYourself))
      && (r.Accept? ==> r.effects == [StakeReceived(caller, s.wager)] && r.state.games[..|s.games|] == s.games)
      && (r.Accept? && s.waiting.None? ==> r.state.waiting == Some(caller) && r.state.games == s.games)
      && (r.Accept? && s.waiting.Some? ==>
            var id := |s.games| + 1;
            && r.state.waiting == None
            && GameExists(r.state, id) && |r.state.games| == id
            && GameAt(r.state, id) == NewGame(id, s.waiting.value, caller, now)
            && r.state.boards[id] == StartBoard
            && DrawOffer(r.state, id) == None)
  {
  }

  /** `make_move` is accepted exactly when the guards pass, the caller has
      the move, the deadline has not passed and the validator accepts; the
      accepted move relocates the piece, hands the turn to the other colour
      and records the epoch, and changes nothing else about the game. */
  lemma MoveSpec(s: Contract, caller: Address, id: GameId, from: Byte, to: Byte, now: nat)
    requires HasBoards(s)
    ensures var r := Move(s, caller, id, from, to, now);
      && (r.Accept? <==>
            && OngoingGame(s, id).Success?
            && caller == GameAt(s, id).PlayerToMove()
            && now <= GameAt(s, id).lastMoveEpoch + 1
            && ValidateMove(s.boards[id], GameAt(s, id).turn, from, to).Success?)
      && (r.Accept? ==>
            var g, b, b' := GameAt(s, id), s.boards[id], r.state.boards[id];
            && Basic(b, g.turn, from, to)
            && b'[to] == b[from] && b'[from] == Empty
            && (forall i :: 0 <= i < 64 && i != from && i != to ==> b'[i] == b[i])
            && GameAt(r.state, id).turn == g.turn.Opponent()
            && GameAt(r.state, id).lastMoveEpoch == now
            && GameAt(r.state, id).state == Ongoing
            && GameAt(r.state, id).white == g.white && GameAt(r.state, id).black == g.black
            && r.state.drawOffers == s.drawOffers && r.state.scores == s.scores
            && r.state.waiting == s.waiting && r.state.escrow == s.escrow
            && r.effects == [])
  {
  }

  /** At every epoch exactly one side can act on the clock: either the
      player to move is still in time, or the other player may claim
      inactivity. */
  lemma DeadlineComplementarity(s: Contract, id: GameId, from: Byte, to: Byte, now: nat)
    requires Valid(s) && OngoingGame(s, id).Success?
    ensures var g := GameAt(s, id);
      var mover, waiter := g.PlayerToMove(), g.PlayerOf(g.turn.Opponent());
      (Move(s, mover, id, from, to, now) != Reject(TooLate) <==> !Inactivity(s, waiter, id, now).Accept?)
  {
    var g := GameAt(s, id);
    assert g.white != g.black;
  }

  /** Offering and accepting draws. Without a pending offer the caller's
      offer is stored; repeating one's own offer changes nothing; the other
      participant's offer is accepted: the offer is cleared, the game ends
      drawn with no winner, each player gets one stake back and one point. */
  lemma DrawSpec(s: Contract, caller: Address, id: GameId)
    requires Valid(s)
    ensures var r := Draw(s, caller, id);
      && (r.Accept? <==> OngoingGame(s, id).Success? && GameAt(s, id).IsParticipant(caller))
      && (r.Accept? && DrawOffer(s, id).None? ==>
            && DrawOffer(r.state, id) == Some(caller)
            && r.state.games == s.games && r.effects == [])
      && (r.Accept? && DrawOffer(s, id) == Some(caller) ==> r == Accept(s, []))
      && (r.Accept? && DrawOffer(s, id).Some? && DrawOffer(s, id) != Some(caller) ==>
            var g := GameAt(s, id);
            && DrawOffer(r.state, id) == None
            && GameAt(r.state, id).state == Drawn
            && Winner(GameAt(r.state, id).state) == None
            && PaidTo(r.effects, g.white) == s.wager && PaidTo(r.effects, g.black) == s.wager
            && Paid(r.effects) == 2 * s.wager
            && Credits(r.effects, g.white) == 1 && Credits(r.effects, g.black) == 1)
  {
    var r := Draw(s, caller, id);
    if r.Accept? && DrawOffer(s, id).Some? && DrawOffer(s, id) != Some(caller) {
      var g := GameAt(s, id);
      assert g.white != g.black;
      ShortSums(r.effects, g.white);
      ShortSums(r.effects, g.black);
    }
  }

  /** The illegal-move claim succeeds exactly for the player to move when
      the check requirement holds for the colour that just moved; that
      player's colour wins and they receive both stakes and two points. */
  lemma ClaimSpec(s: Contract, caller: Address, id: GameId)
    requires HasBoards(s)
    ensures var r := ClaimIllegal(s, caller, id);
      && (r.Accept? <==>
            && OngoingGame(s, id).Success?
            && caller == GameAt(s, id).PlayerToMove()
            && KingInCheck(s.boards[id], GameAt(s, id).turn.Opponent()).Pass?)
      && (r.Accept? ==>
            var g := GameAt(s, id);
            && Winner(GameAt(r.state, id).state) == Some(g.turn)
            && g.PlayerOf(g.turn) == caller
            && PaidTo(r.effects, caller) == 2 * s.wager && Paid(r.effects) == 2 * s.wager
            && Credits(r.effects, caller) == 2
            && r.state.boards == s.boards)
  {
    var r := ClaimIllegal(s, caller, id);
    if r.Accept? {
      ShortSums(r.effects, caller);
    }
  }

  /** The inactivity claim succeeds exactly for the participant not to move
      once more than one epoch has passed since the last move; the
      claimer's colour wins and they receive both stakes and two points. */
  lemma InactivitySpec(s: Contract, caller: Address, id: GameId, now: nat)
    ensures var r := Inactivity(s, caller, id, now);
      && (r.Accept? <==>
            && OngoingGame(s, id).Success?
            && GameAt(s, id).IsParticipant(caller)
            && caller != GameAt(s, id).PlayerToMove()
            && now > GameAt(s, id).lastMoveEpoch + 1)
      && (r.Accept? ==>
            var g := GameAt(s, id);
            && Winner(GameAt(r.state, id).state) == Some(g.turn.Opponent())
            && g.PlayerOf(g.turn.Opponent()) == caller
            && PaidTo(r.effects, caller) == 2 * s.wager && Paid(r.effects) == 2 * s.wager
            && Credits(r.effects, caller) == 2
            && r.state.boards == s.boards)
  {
    var r := Inactivity(s, caller, id, now);
    if r.Accept? {
      ShortSums(r.effects, caller);
    }
  }

  /** Resigning is open to either participant at any time; the other
      colour wins and the other player receives both stakes and two
      points. */
  lemma ResignSpec(s: Contract, caller: Address, id: GameId)
    requires Valid(s)
    ensures var r := ResignGame(s, caller, id);
      && (r.Accept? <==> OngoingGame(s, id).Success? && GameAt(s, id).IsParticipant(caller))
      && (r.Accept? ==>
            var g := GameAt(s, id);
            var loser := if caller == g.white then White else Black;
            var winner := g.PlayerOf(loser.Opponent());
            && g.PlayerOf(loser) == caller && winner != caller
            && Winner(GameAt(r.state, id).state) == Some(loser.Opponent())
            && PaidTo(r.effects, winner) == 2 * s.wager && Paid(r.effects) == 2 * s.wager
            && Credits(r.effects, winner) == 2 && Credits(r.effects, caller) == 0
            && r.state.boards == s.boards)
  {
    var r := ResignGame(s, caller, id);
    if r.Accept? {
      var g := GameAt(s, id);
      assert g.white != g.black;
      ShortSums(r.effects, caller);
      ShortSums(r.effects, g.white);
      ShortSums(r.effects, g.black);
    }
  }

  // ---------------------------------------------------------------------
  // Runs of calls

  /** The state after a sequence of calls, each applied to the state the
      previous accepted call left; a rejected call changes nothing. */
  ghost function Run(s: Contract, ops: seq<Op>): (r: Contract)
    requires Valid(s)
    ensures Valid(r)
    decreases |ops|
  {
    if ops == [] then s
    else
      var r := Step(s, ops[0]);
      if r.Reject? then Run(s, ops[1..])
      else
        StepPreservesValid(s, ops[0]);
        Run(r.state, ops[1..])
  }

  /** One step of a run. */
  lemma RunStep(s: Contract, ops: seq<Op>)
    requires Valid(s) && ops != []
    ensures Step(s, ops[0]).Accept? ==> Valid(Step(s, ops[0]).state)
    ensures Run(s, ops) == Run(if Step(s, ops[0]).Reject? then s else Step(s, ops[0]).state, ops[1..])
  {
    StepPreservesValid(s, ops[0]);
  }

  /** A player alone can never end a game in a draw: however often they
      call `draw`, the game stays ongoing as long as the other player's
      offer is not pending. */
  lemma {:induction false} DrawNeedsTwoParticipants(s: Contract, a: Address, id: GameId, ops: seq<Op>)
    requires Valid(s) && GameExists(s, id) && GameAt(s, id).state == Ongoing
    requires DrawOffer(s, id) == None || DrawOffer(s, id) == Some(a)
    requires forall i :: 0 <= i < |ops| ==> ops[i] == OfferDraw(a, id)
    ensures GameExists(Run(s, ops), id) && GameAt(Run(s, ops), id).state == Ongoing
    decreases |ops|
  {
    if ops != [] {
      RunStep(s, ops);
      var r := Step(s, ops[0]);
      var next := if r.Reject? then s else r.state;
      DrawNeedsTwoParticipants(next, a, id, ops[1..]);
    }
  }

  /** The board holds no more pieces of any code than the start board. */
  ghost predicate BoundedByStart(b: Board) {
    forall c: Byte | c != Empty :: CodeCount(b, c) <= CodeCount(StartBoard, c)
  }

  /** No stored board holds more pieces of any code than the start board. */
  ghost predicate StartBounded(s: Contract) {
    forall j | GameExists(s, j) && j in s.boards :: BoundedByStart(s.boards[j])
  }

  /** A relocation of a piece keeps a board within the start counts. */
  lemma RelocateBounded(b: Board, from: nat, to: nat)
    requires from < 64 && to < 64 && from != to && b[from] != Empty
    requires BoundedByStart(b)
    ensures BoundedByStart(Relocate(b, from, to))
  {
    RelocateCounts(b, from, to);
  }

  /** A move only relocates a piece on the board of its game. */
  lemma MoveStaysStartBounded(s: Contract, caller: Address, id: GameId, from: Byte, to: Byte, now: nat)
    requires Valid(s) && StartBounded(s)
    ensures Move(s, caller, id, from, to, now).Accept? ==> StartBounded(Move(s, caller, id, from, to, now).state)
  {
    var r := Move(s, caller, id, from, to, now);
    if r.Accept? {
      var b := s.boards[id];
      assert Basic(b, GameAt(s, id).turn, from, to);
      assert r.state.boards == s.boards[id := Relocate(b, from, to)];
      assert |r.state.games| == |s.games|;
      RelocateBounded(b, from, to);
    }
  }

  /** A new game's board is the start board. */
  lemma JoinStaysStartBounded(s: Contract, caller: Address, stakeCorrect: bool, now: nat)
    requires Valid(s) && StartBounded(s)
    ensures JoinGame(s, caller, stakeCorrect, now).Accept? ==> StartBounded(JoinGame(s, caller, stakeCorrect, now).state)
  {
    var r := JoinGame(s, caller, stakeCorrect, now);
    if r.Accept? {
      var s' := r.state;
      forall j | GameExists(s', j) && j in s'.boards
        ensures BoundedByStart(s'.boards[j])
      {
        if j == |s.games| + 1 {
          assert s'.boards[j] == StartBoard;
        } else {
          assert GameExists(s, j) && s'.boards[j] == s.boards[j];
        }
      }
    }
  }

  /** Calls never add a piece to a board: a move can only remove the piece
      it captures, a new game starts from the start board, and the other
      calls leave every board alone. */
  lemma StepStaysStartBounded(s: Contract, op: Op)
    requires Valid(s) && StartBounded(s)
    ensures Step(s, op).Accept? ==> StartBounded(Step(s, op).state)
  {
    var r := Step(s, op);
    if r.Accept? {
      match op
      case Join(caller, stakeCorrect, now) => JoinStaysStartBounded(s, caller, stakeCorrect, now);
      case MakeMove(caller, id, from, to, now) => MoveStaysStartBounded(s, caller, id, from, to, now);
      case _ => assert r.state.boards == s.boards && |r.state.games| == |s.games|;
    }
  }

  /** Along any run, no board ever holds more pieces of a code than the
      start board: in particular no pawn is ever promoted to a second
      queen. */
  lemma {:induction false} NoPieceEverAdded(s: Contract, ops: seq<Op>)
    requires Valid(s) && StartBounded(s)
    ensures StartBounded(Run(s, ops))
    decreases |ops|
  {
    if ops != [] {
      RunStep(s, ops);
      StepStaysStartBounded(s, ops[0]);
      var r := Step(s, ops[0]);
      var next := if r.Reject? then s else r.state;
      NoPieceEverAdded(next, ops[1..]);
    }
  }

  /** From deployment on, every board holds at most one queen of each
      colour, whatever calls are made. (`GamesAreReachable` shows that
      runs from deployment do create games.) */
  lemma NoPromotionEver(wager: nat, ops: seq<Op>)
    ensures var s := Run(Init(wager), ops);
      forall j | GameExists(s, j) && j in s.boards ::
        CodeCount(s.boards[j], WhiteQueen) <= 1 && CodeCount(s.boards[j], BlackQueen) <= 1
  {
    InitValid(wager);
    NoPieceEverAdded(Init(wager), ops);
    StartBoardQueens();
  }

  /** Runs from deployment reach games: once the owner unpauses, two
      different players joining with the correct stake start game 1 on the
      start board. */
  lemma GamesAreReachable(wager: nat, a: Address, b: Address)
    requires a != b
    ensures var s := Run(Init(wager), [Unpause, Join(a, true, 0), Join(b, true, 0)]);
      && GameExists(s, 1) && GameAt(s, 1).white == a && GameAt(s, 1).black == b
      && GameAt(s, 1).state == Ongoing && 1 in s.boards && s.boards[1] == StartBoard
  {
    var ops := [Unpause, Join(a, true, 0), Join(b, true, 0)];
    var s0 := Init(wager);
    InitValid(wager);
    RunStep(s0, ops);
    var s1 := s0.(paused := false);
    assert ops[1..] == [Join(a, true, 0), Join(b, true, 0)];
    RunStep(s1, ops[1..]);
    var s2 := s1.(waiting := Some(a), escrow := s1.escrow + wager);
    assert ops[1..][1..] == [Join(b, true, 0)];
    RunStep(s2, ops[1..][1..]);
    assert ops[1..][1..][1..] == [];
  }
}
