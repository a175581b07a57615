/** The contract's stored state: the `Game` record and the keyed storage
    mappers, gathered into one immutable value. */
module Storage {
  import opened Wrappers
  import opened Board

  /** An account address; only equality between addresses matters. */
  type Address = nat

  /** Games are numbered from 1 in order of creation. */
  type GameId = nat

  /** The `state` byte of a game: 0 ongoing, 1 White won, 2 Black won,
      3 draw. */
  datatype GameState = Ongoing | WhiteWon | BlackWon | Drawn {
    function Code(): (c: nat)
      ensures c <= 3
      ensures c == 0 <==> this == Ongoing
    {
      match this
      case Ongoing => 0
      case WhiteWon => 1
      case BlackWon => 2
      case Drawn => 3
    }
  }

  /** The state a stored byte stands for. */
  function StateFromCode(code: int): (st: GameState)
    requires 0 <= code <= 3
    ensures st.Code() == code
  {
    if code == 0 then Ongoing
    else if code == 1 then WhiteWon
    else if code == 2 then BlackWon
    else Drawn
  }

  /** The colour that won a finished game, if any. */
  function Winner(st: GameState): Option<Color> {
    match st
    case WhiteWon => Some(White)
    case BlackWon => Some(Black)
    case _ => None
  }

  datatype Game = Game(
    id: GameId,
    white: Address,
    black: Address,
    turn: Color,
    lastMoveEpoch: nat,
    state: GameState)
  {
    /** The address playing the given colour. */
    function PlayerOf(c: Color): Address {
      if c == White then white else black
    }

    /** The address whose move it is, chosen on `player_turn == 0`. */
    function PlayerToMove(): (p: Address)
      ensures p == PlayerOf(turn)
    {
      if turn.Code() == 0 then white else black
    }

    predicate IsParticipant(a: Address) {
      a == white || a == black
    }
  }

  /** `Game::new`: the given id, players and epoch; White to move and the
      game ongoing. */
  function NewGame(id: GameId, white: Address, black: Address, epoch: nat): (g: Game)
    ensures g.id == id && g.white == white && g.black == black && g.lastMoveEpoch == epoch
    ensures g.turn.Code() == 0 && g.PlayerToMove() == white
    ensures g.state.Code() == 0
  {
    Game(id, white, black, White, epoch, Ongoing)
  }

  /** All storage the core reads and writes. `games` is the vector of
      games, entry `id - 1` holding game `id`; boards, draw offers and scores
      are keyed mappers, absent keys reading as the empty value. `escrow`
      is the wager-token balance the contract holds for its players: it is
      not a storage entry but the balance the payouts are sent from. */
  datatype Contract = Contract(
    paused: bool,
    wager: nat,
    waiting: Option<Address>,
    games: seq<Game>,
    boards: map<GameId, Board>,
    drawOffers: map<GameId, Option<Address>>,
    scores: map<Address, nat>,
    escrow: int)

  /** The state right after deployment, once the wager is set: paused, no
      one waiting, no games. */
  function Init(wager: nat): (s: Contract)
    ensures s.paused && s.waiting == None && s.games == [] && s.escrow == 0
    ensures forall a :: Score(s, a) == 0
  {
    Contract(true, wager, None, [], map[], map[], map[], 0)
  }

  /** The `score` view: an unset score reads as zero. */
  function Score(s: Contract, a: Address): nat {
    if a in s.scores then s.scores[a] else 0
  }

  /** The `drawOffer` view: an unset offer reads as none. */
  function DrawOffer(s: Contract, id: GameId): Option<Address> {
    if id in s.drawOffers then s.drawOffers[id] else None
  }

  /** `require_game_exists`: the id is one of the games created so far.
      Games are never removed, so no entry of the vector is ever empty. */
  predicate GameExists(s: Contract, id: int) {
    1 <= id <= |s.games|
  }

  function GameAt(s: Contract, id: int): Game
    requires GameExists(s, id)
  {
    s.games[id - 1]
  }

  /** Adds `points` to a player's score. */
  function Credit(scores: map<Address, nat>, a: Address, points: nat): (r: map<Address, nat>)
    ensures a in r && r[a] == (if a in scores then scores[a] else 0) + points
    ensures forall other :: other != a ==> (other in r <==> other in scores)
    ensures forall other :: other != a && other in scores ==> r[other] == scores[other]
  {
    scores[a := (if a in scores then scores[a] else 0) + points]
  }

  /** The number of games still being played. */
  function OngoingCount(gs: seq<Game>): nat
  {
    if gs == [] then 0
    else OngoingCount(gs[..|gs| - 1]) + (if gs[|gs| - 1].state == Ongoing then 1 else 0)
  }

  /** The stake the contract must hold: two wagers per ongoing game and one
      for the player in the waiting slot. */
  function StakesHeld(s: Contract): nat {
    s.wager * (2 * OngoingCount(s.games) + (if s.waiting.Some? then 1 else 0))
  }

  /** Every created game has a stored board: `join_game` writes it together
      with the game. */
  predicate HasBoards(s: Contract) {
    forall id: int | 1 <= id <= |s.games| :: id in s.boards
  }

  /** What every reachable state satisfies: games are numbered by position,
      nobody plays against themselves, every game has a board holding only
      piece codes, and the balance held is exactly the open stakes. */
  ghost predicate Valid(s: Contract) {
    && (forall i :: 0 <= i < |s.games| ==> s.games[i].id == i + 1)
    && (forall i :: 0 <= i < |s.games| ==> s.games[i].white != s.games[i].black)
    && HasBoards(s)
    && (forall id :: GameExists(s, id) && id in s.boards ==> WellCoded(s.boards[id]))
    && s.escrow == StakesHeld(s)
  }

  /** Appending a game adds one to the count when it is ongoing. */
  lemma OngoingCountAppend(gs: seq<Game>, g: Game)
    ensures OngoingCount(gs + [g]) == OngoingCount(gs) + (if g.state == Ongoing then 1 else 0)
  {
    assert (gs + [g])[..|gs|] == gs;
  }

  /** Replacing one game changes the count by the change in that game's
      ongoing status. */
  lemma {:induction false} OngoingCountUpdate(gs: seq<Game>, i: nat, g: Game)
    requires i < |gs|
    ensures OngoingCount(gs[i := g]) + (if gs[i].state == Ongoing then 1 else 0)
         == OngoingCount(gs) + (if g.state == Ongoing then 1 else 0)
    decreases |gs|
  {
    var last := |gs| - 1;
    if i == last {
      assert gs[i := g][..last] == gs[..last];
    } else {
      assert gs[i := g][..last] == gs[..last][i := g];
      OngoingCountUpdate(gs[..last], i, g);
    }
  }

  /** The initial state is valid. */
  lemma InitValid(wager: nat)
    ensures Valid(Init(wager))
  {
  }
}
