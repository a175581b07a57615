/** The move validator: `require_is_valid_move` and its per-piece helpers.
    Each helper is a requirement that passes or fails with the message the
    contract aborts with. Coordinates are the source's `u8` file and rank
    values, so they lie in 0..7 once `from` and `to` are on the board. */
module MoveValidator {
  import opened Wrappers
  import opened Board

  /** Why a move is refused. `FromOffBoard` stands for the index panic at
      `board[from]`, which aborts the call like a failed requirement. */
  datatype MoveError =
    | ToOffBoard          // "Move is not on the board"
    | NothingMoved        // "You did not move anything"
    | FromOffBoard        // out-of-range `from` index
    | InvalidMove         // wrong colour moved, own piece captured, or no piece kind
    | InvalidKingMove
    | InvalidRookMove
    | InvalidBishopMove
    | InvalidKnightMove
    | InvalidPawnMove

  function Min(a: int, b: int): int {
    if a <= b then a else b
  }

  function Max(a: int, b: int): int {
    if a <= b then b else a
  }

  /** Unsigned byte subtraction, modelled with wrap-around: a result below
      zero is taken modulo 256. A build that aborts on the underflow
      instead reaches the same decision (`UnderflowOnlyRejects`). */
  function SubU8(a: Byte, b: Byte): Byte {
    (a - b) % 256
  }

  /** King: at most one step along each axis. */
  function KingMove(fx: int, fy: int, tx: int, ty: int): Outcome<MoveError> {
    Require(Abs(fx - tx) <= 1 && Abs(fy - ty) <= 1, InvalidKingMove)
  }

  /** Knight: the displacements add up to three and neither is zero. */
  function KnightMove(fx: int, fy: int, tx: int, ty: int): Outcome<MoveError> {
    Require(Abs(fx - tx) + Abs(fy - ty) == 3 && fy != ty && fx != tx, InvalidKnightMove)
  }

  /** The rook's loop over the ranks `y .. maxY - 1` of file `x`: every
      visited cell must be empty. */
  function FileScan(b: Board, x: int, y: int, maxY: int): Outcome<MoveError>
    requires OnBoard(x) && 0 <= y && maxY <= 8
    decreases maxY - y
  {
    if y >= maxY then Pass
    else if b[x + y * 8] != Empty then Fail(InvalidRookMove)
    else FileScan(b, x, y + 1, maxY)
  }

  /** The rook's loop over the files `x .. maxX - 1` of rank `y`. */
  function RankScan(b: Board, y: int, x: int, maxX: int): Outcome<MoveError>
    requires OnBoard(y) && 0 <= x && maxX <= 8
    decreases maxX - x
  {
    if x >= maxX then Pass
    else if b[x + y * 8] != Empty then Fail(InvalidRookMove)
    else RankScan(b, y, x + 1, maxX)
  }

  /** Rook: stays on one file or rank, and every square strictly between the
      two ends is empty. */
  function RookMove(b: Board, fx: int, fy: int, tx: int, ty: int): Outcome<MoveError>
    requires OnBoard(fx) && OnBoard(fy) && OnBoard(tx) && OnBoard(ty)
  {
    if !(fx == tx || fy == ty) then Fail(InvalidRookMove)
    else if fx == tx then FileScan(b, tx, Min(fy, ty) + 1, Max(fy, ty))
    else RankScan(b, ty, Min(fx, tx) + 1, Max(fx, tx))
  }

  /** The bishop's loop: starting from (x, y) it steps both coordinates up
      by one while `x < maxX - 1`, and each square it reaches must be
      empty. It always walks up-and-right, whatever the move's direction. */
  function BishopWalk(b: Board, x: int, y: int, maxX: int): Outcome<MoveError>
    requires 0 <= x && 0 <= y && maxX <= 8 && y + maxX - x <= 8
    decreases maxX - x
  {
    if x < maxX - 1 then
      if b[(x + 1) + (y + 1) * 8] != Empty then Fail(InvalidBishopMove)
      else BishopWalk(b, x + 1, y + 1, maxX)
    else Pass
  }

  /** Bishop: equal displacements, then the walk from the lower-left corner
      of the move's bounding box. The source computes `max_x - 1` on a byte,
      so it is never called with the origin equal to the destination. */
  function BishopMove(b: Board, fx: int, fy: int, tx: int, ty: int): Outcome<MoveError>
    requires OnBoard(fx) && OnBoard(fy) && OnBoard(tx) && OnBoard(ty)
    requires fx != tx || fy != ty
  {
    if Abs(fx - tx) != Abs(fy - ty) then Fail(InvalidBishopMove)
    else BishopWalk(b, Min(fx, tx), Min(fy, ty), Max(fx, tx))
  }

  /** Queen: the rook rule on a file or rank, the bishop rule on equal
      displacements, and no requirement at all otherwise. */
  function QueenMove(b: Board, fx: int, fy: int, tx: int, ty: int): Outcome<MoveError>
    requires OnBoard(fx) && OnBoard(fy) && OnBoard(tx) && OnBoard(ty)
  {
    if fx == tx || fy == ty then RookMove(b, fx, fy, tx, ty)
    else if Abs(fx - tx) == Abs(fy - ty) then BishopMove(b, fx, fy, tx, ty)
    else Pass
  }

  /** Pawn: returns the helper's own copy of the board, which receives the
      promotion write (a White queen code on the origin) when the pawn
      reaches its last rank. The copy is a by-value parameter in the source
      and never reaches storage. */
  function PawnMove(b: Board, color: Color, fx: Byte, fy: Byte, tx: Byte, ty: Byte): Result<Board, MoveError>
    requires OnBoard(fx) && OnBoard(fy) && OnBoard(tx) && OnBoard(ty)
  {
    var target := b[tx + ty * 8];
    if color == White then
      if (fy == ty + 1 && fx == tx && target == Empty)
         || (fy == ty + 1 && (fx == tx + 1 || fx == SubU8(tx, 1)) && target > Empty)
         || (fy == 6 && ty == 4 && fx == tx && target == Empty && b[tx + 5 * 8] == Empty)
      then Success(if ty == 0 then b[fx + fy * 8 := WhiteQueen] else b)
      else Failure(InvalidPawnMove)
    else
      if (fy == SubU8(ty, 1) && fx == tx && target == Empty)
         || (fy == SubU8(ty, 1) && (fx == tx + 1 || fx == SubU8(tx, 1)) && target < Empty)
         || (fy == 1 && ty == 3 && fx == tx && target == Empty && b[tx + 2 * 8] == Empty)
      then Success(if ty == 7 then b[fx + fy * 8 := WhiteQueen] else b)
      else Failure(InvalidPawnMove)
  }

  /** The basic conditions every accepted move meets: both squares on the
      board and distinct, the moving code belongs to the side to move, and
      the destination does not. */
  predicate Basic(b: Board, color: Color, from: int, to: int) {
    && 0 <= from < 64 && 0 <= to < 64 && from != to
    && Belongs(b[from], color) && !Belongs(b[to], color)
  }

  /** The board the validator leaves in storage when a requirement passes:
      the one it was given. */
  function Keep(b: Board, o: Outcome<MoveError>): Result<Board, MoveError> {
    if o.Pass? then Success(b) else Failure(o.error)
  }

  /** The dispatch on `piece % 7` once the basic conditions hold. */
  function ByKind(b: Board, color: Color, from: Byte, to: Byte): (r: Result<Board, MoveError>)
    requires from < 64 && to < 64 && from != to
    ensures r.Success? ==> r.value == b
  {
    var piece := b[from];
    var fx, fy, tx, ty := from % 8, from / 8, to % 8, to / 8;
    match piece % 7
    case 0 => Keep(b, KingMove(fx, fy, tx, ty))
    case 1 => Keep(b, QueenMove(b, fx, fy, tx, ty))
    case 2 => Keep(b, RookMove(b, fx, fy, tx, ty))
    case 3 => Keep(b, BishopMove(b, fx, fy, tx, ty))
    case 4 => Keep(b, KnightMove(fx, fy, tx, ty))
    case 5 =>
      (match PawnMove(b, color, fx, fy, tx, ty)
       case Failure(e) => Failure(e)
       case Success(_) => Success(b))
    case _ => Failure(InvalidMove)
  }

  /** `require_is_valid_move`: the result on success is the board in storage
      after validation. The pawn branch stores the board it read before
      calling the pawn helper, so the helper's promotion write is lost. */
  function ValidateMove(b: Board, color: Color, from: Byte, to: Byte): (r: Result<Board, MoveError>)
    ensures r.Success? ==> r.value == b
    ensures r.Success? ==> Basic(b, color, from, to)
    ensures to >= 64 ==> r == Failure(ToOffBoard)
    ensures to < 64 && to == from ==> r == Failure(NothingMoved)
    ensures to < 64 && to != from && from >= 64 ==> r == Failure(FromOffBoard)
  {
    if to >= 64 then Failure(ToOffBoard)
    else if to == from then Failure(NothingMoved)
    else if from >= 64 then Failure(FromOffBoard)
    else
      var piece := b[from];
      if !((color == White && piece < 6 && b[to] >= 6) || (color == Black && piece > 6 && b[to] <= 6)) then
        Failure(InvalidMove)
      else
        ByKind(b, color, from, to)
  }
}
