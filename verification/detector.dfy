/** The check detector, `require_king_in_check`: the requirement an
    illegal-move claim rests on. It looks for the king of the side that has
    just moved and passes when that king is attacked, or when there is no
    such king at all. Every probe is written as the source writes it. */
module CheckDetector {
  import opened Wrappers
  import opened Board

  datatype CheckError = KingNotInCheck   // "King is not in check"

  /** The code of the king being examined: 0 for White, 7 for Black. */
  function KingCode(moved: Color): Byte {
    if moved.Code() == 0 then WhiteKing else BlackKing
  }

  /** The source's offset from a White code to the opponent's code of the
      same kind: 7 when White has moved, 0 when Black has. */
  function Stabilizer(moved: Color): nat {
    7 * (1 - moved.Code())
  }

  /** The first index at or after `i` that holds `code`, as the source's
      search loop with its early `break`. */
  function FindCode(b: Board, code: Byte, i: nat): (r: Option<nat>)
    requires i <= 64
    ensures r.Some? ==> i <= r.value < 64 && b[r.value] == code
    ensures r.Some? ==> forall j :: i <= j < r.value ==> b[j] != code
    ensures r.None? ==> forall j :: i <= j < 64 ==> b[j] != code
    decreases 64 - i
  {
    if i == 64 then None
    else if b[i] == code then Some(i)
    else FindCode(b, code, i + 1)
  }

  /** One sliding-piece loop: step `i` looks at the square `i` steps from
      the king in direction (dx, dy), starting with `i = 0`, the king's own
      square. It stops off the board, flags check on code `a` or `c`, and
      stops on any other non-empty square. */
  function Ray(b: Board, kx: int, ky: int, dx: int, dy: int, i: nat, a: int, c: int): bool
    requires OnBoard(kx) && OnBoard(ky)
    decreases 8 - i
  {
    if i >= 8 then false
    else
      var x, y := Offset(kx, dx, i), Offset(ky, dy, i);
      if !(OnBoard(x) && OnBoard(y)) then false
      else if b[x + y * 8] == a || b[x + y * 8] == c then true
      else if b[x + y * 8] != Empty then false
      else Ray(b, kx, ky, dx, dy, i + 1, a, c)
  }

  /** The eight sliding-piece loops: four rook/queen rays along the file and
      rank, then four bishop/queen rays along the diagonals. */
  predicate SlidingCheck(b: Board, kx: int, ky: int, stab: nat)
    requires OnBoard(kx) && OnBoard(ky)
  {
    || Ray(b, kx, ky, 1, 0, 0, 2 + stab, 1 + stab)
    || Ray(b, kx, ky, -1, 0, 0, 2 + stab, 1 + stab)
    || Ray(b, kx, ky, 0, 1, 0, 2 + stab, 1 + stab)
    || Ray(b, kx, ky, 0, -1, 0, 2 + stab, 1 + stab)
    || Ray(b, kx, ky, 1, 1, 0, 3 + stab, 1 + stab)
    || Ray(b, kx, ky, -1, -1, 0, 3 + stab, 1 + stab)
    || Ray(b, kx, ky, 1, -1, 0, 3 + stab, 1 + stab)
    || Ray(b, kx, ky, -1, 1, 0, 3 + stab, 1 + stab)
  }

  /** One bounds-checked probe: the square (kx + ox, ky + oy) is on the
      board and holds `code`. */
  predicate Probe(b: Board, kx: int, ky: int, ox: int, oy: int, code: int) {
    var x, y := kx + ox, ky + oy;
    OnBoard(x) && OnBoard(y) && b[x + y * 8] == code
  }

  /** The eight knight probes. */
  predicate KnightCheck(b: Board, kx: int, ky: int, stab: nat) {
    || Probe(b, kx, ky, 1, 2, 4 + stab)
    || Probe(b, kx, ky, 2, 1, 4 + stab)
    || Probe(b, kx, ky, 2, -1, 4 + stab)
    || Probe(b, kx, ky, 1, -2, 4 + stab)
    || Probe(b, kx, ky, -1, -2, 4 + stab)
    || Probe(b, kx, ky, -2, -1, 4 + stab)
    || Probe(b, kx, ky, -2, 1, 4 + stab)
    || Probe(b, kx, ky, -1, 2, 4 + stab)
  }

  /** The two pawn probes, toward rank 0 for a White king and toward rank 7
      for a Black one. */
  predicate PawnCheck(b: Board, kx: int, ky: int, moved: Color, stab: nat) {
    if moved.Code() == 0 then
      Probe(b, kx, ky, -1, -1, 5 + stab) || Probe(b, kx, ky, 1, -1, 5 + stab)
    else
      Probe(b, kx, ky, -1, 1, 5 + stab) || Probe(b, kx, ky, 1, 1, 5 + stab)
  }

  /** The nine enemy-king probes: the four diagonal neighbours, then five of
      the knight offsets. */
  predicate KingProbe(b: Board, kx: int, ky: int, stab: nat) {
    || Probe(b, kx, ky, -1, -1, stab)
    || Probe(b, kx, ky, 1, -1, stab)
    || Probe(b, kx, ky, -1, 1, stab)
    || Probe(b, kx, ky, 1, 1, stab)
    || Probe(b, kx, ky, 1, 2, stab)
    || Probe(b, kx, ky, 2, 1, stab)
    || Probe(b, kx, ky, 2, -1, stab)
    || Probe(b, kx, ky, 1, -2, stab)
    || Probe(b, kx, ky, -1, -2, stab)
  }

  /** `require_king_in_check(player_that_moved)`: passes when the mover has
      no king on the board, and otherwise exactly when one of the probes
      from the first such king flags check. */
  function KingInCheck(b: Board, moved: Color): Outcome<CheckError> {
    match FindCode(b, KingCode(moved), 0)
    case None => Pass
    case Some(k) =>
      var kx, ky, stab := k % 8, k / 8, Stabilizer(moved);
      Require(
        || SlidingCheck(b, kx, ky, stab)
        || KnightCheck(b, kx, ky, stab)
        || PawnCheck(b, kx, ky, moved, stab)
        || KingProbe(b, kx, ky, stab),
        KingNotInCheck)
  }
}
