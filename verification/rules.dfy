/** Reference movement rules, written independently of the contract's code:
    the piece movements of Article 3 of the FIDE Laws of Chess, without
    castling, en passant and promotion, and without any check test. The
    validator is compared against these definitions. */
module ChessRules {
  import opened Board

  /** Displacement along the file axis and the rank axis. */
  function Dx(from: nat, to: nat): int { X(to) - X(from) }
  function Dy(from: nat, to: nat): int { Y(to) - Y(from) }

  function Sign(v: int): int {
    if v > 0 then 1 else if v < 0 then -1 else 0
  }

  /** The number of king steps between the two squares. */
  function Distance(from: nat, to: nat): nat {
    if Abs(Dx(from, to)) >= Abs(Dy(from, to)) then Abs(Dx(from, to)) else Abs(Dy(from, to))
  }

  /** Every square 1 .. n-1 steps from (x0, y0) in direction (sx, sy) is on
      the board and empty. */
  predicate RayClear(b: Board, x0: int, y0: int, sx: int, sy: int, n: int) {
    forall k :: 1 <= k < n ==> EmptyAt(b, Offset(x0, sx, k), Offset(y0, sy, k))
  }

  /** Every square strictly between `from` and `to` on the line joining
      them is empty. */
  predicate PathClear(b: Board, from: nat, to: nat) {
    RayClear(b, X(from), Y(from), Sign(Dx(from, to)), Sign(Dy(from, to)), Distance(from, to))
  }

  predicate KingStep(from: nat, to: nat) {
    from != to && Abs(Dx(from, to)) <= 1 && Abs(Dy(from, to)) <= 1
  }

  predicate KnightJump(from: nat, to: nat) {
    || (Abs(Dx(from, to)) == 1 && Abs(Dy(from, to)) == 2)
    || (Abs(Dx(from, to)) == 2 && Abs(Dy(from, to)) == 1)
  }

  /** Along one file or one rank. */
  predicate Straight(from: nat, to: nat) {
    from != to && (Dx(from, to) == 0 || Dy(from, to) == 0)
  }

  /** Along a diagonal. */
  predicate Diagonal(from: nat, to: nat) {
    Dx(from, to) != 0 && Abs(Dx(from, to)) == Abs(Dy(from, to))
  }

  /** Along a diagonal on which file and rank grow together (or shrink
      together), as opposed to an anti-diagonal. */
  predicate MainDiagonal(from: nat, to: nat) {
    Diagonal(from, to) && (Dx(from, to) > 0 <==> Dy(from, to) > 0)
  }

  /** Pawn movement: one step forward onto an empty square, one step
      diagonally forward onto an opposing piece, or two steps forward from
      the home rank across two empty squares. White moves toward rank 0. */
  predicate PawnStep(b: Board, color: Color, from: nat, to: nat)
    requires from < 64 && to < 64
  {
    var forward := if color == White then -1 else 1;
    var home := if color == White then 6 else 1;
    || (Dy(from, to) == forward && Dx(from, to) == 0 && EmptyAt(b, X(to), Y(to)))
    || (Dy(from, to) == forward && Abs(Dx(from, to)) == 1 && Belongs(b[to], color.Opponent()))
    || (Y(from) == home && Dy(from, to) == 2 * forward && Dx(from, to) == 0
        && EmptyAt(b, X(to), Y(to)) && EmptyAt(b, X(from), Y(from) + forward))
  }

  /** Walking a ray backwards visits the same squares. */
  lemma RayClearReversed(b: Board, x0: int, y0: int, sx: int, sy: int, n: int)
    ensures RayClear(b, x0, y0, sx, sy, n)
        <==> RayClear(b, Offset(x0, sx, n), Offset(y0, sy, n), -sx, -sy, n)
  {
    var x1, y1, rx, ry := Offset(x0, sx, n), Offset(y0, sy, n), -sx, -sy;
    if RayClear(b, x0, y0, sx, sy, n) {
      forall k | 1 <= k < n
        ensures EmptyAt(b, Offset(x1, rx, k), Offset(y1, ry, k))
      {
        assert EmptyAt(b, Offset(x0, sx, n - k), Offset(y0, sy, n - k));
      }
    }
    if RayClear(b, x1, y1, rx, ry, n) {
      forall k | 1 <= k < n
        ensures EmptyAt(b, Offset(x0, sx, k), Offset(y0, sy, k))
      {
        assert EmptyAt(b, Offset(x1, rx, n - k), Offset(y1, ry, n - k));
      }
    }
  }
}
