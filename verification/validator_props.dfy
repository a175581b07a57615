/** Properties of the move validator: where it agrees with the reference
    movement rules, and where the contract's code departs from them. */
module MoveValidatorProperties {
  import opened Wrappers
  import opened Board
  import opened MoveValidator
  import opened ChessRules

  // ---------------------------------------------------------------------
  // The scanning loops, read as statements about squares
  // ---------------------------------------------------------------------

  /** The rook's file loop passes exactly when the visited ranks are empty. */
  lemma {:induction false} FileScanClear(b: Board, x: int, y: int, maxY: int)
    requires OnBoard(x) && 0 <= y && maxY <= 8
    ensures FileScan(b, x, y, maxY).Pass? <==> forall j :: y <= j < maxY ==> EmptyAt(b, x, j)
    decreases maxY - y
  {
    if y < maxY {
      FileScanClear(b, x, y + 1, maxY);
      assert EmptyAt(b, x, y) <==> b[x + y * 8] == Empty;
    }
  }

  /** The rook's rank loop passes exactly when the visited files are empty. */
  lemma {:induction false} RankScanClear(b: Board, y: int, x: int, maxX: int)
    requires OnBoard(y) && 0 <= x && maxX <= 8
    ensures RankScan(b, y, x, maxX).Pass? <==> forall j :: x <= j < maxX ==> EmptyAt(b, j, y)
    decreases maxX - x
  {
    if x < maxX {
      RankScanClear(b, y, x + 1, maxX);
      assert EmptyAt(b, x, y) <==> b[x + y * 8] == Empty;
    }
  }

  /** The bishop's loop passes exactly when the up-and-right ray from its
      starting square is clear up to (but excluding) file `maxX`. */
  lemma {:induction false} BishopWalkClear(b: Board, x: int, y: int, maxX: int)
    requires 0 <= x && 0 <= y && maxX <= 8 && y + maxX - x <= 8
    ensures BishopWalk(b, x, y, maxX).Pass? <==> RayClear(b, x, y, 1, 1, maxX - x)
    decreases maxX - x
  {
    if x < maxX - 1 {
      var x1, y1 := x + 1, y + 1;
      BishopWalkClear(b, x1, y1, maxX);
      assert EmptyAt(b, Offset(x, 1, 1), Offset(y, 1, 1)) <==> b[x1 + y1 * 8] == Empty;
      if RayClear(b, x, y, 1, 1, maxX - x) {
        forall k | 1 <= k < maxX - x1
          ensures EmptyAt(b, Offset(x1, 1, k), Offset(y1, 1, k))
        {
          assert EmptyAt(b, Offset(x, 1, k + 1), Offset(y, 1, k + 1));
        }
      }
      if BishopWalk(b, x, y, maxX).Pass? {
        forall k | 1 <= k < maxX - x
          ensures EmptyAt(b, Offset(x, 1, k), Offset(y, 1, k))
        {
          if k > 1 {
            assert EmptyAt(b, Offset(x1, 1, k - 1), Offset(y1, 1, k - 1));
          }
        }
      }
    }
  }

  /** The empty ranks strictly between `lo` and `hi` on file `x` are the
      clear ray upward from (x, lo) to (x, hi). */
  lemma FileRun(b: Board, x: int, lo: int, hi: int)
    ensures (forall j :: lo + 1 <= j < hi ==> EmptyAt(b, x, j)) <==> RayClear(b, x, lo, 0, 1, hi - lo)
  {
    if forall j :: lo + 1 <= j < hi ==> EmptyAt(b, x, j) {
      forall k | 1 <= k < hi - lo
        ensures EmptyAt(b, Offset(x, 0, k), Offset(lo, 1, k))
      {
        assert EmptyAt(b, x, lo + k);
      }
    }
    if RayClear(b, x, lo, 0, 1, hi - lo) {
      forall j | lo + 1 <= j < hi
        ensures EmptyAt(b, x, j)
      {
        assert EmptyAt(b, Offset(x, 0, j - lo), Offset(lo, 1, j - lo));
      }
    }
  }

  /** The same statement for the files strictly between `lo` and `hi` on
      rank `y`. */
  lemma RankRun(b: Board, y: int, lo: int, hi: int)
    ensures (forall j :: lo + 1 <= j < hi ==> EmptyAt(b, j, y)) <==> RayClear(b, lo, y, 1, 0, hi - lo)
  {
    if forall j :: lo + 1 <= j < hi ==> EmptyAt(b, j, y) {
      forall k | 1 <= k < hi - lo
        ensures EmptyAt(b, Offset(lo, 1, k), Offset(y, 0, k))
      {
        assert EmptyAt(b, lo + k, y);
      }
    }
    if RayClear(b, lo, y, 1, 0, hi - lo) {
      forall j | lo + 1 <= j < hi
        ensures EmptyAt(b, j, y)
      {
        assert EmptyAt(b, Offset(lo, 1, j - lo), Offset(y, 0, j - lo));
      }
    }
  }

  // ---------------------------------------------------------------------
  // Sliding pieces
  // ---------------------------------------------------------------------

  /** The rook helper accepts exactly the straight moves whose path is clear. */
  lemma RookMoveClear(b: Board, from: nat, to: nat)
    requires from < 64 && to < 64 && from != to
    ensures RookMove(b, X(from), Y(from), X(to), Y(to)).Pass? <==> Straight(from, to) && PathClear(b, from, to)
  {
    var fx, fy, tx, ty := X(from), Y(from), X(to), Y(to);
    if fx == tx {
      FileScanClear(b, tx, Min(fy, ty) + 1, Max(fy, ty));
      if fy < ty {
        FileRun(b, fx, fy, ty);
      } else {
        FileRun(b, fx, ty, fy);
        RayClearReversed(b, fx, ty, 0, 1, fy - ty);
      }
    } else if fy == ty {
      RankScanClear(b, ty, Min(fx, tx) + 1, Max(fx, tx));
      if fx < tx {
        RankRun(b, fy, fx, tx);
      } else {
        RankRun(b, fy, tx, fx);
        RayClearReversed(b, tx, fy, 1, 0, fx - tx);
      }
    }
  }

  /** The bishop helper accepts exactly the clear-path moves on diagonals
      where file and rank change in the same direction, and on every
      diagonal move of at most two squares. */
  lemma BishopMoveClear(b: Board, from: nat, to: nat)
    requires from < 64 && to < 64
    requires MainDiagonal(from, to) || (Diagonal(from, to) && Distance(from, to) <= 2)
    ensures BishopMove(b, X(from), Y(from), X(to), Y(to)).Pass? <==> PathClear(b, from, to)
  {
    var fx: int, fy: int, tx: int, ty: int := X(from), Y(from), X(to), Y(to);
    var d := Abs(tx - fx);
    BishopWalkClear(b, Min(fx, tx), Min(fy, ty), Max(fx, tx));
    if MainDiagonal(from, to) {
      if tx < fx {
        RayClearReversed(b, tx, ty, 1, 1, d);
      }
    } else if d == 2 {
      var mx, my := Min(fx, tx) + 1, Min(fy, ty) + 1;
      var sx, sy := Sign(tx - fx), Sign(ty - fy);
      assert Offset(fx, sx, 1) == mx && Offset(fy, sy, 1) == my;
      assert Offset(Min(fx, tx), 1, 1) == mx && Offset(Min(fy, ty), 1, 1) == my;
      if EmptyAt(b, mx, my) {
        forall k | 1 <= k < 2
          ensures EmptyAt(b, Offset(fx, sx, k), Offset(fy, sy, k))
          ensures EmptyAt(b, Offset(Min(fx, tx), 1, k), Offset(Min(fy, ty), 1, k))
        {
          assert k == 1;
        }
      }
    }
  }

  /** The rook rule matches the reference: a straight move with a clear path. */
  lemma RookAgrees(b: Board, color: Color, from: Byte, to: Byte)
    requires Basic(b, color, from, to) && b[from] % 7 == KindIndex(Rook)
    ensures ValidateMove(b, color, from, to).Success? <==> Straight(from, to) && PathClear(b, from, to)
  {
    RookMoveClear(b, from, to);
  }

  /** The bishop rule matches the reference on main diagonals and on short
      anti-diagonals, and rejects every move that is not diagonal. */
  lemma BishopAgrees(b: Board, color: Color, from: Byte, to: Byte)
    requires Basic(b, color, from, to) && b[from] % 7 == KindIndex(Bishop)
    ensures !Diagonal(from, to) ==> ValidateMove(b, color, from, to).Failure?
    ensures MainDiagonal(from, to) || (Diagonal(from, to) && Distance(from, to) <= 2) ==>
      (ValidateMove(b, color, from, to).Success? <==> PathClear(b, from, to))
  {
    if MainDiagonal(from, to) || (Diagonal(from, to) && Distance(from, to) <= 2) {
      BishopMoveClear(b, from, to);
    }
  }

  /** The queen follows the rook rule on files and ranks and the bishop rule
      (with its anti-diagonal defect) on diagonals, but accepts every other
      displacement outright, where the reference rejects it. */
  lemma QueenAgreesOnLines(b: Board, color: Color, from: Byte, to: Byte)
    requires Basic(b, color, from, to) && b[from] % 7 == KindIndex(Queen)
    ensures Straight(from, to) ==>
      (ValidateMove(b, color, from, to).Success? <==> PathClear(b, from, to))
    ensures MainDiagonal(from, to) || (Diagonal(from, to) && Distance(from, to) <= 2) ==>
      (ValidateMove(b, color, from, to).Success? <==> PathClear(b, from, to))
    ensures !Straight(from, to) && !Diagonal(from, to) ==> ValidateMove(b, color, from, to).Success?
  {
    if Straight(from, to) {
      RookMoveClear(b, from, to);
    }
    if MainDiagonal(from, to) || (Diagonal(from, to) && Distance(from, to) <= 2) {
      BishopMoveClear(b, from, to);
    }
  }

  /** A queen leaping like a knight, over an occupied square, is accepted. */
  lemma QueenLeapAccepted()
    ensures var b: Board := EmptyBoard()[Square(3, 7) := WhiteQueen][Square(3, 6) := WhitePawn];
      && ValidateMove(b, White, Square(3, 7), Square(4, 5)).Success?
      && !Straight(Square(3, 7), Square(4, 5)) && !Diagonal(Square(3, 7), Square(4, 5))
  {
  }

  /** On an anti-diagonal of three squares the bishop's walk inspects the
      wrong squares: a bishop moving from (0, 3) to (3, 0) past a piece on
      (1, 2), which blocks the true path, is accepted. */
  lemma BishopAcceptsBlockedAntiDiagonal()
    ensures var b: Board := EmptyBoard()[24 := WhiteBishop][17 := WhitePawn];
      && Basic(b, White, 24, 3)
      && ValidateMove(b, White, 24, 3).Success?
      && !PathClear(b, 24, 3)
  {
    var b: Board := EmptyBoard()[24 := WhiteBishop][17 := WhitePawn];
    assert ValidateMove(b, White, 24, 3) == Keep(b, BishopMove(b, 0, 3, 3, 0));
    assert BishopWalk(b, 2, 2, 3) == Pass;
    assert BishopWalk(b, 1, 1, 3) == Pass;
    assert BishopWalk(b, 0, 0, 3) == Pass;
    assert !EmptyAt(b, Offset(0, 1, 1), Offset(3, -1, 1));
  }

  /** The converse defect: the same bishop move along a clear path is
      refused because of a piece on (1, 1), which is not on the path. */
  lemma BishopRefusesClearAntiDiagonal()
    ensures var b: Board := EmptyBoard()[24 := WhiteBishop][9 := BlackPawn];
      && Basic(b, White, 24, 3)
      && ValidateMove(b, White, 24, 3).Failure?
      && PathClear(b, 24, 3)
  {
    var b: Board := EmptyBoard()[24 := WhiteBishop][9 := BlackPawn];
    assert ValidateMove(b, White, 24, 3) == Keep(b, BishopMove(b, 0, 3, 3, 0));
    assert BishopWalk(b, 0, 0, 3).Fail?;
    forall k | 1 <= k < 3
      ensures EmptyAt(b, Offset(0, 1, k), Offset(3, -1, k))
    {
    }
  }

  // ---------------------------------------------------------------------
  // Leapers
  // ---------------------------------------------------------------------

  /** The king rule matches the reference: one step in any direction. */
  lemma KingAgrees(b: Board, color: Color, from: Byte, to: Byte)
    requires Basic(b, color, from, to) && b[from] % 7 == KindIndex(King)
    ensures ValidateMove(b, color, from, to).Success? <==> KingStep(from, to)
  {
  }

  /** The knight rule matches the reference: a (1, 2) or (2, 1) jump. */
  lemma KnightAgrees(b: Board, color: Color, from: Byte, to: Byte)
    requires Basic(b, color, from, to) && b[from] % 7 == KindIndex(Knight)
    ensures ValidateMove(b, color, from, to).Success? <==> KnightJump(from, to)
  {
  }

  // ---------------------------------------------------------------------
  // Pawns
  // ---------------------------------------------------------------------

  /** The source's unsigned `x - 1` compared with a coordinate is the
      integer comparison: a wrapped-around result never equals a square. */
  lemma SubU8OnBoard(a: Byte, v: int)
    requires OnBoard(a) && OnBoard(v)
    ensures v == SubU8(a, 1) <==> v == a - 1
  {
  }

  /** Whenever the pawn rule evaluates `to_x - 1` or `to_y - 1` with a
      zero operand, every disjunct is already false under wrap-around, so
      the move is rejected. A build that aborts on the underflow rejects it
      too, so both readings of the subtraction give the same decision. */
  lemma UnderflowOnlyRejects(b: Board, color: Color, fx: Byte, fy: Byte, tx: Byte, ty: Byte)
    requires OnBoard(fx) && OnBoard(fy) && OnBoard(tx) && OnBoard(ty)
    ensures color == White && tx == 0 && fy == ty + 1 && fx != tx + 1
            && !(fx == tx && b[tx + ty * 8] == Empty)
            ==> PawnMove(b, color, fx, fy, tx, ty).Failure?
    ensures color == Black && ty == 0 ==> PawnMove(b, color, fx, fy, tx, ty).Failure?
    ensures color == Black && tx == 0 && fy + 1 == ty && fx != tx + 1
            && !(fx == tx && b[tx + ty * 8] == Empty)
            ==> PawnMove(b, color, fx, fy, tx, ty).Failure?
  {
  }

  /** The pawn rule matches the reference pawn step (push, capture, double
      push from the home rank); the byte underflows only ever reject. */
  lemma PawnAgrees(b: Board, color: Color, from: Byte, to: Byte)
    requires Basic(b, color, from, to) && b[from] % 7 == KindIndex(Pawn)
    ensures ValidateMove(b, color, from, to).Success? <==> PawnStep(b, color, from, to)
  {
    var fx, fy, tx, ty := X(from), Y(from), X(to), Y(to);
    SubU8OnBoard(tx, fx);
    SubU8OnBoard(ty, fy);
    assert b[to] == b[tx + ty * 8];
    assert EmptyAt(b, X(to), Y(to)) <==> b[to] == Empty;
    if color == White {
      assert fx == tx ==> (EmptyAt(b, X(from), 5) <==> b[tx + 5 * 8] == Empty);
    } else {
      assert fx == tx ==> (EmptyAt(b, X(from), 2) <==> b[tx + 2 * 8] == Empty);
    }
  }

  /** Consequences of the pawn rule: a diagonal step onto an empty square
      is never accepted, and a pawn standing on its last rank can never
      move again. */
  lemma PawnDeadEnds(b: Board, color: Color, from: Byte, to: Byte)
    requires Basic(b, color, from, to) && b[from] % 7 == KindIndex(Pawn)
    ensures Abs(Dx(from, to)) == 1 && b[to] == Empty ==> ValidateMove(b, color, from, to).Failure?
    ensures color == White && Y(from) == 0 ==> ValidateMove(b, color, from, to).Failure?
    ensures color == Black && Y(from) == 7 ==> ValidateMove(b, color, from, to).Failure?
  {
    PawnAgrees(b, color, from, to);
  }

  /** Promotion never happens: when a pawn reaches its last rank the helper
      writes a queen into its own copy, but the validator stores the board
      it was given, so the relocation carries the pawn code onto `to`. */
  lemma PromotionLost(b: Board, color: Color, from: Byte, to: Byte)
    requires Basic(b, color, from, to) && b[from] % 7 == KindIndex(Pawn)
    requires Y(to) == (if color == White then 0 else 7)
    requires ValidateMove(b, color, from, to).Success?
    ensures PawnMove(b, color, X(from), Y(from), X(to), Y(to)).Success?
    ensures PawnMove(b, color, X(from), Y(from), X(to), Y(to)).value[from] == WhiteQueen
    ensures ValidateMove(b, color, from, to).value == b
    ensures Relocate(ValidateMove(b, color, from, to).value, from, to)[to] == b[from] != WhiteQueen
  {
    assert X(from) + Y(from) * 8 == from;
  }
}
