/** What the check detector finds and what it misses. The probe sequences of
    the source are compared with offset sets stated once, below, in terms of
    decoded pieces. */
module CheckDetectorProperties {
  import opened Wrappers
  import opened Board
  import opened ChessRules
  import opened CheckDetector

  /** A piece of the side that did not move, of the given kind, stands on
      (x, y). */
  predicate OpposingAt(b: Board, moved: Color, kind: Kind, x: int, y: int) {
    OnBoard(x) && OnBoard(y) && b[x + 8 * y] == Encode(Piece(moved.Opponent(), kind))
  }

  /** Some square at one of the `offsets` from (kx, ky) holds an opposing
      piece of the given kind. */
  predicate AttackedFrom(b: Board, moved: Color, kind: Kind, kx: int, ky: int, offsets: set<(int, int)>) {
    exists o :: o in offsets && OpposingAt(b, moved, kind, kx + o.0, ky + o.1)
  }

  function KnightOffsets(): set<(int, int)> {
    {(1, 2), (2, 1), (2, -1), (1, -2), (-1, -2), (-2, -1), (-2, 1), (-1, 2)}
  }

  function DiagonalNeighbours(): set<(int, int)> {
    {(-1, -1), (1, -1), (-1, 1), (1, 1)}
  }

  function OrthogonalNeighbours(): set<(int, int)> {
    {(0, -1), (0, 1), (-1, 0), (1, 0)}
  }

  /** The squares from which an opposing pawn attacks the king: the two
      diagonal neighbours toward rank 0 for White, toward rank 7 for Black. */
  function PawnOffsets(moved: Color): set<(int, int)> {
    if moved == White then {(-1, -1), (1, -1)} else {(-1, 1), (1, 1)}
  }

  /** Where the detector looks for the enemy king: the diagonal neighbours
      and five of the eight knight offsets, but no orthogonal neighbour. */
  function KingProbeOffsets(): set<(int, int)> {
    {(-1, -1), (1, -1), (-1, 1), (1, 1), (1, 2), (2, 1), (2, -1), (1, -2), (-1, -2)}
  }

  /** Everything the detector can report about the king on square `k`. */
  predicate DetectedThreat(b: Board, moved: Color, k: nat) {
    || AttackedFrom(b, moved, Knight, X(k), Y(k), KnightOffsets())
    || AttackedFrom(b, moved, Pawn, X(k), Y(k), PawnOffsets(moved))
    || AttackedFrom(b, moved, King, X(k), Y(k), KingProbeOffsets())
  }

  /** The stabilizer turns a White code into the opponent's code of the same
      kind, for either mover. */
  lemma StabilizerSelectsOpponent(moved: Color, kind: Kind)
    ensures KindIndex(kind) + Stabilizer(moved) == Encode(Piece(moved.Opponent(), kind))
    ensures Stabilizer(moved) == Encode(Piece(moved.Opponent(), King))
  {
  }

  /** Every sliding-piece loop starts on the king's own square, which is not
      empty, so it stops at once: rooks, bishops and queens never give check. */
  lemma SlidingPiecesNeverDetected(b: Board, moved: Color, k: nat)
    requires k < 64 && b[k] == KingCode(moved)
    ensures !SlidingCheck(b, X(k), Y(k), Stabilizer(moved))
  {
    var kx, ky, stab := X(k), Y(k), Stabilizer(moved);
    assert kx + ky * 8 == k;
    assert !Ray(b, kx, ky, 1, 0, 0, 2 + stab, 1 + stab);
    assert !Ray(b, kx, ky, -1, 0, 0, 2 + stab, 1 + stab);
    assert !Ray(b, kx, ky, 0, 1, 0, 2 + stab, 1 + stab);
    assert !Ray(b, kx, ky, 0, -1, 0, 2 + stab, 1 + stab);
    assert !Ray(b, kx, ky, 1, 1, 0, 3 + stab, 1 + stab);
    assert !Ray(b, kx, ky, -1, -1, 0, 3 + stab, 1 + stab);
    assert !Ray(b, kx, ky, 1, -1, 0, 3 + stab, 1 + stab);
    assert !Ray(b, kx, ky, -1, 1, 0, 3 + stab, 1 + stab);
  }

  /** A mover without a king on the board always meets the requirement. */
  lemma MissingKingPasses(b: Board, moved: Color)
    requires forall i :: 0 <= i < 64 ==> b[i] != KingCode(moved)
    ensures KingInCheck(b, moved).Pass?
  {
    var r := FindCode(b, KingCode(moved), 0);
    if r.Some? {
      assert false;
    }
  }

  /** One probe of the source, for the code the stabilizer selects, is an
      opposing piece of that kind at the probed offset. */
  lemma ProbeIsOpposing(b: Board, moved: Color, kind: Kind, kx: int, ky: int, ox: int, oy: int)
    ensures Probe(b, kx, ky, ox, oy, KindIndex(kind) + Stabilizer(moved))
        <==> OpposingAt(b, moved, kind, kx + ox, ky + oy)
  {
    StabilizerSelectsOpponent(moved, kind);
  }

  /** A probe that fires at an offset of the set shows the set attacked. */
  lemma Witness(b: Board, moved: Color, kind: Kind, kx: int, ky: int, offsets: set<(int, int)>, o: (int, int))
    requires o in offsets && Probe(b, kx, ky, o.0, o.1, KindIndex(kind) + Stabilizer(moved))
    ensures AttackedFrom(b, moved, kind, kx, ky, offsets)
  {
    ProbeIsOpposing(b, moved, kind, kx, ky, o.0, o.1);
  }

  /** The eight knight probes are the knight offsets. */
  lemma KnightProbesMatch(b: Board, moved: Color, kx: int, ky: int)
    ensures KnightCheck(b, kx, ky, Stabilizer(moved)) <==> AttackedFrom(b, moved, Knight, kx, ky, KnightOffsets())
  {
    var s := Stabilizer(moved);
    if AttackedFrom(b, moved, Knight, kx, ky, KnightOffsets()) {
      var o :| o in KnightOffsets() && OpposingAt(b, moved, Knight, kx + o.0, ky + o.1);
      ProbeIsOpposing(b, moved, Knight, kx, ky, o.0, o.1);
    }
    if Probe(b, kx, ky, 1, 2, 4 + s) {
      Witness(b, moved, Knight, kx, ky, KnightOffsets(), (1, 2));
    } else if Probe(b, kx, ky, 2, 1, 4 + s) {
      Witness(b, moved, Knight, kx, ky, KnightOffsets(), (2, 1));
    } else if Probe(b, kx, ky, 2, -1, 4 + s) {
      Witness(b, moved, Knight, kx, ky, KnightOffsets(), (2, -1));
    } else if Probe(b, kx, ky, 1, -2, 4 + s) {
      Witness(b, moved, Knight, kx, ky, KnightOffsets(), (1, -2));
    } else if Probe(b, kx, ky, -1, -2, 4 + s) {
      Witness(b, moved, Knight, kx, ky, KnightOffsets(), (-1, -2));
    } else if Probe(b, kx, ky, -2, -1, 4 + s) {
      Witness(b, moved, Knight, kx, ky, KnightOffsets(), (-2, -1));
    } else if Probe(b, kx, ky, -2, 1, 4 + s) {
      Witness(b, moved, Knight, kx, ky, KnightOffsets(), (-2, 1));
    } else if Probe(b, kx, ky, -1, 2, 4 + s) {
      Witness(b, moved, Knight, kx, ky, KnightOffsets(), (-1, 2));
    }
  }

  /** The two pawn probes are the pawn offsets of the mover. */
  lemma PawnProbesMatch(b: Board, moved: Color, kx: int, ky: int)
    ensures PawnCheck(b, kx, ky, moved, Stabilizer(moved)) <==> AttackedFrom(b, moved, Pawn, kx, ky, PawnOffsets(moved))
  {
    var s := Stabilizer(moved);
    if AttackedFrom(b, moved, Pawn, kx, ky, PawnOffsets(moved)) {
      var o :| o in PawnOffsets(moved) && OpposingAt(b, moved, Pawn, kx + o.0, ky + o.1);
      ProbeIsOpposing(b, moved, Pawn, kx, ky, o.0, o.1);
    }
    if moved == White {
      if Probe(b, kx, ky, -1, -1, 5 + s) {
        Witness(b, moved, Pawn, kx, ky, PawnOffsets(moved), (-1, -1));
      } else if Probe(b, kx, ky, 1, -1, 5 + s) {
        Witness(b, moved, Pawn, kx, ky, PawnOffsets(moved), (1, -1));
      }
    } else {
      if Probe(b, kx, ky, -1, 1, 5 + s) {
        Witness(b, moved, Pawn, kx, ky, PawnOffsets(moved), (-1, 1));
      } else if Probe(b, kx, ky, 1, 1, 5 + s) {
        Witness(b, moved, Pawn, kx, ky, PawnOffsets(moved), (1, 1));
      }
    }
  }

  /** The nine enemy-king probes are the king probe offsets. */
  lemma KingProbesMatch(b: Board, moved: Color, kx: int, ky: int)
    ensures KingProbe(b, kx, ky, Stabilizer(moved)) <==> AttackedFrom(b, moved, King, kx, ky, KingProbeOffsets())
  {
    var s := Stabilizer(moved);
    if AttackedFrom(b, moved, King, kx, ky, KingProbeOffsets()) {
      var o :| o in KingProbeOffsets() && OpposingAt(b, moved, King, kx + o.0, ky + o.1);
      ProbeIsOpposing(b, moved, King, kx, ky, o.0, o.1);
    }
    if Probe(b, kx, ky, -1, -1, s) {
      Witness(b, moved, King, kx, ky, KingProbeOffsets(), (-1, -1));
    } else if Probe(b, kx, ky, 1, -1, s) {
      Witness(b, moved, King, kx, ky, KingProbeOffsets(), (1, -1));
    } else if Probe(b, kx, ky, -1, 1, s) {
      Witness(b, moved, King, kx, ky, KingProbeOffsets(), (-1, 1));
    } else if Probe(b, kx, ky, 1, 1, s) {
      Witness(b, moved, King, kx, ky, KingProbeOffsets(), (1, 1));
    } else if Probe(b, kx, ky, 1, 2, s) {
      Witness(b, moved, King, kx, ky, KingProbeOffsets(), (1, 2));
    } else if Probe(b, kx, ky, 2, 1, s) {
      Witness(b, moved, King, kx, ky, KingProbeOffsets(), (2, 1));
    } else if Probe(b, kx, ky, 2, -1, s) {
      Witness(b, moved, King, kx, ky, KingProbeOffsets(), (2, -1));
    } else if Probe(b, kx, ky, 1, -2, s) {
      Witness(b, moved, King, kx, ky, KingProbeOffsets(), (1, -2));
    } else if Probe(b, kx, ky, -1, -2, s) {
      Witness(b, moved, King, kx, ky, KingProbeOffsets(), (-1, -2));
    }
  }

  /** What the requirement decides once the mover's first king is found on
      `k`: it holds exactly when an opposing knight, pawn or king stands on
      one of the probed offsets. */
  lemma FirstKingDecides(b: Board, moved: Color, k: nat)
    requires k < 64 && b[k] == KingCode(moved)
    requires forall j :: 0 <= j < k ==> b[j] != KingCode(moved)
    ensures KingInCheck(b, moved).Pass? <==> DetectedThreat(b, moved, k)
  {
    var r := FindCode(b, KingCode(moved), 0);
    assert r == Some(k);
    SlidingPiecesNeverDetected(b, moved, k);
    KnightProbesMatch(b, moved, X(k), Y(k));
    PawnProbesMatch(b, moved, X(k), Y(k));
    KingProbesMatch(b, moved, X(k), Y(k));
  }

  /** No opposing piece of a kind absent from the board attacks. */
  lemma AbsentKindNotAttacking(b: Board, moved: Color, kind: Kind, kx: int, ky: int, offsets: set<(int, int)>)
    requires forall i :: 0 <= i < 64 ==> b[i] != Encode(Piece(moved.Opponent(), kind))
    ensures !AttackedFrom(b, moved, kind, kx, ky, offsets)
  {
    forall o | o in offsets
      ensures !OpposingAt(b, moved, kind, kx + o.0, ky + o.1)
    {
    }
  }

  /** The opposing king, alone on square `k2`, is not seen by the probes
      when `k2` is at none of the probed offsets. */
  lemma KingOffProbes(b: Board, moved: Color, kx: int, ky: int, k2: nat)
    requires k2 < 64
    requires forall i :: 0 <= i < 64 && b[i] == Encode(Piece(moved.Opponent(), King)) ==> i == k2
    requires forall o :: o in KingProbeOffsets() ==> kx + o.0 != X(k2) || ky + o.1 != Y(k2)
    ensures !AttackedFrom(b, moved, King, kx, ky, KingProbeOffsets())
  {
    forall o | o in KingProbeOffsets()
      ensures !OpposingAt(b, moved, King, kx + o.0, ky + o.1)
    {
      var x, y := kx + o.0, ky + o.1;
      if OnBoard(x) && OnBoard(y) {
        assert X(x + 8 * y) == x && Y(x + 8 * y) == y;
      }
    }
  }

  /** The requirement fails for a king that no opposing knight or pawn
      shares the board with and whose opposing king stands off the probes. */
  lemma NothingProbed(b: Board, moved: Color, k: nat, k2: nat)
    requires k < 64 && b[k] == KingCode(moved)
    requires forall j :: 0 <= j < k ==> b[j] != KingCode(moved)
    requires forall i :: 0 <= i < 64 ==> b[i] != Encode(Piece(moved.Opponent(), Knight))
    requires forall i :: 0 <= i < 64 ==> b[i] != Encode(Piece(moved.Opponent(), Pawn))
    requires k2 < 64
    requires forall i :: 0 <= i < 64 && b[i] == Encode(Piece(moved.Opponent(), King)) ==> i == k2
    requires forall o :: o in KingProbeOffsets() ==> X(k) + o.0 != X(k2) || Y(k) + o.1 != Y(k2)
    ensures KingInCheck(b, moved) == Fail(KingNotInCheck)
  {
    FirstKingDecides(b, moved, k);
    AbsentKindNotAttacking(b, moved, Knight, X(k), Y(k), KnightOffsets());
    AbsentKindNotAttacking(b, moved, Pawn, X(k), Y(k), PawnOffsets(moved));
    KingOffProbes(b, moved, X(k), Y(k), k2);
  }

  /** A Black rook beside the White king on its rank gives check, and the
      requirement for White fails all the same. */
  lemma RookCheckMissed(b: Board)
    requires b == EmptyBoard()[60 := WhiteKing][59 := BlackRook][4 := BlackKing]
    ensures b[59] == Encode(Piece(Black, Rook))
    ensures Straight(59, 60) && PathClear(b, 59, 60)
    ensures KingInCheck(b, White) == Fail(KingNotInCheck)
  {
    assert forall i :: 0 <= i < 64 ==> b[i] == Empty || i == 4 || i == 59 || i == 60;
    NothingProbed(b, White, 60, 4);
  }

  /** The enemy-king probe covers the four diagonal neighbours and none of
      the four orthogonal ones. */
  lemma KingProbeShape()
    ensures DiagonalNeighbours() <= KingProbeOffsets()
    ensures KingProbeOffsets() !! OrthogonalNeighbours()
  {
  }

  /** The Black king directly in front of the White king is not noticed. */
  lemma OrthogonalKingMissed(b: Board)
    requires b == EmptyBoard()[60 := WhiteKing][52 := BlackKing]
    ensures (X(52) - X(60), Y(52) - Y(60)) in OrthogonalNeighbours()
    ensures KingInCheck(b, White) == Fail(KingNotInCheck)
  {
    assert forall i :: 0 <= i < 64 ==> b[i] == Empty || i == 52 || i == 60;
    NothingProbed(b, White, 60, 52);
  }

  /** The Black king a knight's jump from the White king, which does not
      attack it, is reported as check. */
  lemma KnightDistanceKingFlagged(b: Board)
    requires b == EmptyBoard()[60 := WhiteKing][45 := BlackKing]
    ensures (X(45) - X(60), Y(45) - Y(60)) in KnightOffsets()
    ensures (X(45) - X(60), Y(45) - Y(60)) !in DiagonalNeighbours() + OrthogonalNeighbours()
    ensures KingInCheck(b, White).Pass?
  {
    assert forall i :: 0 <= i < 60 ==> b[i] != WhiteKing;
    FirstKingDecides(b, White, 60);
    Witness(b, White, King, 4, 7, KingProbeOffsets(), (1, -2));
  }
}
