/** The board encoding shared by the rules engine and the game lifecycle.

    A board is 64 byte cells indexed `x + 8 * y`. Codes 0..5 are the White
    King, Queen, Rook, Bishop, Knight and Pawn, 6 is an empty square and
    7..12 are the Black pieces in the same order, so `code % 7` is the piece
    kind. Black starts on rows 0 and 1 and White on rows 6 and 7. */
module Board {
  import opened Wrappers

  /** An unsigned 8-bit value, the type of every cell and square index. */
  type Byte = b: int | 0 <= b < 256

  /** Exactly 64 cells, as the source's `[u8; 64]`. */
  type Board = b: seq<Byte> | |b| == 64 witness EmptyBoard()

  const WhiteKing: Byte := 0
  const WhiteQueen: Byte := 1
  const WhiteRook: Byte := 2
  const WhiteBishop: Byte := 3
  const WhiteKnight: Byte := 4
  const WhitePawn: Byte := 5
  const Empty: Byte := 6
  const BlackKing: Byte := 7
  const BlackQueen: Byte := 8
  const BlackRook: Byte := 9
  const BlackBishop: Byte := 10
  const BlackKnight: Byte := 11
  const BlackPawn: Byte := 12

  /** The side to move; `Code()` is the stored `player_turn` byte. */
  datatype Color = White | Black {
    function Code(): nat {
      if White? then 0 else 1
    }

    /** The other side; the source computes it as `1 - color`. */
    function Opponent(): (o: Color)
      ensures o != this
      ensures o.Code() == 1 - Code()
    {
      if White? then Black else White
    }
  }

  datatype Kind = King | Queen | Rook | Bishop | Knight | Pawn

  /** A piece as a tagged value rather than an arithmetic code. */
  datatype Piece = Piece(color: Color, kind: Kind)

  /** The position of a kind in the code table (and the value of `code % 7`). */
  function KindIndex(k: Kind): nat {
    match k
    case King => 0
    case Queen => 1
    case Rook => 2
    case Bishop => 3
    case Knight => 4
    case Pawn => 5
  }

  function KindAt(i: nat): Kind
    requires i < 6
  {
    if i == 0 then King
    else if i == 1 then Queen
    else if i == 2 then Rook
    else if i == 3 then Bishop
    else if i == 4 then Knight
    else Pawn
  }

  /** The code a piece is stored as. */
  function Encode(p: Piece): (code: Byte)
    ensures code != Empty && code <= BlackPawn
    ensures code % 7 == KindIndex(p.kind)
    ensures (code < Empty) <==> p.color == White
  {
    KindIndex(p.kind) + (if p.color == White then 0 else 7)
  }

  /** The piece a code stands for: `None` for the empty square and for
      bytes above 12, which no board ever holds. */
  function Decode(code: Byte): (r: Option<Piece>)
    ensures r.None? <==> code == Empty || code > BlackPawn
    ensures r.Some? ==> KindIndex(r.value.kind) == code % 7
    ensures r.Some? ==> (r.value.color == White <==> code < Empty)
  {
    if code < Empty then Some(Piece(White, KindAt(code)))
    else if Empty < code <= BlackPawn then Some(Piece(Black, KindAt(code - 7)))
    else None
  }

  /** Decoding undoes encoding, and encoding undoes decoding. */
  lemma CodecRoundTrip(p: Piece, code: Byte)
    ensures Decode(Encode(p)) == Some(p)
    ensures Decode(code).Some? ==> Encode(Decode(code).value) == code
  {
    match p.kind
    case King =>
    case Queen =>
    case Rook =>
    case Bishop =>
    case Knight =>
    case Pawn =>
  }

  /** The source's colour test on a raw byte: White pieces are below 6 and
      anything above 6 counts as Black. */
  predicate Belongs(code: Byte, c: Color) {
    if c == White then code < Empty else code > Empty
  }

  /** Every cell holds one of the thirteen codes. */
  predicate WellCoded(b: Board) {
    forall i :: 0 <= i < 64 ==> b[i] <= BlackPawn
  }

  function EmptyBoard(): (b: seq<Byte>)
    ensures |b| == 64
    ensures forall i :: 0 <= i < 64 ==> b[i] == Empty
  {
    seq(64, i => Empty)
  }

  function Abs(v: int): nat {
    if v < 0 then -v else v
  }

  /** A file or rank coordinate on the board. */
  predicate OnBoard(v: int) {
    0 <= v < 8
  }

  /** File and rank of a square index, as `i % 8` and `i / 8`. */
  function X(i: nat): nat { i % 8 }
  function Y(i: nat): nat { i / 8 }

  function Square(x: int, y: int): nat
    requires 0 <= x < 8 && 0 <= y < 8
  {
    x + 8 * y
  }

  /** The cell at (x, y) is on the board and empty. */
  predicate EmptyAt(b: Board, x: int, y: int) {
    0 <= x < 8 && 0 <= y < 8 && b[x + 8 * y] == Empty
  }

  /** The coordinate `k` steps from `x0` in direction `dir` (-1, 0 or +1). */
  function Offset(x0: int, dir: int, k: int): int {
    if dir > 0 then x0 + k else if dir < 0 then x0 - k else x0
  }

  /** Eight copies of one code: a full rank. */
  function Rank(code: Byte): (r: seq<Byte>)
    ensures |r| == 8
    ensures forall i :: 0 <= i < 8 ==> r[i] == code
  {
    seq(8, i => code)
  }

  /** The position every game starts from, rank by rank from row 0:
      R N B Q K B N R of Black, eight Black pawns, four empty ranks, eight
      White pawns, R N B Q K B N R of White. */
  const StartBoard: Board :=
    [9, 11, 10, 8, 7, 10, 11, 9] + Rank(BlackPawn) +
    Rank(Empty) + Rank(Empty) + Rank(Empty) + Rank(Empty) +
    Rank(WhitePawn) + [2, 4, 3, 1, 0, 3, 4, 2]

  /** The start position: Black on rows 0-1, White on rows 6-7, the middle
      empty, pawns on rows 1 and 6, and each king alone on the e-file. */
  lemma StartBoardLayout()
    ensures WellCoded(StartBoard)
    ensures forall i :: 0 <= i < 16 ==> Belongs(StartBoard[i], Black)
    ensures forall i :: 16 <= i < 48 ==> StartBoard[i] == Empty
    ensures forall i :: 48 <= i < 64 ==> Belongs(StartBoard[i], White)
    ensures forall i :: 8 <= i < 16 ==> StartBoard[i] == BlackPawn
    ensures forall i :: 48 <= i < 56 ==> StartBoard[i] == WhitePawn
    ensures StartBoard[Square(4, 0)] == BlackKing && StartBoard[Square(4, 7)] == WhiteKing
    ensures forall i :: 0 <= i < 64 && i != 4 ==> StartBoard[i] != BlackKing
    ensures forall i :: 0 <= i < 64 && i != 60 ==> StartBoard[i] != WhiteKing
  {
  }

  /** The start position holds one queen of each colour. */
  lemma StartBoardQueens()
    ensures CodeCount(StartBoard, WhiteQueen) == 1 && CodeCount(StartBoard, BlackQueen) == 1
  {
    var back: seq<Byte> := [9, 11, 10, 8, 7, 10, 11, 9];
    var front: seq<Byte> := [2, 4, 3, 1, 0, 3, 4, 2];
    var p, e, w := Rank(BlackPawn), Rank(Empty), Rank(WhitePawn);
    assert StartBoard == back + p + e + e + e + e + w + front;
    var mb, mf, mp, me, mw: multiset<Byte> := multiset(back), multiset(front), multiset(p), multiset(e), multiset(w);
    assert multiset(StartBoard) == mb + mp + me + me + me + me + mw + mf;
    assert mb == multiset{9, 11, 10, 8, 7, 10, 11, 9};
    assert mf == multiset{2, 4, 3, 1, 0, 3, 4, 2};
    assert WhiteQueen !in p && WhiteQueen !in e && WhiteQueen !in w;
    assert BlackQueen !in p && BlackQueen !in e && BlackQueen !in w;
  }

  /** The board after the piece on `from` moves to `to`: the destination
      takes the moving code, the origin becomes empty, and no other cell
      changes. */
  function Relocate(b: Board, from: nat, to: nat): (r: Board)
    requires from < 64 && to < 64
    ensures from != to ==> r[to] == b[from]
    ensures r[from] == Empty
    ensures forall i :: 0 <= i < 64 && i != from && i != to ==> r[i] == b[i]
  {
    b[to := b[from]][from := Empty]
  }

  /** A relocation removes exactly the code that stood on `to` and adds an
      empty square: no piece is created or transformed. */
  lemma RelocateMultiset(b: Board, from: nat, to: nat)
    requires from < 64 && to < 64 && from != to
    ensures multiset(Relocate(b, from, to)) == multiset(b) - multiset{b[to]} + multiset{Empty}
  {
    var mid := b[to := b[from]];
    assert multiset(mid) == multiset(b) - multiset{b[to]} + multiset{b[from]};
    assert mid[from] == b[from];
    assert multiset(mid[from := Empty]) == multiset(mid) - multiset{b[from]} + multiset{Empty};
  }

  /** The number of squares holding `code`. */
  function CodeCount(b: Board, code: Byte): nat {
    multiset(b)[code]
  }

  /** The number of occupied squares. */
  function PieceCount(b: Board): nat {
    |b| - multiset(b)[Empty]
  }

  /** A relocation never raises the count of any piece code (so no pawn
      ever becomes a queen), the piece count falls by one exactly when a
      piece stood on `to`, and a board of valid codes stays one. */
  lemma RelocateCounts(b: Board, from: nat, to: nat)
    requires from < 64 && to < 64 && from != to && b[from] != Empty
    ensures forall c :: c != Empty ==> multiset(Relocate(b, from, to))[c] <= multiset(b)[c]
    ensures PieceCount(Relocate(b, from, to)) == PieceCount(b) - (if b[to] == Empty then 0 else 1)
    ensures WellCoded(b) ==> WellCoded(Relocate(b, from, to))
  {
    RelocateMultiset(b, from, to);
    assert b[from] in multiset(b);
    assert b[to] in multiset(b);
  }
}
