/** The bitboard: two 64-bit occupancy masks, one per side, and the
    mapping between board squares (row, column in 1..8) and mask bits. */
module Bitboard {
  import opened Masks

  /** `X_BLACK` is 0 and `O_WHITE` is 1; a colour indexes `disks[]`. */
  type Color = c: int | 0 <= c <= 1

  const XBlack: Color := 0
  const OWhite: Color := 1

  /** `OTHERCOLOR(c)` */
  function Other(c: Color): (o: Color)
    ensures o != c
  {
    1 - c
  }

  /** A square, or a direction offset, as (row, col). */
  datatype Move = Move(row: int, col: int)

  /** `disks[0]` holds the black (X) disks, `disks[1]` the white (O) disks.
      The struct is copied by value wherever the engine explores a move. */
  datatype Board = Board(black: Mask, white: Mask) {
    /** `disks[c]` */
    function Disks(c: Color): Mask {
      if c == XBlack then black else white
    }

    /** The board with `disks[c]` replaced by m. */
    function WithDisks(c: Color, m: Mask): (r: Board)
      ensures r.Disks(c) == m && r.Disks(Other(c)) == Disks(Other(c))
    {
      if c == XBlack then this.(black := m) else this.(white := m)
    }
  }

  /** `IS_MOVE_OFF_BOARD(m)` */
  predicate IsMoveOffBoard(m: Move) {
    m.row < 1 || m.row > 8 || m.col < 1 || m.col > 8
  }

  predicate OnBoard(m: Move) {
    !IsMoveOffBoard(m)
  }

  /** `BOARD_BIT_INDEX(row, col)`: row 8, column 8 is bit 0 and row 1,
      column 1 is bit 63. */
  function BoardBitIndex(row: int, col: int): int {
    (8 - row) * 8 + (8 - col)
  }

  function Index(m: Move): int {
    BoardBitIndex(m.row, m.col)
  }

  /** The decoding `row = 8 - bitpos / 8`, `col = 8 - bitpos % 8` used when a
      set bit is turned back into a move. */
  function BitPosToMove(bitpos: int): Move {
    Move(8 - bitpos / 8, 8 - bitpos % 8)
  }

  /** `BOARD_BIT(row, col)` (the shift is only defined for squares on the board). */
  function BoardBit(row: int, col: int): Mask
    requires 1 <= row <= 8 && 1 <= col <= 8
  {
    Single(BoardBitIndex(row, col))
  }

  /** `MOVE_TO_BOARD_BIT(m)` */
  function MoveToBoardBit(m: Move): Mask
    requires OnBoard(m)
  {
    BoardBit(m.row, m.col)
  }

  /** `ROW8`: the squares of row 8, bit positions 0..7 (`Row8IsMacro`
      shows this is the OR of `BOARD_BIT(8, 1)` .. `BOARD_BIT(8, 8)`). */
  function Row8(): Mask {
    seq(Width, k => k < 8)
  }

  /** `COL8`: the squares of column 8, the bit positions that are multiples
      of 8 (`Col8IsMacro` shows this is the OR of `BOARD_BIT(1, 8)` ..
      `BOARD_BIT(8, 8)`). */
  function Col8(): Mask {
    seq(Width, k => k % 8 == 0)
  }

  /** `COL1 = COL8 << 7`: the squares of column 1. */
  function Col1(): Mask {
    Shl(Col8(), 7)
  }

  /** The direction table `offsets[]`: right, left, up, down, up-left,
      up-right, down-right, down-left. */
  const Offsets: seq<Move> := [
    Move(0, 1), Move(0, -1),
    Move(-1, 0), Move(1, 0),
    Move(-1, -1), Move(-1, 1),
    Move(1, 1), Move(1, -1)
  ]

  /** The initial position `start`: X on (4,5) and (5,4), O on (4,4) and (5,5). */
  function Start(): Board {
    Board(Or(BoardBit(4, 5), BoardBit(5, 4)), Or(BoardBit(4, 4), BoardBit(5, 5)))
  }

  /** No square holds a disk of both sides. */
  predicate Disjoint(b: Board) {
    forall k :: 0 <= k < Width ==> !(b.black[k] && b.white[k])
  }

  /** Square k holds a disk of either side. */
  predicate Occupied(b: Board, k: nat)
    requires k < Width
  {
    b.black[k] || b.white[k]
  }

  /** Every square has a bit index in 0..63, and decoding that index gives
      the square back. */
  lemma IndexRoundTrip(row: int, col: int)
    requires 1 <= row <= 8 && 1 <= col <= 8
    ensures 0 <= BoardBitIndex(row, col) < Width
    ensures BitPosToMove(BoardBitIndex(row, col)) == Move(row, col)
  {
    var k := BoardBitIndex(row, col);
    assert k == 8 * (8 - row) + (8 - col);
    assert k / 8 == 8 - row && k % 8 == 8 - col;
  }

  /** Every bit position decodes to a square on the board whose index is
      that bit position. */
  lemma BitPosRoundTrip(k: int)
    requires 0 <= k < Width
    ensures OnBoard(BitPosToMove(k)) && Index(BitPosToMove(k)) == k
  {
    assert k == 8 * (k / 8) + k % 8;
  }

  /** Two squares on the board share a bit index only if they are the same square. */
  lemma IndexInjective(m: Move, n: Move)
    requires OnBoard(m) && OnBoard(n)
    ensures Index(m) == Index(n) <==> m == n
  {
    IndexRoundTrip(m.row, m.col);
    IndexRoundTrip(n.row, n.col);
  }

  /** The one-bit mask of a square is `0x1ULL << BOARD_BIT_INDEX(row, col)`,
      as `BOARD_BIT` is written. */
  lemma BoardBitIsMacro(row: int, col: int)
    requires 1 <= row <= 8 && 1 <= col <= 8
    ensures BoardBit(row, col) == Shl(One(), BoardBitIndex(row, col))
  {
  }

  /** The OR of the eight one-bit masks `BOARD_BIT(8, col)`, as `ROW8` is written. */
  lemma Row8IsMacro()
    ensures Row8() == Or(Or(Or(Or(Or(Or(Or(BoardBit(8, 1), BoardBit(8, 2)), BoardBit(8, 3)),
      BoardBit(8, 4)), BoardBit(8, 5)), BoardBit(8, 6)), BoardBit(8, 7)), BoardBit(8, 8))
  {
  }

  /** The OR of the eight one-bit masks `BOARD_BIT(row, 8)`, as `COL8` is written. */
  lemma Col8IsMacro()
    ensures Col8() == Or(Or(Or(Or(Or(Or(Or(BoardBit(1, 8), BoardBit(2, 8)), BoardBit(3, 8)),
      BoardBit(4, 8)), BoardBit(5, 8)), BoardBit(6, 8)), BoardBit(7, 8)), BoardBit(8, 8))
  {
  }

  /** `ROW8`, `COL8` and `COL1` select exactly the squares of row 8, column 8
      and column 1. */
  lemma EdgeMasks(k: int)
    requires 0 <= k < Width
    ensures Row8()[k] <==> BitPosToMove(k).row == 8
    ensures Col8()[k] <==> BitPosToMove(k).col == 8
    ensures Col1()[k] <==> BitPosToMove(k).col == 1
  {
    Col1Bits();
  }

  /** `COL1` holds exactly the bits of column 1: positions congruent to 7 mod 8. */
  lemma Col1Bits()
    ensures forall k :: 0 <= k < Width ==> (Col1()[k] <==> k % 8 == 7)
  {
    forall k | 0 <= k < Width
      ensures Col1()[k] <==> k % 8 == 7
    {
      if k >= 7 {
        assert (k - 7) % 8 == 0 <==> k % 8 == 7;
      }
    }
  }

  /** In the initial position O's disks are on (4,4) and (5,5) and X's on
      (4,5) and (5,4), and nowhere else. */
  lemma StartSquares(s: Move)
    requires OnBoard(s)
    ensures Start().white[Index(s)] <==> s == Move(4, 4) || s == Move(5, 5)
    ensures Start().black[Index(s)] <==> s == Move(4, 5) || s == Move(5, 4)
  {
    IndexInjective(s, Move(4, 4));
    IndexInjective(s, Move(5, 5));
    IndexInjective(s, Move(4, 5));
    IndexInjective(s, Move(5, 4));
  }

  /** The initial position is disjoint, has two disks per side, and puts
      them on the four centre squares. */
  lemma StartPosition()
    ensures Disjoint(Start())
    ensures Count(Start().black) == 2 && Count(Start().white) == 2
    ensures Start().black[Index(Move(4, 5))] && Start().black[Index(Move(5, 4))]
    ensures Start().white[Index(Move(4, 4))] && Start().white[Index(Move(5, 5))]
  {
    var x1, x2 := Index(Move(4, 5)), Index(Move(5, 4));
    var o1, o2 := Index(Move(4, 4)), Index(Move(5, 5));
    assert Start().black == Zero()[x1 := true][x2 := true];
    assert Start().white == Zero()[o1 := true][o2 := true];
    CountOfZero();
    CountUpdate(Zero(), x1, true);
    CountUpdate(Zero()[x1 := true], x2, true);
    CountUpdate(Zero(), o1, true);
    CountUpdate(Zero()[o1 := true], o2, true);
  }
}
