/** Legal moves: the neighbour candidates of `NeighborMoves`, the rule of
    Othello (`IsLegalMove`), its mask (`LegalMask`) and the bit-scan loop
    `EnumerateLegalMoves` that computes it. */
module Legality {
  import opened Masks
  import opened Bitboard
  import opened Flips

  /** Some square next to s holds an opponent disk. */
  predicate OpponentAdjacent(b: Board, c: Color, s: Move) {
    exists t :: 0 <= t < |Offsets| && Opp(b, c, Step(s, Offsets[t], 1))
  }

  /** The shift of D for one direction d of `NeighborMoves`: bit k is set
      when the square one step back from square k along d is on the board
      and set in D. Shifts past the top or bottom row drop out, and the
      column mask removes the bits that would wrap from one column edge
      to the other. */
  function DirectionNeighbors(D: Mask, d: Move): (r: Mask)
    requires IsDirection(d)
    ensures forall k :: 0 <= k < Width ==>
      (r[k] <==> OnBoard(Step(BitPosToMove(k), d, -1)) && D[Index(Step(BitPosToMove(k), d, -1))])
  {
    var colmask := if d.col != 0 then (if d.col > 0 then Col1() else Col8()) else Zero();
    var off := d.row * 8 + d.col;
    var r := if off > 0 then And(Shr(D, off), Not(colmask)) else And(Shl(D, -off), Not(colmask));
    assert forall k :: 0 <= k < Width ==>
      (r[k] <==> OnBoard(Step(BitPosToMove(k), d, -1)) && D[Index(Step(BitPosToMove(k), d, -1))]) by {
      forall k | 0 <= k < Width
        ensures r[k] <==> OnBoard(Step(BitPosToMove(k), d, -1)) && D[Index(Step(BitPosToMove(k), d, -1))]
      {
        ShiftedBit(D, off, colmask, r, k);
        ColMaskBit(d, k);
        NeighborBit(D, d, colmask[k], r[k], k);
      }
    }
    r
  }

  /** Bit k of one shifted, column-masked mask of `NeighborMoves`, given
      the bit of the shift (rk) and of the column mask (cm) at k. */
  lemma NeighborBit(D: Mask, d: Move, cm: bool, rk: bool, k: int)
    requires IsDirection(d) && 0 <= k < Width
    requires cm <==> (d.col > 0 && k % 8 == 7) || (d.col < 0 && k % 8 == 0)
    requires rk <==> 0 <= k + d.row * 8 + d.col < Width && D[k + d.row * 8 + d.col] && !cm
    ensures rk <==> OnBoard(Step(BitPosToMove(k), d, -1)) && D[Index(Step(BitPosToMove(k), d, -1))]
  {
    BackStep(k, d);
  }

  /** Bit k of `(D >> off) & ~colmask` (off positive) or of
      `(D << -off) & ~colmask` (off zero or negative). */
  lemma ShiftedBit(D: Mask, off: int, colmask: Mask, r: Mask, k: int)
    requires 0 <= k < Width
    requires r == if off > 0 then And(Shr(D, off), Not(colmask)) else And(Shl(D, -off), Not(colmask))
    ensures r[k] <==> 0 <= k + off < Width && D[k + off] && !colmask[k]
  {
    if off > 0 {
      assert r[k] == (Shr(D, off)[k] && !colmask[k]);
    } else {
      assert r[k] == (Shl(D, -off)[k] && !colmask[k]);
    }
  }

  /** The column mask of a direction in `NeighborMoves`: `COL1` for a step
      to the right, `COL8` for a step to the left, nothing otherwise. */
  lemma ColMaskBit(d: Move, k: int)
    requires 0 <= k < Width
    ensures (if d.col != 0 then (if d.col > 0 then Col1() else Col8()) else Zero())[k] <==>
      (d.col > 0 && k % 8 == 7) || (d.col < 0 && k % 8 == 0)
  {
    Col1Bits();
  }

  /** The square one step back along d from the square of bit k is on the
      board exactly when bit k + off is, for `off = row * 8 + col` of d, and
      k is not on the column edge the step would wrap across; it is then
      the square of bit k + off. */
  lemma BackStep(k: int, d: Move)
    requires 0 <= k < Width && IsDirection(d)
    ensures OnBoard(Step(BitPosToMove(k), d, -1)) <==>
      && 0 <= k + d.row * 8 + d.col < Width
      && (d.col > 0 ==> k % 8 != 7)
      && (d.col < 0 ==> k % 8 != 0)
    ensures OnBoard(Step(BitPosToMove(k), d, -1)) ==>
      Index(Step(BitPosToMove(k), d, -1)) == k + d.row * 8 + d.col
  {
    var q, rm := k / 8, k % 8;
    assert k == 8 * q + rm && 0 <= rm < 8;
    assert Step(BitPosToMove(k), d, -1) == Move(8 - q - d.row, 8 - rm - d.col);
  }

  /** The index of the reverse of direction t in the direction table. */
  function Reverse(t: nat): (u: nat)
    requires t < |Offsets|
    ensures u < |Offsets| && Offsets[u] == Move(-Offsets[t].row, -Offsets[t].col)
  {
    [1, 0, 3, 2, 6, 7, 4, 5][t]
  }

  /** Looking back along every direction is looking forward along every direction. */
  lemma BackIsForward(b: Board, c: Color, s: Move)
    ensures (exists t :: 0 <= t < |Offsets| && Opp(b, c, Step(s, Offsets[t], -1))) <==> OpponentAdjacent(b, c, s)
  {
    if t :| 0 <= t < |Offsets| && Opp(b, c, Step(s, Offsets[t], -1)) {
      assert Step(s, Offsets[Reverse(t)], 1) == Step(s, Offsets[t], -1);
    }
    if t :| 0 <= t < |Offsets| && Opp(b, c, Step(s, Offsets[t], 1)) {
      assert Step(s, Offsets[Reverse(t)], -1) == Step(s, Offsets[t], 1);
    }
  }

  /** `NeighborMoves`: the empty squares next to an opponent disk, in
      `disks[color]` of a board whose other mask is zero. */
  method NeighborMoves(b: Board, color: Color) returns (neighbors: Board)
    ensures neighbors.Disks(Other(color)) == Zero()
    ensures forall k :: 0 <= k < Width ==>
      (neighbors.Disks(color)[k] <==> !Occupied(b, k) && OpponentAdjacent(b, color, BitPosToMove(k)))
  {
    OffsetsTable();
    var opp := b.Disks(Other(color));
    neighbors := Board(Zero(), Zero());
    for i := 0 to |Offsets|
      invariant neighbors.Disks(Other(color)) == Zero()
      invariant forall k :: 0 <= k < Width ==>
        (neighbors.Disks(color)[k] <==> exists t :: 0 <= t < i && Opp(b, color, Step(BitPosToMove(k), Offsets[t], -1)))
    {
      var dir := DirectionNeighbors(opp, Offsets[i]);
      neighbors := neighbors.WithDisks(color, Or(neighbors.Disks(color), dir));
      forall k | 0 <= k < Width
        ensures neighbors.Disks(color)[k] <==>
          exists t :: 0 <= t < i + 1 && Opp(b, color, Step(BitPosToMove(k), Offsets[t], -1))
      {
        if dir[k] {
          assert Opp(b, color, Step(BitPosToMove(k), Offsets[i], -1));
        }
      }
    }
    neighbors := neighbors.WithDisks(color, And(neighbors.Disks(color), Not(Or(b.Disks(XBlack), b.Disks(OWhite)))));
    forall k | 0 <= k < Width
      ensures neighbors.Disks(color)[k] <==> !Occupied(b, k) && OpponentAdjacent(b, color, BitPosToMove(k))
    {
      BackIsForward(b, color, BitPosToMove(k));
    }
  }

  /** The rule of Othello: a legal move is an empty square on the board from
      which, in some direction, one or more opponent disks are followed by
      one of the mover's disks. */
  ghost predicate IsLegalMove(b: Board, c: Color, m: Move) {
    && OnBoard(m) && !Occupied(b, Index(m))
    && exists t, n: nat :: 0 <= t < |Offsets| && n >= 1 && Anchored(b, c, m, Offsets[t], n)
  }

  /** The squares `EnumerateLegalMoves` keeps: empty, with a positive flip probe. */
  function LegalMask(b: Board, c: Color): Mask {
    seq(Width, k requires 0 <= k < Width => !Occupied(b, k) && FlipCount(b, c, BitPosToMove(k)) > 0)
  }

  /** The flip count of the first i directions is positive exactly when one of
      them has an anchored run of at least one opponent disk. */
  lemma {:induction false} FlipsPositive(b: Board, c: Color, m: Move, i: nat)
    requires i <= |Offsets|
    ensures FlipsUpTo(b, c, m, i) > 0 <==>
      exists t, n: nat :: 0 <= t < i && n >= 1 && Anchored(b, c, m, Offsets[t], n)
  {
    OffsetsTable();
    if i > 0 {
      FlipsPositive(b, c, m, i - 1);
      var d := Offsets[i - 1];
      var r := TryFlipsProbe(m, d, b, c);
      ProbeAnchored(m, d, b, c);
      if GainOf(b, c, m, i - 1) > 0 {
        assert Anchored(b, c, m, d, r - 1);
      }
      if exists n: nat :: n >= 1 && Anchored(b, c, m, d, n) {
        var n: nat :| n >= 1 && Anchored(b, c, m, d, n);
        ProbeIff(m, d, b, c, n);
      }
    }
  }

  /** The mask of `EnumerateLegalMoves` is exactly the set of legal moves. */
  lemma LegalMaskIsRules(b: Board, c: Color, k: nat)
    requires k < Width
    ensures LegalMask(b, c)[k] <==> IsLegalMove(b, c, BitPosToMove(k))
  {
    BitPosRoundTrip(k);
    FlipsPositive(b, c, BitPosToMove(k), |Offsets|);
  }

  /** A legal move is next to an opponent disk, so the neighbour
      candidates include every legal move. */
  lemma LegalIsNeighbor(b: Board, c: Color, k: nat)
    requires k < Width && LegalMask(b, c)[k]
    ensures OpponentAdjacent(b, c, BitPosToMove(k))
  {
    LegalMaskIsRules(b, c, k);
    var m := BitPosToMove(k);
    var t, n: nat :| 0 <= t < |Offsets| && n >= 1 && Anchored(b, c, m, Offsets[t], n);
    assert Opp(b, c, Step(m, Offsets[t], 1));
  }

  /** One step of the bit scan: `x & -x` is the lowest set bit, `ctz` its
      position, and `x ^ (x & -x)` clears it. */
  lemma LowestBitStep(x: Mask)
    requires x != Zero()
    ensures true in x
    ensures And(x, Neg(x)) == Single(Ctz(x))
    ensures true in And(x, Neg(x)) && Ctz(And(x, Neg(x))) == Ctz(x)
    ensures Xor(x, And(x, Neg(x))) == x[Ctz(x) := false]
    ensures Count(Xor(x, And(x, Neg(x)))) == Count(x) - 1
  {
    ZeroIff(x);
    NegIsolatesLowest(x);
    var next := And(x, Neg(x));
    assert next == Single(Ctz(x));
    CtzOfSingle(next, Ctz(x));
    assert Xor(x, next) == x[Ctz(x) := false];
    CountUpdate(x, Ctz(x), false);
  }

  /** One pass of the bit-scan loop of `EnumerateLegalMoves`: takes the
      lowest pending candidate, keeps it when its flip probe is positive,
      and clears it from the pending candidates. */
  method ScanBit(b: Board, color: Color, pending: Mask, legal: Mask, num: nat)
    returns (pending': Mask, legal': Mask, num': nat)
    requires true in pending
    requires !Occupied(b, Ctz(pending))
    requires !legal[Ctz(pending)] && num == Count(legal)
    ensures pending' == pending[Ctz(pending) := false]
    ensures Count(pending') == Count(pending) - 1
    ensures legal' == legal[Ctz(pending) := LegalMask(b, color)[Ctz(pending)]]
    ensures num' == Count(legal')
  {
    ZeroIff(pending);
    LowestBitStep(pending);
    var nextMove := And(pending, Neg(pending));
    var bitpos := Ctz(nextMove);
    var row := 8 - bitpos / 8;
    var col := 8 - bitpos % 8;
    var m := Move(row, col);
    assert m == BitPosToMove(bitpos);
    var n, _ := FlipDisks(m, b, color, false);
    assert LegalMask(b, color)[bitpos] <==> n > 0;
    legal', num' := legal, num;
    if n > 0 {
      SetBit(legal, bitpos);
      legal' := Or(legal, nextMove);
      num' := num + 1;
    }
    pending' := Xor(pending, nextMove);
  }

  /** `EnumerateLegalMoves`: scans the neighbour candidates lowest bit first,
      keeps those with a positive flip probe, and counts them. */
  method EnumerateLegalMoves(b: Board, color: Color) returns (numMoves: nat, legalMoves: Mask)
    ensures legalMoves == LegalMask(b, color)
    ensures numMoves == Count(legalMoves)
  {
    legalMoves := Zero();
    var neighbors := NeighborMoves(b, color);
    var candidates := neighbors.Disks(color);
    var myNeighborMoves := candidates;
    numMoves := 0;
    CountOfZero();
    while myNeighborMoves != Zero()
      invariant forall k :: 0 <= k < Width && myNeighborMoves[k] ==> candidates[k]
      invariant forall k :: 0 <= k < Width ==>
        legalMoves[k] == (candidates[k] && !myNeighborMoves[k] && LegalMask(b, color)[k])
      invariant numMoves == Count(legalMoves)
      decreases Count(myNeighborMoves)
    {
      ZeroIff(myNeighborMoves);
      myNeighborMoves, legalMoves, numMoves := ScanBit(b, color, myNeighborMoves, legalMoves, numMoves);
    }
    forall k | 0 <= k < Width
      ensures legalMoves[k] == LegalMask(b, color)[k]
    {
      if LegalMask(b, color)[k] {
        LegalIsNeighbor(b, color, k);
      }
    }
  }

  /** The legal moves in increasing bit order, the order of
      `EnumerateLegalMoves`' scan and of the serial search loop. */
  function MovesUpTo(L: Mask, k: nat): (ms: seq<Move>)
    requires k <= Width
    ensures |ms| <= k
    ensures forall i :: 0 <= i < |ms| ==> OnBoard(ms[i])
  {
    if k == 0 then []
    else
      BitPosRoundTrip(k - 1);
      MovesUpTo(L, k - 1) + (if L[k - 1] then [BitPosToMove(k - 1)] else [])
  }

  /** One move is listed per set bit. */
  lemma {:induction false} MovesUpToCount(L: Mask, k: nat)
    requires k <= Width
    ensures |MovesUpTo(L, k)| == Count(L[..k])
  {
    if k > 0 {
      MovesUpToCount(L, k - 1);
      assert L[..k][..k - 1] == L[..k - 1];
    }
  }

  /** The legal moves, in increasing bit order. */
  function LegalMoves(b: Board, c: Color): seq<Move> {
    MovesUpTo(LegalMask(b, c), Width)
  }

  /** A square is listed exactly when its bit is set below k; every listed
      square is on the board. */
  lemma MovesUpToMembers(L: Mask, k: nat)
    requires k <= Width
    ensures forall m :: m in MovesUpTo(L, k) ==> OnBoard(m) && 0 <= Index(m) < k && L[Index(m)]
    ensures forall j :: 0 <= j < k && L[j] ==> BitPosToMove(j) in MovesUpTo(L, k)
  {
    forall m | m in MovesUpTo(L, k)
      ensures OnBoard(m) && 0 <= Index(m) < k && L[Index(m)]
    {
      MovesUpToIn(L, k, m);
    }
    forall j | 0 <= j < k && L[j]
      ensures BitPosToMove(j) in MovesUpTo(L, k)
    {
      MovesUpToHas(L, k, j);
    }
  }

  /** A listed square is on the board, below k, and set. */
  lemma {:induction false} MovesUpToIn(L: Mask, k: nat, m: Move)
    requires k <= Width && m in MovesUpTo(L, k)
    ensures OnBoard(m) && 0 <= Index(m) < k && L[Index(m)]
  {
    var prev := MovesUpTo(L, k - 1);
    BitPosRoundTrip(k - 1);
    if m in prev {
      MovesUpToIn(L, k - 1, m);
    } else {
      assert m == BitPosToMove(k - 1);
    }
  }

  /** A set bit below k is listed. */
  lemma {:induction false} MovesUpToHas(L: Mask, k: nat, j: nat)
    requires j < k <= Width && L[j]
    ensures BitPosToMove(j) in MovesUpTo(L, k)
  {
    var prev := MovesUpTo(L, k - 1);
    assert MovesUpTo(L, k) == prev + [BitPosToMove(k - 1)] || MovesUpTo(L, k) == prev;
    if j < k - 1 {
      MovesUpToHas(L, k - 1, j);
    }
  }

  /** The listed legal moves are the legal moves of the rules, and there are
      as many of them as `EnumerateLegalMoves` counts. */
  lemma LegalMovesAreRules(b: Board, c: Color)
    ensures forall m :: m in LegalMoves(b, c) ==> IsLegalMove(b, c, m)
    ensures forall m :: IsLegalMove(b, c, m) ==> m in LegalMoves(b, c)
    ensures |LegalMoves(b, c)| == Count(LegalMask(b, c))
  {
    LegalMovesCount(b, c);
    forall m | m in LegalMoves(b, c)
      ensures IsLegalMove(b, c, m)
    {
      ListedIsLegal(b, c, m);
    }
    forall m | IsLegalMove(b, c, m)
      ensures m in LegalMoves(b, c)
    {
      LegalIsListed(b, c, m);
    }
  }

  /** A listed move is legal by the rules. */
  lemma ListedIsLegal(b: Board, c: Color, m: Move)
    requires m in LegalMoves(b, c)
    ensures IsLegalMove(b, c, m)
  {
    MovesUpToMembers(LegalMask(b, c), Width);
    IndexRoundTrip(m.row, m.col);
    LegalMaskIsRules(b, c, Index(m));
  }

  /** A move legal by the rules is listed. */
  lemma LegalIsListed(b: Board, c: Color, m: Move)
    requires IsLegalMove(b, c, m)
    ensures m in LegalMoves(b, c)
  {
    MovesUpToMembers(LegalMask(b, c), Width);
    IndexRoundTrip(m.row, m.col);
    LegalMaskIsRules(b, c, Index(m));
  }

  /** One legal move is listed per set bit of the legal mask, so the list
      is as long as `EnumerateLegalMoves`' count. */
  lemma LegalMovesCount(b: Board, c: Color)
    ensures |LegalMoves(b, c)| == Count(LegalMask(b, c))
  {
    var L := LegalMask(b, c);
    MovesUpToCount(L, Width);
    assert L[..Width] == L;
  }
}
