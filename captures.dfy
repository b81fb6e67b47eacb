/** What a move does to the disk counts: the captured squares are exactly
    opponent disks, there are `FlipCount` of them, and playing a move on a
    well-formed board adds the captures plus the placed disk to the mover
    and takes the captures from the opponent. */
module Captures {
  import opened Masks
  import opened Bitboard
  import opened Flips

  /** Extending a run by one step sets exactly the bit of the new square. */
  lemma RunMaskExtend(m: Move, d: Move, n: nat)
    requires IsDirection(d) && n >= 1 && OnBoard(Step(m, d, n))
    ensures 0 <= Index(Step(m, d, n)) < Width
    ensures !RunMask(m, d, n - 1)[Index(Step(m, d, n))]
    ensures RunMask(m, d, n) == RunMask(m, d, n - 1)[Index(Step(m, d, n)) := true]
  {
    var s := Step(m, d, n);
    IndexRoundTrip(s.row, s.col);
    var idx := Index(s);
    OnRunStep(m, d, n - 1, n);
    forall k | 0 <= k < Width
      ensures RunMask(m, d, n)[k] == RunMask(m, d, n - 1)[idx := true][k]
    {
      var sk := BitPosToMove(k);
      BitPosRoundTrip(k);
      IndexInjective(sk, s);
      OnRunStep(m, d, n, n);
    }
  }

  /** A run of n squares that all lie on the board covers n bits. */
  lemma {:induction false} RunMaskCount(m: Move, d: Move, n: nat)
    requires IsDirection(d)
    requires forall j :: 1 <= j <= n ==> OnBoard(Step(m, d, j))
    ensures Count(RunMask(m, d, n)) == n
  {
    if n == 0 {
      assert RunMask(m, d, 0) == Zero();
      CountOfZero();
    } else {
      RunMaskCount(m, d, n - 1);
      RunMaskExtend(m, d, n);
      CountUpdate(RunMask(m, d, n - 1), Index(Step(m, d, n)), true);
    }
  }

  /** The run a probe reports lies on the board and holds opponent disks only. */
  lemma RunInOpp(b: Board, c: Color, m: Move, d: Move)
    requires IsDirection(d)
    ensures forall j :: 1 <= j <= Gain(TryFlipsProbe(m, d, b, c)) ==> OnBoard(Step(m, d, j))
    ensures forall k :: 0 <= k < Width && RunMask(m, d, Gain(TryFlipsProbe(m, d, b, c)))[k] ==>
      b.Disks(Other(c))[k]
  {
    var r := TryFlipsProbe(m, d, b, c);
    ProbeAnchored(m, d, b, c);
    forall k | 0 <= k < Width && RunMask(m, d, Gain(r))[k]
      ensures b.Disks(Other(c))[k]
    {
      BitPosRoundTrip(k);
      var sk := BitPosToMove(k);
      assert Opp(b, c, Step(m, d, RayDist(m, d, sk)));
    }
  }

  /** The run of direction i shares no square with the captures of the
      directions before it. */
  lemma RunAfterCaptures(b: Board, c: Color, m: Move, i: nat)
    requires i < |Offsets|
    ensures And(CaptureUpTo(b, c, m, i), RunMask(m, Offsets[i], GainOf(b, c, m, i))) == Zero()
  {
    OffsetsTable();
    var cap := CaptureUpTo(b, c, m, i);
    var d := Offsets[i];
    var run := RunMask(m, d, GainOf(b, c, m, i));
    forall k | 0 <= k < Width
      ensures !(cap[k] && run[k])
    {
      CaptureUpToIff(b, c, m, i, k);
      if cap[k] && run[k] {
        var sk := BitPosToMove(k);
        var t :| 0 <= t < i && OnRun(m, Offsets[t], GainOf(b, c, m, t), sk);
        RaysDisjoint(m, Offsets[t], d, RayDist(m, Offsets[t], sk), RayDist(m, d, sk));
      }
    }
  }

  /** The captures of the first i directions are opponent disks, and there
      are as many of them as `FlipDisks` counts. */
  lemma {:induction false} CaptureFacts(b: Board, c: Color, m: Move, i: nat)
    requires i <= |Offsets|
    ensures forall k :: 0 <= k < Width && CaptureUpTo(b, c, m, i)[k] ==> b.Disks(Other(c))[k]
    ensures Count(CaptureUpTo(b, c, m, i)) == FlipsUpTo(b, c, m, i)
  {
    if i == 0 {
      CountOfZero();
    } else {
      OffsetsTable();
      CaptureFacts(b, c, m, i - 1);
      var cap := CaptureUpTo(b, c, m, i - 1);
      var d := Offsets[i - 1];
      var run := RunMask(m, d, GainOf(b, c, m, i - 1));
      RunInOpp(b, c, m, d);
      RunMaskCount(m, d, GainOf(b, c, m, i - 1));
      RunAfterCaptures(b, c, m, i - 1);
      assert And(cap, run) == Zero();
      CountOfZero();
      CountOrAnd(cap, run);
    }
  }

  /** The move's own square is never among its captures. */
  lemma CaptureAvoidsMove(b: Board, c: Color, m: Move)
    requires OnBoard(m)
    ensures !CaptureMask(b, c, m)[Index(m)]
  {
    IndexRoundTrip(m.row, m.col);
    CaptureUpToIff(b, c, m, |Offsets|, Index(m));
    OffsetsTable();
    forall t | 0 <= t < |Offsets|
      ensures !OnRun(m, Offsets[t], GainOf(b, c, m, t), m)
    {
      RayAvoidsOrigin(m, Offsets[t], GainOf(b, c, m, t));
    }
  }

  /** `FlipDisks` counts exactly the squares it turns over. */
  lemma FlipCountIsCaptured(b: Board, c: Color, m: Move)
    ensures Count(CaptureMask(b, c, m)) == FlipCount(b, c, m)
    ensures forall k :: 0 <= k < Width && CaptureMask(b, c, m)[k] ==> b.Disks(Other(c))[k]
  {
    CaptureFacts(b, c, m, |Offsets|);
  }

  /** A move that captures nothing leaves the board as it was, apart from
      the placed disk. */
  lemma NoFlipsNoChange(b: Board, c: Color, m: Move)
    requires FlipCount(b, c, m) == 0
    ensures Captured(b, c, m) == b
  {
    FlipCountIsCaptured(b, c, m);
    CountZeroIff(CaptureMask(b, c, m));
    ZeroIff(CaptureMask(b, c, m));
    ApplyZero(b, c);
  }

  /** Playing a move on a well-formed board at an empty square: the mover
      gains the captured disks and the placed one, the opponent loses the
      captured disks, and no square ends with both colours. */
  lemma MakeMoveCounts(b: Board, c: Color, m: Move)
    requires Disjoint(b) && OnBoard(m)
    requires !Occupied(b, Index(m))
    ensures Count(Play(b, c, m).Disks(c)) == Count(b.Disks(c)) + FlipCount(b, c, m) + 1
    ensures Count(Play(b, c, m).Disks(Other(c))) == Count(b.Disks(Other(c))) - FlipCount(b, c, m)
    ensures Count(Play(b, c, m).black) + Count(Play(b, c, m).white) == Count(b.black) + Count(b.white) + 1
    ensures Disjoint(Play(b, c, m))
  {
    var cap := CaptureMask(b, c, m);
    var bit := MoveToBoardBit(m);
    var all := Or(cap, bit);
    IndexRoundTrip(m.row, m.col);
    var idx := Index(m);
    FlipCountIsCaptured(b, c, m);
    CaptureAvoidsMove(b, c, m);
    ApplyCompose(b, c, cap, bit);
    assert Play(b, c, m) == Apply(b, c, all);
    // The placed square is new: |cap ∪ bit| = |cap| + 1.
    assert And(cap, bit) == Zero();
    assert bit == Zero()[idx := true];
    CountOfZero();
    CountUpdate(Zero(), idx, true);
    CountOrAnd(cap, bit);
    // None of those squares was the mover's.
    var mine := b.Disks(c);
    assert And(mine, all) == Zero();
    CountOrAnd(mine, all);
    assert Apply(b, c, all).Disks(c) == Or(mine, all);
    // Of those squares, exactly the captured ones were the opponent's.
    var theirs := b.Disks(Other(c));
    assert And(theirs, all) == cap;
    CountAndNot(theirs, all);
    assert Apply(b, c, all).Disks(Other(c)) == And(theirs, Not(all));
    ApplyPreservesDisjoint(b, c, all);
  }
}
