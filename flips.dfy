/** The flip engine: walking one ray from a move (`TryFlips`), summing the
    eight rays (`FlipDisks`), placing a disk (`PlaceOrFlip`) and playing a
    move on a copy of the board (`MakeMove`). */
module Flips {
  import opened Masks
  import opened Bitboard

  /** A unit step in one of the eight compass directions. */
  predicate IsDirection(d: Move) {
    -1 <= d.row <= 1 && -1 <= d.col <= 1 && d != Move(0, 0)
  }

  /** The direction table holds the eight compass directions, each once. */
  lemma OffsetsTable()
    ensures |Offsets| == 8
    ensures forall i :: 0 <= i < 8 ==> IsDirection(Offsets[i])
    ensures forall i, j :: 0 <= i < j < 8 ==> Offsets[i] != Offsets[j]
    ensures forall d :: IsDirection(d) ==> d in Offsets
  {
  }

  /** j times a unit component u in -1..1. */
  function Scale(j: int, u: int): int {
    if u > 0 then j else if u < 0 then -j else 0
  }

  /** The square j steps from m along direction d. */
  function Step(m: Move, d: Move, j: int): Move {
    Move(m.row + Scale(j, d.row), m.col + Scale(j, d.col))
  }

  /** How many more steps along d can stay on the board: the measure that
      the recursion of `TryFlips` decreases. */
  function Room(m: Move, d: Move): nat {
    Span(m.row, d.row) + Span(m.col, d.col)
  }

  function Span(x: int, u: int): nat {
    if u > 0 then (if x < 8 then 8 - x else 0)
    else if u < 0 then (if x > 1 then x - 1 else 0)
    else 0
  }

  /** Square s holds a disk of c's opponent. */
  predicate Opp(b: Board, c: Color, s: Move) {
    OnBoard(s) && b.Disks(Other(c))[Index(s)]
  }

  /** Square s holds a disk of c (the opponent's mask is tested first,
      as `TryFlips` does). */
  predicate Mine(b: Board, c: Color, s: Move) {
    OnBoard(s) && !b.Disks(Other(c))[Index(s)] && b.Disks(c)[Index(s)]
  }

  /** The rule of capture along one ray: the n squares after m along d hold
      opponent disks and the square after them holds one of c's disks. */
  ghost predicate Anchored(b: Board, c: Color, m: Move, d: Move, n: nat) {
    && (forall j :: 1 <= j <= n ==> Opp(b, c, Step(m, d, j)))
    && Mine(b, c, Step(m, d, n + 1))
  }

  lemma StepShift(m: Move, d: Move)
    ensures forall j :: Step(Step(m, d, 1), d, j) == Step(m, d, j + 1)
  {
  }

  /** A run of n + 1 opponent disks from m is an opponent disk next to m
      followed by a run of n from there. */
  lemma AnchoredShift(b: Board, c: Color, m: Move, d: Move)
    ensures forall n: nat :: Anchored(b, c, m, d, n + 1) <==>
      Opp(b, c, Step(m, d, 1)) && Anchored(b, c, Step(m, d, 1), d, n)
  {
    StepShift(m, d);
    forall n: nat
      ensures Anchored(b, c, m, d, n + 1) <==>
        Opp(b, c, Step(m, d, 1)) && Anchored(b, c, Step(m, d, 1), d, n)
    {
      var next := Step(m, d, 1);
      if Opp(b, c, next) && Anchored(b, c, next, d, n) {
        forall j | 1 <= j <= n + 1
          ensures Opp(b, c, Step(m, d, j))
        {
          if j > 1 {
            assert Step(m, d, j) == Step(next, d, j - 1);
          }
        }
      }
    }
  }

  /** No run is anchored from m when the square after m holds an opponent
      disk from which no run is anchored. */
  lemma NoRunPastOpponent(b: Board, c: Color, m: Move, d: Move)
    requires Opp(b, c, Step(m, d, 1))
    requires forall n: nat :: !Anchored(b, c, Step(m, d, 1), d, n)
    ensures forall n: nat :: !Anchored(b, c, m, d, n)
  {
    AnchoredShift(b, c, m, d);
    forall n: nat
      ensures !Anchored(b, c, m, d, n)
    {
      if n > 0 {
        assert !Anchored(b, c, Step(m, d, 1), d, n - 1);
      }
    }
  }

  /** The probe path of `TryFlips` (`domove == 0`): 0 if the ray from m
      leaves the board or reaches an empty square before one of c's disks,
      otherwise 1 + the number of opponent disks before that anchor. */
  function TryFlipsProbe(m: Move, offset: Move, b: Board, color: Color): nat
    requires IsDirection(offset)
    decreases Room(m, offset)
  {
    var next := Move(m.row + offset.row, m.col + offset.col);
    if IsMoveOffBoard(next) then 0
    else if b.Disks(Other(color))[Index(next)] then
      var n := TryFlipsProbe(next, offset, b, color);
      if n != 0 then n + 1 else 0
    else if b.Disks(color)[Index(next)] then 1
    else 0
  }

  /** A positive probe result r reports an anchored run of r - 1 opponent
      disks; a zero result means no run from m is anchored. */
  lemma {:induction false} ProbeAnchored(m: Move, offset: Move, b: Board, color: Color)
    requires IsDirection(offset)
    ensures TryFlipsProbe(m, offset, b, color) > 0 ==>
      Anchored(b, color, m, offset, TryFlipsProbe(m, offset, b, color) - 1)
    ensures TryFlipsProbe(m, offset, b, color) == 0 ==>
      forall n: nat :: !Anchored(b, color, m, offset, n)
    decreases Room(m, offset)
  {
    var next := Move(m.row + offset.row, m.col + offset.col);
    AnchoredShift(b, color, m, offset);
    assert next == Step(m, offset, 1);
    if !IsMoveOffBoard(next) && b.Disks(Other(color))[Index(next)] {
      ProbeAnchored(next, offset, b, color);
      if TryFlipsProbe(next, offset, b, color) == 0 {
        NoRunPastOpponent(b, color, m, offset);
      }
    }
  }

  /** At most one run length is anchored along a ray. */
  lemma AnchoredUnique(b: Board, c: Color, m: Move, d: Move, n1: nat, n2: nat)
    requires Anchored(b, c, m, d, n1) && Anchored(b, c, m, d, n2)
    ensures n1 == n2
  {
    if n1 < n2 {
      assert false;
    } else if n2 < n1 {
      assert false;
    }
  }

  /** The probe returns n + 1 exactly when a run of n opponent disks is anchored. */
  lemma ProbeIff(m: Move, d: Move, b: Board, c: Color, n: nat)
    requires IsDirection(d)
    ensures TryFlipsProbe(m, d, b, c) == n + 1 <==> Anchored(b, c, m, d, n)
  {
    var r := TryFlipsProbe(m, d, b, c);
    ProbeAnchored(m, d, b, c);
    if Anchored(b, c, m, d, n) && r > 0 {
      AnchoredUnique(b, c, m, d, r - 1, n);
    }
  }

  /** The disks a probe result captures: the run, without the anchor. */
  function Gain(r: nat): nat {
    if r > 0 then r - 1 else 0
  }

  /** How far s lies from m along d (meaningful when s is on that ray). */
  function RayDist(m: Move, d: Move, s: Move): int {
    if d.row != 0 then Scale(s.row - m.row, d.row) else Scale(s.col - m.col, d.col)
  }

  /** s is one of the first n squares after m along d. */
  predicate OnRun(m: Move, d: Move, n: nat, s: Move) {
    var j := RayDist(m, d, s);
    1 <= j <= n && Step(m, d, j) == s
  }

  lemma OnRunStep(m: Move, d: Move, n: nat, j: int)
    requires IsDirection(d)
    ensures OnRun(m, d, n, Step(m, d, j)) <==> 1 <= j <= n
  {
    assert RayDist(m, d, Step(m, d, j)) == j;
  }

  /** The mask of the first n squares after m along d. */
  function RunMask(m: Move, d: Move, n: nat): Mask {
    seq(Width, k => OnRun(m, d, n, BitPosToMove(k)))
  }

  /** Two boards agree on square k. */
  predicate SameSquare(b1: Board, b2: Board, k: nat)
    requires k < Width
  {
    b1.black[k] == b2.black[k] && b1.white[k] == b2.white[k]
  }

  /** The board with the squares of M turned over to c: set in `disks[c]`,
      cleared in the opponent's mask. */
  function Apply(b: Board, c: Color, M: Mask): Board {
    if c == XBlack then Board(Or(b.black, M), And(b.white, Not(M)))
    else Board(And(b.black, Not(M)), Or(b.white, M))
  }

  lemma ApplyAt(b: Board, c: Color, M: Mask, k: nat)
    requires k < Width
    ensures Apply(b, c, M).Disks(c)[k] == (b.Disks(c)[k] || M[k])
    ensures Apply(b, c, M).Disks(Other(c))[k] == (b.Disks(Other(c))[k] && !M[k])
    ensures !M[k] ==> SameSquare(Apply(b, c, M), b, k)
  {
  }

  /** Turning over A and then B is turning over both at once. */
  lemma ApplyCompose(b: Board, c: Color, A: Mask, B: Mask)
    ensures Apply(Apply(b, c, A), c, B) == Apply(b, c, Or(A, B))
  {
    var l, r := Apply(Apply(b, c, A), c, B), Apply(b, c, Or(A, B));
    assert l.Disks(c) == r.Disks(c);
    assert l.Disks(Other(c)) == r.Disks(Other(c));
  }

  lemma ApplyZero(b: Board, c: Color)
    ensures Apply(b, c, Zero()) == b
  {
    var r := Apply(b, c, Zero());
    assert r.Disks(c) == b.Disks(c);
    assert r.Disks(Other(c)) == b.Disks(Other(c));
  }

  /** Turning squares over never puts a disk of each side on one square. */
  lemma ApplyPreservesDisjoint(b: Board, c: Color, M: Mask)
    requires Disjoint(b)
    ensures Disjoint(Apply(b, c, M))
  {
    forall k | 0 <= k < Width
      ensures !(Apply(b, c, M).black[k] && Apply(b, c, M).white[k])
    {
      ApplyAt(b, c, M, k);
    }
  }

  /** What `PlaceOrFlip` leaves: square m belongs to c. */
  function Placed(b: Board, c: Color, m: Move): Board
    requires OnBoard(m)
  {
    Apply(b, c, MoveToBoardBit(m))
  }

  /** Square m is set in `disks[color]` and cleared in the other mask;
      every other square keeps what it had. */
  method PlaceOrFlip(m: Move, b: Board, color: Color) returns (nb: Board)
    requires OnBoard(m)
    ensures nb == Placed(b, color, m)
    ensures nb.Disks(color)[Index(m)] && !nb.Disks(Other(color))[Index(m)]
    ensures forall k :: 0 <= k < Width && k != Index(m) ==> SameSquare(nb, b, k)
  {
    var bit := MoveToBoardBit(m);
    nb := b.WithDisks(color, Or(b.Disks(color), bit));
    nb := nb.WithDisks(Other(color), And(nb.Disks(Other(color)), Not(bit)));
  }

  /** Placing is idempotent and keeps the two masks disjoint. */
  lemma PlacedIdempotentDisjoint(b: Board, c: Color, m: Move)
    requires OnBoard(m)
    ensures Placed(Placed(b, c, m), c, m) == Placed(b, c, m)
    ensures Disjoint(b) ==> Disjoint(Placed(b, c, m))
  {
    var bit := MoveToBoardBit(m);
    ApplyCompose(b, c, bit, bit);
    assert Or(bit, bit) == bit;
    if Disjoint(b) {
      ApplyPreservesDisjoint(b, c, bit);
    }
  }

  /** The mask test `bit & mask` of a one-square mask reads that square. */
  lemma BitTest(m: Move, D: Mask)
    requires OnBoard(m)
    ensures And(MoveToBoardBit(m), D) != Zero() <==> D[Index(m)]
  {
    var a := And(MoveToBoardBit(m), D);
    if D[Index(m)] {
      assert a[Index(m)] != Zero()[Index(m)];
    } else {
      assert a == Zero();
    }
  }

  /** A run from m is the square next to m followed by the run from there. */
  lemma RunMaskStep(m: Move, d: Move, n: nat)
    requires IsDirection(d) && n >= 1 && OnBoard(Step(m, d, 1))
    ensures Or(RunMask(Step(m, d, 1), d, n - 1), MoveToBoardBit(Step(m, d, 1))) == RunMask(m, d, n)
  {
    var next := Step(m, d, 1);
    StepShift(m, d);
    forall k | 0 <= k < Width
      ensures Or(RunMask(next, d, n - 1), MoveToBoardBit(next))[k] == RunMask(m, d, n)[k]
    {
      var s := BitPosToMove(k);
      BitPosRoundTrip(k);
      IndexInjective(s, next);
      assert RayDist(next, d, s) == RayDist(m, d, s) - 1;
      if OnRun(next, d, n - 1, s) {
        assert Step(m, d, RayDist(m, d, s)) == Step(next, d, RayDist(next, d, s));
      }
      if OnRun(m, d, n, s) && RayDist(m, d, s) > 1 {
        assert Step(m, d, RayDist(m, d, s)) == Step(next, d, RayDist(next, d, s));
      }
    }
  }

  /** `TryFlips`: walks the ray from m along `offset`. With `domove`, the
      opponent disks of an anchored run are turned over to `color`; the
      board is unchanged otherwise. */
  method TryFlips(m: Move, offset: Move, b: Board, color: Color, domove: bool) returns (nflips: nat, nb: Board)
    requires IsDirection(offset)
    ensures nflips == TryFlipsProbe(m, offset, b, color)
    ensures nb == if domove && nflips > 1 then Apply(b, color, RunMask(m, offset, nflips - 1)) else b
    decreases Room(m, offset)
  {
    nb := b;
    var next := Move(m.row + offset.row, m.col + offset.col);
    assert next == Step(m, offset, 1);
    if !IsMoveOffBoard(next) {
      var nextbit := MoveToBoardBit(next);
      BitTest(next, b.Disks(Other(color)));
      BitTest(next, b.Disks(color));
      if And(nextbit, b.Disks(Other(color))) != Zero() {
        var n;
        n, nb := TryFlips(next, offset, b, color, domove);
        if n != 0 {
          if domove {
            var inner := nb;
            nb := PlaceOrFlip(next, inner, color);
            RunMaskStep(m, offset, n);
            ApplyCompose(b, color, RunMask(next, offset, n - 1), nextbit);
            if n == 1 {
              assert RunMask(next, offset, 0) == Zero();
              ApplyZero(b, color);
            }
          }
          return n + 1, nb;
        }
      } else if And(nextbit, b.Disks(color)) != Zero() {
        return 1, nb;
      }
    }
    return 0, nb;
  }

  /** The captured-disk count of direction t. */
  function GainOf(b: Board, c: Color, m: Move, t: nat): nat
    requires t < |Offsets|
  {
    OffsetsTable();
    Gain(TryFlipsProbe(m, Offsets[t], b, c))
  }

  /** The captures of the first i directions, summed. */
  function FlipsUpTo(b: Board, c: Color, m: Move, i: nat): nat
    requires i <= |Offsets|
  {
    if i == 0 then 0 else FlipsUpTo(b, c, m, i - 1) + GainOf(b, c, m, i - 1)
  }

  /** The number of opponent disks a move of c at m captures, over all
      eight directions. */
  function FlipCount(b: Board, c: Color, m: Move): nat {
    FlipsUpTo(b, c, m, |Offsets|)
  }

  /** The squares captured in the first i directions. */
  function CaptureUpTo(b: Board, c: Color, m: Move, i: nat): Mask
    requires i <= |Offsets|
  {
    if i == 0 then Zero()
    else Or(CaptureUpTo(b, c, m, i - 1), RunMask(m, Offsets[i - 1], GainOf(b, c, m, i - 1)))
  }

  /** The squares a move of c at m captures. */
  function CaptureMask(b: Board, c: Color, m: Move): Mask {
    CaptureUpTo(b, c, m, |Offsets|)
  }

  /** The board after the captures of a move of c at m (without the placed disk). */
  function Captured(b: Board, c: Color, m: Move): Board {
    Apply(b, c, CaptureMask(b, c, m))
  }

  /** The board after c plays at m: captures, then the placed disk. */
  function Play(b: Board, c: Color, m: Move): Board
    requires OnBoard(m)
  {
    Placed(Captured(b, c, m), c, m)
  }

  /** Rays from one square in two different directions never meet. */
  lemma RaysDisjoint(m: Move, d1: Move, d2: Move, j1: int, j2: int)
    requires IsDirection(d1) && IsDirection(d2) && d1 != d2 && j1 >= 1 && j2 >= 1
    ensures Step(m, d1, j1) != Step(m, d2, j2)
  {
  }

  /** A ray never returns to its origin. */
  lemma RayAvoidsOrigin(m: Move, d: Move, n: nat)
    requires IsDirection(d)
    ensures !OnRun(m, d, n, m)
  {
  }

  /** Every captured square lies on the run of one of the directions used,
      and every square of those runs is captured. */
  lemma {:induction false} CaptureUpToIff(b: Board, c: Color, m: Move, i: nat, k: nat)
    requires i <= |Offsets| && k < Width
    ensures CaptureUpTo(b, c, m, i)[k] <==>
      exists t :: 0 <= t < i && OnRun(m, Offsets[t], GainOf(b, c, m, t), BitPosToMove(k))
  {
    if i > 0 {
      CaptureUpToIff(b, c, m, i - 1, k);
      var s := BitPosToMove(k);
      var last := OnRun(m, Offsets[i - 1], GainOf(b, c, m, i - 1), s);
      assert CaptureUpTo(b, c, m, i)[k] == (CaptureUpTo(b, c, m, i - 1)[k] || last);
      if exists t :: 0 <= t < i && OnRun(m, Offsets[t], GainOf(b, c, m, t), s) {
        var t :| 0 <= t < i && OnRun(m, Offsets[t], GainOf(b, c, m, t), s);
        if t < i - 1 {
          assert CaptureUpTo(b, c, m, i - 1)[k];
        }
      }
    }
  }

  /** The squares on the ray of direction i are untouched by the captures of
      the directions before it. */
  lemma RayUntouched(b: Board, c: Color, m: Move, i: nat, j: int)
    requires i < |Offsets| && j >= 1 && OnBoard(Step(m, Offsets[i], j))
    ensures !CaptureUpTo(b, c, m, i)[Index(Step(m, Offsets[i], j))]
  {
    OffsetsTable();
    var s := Step(m, Offsets[i], j);
    IndexRoundTrip(s.row, s.col);
    CaptureUpToIff(b, c, m, i, Index(s));
    if CaptureUpTo(b, c, m, i)[Index(s)] {
      var t :| 0 <= t < i && OnRun(m, Offsets[t], GainOf(b, c, m, t), BitPosToMove(Index(s)));
      RaysDisjoint(m, Offsets[t], Offsets[i], RayDist(m, Offsets[t], s), j);
    }
  }

  /** The probe depends only on the squares of its ray. */
  lemma {:induction false} ProbeAgree(m: Move, d: Move, b1: Board, b2: Board, c: Color)
    requires IsDirection(d)
    requires forall j :: j >= 1 && OnBoard(Step(m, d, j)) ==> SameSquare(b1, b2, Index(Step(m, d, j)))
    ensures TryFlipsProbe(m, d, b1, c) == TryFlipsProbe(m, d, b2, c)
    decreases Room(m, d)
  {
    var next := Move(m.row + d.row, m.col + d.col);
    assert next == Step(m, d, 1);
    if OnBoard(next) {
      assert SameSquare(b1, b2, Index(next));
      StepShift(m, d);
      forall j | j >= 1 && OnBoard(Step(next, d, j))
        ensures SameSquare(b1, b2, Index(Step(next, d, j)))
      {
        assert Step(next, d, j) == Step(m, d, j + 1);
      }
      ProbeAgree(next, d, b1, b2, c);
    }
  }

  /** The probe of direction i sees the same ray after the captures of the
      directions before it: the eight rays are disjoint. */
  lemma ProbeUnchangedByCapture(b: Board, c: Color, m: Move, i: nat)
    requires i < |Offsets|
    ensures TryFlipsProbe(m, Offsets[i], Apply(b, c, CaptureUpTo(b, c, m, i)), c)
      == TryFlipsProbe(m, Offsets[i], b, c)
  {
    OffsetsTable();
    var d := Offsets[i];
    var cap := CaptureUpTo(b, c, m, i);
    forall j | j >= 1 && OnBoard(Step(m, d, j))
      ensures SameSquare(Apply(b, c, cap), b, Index(Step(m, d, j)))
    {
      RayUntouched(b, c, m, i, j);
      ApplyAt(b, c, cap, Index(Step(m, d, j)));
    }
    ProbeAgree(m, d, Apply(b, c, cap), b, c);
  }

  /** One pass of the direction loop of `FlipDisks`: probes direction i
      (capturing along it with `domove`) and adds its gain to the count. */
  method FlipDirection(m: Move, b: Board, color: Color, domove: bool, i: nat, nflips: nat, nb: Board)
    returns (nflips': nat, nb': Board)
    requires i < |Offsets|
    requires nflips == FlipsUpTo(b, color, m, i)
    requires nb == if domove then Apply(b, color, CaptureUpTo(b, color, m, i)) else b
    ensures nflips' == FlipsUpTo(b, color, m, i + 1)
    ensures nb' == if domove then Apply(b, color, CaptureUpTo(b, color, m, i + 1)) else b
  {
    OffsetsTable();
    ProbeUnchangedByCapture(b, color, m, i);
    var flipresult, after := TryFlips(m, Offsets[i], nb, color, domove);
    if domove {
      var run := RunMask(m, Offsets[i], GainOf(b, color, m, i));
      if flipresult > 1 {
        ApplyCompose(b, color, CaptureUpTo(b, color, m, i), run);
      } else {
        assert run == Zero();
        assert Or(CaptureUpTo(b, color, m, i), run) == CaptureUpTo(b, color, m, i);
      }
    }
    nb' := after;
    nflips' := nflips;
    if flipresult > 0 {
      nflips' := nflips + (flipresult - 1);
    }
  }

  /** `FlipDisks`: sums the captures of the eight directions. As a probe
      (`domove` false) the board is unchanged; with `domove` the captures
      are made, and they are the ones the probe counts. */
  method FlipDisks(m: Move, b: Board, color: Color, domove: bool) returns (nflips: nat, nb: Board)
    ensures nflips == FlipCount(b, color, m)
    ensures nb == if domove then Captured(b, color, m) else b
  {
    OffsetsTable();
    nflips := 0;
    nb := b;
    ApplyZero(b, color);
    for i := 0 to |Offsets|
      invariant nflips == FlipsUpTo(b, color, m, i)
      invariant nb == if domove then Apply(b, color, CaptureUpTo(b, color, m, i)) else b
    {
      nflips, nb := FlipDirection(m, b, color, domove, i, nflips, nb);
    }
  }

  /** `MakeMove`: copies the board, makes the captures, then places the disk;
      returns the number of captured disks. */
  method MakeMove(oldBoard: Board, color: Color, m: Move) returns (flipped: nat, newBoard: Board)
    requires OnBoard(m)
    ensures flipped == FlipCount(oldBoard, color, m)
    ensures newBoard == Play(oldBoard, color, m)
  {
    newBoard := oldBoard;
    flipped, newBoard := FlipDisks(m, newBoard, color, true);
    newBoard := PlaceOrFlip(m, newBoard, color);
  }
}
