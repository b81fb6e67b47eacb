/** Counting, evaluation and the fixed-depth negamax search. `NegamaxValue`
    is the recursive definition of the search; the methods `Negamax`
    (with its serial and parallel branches) and `NegamaxRoot` are proved
    to compute it. The parallel loops are modelled as in-order loops: the
    maximum they reduce to does not depend on the order (`BestScoreOrderFree`). */
module Search {
  import opened Masks
  import opened Bitboard
  import opened Flips
  import opened Captures
  import opened Legality

  /** `CUTOFF_DEPTH`: at this depth and below the search runs serially. */
  const CutoffDepth: nat := 4

  /** The initial `bestValue` of the search, below every evaluation. */
  const Sentinel: int := -9999999

  /** `CountBitsOnBoard`: clears the lowest set bit until none is left. */
  method CountBitsOnBoard(b: Board, color: Color) returns (ndisks: nat)
    ensures ndisks == Count(b.Disks(color))
    ensures ndisks <= 64
  {
    var bits: Mask := b.Disks(color);
    ndisks := 0;
    while bits != Zero()
      invariant ndisks + Count(bits) == Count(b.Disks(color))
      decreases Count(bits)
    {
      ZeroIff(bits);
      DecClearsLowest(bits);
      CountUpdate(bits, Ctz(bits), false);
      bits := And(bits, Dec(bits));
      ndisks := ndisks + 1;
    }
    CountOfZero();
  }

  /** `EvaluateBoard`: the mover's disks minus the opponent's. */
  function EvaluateBoard(b: Board, color: Color): (v: int)
    ensures -64 <= v <= 64
  {
    Count(b.Disks(color)) - Count(b.Disks(Other(color)))
  }

  /** The evaluation is antisymmetric, and on a well-formed board the two
      counts together are at most the 64 squares. */
  lemma EvaluateFacts(b: Board, c: Color)
    ensures EvaluateBoard(b, c) == -EvaluateBoard(b, Other(c))
    ensures Disjoint(b) ==> Count(b.black) + Count(b.white) <= 64
  {
    if Disjoint(b) {
      assert And(b.black, b.white) == Zero();
      CountOfZero();
      CountOrAnd(b.black, b.white);
    }
  }

  /** Whether `color` has at least one legal move. */
  predicate HasMoves(b: Board, c: Color) {
    true in LegalMask(b, c)
  }

  /** Neither side has a legal move. */
  predicate GameOver(b: Board) {
    !HasMoves(b, XBlack) && !HasMoves(b, OWhite)
  }

  /** `GameIsOver`: both sides' legal moves are enumerated and counted. */
  method GameIsOver(b: Board) returns (over: bool)
    ensures over == GameOver(b)
  {
    var xMoves, xMask := EnumerateLegalMoves(b, XBlack);
    var oMoves, oMask := EnumerateLegalMoves(b, OWhite);
    CountZeroIff(xMask);
    CountZeroIff(oMask);
    over := xMoves == 0 && oMoves == 0;
  }

  lemma NoLegalMove(b: Board, c: Color)
    ensures !HasMoves(b, c) <==> forall m :: !IsLegalMove(b, c, m)
  {
    if !HasMoves(b, c) {
      forall m
        ensures !IsLegalMove(b, c, m)
      {
        if OnBoard(m) {
          IndexRoundTrip(m.row, m.col);
          LegalMaskIsRules(b, c, Index(m));
        }
      }
    } else {
      var k :| 0 <= k < Width && LegalMask(b, c)[k];
      LegalMaskIsRules(b, c, k);
    }
  }

  /** The game is over exactly when the rules allow no move to either side. */
  lemma GameOverIff(b: Board)
    ensures GameOver(b) <==> forall m :: !IsLegalMove(b, XBlack, m) && !IsLegalMove(b, OWhite, m)
  {
    NoLegalMove(b, XBlack);
    NoLegalMove(b, OWhite);
  }

  /** `cilk::op_max`: the larger of two scores. */
  function Max(a: int, b: int): (r: int)
    ensures r >= a && r >= b && (r == a || r == b)
  {
    if a >= b then a else b
  }

  /** The value of the search from the point of view of `color`, looking
      `depth` moves ahead: the evaluation at depth 0 or when neither side
      can move, minus the opponent's value when `color` has to pass, and
      otherwise the best score over the legal moves. It is always a disk
      differential, never the sentinel. */
  function NegamaxValue(b: Board, color: Color, depth: nat): (v: int)
    ensures -64 <= v <= 64
    decreases depth, 0
  {
    if depth == 0 || GameOver(b) then EvaluateBoard(b, color)
    else if !HasMoves(b, color) then -NegamaxValue(b, Other(color), depth - 1)
    else
      assert LegalMask(b, color)[..Width] == LegalMask(b, color);
      MovesUpToCount(LegalMask(b, color), Width);
      CountZeroIff(LegalMask(b, color));
      BestScore(b, color, LegalMoves(b, color), depth - 1)
  }

  /** The score for `color` of a child board: minus the opponent's value there. */
  function ChildScore(child: Board, color: Color, depth: nat): (v: int)
    ensures -64 <= v <= 64
    decreases depth, 1
  {
    -NegamaxValue(child, Other(color), depth)
  }

  /** The score of move m: `MakeMove` on a copy of b, then the child's score. */
  function MoveScore(b: Board, color: Color, m: Move, depth: nat): (v: int)
    requires OnBoard(m)
    ensures -64 <= v <= 64
    decreases depth, 2
  {
    ChildScore(Play(b, color, m), color, depth)
  }

  /** The scores of the moves combined by `op_max`, in list order, starting
      from the sentinel: what `bestValue` holds after a loop over them. A
      non-empty list never leaves the sentinel. */
  function BestScore(b: Board, color: Color, ms: seq<Move>, depth: nat): (r: int)
    requires forall i :: 0 <= i < |ms| ==> OnBoard(ms[i])
    ensures |ms| == 0 ==> r == Sentinel
    ensures |ms| > 0 ==> -64 <= r <= 64
    decreases depth, 3, |ms|
  {
    if |ms| == 0 then Sentinel
    else Max(BestScore(b, color, ms[..|ms| - 1], depth), MoveScore(b, color, ms[|ms| - 1], depth))
  }

  /** One more move in the loop is one more `op_max`. */
  lemma BestScoreAppend(b: Board, color: Color, ms: seq<Move>, m: Move, depth: nat)
    requires forall i :: 0 <= i < |ms| ==> OnBoard(ms[i])
    requires OnBoard(m)
    ensures BestScore(b, color, ms + [m], depth) == Max(BestScore(b, color, ms, depth), MoveScore(b, color, m, depth))
  {
    assert (ms + [m])[..|ms|] == ms;
  }

  /** The folded score is the maximum: no move scores more, and a non-empty
      list has a move that scores exactly that much. */
  lemma {:induction false} BestScoreIsMax(b: Board, color: Color, ms: seq<Move>, depth: nat)
    requires forall i :: 0 <= i < |ms| ==> OnBoard(ms[i])
    ensures forall i :: 0 <= i < |ms| ==> MoveScore(b, color, ms[i], depth) <= BestScore(b, color, ms, depth)
    ensures |ms| > 0 ==> exists i :: 0 <= i < |ms| && MoveScore(b, color, ms[i], depth) == BestScore(b, color, ms, depth)
  {
    if |ms| > 0 {
      var n := |ms| - 1;
      var p := ms[..n];
      BestScoreIsMax(b, color, p, depth);
      forall i | 0 <= i < |ms|
        ensures MoveScore(b, color, ms[i], depth) <= BestScore(b, color, ms, depth)
      {
        if i < n {
          assert ms[i] == p[i];
        }
      }
      if n > 0 && BestScore(b, color, p, depth) >= MoveScore(b, color, ms[n], depth) {
        var i :| 0 <= i < n && MoveScore(b, color, p[i], depth) == BestScore(b, color, p, depth);
        assert MoveScore(b, color, ms[i], depth) == BestScore(b, color, ms, depth);
      } else {
        assert MoveScore(b, color, ms[n], depth) == BestScore(b, color, ms, depth);
      }
    }
  }

  /** A move that scores no less than every listed move gives the folded score. */
  lemma BestScoreIs(b: Board, color: Color, ms: seq<Move>, depth: nat, k: nat)
    requires forall i :: 0 <= i < |ms| ==> OnBoard(ms[i])
    requires k < |ms|
    requires forall j :: 0 <= j < |ms| ==> MoveScore(b, color, ms[j], depth) <= MoveScore(b, color, ms[k], depth)
    ensures BestScore(b, color, ms, depth) == MoveScore(b, color, ms[k], depth)
  {
    BestScoreIsMax(b, color, ms, depth);
  }

  /** The folded score does not depend on the order of the moves: this is
      what lets the reducer of the parallel loop combine them in any order. */
  lemma BestScoreOrderFree(b: Board, color: Color, ms: seq<Move>, ns: seq<Move>, depth: nat)
    requires forall i :: 0 <= i < |ms| ==> OnBoard(ms[i])
    requires multiset(ms) == multiset(ns)
    ensures forall i :: 0 <= i < |ns| ==> OnBoard(ns[i])
    ensures BestScore(b, color, ms, depth) == BestScore(b, color, ns, depth)
  {
    assert |ms| == |multiset(ms)| == |multiset(ns)| == |ns|;
    forall i | 0 <= i < |ns|
      ensures OnBoard(ns[i])
    {
      assert ns[i] in multiset(ms);
    }
    if |ms| > 0 {
      assert forall m :: m in ms <==> m in multiset(ns);
      BestScoreBelow(b, color, ms, ns, depth);
      BestScoreBelow(b, color, ns, ms, depth);
    }
  }

  /** When every move of a non-empty list ms is also in ns, the best score
      over ms is no larger than the best score over ns. */
  lemma BestScoreBelow(b: Board, color: Color, ms: seq<Move>, ns: seq<Move>, depth: nat)
    requires forall i :: 0 <= i < |ms| ==> OnBoard(ms[i])
    requires forall i :: 0 <= i < |ns| ==> OnBoard(ns[i])
    requires |ms| > 0 && forall m :: m in ms ==> m in ns
    ensures BestScore(b, color, ms, depth) <= BestScore(b, color, ns, depth)
  {
    BestScoreIsMax(b, color, ms, depth);
    BestScoreIsMax(b, color, ns, depth);
    var i :| 0 <= i < |ms| && MoveScore(b, color, ms[i], depth) == BestScore(b, color, ms, depth);
    assert ms[i] in ns;
    var j :| 0 <= j < |ns| && ns[j] == ms[i];
    assert MoveScore(b, color, ns[j], depth) <= BestScore(b, color, ns, depth);
  }

  /** With a legal move available, the search value is the best score of
      the legal moves, in bit order. */
  lemma NegamaxValueMoves(b: Board, color: Color, depth: nat)
    requires depth >= 1 && HasMoves(b, color)
    ensures forall i :: 0 <= i < |LegalMoves(b, color)| ==> OnBoard(LegalMoves(b, color)[i])
    ensures NegamaxValue(b, color, depth) == BestScore(b, color, LegalMoves(b, color), depth - 1)
  {
  }

  /** A pass is never followed by a pass before the game is over: when
      `color` cannot move but the game goes on, the opponent can, and the
      value is minus the opponent's best score one level down. */
  lemma PassValue(b: Board, color: Color, depth: nat)
    requires depth >= 2 && !GameOver(b) && !HasMoves(b, color)
    ensures HasMoves(b, Other(color))
    ensures forall i :: 0 <= i < |LegalMoves(b, Other(color))| ==> OnBoard(LegalMoves(b, Other(color))[i])
    ensures NegamaxValue(b, color, depth) ==
      -BestScore(b, Other(color), LegalMoves(b, Other(color)), depth - 2)
  {
    assert color == XBlack || color == OWhite;
    NegamaxValueMoves(b, Other(color), depth - 1);
  }

  /** With a legal move available, the value of the search is the best score
      of a legal move: no legal move scores more, and some legal move scores
      exactly that much. */
  lemma NegamaxBest(b: Board, c: Color, depth: nat)
    requires depth >= 1 && HasMoves(b, c)
    ensures forall m :: IsLegalMove(b, c, m) ==> MoveScore(b, c, m, depth - 1) <= NegamaxValue(b, c, depth)
    ensures exists m :: IsLegalMove(b, c, m) && MoveScore(b, c, m, depth - 1) == NegamaxValue(b, c, depth)
  {
    forall m | IsLegalMove(b, c, m)
      ensures MoveScore(b, c, m, depth - 1) <= NegamaxValue(b, c, depth)
    {
      NegamaxBound(b, c, depth, m);
    }
    var m := NegamaxWitness(b, c, depth);
  }

  /** Some legal move scores exactly the value of the search: the first
      legal move, in bit order, that reaches the best score. */
  lemma NegamaxWitness(b: Board, c: Color, depth: nat) returns (m: Move)
    requires depth >= 1 && HasMoves(b, c)
    ensures IsLegalMove(b, c, m) && MoveScore(b, c, m, depth - 1) == NegamaxValue(b, c, depth)
  {
    NegamaxValueMoves(b, c, depth);
    BestScoreIsMax(b, c, LegalMoves(b, c), depth - 1);
    var i :| 0 <= i < |LegalMoves(b, c)| &&
      MoveScore(b, c, LegalMoves(b, c)[i], depth - 1) == BestScore(b, c, LegalMoves(b, c), depth - 1);
    m := LegalMoves(b, c)[i];
    ListedIsLegal(b, c, m);
  }

  /** No legal move scores more than the value of the search. */
  lemma NegamaxBound(b: Board, c: Color, depth: nat, m: Move)
    requires depth >= 1 && IsLegalMove(b, c, m)
    ensures HasMoves(b, c)
    ensures MoveScore(b, c, m, depth - 1) <= NegamaxValue(b, c, depth)
  {
    LegalHasMoves(b, c, m);
    NegamaxValueMoves(b, c, depth);
    BestScoreBound(b, c, LegalMoves(b, c), depth - 1, m);
  }

  /** A side with a legal move has moves, and that move is listed. */
  lemma LegalHasMoves(b: Board, c: Color, m: Move)
    requires IsLegalMove(b, c, m)
    ensures HasMoves(b, c) && m in LegalMoves(b, c)
  {
    LegalIsListed(b, c, m);
    LegalMaskIsRules(b, c, Index(m));
    IndexRoundTrip(m.row, m.col);
  }

  /** No listed move scores more than the folded score of the list. */
  lemma BestScoreBound(b: Board, color: Color, ms: seq<Move>, depth: nat, m: Move)
    requires forall i :: 0 <= i < |ms| ==> OnBoard(ms[i])
    requires m in ms
    ensures MoveScore(b, color, m, depth) <= BestScore(b, color, ms, depth)
  {
    BestScoreIsMax(b, color, ms, depth);
    var i :| 0 <= i < |ms| && ms[i] == m;
    assert MoveScore(b, color, ms[i], depth) <= BestScore(b, color, ms, depth);
  }

  /** One ply ahead, a legal move on a well-formed board raises the mover's
      differential by twice the number of disks it flips, plus the placed disk. */
  lemma DepthOneGain(b: Board, c: Color, m: Move)
    requires Disjoint(b) && IsLegalMove(b, c, m)
    ensures FlipCount(b, c, m) > 0
    ensures MoveScore(b, c, m, 0) == EvaluateBoard(b, c) + 2 * FlipCount(b, c, m) + 1
  {
    FlipsPositive(b, c, m, |Offsets|);
    MakeMoveCounts(b, c, m);
    EvaluateFacts(Play(b, c, m), c);
    assert Other(Other(c)) == c;
  }

  /** In the initial position, X may play (3, 4): it captures the O disk on
      (4, 4) against the X disk on (5, 4). */
  lemma OpeningMoveLegal()
    ensures IsLegalMove(Start(), XBlack, Move(3, 4))
  {
    var b := Start();
    var m := Move(3, 4);
    StartPosition();
    assert Offsets[3] == Move(1, 0);
    assert !b.white[Index(Move(5, 4))];
    assert Anchored(b, XBlack, m, Offsets[3], 1);
    assert !Occupied(b, Index(m));
  }

  /** From the initial position X may play exactly (3,4), (4,3), (5,6) and
      (6,5): each captures one centre disk. */
  lemma OpeningMoves(m: Move)
    ensures IsLegalMove(Start(), XBlack, m) <==>
      m == Move(3, 4) || m == Move(4, 3) || m == Move(5, 6) || m == Move(6, 5)
  {
    var b := Start();
    if IsLegalMove(b, XBlack, m) {
      var t, n: nat :| 0 <= t < |Offsets| && n >= 1 && Anchored(b, XBlack, m, Offsets[t], n);
      OpeningRun(m, Offsets[t], n);
    } else if m == Move(3, 4) {
      OpeningMoveLegal();
    } else if m == Move(4, 3) {
      OpeningReply(m, 0, Move(4, 4), Move(4, 5));
    } else if m == Move(5, 6) {
      OpeningReply(m, 1, Move(5, 5), Move(5, 4));
    } else if m == Move(6, 5) {
      OpeningReply(m, 2, Move(5, 5), Move(4, 5));
    }
  }

  /** A reply that captures the O disk at o against the X disk at x along
      direction `Offsets[t]` is legal in the initial position. */
  lemma OpeningReply(m: Move, t: nat, o: Move, x: Move)
    requires t < |Offsets| && OnBoard(m) && OnBoard(o) && OnBoard(x)
    requires Step(m, Offsets[t], 1) == o && Step(m, Offsets[t], 2) == x
    requires o == Move(4, 4) || o == Move(5, 5)
    requires x == Move(4, 5) || x == Move(5, 4)
    requires m != Move(4, 4) && m != Move(5, 5) && m != Move(4, 5) && m != Move(5, 4)
    ensures IsLegalMove(Start(), XBlack, m)
  {
    var b := Start();
    StartSquares(m);
    StartSquares(o);
    StartSquares(x);
    assert Anchored(b, XBlack, m, Offsets[t], 1);
  }

  /** Any anchored run of O disks in the initial position is one of the four
      opening captures. */
  lemma OpeningRun(m: Move, d: Move, n: nat)
    requires IsDirection(d) && n >= 1 && Anchored(Start(), XBlack, m, d, n)
    ensures m == Move(3, 4) || m == Move(4, 3) || m == Move(5, 6) || m == Move(6, 5)
  {
    var b := Start();
    var s1 := Step(m, d, 1);
    assert Opp(b, XBlack, s1);
    StartSquares(s1);
    if n == 1 {
      var s2 := Step(m, d, 2);
      assert Mine(b, XBlack, s2);
      StartSquares(s2);
    } else {
      var s2 := Step(m, d, 2);
      assert Opp(b, XBlack, s2);
      StartSquares(s2);
      StartSquares(Step(m, d, 3));
    }
  }

  /** From the initial position X has a move, and a search one ply deep
      scores strictly positive for X. */
  lemma OpeningScorePositive()
    ensures HasMoves(Start(), XBlack)
    ensures NegamaxValue(Start(), XBlack, 1) > 0
  {
    var b := Start();
    var m := Move(3, 4);
    StartPosition();
    OpeningMoveLegal();
    IndexRoundTrip(3, 4);
    LegalMaskIsRules(b, XBlack, Index(m));
    NegamaxBest(b, XBlack, 1);
    var best :| IsLegalMove(b, XBlack, best) && MoveScore(b, XBlack, best, 0) == NegamaxValue(b, XBlack, 1);
    DepthOneGain(b, XBlack, best);
  }

  /** Moves listed below a run of clear bits are all the moves below its end. */
  lemma {:induction false} MovesUpToSkip(L: Mask, lo: nat, hi: nat)
    requires lo <= hi <= Width
    requires forall j :: lo <= j < hi ==> !L[j]
    ensures MovesUpTo(L, hi) == MovesUpTo(L, lo)
    decreases hi
  {
    if lo < hi {
      MovesUpToSkip(L, lo, hi - 1);
    }
  }

  /** `Negamax`: the base cases and the pass, then the serial branch up to
      `CUTOFF_DEPTH` and the parallel branch above it. */
  method Negamax(b: Board, color: Color, depth: int) returns (v: int)
    requires depth >= 0
    ensures v == NegamaxValue(b, color, depth)
    decreases depth, 4
  {
    if depth == 0 {
      return EvaluateBoard(b, color);
    }
    var over := GameIsOver(b);
    if over {
      return EvaluateBoard(b, color);
    }
    var numMoves, legalMoves := EnumerateLegalMoves(b, color);
    CountZeroIff(legalMoves);
    if numMoves == 0 {
      v := Negamax(b, Other(color), depth - 1);
      return -v;
    }
    if depth <= CutoffDepth {
      v := NegamaxSerial(b, color, depth - 1, legalMoves);
    } else {
      v := NegamaxParallel(b, color, depth - 1, legalMoves);
    }
  }

  /** The row scan shared by both branches: `thisrow` holds the `col`
      squares from bit k on, lowest first. */
  function Window(legal: Mask, k: nat, col: nat): Mask
    requires k + col <= Width
  {
    seq(Width, i requires 0 <= i < Width => i < col && legal[k + i])
  }

  /** The bit `8 * (8 - row) + (8 - col)` is the square (row, col). */
  lemma WindowSquare(row: int, col: int)
    requires 1 <= row <= 8 && 1 <= col <= 8
    ensures BitPosToMove(8 * (8 - row) + (8 - col)) == Move(row, col)
  {
    IndexRoundTrip(row, col);
  }

  /** Entering a row: `bits & ROW8` is the window of the whole row. */
  lemma WindowStart(legal: Mask, row: int)
    requires 1 <= row <= 8
    ensures And(Shr(legal, 8 * (8 - row)), Row8()) == Window(legal, 8 * (8 - row), 8)
  {
  }

  /** `thisrow & COL8` tests the lowest square of the window, and
      `thisrow >>= 1` moves the window one column left. */
  lemma WindowStep(legal: Mask, k: nat, col: nat)
    requires 1 <= col <= 8 && k + col <= Width
    ensures (And(Window(legal, k, col), Col8()) != Zero()) == legal[k]
    ensures Shr(Window(legal, k, col), 1) == Window(legal, k + 1, col - 1)
  {
    if legal[k] {
      assert And(Window(legal, k, col), Col8())[0];
    } else {
      forall i | 0 <= i < Width
        ensures And(Window(legal, k, col), Col8())[i] == Zero()[i]
      {
      }
      assert And(Window(legal, k, col), Col8()) == Zero();
    }
  }

  /** An empty window leaves no move in the rest of the row. */
  lemma WindowEmpty(legal: Mask, k: nat, col: nat)
    requires k + col <= Width
    requires Window(legal, k, col) == Zero() || col == 0
    ensures MovesUpTo(legal, k + col) == MovesUpTo(legal, k)
  {
    forall j | k <= j < k + col
      ensures !legal[j]
    {
      assert Window(legal, k, col)[j - k] == Zero()[j - k];
    }
    MovesUpToSkip(legal, k, k + col);
  }

  lemma ShrShr(a: Mask, n: nat, k: nat)
    ensures Shr(Shr(a, n), k) == Shr(a, n + k)
  {
  }

  /** Listing one more bit appends its square when it is set. */
  lemma MovesUpToNext(L: Mask, k: nat)
    requires k < Width
    ensures MovesUpTo(L, k + 1) == MovesUpTo(L, k) + (if L[k] then [BitPosToMove(k)] else [])
  {
  }

  /** The value of listing one more bit: the best score so far, combined
      with the score of that square's move when the bit is set. */
  lemma BestScoreNext(b: Board, color: Color, depth: nat, legal: Mask, k: nat)
    requires k < Width
    ensures OnBoard(BitPosToMove(k))
    ensures BestScore(b, color, MovesUpTo(legal, k + 1), depth) ==
      if legal[k] then
        Max(BestScore(b, color, MovesUpTo(legal, k), depth), MoveScore(b, color, BitPosToMove(k), depth))
      else BestScore(b, color, MovesUpTo(legal, k), depth)
  {
    MovesUpToNext(legal, k);
    BitPosRoundTrip(k);
    if legal[k] {
      assert MovesUpTo(legal, k + 1) == MovesUpTo(legal, k) + [BitPosToMove(k)];
      BestScoreAppend(b, color, MovesUpTo(legal, k), BitPosToMove(k), depth);
    } else {
      assert MovesUpTo(legal, k + 1) == MovesUpTo(legal, k);
    }
  }

  /** The value of the first i + 1 listed moves. */
  lemma BestScoreSnoc(b: Board, color: Color, depth: nat, ms: seq<Move>, i: nat)
    requires i < |ms| && forall j :: 0 <= j < |ms| ==> OnBoard(ms[j])
    ensures BestScore(b, color, ms[..i + 1], depth) ==
      Max(BestScore(b, color, ms[..i], depth), MoveScore(b, color, ms[i], depth))
  {
    assert ms[..i + 1] == ms[..i] + [ms[i]];
    BestScoreAppend(b, color, ms[..i], ms[i], depth);
  }

  /** One child of every branch: `MakeMove` on a copy of b, then the
      opponent's search of the child, negated. */
  method ScoreMove(b: Board, color: Color, d: nat, m: Move) returns (val: int)
    requires OnBoard(m)
    ensures val == MoveScore(b, color, m, d)
    decreases d + 1, 0
  {
    var _, child := MakeMove(b, color, m);
    val := Negamax(child, Other(color), d);
    val := -val;
  }

  /** One square of the serial branch's row scan, the square (row, col) at bit
      `k = 8 * (8 - row) + (8 - col)`: if `thisrow & COL8` is set, the child
      is searched and `bestValue` keeps the maximum; then `thisrow >>= 1`. */
  method SerialSquare(b: Board, color: Color, d: nat, legal: Mask, row: int, col: int, ghost k: nat,
                      thisrow: Mask, bestIn: int)
    returns (bestValue: int, nextrow: Mask)
    requires 1 <= row <= 8 && 1 <= col <= 8 && k == 8 * (8 - row) + (8 - col)
    requires thisrow == Window(legal, k, col)
    requires bestIn == BestScore(b, color, MovesUpTo(legal, k), d)
    ensures bestValue == BestScore(b, color, MovesUpTo(legal, k + 1), d)
    ensures nextrow == Window(legal, k + 1, col - 1)
    decreases d + 1, 1
  {
    WindowStep(legal, k, col);
    BestScoreNext(b, color, d, legal, k);
    bestValue := bestIn;
    if And(thisrow, Col8()) != Zero() {
      WindowSquare(row, col);
      var val := ScoreMove(b, color, d, Move(row, col));
      if val > bestValue {
        bestValue := val;
      }
    }
    nextrow := Shr(thisrow, 1);
  }

  /** One row of the serial branch: columns 8 down to 1 (increasing bit
      order), stopping once no move is left in the row. */
  method SerialRow(b: Board, color: Color, d: nat, legal: Mask, row: int, bits: Mask, bestIn: int)
    returns (bestValue: int)
    requires 1 <= row <= 8 && bits == Shr(legal, 8 * (8 - row))
    requires bestIn == BestScore(b, color, MovesUpTo(legal, 8 * (8 - row)), d)
    ensures bestValue == BestScore(b, color, MovesUpTo(legal, 8 * (8 - row) + 8), d)
    decreases d + 1, 2
  {
    bestValue := bestIn;
    ghost var k: nat := 8 * (8 - row);
    var thisrow: Mask := And(bits, Row8());
    WindowStart(legal, row);
    var col := 8;
    while thisrow != Zero() && col >= 1
      invariant 0 <= col <= 8 && k == 8 * (8 - row) + (8 - col)
      invariant thisrow == Window(legal, k, col)
      invariant bestValue == BestScore(b, color, MovesUpTo(legal, k), d)
    {
      bestValue, thisrow := SerialSquare(b, color, d, legal, row, col, k, thisrow, bestValue);
      col := col - 1;
      k := k + 1;
    }
    WindowEmpty(legal, k, col);
    assert k + col == 8 * (8 - row) + 8;
  }

  /** The serial branch: rows 8 down to 1, `bits` shifted down a row at a
      time; `bestValue` starts at the sentinel. */
  method NegamaxSerial(b: Board, color: Color, d: nat, legal: Mask) returns (bestValue: int)
    ensures bestValue == BestScore(b, color, MovesUpTo(legal, Width), d)
    decreases d + 1, 3
  {
    bestValue := Sentinel;
    var bits := legal;
    var row := 8;
    while row >= 1
      invariant 0 <= row <= 8
      invariant bits == Shr(legal, 8 * (8 - row))
      invariant bestValue == BestScore(b, color, MovesUpTo(legal, 8 * (8 - row)), d)
    {
      bestValue := SerialRow(b, color, d, legal, row, bits, bestValue);
      ShrShr(legal, 8 * (8 - row), 8);
      bits := Shr(bits, 8);
      row := row - 1;
    }
  }

  /** One square of the parallel branch's row scan, the square (row, col) at
      bit `k = 8 * (8 - row) + (8 - col)`: if `thisrow & COL8` is set, the
      move is stored at `idx` and `idx` advances; then `thisrow >>= 1`. */
  method ListSquare(legal: Mask, row: int, col: int, ghost k: nat, thisrow: Mask, moveList: array<Move>, idxIn: nat)
    returns (idx: nat, nextrow: Mask)
    requires 1 <= row <= 8 && 1 <= col <= 8 && k == 8 * (8 - row) + (8 - col)
    requires thisrow == Window(legal, k, col)
    requires moveList.Length == Width
    requires idxIn <= k && moveList[..idxIn] == MovesUpTo(legal, k)
    modifies moveList
    ensures idxIn <= idx <= k + 1 && moveList[..idx] == MovesUpTo(legal, k + 1)
    ensures forall j :: idx <= j < Width ==> moveList[j] == old(moveList[j])
    ensures nextrow == Window(legal, k + 1, col - 1)
  {
    WindowStep(legal, k, col);
    MovesUpToNext(legal, k);
    idx := idxIn;
    if And(thisrow, Col8()) != Zero() {
      WindowSquare(row, col);
      ghost var listed := moveList[..idx];
      moveList[idx] := Move(row, col);
      assert moveList[..idx] == listed;
      assert moveList[..idx + 1] == moveList[..idx] + [moveList[idx]];
      idx := idx + 1;
    }
    nextrow := Shr(thisrow, 1);
  }

  /** One row of the move list of the parallel branch: the set squares of
      the row, in the order of the serial scan, appended at `idx`. */
  method ListRow(legal: Mask, row: int, bits: Mask, moveList: array<Move>, idxIn: nat) returns (idx: nat)
    requires 1 <= row <= 8 && bits == Shr(legal, 8 * (8 - row))
    requires moveList.Length == Width
    requires idxIn <= Width && moveList[..idxIn] == MovesUpTo(legal, 8 * (8 - row))
    modifies moveList
    ensures idxIn <= idx <= Width && moveList[..idx] == MovesUpTo(legal, 8 * (8 - row) + 8)
    ensures forall j :: idx <= j < Width ==> moveList[j] == old(moveList[j])
  {
    idx := idxIn;
    ghost var k: nat := 8 * (8 - row);
    MovesUpToCount(legal, k);
    var thisrow: Mask := And(bits, Row8());
    WindowStart(legal, row);
    var col := 8;
    while thisrow != Zero() && col >= 1
      invariant 0 <= col <= 8 && k == 8 * (8 - row) + (8 - col)
      invariant thisrow == Window(legal, k, col)
      invariant idxIn <= idx <= k && moveList[..idx] == MovesUpTo(legal, k)
      invariant forall j :: idx <= j < Width ==> moveList[j] == old(moveList[j])
    {
      idx, thisrow := ListSquare(legal, row, col, k, thisrow, moveList, idx);
      col := col - 1;
      k := k + 1;
    }
    WindowEmpty(legal, k, col);
    assert k + col == 8 * (8 - row) + 8;
  }

  /** The move list of the parallel branch: the set squares of `legal` in the
      order of the row scan, which is increasing bit order. */
  method ListMovesByRows(legal: Mask) returns (moveList: array<Move>, idx: nat)
    ensures fresh(moveList) && moveList.Length == Width
    ensures idx <= Width && moveList[..idx] == MovesUpTo(legal, Width)
  {
    moveList := new Move[64];
    idx := 0;
    var bits := legal;
    var row := 8;
    while row >= 1
      invariant 0 <= row <= 8
      invariant bits == Shr(legal, 8 * (8 - row))
      invariant idx <= Width && moveList[..idx] == MovesUpTo(legal, 8 * (8 - row))
    {
      idx := ListRow(legal, row, bits, moveList, idx);
      ShrShr(legal, 8 * (8 - row), 8);
      bits := Shr(bits, 8);
      row := row - 1;
    }
  }

  /** The parallel branch: the moves are first listed in `moveList` in the
      order of the serial scan, then each is searched and the results are
      combined by `op_max`. The reducer may combine them in any order
      (`BestScoreOrderFree`); here they are combined in list order. */
  method NegamaxParallel(b: Board, color: Color, d: nat, legal: Mask) returns (bestValue: int)
    ensures bestValue == BestScore(b, color, MovesUpTo(legal, Width), d)
    decreases d + 1, 3
  {
    var moveList, idx := ListMovesByRows(legal);
    ghost var ms := MovesUpTo(legal, Width);
    bestValue := Sentinel;
    for i := 0 to idx
      invariant moveList[..idx] == ms
      invariant bestValue == BestScore(b, color, ms[..i], d)
    {
      var val := ScoreMove(b, color, d, moveList[i]);
      BestScoreSnoc(b, color, d, ms, i);
      bestValue := Max(bestValue, val);
    }
    assert ms[..idx] == ms;
  }

  /** The lowest bit still to list is a legal move at or above lo, and
      listing it extends the list of the moves below lo by one. */
  lemma ListNext(legal: Mask, moves: Mask, lo: nat)
    requires true in moves && lo <= Width
    requires forall j :: 0 <= j < lo ==> !moves[j]
    requires forall j :: lo <= j < Width ==> moves[j] == legal[j]
    ensures lo <= Ctz(moves) < Width
    ensures MovesUpTo(legal, Ctz(moves) + 1) == MovesUpTo(legal, lo) + [BitPosToMove(Ctz(moves))]
  {
    var p := Ctz(moves);
    MovesUpToSkip(legal, lo, p);
    MovesUpToNext(legal, p);
  }

  /** The move list of `NegamaxRoot`: the set bits of `legal` taken lowest
      first (`moves & -moves`, then `moves ^= next`). */
  method ListMovesByBits(legal: Mask) returns (moveList: array<Move>, idx: nat)
    ensures fresh(moveList) && moveList.Length == Width
    ensures idx <= Width && moveList[..idx] == MovesUpTo(legal, Width)
  {
    moveList := new Move[64];
    idx := 0;
    var moves := legal;
    ghost var lo := 0;
    while moves != Zero()
      invariant 0 <= lo <= Width
      invariant forall j :: 0 <= j < lo ==> !moves[j]
      invariant forall j :: lo <= j < Width ==> moves[j] == legal[j]
      invariant 0 <= idx <= 64 && moveList[..idx] == MovesUpTo(legal, lo)
      decreases Count(moves)
    {
      LowestBitStep(moves);
      var next := And(moves, Neg(moves));
      var bitpos := Ctz(next);
      ListNext(legal, moves, lo);
      var row := 8 - bitpos / 8;
      var col := 8 - bitpos % 8;
      ghost var listed := moveList[..idx];
      assert Move(row, col) == BitPosToMove(bitpos);
      moveList[idx] := Move(row, col);
      assert moveList[..idx] == listed;
      assert moveList[..idx + 1] == moveList[..idx] + [moveList[idx]];
      idx := idx + 1;
      moves := Xor(moves, next);
      lo := bitpos + 1;
    }
    ZeroIff(moves);
    MovesUpToSkip(legal, lo, Width);
  }

  /** The final scan of `NegamaxRoot`: the index of the first largest of
      `scores[..n]`, replaced only by a strictly larger score. */
  method FirstMax(scores: array<int>, n: nat) returns (bestVal: int, bestIdx: nat)
    requires 0 < n <= scores.Length
    ensures bestIdx < n && bestVal == scores[bestIdx]
    ensures forall j :: 0 <= j < n ==> scores[j] <= bestVal
    ensures forall j :: 0 <= j < bestIdx ==> scores[j] < bestVal
  {
    bestVal := scores[0];
    bestIdx := 0;
    for i := 1 to n
      invariant bestIdx < i && bestVal == scores[bestIdx]
      invariant forall j :: 0 <= j < i ==> scores[j] <= bestVal
      invariant forall j :: 0 <= j < bestIdx ==> scores[j] < bestVal
    {
      if scores[i] > bestVal {
        bestVal := scores[i];
        bestIdx := i;
      }
    }
  }

  /** Move i is the first, in list order, whose score is v, and v is the
      largest score of the moves: the move `NegamaxRoot` picks. */
  ghost predicate FirstBest(b: Board, color: Color, ms: seq<Move>, depth: nat, i: int, v: int)
    requires forall j :: 0 <= j < |ms| ==> OnBoard(ms[j])
  {
    && 0 <= i < |ms| && MoveScore(b, color, ms[i], depth) == v
    && (forall j :: 0 <= j < |ms| ==> MoveScore(b, color, ms[j], depth) <= v)
    && (forall j :: 0 <= j < i ==> MoveScore(b, color, ms[j], depth) < v)
  }

  /** The root's parallel loop: `scores[i]` is the negated search of the
      child of move i. */
  method ScoreMoves(b: Board, color: Color, d: nat, moveList: array<Move>, n: nat) returns (scores: array<int>)
    requires n <= moveList.Length && n <= Width
    requires forall j :: 0 <= j < n ==> OnBoard(moveList[j])
    ensures fresh(scores) && scores.Length == Width
    ensures forall j :: 0 <= j < n ==> scores[j] == MoveScore(b, color, moveList[j], d)
    decreases d + 1, 1
  {
    scores := new int[64];
    for i := 0 to n
      invariant forall j :: 0 <= j < i ==> scores[j] == MoveScore(b, color, moveList[j], d)
    {
      scores[i] := ScoreMove(b, color, d, moveList[i]);
    }
  }

  /** The first largest score among the legal moves, in bit order, is the
      value of the search, and its move is legal. */
  lemma RootChoice(b: Board, color: Color, depth: nat, ss: seq<int>, i: nat)
    requires depth >= 1 && HasMoves(b, color)
    requires forall j :: 0 <= j < |LegalMoves(b, color)| ==> OnBoard(LegalMoves(b, color)[j])
    requires |ss| == |LegalMoves(b, color)|
    requires forall j :: 0 <= j < |ss| ==> ss[j] == MoveScore(b, color, LegalMoves(b, color)[j], depth - 1)
    requires i < |ss|
    requires forall j :: 0 <= j < |ss| ==> ss[j] <= ss[i]
    requires forall j :: 0 <= j < i ==> ss[j] < ss[i]
    ensures NegamaxValue(b, color, depth) == ss[i]
    ensures IsLegalMove(b, color, LegalMoves(b, color)[i])
    ensures FirstBest(b, color, LegalMoves(b, color), depth - 1, i, ss[i])
  {
    var ms := LegalMoves(b, color);
    assert FirstBest(b, color, ms, depth - 1, i, ss[i]);
    BestScoreIs(b, color, ms, depth - 1, i);
    NegamaxValueMoves(b, color, depth);
    ListedIsLegal(b, color, ms[i]);
  }

  /** The move list and the scores of `NegamaxRoot`: the legal moves in
      bit order, and the score of each. */
  method ScoreLegalMoves(b: Board, color: Color, d: nat, legalMoves: Mask)
    returns (moveList: array<Move>, scores: array<int>, idx: nat)
    requires legalMoves == LegalMask(b, color)
    ensures moveList.Length == Width && scores.Length == Width
    ensures idx == |LegalMoves(b, color)| && moveList[..idx] == LegalMoves(b, color)
    ensures forall j :: 0 <= j < idx ==> scores[j] == MoveScore(b, color, LegalMoves(b, color)[j], d)
  {
    moveList, idx := ListMovesByBits(legalMoves);
    scores := ScoreMoves(b, color, d, moveList, idx);
    forall j | 0 <= j < idx
      ensures scores[j] == MoveScore(b, color, LegalMoves(b, color)[j], d)
    {
      assert moveList[..idx][j] == moveList[j];
    }
  }

  /** The part of `NegamaxRoot` after a move was found: list the moves,
      score them, and take the first largest score. */
  method RootMoves(b: Board, color: Color, depth: int, legalMoves: Mask) returns (bestVal: int, bestMove: Move)
    requires depth >= 1 && HasMoves(b, color) && legalMoves == LegalMask(b, color)
    ensures bestVal == NegamaxValue(b, color, depth)
    ensures IsLegalMove(b, color, bestMove)
    ensures exists i :: (0 <= i < |LegalMoves(b, color)| && LegalMoves(b, color)[i] == bestMove &&
      FirstBest(b, color, LegalMoves(b, color), depth - 1, i, bestVal))
  {
    var moveList, scores, idx := ScoreLegalMoves(b, color, depth - 1, legalMoves);
    LegalMovesCount(b, color);
    ZeroIff(legalMoves);
    CountZeroIff(legalMoves);
    var bestIdx;
    bestVal, bestIdx := FirstMax(scores, idx);
    bestMove := moveList[bestIdx];
    assert bestMove == LegalMoves(b, color)[bestIdx];
    ghost var ss := scores[..idx];
    RootChoice(b, color, depth, ss, bestIdx);
  }

  /** `NegamaxRoot`: the search value together with the first move, in bit
      order, that reaches it; (0, 0) when the mover has to pass. */
  method NegamaxRoot(b: Board, color: Color, depth: int) returns (bestVal: int, bestMove: Move)
    requires depth >= 1
    ensures bestVal == NegamaxValue(b, color, depth)
    ensures !HasMoves(b, color) ==> bestMove == Move(0, 0)
    ensures HasMoves(b, color) ==> IsLegalMove(b, color, bestMove)
    ensures HasMoves(b, color) ==>
      exists i :: 0 <= i < |LegalMoves(b, color)| && LegalMoves(b, color)[i] == bestMove &&
        FirstBest(b, color, LegalMoves(b, color), depth - 1, i, bestVal)
  {
    var numMoves, legalMoves := EnumerateLegalMoves(b, color);
    CountZeroIff(legalMoves);
    if numMoves == 0 {
      bestMove := Move(0, 0);
      var v := Negamax(b, Other(color), depth - 1);
      EvaluateFacts(b, color);
      return -v, bestMove;
    }
    bestVal, bestMove := RootMoves(b, color, depth, legalMoves);
  }
}
