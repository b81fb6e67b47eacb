# Othello bitboard engine and negamax search, in Dafny

This project models the move engine and the fixed-depth search of a
command-line Othello (Reversi) program written in C++ with Cilk Plus
(`othello.cpp`), and proves that they do what the rules of the game say.

The board is two 64-bit occupancy masks, `disks[X_BLACK]` and
`disks[O_WHITE]`. Square (row, col), with rows and columns 1..8, is bit
`(8 - row) * 8 + (8 - col)`.

The engine layers:
- `PlaceOrFlip` gives one square to the mover.
- `TryFlips` walks one ray from a square. It returns 1 + the length of an
  opponent run that ends on one of the mover's disks, or 0. With `domove` it
  also turns that run over.
- `FlipDisks` sums the eight rays.
- `MakeMove` copies the board, makes the captures and places the disk.
- `NeighborMoves` shifts the opponent mask in the eight directions to find
  the empty squares next to an opponent disk.
- `EnumerateLegalMoves` keeps the neighbour squares whose flip probe is
  positive, using a lowest-set-bit loop.
- `CountBitsOnBoard` is a clear-the-lowest-bit popcount.
- `EvaluateBoard` is the disk differential.
- `GameIsOver` holds when neither side has a move.

The search layers:
- `Negamax` is a plain negamax without pruning. At depth 0, or when the
  game is over, it returns the evaluation.
- When the mover has no legal move, it returns minus the opponent's value
  one level down.
- Otherwise it returns the best of `-Negamax(child)` over the legal moves.
  At `CUTOFF_DEPTH` (4) and below this is a serial scan of rows and columns.
  Above it the moves are listed first, then searched in a parallel loop
  whose results a max-reducer combines.
- `NegamaxRoot` lists the moves lowest bit first and searches each child.
  It picks the first move that reaches the largest score, or (0, 0) when
  the mover has to pass.

The model has seven modules, one per file:

- `masks.dfy` (`Masks`): a 64-bit word as a `seq<bool>` of 64 bits, least
  significant first. It defines the C operators the engine uses (`&`, `|`,
  `^`, `~`, `>>`, `<<`, `x - 1`, `-x`, count of trailing zeros) and the
  popcount `Count`. It proves the two bit tricks: `x & (x - 1)` clears the
  lowest set bit, and `x & -x` isolates it.
- `board.dfy` (`Bitboard`): colours, squares and the board value. It holds
  the coordinate macros, the edge masks `ROW8`/`COL8`/`COL1`, the direction
  table and the initial position.
- `flips.dfy` (`Flips`): `PlaceOrFlip`, `TryFlips`, `FlipDisks` and
  `MakeMove`, as methods on board values. They are proved against a pure
  description of a capture: `Anchored` is the rule, `TryFlipsProbe` the
  probe, and `CaptureMask`/`Play` what a move does.
- `captures.dfy` (`Captures`): what a move does to the disk counts.
- `legality.dfy` (`Legality`): the rule of a legal move, `NeighborMoves`,
  `EnumerateLegalMoves`, and the legal moves in increasing bit order.
- `search.dfy` (`Search`): `CountBitsOnBoard`, `EvaluateBoard`,
  `GameIsOver`, and the recursive definition `NegamaxValue` of the search.
  `Negamax` (both branches) and `NegamaxRoot` are proved to compute it.
- `human.dfy` (`Human`): the checks `ReadMove` makes on a typed move.

## Model

| member | source | states |
|---|---|---|
| Bitboard.Other | othello.cpp:18 | `OTHERCOLOR(c)` is a colour different from c |
| Bitboard.IndexRoundTrip | othello.cpp:21-22 | every on-board square has a bit index in 0..63, and decoding it with `8 - bitpos / 8`, `8 - bitpos % 8` gives the square back |
| Bitboard.BitPosRoundTrip | othello.cpp:253-255 | every bit position decodes to an on-board square whose index is that bit position |
| Bitboard.IndexInjective | othello.cpp:21 | two on-board squares share a bit index exactly when they are the same square |
| Bitboard.BoardBitIsMacro | othello.cpp:21-22 | the one-bit mask of a square is `0x1ULL` shifted left by `BOARD_BIT_INDEX(row, col)` |
| Bitboard.Row8IsMacro | othello.cpp:28-29 | `ROW8` equals the OR of the eight `BOARD_BIT(8, col)` |
| Bitboard.Col8IsMacro | othello.cpp:31-32 | `COL8` equals the OR of the eight `BOARD_BIT(row, 8)` |
| Bitboard.EdgeMasks | othello.cpp:28-35 | `ROW8`, `COL8` and `COL1 = COL8 << 7` select exactly the squares of row 8, column 8 and column 1 |
| Bitboard.StartPosition | othello.cpp:73-76 | the initial board is disjoint, has two disks per side, X on (4,5) and (5,4), O on (4,4) and (5,5) |
| Bitboard.Board.WithDisks | othello.cpp:48-50 | writing `disks[c]` sets that mask and leaves the other colour's mask alone |
| Flips.OffsetsTable | othello.cpp:58-63 | the direction table holds 8 distinct unit directions and contains every unit direction |
| Flips.PlaceOrFlip | othello.cpp:117-121 | square m ends in `disks[color]` and out of the other mask; every other square keeps both its bits |
| Flips.PlacedIdempotentDisjoint | othello.cpp:117-121 | placing twice is placing once, and placing keeps the two masks disjoint |
| Flips.BitTest | othello.cpp:129-131 | `MOVE_TO_BOARD_BIT(next) & mask` is non-zero exactly when the mask holds that square |
| Flips.ProbeAnchored | othello.cpp:124-149 | a positive probe result r reports an anchored run of r - 1 opponent disks; a zero result means no run from m is anchored in that direction |
| Flips.AnchoredUnique | othello.cpp:124-149 | at most one run length is anchored along a ray |
| Flips.ProbeIff | othello.cpp:124-149 | the probe returns n + 1 exactly when a run of n opponent disks is followed by one of the mover's disks |
| Flips.TryFlips | othello.cpp:124-149 | returns the probe value; with `domove` and a run of length at least 1 the run is turned over to `color`, otherwise the board is unchanged |
| Flips.ProbeAgree | othello.cpp:124-149 | the probe depends only on the squares of its own ray |
| Flips.ProbeUnchangedByCapture | othello.cpp:151-162 | the captures of earlier directions do not change the probe of a later direction, because the eight rays share no square |
| Flips.CaptureUpToIff | othello.cpp:151-162 | a square is captured by the first i directions exactly when it lies on the anchored run of one of them |
| Flips.RayAvoidsOrigin | othello.cpp:124-128 | no ray passes through the square it starts from |
| Flips.FlipDirection | othello.cpp:154-160 | one pass of the direction loop adds that direction's gain to the count and, with `domove`, its captures to the board |
| Flips.FlipDisks | othello.cpp:151-162 | returns the summed flip count; as a probe the board is unchanged, and with `domove` exactly the counted captures are made |
| Flips.MakeMove | othello.cpp:315-320 | returns the flip count; the new board is the old one with the captures made and the disk placed |
| Captures.RunMaskCount | othello.cpp:140 | a run of n on-board squares covers n bits |
| Captures.CaptureFacts | othello.cpp:151-162 | the captures of the first i directions are opponent disks, and there are as many as `FlipDisks` counts for them |
| Captures.CaptureAvoidsMove | othello.cpp:151-162 | the move's own square is never captured |
| Captures.FlipCountIsCaptured | othello.cpp:151-162 | `FlipDisks`' count is the number of squares it turns over, all of them opponent disks |
| Captures.NoFlipsNoChange | othello.cpp:191-195 | a capture pass that flips nothing leaves the board unchanged |
| Captures.MakeMoveCounts | othello.cpp:315-320 | on a disjoint board at an empty square: mover count + flips + 1, opponent count − flips, total + 1, masks still disjoint |
| Legality.DirectionNeighbors | othello.cpp:227-239 | one shifted, column-masked opponent mask sets bit k exactly when the square one step back from k is on the board and an opponent disk: nothing wraps across a column edge or past the top and bottom rows |
| Legality.BackStep | othello.cpp:231-236 | the square one step back along a direction from bit k is on the board exactly when bit k + `row * 8 + col` is and k is not on the edge column the step would wrap across; it is then that bit's square |
| Legality.NeighborBit | othello.cpp:228-236 | a bit of the shifted, column-masked opponent mask is set exactly when the square one step back is on the board and an opponent disk |
| Legality.Reverse | othello.cpp:58-63 | every direction's opposite is in the table |
| Legality.BackIsForward | othello.cpp:227-239 | looking one step back along every direction is looking one step forward along every direction |
| Legality.NeighborMoves | othello.cpp:224-242 | `disks[color]` holds exactly the empty squares next to an opponent disk, and the other mask is zero |
| Legality.FlipsPositive | othello.cpp:151-162 | the flip count is positive exactly when some direction has an anchored run of at least one opponent disk |
| Legality.LegalMaskIsRules | othello.cpp:256-259 | a square is kept by the enumeration exactly when it is a legal move by the rules: empty, with an anchored run of opponent disks in some direction |
| Legality.LegalIsNeighbor | othello.cpp:246-247 | every legal move is a neighbour candidate, so filtering candidates loses no legal move |
| Legality.LowestBitStep | othello.cpp:251-261 | `x & -x` is the lowest set bit, `__builtin_ctzll` its position, and `x ^ (x & -x)` clears it, lowering the popcount by one |
| Legality.ScanBit | othello.cpp:252-261 | one pass of the scan clears the lowest candidate bit, keeps it in the legal mask exactly when it is a legal square, and keeps the count equal to the popcount |
| Legality.EnumerateLegalMoves | othello.cpp:244-264 | the result mask is the set of legal squares and the count is its popcount; the loop ends because each pass clears one bit |
| Legality.MovesUpToCount | othello.cpp:249-264 | one move is listed per set bit |
| Legality.MovesUpToMembers | othello.cpp:407-416 | the listed moves are exactly the squares of the set bits, all on the board |
| Legality.LegalMovesAreRules | othello.cpp:244-264 | the listed legal moves are exactly the moves legal by the rules, one per set bit of the mask |
| Legality.ListedIsLegal | othello.cpp:244-264 | a listed move is legal by the rules |
| Legality.LegalIsListed | othello.cpp:244-264 | a move legal by the rules is listed |
| Legality.LegalMovesCount | othello.cpp:249-264 | the list of legal moves is as long as the count `EnumerateLegalMoves` returns |
| Masks.Ctz | othello.cpp:409 | the trailing-zero count is the position of the lowest set bit, with all lower bits clear |
| Masks.ZeroIff | othello.cpp:250 | a word is non-zero exactly when some bit is set |
| Masks.CountZeroIff | othello.cpp:338 | the popcount is zero exactly when the word is zero |
| Masks.CountUpdate | othello.cpp:273 | setting or clearing one bit changes the popcount by one or not at all |
| Masks.CountOrAnd | othello.cpp:258 | popcount of a union plus popcount of the intersection is the sum of the popcounts |
| Masks.CountAndNot | othello.cpp:120 | clearing the bits of B removes popcount(A & B) |
| Masks.DecClearsLowest | othello.cpp:273 | `x & (x - 1)` is x with its lowest set bit cleared |
| Masks.NegIsolatesLowest | othello.cpp:408 | `x & -x` is the one-bit word of x's lowest set bit |
| Masks.CtzOfSingle | othello.cpp:409 | the trailing-zero count of a one-bit word is the position of that bit |
| Masks.SetBit | othello.cpp:258 | `legal |= next_move` sets that bit, and the popcount grows by one when it was clear |
| Search.CountBitsOnBoard | othello.cpp:269-277 | returns the popcount of `disks[color]`, at most 64 |
| Search.EvaluateBoard | othello.cpp:305-312 | the differential lies in −64..64 |
| Search.EvaluateFacts | othello.cpp:305-312 | the evaluation is antisymmetric in the colour; on a disjoint board the two counts sum to at most 64 |
| Search.GameIsOver | othello.cpp:296-301 | true exactly when neither side's enumeration finds a move |
| Search.NoLegalMove | othello.cpp:338 | a zero move count means no move is legal for that side by the rules, and conversely |
| Search.GameOverIff | othello.cpp:296-301 | the game is over exactly when the rules allow no move to either side |
| Search.Max | othello.cpp:362 | `op_max` returns one of its arguments, no smaller than either |
| Search.NegamaxValue | othello.cpp:329-340 | the value of the search is always a disk differential in −64..64, never the sentinel |
| Search.BestScore | othello.cpp:344-360 | folding the move scores from the sentinel leaves the sentinel only for an empty list, otherwise a value in −64..64 |
| Search.BestScoreAppend | othello.cpp:353 | one more move in the loop is one more maximum |
| Search.BestScoreIsMax | othello.cpp:343-387 | the folded score is the maximum: no move scores more, and a non-empty list has a move that scores exactly that |
| Search.BestScoreIs | othello.cpp:424-434 | a move that scores no less than every listed move gives the folded score |
| Search.BestScoreOrderFree | othello.cpp:379-386 | the folded score does not depend on the order of the moves, so the reducer may combine them in any order |
| Search.BestScoreBelow | othello.cpp:379-386 | when every move of one list is in another, the best score of the first is no larger |
| Search.NegamaxValueMoves | othello.cpp:341-387 | with a legal move available, the search value is the best score of the legal moves in bit order |
| Search.PassValue | othello.cpp:338-339 | when the mover must pass and the game is not over, the opponent has a move, and the value is minus the opponent's best score one level down |
| Search.NegamaxBest | othello.cpp:343-387 | with a legal move available, no legal move scores more than the search value, and some legal move scores exactly that |
| Search.NegamaxBound | othello.cpp:343-387 | a legal move means the side has moves, and that move scores no more than the search value |
| Search.NegamaxWitness | othello.cpp:343-387 | with a legal move available, some legal move scores exactly the search value |
| Search.DepthOneGain | othello.cpp:315-320 | one ply ahead, a legal move on a disjoint board flips at least one disk and raises the mover's differential by twice the flips plus one |
| Search.OpeningMoveLegal | othello.cpp:73-76 | in the initial position X may play (3, 4) |
| Search.OpeningMoves | othello.cpp:73-76 | in the initial position X's legal moves are exactly (3,4), (4,3), (5,6) and (6,5) |
| Search.OpeningScorePositive | othello.cpp:73-76 | from the initial position X has a move, and a search one ply deep scores strictly positive for X |
| Search.Negamax | othello.cpp:329-388 | for every depth ≥ 0, returns the search value (base case, pass, and both branches) |
| Search.ScoreMove | othello.cpp:350-352 | `-Negamax(child)` of the child made by `MakeMove` is that move's score |
| Search.WindowStep | othello.cpp:349-356 | `thisrow & COL8` tests the current square and `thisrow >>= 1` moves on to the next column |
| Search.WindowEmpty | othello.cpp:348 | leaving a row early, once `thisrow` is zero, skips no move |
| Search.SerialSquare | othello.cpp:349-356 | one square of the serial scan extends `bestValue` to the maximum over one more bit |
| Search.SerialRow | othello.cpp:347-357 | one row of the serial scan extends `bestValue` over the row's eight bits |
| Search.NegamaxSerial | othello.cpp:343-360 | the serial branch returns the fold of the move scores over the legal moves in bit order |
| Search.ListSquare | othello.cpp:369-374 | one square of the list scan appends its move exactly when its bit is set, leaving the rest of the array alone |
| Search.ListRow | othello.cpp:366-377 | one row of the list scan appends the row's moves in bit order |
| Search.ListMovesByRows | othello.cpp:363-377 | `moveList[0..idx)` is the list of legal moves in increasing bit order |
| Search.NegamaxParallel | othello.cpp:361-387 | the parallel branch returns the same fold as the serial branch |
| Search.ListMovesByBits | othello.cpp:404-416 | the lowest-bit-first scan lists the set bits in increasing order |
| Search.ScoreMoves | othello.cpp:418-423 | `scores[i]` is the score of move i |
| Search.ScoreLegalMoves | othello.cpp:404-423 | lists the legal moves in bit order and scores each of them |
| Search.FirstMax | othello.cpp:425-432 | returns the first index of a largest score: the largest, and strictly larger than every earlier one |
| Search.RootChoice | othello.cpp:424-434 | the first largest score among the legal moves is the search value, and its move is legal |
| Search.RootMoves | othello.cpp:404-434 | with a move available, returns the search value and the first legal move, in bit order, that reaches it |
| Search.NegamaxRoot | othello.cpp:395-435 | returns the search value and the first legal move, in bit order, that reaches it; on a pass the move is (0, 0) |
| Human.CheckAndPlay | othello.cpp:175-197 | off-board moves are refused as such; a move is played exactly when it is legal, and then the board is the played board and the flip count is positive; a refused move leaves the board unchanged |

## Left out

- Console output is not modelled: `PrintDisk`, `PrintBoardRow(s)` and `PrintBoard`, the `verbose` messages of `TryFlips`, and the `printf`s of `ReadMove`, `ComputerTurn` and `EndGame`. The `verbose` argument is dropped.
- Input and the game loop are not modelled: the `scanf` prompts of `ReadMove`, `HumanTurn`, `ComputerTurn`, `EndGame` and `main`. Only the validation `ReadMove` performs on a move is modelled (`Human.CheckAndPlay`).
- The Cilk parallelism is modelled as sequential in-order loops: `cilk_for` and the `op_max` reducer. `BestScoreOrderFree` shows that the reduced maximum does not depend on the order in which the results arrive. Concurrent execution itself is not modelled.
- `CUTOFF_DEPTH` is only a choice between two branches that return the same value. Search speed is not modelled.
- Boards are Dafny values, so the C pointer parameters become methods that return the updated board. `Board *b` in `PlaceOrFlip`, `TryFlips`, `FlipDisks` and `MakeMove` is handled this way. No aliasing between boards is possible in the source or the model.
- `EnumerateLegalMoves` returns its mask instead of writing `legal_moves->disks[color]`. The source never reads that struct's other mask.
- Masks are sequences of 64 booleans, not machine words. Each C operator is defined bit by bit, with `x - 1` and `-x` as borrow and carry chains.
- `EvaluateBoard` is a function of the two popcounts. The source computes them with two calls of `CountBitsOnBoard`, and `Search.CountBitsOnBoard` is proved to return exactly that popcount.
- C `int` overflow is not modelled; every count and score here lies within −9999999..64.
- The helper methods `SerialSquare`, `SerialRow`, `ListSquare`, `ListRow`, `ListMovesByRows`, `ListMovesByBits`, `ScoreMove`, `ScoreMoves` and `FirstMax` are pieces of the loops of `Negamax` and `NegamaxRoot`, split out and kept in the source's order. Likewise `ScanBit` is one pass of the scan loop in `EnumerateLegalMoves`, `FlipDirection` one pass of the direction loop in `FlipDisks`, and `ScoreLegalMoves` and `RootMoves` the two halves of `NegamaxRoot`'s move loop.
- Search.NegamaxRoot: requires depth ≥ 1, the range `main` asks for. With depth 0 the source would search the children at depth −1, which never meets the depth-0 base case and runs until the game ends. That case is not modelled.
