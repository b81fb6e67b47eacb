/** The checks `ReadMove` makes on a move typed by the player, without the
    prompt and the retry loop: off the board, occupied, no disk flipped, or
    played. The captures are made before the flip count is tested, as in
    the engine; a move that flips nothing has changed nothing. */
module Human {
  import opened Masks
  import opened Bitboard
  import opened Flips
  import opened Captures
  import opened Legality

  /** Why a move is refused, or how many disks an accepted move flipped. */
  datatype Outcome = OffBoard | AlreadyOccupied | NoFlips | Played(nflips: nat)

  /** One pass of `ReadMove`'s validation: each refusal names the first
      check that failed, exactly the legal moves are played, and a refused
      move leaves the board as it was. */
  method CheckAndPlay(b: Board, color: Color, m: Move) returns (outcome: Outcome, nb: Board)
    ensures outcome == OffBoard <==> IsMoveOffBoard(m)
    ensures outcome == AlreadyOccupied <==> OnBoard(m) && Occupied(b, Index(m))
    ensures outcome == NoFlips <==> OnBoard(m) && !Occupied(b, Index(m)) && FlipCount(b, color, m) == 0
    ensures outcome.Played? <==> IsLegalMove(b, color, m)
    ensures outcome.Played? ==> nb == Play(b, color, m) && outcome.nflips == FlipCount(b, color, m) > 0
    ensures !outcome.Played? ==> nb == b
  {
    if IsMoveOffBoard(m) {
      return OffBoard, b;
    }
    var movebit := MoveToBoardBit(m);
    var occupied := Or(b.Disks(XBlack), b.Disks(OWhite));
    BitTest(m, occupied);
    if And(movebit, occupied) != Zero() {
      return AlreadyOccupied, b;
    }
    var nflips, after := FlipDisks(m, b, color, true);
    FlipsPositive(b, color, m, |Offsets|);
    if nflips == 0 {
      NoFlipsNoChange(b, color, m);
      return NoFlips, after;
    }
    nb := PlaceOrFlip(m, after, color);
    return Played(nflips), nb;
  }
}
