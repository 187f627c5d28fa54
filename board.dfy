/**
 * The board as the move calculation sees it: coordinates, diagonal geometry,
 * and a read-only snapshot of which squares hold a pawn and whose it is.
 */
module Board {

  /** A square's (file, rank) pair; it is the key of a pawn's move map. */
  datatype Coord = Coord(file: int, rank: int)

  /** A player is identified by name: ownership is compared by name. */
  type OwnerName = string

  function Abs(x: int): (r: nat)
    ensures r == x || r == -x
  {
    if x < 0 then -x else x
  }

  /** `to` lies on one of the four diagonals through `from`, not on `from` itself. */
  predicate OnDiagonal(from: Coord, to: Coord) {
    from != to && Abs(to.file - from.file) == Abs(to.rank - from.rank)
  }

  /** Number of diagonal steps from `from` to `to` (meaningful when OnDiagonal). */
  function Steps(from: Coord, to: Coord): nat {
    Abs(to.file - from.file)
  }

  function Sign(x: int): int {
    if x < 0 then -1 else 1
  }

  /**
   * The squares strictly between `from` and `to` on their diagonal, in the
   * order met when walking from `from` towards `to`; empty when the two are
   * not on a common diagonal.
   */
  function SquaresBetween(from: Coord, to: Coord): (r: seq<Coord>)
    ensures OnDiagonal(from, to) ==> |r| == Steps(from, to) - 1
    ensures !OnDiagonal(from, to) ==> r == []
  {
    if !OnDiagonal(from, to) then []
    else
      var df, dr := Sign(to.file - from.file), Sign(to.rank - from.rank);
      seq(Steps(from, to) - 1, i => Coord(from.file + (i + 1) * df, from.rank + (i + 1) * dr))
  }

  /** Neither endpoint is ever among the squares between them. */
  lemma BetweenExcludesEnds(from: Coord, to: Coord, i: nat)
    requires i < |SquaresBetween(from, to)|
    ensures SquaresBetween(from, to)[i] != from && SquaresBetween(from, to)[i] != to
    ensures OnDiagonal(from, SquaresBetween(from, to)[i])
    ensures Steps(from, SquaresBetween(from, to)[i]) == i + 1
    ensures OnDiagonal(SquaresBetween(from, to)[i], to)
    ensures Steps(SquaresBetween(from, to)[i], to) == Steps(from, to) - (i + 1)
  {
  }

  /** Two steps apart on a diagonal: exactly one square between, the midpoint. */
  lemma BetweenTwoStepsIsMidpoint(from: Coord, to: Coord)
    requires OnDiagonal(from, to) && Steps(from, to) == 2
    ensures SquaresBetween(from, to) == [Coord((from.file + to.file) / 2, (from.rank + to.rank) / 2)]
  {
  }

  /** `c` holds a pawn whose owner's name differs from `owner`. */
  predicate HoldsOpponent(pawns: map<Coord, OwnerName>, owner: OwnerName, c: Coord) {
    c in pawns && pawns[c] != owner
  }

  /**
   * The board collaborator. Its iteration order over squares is fixed;
   * which squares hold a pawn changes only through code outside this model
   * (moves being placed), never through the move calculation.
   */
  class Board {
    /** Every square's coordinate, in `foreachSquare` order. */
    const squares: seq<Coord>
    /** For each occupied square, the name of the owner of the pawn on it. */
    var pawns: map<Coord, OwnerName>

    constructor (squares: seq<Coord>, pawns: map<Coord, OwnerName>)
      ensures this.squares == squares && this.pawns == pawns
    {
      this.squares := squares;
      this.pawns := pawns;
    }
  }
}
