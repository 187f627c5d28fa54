/**
 * A checkers pawn and its legal-move calculation: every board square is
 * tested against the movement rule set, then the capture rule set; selected
 * squares get a movement or a capture move, and the pawn's own square always
 * gets a cancel move.
 */
module CheckersPawn {
  import opened Wrappers
  import opened Board
  import opened SelectionRules
  import opened Moves

  /** Raised when a capture rule selects a square but no opposing pawn lies between. */
  datatype PawnError = CaptureTargetMissing

  /** What the calculation needs to know about the moving pawn. */
  datatype Mover = Mover(owner: OwnerName, origin: Coord, movement: RuleSet, capture: RuleSet)

  /** What the per-square visit does with one square. */
  datatype SquareOutcome = NoMove | Record(move: Move) | TargetMissing

  /**
   * The first square, in scan order, holding a pawn whose owner's name
   * differs from `owner`; later candidates are ignored.
   */
  function FirstOpponent(pawns: map<Coord, OwnerName>, owner: OwnerName, between: seq<Coord>): (r: Option<Coord>)
    ensures r.Some? ==> r.value in between && HoldsOpponent(pawns, owner, r.value)
    decreases |between|
  {
    if between == [] then None
    else
      var found := FirstOpponent(pawns, owner, between[..|between| - 1]);
      if found.Some? then found
      else if HoldsOpponent(pawns, owner, between[|between| - 1]) then Some(between[|between| - 1])
      else None
  }

  /**
   * The scan finds nothing iff no square holds an opponent, and otherwise
   * finds exactly the first square that does.
   */
  lemma {:induction false} FirstOpponentIsFirst(pawns: map<Coord, OwnerName>, owner: OwnerName, between: seq<Coord>)
    ensures FirstOpponent(pawns, owner, between).None? <==>
      forall i :: 0 <= i < |between| ==> !HoldsOpponent(pawns, owner, between[i])
    ensures forall k :: (0 <= k < |between| && HoldsOpponent(pawns, owner, between[k])
                         && (forall j :: 0 <= j < k ==> !HoldsOpponent(pawns, owner, between[j])))
                        ==> FirstOpponent(pawns, owner, between) == Some(between[k])
    ensures FirstOpponent(pawns, owner, between).Some? ==>
      exists k :: 0 <= k < |between| && between[k] == FirstOpponent(pawns, owner, between).value
        && HoldsOpponent(pawns, owner, between[k])
        && forall j :: 0 <= j < k ==> !HoldsOpponent(pawns, owner, between[j])
    decreases |between|
  {
    if between != [] {
      var n := |between| - 1;
      var init := between[..n];
      FirstOpponentIsFirst(pawns, owner, init);
      assert forall i :: 0 <= i < n ==> init[i] == between[i];
    }
  }

  /**
   * The visit of one square (the body of the `foreachSquare` callback): a
   * recorded move is never a cancel and is placed on the visited square; a
   * capture removes an opposing pawn strictly between origin and square.
   */
  function VisitSquare(pawns: map<Coord, OwnerName>, mover: Mover, square: Coord): (r: SquareOutcome)
    ensures r.Record? ==> !r.move.Cancel? && MoveSquare(r.move) == square
    ensures r.Record? && r.move.Capture? ==>
      r.move.captured in SquaresBetween(mover.origin, square) && HoldsOpponent(pawns, mover.owner, r.move.captured)
  {
    if Selects(pawns, mover.movement, square, mover.origin) then Record(Movement(square))
    else if Selects(pawns, mover.capture, square, mover.origin) then
      match FirstOpponent(pawns, mover.owner, SquaresBetween(mover.origin, square))
      case None => TargetMissing
      case Some(target) => Record(Capture(square, target))
    else NoMove
  }

  /** The move map after visiting some squares, and whether a visit threw. */
  datatype Scan = Scan(moves: MoveMap, failed: bool)

  /**
   * Visiting `squares` in order with the callback `visit`, from a fresh map
   * (`board.foreachSquare`); a throwing visit stops the walk and leaves the
   * map as it was before that square.
   */
  function Walk(visit: Coord -> SquareOutcome, squares: seq<Coord>): (s: Scan)
    ensures s.moves.Valid()
    ensures s.moves.Size() <= |squares|
    decreases |squares|
  {
    if squares == [] then Scan(Empty, false)
    else
      var square := squares[|squares| - 1];
      Advance(Walk(visit, squares[..|squares| - 1]), square, visit(square))
  }

  /**
   * One step of the walk: after a throw nothing changes; otherwise the
   * visit's move is set at `square`, or the walk throws.
   */
  function Advance(prev: Scan, square: Coord, outcome: SquareOutcome): (s: Scan)
    requires prev.moves.Valid()
    ensures s.moves.Valid()
  {
    if prev.failed then prev
    else match outcome
      case NoMove => prev
      case Record(m) => Scan(prev.moves.Set(square, m), false)
      case TargetMissing => Scan(prev.moves, true)
  }

  /** The callback a calculation hands to the walk. */
  function Visitor(pawns: map<Coord, OwnerName>, mover: Mover): Coord -> SquareOutcome {
    square => VisitSquare(pawns, mover, square)
  }

  /** The walk a calculation performs over `squares`. */
  function Collect(pawns: map<Coord, OwnerName>, mover: Mover, squares: seq<Coord>): (s: Scan)
    ensures s.moves.Valid()
  {
    Walk(Visitor(pawns, mover), squares)
  }

  /**
   * The map a call leaves behind: after a full walk, the walk's map with a
   * cancel move set at the pawn's own square; after a throw, the partial map.
   */
  function ResultingMoves(pawns: map<Coord, OwnerName>, mover: Mover, squares: seq<Coord>): (mm: MoveMap)
    ensures mm.Valid()
    ensures !Collect(pawns, mover, squares).failed ==>
      mover.origin in mm.moves && mm.moves[mover.origin] == Cancel(mover.origin)
  {
    var s := Collect(pawns, mover, squares);
    if s.failed then s.moves else s.moves.Set(mover.origin, Cancel(mover.origin))
  }

  /** Once a walk has failed on a prefix, the whole walk fails with the same partial map. */
  lemma {:induction false} FailureIsFinal(visit: Coord -> SquareOutcome, squares: seq<Coord>, n: nat)
    requires n <= |squares|
    requires Walk(visit, squares[..n]).failed
    ensures Walk(visit, squares) == Walk(visit, squares[..n])
    decreases |squares| - n
  {
    if n < |squares| {
      var m := |squares| - 1;
      assert squares[..m][..n] == squares[..n];
      FailureIsFinal(visit, squares[..m], n);
    } else {
      assert squares[..n] == squares;
    }
  }

  /** A walk throws iff some visit of one of its squares throws. */
  lemma {:induction false} WalkFailsIffVisitThrows(visit: Coord -> SquareOutcome, squares: seq<Coord>)
    ensures Walk(visit, squares).failed <==> exists i :: 0 <= i < |squares| && visit(squares[i]).TargetMissing?
    decreases |squares|
  {
    if squares != [] {
      var n := |squares| - 1;
      WalkFailsIffVisitThrows(visit, squares[..n]);
      assert forall i :: 0 <= i < n ==> squares[..n][i] == squares[i];
      if visit(squares[n]).TargetMissing? {
        assert 0 <= n < |squares|;
      }
    }
  }

  /**
   * Every entry of a walk's map is a visited square whose visit recorded that
   * move; when the walk did not throw, every such square has an entry.
   */
  lemma {:induction false} WalkEntries(visit: Coord -> SquareOutcome, squares: seq<Coord>, k: Coord)
    ensures !Walk(visit, squares).failed ==>
      (k in Walk(visit, squares).moves.moves <==> k in squares && visit(k).Record?)
    ensures k in Walk(visit, squares).moves.moves ==>
      k in squares && visit(k).Record? && Walk(visit, squares).moves.moves[k] == visit(k).move
    decreases |squares|
  {
    if squares != [] {
      var n := |squares| - 1;
      assert squares == squares[..n] + [squares[n]];
      WalkEntries(visit, squares[..n], k);
    }
  }

  /** The calculation throws iff some square is selected for capture with no opposing pawn between. */
  lemma FailsIffTargetMissing(pawns: map<Coord, OwnerName>, mover: Mover, squares: seq<Coord>)
    ensures Collect(pawns, mover, squares).failed <==>
      exists i :: 0 <= i < |squares| && VisitSquare(pawns, mover, squares[i]).TargetMissing?
  {
    WalkFailsIffVisitThrows(Visitor(pawns, mover), squares);
  }

  /**
   * Every entry of the calculation's walk is a board square whose visit
   * recorded that move; when it did not throw, every such square has one.
   */
  lemma CollectEntries(pawns: map<Coord, OwnerName>, mover: Mover, squares: seq<Coord>, k: Coord)
    ensures !Collect(pawns, mover, squares).failed ==>
      (k in Collect(pawns, mover, squares).moves.moves <==> k in squares && VisitSquare(pawns, mover, k).Record?)
    ensures k in Collect(pawns, mover, squares).moves.moves ==>
      && k in squares
      && VisitSquare(pawns, mover, k).Record?
      && Collect(pawns, mover, squares).moves.moves[k] == VisitSquare(pawns, mover, k).move
  {
    WalkEntries(Visitor(pawns, mover), squares, k);
  }

  /**
   * Apart from the pawn's own square, a completed calculation has an entry
   * exactly for the squares the movement or the capture rule set selected; a
   * square the movement rules select gets a movement and the capture rules
   * are not consulted for it; any other entry captures the first opposing
   * pawn between origin and destination.
   */
  lemma ResultingEntries(pawns: map<Coord, OwnerName>, mover: Mover, squares: seq<Coord>, k: Coord)
    requires !Collect(pawns, mover, squares).failed
    requires k != mover.origin
    ensures k in ResultingMoves(pawns, mover, squares).moves <==>
      k in squares && (Selects(pawns, mover.movement, k, mover.origin) || Selects(pawns, mover.capture, k, mover.origin))
    ensures k in ResultingMoves(pawns, mover, squares).moves && Selects(pawns, mover.movement, k, mover.origin) ==>
      ResultingMoves(pawns, mover, squares).moves[k] == Movement(k)
    ensures k in ResultingMoves(pawns, mover, squares).moves && !Selects(pawns, mover.movement, k, mover.origin) ==>
      && Selects(pawns, mover.capture, k, mover.origin)
      && FirstOpponent(pawns, mover.owner, SquaresBetween(mover.origin, k)).Some?
      && ResultingMoves(pawns, mover, squares).moves[k] ==
           Capture(k, FirstOpponent(pawns, mover.owner, SquaresBetween(mover.origin, k)).value)
  {
    CollectEntries(pawns, mover, squares, k);
    if k in squares && !Selects(pawns, mover.movement, k, mover.origin) && Selects(pawns, mover.capture, k, mover.origin) {
      FailsIffTargetMissing(pawns, mover, squares);
      var i :| 0 <= i < |squares| && squares[i] == k;
      assert !VisitSquare(pawns, mover, squares[i]).TargetMissing?;
    }
  }

  /**
   * A capture entry lands on its own key and removes the first square,
   * walking from origin to destination, that holds an opposing pawn.
   */
  lemma CaptureTargetIsFirstOpponent(pawns: map<Coord, OwnerName>, mover: Mover, squares: seq<Coord>, k: Coord)
    requires k in ResultingMoves(pawns, mover, squares).moves
    requires ResultingMoves(pawns, mover, squares).moves[k].Capture?
    ensures var m, between := ResultingMoves(pawns, mover, squares).moves[k], SquaresBetween(mover.origin, k);
      && m.destination == k
      && exists i :: 0 <= i < |between| && between[i] == m.captured
           && HoldsOpponent(pawns, mover.owner, between[i])
           && forall j :: 0 <= j < i ==> !HoldsOpponent(pawns, mover.owner, between[j])
  {
    CollectEntries(pawns, mover, squares, k);
    var between := SquaresBetween(mover.origin, k);
    FirstOpponentIsFirst(pawns, mover.owner, between);
  }

  /**
   * Every entry, the cancel included, is placed on its own key: the square
   * a picked move is placed on (`move.square`) is the square it was stored
   * under, whether or not the calculation threw.
   */
  lemma PlacedOnItsKey(pawns: map<Coord, OwnerName>, mover: Mover, squares: seq<Coord>, k: Coord)
    requires k in ResultingMoves(pawns, mover, squares).moves
    ensures MoveSquare(ResultingMoves(pawns, mover, squares).moves[k]) == k
  {
    if k != mover.origin || Collect(pawns, mover, squares).failed {
      CollectEntries(pawns, mover, squares, k);
    }
  }

  /** The mover a pawn of `owner` standing on `origin` is, with the rule sets its constructor wires up. */
  function PawnMover(owner: OwnerName, origin: Coord): Mover {
    Mover(owner, origin, MovementRules(owner), CaptureRules(owner))
  }

  /**
   * With the pawn's rule sets the "target missing" error cannot occur: the
   * capture rule selects a square only over an opposing pawn, which the scan
   * then finds.
   */
  lemma PawnNeverMissesTarget(pawns: map<Coord, OwnerName>, owner: OwnerName, origin: Coord, squares: seq<Coord>)
    ensures !Collect(pawns, PawnMover(owner, origin), squares).failed
  {
    var mover := PawnMover(owner, origin);
    forall i | 0 <= i < |squares| ensures !VisitSquare(pawns, mover, squares[i]).TargetMissing? {
      var k := squares[i];
      if Selects(pawns, mover.capture, k, origin) {
        CaptureRulesSelect(pawns, owner, k, origin);
        FirstOpponentIsFirst(pawns, owner, SquaresBetween(origin, k));
      }
    }
    FailsIffTargetMissing(pawns, mover, squares);
  }

  /**
   * Every pawn move other than the cancel lands on a square that was empty,
   * and a capture jumps exactly two diagonal steps over the opposing pawn on
   * the midpoint.
   */
  lemma PawnMovesLandOnEmptySquares(pawns: map<Coord, OwnerName>, owner: OwnerName, origin: Coord, squares: seq<Coord>, k: Coord)
    requires k in ResultingMoves(pawns, PawnMover(owner, origin), squares).moves
    requires !ResultingMoves(pawns, PawnMover(owner, origin), squares).moves[k].Cancel?
    ensures k != origin && k !in pawns
    ensures var m := ResultingMoves(pawns, PawnMover(owner, origin), squares).moves[k];
      m.Capture? ==>
        && OnDiagonal(origin, k) && Steps(origin, k) == 2
        && m.captured == Coord((origin.file + k.file) / 2, (origin.rank + k.rank) / 2)
        && HoldsOpponent(pawns, owner, m.captured)
  {
    var mover := PawnMover(owner, origin);
    PawnNeverMissesTarget(pawns, owner, origin, squares);
    ResultingEntries(pawns, mover, squares, k);
    if Selects(pawns, mover.movement, k, origin) {
      MaskedByEmptySelectsEmpty(pawns, mover.movement, k, origin);
    } else {
      MaskedByEmptySelectsEmpty(pawns, mover.capture, k, origin);
      CaptureRulesSelect(pawns, owner, k, origin);
      BetweenTwoStepsIsMidpoint(origin, k);
      FirstOpponentIsFirst(pawns, owner, SquaresBetween(origin, k));
    }
  }

  /**
   * The pawn's own square is never selected, so the cancel move is a new
   * key and therefore the last entry of the map.
   */
  lemma PawnCancelIsLastEntry(pawns: map<Coord, OwnerName>, owner: OwnerName, origin: Coord, squares: seq<Coord>)
    ensures var mm := ResultingMoves(pawns, PawnMover(owner, origin), squares);
      && mm.Size() > 0
      && mm.order[mm.Size() - 1] == origin
      && mm.order == Collect(pawns, PawnMover(owner, origin), squares).moves.order + [origin]
  {
    var mover := PawnMover(owner, origin);
    PawnNeverMissesTarget(pawns, owner, origin, squares);
    CollectEntries(pawns, mover, squares, origin);
    MovementRulesSelect(pawns, owner, origin, origin);
    CaptureRulesSelect(pawns, owner, origin, origin);
  }

  /** A boxed-in pawn, for which no square is selected, gets exactly one entry: the cancel. */
  lemma PawnBoxedInHasOnlyCancel(pawns: map<Coord, OwnerName>, owner: OwnerName, origin: Coord, squares: seq<Coord>)
    requires forall i :: 0 <= i < |squares| ==>
      !Selects(pawns, MovementRules(owner), squares[i], origin) && !Selects(pawns, CaptureRules(owner), squares[i], origin)
    ensures ResultingMoves(pawns, PawnMover(owner, origin), squares).order == [origin]
    ensures ResultingMoves(pawns, PawnMover(owner, origin), squares).moves == map[origin := Cancel(origin)]
  {
    var mover := PawnMover(owner, origin);
    var walked := Collect(pawns, mover, squares).moves;
    PawnNeverMissesTarget(pawns, owner, origin, squares);
    PawnCancelIsLastEntry(pawns, owner, origin, squares);
    if walked.order != [] {
      var k := walked.order[0];
      CollectEntries(pawns, mover, squares, k);
    }
  }

  /**
   * The movement rules let a pawn jump two steps over a pawn of its own onto
   * an empty square, and the result is a plain movement, not a capture.
   */
  lemma PawnJumpsOverOwnPawnAsMovement(pawns: map<Coord, OwnerName>, owner: OwnerName, origin: Coord, squares: seq<Coord>, k: Coord)
    requires k in squares && k !in pawns
    requires OnDiagonal(origin, k) && Steps(origin, k) == 2
    requires var mid := Coord((origin.file + k.file) / 2, (origin.rank + k.rank) / 2);
      mid in pawns && pawns[mid] == owner
    ensures k in ResultingMoves(pawns, PawnMover(owner, origin), squares).moves
    ensures ResultingMoves(pawns, PawnMover(owner, origin), squares).moves[k] == Movement(k)
  {
    BetweenTwoStepsIsMidpoint(origin, k);
    assert PieceBetween(pawns, origin, k, owner, true) by {
      assert SquaresBetween(origin, k)[0] in pawns;
    }
    MovementRulesSelect(pawns, owner, k, origin);
    PawnNeverMissesTarget(pawns, owner, origin, squares);
    ResultingEntries(pawns, PawnMover(owner, origin), squares, k);
  }

  /**
   * A checkers pawn. Its rule sets are fixed at construction; `position`
   * changes when a move is placed, which happens outside this model.
   */
  class Pawn {
    /** The name of the pawn's owner. */
    const owner: OwnerName
    const board: Board
    const movementRuleSet: RuleSet
    const captureRuleSet: RuleSet
    /** The coordinate of the pawn's current square. */
    var position: Coord
    var availableMoves: MoveMap

    /** The rule sets are the ones the constructor wires up for the pawn's owner. */
    predicate Wired() {
      movementRuleSet == MovementRules(owner) && captureRuleSet == CaptureRules(owner)
    }

    ghost predicate Valid()
      reads this`availableMoves
    {
      availableMoves.Valid()
    }

    constructor (owner: OwnerName, board: Board, position: Coord)
      ensures this.owner == owner && this.board == board && this.position == position
      ensures movementRuleSet == MovementRules(owner) && captureRuleSet == CaptureRules(owner)
      ensures Wired() && availableMoves == Empty && Valid()
    {
      this.owner := owner;
      this.board := board;
      this.position := position;
      movementRuleSet := RuleSet([DiagonalExtents(1), DiagonalExtentsWithCurrentPlayersPieceBetween(2, owner)], [EmptySquare]);
      captureRuleSet := RuleSet([DiagonalExtentsWithOtherThanCurrentPlayersPieceBetween(2, owner)], [EmptySquare]);
      availableMoves := Empty;
    }

    function AsMover(): Mover
      reads this`position
    {
      Mover(owner, position, movementRuleSet, captureRuleSet)
    }

    /** A pawn with the constructor's rule sets never throws, whatever the board and its square. */
    lemma WiredNeverThrows(contents: map<Coord, OwnerName>, at: Coord)
      requires Wired()
      ensures !ScanFrom(contents, at).failed
    {
      PawnNeverMissesTarget(contents, owner, at, board.squares);
    }

    /** The walk a calculation performs when the board holds `contents` and the pawn stands on `at`. */
    function ScanFrom(contents: map<Coord, OwnerName>, at: Coord): Scan {
      Collect(contents, Mover(owner, at, movementRuleSet, captureRuleSet), board.squares)
    }

    /** The map such a calculation leaves in `availableMoves`. */
    function MovesFrom(contents: map<Coord, OwnerName>, at: Coord): MoveMap {
      ResultingMoves(contents, Mover(owner, at, movementRuleSet, captureRuleSet), board.squares)
    }

    /** Whether calculating on the current board would throw. */
    function WouldThrow(): bool
      reads this`position, board`pawns
    {
      ScanFrom(board.pawns, position).failed
    }

    /** The map a calculation on the current board leaves in `availableMoves`. */
    function ExpectedMoves(): MoveMap
      reads this`position, board`pawns
    {
      MovesFrom(board.pawns, position)
    }

    /** The move map holds what a calculation on the current board produces, and that calculation does not throw. */
    ghost predicate UpToDate()
      reads this`availableMoves, this`position, board`pawns
    {
      !WouldThrow() && availableMoves == ExpectedMoves()
    }

    /**
     * The diagonal scan for a capture target: walks the squares strictly
     * between the pawn and `destination`, keeping the first one that holds
     * an opposing pawn.
     */
    method FindCaptureTarget(destination: Coord) returns (target: Option<Coord>)
      ensures target == FirstOpponent(board.pawns, owner, SquaresBetween(position, destination))
    {
      var between := SquaresBetween(position, destination);
      target := None;
      var i := 0;
      while i < |between|
        invariant 0 <= i <= |between|
        invariant target == FirstOpponent(board.pawns, owner, between[..i])
      {
        if target.None? && HoldsOpponent(board.pawns, owner, between[i]) {
          target := Some(between[i]);
        }
        assert between[..i + 1][..i] == between[..i];
        i := i + 1;
      }
      assert between[..i] == between;
    }

    /**
     * The visit of one board square: a square the movement rules select gets
     * a movement; otherwise one the capture rules select gets a capture of
     * the first opposing pawn between, and `failed` is set when there is
     * none; the map is left alone in every other case.
     */
    method Visit(square: Coord) returns (failed: bool)
      requires Valid()
      modifies this`availableMoves
      ensures Scan(availableMoves, failed) ==
        Advance(Scan(old(availableMoves), false), square, VisitSquare(board.pawns, AsMover(), square))
    {
      failed := false;
      if Selects(board.pawns, movementRuleSet, square, position) {
        availableMoves := availableMoves.Set(square, Movement(square));
        return;
      }
      if Selects(board.pawns, captureRuleSet, square, position) {
        var target := FindCaptureTarget(square);
        if target.None? {
          failed := true;
          return;
        }
        availableMoves := availableMoves.Set(square, Capture(square, target.value));
      }
    }

    /**
     * Rebuilds `availableMoves` from empty by visiting every board square,
     * then sets the cancel move at the pawn's own square. Reads the board
     * and changes nothing but `availableMoves`.
     */
    method CalcAvailableMoves() returns (outcome: Outcome<PawnError>)
      modifies this`availableMoves
      ensures Valid()
      ensures outcome == if WouldThrow() then Fail(CaptureTargetMissing) else Pass
      ensures availableMoves == ExpectedMoves()
      ensures outcome.Pass? <==> UpToDate()
      ensures outcome.Pass? ==> position in availableMoves.moves && availableMoves.moves[position] == Cancel(position)
    {
      availableMoves := Empty;
      var squares := board.squares;
      var i := 0;
      var failed := false;
      while i < |squares| && !failed
        invariant 0 <= i <= |squares|
        invariant Collect(board.pawns, AsMover(), squares[..i]) == Scan(availableMoves, failed)
      {
        failed := Visit(squares[i]);
        assert squares[..i + 1][..i] == squares[..i];
        i := i + 1;
      }
      if failed {
        FailureIsFinal(Visitor(board.pawns, AsMover()), squares, i);
        outcome := Fail(CaptureTargetMissing);
      } else {
        assert squares[..i] == squares;
        availableMoves := availableMoves.Set(position, Cancel(position));
        outcome := Pass;
      }
    }
  }
}
