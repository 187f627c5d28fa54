/**
 * Square selection rules and rule sets. A rule answers, for a target square
 * and an origin square, whether the target is reachable under that rule; a
 * rule set combines additive rules (any may accept) with masking rules (all
 * must accept).
 */
module SelectionRules {
  import opened Board

  /** The rule kinds a checkers pawn is built from. */
  datatype Rule =
    | DiagonalExtents(depth: nat)
      // a diagonal square at most `depth` steps away
    | DiagonalExtentsWithCurrentPlayersPieceBetween(depth: nat, owner: OwnerName)
      // as above, with a pawn of `owner` on a square between
    | DiagonalExtentsWithOtherThanCurrentPlayersPieceBetween(depth: nat, owner: OwnerName)
      // as above, with a pawn of another player on a square between
    | EmptySquare
      // the target holds no pawn

  datatype RuleSet = RuleSet(additive: seq<Rule>, masking: seq<Rule>)

  /** Some square strictly between `from` and `to` holds a pawn whose owner's name is (or is not) `owner`. */
  predicate PieceBetween(pawns: map<Coord, OwnerName>, from: Coord, to: Coord, owner: OwnerName, same: bool) {
    var between := SquaresBetween(from, to);
    exists i :: 0 <= i < |between| && between[i] in pawns && (pawns[between[i]] == owner) == same
  }

  predicate Accepts(pawns: map<Coord, OwnerName>, rule: Rule, target: Coord, origin: Coord) {
    match rule
    case DiagonalExtents(depth) =>
      OnDiagonal(origin, target) && Steps(origin, target) <= depth
    case DiagonalExtentsWithCurrentPlayersPieceBetween(depth, owner) =>
      OnDiagonal(origin, target) && Steps(origin, target) <= depth
      && PieceBetween(pawns, origin, target, owner, true)
    case DiagonalExtentsWithOtherThanCurrentPlayersPieceBetween(depth, owner) =>
      OnDiagonal(origin, target) && Steps(origin, target) <= depth
      && PieceBetween(pawns, origin, target, owner, false)
    case EmptySquare =>
      target !in pawns
  }

  /** A rule set selects a target iff some additive rule accepts it and every masking rule does. */
  predicate Selects(pawns: map<Coord, OwnerName>, rules: RuleSet, target: Coord, origin: Coord) {
    && (exists i :: 0 <= i < |rules.additive| && Accepts(pawns, rules.additive[i], target, origin))
    && (forall i :: 0 <= i < |rules.masking| ==> Accepts(pawns, rules.masking[i], target, origin))
  }

  /** A pawn's movement rules: one diagonal step, or two over a pawn of its own, onto an empty square. */
  function MovementRules(owner: OwnerName): (rs: RuleSet)
    ensures EmptySquare in rs.masking
  {
    RuleSet([DiagonalExtents(1), DiagonalExtentsWithCurrentPlayersPieceBetween(2, owner)], [EmptySquare])
  }

  /** A pawn's capture rules: two diagonal steps over another player's pawn, onto an empty square. */
  function CaptureRules(owner: OwnerName): (rs: RuleSet)
    ensures EmptySquare in rs.masking
  {
    RuleSet([DiagonalExtentsWithOtherThanCurrentPlayersPieceBetween(2, owner)], [EmptySquare])
  }

  /** Whatever its additive rules, a set masked by "empty square" selects only empty squares. */
  lemma MaskedByEmptySelectsEmpty(pawns: map<Coord, OwnerName>, rules: RuleSet, target: Coord, origin: Coord)
    requires EmptySquare in rules.masking
    requires Selects(pawns, rules, target, origin)
    ensures target !in pawns
  {
    var i :| 0 <= i < |rules.masking| && rules.masking[i] == EmptySquare;
    assert Accepts(pawns, rules.masking[i], target, origin);
  }

  /** The pawn's movement rules select exactly the empty squares one step away, or two steps away over its own pawn. */
  lemma MovementRulesSelect(pawns: map<Coord, OwnerName>, owner: OwnerName, target: Coord, origin: Coord)
    ensures Selects(pawns, MovementRules(owner), target, origin) <==>
      && target !in pawns
      && OnDiagonal(origin, target)
      && (Steps(origin, target) == 1 || (Steps(origin, target) == 2 && PieceBetween(pawns, origin, target, owner, true)))
  {
    var rs := MovementRules(owner);
    if Selects(pawns, rs, target, origin) {
      var i :| 0 <= i < |rs.additive| && Accepts(pawns, rs.additive[i], target, origin);
      assert Accepts(pawns, rs.masking[0], target, origin);
      if i == 1 && Steps(origin, target) != 1 {
        assert Steps(origin, target) <= 2;
        assert PieceBetween(pawns, origin, target, owner, true);
      }
    }
    if target !in pawns && OnDiagonal(origin, target) {
      if Steps(origin, target) == 1 {
        assert Accepts(pawns, rs.additive[0], target, origin);
      } else if Steps(origin, target) == 2 && PieceBetween(pawns, origin, target, owner, true) {
        assert Accepts(pawns, rs.additive[1], target, origin);
      }
    }
  }

  /** The pawn's capture rules select exactly the empty squares two steps away over a pawn of another player. */
  lemma CaptureRulesSelect(pawns: map<Coord, OwnerName>, owner: OwnerName, target: Coord, origin: Coord)
    ensures Selects(pawns, CaptureRules(owner), target, origin) <==>
      && target !in pawns
      && OnDiagonal(origin, target)
      && Steps(origin, target) == 2
      && HoldsOpponent(pawns, owner, SquaresBetween(origin, target)[0])
  {
    var rs := CaptureRules(owner);
    if Selects(pawns, rs, target, origin) {
      assert Accepts(pawns, rs.additive[0], target, origin);
      assert Accepts(pawns, rs.masking[0], target, origin);
    }
    if target !in pawns && OnDiagonal(origin, target) && Steps(origin, target) == 2
       && HoldsOpponent(pawns, owner, SquaresBetween(origin, target)[0])
    {
      assert PieceBetween(pawns, origin, target, owner, false);
      assert Accepts(pawns, rs.additive[0], target, origin);
    }
  }
}
