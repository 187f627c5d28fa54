/**
 * The automated player: recomputes the moves of every pawn it may play,
 * keeps the one with the most moves, lifts it, places it on one entry of its
 * move map and ends the turn.
 */
module Cpu {
  import opened Wrappers
  import opened Board
  import opened Moves
  import opened CheckersPawn

  datatype TurnError =
    | MoveCalculation(error: PawnError)  // a pawn's move calculation threw
    | NoUsablePawns(player: OwnerName)   // the `GameRuleError` of a player with no playable pawn
    | NoMoveToPick                       // the chosen pawn's move map was empty when the move was picked

  /** The effects of a turn on its collaborators, in the order they happen. */
  datatype TurnStep = Lift(pawn: Pawn) | Place(pawn: Pawn, at: Coord) | EndTurn

  /**
   * One comparison of the selection loop: a contender replaces the current
   * best only when its size is strictly greater. When the contender is the
   * best pawn itself (recomputed), it stays the best with its new size.
   */
  function Contend<T(==)>(best: Option<(T, nat)>, contender: (T, nat)): (r: Option<(T, nat)>)
    ensures r == Some(contender) || r == best
    ensures r.Some?
    ensures best.Some? && best.value.0 != contender.0 ==>
      r.value.1 >= best.value.1 && r.value.1 >= contender.1
  {
    if best.None? || best.value.0 == contender.0 || contender.1 > best.value.1 then Some(contender)
    else best
  }

  /** The best pawn, with its size, after comparing `contenders` in order, starting from `start`. */
  function RunningMax<T(==)>(start: Option<(T, nat)>, contenders: seq<(T, nat)>): (r: Option<(T, nat)>)
    decreases |contenders|
  {
    if contenders == [] then start
    else Contend(RunningMax(start, contenders[..|contenders| - 1]), contenders[|contenders| - 1])
  }

  /** A pawn paired with the size of its current move map, or none. */
  function Sized(p: Pawn?): Option<(Pawn, nat)>
    reads if p == null then {} else {p}
  {
    if p == null then None else Some((p, p.availableMoves.Size()))
  }

  /** What a pawn's calculation depends on: the contents of its board and the square it stands on. */
  type Situation = (map<Coord, OwnerName>, Coord)

  /** The move map `pawn` computes in `situation`. */
  function MovesIn(pawn: Pawn, situation: Situation): MoveMap {
    pawn.MovesFrom(situation.0, situation.1)
  }

  /** Whether `pawn`'s calculation throws in `situation`. */
  function ThrowsIn(pawn: Pawn, situation: Situation): bool {
    pawn.ScanFrom(situation.0, situation.1).failed
  }

  /** The current situation of every pawn, in order. */
  function Situations(pawns: seq<Pawn>): (situations: seq<Situation>)
    reads (set p | p in pawns)`position, (set p | p in pawns :: p.board)`pawns
    ensures |situations| == |pawns|
    ensures forall j :: 0 <= j < |pawns| ==> situations[j] == (pawns[j].board.pawns, pawns[j].position)
    decreases |pawns|
  {
    if pawns == [] then []
    else
      var last := pawns[|pawns| - 1];
      Situations(pawns[..|pawns| - 1]) + [(last.board.pawns, last.position)]
  }

  /** `f` applied to the elements of `xs` and `ys` at equal positions. */
  function Pointwise<A, B, R>(f: (A, B) -> R, xs: seq<A>, ys: seq<B>): (rs: seq<R>)
    requires |ys| == |xs|
    ensures |rs| == |xs|
    decreases |xs|
  {
    if xs == [] then []
    else
      var n := |xs| - 1;
      Pointwise(f, xs[..n], ys[..n]) + [f(xs[n], ys[n])]
  }

  /** Position `j` of a pointwise list is `f` of the elements at `j`. */
  lemma {:induction false} PointwiseAt<A, B, R>(f: (A, B) -> R, xs: seq<A>, ys: seq<B>, j: nat)
    requires |ys| == |xs| && j < |xs|
    ensures Pointwise(f, xs, ys)[j] == f(xs[j], ys[j])
    decreases |xs|
  {
    var n := |xs| - 1;
    if j < n {
      PointwiseAt(f, xs[..n], ys[..n], j);
    }
  }

  /** The map each pawn computes in its situation (`situations` lists one per pawn, in the same order). */
  function MapsIn(pawns: seq<Pawn>, situations: seq<Situation>): (maps: seq<MoveMap>)
    requires |situations| == |pawns|
    ensures |maps| == |pawns|
  {
    Pointwise(MovesIn, pawns, situations)
  }

  /** Whether each pawn's calculation throws in its situation. */
  function ThrowsAt(pawns: seq<Pawn>, situations: seq<Situation>): (throws: seq<bool>)
    requires |situations| == |pawns|
    ensures |throws| == |pawns|
  {
    Pointwise(ThrowsIn, pawns, situations)
  }

  /** Position `j` of the two lists is pawn `j`'s own calculation in situation `j`. */
  lemma ComputedAt(pawns: seq<Pawn>, situations: seq<Situation>, j: nat)
    requires |situations| == |pawns| && j < |pawns|
    ensures MapsIn(pawns, situations)[j] == MovesIn(pawns[j], situations[j])
    ensures ThrowsAt(pawns, situations)[j] == ThrowsIn(pawns[j], situations[j])
  {
    PointwiseAt(MovesIn, pawns, situations, j);
    PointwiseAt(ThrowsIn, pawns, situations, j);
  }

  /** Wherever a pawn is listed twice, both places hold the same computed map. */
  lemma SameMaps(pawns: seq<Pawn>, situations: seq<Situation>)
    requires |situations| == |pawns|
    requires forall j, k :: 0 <= j < |pawns| && 0 <= k < |pawns| && pawns[j] == pawns[k] ==> situations[j] == situations[k]
    ensures forall j, k :: 0 <= j < |pawns| && 0 <= k < |pawns| && pawns[j] == pawns[k] ==>
      MapsIn(pawns, situations)[j] == MapsIn(pawns, situations)[k]
  {
    forall j | 0 <= j < |pawns|
      ensures MapsIn(pawns, situations)[j] == MovesIn(pawns[j], situations[j])
    {
      ComputedAt(pawns, situations, j);
    }
  }

  /**
   * The pawns the selection loop compares, in board order: the playable
   * ones, each paired with the size of its recomputed map (`maps` lists
   * one per pawn, in the same order).
   */
  function Contenders(pawns: seq<Pawn>, playable: set<Pawn>, maps: seq<MoveMap>): (cs: seq<(Pawn, nat)>)
    requires |maps| == |pawns|
    ensures |cs| <= |pawns|
    decreases |pawns|
  {
    if pawns == [] then []
    else
      var n := |pawns| - 1;
      var init := Contenders(pawns[..n], playable, maps[..n]);
      if pawns[n] in playable then init + [(pawns[n], maps[n].Size())] else init
  }

  /** One more pawn of the loop: it joins the contenders iff it is playable, and the running maximum takes it in. */
  lemma ContendersStep(pawns: seq<Pawn>, playable: set<Pawn>, maps: seq<MoveMap>, i: nat, start: Option<(Pawn, nat)>)
    requires |maps| == |pawns| && i < |pawns|
    ensures RunningMax(start, Contenders(pawns[..i + 1], playable, maps[..i + 1])) ==
      if pawns[i] in playable
      then Contend(RunningMax(start, Contenders(pawns[..i], playable, maps[..i])), (pawns[i], maps[i].Size()))
      else RunningMax(start, Contenders(pawns[..i], playable, maps[..i]))
  {
    assert pawns[..i + 1][..i] == pawns[..i] && maps[..i + 1][..i] == maps[..i];
    var before := Contenders(pawns[..i], playable, maps[..i]);
    if pawns[i] in playable {
      assert (before + [(pawns[i], maps[i].Size())])[..|before|] == before;
    }
  }

  /**
   * The running maximum is unset iff it started unset and nothing was
   * compared: a choice, once made, is never dropped, so only a turn that
   * starts without a choice and finds no playable pawn has none.
   */
  lemma {:induction false} ChoiceIsNeverDropped<T>(start: Option<(T, nat)>, contenders: seq<(T, nat)>)
    ensures RunningMax(start, contenders).None? <==> start.None? && contenders == []
    decreases |contenders|
  {
    if contenders != [] {
      ChoiceIsNeverDropped(start, contenders[..|contenders| - 1]);
    }
  }

  /**
   * The running maximum is the starting choice (`i == -1`) or contender
   * `i`, which beat or replaced everything compared after it.
   */
  lemma {:induction false} RunningMaxIsAContender<T>(start: Option<(T, nat)>, contenders: seq<(T, nat)>) returns (i: int)
    ensures -1 <= i < |contenders|
    ensures i == -1 ==> RunningMax(start, contenders) == start
    ensures 0 <= i ==> RunningMax(start, contenders) == Some(contenders[i])
    decreases |contenders|
  {
    i := -1;
    if contenders != [] {
      var n := |contenders| - 1;
      var before := RunningMaxIsAContender(start, contenders[..n]);
      if RunningMax(start, contenders) == Some(contenders[n]) {
        i := n;
      } else {
        i := before;
      }
    }
  }

  /** No pawn is listed twice (`foreachPawn` visits each pawn of the board once). */
  predicate Distinct(pawns: seq<Pawn>) {
    forall i, j :: 0 <= i < j < |pawns| ==> pawns[i] != pawns[j]
  }

  /**
   * Pawn `k` is playable and has at least as many moves as every playable
   * pawn, and strictly more than every playable pawn listed before it.
   */
  predicate IsFirstMaximum(pawns: seq<Pawn>, playable: set<Pawn>, maps: seq<MoveMap>, k: int) {
    && |maps| == |pawns| && 0 <= k < |pawns| && pawns[k] in playable
    && (forall j :: 0 <= j < |pawns| && pawns[j] in playable ==> maps[j].Size() <= maps[k].Size())
    && (forall j :: 0 <= j < k && pawns[j] in playable ==> maps[j].Size() < maps[k].Size())
  }

  /**
   * One more pawn after a first maximum among the earlier ones: it takes over
   * iff it is playable and strictly bigger.
   */
  lemma ExtendFirstMaximum(pawns: seq<Pawn>, playable: set<Pawn>, maps: seq<MoveMap>, k: int)
    requires |maps| == |pawns| > 0
    requires IsFirstMaximum(pawns[..|pawns| - 1], playable, maps[..|pawns| - 1], k)
    ensures var n := |pawns| - 1;
      if pawns[n] in playable && maps[n].Size() > maps[k].Size()
      then IsFirstMaximum(pawns, playable, maps, n)
      else IsFirstMaximum(pawns, playable, maps, k)
  {
    var n := |pawns| - 1;
    assert forall j :: 0 <= j < n ==> pawns[..n][j] == pawns[j] && maps[..n][j] == maps[j];
  }

  /**
   * When no pawn before the last is playable, the last one is the first
   * maximum if it is playable, and otherwise no pawn is.
   */
  lemma OnlyLastPlayable(pawns: seq<Pawn>, playable: set<Pawn>, maps: seq<MoveMap>)
    requires |maps| == |pawns| > 0
    requires forall j :: 0 <= j < |pawns| - 1 ==> pawns[j] !in playable
    ensures pawns[|pawns| - 1] in playable ==> IsFirstMaximum(pawns, playable, maps, |pawns| - 1)
    ensures pawns[|pawns| - 1] !in playable ==> forall j :: 0 <= j < |pawns| ==> pawns[j] !in playable
  {
  }

  /**
   * Starting with no choice, the loop ends with no choice iff no pawn is
   * playable; otherwise it ends with pawn `k`, the first playable pawn whose
   * map is the largest (ties keep the earlier pawn).
   */
  lemma {:induction false} FreshChoiceIsFirstMaximum(pawns: seq<Pawn>, playable: set<Pawn>, maps: seq<MoveMap>) returns (k: int)
    requires |maps| == |pawns| && Distinct(pawns)
    ensures RunningMax(None, Contenders(pawns, playable, maps)).None? <==>
      forall j :: 0 <= j < |pawns| ==> pawns[j] !in playable
    ensures RunningMax(None, Contenders(pawns, playable, maps)).Some? ==>
      && IsFirstMaximum(pawns, playable, maps, k)
      && RunningMax(None, Contenders(pawns, playable, maps)) == Some((pawns[k], maps[k].Size()))
    decreases |pawns|
  {
    k := -1;
    if pawns != [] {
      var n := |pawns| - 1;
      var init, initMaps := pawns[..n], maps[..n];
      assert forall j :: 0 <= j < n ==> init[j] == pawns[j];
      var before := RunningMax(None, Contenders(init, playable, initMaps));
      var k0 := FreshChoiceIsFirstMaximum(init, playable, initMaps);
      ContendersStep(pawns, playable, maps, n, None);
      assert pawns[..n + 1] == pawns && maps[..n + 1] == maps;
      if before.None? {
        k := n;
        OnlyLastPlayable(pawns, playable, maps);
      } else {
        ExtendFirstMaximum(pawns, playable, maps, k0);
        k := if pawns[n] in playable && maps[n].Size() > maps[k0].Size() then n else k0;
        assert pawns[k0] != pawns[n];
      }
    }
  }

  /**
   * A choice left over from an earlier turn survives every playable pawn
   * that is not strictly bigger, even when that pawn is not among them.
   */
  lemma {:induction false} StaleChoiceSurvives(stale: (Pawn, nat), pawns: seq<Pawn>, playable: set<Pawn>, maps: seq<MoveMap>)
    requires |maps| == |pawns|
    requires forall j :: 0 <= j < |pawns| && pawns[j] in playable ==> pawns[j] != stale.0 && maps[j].Size() <= stale.1
    ensures RunningMax(Some(stale), Contenders(pawns, playable, maps)) == Some(stale)
    decreases |pawns|
  {
    if pawns != [] {
      var n := |pawns| - 1;
      assert forall j :: 0 <= j < n ==> pawns[..n][j] == pawns[j] && maps[..n][j] == maps[j];
      StaleChoiceSurvives(stale, pawns[..n], playable, maps[..n]);
      ContendersStep(pawns, playable, maps, n, Some(stale));
      assert pawns[..n + 1] == pawns && maps[..n + 1] == maps;
    }
  }

  /**
   * Pawns built by the constructor never make the loop throw: the
   * `MoveCalculation` error of a turn cannot occur for them.
   */
  lemma WiredPawnsNeverThrow(pawns: seq<Pawn>, situations: seq<Situation>)
    requires |situations| == |pawns|
    requires forall j :: 0 <= j < |pawns| ==> pawns[j].Wired()
    ensures forall j :: 0 <= j < |pawns| ==> !ThrowsAt(pawns, situations)[j]
  {
    forall j | 0 <= j < |pawns|
      ensures !ThrowsAt(pawns, situations)[j]
    {
      ComputedAt(pawns, situations, j);
      pawns[j].WiredNeverThrows(situations[j].0, situations[j].1);
    }
  }

  /** The move map every pawn currently holds, in order. */
  function Current(pawns: seq<Pawn>): (maps: seq<MoveMap>)
    reads set p | p in pawns
    ensures |maps| == |pawns|
    ensures forall j :: 0 <= j < |pawns| ==> maps[j] == pawns[j].availableMoves
    decreases |pawns|
  {
    if pawns == [] then [] else Current(pawns[..|pawns| - 1]) + [pawns[|pawns| - 1].availableMoves]
  }

  class Cpu {
    /** The name of the player this automated player plays for. */
    const player: OwnerName
    /** The pawn chosen by the selection loop; never reset between turns. */
    var pawnWithMostMoves: Pawn?

    constructor (player: OwnerName)
      ensures this.player == player && pawnWithMostMoves == null
    {
      this.player := player;
      pawnWithMostMoves := null;
    }

    /**
     * The `foreachPawn` callback for a playable pawn: recomputes its moves,
     * then makes it the chosen pawn if none is chosen yet or if it has
     * strictly more moves than the chosen one.
     */
    method ConsiderPawn(pawn: Pawn) returns (calculated: Outcome<PawnError>)
      requires pawnWithMostMoves != null ==> pawnWithMostMoves.Valid()
      modifies this`pawnWithMostMoves, pawn`availableMoves
      ensures pawnWithMostMoves != null ==> pawnWithMostMoves.Valid()
      ensures calculated == if ThrowsIn(pawn, (pawn.board.pawns, pawn.position)) then Fail(CaptureTargetMissing) else Pass
      ensures calculated.Fail? ==> pawnWithMostMoves == old(pawnWithMostMoves)
      ensures calculated.Pass? ==>
        && pawn.availableMoves == MovesIn(pawn, (pawn.board.pawns, pawn.position))
        && Sized(pawnWithMostMoves) == Contend(old(Sized(pawnWithMostMoves)), (pawn, pawn.availableMoves.Size()))
    {
      calculated := pawn.CalcAvailableMoves();
      if calculated.Fail? {
        return;
      }
      if pawnWithMostMoves == null {
        pawnWithMostMoves := pawn;
      } else if pawn.availableMoves.Size() > pawnWithMostMoves.availableMoves.Size() {
        pawnWithMostMoves := pawn;
      }
    }

    /**
     * The callback applied to pawn `i` of the loop: its calculation is the
     * one listed at `i` for the situations the loop started from.
     */
    method ConsiderPawnAt(pawn: Pawn, ghost pawns: seq<Pawn>, ghost situations: seq<Situation>, ghost i: nat) returns (calculated: Outcome<PawnError>)
      requires |situations| == |pawns| && i < |pawns| && pawns[i] == pawn
      requires situations[i] == (pawn.board.pawns, pawn.position)
      requires pawnWithMostMoves != null ==> pawnWithMostMoves.Valid()
      modifies this`pawnWithMostMoves, pawn`availableMoves
      ensures pawnWithMostMoves != null ==> pawnWithMostMoves.Valid()
      ensures calculated == if ThrowsAt(pawns, situations)[i] then Fail(CaptureTargetMissing) else Pass
      ensures calculated.Pass? ==>
        && pawn.availableMoves == MapsIn(pawns, situations)[i]
        && Sized(pawnWithMostMoves) == Contend(old(Sized(pawnWithMostMoves)), (pawn, MapsIn(pawns, situations)[i].Size()))
    {
      ComputedAt(pawns, situations, i);
      calculated := ConsiderPawn(pawn);
    }

    /**
     * The state of the selection loop after its first `i` pawns: the choice
     * is the running maximum over the playable ones, each of them holds the
     * map listed for it and did not throw, and the other pawns keep the map
     * they had (`initial`).
     */
    ghost predicate Progress(pawns: seq<Pawn>, playable: set<Pawn>, i: nat, start: Option<(Pawn, nat)>,
                             initial: seq<MoveMap>, maps: seq<MoveMap>, throws: seq<bool>)
      reads this, pawnWithMostMoves, set p | p in pawns
    {
      && i <= |pawns| && |initial| == |pawns| && |maps| == |pawns| && |throws| == |pawns|
      && (pawnWithMostMoves != null ==> pawnWithMostMoves.Valid())
      && Sized(pawnWithMostMoves) == RunningMax(start, Contenders(pawns[..i], playable, maps[..i]))
      && (forall j :: 0 <= j < |pawns| && pawns[j] !in playable ==> pawns[j].availableMoves == initial[j])
      && (forall j :: 0 <= j < i && pawns[j] in playable ==> !throws[j] && pawns[j].availableMoves == maps[j])
    }

    /** The loop body for a pawn that cannot be played: nothing happens to it, and the loop moves on. */
    lemma SkipUnplayable(pawns: seq<Pawn>, playable: set<Pawn>, i: nat, start: Option<(Pawn, nat)>,
                         initial: seq<MoveMap>, maps: seq<MoveMap>, throws: seq<bool>)
      requires i < |pawns| && pawns[i] !in playable
      requires Progress(pawns, playable, i, start, initial, maps, throws)
      ensures Progress(pawns, playable, i + 1, start, initial, maps, throws)
    {
      ContendersStep(pawns, playable, maps, i, start);
    }

    /** The loop body for a playable pawn `i`: recompute its moves and compare it with the chosen pawn. */
    method ConsiderPlayable(pawns: seq<Pawn>, playable: set<Pawn>, i: nat, ghost start: Option<(Pawn, nat)>,
                            ghost initial: seq<MoveMap>, ghost situations: seq<Situation>) returns (calculated: Outcome<PawnError>)
      requires |situations| == |pawns| && i < |pawns| && pawns[i] in playable
      requires situations[i] == (pawns[i].board.pawns, pawns[i].position)
      requires forall j :: 0 <= j < |pawns| && pawns[j] == pawns[i] ==> MapsIn(pawns, situations)[j] == MapsIn(pawns, situations)[i]
      requires Progress(pawns, playable, i, start, initial, MapsIn(pawns, situations), ThrowsAt(pawns, situations))
      modifies this`pawnWithMostMoves, (set p | p in pawns)`availableMoves
      ensures pawnWithMostMoves != null ==> pawnWithMostMoves.Valid()
      ensures forall j :: 0 <= j < |pawns| && pawns[j] !in playable ==> pawns[j].availableMoves == initial[j]
      ensures calculated == if ThrowsAt(pawns, situations)[i] then Fail(CaptureTargetMissing) else Pass
      ensures calculated.Pass? ==> Progress(pawns, playable, i + 1, start, initial, MapsIn(pawns, situations), ThrowsAt(pawns, situations))
    {
      ContendersStep(pawns, playable, MapsIn(pawns, situations), i, start);
      calculated := ConsiderPawnAt(pawns[i], pawns, situations, i);
    }

    /**
     * The whole `foreachPawn` callback for pawn `i`: a pawn that cannot be
     * played is skipped; a playable one is considered.
     */
    method ConsiderAt(pawns: seq<Pawn>, playable: set<Pawn>, i: nat, ghost start: Option<(Pawn, nat)>,
                      ghost initial: seq<MoveMap>, ghost situations: seq<Situation>) returns (calculated: Outcome<PawnError>)
      requires |situations| == |pawns| && i < |pawns|
      requires situations[i] == (pawns[i].board.pawns, pawns[i].position)
      requires forall j :: 0 <= j < |pawns| && pawns[j] == pawns[i] ==> MapsIn(pawns, situations)[j] == MapsIn(pawns, situations)[i]
      requires Progress(pawns, playable, i, start, initial, MapsIn(pawns, situations), ThrowsAt(pawns, situations))
      modifies this`pawnWithMostMoves, (set p | p in pawns)`availableMoves
      ensures pawnWithMostMoves != null ==> pawnWithMostMoves.Valid()
      ensures forall j :: 0 <= j < |pawns| && pawns[j] !in playable ==> pawns[j].availableMoves == initial[j]
      ensures calculated == if pawns[i] in playable && ThrowsAt(pawns, situations)[i] then Fail(CaptureTargetMissing) else Pass
      ensures calculated.Pass? ==> Progress(pawns, playable, i + 1, start, initial, MapsIn(pawns, situations), ThrowsAt(pawns, situations))
    {
      if pawns[i] in playable {
        calculated := ConsiderPlayable(pawns, playable, i, start, initial, situations);
      } else {
        SkipUnplayable(pawns, playable, i, start, initial, MapsIn(pawns, situations), ThrowsAt(pawns, situations));
        calculated := Pass;
      }
    }

    /**
     * The loop over the pawns, stated over the situations it starts from:
     * considers every playable pawn in order and stops with the error of the
     * first calculation that throws.
     */
    method ConsiderAll(pawns: seq<Pawn>, playable: set<Pawn>, ghost start: Option<(Pawn, nat)>,
                       ghost initial: seq<MoveMap>, ghost situations: seq<Situation>)
      returns (calculated: Outcome<PawnError>, ghost failedAt: nat)
      requires |situations| == |pawns|
      requires forall j :: 0 <= j < |pawns| ==> situations[j] == (pawns[j].board.pawns, pawns[j].position)
      requires forall j, k :: 0 <= j < |pawns| && 0 <= k < |pawns| && pawns[j] == pawns[k] ==>
        MapsIn(pawns, situations)[j] == MapsIn(pawns, situations)[k]
      requires Progress(pawns, playable, 0, start, initial, MapsIn(pawns, situations), ThrowsAt(pawns, situations))
      modifies this`pawnWithMostMoves, (set p | p in pawns)`availableMoves
      ensures pawnWithMostMoves != null ==> pawnWithMostMoves.Valid()
      ensures forall j :: 0 <= j < |pawns| && pawns[j] !in playable ==> pawns[j].availableMoves == initial[j]
      ensures calculated.Fail? ==>
        && calculated == Fail(CaptureTargetMissing)
        && failedAt < |pawns| && pawns[failedAt] in playable && ThrowsAt(pawns, situations)[failedAt]
        && (forall j :: 0 <= j < failedAt && pawns[j] in playable ==> !ThrowsAt(pawns, situations)[j])
      ensures calculated.Pass? ==>
        Progress(pawns, playable, |pawns|, start, initial, MapsIn(pawns, situations), ThrowsAt(pawns, situations))
    {
      ghost var maps := MapsIn(pawns, situations);
      ghost var throws := ThrowsAt(pawns, situations);
      var i := 0;
      while i < |pawns|
        invariant Progress(pawns, playable, i, start, initial, maps, throws)
      {
        calculated := ConsiderAt(pawns, playable, i, start, initial, situations);
        if calculated.Fail? {
          assert forall j :: 0 <= j < i && pawns[j] in playable ==> !throws[j];
          failedAt := i;
          return;
        }
        i := i + 1;
      }
      return Pass, 0;
    }

    /**
     * The `foreachPawn` loop of a turn: considers every playable pawn in
     * board order, starting from whatever `pawnWithMostMoves` already holds.
     * Stops with the error of the first calculation that throws. The loop
     * moves no pawn, so every calculation sees the situation the loop
     * started from.
     */
    method ChoosePawnWithMostMoves(pawns: seq<Pawn>, playable: set<Pawn>) returns (calculated: Outcome<PawnError>)
      requires pawnWithMostMoves != null ==> pawnWithMostMoves.Valid()
      modifies this`pawnWithMostMoves, (set p | p in pawns)`availableMoves
      ensures pawnWithMostMoves != null ==> pawnWithMostMoves.Valid()
      ensures forall p :: p in pawns && p !in playable ==> p.availableMoves == old(p.availableMoves)
      ensures calculated ==
        if exists j :: 0 <= j < |pawns| && pawns[j] in playable && ThrowsAt(pawns, old(Situations(pawns)))[j]
        then Fail(CaptureTargetMissing) else Pass
      ensures calculated.Pass? ==>
        && (forall j :: 0 <= j < |pawns| && pawns[j] in playable ==> pawns[j].availableMoves == MapsIn(pawns, old(Situations(pawns)))[j])
        && Sized(pawnWithMostMoves) == RunningMax(old(Sized(pawnWithMostMoves)), Contenders(pawns, playable, MapsIn(pawns, old(Situations(pawns)))))
    {
      ghost var start := Sized(pawnWithMostMoves);
      ghost var initial := Current(pawns);
      ghost var situations := Situations(pawns);
      SameMaps(pawns, situations);
      ghost var failedAt;
      calculated, failedAt := ConsiderAll(pawns, playable, start, initial, situations);
      if calculated.Pass? {
        ghost var maps := MapsIn(pawns, situations);
        assert pawns[..|pawns|] == pawns && maps[..|pawns|] == maps;
      }
    }

    /**
     * One turn. `pawns` is the board's `foreachPawn` order and `playable`
     * holds the pawns `canBePlayedBy(player)` accepts. Returns the outcome,
     * the steps taken on the collaborators (lift, place, end of turn) and
     * the index of the picked entry of the chosen pawn's move map.
     */
    method TakeTurn(pawns: seq<Pawn>, playable: set<Pawn>) returns (outcome: Outcome<TurnError>, steps: seq<TurnStep>, pick: nat)
      requires pawnWithMostMoves != null ==> pawnWithMostMoves.Valid()
      modifies this`pawnWithMostMoves, (set p | p in pawns)`availableMoves
      // only playable pawns have their moves recomputed
      ensures forall p :: p in pawns && p !in playable ==> p.availableMoves == old(p.availableMoves)
      // a pawn's calculation throwing ends the turn with that error before anything is lifted
      ensures outcome == Fail(MoveCalculation(CaptureTargetMissing)) <==>
        exists j :: 0 <= j < |pawns| && pawns[j] in playable && ThrowsAt(pawns, old(Situations(pawns)))[j]
      ensures outcome.Fail? && outcome.error.MoveCalculation? ==> steps == []
      // otherwise every playable pawn's map is recomputed and the choice is the running maximum
      ensures !outcome.Fail? || !outcome.error.MoveCalculation? ==>
        && (forall j :: 0 <= j < |pawns| && pawns[j] in playable ==> pawns[j].availableMoves == MapsIn(pawns, old(Situations(pawns)))[j])
        && Sized(pawnWithMostMoves) == RunningMax(old(Sized(pawnWithMostMoves)), Contenders(pawns, playable, MapsIn(pawns, old(Situations(pawns)))))
      // no pawn chosen: GameRuleError, nothing lifted or placed
      ensures outcome == Fail(NoUsablePawns(player)) <==>
        !(outcome.Fail? && outcome.error.MoveCalculation?) && pawnWithMostMoves == null
      ensures outcome == Fail(NoUsablePawns(player)) ==> steps == []
      // a chosen pawn is lifted; if its map is empty the pick fails after the lift
      ensures outcome == Fail(NoMoveToPick) ==>
        pawnWithMostMoves != null && pawnWithMostMoves.availableMoves.Size() == 0 && steps == [Lift(pawnWithMostMoves)]
      // otherwise it is lifted, placed on the square of the picked entry, then the turn ends
      ensures outcome.Pass? ==>
        && pawnWithMostMoves != null
        && pawnWithMostMoves.Valid()
        && pick < pawnWithMostMoves.availableMoves.Size()
        && steps == [Lift(pawnWithMostMoves),
                     Place(pawnWithMostMoves, MoveSquare(pawnWithMostMoves.availableMoves.EntryAt(pick))),
                     EndTurn]
    {
      steps, pick := [], 0;
      var calculated := ChoosePawnWithMostMoves(pawns, playable);
      if calculated.Fail? {
        return Fail(MoveCalculation(calculated.error)), [], 0;
      }

      if pawnWithMostMoves == null {
        return Fail(NoUsablePawns(player)), [], 0;
      }

      var chosen := pawnWithMostMoves;
      steps := [Lift(chosen)];
      if chosen.availableMoves.Size() == 0 {
        return Fail(NoMoveToPick), steps, 0;
      }
      pick :| pick < chosen.availableMoves.Size();
      var move := chosen.availableMoves.EntryAt(pick);
      steps := steps + [Place(chosen, MoveSquare(move))];
      steps := steps + [EndTurn];
      outcome := Pass;
    }
  }
}
