/**
 * Moves and the insertion-ordered move map a pawn keeps (a JavaScript `Map`
 * keyed by coordinate).
 */
module Moves {
  import opened Board

  /** What committing to a target square does. */
  datatype Move =
    | Movement(destination: Coord)
    | Capture(destination: Coord, captured: Coord)
    | Cancel(origin: Coord)

  /** The square a move is placed on (`move.square`): its destination, or the origin for a cancel. */
  function MoveSquare(m: Move): Coord {
    match m
    case Movement(d) => d
    case Capture(d, _) => d
    case Cancel(o) => o
  }

  /**
   * A `Map` from coordinate to move: `moves` holds the entries and `order`
   * the keys in insertion order (the order `Array.from` lists them in).
   */
  datatype MoveMap = MoveMap(order: seq<Coord>, moves: map<Coord, Move>) {

    ghost predicate Valid() {
      && (forall i, j :: 0 <= i < j < |order| ==> order[i] != order[j])
      && (forall k :: k in moves <==> k in order)
    }

    /** `Map.size`. */
    function Size(): nat {
      |order|
    }

    /**
     * `Map.set`: the entry for `k` becomes `m`; a new key goes to the end of
     * the order, an existing key keeps its place.
     */
    function Set(k: Coord, m: Move): (r: MoveMap)
      requires Valid()
      ensures r.Valid()
      ensures r.moves.Keys == moves.Keys + {k} && r.moves[k] == m
      ensures forall k' :: k' in moves && k' != k ==> r.moves[k'] == moves[k']
      ensures k in moves ==> r.order == order
      ensures k !in moves ==> r.order == order + [k]
    {
      MoveMap(if k in moves then order else order + [k], moves[k := m])
    }

    /** The `i`-th entry in insertion order (`Array.from(map)[i][1]`). */
    function EntryAt(i: nat): (m: Move)
      requires Valid() && i < Size()
      ensures order[i] in moves
    {
      moves[order[i]]
    }
  }

  /** `new Map()`. */
  const Empty: MoveMap := MoveMap([], map[])

  /**
   * `Array.from(map)` lists every entry exactly once: each key has one index
   * below `Map.size`, and the entry there is the key's move, so any move,
   * the cancel included, can be picked.
   */
  lemma EveryEntryHasAnIndex(mm: MoveMap, k: Coord) returns (i: nat)
    requires mm.Valid() && k in mm.moves
    ensures i < mm.Size() && mm.order[i] == k && mm.EntryAt(i) == mm.moves[k]
    ensures forall j :: 0 <= j < mm.Size() && mm.order[j] == k ==> j == i
  {
    i :| 0 <= i < |mm.order| && mm.order[i] == k;
  }

  /** A key order without repeats lists as many keys as it has entries. */
  lemma {:induction false} DistinctKeysCount(order: seq<Coord>)
    requires forall i, j :: 0 <= i < j < |order| ==> order[i] != order[j]
    ensures |set k | k in order| == |order|
    decreases |order|
  {
    if order != [] {
      var n := |order| - 1;
      DistinctKeysCount(order[..n]);
      assert order[n] !in order[..n];
      assert (set k | k in order) == (set k | k in order[..n]) + {order[n]};
    }
  }

  /** The size of a valid map counts its distinct keys: `Map.size` is the number of entries. */
  lemma SizeIsEntryCount(mm: MoveMap)
    requires mm.Valid()
    ensures mm.Size() == |mm.moves.Keys|
  {
    DistinctKeysCount(mm.order);
    assert mm.moves.Keys == set k | k in mm.order;
  }
}
