/**
 The units that share one slot of the tree window, stacked below each other: each takes as many
 rows as it has lanes.
 */
module TreeSlots {
  import opened Prelude
  import opened TreeComponents
  import opened TreeForest
  import opened TreeLanes

  datatype Kind = Canonical | Stale | OtherKind

  /** A branch or a lone node; its root is its first member. */
  datatype Unit = Unit(kind: Kind, forest: Forest)

  // ----- The order of units in a slot -----

  function Priority(kind: Kind): nat {
    match kind
    case Canonical => 0
    case Stale => 2
    case OtherKind => 1
  }

  /** Canonical first and stale last, then larger units first, then by root hash. */
  predicate SlotOrder(leq: (Hash, Hash) -> bool, a: Unit, b: Unit) {
    if Priority(a.kind) != Priority(b.kind) then Priority(a.kind) < Priority(b.kind)
    else if |a.forest.members| != |b.forest.members| then |a.forest.members| > |b.forest.members|
    else a.forest.members == [] || leq(a.forest.members[0], b.forest.members[0])
  }

  function Comparator(leq: (Hash, Hash) -> bool): (Unit, Unit) -> bool {
    (a: Unit, b: Unit) => SlotOrder(leq, a, b)
  }

  lemma ComparatorTotal(leq: (Hash, Hash) -> bool)
    requires TotalOrder(leq)
    ensures TotalOrder(Comparator(leq))
  {
    var c := Comparator(leq);
    forall a, b ensures c(a, b) || c(b, a) {
    }
    forall x, y, z | c(x, y) && c(y, z) ensures c(x, z) {
      assert SlotOrder(leq, x, y) && SlotOrder(leq, y, z);
    }
  }

  // ----- Rows -----

  ghost function Height(u: Unit): nat {
    |Leaves(u.forest, Members(u.forest))|
  }

  /** The rows taken by the first `k` units. */
  ghost function Offset(order: seq<Unit>, k: nat): nat
    requires k <= |order|
  {
    if k == 0 then 0 else Offset(order, k - 1) + Height(order[k - 1])
  }

  /** Units that can share a slot: acyclic, not empty, and without a node in common. */
  ghost predicate Stackable(units: seq<Unit>, rank: map<Hash, nat>) {
    && (forall i :: 0 <= i < |units| ==> Rising(units[i].forest, rank) && units[i].forest.members != [])
    && (forall i, j :: 0 <= i < j < |units| ==> Members(units[i].forest) !! Members(units[j].forest))
  }

  ghost predicate Within(u: Unit, rank: map<Hash, nat>, row: map<Hash, nat>, lo: nat, hi: nat)
    requires Rising(u.forest, rank)
  {
    && (forall x :: x in u.forest.members ==> x in row && lo <= row[x] < hi)
    && (forall x, z :: x in u.forest.members && z in u.forest.members && row[x] == row[z] ==>
          Above(u.forest, rank, x, z) || Above(u.forest, rank, z, x))
  }

  ghost predicate InSome(order: seq<Unit>, k: nat, x: Hash)
    requires k <= |order|
  {
    exists i :: 0 <= i < k && x in order[i].forest.members
  }

  /** The first `k` units occupy consecutive row ranges without gaps. */
  ghost predicate Stacked(order: seq<Unit>, rank: map<Hash, nat>, k: nat, row: map<Hash, nat>)
    requires k <= |order| && Stackable(order, rank)
  {
    && (forall x :: x in row <==> InSome(order, k, x))
    && (forall i :: 0 <= i < k ==> Within(order[i], rank, row, Offset(order, i), Offset(order, i + 1)))
    && (forall r: nat :: r < Offset(order, k) ==> LaneUsed(row.Keys, row, r))
  }

  ghost function Shifted(laneOf: map<Hash, nat>, lo: nat): map<Hash, nat> {
    map x | x in laneOf :: lo + laneOf[x]
  }

  lemma UnitWithin(u: Unit, rank: map<Hash, nat>, leq: (Hash, Hash) -> bool, laneOf: map<Hash, nat>,
                   row: map<Hash, nat>, lo: nat)
    requires Rising(u.forest, rank) && UnitLanes(u.forest, rank, leq, laneOf, Height(u))
    ensures Within(u, rank, row + Shifted(laneOf, lo), lo, lo + Height(u))
  {
    hide Above;
  }

  lemma EarlierWithin(u: Unit, rank: map<Hash, nat>, row: map<Hash, nat>, more: map<Hash, nat>, lo: nat, hi: nat)
    requires Rising(u.forest, rank) && Within(u, rank, row, lo, hi)
    requires forall x :: x in u.forest.members ==> x !in more
    ensures Within(u, rank, row + more, lo, hi)
  {
    hide Above;
  }

  lemma RowsUsed(row: map<Hash, nat>, laneOf: map<Hash, nat>, lo: nat, count: nat, r: nat)
    requires row.Keys !! laneOf.Keys && r < lo + count
    requires forall l: nat :: l < lo ==> LaneUsed(row.Keys, row, l)
    requires forall l: nat :: l < count ==> LaneUsed(laneOf.Keys, laneOf, l)
    ensures var all := row + Shifted(laneOf, lo); LaneUsed(all.Keys, all, r)
  {
    var all := row + Shifted(laneOf, lo);
    if r < lo {
      assert LaneUsed(row.Keys, row, r);
      var x :| x in row.Keys && row[x] == r;
      assert x in all.Keys && all[x] == r;
    } else {
      assert LaneUsed(laneOf.Keys, laneOf, r - lo);
      var x :| x in laneOf.Keys && laneOf[x] == r - lo;
      assert x in all.Keys && all[x] == r;
    }
  }

  lemma UnitsApart(order: seq<Unit>, rank: map<Hash, nat>, i: nat, j: nat, x: Hash)
    requires Stackable(order, rank) && i < |order| && j < |order| && i != j
    requires x in order[i].forest.members
    ensures x !in order[j].forest.members
  {
    assert x in Members(order[i].forest);
    assert x !in Members(order[j].forest);
  }

  lemma StackedKeys(order: seq<Unit>, rank: map<Hash, nat>, k: nat, row: map<Hash, nat>, laneOf: map<Hash, nat>, lo: nat)
    requires k < |order| && Stackable(order, rank)
    requires forall x :: x in row <==> InSome(order, k, x)
    requires forall x :: x in laneOf <==> x in order[k].forest.members
    ensures row.Keys !! laneOf.Keys
    ensures var all := row + Shifted(laneOf, lo); forall x :: x in all <==> InSome(order, k + 1, x)
  {
    forall x | x in laneOf ensures x !in row {
      if InSome(order, k, x) {
        var i :| 0 <= i < k && x in order[i].forest.members;
        UnitsApart(order, rank, i, k, x);
      }
    }
    var all := row + Shifted(laneOf, lo);
    forall x ensures x in all <==> InSome(order, k + 1, x) {
      assert x in row <==> InSome(order, k, x);
    }
  }

  lemma StackedWithin(order: seq<Unit>, rank: map<Hash, nat>, leq: (Hash, Hash) -> bool, k: nat,
                      row: map<Hash, nat>, laneOf: map<Hash, nat>, i: nat)
    requires i <= k < |order| && Stackable(order, rank)
    requires UnitLanes(order[k].forest, rank, leq, laneOf, Height(order[k]))
    requires i < k ==> Within(order[i], rank, row, Offset(order, i), Offset(order, i + 1))
    ensures Within(order[i], rank, row + Shifted(laneOf, Offset(order, k)), Offset(order, i), Offset(order, i + 1))
  {
    hide Within, Rising, LanesAreChains, HeirsInherit, Height, LaneUsed;
    if i == k {
      UnitWithin(order[k], rank, leq, laneOf, row, Offset(order, k));
    } else {
      forall x | x in order[i].forest.members ensures x !in laneOf {
        UnitsApart(order, rank, i, k, x);
      }
      EarlierWithin(order[i], rank, row, Shifted(laneOf, Offset(order, k)), Offset(order, i), Offset(order, i + 1));
    }
  }

  lemma StackUnit(order: seq<Unit>, rank: map<Hash, nat>, leq: (Hash, Hash) -> bool, k: nat,
                  row: map<Hash, nat>, laneOf: map<Hash, nat>)
    requires k < |order| && Stackable(order, rank) && Stacked(order, rank, k, row)
    requires UnitLanes(order[k].forest, rank, leq, laneOf, Height(order[k]))
    ensures Stacked(order, rank, k + 1, row + Shifted(laneOf, Offset(order, k)))
  {
    hide Within, LaneUsed, Rising, LanesAreChains, HeirsInherit, Height, InSome, Shifted;
    var lo := Offset(order, k);
    var all := row + Shifted(laneOf, lo);
    StackedKeys(order, rank, k, row, laneOf, lo);
    forall i | 0 <= i < k + 1 ensures Within(order[i], rank, all, Offset(order, i), Offset(order, i + 1)) {
      StackedWithin(order, rank, leq, k, row, laneOf, i);
    }
    forall r: nat | r < Offset(order, k + 1) ensures LaneUsed(all.Keys, all, r) {
      RowsUsed(row, laneOf, lo, Height(order[k]), r);
    }
  }

  // ----- What stacking means for the picture -----

  lemma {:induction false} OffsetRises(order: seq<Unit>, i: nat, j: nat)
    requires i <= j <= |order|
    ensures Offset(order, i) <= Offset(order, j)
  {
    if i < j {
      OffsetRises(order, i, j - 1);
    }
  }

  /** Units keep their order: every row of an earlier unit is above every row of a later one. */
  lemma EarlierUnitAbove(order: seq<Unit>, rank: map<Hash, nat>, row: map<Hash, nat>, i: nat, j: nat, x: Hash, z: Hash)
    requires Stackable(order, rank) && Stacked(order, rank, |order|, row)
    requires i < j < |order| && x in order[i].forest.members && z in order[j].forest.members
    ensures x in row && z in row && row[x] < row[z]
  {
    hide Rising, InSome, LaneUsed;
    assert Within(order[i], rank, row, Offset(order, i), Offset(order, i + 1));
    assert Within(order[j], rank, row, Offset(order, j), Offset(order, j + 1));
    OffsetRises(order, i + 1, j);
  }

  lemma SameUnitApart(u: Unit, rank: map<Hash, nat>, row: map<Hash, nat>, lo: nat, hi: nat, x: Hash, z: Hash)
    requires Rising(u.forest, rank) && Within(u, rank, row, lo, hi)
    requires x in u.forest.members && z in u.forest.members && x != z && row[x] == row[z]
    ensures x in rank && z in rank && rank[x] != rank[z]
  {
    if Above(u.forest, rank, x, z) {
      AboveRises(u.forest, rank, x, z);
    } else {
      AboveRises(u.forest, rank, z, x);
    }
  }

  /** Two nodes on one row of a slot never have the same height. */
  lemma RowsNeverOverlap(order: seq<Unit>, rank: map<Hash, nat>, row: map<Hash, nat>, x: Hash, z: Hash)
    requires Stackable(order, rank) && Stacked(order, rank, |order|, row)
    requires x in row && z in row && row[x] == row[z] && x != z
    ensures x in rank && z in rank && rank[x] != rank[z]
  {
    hide LaneUsed, Within, Rising, Offset;
    assert InSome(order, |order|, x) && InSome(order, |order|, z);
    var i :| 0 <= i < |order| && x in order[i].forest.members;
    var j :| 0 <= j < |order| && z in order[j].forest.members;
    hide InSome;
    if i < j {
      EarlierUnitAbove(order, rank, row, i, j, x, z);
    } else if j < i {
      EarlierUnitAbove(order, rank, row, j, i, z, x);
    } else {
      SameUnitApart(order[i], rank, row, Offset(order, i), Offset(order, i + 1), x, z);
    }
  }

  // ----- Placing a slot -----

  function RowY(top: real, row: nat, spread: real): real {
    top + row as real * spread
  }

  lemma RowYMonotone(top: real, a: nat, b: nat, spread: real)
    requires spread > 0.0
    ensures RowY(top, a, spread) < RowY(top, b, spread) <==> a < b
  {
    var d := (b - a) as real;
    assert RowY(top, b, spread) - RowY(top, a, spread) == d * spread;
    if a < b {
      assert d * spread > 0.0;
    } else if b < a {
      assert (-d) * spread > 0.0;
    }
  }

  lemma RowYShift(top: real, lo: nat, lane: nat, spread: real)
    ensures RowY(RowY(top, lo, spread), lane, spread) == RowY(top, lo + lane, spread)
  {
  }

  /** Write the members' `y` and count the unit's lanes. */
  method PlaceUnit(f: Forest, laneOf: map<Hash, nat>, rowY: real, spread: real, y: map<Hash, real>)
    returns (placed: map<Hash, real>, lanes: nat)
    requires forall x :: x in laneOf <==> x in f.members
    ensures placed == y + map x | x in laneOf :: RowY(rowY, laneOf[x], spread)
    ensures lanes >= 1 && forall x :: x in laneOf ==> laneOf[x] < lanes
    ensures lanes == 1 || exists x :: x in laneOf && laneOf[x] + 1 == lanes
  {
    lanes := 1;
    placed := y;
    var i := 0;
    while i < |f.members|
      invariant 0 <= i <= |f.members| && lanes >= 1
      invariant forall x :: x in placed <==> x in y || x in f.members[..i]
      invariant forall x :: x in placed ==>
                  placed[x] == if x in f.members[..i] then RowY(rowY, laneOf[x], spread) else y[x]
      invariant forall x :: x in f.members[..i] ==> laneOf[x] < lanes
      invariant lanes == 1 || exists x :: x in laneOf && laneOf[x] + 1 == lanes
    {
      var x := f.members[i];
      assert f.members[..i + 1] == f.members[..i] + [x];
      var lane := laneOf[x];
      lanes := Max(lanes, lane + 1);
      placed := placed[x := RowY(rowY, lane, spread)];
      i := i + 1;
    }
    assert f.members[..|f.members|] == f.members;
  }

  lemma LanesCounted(f: Forest, rank: map<Hash, nat>, leq: (Hash, Hash) -> bool, laneOf: map<Hash, nat>,
                     count: nat, lanes: nat)
    requires Rising(f, rank) && UnitLanes(f, rank, leq, laneOf, count) && f.members != []
    requires lanes >= 1 && forall x :: x in laneOf ==> laneOf[x] < lanes
    requires lanes == 1 || exists x :: x in laneOf && laneOf[x] + 1 == lanes
    ensures lanes == count
  {
    hide LanesAreChains, HeirsInherit, Rising;
    assert f.members[0] in laneOf;
    assert lanes < count ==> LaneUsed(laneOf.Keys, laneOf, lanes);
  }

  ghost function Picture(top: real, row: map<Hash, nat>, spread: real): map<Hash, real> {
    map x | x in row :: RowY(top, row[x], spread)
  }

  /** `y` draws the units of `order` on consecutive row ranges from `top` down. */
  ghost predicate Drawn(order: seq<Unit>, rank: map<Hash, nat>, top: real, spread: real, y: map<Hash, real>)
    requires Stackable(order, rank)
  {
    exists row :: Stacked(order, rank, |order|, row) && y == Picture(top, row, spread)
  }

  lemma PictureGrows(top: real, row: map<Hash, nat>, laneOf: map<Hash, nat>, lo: nat, spread: real)
    ensures Picture(top, row, spread) + (map x | x in laneOf :: RowY(RowY(top, lo, spread), laneOf[x], spread))
         == Picture(top, row + Shifted(laneOf, lo), spread)
  {
    hide RowY;
    forall x | x in laneOf ensures RowY(RowY(top, lo, spread), laneOf[x], spread) == RowY(top, lo + laneOf[x], spread) {
      RowYShift(top, lo, laneOf[x], spread);
    }
  }

  /**
   The units of one slot, in slot order, take consecutive row ranges of exactly as many rows as
   each has leaves, starting at the slot's own `y`.
   */
  method PlaceSlot(units: seq<Unit>, leq: (Hash, Hash) -> bool, top: real, spread: real, ghost rank: map<Hash, nat>)
    returns (y: map<Hash, real>)
    requires Stackable(units, rank) && TotalOrder(leq)
    ensures Stackable(Sorted(units, Comparator(leq)), rank)
    ensures Drawn(Sorted(units, Comparator(leq)), rank, top, spread, y)
  {
    hide Stacked, Rising, LanesAreChains, HeirsInherit, LaneUsed, TotalOrder, Leaves, Shifted, Picture, Sorted, RowY;
    var order := Sorted(units, Comparator(leq));
    StackablePermuted(units, order, rank);
    ghost var row: map<Hash, nat> := map[];
    y := map[];
    NothingStacked(order, rank, top, spread);
    var slotOffset, k := 0, 0;
    while k < |order|
      invariant 0 <= k <= |order|
      invariant Stacked(order, rank, k, row)
      invariant y == Picture(top, row, spread)
      invariant slotOffset == Offset(order, k)
    {
      var f := order[k].forest;
      var rowY := RowY(top, slotOffset, spread);
      var laneOf, _ := AssignLanes(f, leq, rank);
      var lanes;
      y, lanes := PlaceUnit(f, laneOf, rowY, spread, y);
      LanesCounted(f, rank, leq, laneOf, Height(order[k]), lanes);
      StackUnit(order, rank, leq, k, row, laneOf);
      PictureGrows(top, row, laneOf, slotOffset, spread);
      row := row + Shifted(laneOf, slotOffset);
      slotOffset := slotOffset + lanes;
      k := k + 1;
    }
  }

  lemma NothingStacked(order: seq<Unit>, rank: map<Hash, nat>, top: real, spread: real)
    requires Stackable(order, rank)
    ensures Stacked(order, rank, 0, map[])
    ensures Picture(top, map[], spread) == map[]
  {
  }

  lemma StackablePermuted(units: seq<Unit>, order: seq<Unit>, rank: map<Hash, nat>)
    requires Stackable(units, rank) && multiset(order) == multiset(units)
    ensures Stackable(order, rank)
  {
    hide Rising;
    forall i | 0 <= i < |order| ensures Rising(order[i].forest, rank) && order[i].forest.members != [] {
      assert order[i] in multiset(order);
      assert order[i] in units;
    }
    forall i, j | 0 <= i < j < |order| ensures Members(order[i].forest) !! Members(order[j].forest) {
      var p, q := PlacesPermuted(units, order, i, j);
    }
  }

  // ----- The picture -----

  /** No two nodes of a slot are drawn at the same place: equal `y` means different heights. */
  lemma NodesNeverOverlap(order: seq<Unit>, rank: map<Hash, nat>, top: real, spread: real, y: map<Hash, real>,
                          x: Hash, z: Hash)
    requires Stackable(order, rank) && Drawn(order, rank, top, spread, y) && spread > 0.0
    requires x in y && z in y && x != z && y[x] == y[z]
    ensures x in rank && z in rank && rank[x] != rank[z]
  {
    hide Stacked, Stackable, RowY;
    var row :| Stacked(order, rank, |order|, row) && y == Picture(top, row, spread);
    RowYMonotone(top, row[x], row[z], spread);
    RowYMonotone(top, row[z], row[x], spread);
    RowsNeverOverlap(order, rank, row, x, z);
  }

  /** Canonical units are drawn above unknown ones, and those above stale ones. */
  lemma KindsStayOrdered(units: seq<Unit>, leq: (Hash, Hash) -> bool, rank: map<Hash, nat>, top: real, spread: real,
                         y: map<Hash, real>, i: nat, j: nat, x: Hash, z: Hash)
    requires TotalOrder(leq) && spread > 0.0
    requires var order := Sorted(units, Comparator(leq));
             && Stackable(order, rank) && Drawn(order, rank, top, spread, y)
             && i < |order| && j < |order| && Priority(order[i].kind) < Priority(order[j].kind)
             && x in order[i].forest.members && z in order[j].forest.members
    ensures x in y && z in y && y[x] < y[z]
  {
    hide Stacked, Stackable, RowY, TotalOrder, Sorted;
    var order := Sorted(units, Comparator(leq));
    var row :| Stacked(order, rank, |order|, row) && y == Picture(top, row, spread);
    ComparatorTotal(leq);
    SortedIsSorted(units, Comparator(leq));
    assert !Comparator(leq)(order[j], order[i]);
    EarlierUnitAbove(order, rank, row, i, j, x, z);
    RowYMonotone(top, row[x], row[z], spread);
  }
}
