/**
 Lane allocation over the fork forest of one branch unit: the first child, in hash order, stays
 on its parent's lane, and every further child and every root opens the next lane.
 */
module TreeLanes {
  import opened Prelude
  import opened TreeComponents
  import opened TreeForest

  // ----- Child lists -----

  predicate IsChild(f: Forest, h: Hash, x: Hash) {
    x in f.members && h in f.members && x in f.prev && f.prev[x] == h
  }

  function KidsOf(children: map<Hash, seq<Hash>>, h: Hash): seq<Hash> {
    if h in children then children[h] else []
  }

  /** `children` lists every member's children among `members`, each once. */
  ghost predicate ListsChildren(f: Forest, members: seq<Hash>, children: map<Hash, seq<Hash>>) {
    && (forall h :: h in children ==> NoRepeats(children[h]))
    && (forall h, x :: x in KidsOf(children, h) <==> x in members && IsChild(f, h, x))
  }

  lemma ChildListed(f: Forest, members: seq<Hash>, x: Hash, children: map<Hash, seq<Hash>>)
    requires ListsChildren(f, members, children) && x !in members
    requires x in f.members && x in f.prev && f.HasParent(x)
    ensures ListsChildren(f, members + [x], children[f.prev[x] := KidsOf(children, f.prev[x]) + [x]])
  {
    var parent := f.prev[x];
    var kids := KidsOf(children, parent);
    var more := children[parent := kids + [x]];
    assert x !in kids && NoRepeats(kids + [x]);
    forall h, y ensures y in KidsOf(more, h) <==> y in members + [x] && IsChild(f, h, y) {
      assert y in KidsOf(children, h) <==> y in members && IsChild(f, h, y);
      assert KidsOf(more, h) == if h == parent then kids + [x] else KidsOf(children, h);
    }
  }

  method BuildChildren(f: Forest) returns (children: map<Hash, seq<Hash>>)
    requires NoRepeats(f.members) && forall x :: x in f.members ==> x in f.prev
    ensures ListsChildren(f, f.members, children)
  {
    children := map[];
    var i := 0;
    while i < |f.members|
      invariant 0 <= i <= |f.members|
      invariant ListsChildren(f, f.members[..i], children)
    {
      var x := f.members[i];
      assert f.members[..i + 1] == f.members[..i] + [x];
      assert x !in f.members[..i];
      if f.HasParent(x) {
        ChildListed(f, f.members[..i], x, children);
        children := children[f.prev[x] := KidsOf(children, f.prev[x]) + [x]];
      }
      i := i + 1;
    }
    assert f.members[..|f.members|] == f.members;
  }

  /** `k` is the first of the children of `h` in hash order. */
  ghost predicate Heir(f: Forest, leq: (Hash, Hash) -> bool, h: Hash, k: Hash) {
    IsChild(f, h, k) && forall y :: IsChild(f, h, y) && y != k ==> !leq(y, k)
  }

  /** The children of `h` as they are visited. */
  ghost predicate VisitOrder(f: Forest, leq: (Hash, Hash) -> bool, h: Hash, kids: seq<Hash>)
  {
    && Siblings(f, kids)
    && (forall x :: x in kids <==> IsChild(f, h, x))
    && (forall k :: Heir(f, leq, h, k) ==> kids != [] && kids[0] == k)
  }

  lemma SortedKidsVisitOrder(f: Forest, leq: (Hash, Hash) -> bool, h: Hash, listed: seq<Hash>)
    requires TotalOrder(leq) && NoRepeats(listed) && forall x :: x in listed <==> IsChild(f, h, x)
    ensures VisitOrder(f, leq, h, Sorted(listed, leq))
  {
    var kids := Sorted(listed, leq);
    SortedMembers(listed, leq);
    NoRepeatsPermuted(listed, kids);
    forall i | 0 <= i < |kids| ensures IsChild(f, h, kids[i]) {
      assert kids[i] in kids;
    }
    forall k | Heir(f, leq, h, k) ensures kids != [] && kids[0] == k {
      SortedIsSorted(listed, leq);
      HeirFirst(f, leq, h, k, kids);
    }
  }

  lemma HeirFirst(f: Forest, leq: (Hash, Hash) -> bool, h: Hash, k: Hash, kids: seq<Hash>)
    requires SortedBy(kids, leq) && forall x :: x in kids <==> IsChild(f, h, x)
    requires Heir(f, leq, h, k)
    ensures kids != [] && kids[0] == k
  {
    var i :| 0 <= i < |kids| && kids[i] == k;
    assert kids[0] in kids;
    assert i > 0 ==> leq(kids[0], kids[i]);
  }

  // ----- What an allocation keeps -----

  ghost predicate LanesAreChains(f: Forest, rank: map<Hash, nat>, done: set<Hash>, laneOf: map<Hash, nat>)
    requires Rising(f, rank)
  {
    forall x, y :: x in done && y in done && x in laneOf && y in laneOf && laneOf[x] == laneOf[y] ==>
      x in f.members && y in f.members && (Above(f, rank, x, y) || Above(f, rank, y, x))
  }

  ghost predicate HeirsInherit(f: Forest, leq: (Hash, Hash) -> bool, done: set<Hash>, laneOf: map<Hash, nat>) {
    forall h, k :: h in done && k in done && h in laneOf && k in laneOf && Heir(f, leq, h, k) ==>
      laneOf[k] == laneOf[h]
  }

  ghost predicate LaneUsed(done: set<Hash>, laneOf: map<Hash, nat>, l: nat) {
    exists x :: x in done && x in laneOf && laneOf[x] == l
  }

  /**
   From the lanes `before` and the counter `first`, the nodes `done` were given `lane` or lanes
   opened since, every opened lane is used, and nothing else changed.
   */
  ghost predicate Allocated(before: map<Hash, nat>, first: nat, lane: int, done: set<Hash>,
                            laneOf: map<Hash, nat>, next: nat) {
    && laneOf.Keys == before.Keys + done
    && before.Keys !! done
    && (forall x :: x in before ==> laneOf[x] == before[x])
    && first <= next
    && (forall x :: x in done ==> laneOf[x] == lane || first <= laneOf[x] < next)
    && (forall l: nat :: first <= l < next ==> LaneUsed(done, laneOf, l))
  }

  lemma FirstKidAllocated(before: map<Hash, nat>, first: nat, lane: nat, h: Hash, kid: set<Hash>,
                          middle: map<Hash, nat>, after: map<Hash, nat>, next: nat)
    requires lane < first
    requires Allocated(before, first, lane, {h}, middle, first) && middle[h] == lane
    requires Allocated(middle, first, lane, kid, after, next)
    ensures Allocated(before, first, lane, {h} + kid, after, next)
  {
    forall l: nat | first <= l < next ensures LaneUsed({h} + kid, after, l) {
      assert LaneUsed(kid, after, l);
    }
  }

  lemma NextKidAllocated(before: map<Hash, nat>, first: nat, lane: int, done: set<Hash>, kid: set<Hash>,
                         middle: map<Hash, nat>, lead: nat, root: Hash, after: map<Hash, nat>, next: nat)
    requires lane < first
    requires Allocated(before, first, lane, done, middle, lead)
    requires Allocated(middle, lead + 1, lead, kid, after, next)
    requires root in kid && after[root] == lead
    ensures Allocated(before, first, lane, done + kid, after, next)
  {
    forall l: nat | first <= l < next ensures LaneUsed(done + kid, after, l) {
      if l < lead {
        assert LaneUsed(done, middle, l);
      } else if l > lead {
        assert LaneUsed(kid, after, l);
      }
    }
  }

  /** Two parts with no lane in common keep the chains. */
  lemma ChainsApart(f: Forest, rank: map<Hash, nat>, s: set<Hash>, t: set<Hash>,
                    middle: map<Hash, nat>, after: map<Hash, nat>)
    requires Rising(f, rank)
    requires LanesAreChains(f, rank, s, middle) && LanesAreChains(f, rank, t, after)
    requires forall x :: x in s ==> x in middle && x in after && after[x] == middle[x]
    requires forall x, y :: x in s && y in t && y in after ==> after[x] != after[y]
    ensures LanesAreChains(f, rank, s + t, after)
  {
    hide Above;
  }

  lemma ChainsBelow(f: Forest, rank: map<Hash, nat>, h: Hash, t: set<Hash>, after: map<Hash, nat>)
    requires Rising(f, rank) && h in f.members && LanesAreChains(f, rank, t, after)
    requires t <= Under(f, rank, h)
    ensures LanesAreChains(f, rank, {h} + t, after)
  {
  }

  /** A kid's subtree joins its parent's part: only the kid itself has its parent outside. */
  lemma HeirsJoin(f: Forest, rank: map<Hash, nat>, leq: (Hash, Hash) -> bool, s: set<Hash>, k: Hash,
                  middle: map<Hash, nat>, after: map<Hash, nat>)
    requires Rising(f, rank) && k in f.members
    requires s !! Under(f, rank, k)
    requires HeirsInherit(f, leq, s, middle) && HeirsInherit(f, leq, Under(f, rank, k), after)
    requires forall x :: x in s ==> x in middle && x in after && after[x] == middle[x]
    requires forall h :: h in s && k in after && Heir(f, leq, h, k) ==> after[k] == after[h]
    ensures HeirsInherit(f, leq, s + Under(f, rank, k), after)
  {
    var t := Under(f, rank, k);
    forall h, c | h in s + t && c in s + t && h in after && c in after && Heir(f, leq, h, c)
      ensures after[c] == after[h]
    {
      ParentOutside(f, rank, k, h, c);
    }
  }

  lemma ParentOutside(f: Forest, rank: map<Hash, nat>, k: Hash, h: Hash, c: Hash)
    requires Rising(f, rank) && k in f.members && IsChild(f, h, c)
    ensures h in Under(f, rank, k) ==> c in Under(f, rank, k)
    ensures c in Under(f, rank, k) && c != k ==> h in Under(f, rank, k)
  {
  }

  /** Everything an allocation of the part `done` keeps. */
  ghost predicate Laned(f: Forest, rank: map<Hash, nat>, leq: (Hash, Hash) -> bool, before: map<Hash, nat>,
                        first: nat, lane: int, done: set<Hash>, laneOf: map<Hash, nat>, next: nat)
    requires Rising(f, rank)
  {
    && Allocated(before, first, lane, done, laneOf, next)
    && LanesAreChains(f, rank, done, laneOf)
    && HeirsInherit(f, leq, done, laneOf)
  }

  lemma StartLaned(f: Forest, rank: map<Hash, nat>, leq: (Hash, Hash) -> bool, before: map<Hash, nat>,
                   first: nat, lane: nat, h: Hash)
    requires Rising(f, rank) && h in f.members && h !in before
    ensures Laned(f, rank, leq, before, first, lane, {h}, before[h := lane], first)
  {
    assert LanesAreChains(f, rank, {}, map[h := lane]);
  }

  lemma FirstKidLaned(f: Forest, rank: map<Hash, nat>, leq: (Hash, Hash) -> bool, before: map<Hash, nat>,
                      first: nat, lane: nat, h: Hash, k: Hash, after: map<Hash, nat>, next: nat)
    requires Rising(f, rank) && IsChild(f, h, k) && lane < first && h !in before
    requires Laned(f, rank, leq, before[h := lane], first, lane, Under(f, rank, k), after, next)
    requires k in after && after[k] == lane
    ensures Laned(f, rank, leq, before, first, lane, {h} + Under(f, rank, k), after, next)
    ensures |Leaves(f, {h} + Under(f, rank, k))| == |Leaves(f, Under(f, rank, k))|
  {
    hide Above, Leaf;
    var t := Under(f, rank, k);
    KidUnderStrict(f, rank, h, k);
    StartLaned(f, rank, leq, before, first, lane, h);
    FirstKidAllocated(before, first, lane, h, t, before[h := lane], after, next);
    ChainsBelow(f, rank, h, t, after);
    HeirsJoin(f, rank, leq, {h}, k, before[h := lane], after);
    ParentNotLeaf(f, h, k);
    assert Leaves(f, {h} + t) == Leaves(f, t);
  }

  lemma ParentNotLeaf(f: Forest, h: Hash, k: Hash)
    requires IsChild(f, h, k)
    ensures !Leaf(f, h)
  {
  }

  lemma NextKidLaned(f: Forest, rank: map<Hash, nat>, leq: (Hash, Hash) -> bool, before: map<Hash, nat>,
                     first: nat, lane: int, done: set<Hash>, middle: map<Hash, nat>, lead: nat, k: Hash,
                     after: map<Hash, nat>, next: nat)
    requires Rising(f, rank) && k in f.members && lane < first
    requires done !! Under(f, rank, k)
    requires forall h :: h in done ==> !Heir(f, leq, h, k)
    requires Laned(f, rank, leq, before, first, lane, done, middle, lead)
    requires Laned(f, rank, leq, middle, lead + 1, lead, Under(f, rank, k), after, next)
    requires k in after && after[k] == lead
    ensures Laned(f, rank, leq, before, first, lane, done + Under(f, rank, k), after, next)
    ensures |Leaves(f, done + Under(f, rank, k))| == |Leaves(f, done)| + |Leaves(f, Under(f, rank, k))|
  {
    var t := Under(f, rank, k);
    assert Above(f, rank, k, k);
    hide Above, Leaf, Heir;
    NextKidAllocated(before, first, lane, done, t, middle, lead, k, after, next);
    ChainsApart(f, rank, done, t, middle, after);
    HeirsJoin(f, rank, leq, done, k, middle, after);
    LeavesSplit(f, done, t);
  }

  // ----- The allocator -----

  class LaneAllocator {
    const f: Forest
    const children: map<Hash, seq<Hash>>
    const leq: (Hash, Hash) -> bool
    ghost const rank: map<Hash, nat>
    var laneOf: map<Hash, nat>
    var nextLane: nat

    ghost predicate Ready() {
      Rising(f, rank) && ListsChildren(f, f.members, children) && TotalOrder(leq)
    }

    constructor (f: Forest, children: map<Hash, seq<Hash>>, leq: (Hash, Hash) -> bool, ghost rank: map<Hash, nat>)
      requires Rising(f, rank) && ListsChildren(f, f.members, children) && TotalOrder(leq)
      ensures Ready() && laneOf == map[] && nextLane == 0
      ensures this.f == f && this.rank == rank && this.leq == leq
    {
      this.f, this.children, this.leq, this.rank := f, children, leq, rank;
      laneOf, nextLane := map[], 0;
    }

    method SortedKids(h: Hash) returns (kids: seq<Hash>)
      requires Ready() && h in f.members
      ensures VisitOrder(f, leq, h, kids)
    {
      hide VisitOrder, TotalOrder, Rising;
      var listed := KidsOf(children, h);
      kids := Sorted(listed, leq);
      SortedKidsVisitOrder(f, leq, h, listed);
    }

    /** Give `h` the open lane `lane`, and its descendants that lane or new ones. */
    method AssignLane(h: Hash, lane: nat)
      requires Ready() && h in f.members && lane < nextLane
      requires laneOf.Keys !! Under(f, rank, h)
      modifies this
      ensures Laned(f, rank, leq, old(laneOf), old(nextLane), lane, Under(f, rank, h), laneOf, nextLane)
      ensures h in laneOf && laneOf[h] == lane
      ensures nextLane - old(nextLane) + 1 == |Leaves(f, Under(f, rank, h))|
      decreases Under(f, rank, h)
    {
      hide Under, UnderAll, Leaves, Heir, LanesAreChains, HeirsInherit, LaneUsed, Rising, TotalOrder, ListsChildren;
      ghost var before, first := laneOf, nextLane;
      SelfUnder(f, rank, h);
      StartLaned(f, rank, leq, before, first, lane, h);
      laneOf := laneOf[h := lane];
      var kids := SortedKids(h);
      UnderNone(f, rank, {h}, kids);
      var i := 0;
      while i < |kids|
        invariant 0 <= i <= |kids|
        invariant Laned(f, rank, leq, before, first, lane, UnderAll(f, rank, {h}, kids, i), laneOf, nextLane)
        invariant h in laneOf && laneOf[h] == lane
        invariant i == 0 ==> laneOf == before[h := lane] && nextLane == first
        invariant i > 0 ==> nextLane - first + 1 == |Leaves(f, UnderAll(f, rank, {h}, kids, i))|
      {
        var k := kids[i];
        assert k in kids;
        KidUnderStrict(f, rank, h, k);
        NextSiblingApart(f, rank, {h}, kids, i);
        UnderAllGrows(f, rank, {h}, kids, i);
        if i == 0 {
          AssignLane(k, lane);
          FirstKidLaned(f, rank, leq, before, first, lane, h, k, laneOf, nextLane);
        } else {
          ghost var middle, lead := laneOf, nextLane;
          nextLane := nextLane + 1;
          AssignLane(k, nextLane - 1);
          LaterKidNoHeir(f, rank, leq, h, kids, i);
          NextKidLaned(f, rank, leq, before, first, lane, UnderAll(f, rank, {h}, kids, i), middle, lead, k,
                       laneOf, nextLane);
        }
        i := i + 1;
      }
      WholeSubtree(f, rank, leq, h, kids);
    }

    /** Every root opens a lane. */
    method AssignRoots(roots: seq<Hash>)
      requires Ready() && laneOf == map[] && nextLane == 0
      requires Siblings(f, roots) && forall i :: 0 <= i < |roots| ==> !f.HasParent(roots[i])
      modifies this
      ensures Laned(f, rank, leq, map[], 0, -1, UnderAll(f, rank, {}, roots, |roots|), laneOf, nextLane)
      ensures nextLane == |Leaves(f, UnderAll(f, rank, {}, roots, |roots|))|
    {
      hide Under, UnderAll, Leaves, Heir, LanesAreChains, HeirsInherit, LaneUsed, Rising, TotalOrder, ListsChildren;
      NothingLaned(f, rank, leq);
      UnderNone(f, rank, {}, roots);
      var i := 0;
      while i < |roots|
        invariant 0 <= i <= |roots|
        invariant Laned(f, rank, leq, map[], 0, -1, UnderAll(f, rank, {}, roots, i), laneOf, nextLane)
        invariant nextLane == |Leaves(f, UnderAll(f, rank, {}, roots, i))|
      {
        ghost var middle, lead := laneOf, nextLane;
        var r := roots[i];
        NextSiblingApart(f, rank, {}, roots, i);
        UnderAllGrows(f, rank, {}, roots, i);
        nextLane := nextLane + 1;
        AssignLane(r, nextLane - 1);
        RootNoHeir(f, leq, r);
        NextKidLaned(f, rank, leq, map[], 0, -1, UnderAll(f, rank, {}, roots, i), middle, lead, r, laneOf, nextLane);
        i := i + 1;
      }
    }
  }

  lemma SelfUnder(f: Forest, rank: map<Hash, nat>, h: Hash)
    requires Rising(f, rank) && h in f.members
    ensures h in Under(f, rank, h)
  {
  }

  lemma LaterKidNoHeir(f: Forest, rank: map<Hash, nat>, leq: (Hash, Hash) -> bool, h: Hash, kids: seq<Hash>, i: nat)
    requires Rising(f, rank) && VisitOrder(f, leq, h, kids) && 0 < i < |kids|
    ensures forall g :: !Heir(f, leq, g, kids[i])
  {
    assert kids[i] in kids;
    assert kids[0] != kids[i];
  }

  lemma WholeSubtree(f: Forest, rank: map<Hash, nat>, leq: (Hash, Hash) -> bool, h: Hash, kids: seq<Hash>)
    requires Rising(f, rank) && h in f.members && VisitOrder(f, leq, h, kids)
    ensures UnderAll(f, rank, {h}, kids, |kids|) == Under(f, rank, h)
    ensures kids == [] ==> |Leaves(f, Under(f, rank, h))| == 1
  {
    UnderKids(f, rank, h, kids);
    if kids == [] {
      assert forall x :: x !in kids;
      assert Leaves(f, {h}) == {h};
    }
  }

  // ----- One unit -----

  /** The roots of the unit, in hash order. */
  method SortedRoots(f: Forest, leq: (Hash, Hash) -> bool) returns (roots: seq<Hash>)
    requires NoRepeats(f.members) && forall x :: x in f.members ==> x in f.prev
    ensures Siblings(f, roots)
    ensures forall x :: x in roots <==> x in f.members && !f.HasParent(x)
  {
    var listed := [];
    var i := 0;
    while i < |f.members|
      invariant 0 <= i <= |f.members|
      invariant NoRepeats(listed)
      invariant forall x :: x in listed <==> x in f.members[..i] && x in f.prev && !f.HasParent(x)
    {
      assert f.members[..i + 1] == f.members[..i] + [f.members[i]];
      if !f.HasParent(f.members[i]) {
        listed := listed + [f.members[i]];
      }
      i := i + 1;
    }
    assert f.members[..|f.members|] == f.members;
    roots := Sorted(listed, leq);
    SortedMembers(listed, leq);
    NoRepeatsPermuted(listed, roots);
    forall j | 0 <= j < |roots| ensures roots[j] in f.members && !f.HasParent(roots[j]) {
      assert roots[j] in roots;
    }
  }

  /** The lanes of a unit: `count` of them, every one in use. */
  ghost predicate UnitLanes(f: Forest, rank: map<Hash, nat>, leq: (Hash, Hash) -> bool,
                            laneOf: map<Hash, nat>, count: nat)
    requires Rising(f, rank)
  {
    && (forall x :: x in laneOf <==> x in f.members)
    && (forall x :: x in laneOf ==> laneOf[x] < count)
    && (forall l: nat :: l < count ==> LaneUsed(laneOf.Keys, laneOf, l))
    && LanesAreChains(f, rank, laneOf.Keys, laneOf)
    && HeirsInherit(f, leq, laneOf.Keys, laneOf)
  }

  /**
   A unit takes exactly as many lanes as its forest has leaves; the members on one lane form one
   chain of ancestors; and a fork's first child stays on its parent's lane.
   */
  method AssignLanes(f: Forest, leq: (Hash, Hash) -> bool, ghost rank: map<Hash, nat>)
    returns (laneOf: map<Hash, nat>, nextLane: nat)
    requires Rising(f, rank) && TotalOrder(leq)
    ensures UnitLanes(f, rank, leq, laneOf, nextLane)
    ensures nextLane == |Leaves(f, Members(f))|
  {
    hide Leaves, UnitLanes, Laned, Rising, TotalOrder, ListsChildren;
    RisingMembers(f, rank);
    var children := BuildChildren(f);
    var lanes := new LaneAllocator(f, children, leq, rank);
    var roots := SortedRoots(f, leq);
    lanes.AssignRoots(roots);
    UnderRoots(f, rank, roots);
    laneOf, nextLane := lanes.laneOf, lanes.nextLane;
    LanedUnit(f, rank, leq, laneOf, nextLane);
  }

  lemma LanedUnit(f: Forest, rank: map<Hash, nat>, leq: (Hash, Hash) -> bool, laneOf: map<Hash, nat>, next: nat)
    requires Rising(f, rank)
    requires Laned(f, rank, leq, map[], 0, -1, Members(f), laneOf, next)
    ensures UnitLanes(f, rank, leq, laneOf, next)
  {
    hide LanesAreChains, HeirsInherit, LaneUsed, Rising;
    assert laneOf.Keys == Members(f);
  }

  lemma NothingLaned(f: Forest, rank: map<Hash, nat>, leq: (Hash, Hash) -> bool)
    requires Rising(f, rank)
    ensures Laned(f, rank, leq, map[], 0, -1, {}, map[], 0)
    ensures |Leaves(f, {})| == 0
  {
  }

  lemma RootNoHeir(f: Forest, leq: (Hash, Hash) -> bool, r: Hash)
    requires r in f.prev && !f.HasParent(r)
    ensures forall h :: !Heir(f, leq, h, r)
  {
  }
}
