/**
 The fork forest of one branch unit: its members, linked to each other by `prev_hash`.
 */
module TreeForest {
  import opened Prelude
  import opened TreeComponents

  /** `prev` is the `prev_hash` of every member; a link that leaves the unit makes its member a root. */
  datatype Forest = Forest(members: seq<Hash>, prev: map<Hash, Hash>) {
    predicate HasParent(x: Hash)
      requires x in prev
    {
      prev[x] in members
    }
  }

  ghost predicate NoRepeats(s: seq<Hash>) {
    forall i, j :: 0 <= i < j < |s| ==> s[i] != s[j]
  }

  lemma NoRepeatsPermuted(s: seq<Hash>, r: seq<Hash>)
    requires NoRepeats(s) && multiset(r) == multiset(s)
    ensures NoRepeats(r)
  {
    forall i, j | 0 <= i < j < |r| ensures r[i] != r[j] {
      var p, q := PlacesPermuted(s, r, i, j);
    }
  }

  /** Members are distinct, and `rank` (the block height, say) rises along every in-unit link. */
  ghost predicate Rising(f: Forest, rank: map<Hash, nat>) {
    && NoRepeats(f.members)
    && (forall x :: x in f.members ==> x in f.prev && x in rank)
    && (forall x :: x in f.members && f.HasParent(x) ==> rank[f.prev[x]] < rank[x])
  }

  lemma RisingMembers(f: Forest, rank: map<Hash, nat>)
    requires Rising(f, rank)
    ensures NoRepeats(f.members) && forall x :: x in f.members ==> x in f.prev
  {
  }

  /** `a` is `x` or one of its ancestors in the unit. */
  ghost predicate Above(f: Forest, rank: map<Hash, nat>, a: Hash, x: Hash)
    requires Rising(f, rank) && x in f.members
    decreases rank[x]
  {
    a == x || (f.HasParent(x) && Above(f, rank, a, f.prev[x]))
  }

  ghost function Under(f: Forest, rank: map<Hash, nat>, h: Hash): set<Hash>
    requires Rising(f, rank)
  {
    set x | x in f.members && Above(f, rank, h, x)
  }

  lemma {:induction false} AboveRises(f: Forest, rank: map<Hash, nat>, a: Hash, x: Hash)
    requires Rising(f, rank) && x in f.members && Above(f, rank, a, x)
    ensures a in f.members && (a == x || rank[a] < rank[x])
    decreases rank[x]
  {
    if a != x {
      AboveRises(f, rank, a, f.prev[x]);
    }
  }

  lemma {:induction false} AboveTransitive(f: Forest, rank: map<Hash, nat>, a: Hash, b: Hash, x: Hash)
    requires Rising(f, rank) && b in f.members && x in f.members
    requires Above(f, rank, a, b) && Above(f, rank, b, x)
    ensures Above(f, rank, a, x)
    decreases rank[x]
  {
    if b != x {
      AboveTransitive(f, rank, a, b, f.prev[x]);
    }
  }

  /** The ancestors of one node form a chain. */
  lemma {:induction false} AncestorsComparable(f: Forest, rank: map<Hash, nat>, a: Hash, b: Hash, x: Hash)
    requires Rising(f, rank) && a in f.members && b in f.members && x in f.members
    requires Above(f, rank, a, x) && Above(f, rank, b, x)
    ensures Above(f, rank, a, b) || Above(f, rank, b, a)
    decreases rank[x]
  {
    if a != x && b != x {
      AncestorsComparable(f, rank, a, b, f.prev[x]);
    }
  }

  /** A strict descendant hangs below exactly one child. */
  lemma {:induction false} ChildTowards(f: Forest, rank: map<Hash, nat>, h: Hash, x: Hash) returns (k: Hash)
    requires Rising(f, rank) && x in f.members && Above(f, rank, h, x) && x != h
    ensures k in f.members && f.prev[k] == h && Above(f, rank, k, x)
    decreases rank[x]
  {
    if f.prev[x] == h {
      k := x;
    } else {
      k := ChildTowards(f, rank, h, f.prev[x]);
    }
  }

  lemma {:induction false} RootOf(f: Forest, rank: map<Hash, nat>, x: Hash) returns (r: Hash)
    requires Rising(f, rank) && x in f.members
    ensures r in f.members && !f.HasParent(r) && Above(f, rank, r, x)
    decreases rank[x]
  {
    if f.HasParent(x) {
      r := RootOf(f, rank, f.prev[x]);
    } else {
      r := x;
    }
  }

  // ----- Siblings -----

  /** Distinct members with one common parent, or distinct roots. */
  ghost predicate Siblings(f: Forest, s: seq<Hash>) {
    && NoRepeats(s)
    && (forall i :: 0 <= i < |s| ==> s[i] in f.members && s[i] in f.prev)
    && (forall i, j :: 0 <= i < |s| && 0 <= j < |s| ==>
          f.prev[s[i]] == f.prev[s[j]] || (!f.HasParent(s[i]) && !f.HasParent(s[j])))
  }

  lemma SiblingsIncomparable(f: Forest, rank: map<Hash, nat>, s: seq<Hash>, i: nat, j: nat)
    requires Rising(f, rank) && Siblings(f, s) && i < |s| && j < |s| && i != j
    ensures !Above(f, rank, s[i], s[j])
  {
    if Above(f, rank, s[i], s[j]) {
      AboveRises(f, rank, s[i], f.prev[s[j]]);
    }
  }

  lemma SiblingsDisjoint(f: Forest, rank: map<Hash, nat>, s: seq<Hash>, i: nat, j: nat)
    requires Rising(f, rank) && Siblings(f, s) && i < |s| && j < |s| && i != j
    ensures Under(f, rank, s[i]) !! Under(f, rank, s[j])
  {
    forall x | x in Under(f, rank, s[i]) ensures x !in Under(f, rank, s[j]) {
      if x in Under(f, rank, s[j]) {
        AncestorsComparable(f, rank, s[i], s[j], x);
        SiblingsIncomparable(f, rank, s, i, j);
        SiblingsIncomparable(f, rank, s, j, i);
      }
    }
  }

  /** `start` and everything under the first `n` of `s`. */
  ghost function UnderAll(f: Forest, rank: map<Hash, nat>, start: set<Hash>, s: seq<Hash>, n: nat): set<Hash>
    requires Rising(f, rank) && n <= |s|
  {
    if n == 0 then start else UnderAll(f, rank, start, s, n - 1) + Under(f, rank, s[n - 1])
  }

  lemma UnderNone(f: Forest, rank: map<Hash, nat>, start: set<Hash>, s: seq<Hash>)
    requires Rising(f, rank)
    ensures UnderAll(f, rank, start, s, 0) == start
  {
  }

  lemma UnderAllGrows(f: Forest, rank: map<Hash, nat>, start: set<Hash>, s: seq<Hash>, n: nat)
    requires Rising(f, rank) && n < |s|
    ensures UnderAll(f, rank, start, s, n + 1) == UnderAll(f, rank, start, s, n) + Under(f, rank, s[n])
  {
  }

  lemma {:induction false} UnderAllMember(f: Forest, rank: map<Hash, nat>, start: set<Hash>, s: seq<Hash>, n: nat, x: Hash)
    requires Rising(f, rank) && n <= |s|
    ensures x in UnderAll(f, rank, start, s, n) <==>
              x in start || exists i :: 0 <= i < n && x in Under(f, rank, s[i])
  {
    if n > 0 {
      UnderAllMember(f, rank, start, s, n - 1, x);
    }
  }

  lemma NextSiblingApart(f: Forest, rank: map<Hash, nat>, start: set<Hash>, s: seq<Hash>, n: nat)
    requires Rising(f, rank) && Siblings(f, s) && n < |s|
    requires Under(f, rank, s[n]) !! start
    ensures Under(f, rank, s[n]) !! UnderAll(f, rank, start, s, n)
  {
    forall x | x in Under(f, rank, s[n]) ensures x !in UnderAll(f, rank, start, s, n) {
      UnderAllMember(f, rank, start, s, n, x);
      forall i | 0 <= i < n ensures x !in Under(f, rank, s[i]) {
        SiblingsDisjoint(f, rank, s, i, n);
      }
    }
  }

  lemma UnderKids(f: Forest, rank: map<Hash, nat>, h: Hash, kids: seq<Hash>)
    requires Rising(f, rank) && h in f.members
    requires forall x :: x in kids <==> x in f.members && f.prev[x] == h
    ensures UnderAll(f, rank, {h}, kids, |kids|) == Under(f, rank, h)
  {
    forall x ensures x in UnderAll(f, rank, {h}, kids, |kids|) <==> x in Under(f, rank, h) {
      UnderAllMember(f, rank, {h}, kids, |kids|, x);
      if x in Under(f, rank, h) && x != h {
        var k := ChildTowards(f, rank, h, x);
        var i :| 0 <= i < |kids| && kids[i] == k;
        assert x in Under(f, rank, kids[i]);
      }
      if i :| 0 <= i < |kids| && x in Under(f, rank, kids[i]) {
        assert kids[i] in kids;
        assert Above(f, rank, h, kids[i]);
        AboveTransitive(f, rank, h, kids[i], x);
      }
    }
  }

  lemma UnderRoots(f: Forest, rank: map<Hash, nat>, roots: seq<Hash>)
    requires Rising(f, rank)
    requires forall x :: x in roots <==> x in f.members && !f.HasParent(x)
    ensures UnderAll(f, rank, {}, roots, |roots|) == Members(f)
  {
    forall x ensures x in UnderAll(f, rank, {}, roots, |roots|) <==> x in f.members {
      UnderAllMember(f, rank, {}, roots, |roots|, x);
      if x in f.members {
        var r := RootOf(f, rank, x);
        var i :| 0 <= i < |roots| && roots[i] == r;
        assert x in Under(f, rank, roots[i]);
      }
    }
  }

  lemma KidUnderStrict(f: Forest, rank: map<Hash, nat>, h: Hash, kid: Hash)
    requires Rising(f, rank) && h in f.members && kid in f.members && f.prev[kid] == h
    ensures Under(f, rank, kid) < Under(f, rank, h)
    ensures h !in Under(f, rank, kid)
  {
    assert Above(f, rank, h, kid);
    forall x | x in Under(f, rank, kid) ensures x in Under(f, rank, h) && x != h {
      AboveTransitive(f, rank, h, kid, x);
      AboveRises(f, rank, kid, x);
    }
    assert h in Under(f, rank, h);
  }

  ghost function Members(f: Forest): set<Hash> {
    set x | x in f.members
  }

  // ----- Leaves -----

  /** No member of the unit names `x` as its `prev_hash`. */
  ghost predicate Leaf(f: Forest, x: Hash) {
    forall y :: y in f.members && y in f.prev ==> f.prev[y] != x
  }

  ghost function Leaves(f: Forest, s: set<Hash>): set<Hash> {
    set x | x in s && Leaf(f, x)
  }

  lemma LeavesSplit(f: Forest, s: set<Hash>, t: set<Hash>)
    requires s !! t
    ensures |Leaves(f, s + t)| == |Leaves(f, s)| + |Leaves(f, t)|
  {
    assert Leaves(f, s + t) == Leaves(f, s) + Leaves(f, t);
  }
}
