/** Option and Result, used by every other module for absent values and error paths. */
module Prelude {

  datatype Option<+T> = None | Some(value: T)

  datatype Result<+T, +E> = Success(value: T) | Failure(error: E)

  function Max(a: int, b: int): int {
    if a < b then b else a
  }

  function Min(a: int, b: int): int {
    if a < b then a else b
  }

  lemma Member<T>(s: set<T>) returns (x: T)
    requires s != {}
    ensures x in s
  {
    x :| x in s;
  }

  // ----- Sorting with a comparator -----

  ghost predicate TotalOrder<T(!new)>(leq: (T, T) -> bool) {
    && (forall x, y :: leq(x, y) || leq(y, x))
    && (forall x, y, z :: leq(x, y) && leq(y, z) ==> leq(x, z))
  }

  ghost predicate SortedBy<T>(s: seq<T>, leq: (T, T) -> bool) {
    forall i, j :: 0 <= i < j < |s| ==> leq(s[i], s[j])
  }

  function Inserted<T>(x: T, s: seq<T>, leq: (T, T) -> bool): (r: seq<T>)
    ensures multiset(r) == multiset(s) + multiset{x}
    ensures |r| == |s| + 1
  {
    if s == [] || leq(x, s[0]) then [x] + s
    else
      assert s == [s[0]] + s[1..];
      [s[0]] + Inserted(x, s[1..], leq)
  }

  lemma {:induction false} InsertedSorted<T(!new)>(x: T, s: seq<T>, leq: (T, T) -> bool)
    requires TotalOrder(leq) && SortedBy(s, leq)
    ensures SortedBy(Inserted(x, s, leq), leq)
  {
    if s != [] && !leq(x, s[0]) {
      InsertedSorted(x, s[1..], leq);
      var rest := Inserted(x, s[1..], leq);
      forall i | 0 <= i < |rest| ensures leq(s[0], rest[i]) {
        assert rest[i] in multiset(rest);
        assert rest[i] == x || rest[i] in s[1..];
      }
    }
  }

  /** A stable sort with a comparator. */
  function Sorted<T>(s: seq<T>, leq: (T, T) -> bool): (r: seq<T>)
    ensures multiset(r) == multiset(s)
    ensures |r| == |s|
  {
    if s == [] then [] else assert s == [s[0]] + s[1..]; Inserted(s[0], Sorted(s[1..], leq), leq)
  }

  lemma {:induction false} SortedIsSorted<T(!new)>(s: seq<T>, leq: (T, T) -> bool)
    requires TotalOrder(leq)
    ensures SortedBy(Sorted(s, leq), leq)
  {
    if s != [] {
      SortedIsSorted(s[1..], leq);
      InsertedSorted(s[0], Sorted(s[1..], leq), leq);
    }
  }

  lemma SortedMembers<T>(s: seq<T>, leq: (T, T) -> bool)
    ensures forall x :: x in Sorted(s, leq) <==> x in s
  {
    var r := Sorted(s, leq);
    assert forall x :: x in r <==> x in multiset(r);
    assert forall x :: x in s <==> x in multiset(s);
  }

  lemma OccursTwice<T>(s: seq<T>, x: T) returns (p: nat, q: nat)
    requires multiset(s)[x] >= 2
    ensures p < |s| && q < |s| && p != q && s[p] == x && s[q] == x
  {
    assert x in s;
    p :| p < |s| && s[p] == x;
    assert s == s[..p] + [x] + s[p + 1..];
    if x in s[..p] {
      q :| q < p && s[..p][q] == x;
    } else {
      assert x in s[p + 1..];
      var k: nat :| k < |s[p + 1..]| && s[p + 1..][k] == x;
      q := p + 1 + k;
    }
  }

  /** Two places of a rearrangement come from two places of the original. */
  lemma PlacesPermuted<T>(s: seq<T>, r: seq<T>, i: nat, j: nat) returns (p: nat, q: nat)
    requires multiset(r) == multiset(s) && i < j < |r|
    ensures p < |s| && q < |s| && p != q && s[p] == r[i] && s[q] == r[j]
  {
    assert r[i] in multiset(r) && r[j] in multiset(r);
    if r[i] == r[j] {
      assert r == r[..j] + r[j..];
      assert r[i] in r[..j] && r[i] in r[j..];
      p, q := OccursTwice(s, r[i]);
    } else {
      assert r[i] in s && r[j] in s;
      p :| p < |s| && s[p] == r[i];
      q :| q < |s| && s[q] == r[j];
    }
  }
}
