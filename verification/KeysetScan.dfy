/**
 The full rescan of the event table: pages fetched by a keyset cursor over (child height, id),
 with missing heights last.
 */
module KeysetScan {
  import opened Prelude

  /** One event row; `height` is a 32-bit column that may be null. */
  datatype Row = Row(id: int, height: Option<int>, source: int)

  datatype Window = Window(start: Option<int>, end: Option<int>, source: Option<int>)

  datatype Cursor = Cursor(height: int, id: int)

  datatype Exhausted = BudgetExhausted(maxIterations: nat, batch: nat)

  /** What `COALESCE` puts in place of a missing height: one more than the largest 32-bit height. */
  const NULL_HEIGHT := 0x8000_0000

  ghost predicate InRange(r: Row) {
    r.height.Some? ==> -NULL_HEIGHT <= r.height.value < NULL_HEIGHT
  }

  /** The primary key: no two rows share an id. */
  ghost predicate Table(table: seq<Row>) {
    && (forall i, j :: 0 <= i < j < |table| ==> table[i].id != table[j].id)
    && (forall i :: 0 <= i < |table| ==> InRange(table[i]))
  }

  // ----- The query -----

  function Key(r: Row): Cursor {
    Cursor(if r.height.Some? then r.height.value else NULL_HEIGHT, r.id)
  }

  predicate Less(a: Cursor, b: Cursor) {
    a.height < b.height || (a.height == b.height && a.id < b.id)
  }

  predicate InWindow(w: Window, r: Row) {
    && (w.start.None? || (r.height.Some? && r.height.value >= w.start.value))
    && (w.end.None? || (r.height.Some? && r.height.value <= w.end.value))
    && (w.source.None? || r.source == w.source.value)
  }

  predicate Selected(w: Window, cursor: Option<Cursor>, r: Row) {
    InWindow(w, r) && (cursor.None? || Less(cursor.value, Key(r)))
  }

  /** `ORDER BY child_height NULLS LAST, id`. */
  predicate NullsLast(a: Row, b: Row) {
    if a.height.None? then b.height.None? && a.id <= b.id
    else if b.height.None? then true
    else a.height.value < b.height.value || (a.height.value == b.height.value && a.id <= b.id)
  }

  function Where(table: seq<Row>, w: Window, cursor: Option<Cursor>): (r: seq<Row>)
    ensures forall x :: x in r <==> x in table && Selected(w, cursor, x)
  {
    if table == [] then []
    else (if Selected(w, cursor, table[0]) then [table[0]] else []) + Where(table[1..], w, cursor)
  }

  function Ordered(table: seq<Row>, w: Window, cursor: Option<Cursor>): seq<Row> {
    Sorted(Where(table, w, cursor), NullsLast)
  }

  function Page(table: seq<Row>, w: Window, cursor: Option<Cursor>, limit: nat): seq<Row> {
    var rows := Ordered(table, w, cursor);
    rows[..Min(limit, |rows|)]
  }

  // ----- The cursor order is the query's order -----

  /** The sentinel puts missing heights exactly where NULLS LAST puts them. */
  lemma SentinelIsNullsLast(a: Row, b: Row)
    requires InRange(a) && InRange(b)
    ensures NullsLast(a, b) <==> Less(Key(a), Key(b)) || Key(a) == Key(b)
  {
  }

  ghost predicate Rising(s: seq<Row>) {
    forall i, j :: 0 <= i < j < |s| ==> Less(Key(s[i]), Key(s[j]))
  }

  lemma {:induction false} WhereKeepsIds(table: seq<Row>, w: Window, cursor: Option<Cursor>)
    requires Table(table)
    ensures Table(Where(table, w, cursor))
  {
    if table != [] {
      WhereKeepsIds(table[1..], w, cursor);
      var rest := Where(table[1..], w, cursor);
      forall i | 0 <= i < |rest| ensures rest[i].id != table[0].id {
        assert rest[i] in table[1..];
      }
    }
  }

  lemma OrderedRises(table: seq<Row>, w: Window, cursor: Option<Cursor>)
    requires Table(table)
    ensures Rising(Ordered(table, w, cursor))
    ensures forall x :: x in Ordered(table, w, cursor) <==> x in table && Selected(w, cursor, x)
  {
    var chosen := Where(table, w, cursor);
    var rows := Ordered(table, w, cursor);
    WhereKeepsIds(table, w, cursor);
    SortedMembers(chosen, NullsLast);
    SortedIsSorted(chosen, NullsLast);
    forall i, j | 0 <= i < j < |rows| ensures Less(Key(rows[i]), Key(rows[j])) {
      var p, q := PlacesPermuted(chosen, rows, i, j);
      SentinelIsNullsLast(rows[i], rows[j]);
    }
  }

  lemma {:induction false} RisingUnique(a: seq<Row>, b: seq<Row>)
    requires Rising(a) && Rising(b) && forall x :: x in a <==> x in b
    ensures a == b
  {
    assert b == [] || b[0] in a;
    assert a == [] || a[0] in b;
    if a != [] {
      assert a[0] == b[0];
      forall x ensures x in a[1..] <==> x in b[1..] {
        assert x in a[1..] ==> x in a && x != a[0];
        assert x in b[1..] ==> x in b && x != b[0];
        assert a == [a[0]] + a[1..] && b == [b[0]] + b[1..];
      }
      RisingUnique(a[1..], b[1..]);
    }
  }

  /** Resuming after the `k`-th row of the full scan gives the rest of the full scan. */
  lemma CursorResumes(table: seq<Row>, w: Window, k: nat)
    requires Table(table) && 0 < k <= |Ordered(table, w, None)|
    ensures Ordered(table, w, Some(Key(Ordered(table, w, None)[k - 1]))) == Ordered(table, w, None)[k..]
  {
    hide Ordered, InWindow;
    var full := Ordered(table, w, None);
    var cursor := Some(Key(full[k - 1]));
    OrderedRises(table, w, None);
    OrderedRises(table, w, cursor);
    var rest := full[k..];
    forall x ensures x in rest <==> x in table && Selected(w, cursor, x) {
      if x in rest {
        var i :| 0 <= i < |rest| && rest[i] == x;
        assert x == full[k + i] && x in full;
      }
      if x in table && Selected(w, cursor, x) {
        assert x in full;
        var i :| 0 <= i < |full| && full[i] == x;
        assert i >= k;
        assert x == rest[i - k];
      }
    }
    RisingUnique(Ordered(table, w, cursor), rest);
  }

  // ----- The scan -----

  function CeilDiv(n: nat, b: nat): nat
    requires b > 0
  {
    (n + b - 1) / b
  }

  /** `k` pages of `b` rows hold `n` rows exactly when `k` is at least the rounded-up quotient. */
  lemma PagesNeeded(n: nat, b: nat, k: nat)
    requires b > 0
    ensures CeilDiv(n, b) <= k <==> n <= k * b
  {
    var q := CeilDiv(n, b);
    assert q * b <= n + b - 1 < q * b + b;
    if q <= k {
      assert q * b <= k * b;
    } else {
      assert (k + 1) * b <= q * b;
    }
  }

  function Ids(rows: seq<Row>): (ids: seq<int>)
    ensures |ids| == |rows| && forall i :: 0 <= i < |rows| ==> ids[i] == rows[i].id
  {
    seq(|rows|, i requires 0 <= i < |rows| => rows[i].id)
  }

  /** Where the scan stands after the first `k` rows of the full order. */
  ghost predicate ScannedTo(full: seq<Row>, k: nat, cursor: Option<Cursor>, visited: seq<int>) {
    && k <= |full|
    && visited == Ids(full[..k])
    && cursor == if k == 0 then None else Some(Key(full[k - 1]))
  }

  lemma PageIsSlice(table: seq<Row>, w: Window, cursor: Option<Cursor>, limit: nat, k: nat, visited: seq<int>)
    requires Table(table) && ScannedTo(Ordered(table, w, None), k, cursor, visited)
    ensures var full := Ordered(table, w, None);
            Page(table, w, cursor, limit) == full[k..Min(k + limit, |full|)]
  {
    var full := Ordered(table, w, None);
    hide Ordered;
    if k > 0 {
      CursorResumes(table, w, k);
    }
    assert full[k..][..Min(limit, |full| - k)] == full[k..Min(k + limit, |full|)];
  }

  /** Reconcile one page, row by row. */
  method ScanPage(rows: seq<Row>, ghost full: seq<Row>, ghost k: nat, cursor: Option<Cursor>, visited: seq<int>)
    returns (next: Option<Cursor>, seen: seq<int>)
    requires ScannedTo(full, k, cursor, visited) && k + |rows| <= |full| && rows == full[k..k + |rows|]
    ensures ScannedTo(full, k + |rows|, next, seen)
  {
    next, seen := cursor, visited;
    var i := 0;
    while i < |rows|
      invariant 0 <= i <= |rows|
      invariant ScannedTo(full, k + i, next, seen)
    {
      var row := rows[i];
      assert row == full[k + i];
      assert full[..k + i + 1] == full[..k + i] + [row];
      next := Some(Key(row));
      seen := seen + [row.id];
      assert seen == Ids(full[..k + i + 1]);
      i := i + 1;
    }
  }

  /**
   Every matching event is reconciled once, in (height, nulls last, id) order, whatever the batch
   size. The scan reports its row count exactly when the rounded-up page count is below the
   iteration budget, and otherwise has done a prefix of `maxIterations` pages.
   */
  method ReconcileAll(table: seq<Row>, w: Window, batch: nat, maxIterations: nat)
    returns (visited: seq<int>, r: Result<nat, Exhausted>)
    requires Table(table) && batch > 0
    ensures var full := Ordered(table, w, None);
            && (r.Success? <==> CeilDiv(|full|, batch) < maxIterations)
            && (r.Success? ==> r.value == |full| && visited == Ids(full))
            && (r.Failure? ==>
                  && r.error == BudgetExhausted(maxIterations, batch)
                  && visited == Ids(full[..Min(maxIterations * batch, |full|)]))
  {
    hide Ordered, Table, Page;
    ghost var full := Ordered(table, w, None);
    visited := [];
    var repaired, cursor, iteration := 0, None, 0;
    while iteration < maxIterations
      invariant 0 <= iteration <= maxIterations
      invariant repaired == Min(iteration * batch, |full|)
      invariant ScannedTo(full, repaired, cursor, visited)
      invariant iteration > 0 ==> (iteration - 1) * batch < |full|
    {
      PageIsSlice(table, w, cursor, batch, repaired, visited);
      assert (iteration + 1) * batch == iteration * batch + batch;
      PagesNeeded(|full|, batch, iteration);
      var rows := Page(table, w, cursor, batch);
      if rows == [] {
        assert full[..|full|] == full;
        return visited, Success(repaired);
      }
      cursor, visited := ScanPage(rows, full, repaired, cursor, visited);
      repaired := repaired + |rows|;
      iteration := iteration + 1;
    }
    if maxIterations > 0 {
      PagesNeeded(|full|, batch, maxIterations - 1);
    }
    r := Failure(BudgetExhausted(maxIterations, batch));
  }

  /** The full order is a rearrangement of the matching rows: each exactly once. */
  lemma EachMatchOnce(table: seq<Row>, w: Window)
    requires Table(table)
    ensures var full := Ordered(table, w, None);
            && (forall x :: x in full <==> x in table && InWindow(w, x))
            && (forall i, j :: 0 <= i < j < |full| ==> NullsLast(full[i], full[j]) && full[i].id != full[j].id)
  {
    var full := Ordered(table, w, None);
    OrderedRises(table, w, None);
    hide Ordered;
    WhereKeepsIds(table, w, None);
    SortedIsSorted(Where(table, w, None), NullsLast);
    forall i, j | 0 <= i < j < |full| ensures NullsLast(full[i], full[j]) && full[i].id != full[j].id {
      assert full[i] in full && full[j] in full;
      SentinelIsNullsLast(full[i], full[j]);
    }
  }
}
