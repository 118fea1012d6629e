/** Zero-centred histogram bins over header-time deltas, with arithmetic over the reals. */
module DeltaBins {
  import opened Prelude

  const MAX_BINS := 401

  const BIN_STEPS: seq<real> :=
    [1.0, 2.0, 5.0, 10.0, 15.0, 30.0, 60.0, 120.0, 300.0, 600.0, 1800.0, 3600.0, 21600.0, 86400.0, 604800.0]

  datatype Bin = Bin(k: int, centre: real, lo: real, hi: real, count: nat)

  function Abs(x: real): real {
    if x < 0.0 then -x else x
  }

  // ----- The width -----

  /** At most `MAX_BINS` bins; a zero width has infinitely many. */
  predicate Fits(half: real, width: real) {
    width != 0.0 && half * 2.0 / width + 1.0 <= MAX_BINS as real
  }

  function FirstAtLeast(steps: seq<real>, target: real): Option<real> {
    if steps == [] then None else if steps[0] >= target then Some(steps[0]) else FirstAtLeast(steps[1..], target)
  }

  function FirstFitting(steps: seq<real>, half: real): Option<real> {
    if steps == [] then None else if Fits(half, steps[0]) then Some(steps[0]) else FirstFitting(steps[1..], half)
  }

  function Ceil(x: real): int {
    -((-x).Floor)
  }

  function Requested(half: real, explicit: Option<real>): real {
    match explicit
    case Some(w) => w
    case None =>
      var step := FirstAtLeast(BIN_STEPS, half * 2.0 / 110.0);
      if step.Some? then step.value else 604800.0
  }

  function BinWidth(half: real, explicit: Option<real>): real {
    var requested := Requested(half, explicit);
    if Fits(half, requested) then requested
    else
      var step := FirstFitting(BIN_STEPS, half);
      if step.Some? then step.value else Ceil(half * 2.0 / (MAX_BINS - 1) as real) as real
  }

  lemma {:induction false} StepsPositive(steps: seq<real>, target: real, half: real)
    requires forall i :: 0 <= i < |steps| ==> steps[i] > 0.0
    ensures FirstAtLeast(steps, target).Some? ==> FirstAtLeast(steps, target).value > 0.0
    ensures FirstFitting(steps, half).Some? ==>
              FirstFitting(steps, half).value > 0.0 && Fits(half, FirstFitting(steps, half).value)
    ensures FirstFitting(steps, half).None? ==> forall i :: 0 <= i < |steps| ==> !Fits(half, steps[i])
  {
    if steps != [] {
      StepsPositive(steps[1..], target, half);
    }
  }

  /** The width is positive unless a negative one was asked for, and then it never makes too many bins. */
  lemma WidthFits(half: real, explicit: Option<real>)
    requires half >= 0.0
    ensures var w := BinWidth(half, explicit);
            && (w > 0.0 <==> explicit.None? || explicit.value >= 0.0)
            && Fits(half, w)
  {
    hide BIN_STEPS;
    StepsAre();
    StepsPositive(BIN_STEPS, half * 2.0 / 110.0, half);
    var requested := Requested(half, explicit);
    if requested < 0.0 {
      NegativeFits(half, requested);
    }
    if !Fits(half, requested) && FirstFitting(BIN_STEPS, half).None? {
      assert !Fits(half, BIN_STEPS[0]);
      CeilFits(half);
    }
  }

  lemma StepsAre()
    ensures |BIN_STEPS| == 15 && BIN_STEPS[0] == 1.0 && forall i :: 0 <= i < |BIN_STEPS| ==> BIN_STEPS[i] > 0.0
  {
  }

  lemma NegativeFits(half: real, w: real)
    requires half >= 0.0 && w < 0.0
    ensures Fits(half, w)
  {
    assert half * 2.0 / w <= 0.0;
  }

  lemma CeilFits(half: real)
    requires half >= 0.0 && !Fits(half, 1.0)
    ensures var w := Ceil(half * 2.0 / 400.0) as real; w > 0.0 && Fits(half, w)
  {
    var x := half * 2.0 / 400.0;
    var w := Ceil(x) as real;
    assert x > 1.0 && w >= x;
    Quotient(half * 2.0, w);
    assert half * 2.0 == 400.0 * x <= 400.0 * w;
    assert half * 2.0 / w <= 400.0;
  }

  lemma Quotient(a: real, w: real)
    requires w != 0.0
    ensures (a / w) * w == a
  {
  }

  // ----- The bin of a delta -----

  function Sign(x: real): int {
    if x < 0.0 then -1 else if x > 0.0 then 1 else 0
  }

  /** Ties round away from zero on both sides. */
  function BinIndex(delta: real, w: real): int
    requires w != 0.0
  {
    Sign(delta) * (Abs(delta) / w + 0.5).Floor
  }

  function KMax(half: real, w: real): int
    requires w != 0.0
  {
    (half / w).Floor
  }

  function Clamp(v: int, lo: int, hi: int): int {
    Min(hi, Max(lo, v))
  }

  function BinKey(half: real, w: real, delta: real): Option<int>
    requires w != 0.0
  {
    if Abs(delta) > half then None
    else Some(Clamp(BinIndex(delta, w), -KMax(half, w), KMax(half, w)))
  }

  /** `a` bin widths. */
  function Widths(a: real, w: real): real {
    a * w
  }

  lemma WidthsLess(a: real, b: real, w: real)
    requires w > 0.0
    ensures a < b <==> Widths(a, w) < Widths(b, w)
    ensures a == b <==> Widths(a, w) == Widths(b, w)
  {
    assert (b - a) * w == b * w - a * w;
    if a < b {
      assert (b - a) * w > 0.0;
    } else if b < a {
      assert (a - b) * w > 0.0;
    }
  }

  lemma WidthsHalf(a: real, w: real)
    ensures Widths(a + 0.5, w) == Widths(a, w) + w / 2.0
    ensures Widths(a - 0.5, w) == Widths(a, w) - w / 2.0
    ensures Widths(-a, w) == -Widths(a, w)
  {
  }

  lemma WidthsQuotient(a: real, w: real)
    requires w != 0.0
    ensures Widths(a / w, w) == a && Widths(0.0, w) == 0.0
  {
  }

  /** The window reaches into bin `KMax` but not past its right neighbour's centre. */
  lemma KMaxReach(half: real, w: real)
    requires half >= 0.0 && w > 0.0
    ensures KMax(half, w) >= 0
    ensures Widths(KMax(half, w) as real, w) <= half < Widths(KMax(half, w) as real + 1.0, w)
  {
    hide Widths;
    var q := half / w;
    WidthsQuotient(half, w);
    WidthsLess(q, 0.0, w);
    var m := q.Floor;
    WidthsLess(q, m as real, w);
    WidthsLess(q, m as real + 1.0, w);
  }

  lemma BinIndexNear(delta: real, w: real)
    requires w > 0.0
    ensures var r := (Abs(delta) / w + 0.5).Floor;
            r >= 0 && Widths(r as real - 0.5, w) <= Abs(delta) < Widths(r as real + 0.5, w)
  {
    hide Widths;
    var q := Abs(delta) / w;
    var r := (q + 0.5).Floor;
    WidthsQuotient(Abs(delta), w);
    WidthsLess(q, 0.0, w);
    WidthsLess(q, r as real - 0.5, w);
    WidthsLess(q, r as real + 0.5, w);
  }

  // ----- The bins -----

  function Lo(half: real, w: real, k: int): real
    requires w != 0.0
  {
    if k == -KMax(half, w) then -half else RealMax(Widths(k as real, w) - w / 2.0, -half)
  }

  function Hi(half: real, w: real, k: int): real
    requires w != 0.0
  {
    if k == KMax(half, w) then half else RealMin(Widths(k as real, w) + w / 2.0, half)
  }

  function RealMax(a: real, b: real): real {
    if a < b then b else a
  }

  function RealMin(a: real, b: real): real {
    if a < b then a else b
  }

  /** The edge between bin `k` and bin `k + 1`. */
  function Edge(w: real, k: int): real {
    Widths(k as real + 0.5, w)
  }

  /** Inner edges are the midpoints between centres; nothing is clipped there. */
  lemma InnerEdge(half: real, w: real, k: int)
    requires half >= 0.0 && w > 0.0 && -KMax(half, w) <= k < KMax(half, w)
    ensures Hi(half, w, k) == Edge(w, k) == Lo(half, w, k + 1)
    ensures -half < Edge(w, k) < half
  {
    hide KMax, Widths;
    KMaxReach(half, w);
    var m := KMax(half, w) as real;
    assert k as real + 1.0 <= m;
    WidthsLess(k as real + 0.5, m, w);
    WidthsLess(-m, k as real + 0.5, w);
    WidthsHalf(k as real, w);
    WidthsHalf((k + 1) as real, w);
    WidthsHalf(m, w);
    assert (k + 1) as real - 0.5 == k as real + 0.5;
  }

  /** Bins tile [-half, half]: consecutive bins meet, and none is empty. */
  lemma BinsTile(half: real, w: real)
    requires half >= 0.0 && w > 0.0
    ensures Lo(half, w, -KMax(half, w)) == -half && Hi(half, w, KMax(half, w)) == half
    ensures forall k :: -KMax(half, w) <= k < KMax(half, w) ==> Hi(half, w, k) == Lo(half, w, k + 1)
    ensures forall k :: -KMax(half, w) <= k <= KMax(half, w) && half > 0.0 ==> Lo(half, w, k) < Hi(half, w, k)
  {
    hide KMax, Lo, Hi, Edge;
    EndEdges(half, w);
    forall k | -KMax(half, w) <= k < KMax(half, w) ensures Hi(half, w, k) == Lo(half, w, k + 1) {
      InnerEdge(half, w, k);
    }
    forall k | -KMax(half, w) <= k <= KMax(half, w) && half > 0.0 ensures Lo(half, w, k) < Hi(half, w, k) {
      if k < KMax(half, w) {
        InnerEdge(half, w, k);
      }
      if -KMax(half, w) < k {
        InnerEdge(half, w, k - 1);
        assert Lo(half, w, k - 1 + 1) == Edge(w, k - 1);
      }
      EdgesRise(w, k - 1, k);
    }
  }

  lemma EdgesRise(w: real, j: int, k: int)
    requires w > 0.0
    ensures Edge(w, j) < Edge(w, k) <==> j < k
  {
    hide Widths;
    WidthsLess(j as real + 0.5, k as real + 0.5, w);
  }

  lemma EndEdges(half: real, w: real)
    requires w != 0.0
    ensures Lo(half, w, -KMax(half, w)) == -half && Hi(half, w, KMax(half, w)) == half
  {
  }

  /** The magnitude of a delta lies between the edges of its rounded index. */
  lemma IndexBetweenEdges(w: real, d: real)
    requires w > 0.0
    ensures var k := BinIndex(d, w); Edge(w, k - 1) <= d <= Edge(w, k)
  {
    hide Widths;
    BinIndexNear(d, w);
    var r := (Abs(d) / w + 0.5).Floor;
    WidthsHalf(r as real + 0.5, w);
    WidthsHalf(r as real - 0.5, w);
    WidthsLess(0.0 - 0.5, 0.0, w);
    WidthsLess(0.0, 0.5, w);
    assert -(r as real + 0.5) == (-r) as real - 0.5 == (-r - 1) as real + 0.5;
    assert -(r as real - 0.5) == (-r) as real + 0.5;
    assert r as real - 0.5 == (r - 1) as real + 0.5;
  }

  /** Every delta in the window lies inside the bin its key names. */
  lemma KeyedInside(half: real, w: real, d: real)
    requires half >= 0.0 && w > 0.0 && Abs(d) <= half
    ensures var k := BinKey(half, w, d).value;
            -KMax(half, w) <= k <= KMax(half, w) && Lo(half, w, k) <= d <= Hi(half, w, k)
  {
    hide KMax, Lo, Hi, BinIndex, Edge;
    KMaxReach(half, w);
    EndEdges(half, w);
    IndexBetweenEdges(w, d);
    var m, i := KMax(half, w), BinIndex(d, w);
    var k := BinKey(half, w, d).value;
    if k < m {
      InnerEdge(half, w, k);
      EdgesRise(w, k, i);
    }
    if -m < k {
      InnerEdge(half, w, k - 1);
      assert Lo(half, w, k - 1 + 1) == Edge(w, k - 1);
      EdgesRise(w, i - 1, k - 1);
    }
  }

  /** Keys are odd in the delta. */
  lemma KeyMirrors(half: real, w: real, d: real)
    requires half >= 0.0 && w > 0.0
    ensures BinKey(half, w, -d).Some? <==> BinKey(half, w, d).Some?
    ensures BinKey(half, w, d).Some? ==> BinKey(half, w, -d).value == -BinKey(half, w, d).value
  {
    hide KMax;
    KMaxReach(half, w);
    assert Abs(-d) == Abs(d);
  }

  lemma KeyInRange(half: real, w: real, d: real)
    requires w != 0.0 && KMax(half, w) >= 0
    ensures BinKey(half, w, d).Some? ==> -KMax(half, w) <= BinKey(half, w, d).value <= KMax(half, w)
  {
    hide KMax, BinIndex;
  }

  // ----- Counting rows -----

  function CountKey(rows: seq<real>, half: real, w: real, k: int): nat
    requires w != 0.0
  {
    if rows == [] then 0
    else CountKey(rows[..|rows| - 1], half, w, k) + (if BinKey(half, w, rows[|rows| - 1]) == Some(k) then 1 else 0)
  }

  function CountOutside(rows: seq<real>, half: real): (nat, nat) {
    if rows == [] then (0, 0)
    else
      var (below, above) := CountOutside(rows[..|rows| - 1], half);
      var d := rows[|rows| - 1];
      if d < -half then (below + 1, above) else if d > half then (below, above + 1) else (below, above)
  }

  /** The rows in the bins `from..from + n`. */
  ghost function CountRange(rows: seq<real>, half: real, w: real, from: int, n: nat): nat
    requires w != 0.0
  {
    if n == 0 then 0 else CountRange(rows, half, w, from, n - 1) + CountKey(rows, half, w, from + n - 1)
  }

  lemma {:induction false} CountRangeGrows(rows: seq<real>, half: real, w: real, from: int, n: nat)
    requires w != 0.0 && rows != []
    ensures var key := BinKey(half, w, rows[|rows| - 1]);
            CountRange(rows, half, w, from, n) == CountRange(rows[..|rows| - 1], half, w, from, n) +
              if key.Some? && from <= key.value < from + n then 1 else 0
  {
    hide BinKey;
    if n > 0 {
      CountRangeGrows(rows, half, w, from, n - 1);
    }
  }

  lemma {:induction false} CountRangeEmpty(half: real, w: real, from: int, n: nat)
    requires w != 0.0
    ensures CountRange([], half, w, from, n) == 0
  {
    if n > 0 {
      CountRangeEmpty(half, w, from, n - 1);
    }
  }

  /** Every row is in one bin of `-m..m`, below the window, or above it. */
  lemma {:induction false} RowsConserved(rows: seq<real>, half: real, w: real)
    requires half >= 0.0 && w != 0.0 && KMax(half, w) >= 0
    ensures CountRange(rows, half, w, -KMax(half, w), 2 * KMax(half, w) + 1) +
            CountOutside(rows, half).0 + CountOutside(rows, half).1 == |rows|
  {
    hide KMax, BinIndex, CountRange;
    var m := KMax(half, w);
    if rows == [] {
      CountRangeEmpty(half, w, -m, 2 * m + 1);
    } else {
      RowsConserved(rows[..|rows| - 1], half, w);
      CountRangeGrows(rows, half, w, -m, 2 * m + 1);
      KeyInRange(half, w, rows[|rows| - 1]);
    }
  }

  // ----- The histogram -----

  lemma NothingCounted(half: real, w: real)
    requires w != 0.0
    ensures CountOutside([], half) == (0, 0) && forall k :: CountKey([], half, w, k) == 0
  {
  }

  lemma CountOneMore(rows: seq<real>, half: real, w: real, i: nat)
    requires w != 0.0 && i < |rows|
    ensures forall k :: CountKey(rows[..i + 1], half, w, k) ==
                        CountKey(rows[..i], half, w, k) + if BinKey(half, w, rows[i]) == Some(k) then 1 else 0
    ensures CountOutside(rows[..i + 1], half).0 == CountOutside(rows[..i], half).0 + if rows[i] < -half then 1 else 0
    ensures CountOutside(rows[..i + 1], half).1 ==
            CountOutside(rows[..i], half).1 + if rows[i] >= -half && rows[i] > half then 1 else 0
  {
    hide BinKey;
    assert rows[..i + 1][..i] == rows[..i];
  }

  method CountRows(rows: seq<real>, half: real, w: real)
    returns (counts: map<int, nat>, below: nat, above: nat, outside: seq<real>)
    requires w != 0.0 && half >= 0.0
    ensures (below, above) == CountOutside(rows, half) && |outside| == below + above
    ensures forall d :: d in outside <==> d in rows && Abs(d) > half
    ensures forall k :: CountKey(rows, half, w, k) == if k in counts then counts[k] else 0
  {
    hide KMax, BinIndex, Clamp, CountKey, CountOutside;
    var kMax := KMax(half, w);
    counts, below, above, outside := map[], 0, 0, [];
    NothingCounted(half, w);
    var i := 0;
    while i < |rows|
      invariant 0 <= i <= |rows|
      invariant (below, above) == CountOutside(rows[..i], half) && |outside| == below + above
      invariant forall d :: d in outside <==> d in rows[..i] && Abs(d) > half
      invariant forall k :: CountKey(rows[..i], half, w, k) == if k in counts then counts[k] else 0
    {
      var d := rows[i];
      assert rows[..i + 1] == rows[..i] + [d];
      CountOneMore(rows, half, w, i);
      if d < -half {
        below, outside := below + 1, outside + [d];
      } else if d > half {
        above, outside := above + 1, outside + [d];
      } else {
        var k := Clamp(BinIndex(d, w), -kMax, kMax);
        counts := counts[k := (if k in counts then counts[k] else 0) + 1];
      }
      i := i + 1;
    }
    assert rows[..|rows|] == rows;
  }

  /** One bin for every key the window can produce, with its edges and its rows. */
  method ComputeBins(rows: seq<real>, half: real, explicit: Option<real>)
    returns (bins: seq<Bin>, below: nat, above: nat, outside: seq<real>, w: real)
    requires half >= 0.0
    ensures w == BinWidth(half, explicit) && w != 0.0
    ensures |bins| == Max(0, 2 * KMax(half, w) + 1)
    ensures forall i :: 0 <= i < |bins| ==> bins[i] == BinAt(rows, half, w, i - KMax(half, w))
    ensures (below, above) == CountOutside(rows, half) && |outside| == below + above
    ensures forall d :: d in outside <==> d in rows && Abs(d) > half
  {
    hide KMax, BinWidth, Lo, Hi, CountKey, CountOutside;
    w := BinWidth(half, explicit);
    WidthNonzero(half, explicit);
    var kMax := KMax(half, w);
    var counts;
    counts, below, above, outside := CountRows(rows, half, w);
    bins := [];
    var k := -kMax;
    while k <= kMax
      invariant -kMax <= k && (k <= kMax + 1 || bins == [])
      invariant |bins| == k + kMax
      invariant forall i :: 0 <= i < |bins| ==> bins[i] == BinAt(rows, half, w, i - kMax)
    {
      var lo, hi := Lo(half, w, k), Hi(half, w, k);
      bins := bins + [Bin(k, (lo + hi) / 2.0, lo, hi, if k in counts then counts[k] else 0)];
      k := k + 1;
    }
  }

  function BinAt(rows: seq<real>, half: real, w: real, k: int): Bin
    requires w != 0.0
  {
    Bin(k, (Lo(half, w, k) + Hi(half, w, k)) / 2.0, Lo(half, w, k), Hi(half, w, k), CountKey(rows, half, w, k))
  }

  lemma WidthNonzero(half: real, explicit: Option<real>)
    requires half >= 0.0
    ensures BinWidth(half, explicit) != 0.0
  {
    WidthFits(half, explicit);
  }

  ghost function Total(bins: seq<Bin>): nat {
    if bins == [] then 0 else Total(bins[..|bins| - 1]) + bins[|bins| - 1].count
  }

  lemma {:induction false} TotalIsRange(bins: seq<Bin>, rows: seq<real>, half: real, w: real, from: int)
    requires w != 0.0
    requires forall i :: 0 <= i < |bins| ==> bins[i] == BinAt(rows, half, w, i + from)
    ensures Total(bins) == CountRange(rows, half, w, from, |bins|)
  {
    hide Lo, Hi, CountKey;
    if bins != [] {
      TotalIsRange(bins[..|bins| - 1], rows, half, w, from);
    }
  }

  lemma {:induction false} OutsideAll(rows: seq<real>, half: real)
    ensures CountOutside(rows, half).0 + CountOutside(rows, half).1 <= |rows|
    ensures half >= 0.0 ==>
              (CountOutside(rows, half).0 + CountOutside(rows, half).1 == |rows| <==> forall d :: d in rows ==> Abs(d) > half)
  {
    if rows != [] {
      var init := rows[..|rows| - 1];
      OutsideAll(init, half);
      var last := rows[|rows| - 1];
      assert rows == init + [last];
      assert (forall d :: d in rows ==> Abs(d) > half) <==> (forall d :: d in init ==> Abs(d) > half) && Abs(last) > half by {
        assert last in rows;
        assert forall d :: d in init ==> d in rows;
      }
    }
  }

  /** A negative width has no bins at all, unless the window is a single point. */
  lemma NegativeKMax(half: real, w: real)
    requires half >= 0.0 && w < 0.0
    ensures if half == 0.0 then KMax(half, w) == 0 else KMax(half, w) < 0
  {
    var q := half / w;
    if half > 0.0 {
      assert q < 0.0;
    }
  }

  /**
   No row is lost: bin counts, below and above add up to the rows. A negative explicit width is
   the one way to lose rows, and then exactly those inside the window.
   */
  lemma CountsAddUp(bins: seq<Bin>, rows: seq<real>, half: real, explicit: Option<real>)
    requires half >= 0.0 && BinWidth(half, explicit) != 0.0
    requires var w := BinWidth(half, explicit);
             && |bins| == Max(0, 2 * KMax(half, w) + 1)
             && forall i :: 0 <= i < |bins| ==> bins[i] == BinAt(rows, half, w, i - KMax(half, w))
    ensures Total(bins) + CountOutside(rows, half).0 + CountOutside(rows, half).1 == |rows| <==>
              || explicit.None? || explicit.value >= 0.0 || half == 0.0
              || forall d :: d in rows ==> Abs(d) > half
  {
    hide KMax, BinWidth, BinAt;
    var w := BinWidth(half, explicit);
    WidthFits(half, explicit);
    OutsideAll(rows, half);
    if w > 0.0 {
      KMaxReach(half, w);
    } else {
      NegativeKMax(half, w);
    }
    if KMax(half, w) >= 0 {
      RowsConserved(rows, half, w);
      TotalIsRange(bins, rows, half, w, -KMax(half, w));
    }
  }

  /** There are never more than 401 bins. */
  lemma AtMostMaxBins(half: real, explicit: Option<real>)
    requires half >= 0.0 && BinWidth(half, explicit) != 0.0
    ensures 2 * KMax(half, BinWidth(half, explicit)) + 1 <= MAX_BINS
  {
    hide BinWidth;
    var w := BinWidth(half, explicit);
    WidthFits(half, explicit);
    assert half * 2.0 / w == 2.0 * (half / w);
  }

  function Negated(rows: seq<real>): (r: seq<real>)
    ensures |r| == |rows| && forall i :: 0 <= i < |rows| ==> r[i] == -rows[i]
  {
    seq(|rows|, i requires 0 <= i < |rows| => -rows[i])
  }

  /** Negating every delta mirrors the histogram. */
  lemma {:induction false} CountsMirror(rows: seq<real>, half: real, w: real, k: int)
    requires half >= 0.0 && w > 0.0
    ensures CountKey(Negated(rows), half, w, k) == CountKey(rows, half, w, -k)
    ensures CountOutside(Negated(rows), half).0 == CountOutside(rows, half).1
    ensures CountOutside(Negated(rows), half).1 == CountOutside(rows, half).0
  {
    hide BinKey;
    if rows != [] {
      var init := rows[..|rows| - 1];
      CountsMirror(init, half, w, k);
      assert Negated(rows)[..|rows| - 1] == Negated(init);
      KeyMirrors(half, w, rows[|rows| - 1]);
    }
  }
}
