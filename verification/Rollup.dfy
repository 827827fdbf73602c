/** The two-level rollup of telemetry rows: raw to minutes, minutes to hours (backend/genwatch/db.py). */
module Rollup {
  import opened Prelude

  /** One raw telemetry row, seen through one metric column; None is SQL NULL. */
  datatype Row = Row(ts: real, v: Option<real>)

  // ---- sums over rows -------------------------------------------------------------

  function Total(rows: seq<Row>): real {
    if rows == [] then 0.0
    else (if rows[0].v.Some? then rows[0].v.value else 0.0) + Total(rows[1..])
  }

  /** COUNT(metric): rows in which the metric is not NULL. */
  function Present(rows: seq<Row>): nat {
    if rows == [] then 0 else (if rows[0].v.Some? then 1 else 0) + Present(rows[1..])
  }

  /** AVG(metric): NULL when no row has the metric. */
  function Mean(rows: seq<Row>): Option<real> {
    if Present(rows) == 0 then None else Some(Total(rows) / Present(rows) as real)
  }

  function Least(rows: seq<Row>): Option<real> {
    if rows == [] then None
    else match (rows[0].v, Least(rows[1..]))
      case (Some(a), Some(b)) => Some(MinReal(a, b))
      case (Some(a), None) => Some(a)
      case (None, rest) => rest
  }

  function Greatest(rows: seq<Row>): Option<real> {
    if rows == [] then None
    else match (rows[0].v, Greatest(rows[1..]))
      case (Some(a), Some(b)) => Some(MaxReal(a, b))
      case (Some(a), None) => Some(a)
      case (None, rest) => rest
  }

  /** Rows with lo <= ts < hi. */
  function Slice(rows: seq<Row>, lo: real, hi: real): seq<Row> {
    if rows == [] then []
    else (if lo <= rows[0].ts < hi then [rows[0]] else []) + Slice(rows[1..], lo, hi)
  }

  lemma {:induction false} SumsAppend(a: seq<Row>, b: seq<Row>)
    ensures Total(a + b) == Total(a) + Total(b) && Present(a + b) == Present(a) + Present(b)
  {
    if a == [] {
      assert a + b == b;
    } else {
      assert (a + b)[1..] == a[1..] + b;
      SumsAppend(a[1..], b);
    }
  }

  /** Cutting an interval in two splits its sums. */
  lemma {:induction false} SliceSplits(rows: seq<Row>, lo: real, mid: real, hi: real)
    requires lo <= mid <= hi
    ensures Total(Slice(rows, lo, hi)) == Total(Slice(rows, lo, mid)) + Total(Slice(rows, mid, hi))
    ensures Present(Slice(rows, lo, hi)) == Present(Slice(rows, lo, mid)) + Present(Slice(rows, mid, hi))
    ensures |Slice(rows, lo, hi)| == |Slice(rows, lo, mid)| + |Slice(rows, mid, hi)|
  {
    if rows != [] {
      SliceSplits(rows[1..], lo, mid, hi);
      SliceStep(rows, lo, hi);
      SliceStep(rows, lo, mid);
      SliceStep(rows, mid, hi);
    }
  }

  lemma SliceStep(rows: seq<Row>, lo: real, hi: real)
    requires rows != []
    ensures var head := if lo <= rows[0].ts < hi then [rows[0]] else [];
            && |Slice(rows, lo, hi)| == |head| + |Slice(rows[1..], lo, hi)|
            && Total(Slice(rows, lo, hi)) == Total(head) + Total(Slice(rows[1..], lo, hi))
            && Present(Slice(rows, lo, hi)) == Present(head) + Present(Slice(rows[1..], lo, hi))
  {
    SumsAppend(if lo <= rows[0].ts < hi then [rows[0]] else [], Slice(rows[1..], lo, hi));
  }

  // ---- minute buckets -----------------------------------------------------------------

  datatype MinuteAgg = MinuteAgg(avg: Option<real>, least: Option<real>, greatest: Option<real>, samples: nat)

  /** CAST(ts/60 AS INTEGER). */
  function MinuteOf(ts: real): int {
    Truncate(ts / 60.0)
  }

  /** Rows of one GROUP BY group: in the window, in the bucket. */
  function Group(raw: seq<Row>, from: real, to: real, m: int): seq<Row> {
    if raw == [] then []
    else (if from <= raw[0].ts < to && MinuteOf(raw[0].ts) == m then [raw[0]] else []) + Group(raw[1..], from, to, m)
  }

  function Aggregate(rows: seq<Row>): MinuteAgg {
    MinuteAgg(Mean(rows), Least(rows), Greatest(rows), |rows|)
  }

  function Minutes(raw: seq<Row>, from: real, to: real): set<int> {
    set r | r in raw && from <= r.ts < to :: MinuteOf(r.ts)
  }

  /** INSERT OR REPLACE of one aggregate per group: groups with rows are replaced, others kept. */
  function RollBy<A>(table: map<int, A>, raw: seq<Row>, from: real, to: real, agg: seq<Row> -> A): map<int, A> {
    table + map m | m in Minutes(raw, from, to) :: agg(Group(raw, from, to, m))
  }

  /** aggregate_rollup_1m. */
  function RollMinutes(table: map<int, MinuteAgg>, raw: seq<Row>, from: real, to: real): map<int, MinuteAgg> {
    RollBy(table, raw, from, to, Aggregate)
  }

  /** Epoch timestamps. */
  predicate Epoch(raw: seq<Row>) {
    forall r :: r in raw ==> r.ts >= 0.0
  }

  lemma MinuteBounds(ts: real, m: int)
    requires ts >= 0.0
    ensures MinuteOf(ts) == m <==> 60.0 * m as real <= ts < 60.0 * (m + 1) as real
    ensures MinuteOf(ts) < m <==> ts < 60.0 * m as real
  {
  }

  lemma {:induction false} GroupIsSlice(raw: seq<Row>, from: real, to: real, m: int)
    requires Epoch(raw) && from <= 60.0 * m as real && 60.0 * (m + 1) as real <= to
    ensures Group(raw, from, to, m) == Slice(raw, 60.0 * m as real, 60.0 * (m + 1) as real)
  {
    if raw != [] {
      MinuteBounds(raw[0].ts, m);
      GroupIsSlice(raw[1..], from, to, m);
    }
  }

  lemma {:induction false} GroupNonEmpty(raw: seq<Row>, from: real, to: real, m: int)
    ensures Group(raw, from, to, m) != [] <==> m in Minutes(raw, from, to)
  {
    if raw != [] {
      GroupNonEmpty(raw[1..], from, to, m);
      assert raw == [raw[0]] + raw[1..];
      assert forall r :: r in raw <==> r == raw[0] || r in raw[1..];
    }
  }

  /** Running a rollup again over the same rows changes nothing. */
  lemma RollTwice<A>(table: map<int, A>, raw: seq<Row>, from: real, to: real, agg: seq<Row> -> A)
    ensures var once := RollBy(table, raw, from, to, agg);
            RollBy(once, raw, from, to, agg) == once
  {
  }

  /** One side of a bucket edge sees all of the bucket's rows, the other none. */
  lemma {:induction false} GroupAtEdge(raw: seq<Row>, from: real, edge: int, to: real, m: int)
    requires Epoch(raw) && from <= 60.0 * edge as real <= to
    ensures m < edge ==> Group(raw, from, to, m) == Group(raw, from, 60.0 * edge as real, m)
    ensures m < edge ==> Group(raw, 60.0 * edge as real, to, m) == []
    ensures m >= edge ==> Group(raw, from, to, m) == Group(raw, 60.0 * edge as real, to, m)
    ensures m >= edge ==> Group(raw, from, 60.0 * edge as real, m) == []
  {
    if raw != [] {
      MinuteBounds(raw[0].ts, edge);
      GroupAtEdge(raw[1..], from, edge, to, m);
    }
  }

  /** Row m of t, given row m of the table before and the group that was aggregated. */
  predicate RowAfter<A(==)>(table: map<int, A>, t: map<int, A>, g: seq<Row>, agg: seq<Row> -> A, m: int) {
    && (m in t <==> m in table || g != [])
    && (m in t ==> t[m] == if g != [] then agg(g) else table[m])
  }

  ghost predicate Rolled<A>(table: map<int, A>, t: map<int, A>, raw: seq<Row>, from: real, to: real,
                            agg: seq<Row> -> A) {
    forall m :: RowAfter(table, t, Group(raw, from, to, m), agg, m)
  }

  lemma RollByRolled<A>(table: map<int, A>, raw: seq<Row>, from: real, to: real, agg: seq<Row> -> A)
    ensures Rolled(table, RollBy(table, raw, from, to, agg), raw, from, to, agg)
  {
    forall m ensures RowAfter(table, RollBy(table, raw, from, to, agg), Group(raw, from, to, m), agg, m) {
      GroupNonEmpty(raw, from, to, m);
    }
  }

  /** Two rollups over windows that meet at a bucket edge do what one rollup over both does. */
  lemma RolledSplits<A>(table: map<int, A>, first: map<int, A>, twice: map<int, A>, whole: map<int, A>,
                        raw: seq<Row>, from: real, edge: int, to: real, agg: seq<Row> -> A)
    requires Epoch(raw) && from <= 60.0 * edge as real <= to
    requires Rolled(table, first, raw, from, 60.0 * edge as real, agg)
    requires Rolled(first, twice, raw, 60.0 * edge as real, to, agg)
    requires Rolled(table, whole, raw, from, to, agg)
    ensures twice == whole
  {
    var e := 60.0 * edge as real;
    forall m ensures (m in whole <==> m in twice) && (m in whole ==> whole[m] == twice[m]) {
      GroupAtEdge(raw, from, edge, to, m);
      assert RowAfter(table, first, Group(raw, from, e, m), agg, m);
      assert RowAfter(first, twice, Group(raw, e, to, m), agg, m);
      assert RowAfter(table, whole, Group(raw, from, to, m), agg, m);
    }
    SameMap(whole, twice);
  }

  lemma RollSplits<A>(table: map<int, A>, raw: seq<Row>, from: real, edge: int, to: real, agg: seq<Row> -> A)
    requires Epoch(raw) && from <= 60.0 * edge as real <= to
    ensures RollBy(RollBy(table, raw, from, 60.0 * edge as real, agg), raw, 60.0 * edge as real, to, agg)
         == RollBy(table, raw, from, to, agg)
  {
    var e := 60.0 * edge as real;
    var first := RollBy(table, raw, from, e, agg);
    RollByRolled(table, raw, from, e, agg);
    RollByRolled(first, raw, e, to, agg);
    RollByRolled(table, raw, from, to, agg);
    RolledSplits(table, first, RollBy(first, raw, e, to, agg), RollBy(table, raw, from, to, agg),
                 raw, from, edge, to, agg);
  }

  /** The minute rollup is idempotent, and can be cut at any bucket edge. */
  lemma RollMinutesStable(table: map<int, MinuteAgg>, raw: seq<Row>, from: real, edge: int, to: real)
    requires Epoch(raw) && from <= 60.0 * edge as real <= to
    ensures RollMinutes(RollMinutes(table, raw, from, to), raw, from, to) == RollMinutes(table, raw, from, to)
    ensures RollMinutes(RollMinutes(table, raw, from, 60.0 * edge as real), raw, 60.0 * edge as real, to)
         == RollMinutes(table, raw, from, to)
  {
    RollTwice(table, raw, from, to, Aggregate);
    RollSplits(table, raw, from, edge, to, Aggregate);
  }

  lemma SameMap<K, V>(a: map<K, V>, b: map<K, V>)
    requires forall k :: (k in a <==> k in b) && (k in a ==> a[k] == b[k])
    ensures a == b
  {
  }

  predicate AtLeast(rows: seq<Row>, lo: real) {
    forall i :: 0 <= i < |rows| && rows[i].v.Some? ==> lo <= rows[i].v.value
  }

  predicate AtMost(rows: seq<Row>, hi: real) {
    forall i :: 0 <= i < |rows| && rows[i].v.Some? ==> rows[i].v.value <= hi
  }

  lemma {:induction false} SumAtLeast(rows: seq<Row>, lo: real)
    requires AtLeast(rows, lo)
    ensures lo * Present(rows) as real <= Total(rows)
  {
    if rows != [] { SumAtLeast(rows[1..], lo); }
  }

  lemma {:induction false} SumAtMost(rows: seq<Row>, hi: real)
    requires AtMost(rows, hi)
    ensures Total(rows) <= hi * Present(rows) as real
  {
    if rows != [] { SumAtMost(rows[1..], hi); }
  }

  lemma {:induction false} ExtremesBound(rows: seq<Row>)
    ensures Present(rows) == 0 <==> Least(rows).None?
    ensures Present(rows) == 0 <==> Greatest(rows).None?
    ensures Least(rows).Some? ==> AtLeast(rows, Least(rows).value)
    ensures Greatest(rows).Some? ==> AtMost(rows, Greatest(rows).value)
    ensures Present(rows) == 0 ==> forall i :: 0 <= i < |rows| ==> rows[i].v.None?
  {
    if rows != [] {
      ExtremesBound(rows[1..]);
      assert forall i :: 1 <= i < |rows| ==> rows[i] == rows[1..][i - 1];
    }
  }

  lemma QuotientAtLeast(lo: real, total: real, n: real)
    requires n > 0.0 && lo * n <= total
    ensures lo <= total / n
  {
    var q := total / n;
    assert q * n == total;
    if q < lo { ScaleStrict(q, lo, n); }
  }

  lemma QuotientAtMost(hi: real, total: real, n: real)
    requires n > 0.0 && total <= hi * n
    ensures total / n <= hi
  {
    var q := total / n;
    assert q * n == total;
    if q > hi { ScaleStrict(hi, q, n); }
  }

  lemma MeanAtLeast(rows: seq<Row>, lo: real)
    requires AtLeast(rows, lo) && Present(rows) > 0
    ensures lo <= Mean(rows).value
  {
    SumAtLeast(rows, lo);
    QuotientAtLeast(lo, Total(rows), Present(rows) as real);
  }

  lemma MeanAtMost(rows: seq<Row>, hi: real)
    requires AtMost(rows, hi) && Present(rows) > 0
    ensures Mean(rows).value <= hi
  {
    SumAtMost(rows, hi);
    QuotientAtMost(hi, Total(rows), Present(rows) as real);
  }

  lemma ScaleStrict(x: real, y: real, n: real)
    requires x < y && n > 0.0
    ensures x * n < y * n
  {
  }

  /** min <= avg <= max in every bucket a rollup writes. */
  lemma MeanBetweenExtremes(rows: seq<Row>)
    ensures Mean(rows).Some? <==> Least(rows).Some?
    ensures Mean(rows).Some? <==> Greatest(rows).Some?
    ensures Mean(rows).Some? ==> Least(rows).value <= Mean(rows).value <= Greatest(rows).value
  {
    ExtremesBound(rows);
    if Present(rows) > 0 {
      MeanAtLeast(rows, Least(rows).value);
      MeanAtMost(rows, Greatest(rows).value);
    }
  }

  // ---- hour buckets -------------------------------------------------------------------

  datatype HourAgg = HourAgg(avg: Option<real>, samples: nat)

  /** x_avg * samples of one minute; a missing minute or a NULL average drops out of the sum. */
  function Weight(minutes: map<int, MinuteAgg>, m: int): real {
    if m in minutes && minutes[m].avg.Some? then minutes[m].avg.value * minutes[m].samples as real else 0.0
  }

  function Weights(minutes: map<int, MinuteAgg>): int -> real {
    m => Weight(minutes, m)
  }

  function SumOver(f: int -> real, lo: int, hi: int): real
    decreases hi - lo
  {
    if hi <= lo then 0.0 else SumOver(f, lo, hi - 1) + f(hi - 1)
  }

  function SamplesAt(minutes: map<int, MinuteAgg>, m: int): nat {
    if m in minutes then minutes[m].samples else 0
  }

  /** SUM(samples) over the minutes lo..hi-1. */
  function Samples(minutes: map<int, MinuteAgg>, lo: int, hi: int): nat
    decreases hi - lo
  {
    if hi <= lo then 0
    else Samples(minutes, lo, hi - 1) + SamplesAt(minutes, hi - 1)
  }

  predicate HasAverage(minutes: map<int, MinuteAgg>, m: int) {
    m in minutes && minutes[m].avg.Some?
  }

  predicate AnyAverage(minutes: map<int, MinuteAgg>, lo: int, hi: int) {
    exists m :: lo <= m < hi && HasAverage(minutes, m)
  }

  /** SUM(x_avg*samples) / NULLIF(SUM(samples), 0), NULL when every x_avg is. */
  function HourMean(minutes: map<int, MinuteAgg>, h: int): Option<real> {
    var lo, hi := 60 * h, 60 * h + 60;
    if AnyAverage(minutes, lo, hi) && Samples(minutes, lo, hi) > 0
    then Some(SumOver(Weights(minutes), lo, hi) / Samples(minutes, lo, hi) as real) else None
  }

  function HourRow(minutes: map<int, MinuteAgg>, h: int): HourAgg {
    HourAgg(HourMean(minutes, h), Samples(minutes, 60 * h, 60 * h + 60))
  }

  /** Minute rows whose timestamp lies in the query window. */
  function InWindow(minutes: map<int, MinuteAgg>, from: int, to: int): map<int, MinuteAgg> {
    map m | m in minutes && from <= 60 * m < to :: minutes[m]
  }

  function Hours(minutes: map<int, MinuteAgg>): set<int> {
    set m | m in minutes :: m / 60
  }

  function RollHoursBy<A>(table: map<int, A>, minutes: map<int, MinuteAgg>, from: int, to: int,
                          row: (map<int, MinuteAgg>, int) -> A): map<int, A>
  {
    var seen := InWindow(minutes, from, to);
    table + map h | h in Hours(seen) :: row(seen, h)
  }

  /** aggregate_rollup_1h for non-negative timestamps. */
  function RollHours(table: map<int, HourAgg>, minutes: map<int, MinuteAgg>, from: int, to: int): map<int, HourAgg> {
    RollHoursBy(table, minutes, from, to, HourRow)
  }

  predicate AgreeOn(a: map<int, MinuteAgg>, b: map<int, MinuteAgg>, lo: int, hi: int) {
    forall m :: lo <= m < hi ==> (m in a <==> m in b) && (m in a ==> a[m] == b[m])
  }

  lemma {:induction false} SumsLocal(f: int -> real, g: int -> real, lo: int, hi: int)
    requires forall m :: lo <= m < hi ==> f(m) == g(m)
    ensures SumOver(f, lo, hi) == SumOver(g, lo, hi)
    decreases hi - lo
  {
    if lo < hi { SumsLocal(f, g, lo, hi - 1); }
  }

  lemma {:induction false} SamplesLocal(a: map<int, MinuteAgg>, b: map<int, MinuteAgg>, lo: int, hi: int)
    requires AgreeOn(a, b, lo, hi)
    ensures Samples(a, lo, hi) == Samples(b, lo, hi)
    decreases hi - lo
  {
    if lo < hi { SamplesLocal(a, b, lo, hi - 1); }
  }

  /** An hour's row depends only on that hour's minutes. */
  lemma HourLocal(a: map<int, MinuteAgg>, b: map<int, MinuteAgg>, h: int)
    requires AgreeOn(a, b, 60 * h, 60 * h + 60)
    ensures HourRow(a, h) == HourRow(b, h)
  {
    SumsLocal(Weights(a), Weights(b), 60 * h, 60 * h + 60);
    SamplesLocal(a, b, 60 * h, 60 * h + 60);
    assert forall m :: 60 * h <= m < 60 * h + 60 ==> HasAverage(a, m) == HasAverage(b, m);
  }

  /** The two halves of a window split at an hour edge, seen from one hour. */
  lemma WindowAtEdge(minutes: map<int, MinuteAgg>, from: int, edge: int, to: int, h: int)
    requires from <= 3600 * edge <= to
    ensures var w := InWindow(minutes, from, to);
            var a, b := InWindow(minutes, from, 3600 * edge), InWindow(minutes, 3600 * edge, to);
            if h < edge then AgreeOn(w, a, 60 * h, 60 * h + 60) && h !in Hours(b) && (h in Hours(w) <==> h in Hours(a))
            else AgreeOn(w, b, 60 * h, 60 * h + 60) && h !in Hours(a) && (h in Hours(w) <==> h in Hours(b))
  {
    var w := InWindow(minutes, from, to);
    var a, b := InWindow(minutes, from, 3600 * edge), InWindow(minutes, 3600 * edge, to);
    if h in Hours(w) {
      var m :| m in w && m / 60 == h;
      assert m in a || m in b;
    }
    if h in Hours(a) { var m :| m in a && m / 60 == h; assert m in w; }
    if h in Hours(b) { var m :| m in b && m / 60 == h; assert m in w; }
  }

  /** Cutting the hourly window at an hour edge, for any row that is computed from the hour's own minutes. */
  lemma RollHoursBySplits<A>(table: map<int, A>, minutes: map<int, MinuteAgg>, from: int, edge: int, to: int,
                             row: (map<int, MinuteAgg>, int) -> A)
    requires from <= 3600 * edge <= to
    requires forall h :: row(InWindow(minutes, from, to), h) ==
                         row(if h < edge then InWindow(minutes, from, 3600 * edge)
                             else InWindow(minutes, 3600 * edge, to), h)
    ensures RollHoursBy(RollHoursBy(table, minutes, from, 3600 * edge, row), minutes, 3600 * edge, to, row)
         == RollHoursBy(table, minutes, from, to, row)
  {
    var e := 3600 * edge;
    var first := RollHoursBy(table, minutes, from, e, row);
    var whole, twice := RollHoursBy(table, minutes, from, to, row), RollHoursBy(first, minutes, e, to, row);
    forall h ensures (h in whole <==> h in twice) && (h in whole ==> whole[h] == twice[h]) {
      WindowAtEdge(minutes, from, edge, to, h);
    }
    SameMap(whole, twice);
  }

  /** Splitting the hourly window at an hour edge gives the same table, and so does running it again. */
  lemma RollHoursSplits(table: map<int, HourAgg>, minutes: map<int, MinuteAgg>, from: int, edge: int, to: int)
    requires from <= 3600 * edge <= to
    ensures RollHours(RollHours(table, minutes, from, 3600 * edge), minutes, 3600 * edge, to)
         == RollHours(table, minutes, from, to)
    ensures RollHours(RollHours(table, minutes, from, to), minutes, from, to) == RollHours(table, minutes, from, to)
  {
    var row := HourRow;
    forall h
      ensures row(InWindow(minutes, from, to), h) ==
              row(if h < edge then InWindow(minutes, from, 3600 * edge) else InWindow(minutes, 3600 * edge, to), h)
    {
      WindowAtEdge(minutes, from, edge, to, h);
      HourLocal(InWindow(minutes, from, to),
                if h < edge then InWindow(minutes, from, 3600 * edge) else InWindow(minutes, 3600 * edge, to), h);
    }
    RollHoursBySplits(table, minutes, from, edge, to, row);
  }

  // ---- minute rollup then hour rollup = grouping the raw rows by hour ---------------

  function RowsOfMinute(raw: seq<Row>, m: int): seq<Row> {
    Slice(raw, 60.0 * m as real, 60.0 * (m + 1) as real)
  }

  function RowsOfHour(raw: seq<Row>, h: int): seq<Row> {
    Slice(raw, 3600.0 * h as real, 3600.0 * (h + 1) as real)
  }

  /** The minute table holds, for each minute of the hour, exactly the aggregate of its raw rows. */
  predicate Mirrors(minutes: map<int, MinuteAgg>, raw: seq<Row>, h: int) {
    forall m :: 60 * h <= m < 60 * h + 60 ==>
      && (m in minutes <==> RowsOfMinute(raw, m) != [])
      && (m in minutes ==> minutes[m] == Aggregate(RowsOfMinute(raw, m)))
  }

  /** A minute rollup over any window that is bucket-aligned and covers the hour makes it mirror the rows. */
  lemma RolledMirrors(table: map<int, MinuteAgg>, raw: seq<Row>, from: real, to: real, h: int)
    requires Epoch(raw) && from <= 3600.0 * h as real && 3600.0 * (h + 1) as real <= to
    requires forall m :: 60 * h <= m < 60 * h + 60 && m in table ==> RowsOfMinute(raw, m) != []
    ensures Mirrors(RollMinutes(table, raw, from, to), raw, h)
  {
    forall m | 60 * h <= m < 60 * h + 60
      ensures var t := RollMinutes(table, raw, from, to);
              (m in t <==> RowsOfMinute(raw, m) != []) && (m in t ==> t[m] == Aggregate(RowsOfMinute(raw, m)))
    {
      GroupIsSlice(raw, from, to, m);
      GroupNonEmpty(raw, from, to, m);
    }
  }

  /**
   * The metric is filled equally densely in every minute that has rows: of the hour's rows the
   * same share carries it as of each minute's.  It holds when no row misses the metric.
   */
  predicate EvenlyFilled(raw: seq<Row>, h: int) {
    var rows := RowsOfHour(raw, h);
    forall m :: 60 * h <= m < 60 * h + 60 ==>
      |RowsOfMinute(raw, m)| * Present(rows) == Present(RowsOfMinute(raw, m)) * |rows|
  }

  lemma {:induction false} PresentBound(rows: seq<Row>)
    ensures Present(rows) <= |rows|
    ensures (forall r :: r in rows ==> r.v.Some?) ==> Present(rows) == |rows|
  {
    if rows != [] {
      PresentBound(rows[1..]);
      assert forall r :: r in rows[1..] ==> r in rows;
    }
  }

  lemma {:induction false} SliceSubset(rows: seq<Row>, lo: real, hi: real)
    ensures forall r :: r in Slice(rows, lo, hi) ==> r in rows
  {
    if rows != [] {
      SliceSubset(rows[1..], lo, hi);
      assert rows == [rows[0]] + rows[1..];
    }
  }

  /** A metric present in every row is evenly filled. */
  lemma FullIsEven(raw: seq<Row>, h: int)
    requires forall r :: r in raw ==> r.v.Some?
    ensures EvenlyFilled(raw, h)
  {
    SliceSubset(raw, 3600.0 * h as real, 3600.0 * (h + 1) as real);
    PresentBound(RowsOfHour(raw, h));
    forall m | 60 * h <= m < 60 * h + 60
      ensures |RowsOfMinute(raw, m)| * Present(RowsOfHour(raw, h)) ==
              Present(RowsOfMinute(raw, m)) * |RowsOfHour(raw, h)|
    {
      SliceSubset(raw, 60.0 * m as real, 60.0 * (m + 1) as real);
      PresentBound(RowsOfMinute(raw, m));
    }
  }

  /** Weight of one minute: its mean times its rows is its sum, scaled by rows / present. */
  lemma MeanTimesRows(t: real, l: nat, q: nat, n: nat, p: nat)
    requires q > 0 && p > 0 && l * p == q * n
    ensures t / q as real * l as real == t * (n as real / p as real)
  {
    IntProduct(l, p, q, n);
    CrossDivide(t, l as real, q as real, n as real, p as real);
  }

  lemma IntProduct(a: int, b: int, c: int, d: int)
    requires a * b == c * d
    ensures a as real * b as real == c as real * d as real
  {
    assert (a * b) as real == a as real * b as real;
    assert (c * d) as real == c as real * d as real;
  }

  lemma CrossDivide(t: real, l: real, q: real, n: real, p: real)
    requires q > 0.0 && p > 0.0 && l * p == q * n
    ensures t / q * l == t * (n / p)
  {
    var u, w := t / q, n / p;
    assert u * q == t && w * p == n;
    assert l * p == q * (w * p) == (q * w) * p;
    CancelFactor(l, q * w, p);
    assert u * l == u * (q * w) == (u * q) * w;
  }

  lemma CancelFactor(x: real, y: real, p: real)
    requires p > 0.0 && x * p == y * p
    ensures x == y
  {
    if x < y { ScaleStrict(x, y, p); }
    if y < x { ScaleStrict(y, x, p); }
  }

  lemma {:induction false} EmptySlice(rows: seq<Row>, at: real)
    ensures Slice(rows, at, at) == []
  {
    if rows != [] { EmptySlice(rows[1..], at); }
  }

  lemma {:induction false} NoneIsZero(rows: seq<Row>)
    requires Present(rows) == 0
    ensures Total(rows) == 0.0
  {
    if rows != [] { NoneIsZero(rows[1..]); }
  }

  function RawSums(raw: seq<Row>): int -> real {
    m => Total(RowsOfMinute(raw, m))
  }

  lemma SliceGrows(raw: seq<Row>, lo: int, m: int)
    requires lo <= m
    ensures var before, part := Slice(raw, 60.0 * lo as real, 60.0 * m as real), RowsOfMinute(raw, m);
            var longer := Slice(raw, 60.0 * lo as real, 60.0 * (m + 1) as real);
            && Total(longer) == Total(before) + Total(part)
            && |longer| == |before| + |part|
            && Present(longer) == Present(before) + Present(part)
  {
    SliceSplits(raw, 60.0 * lo as real, 60.0 * m as real, 60.0 * (m + 1) as real);
  }

  /** The raw sums of consecutive minutes add up to the raw sum of the stretch they cover. */
  lemma {:induction false} PrefixSums(raw: seq<Row>, f: int -> real, lo: int, k: nat)
    requires forall m :: lo <= m < lo + k ==> f(m) == Total(RowsOfMinute(raw, m))
    ensures SumOver(f, lo, lo + k) == Total(Slice(raw, 60.0 * lo as real, 60.0 * (lo + k) as real))
  {
    if k == 0 {
      EmptySlice(raw, 60.0 * lo as real);
    } else {
      PrefixSums(raw, f, lo, k - 1);
      SliceGrows(raw, lo, lo + k - 1);
    }
  }

  lemma {:induction false} SumScaled(f: int -> real, g: int -> real, ratio: real, lo: int, hi: int)
    requires forall m :: lo <= m < hi ==> f(m) == g(m) * ratio
    ensures SumOver(f, lo, hi) == SumOver(g, lo, hi) * ratio
    decreases hi - lo
  {
    if lo < hi {
      SumScaled(f, g, ratio, lo, hi - 1);
      Distribute(SumOver(g, lo, hi - 1), g(hi - 1), ratio);
    }
  }

  lemma {:induction false} PrefixSamples(minutes: map<int, MinuteAgg>, raw: seq<Row>, lo: int, k: nat)
    requires forall m :: lo <= m < lo + k ==> SamplesAt(minutes, m) == |RowsOfMinute(raw, m)|
    ensures Samples(minutes, lo, lo + k) == |Slice(raw, 60.0 * lo as real, 60.0 * (lo + k) as real)|
  {
    if k == 0 {
      EmptySlice(raw, 60.0 * lo as real);
    } else {
      var m := lo + (k - 1);
      PrefixSamples(minutes, raw, lo, k - 1);
      SliceGrows(raw, lo, m);
      assert m + 1 == lo + k;
    }
  }

  lemma {:induction false} SomeMinuteHasMetric(raw: seq<Row>, lo: int, k: nat) returns (m: int)
    requires Present(Slice(raw, 60.0 * lo as real, 60.0 * (lo + k) as real)) > 0
    ensures lo <= m < lo + k && Present(RowsOfMinute(raw, m)) > 0
  {
    if k == 0 {
      EmptySlice(raw, 60.0 * lo as real);
    } else {
      m := lo + k - 1;
      SliceGrows(raw, lo, m);
      if Present(RowsOfMinute(raw, m)) == 0 { m := SomeMinuteHasMetric(raw, lo, k - 1); }
    }
  }

  lemma WeightOf(minutes: map<int, MinuteAgg>, raw: seq<Row>, h: int, m: int)
    requires Mirrors(minutes, raw, h) && 60 * h <= m < 60 * h + 60
    ensures var part := RowsOfMinute(raw, m);
            Weight(minutes, m) == if Present(part) > 0 then Mean(part).value * |part| as real else 0.0
  {
    PresentBound(RowsOfMinute(raw, m));
  }

  lemma MeanScaled(part: seq<Row>, n: nat, p: nat)
    requires Present(part) > 0 && p > 0 && |part| * p == Present(part) * n
    ensures Mean(part).value * |part| as real == Total(part) * (n as real / p as real)
  {
    MeanTimesRows(Total(part), |part|, Present(part), n, p);
  }

  /** In an evenly filled hour each minute weighs its raw sum, scaled by one ratio common to the hour. */
  lemma EvenWeight(minutes: map<int, MinuteAgg>, raw: seq<Row>, h: int, m: int)
    requires Mirrors(minutes, raw, h) && EvenlyFilled(raw, h) && 60 * h <= m < 60 * h + 60
    requires Present(RowsOfHour(raw, h)) > 0
    ensures var hour := RowsOfHour(raw, h);
            Weight(minutes, m) == Total(RowsOfMinute(raw, m)) * (|hour| as real / Present(hour) as real)
  {
    var part := RowsOfMinute(raw, m);
    WeightOf(minutes, raw, h, m);
    if Present(part) > 0 {
      MeanScaled(part, |RowsOfHour(raw, h)|, Present(RowsOfHour(raw, h)));
    } else {
      NoneIsZero(part);
    }
  }

  lemma RatioBack(s: real, t: real, n: real, p: real, ratio: real)
    requires n > 0.0 && p > 0.0 && ratio == n / p && s == t * ratio
    ensures s / n == t / p
  {
    var w := t / p;
    assert ratio * p == n && w * p == t;
    assert s == (w * p) * ratio == w * (p * ratio) == w * n;
  }

  lemma HourEdges(h: int)
    ensures 60.0 * (60 * h) as real == 3600.0 * h as real
    ensures 60.0 * (60 * h + 60) as real == 3600.0 * (h + 1) as real
  {
  }

  lemma HourSamples(minutes: map<int, MinuteAgg>, raw: seq<Row>, h: int)
    requires Mirrors(minutes, raw, h)
    ensures Samples(minutes, 60 * h, 60 * h + 60) == |RowsOfHour(raw, h)|
  {
    forall m | 60 * h <= m < 60 * h + 60
      ensures SamplesAt(minutes, m) == |RowsOfMinute(raw, m)|
    {
    }
    PrefixSamples(minutes, raw, 60 * h, 60);
    HourEdges(h);
  }

  lemma ScaledTotals(raw: seq<Row>, w: int -> real, ratio: real, h: int)
    requires forall m :: 60 * h <= m < 60 * h + 60 ==> w(m) == RawSums(raw)(m) * ratio
    ensures SumOver(w, 60 * h, 60 * h + 60) == Total(RowsOfHour(raw, h)) * ratio
  {
    SumScaled(w, RawSums(raw), ratio, 60 * h, 60 * h + 60);
    HourTotals(raw, h);
  }

  lemma HourTotals(raw: seq<Row>, h: int)
    ensures SumOver(RawSums(raw), 60 * h, 60 * h + 60) == Total(RowsOfHour(raw, h))
  {
    PrefixSums(raw, RawSums(raw), 60 * h, 60);
    HourEdges(h);
  }

  lemma HourWeights(minutes: map<int, MinuteAgg>, raw: seq<Row>, h: int, ratio: real)
    requires Mirrors(minutes, raw, h) && EvenlyFilled(raw, h)
    requires Present(RowsOfHour(raw, h)) > 0
    requires ratio == |RowsOfHour(raw, h)| as real / Present(RowsOfHour(raw, h)) as real
    ensures SumOver(Weights(minutes), 60 * h, 60 * h + 60) == Total(RowsOfHour(raw, h)) * ratio
  {
    var w := Weights(minutes);
    forall m | 60 * h <= m < 60 * h + 60 ensures w(m) == RawSums(raw)(m) * ratio {
      EvenWeight(minutes, raw, h, m);
    }
    ScaledTotals(raw, w, ratio, h);
  }

  lemma Distribute(x: real, y: real, r: real)
    ensures (x + y) * r == x * r + y * r
  {
  }

  /** One hour's row over minutes that mirror the raw rows. */
  lemma HourRowExact(minutes: map<int, MinuteAgg>, raw: seq<Row>, h: int)
    requires Mirrors(minutes, raw, h) && EvenlyFilled(raw, h)
    ensures HourRow(minutes, h) == HourAgg(Mean(RowsOfHour(raw, h)), |RowsOfHour(raw, h)|)
  {
    HourSamples(minutes, raw, h);
    PresentBound(RowsOfHour(raw, h));
    if Present(RowsOfHour(raw, h)) > 0 {
      EvenHourMean(minutes, raw, h);
    } else {
      NoAverages(minutes, raw, h);
    }
  }

  /** Some minute of the stretch has rows exactly when the stretch has samples. */
  lemma {:induction false} SomeMinuteSampled(minutes: map<int, MinuteAgg>, lo: int, hi: int)
    ensures Samples(minutes, lo, hi) > 0 <==> exists m :: lo <= m < hi && SamplesAt(minutes, m) > 0
    decreases hi - lo
  {
    if lo < hi {
      SomeMinuteSampled(minutes, lo, hi - 1);
      if SamplesAt(minutes, hi - 1) == 0 && Samples(minutes, lo, hi) > 0 {
        var m :| lo <= m < hi - 1 && SamplesAt(minutes, m) > 0;
      }
    }
  }

  /** The hour rollup writes a row for the hour exactly when the hour has raw rows. */
  lemma HourWritten(minutes: map<int, MinuteAgg>, raw: seq<Row>, from: int, to: int, h: int)
    requires Mirrors(minutes, raw, h) && from <= 3600 * h && 3600 * (h + 1) <= to
    ensures h in Hours(InWindow(minutes, from, to)) <==> RowsOfHour(raw, h) != []
    ensures AgreeOn(InWindow(minutes, from, to), minutes, 60 * h, 60 * h + 60)
  {
    var seen := InWindow(minutes, from, to);
    HourSamples(minutes, raw, h);
    SomeMinuteSampled(minutes, 60 * h, 60 * h + 60);
    if h in Hours(seen) {
      var m :| m in seen && m / 60 == h;
      assert SamplesAt(minutes, m) == |RowsOfMinute(raw, m)| > 0;
    }
    if RowsOfHour(raw, h) != [] {
      var m :| 60 * h <= m < 60 * h + 60 && SamplesAt(minutes, m) > 0;
      assert m in seen && m / 60 == h;
    }
  }

  /**
   * Rolling raw rows into minutes, and then the minutes into hours, over windows that cover the hour,
   * stores the mean of the raw rows of that hour and their number, for every evenly filled metric; an
   * hour without rows keeps what the table held.
   */
  lemma TwoLevelRollupExact(minutes: map<int, MinuteAgg>, hours: map<int, HourAgg>, raw: seq<Row>,
                            from: real, to: real, hourFrom: int, hourTo: int, h: int)
    requires Epoch(raw) && EvenlyFilled(raw, h)
    requires from <= 3600.0 * h as real && 3600.0 * (h + 1) as real <= to
    requires hourFrom <= 3600 * h && 3600 * (h + 1) <= hourTo
    requires forall m :: 60 * h <= m < 60 * h + 60 && m in minutes ==> RowsOfMinute(raw, m) != []
    ensures var table := RollHours(hours, RollMinutes(minutes, raw, from, to), hourFrom, hourTo);
            if RowsOfHour(raw, h) != []
            then h in table && table[h] == HourAgg(Mean(RowsOfHour(raw, h)), |RowsOfHour(raw, h)|)
            else (h in table <==> h in hours) && (h in hours ==> table[h] == hours[h])
  {
    var rolled := RollMinutes(minutes, raw, from, to);
    RolledMirrors(minutes, raw, from, to, h);
    HourWritten(rolled, raw, hourFrom, hourTo, h);
    HourLocal(InWindow(rolled, hourFrom, hourTo), rolled, h);
    HourRowExact(rolled, raw, h);
  }

  lemma EvenHourMean(minutes: map<int, MinuteAgg>, raw: seq<Row>, h: int)
    requires Mirrors(minutes, raw, h) && EvenlyFilled(raw, h)
    requires Present(RowsOfHour(raw, h)) > 0
    ensures HourMean(minutes, h) == Mean(RowsOfHour(raw, h))
  {
    PresentBound(RowsOfHour(raw, h));
    HourMeanValue(minutes, raw, h);
    MeanValue(RowsOfHour(raw, h));
    EvenRatio(minutes, raw, h);
  }

  /** In an evenly filled hour the weighted sum over the rows is the raw sum over the readings. */
  lemma EvenRatio(minutes: map<int, MinuteAgg>, raw: seq<Row>, h: int)
    requires Mirrors(minutes, raw, h) && EvenlyFilled(raw, h)
    requires Present(RowsOfHour(raw, h)) > 0 && |RowsOfHour(raw, h)| > 0
    ensures SumOver(Weights(minutes), 60 * h, 60 * h + 60) / |RowsOfHour(raw, h)| as real
         == Total(RowsOfHour(raw, h)) / Present(RowsOfHour(raw, h)) as real
  {
    var n, p, t := |RowsOfHour(raw, h)| as real, Present(RowsOfHour(raw, h)) as real, Total(RowsOfHour(raw, h));
    var ratio := n / p;
    HourWeights(minutes, raw, h, ratio);
    RatioBack(SumOver(Weights(minutes), 60 * h, 60 * h + 60), t, n, p, ratio);
  }

  lemma HourMeanValue(minutes: map<int, MinuteAgg>, raw: seq<Row>, h: int)
    requires Mirrors(minutes, raw, h) && Present(RowsOfHour(raw, h)) > 0
    ensures |RowsOfHour(raw, h)| > 0
    ensures HourMean(minutes, h) == Some(SumOver(Weights(minutes), 60 * h, 60 * h + 60) / |RowsOfHour(raw, h)| as real)
  {
    PresentBound(RowsOfHour(raw, h));
    HourSamples(minutes, raw, h);
    HourHasAverage(minutes, raw, h);
  }

  lemma MeanValue(rows: seq<Row>)
    requires Present(rows) > 0
    ensures Mean(rows) == Some(Total(rows) / Present(rows) as real)
  {
  }

  lemma HourHasAverage(minutes: map<int, MinuteAgg>, raw: seq<Row>, h: int)
    requires Mirrors(minutes, raw, h) && Present(RowsOfHour(raw, h)) > 0
    ensures AnyAverage(minutes, 60 * h, 60 * h + 60)
  {
    HourEdges(h);
    var m := SomeMinuteHasMetric(raw, 60 * h, 60);
    PresentBound(RowsOfMinute(raw, m));
    assert HasAverage(minutes, m);
  }

  lemma NoAverages(minutes: map<int, MinuteAgg>, raw: seq<Row>, h: int)
    requires Mirrors(minutes, raw, h) && Present(RowsOfHour(raw, h)) == 0
    ensures !AnyAverage(minutes, 60 * h, 60 * h + 60)
  {
    forall m | 60 * h <= m < 60 * h + 60 ensures !HasAverage(minutes, m) {
      HourEdges(h);
      SliceSplits(raw, 3600.0 * h as real, 60.0 * m as real, 3600.0 * (h + 1) as real);
      SliceSplits(raw, 60.0 * m as real, 60.0 * (m + 1) as real, 3600.0 * (h + 1) as real);
    }
  }

  // ---- without even filling it is not exact -------------------------------------------

  /** Same timestamps, the metric missing from the same rows; only its values may differ. */
  predicate SameShape(a: seq<Row>, b: seq<Row>) {
    && |a| == |b|
    && (a == [] || (a[0].ts == b[0].ts && a[0].v.Some? == b[0].v.Some? && SameShape(a[1..], b[1..])))
  }

  lemma {:induction false} SliceShape(a: seq<Row>, b: seq<Row>, lo: real, hi: real)
    requires SameShape(a, b)
    ensures |Slice(a, lo, hi)| == |Slice(b, lo, hi)| && Present(Slice(a, lo, hi)) == Present(Slice(b, lo, hi))
  {
    if a != [] {
      SliceShape(a[1..], b[1..], lo, hi);
      SliceHead(a, lo, hi);
      SliceHead(b, lo, hi);
    }
  }

  lemma SliceHead(rows: seq<Row>, lo: real, hi: real)
    requires rows != []
    ensures var rest, all := Slice(rows[1..], lo, hi), Slice(rows, lo, hi);
            if lo <= rows[0].ts < hi
            then |all| == |rest| + 1 && Present(all) == Present(rest) + (if rows[0].v.Some? then 1 else 0)
                 && Total(all) == Total(rest) + (if rows[0].v.Some? then rows[0].v.value else 0.0)
            else all == rest
  {
    var rest := Slice(rows[1..], lo, hi);
    assert ([rows[0]] + rest)[1..] == rest;
  }

  lemma EvenShape(a: seq<Row>, b: seq<Row>, h: int)
    requires SameShape(a, b)
    ensures EvenlyFilled(a, h) ==> EvenlyFilled(b, h)
  {
    SliceShape(a, b, 3600.0 * h as real, 3600.0 * (h + 1) as real);
    forall m | 60 * h <= m < 60 * h + 60
      ensures |RowsOfMinute(a, m)| == |RowsOfMinute(b, m)| && Present(RowsOfMinute(a, m)) == Present(RowsOfMinute(b, m))
    {
      SliceShape(a, b, 60.0 * m as real, 60.0 * (m + 1) as real);
    }
  }

  predicate InMinute(ts: real, m: int) {
    60.0 * m as real <= ts < 60.0 * (m + 1) as real
  }

  /** The same rows, the metric reading 1 throughout minute m and 0 elsewhere. */
  function Spike(raw: seq<Row>, m: int): seq<Row> {
    if raw == [] then []
    else [Row(raw[0].ts, if raw[0].v.Some? then Some(if InMinute(raw[0].ts, m) then 1.0 else 0.0) else None)]
         + Spike(raw[1..], m)
  }

  lemma {:induction false} SpikeShape(raw: seq<Row>, m: int)
    ensures SameShape(raw, Spike(raw, m))
  {
    if raw != [] {
      SpikeShape(raw[1..], m);
      assert Spike(raw, m)[1..] == Spike(raw[1..], m);
    }
  }

  lemma {:induction false} SpikeTotal(raw: seq<Row>, m: int, k: int)
    ensures Total(RowsOfMinute(Spike(raw, m), k)) == if k == m then Present(RowsOfMinute(raw, m)) as real else 0.0
  {
    if raw != [] {
      var s := Spike(raw, m);
      SpikeTotal(raw[1..], m, k);
      assert s[1..] == Spike(raw[1..], m);
      SliceHead(s, 60.0 * k as real, 60.0 * (k + 1) as real);
      SliceHead(raw, 60.0 * k as real, 60.0 * (k + 1) as real);
      if InMinute(raw[0].ts, m) && InMinute(raw[0].ts, k) { MinutesApart(raw[0].ts, m, k); }
    }
  }

  lemma MinutesApart(ts: real, m: int, k: int)
    requires InMinute(ts, m) && InMinute(ts, k)
    ensures m == k
  {
    assert m as real < (k + 1) as real && k as real < (m + 1) as real;
  }

  lemma {:induction false} SumOne(f: int -> real, lo: int, hi: int, m: int)
    requires forall k :: lo <= k < hi && k != m ==> f(k) == 0.0
    ensures SumOver(f, lo, hi) == if lo <= m < hi then f(m) else 0.0
    decreases hi - lo
  {
    if lo < hi { SumOne(f, lo, hi - 1, m); }
  }

  lemma DivSelf(n: real)
    requires n > 0.0
    ensures n / n == 1.0
  {
  }

  lemma ZeroDiv(n: real)
    requires n > 0.0
    ensures 0.0 / n == 0.0
  {
  }

  lemma TimesOne(x: real, n: real)
    requires x == 1.0
    ensures x * n == n
  {
  }

  lemma TimesZero(x: real, n: real)
    requires x == 0.0
    ensures x * n == 0.0
  {
  }

  lemma MeanOfOnes(part: seq<Row>)
    requires Present(part) > 0 && Total(part) == Present(part) as real
    ensures Mean(part).value * |part| as real == |part| as real
  {
    MeanValue(part);
    DivSelf(Present(part) as real);
    TimesOne(Mean(part).value, |part| as real);
  }

  lemma MeanOfZeros(part: seq<Row>)
    requires Present(part) > 0 && Total(part) == 0.0
    ensures Mean(part).value * |part| as real == 0.0
  {
    MeanValue(part);
    ZeroDiv(Present(part) as real);
    TimesZero(Mean(part).value, |part| as real);
  }

  lemma OnesWeight(minutes: map<int, MinuteAgg>, raw: seq<Row>, h: int, k: int)
    requires Mirrors(minutes, raw, h) && 60 * h <= k < 60 * h + 60
    requires Present(RowsOfMinute(raw, k)) > 0
    requires Total(RowsOfMinute(raw, k)) == Present(RowsOfMinute(raw, k)) as real
    ensures Weight(minutes, k) == |RowsOfMinute(raw, k)| as real
  {
    WeightOf(minutes, raw, h, k);
    MeanOfOnes(RowsOfMinute(raw, k));
  }

  lemma ZerosWeight(minutes: map<int, MinuteAgg>, raw: seq<Row>, h: int, k: int)
    requires Mirrors(minutes, raw, h) && 60 * h <= k < 60 * h + 60
    requires Total(RowsOfMinute(raw, k)) == 0.0
    ensures Weight(minutes, k) == 0.0
  {
    WeightOf(minutes, raw, h, k);
    if Present(RowsOfMinute(raw, k)) > 0 { MeanOfZeros(RowsOfMinute(raw, k)); }
  }

  lemma SpikeWeight(minutes: map<int, MinuteAgg>, raw: seq<Row>, h: int, m: int, k: int)
    requires Mirrors(minutes, Spike(raw, m), h) && 60 * h <= k < 60 * h + 60
    requires Present(RowsOfMinute(raw, m)) > 0
    ensures Weight(minutes, k) == if k == m then |RowsOfMinute(raw, m)| as real else 0.0
  {
    SpikeTotal(raw, m, k);
    SpikeMinute(raw, m, k);
    if k == m { OnesWeight(minutes, Spike(raw, m), h, k); } else { ZerosWeight(minutes, Spike(raw, m), h, k); }
  }

  lemma SpikeMinute(raw: seq<Row>, m: int, k: int)
    ensures |RowsOfMinute(Spike(raw, m), k)| == |RowsOfMinute(raw, k)|
    ensures Present(RowsOfMinute(Spike(raw, m), k)) == Present(RowsOfMinute(raw, k))
  {
    SpikeShape(raw, m);
    SliceShape(raw, Spike(raw, m), 60.0 * k as real, 60.0 * (k + 1) as real);
  }

  lemma SpikeHour(raw: seq<Row>, m: int, h: int)
    ensures |RowsOfHour(Spike(raw, m), h)| == |RowsOfHour(raw, h)|
    ensures Present(RowsOfHour(Spike(raw, m), h)) == Present(RowsOfHour(raw, h))
  {
    SpikeShape(raw, m);
    SliceShape(raw, Spike(raw, m), 3600.0 * h as real, 3600.0 * (h + 1) as real);
  }

  lemma SpikeHourTotal(raw: seq<Row>, h: int, m: int)
    requires 60 * h <= m < 60 * h + 60
    ensures Total(RowsOfHour(Spike(raw, m), h)) == Present(RowsOfMinute(raw, m)) as real
  {
    var f := RawSums(Spike(raw, m));
    forall k ensures f(k) == if k == m then Present(RowsOfMinute(raw, m)) as real else 0.0 {
      SpikeTotal(raw, m, k);
    }
    SumOne(f, 60 * h, 60 * h + 60, m);
    HourTotals(Spike(raw, m), h);
  }

  lemma SpikeHourWeight(minutes: map<int, MinuteAgg>, raw: seq<Row>, h: int, m: int)
    requires Mirrors(minutes, Spike(raw, m), h) && 60 * h <= m < 60 * h + 60
    requires Present(RowsOfMinute(raw, m)) > 0
    ensures SumOver(Weights(minutes), 60 * h, 60 * h + 60) == |RowsOfMinute(raw, m)| as real
  {
    var f := Weights(minutes);
    forall k | 60 * h <= k < 60 * h + 60 ensures f(k) == if k == m then |RowsOfMinute(raw, m)| as real else 0.0 {
      SpikeWeight(minutes, raw, h, m, k);
    }
    SumOne(f, 60 * h, 60 * h + 60, m);
  }

  /** On the spike the two levels give the minute's share of rows, the raw rows its share of readings. */
  lemma SpikeMeans(minutes: map<int, MinuteAgg>, raw: seq<Row>, h: int, m: int)
    requires Mirrors(minutes, Spike(raw, m), h) && 60 * h <= m < 60 * h + 60
    requires Present(RowsOfMinute(raw, m)) > 0 && Present(RowsOfHour(raw, h)) > 0 && RowsOfHour(raw, h) != []
    ensures HourMean(minutes, h) == Some(|RowsOfMinute(raw, m)| as real / |RowsOfHour(raw, h)| as real)
    ensures Mean(RowsOfHour(Spike(raw, m), h)) ==
            Some(Present(RowsOfMinute(raw, m)) as real / Present(RowsOfHour(raw, h)) as real)
  {
    SpikeHour(raw, m, h);
    SpikeHourTotal(raw, h, m);
    SpikeHourWeight(minutes, raw, h, m);
    HourSamples(minutes, Spike(raw, m), h);
    HourHasAverage(minutes, Spike(raw, m), h);
  }

  /** Rows times p beyond readings times n: zero for an evenly filled stretch of an hour of n rows, p readings. */
  function Excess(s: seq<Row>, n: nat, p: nat): int {
    |s| * p - Present(s) * n
  }

  lemma ExcessAdds(a: seq<Row>, b: seq<Row>, all: seq<Row>, n: nat, p: nat)
    requires |all| == |a| + |b| && Present(all) == Present(a) + Present(b)
    ensures Excess(all, n, p) == Excess(a, n, p) + Excess(b, n, p)
  {
    DistributeBoth(|a|, |b|, Present(a), Present(b), n, p);
  }

  lemma DistributeBoth(l1: int, l2: int, q1: int, q2: int, n: int, p: int)
    ensures (l1 + l2) * p - (q1 + q2) * n == (l1 * p - q1 * n) + (l2 * p - q2 * n)
  {
  }

  /** Minutes without the metric have excess, and nothing makes up for it when the others are even. */
  lemma {:induction false} ExcessGrows(raw: seq<Row>, lo: int, k: nat, n: nat, p: nat, bad: int)
    requires forall m :: lo <= m < lo + k ==> Excess(RowsOfMinute(raw, m), n, p) >= 0
    ensures var s := Slice(raw, 60.0 * lo as real, 60.0 * (lo + k) as real);
            && Excess(s, n, p) >= 0
            && (lo <= bad < lo + k && Excess(RowsOfMinute(raw, bad), n, p) > 0 ==> Excess(s, n, p) > 0)
  {
    if k == 0 {
      EmptySlice(raw, 60.0 * lo as real);
    } else {
      var m := lo + k - 1;
      ExcessGrows(raw, lo, k - 1, n, p, bad);
      SliceGrows(raw, lo, m);
      ExcessAdds(Slice(raw, 60.0 * lo as real, 60.0 * m as real), RowsOfMinute(raw, m),
                 Slice(raw, 60.0 * lo as real, 60.0 * (m + 1) as real), n, p);
    }
  }

  lemma UnevenWhereFilled(raw: seq<Row>, h: int) returns (m: int)
    requires !EvenlyFilled(raw, h)
    ensures 60 * h <= m < 60 * h + 60 && Present(RowsOfMinute(raw, m)) > 0
    ensures |RowsOfMinute(raw, m)| * Present(RowsOfHour(raw, h)) != Present(RowsOfMinute(raw, m)) * |RowsOfHour(raw, h)|
  {
    var n, p := |RowsOfHour(raw, h)|, Present(RowsOfHour(raw, h));
    m :| 60 * h <= m < 60 * h + 60 && |RowsOfMinute(raw, m)| * p != Present(RowsOfMinute(raw, m)) * n;
    if Present(RowsOfMinute(raw, m)) == 0 {
      NotAllEven(raw, h, m);
      m :| UnevenAt(raw, h, m);
    }
  }

  predicate UnevenAt(raw: seq<Row>, h: int, m: int) {
    && 60 * h <= m < 60 * h + 60 && Present(RowsOfMinute(raw, m)) > 0
    && |RowsOfMinute(raw, m)| * Present(RowsOfHour(raw, h)) != Present(RowsOfMinute(raw, m)) * |RowsOfHour(raw, h)|
  }

  lemma NotAllEven(raw: seq<Row>, h: int, bad: int)
    requires 60 * h <= bad < 60 * h + 60 && Present(RowsOfMinute(raw, bad)) == 0
    requires |RowsOfMinute(raw, bad)| * Present(RowsOfHour(raw, h)) != 0
    ensures exists m :: UnevenAt(raw, h, m)
  {
    var n, p := |RowsOfHour(raw, h)|, Present(RowsOfHour(raw, h));
    if forall m :: !UnevenAt(raw, h, m) {
      forall m | 60 * h <= m < 60 * h + 60 ensures Excess(RowsOfMinute(raw, m), n, p) >= 0 {
        assert !UnevenAt(raw, h, m);
      }
      HourEdges(h);
      assert Excess(RowsOfHour(raw, h), n, p) == 0;
      ExcessGrows(raw, 60 * h, 60, n, p, bad);
    }
  }

  lemma SharesDiffer(l: nat, q: nat, n: nat, p: nat)
    requires n > 0 && p > 0 && l * p != q * n
    ensures l as real / n as real != q as real / p as real
  {
    if l as real / n as real == q as real / p as real {
      CrossMultiply(l as real, n as real, q as real, p as real);
      IntProduct(l, p, q, n);
    }
  }

  lemma CrossMultiply(l: real, n: real, q: real, p: real)
    requires n > 0.0 && p > 0.0 && l / n == q / p
    ensures l * p == q * n
  {
    var x := l / n;
    assert l == x * n && q == x * p;
  }

  /**
   * The hourly mean is exact for every reading the metric could have had if and only if the hour is
   * evenly filled: a metric missing from some minutes more than from others skews it.
   */
  lemma ExactIffEvenlyFilled(raw: seq<Row>, h: int)
    ensures EvenlyFilled(raw, h) <==>
            forall other: seq<Row>, minutes: map<int, MinuteAgg> ::
              SameShape(raw, other) && Mirrors(minutes, other, h) ==>
              HourMean(minutes, h) == Mean(RowsOfHour(other, h))
  {
    if EvenlyFilled(raw, h) {
      forall other: seq<Row>, minutes: map<int, MinuteAgg> | SameShape(raw, other) && Mirrors(minutes, other, h)
        ensures HourMean(minutes, h) == Mean(RowsOfHour(other, h))
      {
        EvenShape(raw, other, h);
        HourRowExact(minutes, other, h);
      }
    } else {
      var m := UnevenWhereFilled(raw, h);
      var spike, minutes := SpikeSkews(raw, h, m);
    }
  }

  lemma SpikeSkews(raw: seq<Row>, h: int, m: int) returns (other: seq<Row>, minutes: map<int, MinuteAgg>)
    requires UnevenAt(raw, h, m)
    ensures SameShape(raw, other) && Mirrors(minutes, other, h)
    ensures HourMean(minutes, h) != Mean(RowsOfHour(other, h))
  {
    other := Spike(raw, m);
    minutes := map k | 60 * h <= k < 60 * h + 60 && RowsOfMinute(other, k) != [] :: Aggregate(RowsOfMinute(other, k));
    SpikeShape(raw, m);
    MinuteInHour(raw, h, m);
    SpikeMeans(minutes, raw, h, m);
    SharesDiffer(|RowsOfMinute(raw, m)|, Present(RowsOfMinute(raw, m)),
                 |RowsOfHour(raw, h)|, Present(RowsOfHour(raw, h)));
  }

  lemma MinuteInHour(raw: seq<Row>, h: int, m: int)
    requires 60 * h <= m < 60 * h + 60
    ensures Present(RowsOfMinute(raw, m)) <= Present(RowsOfHour(raw, h))
    ensures Present(RowsOfHour(raw, h)) <= |RowsOfHour(raw, h)|
  {
    HourEdges(h);
    PartPresent(raw, 3600.0 * h as real, 60.0 * m as real, 60.0 * (m + 1) as real, 3600.0 * (h + 1) as real);
    PresentBound(RowsOfHour(raw, h));
  }

  lemma PartPresent(raw: seq<Row>, lo: real, from: real, to: real, hi: real)
    requires lo <= from <= to <= hi
    ensures Present(Slice(raw, from, to)) <= Present(Slice(raw, lo, hi))
  {
    SliceSplits(raw, lo, from, hi);
    SliceSplits(raw, from, to, hi);
  }
}
