/**
 * The chunked prune and the decimated read (backend/genwatch/db.py).
 */
module Storage {
  import opened Prelude

  /** Rows of a table that a prune looks at: a timestamp and whether the extra condition selects it. */
  datatype Record = Record(id: nat, ts: real, prunable: bool)

  predicate Doomed(r: Record, olderThan: real) {
    r.ts < olderThan && r.prunable
  }

  /** The rows a prune must leave, in order. */
  function Kept(rows: seq<Record>, olderThan: real): seq<Record> {
    if rows == [] then []
    else (if Doomed(rows[0], olderThan) then [] else [rows[0]]) + Kept(rows[1..], olderThan)
  }

  function CountDoomed(rows: seq<Record>, olderThan: real): nat {
    if rows == [] then 0
    else (if Doomed(rows[0], olderThan) then 1 else 0) + CountDoomed(rows[1..], olderThan)
  }

  lemma {:induction false} KeptAppend(a: seq<Record>, b: seq<Record>, olderThan: real)
    ensures Kept(a + b, olderThan) == Kept(a, olderThan) + Kept(b, olderThan)
    ensures CountDoomed(a + b, olderThan) == CountDoomed(a, olderThan) + CountDoomed(b, olderThan)
  {
    if a == [] {
      assert a + b == b;
    } else {
      assert (a + b)[1..] == a[1..] + b;
      KeptAppend(a[1..], b, olderThan);
    }
  }

  lemma {:induction false} NoneDoomed(rows: seq<Record>, olderThan: real)
    requires CountDoomed(rows, olderThan) == 0
    ensures Kept(rows, olderThan) == rows
  {
    if rows != [] { NoneDoomed(rows[1..], olderThan); }
  }

  /** Everything other writers appended while the first n chunks were being deleted. */
  function Arrived(arrivals: seq<seq<Record>>, n: nat): seq<Record>
    requires n <= |arrivals|
  {
    if n == 0 then [] else Arrived(arrivals, n - 1) + arrivals[n - 1]
  }

  /** What is deleted and what is left make up all that was ever seen. */
  predicate Accounted(total: nat, rows: seq<Record>, seen: seq<Record>, olderThan: real) {
    && total + CountDoomed(rows, olderThan) == CountDoomed(seen, olderThan)
    && Kept(rows, olderThan) == Kept(seen, olderThan)
  }

  lemma ArrivalAccounted(total: nat, rows: seq<Record>, seen: seq<Record>, more: seq<Record>, olderThan: real)
    requires Accounted(total, rows, seen, olderThan)
    ensures Accounted(total, rows + more, seen + more, olderThan)
  {
    KeptAppend(rows, more, olderThan);
    KeptAppend(seen, more, olderThan);
  }

  lemma ArrivedNext(start: seq<Record>, arrivals: seq<seq<Record>>, k: nat)
    requires k < |arrivals|
    ensures (start + Arrived(arrivals, k)) + arrivals[k] == start + Arrived(arrivals, k + 1)
  {
  }

  class Table {
    var rows: seq<Record>

    constructor (initial: seq<Record>)
      ensures rows == initial
    {
      rows := initial;
    }

    /** DELETE ... LIMIT chunk: removes doomed rows only, and stops short of chunk only when none are left. */
    method DeleteChunk(olderThan: real, chunk: nat) returns (n: nat)
      modifies this
      ensures n <= chunk && n + CountDoomed(rows, olderThan) == CountDoomed(old(rows), olderThan)
      ensures n < chunk ==> CountDoomed(rows, olderThan) == 0
      ensures Kept(rows, olderThan) == Kept(old(rows), olderThan)
    {
      n := 0;
      var done: seq<Record> := [];
      for i := 0 to |rows|
        invariant rows == old(rows)
        invariant n <= chunk && n + CountDoomed(done, olderThan) == CountDoomed(rows[..i], olderThan)
        invariant n < chunk ==> CountDoomed(done, olderThan) == 0
        invariant Kept(done, olderThan) == Kept(rows[..i], olderThan)
      {
        var r := rows[i];
        assert rows[..i + 1] == rows[..i] + [r];
        KeptAppend(rows[..i], [r], olderThan);
        KeptAppend(done, [r], olderThan);
        assert [r][1..] == [];
        if Doomed(r, olderThan) && n < chunk { n := n + 1; } else { done := done + [r]; }
      }
      assert rows[..|rows|] == rows;
      rows := done;
    }

    /**
     * The prune loop.  arrivals[k] is what other writers appended after chunk k, the write lock
     * being free in between.  Exactly the doomed rows go, and the total counts them.
     */
    method PruneChunked(olderThan: real, chunk: nat, arrivals: seq<seq<Record>>) returns (total: nat, ghost rounds: nat)
      requires chunk > 0
      modifies this
      ensures rounds <= |arrivals|
      ensures rows == Kept(old(rows) + Arrived(arrivals, rounds), olderThan)
      ensures total == CountDoomed(old(rows) + Arrived(arrivals, rounds), olderThan)
    {
      total, rounds := 0, 0;
      var k := 0;
      ghost var seen := rows;
      while true
        invariant k <= |arrivals| && seen == old(rows) + Arrived(arrivals, k)
        invariant Accounted(total, rows, seen, olderThan)
        decreases |arrivals| - k, CountDoomed(rows, olderThan)
      {
        var n := DeleteChunk(olderThan, chunk);
        total := total + n;
        if n < chunk {
          NoneDoomed(rows, olderThan);
          rounds := k;
          return;
        }
        if k < |arrivals| {
          ArrivalAccounted(total, rows, seen, arrivals[k], olderThan);
          rows := rows + arrivals[k];
          ArrivedNext(old(rows), arrivals, k);
          seen := seen + arrivals[k];
          k := k + 1;
        }
      }
    }
  }

  // ---- decimation ---------------------------------------------------------------------

  function Step(n: nat, maxPoints: nat): nat
    requires maxPoints > 0
  {
    MaxInt(1, n / maxPoints)
  }

  /** Index of the k-th row a stride picks. */
  function Position(k: nat, step: nat): nat {
    if k == 0 then 0 else Position(k - 1, step) + step
  }

  lemma {:induction false} PositionIsProduct(k: nat, step: nat)
    ensures Position(k, step) == k * step
  {
    if k > 0 {
      PositionIsProduct(k - 1, step);
      Expand(k, step);
    }
  }

  predicate PickedAt<T(==)>(rows: seq<T>, step: nat, k: nat, x: T) {
    Position(k, step) < |rows| && x == rows[Position(k, step)]
  }

  /** rows[::step] when there are more rows than points asked for. */
  method Decimate<T(==)>(rows: seq<T>, maxPoints: nat) returns (out: seq<T>)
    requires maxPoints > 0
    ensures |rows| <= maxPoints ==> out == rows
    ensures |rows| > maxPoints ==>
              forall k :: 0 <= k < |out| ==> PickedAt(rows, Step(|rows|, maxPoints), k, out[k])
    ensures |rows| > maxPoints ==> maxPoints <= |out| <= 2 * maxPoints - 1
  {
    if |rows| <= maxPoints { return rows; }
    out := Stride(rows, MaxInt(1, |rows| / maxPoints));
    StrideLength(|rows|, maxPoints, |out|);
  }

  /** rows[::step]. */
  method Stride<T(==)>(rows: seq<T>, step: nat) returns (out: seq<T>)
    requires step >= 1
    ensures |rows| <= Position(|out|, step) < |rows| + step
    ensures forall k :: 0 <= k < |out| ==> PickedAt(rows, step, k, out[k])
  {
    out := [];
    var i := 0;
    while i < |rows|
      invariant i == Position(|out|, step) && i < |rows| + step
      invariant forall k :: 0 <= k < |out| ==> PickedAt(rows, step, k, out[k])
    {
      assert PickedAt(rows, step, |out|, rows[i]);
      out := out + [rows[i]];
      i := i + step;
    }
  }

  /** A stride of n / m over n > m rows yields between m and 2m - 1 of them. */
  lemma StrideLength(n: nat, m: nat, len: nat)
    requires 0 < m < n && n <= Position(len, Step(n, m)) < n + Step(n, m)
    ensures m <= len <= 2 * m - 1
  {
    PositionIsProduct(len, Step(n, m));
    DecimatedLength(n, m, len);
  }

  lemma DecimatedLength(n: nat, m: nat, len: nat)
    requires 0 < m < n && n <= len * Step(n, m) < n + Step(n, m)
    ensures m <= len <= 2 * m - 1
  {
    StepBounds(n, m);
    TooShort(n, m, Step(n, m), len);
    TooLong(n, m, Step(n, m), len);
  }

  lemma StepBounds(n: nat, m: nat)
    requires 0 < m < n
    ensures Step(n, m) >= 1 && m * Step(n, m) <= n < m * Step(n, m) + m
  {
    var s := n / m;
    assert n == m * s + n % m;
    if s < 1 { TimesLe(s, 0, m); }
  }

  lemma TooShort(n: nat, m: nat, s: nat, len: nat)
    requires s >= 1 && m * s <= n <= len * s
    ensures len >= m
  {
    Expand(m, s);
    if len < m { TimesLe(len, m - 1, s); }
  }

  lemma TooLong(n: nat, m: nat, s: nat, len: nat)
    requires m >= 1 && s >= 1 && n < m * s + m && len * s < n + s
    ensures len <= 2 * m - 1
  {
    if len >= 2 * m {
      TimesLe(2 * m, len, s);
      Double(m, s);
      Expand(m, s);
      ProductNat(m - 1, s - 1);
    }
  }

  lemma Double(m: nat, s: nat)
    ensures (2 * m) * s == m * s + m * s
  {
  }

  lemma Expand(m: int, s: int)
    ensures (m - 1) * s == m * s - s
    ensures (m - 1) * (s - 1) == m * s - m - s + 1
  {
  }

  lemma TimesLe(x: int, y: int, k: nat)
    requires x <= y
    ensures x * k <= y * k
  {
  }

  lemma ProductNat(x: nat, y: nat)
    ensures x * y >= 0
  {
  }
}
