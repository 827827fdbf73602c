/** Grouping registers into contiguous reads (batch_reads in backend/genwatch/modbus/registers.py). */
module Batching {
  import opened Prelude
  import opened Registers

  const GAP_TOLERANCE := 4
  const MAX_WORDS := 64

  datatype Batch = Batch(start: int, count: int) {
    function End(): int {
      start + count
    }
  }

  // ---- sorting by address -------------------------------------------------------

  function Insert(r: RegisterDef, s: seq<RegisterDef>): seq<RegisterDef> {
    if s == [] || r.addr < s[0].addr then [r] + s else [s[0]] + Insert(r, s[1..])
  }

  /** Stable sort by address: what sorted(regs, key=addr) returns. */
  function SortByAddr(s: seq<RegisterDef>): seq<RegisterDef> {
    if s == [] then [] else Insert(s[|s| - 1], SortByAddr(s[..|s| - 1]))
  }

  /** Registers laid out end to start, none sharing a word with another. */
  predicate Laid(s: seq<RegisterDef>) {
    forall i, j :: 0 <= i < j < |s| ==> s[i].End() <= s[j].addr
  }

  predicate Apart(a: RegisterDef, b: RegisterDef) {
    a.End() <= b.addr || b.End() <= a.addr
  }

  lemma {:induction false} InsertLaid(r: RegisterDef, s: seq<RegisterDef>)
    requires Laid(s)
    requires forall x :: x in s ==> Apart(r, x)
    ensures Laid(Insert(r, s)) && |Insert(r, s)| == |s| + 1
    ensures forall x :: x in Insert(r, s) <==> x in s || x == r
  {
    if s == [] || r.addr < s[0].addr {
      if s != [] { assert Apart(r, s[0]); }
    } else {
      var rest := s[1..];
      assert s == [s[0]] + rest;
      InsertLaid(r, rest);
      assert Apart(r, s[0]);
      var t := Insert(r, rest);
      forall k | 0 <= k < |t| ensures s[0].End() <= t[k].addr {
        assert t[k] in t;
      }
    }
  }

  /** Registers that own their words, in whatever order the map lists them. */
  predicate OwnWords(regs: seq<RegisterDef>) {
    forall i, j :: 0 <= i < j < |regs| ==> Apart(regs[i], regs[j])
  }

  /** An accepted map in which only the last register may be nameless gives registers that own their words. */
  lemma AcceptedOwnWords(rm: RegisterMap)
    requires Accepted(rm) && NamedButLast(NameList(rm.registers))
    ensures OwnWords(rm.registers)
  {
    AcceptedDisjoint(rm);
    var regs := rm.registers;
    forall i, j | 0 <= i < j < |regs| ensures Apart(regs[i], regs[j]) {
      assert !Overlap(regs[i], regs[j]);
      assert !(regs[i].Covers(regs[j].addr) && regs[j].Covers(regs[j].addr));
      assert !(regs[i].Covers(regs[i].addr) && regs[j].Covers(regs[i].addr));
    }
  }

  lemma {:induction false} SortLays(regs: seq<RegisterDef>)
    requires OwnWords(regs)
    ensures Laid(SortByAddr(regs)) && |SortByAddr(regs)| == |regs|
    ensures forall r :: r in SortByAddr(regs) <==> r in regs
  {
    if regs != [] {
      var front, last := regs[..|regs| - 1], regs[|regs| - 1];
      assert regs == front + [last];
      SortLays(front);
      InsertLaid(last, SortByAddr(front));
    }
  }

  // ---- runs ------------------------------------------------------------------------

  /** May sorted registers i..k-1 be read together?  A single register always may. */
  predicate Fits(s: seq<RegisterDef>, i: nat, k: nat, maxWords: int) {
    && i < k <= |s|
    && (k == i + 1
        || (&& (forall m :: i < m < k ==> s[m].addr - s[m - 1].End() <= GAP_TOLERANCE)
            && s[k - 1].End() - s[i].addr <= maxWords))
  }

  function Span(s: seq<RegisterDef>, i: nat, k: nat): Batch
    requires i < k <= |s|
  {
    Batch(s[i].addr, s[k - 1].End() - s[i].addr)
  }

  /** Does register k join the open run i..k-1? */
  predicate Joins(s: seq<RegisterDef>, i: nat, k: nat, maxWords: int)
    requires i < k < |s|
  {
    s[k].addr - s[k - 1].End() <= GAP_TOLERANCE && s[k].End() - s[i].addr <= maxWords
  }

  /** Where the scan closes the run i..k-1 it has open. */
  function Close(s: seq<RegisterDef>, i: nat, k: nat, maxWords: int): (c: nat)
    requires i < k <= |s|
    ensures k <= c <= |s|
    decreases |s| - k
  {
    if k < |s| && Joins(s, i, k, maxWords) then Close(s, i, k + 1, maxWords) else k
  }

  /** The reads for registers i.. of a sorted tier. */
  function BatchesFrom(s: seq<RegisterDef>, i: nat, maxWords: int): seq<Batch>
    requires i <= |s|
    decreases |s| - i
  {
    if i == |s| then [] else RunThen(s, i, i + 1, maxWords)
  }

  /** The reads that come out once the run i..k-1 is open. */
  function RunThen(s: seq<RegisterDef>, i: nat, k: nat, maxWords: int): seq<Batch>
    requires i < k <= |s|
    decreases |s| - i, 0
  {
    var c := Close(s, i, k, maxWords);
    [Span(s, i, c)] + BatchesFrom(s, c, maxWords)
  }

  /** The reads for one tier, as the poller's tables hold them. */
  function BatchTable(regs: seq<RegisterDef>, maxWords: int := MAX_WORDS): seq<Batch> {
    BatchesFrom(SortByAddr(regs), 0, maxWords)
  }

  /** Closing the open run moves one batch to the finished ones. */
  lemma RunCloses(done: seq<Batch>, s: seq<RegisterDef>, i: nat, k: nat, maxWords: int)
    requires i < k < |s| && !Joins(s, i, k, maxWords)
    ensures done + RunThen(s, i, k, maxWords) == (done + [Span(s, i, k)]) + RunThen(s, k, k + 1, maxWords)
  {
    RunStep(s, i, k, maxWords);
  }

  lemma RunStep(s: seq<RegisterDef>, i: nat, k: nat, maxWords: int)
    requires i < k < |s|
    ensures RunThen(s, i, k, maxWords) ==
            if Joins(s, i, k, maxWords) then RunThen(s, i, k + 1, maxWords)
            else [Span(s, i, k)] + RunThen(s, k, k + 1, maxWords)
  {
  }

  predicate Follows(s: seq<RegisterDef>, k: int)
    requires 0 < k < |s|
  {
    s[k - 1].End() <= s[k].addr
  }

  /** The scan over sorted registers, from the run its first register opens. */
  method ScanRuns(s: seq<RegisterDef>, maxWords: int) returns (batches: seq<Batch>)
    requires s != [] && forall k :: 0 < k < |s| ==> Follows(s, k)
    ensures batches == RunThen(s, 0, 1, maxWords)
  {
    batches := [];
    var start, end := s[0].addr, s[0].End();
    ghost var i := 0;
    for k := 1 to |s|
      invariant i < k && start == s[i].addr && end == s[k - 1].End()
      invariant RunThen(s, 0, 1, maxWords) == batches + RunThen(s, i, k, maxWords)
    {
      var r := s[k];
      var newEnd := MaxInt(end, r.End());
      assert Follows(s, k);
      if r.addr - end <= GAP_TOLERANCE && newEnd - start <= maxWords {
        RunStep(s, i, k, maxWords);
        end := newEnd;
      } else {
        RunCloses(batches, s, i, k, maxWords);
        batches := batches + [Batch(start, end - start)];
        start, end, i := r.addr, r.End(), k;
      }
    }
    batches := batches + [Batch(start, end - start)];
  }

  /** batch_reads builds exactly that table. */
  method BatchReads(regs: seq<RegisterDef>, maxWords: int) returns (batches: seq<Batch>)
    requires OwnWords(regs)
    ensures batches == BatchTable(regs, maxWords)
  {
    if regs == [] { return []; }
    SortLays(regs);
    assert forall k :: 0 < k < |regs| ==> Follows(SortByAddr(regs), k);
    batches := ScanRuns(SortByAddr(regs), maxWords);
  }

  // ---- what the table guarantees ------------------------------------------------

  lemma {:induction false} CloseFits(s: seq<RegisterDef>, i: nat, k: nat, maxWords: int)
    requires Fits(s, i, k, maxWords)
    ensures Fits(s, i, Close(s, i, k, maxWords), maxWords)
    decreases |s| - k
  {
    if k < |s| && Joins(s, i, k, maxWords) { CloseFits(s, i, k + 1, maxWords); }
  }

  /** The greedy run reaches at least as far as any readable run from the same register. */
  lemma {:induction false} CloseReaches(s: seq<RegisterDef>, i: nat, k: nat, c: nat, maxWords: int)
    requires Laid(s) && Fits(s, i, c, maxWords) && i < k <= c
    ensures c <= Close(s, i, k, maxWords)
    decreases |s| - k
  {
    if k < c {
      assert s[k].End() <= s[c - 1].End();
      assert Joins(s, i, k, maxWords);
      CloseReaches(s, i, k + 1, c, maxWords);
    }
  }

  /** Dropping leading registers from a readable run leaves a readable run. */
  lemma FitsSuffix(s: seq<RegisterDef>, j: nat, i: nat, c: nat, maxWords: int)
    requires Laid(s) && Fits(s, j, c, maxWords) && j <= i < c
    ensures Fits(s, i, c, maxWords)
  {
    assert j == i || s[j].End() <= s[i].addr;
  }

  /** Any way of cutting s[i..] into readable runs; each cut is the end of one run. */
  predicate IsSplit(s: seq<RegisterDef>, i: nat, cuts: seq<nat>, maxWords: int)
    decreases |cuts|
  {
    if cuts == [] then i == |s|
    else Fits(s, i, cuts[0], maxWords) && IsSplit(s, cuts[0], cuts[1..], maxWords)
  }

  /** A run opened later by the scan still ends no earlier than a rival run opened before it. */
  lemma RunReaches(s: seq<RegisterDef>, j: nat, i: nat, c: nat, maxWords: int)
    requires Laid(s) && j <= i < |s| && Fits(s, j, c, maxWords)
    ensures c <= Close(s, i, i + 1, maxWords)
  {
    if i < c {
      FitsSuffix(s, j, i, c, maxWords);
      CloseReaches(s, i, i + 1, c, maxWords);
    }
  }

  /** Greedy stays ahead: starting no earlier than a rival split, it needs no more reads. */
  lemma {:induction false} GreedyStaysAhead(s: seq<RegisterDef>, i: nat, j: nat, rival: seq<nat>, maxWords: int)
    requires Laid(s) && j <= i <= |s| && IsSplit(s, j, rival, maxWords)
    ensures |BatchesFrom(s, i, maxWords)| <= |rival|
    decreases |rival|
  {
    if rival != [] && i < |s| {
      RunReaches(s, j, i, rival[0], maxWords);
      GreedyStaysAhead(s, Close(s, i, i + 1, maxWords), rival[0], rival[1..], maxWords);
    }
  }

  function GreedyCuts(s: seq<RegisterDef>, i: nat, maxWords: int): seq<nat>
    requires i <= |s|
    decreases |s| - i
  {
    if i == |s| then [] else
      var c := Close(s, i, i + 1, maxWords);
      [c] + GreedyCuts(s, c, maxWords)
  }

  lemma {:induction false} GreedyIsSplit(s: seq<RegisterDef>, i: nat, maxWords: int)
    requires i <= |s|
    ensures IsSplit(s, i, GreedyCuts(s, i, maxWords), maxWords)
    ensures |GreedyCuts(s, i, maxWords)| == |BatchesFrom(s, i, maxWords)|
    decreases |s| - i
  {
    if i < |s| {
      var c := Close(s, i, i + 1, maxWords);
      CloseFits(s, i, i + 1, maxWords);
      GreedyIsSplit(s, c, maxWords);
      var cuts := GreedyCuts(s, i, maxWords);
      assert cuts[1..] == GreedyCuts(s, c, maxWords);
    }
  }

  /**
   * The table is one admissible split of the sorted registers, and no other
   * admissible split uses fewer reads.
   */
  lemma BatchTableIsMinimal(regs: seq<RegisterDef>, maxWords: int)
    requires OwnWords(regs)
    ensures exists cuts :: IsSplit(SortByAddr(regs), 0, cuts, maxWords) && |cuts| == |BatchTable(regs, maxWords)|
    ensures forall rival :: IsSplit(SortByAddr(regs), 0, rival, maxWords) ==> |BatchTable(regs, maxWords)| <= |rival|
  {
    SortLays(regs);
    var s := SortByAddr(regs);
    GreedyIsSplit(s, 0, maxWords);
    forall rival | IsSplit(s, 0, rival, maxWords) ensures |BatchTable(regs, maxWords)| <= |rival| {
      GreedyStaysAhead(s, 0, 0, rival, maxWords);
    }
  }

  predicate DisjointSorted(b: seq<Batch>) {
    forall m, n :: 0 <= m < n < |b| ==> b[m].End() <= b[n].start
  }

  predicate Bounded(b: seq<Batch>, maxWords: int) {
    forall n :: 0 <= n < |b| ==> 1 <= b[n].count <= maxWords
  }

  lemma {:induction false} BatchesFromShape(s: seq<RegisterDef>, i: nat, maxWords: int)
    requires Laid(s) && i <= |s|
    ensures var b := BatchesFrom(s, i, maxWords);
            && DisjointSorted(b)
            && (forall n :: 0 <= n < |b| ==> i < |s| && s[i].addr <= b[n].start)
            && (maxWords >= 2 ==> Bounded(b, maxWords))
    decreases |s| - i
  {
    if i < |s| {
      var c := FirstBatch(s, i, maxWords);
      BatchesFromShape(s, c, maxWords);
      PrependShape(Span(s, i, c), BatchesFrom(s, c, maxWords), maxWords);
    }
  }

  /** The first batch from register i: where it ends, how long it is, and what follows it. */
  lemma FirstBatch(s: seq<RegisterDef>, i: nat, maxWords: int) returns (c: nat)
    requires Laid(s) && i < |s|
    ensures i < c <= |s| && BatchesFrom(s, i, maxWords) == [Span(s, i, c)] + BatchesFrom(s, c, maxWords)
    ensures 1 <= Span(s, i, c).count && (maxWords >= 2 ==> Span(s, i, c).count <= maxWords)
    ensures c < |s| ==> s[i].addr < Span(s, i, c).End() <= s[c].addr
  {
    c := Close(s, i, i + 1, maxWords);
    CloseFits(s, i, i + 1, maxWords);
    assert BatchesFrom(s, i, maxWords) == RunThen(s, i, i + 1, maxWords);
    assert i == c - 1 || s[i].End() <= s[c - 1].addr;
    if c < |s| { assert s[c - 1].End() <= s[c].addr; }
  }

  lemma PrependShape(first: Batch, rest: seq<Batch>, maxWords: int)
    requires DisjointSorted(rest) && forall n :: 0 <= n < |rest| ==> first.End() <= rest[n].start
    ensures DisjointSorted([first] + rest)
    ensures Bounded(rest, maxWords) && 1 <= first.count <= maxWords ==> Bounded([first] + rest, maxWords)
  {
    var b := [first] + rest;
    assert forall n :: 1 <= n < |b| ==> b[n] == rest[n - 1];
  }

  predicate WithinBatch(r: RegisterDef, b: Batch) {
    b.start <= r.addr && r.End() <= b.End()
  }

  lemma {:induction false} BatchesFromCover(s: seq<RegisterDef>, i: nat, x: nat, maxWords: int) returns (n: nat)
    requires Laid(s) && i <= x < |s|
    ensures n < |BatchesFrom(s, i, maxWords)| && WithinBatch(s[x], BatchesFrom(s, i, maxWords)[n])
    decreases |s| - i
  {
    var c := Close(s, i, i + 1, maxWords);
    if x < c {
      n := 0;
      assert i == x || s[i].End() <= s[x].addr;
      assert x == c - 1 || s[x].End() <= s[c - 1].addr;
    } else {
      n := BatchesFromCover(s, c, x, maxWords);
      n := n + 1;
    }
  }

  /** Batches are disjoint, in address order, and no longer than the limit. */
  lemma BatchTableShape(regs: seq<RegisterDef>, maxWords: int)
    requires OwnWords(regs)
    ensures DisjointSorted(BatchTable(regs, maxWords))
    ensures maxWords >= 2 ==> Bounded(BatchTable(regs, maxWords), maxWords)
  {
    SortLays(regs);
    BatchesFromShape(SortByAddr(regs), 0, maxWords);
  }

  /** Every register of the tier lies wholly in exactly one batch. */
  lemma EachRegisterInOneBatch(regs: seq<RegisterDef>, r: RegisterDef, maxWords: int) returns (n: nat)
    requires OwnWords(regs) && r in regs
    ensures n < |BatchTable(regs, maxWords)| && WithinBatch(r, BatchTable(regs, maxWords)[n])
    ensures var b := BatchTable(regs, maxWords);
            forall m :: 0 <= m < |b| && WithinBatch(r, b[m]) ==> m == n
  {
    SortLays(regs);
    var s := SortByAddr(regs);
    var x :| 0 <= x < |s| && s[x] == r;
    n := BatchesFromCover(s, 0, x, maxWords);
    BatchTableShape(regs, maxWords);
  }
}
