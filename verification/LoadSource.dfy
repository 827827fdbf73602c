/**
 * Which source carries the load: utility or generator (load-source derivation in backend/genwatch/services/state.py).
 */
module LoadSource {
  import opened Prelude

  const ON_KW := 2.0
  const ON_CURRENT := 5.0
  const OFF_KW := 1.0
  const OFF_CURRENT := 2.0

  datatype Source = Utility | Generator | Transferring | Unknown

  /** What one poll shows: engine state and the two electrical readings, each possibly missing. */
  datatype Sample = Sample(engine: string, current: Option<real>, kw: Option<real>)

  function OrZero(x: Option<real>): real {
    if x.Some? then x.value else 0.0
  }

  /** States in which the generator cannot be carrying the load. */
  predicate Unloaded(engine: string) {
    engine in {"stopped", "cranking", "cooling", "exercising"}
  }

  /** Inference from the generator's own telemetry. */
  function FromTelemetry(s: Sample, prev: Source): Source {
    if s.engine == "unknown" then prev
    else if Unloaded(s.engine) then Utility
    else if s.current.None? && s.kw.None? then (if prev != Unknown then prev else Utility)
    else if prev == Generator then
      (if OrZero(s.current) < OFF_CURRENT && OrZero(s.kw) < OFF_KW then Utility else Generator)
    else if OrZero(s.current) >= ON_CURRENT && OrZero(s.kw) >= ON_KW then Generator
    else Utility
  }

  /** The transfer switch's own position wins while it is authoritative and knows it. */
  function Derive(authoritative: bool, position: Source, s: Sample, prev: Source): Source {
    if authoritative && position != Unknown then position else FromTelemetry(s, prev)
  }

  // ---- the latch ----------------------------------------------------------------------

  /** The engine can carry load and at least one reading is there to judge by. */
  predicate Judged(s: Sample) {
    s.engine != "unknown" && !Unloaded(s.engine) && (s.current.Some? || s.kw.Some?)
  }

  predicate Sets(s: Sample) {
    Judged(s) && OrZero(s.current) >= ON_CURRENT && OrZero(s.kw) >= ON_KW
  }

  predicate Releases(s: Sample) {
    Unloaded(s.engine) || (Judged(s) && OrZero(s.current) < OFF_CURRENT && OrZero(s.kw) < OFF_KW)
  }

  predicate NoneReleases(samples: seq<Sample>, from: nat) {
    forall j :: from <= j < |samples| ==> !Releases(samples[j])
  }

  /** Set by some poll, or from the start, and not released since. */
  predicate Latched(samples: seq<Sample>, start: Source) {
    || (exists i :: 0 <= i < |samples| && Sets(samples[i]) && NoneReleases(samples, i + 1))
    || (start == Generator && NoneReleases(samples, 0))
  }

  /** Load source after a run of polls during which the transfer switch was not authoritative. */
  function After(samples: seq<Sample>, start: Source): Source {
    if samples == [] then start
    else FromTelemetry(samples[|samples| - 1], After(samples[..|samples| - 1], start))
  }

  lemma LatchedStep(samples: seq<Sample>, start: Source)
    requires samples != []
    ensures var last, front := samples[|samples| - 1], samples[..|samples| - 1];
            Latched(samples, start) <==> Sets(last) || (Latched(front, start) && !Releases(last))
  {
    var n := |samples| - 1;
    var last, front := samples[n], samples[..n];
    if Sets(last) { assert NoneReleases(samples, n + 1); }
    forall i | 0 <= i <= n ensures NoneReleases(samples, i) <==> NoneReleases(front, i) && !Releases(last) {
      assert forall j :: i <= j < n ==> samples[j] == front[j];
    }
    if Latched(front, start) && !Releases(last) {
      if i :| 0 <= i < n && Sets(front[i]) && NoneReleases(front, i + 1) {
        assert Sets(samples[i]) && NoneReleases(samples, i + 1);
      }
    }
    if i :| 0 <= i < n && Sets(samples[i]) && NoneReleases(samples, i + 1) {
      assert Sets(front[i]) && NoneReleases(front, i + 1);
    }
  }

  /** Over every run the load is on the generator exactly when the latch says so. */
  lemma {:induction false} SourceIsLatch(samples: seq<Sample>, start: Source)
    ensures After(samples, start) == Generator <==> Latched(samples, start)
  {
    if samples != [] {
      SourceIsLatch(samples[..|samples| - 1], start);
      LatchedStep(samples, start);
    }
  }

  /** One sensor that never reaches its ON threshold can never start a transfer. */
  lemma OneDeadSensorNeverStarts(samples: seq<Sample>, start: Source)
    requires start != Generator
    requires (forall i :: 0 <= i < |samples| ==> OrZero(samples[i].current) < ON_CURRENT)
          || (forall i :: 0 <= i < |samples| ==> OrZero(samples[i].kw) < ON_KW)
    ensures After(samples, start) != Generator
  {
    SourceIsLatch(samples, start);
  }

  /** One sensor that stays at or above its OFF threshold can never end one. */
  lemma OneStuckSensorNeverEnds(samples: seq<Sample>)
    requires forall i :: 0 <= i < |samples| ==> !Unloaded(samples[i].engine)
    requires (forall i :: 0 <= i < |samples| ==> OrZero(samples[i].current) >= OFF_CURRENT)
          || (forall i :: 0 <= i < |samples| ==> OrZero(samples[i].kw) >= OFF_KW)
    ensures After(samples, Generator) == Generator
  {
    SourceIsLatch(samples, Generator);
    assert NoneReleases(samples, 0);
  }

  /** Polls without any electrical reading change nothing while the engine can carry load. */
  lemma {:induction false} MissingReadingsHold(samples: seq<Sample>, start: Source)
    requires start != Unknown
    requires forall i :: 0 <= i < |samples| ==>
               !Unloaded(samples[i].engine) && samples[i].current.None? && samples[i].kw.None?
    ensures After(samples, start) == start
  {
    if samples != [] { MissingReadingsHold(samples[..|samples| - 1], start); }
  }
}
