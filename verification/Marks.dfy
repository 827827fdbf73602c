/**
 * Counting hits poll by poll: what the tracker's debounce counters do, what "so many consecutive prime
 * polls" asks for, and exactly when the two are the same (backend/genwatch/services/state.py).
 */
module Marks {
  import opened Prelude

  /** One poll as a debounce counter sees it: its tier, and how often it hit; None when it judged nothing. */
  datatype Mark = Mark(prime: bool, hits: Option<nat>)

  function Front(marks: seq<Mark>): seq<Mark>
    requires marks != []
  {
    marks[..|marks| - 1]
  }

  function Last(marks: seq<Mark>): Mark
    requires marks != []
  {
    marks[|marks| - 1]
  }

  /** The counter: hits of either tier since the last miss, a poll that judged nothing being passed over. */
  function Streak(marks: seq<Mark>): nat {
    if marks == [] then 0
    else match Last(marks).hits
      case None => Streak(Front(marks))
      case Some(n) => if n == 0 then 0 else Streak(Front(marks)) + n
  }

  /**
   * The promise: prime polls that hit, directly after one another, with no miss of either tier in between.
   * A prime poll that judged nothing breaks the run; a base poll that hit or judged nothing is no part of it.
   */
  function PrimeRun(marks: seq<Mark>): nat {
    if marks == [] then 0
    else match Last(marks).hits
      case None => if Last(marks).prime then 0 else PrimeRun(Front(marks))
      case Some(n) => if n == 0 then 0 else PrimeRun(Front(marks)) + if Last(marks).prime then 1 else 0
  }

  /** The last poll counts what it should not: a base hit, a double hit, or a blank prime poll with hits pending. */
  predicate Tears(marks: seq<Mark>)
    requires marks != []
  {
    match Last(marks).hits
    case None => Last(marks).prime && Streak(Front(marks)) > 0
    case Some(n) => n >= 2 || (n == 1 && !Last(marks).prime)
  }

  /** Some poll since the last miss tore the count. */
  predicate Torn(marks: seq<Mark>) {
    && marks != []
    && Last(marks).hits != Some(0)
    && (Tears(marks) || Torn(Front(marks)))
  }

  /** At every point the counter is at least the run asked for, and equal to it exactly when nothing tore the count. */
  lemma {:induction false} StreakIsPrimeRunIff(marks: seq<Mark>)
    ensures PrimeRun(marks) <= Streak(marks)
    ensures PrimeRun(marks) == Streak(marks) <==> !Torn(marks)
  {
    if marks != [] { StreakIsPrimeRunIff(Front(marks)); }
  }

  predicate AlwaysPrimeRun(marks: seq<Mark>) {
    PrimeRun(marks) == Streak(marks) && (marks == [] || AlwaysPrimeRun(Front(marks)))
  }

  predicate NeverTears(marks: seq<Mark>) {
    marks == [] || (NeverTears(Front(marks)) && !Tears(marks))
  }

  /** Over a whole run they agree throughout exactly when no poll ever tears the count. */
  lemma {:induction false} AlwaysPrimeRunIff(marks: seq<Mark>)
    ensures AlwaysPrimeRun(marks) <==> NeverTears(marks)
    ensures NeverTears(marks) ==> !Torn(marks)
  {
    StreakIsPrimeRunIff(marks);
    if marks != [] { AlwaysPrimeRunIff(Front(marks)); }
  }

  /** The poll that brings the count from below n to n, one hit at a time. */
  lemma ReachedAtNthIff(before: seq<Mark>, step: seq<Mark>, n: nat)
    requires |step| <= 1 && (step != [] && step[0].hits.Some? ==> step[0].hits.value <= 1)
    requires Streak(before) < n <= Streak(before + step)
    ensures step != [] && Streak(before + step) == n
    ensures PrimeRun(before + step) == n <==> step[0].prime && !Torn(before)
  {
    assert before + [] == before && step != [];
    var after := before + step;
    assert Front(after) == before && Last(after) == step[0];
    StreakIsPrimeRunIff(after);
  }

  lemma StreakAppend(marks: seq<Mark>, m: Mark)
    ensures Streak(marks + [m]) ==
            if m.hits == None then Streak(marks) else if m.hits.value == 0 then 0 else Streak(marks) + m.hits.value
    ensures NeverTears(marks + [m]) <==> NeverTears(marks) && !Tears(marks + [m])
  {
    assert Front(marks + [m]) == marks;
  }
}
