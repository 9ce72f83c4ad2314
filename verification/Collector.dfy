/**
 The collector's accounting of one phone session: loss inferred from sequence numbers and
 the spread of arrival intervals, both kept in one pass. Sums are reals; the release build's
 64-bit subtraction wraps, and so does this one.
 */
module Collector {
  import opened Prelude

  datatype Arrival = Arrival(ns: u64, sequence: u32, bytes: nat)

  datatype Totals = Totals(firstNs: nat, lastNs: nat, packets: nat, bytes: nat, highest: Option<nat>, seen: nat,
                           duplicates: nat, lastArrivalNs: nat, intervals: nat, sum: real, sumSq: real, maxGapNs: nat)

  const EMPTY: Totals := Totals(0, 0, 0, 0, None, 0, 0, 0, 0, 0.0, 0.0, 0)

  /** `b - a` in 64 bits. */
  function Gap(a: nat, b: nat): nat { if b >= a then b - a else Max(b + TWO_64 - a, 0) }

  // -- one arrival -------------------------------------------------------------------------------

  /** A sequence number higher than any before. */
  predicate IsHigh(highest: Option<nat>, sequence: nat) { highest.None? || sequence > highest.value }

  function Counted(t: Totals, a: Arrival): Totals {
    t.(firstNs := if t.firstNs == 0 then a.ns else t.firstNs, lastNs := a.ns,
       packets := t.packets + 1, bytes := t.bytes + a.bytes, seen := t.seen + 1,
       highest := if IsHigh(t.highest, a.sequence) then Some(a.sequence) else t.highest,
       duplicates := if IsHigh(t.highest, a.sequence) then t.duplicates else t.duplicates + 1)
  }

  function Spaced(t: Totals, ns: nat): Totals {
    if t.lastArrivalNs == 0 then t.(lastArrivalNs := ns)
    else
      var gap := Gap(t.lastArrivalNs, ns);
      t.(intervals := t.intervals + 1, sum := t.sum + gap as real, sumSq := t.sumSq + Times(gap as real, gap as real),
         maxGapNs := Max(t.maxGapNs, gap), lastArrivalNs := ns)
  }

  function TotalsOf(arrivals: seq<Arrival>): Totals {
    if arrivals == [] then EMPTY
    else
      var n := |arrivals| - 1;
      Spaced(Counted(TotalsOf(arrivals[..n]), arrivals[n]), arrivals[n].ns)
  }

  lemma TotalsStep(arrivals: seq<Arrival>, a: Arrival)
    ensures TotalsOf(arrivals + [a]) == Spaced(Counted(TotalsOf(arrivals), a), a.ns)
  {
    assert (arrivals + [a])[..|arrivals|] == arrivals;
  }

  datatype Summary = Summary(packets: nat, lost: nat, duplicates: nat, deliveredRateHz: real,
                             meanIntervalNs: real, variance: real, maxGapNs: nat, bytes: nat)

  function Variance(n: nat, sum: real, sumSq: real): real
    requires n > 0
  {
    var mean := sum / n as real;
    sumSq / n as real - Times(mean, mean)
  }

  class Session {
    var firstNs: nat
    var lastNs: nat
    var packets: nat
    var bytes: nat
    var highestSeq: Option<nat>
    var seenSeq: nat
    var duplicates: nat
    var lastArrivalNs: nat
    var intervalCount: nat
    var intervalSum: real
    var intervalSumSq: real
    var maxGapNs: nat
    /** the lines of arrivals.tsv */
    var arrivals: seq<Arrival>
    ghost var faults: nat

    function State(): Totals
      reads this
    {
      Totals(firstNs, lastNs, packets, bytes, highestSeq, seenSeq, duplicates, lastArrivalNs, intervalCount,
             intervalSum, intervalSumSq, maxGapNs)
    }

    /** The counters are those of the arrivals written. */
    ghost predicate Valid()
      reads this
    {
      State() == TotalsOf(arrivals)
    }

    constructor ()
      ensures Valid() && arrivals == [] && faults == 0
    {
      firstNs, lastNs, packets, bytes, highestSeq, seenSeq, duplicates := 0, 0, 0, 0, None, 0, 0;
      lastArrivalNs, intervalCount, intervalSum, intervalSumSq, maxGapNs := 0, 0, 0.0, 0.0, 0;
      arrivals, faults := [], 0;
    }

    /** A failed write is reported and counts nothing. */
    method RecordData(a: Arrival) returns (ok: bool)
      requires Valid()
      modifies this
      ensures Valid()
      ensures ok ==> arrivals == old(arrivals) + [a] && faults == old(faults)
      ensures !ok ==> arrivals == old(arrivals) && State() == old(State()) && faults == old(faults) + 1
    {
      var written: bool := *;
      if !written {
        faults := faults + 1;
        return false;
      }
      TotalsStep(arrivals, a);
      hide TotalsOf, Counted, Spaced;
      CountArrival(a);
      SpaceArrival(a.ns);
      arrivals := arrivals + [a];
      return true;
    }

    /** The counting half: loss is inferred from the phone's own numbering. */
    method CountArrival(a: Arrival)
      modifies this
      ensures State() == Counted(old(State()), a) && arrivals == old(arrivals) && faults == old(faults)
    {
      if firstNs == 0 { firstNs := a.ns; }
      lastNs := a.ns;
      packets := packets + 1;
      bytes := bytes + a.bytes;
      match highestSeq {
        case None => highestSeq := Some(a.sequence);
        case Some(h) =>
          if a.sequence > h { highestSeq := Some(a.sequence); } else { duplicates := duplicates + 1; }
      }
      seenSeq := seenSeq + 1;
    }

    /** The timing half. */
    method SpaceArrival(ns: u64)
      modifies this
      ensures State() == Spaced(old(State()), ns) && arrivals == old(arrivals) && faults == old(faults)
    {
      hide Gap, Times;
      if lastArrivalNs != 0 {
        var gap := Gap(lastArrivalNs, ns);
        intervalCount := intervalCount + 1;
        intervalSum := intervalSum + gap as real;
        intervalSumSq := intervalSumSq + Times(gap as real, gap as real);
        if gap > maxGapNs { maxGapNs := gap; }
      }
      lastArrivalNs := ns;
    }

    /** The subtraction of duplicates from arrivals never goes below zero. */
    method Summarise() returns (s: Summary)
      requires Valid()
      ensures s == SummaryOf(arrivals)
    {
      HighsAndRepeats(arrivals);
      IntervalsAreGaps(arrivals);
      if Gaps(arrivals) != [] { OnePassVariance(Gaps(arrivals)); }
      hide TotalsOf, Times, SquaresAround, Sum, SumSq, Largest, Gaps, Highs;
      var elapsedNs := if lastNs > firstNs then lastNs - firstNs else 0;
      var mean := if intervalCount > 0 then intervalSum / intervalCount as real else 0.0;
      var variance := 0.0;
      if intervalCount > 1 {
        variance := intervalSumSq / intervalCount as real - Times(mean, mean);
        if variance < 0.0 { variance := 0.0; }
      }
      var expected: nat := match highestSeq case None => 0 case Some(h) => h + 1;
      s := Summary(packets, Max(expected - (seenSeq - duplicates), 0), duplicates,
                   if elapsedNs > 0 then packets as real / (elapsedNs as real / 1000000000.0) else 0.0,
                   mean, variance, maxGapNs, bytes);
    }
  }

  // -- loss --------------------------------------------------------------------------------------------

  function Sequences(arrivals: seq<Arrival>): set<nat> { set a | a in arrivals :: a.sequence }

  /** Arrivals that raised the highest sequence number. */
  function Highs(arrivals: seq<Arrival>): nat {
    if arrivals == [] then 0
    else
      var n := |arrivals| - 1;
      Highs(arrivals[..n]) + if IsHigh(TotalsOf(arrivals[..n]).highest, arrivals[n].sequence) then 1 else 0
  }

  lemma {:induction false} HighsAndRepeats(arrivals: seq<Arrival>)
    ensures TotalsOf(arrivals).seen == TotalsOf(arrivals).packets == |arrivals|
    ensures TotalsOf(arrivals).duplicates + Highs(arrivals) == |arrivals|
    ensures TotalsOf(arrivals).highest.None? <==> arrivals == []
  {
    hide Gap, Times;
    if arrivals != [] { HighsAndRepeats(arrivals[..|arrivals| - 1]); }
  }

  function Numbers(n: nat): (s: set<nat>)
    ensures forall k: nat :: k in s <==> k < n
  {
    if n == 0 then {} else Numbers(n - 1) + {n - 1}
  }

  lemma {:induction false} SizeOfNumbers(n: nat)
    ensures |Numbers(n)| == n
  {
    if n > 0 {
      SizeOfNumbers(n - 1);
    }
  }

  function Expected(arrivals: seq<Arrival>): nat {
    match TotalsOf(arrivals).highest case None => 0 case Some(h) => h + 1
  }

  /** The highest number seen bounds them all and was seen itself. */
  lemma {:induction false} HighestIsMaximum(arrivals: seq<Arrival>)
    ensures Sequences(arrivals) <= Numbers(Expected(arrivals))
    ensures arrivals != [] ==> Expected(arrivals) - 1 in Sequences(arrivals)
  {
    hide Gap, Times;
    if arrivals != [] {
      var n := |arrivals| - 1;
      HighestIsMaximum(arrivals[..n]);
      HighsAndRepeats(arrivals[..n]);
      SequencesStep(arrivals);
    }
  }

  lemma SequencesStep(arrivals: seq<Arrival>)
    requires arrivals != []
    ensures var n := |arrivals| - 1;
      Sequences(arrivals) == Sequences(arrivals[..n]) + {arrivals[n].sequence}
  {
    var n := |arrivals| - 1;
    assert forall a :: a in arrivals ==> a in arrivals[..n] || a == arrivals[n];
  }

  /** The sequence numbers up to the highest that never arrived. */
  function Missing(arrivals: seq<Arrival>): set<nat> { Numbers(Expected(arrivals)) - Sequences(arrivals) }

  /** Whether first arrivals of sequence numbers came in increasing order. */
  ghost predicate FirstsIncrease(arrivals: seq<Arrival>) {
    forall i, j :: 0 <= i < j < |arrivals| && arrivals[j].sequence !in Sequences(arrivals[..j]) ==>
      arrivals[i].sequence < arrivals[j].sequence
  }

  /** There are at most as many raises as distinct numbers, and exactly as many when numbers
      first arrive in increasing order. */
  lemma {:induction false} HighsAreFirsts(arrivals: seq<Arrival>)
    ensures Highs(arrivals) <= |Sequences(arrivals)|
    ensures Highs(arrivals) == |Sequences(arrivals)| <==> FirstsIncrease(arrivals)
  {
    hide TotalsOf, IsHigh;
    if arrivals != [] {
      var n := |arrivals| - 1;
      var before, s := arrivals[..n], arrivals[n].sequence;
      HighsAreFirsts(before);
      SequencesStep(arrivals);
      HighIsAboveAll(before, s);
      FirstsStep(arrivals);
      assert Highs(arrivals) ==
             Highs(before) + if IsHigh(TotalsOf(before).highest, s) then 1 else 0;
      if s in Sequences(before) {
        assert Sequences(arrivals) == Sequences(before);
      }
    }
  }

  lemma HighIsAboveAll(before: seq<Arrival>, s: nat)
    ensures IsHigh(TotalsOf(before).highest, s) <==> forall q :: q in Sequences(before) ==> q < s
  {
    HighsAndRepeats(before);
    HighestIsMaximum(before);
    hide TotalsOf, Sequences;
  }

  lemma FirstsStep(arrivals: seq<Arrival>)
    requires arrivals != []
    ensures var n := |arrivals| - 1;
      var before, s := arrivals[..n], arrivals[n].sequence;
      FirstsIncrease(arrivals) <==>
        FirstsIncrease(before) && (s in Sequences(before) || forall q :: q in Sequences(before) ==> q < s)
  {
    var n := |arrivals| - 1;
    var before, s := arrivals[..n], arrivals[n].sequence;
    forall j | 0 <= j < n ensures arrivals[..j] == before[..j] {}
    if FirstsIncrease(arrivals) {
      assert FirstsIncrease(before);
      if s !in Sequences(before) {
        forall q | q in Sequences(before) ensures q < s {
          var i :| 0 <= i < n && before[i].sequence == q;
          assert arrivals[i].sequence < arrivals[n].sequence;
        }
      }
    }
    if FirstsIncrease(before) && (s in Sequences(before) || forall q :: q in Sequences(before) ==> q < s) {
      forall i, j | 0 <= i < j < |arrivals| && arrivals[j].sequence !in Sequences(arrivals[..j])
        ensures arrivals[i].sequence < arrivals[j].sequence
      {
        if j == n {
          assert before[i].sequence in Sequences(before);
        } else {
          assert before[i] == arrivals[i] && before[j] == arrivals[j];
        }
      }
    }
  }

  // -- intervals -------------------------------------------------------------------------------------------

  /** The intervals between neighbouring arrivals, from the first non-zero stamp on. */
  function Gaps(arrivals: seq<Arrival>): seq<nat> {
    if |arrivals| < 2 then []
    else
      var n := |arrivals| - 1;
      Gaps(arrivals[..n]) + if arrivals[n - 1].ns == 0 then [] else [Gap(arrivals[n - 1].ns, arrivals[n].ns)]
  }

  function Sum(g: seq<nat>): real { if g == [] then 0.0 else Sum(g[..|g| - 1]) + g[|g| - 1] as real }

  function SumSq(g: seq<nat>): real {
    if g == [] then 0.0
    else SumSq(g[..|g| - 1]) + Times(g[|g| - 1] as real, g[|g| - 1] as real)
  }

  function Largest(g: seq<nat>): nat { if g == [] then 0 else Max(Largest(g[..|g| - 1]), g[|g| - 1]) }

  lemma {:induction false} IntervalsAreGaps(arrivals: seq<Arrival>)
    ensures var t, g := TotalsOf(arrivals), Gaps(arrivals);
      && t.intervals == |g| && t.sum == Sum(g) && t.sumSq == SumSq(g) && t.maxGapNs == Largest(g)
      && t.lastArrivalNs == t.lastNs == if arrivals == [] then 0 else arrivals[|arrivals| - 1].ns
  {
    hide Gap, Times, IsHigh, Sum, SumSq, Largest;
    NoGaps();
    if arrivals != [] {
      var n := |arrivals| - 1;
      IntervalsAreGaps(arrivals[..n]);
      var g := Gaps(arrivals[..n]);
      if n > 0 {
        assert arrivals[..n][n - 1] == arrivals[n - 1];
        if arrivals[n - 1].ns != 0 {
          AppendGap(g, Gap(arrivals[n - 1].ns, arrivals[n].ns));
        } else {
          assert g + [] == g;
        }
      }
    }
  }

  lemma NoGaps()
    ensures Sum([]) == 0.0 && SumSq([]) == 0.0 && Largest([]) == 0
  {
  }

  lemma AppendGap(g: seq<nat>, gap: nat)
    ensures Sum(g + [gap]) == Sum(g) + gap as real
    ensures SumSq(g + [gap]) == SumSq(g) + Times(gap as real, gap as real)
    ensures Largest(g + [gap]) == Max(Largest(g), gap)
  {
    hide Times;
    assert (g + [gap])[..|g|] == g;
  }

  /** How often the clock stood before the arrival it follows. */
  function StepsBack(arrivals: seq<Arrival>): nat {
    if |arrivals| < 2 then 0
    else
      var n := |arrivals| - 1;
      StepsBack(arrivals[..n]) + if arrivals[n].ns < arrivals[n - 1].ns then 1 else 0
  }

  /** The intervals sum to last minus first, plus 2^64 for each step back of the clock: they
      telescope exactly when stamps never decrease. */
  lemma {:induction false} IntervalSumTelescopesIff(arrivals: seq<Arrival>)
    requires arrivals != [] && forall i :: 0 <= i < |arrivals| ==> arrivals[i].ns != 0
    ensures var t := TotalsOf(arrivals);
      && t.firstNs == arrivals[0].ns && t.lastNs == arrivals[|arrivals| - 1].ns
      && t.sum == (t.lastNs - t.firstNs + TWO_64 * StepsBack(arrivals)) as real
      && (t.sum == (t.lastNs - t.firstNs) as real <==> StepsBack(arrivals) == 0)
  {
    hide Times, IsHigh;
    var n := |arrivals| - 1;
    if n > 0 {
      var before := arrivals[..n];
      IntervalSumTelescopesIff(before);
      IntervalsAreGaps(before);
      assert before[n - 1] == arrivals[n - 1];
    }
  }

  // -- variance ------------------------------------------------------------------------------------------------

  /** The sum of squared distances to `m`. */
  function SquaresAround(g: seq<nat>, m: real): real {
    if g == [] then 0.0
    else SquaresAround(g[..|g| - 1], m) + Times(g[|g| - 1] as real - m, g[|g| - 1] as real - m)
  }

  lemma SquareIsNotNegative(x: real)
    ensures Times(x, x) >= 0.0
  {
  }

  lemma SquareOfDifference(x: real, m: real)
    ensures Times(x - m, x - m) == Times(x, x) - 2.0 * Times(m, x) + Times(m, m)
  {
  }

  lemma TimesOfSum(m: real, a: real, b: real)
    ensures Times(m, a + b) == Times(m, a) + Times(m, b)
  {
  }

  lemma {:induction false} SquaresExpand(g: seq<nat>, m: real)
    ensures SquaresAround(g, m) >= 0.0
    ensures SquaresAround(g, m) == SumSq(g) - 2.0 * Times(m, Sum(g)) + Times(Times(m, m), |g| as real)
  {
    if g == [] {
      assert Times(m, 0.0) == 0.0 && Times(Times(m, m), 0.0) == 0.0;
    } else {
      hide Times;
      var n := |g| - 1;
      var x := g[n] as real;
      SquaresExpand(g[..n], m);
      SquareIsNotNegative(x - m);
      SquareOfDifference(x, m);
      TimesOfSum(m, Sum(g[..n]), x);
      TimesOfSum(Times(m, m), n as real, 1.0);
      TimesOne(Times(m, m));
    }
  }

  lemma TimesOne(x: real)
    ensures Times(x, 1.0) == x
  {
  }

  /** The one-pass variance is the mean squared distance to the mean, so it is never negative
      and clamping it at zero changes nothing. */
  lemma OnePassVariance(g: seq<nat>)
    requires g != []
    ensures var mean := Sum(g) / |g| as real;
      Variance(|g|, Sum(g), SumSq(g)) == SquaresAround(g, mean) / |g| as real >= 0.0
  {
    var n := |g| as real;
    var mean := Sum(g) / n;
    SquaresExpand(g, mean);
    MeanTimes(Sum(g), n);
    var sq, around := SumSq(g), SquaresAround(g, mean);
    assert Times(Times(mean, mean), n) == Times(mean, Sum(g));
    assert around == sq - Times(Times(mean, mean), n);
    DivideDifference(sq, Times(mean, mean), n);
    NotNegativeQuotient(around, n);
  }

  lemma MeanTimes(sum: real, n: real)
    requires n > 0.0
    ensures Times(Times(sum / n, sum / n), n) == Times(sum / n, sum)
  {
    var m := sum / n;
    assert m * n == sum;
    assert (m * m) * n == m * (m * n);
  }

  lemma DivideDifference(a: real, b: real, n: real)
    requires n > 0.0
    ensures (a - Times(b, n)) / n == a / n - b
  {
    assert Times(b, n) / n == b;
  }

  lemma NotNegativeQuotient(a: real, n: real)
    requires a >= 0.0 && n > 0.0
    ensures a / n >= 0.0
  {
  }

  // -- the summary -----------------------------------------------------------------------------------------------

  /** The summary of a run of arrivals, from the whole run at once. */
  function SummaryOf(arrivals: seq<Arrival>): Summary {
    var t, g := TotalsOf(arrivals), Gaps(arrivals);
    var elapsedNs := if t.lastNs > t.firstNs then t.lastNs - t.firstNs else 0;
    HighsAndRepeats(arrivals);
    Summary(|arrivals|, Max(Expected(arrivals) - Highs(arrivals), 0), |arrivals| - Highs(arrivals),
            if elapsedNs > 0 then |arrivals| as real / (elapsedNs as real / 1000000000.0) else 0.0,
            if g == [] then 0.0 else Sum(g) / |g| as real,
            if |g| < 2 then 0.0 else SquaresAround(g, Sum(g) / |g| as real) / |g| as real,
            Largest(g), t.bytes)
  }

  function SumOfBytes(arrivals: seq<Arrival>): nat {
    if arrivals == [] then 0 else SumOfBytes(arrivals[..|arrivals| - 1]) + arrivals[|arrivals| - 1].bytes
  }

  /** The totals have the bytes of all arrivals, the last stamp, and the first that is not zero. */
  lemma {:induction false} TotalsMean(arrivals: seq<Arrival>)
    ensures var t := TotalsOf(arrivals);
      && t.bytes == SumOfBytes(arrivals)
      && (arrivals != [] ==> t.lastNs == arrivals[|arrivals| - 1].ns)
      && (t.firstNs == 0 <==> forall i :: 0 <= i < |arrivals| ==> arrivals[i].ns == 0)
      && (t.firstNs != 0 ==> exists i :: 0 <= i < |arrivals| && arrivals[i].ns == t.firstNs
                                         && forall j :: 0 <= j < i ==> arrivals[j].ns == 0)
  {
    hide Gap, Times, IsHigh;
    if arrivals != [] {
      var n := |arrivals| - 1;
      var before := arrivals[..n];
      TotalsMean(before);
      assert forall j :: 0 <= j < n ==> arrivals[j].ns == before[j].ns;
      var first := TotalsOf(before).firstNs;
      if first != 0 {
        var i :| 0 <= i < n && before[i].ns == first && forall j :: 0 <= j < i ==> before[j].ns == 0;
        assert arrivals[i].ns == first;
      } else {
        assert arrivals[n].ns == TotalsOf(arrivals).firstNs;
      }
    }
  }

  /** The widest interval bounds them all and is one of them. */
  lemma {:induction false} LargestIsMaximum(g: seq<nat>)
    ensures forall i :: 0 <= i < |g| ==> g[i] <= Largest(g)
    ensures g != [] ==> Largest(g) in g
  {
    if g != [] { LargestIsMaximum(g[..|g| - 1]); }
  }

  /** The delivered rate times the seconds from the first stamp to the last is the packets;
      duplicates are the arrivals that raised nothing. */
  lemma SummaryMeans(arrivals: seq<Arrival>)
    ensures var s, t, g := SummaryOf(arrivals), TotalsOf(arrivals), Gaps(arrivals);
      && s.packets == |arrivals| && s.packets == s.duplicates + Highs(arrivals) && s.bytes == SumOfBytes(arrivals)
      && (t.lastNs > t.firstNs ==>
            Times(s.deliveredRateHz, (t.lastNs - t.firstNs) as real) == (|arrivals| * 1_000_000_000) as real)
      && (t.lastNs <= t.firstNs ==> s.deliveredRateHz == 0.0)
      && (g != [] ==> Times(s.meanIntervalNs, |g| as real) == Sum(g) && s.maxGapNs in g)
      && forall i :: 0 <= i < |g| ==> g[i] <= s.maxGapNs
  {
    var t, g := TotalsOf(arrivals), Gaps(arrivals);
    TotalsMean(arrivals);
    HighsAndRepeats(arrivals);
    LargestIsMaximum(g);
    hide TotalsOf, Gaps, Sum, Largest, Highs, SquaresAround, SumOfBytes, Expected, Times;
    if t.lastNs > t.firstNs { RateTimes(|arrivals|, t.lastNs - t.firstNs); }
    if g != [] { QuotientTimes(Sum(g), |g| as real); }
  }

  lemma QuotientTimes(a: real, n: real)
    requires n > 0.0
    ensures Times(a / n, n) == a
  {
  }

  lemma RateTimes(n: nat, ns: nat)
    requires ns > 0
    ensures Times(n as real / (ns as real / 1000000000.0), ns as real) == (n * 1_000_000_000) as real
  {
    var s := ns as real / 1000000000.0;
    var r := n as real / s;
    assert s * 1000000000.0 == ns as real && r * s == n as real;
    assert r * (s * 1000000000.0) == (r * s) * 1000000000.0;
  }

  /** The reported loss is at least the number of sequence numbers that never arrived, and
      equals it exactly when numbers first arrived in increasing order; the saturating
      subtraction never saturates. */
  lemma LostIsMissingIff(arrivals: seq<Arrival>)
    ensures Highs(arrivals) <= Expected(arrivals)
    ensures SummaryOf(arrivals).lost >= |Missing(arrivals)|
    ensures SummaryOf(arrivals).lost == |Missing(arrivals)| <==> FirstsIncrease(arrivals)
  {
    hide TotalsOf, SquaresAround, Sum, Largest, Gaps, Highs, Sequences, FirstsIncrease;
    HighsAreFirsts(arrivals);
    HighestIsMaximum(arrivals);
    SizeOfNumbers(Expected(arrivals));
    var all, got := Numbers(Expected(arrivals)), Sequences(arrivals);
    hide Numbers, Expected;
    assert all == got + (all - got);
    assert |all| == |got| + |all - got|;
  }
}
