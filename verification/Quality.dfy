/**
 Qualifying a capture from its record times: six-second windows, the widest gap, and clock
 errors, in one pass that skips stamps that are zero or run backwards.
 */
module Quality {
  import opened Prelude

  const WINDOW_NS: nat := 6_000_000_000
  const WINDOW_S: nat := 6
  const ENOUGH: nat := 150

  /** `usable` is none where csid divides zero by zero. */
  datatype WindowQuality = WindowQuality(usable: Option<real>, maxGapS: real, errors: nat)

  // -- the records that count --------------------------------------------------------------------

  /** The latest stamp accepted, starting from the first whatever it is. */
  function Previous(first: nat, times: seq<u64>): nat {
    if times == [] then first
    else
      var n := |times| - 1;
      var p := Previous(first, times[..n]);
      if Accepts(p, times[n]) then times[n] else p
  }

  predicate Accepts(previous: nat, ts: nat) { ts != 0 && ts >= previous }

  function Accepted(first: nat, times: seq<u64>): seq<nat> {
    if times == [] then []
    else
      var n := |times| - 1;
      Accepted(first, times[..n]) + if Accepts(Previous(first, times[..n]), times[n]) then [times[n]] else []
  }

  /** The step from the accepted stamp before `i`, or the first, to stamp `i`. */
  function StepTo(first: nat, accepted: seq<nat>, i: nat): int
    requires i < |accepted|
  {
    accepted[i] - if i == 0 then first else accepted[i - 1]
  }

  /** The widest step between accepted stamps, the first stamp included. */
  function WidestStep(first: nat, accepted: seq<nat>): int {
    if accepted == [] then 0
    else
      var n := |accepted| - 1;
      Max(WidestStep(first, accepted[..n]), StepTo(first, accepted, n))
  }

  function EndGap(first: nat, previous: nat, seconds: nat): int { Max(seconds * NS_PER_S - (previous - first), 0) }

  function MaxGapNs(first: nat, times: seq<u64>, seconds: nat): int {
    Max(WidestStep(first, Accepted(first, times)), EndGap(first, Previous(first, times), seconds))
  }

  /** The window a stamp falls in. */
  function WindowOf(first: nat, ts: nat): int { (ts - first) / WINDOW_NS }

  function InWindow(first: nat, accepted: seq<nat>, i: int): nat {
    if accepted == [] then 0
    else
      var n := |accepted| - 1;
      InWindow(first, accepted[..n], i) + if WindowOf(first, accepted[n]) == i then 1 else 0
  }

  /** How many of the first `n` windows hold enough records. */
  function Usable(first: nat, accepted: seq<nat>, n: nat): nat {
    if n == 0 then 0
    else Usable(first, accepted, n - 1) + if InWindow(first, accepted, n - 1) >= ENOUGH then 1 else 0
  }

  function Qualified(times: seq<u64>, seconds: nat): WindowQuality {
    if times == [] then WindowQuality(Some(0.0), seconds as real, 0)
    else
      var first := times[0];
      var accepted, windows := Accepted(first, times), seconds / WINDOW_S;
      AcceptedAreSome(first, times);
      WindowQuality(
        if windows == 0 then None else Some(Usable(first, accepted, windows) as real / windows as real),
        MaxGapNs(first, times, seconds) as real / NS_PER_S as real,
        |times| - |accepted|)
  }

  lemma {:induction false} AcceptedAreSome(first: nat, times: seq<u64>)
    ensures |Accepted(first, times)| <= |times|
  {
    if times != [] { AcceptedAreSome(first, times[..|times| - 1]); }
  }

  // -- the pass ------------------------------------------------------------------------------------

  method Qualify(times: seq<u64>, seconds: nat) returns (q: WindowQuality)
    ensures q == Qualified(times, seconds)
    ensures times == [] ==> q.usable == Some(0.0) && q.maxGapS == seconds as real && q.errors == 0
  {
    hide Usable, InWindow, WidestStep, Accepted, Previous;
    var windows := seconds / WINDOW_S;
    if times == [] { return WindowQuality(Some(0.0), seconds as real, 0); }
    var first := times[0];
    var bins := new nat[windows](_ => 0);
    var previous, errors, maxGap: int := first, 0, 0;
    Nothing(first);
    for k := 0 to |times|
      invariant previous == Previous(first, times[..k])
      invariant errors + |Accepted(first, times[..k])| == k
      invariant maxGap == WidestStep(first, Accepted(first, times[..k]))
      invariant forall i :: 0 <= i < windows ==> bins[i] == InWindow(first, Accepted(first, times[..k]), i)
      invariant previous >= first
    {
      var ts := times[k];
      assert times[..k + 1][..k] == times[..k];
      PassStep(first, times[..k], ts);
      assert times[..k] + [ts] == times[..k + 1];
      if ts == 0 || ts < previous || ts < first {
        errors := errors + 1;
        continue;
      }
      InWindowStep(first, Accepted(first, times[..k]), ts);
      maxGap := Max(maxGap, ts - previous);
      previous := ts;
      var i := (ts - first) / WINDOW_NS;
      if i < windows { bins[i] := bins[i] + 1; }
    }
    assert times[..|times|] == times;
    maxGap := Max(maxGap, Max(seconds * NS_PER_S - (previous - first), 0));
    ghost var accepted := Accepted(first, times);
    var usable := CountUsable(bins, first, accepted);
    AcceptedAreSome(first, times);
    var fraction := if windows == 0 then None else Some(usable as real / windows as real);
    return WindowQuality(fraction, maxGap as real / NS_PER_S as real, errors);
  }

  method CountUsable(bins: array<nat>, first: nat, ghost accepted: seq<nat>) returns (n: nat)
    requires forall i :: 0 <= i < bins.Length ==> bins[i] == InWindow(first, accepted, i)
    ensures n == Usable(first, accepted, bins.Length)
  {
    n := 0;
    for i := 0 to bins.Length
      invariant n == Usable(first, accepted, i)
    {
      if bins[i] >= ENOUGH { n := n + 1; }
    }
  }

  lemma Nothing(first: nat)
    ensures Previous(first, []) == first && Accepted(first, []) == [] && WidestStep(first, []) == 0
    ensures forall i :: InWindow(first, [], i) == 0
  {
  }

  lemma PassStep(first: nat, before: seq<u64>, ts: u64)
    ensures var p, a := Previous(first, before), Accepted(first, before);
      if Accepts(p, ts) then
        && Previous(first, before + [ts]) == ts && Accepted(first, before + [ts]) == a + [ts]
        && WidestStep(first, a + [ts]) == Max(WidestStep(first, a), ts - p)
      else Previous(first, before + [ts]) == p && Accepted(first, before + [ts]) == a
  {
    hide WidestStep;
    var times := before + [ts];
    assert times[..|times| - 1] == before;
    var a := Accepted(first, before);
    LastAccepted(first, before);
    StepOfMore(first, a, ts);
    assert a + [] == a;
  }

  lemma StepOfMore(first: nat, a: seq<nat>, ts: nat)
    ensures WidestStep(first, a + [ts]) ==
      Max(WidestStep(first, a), ts - if a == [] then first else a[|a| - 1])
  {
    assert (a + [ts])[..|a|] == a;
  }

  lemma {:induction false} LastAccepted(first: nat, times: seq<u64>)
    ensures var a := Accepted(first, times);
      Previous(first, times) == if a == [] then first else a[|a| - 1]
  {
    if times != [] { LastAccepted(first, times[..|times| - 1]); }
  }

  lemma InWindowStep(first: nat, a: seq<nat>, ts: nat)
    ensures forall i ::
      InWindow(first, a + [ts], i) == InWindow(first, a, i) + if WindowOf(first, ts) == i then 1 else 0
  {
    assert (a + [ts])[..|a|] == a;
  }

  // -- clock errors ---------------------------------------------------------------------------------

  ghost predicate Clean(times: seq<u64>) {
    (forall i :: 0 <= i < |times| ==> times[i] != 0) && forall i, j :: 0 <= i < j < |times| ==> times[i] <= times[j]
  }

  /** Accepted stamps never decrease, are not zero and start no earlier than the first. */
  lemma {:induction false} AcceptedIsSorted(first: nat, times: seq<u64>)
    ensures var a := Accepted(first, times);
      && (forall i :: 0 <= i < |a| ==> first <= a[i] <= Previous(first, times) && a[i] != 0)
      && (forall i, j :: 0 <= i < j < |a| ==> a[i] <= a[j])
      && first <= Previous(first, times)
  {
    if times != [] {
      var n := |times| - 1;
      assert times[..n] + [times[n]] == times;
      AcceptedIsSorted(first, times[..n]);
      PassStep(first, times[..n], times[n]);
      hide Accepted, Previous, WidestStep;
    }
  }

  /** A capture has no clock errors exactly when its stamps are not zero and never decrease. */
  lemma NoErrorsIff(times: seq<u64>, seconds: nat)
    ensures Qualified(times, seconds).errors == 0 <==> Clean(times)
  {
    if times != [] { AllAcceptedIff(times[0], times); }
  }

  lemma CleanStep(before: seq<u64>, ts: u64)
    ensures Clean(before + [ts]) <==> Clean(before) && ts != 0 && (before != [] ==> before[|before| - 1] <= ts)
  {
    var times, n := before + [ts], |before|;
    if Clean(times) {
      assert forall i :: 0 <= i < n ==> before[i] == times[i];
      assert times[n] == ts;
    }
  }

  lemma {:induction false} AllAcceptedIff(first: nat, times: seq<u64>)
    requires times != [] ==> first == times[0]
    ensures |Accepted(first, times)| == |times| <==> Clean(times)
    ensures Clean(times) ==> Accepted(first, times) == times
    decreases |times|
  {
    hide Clean, WidestStep;
    if times == [] {
      assert Clean([]) by { EmptyIsClean(); }
    } else {
      var n := |times| - 1;
      var before, ts := times[..n], times[n];
      assert before + [ts] == times;
      AllAcceptedIff(first, before);
      AcceptedAreSome(first, before);
      LastAccepted(first, before);
      PassStep(first, before, ts);
      CleanStep(before, ts);
      hide Accepted, Previous;
    }
  }

  lemma EmptyIsClean()
    ensures Clean([])
  {
  }

  // -- coverage ---------------------------------------------------------------------------------------

  lemma {:induction false} StepsCover(first: nat, times: seq<u64>, t: nat) returns (a: nat)
    requires first <= t <= Previous(first, times)
    ensures a == first || a in Accepted(first, times)
    ensures a <= t <= a + WidestStep(first, Accepted(first, times))
  {
    hide WidestStep;
    StepIsNotNegative(first, Accepted(first, times));
    LastAccepted(first, times);
    if times == [] || t == Previous(first, times) {
      a := t;
    } else {
      var n := |times| - 1;
      assert times[..n] + [times[n]] == times;
      PassStep(first, times[..n], times[n]);
      StepIsNotNegative(first, Accepted(first, times[..n]));
      hide Previous, Accepted;
      if t <= Previous(first, times[..n]) {
        a := StepsCover(first, times[..n], t);
      } else {
        a := Previous(first, times[..n]);
        LastAccepted(first, times[..n]);
      }
    }
  }

  lemma {:induction false} StepIsNotNegative(first: nat, a: seq<nat>)
    ensures WidestStep(first, a) >= 0
  {
    if a != [] { StepIsNotNegative(first, a[..|a| - 1]); }
  }

  /** Every instant from the first stamp to the end of the session has, no more than the
      reported gap before it, an accepted record, or the first stamp if that was itself zero. */
  lemma GapCoversSession(times: seq<u64>, seconds: nat, t: nat) returns (a: nat)
    requires times != [] && times[0] <= t <= times[0] + seconds * NS_PER_S
    ensures a in Accepted(times[0], times) || (a == times[0] == 0)
    ensures a <= t <= a + MaxGapNs(times[0], times, seconds)
  {
    var first := times[0];
    AcceptedIsSorted(first, times);
    StepIsNotNegative(first, Accepted(first, times));
    if t <= Previous(first, times) {
      a := StepsCover(first, times, t);
    } else {
      a := Previous(first, times);
      LastAccepted(first, times);
    }
    if first != 0 { FirstIsAccepted(times); }
  }

  lemma {:induction false} FirstIsAccepted(times: seq<u64>)
    requires times != [] && times[0] != 0
    ensures times[0] in Accepted(times[0], times)
    decreases |times|
  {
    if |times| > 1 {
      FirstIsAccepted(times[..|times| - 1]);
    } else {
      assert times[..0] == [];
    }
  }

  /** The reported gap is real: the distance between some accepted stamp, or the first, and
      the next accepted one or the end of the session. */
  lemma GapIsAttained(times: seq<u64>, seconds: nat) returns (i: nat)
    requires times != []
    ensures var first, a, gap := times[0], Accepted(times[0], times), MaxGapNs(times[0], times, seconds);
      || gap == 0 || gap == EndGap(first, Previous(first, times), seconds)
      || (i < |a| && gap == StepTo(first, a, i))
  {
    i := WidestIsAttained(times[0], Accepted(times[0], times));
  }

  lemma {:induction false} WidestIsAttained(first: nat, a: seq<nat>) returns (i: nat)
    ensures WidestStep(first, a) == 0 || (i < |a| && WidestStep(first, a) == StepTo(first, a, i))
  {
    i := 0;
    if a != [] {
      var n := |a| - 1;
      i := WidestIsAttained(first, a[..n]);
      if WidestStep(first, a) > WidestStep(first, a[..n]) { i := n; }
    }
  }

  // -- windows -----------------------------------------------------------------------------------------

  /** A stamp is in window `i` when it is at least `i` and less than `i + 1` times six seconds
      after the first. */
  lemma WindowIs(first: nat, ts: nat, i: int)
    requires first <= ts
    ensures WindowOf(first, ts) == i <==> 6_000_000_000 * i <= ts - first < 6_000_000_000 * i + 6_000_000_000
  {
  }

  ghost function Inside(first: nat, accepted: seq<nat>, i: int): set<nat> {
    set k: nat | k < |accepted| && 6_000_000_000 * i <= accepted[k] - first < 6_000_000_000 * i + 6_000_000_000
  }

  lemma {:induction false} InWindowIsSize(first: nat, accepted: seq<nat>, i: int)
    requires forall k :: 0 <= k < |accepted| ==> first <= accepted[k]
    ensures InWindow(first, accepted, i) == |Inside(first, accepted, i)|
  {
    if accepted != [] {
      var n := |accepted| - 1;
      InWindowIsSize(first, accepted[..n], i);
      WindowIs(first, accepted[n], i);
      var a, b := Inside(first, accepted[..n], i), Inside(first, accepted, i);
      assert forall k :: 0 <= k < n ==> accepted[..n][k] == accepted[k];
      hide WindowOf;
      assert b == if WindowOf(first, accepted[n]) == i then a + {n} else a;
    }
  }

  /** The first `n` windows that hold at least 150 accepted records. */
  ghost function Full(first: nat, accepted: seq<nat>, n: nat): set<nat> {
    set i: nat | i < n && |Inside(first, accepted, i)| >= 150
  }

  lemma FullStep(first: nat, accepted: seq<nat>, n: nat)
    requires n > 0
    ensures |Full(first, accepted, n)| ==
      |Full(first, accepted, n - 1)| + if |Inside(first, accepted, n - 1)| >= 150 then 1 else 0
  {
    hide Inside;
    var a, b := Full(first, accepted, n - 1), Full(first, accepted, n);
    assert b == if |Inside(first, accepted, n - 1)| >= 150 then a + {n - 1} else a;
  }

  lemma {:induction false} UsableIsSize(first: nat, accepted: seq<nat>, n: nat)
    requires forall k :: 0 <= k < |accepted| ==> first <= accepted[k]
    ensures Usable(first, accepted, n) == |Full(first, accepted, n)|
  {
    hide InWindow, Inside;
    if n > 0 {
      UsableIsSize(first, accepted, n - 1);
      InWindowIsSize(first, accepted, n - 1);
      hide Full;
      FullStep(first, accepted, n);
    }
  }

  lemma AcceptedFrom(first: nat, times: seq<u64>)
    ensures forall k :: 0 <= k < |Accepted(first, times)| ==> first <= Accepted(first, times)[k]
  {
    AcceptedIsSorted(first, times);
    hide Accepted, Previous;
    forall k | 0 <= k < |Accepted(first, times)| ensures first <= Accepted(first, times)[k] {
    }
  }

  lemma UsableIs(times: seq<u64>, seconds: nat)
    requires times != []
    ensures var u, windows := Qualified(times, seconds).usable, seconds / 6;
      && (u.None? <==> windows == 0)
      && (u.Some? ==> Times(u.value, windows as real) == Usable(times[0], Accepted(times[0], times), windows) as real)
  {
    hide Usable, Accepted, MaxGapNs, Times;
    if seconds >= 6 { Fraction(Usable(times[0], Accepted(times[0], times), seconds / 6), seconds / 6); }
  }

  lemma Fraction(a: nat, n: nat)
    requires n > 0
    ensures Times(a as real / n as real, n as real) == a as real
  {
  }

  /** The usable fraction is that of the whole six-second windows that hold at least 150
      accepted records. */
  lemma UsableMeans(times: seq<u64>, seconds: nat)
    requires times != []
    ensures var u, windows := Qualified(times, seconds).usable, seconds / 6;
      && (u.None? <==> windows == 0)
      && (u.Some? ==>
            Times(u.value, windows as real) == |Full(times[0], Accepted(times[0], times), windows)| as real)
  {
    hide Usable, Accepted, Full, Qualified, Times;
    UsableIs(times, seconds);
    AcceptedFrom(times[0], times);
    UsableIsSize(times[0], Accepted(times[0], times), seconds / 6);
  }

  /** The errors are the stamps not accepted, and the gap is in seconds. */
  lemma ErrorsMean(times: seq<u64>, seconds: nat)
    requires times != []
    ensures var q := Qualified(times, seconds);
      && q.errors + |Accepted(times[0], times)| == |times|
      && q.maxGapS * 1_000_000_000.0 == MaxGapNs(times[0], times, seconds) as real
  {
    AcceptedAreSome(times[0], times);
    hide Usable, Accepted, MaxGapNs;
  }

  function SumOfWindows(first: nat, accepted: seq<nat>, n: nat): nat {
    if n == 0 then 0 else SumOfWindows(first, accepted, n - 1) + InWindow(first, accepted, n - 1)
  }

  function Before(end: nat, accepted: seq<nat>): nat {
    if accepted == [] then 0
    else
      var n := |accepted| - 1;
      Before(end, accepted[..n]) + if accepted[n] < end then 1 else 0
  }

  /** The window counts sum to the accepted records inside whole windows: none is counted
      twice and only the tail after the last whole window is left out. */
  lemma {:induction false} WindowsPartition(first: nat, accepted: seq<nat>, n: nat)
    requires forall i :: 0 <= i < |accepted| ==> accepted[i] >= first
    ensures SumOfWindows(first, accepted, n) == Before(first + n * WINDOW_NS, accepted)
    decreases |accepted|
  {
    if accepted == [] {
      NoRecords(first, n);
    } else {
      var m := |accepted| - 1;
      WindowsPartition(first, accepted[..m], n);
      OneMoreRecord(first, accepted, n);
      hide SumOfWindows, InWindow;
    }
  }

  lemma {:induction false} NoRecords(first: nat, n: nat)
    ensures SumOfWindows(first, [], n) == 0
  {
    if n > 0 { NoRecords(first, n - 1); }
  }

  lemma {:induction false} OneMoreRecord(first: nat, accepted: seq<nat>, n: nat)
    requires accepted != [] && accepted[|accepted| - 1] >= first
    ensures SumOfWindows(first, accepted, n) ==
      SumOfWindows(first, accepted[..|accepted| - 1], n)
      + if accepted[|accepted| - 1] < first + n * WINDOW_NS then 1 else 0
  {
    if n > 0 { OneMoreRecord(first, accepted, n - 1); }
  }
}
