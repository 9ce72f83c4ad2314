/**
 The free-running 32-bit FTM clock and its unwrapper: how far the unwrapped values are
 from the true ticks, and what unwrapping segment by segment does to spans.
 */
module Ftm {
  import opened Prelude

  class FtmUnwrapper {
    var last: Option<u32>
    var wraps: nat

    constructor ()
      ensures last == None && wraps == 0
    {
      last, wraps := None, 0;
    }

    method Push(raw: u32) returns (r: nat)
      modifies this
      ensures last == Some(raw)
      ensures wraps == old(wraps) + WrapStep(old(last), raw)
      ensures r == wraps * TWO_32 + raw
    {
      if last.Some? && raw < last.value { wraps := wraps + 1; }
      last := Some(raw);
      r := wraps * TWO_32 + raw;
    }
  }

  function WrapStep(last: Option<u32>, raw: u32): nat {
    if last.Some? && raw < last.value then 1 else 0
  }

  function LastOf(raws: seq<u32>): Option<u32> {
    if raws == [] then None else Some(raws[|raws| - 1])
  }

  /** How often the counter steps down in `raws`. */
  function Wraps(raws: seq<u32>): nat {
    if |raws| < 2 then 0
    else Wraps(raws[..|raws| - 1]) + WrapStep(Some(raws[|raws| - 2]), raws[|raws| - 1])
  }

  /** The value a fresh unwrapper returns for `raws[i]`. */
  function Unwrapped(raws: seq<u32>, i: nat): nat
    requires i < |raws|
  {
    Wraps(raws[..i + 1]) * TWO_32 + raws[i]
  }

  lemma WrapsOfPush(raws: seq<u32>, x: u32)
    ensures Wraps(raws + [x]) == Wraps(raws) + WrapStep(LastOf(raws), x)
    ensures Unwrapped(raws + [x], |raws|) == Wraps(raws + [x]) * TWO_32 + x
  {
    assert (raws + [x])[..|raws|] == raws;
    assert (raws + [x])[..|raws| + 1] == raws + [x];
  }

  lemma {:induction false} WrapsGrow(raws: seq<u32>, i: nat, j: nat)
    requires i <= j <= |raws|
    ensures Wraps(raws[..i]) <= Wraps(raws[..j])
  {
    if i < j {
      assert raws[..j][..j - 1] == raws[..j - 1];
      WrapsGrow(raws, i, j - 1);
    }
  }

  /** Unwrapped values never go back. */
  lemma {:induction false} UnwrappedMonotone(raws: seq<u32>, i: nat, j: nat)
    requires i <= j < |raws|
    ensures Unwrapped(raws, i) <= Unwrapped(raws, j)
  {
    if i < j {
      UnwrappedMonotone(raws, i, j - 1);
      assert raws[..j + 1][..j] == raws[..j];
    }
  }

  // -- against the true ticks --------------------------------------------------------------

  function Low32(ticks: seq<nat>): (raws: seq<u32>)
    ensures |raws| == |ticks| && forall i :: 0 <= i < |ticks| ==> raws[i] == ticks[i] % TWO_32
  {
    seq(|ticks|, i requires 0 <= i < |ticks| => ticks[i] % TWO_32)
  }

  ghost predicate NonDecreasing(ticks: seq<nat>) {
    forall i, j :: 0 <= i <= j < |ticks| ==> ticks[i] <= ticks[j]
  }

  /** One push moves the unwrapped value by the true step, less whole turns that the
      counter could not show. */
  lemma StepError(ticks: seq<nat>, i: nat)
    requires NonDecreasing(ticks) && i + 1 < |ticks|
    ensures Unwrapped(Low32(ticks), i) <= Unwrapped(Low32(ticks), i + 1)
    ensures
      var d := (ticks[i + 1] - ticks[i]) - (Unwrapped(Low32(ticks), i + 1) - Unwrapped(Low32(ticks), i));
      d >= 0 && (d == 0 <==> ticks[i + 1] - ticks[i] < TWO_32)
  {
    var raws := Low32(ticks);
    assert raws[..i + 2][..i + 1] == raws[..i + 1];
    var a, b := ticks[i], ticks[i + 1];
    assert a == TWO_32 * (a / TWO_32) + a % TWO_32;
    assert b == TWO_32 * (b / TWO_32) + b % TWO_32;
  }

  lemma {:induction false} ErrorGrows(ticks: seq<nat>, i: nat, j: nat)
    requires NonDecreasing(ticks) && i <= j < |ticks|
    ensures ticks[i] - Unwrapped(Low32(ticks), i) <= ticks[j] - Unwrapped(Low32(ticks), j)
  {
    hide Unwrapped;
    if i < j {
      ErrorGrows(ticks, i, j - 1);
      StepError(ticks, j - 1);
    }
  }

  lemma {:induction false} ErrorConstant(ticks: seq<nat>, j: nat)
    requires NonDecreasing(ticks) && j < |ticks|
    requires forall i :: 0 <= i && i + 1 < |ticks| ==> ticks[i + 1] - ticks[i] < TWO_32
    ensures Unwrapped(Low32(ticks), j) == ticks[j] - ticks[0] + Low32(ticks)[0]
  {
    if j > 0 {
      ErrorConstant(ticks, j - 1);
      assert ticks[j - 1 + 1] - ticks[j - 1] < TWO_32;
      StepError(ticks, j - 1);
    }
  }

  /** The unwrapped low halves follow the true ticks at a constant distance for exactly
      the tick sequences that never advance by a whole turn or more. */
  lemma UnwrapRecoversTicksIff(ticks: seq<nat>)
    requires NonDecreasing(ticks) && ticks != []
    ensures (forall j :: 0 <= j < |ticks| ==> ticks[j] - Unwrapped(Low32(ticks), j) == ticks[0] - Low32(ticks)[0])
      <==> forall i :: 0 <= i && i + 1 < |ticks| ==> ticks[i + 1] - ticks[i] < TWO_32
  {
    if forall i :: 0 <= i && i + 1 < |ticks| ==> ticks[i + 1] - ticks[i] < TWO_32 {
      forall j | 0 <= j < |ticks|
        ensures ticks[j] - Unwrapped(Low32(ticks), j) == ticks[0] - Low32(ticks)[0]
      {
        ErrorConstant(ticks, j);
      }
    } else {
      var i :| 0 <= i && i + 1 < |ticks| && ticks[i + 1] - ticks[i] >= TWO_32;
      StepError(ticks, i);
      assert ticks[i + 1] - Unwrapped(Low32(ticks), i + 1) != ticks[i] - Unwrapped(Low32(ticks), i);
    }
  }

  // -- segment by segment --------------------------------------------------------------------

  /** Unwrapping a segment inside a longer run shifts all its values by one whole number
      of turns. */
  lemma {:induction false} SegmentShift(before: seq<u32>, s: seq<u32>, i: nat)
    requires i < |s|
    ensures Unwrapped(before + s, |before| + i) ==
      Unwrapped(s, i) + (Wraps(before) + WrapStep(LastOf(before), s[0])) * TWO_32
  {
    var run := before + s;
    if i == 0 {
      WrapsOfPush(before, s[0]);
      assert run[..|before| + 1] == before + [s[0]];
      assert s[..1] == [s[0]];
    } else {
      SegmentShift(before, s, i - 1);
      assert run[..|before| + i + 1][..|before| + i] == run[..|before| + i];
      assert s[..i + 1][..i] == s[..i];
    }
  }

  /** `last.saturating_sub(first)` over a fresh unwrapper; 0 for an empty segment. */
  function Span(s: seq<u32>): nat {
    if s == [] then 0
    else
      UnwrappedMonotone(s, 0, |s| - 1);
      Unwrapped(s, |s| - 1) - Unwrapped(s, 0)
  }

  lemma SpanIsSaturatingDifference(s: seq<u32>)
    requires s != []
    ensures Span(s) == Max(0, Unwrapped(s, |s| - 1) - s[0])
  {
    UnwrappedMonotone(s, 0, |s| - 1);
    assert s[..1] == [s[0]];
  }

  /** The span of the low halves of true ticks is their own, if no step is 2^32 or more. */
  lemma SpanOfTicks(ticks: seq<nat>)
    requires NonDecreasing(ticks) && ticks != []
    requires forall i :: 0 <= i && i + 1 < |ticks| ==> ticks[i + 1] - ticks[i] < 0x1_0000_0000
    ensures Span(Low32(ticks)) == ticks[|ticks| - 1] - ticks[0]
  {
    ErrorConstant(ticks, 0);
    ErrorConstant(ticks, |ticks| - 1);
  }

  function Concat(segs: seq<seq<u32>>): seq<u32> {
    if segs == [] then [] else Concat(segs[..|segs| - 1]) + segs[|segs| - 1]
  }

  function SpanSum(segs: seq<seq<u32>>): nat {
    if segs == [] then 0 else SpanSum(segs[..|segs| - 1]) + Span(segs[|segs| - 1])
  }

  lemma SpanOfAppend(a: seq<u32>, b: seq<u32>)
    ensures Span(a) + Span(b) <= Span(a + b)
  {
    if a == [] {
      assert a + b == b;
    } else if b == [] {
      assert a + b == a;
    } else {
      var run := a + b;
      SegmentShift(a, b, 0);
      SegmentShift(a, b, |b| - 1);
      UnwrappedMonotone(run, |a| - 1, |a|);
      assert run[..|a|] == a[..|a|] && run[..1] == a[..1];
    }
  }

  /** The per-segment spans together never exceed the span of the whole run. */
  lemma {:induction false} SpanSumBelowRunSpan(segs: seq<seq<u32>>)
    ensures SpanSum(segs) <= Span(Concat(segs))
  {
    if segs != [] {
      SpanSumBelowRunSpan(segs[..|segs| - 1]);
      SpanOfAppend(Concat(segs[..|segs| - 1]), segs[|segs| - 1]);
    }
  }
}
