/**
 What a capture says about itself: the summary a segment is sealed with, and the session
 summary that walks the raw segments and falls back to the seals of pruned ones.
 A raw reader is a sequence of records that may stop at an unreadable one.
 */
module Summaries {
  import opened Prelude
  import opened Ftm

  const FTM_HZ := 320_000_000.0

  datatype Rec = Rec(ftm: u32, ntone: u16, ts: u64, iq: seq<int>)

  datatype Item = Good(rec: Rec) | Bad

  /** The records before the first unreadable one. */
  function Readable(items: seq<Item>): (recs: seq<Rec>)
    ensures |recs| <= |items| && forall i :: 0 <= i < |recs| ==> items[i] == Good(recs[i])
    ensures |recs| == |items| || items[|recs|] == Bad
  {
    if items == [] || items[0].Bad? then [] else [items[0].rec] + Readable(items[1..])
  }

  predicate IsEmpty(r: Rec) { r.iq == [] || forall v :: v in r.iq ==> v == 0 }

  function CountEmpty(recs: seq<Rec>): nat {
    if recs == [] then 0
    else CountEmpty(recs[..|recs| - 1]) + (if IsEmpty(recs[|recs| - 1]) then 1 else 0)
  }

  function Ftms(recs: seq<Rec>): (raws: seq<u32>)
    ensures |raws| == |recs| && forall i :: 0 <= i < |recs| ==> raws[i] == recs[i].ftm
  {
    seq(|recs|, i requires 0 <= i < |recs| => recs[i].ftm)
  }

  function ToneSet(recs: seq<Rec>): set<u16> { set i | 0 <= i < |recs| :: recs[i].ntone }

  function Seconds(ticks: nat): real { ticks as real / FTM_HZ }

  function Rate(records: nat, spanS: real): real {
    if spanS > 0.0 then records as real / spanS else 0.0
  }

  // -- the sorted tone list ----------------------------------------------------------------

  ghost predicate Increasing(s: seq<u16>) {
    forall i, j :: 0 <= i < j < |s| ==> s[i] < s[j]
  }

  function Elements(s: seq<u16>): set<u16> { set x | x in s }

  function Insert(s: seq<u16>, x: u16): (r: seq<u16>)
    requires Increasing(s) && x !in s
    ensures Increasing(r) && Elements(r) == Elements(s) + {x}
  {
    if s == [] || x < s[0] then [x] + s
    else
      var rest := Insert(s[1..], x);
      InsertedAfter(s, x, rest);
      [s[0]] + rest
  }

  lemma InsertedAfter(s: seq<u16>, x: u16, rest: seq<u16>)
    requires Increasing(s) && s != [] && s[0] < x && Increasing(rest) && Elements(rest) == Elements(s[1..]) + {x}
    ensures Increasing([s[0]] + rest) && Elements([s[0]] + rest) == Elements(s) + {x}
  {
    var r := [s[0]] + rest;
    assert s == [s[0]] + s[1..];
    forall j | 0 < j < |r| ensures s[0] < r[j] { assert r[j] in Elements(rest); }
    assert Elements(r) == {s[0]} + Elements(rest) && Elements(s) == {s[0]} + Elements(s[1..]);
  }

  ghost predicate Distinct(s: seq<u16>) {
    forall i, j :: 0 <= i < j < |s| ==> s[i] != s[j]
  }

  /** The sorted list, of one without repetitions. */
  function Sort(s: seq<u16>): (r: seq<u16>)
    requires Distinct(s)
    ensures Increasing(r) && Elements(r) == Elements(s)
  {
    if s == [] then []
    else
      var r := Sort(s[1..]);
      assert s == [s[0]] + s[1..];
      assert s[0] !in Elements(r);
      Insert(r, s[0])
  }

  lemma {:induction false} SortedListIsUnique(a: seq<u16>, b: seq<u16>)
    requires Increasing(a) && Increasing(b) && Elements(a) == Elements(b)
    ensures a == b
  {
    assert (a != [] ==> a[0] in Elements(a)) && (b != [] ==> b[0] in Elements(b));
    if a != [] && b != [] {
      assert a[0] in Elements(b) && b[0] in Elements(a);
      assert a[0] == b[0];
      assert Elements(a[1..]) == Elements(a) - {a[0]} by {
        assert forall i :: 0 < i < |a| ==> a[i] == a[1..][i - 1];
      }
      assert Elements(b[1..]) == Elements(b) - {b[0]} by {
        assert forall i :: 0 < i < |b| ==> b[i] == b[1..][i - 1];
      }
      SortedListIsUnique(a[1..], b[1..]);
    }
  }

  // -- sealing one segment -------------------------------------------------------------------

  /** The counts a segment's sidecar keeps after its raw file is gone. */
  datatype Seal = Seal(records: nat, empty: nat, tones: seq<u16>, rateHz: real)

  datatype SegmentStats = SegmentStats(seal: Seal, firstTs: u64, lastTs: u64)

  predicate AllZero(r: Rec) { forall i :: 0 <= i < |r.iq| ==> r.iq[i] == 0 }

  /** The empty records are those none of whose samples differs from zero. */
  lemma {:induction false} EmptiesAreCounted(recs: seq<Rec>)
    ensures CountEmpty(recs) == |set k | 0 <= k < |recs| && AllZero(recs[k])|
  {
    if recs != [] {
      var n := |recs| - 1;
      EmptiesAreCounted(recs[..n]);
      EmptyIff(recs[n]);
      hide IsEmpty, AllZero;
      var a, b := set k | 0 <= k < n && AllZero(recs[..n][k]), set k | 0 <= k < |recs| && AllZero(recs[k]);
      assert b == if AllZero(recs[n]) then a + {n} else a;
    }
  }

  lemma EmptyIff(r: Rec)
    ensures IsEmpty(r) <==> AllZero(r)
  {
    if !IsEmpty(r) {
      var v :| v in r.iq && v != 0;
      var i :| 0 <= i < |r.iq| && r.iq[i] == v;
      assert !AllZero(r);
    } else {
      forall i | 0 <= i < |r.iq| ensures r.iq[i] == 0 { assert r.iq[i] in r.iq; }
    }
  }

  /** The rate of records whose ticks step by less than 2^32: records times 320 million over
      the ticks from the first to the last, or zero if they stand still. */
  lemma RateOfTicks(recs: seq<Rec>, ticks: seq<nat>, s: Seal)
    requires SealOf(recs, s) && NonDecreasing(ticks) && |ticks| == |recs| > 0
    requires forall i :: 0 <= i < |recs| ==> recs[i].ftm == ticks[i] % 0x1_0000_0000
    requires forall i :: 0 <= i && i + 1 < |ticks| ==> ticks[i + 1] - ticks[i] < 0x1_0000_0000
    ensures var span := ticks[|ticks| - 1] - ticks[0];
      if span == 0 then s.rateHz == 0.0 else s.rateHz * span as real == (|recs| * 320_000_000) as real
  {
    SpanOfTicks(ticks);
    SameTicks(recs, ticks);
    hide Span, SealOf, Ftms, Low32;
    RateOfSpan(recs, s);
  }

  lemma RateOfSpan(recs: seq<Rec>, s: Seal)
    requires SealOf(recs, s)
    ensures var span := Span(Ftms(recs));
      if span == 0 then s.rateHz == 0.0 else s.rateHz * span as real == (|recs| * 320_000_000) as real
  {
    hide Span, CountEmpty, Seconds, ToneSet, Elements, Increasing, Rate;
    RateTimesSpan(|recs|, Span(Ftms(recs)));
  }

  lemma SameTicks(recs: seq<Rec>, ticks: seq<nat>)
    requires |ticks| == |recs| && forall i :: 0 <= i < |recs| ==> recs[i].ftm == ticks[i] % 0x1_0000_0000
    ensures Ftms(recs) == Low32(ticks)
  {
  }

  lemma RateTimesSpan(n: nat, span: nat)
    ensures if span == 0 then Rate(n, Seconds(span)) == 0.0
            else Rate(n, Seconds(span)) * span as real == (n * 320_000_000) as real
  {
    if span == 0 { return; }
    var s, rate := Seconds(span), Rate(n, Seconds(span));
    assert s * 320_000_000.0 == span as real && s > 0.0;
    assert rate * s == n as real;
    assert rate * (s * 320_000_000.0) == (rate * s) * 320_000_000.0;
  }

  ghost predicate SealOf(recs: seq<Rec>, s: Seal) {
    && s.records == |recs| && s.empty == CountEmpty(recs)
    && Increasing(s.tones) && Elements(s.tones) == ToneSet(recs)
    && s.rateHz == Rate(|recs|, Seconds(Span(Ftms(recs))))
  }

  /** The first and last stamp of the records that carry one; 0 when none does. */
  ghost predicate Bounds(recs: seq<Rec>, first: u64, last: u64) {
    && (first == 0 <==> last == 0)
    && (first == 0 <==> forall i :: 0 <= i < |recs| ==> recs[i].ts == 0)
    && (first != 0 ==>
          exists i, j :: FirstStamp(recs, i, first) && LastStamp(recs, j, last))
  }

  ghost predicate FirstStamp(recs: seq<Rec>, i: nat, ts: u64) {
    i < |recs| && recs[i].ts == ts && forall k :: 0 <= k < i ==> recs[k].ts == 0
  }

  ghost predicate LastStamp(recs: seq<Rec>, j: nat, ts: u64) {
    j < |recs| && recs[j].ts == ts && forall k :: j < k < |recs| ==> recs[k].ts == 0
  }

  /** Walk one raw segment; a file that cannot be opened yields the empty summary. */
  method SummarizeSegment(raw: Option<seq<Item>>) returns (r: SegmentStats)
    ensures raw.Some? ==> SealOf(Readable(raw.value), r.seal) && Bounds(Readable(raw.value), r.firstTs, r.lastTs)
    ensures raw.None? ==> r == SegmentStats(Seal(0, 0, [], 0.0), 0, 0)
  {
    if raw.None? { return SegmentStats(Seal(0, 0, [], 0.0), 0, 0); }
    hide Bounds, Readable, CountEmpty, Wraps, Unwrapped, ToneSet, Elements, Sort, IsEmpty, Distinct, Increasing, Span;
    ghost var all := Readable(raw.value);
    var count, empty, tones, firstFtm, lastUnwrapped, firstTs, lastTs := WalkSegment(raw.value);
    var rate := 0.0;
    if firstFtm.Some? {
      SpanIsSaturatingDifference(Ftms(all));
      var span: nat := Max(0, lastUnwrapped - firstFtm.value);
      rate := Rate(count, Seconds(span));
    }
    EmptySpan(all);
    r := SegmentStats(Seal(count, empty, Sort(tones), rate), firstTs, lastTs);
  }

  /** The walk itself, over every record before the first unreadable one. */
  method WalkSegment(items: seq<Item>)
    returns (count: nat, empty: nat, tones: seq<u16>, firstFtm: Option<u32>, lastUnwrapped: nat,
             firstTs: u64, lastTs: u64)
    ensures count == |Readable(items)| && empty == CountEmpty(Readable(items))
    ensures Listed(tones, ToneSet(Readable(items)))
    ensures firstFtm == FirstOf(Ftms(Readable(items))) && lastUnwrapped == LastUnwrapped(Ftms(Readable(items)))
    ensures Bounds(Readable(items), firstTs, lastTs)
  {
    hide Bounds, Wraps, Unwrapped, CountEmpty, Listed, Readable, ToneSet;
    EmptyWalk();
    ghost var all := Readable(items);
    count, empty, tones, firstFtm, lastUnwrapped, firstTs, lastTs := 0, 0, [], None, 0, 0, 0;
    var unwrapper := new FtmUnwrapper();
    assert all[..0] == [];
    while count < |items| && items[count].Good?
      invariant count <= |all|
      invariant empty == CountEmpty(all[..count])
      invariant Listed(tones, ToneSet(all[..count]))
      invariant Fed(unwrapper, firstFtm, lastUnwrapped, Ftms(all[..count]))
      invariant Bounds(all[..count], firstTs, lastTs)
    {
      var rec := items[count].rec;
      ghost var seen := all[..count];
      assert all[..count + 1] == seen + [rec];
      BoundsOfPush(seen, rec, firstTs, lastTs);
      FtmsOfPush(seen, rec);
      if IsEmpty(rec) { empty := empty + 1; }
      TonesOfPush(seen, rec);
      tones := AddTone(tones, rec.ntone, ToneSet(seen));
      firstFtm, lastUnwrapped := Feed(unwrapper, firstFtm, rec.ftm, lastUnwrapped, Ftms(seen));
      if rec.ts != 0 {
        if firstTs == 0 { firstTs := rec.ts; }
        lastTs := rec.ts;
      }
      count := count + 1;
    }
    assert all[..count] == all;
  }

  lemma EmptyWalk()
    ensures CountEmpty([]) == 0 && Listed([], ToneSet([])) && Bounds([], 0, 0) && Wraps([]) == 0
  {
  }

  lemma EmptySpan(recs: seq<Rec>)
    ensures recs == [] ==> Rate(|recs|, Seconds(Span(Ftms(recs)))) == 0.0
  {
  }

  lemma FtmsOfPush(seen: seq<Rec>, rec: Rec)
    ensures CountEmpty(seen + [rec]) == CountEmpty(seen) + (if IsEmpty(rec) then 1 else 0)
    ensures Ftms(seen + [rec]) == Ftms(seen) + [rec.ftm]
  {
    assert Ftms(seen + [rec]) == Ftms(seen) + [rec.ftm];
    assert (seen + [rec])[..|seen|] == seen;
  }

  /** The unwrapper and the two values kept beside it have been fed `raws`. */
  ghost predicate Fed(u: FtmUnwrapper, first: Option<u32>, last: nat, raws: seq<u32>)
    reads u
  {
    && u.last == LastOf(raws) && u.wraps == Wraps(raws)
    && first == FirstOf(raws) && last == LastUnwrapped(raws)
  }

  /** Feed one more tick, remembering the first raw and the last unwrapped one. */
  method Feed(u: FtmUnwrapper, first0: Option<u32>, raw: u32, ghost last0: nat, ghost raws: seq<u32>)
    returns (first: Option<u32>, last: nat)
    requires Fed(u, first0, last0, raws)
    modifies u
    ensures Fed(u, first, last, raws + [raw])
  {
    WrapsOfPush(raws, raw);
    last := u.Push(raw);
    first := if first0.None? then Some(raw) else first0;
  }

  function FirstOf(raws: seq<u32>): Option<u32> { if raws == [] then None else Some(raws[0]) }

  function LastUnwrapped(raws: seq<u32>): nat {
    if raws == [] then 0 else Unwrapped(raws, |raws| - 1)
  }

  /** `tones` lists each element of `s` once. */
  ghost predicate Listed(tones: seq<u16>, s: set<u16>) {
    Distinct(tones) && Elements(tones) == s
  }

  method AddTone(tones: seq<u16>, x: u16, ghost s: set<u16>) returns (r: seq<u16>)
    requires Listed(tones, s)
    ensures Listed(r, s + {x})
  {
    r := if x in tones then tones else tones + [x];
    assert Elements(r) == Elements(tones) + {x};
  }

  lemma TonesOfPush(recs: seq<Rec>, rec: Rec)
    ensures ToneSet(recs + [rec]) == ToneSet(recs) + {rec.ntone}
  {
    var all := recs + [rec];
    assert all[|recs|] == rec;
    assert forall i :: 0 <= i < |recs| ==> all[i] == recs[i];
  }

  lemma BoundsOfPush(recs: seq<Rec>, rec: Rec, first: u64, last: u64)
    requires Bounds(recs, first, last)
    ensures rec.ts == 0 ==> Bounds(recs + [rec], first, last)
    ensures rec.ts != 0 ==> Bounds(recs + [rec], if first == 0 then rec.ts else first, rec.ts)
  {
    var all := recs + [rec];
    assert all[|recs|] == rec && forall i :: 0 <= i < |recs| ==> all[i] == recs[i];
    if first != 0 {
      var i, j :| FirstStamp(recs, i, first) && LastStamp(recs, j, last);
      assert FirstStamp(all, i, first);
      if rec.ts == 0 { assert LastStamp(all, j, last); } else { assert LastStamp(all, |recs|, rec.ts); }
    } else if rec.ts != 0 {
      assert FirstStamp(all, |recs|, rec.ts) && LastStamp(all, |recs|, rec.ts);
    }
  }

  // -- the session summary --------------------------------------------------------------------

  /** Where a segment's numbers can still be had from. */
  datatype Source = OnDisk(items: seq<Item>) | Pruned(seal: Seal) | Lost

  datatype SessionSummary = SessionSummary(records: nat, empty: nat, tones: seq<u16>, rateHz: real,
                                           fromSidecar: Option<nat>)

  /** What one segment adds to the session: counts, tones, ticks and span. */
  function RecordsOf(s: Source): nat {
    match s
    case OnDisk(items) => |Readable(items)|
    case Pruned(seal) => seal.records
    case Lost => 0
  }

  function EmptyOf(s: Source): nat {
    match s
    case OnDisk(items) => CountEmpty(Readable(items))
    case Pruned(seal) => seal.empty
    case Lost => 0
  }

  function TonesOf(s: Source): set<u16> {
    match s
    case OnDisk(items) => ToneSet(Readable(items))
    case Pruned(seal) => Elements(seal.tones)
    case Lost => {}
  }

  function FtmsOf(s: Source): seq<u32> {
    if s.OnDisk? then Ftms(Readable(s.items)) else []
  }

  /** A pruned segment's span is recovered from its sealed rate. */
  function SpanOf(s: Source): real {
    match s
    case OnDisk(items) => Seconds(Span(Ftms(Readable(items))))
    case Pruned(seal) => if seal.rateHz > 0.0 then seal.records as real / seal.rateHz else 0.0
    case Lost => 0.0
  }

  datatype Totals = Totals(records: nat, empty: nat, tones: set<u16>, missing: nat, spanS: real, run: seq<u32>)

  /** What one more segment makes of the totals. */
  function Plus(t: Totals, s: Source): Totals {
    Totals(t.records + RecordsOf(s), t.empty + EmptyOf(s), t.tones + TonesOf(s),
           t.missing + (if s.Pruned? then 1 else 0), t.spanS + SpanOf(s), t.run + FtmsOf(s))
  }

  function Total(srcs: seq<Source>): Totals {
    if srcs == [] then Totals(0, 0, {}, 0, 0.0, [])
    else Plus(Total(srcs[..|srcs| - 1]), srcs[|srcs| - 1])
  }

  ghost predicate SessionOf(srcs: seq<Source>, s: SessionSummary) {
    var t := Total(srcs);
    && s.records == t.records && s.empty == t.empty
    && Increasing(s.tones) && Elements(s.tones) == t.tones
    && s.fromSidecar == (if t.missing > 0 then Some(t.missing) else None)
    && s.rateHz == Rate(t.records, if t.missing > 0 then t.spanS else Seconds(Span(t.run)))
  }

  method Summarize(srcs: seq<Source>) returns (s: SessionSummary)
    ensures SessionOf(srcs, s)
  {
    hide Readable, CountEmpty, ToneSet, Elements, Sort, IsEmpty, Wraps, Unwrapped, Plus;
    EmptyWalk();
    EmptyTones();
    var k := Tally(0, 0, [], 0, 0.0, None, 0);
    var unwrapper := new FtmUnwrapper();
    assert srcs[..0] == [];
    for i := 0 to |srcs|
      invariant Tallied(k, Total(srcs[..i])) && Fed(unwrapper, k.firstFtm, k.lastUnwrapped, Total(srcs[..i]).run)
    {
      assert srcs[..i + 1][..i] == srcs[..i];
      k := Take(srcs[i], unwrapper, k, Total(srcs[..i]));
    }
    assert srcs[..|srcs|] == srcs;
    ghost var run := Total(srcs).run;
    var rate := 0.0;
    if k.fromSidecar > 0 {
      rate := Rate(k.count, k.spanSum);
    } else if k.firstFtm.Some? {
      SpanIsSaturatingDifference(run);
      var span: nat := Max(0, k.lastUnwrapped - k.firstFtm.value);
      rate := Rate(k.count, Seconds(span));
    }
    s := SessionSummary(k.count, k.empty, Sort(k.tones), rate, if k.fromSidecar > 0 then Some(k.fromSidecar) else None);
  }

  /** The running counters of the session walk. */
  datatype Tally = Tally(
    count: nat, empty: nat, tones: seq<u16>, fromSidecar: nat, spanSum: real, firstFtm: Option<u32>, lastUnwrapped: nat)

  ghost predicate Tallied(k: Tally, t: Totals) {
    && k.count == t.records && k.empty == t.empty && Listed(k.tones, t.tones)
    && k.fromSidecar == t.missing && k.spanSum == t.spanS
  }

  /** One segment: walked if its raw file is there, else taken from its seal. */
  method Take(src: Source, unwrapper: FtmUnwrapper, k0: Tally, ghost t: Totals) returns (k: Tally)
    requires Tallied(k0, t) && Fed(unwrapper, k0.firstFtm, k0.lastUnwrapped, t.run)
    modifies unwrapper
    ensures Tallied(k, Plus(t, src)) && Fed(unwrapper, k.firstFtm, k.lastUnwrapped, Plus(t, src).run)
  {
    hide Readable, CountEmpty, ToneSet, Elements, Sort, IsEmpty, Wraps, Unwrapped, Listed;
    match src
    case OnDisk(items) =>
      var n, e, tones, span, first, last :=
        WalkInto(items, unwrapper, k0.tones, k0.firstFtm, k0.lastUnwrapped, t.run, t.tones);
      k := Tally(k0.count + n, k0.empty + e, tones, k0.fromSidecar, k0.spanSum + span, first, last);
    case Pruned(seal) =>
      var tones := AddTones(k0.tones, seal.tones, t.tones);
      var span := if seal.rateHz > 0.0 then seal.records as real / seal.rateHz else 0.0;
      k := k0.(count := k0.count + seal.records, empty := k0.empty + seal.empty, tones := tones,
               fromSidecar := k0.fromSidecar + 1, spanSum := k0.spanSum + span);
      assert t.run + [] == t.run;
    case Lost =>
      k := k0;
      assert t.run + [] == t.run && t.tones + {} == t.tones;
  }

  lemma EmptyTones()
    ensures ToneSet([]) == {} && Elements([]) == {}
  {
  }

  method AddTones(tones: seq<u16>, more: seq<u16>, ghost s: set<u16>) returns (r: seq<u16>)
    requires Listed(tones, s)
    ensures Listed(r, s + Elements(more))
  {
    r := tones;
    for i := 0 to |more|
      invariant Listed(r, s + Elements(more[..i]))
    {
      r := AddTone(r, more[i], s + Elements(more[..i]));
      assert Elements(more[..i + 1]) == Elements(more[..i]) + {more[i]};
      assert s + Elements(more[..i]) + {more[i]} == s + Elements(more[..i + 1]);
    }
    assert more[..|more|] == more;
  }

  /** One segment still on disk, walked with the session's unwrapper and one of its own. */
  method WalkInto(items: seq<Item>, unwrapper: FtmUnwrapper, tones0: seq<u16>, first0: Option<u32>, last0: nat,
                  ghost run: seq<u32>, ghost toneSet: set<u16>)
    returns (n: nat, empty: nat, tones: seq<u16>, spanS: real, firstFtm: Option<u32>, lastUnwrapped: nat)
    requires Fed(unwrapper, first0, last0, run) && Listed(tones0, toneSet)
    modifies unwrapper
    ensures n == |Readable(items)| && empty == CountEmpty(Readable(items))
    ensures Listed(tones, toneSet + ToneSet(Readable(items)))
    ensures spanS == Seconds(Span(Ftms(Readable(items))))
    ensures Fed(unwrapper, firstFtm, lastUnwrapped, run + Ftms(Readable(items)))
  {
    hide Readable, CountEmpty, ToneSet, Elements, Sort, IsEmpty, Wraps, Unwrapped, Listed;
    EmptyWalk();
    EmptyTones();
    ghost var all := Readable(items);
    n, empty, tones, firstFtm, lastUnwrapped := 0, 0, tones0, first0, last0;
    var segUnwrapper := new FtmUnwrapper();
    var segFirst: Option<u32>, segLast: nat := None, 0;
    assert all[..0] == [] && run + Ftms([]) == run && toneSet + {} == toneSet;
    while n < |items| && items[n].Good?
      invariant n <= |all|
      invariant empty == CountEmpty(all[..n])
      invariant Listed(tones, toneSet + ToneSet(all[..n]))
      invariant Fed(segUnwrapper, segFirst, segLast, Ftms(all[..n]))
      invariant Fed(unwrapper, firstFtm, lastUnwrapped, run + Ftms(all[..n]))
    {
      var rec := items[n].rec;
      ghost var seen := all[..n];
      assert all[..n + 1] == seen + [rec];
      FtmsOfPush(seen, rec);
      assert run + Ftms(seen + [rec]) == (run + Ftms(seen)) + [rec.ftm];
      segFirst, segLast := Feed(segUnwrapper, segFirst, rec.ftm, segLast, Ftms(seen));
      if IsEmpty(rec) { empty := empty + 1; }
      TonesOfPush(seen, rec);
      tones := AddTone(tones, rec.ntone, toneSet + ToneSet(seen));
      assert toneSet + ToneSet(seen) + {rec.ntone} == toneSet + ToneSet(seen + [rec]);
      firstFtm, lastUnwrapped := Feed(unwrapper, firstFtm, rec.ftm, lastUnwrapped, run + Ftms(seen));
      n := n + 1;
    }
    assert all[..n] == all;
    spanS := 0.0;
    if segFirst.Some? {
      SpanIsSaturatingDifference(Ftms(all));
      var span: nat := Max(0, segLast - segFirst.value);
      spanS := Seconds(span);
    }
  }

  // -- pruning -----------------------------------------------------------------------------------

  /** The session's segments after the raw files in `gone` were pruned. */
  function Prune(raws: seq<seq<Item>>, seals: seq<Seal>, gone: set<nat>): (srcs: seq<Source>)
    requires |raws| == |seals|
    ensures |srcs| == |raws|
  {
    seq(|raws|, i requires 0 <= i < |raws| => if i in gone then Pruned(seals[i]) else OnDisk(raws[i]))
  }

  ghost predicate Sealed(raws: seq<seq<Item>>, seals: seq<Seal>) {
    |raws| == |seals| && forall i :: 0 <= i < |raws| ==> SealOf(Readable(raws[i]), seals[i])
  }

  lemma DivideTwice(n: real, d: real)
    requires n > 0.0 && d > 0.0
    ensures n / d > 0.0 && n / (n / d) == d
  {
    var q := n / d;
    assert q * d == n;
    var x := n / q;
    assert x * q == n;
    assert (x - d) * q == 0.0;
  }

  /** The span recovered from a sealed rate is the segment's own FTM span. */
  lemma SealKeepsSpan(items: seq<Item>, seal: Seal)
    requires SealOf(Readable(items), seal)
    ensures SpanOf(Pruned(seal)) == SpanOf(OnDisk(items))
  {
    var recs := Readable(items);
    var span := Seconds(Span(Ftms(recs)));
    if span > 0.0 {
      assert |recs| > 0;
      DivideTwice(|recs| as real, span);
    } else {
      assert span == 0.0;
    }
  }

  lemma SealMatches(items: seq<Item>, seal: Seal)
    requires SealOf(Readable(items), seal)
    ensures RecordsOf(Pruned(seal)) == RecordsOf(OnDisk(items)) && EmptyOf(Pruned(seal)) == EmptyOf(OnDisk(items))
    ensures TonesOf(Pruned(seal)) == TonesOf(OnDisk(items)) && SpanOf(Pruned(seal)) == SpanOf(OnDisk(items))
  {
    SealKeepsSpan(items, seal);
  }

  lemma CountNext(gone: set<nat>, n: nat)
    ensures |set i | 0 <= i < n + 1 && i in gone| == |set i | 0 <= i < n && i in gone| + (if n in gone then 1 else 0)
  {
    var a, b := set i | 0 <= i < n && i in gone, set i | 0 <= i < n + 1 && i in gone;
    assert b == if n in gone then a + {n} else a;
  }

  lemma {:induction false} TotalsAgree(raws: seq<seq<Item>>, seals: seq<Seal>, gone: set<nat>, n: nat)
    requires Sealed(raws, seals) && n <= |raws|
    ensures
      var full, t := Total(Prune(raws, seals, {})[..n]), Total(Prune(raws, seals, gone)[..n]);
      && t.records == full.records && t.empty == full.empty && t.tones == full.tones && t.spanS == full.spanS
      && full.missing == 0 && t.missing == |set i | 0 <= i < n && i in gone|
  {
    hide SealOf, RecordsOf, EmptyOf, TonesOf, SpanOf, FtmsOf;
    var p, q := Prune(raws, seals, {}), Prune(raws, seals, gone);
    if n > 0 {
      TotalsAgree(raws, seals, gone, n - 1);
      assert p[..n][..n - 1] == p[..n - 1] && q[..n][..n - 1] == q[..n - 1];
      SealMatches(raws[n - 1], seals[n - 1]);
      CountNext(gone, n - 1);
    } else {
      assert (set i | 0 <= i < n && i in gone) == {};
    }
  }

  /** Records, empty records and tones do not depend on which raw files are gone, and the
      gone ones are counted. */
  lemma PruningIsInvisible(raws: seq<seq<Item>>, seals: seq<Seal>, gone: set<nat>,
                           full: SessionSummary, s: SessionSummary)
    requires Sealed(raws, seals) && forall i :: i in gone ==> i < |raws|
    requires SessionOf(Prune(raws, seals, {}), full) && SessionOf(Prune(raws, seals, gone), s)
    ensures s.records == full.records && s.empty == full.empty && s.tones == full.tones
    ensures s.fromSidecar == (if gone == {} then None else Some(|gone|))
  {
    hide SealOf, Total, Prune, Increasing, Elements;
    WholeTotals(raws, seals, gone);
    SortedListIsUnique(s.tones, full.tones);
  }

  lemma WholeTotals(raws: seq<seq<Item>>, seals: seq<Seal>, gone: set<nat>)
    requires Sealed(raws, seals) && forall i :: i in gone ==> i < |raws|
    ensures
      var full, t := Total(Prune(raws, seals, {})), Total(Prune(raws, seals, gone));
      && t.records == full.records && t.empty == full.empty && t.tones == full.tones && t.spanS == full.spanS
      && full.missing == 0 && t.missing == |gone|
  {
    hide SealOf, Total, Prune;
    var p, q := Prune(raws, seals, {}), Prune(raws, seals, gone);
    TotalsAgree(raws, seals, gone, |raws|);
    assert p[..|raws|] == p && q[..|raws|] == q;
    assert (set i | 0 <= i < |raws| && i in gone) == gone;
  }

  lemma {:induction false} SpansAddUp(raws: seq<seq<Item>>, seals: seq<Seal>, n: nat)
    requires |raws| == |seals| && n <= |raws|
    ensures
      var t := Total(Prune(raws, seals, {})[..n]);
      t.spanS >= 0.0 && t.spanS <= Seconds(Span(t.run))
  {
    var p := Prune(raws, seals, {});
    if n > 0 {
      SpansAddUp(raws, seals, n - 1);
      assert p[..n][..n - 1] == p[..n - 1];
      SpanOfAppend(Total(p[..n - 1]).run, FtmsOf(p[n - 1]));
    }
  }

  /** Any two non-empty prunings give one rate. It is at least the rate of the whole run,
      unless no segment has a span of its own. */
  lemma PrunedRateIsOneValue(raws: seq<seq<Item>>, seals: seq<Seal>, g1: set<nat>, g2: set<nat>,
                             full: SessionSummary, s1: SessionSummary, s2: SessionSummary)
    requires Sealed(raws, seals) && g1 != {} && g2 != {}
    requires (forall i :: i in g1 ==> i < |raws|) && forall i :: i in g2 ==> i < |raws|
    requires SessionOf(Prune(raws, seals, {}), full)
    requires SessionOf(Prune(raws, seals, g1), s1) && SessionOf(Prune(raws, seals, g2), s2)
    ensures s1.rateHz == s2.rateHz
    ensures full.rateHz <= s1.rateHz || s1.rateHz == 0.0
  {
    hide SealOf, Total, Prune, Increasing, Elements;
    WholeTotals(raws, seals, g1);
    WholeTotals(raws, seals, g2);
    SpansAddUp(raws, seals, |raws|);
    var p := Prune(raws, seals, {});
    assert p[..|raws|] == p;
    var t := Total(p);
    if t.spanS > 0.0 {
      SmallerSpanHigherRate(t.records, t.spanS, Seconds(Span(t.run)));
    }
  }

  lemma SmallerSpanHigherRate(n: nat, a: real, b: real)
    requires 0.0 < a <= b
    ensures n as real / b <= n as real / a
  {
    var x, y := n as real / b, n as real / a;
    assert x * b == y * a;
    if x > y {
      assert x * b >= x * a;
      assert x * a > y * a;
    }
  }
}
