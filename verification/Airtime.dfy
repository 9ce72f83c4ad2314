/**
 How long a frame was on the air, from its PHY fields, and the A-MPDU bookkeeping that
 charges each aggregate's preamble once. Durations are reals; rounding is not modelled.
 */
module Airtime {
  import opened Prelude
  import opened Radiotap
  import opened Runs

  // -- PPDU shapes -----------------------------------------------------------------------------

  /** Preamble (µs), data bits a symbol, symbol duration (µs). */
  datatype Shape = Shape(preamble: real, ndbps: real, tsym: real)

  function BitsPerSc(mcs: u8): Option<real> {
    if mcs == 0 then Some(0.5)
    else if mcs == 1 then Some(1.0)
    else if mcs == 2 then Some(1.5)
    else if mcs == 3 then Some(2.0)
    else if mcs == 4 then Some(3.0)
    else if mcs == 5 then Some(4.0)
    else if mcs == 6 then Some(4.5)
    else if mcs == 7 then Some(5.0)
    else if mcs == 8 then Some(6.0)
    else if mcs == 9 then Some(20.0 / 3.0)
    else if mcs == 10 then Some(7.5)
    else if mcs == 11 then Some(25.0 / 3.0)
    else None
  }

  function NsdVht(bw: nat): Option<real> {
    if bw == 20 then Some(52.0)
    else if bw == 40 then Some(108.0)
    else if bw == 80 then Some(234.0)
    else if bw == 160 then Some(468.0)
    else None
  }

  function NsdHe(bw: nat): Option<real> {
    if bw == 20 then Some(234.0)
    else if bw == 40 then Some(468.0)
    else if bw == 80 then Some(980.0)
    else if bw == 160 then Some(1960.0)
    else None
  }

  function HtLtf(nss: nat): real { if nss == 3 then 4.0 else nss as real }

  /** Data bits a symbol, if both tables know the channel and the scheme. */
  function Ndbps(nsd: Option<real>, bits: Option<real>, nss: nat): Option<real> {
    if nsd.None? || bits.None? then None else Some(nsd.value * bits.value * nss as real)
  }

  function ShapeOfHe(he: He): Option<Shape> {
    if he.format > 1 || he.bwMhz.None? then None
    else
      match Ndbps(NsdHe(he.bwMhz.value), BitsPerSc(he.mcs), he.nss)
      case None => None
      case Some(n) =>
        var sigA := if he.format == 1 then 16.0 else 8.0;
        Some(Shape(20.0 + 4.0 + sigA + 4.0 + HtLtf(he.nss) * (he.ltfUs + he.giUs), n, 12.8 + he.giUs))
  }

  function ShapeOfVht(v: Vht): Option<Shape> {
    match Ndbps(NsdVht(v.bwMhz), BitsPerSc(v.mcs), v.nss)
    case None => None
    case Some(n) => Some(Shape(20.0 + 8.0 + 4.0 + 4.0 * HtLtf(v.nss) + 4.0, n, if v.shortGi then 3.6 else 4.0))
  }

  function ShapeOfHt(h: Ht): Option<Shape> {
    if h.mcs >= 32 then None
    else
      var nss := h.mcs / 8 + 1;
      match Ndbps(NsdVht(h.bwMhz), BitsPerSc(h.mcs % 8), nss)
      case None => None
      case Some(n) => Some(Shape(20.0 + 8.0 + 4.0 + 4.0 * HtLtf(nss), n, if h.shortGi then 3.6 else 4.0))
  }

  predicate OfdmRate(r: u8) { r in {12, 18, 24, 36, 48, 72, 96, 108} }

  predicate DsssRate(r: u8) { r in {2, 4, 11, 22} }

  function ShapeOf(phy: Phy): Option<Shape> {
    if phy.he.Some? then ShapeOfHe(phy.he.value)
    else if phy.vht.Some? then ShapeOfVht(phy.vht.value)
    else if phy.ht.Some? then ShapeOfHt(phy.ht.value)
    else if phy.rate500k.Some? && OfdmRate(phy.rate500k.value)
    then Some(Shape(20.0, 4.0 * phy.rate500k.value as real / 2.0, 4.0))
    else None
  }

  predicate Legacy(phy: Phy) { phy.he.None? && phy.vht.None? && phy.ht.None? && phy.rate500k.Some? }

  predicate Dsss(phy: Phy) { Legacy(phy) && DsssRate(phy.rate500k.value) }

  // -- one frame ---------------------------------------------------------------------------------

  function Ceil(x: real): int { -((-x).Floor) }

  /** The airtime of `bits` bits, symbols not rounded up. */
  function BitTime(s: Shape, bits: real): real
    requires s.ndbps > 0.0
  {
    Times(bits / s.ndbps, s.tsym)
  }

  /** The airtime of `bits` bits in whole symbols. */
  function SymbolTime(s: Shape, bits: real): real
    requires s.ndbps > 0.0
  {
    Times(Ceil(bits / s.ndbps) as real, s.tsym)
  }

  function SubframeBits(len: nat): real { 8.0 * (len as real + 4.0) }

  function Duration(phy: Phy, first: bool): Option<real> {
    var len := phy.psduLen as real;
    if Dsss(phy) then
      var r := phy.rate500k.value;
      Some((if phy.shortPreamble && r != 2 then 96.0 else 192.0) + 8.0 * len / (r as real / 2.0))
    else
      match ShapeOf(phy)
      case None => None
      case Some(s) =>
        if s.ndbps <= 0.0 then None
        else if phy.ampduRef.Some? then
          Some(if first then s.preamble + BitTime(s, 22.0 + SubframeBits(phy.psduLen))
               else BitTime(s, SubframeBits(phy.psduLen)))
        else Some(s.preamble + SymbolTime(s, 16.0 + 8.0 * len + 6.0))
  }

  // -- aggregates ----------------------------------------------------------------------------------

  /** Whether a frame opens an aggregate, after one whose reference was `last`. */
  predicate Opens(last: Option<nat>, phy: Phy) { phy.ampduRef.None? || phy.ampduRef != last }

  class Aggregates {
    var lastRef: Option<nat>

    constructor ()
      ensures lastRef == None
    {
      lastRef := None;
    }

    method DurationUs(phy: Phy) returns (us: Option<real>)
      modifies this
      ensures us == Duration(phy, Opens(old(lastRef), phy)) && lastRef == phy.ampduRef
    {
      var first := true;
      match phy.ampduRef {
        case Some(r) =>
          first := lastRef != Some(r);
          lastRef := Some(r);
        case None =>
          lastRef := None;
      }
      us := Duration(phy, first);
    }
  }

  /** One minute's airtime, kept by source. */
  datatype Tally = Tally(injectorUs: real, otherUs: real, known: nat, unknown: nat)

  const EMPTY: Tally := Tally(0.0, 0.0, 0, 0)

  function Note(t: Tally, us: Option<real>, injector: bool): Tally {
    match us
    case None => t.(unknown := t.unknown + 1)
    case Some(d) =>
      if injector then t.(known := t.known + 1, injectorUs := t.injectorUs + d)
      else t.(known := t.known + 1, otherUs := t.otherUs + d)
  }

  datatype Frame = Frame(phy: Phy, injector: bool)

  function LastRef(frames: seq<Frame>): Option<nat> {
    if frames == [] then None else frames[|frames| - 1].phy.ampduRef
  }

  /** The tally of a run of frames, each charged by the aggregate seen before it. */
  function Tallied(frames: seq<Frame>): Tally {
    if frames == [] then EMPTY
    else
      var n := |frames| - 1;
      var before, f := frames[..n], frames[n];
      Note(Tallied(before), Duration(f.phy, Opens(LastRef(before), f.phy)), f.injector)
  }

  class MinuteAirtime {
    var injectorUs: real
    var otherUs: real
    var knownFrames: nat
    var unknownFrames: nat

    function State(): Tally
      reads this
    {
      Tally(injectorUs, otherUs, knownFrames, unknownFrames)
    }

    constructor ()
      ensures State() == EMPTY
    {
      injectorUs, otherUs, knownFrames, unknownFrames := 0.0, 0.0, 0, 0;
    }

    method Add(us: Option<real>, injector: bool)
      modifies this
      ensures State() == Note(old(State()), us, injector)
    {
      match us {
        case Some(d) =>
          knownFrames := knownFrames + 1;
          if injector { injectorUs := injectorUs + d; } else { otherUs := otherUs + d; }
        case None =>
          unknownFrames := unknownFrames + 1;
      }
    }

    /** Hand the minute over and start an empty one. */
    method Take() returns (t: Tally)
      modifies this
      ensures t == old(State()) && State() == EMPTY
    {
      t := State();
      injectorUs, otherUs, knownFrames, unknownFrames := 0.0, 0.0, 0, 0;
    }
  }

  // -- an aggregate pays its preamble once -------------------------------------------------------------

  /** The reference as a run key; frames outside aggregates share one. */
  function RefKey(f: Frame): int { match f.phy.ampduRef case None => -1 case Some(r) => r }

  function Worth(us: Option<real>): real { match us case None => 0.0 case Some(d) => d }

  /** The time a frame adds when the frames before it ended with reference `last`. */
  function Charge(last: Option<nat>, f: Frame): real { Worth(Duration(f.phy, Opens(last, f.phy))) }

  function Sum(last: Option<nat>, frames: seq<Frame>): real {
    if frames == [] then 0.0
    else
      var n := |frames| - 1;
      Sum(last, frames[..n]) + Charge(if n == 0 then last else frames[n - 1].phy.ampduRef, frames[n])
  }

  function SumOfRuns(runs: seq<seq<Frame>>): real {
    if runs == [] then 0.0 else SumOfRuns(runs[..|runs| - 1]) + Sum(None, runs[|runs| - 1])
  }

  lemma {:induction false} TallyIsSum(frames: seq<Frame>)
    ensures var t := Tallied(frames);
      t.injectorUs + t.otherUs == Sum(None, frames) && t.known + t.unknown == |frames|
  {
    hide Duration;
    if frames != [] { TallyIsSum(frames[..|frames| - 1]); }
  }

  /** The charges of the frames of one source, each by the frame before it, whoever sent that. */
  function SumBySource(frames: seq<Frame>, injector: bool): real {
    if frames == [] then 0.0
    else
      var n := |frames| - 1;
      SumBySource(frames[..n], injector)
      + if frames[n].injector == injector then Charge(LastRef(frames[..n]), frames[n]) else 0.0
  }

  lemma KnownEitherWay(phy: Phy, first: bool)
    ensures Duration(phy, first).Some? <==> Duration(phy, true).Some?
  {
    hide ShapeOf, Dsss, BitTime, SymbolTime, SubframeBits;
  }

  lemma KnownWithLast(frames: seq<Frame>)
    requires frames != []
    ensures var n := |frames| - 1;
      |set i | 0 <= i < |frames| && Duration(frames[i].phy, true).Some?| ==
      |set i | 0 <= i < n && Duration(frames[..n][i].phy, true).Some?|
      + if Duration(frames[n].phy, true).Some? then 1 else 0
  {
    hide Duration;
    var n := |frames| - 1;
    var a := set i | 0 <= i < n && Duration(frames[..n][i].phy, true).Some?;
    var b := set i | 0 <= i < |frames| && Duration(frames[i].phy, true).Some?;
    assert b == if Duration(frames[n].phy, true).Some? then a + {n} else a;
  }

  /** Each source's sum is the charges of its own frames, and the known frames are those whose
      time the PHY fields determine. */
  lemma {:induction false} TallyBySource(frames: seq<Frame>)
    ensures var t := Tallied(frames);
      && t.injectorUs == SumBySource(frames, true) && t.otherUs == SumBySource(frames, false)
      && t.known == |set i | 0 <= i < |frames| && Duration(frames[i].phy, true).Some?|
      && t.known + t.unknown == |frames|
  {
    if frames != [] {
      var n := |frames| - 1;
      var last := LastRef(frames[..n]);
      TallyBySource(frames[..n]);
      KnownWithLast(frames);
      KnownEitherWay(frames[n].phy, Opens(last, frames[n].phy));
      hide Duration, Opens;
    }
  }

  lemma {:induction false} SumAppend(last: Option<nat>, a: seq<Frame>, b: seq<Frame>)
    ensures Sum(last, a + b) == Sum(last, a) + Sum(if a == [] then last else LastRef(a), b)
    decreases |b|
  {
    hide Charge;
    if b == [] {
      assert a + b == a;
    } else {
      var n := |b| - 1;
      assert (a + b)[..|a + b| - 1] == a + b[..n] && (a + b)[|a + b| - 1] == b[n];
      SumAppend(last, a, b[..n]);
    }
  }

  /** A run that does not continue the aggregate before it is charged as if it came first. */
  lemma {:induction false} SumOfFreshRun(last: Option<nat>, run: seq<Frame>)
    requires run != [] ==> Opens(last, run[0].phy)
    ensures Sum(last, run) == Sum(None, run)
  {
    hide Duration;
    if run != [] {
      SumOfFreshRun(last, run[..|run| - 1]);
    }
  }

  /** Airtime is additive over the maximal runs of equal A-MPDU reference. */
  lemma {:induction false} SumIsOverRuns(frames: seq<Frame>, runs: seq<seq<Frame>>)
    requires MaximalRuns(RefKey, frames, runs)
    ensures Sum(None, frames) == SumOfRuns(runs)
    decreases |runs|
  {
    hide Charge, Opens;
    if runs != [] {
      var n := |runs| - 1;
      var front, run := Flatten(runs[..n]), runs[n];
      assert Constant(RefKey, run);
      SumIsOverRuns(front, runs[..n]);
      SumAppend(None, front, run);
      if n > 0 { RunOpens(runs, n); }
    }
  }

  lemma RunOpens(runs: seq<seq<Frame>>, n: nat)
    requires 0 < n < |runs| && Constant(RefKey, runs[n - 1]) && Constant(RefKey, runs[n])
    requires RefKey(runs[n - 1][0]) != RefKey(runs[n][0])
    ensures Flatten(runs[..n]) != []
    ensures Sum(LastRef(Flatten(runs[..n])), runs[n]) == Sum(None, runs[n])
  {
    hide Sum;
    var before := runs[n - 1];
    assert runs[..n][..n - 1] == runs[..n - 1];
    assert Flatten(runs[..n]) == Flatten(runs[..n - 1]) + before;
    assert LastRef(Flatten(runs[..n])) == before[|before| - 1].phy.ampduRef;
    assert RefKey(before[|before| - 1]) == RefKey(before[0]);
    SumOfFreshRun(LastRef(Flatten(runs[..n])), runs[n]);
  }

  /** The frames of one aggregate, all of one known shape. */
  ghost predicate Aggregate(run: seq<Frame>, r: nat, s: Shape) {
    && run != [] && s.ndbps > 0.0
    && forall i :: 0 <= i < |run| ==>
         run[i].phy.ampduRef == Some(r) && !Dsss(run[i].phy) && ShapeOf(run[i].phy) == Some(s)
  }

  /** The octets of a run's subframes. */
  function Octets(run: seq<Frame>): nat {
    if run == [] then 0 else Octets(run[..|run| - 1]) + run[|run| - 1].phy.psduLen
  }

  lemma BitTimeAdds(s: Shape, a: real, b: real)
    requires s.ndbps > 0.0
    ensures BitTime(s, a + b) == BitTime(s, a) + BitTime(s, b)
  {
    assert (a + b) / s.ndbps == a / s.ndbps + b / s.ndbps;
  }

  /** However many subframes an aggregate has, its preamble, SERVICE and tail are charged
      once and each subframe adds its own bits and delimiter. */
  lemma {:induction false} AggregateTotal(run: seq<Frame>, r: nat, s: Shape)
    requires Aggregate(run, r, s)
    ensures Sum(None, run) == s.preamble + BitTime(s, 22.0 + 8.0 * (Octets(run) + 4 * |run|) as real)
  {
    hide ShapeOf, Dsss, BitTime;
    var n := |run| - 1;
    var bits := SubframeBits(run[n].phy.psduLen);
    assert bits == 8.0 * (run[n].phy.psduLen + 4) as real;
    if n > 0 {
      AggregateTotal(run[..n], r, s);
      assert Charge(run[n - 1].phy.ampduRef, run[n]) == BitTime(s, bits);
      BitTimeAdds(s, 22.0 + 8.0 * (Octets(run[..n]) + 4 * n) as real, bits);
    } else {
      assert run[..n] == [];
      assert Charge(None, run[n]) == s.preamble + BitTime(s, 22.0 + bits);
    }
  }

  // -- one frame against the exact bit time ----------------------------------------------------------------

  lemma CeilBounds(x: real)
    ensures x <= Ceil(x) as real < x + 1.0
  {
  }

  lemma CeilIsMonotone(x: real, y: real)
    requires x <= y
    ensures Ceil(x) <= Ceil(y)
  {
  }

  lemma DivIsMonotone(a: real, b: real, c: real)
    requires a <= b && c > 0.0
    ensures a / c <= b / c
  {
    var p, q := a / c, b / c;
    assert p * c == a && q * c == b;
    assert p * c <= q * c;
  }

  lemma ScaleIsMonotone(a: real, b: real, t: real)
    requires a <= b && t >= 0.0
    ensures Times(a, t) <= Times(b, t)
  {
  }

  /** Symbol durations and guard intervals as the header can state them. */
  predicate Physical(phy: Phy) { phy.he.Some? ==> phy.he.value.giUs >= 0.0 }

  lemma SymbolsArePositive(phy: Phy)
    requires Physical(phy) && ShapeOf(phy).Some?
    ensures ShapeOf(phy).value.tsym > 0.0
  {
    hide BitsPerSc, NsdHe, NsdVht, HtLtf, OfdmRate;
  }

  /** A frame outside an aggregate lasts its preamble and its SERVICE, data and tail bits
      at the PHY rate, rounded up by less than one symbol. */
  lemma WithinOneSymbol(phy: Phy, first: bool)
    requires Physical(phy) && !Dsss(phy) && phy.ampduRef.None? && Duration(phy, first).Some?
    ensures var s, d := ShapeOf(phy).value, Duration(phy, first).value;
      var exact := s.preamble + BitTime(s, 22.0 + 8.0 * phy.psduLen as real);
      exact <= d < exact + s.tsym
  {
    SymbolsArePositive(phy);
    hide ShapeOf, Dsss, SymbolTime, BitTime, Ceil;
    SymbolTimeBounds(ShapeOf(phy).value, 22.0 + 8.0 * phy.psduLen as real);
    assert 16.0 + 8.0 * phy.psduLen as real + 6.0 == 22.0 + 8.0 * phy.psduLen as real;
  }

  lemma SymbolTimeBounds(s: Shape, bits: real)
    requires s.ndbps > 0.0 && s.tsym > 0.0
    ensures BitTime(s, bits) <= SymbolTime(s, bits) < BitTime(s, bits) + s.tsym
  {
    hide Times, Ceil;
    CeilBounds(bits / s.ndbps);
    RoundedUp(bits / s.ndbps, Ceil(bits / s.ndbps) as real, s.tsym);
  }

  lemma RoundedUp(x: real, c: real, t: real)
    requires x <= c < x + 1.0 && t > 0.0
    ensures Times(x, t) <= Times(c, t) < Times(x, t) + t
  {
    hide Times;
    ScaleIsMonotone(x, c, t);
    Below(c - x, t);
    TimesOfDifference(c, x, t);
  }

  lemma TimesOfDifference(a: real, b: real, t: real)
    ensures Times(a - b, t) == Times(a, t) - Times(b, t)
  {
  }

  lemma Below(d: real, t: real)
    requires d < 1.0 && t > 0.0
    ensures Times(d, t) < t
  {
    assert (1.0 - d) * t > 0.0;
  }

  /** At a legacy OFDM rate of `r` half-megabits a second the bits take `8 * bits / (4 * r)`
      microseconds: the rounding apart, the nominal rate. */
  lemma LegacyOfdmRate(phy: Phy, bits: real)
    requires Legacy(phy) && OfdmRate(phy.rate500k.value)
    ensures ShapeOf(phy) == Some(Shape(20.0, 2.0 * phy.rate500k.value as real, 4.0))
    ensures BitTime(ShapeOf(phy).value, bits) == bits / (phy.rate500k.value as real / 2.0)
  {
    var r := phy.rate500k.value as real;
    assert r >= 12.0;
    assert bits / (2.0 * r) * 4.0 == bits / (r / 2.0) by {
      var q := bits / (r / 2.0);
      assert q * (r / 2.0) == bits;
      assert (q / 4.0) * (2.0 * r) == bits;
      assert bits / (2.0 * r) == q / 4.0;
    }
  }

  /** A longer payload is never shorter on the air, in every PHY and inside an aggregate. */
  lemma MonotoneInLength(phy: Phy, longer: nat, first: bool)
    requires Physical(phy) && phy.psduLen <= longer
    ensures var d, e := Duration(phy, first), Duration(phy.(psduLen := longer), first);
      (d.Some? <==> e.Some?) && (d.Some? ==> d.value <= e.value)
  {
    var l: real, m: real := phy.psduLen as real, longer as real;
    assert ShapeOf(phy.(psduLen := longer)) == ShapeOf(phy) && Dsss(phy.(psduLen := longer)) == Dsss(phy);
    if Dsss(phy) {
      DivIsMonotone(8.0 * l, 8.0 * m, phy.rate500k.value as real / 2.0);
    } else if ShapeOf(phy).Some? && ShapeOf(phy).value.ndbps > 0.0 {
      SymbolsArePositive(phy);
      hide ShapeOf, Dsss, SymbolTime, BitTime;
      var s := ShapeOf(phy).value;
      BitTimeIsMonotone(s, SubframeBits(phy.psduLen), SubframeBits(longer));
      BitTimeIsMonotone(s, 22.0 + SubframeBits(phy.psduLen), 22.0 + SubframeBits(longer));
      SymbolTimeIsMonotone(s, 16.0 + 8.0 * l + 6.0, 16.0 + 8.0 * m + 6.0);
    }
  }

  lemma SymbolTimeIsMonotone(s: Shape, a: real, b: real)
    requires s.ndbps > 0.0 && s.tsym >= 0.0 && a <= b
    ensures SymbolTime(s, a) <= SymbolTime(s, b)
  {
    hide Times, Ceil;
    DivIsMonotone(a, b, s.ndbps);
    CeilIsMonotone(a / s.ndbps, b / s.ndbps);
    ScaleIsMonotone(Ceil(a / s.ndbps) as real, Ceil(b / s.ndbps) as real, s.tsym);
  }

  lemma BitTimeIsMonotone(s: Shape, a: real, b: real)
    requires s.ndbps > 0.0 && s.tsym >= 0.0 && a <= b
    ensures BitTime(s, a) <= BitTime(s, b)
  {
    hide Times;
    DivIsMonotone(a, b, s.ndbps);
    ScaleIsMonotone(a / s.ndbps, b / s.ndbps, s.tsym);
  }

  // -- the PHYs' rates and preambles ---------------------------------------------------------------------------

  /** Constellation bits, and the code rate as a fraction, of MCS 0 to 11. */
  function Scheme(mcs: nat): (nat, nat, nat)
    requires mcs <= 11
  {
    [(1, 1, 2), (2, 1, 2), (2, 3, 4), (4, 1, 2), (4, 3, 4), (6, 2, 3), (6, 3, 4), (6, 5, 6),
     (8, 3, 4), (8, 5, 6), (10, 3, 4), (10, 5, 6)][mcs]
  }

  /** A data subcarrier carries its constellation's bits times the code rate. */
  lemma BitsOfScheme(mcs: u8)
    ensures BitsPerSc(mcs).Some? <==> mcs <= 11
    ensures mcs <= 11 ==>
      BitsPerSc(mcs).value * Scheme(mcs).2 as real == (Scheme(mcs).0 * Scheme(mcs).1) as real
  {
  }

  /** Megabits a second of MCS 0 with one stream and the long guard interval. */
  function BaseRate(bwMhz: nat): real
    requires bwMhz in {20, 40, 80, 160}
  {
    if bwMhz == 20 then 6.5 else if bwMhz == 40 then 13.5 else if bwMhz == 80 then 29.25 else 58.5
  }

  /** Bits a symbol of HE MCS 0 with one stream. */
  function BaseHeBits(bwMhz: nat): real
    requires bwMhz in {20, 40, 80, 160}
  {
    if bwMhz == 20 then 117.0 else if bwMhz == 40 then 234.0 else if bwMhz == 80 then 490.0 else 980.0
  }

  /** How many training fields one to eight streams take (Table 21-13 of IEEE Std 802.11-2016). */
  function TrainingFields(nss: nat): nat
    requires 1 <= nss <= 8
  {
    [1, 2, 4, 4, 6, 6, 8, 8][nss - 1]
  }

  /** How many of them the code leaves out. */
  function Shortfall(nss: nat): nat { if nss == 5 || nss == 7 then 1 else 0 }

  /** The count is right except for five and seven streams, where it is one too few. */
  lemma TrainingIff(nss: nat)
    requires 1 <= nss <= 8
    ensures HtLtf(nss) == TrainingFields(nss) as real <==> nss != 5 && nss != 7
    ensures HtLtf(nss) == (TrainingFields(nss) - Shortfall(nss)) as real
  {
  }

  /** VHT: the base rate of the width, times streams, times the scheme's bits over those of
      MCS 0, in symbols of 4 or 3.6 us; 36 us of preamble and 4 us for each training field. */
  lemma VhtShape(v: Vht)
    requires v.bwMhz in {20, 40, 80, 160} && v.mcs <= 11 && 1 <= v.nss <= 8
    ensures var s := ShapeOfVht(v);
      && s.Some? && s.value.tsym == (if v.shortGi then 3.6 else 4.0)
      && s.value.ndbps == 4.0 * BaseRate(v.bwMhz) * (2.0 * BitsPerSc(v.mcs).value) * v.nss as real
      && s.value.preamble == 36.0 + 4.0 * (TrainingFields(v.nss) - Shortfall(v.nss)) as real
  {
    TrainingIff(v.nss);
    hide BitsPerSc, TrainingFields;
    BitsOfScheme(v.mcs);
    assert NsdVht(v.bwMhz).value == 8.0 * BaseRate(v.bwMhz);
  }

  /** HT: MCS 8 to 31 are MCS 0 to 7 with two to four streams; 32 us and the training fields. */
  lemma HtShape(h: Ht, mcs: u8, nss: nat)
    requires h.bwMhz == 20 || h.bwMhz == 40
    requires mcs < 8 && 1 <= nss <= 4 && h.mcs == 8 * (nss - 1) + mcs
    ensures var s := ShapeOfHt(h);
      && s.Some? && s.value.tsym == (if h.shortGi then 3.6 else 4.0)
      && s.value.ndbps == 4.0 * BaseRate(h.bwMhz) * (2.0 * BitsPerSc(mcs).value) * nss as real
      && s.value.preamble == 32.0 + 4.0 * TrainingFields(nss) as real
  {
    hide BitsPerSc;
    BitsOfScheme(mcs);
    assert h.mcs / 8 + 1 == nss && h.mcs % 8 == mcs;
    assert NsdVht(h.bwMhz).value == 8.0 * BaseRate(h.bwMhz);
  }

  /** HE: single-user and extended-range frames only, of known width; 12.8 us symbols and the
      guard interval; 36 us of preamble, 8 more in extended range, and the training fields. */
  lemma HeShape(h: He)
    requires h.bwMhz.Some? ==> h.bwMhz.value in {20, 40, 80, 160}
    requires h.mcs <= 11 && 1 <= h.nss <= 8
    ensures var s := ShapeOfHe(h);
      && (s.Some? <==> (h.format == 0 || h.format == 1) && h.bwMhz.Some?)
      && (s.Some? ==>
            && s.value.tsym == 12.8 + h.giUs
            && s.value.ndbps == BaseHeBits(h.bwMhz.value) * (2.0 * BitsPerSc(h.mcs).value) * h.nss as real
            && s.value.preamble == (if h.format == 1 then 44.0 else 36.0)
                                   + (TrainingFields(h.nss) - Shortfall(h.nss)) as real * (h.ltfUs + h.giUs))
  {
    if ShapeOfHe(h).Some? { HePreamble(h); }
    hide BitsPerSc, TrainingFields, Shortfall, HtLtf;
    BitsOfScheme(h.mcs);
    if h.bwMhz.Some? { assert NsdHe(h.bwMhz.value).value == 2.0 * BaseHeBits(h.bwMhz.value); }
  }

  lemma HePreamble(h: He)
    requires 1 <= h.nss <= 8 && ShapeOfHe(h).Some?
    ensures ShapeOfHe(h).value.preamble == (if h.format == 1 then 44.0 else 36.0)
                                           + (TrainingFields(h.nss) - Shortfall(h.nss)) as real * (h.ltfUs + h.giUs)
  {
    TrainingIff(h.nss);
    hide BitsPerSc, TrainingFields, Shortfall, HtLtf, NsdHe;
    assert HtLtf(h.nss) == (TrainingFields(h.nss) - Shortfall(h.nss)) as real;
  }

  /** Legacy OFDM is timed at the eight rates of the standard and at no other. */
  lemma LegacyRates(phy: Phy)
    requires phy.he.None? && phy.vht.None? && phy.ht.None?
    ensures ShapeOf(phy).Some? <==> phy.rate500k.Some? && phy.rate500k.value in {12, 18, 24, 36, 48, 72, 96, 108}
  {
  }

  /** Beyond the tables nothing is timed: HT from MCS 32, VHT and HE from MCS 12. */
  lemma UnknownSchemes(h: Ht, v: Vht, e: He)
    ensures h.mcs >= 32 ==> ShapeOfHt(h).None?
    ensures v.mcs >= 12 ==> ShapeOfVht(v).None?
    ensures e.mcs >= 12 ==> ShapeOfHe(e).None?
    ensures v.bwMhz !in {20, 40, 80, 160} ==> ShapeOfVht(v).None?
  {
  }

  /** A PHY with more than one description is timed as HE, else VHT, else HT, else legacy. */
  lemma NewestPhyCounts(phy: Phy)
    ensures phy.he.Some? ==> ShapeOf(phy) == ShapeOfHe(phy.he.value)
    ensures phy.he.None? && phy.vht.Some? ==> ShapeOf(phy) == ShapeOfVht(phy.vht.value)
    ensures phy.he.None? && phy.vht.None? && phy.ht.Some? ==> ShapeOf(phy) == ShapeOfHt(phy.ht.value)
    ensures Dsss(phy) ==> phy.he.None? && phy.vht.None? && phy.ht.None?
  {
  }

  /** DSSS at 1, 2, 5.5 and 11 Mb/s: 192 us of preamble, 96 if it is short and the rate is not
      1 Mb/s, and the octets at the rate. */
  lemma DsssDuration(phy: Phy, first: bool)
    requires phy.he.None? && phy.vht.None? && phy.ht.None? && phy.rate500k.Some?
    ensures Dsss(phy) <==> phy.rate500k.value in {2, 4, 11, 22}
    ensures Dsss(phy) ==>
      && Duration(phy, first).Some?
      && (Duration(phy, first).value - (if phy.shortPreamble && phy.rate500k.value > 2 then 96.0 else 192.0))
         * phy.rate500k.value as real == 16.0 * phy.psduLen as real
  {
    if Dsss(phy) {
      var r, bits := phy.rate500k.value as real, 8.0 * phy.psduLen as real;
      var t := bits / (r / 2.0);
      assert t * (r / 2.0) == bits;
    }
  }

  // -- known frames ------------------------------------------------------------------------------------------

  function Plain(len: nat): Phy { NO_PHY.(psduLen := len) }

  /** One frame of each PHY: 6 Mb/s OFDM, 1 Mb/s DSSS whose short preamble does not apply,
      HT and VHT, and a trigger-based HE frame, which is unknown rather than zero. */
  lemma KnownDurations()
    ensures Duration(Plain(100).(rate500k := Some(12)), true) == Some(20.0 + 35.0 * 4.0)
    ensures Duration(Plain(10).(rate500k := Some(2), shortPreamble := true), true) == Some(192.0 + 80.0)
    ensures Duration(Plain(1000).(ht := Some(Ht(7, 20, false))), true) == Some(36.0 + 31.0 * 4.0)
    ensures Duration(Plain(1500).(vht := Some(Vht(9, 2, 80, true))), true) == Some(44.0 + 4.0 * 3.6)
    ensures forall he: He :: he.format > 1 ==> Duration(Plain(200).(he := Some(he)), true) == None
  {
    assert Ceil(822.0 / 24.0) == 35;
    assert Ceil(8022.0 / 260.0) == 31;
    assert 234.0 * (20.0 / 3.0) * 2.0 == 3120.0;
    assert Ceil(12022.0 / 3120.0) == 4;
  }
}
