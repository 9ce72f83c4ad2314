/**
 What an emitted burst minute says, field by field, in terms of the records received:
 which order statistics its quantiles stand between, which windows and chains they are
 taken over, and which records it counts.
 */
module BurstMinutes {
  import opened Prelude
  import opened Division
  import opened Runs
  import opened Burst

  // -- order statistics ------------------------------------------------------------------------

  /** `v` stands at `a / b` of the way through the ordered values `s`: at one of them when the
      division is exact, else in proportion between two neighbours. */
  ghost predicate StandsAt(s: seq<real>, a: nat, b: nat, v: real)
    requires s != [] && a < b
  {
    var steps := a * (|s| - 1);
    var k, r := steps / b, steps % b;
    && 0 <= k < |s| && (r == 0 ==> v == s[k])
    && (r != 0 ==>
          && k + 1 < |s| && s[k] <= v <= s[k + 1]
          && (v - s[k]) * b as real == (s[k + 1] - s[k]) * r as real)
  }

  /** `v` is that value for the ordered `values`, and there is none without values. */
  ghost predicate AtFraction(values: seq<real>, a: nat, b: nat, v: Option<real>)
    requires a < b
  {
    && (v.None? <==> values == [])
    && (v.Some? ==>
          forall s :: Ordered(s) && multiset(s) == multiset(values) ==> s != [] && StandsAt(s, a, b, v.value))
  }

  lemma FractionOf(pos: real, m: nat, b: nat)
    requires b > 0 && Times(pos, b as real) == m as real
    ensures pos.Floor == m / b && Times(pos - pos.Floor as real, b as real) == (m % b) as real
  {
    var k, r := m / b, m % b;
    WholeTimes(k, b);
    Apart(pos, k as real, b as real);
    assert m == k * b + r by { Euclid(m, b); }
    hide Times;
    UnitInterval(pos - k as real, b as real);
  }

  lemma Euclid(m: nat, b: nat)
    requires b > 0
    ensures m == (m / b) * b + m % b
  {
  }

  lemma WholeTimes(k: nat, b: nat)
    ensures Times(k as real, b as real) == (k * b) as real
  {
  }

  lemma Apart(a: real, c: real, b: real)
    ensures Times(a - c, b) == Times(a, b) - Times(c, b)
  {
  }

  lemma UnitInterval(d: real, b: real)
    requires b > 0.0 && 0.0 <= Times(d, b) < b
    ensures 0.0 <= d < 1.0
  {
  }

  lemma QuantileStandsAt(values: seq<real>, a: nat, b: nat, q: real)
    requires a < b && 0.0 <= q <= 1.0 && q * b as real == a as real
    ensures AtFraction(values, a, b, Quantile(values, q))
  {
    if values != [] {
      SortOrdered(values);
      var s, n := SortReals(values), |values|;
      assert s != [];
      ValueStandsAt(s, a, b, q);
      forall t | Ordered(t) && multiset(t) == multiset(values) ensures t == s { OrderedIsUnique(t, s); }
    }
  }

  lemma ValueStandsAt(s: seq<real>, a: nat, b: nat, q: real)
    requires s != [] && Ordered(s) && a < b && 0.0 <= q <= 1.0 && q * b as real == a as real
    ensures StandsAt(s, a, b, ValueAt(s, Position(|s|, q)))
  {
    var n: nat := |s| - 1;
    var pos := Position(|s|, q);
    ValueAtBetween(s, pos);
    PositionTimes(q, n, a, b);
    FractionOf(pos, a * n, b);
    var k, r := pos.Floor, (a * n) % b;
    if r == 0 {
      WholePosition(pos - k as real, b as real);
    } else {
      NotWhole(pos - k as real, b as real);
      Regrouped(s[k + 1] - s[k], pos - k as real, b as real);
    }
  }

  lemma PositionTimes(q: real, n: nat, a: nat, b: nat)
    requires 0.0 <= q <= 1.0 && q * b as real == a as real
    ensures Times(Position(n + 1, q), b as real) == (a * n) as real
  {
    ProductOfThree(q, n as real, b as real);
    WholeTimes(a, n);
  }

  lemma ProductOfThree(q: real, n: real, b: real)
    ensures q * n * b == (q * b) * n
  {
  }

  lemma WholePosition(d: real, b: real)
    requires Times(d, b) == 0.0 && b > 0.0
    ensures d == 0.0
  {
  }

  lemma NotWhole(d: real, b: real)
    requires Times(d, b) != 0.0
    ensures d != 0.0
  {
  }

  lemma Regrouped(w: real, d: real, b: real)
    ensures Times(w, d) * b == w * Times(d, b)
  {
  }

  // -- the series of a minute --------------------------------------------------------------------

  /** The strongest chain is the strongest of the chains that measured. */
  lemma StrongestOfChains(o: Obs)
    ensures RssiMax(o).None? <==> forall c: nat :: RssiChain(o, c).None?
    ensures RssiMax(o).Some? ==>
      (exists c: nat :: RssiChain(o, c) == RssiMax(o))
      && forall c: nat :: RssiChain(o, c).Some? ==> RssiChain(o, c).value <= RssiMax(o).value
  {
    var v := o.rssi[..Min(|o.rssi|, o.nrx)];
    GreatestIsMaximum(v);
    forall c: nat ensures RssiChain(o, c).Some? ==>
        RssiMax(o).Some? && RssiChain(o, c).value <= RssiMax(o).value
    {
      ChainBelowStrongest(o, c);
    }
    if RssiMax(o).Some? {
      var c: nat :| c < |v| && v[c] == RssiMax(o).value;
      assert RssiChain(o, c) == RssiMax(o);
    }
  }

  /** A chain measured when the record reports it and its value is not zero. */
  lemma ChainMeasures(o: Obs, c: nat)
    ensures RssiChain(o, c).Some? <==> c < o.nrx && c < |o.rssi| && o.rssi[c] != 0
    ensures RssiChain(o, c).Some? ==> RssiChain(o, c).value == o.rssi[c]
  {
  }

  lemma InjectorAddress(o: Obs)
    ensures IsInjector(o) <==>
      |o.mac| == 6 && o.mac[0] == 0x02 && o.mac[1] == 0x6d && o.mac[2] == 0x6f && o.mac[3] == 0x6e
  {
    if |o.mac| == 6 { assert o.mac[..4] == [o.mac[0], o.mac[1], o.mac[2], o.mac[3]]; }
  }

  /** A record lies in its window, and the window starts in the record's minute; a stamp from
      2^63 on is read as negative. */
  lemma WindowAndMinute(cfg: Config, o: Obs)
    ensures var ns: int := if o.ts < 0x8000_0000_0000_0000 then o.ts else o.ts - 0x1_0000_0000_0000_0000;
      var start := cfg.windowNs * WindowOf(cfg, o);
      && start <= ns < start + cfg.windowNs
      && 60_000_000_000 * MinuteOf(cfg, o) <= start < 60_000_000_000 * MinuteOf(cfg, o) + 60_000_000_000
  {
    DivBounds(Signed(o.ts), cfg.windowNs);
    DivBounds(WindowOf(cfg, o) * cfg.windowNs, MINUTE_NS);
  }

  /** Injector frames and the others share out the records. */
  lemma {:induction false} SelectShares(os: seq<Obs>)
    ensures multiset(Select(os, true)) + multiset(Select(os, false)) == multiset(os)
    ensures forall inj, o :: o in Select(os, inj) ==> IsInjector(o) == inj
  {
    hide IsInjector;
    if os == [] {
      NothingSelected();
    } else {
      SelectShares(os[..|os| - 1]);
      assert os == os[..|os| - 1] + [os[|os| - 1]];
      forall inj ensures forall o :: o in Select(os, inj) ==> IsInjector(o) == inj {
        OneMoreSelected(os, inj);
      }
      OneMoreShared(os);
      hide Select;
    }
  }

  lemma OneMoreSelected(os: seq<Obs>, inj: bool)
    requires os != [] && forall o :: o in Select(os[..|os| - 1], inj) ==> IsInjector(o) == inj
    ensures forall o :: o in Select(os, inj) ==> IsInjector(o) == inj
  {
    hide IsInjector;
  }

  lemma OneMoreShared(os: seq<Obs>)
    requires os != []
    ensures var n := |os| - 1;
      multiset(Select(os, true)) + multiset(Select(os, false)) ==
      multiset(Select(os[..n], true)) + multiset(Select(os[..n], false)) + multiset{os[n]}
  {
    hide IsInjector;
  }

  lemma NothingSelected()
    ensures Select([], true) == [] && Select([], false) == []
  {
  }

  lemma {:induction false} SelectCounts(os: seq<Obs>, inj: bool)
    ensures |Select(os, inj)| == |set i | 0 <= i < |os| && IsInjector(os[i]) == inj|
  {
    hide IsInjector;
    if os != [] {
      SelectCounts(os[..|os| - 1], inj);
      CountWithLast(os, inj);
    }
  }

  lemma CountWithLast(os: seq<Obs>, inj: bool)
    requires os != []
    ensures var n := |os| - 1;
      |set i | 0 <= i < |os| && IsInjector(os[i]) == inj| ==
      |set i | 0 <= i < n && IsInjector(os[..n][i]) == inj| + if IsInjector(os[n]) == inj then 1 else 0
  {
    hide IsInjector;
    var n := |os| - 1;
    var a := set i | 0 <= i < n && IsInjector(os[..n][i]) == inj;
    var b := set i | 0 <= i < |os| && IsInjector(os[i]) == inj;
    assert b == if IsInjector(os[n]) == inj then a + {n} else a;
  }

  // -- deviations ----------------------------------------------------------------------------------

  function SquareSum(v: seq<real>): real {
    if v == [] then 0.0 else SquareSum(v[..|v| - 1]) + Times(v[|v| - 1], v[|v| - 1])
  }

  lemma SquareOfDifference(x: real, m: real)
    ensures Times(x - m, x - m) == Times(x, x) - 2.0 * Times(m, x) + Times(m, m)
  {
  }

  lemma TimesAdds(m: real, a: real, b: real)
    ensures Times(m, a + b) == Times(m, a) + Times(m, b)
  {
  }

  lemma {:induction false} SquaresExpand(v: seq<real>, m: real)
    ensures SquaresAround(v, m) == SquareSum(v) - 2.0 * Times(m, Sum(v)) + Times(|v| as real, Times(m, m))
  {
    hide Times;
    if v == [] {
      NoTimes(m, Times(m, m));
    } else {
      var n := |v| - 1;
      SquaresExpand(v[..n], m);
      SquareOfDifference(v[n], m);
      TimesAdds(m, Sum(v[..n]), v[n]);
      OneMore(n, Times(m, m));
    }
  }

  lemma NoTimes(m: real, x: real)
    ensures Times(m, 0.0) == 0.0 && Times(0.0, x) == 0.0
  {
  }

  lemma OneMore(n: nat, x: real)
    ensures Times((n + 1) as real, x) == Times(n as real, x) + x
  {
  }

  /** The variance by moments, without a mean: n times the sum of squares less the square of
      the sum, over n (n - 1); two values are needed. */
  lemma VarianceByMoments(v: seq<real>)
    ensures Variance(v).Some? <==> |v| >= 2
    ensures |v| >= 2 ==>
      Times(Variance(v).value, (|v| * (|v| - 1)) as real) == Times(|v| as real, SquareSum(v)) - Times(Sum(v), Sum(v))
  {
    if |v| >= 2 {
      var n, sum, sq := |v| as real, Sum(v), SquareSum(v);
      var m := sum / n;
      SquaresExpand(v, m);
      var around := SquaresAround(v, m);
      DivideTimes(sum, n);
      DivideBy(around, |v| - 1, |v|);
      hide Times, SquaresAround, Sum, SquareSum;
      ByMoments(n, m, sum, sq, around);
    }
  }

  lemma DivideTimes(a: real, n: real)
    requires n != 0.0
    ensures Times(a / n, n) == a
  {
  }

  lemma ByMoments(n: real, m: real, sum: real, sq: real, around: real)
    requires Times(m, n) == sum && around == sq - 2.0 * Times(m, sum) + Times(n, Times(m, m))
    ensures Times(n, around) == Times(n, sq) - Times(sum, sum)
  {
    Associate(n, m, sum);
    Associate(n, m, m);
    Associate(n, sum, m);
    Distribute(n, sq, Times(m, sum), Times(n, Times(m, m)));
    hide Times;
    assert Times(n, Times(n, Times(m, m))) == Times(sum, sum);
  }

  /** Products in either order and grouping. */
  lemma Associate(n: real, a: real, b: real)
    ensures Times(n, Times(a, b)) == Times(Times(a, n), b) == Times(Times(b, n), a)
    ensures Times(a, b) == Times(b, a)
  {
    var p := a * b;
    assert n * p == (n * a) * b == (a * n) * b;
    assert n * p == (n * b) * a == (b * n) * a;
  }

  lemma Distribute(n: real, a: real, b: real, c: real)
    ensures Times(n, a - 2.0 * b + c) == Times(n, a) - 2.0 * Times(n, b) + Times(n, c)
  {
  }

  lemma DivideBy(a: real, k: nat, n: nat)
    requires k > 0
    ensures Times(a / k as real, (n * k) as real) == Times(n as real, a)
  {
    var q := a / k as real;
    assert q * k as real == a;
    assert (n * k) as real == n as real * k as real;
  }

  /** A window's samples: of the strongest chain, or of one chain. */
  function Series(w: seq<Obs>, c: Option<nat>): seq<real> {
    match c
    case None => Strongest(w)
    case Some(chain) => Chain(w, chain)
  }

  /** `ks` are the windows that count, in order: those with at least `minFrames` measured
      records, and at least two values in the series at hand. */
  ghost predicate Counting(cfg: Config, wins: seq<seq<Obs>>, c: Option<nat>, ks: seq<nat>) {
    && (forall i, j :: 0 <= i < j < |ks| ==> ks[i] < ks[j])
    && forall k: nat :: k in ks <==>
         k < |wins| && |Strongest(wins[k])| >= cfg.minFrames && |Series(wins[k], c)| >= 2
  }

  /** `sds` are the deviations of those windows. */
  ghost predicate DeviationsOf(cfg: Config, wins: seq<seq<Obs>>, c: Option<nat>, ks: seq<nat>, sds: seq<real>) {
    && Counting(cfg, wins, c, ks) && |sds| == |ks|
    && forall i :: 0 <= i < |ks| ==> ks[i] < |wins| && Variance(Series(wins[ks[i]], c)).Some?
                                     && sds[i] == cfg.root(Variance(Series(wins[ks[i]], c)).value)
  }

  lemma {:induction false} WindowsThatCount(cfg: Config, wins: seq<seq<Obs>>) returns (ks: seq<nat>)
    ensures DeviationsOf(cfg, wins, None, ks, WindowSds(cfg, wins))
  {
    hide Strongest, Variance;
    ks := [];
    if wins != [] {
      var n := |wins| - 1;
      ks := WindowsThatCount(cfg, wins[..n]);
      ks := OneMoreWindow(cfg, wins, None, ks, WindowSds(cfg, wins[..n]));
    }
  }

  lemma {:induction false} ChainWindowsThatCount(cfg: Config, wins: seq<seq<Obs>>, c: nat) returns (ks: seq<nat>)
    ensures DeviationsOf(cfg, wins, Some(c), ks, ChainSds(cfg, wins, c))
  {
    hide Strongest, Chain, Variance;
    ks := [];
    if wins != [] {
      var n := |wins| - 1;
      ks := ChainWindowsThatCount(cfg, wins[..n], c);
      ks := OneMoreWindow(cfg, wins, Some(c), ks, ChainSds(cfg, wins[..n], c));
    }
  }

  lemma OneMoreWindow(cfg: Config, wins: seq<seq<Obs>>, c: Option<nat>, ks: seq<nat>, sds: seq<real>)
    returns (more: seq<nat>)
    requires wins != [] && DeviationsOf(cfg, wins[..|wins| - 1], c, ks, sds)
    ensures var w := wins[|wins| - 1];
      DeviationsOf(cfg, wins, c, more,
                   sds + if |Strongest(w)| >= cfg.minFrames then Opt(Sd1(cfg.root, Series(w, c))) else [])
  {
    hide Strongest, Series, Counting;
    var n := |wins| - 1;
    VarianceByMoments(Series(wins[n], c));
    more := CountOneMore(cfg, wins, c, ks);
    hide Variance;
    forall i | 0 <= i < |ks| ensures wins[..n][ks[i]] == wins[ks[i]] {
    }
  }

  lemma CountOneMore(cfg: Config, wins: seq<seq<Obs>>, c: Option<nat>, ks: seq<nat>) returns (more: seq<nat>)
    requires wins != [] && Counting(cfg, wins[..|wins| - 1], c, ks)
    ensures Counting(cfg, wins, c, more)
    ensures var w, n := wins[|wins| - 1], |wins| - 1;
      more == if |Strongest(w)| >= cfg.minFrames && |Series(w, c)| >= 2 then ks + [n] else ks
  {
    hide Strongest, Series;
    var n: nat := |wins| - 1;
    more := if |Strongest(wins[n])| >= cfg.minFrames && |Series(wins[n], c)| >= 2 then ks + [n] else ks;
    forall i | 0 <= i < |ks| ensures ks[i] < n { assert ks[i] in ks; }
    forall k: nat ensures k in more <==>
        k < |wins| && |Strongest(wins[k])| >= cfg.minFrames && |Series(wins[k], c)| >= 2
    {
      if k < n { assert wins[..n][k] == wins[k]; }
    }
  }

  // -- an emitted minute -----------------------------------------------------------------------------

  /** What the minute of the records `run` reports about its windows `wins` and its ambient
      records `amb`. */
  ghost predicate Reports(cfg: Config, run: seq<Obs>, wins: seq<seq<Obs>>, amb: seq<Obs>, m: Minute)
    requires run != []
  {
    && m.startS == 60 * MinuteOf(cfg, run[0])
    && m.injFrames == |set i | 0 <= i < |run| && IsInjector(run[i])|
    && m.ambientFrames == |set i | 0 <= i < |run| && !IsInjector(run[i])|
    && (exists ks, sds :: DeviationsOf(cfg, wins, None, ks, sds) && m.windows == |ks|
                          && AtFraction(sds, 3, 4, m.p75) && AtFraction(sds, 9, 10, m.p90))
    && ReportsChain(cfg, wins, amb, 0, m.chainP75.a, m.chainP90.a, m.ambient.a)
    && ReportsChain(cfg, wins, amb, 1, m.chainP75.b, m.chainP90.b, m.ambient.b)
  }

  ghost predicate ReportsChain(cfg: Config, wins: seq<seq<Obs>>, amb: seq<Obs>, c: nat, p75: Option<real>,
                               p90: Option<real>, stat: ChainStat) {
    && (exists ks, sds :: DeviationsOf(cfg, wins, Some(c), ks, sds)
                          && AtFraction(sds, 3, 4, p75) && AtFraction(sds, 9, 10, p90))
    && AtFraction(Chain(amb, c), 1, 2, stat.median)
    && (stat.sd.Some? <==> |Chain(amb, c)| >= 2)
    && (stat.sd.Some? ==> Variance(Chain(amb, c)).Some? && stat.sd.value == cfg.root(Variance(Chain(amb, c)).value))
  }

  lemma ChainIsReported(cfg: Config, wins: seq<seq<Obs>>, amb: seq<Obs>, c: nat)
    ensures ReportsChain(cfg, wins, amb, c, Quantile(ChainSds(cfg, wins, c), 0.75),
                         Quantile(ChainSds(cfg, wins, c), 0.9),
                         ChainStat(Quantile(Chain(amb, c), 0.5), Sd1(cfg.root, Chain(amb, c))))
  {
    var ks := ChainWindowsThatCount(cfg, wins, c);
    VarianceByMoments(Chain(amb, c));
    hide Chain, ChainSds, Quantile, AtFraction, DeviationsOf, Variance;
    QuantileStandsAt(ChainSds(cfg, wins, c), 3, 4, 0.75);
    QuantileStandsAt(ChainSds(cfg, wins, c), 9, 10, 0.9);
    QuantileStandsAt(Chain(amb, c), 1, 2, 0.5);
  }

  lemma FramesAreReported(cfg: Config, run: seq<Obs>)
    requires run != []
    ensures var m := BatchMinute(cfg, run);
      && m.injFrames == |set i | 0 <= i < |run| && IsInjector(run[i])|
      && m.ambientFrames == |set i | 0 <= i < |run| && !IsInjector(run[i])|
      && m.startS == 60 * MinuteOf(cfg, run[0])
  {
    SelectCounts(run, true);
    SelectCounts(run, false);
    hide IsInjector, Select, MinuteOf, Quantile, Sd1, WindowSds, ChainSds, Chain;
    assert (set i | 0 <= i < |run| && !IsInjector(run[i])) == set i | 0 <= i < |run| && IsInjector(run[i]) == false;
    assert (set i | 0 <= i < |run| && IsInjector(run[i])) == set i | 0 <= i < |run| && IsInjector(run[i]) == true;
  }

  lemma WindowsAreReported(cfg: Config, wins: seq<seq<Obs>>)
    ensures exists ks, sds ::
      && DeviationsOf(cfg, wins, None, ks, sds) && |WindowSds(cfg, wins)| == |ks|
      && AtFraction(sds, 3, 4, Quantile(WindowSds(cfg, wins), 0.75))
      && AtFraction(sds, 9, 10, Quantile(WindowSds(cfg, wins), 0.9))
  {
    var ks := WindowsThatCount(cfg, wins);
    assert |WindowSds(cfg, wins)| == |ks|;
    hide WindowSds, Quantile, AtFraction, DeviationsOf;
    QuantileStandsAt(WindowSds(cfg, wins), 3, 4, 0.75);
    QuantileStandsAt(WindowSds(cfg, wins), 9, 10, 0.9);
  }

  lemma BatchMinuteReports(cfg: Config, run: seq<Obs>)
    requires run != []
    ensures Reports(cfg, run, Windows(cfg, run), Select(run, false), BatchMinute(cfg, run))
  {
    var wins, amb := Windows(cfg, run), Select(run, false);
    FramesAreReported(cfg, run);
    WindowsAreReported(cfg, wins);
    ChainIsReported(cfg, wins, amb, 0);
    ChainIsReported(cfg, wins, amb, 1);
    hide Chain, ChainSds, WindowSds, Quantile, AtFraction, DeviationsOf, ReportsChain, IsInjector, Select, Sd1,
      MinuteOf, Windows;
  }

  /** Every minute that the accumulator has emitted reports its own maximal run of records of
      one minute, over the maximal runs of one window among the run's injector records. */
  lemma EmittedMinutesReport(cfg: Config, seen: seq<Obs>, emitted: seq<Minute>, minute: Option<int>, a: Acc,
                             runs: seq<seq<Obs>>, i: nat) returns (wins: seq<seq<Obs>>)
    requires Streams(cfg, seen, emitted, minute, a) && MaximalRuns(MinuteKey(cfg), seen, runs) && i < |emitted|
    ensures |runs| == |emitted| + 1 && runs[i] != []
    ensures MaximalRuns(WindowKey(cfg), Select(runs[i], true), wins)
    ensures Reports(cfg, runs[i], wins, Select(runs[i], false), emitted[i])
  {
    hide Follows, Report, BatchMinute, Reports, Ended, Select, Flatten, Constant;
    MaximalRunsAreCut(MinuteKey(cfg), seen, runs);
    BatchIsPerRun(cfg, runs[..|runs| - 1]);
    wins := Windows(cfg, runs[i]);
    CutIsMaximal(WindowKey(cfg), Select(runs[i], true));
    BatchMinuteReports(cfg, runs[i]);
  }

  lemma {:induction false} BatchIsPerRun(cfg: Config, runs: seq<seq<Obs>>)
    requires forall j :: 0 <= j < |runs| ==> runs[j] != []
    ensures |Batch(cfg, runs)| == |runs|
    ensures forall i :: 0 <= i < |runs| ==> Batch(cfg, runs)[i] == BatchMinute(cfg, runs[i])
  {
    hide BatchMinute;
    if runs != [] { BatchIsPerRun(cfg, runs[..|runs| - 1]); }
  }
}
