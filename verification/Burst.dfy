/**
 The live burst statistic: injector RSSI per window, window deviations per minute, and
 ambient RSSI per minute. The one-pass accumulator is shown to emit what a batch
 computation over maximal same-minute and same-window runs would.
 Values are reals; the square root is a parameter.
 */
module Burst {
  import opened Prelude
  import opened Runs

  type Root = real -> real

  const MINUTE_NS := 60_000_000_000
  const INJECTOR_PREFIX: seq<u8> := [0x02, 0x6d, 0x6f, 0x6e]

  datatype Obs = Obs(ts: u64, mac: seq<u8>, rssi: seq<int>, nrx: u8)

  predicate IsInjector(o: Obs) { |o.mac| == 6 && o.mac[..4] == INJECTOR_PREFIX }

  // -- per-record values ------------------------------------------------------------------

  function Greatest(v: seq<int>): Option<int> {
    if v == [] then None
    else match Greatest(v[..|v| - 1])
      case None => if v[|v| - 1] != 0 then Some(v[|v| - 1]) else None
      case Some(m) => if v[|v| - 1] != 0 && v[|v| - 1] >= m then Some(v[|v| - 1]) else Some(m)
  }

  /** The strongest chain that measured: the greatest non-zero value of the reported chains. */
  function RssiMax(o: Obs): Option<int> { Greatest(o.rssi[..Min(|o.rssi|, o.nrx)]) }

  function RssiChain(o: Obs, c: nat): Option<int> {
    if c >= o.nrx || c >= |o.rssi| || o.rssi[c] == 0 then None else Some(o.rssi[c])
  }

  lemma {:induction false} GreatestIsMaximum(v: seq<int>)
    ensures Greatest(v).None? <==> forall i :: 0 <= i < |v| ==> v[i] == 0
    ensures Greatest(v).Some? ==> Greatest(v).value in v && Greatest(v).value != 0
    ensures Greatest(v).Some? ==> forall i :: 0 <= i < |v| && v[i] != 0 ==> v[i] <= Greatest(v).value
  {
    if v != [] { GreatestIsMaximum(v[..|v| - 1]); }
  }

  /** A chain that measured makes the strongest chain measure, at least as strongly. */
  lemma ChainBelowStrongest(o: Obs, c: nat)
    ensures RssiChain(o, c).Some? ==> RssiMax(o).Some? && RssiChain(o, c).value <= RssiMax(o).value
  {
    GreatestIsMaximum(o.rssi[..Min(|o.rssi|, o.nrx)]);
    if RssiChain(o, c).Some? {
      assert o.rssi[..Min(|o.rssi|, o.nrx)][c] == o.rssi[c];
    }
  }

  // -- statistics ---------------------------------------------------------------------------

  function Sum(v: seq<real>): real { if v == [] then 0.0 else Sum(v[..|v| - 1]) + v[|v| - 1] }

  function SquaresAround(v: seq<real>, mean: real): real {
    if v == [] then 0.0
    else SquaresAround(v[..|v| - 1], mean) + Times(v[|v| - 1] - mean, v[|v| - 1] - mean)
  }

  /** The sample variance, for at least two values. */
  function Variance(v: seq<real>): Option<real> {
    if |v| < 2 then None
    else Some(SquaresAround(v, Sum(v) / (|v| as real)) / (|v| - 1) as real)
  }

  function Sd1(root: Root, v: seq<real>): Option<real> {
    match Variance(v)
    case Some(x) => Some(root(x))
    case None => None
  }

  lemma TimesSameSign(a: real, b: real)
    requires (a < 0.0 && b < 0.0) || (a > 0.0 && b > 0.0)
    ensures Times(a, b) > 0.0
  {
  }

  lemma SquareSign(d: real)
    ensures d == 0.0 ==> Times(d, d) == 0.0
    ensures d != 0.0 ==> Times(d, d) > 0.0
  {
    hide Times;
    if d != 0.0 { TimesSameSign(d, d); } else { TimesZero(d); }
  }

  lemma TimesZero(b: real)
    ensures Times(0.0, b) == 0.0
  {
  }

  /** What the square root is taken of: never negative, and zero only for equal values. */
  lemma {:induction false} SquaresSign(v: seq<real>, mean: real)
    ensures if forall i :: 0 <= i < |v| ==> v[i] == mean then SquaresAround(v, mean) == 0.0
            else SquaresAround(v, mean) > 0.0
  {
    hide Times;
    if v != [] {
      var n := |v| - 1;
      SquaresSign(v[..n], mean);
      SquareSign(v[n] - mean);
      assert forall i :: 0 <= i < n ==> v[..n][i] == v[i];
    }
  }

  function InsertReal(s: seq<real>, x: real): (r: seq<real>)
    ensures multiset(r) == multiset(s) + multiset{x} && |r| == |s| + 1
  {
    if s == [] || x <= s[0] then [x] + s
    else
      assert s == [s[0]] + s[1..];
      [s[0]] + InsertReal(s[1..], x)
  }

  ghost predicate Ordered(s: seq<real>) {
    forall i, j :: 0 <= i <= j < |s| ==> s[i] <= s[j]
  }

  lemma {:induction false} InsertKeepsBound(s: seq<real>, x: real, low: real)
    requires low <= x && forall i :: 0 <= i < |s| ==> low <= s[i]
    ensures forall i :: 0 <= i < |InsertReal(s, x)| ==> low <= InsertReal(s, x)[i]
  {
    if s != [] { InsertKeepsBound(s[1..], x, low); }
  }

  lemma {:induction false} InsertOrdered(s: seq<real>, x: real)
    requires Ordered(s)
    ensures Ordered(InsertReal(s, x))
  {
    if s != [] && x > s[0] {
      InsertOrdered(s[1..], x);
      InsertKeepsBound(s[1..], x, s[0]);
    }
  }

  function SortReals(s: seq<real>): (r: seq<real>)
    ensures multiset(r) == multiset(s) && |r| == |s|
  {
    if s == [] then []
    else
      assert s == [s[0]] + s[1..];
      InsertReal(SortReals(s[1..]), s[0])
  }

  lemma {:induction false} SortOrdered(s: seq<real>)
    ensures Ordered(SortReals(s))
  {
    if s != [] {
      SortOrdered(s[1..]);
      InsertOrdered(SortReals(s[1..]), s[0]);
    }
  }

  function Clamp01(q: real): real { if q < 0.0 then 0.0 else if q > 1.0 then 1.0 else q }

  /** Where quantile `q` falls among `n` order statistics. */
  function Position(n: nat, q: real): (pos: real)
    requires n > 0
    ensures 0.0 <= pos <= (n - 1) as real
  {
    var c := Clamp01(q);
    ScaledInRange(c, (n - 1) as real);
    c * (n - 1) as real
  }

  lemma ScaledInRange(c: real, m: real)
    requires 0.0 <= c <= 1.0 && m >= 0.0
    ensures 0.0 <= c * m <= m && 0.0 <= Times(m, c) <= m
  {
    assert (1.0 - c) * m >= 0.0;
  }

  /** The value at a position between two order statistics, by linear interpolation. */
  function ValueAt(s: seq<real>, pos: real): real
    requires s != [] && 0.0 <= pos <= (|s| - 1) as real
  {
    var lo := pos.Floor;
    var hi := if lo as real == pos then lo else lo + 1;
    s[lo] + Times(s[hi] - s[lo], pos - lo as real)
  }

  function Quantile(v: seq<real>, q: real): Option<real> {
    if v == [] then None else Some(ValueAt(SortReals(v), Position(|v|, q)))
  }

  // -- batch --------------------------------------------------------------------------------

  datatype Pair<T> = Pair(a: T, b: T) {
    function At(c: nat): T { if c == 0 then a else b }
  }

  datatype ChainStat = ChainStat(median: Option<real>, sd: Option<real>)

  datatype Minute = Minute(
    startS: int, windows: nat, p75: Option<real>, p90: Option<real>,
    chainP75: Pair<Option<real>>, chainP90: Pair<Option<real>>,
    injFrames: nat, ambientFrames: nat, ambient: Pair<ChainStat>)

  /** The settings of one accumulator. */
  datatype Setup = Setup(windowNs: int, minFrames: nat, root: Root)

  /** `window_s` is positive: the program divides by it. */
  type Config = c: Setup | c.windowNs > 0 witness Setup(1, 0, x => x)

  /** The stamp read as a signed 64-bit number. */
  function Signed(ts: u64): int { if ts < TWO_63 then ts else ts - TWO_64 }

  function WindowOf(cfg: Config, o: Obs): int
  {
    Signed(o.ts) / cfg.windowNs
  }

  function WindowKey(cfg: Config): Obs -> int { o => WindowOf(cfg, o) }

  function MinuteOfWindow(cfg: Config, window: int): int
  {
    (window * cfg.windowNs) / MINUTE_NS
  }

  /** The minute in which the record's window starts. */
  function MinuteOf(cfg: Config, o: Obs): int
  {
    MinuteOfWindow(cfg, WindowOf(cfg, o))
  }

  function MinuteKey(cfg: Config): Obs -> int { o => MinuteOf(cfg, o) }

  function Select(os: seq<Obs>, inj: bool): seq<Obs> {
    if os == [] then []
    else Select(os[..|os| - 1], inj) + (if IsInjector(os[|os| - 1]) == inj then [os[|os| - 1]] else [])
  }

  function Reals(r: Option<int>): seq<real> { if r.Some? then [r.value as real] else [] }

  function Strongest(os: seq<Obs>): seq<real> {
    if os == [] then [] else Strongest(os[..|os| - 1]) + Reals(RssiMax(os[|os| - 1]))
  }

  function Chain(os: seq<Obs>, c: nat): seq<real> {
    if os == [] then [] else Chain(os[..|os| - 1], c) + Reals(RssiChain(os[|os| - 1], c))
  }

  function Opt(x: Option<real>): seq<real> { if x.Some? then [x.value] else [] }

  /** The deviations of the windows that met the frame minimum. */
  function WindowSds(cfg: Config, wins: seq<seq<Obs>>): seq<real> {
    if wins == [] then []
    else
      var w := wins[|wins| - 1];
      WindowSds(cfg, wins[..|wins| - 1])
      + (if |Strongest(w)| >= cfg.minFrames then Opt(Sd1(cfg.root, Strongest(w))) else [])
  }

  function ChainSds(cfg: Config, wins: seq<seq<Obs>>, c: nat): seq<real> {
    if wins == [] then []
    else
      var w := wins[|wins| - 1];
      ChainSds(cfg, wins[..|wins| - 1], c)
      + (if |Strongest(w)| >= cfg.minFrames then Opt(Sd1(cfg.root, Chain(w, c))) else [])
  }

  function Windows(cfg: Config, run: seq<Obs>): seq<seq<Obs>>
  {
    Cut(WindowKey(cfg), Select(run, true))
  }

  /** The minute statistic of one maximal same-minute run, from scratch. */
  function BatchMinute(cfg: Config, run: seq<Obs>): Minute
    requires run != []
  {
    var wins := Windows(cfg, run);
    var amb := Select(run, false);
    Report(cfg, MinuteOf(cfg, run[0]), WindowSds(cfg, wins), Pair(ChainSds(cfg, wins, 0), ChainSds(cfg, wins, 1)),
           |Select(run, true)|, |amb|, Pair(Chain(amb, 0), Chain(amb, 1)))
  }

  function Report(cfg: Config, minute: int, sds: seq<real>, sdsChain: Pair<seq<real>>,
                  inj: nat, amb: nat, ambient: Pair<seq<real>>): Minute
  {
    Minute(minute * 60, |sds|, Quantile(sds, 0.75), Quantile(sds, 0.9),
           Pair(Quantile(sdsChain.a, 0.75), Quantile(sdsChain.b, 0.75)),
           Pair(Quantile(sdsChain.a, 0.9), Quantile(sdsChain.b, 0.9)),
           inj, amb,
           Pair(ChainStat(Quantile(ambient.a, 0.5), Sd1(cfg.root, ambient.a)),
                ChainStat(Quantile(ambient.b, 0.5), Sd1(cfg.root, ambient.b))))
  }

  function MinuteRuns(cfg: Config, os: seq<Obs>): seq<seq<Obs>>
  {
    Cut(MinuteKey(cfg), os)
  }

  function Batch(cfg: Config, runs: seq<seq<Obs>>): seq<Minute>
    requires forall i :: 0 <= i < |runs| ==> runs[i] != []
  {
    if runs == [] then []
    else Batch(cfg, runs[..|runs| - 1]) + [BatchMinute(cfg, runs[|runs| - 1])]
  }

  // -- one pass -----------------------------------------------------------------------------

  /** The accumulator's fields that belong to the current minute. */
  datatype Acc = Acc(
    window: Option<int>, rssi: seq<real>, rssiChain: Pair<seq<real>>,
    sds: seq<real>, sdsChain: Pair<seq<real>>, inj: nat, amb: nat, ambient: Pair<seq<real>>)

  const NONE_YET: Acc := Acc(None, [], Pair([], []), [], Pair([], []), 0, 0, Pair([], []))

  /** `a` is what the records `run` of one minute leave in the accumulator. */
  ghost predicate Follows(cfg: Config, a: Acc, run: seq<Obs>) {
    var inj, amb := Select(run, true), Select(run, false);
    && a.inj == |inj| && a.amb == |amb| && a.ambient == Pair(Chain(amb, 0), Chain(amb, 1))
    && WindowsFollow(cfg, a, Windows(cfg, run))
  }

  ghost predicate InWindow(cfg: Config, a: Acc, win: seq<Obs>) {
    && win != [] && a.window == Some(WindowOf(cfg, win[|win| - 1]))
    && a.rssi == Strongest(win) && a.rssiChain == Pair(Chain(win, 0), Chain(win, 1))
  }

  /** `close_window`. */
  function Closed(cfg: Config, a: Acc): Acc {
    var full := |a.rssi| >= cfg.minFrames;
    a.(window := None, rssi := [], rssiChain := Pair([], []),
       sds := if full then a.sds + Opt(Sd1(cfg.root, a.rssi)) else a.sds,
       sdsChain := if full then Pair(a.sdsChain.a + Opt(Sd1(cfg.root, a.rssiChain.a)),
                                     a.sdsChain.b + Opt(Sd1(cfg.root, a.rssiChain.b)))
                   else a.sdsChain)
  }

  function AddAmbient(a: Acc, o: Obs): Acc {
    a.(amb := a.amb + 1,
       ambient := Pair(a.ambient.a + Reals(RssiChain(o, 0)), a.ambient.b + Reals(RssiChain(o, 1))))
  }

  function AddInjector(cfg: Config, a: Acc, o: Obs): Acc {
    var w := WindowOf(cfg, o);
    var b := if a.window.Some? && a.window != Some(w) then Closed(cfg, a) else a;
    b.(inj := a.inj + 1, window := Some(w), rssi := b.rssi + Reals(RssiMax(o)),
       rssiChain := Pair(b.rssiChain.a + Reals(RssiChain(o, 0)), b.rssiChain.b + Reals(RssiChain(o, 1))))
  }

  lemma SelectPush(run: seq<Obs>, o: Obs, inj: bool)
    ensures Select(run + [o], inj) == Select(run, inj) + (if IsInjector(o) == inj then [o] else [])
  {
    assert (run + [o])[..|run|] == run;
  }

  lemma ValuesPush(os: seq<Obs>, o: Obs)
    ensures Strongest(os + [o]) == Strongest(os) + Reals(RssiMax(o))
    ensures Chain(os + [o], 0) == Chain(os, 0) + Reals(RssiChain(o, 0))
    ensures Chain(os + [o], 1) == Chain(os, 1) + Reals(RssiChain(o, 1))
  {
    assert (os + [o])[..|os|] == os;
  }

  lemma AmbientFollows(cfg: Config, a: Acc, run: seq<Obs>, o: Obs)
    requires Follows(cfg, a, run) && !IsInjector(o)
    ensures Follows(cfg, AddAmbient(a, o), run + [o])
  {
    hide Strongest, Chain, WindowSds, ChainSds, RssiChain;
    SelectPush(run, o, true);
    SelectPush(run, o, false);
    ValuesPush(Select(run, false), o);
    assert Select(run + [o], true) == Select(run, true);
  }

  /** The open window's series and the closed windows' deviations, given the windows. */
  ghost predicate WindowsFollow(cfg: Config, a: Acc, wins: seq<seq<Obs>>) {
    if wins == [] then
      a.window == None && a.rssi == [] && a.rssiChain == Pair([], []) && a.sds == [] && a.sdsChain == Pair([], [])
    else
      var n := |wins| - 1;
      && Constant(WindowKey(cfg), wins[n]) && InWindow(cfg, a, wins[n])
      && a.sds == WindowSds(cfg, wins[..n])
      && a.sdsChain == Pair(ChainSds(cfg, wins[..n], 0), ChainSds(cfg, wins[..n], 1))
  }

  lemma ClosedCountsAll(cfg: Config, a: Acc, wins: seq<seq<Obs>>)
    requires WindowsFollow(cfg, a, wins) && wins != []
    ensures Closed(cfg, a).sds == WindowSds(cfg, wins)
    ensures Closed(cfg, a).sdsChain == Pair(ChainSds(cfg, wins, 0), ChainSds(cfg, wins, 1))
  {
    var older := wins[..|wins| - 1];
    assert ChainSds(cfg, older, 0) + [] == ChainSds(cfg, older, 0);
    assert ChainSds(cfg, older, 1) + [] == ChainSds(cfg, older, 1);
    assert WindowSds(cfg, older) + [] == WindowSds(cfg, older);
  }

  lemma WindowPush(cfg: Config, a: Acc, wins: seq<seq<Obs>>, o: Obs)
    requires WindowsFollow(cfg, a, wins)
    ensures WindowsFollow(cfg, AddInjector(cfg, a, o), Extend(WindowKey(cfg), wins, o))
  {
    if wins != [] && a.window == Some(WindowOf(cfg, o)) {
      SameWindowPush(cfg, a, wins, o);
    } else {
      NewWindowPush(cfg, a, wins, o);
    }
  }

  /** One more record of the window that is open. */
  lemma SameWindowPush(cfg: Config, a: Acc, wins: seq<seq<Obs>>, o: Obs)
    requires WindowsFollow(cfg, a, wins) && wins != [] && a.window == Some(WindowOf(cfg, o))
    ensures WindowsFollow(cfg, AddInjector(cfg, a, o), Extend(WindowKey(cfg), wins, o))
  {
    hide Strongest, Chain, WindowSds, ChainSds;
    var key, n := WindowKey(cfg), |wins| - 1;
    var out := Extend(key, wins, o);
    assert key(wins[n][|wins[n]| - 1]) == key(o);
    ValuesPush(wins[n], o);
    assert out == wins[n := wins[n] + [o]] && out[..n] == wins[..n];
    ConstantPush(key, wins[n], o);
  }

  /** A record of another window closes the one that is open, if any. */
  lemma NewWindowPush(cfg: Config, a: Acc, wins: seq<seq<Obs>>, o: Obs)
    requires WindowsFollow(cfg, a, wins) && (wins == [] || a.window != Some(WindowOf(cfg, o)))
    ensures WindowsFollow(cfg, AddInjector(cfg, a, o), Extend(WindowKey(cfg), wins, o))
  {
    ValuesPush([], o);
    assert Strongest([]) == Chain([], 0) == Chain([], 1) == [];
    assert WindowSds(cfg, []) == ChainSds(cfg, [], 0) == ChainSds(cfg, [], 1) == [];
    hide Strongest, Chain, WindowSds, ChainSds;
    var key, n := WindowKey(cfg), |wins|;
    var out := Extend(key, wins, o);
    if n > 0 { ClosedCountsAll(cfg, a, wins); }
    assert out == wins + [[o]] && out[..n] == wins;
    assert [] + [o] == [o];
    assert Constant(key, [o]);
  }

  lemma ConstantPush(key: Obs -> int, run: seq<Obs>, o: Obs)
    requires Constant(key, run) && key(run[|run| - 1]) == key(o)
    ensures Constant(key, run + [o])
  {
  }

  lemma InjectorFollows(cfg: Config, a: Acc, run: seq<Obs>, o: Obs)
    requires Follows(cfg, a, run) && IsInjector(o)
    ensures Follows(cfg, AddInjector(cfg, a, o), run + [o])
  {
    hide WindowsFollow, Strongest, Chain;
    SelectPush(run, o, true);
    SelectPush(run, o, false);
    assert Select(run + [o], false) == Select(run, false);
    assert (Select(run, true) + [o])[..|Select(run, true)|] == Select(run, true);
    WindowPush(cfg, a, Windows(cfg, run), o);
  }

  /** Closing what the run left open reports the run's batch statistic. */
  lemma ReportIsBatch(cfg: Config, a: Acc, run: seq<Obs>)
    requires Follows(cfg, a, run) && run != []
    ensures
      var b := if a.window.Some? then Closed(cfg, a) else a;
      Report(cfg, MinuteOf(cfg, run[0]), b.sds, b.sdsChain, b.inj, b.amb, b.ambient) == BatchMinute(cfg, run)
  {
    hide Report, Strongest, Chain;
    var wins := Windows(cfg, run);
    if wins != [] { ClosedCountsAll(cfg, a, wins); }
  }

  lemma EmptyRun(cfg: Config)
    ensures Follows(cfg, NONE_YET, [])
  {
  }

  // -- the accumulator ----------------------------------------------------------------------

  /** What `seen` must have emitted and left behind. */
  ghost predicate Streams(cfg: Config, seen: seq<Obs>, emitted: seq<Minute>, minute: Option<int>, a: Acc) {
    var runs := MinuteRuns(cfg, seen);
    if seen == [] then emitted == [] && minute == None && a == NONE_YET
    else
      && MaximalRuns(MinuteKey(cfg), seen, runs) && runs != []
      && (var run := runs[|runs| - 1];
          && run != [] && minute == Some(MinuteOf(cfg, run[0])) && Follows(cfg, a, run))
      && (forall i :: 0 <= i < |runs| ==> runs[i] != [])
      && emitted == Batch(cfg, runs[..|runs| - 1])
  }

  function Ended(cfg: Config, minute: Option<int>, a: Acc): Option<Minute> {
    if minute.None? then None
    else
      var b := if a.window.Some? then Closed(cfg, a) else a;
      Some(Report(cfg, minute.value, b.sds, b.sdsChain, b.inj, b.amb, b.ambient))
  }

  function Add(cfg: Config, a: Acc, o: Obs): Acc {
    if IsInjector(o) then AddInjector(cfg, a, o) else AddAmbient(a, o)
  }

  lemma AddFollows(cfg: Config, a: Acc, run: seq<Obs>, o: Obs)
    requires Follows(cfg, a, run)
    ensures Follows(cfg, Add(cfg, a, o), run + [o])
  {
    hide Follows;
    if IsInjector(o) { InjectorFollows(cfg, a, run, o); } else { AmbientFollows(cfg, a, run, o); }
  }

  /** A record of the current minute ends nothing. */
  lemma SameMinuteStep(cfg: Config, seen: seq<Obs>, emitted: seq<Minute>, minute: Option<int>, a: Acc, o: Obs)
    requires Streams(cfg, seen, emitted, minute, a) && minute == Some(MinuteOf(cfg, o))
    ensures Streams(cfg, seen + [o], emitted, minute, Add(cfg, a, o))
  {
    hide Follows, Report, Add, BatchMinute, Batch, Flatten, MaximalRuns, Constant, MinuteRuns, MinuteOf;
    var runs, out := MinuteRuns(cfg, seen), MinuteRuns(cfg, seen + [o]);
    var n := |runs|;
    RunsPush(cfg, seen, o);
    SameKeyInRun(MinuteKey(cfg), seen, runs, n - 1);
    AddFollows(cfg, a, runs[n - 1], o);
    assert out == runs[n - 1 := runs[n - 1] + [o]] && out[..n - 1] == runs[..n - 1];
  }

  /** Any other record ends the current minute, whose report is the batch statistic of
      its run. */
  lemma NextMinuteStep(cfg: Config, seen: seq<Obs>, emitted: seq<Minute>, minute: Option<int>, a: Acc, o: Obs)
    requires Streams(cfg, seen, emitted, minute, a) && minute != Some(MinuteOf(cfg, o))
    ensures Streams(cfg, seen + [o], emitted + Report1(Ended(cfg, minute, a)), Some(MinuteOf(cfg, o)),
                    Add(cfg, NONE_YET, o))
  {
    hide Follows, Report, Add, BatchMinute;
    var runs, out := MinuteRuns(cfg, seen), MinuteRuns(cfg, seen + [o]);
    var n := |runs|;
    RunsPush(cfg, seen, o);
    FirstRecord(cfg, o);
    if seen == [] {
      assert out == [[o]] && out[..0] == [];
    } else {
      SameKeyInRun(MinuteKey(cfg), seen, runs, n - 1);
      assert out == runs + [[o]] && out[..n] == runs;
      ReportIsBatch(cfg, a, runs[n - 1]);
    }
  }

  function Report1(m: Option<Minute>): seq<Minute> { if m.Some? then [m.value] else [] }

  lemma RunsPush(cfg: Config, seen: seq<Obs>, o: Obs)
    ensures MinuteRuns(cfg, seen + [o]) == Extend(MinuteKey(cfg), MinuteRuns(cfg, seen), o)
    ensures MaximalRuns(MinuteKey(cfg), seen + [o], MinuteRuns(cfg, seen + [o]))
    ensures forall i :: 0 <= i < |MinuteRuns(cfg, seen + [o])| ==> MinuteRuns(cfg, seen + [o])[i] != []
  {
    assert (seen + [o])[..|seen|] == seen;
    CutIsMaximal(MinuteKey(cfg), seen + [o]);
    NonEmptyRuns(MinuteKey(cfg), seen + [o], MinuteRuns(cfg, seen + [o]));
  }

  lemma NothingYet(cfg: Config, seen: seq<Obs>, emitted: seq<Minute>, minute: Option<int>, a: Acc)
    requires Streams(cfg, seen, emitted, minute, a)
    ensures minute.None? ==> a == NONE_YET
    ensures a.window.None? ==> a.rssi == [] && a.rssiChain == Pair([], [])
  {
  }

  lemma FirstRecord(cfg: Config, o: Obs)
    ensures Follows(cfg, Add(cfg, NONE_YET, o), [o])
  {
    hide Follows, Add;
    EmptyRun(cfg);
    AddFollows(cfg, NONE_YET, [], o);
    assert [] + [o] == [o];
  }

  lemma NonEmptyRuns(key: Obs -> int, s: seq<Obs>, runs: seq<seq<Obs>>)
    requires MaximalRuns(key, s, runs) && s != []
    ensures runs != [] && forall i :: 0 <= i < |runs| ==> runs[i] != []
  {
    forall i | 0 <= i < |runs| ensures runs[i] != [] {
      assert Constant(key, runs[i]);
    }
  }

  lemma SameKeyInRun(key: Obs -> int, s: seq<Obs>, runs: seq<seq<Obs>>, k: nat)
    requires MaximalRuns(key, s, runs) && k < |runs|
    ensures runs[k] != [] && key(runs[k][|runs[k]| - 1]) == key(runs[k][0])
  {
    assert Constant(key, runs[k]);
  }

  class BurstStats {
    const cfg: Config
    var curWindow: Option<int>
    var rssi: seq<real>
    var rssiChain: Pair<seq<real>>
    var curMinute: Option<int>
    var sds: seq<real>
    var sdsChain: Pair<seq<real>>
    var injFrames: nat
    var ambientFrames: nat
    var ambient: Pair<seq<real>>
    ghost var seen: seq<Obs>
    ghost var emitted: seq<Minute>

    function State(): Acc
      reads this
    {
      Acc(curWindow, rssi, rssiChain, sds, sdsChain, injFrames, ambientFrames, ambient)
    }

    ghost predicate Valid()
      reads this
    {
      Streams(cfg, seen, emitted, curMinute, State())
    }

    constructor (cfg: Config)
      ensures Valid() && this.cfg == cfg && seen == [] && emitted == []
    {
      this.cfg := cfg;
      curWindow, rssi, rssiChain := None, [], Pair([], []);
      curMinute, sds, sdsChain := None, [], Pair([], []);
      injFrames, ambientFrames, ambient := 0, 0, Pair([], []);
      seen, emitted := [], [];
    }

    method CloseWindow()
      modifies this`curWindow, this`rssi, this`rssiChain, this`sds, this`sdsChain
      ensures State() == Closed(cfg, old(State()))
    {
      hide Sd1, Opt;
      if |rssi| >= cfg.minFrames {
        sds := sds + Opt(Sd1(cfg.root, rssi));
        sdsChain := Pair(sdsChain.a + Opt(Sd1(cfg.root, rssiChain.a)), sdsChain.b + Opt(Sd1(cfg.root, rssiChain.b)));
      }
      rssi, rssiChain, curWindow := [], Pair([], []), None;
    }

    method CloseMinute() returns (m: Option<Minute>)
      requires curWindow == None && rssi == [] && rssiChain == Pair([], [])
      modifies this`sds, this`sdsChain, this`injFrames, this`ambientFrames, this`ambient
      ensures m == if curMinute.Some?
        then Some(Report(cfg, curMinute.value, old(sds), old(sdsChain), old(injFrames), old(ambientFrames),
                         old(ambient)))
        else None
      ensures curMinute.Some? ==> State() == NONE_YET
      ensures curMinute.None? ==> State() == old(State())
    {
      hide Report;
      if curMinute.None? { return None; }
      m := Some(Report(cfg, curMinute.value, sds, sdsChain, injFrames, ambientFrames, ambient));
      sds, sdsChain, ambient, injFrames, ambientFrames := [], Pair([], []), Pair([], []), 0, 0;
    }

    /** Close what the current minute has open and start another one. */
    method TurnMinute(minute: int) returns (done: Option<Minute>)
      requires curWindow.None? ==> rssi == [] && rssiChain == Pair([], [])
      requires curMinute.None? ==> State() == NONE_YET
      modifies this`curWindow, this`rssi, this`rssiChain, this`curMinute
      modifies this`sds, this`sdsChain, this`injFrames, this`ambientFrames, this`ambient
      ensures done == Ended(cfg, old(curMinute), old(State()))
      ensures curMinute == Some(minute) && State() == NONE_YET
    {
      hide Report, Sd1, Opt;
      if curWindow.Some? { CloseWindow(); }
      done := CloseMinute();
      curMinute := Some(minute);
    }

    /** Count one record of the current minute. */
    method Note(o: Obs, window: int)
      requires window == WindowOf(cfg, o)
      modifies this`curWindow, this`rssi, this`rssiChain
      modifies this`sds, this`sdsChain, this`injFrames, this`ambientFrames, this`ambient
      ensures State() == Add(cfg, old(State()), o)
    {
      hide Sd1, Opt, RssiMax, RssiChain, Reals;
      if !IsInjector(o) {
        ambientFrames := ambientFrames + 1;
        ambient := Pair(ambient.a + Reals(RssiChain(o, 0)), ambient.b + Reals(RssiChain(o, 1)));
        return;
      }
      injFrames := injFrames + 1;
      if curWindow != Some(window) {
        if curWindow.Some? { CloseWindow(); }
        curWindow := Some(window);
      }
      rssi := rssi + Reals(RssiMax(o));
      rssiChain := Pair(rssiChain.a + Reals(RssiChain(o, 0)), rssiChain.b + Reals(RssiChain(o, 1)));
    }

    /** Take one record; returns the minute that it ended, if any. */
    method Observe(o: Obs) returns (done: Option<Minute>)
      requires Valid()
      modifies this
      ensures Valid() && seen == old(seen) + [o]
      ensures emitted == old(emitted) + Report1(done)
    {
      hide Streams, Ended, Add;
      var window := WindowOf(cfg, o);
      var minute := MinuteOfWindow(cfg, window);
      done := None;
      if curMinute != Some(minute) {
        NextMinuteStep(cfg, seen, emitted, curMinute, State(), o);
        NothingYet(cfg, seen, emitted, curMinute, State());
        done := TurnMinute(minute);
      } else {
        SameMinuteStep(cfg, seen, emitted, curMinute, State(), o);
      }
      Note(o, window);
      seen := seen + [o];
      emitted := emitted + Report1(done);
      assert old(emitted) + [] == old(emitted);
    }
  }

  // -- what the stream emits ------------------------------------------------------------------

  /** A window lies wholly in one minute, however it is aligned. */
  lemma WindowInOneMinute(cfg: Config, o: Obs, p: Obs)
    requires WindowOf(cfg, o) == WindowOf(cfg, p)
    ensures MinuteOf(cfg, o) == MinuteOf(cfg, p)
  {
  }

  /** The emitted minutes are the batch statistics of all maximal same-minute runs but the
      last, and the last is still to come, however the input is cut into runs. */
  lemma StreamEqualsBatch(cfg: Config, seen: seq<Obs>, emitted: seq<Minute>, minute: Option<int>, a: Acc,
                          runs: seq<seq<Obs>>)
    requires Streams(cfg, seen, emitted, minute, a) && seen != []
    requires MaximalRuns(MinuteKey(cfg), seen, runs)
    ensures runs != [] && forall i :: 0 <= i < |runs| ==> runs[i] != []
    ensures emitted + Report1(Ended(cfg, minute, a)) == Batch(cfg, runs)
  {
    hide Follows, Report, BatchMinute, Ended;
    MaximalRunsAreCut(MinuteKey(cfg), seen, runs);
    LastReport(cfg, minute, a, runs[|runs| - 1]);
  }

  lemma LastReport(cfg: Config, minute: Option<int>, a: Acc, run: seq<Obs>)
    requires run != [] && minute == Some(MinuteOf(cfg, run[0])) && Follows(cfg, a, run)
    ensures Report1(Ended(cfg, minute, a)) == [BatchMinute(cfg, run)]
  {
    hide Follows, Report, BatchMinute;
    ReportIsBatch(cfg, a, run);
  }

  function Frames(ms: seq<Minute>): nat {
    if ms == [] then 0 else Frames(ms[..|ms| - 1]) + ms[|ms| - 1].injFrames + ms[|ms| - 1].ambientFrames
  }

  lemma {:induction false} SelectsAll(os: seq<Obs>)
    ensures |Select(os, true)| + |Select(os, false)| == |os|
  {
    if os != [] { SelectsAll(os[..|os| - 1]); }
  }

  lemma {:induction false} BatchCountsAll(cfg: Config, runs: seq<seq<Obs>>)
    requires forall i :: 0 <= i < |runs| ==> runs[i] != []
    ensures Frames(Batch(cfg, runs)) == |Flatten(runs)|
  {
    hide Quantile, WindowSds, ChainSds;
    if runs != [] {
      var n := |runs| - 1;
      BatchCountsAll(cfg, runs[..n]);
      SelectsAll(runs[n]);
      var b := Batch(cfg, runs);
      assert b[..|b| - 1] == Batch(cfg, runs[..n]);
    }
  }

  /** Every call is counted once, in an emitted minute or in the pending one. */
  lemma FramesAreConserved(cfg: Config, seen: seq<Obs>, emitted: seq<Minute>, minute: Option<int>, a: Acc)
    requires Streams(cfg, seen, emitted, minute, a)
    ensures Frames(emitted) + a.inj + a.amb == |seen|
  {
    hide BatchMinute, WindowsFollow, MinuteRuns, Batch, Constant;
    if seen != [] {
      var runs := MinuteRuns(cfg, seen);
      var n := |runs| - 1;
      hide Select;
      BatchCountsAll(cfg, runs[..n]);
      SelectsAll(runs[n]);
      assert seen == Flatten(runs[..n]) + runs[n];
    }
  }

  /** A chain contributes at most one sample per strongest-chain sample. */
  lemma {:induction false} ChainSamplesBelowStrongest(os: seq<Obs>, c: nat)
    ensures |Chain(os, c)| <= |Strongest(os)|
  {
    if os != [] {
      ChainSamplesBelowStrongest(os[..|os| - 1], c);
      ChainBelowStrongest(os[|os| - 1], c);
    }
  }

  // -- quantiles --------------------------------------------------------------------------------

  lemma {:induction false} OrderedIsUnique(a: seq<real>, b: seq<real>)
    requires Ordered(a) && Ordered(b) && multiset(a) == multiset(b)
    ensures a == b
  {
    hide Ordered;
    assert |a| == |multiset(a)| && |b| == |multiset(b)|;
    if a != [] {
      SameLeast(a, b);
      TailOfOrdered(a);
      TailOfOrdered(b);
      OrderedIsUnique(a[1..], b[1..]);
    }
  }

  lemma TailOfOrdered(a: seq<real>)
    requires a != [] && Ordered(a)
    ensures Ordered(a[1..]) && a == [a[0]] + a[1..]
    ensures multiset(a[1..]) == multiset(a) - multiset{a[0]}
  {
    assert a == [a[0]] + a[1..];
  }

  lemma SameLeast(a: seq<real>, b: seq<real>)
    requires a != [] && b != [] && Ordered(a) && Ordered(b) && multiset(a) == multiset(b)
    ensures a[0] == b[0]
  {
    assert a[0] in multiset(b) && b[0] in multiset(a);
  }

  /** The order in which values arrive does not matter. */
  lemma QuantileOfPermutation(v: seq<real>, w: seq<real>, q: real)
    requires multiset(v) == multiset(w)
    ensures Quantile(v, q) == Quantile(w, q)
  {
    SortOrdered(v);
    SortOrdered(w);
    OrderedIsUnique(SortReals(v), SortReals(w));
    assert |v| == |multiset(v)| && |w| == |multiset(w)|;
  }

  lemma ValueAtBetween(s: seq<real>, pos: real)
    requires s != [] && 0.0 <= pos <= (|s| - 1) as real && Ordered(s)
    ensures s[pos.Floor] <= ValueAt(s, pos) <= s[Min(pos.Floor + 1, |s| - 1)]
    ensures pos.Floor as real == pos ==> ValueAt(s, pos) == s[pos.Floor]
  {
    var lo := pos.Floor;
    hide Times;
    if lo as real == pos {
      TimesZero(0.0);
    } else {
      ScaledInRange(pos - lo as real, s[lo + 1] - s[lo]);
    }
  }

  /** A quantile lies between the two order statistics around its position. */
  lemma QuantileBounds(v: seq<real>, q: real)
    requires v != []
    ensures
      var s, k := SortReals(v), Position(|v|, q).Floor;
      0 <= k < |v| && s[k] <= Quantile(v, q).value <= s[Min(k + 1, |v| - 1)]
  {
    SortOrdered(v);
    ValueAtBetween(SortReals(v), Position(|v|, q));
  }

  /** Its ends are the smallest and the greatest value. */
  lemma QuantileEnds(v: seq<real>)
    requires v != []
    ensures Quantile(v, 0.0).value == SortReals(v)[0]
    ensures Quantile(v, 1.0).value == SortReals(v)[|v| - 1]
  {
    SortOrdered(v);
    assert Position(|v|, 0.0) == 0.0 && Position(|v|, 1.0) == (|v| - 1) as real;
    ValueAtBetween(SortReals(v), 0.0);
    ValueAtBetween(SortReals(v), (|v| - 1) as real);
  }
}
