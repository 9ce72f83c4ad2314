/**
 The injector's pacing loop: deadlines on an absolute grid of slots, one send attempt a
 slot, and missed slots skipped rather than caught up. The clock is any that never runs
 backwards. Times are nanoseconds.
 */
module Pacing {
  import opened Prelude

  // -- one turn of the loop -----------------------------------------------------------------

  /** One send: the frame's sequence number, the slot it was due at, and when it went out. */
  datatype Attempt = Attempt(seqNo: nat, slot: nat, at: nat, ok: bool)

  datatype Pace = Pace(next: nat, seqNo: nat, sent: nat, errors: nat, skipped: nat, attempts: seq<Attempt>)

  /** What one turn observes: the clock when it starts, when it sends and after sending. */
  datatype Turn = Turn(now: nat, at: nat, ok: bool, after: nat)

  function Start(t0: nat): Pace { Pace(t0, 0, 0, 0, 0, []) }

  /** Whole periods between the next deadline and the clock after a send. */
  function Missed(period: nat, next: nat, after: nat): nat {
    if next < after then (after - next) / Max(period, 1) else 0
  }

  /** The count of missed slots is kept in 64 bits but the deadline moves by its low 32. */
  function Skip(period: nat, p: Pace, missed: nat): Pace {
    p.(skipped := p.skipped + missed % TWO_64, next := p.next + period * (missed % TWO_32))
  }

  lemma SkipNone(period: nat, p: Pace)
    ensures Skip(period, p, 0) == p
  {
  }

  function Sent(period: nat, p: Pace, t: Turn): Pace {
    p.(seqNo := p.seqNo + 1, next := p.next + period,
       sent := if t.ok then p.sent + 1 else p.sent, errors := if t.ok then p.errors else p.errors + 1,
       attempts := p.attempts + [Attempt(p.seqNo, p.next, t.at, t.ok)])
  }

  function MissedBy(period: nat, p: Pace, t: Turn): nat {
    if p.next > t.now then 0 else Missed(period, p.next + period, t.after)
  }

  function Step(period: nat, p: Pace, t: Turn): Pace {
    if p.next > t.now then p else Skip(period, Sent(period, p, t), MissedBy(period, p, t))
  }

  /** A clock that never runs backwards. */
  class Clock {
    var time: nat

    constructor ()
    {
    }

    method Now() returns (t: nat)
      modifies this
      ensures t == time >= old(time)
    {
      t :| t >= time;
      time := t;
    }
  }

  class Injector {
    const period: nat
    var next: nat
    var seqNo: nat
    var sent: nat
    var errors: nat
    var skipped: nat
    ghost var attempts: seq<Attempt>

    ghost function State(): Pace
      reads this
    {
      Pace(next, seqNo, sent, errors, skipped, attempts)
    }

    constructor (periodNs: nat, clock: Clock)
      modifies clock
      ensures period == periodNs && State() == Start(clock.time)
    {
      period := periodNs;
      seqNo, sent, errors, skipped, attempts := 0, 0, 0, 0, [];
      new;
      next := clock.Now();
    }

    /** Skip the slots that were missed while sending: the count of them is kept in 64 bits,
        the deadline moves by the low 32. */
    method SkipMissed(after: nat)
      modifies this`skipped, this`next
      ensures State() == Skip(period, old(State()), Missed(period, old(next), after))
    {
      SkipNone(period, State());
      if next < after {
        var missed := (after - next) / Max(period, 1);
        if missed > 0 {
          skipped := skipped + missed % TWO_64;
          next := next + period * (missed % TWO_32);
        }
      }
    }

    /** One pass of the loop. The socket's answer is not determined by anything here. */
    method Iterate(clock: Clock) returns (ghost t: Turn)
      modifies this, clock
      ensures State() == Step(period, old(State()), t)
      ensures old(clock.time) <= t.now <= t.at <= t.after <= clock.time
    {
      hide Skip, Missed;
      var now := clock.Now();
      if next > now { return Turn(now, now, false, now); }
      var at := clock.Now();
      var ok: bool := *;
      ghost var attempt := Attempt(seqNo, next, at, ok);
      if ok { sent := sent + 1; } else { errors := errors + 1; }
      attempts := attempts + [attempt];
      seqNo := seqNo + 1;
      next := next + period;
      var after := clock.Now();
      t := Turn(now, at, ok, after);
      assert State() == Sent(period, old(State()), t);
      SkipMissed(after);
    }

    /** The loop until the stop flag is seen, after any number of passes. */
    method RunLoop(clock: Clock, passes: nat) returns (ghost turns: seq<Turn>)
      modifies this, clock
      ensures |turns| == passes && Ordered(old(clock.time), turns)
      ensures State() == Run(period, old(State()), turns)
    {
      turns := [];
      ghost var t0, before := clock.time, State();
      for i := 0 to passes
        invariant |turns| == i && Ordered(t0, turns) && LastTime(t0, turns) <= clock.time
        invariant State() == Run(period, before, turns)
      {
        ghost var t := Iterate(clock);
        ghost var more := turns + [t];
        assert more[..|more| - 1] == turns;
        turns := more;
      }
    }
  }

  // -- runs -------------------------------------------------------------------------------------

  function Run(period: nat, p: Pace, turns: seq<Turn>): Pace {
    if turns == [] then p else Step(period, Run(period, p, turns[..|turns| - 1]), turns[|turns| - 1])
  }

  function LastTime(t0: nat, turns: seq<Turn>): nat {
    if turns == [] then t0 else turns[|turns| - 1].after
  }

  /** The clock readings of a run never decrease. */
  ghost predicate Ordered(t0: nat, turns: seq<Turn>) {
    turns == [] ||
    var t := turns[|turns| - 1];
    var before := turns[..|turns| - 1];
    Ordered(t0, before) && LastTime(t0, before) <= t.now <= t.at <= t.after
  }

  /** A stall's missed slots fit both counters. */
  predicate Counted(missed: nat) { missed % TWO_64 < TWO_32 }

  ghost predicate AllCounted(period: nat, p: Pace, turns: seq<Turn>) {
    turns == [] ||
    var before := turns[..|turns| - 1];
    AllCounted(period, p, before) && Counted(MissedBy(period, Run(period, p, before), turns[|turns| - 1]))
  }

  ghost predicate AllShort(period: nat, p: Pace, turns: seq<Turn>) {
    turns == [] ||
    var before := turns[..|turns| - 1];
    AllShort(period, p, before) && MissedBy(period, Run(period, p, before), turns[|turns| - 1]) < TWO_32
  }

  // -- slot accounting ---------------------------------------------------------------------------

  function Slots(p: Pace): nat { p.sent + p.errors + p.skipped }

  /** How far the counters have run ahead of the deadline. */
  function Drift(period: nat, t0: nat, p: Pace): int { Slots(p) * period - (p.next - t0) }

  lemma Remainder32(n: nat, k: nat, r: nat)
    requires n == TWO_32 * k + r && r < TWO_32
    ensures n % TWO_32 == r
  {
  }

  lemma LowBits(n: nat)
    ensures n % TWO_32 <= n % TWO_64
    ensures n % TWO_32 == n % TWO_64 <==> Counted(n)
  {
    var q, m := n / TWO_64, n % TWO_64;
    var k, r := m / TWO_32, m % TWO_32;
    Remainder32(n, TWO_32 * q + k, r);
  }

  lemma Scaled(a: nat, b: nat, k: nat)
    requires a <= b && k > 0
    ensures a * k <= b * k && (a == b <==> a * k == b * k)
  {
    if a < b { assert (b - a) * k > 0; }
  }

  lemma DriftOfStep(period: nat, t0: nat, p: Pace, t: Turn)
    requires period > 0
    ensures Drift(period, t0, Step(period, p, t)) >= Drift(period, t0, p)
    ensures Drift(period, t0, Step(period, p, t)) == Drift(period, t0, p) <==> Counted(MissedBy(period, p, t))
  {
    if p.next <= t.now {
      var m := MissedBy(period, p, t);
      var low: nat, high: nat := m % TWO_32, m % TWO_64;
      LowBits(m);
      Scaled(low, high, period);
      assert (Slots(p) + 1 + high) * period == Slots(p) * period + period + high * period;
    }
  }

  /** The deadline is always start + (sent + errors + skipped) * period, exactly when no
      stall overflows the 32-bit skip. */
  lemma {:induction false} SlotAccountIff(period: nat, t0: nat, turns: seq<Turn>)
    requires period > 0
    ensures var p := Run(period, Start(t0), turns);
      p.next <= t0 + Slots(p) * period
      && (p.next == t0 + Slots(p) * period <==> AllCounted(period, Start(t0), turns))
  {
    DriftOfRun(period, t0, turns);
  }

  lemma {:induction false} DriftOfRun(period: nat, t0: nat, turns: seq<Turn>)
    requires period > 0
    ensures Drift(period, t0, Run(period, Start(t0), turns)) >= 0
    ensures Drift(period, t0, Run(period, Start(t0), turns)) == 0 <==> AllCounted(period, Start(t0), turns)
  {
    hide Step, Drift, MissedBy, Counted;
    if turns == [] {
      assert Drift(period, t0, Start(t0)) == 0 by { StartHasNoDrift(period, t0); }
    } else {
      var n := |turns| - 1;
      DriftOfRun(period, t0, turns[..n]);
      DriftOfStep(period, t0, Run(period, Start(t0), turns[..n]), turns[n]);
    }
  }

  lemma StartHasNoDrift(period: nat, t0: nat)
    ensures Drift(period, t0, Start(t0)) == 0
  {
  }

  /** A stall of exactly 2^32 periods at 1000 frames a second: the slots are counted as
      skipped, but the deadline stays where it was. */
  lemma LongStallIsMiscounted()
    ensures var p := Step(1_000_000, Start(0), Turn(0, 0, true, 1_000_000 + TWO_32 * 1_000_000));
      p.skipped == TWO_32 && p.next == 1_000_000
  {
    assert Missed(1_000_000, 1_000_000, 1_000_000 + TWO_32 * 1_000_000) == TWO_32;
  }

  // -- slots in order -------------------------------------------------------------------------------

  /** How many attempts the socket took. */
  function CountOk(es: seq<Attempt>): nat {
    if es == [] then 0 else CountOk(es[..|es| - 1]) + if es[|es| - 1].ok then 1 else 0
  }

  /** Sends never precede their slot, use slots at least a period apart, and number frames
      by attempt. */
  ghost predicate Paced(period: nat, p: Pace) {
    && p.seqNo == |p.attempts| == p.sent + p.errors && p.sent == CountOk(p.attempts)
    && (forall i :: 0 <= i < |p.attempts| ==> p.attempts[i].seqNo == i && p.attempts[i].slot <= p.attempts[i].at)
    && (forall i {:trigger NextSlot(p, i)} :: 0 <= i < |p.attempts| ==> p.attempts[i].slot + period <= NextSlot(p, i))
  }

  /** The slot that follows the one attempt `i` used. */
  function NextSlot(p: Pace, i: nat): nat
    requires i < |p.attempts|
  {
    if i + 1 < |p.attempts| then p.attempts[i + 1].slot else p.next
  }

  lemma StepIsPaced(period: nat, p: Pace, t: Turn)
    requires Paced(period, p) && t.now <= t.at
    ensures Paced(period, Step(period, p, t))
  {
    hide MissedBy;
    if p.next <= t.now {
      var q, n := Step(period, p, t), |p.attempts|;
      assert q.attempts[..n] == p.attempts;
      forall i | 0 <= i < |q.attempts| ensures q.attempts[i].slot + period <= NextSlot(q, i) {
        if i < n { assert q.attempts[i] == p.attempts[i] && NextSlot(q, i) == NextSlot(p, i); }
      }
    }
  }

  function Periods(n: nat, period: nat): nat { n * period }

  lemma OneMorePeriod(n: nat, period: nat)
    ensures Periods(n + 1, period) == Periods(n, period) + period && Periods(0, period) == 0
  {
  }

  /** Slots `i` and `j` are at least `j - i` periods apart. */
  lemma {:induction false} SlotsApart(period: nat, p: Pace, i: nat, j: nat)
    requires Paced(period, p) && i <= j < |p.attempts|
    ensures p.attempts[i].slot + Periods(j - i, period) <= p.attempts[j].slot
  {
    hide Periods;
    if i == j {
      OneMorePeriod(0, period);
    } else {
      SlotsApart(period, p, i, j - 1);
      assert p.attempts[j - 1].slot + period <= NextSlot(p, j - 1);
      OneMorePeriod(j - 1 - i, period);
    }
  }

  /** Unless the clock is read backwards, whatever stalls there are, no frame goes out before
      its slot and no slot is used twice. */
  lemma {:induction false} RunIsPaced(period: nat, t0: nat, turns: seq<Turn>)
    requires Ordered(t0, turns)
    ensures Paced(period, Run(period, Start(t0), turns))
  {
    hide Step;
    if turns != [] {
      var n := |turns| - 1;
      RunIsPaced(period, t0, turns[..n]);
      StepIsPaced(period, Run(period, Start(t0), turns[..n]), turns[n]);
    }
  }

  // -- no bursts ---------------------------------------------------------------------------------------

  /** After a pass the deadline is less than a period overdue, exactly when the stall was
      shorter than 2^32 periods. */
  lemma OverdueIff(period: nat, p: Pace, t: Turn)
    requires period > 0 && p.next <= t.now
    ensures t.after < Step(period, p, t).next + period <==> MissedBy(period, p, t) < TWO_32
  {
    var m, next := MissedBy(period, p, t), p.next + period;
    var low: nat := m % TWO_32;
    if next < t.after {
      assert next + period * m <= t.after < next + period * m + period;
      if m < TWO_32 {
        assert low == m;
      } else {
        Scaled(low + 1, m, period);
        assert (low + 1) * period == period * low + period;
      }
    } else {
      assert m == 0 && low == 0;
    }
  }

  /** Every attempt left the next slot less than a period overdue. */
  ghost predicate Prompt(period: nat, p: Pace) {
    forall i {:trigger NextSlot(p, i)} :: 0 <= i < |p.attempts| ==> p.attempts[i].at < NextSlot(p, i) + period
  }

  lemma {:induction false} RunIsPrompt(period: nat, t0: nat, turns: seq<Turn>)
    requires period > 0 && Ordered(t0, turns) && AllShort(period, Start(t0), turns)
    ensures Prompt(period, Run(period, Start(t0), turns))
  {
    if turns != [] {
      var n := |turns| - 1;
      RunIsPrompt(period, t0, turns[..n]);
      StepIsPrompt(period, Run(period, Start(t0), turns[..n]), turns[n]);
    }
  }

  lemma StepIsPrompt(period: nat, p: Pace, t: Turn)
    requires period > 0 && Prompt(period, p) && t.now <= t.at <= t.after && MissedBy(period, p, t) < TWO_32
    ensures Prompt(period, Step(period, p, t))
  {
    if p.next <= t.now {
      OverdueIff(period, p, t);
      hide MissedBy;
      var q, n := Step(period, p, t), |p.attempts|;
      forall i | 0 <= i < |q.attempts| ensures q.attempts[i].at < NextSlot(q, i) + period {
        if i < n { assert q.attempts[i] == p.attempts[i] && NextSlot(q, i) == NextSlot(p, i); }
      }
    }
  }

  /** Attempts are listed in the order of their times. */
  ghost predicate InOrder(es: seq<Attempt>) { forall i, j :: 0 <= i < j < |es| ==> es[i].at <= es[j].at }

  lemma {:induction false} AttemptsInOrder(period: nat, t0: nat, turns: seq<Turn>)
    requires Ordered(t0, turns)
    ensures var es := Run(period, Start(t0), turns).attempts;
      InOrder(es) && forall k :: 0 <= k < |es| ==> es[k].at <= LastTime(t0, turns)
  {
    hide MissedBy, Skip;
    if turns != [] {
      var n := |turns| - 1;
      AttemptsInOrder(period, t0, turns[..n]);
      StepAdds(period, Run(period, Start(t0), turns[..n]), turns[n]);
    }
  }

  lemma StepAdds(period: nat, p: Pace, t: Turn)
    ensures Step(period, p, t).attempts ==
      p.attempts + if p.next > t.now then [] else [Attempt(p.seqNo, p.next, t.at, t.ok)]
  {
    hide MissedBy;
  }

  /** How many attempts fall in the interval [a, b]. */
  function AttemptsIn(es: seq<Attempt>, a: nat, b: nat): nat {
    if es == [] then 0
    else
      var n := |es| - 1;
      AttemptsIn(es[..n], a, b) + if a <= es[n].at <= b then 1 else 0
  }

  /** The attempts of an interval are consecutive. */
  lemma {:induction false} IntervalIsConsecutive(es: seq<Attempt>, a: nat, b: nat) returns (i: nat, j: nat)
    requires InOrder(es)
    ensures i <= j <= |es| && AttemptsIn(es, a, b) == j - i
    ensures forall k :: 0 <= k < |es| ==> (a <= es[k].at <= b <==> i <= k < j)
  {
    if es == [] {
      i, j := 0, 0;
    } else {
      var n := |es| - 1;
      i, j := IntervalIsConsecutive(es[..n], a, b);
      assert forall k :: 0 <= k < n ==> es[..n][k] == es[k];
      if a <= es[n].at <= b {
        if i == j { i := n; } else { assert a <= es[i].at; }
        j := n + 1;
      }
    }
  }

  /** Any interval [a, b] holds fewer than (b - a) / period + 3 send attempts: a stall is
      never followed by a burst. */
  lemma RateIsBounded(period: nat, t0: nat, turns: seq<Turn>, a: nat, b: nat)
    requires period > 0 && Ordered(t0, turns) && AllShort(period, Start(t0), turns) && a <= b
    ensures AttemptsIn(Run(period, Start(t0), turns).attempts, a, b) * period < b - a + 3 * period
  {
    hide Step, Run, Paced, Prompt, AttemptsIn, InOrder, Ordered, AllShort;
    RunIsPaced(period, t0, turns);
    RunIsPrompt(period, t0, turns);
    AttemptsInOrder(period, t0, turns);
    var p := Run(period, Start(t0), turns);
    var i, j := IntervalIsConsecutive(p.attempts, a, b);
    AttemptsSpread(period, p, a, b, i, j);
  }

  lemma AttemptsSpread(period: nat, p: Pace, a: nat, b: nat, i: nat, j: nat)
    requires period > 0 && Paced(period, p) && Prompt(period, p) && a <= b && i <= j <= |p.attempts|
    requires forall k :: i <= k < j ==> a <= p.attempts[k].at <= b
    ensures Periods(j - i, period) < b - a + 3 * period
  {
    hide Periods;
    OneMorePeriod(0, period);
    if j - i >= 1 { OneMorePeriod(j - i - 1, period); }
    if j - i >= 2 {
      OneMorePeriod(j - i - 2, period);
      SlotsApart(period, p, i + 1, j - 1);
      assert p.attempts[i].at < NextSlot(p, i) + period && NextSlot(p, i) == p.attempts[i + 1].slot;
      assert p.attempts[j - 1].slot <= p.attempts[j - 1].at;
    }
  }
}
