/**
 The census thread's airtime: every classified frame is charged as it arrives, and a
 minute's tally is handed on when a frame or the clock leaves the minute.
 */
module AirtimeMinutes {
  import opened Prelude
  import opened Radiotap
  import opened Airtime

  /** A classified frame; `phy` is none when its radiotap header does not parse. */
  datatype Seen = Seen(phy: Option<Phy>, injector: bool)

  /** A frame of another station, classified or not, and a look at the clock. */
  datatype Event = Received(second: nat, frame: Option<Seen>) | Clock(second: nat)

  datatype Line = Line(start: nat, tally: Tally)

  /** The open minute and its tally, the reference of the last parsed frame, and the lines
      handed on. */
  datatype Books = Books(start: nat, tally: Tally, last: Option<nat>, lines: seq<Line>)

  function StartOf(second: nat): nat { second / 60 * 60 }

  function Opening(start: nat): Books { Books(start, EMPTY, None, []) }

  function Frames(t: Tally): nat { t.known + t.unknown }

  function Turned(b: Books, start: nat): Books {
    Books(start, EMPTY, b.last, if Frames(b.tally) == 0 then b.lines else b.lines + [Line(b.start, b.tally)])
  }

  /** A frame's time, when the last parsed frame had reference `last`. */
  function TimeOf(last: Option<nat>, f: Seen): Option<real> {
    if f.phy.Some? then Duration(f.phy.value, Opens(last, f.phy.value)) else None
  }

  function RefAfter(last: Option<nat>, f: Seen): Option<nat> {
    if f.phy.Some? then f.phy.value.ampduRef else last
  }

  function Charged(b: Books, f: Seen): Books {
    b.(tally := Note(b.tally, TimeOf(b.last, f), f.injector), last := RefAfter(b.last, f))
  }

  function Classified(ev: Event): Option<Seen> {
    match ev
    case Received(_, f) => f
    case Clock(_) => None
  }

  function Step(b: Books, ev: Event): Books {
    match ev
    case Received(s, f) =>
      var t := if StartOf(s) != b.start then Turned(b, StartOf(s)) else b;
      if f.Some? then Charged(t, f.value) else t
    case Clock(s) => if StartOf(s) > b.start then Turned(b, StartOf(s)) else b
  }

  function Run(b: Books, events: seq<Event>): Books {
    if events == [] then b else Step(Run(b, events[..|events| - 1]), events[|events| - 1])
  }

  // -- the loop ---------------------------------------------------------------------------------

  class AirtimeOut {
    const minute: MinuteAirtime
    const aggregates: Aggregates
    var start: nat
    ghost var lines: seq<Line>

    ghost function State(): Books
      reads this, minute, aggregates
    {
      Books(start, minute.State(), aggregates.lastRef, lines)
    }

    constructor (start: nat)
      ensures fresh(minute) && fresh(aggregates) && State() == Opening(start)
    {
      minute := new MinuteAirtime();
      aggregates := new Aggregates();
      this.start, lines := start, [];
    }

    /** Hand on the minute, unless it has no frame. */
    method Flush(next: nat)
      modifies this, minute
      ensures State() == Turned(old(State()), next)
    {
      TurnedIs(State(), next);
      hide Turned;
      var t := minute.Take();
      if t.known + t.unknown != 0 { lines := lines + [Line(start, t)]; }
      start := next;
    }

    /** Charge one frame, after the one before it. */
    method Charge(f: Seen)
      modifies minute, aggregates
      ensures State() == Charged(old(State()), f)
    {
      hide Duration, Opens;
      var us: Option<real> := None;
      match f.phy {
        case Some(p) => us := aggregates.DurationUs(p);
        case None =>
      }
      minute.Add(us, f.injector);
    }

    method Handle(ev: Event)
      modifies this, minute, aggregates
      ensures State() == Step(old(State()), ev)
    {
      hide Charged, Turned;
      match ev {
        case Received(s, frame) =>
          var now := s / 60 * 60;
          if now != start { Flush(now); }
          match frame {
            case Some(f) => Charge(f);
            case None =>
          }
        case Clock(s) =>
          var now := s / 60 * 60;
          if now > start { Flush(now); }
      }
    }

    /** The census loop up to its stop, which hands on the last minute too. */
    method Loop(events: seq<Event>)
      modifies this, minute, aggregates
      ensures State() == Turned(Run(old(State()), events), Run(old(State()), events).start)
    {
      hide Step;
      ghost var before := State();
      assert events[..0] == [];
      for i := 0 to |events|
        invariant State() == Run(before, events[..i])
      {
        Handle(events[i]);
        assert events[..i + 1][..i] == events[..i];
      }
      assert events[..|events|] == events;
      Flush(start);
    }
  }

  lemma TurnedIs(b: Books, start: nat)
    ensures b.tally.known + b.tally.unknown == 0 ==> Turned(b, start) == Books(start, EMPTY, b.last, b.lines)
    ensures b.tally.known + b.tally.unknown != 0 ==>
      Turned(b, start) == Books(start, EMPTY, b.last, b.lines + [Line(b.start, b.tally)])
  {
  }

  // -- what the lines add up to --------------------------------------------------------------------

  function Plus(s: Tally, t: Tally): Tally {
    Tally(s.injectorUs + t.injectorUs, s.otherUs + t.otherUs, s.known + t.known, s.unknown + t.unknown)
  }

  function Total(lines: seq<Line>): Tally {
    if lines == [] then EMPTY else Plus(Total(lines[..|lines| - 1]), lines[|lines| - 1].tally)
  }

  /** The frames whose header parses, in the order they came. */
  function Parsed(events: seq<Event>): seq<Frame> {
    if events == [] then []
    else
      var n := |events| - 1;
      var f := Classified(events[n]);
      Parsed(events[..n]) + if f.Some? && f.value.phy.Some? then [Frame(f.value.phy.value, f.value.injector)] else []
  }

  function Unparsed(events: seq<Event>): nat {
    if events == [] then 0
    else
      var n := |events| - 1;
      var f := Classified(events[n]);
      Unparsed(events[..n]) + if f.Some? && f.value.phy.None? then 1 else 0
  }

  /** All frames so far, in the lines or in the open minute. */
  function All(b: Books): Tally { Plus(Total(b.lines), b.tally) }

  /** The charge of the whole input at once, as if it were one minute. */
  function Whole(events: seq<Event>): Tally { MoreUnknown(Tallied(Parsed(events)), Unparsed(events)) }

  function MoreUnknown(t: Tally, n: nat): Tally { t.(unknown := t.unknown + n) }

  lemma NoteBeside(t: Tally, n: nat, us: Option<real>, injector: bool)
    ensures Note(MoreUnknown(t, n), us, injector) == MoreUnknown(Note(t, us, injector), n)
    ensures Note(MoreUnknown(t, n), None, injector) == MoreUnknown(t, n + 1)
  {
  }

  lemma PlusEmpty(t: Tally)
    ensures Plus(t, EMPTY) == t
  {
  }

  lemma PlusNote(s: Tally, t: Tally, us: Option<real>, injector: bool)
    ensures Plus(s, Note(t, us, injector)) == Note(Plus(s, t), us, injector)
  {
  }

  lemma TurnKeepsAll(b: Books, start: nat)
    requires Frames(b.tally) == 0 ==> b.tally == EMPTY
    ensures All(Turned(b, start)) == All(b)
  {
    hide Plus;
    PlusEmpty(All(b));
    PlusEmpty(Total(b.lines));
    assert (b.lines + [Line(b.start, b.tally)])[..|b.lines|] == b.lines;
  }

  lemma TalliedAppend(frames: seq<Frame>, f: Frame)
    ensures Tallied(frames + [f]) == Note(Tallied(frames), Duration(f.phy, Opens(LastRef(frames), f.phy)), f.injector)
    ensures LastRef(frames + [f]) == f.phy.ampduRef
  {
    hide Duration;
    assert (frames + [f])[..|frames|] == frames;
  }

  lemma ChargeAddsUp(b: Books, f: Seen)
    ensures All(Charged(b, f)) == Note(All(b), TimeOf(b.last, f), f.injector)
    ensures Frames(Charged(b, f).tally) == Frames(b.tally) + 1
  {
    hide TimeOf, Total, Plus;
    PlusNote(Total(b.lines), b.tally, TimeOf(b.last, f), f.injector);
  }

  lemma PassesAppend(before: seq<Event>, ev: Event)
    ensures var f, events := Classified(ev), before + [ev];
      && Parsed(events) == Parsed(before)
           + (if f.Some? && f.value.phy.Some? then [Frame(f.value.phy.value, f.value.injector)] else [])
      && Unparsed(events) == Unparsed(before) + (if f.Some? && f.value.phy.None? then 1 else 0)
  {
    assert (before + [ev])[..|before|] == before;
  }

  /** The whole charge and the last reference after one more pass. */
  lemma WholeAppend(before: seq<Event>, ev: Event)
    ensures var f, last := Classified(ev), LastRef(Parsed(before));
      && Whole(before + [ev]) == (if f.Some? then Note(Whole(before), TimeOf(last, f.value), f.value.injector)
                                  else Whole(before))
      && LastRef(Parsed(before + [ev])) == (if f.Some? then RefAfter(last, f.value) else last)
  {
    hide Duration, Opens, Tallied, Note, Parsed, Unparsed, MoreUnknown, LastRef, Classified;
    var f, frames := Classified(ev), Parsed(before);
    PassesAppend(before, ev);
    assert frames + [] == frames;
    if f.Some? {
      NoteBeside(Tallied(frames), Unparsed(before), TimeOf(LastRef(frames), f.value), f.value.injector);
      if f.value.phy.Some? { TalliedAppend(frames, Frame(f.value.phy.value, f.value.injector)); }
    }
  }

  /** An open minute without frames has no time. */
  ghost predicate NoneForNothing(b: Books) { Frames(b.tally) == 0 ==> b.tally == EMPTY }

  /** The books agree with the input so far. */
  ghost predicate Agrees(b: Books, events: seq<Event>) {
    All(b) == Whole(events) && b.last == LastRef(Parsed(events)) && NoneForNothing(b)
  }

  lemma TurnAgrees(b: Books, events: seq<Event>, start: nat)
    requires Agrees(b, events)
    ensures Agrees(Turned(b, start), events)
  {
    TurnKeepsAll(b, start);
    hide All, Whole, LastRef, Parsed;
  }

  lemma ChargeAgrees(b: Books, before: seq<Event>, ev: Event)
    requires Agrees(b, before)
    ensures Agrees(if Classified(ev).Some? then Charged(b, Classified(ev).value) else b, before + [ev])
  {
    WholeAppend(before, ev);
    hide All, Whole, LastRef, Parsed, Frames, Note, TimeOf, RefAfter;
    if Classified(ev).Some? { ChargeAddsUp(b, Classified(ev).value); }
  }

  lemma StepAgrees(b: Books, before: seq<Event>, ev: Event)
    requires Agrees(b, before)
    ensures Agrees(Step(b, ev), before + [ev])
  {
    hide Agrees, Turned, Charged;
    var moves := if ev.Received? then StartOf(ev.second) != b.start else StartOf(ev.second) > b.start;
    if moves { TurnAgrees(b, before, StartOf(ev.second)); }
    ChargeAgrees(if moves then Turned(b, StartOf(ev.second)) else b, before, ev);
  }

  lemma {:induction false} RunAgrees(start: nat, events: seq<Event>)
    ensures Agrees(Run(Opening(start), events), events)
  {
    hide Agrees, Step, Opening;
    if events == [] {
      NothingAddsUp(start);
    } else {
      var n := |events| - 1;
      RunAgrees(start, events[..n]);
      StepAgrees(Run(Opening(start), events[..n]), events[..n], events[n]);
      assert events[..n] + [events[n]] == events;
    }
  }

  lemma NothingAddsUp(start: nat)
    ensures Agrees(Opening(start), [])
  {
    hide Duration, Plus;
    PlusEmpty(EMPTY);
    assert Tallied([]) == EMPTY && Total([]) == EMPTY;
  }

  /** However the input falls into minutes, the lines handed on when the loop stops total the
      charge of the whole input, each parsed frame charged by the one before it: an aggregate
      that crosses a minute pays its preamble once. */
  lemma LinesAddUp(start: nat, events: seq<Event>)
    ensures var b := Run(Opening(start), events);
      Total(Turned(b, b.start).lines) == Whole(events)
  {
    var b := Run(Opening(start), events);
    RunAgrees(start, events);
    TurnAgrees(b, events, b.start);
    PlusEmpty(Total(Turned(b, b.start).lines));
    hide Plus, Whole, Run, Total;
  }

  lemma WholeIsSum(events: seq<Event>)
    ensures var t := Whole(events);
      && t.injectorUs + t.otherUs == Sum(None, Parsed(events))
      && Frames(t) == |Parsed(events)| + Unparsed(events)
  {
    TallyIsSum(Parsed(events));
    hide Parsed, Tallied, Sum, Unparsed;
  }

  /** The lines' injector time is the charges of the injector's parsed frames and nothing else,
      and their other time those of the others; a frame counts as known exactly when its
      header parses and determines its time. */
  lemma LinesBySource(start: nat, events: seq<Event>)
    ensures var b, frames := Run(Opening(start), events), Parsed(events);
      var t := Total(Turned(b, b.start).lines);
      && t.injectorUs == SumBySource(frames, true) && t.otherUs == SumBySource(frames, false)
      && t.known == |set i | 0 <= i < |frames| && Duration(frames[i].phy, true).Some?|
      && t.known + t.unknown == |frames| + Unparsed(events)
  {
    LinesAddUp(start, events);
    TallyBySource(Parsed(events));
    hide Run, Total, Turned, Tallied, Parsed, Unparsed, Duration, SumBySource;
  }

  /** No line is empty. */
  lemma {:induction false} LinesHaveFrames(start: nat, events: seq<Event>)
    ensures forall i :: 0 <= i < |Run(Opening(start), events).lines| ==>
      Frames(Run(Opening(start), events).lines[i].tally) > 0
  {
    hide TimeOf, RefAfter;
    if events != [] { LinesHaveFrames(start, events[..|events| - 1]); }
  }

  lemma MinuteStarts(second: nat)
    ensures StartOf(second) % 60 == 0 && StartOf(second) <= second < StartOf(second) + 60
  {
  }

  // -- every frame in its own minute -----------------------------------------------------------------

  function LinesOf(lines: seq<Line>, m: nat): Tally {
    if lines == [] then EMPTY
    else
      var n := |lines| - 1;
      Plus(LinesOf(lines[..n], m), if lines[n].start == m then lines[n].tally else EMPTY)
  }

  /** The charge of the frames received in the minute that starts at `m`, each by the parsed
      frame before it, in whichever minute that one was. */
  function TallyIn(events: seq<Event>, m: nat): Tally {
    if events == [] then EMPTY
    else
      var n := |events| - 1;
      var before, f := events[..n], Classified(events[n]);
      if f.Some? && StartOf(events[n].second) == m
      then Note(TallyIn(before, m), TimeOf(LastRef(Parsed(before)), f.value), f.value.injector)
      else TallyIn(before, m)
  }

  function TallyAt(b: Books, m: nat): Tally { Plus(LinesOf(b.lines, m), if b.start == m then b.tally else EMPTY) }

  lemma LinesOfAppend(lines: seq<Line>, l: Line, m: nat)
    ensures LinesOf(lines + [l], m) == Plus(LinesOf(lines, m), if l.start == m then l.tally else EMPTY)
  {
    hide Plus;
    assert (lines + [l])[..|lines|] == lines;
  }

  lemma TurnKeepsTallies(b: Books, start: nat, m: nat)
    requires NoneForNothing(b)
    ensures TallyAt(Turned(b, start), m) == TallyAt(b, m) == LinesOf(Turned(b, start).lines, m)
  {
    LinesOfAppend(b.lines, Line(b.start, b.tally), m);
    PlusEmpty(LinesOf(b.lines, m));
    PlusEmpty(LinesOf(Turned(b, start).lines, m));
    hide Plus, LinesOf;
  }

  lemma ChargeTallies(b: Books, f: Seen, m: nat)
    ensures TallyAt(Charged(b, f), m) ==
      if b.start == m then Note(TallyAt(b, m), TimeOf(b.last, f), f.injector) else TallyAt(b, m)
  {
    PlusNote(LinesOf(b.lines, m), b.tally, TimeOf(b.last, f), f.injector);
    hide Plus, LinesOf, Note, TimeOf, RefAfter;
  }

  lemma TurnStarts(b: Books, start: nat)
    ensures Turned(b, start).start == start && Turned(b, start).last == b.last
  {
  }

  lemma StepTallies(b: Books, ev: Event, m: nat)
    requires NoneForNothing(b)
    ensures var f := Classified(ev);
      TallyAt(Step(b, ev), m) ==
        if f.Some? && StartOf(ev.second) == m then Note(TallyAt(b, m), TimeOf(b.last, f.value), f.value.injector)
        else TallyAt(b, m)
  {
    hide TallyAt, Turned, Charged, NoneForNothing, StartOf, Note, TimeOf;
    var start := StartOf(ev.second);
    TurnKeepsTallies(b, start, m);
    TurnStarts(b, start);
    if Classified(ev).Some? {
      ChargeTallies(if start != b.start then Turned(b, start) else b, Classified(ev).value, m);
    }
  }

  lemma {:induction false} FramesAreInTheirMinutes(start: nat, events: seq<Event>, m: nat)
    ensures TallyAt(Run(Opening(start), events), m) == TallyIn(events, m)
  {
    hide TimeOf, Step, Note, StartOf, Parsed, LastRef, TallyAt, Opening;
    if events == [] {
      NoTallies(start, m);
    } else {
      var n := |events| - 1;
      var b := Run(Opening(start), events[..n]);
      FramesAreInTheirMinutes(start, events[..n], m);
      RunAgrees(start, events[..n]);
      assert Agrees(b, events[..n]);
      StepTallies(b, events[n], m);
    }
  }

  lemma NoTallies(start: nat, m: nat)
    ensures TallyAt(Opening(start), m) == EMPTY
  {
    hide Plus;
    PlusEmpty(EMPTY);
    assert LinesOf([], m) == EMPTY;
  }

  /** When the loop stops, the lines of a minute total exactly the charges, by source, and the
      counts of the frames received in it, however the clocks went. */
  lemma LinesAreTheirMinutes(start: nat, events: seq<Event>, m: nat)
    ensures var b := Run(Opening(start), events);
      LinesOf(Turned(b, b.start).lines, m) == TallyIn(events, m)
  {
    var b := Run(Opening(start), events);
    FramesAreInTheirMinutes(start, events, m);
    RunAgrees(start, events);
    assert Agrees(b, events);
    hide TallyAt, Turned, Run, TallyIn;
    TurnKeepsTallies(b, b.start, m);
  }
}
