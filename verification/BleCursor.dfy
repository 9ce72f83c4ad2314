/**
 Attributing the session's BLE log to capture segments: a cursor over an append-only file
 of lines that is still being written. The method works on bytes; the theorems about runs
 are about whole lines.
 */
module BleCursor {
  import opened Prelude

  const NEWLINE: u8 := 10

  datatype Row = Row(ts: nat, device: string, rssi: Option<int>, lab: Option<nat>)

  /** How log lines are read: which byte strings are UTF-8, and what a line's JSON says. */
  datatype Decoder = Decoder(text: seq<u8> -> bool, parse: seq<u8> -> Option<Row>)

  // -- lines ------------------------------------------------------------------------------------

  /** Up to and including the first newline, or everything. */
  function FirstLine(b: seq<u8>): (l: seq<u8>)
    ensures |l| <= |b| && l == b[..|l|] && (b != [] ==> l != [])
  {
    if b == [] then [] else if b[0] == NEWLINE then [b[0]] else [b[0]] + FirstLine(b[1..])
  }

  predicate Complete(l: seq<u8>) { l != [] && l[|l| - 1] == NEWLINE }

  function Lines(b: seq<u8>): seq<seq<u8>> {
    var l := FirstLine(b);
    if Complete(l) then [l] + Lines(b[|l|..]) else []
  }

  /** What follows the last newline. */
  function Partial(b: seq<u8>): seq<u8> {
    var l := FirstLine(b);
    if Complete(l) then Partial(b[|l|..]) else b
  }

  function Size(ls: seq<seq<u8>>): nat { if ls == [] then 0 else |ls[0]| + Size(ls[1..]) }

  // -- what one slice consumes and counts ----------------------------------------------------------

  /** Whether reading goes past a line: a row of a later segment stays unread. */
  predicate Passes(d: Decoder, l: seq<u8>, last: nat) {
    d.text(l) && (d.parse(l).Some? ==> d.parse(l).value.ts <= last)
  }

  /** How many of the lines are passed before the first that is not. */
  function Stop(d: Decoder, ls: seq<seq<u8>>, last: nat): (k: nat)
    ensures k <= |ls|
  {
    if ls == [] || !Passes(d, ls[0], last) then 0 else 1 + Stop(d, ls[1..], last)
  }

  /** The read stops at bytes that are not UTF-8. */
  predicate Undecodable(d: Decoder, ls: seq<seq<u8>>, rest: seq<u8>, last: nat) {
    var k := Stop(d, ls, last);
    if k < |ls| then !d.text(ls[k]) else rest != [] && !d.text(rest)
  }

  function Rows(d: Decoder, ls: seq<seq<u8>>): seq<Row> {
    if ls == [] then []
    else
      var l := ls[|ls| - 1];
      Rows(d, ls[..|ls| - 1]) + match d.parse(l) case None => [] case Some(r) => [r]
  }

  function MalformedIn(d: Decoder, ls: seq<seq<u8>>): nat {
    if ls == [] then 0
    else MalformedIn(d, ls[..|ls| - 1]) + if d.parse(ls[|ls| - 1]).None? then 1 else 0
  }

  function Between(rows: seq<Row>, first: nat, last: nat): seq<Row> {
    if rows == [] then []
    else
      var r := rows[|rows| - 1];
      Between(rows[..|rows| - 1], first, last) + if first <= r.ts <= last then [r] else []
  }

  function From(rows: seq<Row>, first: nat): seq<Row> {
    if rows == [] then []
    else
      var r := rows[|rows| - 1];
      From(rows[..|rows| - 1], first) + if first <= r.ts then [r] else []
  }

  // -- summaries --------------------------------------------------------------------------------------

  datatype Summary = Summary(observations: nat, devices: set<string>, rssiUnavailable: nat, labFrames: nat,
                             participants: set<nat>, firstSeen: nat, lastSeen: nat, maxGapMs: nat, malformed: nat)

  function Count(rows: seq<Row>, p: Row -> bool): nat {
    if rows == [] then 0 else Count(rows[..|rows| - 1], p) + if p(rows[|rows| - 1]) then 1 else 0
  }

  function Devices(rows: seq<Row>): set<string> { set r | r in rows :: r.device }

  function Participants(rows: seq<Row>): set<nat> { set r | r in rows && r.lab.Some? :: r.lab.value }

  /** The first time that is not zero. */
  function FirstSeen(rows: seq<Row>): nat {
    if rows == [] then 0
    else
      var before := FirstSeen(rows[..|rows| - 1]);
      if before == 0 then rows[|rows| - 1].ts else before
  }

  function LastSeen(rows: seq<Row>): nat { if rows == [] then 0 else rows[|rows| - 1].ts }

  /** The widest gap between neighbouring rows, in whole milliseconds. */
  function MaxGapMs(rows: seq<Row>): nat {
    if |rows| < 2 then 0
    else
      var n := |rows| - 1;
      var gap := if rows[n - 1].ts != 0 then Max(rows[n].ts - rows[n - 1].ts, 0) / 1_000_000 else 0;
      Max(MaxGapMs(rows[..n]), gap)
  }

  function SummaryOf(rows: seq<Row>, malformed: nat): Summary {
    Summary(|rows|, Devices(rows), Count(rows, (r: Row) => r.rssi.None?), Count(rows, (r: Row) => r.lab.Some?),
            Participants(rows), FirstSeen(rows), LastSeen(rows), MaxGapMs(rows), malformed)
  }

  /** The summary of the lines a slice has consumed. */
  function Tally(d: Decoder, ls: seq<seq<u8>>, first: nat): Summary {
    SummaryOf(From(Rows(d, ls), first), MalformedIn(d, ls))
  }

  /** What a slice returns and how many lines it consumes, given the lines not yet consumed. */
  datatype Outcome = Outcome(summary: Option<Summary>, consumed: nat)

  function SliceLines(d: Decoder, ls: seq<seq<u8>>, rest: seq<u8>, first: nat, last: nat): (o: Outcome)
    ensures o.consumed <= |ls|
  {
    if last == 0 || Undecodable(d, ls, rest, last) then Outcome(None, 0)
    else
      var k := Stop(d, ls, last);
      Outcome(Some(Tally(d, ls[..k], first)), k)
  }

  // -- the cursor ----------------------------------------------------------------------------------------

  /** The tally the reading loop keeps; `prev` is the last counted row's time. */
  function Note(s: Summary, r: Row): Summary {
    s.(observations := s.observations + 1,
       devices := s.devices + {r.device},
       rssiUnavailable := if r.rssi.None? then s.rssiUnavailable + 1 else s.rssiUnavailable,
       labFrames := if r.lab.Some? then s.labFrames + 1 else s.labFrames,
       participants := if r.lab.Some? then s.participants + {r.lab.value} else s.participants,
       firstSeen := if s.firstSeen == 0 then r.ts else s.firstSeen,
       lastSeen := r.ts,
       maxGapMs := if s.lastSeen != 0 then Max(s.maxGapMs, Max(r.ts - s.lastSeen, 0) / 1_000_000) else s.maxGapMs)
  }

  lemma NoteIsAppend(rows: seq<Row>, malformed: nat, r: Row)
    ensures Note(SummaryOf(rows, malformed), r) == SummaryOf(rows + [r], malformed)
  {
    hide Count, FirstSeen, MaxGapMs, Devices, Participants;
    var more := rows + [r];
    assert more[..|more| - 1] == rows && more[|more| - 1] == r;
    CountAppend(rows, r, (x: Row) => x.rssi.None?);
    CountAppend(rows, r, (x: Row) => x.lab.Some?);
    SetsAppend(rows, r);
    GapAppend(rows, r);
  }

  lemma CountAppend(rows: seq<Row>, r: Row, p: Row -> bool)
    ensures Count(rows + [r], p) == Count(rows, p) + if p(r) then 1 else 0
  {
    assert (rows + [r])[..|rows|] == rows;
  }

  lemma SetsAppend(rows: seq<Row>, r: Row)
    ensures Devices(rows + [r]) == Devices(rows) + {r.device}
    ensures Participants(rows + [r]) == Participants(rows) + if r.lab.Some? then {r.lab.value} else {}
  {
    var more := rows + [r];
    assert r in more && forall x :: x in rows ==> x in more;
  }

  lemma GapAppend(rows: seq<Row>, r: Row)
    ensures FirstSeen(rows + [r]) == if FirstSeen(rows) == 0 then r.ts else FirstSeen(rows)
    ensures MaxGapMs(rows + [r]) ==
      if LastSeen(rows) != 0 then Max(MaxGapMs(rows), Max(r.ts - LastSeen(rows), 0) / 1_000_000) else MaxGapMs(rows)
  {
    assert (rows + [r])[..|rows|] == rows;
  }

  // -- what a summary means -----------------------------------------------------------------------------

  lemma CountWithLast(rows: seq<Row>, p: Row -> bool)
    requires rows != []
    ensures var n := |rows| - 1;
      |set i | 0 <= i < |rows| && p(rows[i])| ==
      |set i | 0 <= i < n && p(rows[..n][i])| + if p(rows[n]) then 1 else 0
  {
    var n := |rows| - 1;
    var a, b := set i | 0 <= i < n && p(rows[..n][i]), set i | 0 <= i < |rows| && p(rows[i]);
    assert b == if p(rows[n]) then a + {n} else a;
  }

  lemma {:induction false} CountIsSize(rows: seq<Row>, p: Row -> bool)
    ensures Count(rows, p) == |set i | 0 <= i < |rows| && p(rows[i])|
  {
    if rows != [] {
      CountIsSize(rows[..|rows| - 1], p);
      CountWithLast(rows, p);
    }
  }

  /** The counts of a summary are those of the rows without RSSI and of the rows with a lab
      frame, and its sets those of the devices and of the lab frames' participants. */
  lemma SummaryCounts(rows: seq<Row>, malformed: nat)
    ensures var s := SummaryOf(rows, malformed);
      && s.observations == |rows| && s.malformed == malformed
      && s.rssiUnavailable == |set i | 0 <= i < |rows| && rows[i].rssi.None?|
      && s.labFrames == |set i | 0 <= i < |rows| && rows[i].lab.Some?|
      && (forall x :: x in s.devices <==> exists i :: 0 <= i < |rows| && rows[i].device == x)
      && (forall x :: x in s.participants <==> exists i :: 0 <= i < |rows| && rows[i].lab == Some(x))
  {
    var noRssi, lab := (r: Row) => r.rssi.None?, (r: Row) => r.lab.Some?;
    CountIsSize(rows, noRssi);
    CountIsSize(rows, lab);
    assert (set i | 0 <= i < |rows| && rows[i].rssi.None?) == set i | 0 <= i < |rows| && noRssi(rows[i]);
    assert (set i | 0 <= i < |rows| && rows[i].lab.Some?) == set i | 0 <= i < |rows| && lab(rows[i]);
    hide Count, FirstSeen, LastSeen, MaxGapMs;
  }

  /** The first time is the first that is not zero, the last that of the last row. */
  lemma {:induction false} SummaryTimes(rows: seq<Row>, malformed: nat)
    ensures var s := SummaryOf(rows, malformed);
      && (s.firstSeen == 0 <==> forall i :: 0 <= i < |rows| ==> rows[i].ts == 0)
      && (s.firstSeen != 0 ==> exists i :: 0 <= i < |rows| && rows[i].ts == s.firstSeen
                                           && forall j :: 0 <= j < i ==> rows[j].ts == 0)
      && (rows != [] ==> s.lastSeen == rows[|rows| - 1].ts)
  {
    hide Count, MaxGapMs, Devices, Participants;
    if rows != [] {
      var n := |rows| - 1;
      SummaryTimes(rows[..n], malformed);
      if FirstSeen(rows[..n]) != 0 {
        var i :| 0 <= i < n && rows[..n][i].ts == FirstSeen(rows[..n])
                 && forall j :: 0 <= j < i ==> rows[..n][j].ts == 0;
        assert rows[i].ts == FirstSeen(rows) && forall j :: 0 <= j < i ==> rows[j].ts == rows[..n][j].ts;
      } else {
        assert forall j :: 0 <= j < n ==> rows[j].ts == rows[..n][j].ts;
        assert rows[n].ts == FirstSeen(rows);
      }
    }
  }

  /** The step into row `i`, in whole milliseconds. */
  function StepMs(rows: seq<Row>, i: nat): nat
    requires 0 < i < |rows| && rows[i - 1].ts != 0
  {
    if rows[i].ts > rows[i - 1].ts then (rows[i].ts - rows[i - 1].ts) / 1_000_000 else 0
  }

  /** The widest gap bounds every step from a row with a time to the next, and is one of them
      or zero. */
  lemma {:induction false} SummaryGap(rows: seq<Row>, malformed: nat) returns (k: nat)
    ensures var gap := SummaryOf(rows, malformed).maxGapMs;
      && (forall i :: 0 < i < |rows| && rows[i - 1].ts != 0 ==> StepMs(rows, i) <= gap)
      && (gap == 0 || (0 < k < |rows| && rows[k - 1].ts != 0 && gap == StepMs(rows, k)))
  {
    hide Count, FirstSeen, LastSeen, Devices, Participants;
    k := 0;
    if |rows| >= 2 {
      var n := |rows| - 1;
      var before := rows[..n];
      k := SummaryGap(before, malformed);
      forall i | 0 < i < |rows| && rows[i - 1].ts != 0 ensures StepMs(rows, i) <= MaxGapMs(rows) {
        if i < n { assert StepMs(before, i) == StepMs(rows, i); }
      }
      if MaxGapMs(rows) > MaxGapMs(before) { k := n; }
    }
  }

  lemma UnfoldLines(b: seq<u8>)
    ensures var l := FirstLine(b);
      if Complete(l) then Lines(b) == [l] + Lines(b[|l|..]) && Partial(b) == Partial(b[|l|..])
      else Lines(b) == [] && Partial(b) == b
  {
    hide FirstLine, Complete;
  }

  predicate IsLine(l: seq<u8>) { l != [] && l[|l| - 1] == 10 && 10 !in l[..|l| - 1] }

  /** Whole lines and the rest make up the bytes; a line ends with its only line feed, and the
      rest has none. */
  lemma {:induction false} LinesMakeUp(b: seq<u8>)
    ensures Joined(Lines(b)) + Partial(b) == b && 10 !in Partial(b)
    ensures forall i :: 0 <= i < |Lines(b)| ==> IsLine(Lines(b)[i])
    decreases |b|
  {
    FirstLineFeed(b);
    UnfoldLines(b);
    WholeOrLine(b);
    JoinNone();
    var l := FirstLine(b);
    hide FirstLine, Lines, Partial, IsLine, Complete, Joined;
    if Complete(l) {
      LinesMakeUp(b[|l|..]);
      JoinFirst(l, Lines(b[|l|..]), Partial(b[|l|..]));
    } else {
      assert [] + b == b;
    }
  }

  lemma WholeOrLine(b: seq<u8>)
    ensures var l := FirstLine(b);
      if Complete(l) then l != [] && b == l + b[|l|..] else l == b
  {
    if !Complete(FirstLine(b)) { WholeUnread(b); }
  }

  lemma JoinNone()
    ensures Joined([]) == []
  {
  }

  lemma JoinFirst(l: seq<u8>, ls: seq<seq<u8>>, rest: seq<u8>)
    ensures Joined([l] + ls) + rest == l + (Joined(ls) + rest)
  {
    assert ([l] + ls)[1..] == ls;
  }

  function Joined(ls: seq<seq<u8>>): seq<u8> { if ls == [] then [] else ls[0] + Joined(ls[1..]) }

  lemma {:induction false} FirstLineFeed(b: seq<u8>)
    ensures var l := FirstLine(b);
      if Complete(l) then IsLine(l) else 10 !in l
  {
    if b != [] && b[0] != NEWLINE {
      FirstLineFeed(b[1..]);
      var l, rest := FirstLine(b), FirstLine(b[1..]);
      assert l == [b[0]] + rest;
      if rest != [] { assert l[|l| - 1] == rest[|rest| - 1] && l[..|l| - 1] == [b[0]] + rest[..|rest| - 1]; }
    }
  }

  class Cursor {
    const decoder: Decoder
    var offset: nat

    constructor (d: Decoder)
      ensures decoder == d && offset == 0
    {
      decoder, offset := d, 0;
    }

    /** Rows in `[first, last]`, advancing past them. `log` is the file as it is now, or none
        if it cannot be opened; it may have been cut since, in which case nothing is read. */
    method Slice(log: Option<seq<u8>>, first: nat, last: nat) returns (s: Option<Summary>)
      modifies this
      ensures log == None ==> s == None && offset == old(offset)
      ensures log.Some? ==>
        var tail := log.value[Min(old(offset), |log.value|)..];
        var o := SliceLines(decoder, Lines(tail), Partial(tail), first, last);
        s == o.summary && offset == old(offset) + Size(Lines(tail)[..o.consumed])
    {
      if last == 0 { return None; }
      if log.None? { return None; }
      ghost var tail := log.value[Min(offset, |log.value|)..];
      var unread, consumed := log.value[Min(offset, |log.value|)..], offset;
      var t := Summary(0, {}, 0, 0, {}, 0, 0, 0, 0);
      ghost var passed: seq<seq<u8>> := [];
      StartOfSlice(decoder, tail, first, last);
      hide FirstLine, Lines, Partial, SliceLines, Tally, Note, Reading, Size;
      while true
        invariant Reading(decoder, tail, passed, unread, first, last, t) && consumed == offset + Size(passed)
        invariant offset == old(offset)
        decreases |unread|
      {
        var line := FirstLine(unread);
        if Complete(line) && Passes(decoder, line, last) {
          PassLine(decoder, tail, passed, unread, first, last, t);
        } else {
          StopLine(decoder, tail, passed, unread, first, last, t);
        }
        if !decoder.text(line) && line != [] { return None; }
        if line == [] { break; }
        if line[|line| - 1] != NEWLINE { break; }
        unread := unread[|line|..];
        match decoder.parse(line) {
          case Some(obs) =>
            if obs.ts > last { break; }
            consumed := consumed + |line|;
            if obs.ts >= first { t := Note(t, obs); }
          case None =>
            consumed := consumed + |line|;
            t := t.(malformed := t.malformed + 1);
        }
        SizeAppend(passed, line);
        passed := passed + [line];
      }
      offset := consumed;
      return Some(t);
    }
  }

  /** Part way through a slice: `passed` is consumed, `unread` is not, and the tally is that
      of the rows passed. */
  ghost predicate Reading(d: Decoder, tail: seq<u8>, passed: seq<seq<u8>>, unread: seq<u8>,
                          first: nat, last: nat, t: Summary) {
    && Lines(tail) == passed + Lines(unread) && Partial(tail) == Partial(unread)
    && (forall i :: 0 <= i < |passed| ==> Passes(d, passed[i], last))
    && t == Tally(d, passed, first)
  }

  /** The tally with one more consumed line. */
  function After(d: Decoder, first: nat, t: Summary, l: seq<u8>): Summary {
    match d.parse(l)
    case None => t.(malformed := t.malformed + 1)
    case Some(r) => if first <= r.ts then Note(t, r) else t
  }

  lemma StartOfSlice(d: Decoder, tail: seq<u8>, first: nat, last: nat)
    ensures Reading(d, tail, [], tail, first, last, Summary(0, {}, 0, 0, {}, 0, 0, 0, 0))
  {
    assert [] + Lines(tail) == Lines(tail);
  }

  lemma {:induction false} StopAfter(d: Decoder, passed: seq<seq<u8>>, ls: seq<seq<u8>>, last: nat)
    requires forall i :: 0 <= i < |passed| ==> Passes(d, passed[i], last)
    ensures Stop(d, passed + ls, last) == |passed| + Stop(d, ls, last)
    decreases |passed|
  {
    hide Passes;
    if passed == [] {
      assert passed + ls == ls;
    } else {
      assert (passed + ls)[1..] == passed[1..] + ls;
      StopAfter(d, passed[1..], ls, last);
    }
  }

  lemma {:induction false} SizeAppend(ls: seq<seq<u8>>, l: seq<u8>)
    ensures Size(ls + [l]) == Size(ls) + |l|
  {
    if ls == [] {
      assert ls + [l] == [l];
      assert [l][1..] == [];
    } else {
      assert (ls + [l])[1..] == ls[1..] + [l];
      SizeAppend(ls[1..], l);
    }
  }

  lemma FromAppend(rows: seq<Row>, r: Row, first: nat)
    ensures From(rows + [r], first) == From(rows, first) + if first <= r.ts then [r] else []
  {
    assert (rows + [r])[..|rows|] == rows;
  }

  lemma SummaryOfMalformed(rows: seq<Row>, n: nat)
    ensures SummaryOf(rows, n + 1) == SummaryOf(rows, n).(malformed := n + 1) && SummaryOf(rows, n).malformed == n
  {
  }

  lemma TallyAppend(d: Decoder, passed: seq<seq<u8>>, l: seq<u8>, first: nat)
    ensures Tally(d, passed + [l], first) == After(d, first, Tally(d, passed, first), l)
  {
    hide SummaryOf, From, Note;
    var more := passed + [l];
    assert more[..|more| - 1] == passed;
    var rows := Rows(d, passed);
    assert rows + [] == rows && From(rows, first) + [] == From(rows, first);
    match d.parse(l)
    case None => SummaryOfMalformed(From(rows, first), MalformedIn(d, passed));
    case Some(r) =>
      FromAppend(rows, r, first);
      NoteIsAppend(From(rows, first), MalformedIn(d, passed), r);
  }

  /** A line that is passed. */
  lemma PassLine(d: Decoder, tail: seq<u8>, passed: seq<seq<u8>>, unread: seq<u8>, first: nat, last: nat, t: Summary)
    requires Reading(d, tail, passed, unread, first, last, t)
    requires Complete(FirstLine(unread)) && Passes(d, FirstLine(unread), last)
    ensures var l := FirstLine(unread);
      Reading(d, tail, passed + [l], unread[|l|..], first, last, After(d, first, t, l))
  {
    hide Tally, After, Complete, Passes;
    var l := FirstLine(unread);
    TallyAppend(d, passed, l, first);
    assert passed + ([l] + Lines(unread[|l|..])) == (passed + [l]) + Lines(unread[|l|..]);
  }

  /** A line, whole or not, that ends the slice. */
  lemma StopLine(d: Decoder, tail: seq<u8>, passed: seq<seq<u8>>, unread: seq<u8>, first: nat, last: nat, t: Summary)
    requires Reading(d, tail, passed, unread, first, last, t) && last > 0
    requires !Complete(FirstLine(unread)) || !Passes(d, FirstLine(unread), last)
    ensures var l := FirstLine(unread);
      SliceLines(d, Lines(tail), Partial(tail), first, last) ==
        if l != [] && !d.text(l) then Outcome(None, 0) else Outcome(Some(t), |passed|)
    ensures Lines(tail)[..|passed|] == passed
  {
    hide Tally, Complete;
    var l, ls := FirstLine(unread), Lines(unread);
    StopAfter(d, passed, ls, last);
    assert Lines(tail)[..|passed|] == passed;
    if Complete(l) {
      assert ls[0] == l && Lines(tail)[|passed|] == l;
    } else {
      WholeUnread(unread);
    }
  }

  lemma {:induction false} WholeUnread(b: seq<u8>)
    requires !Complete(FirstLine(b))
    ensures FirstLine(b) == b && Lines(b) == [] && Partial(b) == b
  {
    if b != [] {
      if |b| > 1 && b[0] != NEWLINE {
        var l := FirstLine(b[1..]);
        assert FirstLine(b) == [b[0]] + l;
        WholeUnread(b[1..]);
      }
    }
  }
}
