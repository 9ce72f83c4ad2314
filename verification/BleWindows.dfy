/**
 Runs of the BLE cursor over a log that grows between slices: the offset stays on line
 boundaries, every line is consumed at most once, and with ordered rows and increasing
 windows each slice counts exactly the rows of its own window.
 */
module BleWindows {
  import opened Prelude
  import opened BleCursor

  /** One slice: the log as it was then, and the window asked for. */
  datatype Window = Window(log: seq<u8>, first: nat, last: nat)

  /** The bytes a slice reads when the cursor stands at `off`. */
  function Tail(off: nat, w: Window): seq<u8> { w.log[Min(off, |w.log|)..] }

  function SliceAt(d: Decoder, off: nat, w: Window): (o: Outcome)
    ensures o.consumed <= |Lines(Tail(off, w))|
  {
    SliceLines(d, Lines(Tail(off, w)), Partial(Tail(off, w)), w.first, w.last)
  }

  /** The cursor's offset after slices over `ws`. */
  function OffsetAfter(d: Decoder, ws: seq<Window>): nat {
    if ws == [] then 0
    else
      var n := |ws| - 1;
      var off := OffsetAfter(d, ws[..n]);
      off + Size(Lines(Tail(off, ws[n]))[..SliceAt(d, off, ws[n]).consumed])
  }

  function Unread(d: Decoder, ws: seq<Window>, i: nat): seq<u8>
    requires i < |ws|
  {
    Tail(OffsetAfter(d, ws[..i]), ws[i])
  }

  function OutcomeOf(d: Decoder, ws: seq<Window>, i: nat): (o: Outcome)
    requires i < |ws|
    ensures o.consumed <= |Lines(Unread(d, ws, i))|
  {
    SliceAt(d, OffsetAfter(d, ws[..i]), ws[i])
  }

  /** How many lines the first `i` slices consume. */
  function Consumed(d: Decoder, ws: seq<Window>, i: nat): nat
    requires i <= |ws|
  {
    if i == 0 then 0 else Consumed(d, ws, i - 1) + OutcomeOf(d, ws, i - 1).consumed
  }

  /** The log is only ever appended to. */
  ghost predicate Growing(ws: seq<Window>) {
    forall i, j :: 0 <= i <= j < |ws| ==> ws[i].log <= ws[j].log
  }

  // -- lines of a growing log ---------------------------------------------------------------------

  lemma {:induction false} FirstLineGrows(a: seq<u8>, b: seq<u8>)
    requires a <= b && Complete(FirstLine(a))
    ensures FirstLine(b) == FirstLine(a)
  {
    if a[0] != NEWLINE && |a| > 1 {
      assert a[1..] <= b[1..];
      assert FirstLine(a) == [a[0]] + FirstLine(a[1..]);
      FirstLineGrows(a[1..], b[1..]);
    }
  }

  lemma {:induction false} LinesGrow(a: seq<u8>, b: seq<u8>)
    requires a <= b
    ensures Lines(a) <= Lines(b)
    decreases |a|
  {
    hide FirstLine;
    var l := FirstLine(a);
    if Complete(l) {
      FirstLineGrows(a, b);
      assert a[|l|..] <= b[|l|..];
      LinesGrow(a[|l|..], b[|l|..]);
    }
  }

  /** Cutting a log at a line boundary cuts its lines there. */
  lemma {:induction false} LinesFrom(b: seq<u8>, c: nat)
    requires c <= |Lines(b)|
    ensures var off := Size(Lines(b)[..c]);
      off <= |b| && Lines(b[off..]) == Lines(b)[c..] && Partial(b[off..]) == Partial(b)
    decreases c
  {
    hide FirstLine, Complete, Partial;
    UnfoldLines(b);
    if c == 0 {
      assert b[0..] == b;
    } else {
      var l := FirstLine(b);
      var rest := b[|l|..];
      LinesFrom(rest, c - 1);
      assert Lines(b)[..c] == [l] + Lines(rest)[..c - 1];
      assert Lines(b)[..c][1..] == Lines(rest)[..c - 1];
      var off := Size(Lines(rest)[..c - 1]);
      assert b[|l| + off..] == rest[off..];
    }
  }

  lemma {:induction false} SizeSplit(ls: seq<seq<u8>>, a: nat, b: nat)
    requires a <= b <= |ls|
    ensures Size(ls[..b]) == Size(ls[..a]) + Size(ls[a..b])
    decreases b
  {
    if a < b {
      SizeSplit(ls, a, b - 1);
      SizeAppend(ls[..b - 1], ls[b - 1]);
      assert ls[..b - 1] + [ls[b - 1]] == ls[..b];
      SizeAppend(ls[a..b - 1], ls[b - 1]);
      assert ls[a..b - 1] + [ls[b - 1]] == ls[a..b];
    }
  }

  // -- every run ----------------------------------------------------------------------------------------

  /** Before every slice of a run the offset is the end of the lines consumed so far, in the
      log as it is by then; the slice reads the lines after them. */
  lemma {:induction false} OffsetIsLineBoundary(d: Decoder, ws: seq<Window>, i: nat)
    requires Growing(ws) && i < |ws|
    ensures var ls, c := Lines(ws[i].log), Consumed(d, ws, i);
      && c <= |ls| && OffsetAfter(d, ws[..i]) == Size(ls[..c]) <= |ws[i].log|
      && Lines(Unread(d, ws, i)) == ls[c..] && Partial(Unread(d, ws, i)) == Partial(ws[i].log)
    decreases i
  {
    hide Lines, Partial, SliceLines, Size;
    var ls, c := Lines(ws[i].log), Consumed(d, ws, i);
    if i == 0 {
      EmptySize(ls);
    } else {
      var j := i - 1;
      OffsetIsLineBoundary(d, ws, j);
      var was, before := Lines(ws[j].log), Consumed(d, ws, j);
      LinesGrow(ws[j].log, ws[i].log);
      OffsetStep(d, ws, j);
      assert was[..c] == ls[..c] && was[before..][..c - before] == was[before..c];
      SizeSplit(was, before, c);
    }
    LinesFrom(ws[i].log, c);
  }

  lemma EmptySize(ls: seq<seq<u8>>)
    ensures Size(ls[..0]) == 0
  {
  }

  lemma OffsetStep(d: Decoder, ws: seq<Window>, j: nat)
    requires j < |ws|
    ensures OffsetAfter(d, ws[..j + 1]) ==
      OffsetAfter(d, ws[..j]) + Size(Lines(Unread(d, ws, j))[..OutcomeOf(d, ws, j).consumed])
  {
    hide Lines, Partial, SliceLines, Size;
    var us := ws[..j + 1];
    assert us[..j] == ws[..j] && us[j] == ws[j];
    assert Unread(d, us, j) == Unread(d, ws, j);
  }

  /** The lines slice `i` consumes: a contiguous piece of the log. */
  function Piece(d: Decoder, ws: seq<Window>, i: nat): seq<seq<u8>>
    requires i < |ws|
  {
    Lines(Unread(d, ws, i))[..OutcomeOf(d, ws, i).consumed]
  }

  function Pieces(d: Decoder, ws: seq<Window>, n: nat): seq<seq<u8>>
    requires n <= |ws|
  {
    if n == 0 then [] else Pieces(d, ws, n - 1) + Piece(d, ws, n - 1)
  }

  /** The pieces that slices consume follow each other without gap or overlap from the start
      of the log, so no line is consumed twice and none is passed over; a partial last line is
      in no piece; and a slice that answers counts rows of its own piece only. */
  lemma {:induction false} EachLineIsConsumedOnce(d: Decoder, ws: seq<Window>, n: nat)
    requires Growing(ws) && n <= |ws|
    ensures forall i :: n <= i < |ws| ==> Pieces(d, ws, n) <= Lines(ws[i].log)
    ensures |Pieces(d, ws, n)| == Consumed(d, ws, n)
    decreases n
  {
    hide Lines, Partial, SliceLines, Size;
    if n > 0 {
      var j := n - 1;
      EachLineIsConsumedOnce(d, ws, j);
      OffsetIsLineBoundary(d, ws, j);
      var was, c := Lines(ws[j].log), Consumed(d, ws, j);
      assert Pieces(d, ws, j) == was[..c];
      JoinLines(was, c, OutcomeOf(d, ws, j).consumed);
      assert Pieces(d, ws, n) == was[..Consumed(d, ws, n)];
      forall i | n <= i < |ws| ensures Pieces(d, ws, n) <= Lines(ws[i].log) {
        LinesGrow(ws[j].log, ws[i].log);
      }
    }
  }

  lemma JoinLines(ls: seq<seq<u8>>, c: nat, k: nat)
    requires c + k <= |ls|
    ensures ls[..c] + ls[c..][..k] == ls[..c + k]
  {
  }

  lemma AnswersAreOfThePiece(d: Decoder, ws: seq<Window>, i: nat)
    requires i < |ws| && OutcomeOf(d, ws, i).summary.Some?
    ensures OutcomeOf(d, ws, i).summary.value == Tally(d, Piece(d, ws, i), ws[i].first)
    ensures forall k :: 0 <= k < |Piece(d, ws, i)| ==> Passes(d, Piece(d, ws, i)[k], ws[i].last)
  {
    hide Tally, Passes, Undecodable;
    var tail := Unread(d, ws, i);
    StopPasses(d, Lines(tail), ws[i].last);
  }

  lemma {:induction false} StopPasses(d: Decoder, ls: seq<seq<u8>>, last: nat)
    ensures var k := Stop(d, ls, last);
      (forall i :: 0 <= i < k ==> Passes(d, ls[i], last)) && (k < |ls| ==> !Passes(d, ls[k], last))
    decreases |ls|
  {
    hide Passes;
    if ls != [] && Passes(d, ls[0], last) {
      StopPasses(d, ls[1..], last);
      var k := Stop(d, ls[1..], last);
      forall i | 0 <= i < k + 1 ensures Passes(d, ls[i], last) {
        if i > 0 { assert ls[i] == ls[1..][i - 1]; }
      }
    }
  }

  // -- a line that is not text -----------------------------------------------------------------------------

  lemma {:induction false} StopIs(d: Decoder, ls: seq<seq<u8>>, last: nat, k: nat)
    requires k < |ls| && !Passes(d, ls[k], last) && forall i :: 0 <= i < k ==> Passes(d, ls[i], last)
    ensures Stop(d, ls, last) == k
    decreases |ls|
  {
    hide Passes;
    if k > 0 {
      forall i | 0 <= i < k - 1 ensures Passes(d, ls[1..][i], last) { assert ls[1..][i] == ls[i + 1]; }
      StopIs(d, ls[1..], last, k - 1);
    }
  }

  /** The read of `ls` from line `c` on is stopped by bytes that are not UTF-8: at a whole
      line, or at the rest after the last newline. */
  ghost predicate Blocked(d: Decoder, ls: seq<seq<u8>>, c: nat, rest: seq<u8>, last: nat) {
    exists k :: BlockedAt(d, ls, c, rest, last, k)
  }

  ghost predicate BlockedAt(d: Decoder, ls: seq<seq<u8>>, c: nat, rest: seq<u8>, last: nat, k: nat) {
    && c <= k <= |ls| && (forall j :: c <= j < k ==> Passes(d, ls[j], last))
    && if k < |ls| then !d.text(ls[k]) else rest != [] && !d.text(rest)
  }

  lemma UndecodableIff(d: Decoder, ls: seq<seq<u8>>, c: nat, rest: seq<u8>, last: nat)
    requires c <= |ls|
    ensures Undecodable(d, ls[c..], rest, last) <==> Blocked(d, ls, c, rest, last)
  {
    var tail := ls[c..];
    var k := Stop(d, tail, last);
    StopPasses(d, tail, last);
    if Undecodable(d, tail, rest, last) {
      forall j | c <= j < c + k ensures Passes(d, ls[j], last) { assert ls[j] == tail[j - c]; }
      assert BlockedAt(d, ls, c, rest, last, c + k);
    }
    if Blocked(d, ls, c, rest, last) {
      var m :| BlockedAt(d, ls, c, rest, last, m);
      BlockedStop(d, ls, c, rest, last, m);
    }
  }

  lemma BlockedStop(d: Decoder, ls: seq<seq<u8>>, c: nat, rest: seq<u8>, last: nat, m: nat)
    requires BlockedAt(d, ls, c, rest, last, m)
    ensures Undecodable(d, ls[c..], rest, last) && Stop(d, ls[c..], last) == m - c
  {
    var tail := ls[c..];
    StopPasses(d, tail, last);
    hide Stop;
    forall j | 0 <= j < m - c ensures Passes(d, tail[j], last) { assert tail[j] == ls[c + j]; }
    if m < |ls| { assert tail[m - c] == ls[m] && !Passes(d, tail[m - c], last); }
  }

  /** A slice answers exactly when it has a window and no bytes that are not UTF-8 stop it;
      otherwise it consumes nothing. */
  lemma AnswersIff(d: Decoder, ws: seq<Window>, i: nat)
    requires Growing(ws) && i < |ws|
    ensures var o, ls := OutcomeOf(d, ws, i), Lines(ws[i].log);
      && (o.summary.Some? <==>
            ws[i].last > 0 && !Blocked(d, ls, Consumed(d, ws, i), Partial(ws[i].log), ws[i].last))
      && (o.summary.None? ==> o.consumed == 0)
  {
    hide Lines, Partial, Undecodable, Blocked, Size, Tally;
    OffsetIsLineBoundary(d, ws, i);
    UndecodableIff(d, Lines(ws[i].log), Consumed(d, ws, i), Partial(ws[i].log), ws[i].last);
  }

  /** No slice gets past a line that is not UTF-8. */
  lemma {:induction false} ConsumedStopsBefore(d: Decoder, ws: seq<Window>, i: nat, k: nat, j: nat)
    requires Growing(ws) && i <= j < |ws| && Consumed(d, ws, i) <= k < |Lines(ws[i].log)|
    requires !d.text(Lines(ws[i].log)[k])
    ensures Consumed(d, ws, i) <= Consumed(d, ws, j) <= k
    decreases j
  {
    hide Lines, OutcomeOf, Growing, Consumed;
    if i < j {
      ConsumedStopsBefore(d, ws, i, k, j - 1);
      StopsOnceMore(d, ws, i, k, j - 1);
      ConsumedNext(d, ws, j - 1);
    }
  }

  lemma ConsumedNext(d: Decoder, ws: seq<Window>, h: nat)
    requires h < |ws|
    ensures Consumed(d, ws, h + 1) == Consumed(d, ws, h) + OutcomeOf(d, ws, h).consumed
  {
    hide OutcomeOf;
  }

  lemma StopsOnceMore(d: Decoder, ws: seq<Window>, i: nat, k: nat, h: nat)
    requires Growing(ws) && i <= h < |ws| && Consumed(d, ws, h) <= k < |Lines(ws[i].log)|
    requires !d.text(Lines(ws[i].log)[k])
    ensures Consumed(d, ws, h) + OutcomeOf(d, ws, h).consumed <= k
  {
    hide Lines, Partial, Size, OutcomeOf, Stop, Consumed, Unread, OffsetAfter;
    OffsetIsLineBoundary(d, ws, h);
    LinesGrow(ws[i].log, ws[h].log);
    StopsBefore(d, Lines(ws[h].log), Consumed(d, ws, h), k, ws[h].last);
    ConsumesAtMostStop(d, ws, h);
  }

  lemma ConsumesAtMostStop(d: Decoder, ws: seq<Window>, i: nat)
    requires i < |ws|
    ensures OutcomeOf(d, ws, i).consumed <= Stop(d, Lines(Unread(d, ws, i)), ws[i].last)
  {
    hide Lines, Partial, Stop, Undecodable;
  }

  lemma StopsBefore(d: Decoder, ls: seq<seq<u8>>, c: nat, k: nat, last: nat)
    requires c <= k < |ls| && !d.text(ls[k])
    ensures c + Stop(d, ls[c..], last) <= k
  {
    StopPasses(d, ls[c..], last);
    assert ls[c..][k - c] == ls[k] && !Passes(d, ls[k], last);
  }

  /** Once a slice has been stopped by a whole line that is not UTF-8, every later slice
      whose window ends no earlier answers nothing and moves nothing, whatever the slices
      between them do and however the log grows: rows before that line that were not yet
      consumed are lost to those segments. */
  lemma UndecodableLineStalls(d: Decoder, ws: seq<Window>, i: nat, k: nat, j: nat)
    requires Growing(ws) && i <= j < |ws| && k < |Lines(ws[i].log)| && ws[j].last >= ws[i].last
    requires BlockedAt(d, Lines(ws[i].log), Consumed(d, ws, i), Partial(ws[i].log), ws[i].last, k)
    ensures OutcomeOf(d, ws, j) == Outcome(None, 0)
  {
    hide Lines, Partial, Size, Tally, Undecodable;
    ConsumedStopsBefore(d, ws, i, k, j);
    OffsetIsLineBoundary(d, ws, j);
    LinesGrow(ws[i].log, ws[j].log);
    var ls, c := Lines(ws[j].log), Consumed(d, ws, j);
    forall m | c <= m < k ensures Passes(d, ls[m], ws[j].last) {
      assert ls[m] == Lines(ws[i].log)[m];
      PassesLater(d, ls[m], ws[i].last, ws[j].last);
    }
    assert ls[k] == Lines(ws[i].log)[k];
    hide Passes;
    BlockedStop(d, ls, c, Partial(ws[j].log), ws[j].last, k);
  }

  lemma PassesLater(d: Decoder, l: seq<u8>, last: nat, later: nat)
    requires Passes(d, l, last) && last <= later
    ensures Passes(d, l, later)
  {
  }

  // -- ordered rows ----------------------------------------------------------------------------------------

  predicate RowIn(d: Decoder, l: seq<u8>) { d.parse(l).Some? }

  ghost predicate AllUpTo(d: Decoder, ls: seq<seq<u8>>, t: nat) {
    forall k :: 0 <= k < |ls| && RowIn(d, ls[k]) ==> d.parse(ls[k]).value.ts <= t
  }

  ghost predicate AllBelow(d: Decoder, ls: seq<seq<u8>>, t: nat) {
    forall k :: 0 <= k < |ls| && RowIn(d, ls[k]) ==> d.parse(ls[k]).value.ts < t
  }

  ghost predicate AllAbove(d: Decoder, ls: seq<seq<u8>>, t: nat) {
    forall k :: 0 <= k < |ls| && RowIn(d, ls[k]) ==> t < d.parse(ls[k]).value.ts
  }

  ghost predicate Text(d: Decoder, ls: seq<seq<u8>>) { forall k :: 0 <= k < |ls| ==> d.text(ls[k]) }

  ghost predicate Sorted(d: Decoder, ls: seq<seq<u8>>) {
    forall j, k :: 0 <= j < k < |ls| && RowIn(d, ls[j]) && RowIn(d, ls[k]) ==>
      d.parse(ls[j]).value.ts <= d.parse(ls[k]).value.ts
  }

  lemma {:induction false} RowsAppend(d: Decoder, a: seq<seq<u8>>, b: seq<seq<u8>>)
    ensures Rows(d, a + b) == Rows(d, a) + Rows(d, b)
    decreases |b|
  {
    if b == [] {
      assert a + b == a;
    } else {
      var n := |b| - 1;
      assert (a + b)[..|a + b| - 1] == a + b[..n] && (a + b)[|a + b| - 1] == b[n];
      RowsAppend(d, a, b[..n]);
    }
  }

  lemma {:induction false} BetweenAppend(a: seq<Row>, b: seq<Row>, first: nat, last: nat)
    ensures Between(a + b, first, last) == Between(a, first, last) + Between(b, first, last)
    decreases |b|
  {
    if b == [] {
      assert a + b == a;
    } else {
      var n := |b| - 1;
      assert (a + b)[..|a + b| - 1] == a + b[..n] && (a + b)[|a + b| - 1] == b[n];
      BetweenAppend(a, b[..n], first, last);
    }
  }

  lemma {:induction false} NoneBetween(d: Decoder, ls: seq<seq<u8>>, first: nat, last: nat)
    requires AllBelow(d, ls, first) || AllAbove(d, ls, last)
    ensures Between(Rows(d, ls), first, last) == []
  {
    if ls != [] {
      var n := |ls| - 1;
      NoneBetween(d, ls[..n], first, last);
      assert RowIn(d, ls[n]) ==> d.parse(ls[n]).value.ts < first || last < d.parse(ls[n]).value.ts;
      if !RowIn(d, ls[n]) {
        assert Rows(d, ls) == Rows(d, ls[..n]);
      } else {
        assert Rows(d, ls) == Rows(d, ls[..n]) + [d.parse(ls[n]).value];
        BetweenAppend(Rows(d, ls[..n]), [d.parse(ls[n]).value], first, last);
      }
    }
  }

  lemma {:induction false} FromIsBetween(d: Decoder, ls: seq<seq<u8>>, first: nat, last: nat)
    requires AllUpTo(d, ls, last)
    ensures From(Rows(d, ls), first) == Between(Rows(d, ls), first, last)
  {
    if ls != [] {
      var n := |ls| - 1;
      FromIsBetween(d, ls[..n], first, last);
      assert RowIn(d, ls[n]) ==> d.parse(ls[n]).value.ts <= last;
      if !RowIn(d, ls[n]) {
        assert Rows(d, ls) == Rows(d, ls[..n]);
      } else {
        assert Rows(d, ls) == Rows(d, ls[..n]) + [d.parse(ls[n]).value];
        FromAppend(Rows(d, ls[..n]), d.parse(ls[n]).value, first);
        BetweenAppend(Rows(d, ls[..n]), [d.parse(ls[n]).value], first, last);
      }
    }
  }

  /** One slice over ordered rows: `c` lines are consumed, `n` are in the log, `all` will be. */
  lemma OneWindow(d: Decoder, all: seq<seq<u8>>, c: nat, n: nat, rest: seq<u8>, first: nat, last: nat)
    requires c <= n <= |all| && last > 0 && Text(d, all) && Sorted(d, all) && (rest == [] || d.text(rest))
    requires AllBelow(d, all[..c], first) && AllAbove(d, all[n..], last)
    ensures var o := SliceLines(d, all[c..n], rest, first, last);
      && o.summary == Some(SummaryOf(Between(Rows(d, all), first, last), MalformedIn(d, all[c..n][..o.consumed])))
      && AllUpTo(d, all[c..n][..o.consumed], last)
  {
    hide Stop, Rows, Between, From, SummaryOf, MalformedIn, AllBelow, AllAbove, AllUpTo, Sorted, Passes, Undecodable;
    var ls := all[c..n];
    var k := Stop(d, ls, last);
    ReadableStop(d, ls, rest, last);
    AboveAfter(d, all, c, n, k, last);
    OnlyTheMiddle(d, all[..c], ls[..k], all[c + k..], first, last);
    assert all == all[..c] + ls[..k] + all[c + k..];
    FromIsBetween(d, ls[..k], first, last);
  }

  lemma ReadableStop(d: Decoder, ls: seq<seq<u8>>, rest: seq<u8>, last: nat)
    requires Text(d, ls) && (rest == [] || d.text(rest))
    ensures var k := Stop(d, ls, last);
      && !Undecodable(d, ls, rest, last) && AllUpTo(d, ls[..k], last)
      && (k < |ls| ==> !Passes(d, ls[k], last))
  {
    hide Stop;
    StopPasses(d, ls, last);
  }

  lemma OnlyTheMiddle(d: Decoder, a: seq<seq<u8>>, b: seq<seq<u8>>, e: seq<seq<u8>>, first: nat, last: nat)
    requires AllBelow(d, a, first) && AllAbove(d, e, last)
    ensures Between(Rows(d, a + b + e), first, last) == Between(Rows(d, b), first, last)
  {
    hide Rows, Between, AllBelow, AllAbove;
    RowsAppend(d, a + b, e);
    RowsAppend(d, a, b);
    BetweenAppend(Rows(d, a) + Rows(d, b), Rows(d, e), first, last);
    BetweenAppend(Rows(d, a), Rows(d, b), first, last);
    NoneBetween(d, a, first, last);
    NoneBetween(d, e, first, last);
    var mid := Between(Rows(d, b), first, last);
    assert [] + mid + [] == mid;
  }

  lemma AboveAfter(d: Decoder, all: seq<seq<u8>>, c: nat, n: nat, k: nat, last: nat)
    requires c <= n <= |all| && Text(d, all) && Sorted(d, all) && AllAbove(d, all[n..], last)
    requires k <= n - c && (k < n - c ==> !Passes(d, all[c..n][k], last))
    ensures AllAbove(d, all[c + k..], last)
  {
    var later := all[c + k..];
    forall j | 0 <= j < |later| && RowIn(d, later[j]) ensures last < d.parse(later[j]).value.ts {
      var at := c + k + j;
      assert later[j] == all[at];
      if k < n - c {
        assert all[c..n][k] == all[c + k];
        assert d.text(all[c + k]) && RowIn(d, all[c + k]);
      } else {
        assert all[n..][at - n] == all[at];
      }
    }
  }

  /** Windows that follow each other, over a log whose rows come in order and are written
      before their window is read. */
  ghost predicate Orderly(d: Decoder, ws: seq<Window>, log: seq<u8>) {
    && Growing(ws) && (forall i :: 0 <= i < |ws| ==> ws[i].log <= log)
    && Text(d, Lines(log)) && Sorted(d, Lines(log))
    && (forall i :: 0 <= i < |ws| ==> ws[i].last > 0)
    && (forall i :: 0 <= i < |ws| ==> Partial(ws[i].log) == [] || d.text(Partial(ws[i].log)))
    && Disjoint(ws)
    && (forall i :: 0 <= i < |ws| ==> |Lines(ws[i].log)| <= |Lines(log)|
                                      && AllAbove(d, Lines(log)[|Lines(ws[i].log)|..], ws[i].last))
  }

  /** Every slice of an orderly run counts exactly the log's rows inside its window, in order,
      so its observation and distinct-device counts are those of the window. */
  lemma {:induction false} SlicesCountTheirWindows(d: Decoder, ws: seq<Window>, log: seq<u8>, i: nat)
    requires Orderly(d, ws, log) && i < |ws|
    ensures OutcomeOf(d, ws, i).summary ==
      Some(SummaryOf(Between(Rows(d, Lines(log)), ws[i].first, ws[i].last), MalformedIn(d, Piece(d, ws, i))))
  {
    hide Lines, Partial, SliceLines, Size, SummaryOf, Between, Rows, MalformedIn;
    OffsetIsLineBoundary(d, ws, i);
    ConsumedAreEarlier(d, ws, log, i);
    var all, n, c := Lines(log), |Lines(ws[i].log)|, Consumed(d, ws, i);
    LinesGrow(ws[i].log, log);
    assert all[..n] == Lines(ws[i].log) && all[c..n] == Lines(ws[i].log)[c..];
    OneWindow(d, all, c, n, Partial(ws[i].log), ws[i].first, ws[i].last);
  }

  /** What has been consumed lies before the windows still to come. */
  lemma {:induction false} ConsumedAreEarlier(d: Decoder, ws: seq<Window>, log: seq<u8>, i: nat)
    requires Orderly(d, ws, log) && i < |ws|
    ensures Consumed(d, ws, i) <= |Lines(log)|
    ensures forall j :: i <= j < |ws| ==> AllBelow(d, Lines(log)[..Consumed(d, ws, i)], ws[j].first)
    decreases i
  {
    hide Lines, Partial, Size, Text, Sorted, AllAbove, OutcomeOf, Orderly;
    if i > 0 {
      var h := i - 1;
      hide AllBelow, Consumed;
      LaterWindows(d, ws, log, h);
      ConsumedNext(d, ws, h);
      ConsumedAreEarlier(d, ws, log, h);
      OneMoreSlice(d, ws, log, h);
      var k := OutcomeOf(d, ws, h).consumed;
      forall j | i <= j < |ws| ensures AllBelow(d, Lines(log)[..Consumed(d, ws, i)], ws[j].first) {
        BelowAppend(d, Lines(log), Consumed(d, ws, h), |Lines(ws[h].log)|, k, ws[h].last, ws[j].first);
      }
    }
  }

  lemma LaterWindows(d: Decoder, ws: seq<Window>, log: seq<u8>, h: nat)
    requires Orderly(d, ws, log)
    ensures forall j :: h < j < |ws| ==> ws[h].last < ws[j].first
  {
    hide Lines, Sorted;
  }

  lemma OneMoreSlice(d: Decoder, ws: seq<Window>, log: seq<u8>, h: nat)
    requires Orderly(d, ws, log) && h < |ws| && Consumed(d, ws, h) <= |Lines(log)|
    requires AllBelow(d, Lines(log)[..Consumed(d, ws, h)], ws[h].first)
    ensures var all, n, c, k := Lines(log), |Lines(ws[h].log)|, Consumed(d, ws, h), OutcomeOf(d, ws, h).consumed;
      c + k <= n <= |all| && AllUpTo(d, all[c..n][..k], ws[h].last)
  {
    hide Lines, Partial, SliceLines, Size, SummaryOf, Between, Rows, MalformedIn, AllBelow, AllUpTo, AllAbove,
      Text, Sorted;
    OffsetIsLineBoundary(d, ws, h);
    LinesGrow(ws[h].log, log);
    var all, n, c := Lines(log), |Lines(ws[h].log)|, Consumed(d, ws, h);
    assert all[..n] == Lines(ws[h].log) && all[c..n] == Lines(ws[h].log)[c..];
    OneWindow(d, all, c, n, Partial(ws[h].log), ws[h].first, ws[h].last);
  }

  lemma BelowAppend(d: Decoder, all: seq<seq<u8>>, c: nat, n: nat, k: nat, last: nat, first: nat)
    requires c <= n <= |all| && k <= n - c && last < first
    requires AllBelow(d, all[..c], first) && AllUpTo(d, all[c..n][..k], last)
    ensures AllBelow(d, all[..c + k], first)
  {
    var earlier := all[..c + k];
    forall j | 0 <= j < |earlier| && RowIn(d, earlier[j]) ensures d.parse(earlier[j]).value.ts < first {
      if j < c { assert all[..c][j] == all[j]; } else { assert all[c..n][..k][j - c] == all[j]; }
    }
  }

  // -- rows in no window --------------------------------------------------------------------------------------

  /** The observations of all slices of a run together. */
  function Observed(d: Decoder, ws: seq<Window>, n: nat): nat
    requires n <= |ws|
  {
    if n == 0 then 0
    else
      Observed(d, ws, n - 1)
      + match OutcomeOf(d, ws, n - 1).summary case None => 0 case Some(s) => s.observations
  }

  /** The latest end of the first `n` windows. */
  function Latest(ws: seq<Window>, n: nat): nat
    requires n <= |ws|
  {
    if n == 0 then 0 else Max(Latest(ws, n - 1), ws[n - 1].last)
  }

  ghost predicate InSome(ws: seq<Window>, n: nat, t: nat)
    requires n <= |ws|
  {
    exists i :: 0 <= i < n && ws[i].first <= t <= ws[i].last
  }

  function InWindows(ws: seq<Window>, n: nat, rows: seq<Row>): nat
    requires n <= |ws|
  {
    if n == 0 then 0 else InWindows(ws, n - 1, rows) + |Between(rows, ws[n - 1].first, ws[n - 1].last)|
  }

  ghost predicate Disjoint(ws: seq<Window>) { forall i, j :: 0 <= i < j < |ws| ==> ws[i].last < ws[j].first }

  lemma {:induction false} ObservedIsInWindows(d: Decoder, ws: seq<Window>, log: seq<u8>, n: nat)
    requires Orderly(d, ws, log) && n <= |ws|
    ensures Observed(d, ws, n) == InWindows(ws, n, Rows(d, Lines(log)))
  {
    hide Lines, Rows, Between, MalformedIn, Orderly, Partial, SliceLines;
    if n > 0 {
      ObservedIsInWindows(d, ws, log, n - 1);
      SlicesCountTheirWindows(d, ws, log, n - 1);
    }
  }

  /** One more row is in one window more or in none. */
  lemma {:induction false} OneMoreRow(ws: seq<Window>, n: nat, rows: seq<Row>, r: Row)
    requires Disjoint(ws) && n <= |ws|
    ensures InWindows(ws, n, rows + [r]) == InWindows(ws, n, rows) + if InSome(ws, n, r.ts) then 1 else 0
    ensures InSome(ws, n, r.ts) ==> r.ts <= Latest(ws, n)
  {
    if n > 0 {
      OneMoreRow(ws, n - 1, rows, r);
      var w := ws[n - 1];
      assert (rows + [r])[..|rows|] == rows;
      if w.first <= r.ts <= w.last {
        assert InSome(ws, n, r.ts);
      } else {
        assert InSome(ws, n, r.ts) <==> InSome(ws, n - 1, r.ts);
      }
    }
  }

  /** Rows in windows are among the rows up to the latest end, and are all of those exactly
      when no such row is outside every window. */
  lemma {:induction false} InWindowsAtMost(ws: seq<Window>, rows: seq<Row>)
    requires Disjoint(ws)
    ensures var n, upTo := |ws|, Between(rows, 0, Latest(ws, |ws|));
      && InWindows(ws, n, rows) <= |upTo|
      && (InWindows(ws, n, rows) == |upTo| <==>
            forall r :: r in rows && r.ts <= Latest(ws, n) ==> InSome(ws, n, r.ts))
    decreases |rows|
  {
    hide Latest, InSome, Disjoint;
    if rows == [] {
      NoRowsInWindows(ws, |ws|);
    } else {
      var m := |rows| - 1;
      var before, r := rows[..m], rows[m];
      InWindowsAtMost(ws, before);
      assert rows == before + [r];
      OneMoreRow(ws, |ws|, before, r);
      assert forall x :: x in rows <==> x in before || x == r;
    }
  }

  lemma {:induction false} NoRowsInWindows(ws: seq<Window>, n: nat)
    requires n <= |ws|
    ensures InWindows(ws, n, []) == 0
  {
    if n > 0 { NoRowsInWindows(ws, n - 1); }
  }

  /** Over an orderly run the slices' observations are at most the rows up to the last
      window's end, and all of them exactly when none of these rows is outside every window:
      a row between two windows is counted by no segment. */
  lemma EveryRowIsCountedIff(d: Decoder, ws: seq<Window>, log: seq<u8>)
    requires Orderly(d, ws, log)
    ensures var rows, end := Rows(d, Lines(log)), Latest(ws, |ws|);
      && Observed(d, ws, |ws|) <= |Between(rows, 0, end)|
      && (Observed(d, ws, |ws|) == |Between(rows, 0, end)| <==>
            forall r :: r in rows && r.ts <= end ==> InSome(ws, |ws|, r.ts))
  {
    ObservedIsInWindows(d, ws, log, |ws|);
    InWindowsAtMost(ws, Rows(d, Lines(log)));
  }

  /** A decoder for one-byte rows: the byte is the time. */
  function ByteRows(): Decoder {
    Decoder((l: seq<u8>) => true,
            (l: seq<u8>) => if l == [] then None else Some(Row(l[0], "", None, None)))
  }

  /** Three rows, at 20, 30 and 40, and the two windows up to 25 and from 35: the row at 30
      lies before the second window's end, yet the two slices together count fewer than the
      three. */
  lemma RowBetweenWindows() returns (ws: seq<Window>, log: seq<u8>)
    ensures Orderly(ByteRows(), ws, log) && |ws| == 2
    ensures Rows(ByteRows(), Lines(log)) ==
      [Row(20, "", None, None), Row(30, "", None, None), Row(40, "", None, None)]
    ensures Latest(ws, 2) == 45 && !InSome(ws, 2, 30)
    ensures Observed(ByteRows(), ws, 2) < |Between(Rows(ByteRows(), Lines(log)), 0, 45)|
  {
    log := [20, NEWLINE, 30, NEWLINE, 40, NEWLINE];
    ws := [Window(log, 15, 25), Window(log, 35, 45)];
    RowsInOrder(ws, log);
    assert Latest(ws, 1) == 25 && Latest(ws, 2) == 45;
    hide Lines, Rows, Observed, Orderly, Between;
    EveryRowIsCountedIff(ByteRows(), ws, log);
    var r := Row(30, "", None, None);
    assert r in Rows(ByteRows(), Lines(log)) && r.ts <= 45 && !InSome(ws, 2, r.ts);
  }

  lemma RowsInOrder(ws: seq<Window>, log: seq<u8>)
    requires log == [20, NEWLINE, 30, NEWLINE, 40, NEWLINE] && ws == [Window(log, 15, 25), Window(log, 35, 45)]
    ensures Orderly(ByteRows(), ws, log)
    ensures Rows(ByteRows(), Lines(log)) ==
      [Row(20, "", None, None), Row(30, "", None, None), Row(40, "", None, None)]
  {
    ThreeLines();
    ThreeRows();
    hide Lines, Partial, Rows;
  }

  lemma ThreeLines()
    ensures var log := [20, NEWLINE, 30, NEWLINE, 40, NEWLINE];
      Lines(log) == [[20, NEWLINE], [30, NEWLINE], [40, NEWLINE]] && Partial(log) == []
  {
    hide Lines, Partial;
    var log: seq<u8> := [20, NEWLINE, 30, NEWLINE, 40, NEWLINE];
    var two: seq<u8>, one: seq<u8> := [30, NEWLINE, 40, NEWLINE], [40, NEWLINE];
    LineOfTwo(20, two);
    LineOfTwo(30, one);
    LineOfTwo(40, []);
    NoLines();
    assert log == [20, NEWLINE] + two && two == [30, NEWLINE] + one && one == [40, NEWLINE] + [];
  }

  lemma NoLines()
    ensures Lines([]) == [] && Partial([]) == []
  {
  }

  lemma LineOfTwo(x: u8, more: seq<u8>)
    requires x != NEWLINE
    ensures Lines([x, NEWLINE] + more) == [[x, NEWLINE]] + Lines(more)
    ensures Partial([x, NEWLINE] + more) == Partial(more)
  {
    var b := [x, NEWLINE] + more;
    assert b[1..][0] == NEWLINE;
    assert FirstLine(b[1..]) == [NEWLINE];
    assert FirstLine(b) == [x, NEWLINE];
    assert b[2..] == more;
  }

  lemma ThreeRows()
    ensures Rows(ByteRows(), [[20, NEWLINE], [30, NEWLINE], [40, NEWLINE]]) ==
      [Row(20, "", None, None), Row(30, "", None, None), Row(40, "", None, None)]
  {
    var a, b, c := [20, NEWLINE], [30, NEWLINE], [40, NEWLINE];
    var ls: seq<seq<u8>> := [a, b, c];
    assert ls[..2] == [a, b] && [a, b][..1] == [a];
    assert Rows(ByteRows(), [a]) == [Row(20, "", None, None)];
    assert Rows(ByteRows(), [a, b]) == [Row(20, "", None, None), Row(30, "", None, None)];
  }
}
