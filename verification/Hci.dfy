/**
 LE advertising reports in HCI event packets (Bluetooth Core Specification Vol 4 Part E,
 section 7.7.65.2): a packet may be cut short, and the parser says whether reports are missing.
 */
module Hci {
  import opened Prelude
  import opened Bytes

  const EVENT_PKT: u8 := 0x04
  const EVT_LE_META: u8 := 0x3E
  const SUBEVT_LE_ADV_REPORT: u8 := 0x02
  /** event type, address type, address and data length */
  const REPORT_FIXED: nat := 9

  datatype RawAdv = RawAdv(eventType: u8, addrType: u8, addr: seq<u8>, rssi: int, data: seq<u8>)

  datatype ParsedEvent = ParsedEvent(advs: seq<RawAdv>, truncated: bool, ignored: bool)

  // -- parsing ---------------------------------------------------------------------------------

  datatype First = Short | Report(adv: RawAdv, rest: seq<u8>)

  /** The report at the start of `d`, if all of it is there. */
  function FirstReport(d: seq<u8>): (f: First)
    ensures f.Report? ==> |f.rest| < |d|
  {
    if |d| < REPORT_FIXED then Short
    else
      var dataLen: nat := d[8];
      var at := REPORT_FIXED + dataLen;
      if |d| <= at then Short
      else Report(RawAdv(d[0], d[1], d[2..8], AsI8(d[at]), d[REPORT_FIXED..at]), d[at + 1..])
  }

  function Reports(d: seq<u8>, num: nat): (e: ParsedEvent)
    ensures !e.ignored
  {
    if num == 0 then ParsedEvent([], false, false)
    else
      match FirstReport(d)
      case Short => ParsedEvent([], true, false)
      case Report(adv, rest) =>
        var more := Reports(rest, num - 1);
        more.(advs := [adv] + more.advs)
  }

  const IGNORED: ParsedEvent := ParsedEvent([], false, true)

  function Parsed(buf: seq<u8>): ParsedEvent {
    if |buf| < 5 || buf[0] != EVENT_PKT || buf[1] != EVT_LE_META then IGNORED
    else
      var plen: nat := buf[2];
      var params := buf[3..Min(3 + plen, |buf|)];
      if |params| < 2 || params[0] != SUBEVT_LE_ADV_REPORT then IGNORED
      else Reports(params[2..], params[1])
  }

  method ParseHciEvent(buf: seq<u8>) returns (e: ParsedEvent)
    ensures e == Parsed(buf)
  {
    if |buf| < 5 || buf[0] != EVENT_PKT || buf[1] != EVT_LE_META { return IGNORED; }
    var plen: nat := buf[2];
    var end := Min(3 + plen, |buf|);
    var params := buf[3..end];
    if |params| < 2 || params[0] != SUBEVT_LE_ADV_REPORT { return IGNORED; }
    e := ReadReports(params[2..], params[1]);
  }

  /** The report loop. */
  method ReadReports(d: seq<u8>, num: nat) returns (e: ParsedEvent)
    ensures e == Reports(d, num)
  {
    hide AsI8, FirstReport, Resumes, Reports;
    var advs, off := [], 0;
    ResumeStart(d, num);
    for i := 0 to num
      invariant off <= |d| && Resumes(d, num, advs, d[off..], num - i)
    {
      ResumeStep(d, num, advs, d[off..], num - i);
      ReportAt(d, off);
      if off + REPORT_FIXED > |d| { return ParsedEvent(advs, true, false); }
      var dataLen: nat := d[off + 8];
      var rssiAt := off + REPORT_FIXED + dataLen;
      if rssiAt >= |d| { return ParsedEvent(advs, true, false); }
      var adv := RawAdv(d[off], d[off + 1], d[off + 2..off + 8], AsI8(d[rssiAt]), d[off + REPORT_FIXED..rssiAt]);
      advs := advs + [adv];
      off := rssiAt + 1;
    }
    ResumeStep(d, num, advs, d[off..], 0);
    return ParsedEvent(advs, false, false);
  }

  /** Reading `left` for `n` more reports after `advs` gives what reading the whole gives. */
  ghost predicate Resumes(d: seq<u8>, num: nat, advs: seq<RawAdv>, left: seq<u8>, n: nat) {
    Reports(d, num) == ParsedEvent(advs + Reports(left, n).advs, Reports(left, n).truncated, false)
  }

  lemma ResumeStart(d: seq<u8>, num: nat)
    ensures Resumes(d, num, [], d[0..], num)
  {
    assert d[0..] == d && [] + Reports(d, num).advs == Reports(d, num).advs;
  }

  lemma ResumeStep(d: seq<u8>, num: nat, advs: seq<RawAdv>, left: seq<u8>, n: nat)
    requires Resumes(d, num, advs, left, n)
    ensures n == 0 ==> Reports(d, num) == ParsedEvent(advs, false, false)
    ensures n > 0 && FirstReport(left).Short? ==> Reports(d, num) == ParsedEvent(advs, true, false)
    ensures n > 0 && FirstReport(left).Report? ==>
      Resumes(d, num, advs + [FirstReport(left).adv], FirstReport(left).rest, n - 1)
  {
    hide FirstReport;
    assert advs + [] == advs;
    if n > 0 && FirstReport(left).Report? {
      var f := FirstReport(left);
      var more := Reports(f.rest, n - 1).advs;
      assert advs + ([f.adv] + more) == (advs + [f.adv]) + more;
    }
  }

  /** The report that starts at `off`, in terms of the whole. */
  lemma ReportAt(d: seq<u8>, off: nat)
    requires off <= |d|
    ensures off + REPORT_FIXED > |d| ==> FirstReport(d[off..]) == Short
    ensures off + REPORT_FIXED <= |d| ==>
      var dataLen: nat := d[off + 8];
      var at := off + REPORT_FIXED + dataLen;
      FirstReport(d[off..]) ==
        if at >= |d| then Short
        else Report(RawAdv(d[off], d[off + 1], d[off + 2..off + 8], AsI8(d[at]), d[off + REPORT_FIXED..at]),
                    d[at + 1..])
  {
    hide AsI8;
    var left := d[off..];
    if off + REPORT_FIXED <= |d| {
      var dataLen: nat := d[off + 8];
      var at := off + REPORT_FIXED + dataLen;
      if at < |d| {
        assert left[2..8] == d[off + 2..off + 8];
        assert left[REPORT_FIXED..at - off] == d[off + REPORT_FIXED..at];
        assert left[at - off + 1..] == d[at + 1..];
      }
    }
  }

  // -- encoding -----------------------------------------------------------------------------------

  predicate WellFormed(r: RawAdv) { |r.addr| == 6 && |r.data| < TWO_8 && -128 <= r.rssi < 128 }

  predicate AllWellFormed(rs: seq<RawAdv>) { forall i :: 0 <= i < |rs| ==> WellFormed(rs[i]) }

  function ReportBytes(r: RawAdv): (b: seq<u8>)
    requires WellFormed(r)
    ensures |b| == REPORT_FIXED + |r.data| + 1
  {
    [r.eventType, r.addrType] + r.addr + [|r.data|] + r.data + [FromI8(r.rssi)]
  }

  function Body(rs: seq<RawAdv>): seq<u8>
    requires AllWellFormed(rs)
  {
    if rs == [] then [] else ReportBytes(rs[0]) + Body(rs[1..])
  }

  /** One event carrying `rs`, if they fit its one-byte length. */
  function Event(rs: seq<RawAdv>): seq<u8>
    requires AllWellFormed(rs) && |rs| < TWO_8 && 2 + |Body(rs)| < TWO_8
  {
    [0x04, 0x3E, 2 + |Body(rs)|, 0x02, |rs|] + Body(rs)
  }

  lemma FirstOfBytes(r: RawAdv, rest: seq<u8>)
    requires WellFormed(r)
    ensures FirstReport(ReportBytes(r) + rest) == Report(r, rest)
  {
    var d, n := ReportBytes(r) + rest, |r.data|;
    assert d[0] == r.eventType && d[1] == r.addrType && d[8] == n && d[9 + n] == FromI8(r.rssi);
    assert d[2..8] == r.addr;
    assert d[9..9 + n] == r.data;
    assert d[10 + n..] == rest;
  }

  lemma ShortOfCut(r: RawAdv, d: seq<u8>)
    requires WellFormed(r) && |d| < |ReportBytes(r)| && d <= ReportBytes(r)
    ensures FirstReport(d) == Short
  {
    if |d| > 8 { assert d[8] == ReportBytes(r)[8] == |r.data|; }
  }

  /** Cut anywhere, a report list yields the reports that lie wholly before the cut. */
  lemma {:induction false} CutBody(rs: seq<RawAdv>, k: nat) returns (n: nat)
    requires AllWellFormed(rs) && k <= |Body(rs)|
    ensures n <= |rs| && |Body(rs[..n])| <= k && (n < |rs| ==> k < |Body(rs[..n + 1])|)
    ensures Reports(Body(rs)[..k], |rs|) == ParsedEvent(rs[..n], n < |rs|, false)
    decreases |rs|
  {
    hide FirstReport, ReportBytes;
    n := 0;
    assert rs[..0] == [];
    if rs != [] {
      var r := rs[0];
      BodyOfMore(rs, 0);
      var e := |ReportBytes(r)|;
      if k < e {
        assert Body(rs)[..k] == ReportBytes(r)[..k];
        ShortOfCut(r, Body(rs)[..k]);
      } else {
        var m := CutBody(rs[1..], k - e);
        n := m + 1;
        assert Body(rs)[..k] == ReportBytes(r) + Body(rs[1..])[..k - e];
        FirstOfBytes(r, Body(rs[1..])[..k - e]);
        BodyOfMore(rs, m);
        if m < |rs[1..]| { BodyOfMore(rs, m + 1); }
        assert rs[..n] == [r] + rs[1..][..m];
      }
    }
  }

  lemma BodyOfMore(rs: seq<RawAdv>, m: nat)
    requires AllWellFormed(rs) && m < |rs|
    ensures |Body(rs[..m + 1])| == |ReportBytes(rs[0])| + |Body(rs[1..][..m])|
  {
    hide ReportBytes;
    assert rs[..m + 1][0] == rs[0] && rs[..m + 1][1..] == rs[1..][..m];
  }

  /** An event cut to at least its five header bytes yields the reports that are wholly
      there, and says that it was cut exactly when some are missing; uncut, it yields them all. */
  lemma CutEvent(rs: seq<RawAdv>, k: nat) returns (n: nat)
    requires AllWellFormed(rs) && |rs| < TWO_8 && 2 + |Body(rs)| < TWO_8 && 5 <= k <= |Event(rs)|
    ensures n <= |rs| && Parsed(Event(rs)[..k]) == ParsedEvent(rs[..n], n < |rs|, false)
    ensures |Body(rs[..n])| <= k - 5 && (n < |rs| ==> k - 5 < |Body(rs[..n + 1])|)
  {
    hide Body, Reports;
    n := CutBody(rs, k - 5);
    var buf := Event(rs)[..k];
    var plen: nat := buf[2];
    assert Min(3 + plen, |buf|) == k;
    var params := buf[3..k];
    assert buf == [EVENT_PKT, EVT_LE_META, plen, SUBEVT_LE_ADV_REPORT, |rs|] + Body(rs)[..k - 5];
    assert params[0] == SUBEVT_LE_ADV_REPORT && params[1] == |rs| && params[2..] == Body(rs)[..k - 5];
  }

  /** A packet is passed over exactly when it is shorter than five bytes, is not an LE
      advertising report event, or declares fewer than two bytes. */
  lemma IgnoredIff(buf: seq<u8>)
    ensures Parsed(buf).ignored <==>
      |buf| < 5 || buf[0] != 0x04 || buf[1] != 0x3E || buf[2] < 2 || buf[3] != 0x02
  {
    hide Reports;
    if |buf| >= 5 {
      var plen: nat := buf[2];
      var params := buf[3..Min(3 + plen, |buf|)];
      if |params| > 0 { assert params[0] == buf[3]; }
    }
  }

  /** Bytes after the declared length are not read. */
  lemma TrailingBytesAreIgnored(rs: seq<RawAdv>, extra: seq<u8>)
    requires AllWellFormed(rs) && |rs| < TWO_8 && 2 + |Body(rs)| < TWO_8
    ensures Parsed(Event(rs) + extra) == ParsedEvent(rs, false, false)
  {
    var n := CutEvent(rs, |Event(rs)|);
    if n < |rs| { WholeBodyIsNotShorter(rs, n); }
    hide Body, Reports;
    assert rs[..|rs|] == rs;
    EventWithTail(rs, extra);
  }

  lemma EventWithTail(rs: seq<RawAdv>, extra: seq<u8>)
    requires AllWellFormed(rs) && |rs| < TWO_8 && 2 + |Body(rs)| < TWO_8
    ensures Parsed(Event(rs) + extra) == Parsed(Event(rs)[..|Event(rs)|])
  {
    hide Body, Reports;
    var whole, buf := Event(rs), Event(rs) + extra;
    assert whole[..|whole|] == whole;
    var plen: nat := buf[2];
    assert plen == whole[2] == 2 + |Body(rs)|;
    assert buf[3..3 + plen] == whole[3..3 + plen];
  }

  lemma {:induction false} WholeBodyIsNotShorter(rs: seq<RawAdv>, n: nat)
    requires AllWellFormed(rs) && n < |rs|
    ensures |Body(rs[..n + 1])| <= |Body(rs)|
  {
    hide ReportBytes;
    BodyOfMore(rs, n);
    if n == 0 {
      assert rs[1..][..0] == [];
    } else {
      WholeBodyIsNotShorter(rs[1..], n - 1);
    }
  }
}
