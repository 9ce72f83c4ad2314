/**
 The CSIQ container as a stream: a header, an optional session block, then framed
 records to the end of the file. A capture may be cut anywhere, so what matters is what
 a reader makes of a prefix.
 */
module CsiqStream {
  import opened Prelude
  import opened Bytes
  import opened Csiq

  function Magic(): seq<u8> { [0x43, 0x53, 0x49, 0x51] }
  const FORMAT_VERSION: nat := 1
  const RECORD_TAG: u8 := 0xA1
  const HEADER: nat := 12

  // -- what a byte sequence holds -------------------------------------------------------------

  datatype Ending = Clean | Failed(error: Error)

  datatype Reading = Reading(records: seq<Rec>, ending: Ending)

  datatype Framed = NoMore | Broken(error: Error) | Frame(payload: seq<u8>, rest: seq<u8>)

  function FirstFrame(b: seq<u8>): (f: Framed)
    ensures f.Frame? ==> |f.rest| < |b|
  {
    if b == [] then NoMore
    else if b[0] != RECORD_TAG then Broken(Desync)
    else if |b| < 5 || |b| < 5 + FromLe(b[1..5]) then Broken(Truncated)
    else Frame(b[5..5 + FromLe(b[1..5])], b[5 + FromLe(b[1..5])..])
  }

  /** The records a reader yields from the bytes after the session block, and how it stops. */
  function Records(b: seq<u8>): Reading
    decreases |b|
  {
    match FirstFrame(b)
    case NoMore => Reading([], Clean)
    case Broken(e) => Reading([], Failed(e))
    case Frame(payload, rest) =>
      match Decode(payload)
      case Err(e) => Reading([], Failed(e))
      case Ok(rec) => var more := Records(rest); Reading([rec] + more.records, more.ending)
  }

  datatype Capture = Capture(session: Option<seq<u8>>, reading: Reading)

  /** The session block is opaque here: its bytes, or none when the header does not flag it. */
  function ReadFile(b: seq<u8>): Result<Capture, Error> {
    if |b| < 4 then Err(Truncated)
    else if b[..4] != Magic() then Err(BadMagic)
    else if |b| < HEADER then Err(Truncated)
    else if FromLe(b[4..6]) != FORMAT_VERSION then Err(UnsupportedVersion)
    else
      var n := FromLe(b[8..12]);
      if |b| < HEADER + n then Err(Truncated)
      else
        var flagged := FromLe(b[6..8]) % 2 == 1;
        Ok(Capture(if n > 0 && flagged then Some(b[HEADER..HEADER + n]) else None, Records(b[HEADER + n..])))
  }

  /** A file is refused for its magic before its length, its length before its version, and its
      version before its session block. */
  lemma RefusedIff(b: seq<u8>)
    ensures var r, magic := ReadFile(b), [0x43, 0x53, 0x49, 0x51];
      && (r == Err(BadMagic) <==> |b| >= 4 && b[..4] != magic)
      && (r == Err(UnsupportedVersion) <==> |b| >= 12 && b[..4] == magic && FromLe(b[4..6]) != 1)
      && (r == Err(Truncated) <==>
            || |b| < 4 || (b[..4] == magic && |b| < 12)
            || (|b| >= 12 && b[..4] == magic && FromLe(b[4..6]) == 1 && |b| < 12 + FromLe(b[8..12])))
  {
    hide FromLe, Records;
  }

  /** A frame starts with 0xA1 and its length; another byte is out of step. */
  lemma FrameErrors(b: seq<u8>)
    ensures FirstFrame(b) == Broken(Desync) <==> b != [] && b[0] != 0xA1
    ensures FirstFrame(b) == Broken(Truncated) <==>
      b != [] && b[0] == 0xA1 && (|b| < 5 || |b| < 5 + FromLe(b[1..5]))
    ensures FirstFrame(b) == NoMore <==> b == []
  {
    hide FromLe;
  }

  /** Reading on from `left` after `records` gives what reading the whole gives. */
  ghost predicate Resumes(whole: seq<u8>, records: seq<Rec>, left: seq<u8>) {
    Records(whole) == Reading(records + Records(left).records, Records(left).ending)
  }

  lemma ResumeStart(whole: seq<u8>)
    ensures Resumes(whole, [], whole)
  {
    assert [] + Records(whole).records == Records(whole).records;
  }

  lemma ResumeStep(whole: seq<u8>, records: seq<Rec>, left: seq<u8>)
    requires Resumes(whole, records, left)
    ensures FirstFrame(left).NoMore? ==> Records(whole) == Reading(records, Clean)
    ensures FirstFrame(left).Broken? ==> Records(whole) == Reading(records, Failed(FirstFrame(left).error))
    ensures FirstFrame(left).Frame? && Decode(FirstFrame(left).payload).Err? ==>
      Records(whole) == Reading(records, Failed(Decode(FirstFrame(left).payload).error))
    ensures FirstFrame(left).Frame? && Decode(FirstFrame(left).payload).Ok? ==>
      Resumes(whole, records + [Decode(FirstFrame(left).payload).value], FirstFrame(left).rest)
  {
    hide Decode, FirstFrame;
    assert records + [] == records;
    var f := FirstFrame(left);
    if f.Frame? && Decode(f.payload).Ok? {
      var rec, more := Decode(f.payload).value, Records(f.rest).records;
      assert records + ([rec] + more) == (records + [rec]) + more;
    }
  }

  // -- the reader -----------------------------------------------------------------------------------

  /** A binary file open for reading. */
  class Stream {
    const data: seq<u8>
    var pos: nat

    ghost predicate Valid()
      reads this
    {
      pos <= |data|
    }

    function Left(): seq<u8>
      reads this
      requires Valid()
    {
      data[pos..]
    }

    constructor (bytes: seq<u8>)
      ensures Valid() && Left() == bytes
    {
      data, pos := bytes, 0;
    }

    /** Up to `n` bytes; fewer only at the end of the file. */
    method Read(n: nat) returns (buf: seq<u8>)
      requires Valid()
      modifies this
      ensures Valid() && buf + Left() == old(Left())
      ensures |buf| == Min(n, |old(Left())|)
    {
      var k := Min(n, |data| - pos);
      buf := data[pos..pos + k];
      pos := pos + k;
    }

    method ReadExactly(n: nat) returns (r: Result<seq<u8>, Error>)
      requires Valid()
      modifies this
      ensures Valid() && (r.Ok? <==> |old(Left())| >= n)
      ensures r.Ok? ==> r.value == old(Left())[..n] && Left() == old(Left())[n..]
      ensures r.Err? ==> r.error == Truncated
    {
      var buf := Read(n);
      if |buf| != n { return Err(Truncated); }
      assert (buf + Left())[..n] == buf && (buf + Left())[n..] == Left();
      return Ok(buf);
    }

    /** The reads that make up one record: a tag, a length and the payload. */
    method ReadFrame() returns (f: Option<Result<seq<u8>, Error>>)
      requires Valid()
      modifies this
      ensures Valid()
      ensures match FirstFrame(old(Left()))
              case NoMore => f == None
              case Broken(e) => f == Some(Err(e))
              case Frame(payload, rest) => f == Some(Ok(payload)) && Left() == rest
    {
      hide FromLe;
      ghost var b := Left();
      var tag := Read(1);
      if |tag| == 0 { return None; }
      assert b[0] == tag[0] && Left() == b[1..];
      if tag[0] != RECORD_TAG { return Some(Err(Desync)); }
      var size := ReadExactly(4);
      if size.Err? { return Some(Err(size.error)); }
      assert size.value == b[1..5] && Left() == b[5..];
      var n := FromLe(size.value);
      var payload := ReadExactly(n);
      assert payload.Ok? ==> payload.value == b[5..5 + n] && Left() == b[5 + n..];
      return Some(payload);
    }

    /** The generator behind `read_csiq`, run until it stops. */
    method ReadRecords() returns (records: seq<Rec>, ending: Ending)
      requires Valid()
      modifies this
      ensures Reading(records, ending) == Records(old(Left()))
    {
      hide Decode, FirstFrame, Records, Resumes;
      ghost var whole := Left();
      records := [];
      ResumeStart(whole);
      while true
        invariant Valid() && Resumes(whole, records, Left())
        decreases |Left()|
      {
        ghost var b := Left();
        ResumeStep(whole, records, b);
        var frame := ReadFrame();
        match frame
        case None => return records, Clean;
        case Some(Err(e)) => return records, Failed(e);
        case Some(Ok(payload)) =>
          match Decode(payload)
          case Err(e) => return records, Failed(e);
          case Ok(rec) => records := records + [rec];
      }
    }
  }

  /** Open a capture and read every record. */
  method ReadCsiq(fh: Stream) returns (r: Result<Capture, Error>)
    requires fh.Valid()
    modifies fh
    ensures r == ReadFile(old(fh.Left()))
  {
    hide Records, FromLe;
    ghost var b := fh.Left();
    var magic := fh.ReadExactly(4);
    if magic.Err? { return Err(magic.error); }
    if magic.value != Magic() { return Err(BadMagic); }
    var fields := fh.ReadExactly(8);
    if fields.Err? { return Err(fields.error); }
    SplitAfter(b, 4, 8);
    Subslice(b, 4, 12, 0, 2);
    Subslice(b, 4, 12, 2, 4);
    Subslice(b, 4, 12, 4, 8);
    var version, flags, n := FromLe(fields.value[..2]), FromLe(fields.value[2..4]), FromLe(fields.value[4..]);
    if version != FORMAT_VERSION { return Err(UnsupportedVersion); }
    var session := None;
    assert fh.Left() == b[HEADER..];
    if HEADER + n <= |b| { SplitAfter(b, HEADER, n); }
    if n > 0 {
      var blob := fh.ReadExactly(n);
      if blob.Err? { return Err(blob.error); }
      if flags % 2 == 1 { session := Some(blob.value); }
    }
    assert fh.Left() == b[HEADER + n..];
    var records, ending := fh.ReadRecords();
    return Ok(Capture(session, Reading(records, ending)));
  }

  // -- cut captures -----------------------------------------------------------------------------------

  /** The frame at the start of a cut is the frame at the start of the whole, or the cut
      falls inside it. */
  lemma CutFrame(b: seq<u8>, k: nat)
    requires k <= |b|
    ensures var f, g := FirstFrame(b[..k]), FirstFrame(b);
      || (k == 0 && f == NoMore)
      || (k > 0 && g == Broken(Desync) && f == g)
      || (k > 0 && f == Broken(Truncated) && (g == Broken(Truncated) || (g.Frame? && k < |b| - |g.rest|)))
      || (g.Frame? && k >= |b| - |g.rest| && f == Frame(g.payload, g.rest[..k - (|b| - |g.rest|)]))
  {
    hide FromLe;
    var c := b[..k];
    if k > 0 && b[0] == RECORD_TAG && k >= 5 {
      assert c[1..5] == b[1..5];
      var e := 5 + FromLe(b[1..5]);
      if k >= e {
        assert c[5..e] == b[5..e];
        assert c[e..] == b[e..][..k - e];
      }
    }
  }

  /** Cutting any file, well formed or not, yields a prefix of its records: a cut never
      produces a record that the whole does not, and it ends cleanly, as truncated, or
      exactly as the whole does after the same records. */
  lemma {:induction false} CutYieldsPrefix(b: seq<u8>, k: nat)
    requires k <= |b|
    ensures var cut, whole := Records(b[..k]), Records(b);
      && cut.records <= whole.records
      && (cut.ending == Clean || cut.ending == Failed(Truncated) || cut == whole)
    decreases |b|
  {
    hide Decode, FirstFrame;
    CutFrame(b, k);
    var f, g := FirstFrame(b[..k]), FirstFrame(b);
    if f.Frame? && Decode(g.payload).Ok? {
      var e := |b| - |g.rest|;
      CutYieldsPrefix(g.rest, k - e);
    }
  }

  function FrameBytes(payload: seq<u8>): seq<u8> { [0xA1] + Le(4, |payload|) + payload }

  function Frames(ps: seq<seq<u8>>): seq<u8> {
    if ps == [] then [] else FrameBytes(ps[0]) + Frames(ps[1..])
  }

  predicate Framable(ps: seq<seq<u8>>) {
    forall i :: 0 <= i < |ps| ==> |ps[i]| < TWO_32 && Decode(ps[i]).Ok?
  }

  function Decoded(ps: seq<seq<u8>>): seq<Rec>
    requires Framable(ps)
  {
    if ps == [] then [] else [Decode(ps[0]).value] + Decoded(ps[1..])
  }

  lemma FirstOfFrames(ps: seq<seq<u8>>)
    requires ps != [] && |ps[0]| < TWO_32
    ensures FirstFrame(Frames(ps)) == Frame(ps[0], Frames(ps[1..]))
  {
    var b, n := Frames(ps), |ps[0]|;
    Powers();
    FromLeOfLe(4, n);
    assert b[1..5] == Le(4, n);
    assert b[5..5 + n] == ps[0] && b[5 + n..] == Frames(ps[1..]);
  }

  /** Cutting a stream of records at byte `k` yields exactly the records whose frames lie
      wholly before `k`, and the end is clean exactly at a frame boundary. */
  lemma {:induction false} CutStream(ps: seq<seq<u8>>, k: nat) returns (n: nat)
    requires Framable(ps) && k <= |Frames(ps)|
    ensures n <= |ps| && |Frames(ps[..n])| <= k && (n < |ps| ==> k < |Frames(ps[..n + 1])|)
    ensures Records(Frames(ps)[..k]) ==
      Reading(Decoded(ps[..n]), if k == |Frames(ps[..n])| then Clean else Failed(Truncated))
    decreases |ps|
  {
    hide Decode, FirstFrame, FrameBytes;
    var b := Frames(ps);
    CutFrame(b, k);
    assert ps[..0] == [] && Decoded(ps[..0]) == [] && Frames(ps[..0]) == [];
    if ps == [] {
      NothingLeft();
      n := 0;
    } else {
      FirstOfFrames(ps);
      hide Decoded;
      var e := |FrameBytes(ps[0])|;
      if k < e {
        n := 0;
        assert ps[..1][1..] == [];
      } else {
        var m := CutStream(ps[1..], k - e);
        n := m + 1;
        HeadAndTail(ps, m);
        if m < |ps[1..]| { HeadAndTail(ps, m + 1); }
      }
    }
  }

  lemma NothingLeft()
    ensures FirstFrame([]) == NoMore
  {
  }

  lemma HeadAndTail(ps: seq<seq<u8>>, m: nat)
    requires m < |ps|
    ensures |Frames(ps[..m + 1])| == |FrameBytes(ps[0])| + |Frames(ps[1..][..m])|
    ensures Framable(ps) ==> Decoded(ps[..m + 1]) == [Decode(ps[0]).value] + Decoded(ps[1..][..m])
  {
    hide FrameBytes, Decode;
    assert ps[..m + 1][1..] == ps[1..][..m] && ps[..m + 1][0] == ps[0];
  }

  function HeaderBytes(flags: u16, n: nat): (h: seq<u8>)
    ensures |h| == HEADER
  {
    [0x43, 0x53, 0x49, 0x51] + Le(2, 1) + Le(2, flags) + Le(4, n)
  }

  function FileBytes(flags: u16, session: seq<u8>, ps: seq<seq<u8>>): seq<u8> {
    HeaderBytes(flags, |session|) + session + Frames(ps)
  }

  lemma HeaderFields(flags: u16, n: u32)
    ensures var h := HeaderBytes(flags, n);
      && h[..4] == Magic() && FromLe(h[4..6]) == FORMAT_VERSION && FromLe(h[6..8]) == flags
      && FromLe(h[8..12]) == n
  {
    hide FromLe, Le;
    Powers();
    FromLeOfLe(2, FORMAT_VERSION);
    FromLeOfLe(2, flags);
    FromLeOfLe(4, n);
    var h := HeaderBytes(flags, n);
    assert h[4..6] == Le(2, FORMAT_VERSION);
    assert h[6..8] == Le(2, flags);
    assert h[8..12] == Le(4, n);
  }

  lemma Slices(h: seq<u8>, session: seq<u8>, tail: seq<u8>, cut: nat)
    requires |h| == HEADER && HEADER <= cut <= HEADER + |session| + |tail|
    ensures var b := (h + session + tail)[..cut];
      && b[..4] == h[..4] && b[4..6] == h[4..6] && b[6..8] == h[6..8] && b[8..12] == h[8..12]
      && (cut >= HEADER + |session| ==>
            && b[HEADER..HEADER + |session|] == session
            && b[HEADER + |session|..] == tail[..cut - HEADER - |session|])
  {
    var b := (h + session + tail)[..cut];
    assert b[..HEADER] == h;
    assert b[4..6] == b[..HEADER][4..6] && b[6..8] == b[..HEADER][6..8] && b[8..12] == b[..HEADER][8..12];
    if cut >= HEADER + |session| {
      assert b[HEADER..HEADER + |session|] == session;
      assert b[HEADER + |session|..] == tail[..cut - HEADER - |session|];
    }
  }

  /** What a cut capture opens to. */
  lemma OpenCut(flags: u16, session: seq<u8>, ps: seq<seq<u8>>, cut: nat)
    requires |session| < TWO_32 && cut <= |FileBytes(flags, session, ps)|
    ensures ReadFile(FileBytes(flags, session, ps)[..cut]) ==
      if cut < HEADER + |session| then Err(Truncated)
      else Ok(Capture(if session != [] && flags % 2 == 1 then Some(session) else None,
                      Records(Frames(ps)[..cut - HEADER - |session|])))
  {
    hide Records, FromLe, Frames, HeaderBytes;
    HeaderFields(flags, |session|);
    var h := HeaderBytes(flags, |session|);
    var b := FileBytes(flags, session, ps)[..cut];
    assert |b| == cut;
    if cut >= HEADER {
      Slices(h, session, Frames(ps), cut);
      assert b[..4] == Magic() && FromLe(b[4..6]) == FORMAT_VERSION;
      assert FromLe(b[6..8]) == flags && FromLe(b[8..12]) == |session|;
    } else if cut >= 4 {
      assert b[..4] == h[..4];
    }
  }

  /** A capture cut before its session block ends cannot be opened; cut anywhere after, it
      opens with its session and yields the records that were written in full. */
  lemma CutFile(flags: u16, session: seq<u8>, ps: seq<seq<u8>>, cut: nat) returns (n: nat)
    requires |session| < TWO_32 && Framable(ps) && cut <= |FileBytes(flags, session, ps)|
    ensures n <= |ps|
    ensures ReadFile(FileBytes(flags, session, ps)[..cut]) ==
      if cut < HEADER + |session| then Err(Truncated)
      else
        var at := cut - HEADER - |session|;
        Ok(Capture(if session != [] && flags % 2 == 1 then Some(session) else None,
                   Reading(Decoded(ps[..n]), if at == |Frames(ps[..n])| then Clean else Failed(Truncated))))
    ensures cut >= HEADER + |session| ==>
      var at := cut - HEADER - |session|;
      |Frames(ps[..n])| <= at && (n < |ps| ==> at < |Frames(ps[..n + 1])|)
  {
    hide Records, ReadFile, Frames, Decoded, Framable, HeaderBytes;
    OpenCut(flags, session, ps, cut);
    n := 0;
    if cut >= HEADER + |session| { n := CutStream(ps, cut - HEADER - |session|); }
  }
}
