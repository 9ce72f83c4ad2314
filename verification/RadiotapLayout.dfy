/**
 Laying out radiotap headers. Any header whose fields stand at their aligned offsets parses
 to exactly those fields, whatever the padding holds, and every choice of fields has such
 a header.
 */
module RadiotapLayout {
  import opened Prelude
  import opened Bytes
  import opened Radiotap

  // -- laid-out headers ---------------------------------------------------------------------

  /** The fields of one word stand at their offsets. */
  ghost predicate FieldsAt(hdr: seq<u8>, w: nat, off: nat, v: Values) {
    && End(w, off, FIELDS) <= |hdr|
    && forall b: Index :: Bit(w, b) ==> Get(hdr, w, off, b) == v[b]
  }

  ghost predicate LaidOut(hdr: seq<u8>, off: nat, ws: seq<nat>, vs: seq<Values>)
    requires |ws| == |vs|
    decreases |ws|
  {
    ws != [] ==>
      FieldsAt(hdr, ws[0], off, vs[0]) && LaidOut(hdr, End(ws[0], off, FIELDS), ws[1..], vs[1..])
  }

  /** The presence words announce each other: each but the last says that another follows. */
  predicate Chained(ws: seq<nat>) {
    && ws != []
    && !Bit(ws[|ws| - 1], MORE_BIT)
    && forall k :: 0 <= k < |ws| - 1 ==> Bit(ws[k], MORE_BIT)
  }

  /** The fields of the first `m` words are the ones to read: words up to that one have no
      TLV, vendor or missing namespace bit, and it has one or is the last. */
  predicate Reads(ws: seq<nat>, m: nat) {
    && 0 < m <= |ws|
    && (forall k :: 0 <= k < m - 1 ==> !Stops(ws[k]))
    && (m < |ws| ==> Stops(ws[m - 1]))
  }

  /** A header with presence words `ws`, the first of them with their fields in place. */
  ghost predicate IsHeader(hdr: seq<u8>, ws: seq<nat>, vs: seq<Values>)
    requires |vs| <= |ws|
  {
    && 8 <= |hdr| <= 1024 && hdr[0] == 0 && FromLe(hdr[2..4]) == |hdr|
    && 4 + 4 * |ws| <= |hdr| && WordsOf(hdr, |ws|) == ws
    && LaidOut(hdr, 4 + 4 * |ws|, ws[..|vs|], vs)
  }

  /** The antenna slots that words after the first fill: a later word wins. */
  function Slotted(ws: seq<nat>, vs: seq<Values>, slots: Slots): Slots
    requires |ws| == |vs|
    decreases |ws|
  {
    if ws == [] then slots
    else
      var v := vs[0];
      Slotted(ws[1..], vs[1..],
              if Bit(ws[0], 5) && Bit(ws[0], 11) && v[11][0] < 2 then slots[v[11][0] := Some(AsI8(v[5][0]))] else slots)
  }

  function Expected(ws: seq<nat>, vs: seq<Values>, bodyLen: nat): Phy
    requires |ws| == |vs| > 0
  {
    PhyBelow(ws[0], vs[0], FIELDS).(antennaDbm := Slotted(ws[1..], vs[1..], [None, None]),
                                    psduLen := PsduLen(HasFcs(ws[0], vs[0]), bodyLen))
  }

  lemma {:induction false} CountOfChained(hdr: seq<u8>, ws: seq<nat>, k: nat)
    requires Chained(ws) && 0 < k <= |ws| && 4 + 4 * |ws| <= |hdr| && WordsOf(hdr, |ws|) == ws
    ensures CountWords(hdr, k) == Some(|ws|)
    decreases |ws| - k
  {
    hide Bit, FromLe, Stops;
    assert ws[k - 1] == WordAt(hdr, k - 1);
    if k < |ws| { CountOfChained(hdr, ws, k + 1); }
  }

  lemma {:induction false} AntennasOfLaidOut(hdr: seq<u8>, prev: nat, ws: seq<nat>, vs: seq<Values>, off: nat,
                                             slots: Slots)
    requires |vs| <= |ws| && off <= |hdr| && LaidOut(hdr, off, ws[..|vs|], vs)
    requires vs != [] ==> !Stops(prev)
    requires forall k :: 0 <= k < |vs| - 1 ==> !Stops(ws[k])
    requires |vs| < |ws| ==> Stops(if vs == [] then prev else ws[|vs| - 1])
    ensures Antennas(hdr, prev, ws, off, slots) == Slotted(ws[..|vs|], vs, slots)
    decreases |ws|
  {
    hide Bit, End, Walk, Stops, AsI8;
    if vs != [] {
      var w, m := ws[0], |vs| - 1;
      WalkFits(w, off, |hdr|, FIELDS);
      EndIsMonotone(w, off, 12, FIELDS);
      var b5: Index, b11: Index := 5, 11;
      assert Bit(w, b5) ==> Get(hdr, w, off, b5) == vs[0][b5];
      assert Bit(w, b11) ==> Get(hdr, w, off, b11) == vs[0][b11];
      forall k | 0 <= k < m - 1 ensures !Stops(ws[1..][k]) { assert ws[1..][k] == ws[k + 1]; }
      assert ws[..m + 1][1..] == ws[1..][..m];
      AntennasOfLaidOut(hdr, w, ws[1..], vs[1..], End(w, off, FIELDS), Noted(hdr, w, off, slots));
    }
  }

  lemma SameFields(w: nat, u: Values, v: Values, n: nat)
    requires forall b: Index :: Bit(w, b) ==> u[b] == v[b]
    ensures PhyBelow(w, u, n) == PhyBelow(w, v, n) && HasFcs(w, u) == HasFcs(w, v)
  {
    hide Bit, DecodeHt, DecodeVht, DecodeHe, FromLe;
    var f: Index, r: Index, s: Index, m: Index, a: Index, h: Index, e: Index := 1, 2, 5, 19, 20, 21, 23;
    assert Bit(w, f) ==> u[f] == v[f];
    assert Bit(w, r) ==> u[r] == v[r];
    assert Bit(w, s) ==> u[s] == v[s];
    assert Bit(w, m) ==> u[m] == v[m];
    assert Bit(w, a) ==> u[a] == v[a];
    assert Bit(w, h) ==> u[h] == v[h];
    assert Bit(w, e) ==> u[e] == v[e];
  }

  /** Parsing a header recovers every field of the words up to the first stop bit, both
      antenna signals and the payload length, for any number of words, any padding and any
      body; what the words after it announce changes nothing. */
  lemma ParseOfLayout(hdr: seq<u8>, ws: seq<nat>, vs: seq<Values>, body: seq<u8>)
    requires |vs| <= |ws| && Chained(ws) && Reads(ws, |vs|) && IsHeader(hdr, ws, vs)
    ensures Parsed(hdr + body) == Some(Expected(ws[..|vs|], vs, |body|))
  {
    hide Bit, End, Get, PhyBelow, FromLe, Stops, HasFcs, PsduLen, CountWords, Antennas, Slotted, IsWordValues;
    var frame, off, m: nat := hdr + body, 4 + 4 * |ws|, |vs| - 1;
    assert frame[..|hdr|] == hdr && frame[2..4] == hdr[2..4];
    CountOfChained(hdr, ws, 1);
    SameFields(ws[0], Fetch(hdr, ws[0], off), vs[0], FIELDS);
    forall k | 0 <= k < m - 1 ensures !Stops(ws[1..][k]) { assert ws[1..][k] == ws[k + 1]; }
    assert ws[..m + 1][1..] == ws[1..][..m];
    AntennasOfLaidOut(hdr, ws[0], ws[1..], vs[1..], End(ws[0], off, FIELDS), [None, None]);
  }

  // -- every choice of fields can be laid out ---------------------------------------------------

  function Zeros(n: nat): seq<u8> { seq(n, _ => 0) }

  /** Append the fields of `w` below bit `b`, each after its padding. */
  function Emit(acc: seq<u8>, w: nat, v: Values, b: nat): (r: seq<u8>)
    requires b <= FIELDS
    ensures |r| == End(w, |acc|, b)
  {
    if b == 0 then acc
    else
      var r := Emit(acc, w, v, b - 1);
      if Bit(w, b - 1) then r + Zeros(AlignUp(|r|, AlignOf(b - 1)) - |r|) + v[b - 1] else r
  }

  function EmitAll(acc: seq<u8>, ws: seq<nat>, vs: seq<Values>): (r: seq<u8>)
    requires |ws| == |vs|
    ensures |r| == EndAll(ws, |acc|)
    decreases |ws|
  {
    if ws == [] then acc else EmitAll(Emit(acc, ws[0], vs[0], FIELDS), ws[1..], vs[1..])
  }

  function EndAll(ws: seq<nat>, off: nat): (e: nat)
    ensures e >= off
    decreases |ws|
  {
    if ws == [] then off else EndAll(ws[1..], End(ws[0], off, FIELDS))
  }

  function WordBytes(ws: seq<nat>): (b: seq<u8>)
    ensures |b| == 4 * |ws|
  {
    if ws == [] then [] else Le(4, ws[0]) + WordBytes(ws[1..])
  }

  function Header(ws: seq<nat>, vs: seq<Values>): seq<u8>
    requires |ws| == |vs|
  {
    EmitAll([0, 0] + Le(2, EndAll(ws, 4 + 4 * |ws|)) + WordBytes(ws), ws, vs)
  }

  lemma {:induction false} EmitKeeps(acc: seq<u8>, w: nat, v: Values, b: nat)
    requires b <= FIELDS
    ensures |acc| <= |Emit(acc, w, v, b)| && Emit(acc, w, v, b)[..|acc|] == acc
  {
    hide Bit, AlignUp;
    if b > 0 { EmitKeeps(acc, w, v, b - 1); }
  }

  /** A field emitted below `b` is found in any extension of what was emitted. */
  lemma {:induction false} EmitPlaces(acc: seq<u8>, w: nat, v: Values, b: nat, c: Index, hdr: seq<u8>)
    requires c < b <= FIELDS && Bit(w, c) && Emit(acc, w, v, b) <= hdr
    ensures Get(hdr, w, |acc|, c) == v[c]
  {
    hide Bit, AlignUp, SizeOf, AlignOf;
    var r := Emit(acc, w, v, b - 1);
    if c < b - 1 {
      assert r <= Emit(acc, w, v, b);
      EmitPlaces(acc, w, v, b - 1, c, hdr);
    } else {
      var at := At(w, |acc|, c);
      assert Emit(acc, w, v, b) == r + Zeros(at - |r|) + v[c];
      assert hdr[at..at + SizeOf(c)] == Emit(acc, w, v, b)[at..];
    }
  }

  lemma {:induction false} EmitAllKeeps(acc: seq<u8>, ws: seq<nat>, vs: seq<Values>)
    requires |ws| == |vs|
    ensures acc <= EmitAll(acc, ws, vs)
    decreases |ws|
  {
    if ws != [] {
      EmitKeeps(acc, ws[0], vs[0], FIELDS);
      EmitAllKeeps(Emit(acc, ws[0], vs[0], FIELDS), ws[1..], vs[1..]);
    }
  }

  lemma {:induction false} EmitAllLaysOut(acc: seq<u8>, ws: seq<nat>, vs: seq<Values>)
    requires |ws| == |vs|
    ensures LaidOut(EmitAll(acc, ws, vs), |acc|, ws, vs)
    decreases |ws|
  {
    hide Emit, Get, Bit, End;
    if ws != [] {
      var next, hdr := Emit(acc, ws[0], vs[0], FIELDS), EmitAll(acc, ws, vs);
      EmitAllKeeps(next, ws[1..], vs[1..]);
      forall b: Index | Bit(ws[0], b) ensures Get(hdr, ws[0], |acc|, b) == vs[0][b] {
        EmitPlaces(acc, ws[0], vs[0], FIELDS, b, hdr);
      }
      EmitAllLaysOut(next, ws[1..], vs[1..]);
    }
  }

  lemma {:induction false} WordOfBytes(ws: seq<nat>, k: nat)
    requires k < |ws| && forall i :: 0 <= i < |ws| ==> ws[i] < TWO_32
    ensures FromLe(WordBytes(ws)[4 * k..4 * k + 4]) == ws[k]
    decreases k
  {
    hide FromLe, Le;
    if k == 0 {
      Powers();
      FromLeOfLe(4, ws[0]);
      assert WordBytes(ws)[..4] == Le(4, ws[0]);
    } else {
      WordOfBytes(ws[1..], k - 1);
      assert WordBytes(ws)[4 * k..4 * k + 4] == WordBytes(ws[1..])[4 * k - 4..4 * k];
    }
  }

  /** The encoder lays out any fields under any chained presence words that fit a header. */
  lemma HeaderIsHeader(ws: seq<nat>, vs: seq<Values>)
    requires |ws| == |vs| && ws != [] && EndAll(ws, 4 + 4 * |ws|) <= 1024
    requires forall i :: 0 <= i < |ws| ==> ws[i] < TWO_32
    ensures IsHeader(Header(ws, vs), ws, vs)
  {
    hide FromLe, Le, EndAll, EmitAll, LaidOut, WordBytes, WordsOf;
    var off := 4 + 4 * |ws|;
    var total := EndAll(ws, off);
    var acc, hdr := [0, 0] + Le(2, total) + WordBytes(ws), Header(ws, vs);
    assert |acc| == off && |hdr| == total;
    EmitAllKeeps(acc, ws, vs);
    EmitAllLaysOut(acc, ws, vs);
    Powers();
    FromLeOfLe(2, total);
    PrefixSlice(acc, hdr, 2, 4);
    assert acc[2..4] == Le(2, total);
    PrefixSlice(acc, hdr, 4, off);
    assert acc[4..off] == WordBytes(ws) && ws[..|vs|] == ws;
    WordsWritten(hdr, ws);
  }

  lemma PrefixSlice(acc: seq<u8>, hdr: seq<u8>, i: nat, j: nat)
    requires acc <= hdr && i <= j <= |acc|
    ensures hdr[i..j] == acc[i..j]
  {
    assert hdr[..|acc|] == acc;
  }

  lemma WordInBlock(hdr: seq<u8>, n: nat, k: nat, block: seq<u8>)
    requires 4 + 4 * n <= |hdr| && hdr[4..4 + 4 * n] == block && k < n
    ensures WordAt(hdr, k) == FromLe(block[4 * k..4 * k + 4])
  {
    hide FromLe;
    Subslice(hdr, 4, 4 + 4 * n, 4 * k, 4 * k + 4);
  }

  lemma WordsWritten(hdr: seq<u8>, ws: seq<nat>)
    requires 4 + 4 * |ws| <= |hdr| && hdr[4..4 + 4 * |ws|] == WordBytes(ws)
    requires forall i :: 0 <= i < |ws| ==> ws[i] < TWO_32
    ensures WordsOf(hdr, |ws|) == ws
  {
    hide WordAt, WordBytes, FromLe;
    forall k | 0 <= k < |ws| ensures WordsOf(hdr, |ws|)[k] == ws[k] {
      WordInBlock(hdr, |ws|, k, WordBytes(ws));
      WordOfBytes(ws, k);
    }
  }

  lemma {:induction false} LaidOutPrefix(hdr: seq<u8>, off: nat, ws: seq<nat>, vs: seq<Values>, m: nat)
    requires m <= |ws| == |vs| && LaidOut(hdr, off, ws, vs)
    ensures LaidOut(hdr, off, ws[..m], vs[..m])
    decreases |ws|
  {
    hide FieldsAt, End, IsWordValues;
    if m > 0 {
      assert ws[..m][1..] == ws[1..][..m - 1] && vs[..m][1..] == vs[1..][..m - 1];
      LaidOutPrefix(hdr, End(ws[0], off, FIELDS), ws[1..], vs[1..], m - 1);
    }
  }

  /** Parsing the encoder's header before any body recovers the words that are read. */
  lemma RoundTrip(ws: seq<nat>, vs: seq<Values>, m: nat, body: seq<u8>)
    requires |ws| == |vs| && Chained(ws) && Reads(ws, m) && EndAll(ws, 4 + 4 * |ws|) <= 1024
    requires forall i :: 0 <= i < |ws| ==> ws[i] < TWO_32
    ensures Parsed(Header(ws, vs) + body) == Some(Expected(ws[..m], vs[..m], |body|))
  {
    hide Parsed, Expected, Header, LaidOut, EndAll, FromLe, IsWordValues, Stops, Bit, WordsOf;
    var hdr := Header(ws, vs);
    HeaderIsHeader(ws, vs);
    assert ws[..|vs|] == ws;
    LaidOutPrefix(hdr, 4 + 4 * |ws|, ws, vs, m);
    ParseOfLayout(hdr, ws, vs[..m], body);
  }

  // -- field contents -----------------------------------------------------------------------------

  function EncodeHt(h: Ht): seq<u8> {
    [7, (if h.bwMhz == 40 then 1 else 0) + (if h.shortGi then 4 else 0), h.mcs]
  }

  lemma HtRoundTrip(h: Ht)
    requires h.bwMhz == 20 || h.bwMhz == 40
    ensures |EncodeHt(h)| == SizeOf(19) && DecodeHt(EncodeHt(h)) == h
  {
  }

  /** An HT field that marks width and guard interval as known or not. */
  function PartlyHt(h: Ht, bwKnown: bool, giKnown: bool): seq<u8> {
    [(if bwKnown then 1 else 0) + (if giKnown then 4 else 0),
     (if h.bwMhz == 40 then 1 else 0) + (if h.shortGi then 4 else 0), h.mcs]
  }

  /** What is not marked as known reads as 20 MHz and the long guard interval. */
  lemma HtUnknown(h: Ht, bwKnown: bool, giKnown: bool)
    requires h.bwMhz == 20 || h.bwMhz == 40
    ensures DecodeHt(PartlyHt(h, bwKnown, giKnown)) == Ht(h.mcs, if bwKnown then h.bwMhz else 20, giKnown && h.shortGi)
  {
  }

  function EncodeVht(v: Vht): seq<u8>
    requires v.mcs < 16 && v.nss < 16
  {
    var code := if v.bwMhz == 20 then 0 else if v.bwMhz == 40 then 1 else if v.bwMhz == 80 then 4 else 11;
    [0x44, 0, if v.shortGi then 4 else 0, code, 16 * v.mcs + v.nss] + Zeros(7)
  }

  lemma VhtRoundTrip(v: Vht)
    requires v.mcs < 16 && 0 < v.nss < 16 && v.bwMhz in {20, 40, 80, 160}
    ensures |EncodeVht(v)| == SizeOf(21) && DecodeVht(EncodeVht(v)) == v
  {
    var f := EncodeVht(v);
    assert f[4] == 16 * v.mcs + v.nss;
    assert f[4] / 16 == v.mcs && f[4] % 16 == v.nss;
    assert Mask(U16(f[0], f[1]), 64) && Mask(U16(f[0], f[1]), 4);
  }

  /** A VHT field with any width code, marking width and guard interval as known or not. */
  function PartlyVht(mcs: nat, nss: nat, code: u8, shortGi: bool, bwKnown: bool, giKnown: bool): seq<u8>
    requires mcs < 16 && nss < 16
  {
    [(if bwKnown then 0x40 else 0) + (if giKnown then 4 else 0), 0, if shortGi then 4 else 0, code, 16 * mcs + nss]
    + Zeros(7)
  }

  /** Width codes 0, 1 to 3, 4 to 10 and 11 to 25 are 20, 40, 80 and 160 MHz; any other, and one
      not marked as known, reads as 20 MHz, and no stream count reads as one stream. */
  lemma VhtUnknown(mcs: nat, nss: nat, code: u8, shortGi: bool, bwKnown: bool, giKnown: bool)
    requires mcs < 16 && nss < 16
    ensures var v := DecodeVht(PartlyVht(mcs, nss, code, shortGi, bwKnown, giKnown));
      && v.mcs == mcs && v.nss == Max(nss, 1) && (v.shortGi <==> shortGi && giKnown)
      && (v.bwMhz == 40 <==> bwKnown && 1 <= code <= 3) && (v.bwMhz == 80 <==> bwKnown && 4 <= code <= 10)
      && (v.bwMhz == 160 <==> bwKnown && 11 <= code <= 25) && v.bwMhz in {20, 40, 80, 160}
  {
    var f := PartlyVht(mcs, nss, code, shortGi, bwKnown, giKnown);
    assert f[4] == 16 * mcs + nss && f[3] == code;
    assert f[4] / 16 == mcs && f[4] % 16 == nss;
    assert Mask(U16(f[0], f[1]), 64) == bwKnown && Mask(U16(f[0], f[1]), 4) == giKnown && Mask(f[2], 4) == shortGi;
  }

  /** Codes of width, guard interval and training field. */
  function HeRu(bw: Option<nat>): (r: nat)
    ensures r < 16
  {
    if bw == None then 4 else if bw.value == 20 then 0 else if bw.value == 40 then 1 else if bw.value == 80 then 2 else 3
  }

  function HeGi(us: real): (r: nat)
    ensures r < 4
  {
    if us == 1.6 then 1 else if us == 3.2 then 2 else 0
  }

  function HeTraining(us: real): (r: nat)
    ensures r < 4
  {
    if us == 3.2 then 1 else if us == 12.8 then 3 else 2
  }

  /** An HE field that marks width, guard interval and training as known or not. */
  function PartlyHe(h: He, bwKnown: bool, giKnown: bool, ltfKnown: bool): seq<u8>
    requires h.format < 4 && h.mcs < 16 && h.nss < 16
  {
    var code := HeRu(h.bwMhz) + 16 * HeGi(h.giUs) + 64 * HeTraining(h.ltfUs);
    [h.format, if bwKnown then 0x40 else 0, (if giKnown then 2 else 0) + if ltfKnown then 4 else 0, 0, 0, h.mcs,
     0, 0, code, 0, h.nss, 0]
  }

  function EncodeHe(h: He): seq<u8>
    requires h.format < 4 && h.mcs < 16 && h.nss < 16
  {
    PartlyHe(h, true, true, true)
  }

  lemma HeRoundTrip(h: He)
    requires h.format < 4 && h.mcs < 16 && 0 < h.nss < 16
    requires h.bwMhz == None || h.bwMhz.value in {20, 40, 80, 160}
    requires h.giUs in {0.8, 1.6, 3.2} && h.ltfUs in {3.2, 6.4, 12.8}
    ensures |EncodeHe(h)| == SizeOf(23) && DecodeHe(EncodeHe(h)) == h
  {
    HeUnknown(h, true, true, true);
    hide DecodeHe;
  }

  /** An HE field by its bytes. */
  lemma HeOfBytes(format: nat, d0: u8, d1: u8, mcs: nat, ru: nat, gi: nat, ltf: nat, nss: nat)
    requires format < 4 && mcs < 16 && ru < 16 && gi < 4 && ltf < 4 && nss < 16
    ensures DecodeHe([format, d0, d1, 0, 0, mcs, 0, 0, ru + 16 * gi + 64 * ltf, 0, nss, 0]) ==
      He(format, mcs, Max(nss, 1), HeWidth(Mask(d0, 64), ru), HeGuard(Mask(d1, 2), gi), HeLtf(Mask(d1, 4), ltf))
  {
    hide HeWidth, HeGuard, HeLtf;
    HeCodeParts(ru, gi, ltf);
    KnownByte(format, d0);
  }

  lemma HeCodeParts(ru: nat, gi: nat, ltf: nat)
    requires ru < 16 && gi < 4 && ltf < 4
    ensures var c := ru + 16 * gi + 64 * ltf; c < 256 && c % 16 == ru && c / 16 % 4 == gi && c / 64 % 4 == ltf
  {
  }

  lemma KnownByte(format: nat, d0: u8)
    requires format < 4
    ensures Mask(U16(format, d0), 0x4000) == Mask(d0, 64) && U16(format, d0) % 4 == format
  {
  }

  lemma HeCodes(bw: Option<nat>, giUs: real, ltfUs: real, known: bool)
    ensures bw == None || bw.value in {20, 40, 80, 160} ==>
      HeWidth(known, HeRu(bw)) == if known then bw else Some(20)
    ensures giUs in {0.8, 1.6, 3.2} ==> HeGuard(known, HeGi(giUs)) == if known then giUs else 0.8
    ensures ltfUs in {3.2, 6.4, 12.8} ==> HeLtf(known, HeTraining(ltfUs)) == if known then ltfUs else 6.4
  {
  }

  /** What is not marked as known reads as 20 MHz, 0.8 us and 6.4 us, and no stream count as
      one stream. */
  lemma HeUnknown(h: He, bwKnown: bool, giKnown: bool, ltfKnown: bool)
    requires h.format < 4 && h.mcs < 16 && h.nss < 16
    requires h.bwMhz == None || h.bwMhz.value in {20, 40, 80, 160}
    requires h.giUs in {0.8, 1.6, 3.2} && h.ltfUs in {3.2, 6.4, 12.8}
    ensures DecodeHe(PartlyHe(h, bwKnown, giKnown, ltfKnown)) ==
      He(h.format, h.mcs, Max(h.nss, 1), if bwKnown then h.bwMhz else Some(20), if giKnown then h.giUs else 0.8,
         if ltfKnown then h.ltfUs else 6.4)
  {
    hide DecodeHe, HeRu, HeGi, HeTraining, HeWidth, HeGuard, HeLtf;
    var d0, d1 := if bwKnown then 0x40 else 0, (if giKnown then 2 else 0) + if ltfKnown then 4 else 0;
    assert Mask(d0, 64) == bwKnown && Mask(d1, 2) == giKnown && Mask(d1, 4) == ltfKnown;
    HeOfBytes(h.format, d0, d1, h.mcs, HeRu(h.bwMhz), HeGi(h.giUs), HeTraining(h.ltfUs), h.nss);
    HeCodes(h.bwMhz, h.giUs, h.ltfUs, bwKnown);
    HeCodes(h.bwMhz, h.giUs, h.ltfUs, giKnown);
    HeCodes(h.bwMhz, h.giUs, h.ltfUs, ltfKnown);
  }

  function EncodeFlags(fcs: bool, shortPreamble: bool): u8 {
    (if fcs then 16 else 0) + if shortPreamble then 2 else 0
  }

  /** The flags byte says whether the last four bytes of the frame are its FCS. */
  lemma FlagsRoundTrip(w: nat, v: Values, fcs: bool, shortPreamble: bool)
    requires Bit(w, 1) && v[1] == [EncodeFlags(fcs, shortPreamble)]
    ensures HasFcs(w, v) == fcs && PhyBelow(w, v, FIELDS).shortPreamble == shortPreamble
  {
    hide Bit, DecodeHt, DecodeVht, DecodeHe, FromLe;
  }

  lemma PowersOfTwo()
    ensures Pow2(0) == 0x1 && Pow2(1) == 0x2 && Pow2(2) == 0x4 && Pow2(3) == 0x8
    ensures Pow2(4) == 0x10 && Pow2(5) == 0x20 && Pow2(6) == 0x40 && Pow2(7) == 0x80
    ensures Pow2(8) == 0x100 && Pow2(9) == 0x200 && Pow2(10) == 0x400 && Pow2(11) == 0x800
    ensures Pow2(12) == 0x1000 && Pow2(13) == 0x2000 && Pow2(14) == 0x4000 && Pow2(15) == 0x8000
    ensures Pow2(16) == 0x10000 && Pow2(17) == 0x20000 && Pow2(18) == 0x40000 && Pow2(19) == 0x80000
    ensures Pow2(20) == 0x100000 && Pow2(21) == 0x200000 && Pow2(22) == 0x400000 && Pow2(23) == 0x800000
    ensures Pow2(24) == 0x1000000 && Pow2(25) == 0x2000000 && Pow2(26) == 0x4000000 && Pow2(27) == 0x8000000
  {
    assert Pow2(1) == 2;
    assert Pow2(3) == 8;
    assert Pow2(5) == 32;
    assert Pow2(7) == 128;
    assert Pow2(9) == 512;
    assert Pow2(11) == 2048;
    assert Pow2(13) == 8192;
    assert Pow2(15) == 32768;
    assert Pow2(17) == 131072;
    assert Pow2(19) == 524288;
    assert Pow2(21) == 2097152;
    assert Pow2(23) == 8388608;
    assert Pow2(25) == 33554432;
  }

  const AX210_FIRST: nat := 0xa040402f
  const AX210_ANTENNA: nat := 0xa0000820

  lemma Ax210FirstBits()
    ensures forall b: Index :: Bit(AX210_FIRST, b) <==> b in {0, 1, 2, 3, 5, 14, 22}
  {
    PowersOfTwo();
    hide Pow2;
  }

  lemma Ax210AntennaBits()
    ensures forall b: Index :: Bit(AX210_ANTENNA, b) <==> b in {5, 11}
  {
    PowersOfTwo();
    hide Pow2;
  }

  lemma SomeFields()
    ensures AlignOf(0) == 8 && SizeOf(0) == 8 && AlignOf(1) == 1 && AlignOf(2) == 1 && AlignOf(3) == 2 && SizeOf(3) == 4
    ensures AlignOf(5) == 1 && AlignOf(11) == 1 && AlignOf(14) == 2 && SizeOf(14) == 2
    ensures AlignOf(22) == 8 && SizeOf(22) == 12
  {
  }

  /** A present field, and then nothing up to bit `c`. */
  lemma Laid(w: nat, off: nat, b: Index, c: nat)
    requires b < c <= FIELDS && Bit(w, b) && forall i: Index :: b < i < c ==> !Bit(w, i)
    ensures End(w, off, c) == AlignUp(End(w, off, b), AlignOf(b)) + SizeOf(b)
  {
    NothingBetween(w, off, b + 1, c);
  }

  /** The AX210's header of three presence words: each field at the offset the card writes. */
  lemma Ax210Offsets()
    ensures At(AX210_FIRST, 16, 2) == 25 && At(AX210_FIRST, 16, 5) == 30 && End(AX210_FIRST, 16, FIELDS) == 52
    ensures At(AX210_ANTENNA, 52, 5) == 52 && At(AX210_ANTENNA, 52, 11) == 53 && End(AX210_ANTENNA, 52, FIELDS) == 54
  {
    Ax210FirstBits();
    Ax210AntennaBits();
    SomeFields();
    hide Bit, Table, AlignOf, SizeOf, End;
    var w, a := AX210_FIRST, AX210_ANTENNA;
    Starts(w, 16);
    Starts(a, 52);
    Laid(w, 16, 0, 1);
    Laid(w, 16, 1, 2);
    Laid(w, 16, 2, 3);
    Laid(w, 16, 3, 5);
    Laid(w, 16, 5, 14);
    Laid(w, 16, 14, 22);
    Laid(w, 16, 22, FIELDS);
    NothingBetween(a, 52, 0, 5);
    Laid(a, 52, 5, 11);
    Laid(a, 52, 11, FIELDS);
  }

  lemma Starts(w: nat, off: nat)
    ensures End(w, off, 0) == off
  {
  }

  lemma {:induction false} NothingBetween(w: nat, off: nat, b: nat, c: nat)
    requires b <= c <= FIELDS && forall i: Index :: b <= i < c ==> !Bit(w, i)
    ensures End(w, off, c) == End(w, off, b)
  {
    if b < c {
      var i: Index := c - 1;
      assert !Bit(w, i);
      NothingBetween(w, off, b, c - 1);
    }
  }

  // -- stop bits ------------------------------------------------------------------------------------

  /** The stop bits are bits 28 and 30, set, and bit 29, clear. */
  lemma StopBits(w: nat)
    ensures Stops(w) <==> w / 0x1000_0000 % 2 == 1 || w / 0x4000_0000 % 2 == 1 || w / 0x2000_0000 % 2 == 0
    ensures Bit(w, MORE_BIT) <==> w / 0x8000_0000 % 2 == 1
  {
    PowersOfTwo();
    assert Pow2(28) == 0x1000_0000;
    assert Pow2(29) == 0x2000_0000;
    assert Pow2(30) == 0x4000_0000;
    assert Pow2(31) == 0x8000_0000;
  }

  /** The sizes and alignments of the default fields, by value. */
  lemma FieldsByShape(b: Index)
    ensures SizeOf(b) == 2 <==> b in {4, 7, 8, 9, 14, 15}
    ensures SizeOf(b) == 3 <==> b == 19
    ensures SizeOf(b) == 4 <==> b in {3, 27}
    ensures SizeOf(b) == 6 <==> b == 25
    ensures SizeOf(b) == 8 <==> b in {0, 18, 20}
    ensures SizeOf(b) == 12 <==> b in {21, 22, 23, 24}
    ensures SizeOf(b) in {1, 2, 3, 4, 6, 8, 12}
    ensures AlignOf(b) == 8 <==> b in {0, 22}
    ensures AlignOf(b) == 4 <==> b in {18, 20}
    ensures AlignOf(b) == 2 <==> b in {3, 7, 8, 9, 14, 15, 21, 23, 24, 25, 27}
    ensures AlignOf(b) in {1, 2, 4, 8}
  {
  }

  /** A frame has no radiotap header exactly when it is too short, has another version, or
      states a length out of 8 to 1024 or beyond its end. */
  lemma NoHeaderIff(frame: seq<u8>)
    ensures HeaderLen(frame).None? <==>
      || |frame| < 8 || frame[0] != 0
      || (var n := U16(frame[2], frame[3]); n < 8 || n > 1024 || n > |frame|)
    ensures HeaderLen(frame).Some? ==> HeaderLen(frame).value == U16(frame[2], frame[3])
  {
    if |frame| >= 8 {
      assert frame[2..4] == [frame[2], frame[3]];
      TwoBytes(frame[2], frame[3]);
    }
  }

  /** Two first words with the same fields that may announce different things to follow. */
  predicate SameFieldBits(w: nat, u: nat) {
    (forall b: Index :: Bit(w, b) == Bit(u, b)) && Bit(w, MORE_BIT) == Bit(u, MORE_BIT)
  }

  lemma {:induction false} EndOfSameBits(w: nat, u: nat, off: nat, b: nat)
    requires SameFieldBits(w, u) && b <= FIELDS
    ensures End(w, off, b) == End(u, off, b)
  {
    hide Bit;
    if b > 0 {
      var c: Index := b - 1;
      assert Bit(w, c) == Bit(u, c);
      EndOfSameBits(w, u, off, b - 1);
    }
  }

  lemma {:induction false} CountOfSameTail(f: seq<u8>, g: seq<u8>, k: nat)
    requires |f| == |g| && k > 1 && 4 + 4 * k <= |f| && f[8..] == g[8..]
    ensures CountWords(f, k) == CountWords(g, k)
    decreases |f| - 4 * k
  {
    hide Bit, FromLe;
    TailSlice(f, g, 4 * k, 4 * k + 4);
    if 8 + 4 * k <= |f| { CountOfSameTail(f, g, k + 1); }
  }

  lemma TailSlice(f: seq<u8>, g: seq<u8>, i: nat, j: nat)
    requires |f| == |g| && 8 <= i <= j <= |f| && f[8..] == g[8..]
    ensures f[i..j] == g[i..j]
  {
    forall k | i <= k < j ensures f[k] == g[k] {
      assert f[k] == f[8..][k - 8] && g[k] == g[8..][k - 8];
    }
  }

  lemma GetOfSameTail(f: seq<u8>, g: seq<u8>, w: nat, u: nat, off: nat, b: Index)
    requires |f| == |g| >= 8 && f[8..] == g[8..] && off >= 8 && SameFieldBits(w, u)
    ensures Get(f, w, off, b) == Get(g, u, off, b)
  {
    hide Bit, SameFieldBits;
    EndOfSameBits(w, u, off, b);
    var at := At(w, off, b);
    if at + SizeOf(b) <= |f| {
      TailSlice(f, g, at, at + SizeOf(b));
    }
  }

  /** A TLV, vendor or missing namespace bit in the first word empties the antenna slots and
      changes nothing else. */
  lemma StopBitsKeepFirstWord(f: seq<u8>, g: seq<u8>, bodyLen: nat)
    requires |f| == |g| >= 8 && f[8..] == g[8..] && SameFieldBits(WordAt(f, 0), WordAt(g, 0))
    ensures ParsedHeader(f, bodyLen).None? <==> ParsedHeader(g, bodyLen).None?
    ensures var p, q := ParsedHeader(f, bodyLen), ParsedHeader(g, bodyLen);
      p.Some? ==>
        && q.value == p.value.(antennaDbm := q.value.antennaDbm)
        && (Stops(WordAt(g, 0)) ==> q.value.antennaDbm == [None, None])
  {
    if 12 <= |f| { CountOfSameTail(f, g, 2); }
    SameBitsSameMore(WordAt(f, 0), WordAt(g, 0));
    assert CountWords(f, 1) == CountWords(g, 1) by { hide Bit, FromLe; }
    hide CountWords, ParsedWords, FromLe, WordAt, SameFieldBits, Stops, Bit;
    if CountWords(f, 1).Some? { WordsOfSameBits(f, g, CountWords(f, 1).value, bodyLen); }
  }

  lemma WordsOfSameBits(f: seq<u8>, g: seq<u8>, n: nat, bodyLen: nat)
    requires |f| == |g| && n > 0 && 4 + 4 * n <= |f| && f[8..] == g[8..]
    requires SameFieldBits(WordAt(f, 0), WordAt(g, 0))
    ensures var p, q := ParsedWords(f, n, bodyLen), ParsedWords(g, n, bodyLen);
      && (p.None? <==> q.None?)
      && (p.Some? ==>
            && q.value == p.value.(antennaDbm := q.value.antennaDbm)
            && (Stops(WordAt(g, 0)) ==> q.value.antennaDbm == [None, None]))
  {
    hide PhyBelow, HasFcs, End, FromLe, WordAt, PsduLen, IsWordValues, Fetch, SameFieldBits, Stops, Bit;
    FirstWordOfSameBits(f, g, n);
  }

  lemma SameBitsSameMore(w: nat, u: nat)
    requires SameFieldBits(w, u)
    ensures Bit(w, MORE_BIT) == Bit(u, MORE_BIT)
  {
  }

  lemma FirstWordOfSameBits(f: seq<u8>, g: seq<u8>, n: nat)
    requires |f| == |g| && n > 0 && 4 + 4 * n <= |f| && f[8..] == g[8..]
    requires SameFieldBits(WordAt(f, 0), WordAt(g, 0))
    ensures var w, u, off := WordAt(f, 0), WordAt(g, 0), 4 + 4 * n;
      var v, x := Fetch(f, w, off), Fetch(g, u, off);
      && End(w, off, FIELDS) == End(u, off, FIELDS)
      && PhyBelow(w, v, FIELDS) == PhyBelow(u, x, FIELDS) && HasFcs(w, v) == HasFcs(u, x)
  {
    hide Bit, Get, End, FromLe, WordAt, IsWordValues, PhyBelow, HasFcs;
    var w, u, off := WordAt(f, 0), WordAt(g, 0), 4 + 4 * n;
    forall b: Index ensures Get(f, w, off, b) == Get(g, u, off, b) { GetOfSameTail(f, g, w, u, off, b); }
    assert Fetch(f, w, off) == Fetch(g, u, off);
    EndOfSameBits(w, u, off, FIELDS);
    FieldsOfSameBits(w, u, Fetch(f, w, off));
  }

  lemma FieldsOfSameBits(w: nat, u: nat, v: Values)
    requires SameFieldBits(w, u)
    ensures PhyBelow(w, v, FIELDS) == PhyBelow(u, v, FIELDS) && HasFcs(w, v) == HasFcs(u, v)
  {
    hide Bit, DecodeHt, DecodeVht, DecodeHe, FromLe;
    var f: Index, r: Index, s: Index, m: Index, a: Index, h: Index, e: Index := 1, 2, 5, 19, 20, 21, 23;
    assert Bit(w, f) == Bit(u, f) && Bit(w, r) == Bit(u, r) && Bit(w, s) == Bit(u, s) && Bit(w, m) == Bit(u, m);
    assert Bit(w, a) == Bit(u, a) && Bit(w, h) == Bit(u, h) && Bit(w, e) == Bit(u, e);
  }
}
