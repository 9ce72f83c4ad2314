/**
 The radiotap header in front of a received frame: presence words, aligned fields, and one
 further presence word for each antenna. The parse loops are shown to be a lookup of each
 field at the offset that the presence bits determine.
 */
module Radiotap {
  import opened Prelude
  import opened Bytes

  // -- what a header says ------------------------------------------------------------------

  datatype Ht = Ht(mcs: u8, bwMhz: nat, shortGi: bool)

  datatype Vht = Vht(mcs: u8, nss: u8, bwMhz: nat, shortGi: bool)

  datatype He = He(format: u8, mcs: u8, nss: u8, bwMhz: Option<nat>, giUs: real, ltfUs: real)

  datatype Phy = Phy(rate500k: Option<u8>, shortPreamble: bool, ht: Option<Ht>, vht: Option<Vht>, he: Option<He>,
                     ampduRef: Option<nat>, psduLen: nat, signalDbm: Option<int>, antennaDbm: seq<Option<int>>)

  const NO_PHY: Phy := Phy(None, false, None, None, None, None, 0, None, [None, None])

  // -- the field table -----------------------------------------------------------------------

  const FIELDS: nat := 28
  const TLV_BIT: nat := 28
  const RADIOTAP_NS_BIT: nat := 29
  const VENDOR_NS_BIT: nat := 30
  const MORE_BIT: nat := 31

  /** (alignment, size) of the default-namespace fields. */
  function Table(): (t: seq<(nat, nat)>)
    ensures |t| == FIELDS && forall i :: 0 <= i < |t| ==> t[i].0 > 0 && t[i].1 > 0
  {
    [(8, 8), (1, 1), (1, 1), (2, 4), (1, 2), (1, 1), (1, 1), (2, 2), (2, 2), (2, 2),
     (1, 1), (1, 1), (1, 1), (1, 1), (2, 2), (2, 2), (1, 1), (1, 1), (4, 8), (1, 3),
     (4, 8), (2, 12), (8, 12), (2, 12), (2, 12), (2, 6), (1, 1), (2, 4)]
  }

  type Index = b: nat | b < FIELDS

  function AlignOf(b: Index): (a: nat)
    ensures a > 0
  {
    Table()[b].0
  }

  function SizeOf(b: Index): (n: nat)
    ensures n > 0
    ensures b == 1 || b == 2 || b == 5 || b == 11 ==> n == 1
    ensures b == 19 ==> n == 3
    ensures b == 20 ==> n == 8
    ensures b == 21 || b == 23 ==> n == 12
  {
    Table()[b].1
  }

  function Pow2(n: nat): (p: nat)
    ensures p > 0
  {
    if n == 0 then 1 else 2 * Pow2(n - 1)
  }

  predicate Bit(w: nat, b: nat) { w / Pow2(b) % 2 == 1 }

  /** The least multiple of `a` that is at least `off`. */
  function AlignUp(off: nat, a: nat): (r: nat)
    requires a > 0
    ensures off <= r < off + a
  {
    if off % a == 0 then off else off + (a - off % a)
  }

  lemma PowersAlign(off: nat)
    ensures AlignUp(off, 1) % 1 == 0 && AlignUp(off, 2) % 2 == 0 && AlignUp(off, 4) % 4 == 0 && AlignUp(off, 8) % 8 == 0
  {
  }

  lemma AlignUpAligns(off: nat, b: Index)
    ensures AlignUp(off, AlignOf(b)) % AlignOf(b) == 0
  {
    PowersAlign(off);
    hide AlignUp;
    assert AlignOf(b) == 1 || AlignOf(b) == 2 || AlignOf(b) == 4 || AlignOf(b) == 8;
  }

  // -- where fields lie -----------------------------------------------------------------------

  /** The offset after the fields of word `w` below `b`, the first of them at or after `off`. */
  function End(w: nat, off: nat, b: nat): (e: nat)
    requires b <= FIELDS
    ensures e >= off
  {
    if b == 0 then off
    else if Bit(w, b - 1) then AlignUp(End(w, off, b - 1), AlignOf(b - 1)) + SizeOf(b - 1)
    else End(w, off, b - 1)
  }

  function At(w: nat, off: nat, b: Index): nat { AlignUp(End(w, off, b), AlignOf(b)) }

  lemma {:induction false} EndIsMonotone(w: nat, off: nat, b: nat, c: nat)
    requires b <= c <= FIELDS
    ensures End(w, off, b) <= End(w, off, c)
  {
    if b < c { EndIsMonotone(w, off, b, c - 1); }
  }

  /** A field's bytes; zeros where the header is too short to hold it. */
  function Get(hdr: seq<u8>, w: nat, off: nat, b: Index): (f: seq<u8>)
    ensures |f| == SizeOf(b)
  {
    var at := At(w, off, b);
    if at + SizeOf(b) <= |hdr| then hdr[at..at + SizeOf(b)] else seq(SizeOf(b), _ => 0)
  }

  // -- field contents ---------------------------------------------------------------------------

  predicate Mask(x: nat, m: nat)
    requires m > 0
  {
    x / m % 2 == 1
  }

  function DecodeHt(f: seq<u8>): Ht
    requires |f| == 3
  {
    Ht(f[2], if Mask(f[0], 1) && f[1] % 4 == 1 then 40 else 20, Mask(f[0], 4) && Mask(f[1], 4))
  }

  function VhtWidth(code: nat): nat {
    if code == 0 then 20 else if code <= 3 then 40 else if code <= 10 then 80 else if code <= 25 then 160 else 20
  }

  function DecodeVht(f: seq<u8>): Vht
    requires |f| == 12
  {
    var known := U16(f[0], f[1]);
    Vht(f[4] / 16, if f[4] % 16 == 0 then 1 else f[4] % 16,
        if Mask(known, 64) then VhtWidth(f[3]) else 20, Mask(known, 4) && Mask(f[2], 4))
  }

  function HeWidth(known: bool, ru: nat): Option<nat> {
    if !known || ru == 0 then Some(20)
    else if ru == 1 then Some(40)
    else if ru == 2 then Some(80)
    else if ru == 3 then Some(160)
    else None
  }

  function HeGuard(known: bool, code: nat): real {
    if known && code == 1 then 1.6 else if known && code == 2 then 3.2 else 0.8
  }

  function HeLtf(known: bool, code: nat): real {
    if known && code == 1 then 3.2 else if known && code == 3 then 12.8 else 6.4
  }

  function DecodeHe(f: seq<u8>): He
    requires |f| == 12
  {
    var d0, d1, d2 := U16(f[0], f[1]), U16(f[2], f[3]), U16(f[4], f[5]);
    var d4, d5 := U16(f[8], f[9]), U16(f[10], f[11]);
    He(d0 % 4, d2 / 256 % 16, if d5 % 16 == 0 then 1 else d5 % 16,
       HeWidth(Mask(d0, 0x4000), d4 % 16), HeGuard(Mask(d1, 2), d4 / 16 % 4), HeLtf(Mask(d1, 4), d4 / 64 % 4))
  }

  /** The fields of one presence word, one entry a bit. */
  ghost predicate IsWordValues(v: seq<seq<u8>>) {
    |v| == FIELDS && forall b: nat :: b < FIELDS ==> |v[b]| == SizeOf(b)
  }

  type Values = v: seq<seq<u8>> | IsWordValues(v)
    ghost witness seq(FIELDS, b requires 0 <= b < FIELDS => seq(SizeOf(b), _ => 0))

  predicate HasFcs(w: nat, v: Values) { Bit(w, 1) && Mask(v[1][0], 16) }

  /** What the fields below bit `n` say; the length and the antennas come from elsewhere. */
  function PhyBelow(w: nat, v: Values, n: nat): Phy {
    Phy(if 2 < n && Bit(w, 2) then Some(v[2][0]) else None,
        1 < n && Bit(w, 1) && Mask(v[1][0], 2),
        if 19 < n && Bit(w, 19) then Some(DecodeHt(v[19])) else None,
        if 21 < n && Bit(w, 21) then Some(DecodeVht(v[21])) else None,
        if 23 < n && Bit(w, 23) then Some(DecodeHe(v[23])) else None,
        if 20 < n && Bit(w, 20) then Some(FromLe(v[20][..4])) else None,
        0,
        if 5 < n && Bit(w, 5) then Some(AsI8(v[5][0])) else None,
        [None, None])
  }

  function Fetch(hdr: seq<u8>, w: nat, off: nat): Values {
    seq(FIELDS, b requires 0 <= b < FIELDS => Get(hdr, w, off, b))
  }

  // -- the antenna words ---------------------------------------------------------------------------

  /** Where the walk of one word stops: past its fields, or at the first that does not fit. */
  datatype Reach = Reach(off: nat, short: bool)

  function Walk(w: nat, off: nat, size: nat, b: nat): Reach
    requires b <= FIELDS
  {
    if b == 0 then Reach(off, false)
    else
      var r := Walk(w, off, size, b - 1);
      if r.short || !Bit(w, b - 1) then r
      else
        var at := AlignUp(r.off, AlignOf(b - 1));
        if at + SizeOf(b - 1) <= size then Reach(at + SizeOf(b - 1), false) else Reach(at, true)
  }

  type Slots = s: seq<Option<int>> | |s| == 2 witness [None, None]

  /** One word's signal goes to the slot its antenna field names, if both are present and fit. */
  function Noted(hdr: seq<u8>, w: nat, off: nat, slots: Slots): Slots {
    if Bit(w, 5) && Bit(w, 11) && End(w, off, 12) <= |hdr| && Get(hdr, w, off, 11)[0] < 2
    then slots[Get(hdr, w, off, 11)[0] := Some(AsI8(Get(hdr, w, off, 5)[0]))]
    else slots
  }

  predicate Stops(prev: nat) { Bit(prev, TLV_BIT) || Bit(prev, VENDOR_NS_BIT) || !Bit(prev, RADIOTAP_NS_BIT) }

  function Antennas(hdr: seq<u8>, prev: nat, words: seq<nat>, off: nat, slots: Slots): Slots
    decreases |words|
  {
    if words == [] || Stops(prev) then slots
    else Antennas(hdr, words[0], words[1..], Walk(words[0], off, |hdr|, FIELDS).off, Noted(hdr, words[0], off, slots))
  }

  // -- a whole frame -----------------------------------------------------------------------------------

  function WordAt(hdr: seq<u8>, k: nat): nat
    requires 8 + 4 * k <= |hdr|
  {
    FromLe(hdr[4 + 4 * k..8 + 4 * k])
  }

  /** How many presence words there are, `k` of them known to fit. */
  function CountWords(hdr: seq<u8>, k: nat): (n: Option<nat>)
    requires k > 0 && 4 + 4 * k <= |hdr|
    ensures n.Some? ==> k <= n.value && 4 + 4 * n.value <= |hdr|
    decreases |hdr| - 4 * k
  {
    if !Bit(WordAt(hdr, k - 1), MORE_BIT) then Some(k)
    else if 8 + 4 * k > |hdr| then None
    else CountWords(hdr, k + 1)
  }

  function WordsOf(hdr: seq<u8>, n: nat): (ws: seq<nat>)
    requires 4 + 4 * n <= |hdr|
    ensures |ws| == n
  {
    seq(n, k requires 0 <= k < n => WordAt(hdr, k))
  }

  function PsduLen(fcs: bool, n: nat): nat { if fcs then Max(n - 4, 0) else n }

  /** The header's length field, if the frame starts with a radiotap header. */
  function HeaderLen(frame: seq<u8>): (n: Option<nat>)
    ensures n.Some? ==> 8 <= n.value <= |frame|
  {
    if |frame| < 8 || frame[0] != 0 then None
    else
      var n := FromLe(frame[2..4]);
      if 8 <= n <= 1024 && n <= |frame| then Some(n) else None
  }

  /** The parse of a header with `n` presence words. */
  function ParsedWords(hdr: seq<u8>, n: nat, bodyLen: nat): Option<Phy>
    requires n > 0 && 4 + 4 * n <= |hdr|
  {
    var ws, off := WordsOf(hdr, n), 4 + 4 * n;
    var v := Fetch(hdr, ws[0], off);
    if End(ws[0], off, FIELDS) > |hdr| then None
    else Some(PhyBelow(ws[0], v, FIELDS).(
              antennaDbm := Antennas(hdr, ws[0], ws[1..], End(ws[0], off, FIELDS), [None, None]),
              psduLen := PsduLen(HasFcs(ws[0], v), bodyLen)))
  }

  function ParsedHeader(hdr: seq<u8>, bodyLen: nat): Option<Phy>
    requires |hdr| >= 8
  {
    match CountWords(hdr, 1)
    case None => None
    case Some(n) => ParsedWords(hdr, n, bodyLen)
  }

  function Parsed(frame: seq<u8>): Option<Phy> {
    match HeaderLen(frame)
    case None => None
    case Some(n) => ParsedHeader(frame[..n], |frame| - n)
  }

  // -- the parser -----------------------------------------------------------------------------------------

  method ReadFirstWord(hdr: seq<u8>, w: nat, start: nat) returns (r: Option<Phy>, fcs: bool, off: nat)
    ensures r.None? <==> End(w, start, FIELDS) > |hdr| || start > |hdr|
    ensures r.Some? ==> r.value == PhyBelow(w, Fetch(hdr, w, start), FIELDS)
    ensures r.Some? ==> fcs == HasFcs(w, Fetch(hdr, w, start)) && off == End(w, start, FIELDS)
  {
    hide DecodeHt, DecodeVht, DecodeHe, FromLe, AlignUp, Table, Pow2, Mask;
    var phy := NO_PHY;
    fcs, off := false, start;
    if start > |hdr| { return None, fcs, off; }
    ghost var v := Fetch(hdr, w, start);
    for bit := 0 to FIELDS
      invariant off == End(w, start, bit) <= |hdr|
      invariant phy == PhyBelow(w, v, bit)
      invariant fcs == (1 < bit && HasFcs(w, v))
    {
      if Bit(w, bit) {
        off := AlignUp(off, AlignOf(bit));
        if off + SizeOf(bit) > |hdr| {
          EndIsMonotone(w, start, bit + 1, FIELDS);
          return None, fcs, off;
        }
        var f := hdr[off..off + SizeOf(bit)];
        assert f == v[bit];
        if bit == 5 { phy := phy.(signalDbm := Some(AsI8(f[0]))); }
        else if bit == 1 {
          fcs := Mask(f[0], 16);
          phy := phy.(shortPreamble := Mask(f[0], 2));
        }
        else if bit == 2 { phy := phy.(rate500k := Some(f[0])); }
        else if bit == 19 { phy := phy.(ht := Some(DecodeHt(f))); }
        else if bit == 20 { phy := phy.(ampduRef := Some(FromLe(f[..4]))); }
        else if bit == 21 { phy := phy.(vht := Some(DecodeVht(f))); }
        else if bit == 23 { phy := phy.(he := Some(DecodeHe(f))); }
        off := off + SizeOf(bit);
      }
    }
    r := Some(phy);
  }

  // -- antenna words --------------------------------------------------------------------------------------

  lemma {:induction false} WalkFits(w: nat, off: nat, size: nat, b: nat)
    requires b <= FIELDS
    ensures !Walk(w, off, size, b).short ==> Walk(w, off, size, b).off == End(w, off, b)
    ensures Walk(w, off, size, b).short ==> End(w, off, b) > size
    ensures off <= size ==> (Walk(w, off, size, b).short <==> End(w, off, b) > size)
  {
    hide AlignUp, AlignOf, SizeOf, Bit;
    if b > 0 { WalkFits(w, off, size, b - 1); }
  }

  lemma {:induction false} WalkStaysShort(w: nat, off: nat, size: nat, b: nat, c: nat)
    requires b <= c <= FIELDS && Walk(w, off, size, b).short
    ensures Walk(w, off, size, c) == Walk(w, off, size, b)
  {
    if b < c { WalkStaysShort(w, off, size, b, c - 1); }
  }

  /** What the walk does at bit `b`, having found room for the fields below it. */
  lemma WalkBit(w: nat, off: nat, size: nat, b: nat)
    requires b < FIELDS && Walk(w, off, size, b) == Reach(End(w, off, b), false)
    ensures var at := AlignUp(End(w, off, b), AlignOf(b));
      if !Bit(w, b) then
        Walk(w, off, size, b + 1) == Reach(End(w, off, b), false) && End(w, off, b + 1) == End(w, off, b)
      else
        && End(w, off, b + 1) == at + SizeOf(b) && At(w, off, b) == at
        && Walk(w, off, size, b + 1) == if at + SizeOf(b) <= size then Reach(at + SizeOf(b), false) else Reach(at, true)
  {
    hide AlignUp, AlignOf, SizeOf, Bit;
  }

  method ReadAntennaWord(hdr: seq<u8>, w: nat, start: nat, before: Slots) returns (off: nat, slots: Slots)
    ensures off == Walk(w, start, |hdr|, FIELDS).off && slots == Noted(hdr, w, start, before)
  {
    hide AlignUp, Table, Pow2, Bit, Walk, End, AsI8;
    off, slots := start, before;
    var signal := None;
    WalkStarts(w, start, |hdr|);
    for bit := 0 to FIELDS
      invariant Walk(w, start, |hdr|, bit) == Reach(off, false) && off == End(w, start, bit)
      invariant bit > 5 ==> signal == if Bit(w, 5) then Some(AsI8(Get(hdr, w, start, 5)[0])) else None
      invariant bit <= 5 ==> signal == None
      invariant slots == if bit > 11 then Noted(hdr, w, start, before) else before
    {
      WalkBit(w, start, |hdr|, bit);
      if Bit(w, bit) {
        off := AlignUp(off, AlignOf(bit));
        if off + SizeOf(bit) > |hdr| {
          WalkStaysShort(w, start, |hdr|, bit + 1, FIELDS);
          if bit <= 11 { EndIsMonotone(w, start, bit + 1, 12); }
          break;
        }
        var f := hdr[off..off + SizeOf(bit)];
        assert f == Get(hdr, w, start, bit);
        if bit == 5 { signal := Some(AsI8(f[0])); }
        else if bit == 11 {
          if signal.Some? && f[0] < 2 { slots := slots[f[0] := signal]; }
        }
        off := off + SizeOf(bit);
      }
    }
  }

  lemma WalkStarts(w: nat, off: nat, size: nat)
    ensures Walk(w, off, size, 0) == Reach(off, false) && End(w, off, 0) == off
  {
  }

  method Parse(frame: seq<u8>) returns (r: Option<Phy>)
    ensures r == Parsed(frame)
  {
    hide FromLe, Bit, End, PhyBelow, Get, Noted, Walk, IsWordValues, HasFcs;
    if |frame| < 8 || frame[0] != 0 { return None; }
    var rtLen := FromLe(frame[2..4]);
    if !(8 <= rtLen <= 1024) || rtLen > |frame| { return None; }
    var hdr := frame[..rtLen];
    assert frame[4..8] == hdr[4..8];
    var words := 1;
    while Bit(WordAt(hdr, words - 1), MORE_BIT)
      invariant words >= 1 && 4 + 4 * words <= rtLen
      invariant CountWords(hdr, 1) == CountWords(hdr, words)
      decreases rtLen - 4 * words
    {
      words := words + 1;
      if 4 + 4 * words > rtLen { return None; }
    }
    var present := WordAt(hdr, 0);
    var phy, fcs, off := ReadFirstWord(hdr, present, 4 + 4 * words);
    if phy.None? { return None; }
    ghost var ws := WordsOf(hdr, words);
    var antennas := ReadAntennas(hdr, words, off);
    var n := |frame| - rtLen;
    return Some(phy.value.(antennaDbm := antennas, psduLen := PsduLen(fcs, n)));
  }

  method ReadAntennas(hdr: seq<u8>, words: nat, start: nat) returns (slots: Slots)
    requires words >= 1 && 4 + 4 * words <= |hdr|
    ensures var ws := WordsOf(hdr, words);
      slots == Antennas(hdr, ws[0], ws[1..], start, [None, None])
  {
    hide FromLe, Bit, Noted, Walk, Stops, WordAt;
    ghost var ws := WordsOf(hdr, words);
    var prev, off := WordAt(hdr, 0), start;
    slots := [None, None];
    for k := 1 to words
      invariant prev == ws[k - 1]
      invariant Antennas(hdr, ws[0], ws[1..], start, [None, None]) == Antennas(hdr, prev, ws[k..], off, slots)
    {
      if Stops(prev) { break; }
      var w := WordAt(hdr, k);
      assert ws[k..][0] == w && ws[k..][1..] == ws[k + 1..];
      off, slots := ReadAntennaWord(hdr, w, off, slots);
      prev := w;
    }
  }

  // -- what the parse depends on ----------------------------------------------------------------------------

  /** Nothing past the header is read: frames with the same header differ only in payload
      length, however hostile the bytes. */
  lemma OnlyTheHeaderMatters(f: seq<u8>, g: seq<u8>)
    requires HeaderLen(f).Some? && |g| >= HeaderLen(f).value && f[..HeaderLen(f).value] == g[..HeaderLen(f).value]
    ensures HeaderLen(g) == HeaderLen(f)
    ensures Parsed(f).None? <==> Parsed(g).None?
    ensures Parsed(f).Some? ==> Parsed(g).value == Parsed(f).value.(psduLen := Parsed(g).value.psduLen)
  {
    hide CountWords, PhyBelow, Antennas, End, Fetch, WordsOf, FromLe;
    var n := HeaderLen(f).value;
    assert f[2..4] == f[..n][2..4] && g[2..4] == g[..n][2..4];
    assert f[0] == f[..n][0] && g[0] == g[..n][0];
  }
}
