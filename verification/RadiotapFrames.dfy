/**
 Radiotap headers from a description of the frame: the description's parts are encoded, laid
 out at the bits the standard gives them and parsed back. What is expected is written in terms
 of the description alone.
 */
module RadiotapFrames {
  import opened Prelude
  import opened Division
  import opened Bytes
  import opened Radiotap
  import opened RadiotapLayout

  datatype Flags = Flags(fcs: bool, shortPreamble: bool)

  /** What the first presence word can say about a frame. */
  datatype Said = Said(signal: Option<int>, rate: Option<u8>, flags: Option<Flags>, ht: Option<Ht>, vht: Option<Vht>,
                       he: Option<He>, ampdu: Option<u32>)

  /** What a further word can say about one antenna. */
  datatype Antenna = Antenna(signal: Option<int>, index: Option<u8>)

  predicate Dbm(x: Option<int>) { x.Some? ==> -128 <= x.value < 128 }

  predicate ValidSaid(d: Said) {
    && Dbm(d.signal)
    && (d.ht.Some? ==> d.ht.value.bwMhz == 20 || d.ht.value.bwMhz == 40)
    && (d.vht.Some? ==> var v := d.vht.value; v.mcs < 16 && 0 < v.nss < 16 && v.bwMhz in {20, 40, 80, 160})
    && (d.he.Some? ==> ValidHe(d.he.value))
  }

  predicate ValidHe(h: He) {
    && h.format < 4 && h.mcs < 16 && 0 < h.nss < 16 && (h.bwMhz == None || h.bwMhz.value in {20, 40, 80, 160})
    && h.giUs in {0.8, 1.6, 3.2} && h.ltfUs in {3.2, 6.4, 12.8}
  }

  /** The word and its fields say `d`: each part has its bit, and its field its encoding.
      Other fields may be there too. */
  ghost predicate Says(w: nat, v: Values, d: Said) {
    && ValidSaid(d)
    && (Bit(w, 5) <==> d.signal.Some?) && (d.signal.Some? ==> v[5] == [FromI8(d.signal.value)])
    && (Bit(w, 2) <==> d.rate.Some?) && (d.rate.Some? ==> v[2] == [d.rate.value])
    && (Bit(w, 1) <==> d.flags.Some?)
    && (d.flags.Some? ==> v[1] == [EncodeFlags(d.flags.value.fcs, d.flags.value.shortPreamble)])
    && (Bit(w, 19) <==> d.ht.Some?) && (d.ht.Some? ==> v[19] == EncodeHt(d.ht.value))
    && (Bit(w, 21) <==> d.vht.Some?) && (d.vht.Some? ==> v[21] == EncodeVht(d.vht.value))
    && (Bit(w, 23) <==> d.he.Some?) && (d.he.Some? ==> v[23] == EncodeHe(d.he.value))
    && (Bit(w, 20) <==> d.ampdu.Some?) && (d.ampdu.Some? ==> v[20][..4] == Le(4, d.ampdu.value))
  }

  ghost predicate SaysAntenna(w: nat, v: Values, a: Antenna) {
    && Dbm(a.signal)
    && (Bit(w, 5) <==> a.signal.Some?) && (a.signal.Some? ==> v[5] == [FromI8(a.signal.value)])
    && (Bit(w, 11) <==> a.index.Some?) && (a.index.Some? ==> v[11] == [a.index.value])
  }

  ghost predicate SayAntennas(ws: seq<nat>, vs: seq<Values>, ants: seq<Antenna>) {
    && |ws| == |vs| == |ants|
    && forall i :: 0 <= i < |ws| ==> SaysAntenna(ws[i], vs[i], ants[i])
  }

  predicate Names(a: Antenna, k: nat) { a.signal.Some? && a.index.Some? && a.index.value == k }

  /** The slot of antenna `k` holds the signal of the last word that names it. */
  ghost predicate SlotIs(ants: seq<Antenna>, k: nat, slot: Option<int>) {
    && (slot.None? <==> forall j :: 0 <= j < |ants| ==> !Names(ants[j], k))
    && (slot.Some? ==> exists j: nat :: LastNaming(ants, k, j) && ants[j].signal == slot)
  }

  ghost predicate LastNaming(ants: seq<Antenna>, k: nat, j: nat) {
    j < |ants| && Names(ants[j], k) && forall l :: j < l < |ants| ==> !Names(ants[l], k)
  }

  /** The parse of a frame that says `d` and `ants` before a body of `n` bytes. */
  ghost predicate Described(p: Phy, d: Said, ants: seq<Antenna>, n: nat) {
    && p.rate500k == d.rate && p.ht == d.ht && p.vht == d.vht && p.he == d.he && p.signalDbm == d.signal
    && (p.ampduRef.Some? <==> d.ampdu.Some?) && (d.ampdu.Some? ==> p.ampduRef.value == d.ampdu.value)
    && (p.shortPreamble <==> d.flags.Some? && d.flags.value.shortPreamble)
    && (if d.flags.Some? && d.flags.value.fcs then (n >= 4 ==> p.psduLen == n - 4) && (n < 4 ==> p.psduLen == 0)
        else p.psduLen == n)
    && |p.antennaDbm| == 2 && SlotIs(ants, 0, p.antennaDbm[0]) && SlotIs(ants, 1, p.antennaDbm[1])
  }

  // -- one field at a time ---------------------------------------------------------------------------

  lemma I8RoundTrip(x: int)
    requires -128 <= x < 128
    ensures AsI8(FromI8(x)) == x
  {
  }

  lemma FieldsSayIt(w: nat, v: Values, d: Said)
    requires Says(w, v, d)
    ensures var p := PhyBelow(w, v, FIELDS);
      && p.rate500k == d.rate && p.signalDbm == d.signal
      && (p.ampduRef.Some? <==> d.ampdu.Some?) && (d.ampdu.Some? ==> p.ampduRef.value == d.ampdu.value)
  {
    hide Bit, DecodeHt, DecodeVht, DecodeHe, FromLe, Le, EncodeHt, EncodeVht, EncodeHe, EncodeFlags, Mask;
    if d.ampdu.Some? {
      Powers();
      FromLeOfLe(4, d.ampdu.value);
    }
    if d.signal.Some? { I8RoundTrip(d.signal.value); }
  }

  lemma PhysSayIt(w: nat, v: Values, d: Said)
    requires Says(w, v, d)
    ensures var p := PhyBelow(w, v, FIELDS);
      p.ht == d.ht && p.vht == d.vht && p.he == d.he
  {
    if d.ht.Some? { HtRoundTrip(d.ht.value); }
    if d.vht.Some? { VhtRoundTrip(d.vht.value); }
    if d.he.Some? { HeRoundTrip(d.he.value); }
    hide Bit, DecodeHt, DecodeVht, DecodeHe, FromLe, Le, EncodeHt, EncodeVht, EncodeHe, EncodeFlags, Mask;
  }

  lemma FlagsSayIt(w: nat, v: Values, d: Said)
    requires Says(w, v, d)
    ensures PhyBelow(w, v, FIELDS).shortPreamble <==> d.flags.Some? && d.flags.value.shortPreamble
    ensures HasFcs(w, v) <==> d.flags.Some? && d.flags.value.fcs
  {
    if d.flags.Some? { FlagsRoundTrip(w, v, d.flags.value.fcs, d.flags.value.shortPreamble); }
    hide Bit, DecodeHt, DecodeVht, DecodeHe, FromLe, Le, EncodeHt, EncodeVht, EncodeHe, EncodeFlags, Mask;
  }

  // -- antennas ----------------------------------------------------------------------------------------

  /** The slots after some words, the words before them having left `slots`. */
  ghost predicate SlotAfter(before: seq<Antenna>, slots: Slots) {
    SlotIs(before, 0, slots[0]) && SlotIs(before, 1, slots[1])
  }

  lemma SlotKeeps(before: seq<Antenna>, a: Antenna, k: nat, slot: Option<int>)
    requires SlotIs(before, k, slot)
    ensures SlotIs(before + [a], k, if Names(a, k) then a.signal else slot)
  {
    var ants := before + [a];
    if Names(a, k) {
      assert LastNaming(ants, k, |before|);
    } else if slot.Some? {
      var j: nat :| LastNaming(before, k, j) && before[j].signal == slot;
      assert LastNaming(ants, k, j) && ants[j].signal == slot;
    } else {
      forall j | 0 <= j < |ants| ensures !Names(ants[j], k) { if j < |before| { assert ants[j] == before[j]; } }
    }
  }

  lemma {:induction false} SlottedIs(before: seq<Antenna>, ws: seq<nat>, vs: seq<Values>, ants: seq<Antenna>,
                                     slots: Slots)
    requires SayAntennas(ws, vs, ants) && SlotAfter(before, slots)
    ensures SlotAfter(before + ants, Slotted(ws, vs, slots))
    decreases |ws|
  {
    hide SlotIs, Bit, FromI8, AsI8;
    if ws == [] {
      assert before + ants == before;
    } else {
      var a := ants[0];
      assert SaysAntenna(ws[0], vs[0], a);
      SlotKeeps(before, a, 0, slots[0]);
      SlotKeeps(before, a, 1, slots[1]);
      if a.signal.Some? { I8RoundTrip(a.signal.value); }
      var next: Slots :=
        if Bit(ws[0], 5) && Bit(ws[0], 11) && vs[0][11][0] < 2 then slots[vs[0][11][0] := Some(AsI8(vs[0][5][0]))]
        else slots;
      forall i | 0 <= i < |ws| - 1 ensures SaysAntenna(ws[1..][i], vs[1..][i], ants[1..][i]) {
        assert SaysAntenna(ws[i + 1], vs[i + 1], ants[i + 1]);
      }
      SlottedIs(before + [a], ws[1..], vs[1..], ants[1..], next);
      assert before + [a] + ants[1..] == before + ants;
    }
  }

  // -- whole headers ---------------------------------------------------------------------------------------

  /** A header whose words say `d` and `ants`, whatever else they hold and however it is
      padded, parses to the description. */
  lemma ParseOfDescription(hdr: seq<u8>, ws: seq<nat>, vs: seq<Values>, d: Said, ants: seq<Antenna>, body: seq<u8>)
    requires |vs| <= |ws| && Chained(ws) && Reads(ws, |vs|) && IsHeader(hdr, ws, vs)
    requires Says(ws[0], vs[0], d) && SayAntennas(ws[1..|vs|], vs[1..], ants)
    ensures Parsed(hdr + body).Some? && Described(Parsed(hdr + body).value, d, ants, |body|)
  {
    hide Says, SayAntennas, Chained, Stops, IsHeader, Parsed, Described, Expected, IsWordValues;
    ParseOfLayout(hdr, ws, vs, body);
    assert ws[..|vs|][1..] == ws[1..|vs|] && ws[..|vs|][0] == ws[0];
    ExpectedIsDescribed(ws[..|vs|], vs, d, ants, |body|);
  }

  lemma ExpectedIsDescribed(ws: seq<nat>, vs: seq<Values>, d: Said, ants: seq<Antenna>, n: nat)
    requires |ws| == |vs| > 0 && Says(ws[0], vs[0], d) && SayAntennas(ws[1..], vs[1..], ants)
    ensures Described(Expected(ws, vs, n), d, ants, n)
  {
    FieldsSayIt(ws[0], vs[0], d);
    PhysSayIt(ws[0], vs[0], d);
    FlagsSayIt(ws[0], vs[0], d);
    hide Says, SayAntennas, PhyBelow, HasFcs, SlotIs, IsWordValues;
    NoSlots();
    SlottedIs([], ws[1..], vs[1..], ants, [None, None]);
    assert [] + ants == ants;
    hide Slotted;
  }

  lemma NoSlots()
    ensures SlotIs([], 0, None) && SlotIs([], 1, None)
  {
  }

  // -- an encoder -------------------------------------------------------------------------------------------

  /** The number whose bits, lowest first, are `bits`. */
  function WordOf(bits: seq<bool>): nat {
    if bits == [] then 0 else (if bits[0] then 1 else 0) + 2 * WordOf(bits[1..])
  }

  lemma {:induction false} BitOfWord(bits: seq<bool>, k: nat)
    requires k < |bits|
    ensures Bit(WordOf(bits), k) == bits[k]
    decreases |bits|
  {
    var rest := WordOf(bits[1..]);
    assert WordOf(bits) / 2 == rest;
    if k == 0 {
      assert Pow2(0) == 1;
    } else {
      BitOfWord(bits[1..], k - 1);
      DivDiv(WordOf(bits), 2, Pow2(k - 1));
      assert Pow2(k) == 2 * Pow2(k - 1);
    }
  }

  lemma {:induction false} WordOfIsSmall(bits: seq<bool>)
    ensures WordOf(bits) < Pow2(|bits|)
  {
    if bits != [] { WordOfIsSmall(bits[1..]); }
  }

  /** The word has the bits of the parts that are there, the namespace bit, and says whether
      another word follows. */
  function Word(parts: set<nat>, more: bool): nat {
    WordOf(seq(32, b requires 0 <= b < 32 => b in parts || b == 29 || (b == 31 && more)))
  }

  lemma WordBits(parts: set<nat>, more: bool)
    requires forall b :: b in parts ==> b < FIELDS
    ensures Word(parts, more) < TWO_32
    ensures forall b: Index :: Bit(Word(parts, more), b) <==> b in parts
    ensures Bit(Word(parts, more), MORE_BIT) <==> more
    ensures !Stops(Word(parts, more))
  {
    hide WordOf, Bit;
    var bits := seq(32, b requires 0 <= b < 32 => b in parts || b == 29 || (b == 31 && more));
    WordOfIsSmall(bits);
    PowerOf32();
    forall b: nat | b < 32 ensures Bit(WordOf(bits), b) == bits[b] { BitOfWord(bits, b); }
  }

  lemma PowerOf32()
    ensures Pow2(32) == TWO_32
  {
    assert Pow2(8) == 0x100 by { assert Pow2(4) == 0x10; }
    assert Pow2(16) == 0x1_0000 by { assert Pow2(12) == 0x1000; }
    assert Pow2(24) == 0x100_0000 by { assert Pow2(20) == 0x10_0000; }
    assert Pow2(28) == 0x1000_0000;
  }

  function PartsOf(d: Said): set<nat> {
    (if d.signal.Some? then {5} else {}) + (if d.rate.Some? then {2} else {}) + (if d.flags.Some? then {1} else {})
    + (if d.ht.Some? then {19} else {}) + (if d.vht.Some? then {21} else {}) + (if d.he.Some? then {23} else {})
    + (if d.ampdu.Some? then {20} else {})
  }

  /** The bytes of one field; zeros for a field that is not there. */
  function FieldOf(d: Said, b: Index): (f: seq<u8>)
    requires ValidSaid(d)
    ensures |f| == SizeOf(b)
  {
    if b == 5 && d.signal.Some? then [FromI8(d.signal.value)]
    else if b == 2 && d.rate.Some? then [d.rate.value]
    else if b == 1 && d.flags.Some? then [EncodeFlags(d.flags.value.fcs, d.flags.value.shortPreamble)]
    else if b == 19 && d.ht.Some? then EncodeHt(d.ht.value)
    else if b == 21 && d.vht.Some? then EncodeVht(d.vht.value)
    else if b == 23 && d.he.Some? then EncodeHe(d.he.value)
    else if b == 20 && d.ampdu.Some? then Le(4, d.ampdu.value) + Zeros(4)
    else Zeros(SizeOf(b))
  }

  function ValuesOf(d: Said): Values
    requires ValidSaid(d)
  {
    seq(FIELDS, b requires 0 <= b < FIELDS => FieldOf(d, b))
  }

  function AntennaField(a: Antenna, b: Index): (f: seq<u8>)
    requires Dbm(a.signal)
    ensures |f| == SizeOf(b)
  {
    if b == 5 && a.signal.Some? then [FromI8(a.signal.value)]
    else if b == 11 && a.index.Some? then [a.index.value]
    else Zeros(SizeOf(b))
  }

  function AntennaValues(a: Antenna): Values
    requires Dbm(a.signal)
  {
    seq(FIELDS, b requires 0 <= b < FIELDS => AntennaField(a, b))
  }

  function AntennaParts(a: Antenna): set<nat> {
    (if a.signal.Some? then {5} else {}) + if a.index.Some? then {11} else {}
  }

  predicate ValidAntennas(ants: seq<Antenna>) { forall i :: 0 <= i < |ants| ==> Dbm(ants[i].signal) }

  function AntennaWords(ants: seq<Antenna>): (ws: seq<nat>)
    ensures |ws| == |ants|
  {
    seq(|ants|, i requires 0 <= i < |ants| => Word(AntennaParts(ants[i]), i + 1 < |ants|))
  }

  function AntennaFields(ants: seq<Antenna>): (vs: seq<Values>)
    requires ValidAntennas(ants)
    ensures |vs| == |ants|
  {
    seq(|ants|, i requires 0 <= i < |ants| => AntennaValues(ants[i]))
  }

  function Words(d: Said, ants: seq<Antenna>): seq<nat> { [Word(PartsOf(d), ants != [])] + AntennaWords(ants) }

  function Fields(d: Said, ants: seq<Antenna>): seq<Values>
    requires ValidSaid(d) && ValidAntennas(ants)
  {
    [ValuesOf(d)] + AntennaFields(ants)
  }

  lemma PartsAre(d: Said)
    ensures var ps := PartsOf(d);
      && (5 in ps <==> d.signal.Some?) && (2 in ps <==> d.rate.Some?) && (1 in ps <==> d.flags.Some?)
      && (19 in ps <==> d.ht.Some?) && (21 in ps <==> d.vht.Some?) && (23 in ps <==> d.he.Some?)
      && (20 in ps <==> d.ampdu.Some?) && forall b :: b in ps ==> b < FIELDS
  {
  }

  lemma FirstWordBits(d: Said, more: bool)
    ensures var w := Word(PartsOf(d), more);
      && (Bit(w, 5) <==> d.signal.Some?) && (Bit(w, 2) <==> d.rate.Some?) && (Bit(w, 1) <==> d.flags.Some?)
      && (Bit(w, 19) <==> d.ht.Some?) && (Bit(w, 21) <==> d.vht.Some?) && (Bit(w, 23) <==> d.he.Some?)
      && (Bit(w, 20) <==> d.ampdu.Some?)
  {
    PartsAre(d);
    hide PartsOf, Word, Bit;
    WordBits(PartsOf(d), more);
    var f: Index, r: Index, s: Index, m: Index, a: Index, h: Index, e: Index := 1, 2, 5, 19, 20, 21, 23;
    var w := Word(PartsOf(d), more);
    assert Bit(w, f) <==> f in PartsOf(d);
    assert Bit(w, r) <==> r in PartsOf(d);
    assert Bit(w, s) <==> s in PartsOf(d);
    assert Bit(w, m) <==> m in PartsOf(d);
    assert Bit(w, a) <==> a in PartsOf(d);
    assert Bit(w, h) <==> h in PartsOf(d);
    assert Bit(w, e) <==> e in PartsOf(d);
  }

  lemma FirstWordFields(d: Said)
    requires ValidSaid(d)
    ensures var v := ValuesOf(d);
      && (d.signal.Some? ==> v[5] == [FromI8(d.signal.value)]) && (d.rate.Some? ==> v[2] == [d.rate.value])
      && (d.flags.Some? ==> v[1] == [EncodeFlags(d.flags.value.fcs, d.flags.value.shortPreamble)])
      && (d.ht.Some? ==> v[19] == EncodeHt(d.ht.value)) && (d.vht.Some? ==> v[21] == EncodeVht(d.vht.value))
      && (d.he.Some? ==> v[23] == EncodeHe(d.he.value))
      && (d.ampdu.Some? ==> v[20][..4] == Le(4, d.ampdu.value))
  {
    hide EncodeHt, EncodeVht, EncodeHe, EncodeFlags, FromI8, Le, SizeOf;
    if d.ampdu.Some? { assert (Le(4, d.ampdu.value) + Zeros(4))[..4] == Le(4, d.ampdu.value); }
  }

  lemma FirstWordSays(d: Said, more: bool)
    requires ValidSaid(d)
    ensures Says(Word(PartsOf(d), more), ValuesOf(d), d)
  {
    FirstWordBits(d, more);
    FirstWordFields(d);
    hide Word, Bit, ValuesOf, ValidSaid, EncodeHt, EncodeVht, EncodeHe, EncodeFlags, FromI8, Le, SizeOf, IsWordValues;
  }

  lemma AntennaWordSays(a: Antenna, more: bool)
    requires Dbm(a.signal)
    ensures SaysAntenna(Word(AntennaParts(a), more), AntennaValues(a), a)
  {
    WordBits(AntennaParts(a), more);
    hide Word, Bit, FromI8, SizeOf;
    var s: Index, x: Index := 5, 11;
    var w := Word(AntennaParts(a), more);
    assert Bit(w, s) <==> s in AntennaParts(a);
    assert Bit(w, x) <==> x in AntennaParts(a);
  }

  /** For any signal, rate, flags, HT, VHT and HE shape, aggregate reference, antennas and
      body: parsing the encoded header before the body gives exactly the description. */
  lemma DescriptionRoundTrip(d: Said, ants: seq<Antenna>, body: seq<u8>)
    requires ValidSaid(d) && ValidAntennas(ants) && EndAll(Words(d, ants), 8 + 4 * |ants|) <= 1024
    ensures var r := Parsed(Header(Words(d, ants), Fields(d, ants)) + body);
      r.Some? && Described(r.value, d, ants, |body|)
  {
    hide Word, Bit, Says, SaysAntenna, Stops, EndAll, Header, Parsed, Described, ValuesOf, IsHeader, Reads, Chained,
      IsWordValues, AntennaValues, PartsOf, AntennaParts, ValidSaid, AntennaWords, AntennaFields;
    var ws, vs := Words(d, ants), Fields(d, ants);
    FirstWordSays(d, ants != []);
    WordsAreChained(d, ants);
    HeaderIsHeader(ws, vs);
    AntennasSay(ants);
    assert ws[1..|vs|] == AntennaWords(ants) && vs[1..] == AntennaFields(ants);
    ParseOfDescription(Header(ws, vs), ws, vs, d, ants, body);
  }

  lemma AntennasSay(ants: seq<Antenna>)
    requires ValidAntennas(ants)
    ensures SayAntennas(AntennaWords(ants), AntennaFields(ants), ants)
  {
    hide Word, SaysAntenna, AntennaValues, AntennaParts, IsWordValues;
    forall i | 0 <= i < |ants| ensures SaysAntenna(AntennaWords(ants)[i], AntennaFields(ants)[i], ants[i]) {
      AntennaWordSays(ants[i], i + 1 < |ants|);
    }
  }

  lemma WordsAreChained(d: Said, ants: seq<Antenna>)
    ensures var ws := Words(d, ants);
      Chained(ws) && Reads(ws, |ws|) && forall i :: 0 <= i < |ws| ==> ws[i] < TWO_32
  {
    hide Word, Bit, Stops;
    WordBits(PartsOf(d), ants != []);
    forall i | 0 <= i < |ants| ensures
      var w := AntennaWords(ants)[i];
      w < TWO_32 && !Stops(w) && (Bit(w, MORE_BIT) <==> i + 1 < |ants|)
    {
      WordBits(AntennaParts(ants[i]), i + 1 < |ants|);
    }
  }
}
