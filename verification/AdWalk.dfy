/**
 Walking the AD structures of an advertisement: the manufacturer's company identifier and
 the lab identity frame. Both walks are first matches over the structures of the payload's
 longest well-formed prefix.
 */
module AdWalk {
  import opened Prelude
  import opened Bytes
  import Text

  datatype Ad = Ad(ty: u8, payload: seq<u8>)

  // -- structures ----------------------------------------------------------------------------

  /** A structure starts here and all of it is there. */
  predicate Starts(data: seq<u8>) { data != [] && data[0] != 0 && data[0] < |data| }

  /** Where the structure at the start ends. */
  function End(data: seq<u8>): (e: nat)
    requires Starts(data)
    ensures 2 <= e <= |data|
  {
    var n: nat := data[0];
    1 + n
  }

  /** The structures up to the first that is malformed. */
  function Structures(data: seq<u8>): seq<Ad> {
    if !Starts(data) then []
    else [Ad(data[1], data[2..End(data)])] + Structures(data[End(data)..])
  }

  function AdBytes(a: Ad): seq<u8>
    requires |a.payload| < 255
  {
    [1 + |a.payload|, a.ty] + a.payload
  }

  predicate Encodable(ads: seq<Ad>) { forall i :: 0 <= i < |ads| ==> |ads[i].payload| < 255 }

  function Encoded(ads: seq<Ad>): seq<u8>
    requires Encodable(ads)
  {
    if ads == [] then [] else AdBytes(ads[0]) + Encoded(ads[1..])
  }

  /** The structures are the longest well-formed prefix: they encode to the front of the
      payload, and no structure starts after them. */
  lemma {:induction false} StructuresAreLongestPrefix(data: seq<u8>)
    ensures Encodable(Structures(data)) && Encoded(Structures(data)) <= data
    ensures !Starts(data[|Encoded(Structures(data))|..])
    decreases |data|
  {
    if Starts(data) {
      var e := End(data);
      StructuresAreLongestPrefix(data[e..]);
      var ads := Structures(data[e..]);
      assert Structures(data)[1..] == ads;
      assert AdBytes(Structures(data)[0]) == data[..e];
      assert data == data[..e] + data[e..];
      assert data[e..][|Encoded(ads)|..] == data[e + |Encoded(ads)|..];
    }
  }

  lemma StructuresOfOne(a: Ad, tail: seq<u8>)
    requires |a.payload| < 255
    ensures Structures(AdBytes(a) + tail) == [a] + Structures(tail)
  {
    var data, e := AdBytes(a) + tail, 2 + |a.payload|;
    assert data[0] == 1 + |a.payload| && data[1] == a.ty;
    assert data[2..e] == a.payload;
    assert data[e..] == tail;
  }

  lemma Associate(a: seq<u8>, b: seq<u8>, c: seq<u8>)
    ensures a + b + c == a + (b + c)
  {
  }

  lemma {:induction false} StructuresOfBytes(ads: seq<Ad>, rest: seq<u8>)
    requires Encodable(ads)
    ensures Structures(Encoded(ads) + rest) == ads + Structures(rest)
    decreases |ads|
  {
    if ads == [] {
      assert Encoded(ads) + rest == rest;
    } else {
      var tail := Encoded(ads[1..]) + rest;
      StructuresOfOne(ads[0], tail);
      hide Structures, AdBytes;
      Associate(AdBytes(ads[0]), Encoded(ads[1..]), rest);
      StructuresOfBytes(ads[1..], rest);
      assert [ads[0]] + (ads[1..] + Structures(rest)) == ads + Structures(rest);
    }
  }

  /** A structure that starts at `i` is the next one. */
  lemma NextStructure(data: seq<u8>, i: nat)
    requires i < |data| && data[i] != 0 && i + 1 + data[i] as nat <= |data|
    ensures var e := i + 1 + data[i] as nat;
      Structures(data[i..]) == [Ad(data[i + 1], data[i + 2..e])] + Structures(data[e..])
  {
    var left, n: nat := data[i..], data[i];
    assert left[0] == n && End(left) == 1 + n;
    assert left[2..1 + n] == data[i + 2..i + 1 + n];
    assert left[1 + n..] == data[i + 1 + n..];
  }

  // -- first matches ------------------------------------------------------------------------------

  function FirstMatch<A, T>(s: seq<A>, f: A -> Option<T>): Option<T> {
    if s == [] then None else if f(s[0]).Some? then f(s[0]) else FirstMatch(s[1..], f)
  }

  /** Nothing matches, or the result is that of the least index that does. */
  lemma {:induction false} FirstMatchIsFirst<A, T>(s: seq<A>, f: A -> Option<T>) returns (i: nat)
    ensures FirstMatch(s, f).None? <==> i == |s|
    ensures i < |s| ==> f(s[i]).Some? && FirstMatch(s, f) == f(s[i])
    ensures i <= |s| && forall j :: 0 <= j < i ==> f(s[j]).None?
    decreases |s|
  {
    if s == [] || f(s[0]).Some? {
      i := 0;
    } else {
      var k := FirstMatchIsFirst(s[1..], f);
      i := k + 1;
      forall j | 0 <= j < i ensures f(s[j]).None? {
        if j > 0 { assert s[j] == s[1..][j - 1]; }
      }
    }
  }

  lemma {:induction false} FirstMatchAfter<A, T>(a: seq<A>, b: seq<A>, f: A -> Option<T>)
    requires forall i :: 0 <= i < |a| ==> f(a[i]).None?
    ensures FirstMatch(a + b, f) == FirstMatch(b, f)
    decreases |a|
  {
    if a == [] {
      assert a + b == b;
    } else {
      assert (a + b)[1..] == a[1..] + b;
      FirstMatchAfter(a[1..], b, f);
    }
  }

  lemma FirstOfOne<A, T>(x: A, f: A -> Option<T>)
    ensures FirstMatch([x], f) == f(x)
  {
    assert [x][1..] == [];
  }

  lemma FirstOfStructures<T>(data: seq<u8>, i: nat, f: Ad -> Option<T>)
    requires i < |data| && data[i] != 0 && i + 1 + data[i] as nat <= |data|
    ensures var e := i + 1 + data[i] as nat;
      var a := Ad(data[i + 1], data[i + 2..e]);
      FirstMatch(Structures(data[i..]), f) == if f(a).Some? then f(a) else FirstMatch(Structures(data[e..]), f)
  {
    hide Structures;
    NextStructure(data, i);
    var e := i + 1 + data[i] as nat;
    assert Structures(data[i..])[1..] == Structures(data[e..]);
  }

  lemma EndOfStructures<T>(data: seq<u8>, i: nat, f: Ad -> Option<T>)
    requires i <= |data| && (i < |data| ==> data[i] == 0 || i + 1 + data[i] as nat > |data|)
    ensures FirstMatch(Structures(data[i..]), f) == None
  {
  }

  // -- company identifier -----------------------------------------------------------------------------

  const MANUFACTURER: u8 := 0xFF

  function CompanyOf(a: Ad): Option<nat> {
    if a.ty == MANUFACTURER && |a.payload| >= 2 then Some(U16(a.payload[0], a.payload[1])) else None
  }

  method CompanyId(data: seq<u8>) returns (id: Option<nat>)
    ensures id == FirstMatch(Structures(data), CompanyOf)
  {
    hide Structures, FirstMatch, Starts;
    var i := 0;
    assert data[0..] == data;
    while i < |data|
      invariant i <= |data|
      invariant FirstMatch(Structures(data), CompanyOf) == FirstMatch(Structures(data[i..]), CompanyOf)
    {
      var adLen: nat := data[i];
      if adLen == 0 || i + 1 + adLen > |data| {
        EndOfStructures(data, i, CompanyOf);
        return None;
      }
      FirstOfStructures(data, i, CompanyOf);
      if data[i + 1] == MANUFACTURER && adLen >= 3 { return Some(U16(data[i + 2], data[i + 3])); }
      i := i + 1 + adLen;
    }
    EndOfStructures(data, i, CompanyOf);
    return None;
  }

  /** The identifier of a manufacturer structure, type 0xFF, comes back from its two bytes, low
      byte first, after structures of other types or with fewer bytes and before any bytes. */
  lemma CompanyRecovers(before: seq<Ad>, company: u16, more: seq<u8>, rest: seq<u8>)
    requires Encodable(before) && |more| < 253
    requires forall i :: 0 <= i < |before| ==> before[i].ty != 0xFF || |before[i].payload| < 2
    ensures FirstMatch(Structures(Encoded(before) + ([3 + |more|, 0xFF, company % 256, company / 256] + more) + rest),
                       CompanyOf) == Some(company)
  {
    hide Structures, FirstMatch;
    var a := Ad(0xFF, [company % 256, company / 256] + more);
    assert AdBytes(a) == [3 + |more|, 0xFF, company % 256, company / 256] + more;
    StructuresOfBytes(before, AdBytes(a) + rest);
    Associate(Encoded(before), AdBytes(a), rest);
    StructuresOfOne(a, rest);
    FirstMatchAfter(before, [a] + Structures(rest), CompanyOf);
    FirstOfMore(a, Structures(rest), CompanyOf);
  }

  lemma FirstOfMore<A, T>(x: A, more: seq<A>, f: A -> Option<T>)
    requires f(x).Some?
    ensures FirstMatch([x] + more, f) == f(x)
  {
  }

  // -- lab identity frames ---------------------------------------------------------------------------------

  const UUID: nat := 16
  const INCOMPLETE_UUIDS: u8 := 0x06
  const COMPLETE_UUIDS: u8 := 0x07
  const SERVICE_DATA: u8 := 0x21

  datatype LabFrame = LabFrame(uuid: string, participantKey: nat, sessionKey: nat)

  function Reversed(b: seq<u8>): (r: seq<u8>)
    ensures |r| == |b|
  {
    seq(|b|, i requires 0 <= i < |b| => b[|b| - 1 - i])
  }

  function Canonical(be: seq<u8>): string
    requires |be| == UUID
  {
    Text.Hex(be[..4]) + "-" + Text.Hex(be[4..6]) + "-" + Text.Hex(be[6..8]) + "-" + Text.Hex(be[8..10]) + "-"
    + Text.Hex(be[10..])
  }

  type Prefix = p: seq<u8> | |p| == 12 ghost witness seq(12, _ => 0)

  function MatchUuid(prefix: Prefix, le: seq<u8>): Option<LabFrame> {
    if |le| != UUID then None
    else
      var be := Reversed(le);
      if be[..12] != prefix then None
      else Some(LabFrame(Canonical(be), U16(be[13], be[12]), U16(be[15], be[14])))
  }

  /** Whole consecutive UUIDs; a remainder is dropped. */
  function Chunks(b: seq<u8>): seq<seq<u8>> {
    if |b| < UUID then [] else [b[..UUID]] + Chunks(b[UUID..])
  }

  /** The UUIDs that a structure offers to the matcher. */
  function Offered(a: Ad): seq<seq<u8>> {
    if a.ty == INCOMPLETE_UUIDS || a.ty == COMPLETE_UUIDS then Chunks(a.payload)
    else if a.ty == SERVICE_DATA && |a.payload| >= UUID then [a.payload[..UUID]]
    else []
  }

  function FrameOf(prefix: Prefix): Ad -> Option<LabFrame> {
    (a: Ad) => FirstMatch(Offered(a), Matcher(prefix))
  }

  function Matcher(prefix: Prefix): seq<u8> -> Option<LabFrame> { (le: seq<u8>) => MatchUuid(prefix, le) }

  method MatchUuidLe(prefix: Prefix, le: seq<u8>) returns (f: Option<LabFrame>)
    requires |le| == UUID
    ensures f == MatchUuid(prefix, le)
  {
    var be: seq<u8> := [];
    for i := 0 to UUID
      invariant |be| == i && forall j :: 0 <= j < i ==> be[j] == le[UUID - 1 - j]
    {
      be := be + [le[UUID - 1 - i]];
    }
    assert be == Reversed(le);
    if be[..12] != prefix { return None; }
    return Some(LabFrame(Canonical(be), U16(be[13], be[12]), U16(be[15], be[14])));
  }

  method MatchChunks(prefix: Prefix, payload: seq<u8>) returns (f: Option<LabFrame>)
    ensures f == FirstMatch(Chunks(payload), Matcher(prefix))
  {
    var at := 0;
    while at + UUID <= |payload|
      invariant at <= |payload|
      invariant FirstMatch(Chunks(payload), Matcher(prefix)) == FirstMatch(Chunks(payload[at..]), Matcher(prefix))
    {
      ghost var left := payload[at..];
      assert left[..UUID] == payload[at..at + UUID] && left[UUID..] == payload[at + UUID..];
      assert Chunks(left)[1..] == Chunks(payload[at + UUID..]);
      f := MatchUuidLe(prefix, payload[at..at + UUID]);
      if f.Some? { return; }
      at := at + UUID;
    }
    return None;
  }

  method Extract(prefix: Prefix, data: seq<u8>) returns (f: Option<LabFrame>)
    ensures f == FirstMatch(Structures(data), FrameOf(prefix))
  {
    hide Structures, FrameOf, FirstMatch, Starts;
    var i := 0;
    assert data[0..] == data;
    while i < |data|
      invariant i <= |data|
      invariant FirstMatch(Structures(data), FrameOf(prefix)) == FirstMatch(Structures(data[i..]), FrameOf(prefix))
    {
      var adLen: nat := data[i];
      if adLen == 0 || i + 1 + adLen > |data| {
        EndOfStructures(data, i, FrameOf(prefix));
        return None;
      }
      FirstOfStructures(data, i, FrameOf(prefix));
      var adType := data[i + 1];
      var payload := data[i + 2..i + 1 + adLen];
      f := MatchAd(prefix, adType, payload);
      if f.Some? { return; }
      i := i + 1 + adLen;
    }
    EndOfStructures(data, i, FrameOf(prefix));
    return None;
  }

  /** The body of the walk: what one structure offers. */
  method MatchAd(prefix: Prefix, adType: u8, payload: seq<u8>) returns (f: Option<LabFrame>)
    ensures f == FrameOf(prefix)(Ad(adType, payload))
  {
    hide MatchUuid, Chunks;
    f := None;
    assert FrameOf(prefix)(Ad(adType, payload)) == FirstMatch(Offered(Ad(adType, payload)), Matcher(prefix));
    if adType == INCOMPLETE_UUIDS || adType == COMPLETE_UUIDS {
      f := MatchChunks(prefix, payload);
    } else if adType == SERVICE_DATA && |payload| >= UUID {
      f := MatchUuidLe(prefix, payload[..UUID]);
      FirstOfOne(payload[..UUID], Matcher(prefix));
    }
  }

  function Listed(uuids: seq<seq<u8>>): seq<u8> { if uuids == [] then [] else uuids[0] + Listed(uuids[1..]) }

  lemma {:induction false} ChunksOfListed(uuids: seq<seq<u8>>, rest: seq<u8>)
    requires (forall i :: 0 <= i < |uuids| ==> |uuids[i]| == 16) && |rest| < 16
    ensures Chunks(Listed(uuids) + rest) == uuids
    decreases |uuids|
  {
    if uuids == [] {
      assert [] + rest == rest;
    } else {
      var b := Listed(uuids) + rest;
      assert b[..16] == uuids[0] && b[16..] == Listed(uuids[1..]) + rest;
      ChunksOfListed(uuids[1..], rest);
      assert [uuids[0]] + uuids[1..] == uuids;
    }
  }

  /** Types 0x06 and 0x07 offer every whole UUID of their list, type 0x21 the one it starts
      with, and no other type any. */
  lemma OfferedByType(ty: u8, uuids: seq<seq<u8>>, rest: seq<u8>)
    requires (forall i :: 0 <= i < |uuids| ==> |uuids[i]| == 16) && |rest| < 16
    ensures ty == 0x06 || ty == 0x07 ==> Offered(Ad(ty, Listed(uuids) + rest)) == uuids
    ensures ty == 0x21 ==> Offered(Ad(ty, Listed(uuids) + rest)) == if uuids == [] then [] else [uuids[0]]
    ensures ty != 0x06 && ty != 0x07 && ty != 0x21 ==> Offered(Ad(ty, Listed(uuids) + rest)) == []
  {
    ChunksOfListed(uuids, rest);
    if uuids != [] {
      assert (Listed(uuids) + rest)[..16] == uuids[0];
    } else {
      assert [] + rest == rest;
    }
  }

  /** The printed UUID is 36 characters, dashed after 8, 13, 18 and 23, and is otherwise the
      sixteen bytes in lower-case hexadecimal, greatest first. */
  lemma CanonicalForm(be: seq<u8>)
    requires |be| == 16
    ensures var s := Canonical(be);
      && |s| == 36 && s[8] == '-' && s[13] == '-' && s[18] == '-' && s[23] == '-'
      && s[..8] + s[9..13] + s[14..18] + s[19..23] + s[24..] == Text.Hex(be)
      && (forall i :: 0 <= i < 32 ==> Text.Hex(be)[i] in "0123456789abcdef")
      && Text.ParseHex(Text.Hex(be)) == Some(be)
  {
    Text.ParseOfHex(be);
    Text.HexIsLowerCase(be);
    HexOfFive(be);
    hide Text.Hex, Text.ParseHex;
    DashedParts(Text.Hex(be[..4]), Text.Hex(be[4..6]), Text.Hex(be[6..8]), Text.Hex(be[8..10]), Text.Hex(be[10..]));
  }

  lemma HexOfFive(be: seq<u8>)
    requires |be| == 16
    ensures Text.Hex(be[..4]) + Text.Hex(be[4..6]) + Text.Hex(be[6..8]) + Text.Hex(be[8..10]) + Text.Hex(be[10..]) ==
      Text.Hex(be)
  {
    hide Text.Hex;
    var a, b, c, d, e := be[..4], be[4..6], be[6..8], be[8..10], be[10..];
    HexOfParts(a, b);
    HexOfParts(a + b, c);
    HexOfParts(a + b + c, d);
    HexOfParts(a + b + c + d, e);
    assert a + b + c + d + e == be;
  }

  lemma {:induction false} HexOfParts(a: seq<u8>, b: seq<u8>)
    ensures Text.Hex(a + b) == Text.Hex(a) + Text.Hex(b)
    decreases |a|
  {
    if a == [] {
      assert a + b == b;
    } else {
      assert (a + b)[1..] == a[1..] + b;
      HexOfParts(a[1..], b);
    }
  }

  lemma DashedParts(a: string, b: string, c: string, d: string, e: string)
    requires |a| == 8 && |b| == |c| == |d| == 4 && |e| == 12
    ensures var s := a + "-" + b + "-" + c + "-" + d + "-" + e;
      && |s| == 36 && s[8] == '-' && s[13] == '-' && s[18] == '-' && s[23] == '-'
      && s[..8] == a && s[9..13] == b && s[14..18] == c && s[19..23] == d && s[24..] == e
  {
  }

  // -- recovering a frame ------------------------------------------------------------------------------------

  function BigEndian(prefix: Prefix, participant: u16, session: u16): seq<u8> {
    prefix + [participant / 256, participant % 256, session / 256, session % 256]
  }

  /** A lab UUID as it is sent, least significant byte first. */
  function OnAir(prefix: Prefix, participant: u16, session: u16): seq<u8> {
    Reversed(BigEndian(prefix, participant, session))
  }

  lemma MatchOfOnAir(prefix: Prefix, participant: u16, session: u16)
    ensures MatchUuid(prefix, OnAir(prefix, participant, session)) ==
      Some(LabFrame(Canonical(BigEndian(prefix, participant, session)), participant, session))
  {
    var be := BigEndian(prefix, participant, session);
    assert Reversed(Reversed(be)) == be;
  }

  /** A UUID list, or service data, that carries a lab UUID after entries that are not lab UUIDs. */
  ghost predicate Carries(prefix: Prefix, a: Ad, participant: u16, session: u16) {
    var uuids := Offered(a);
    exists i :: 0 <= i < |uuids| && uuids[i] == OnAir(prefix, participant, session)
                && forall j :: 0 <= j < i ==> MatchUuid(prefix, uuids[j]).None?
  }

  lemma {:induction false} FirstMatchAt<A, T>(s: seq<A>, f: A -> Option<T>, i: nat)
    requires i < |s| && f(s[i]).Some? && forall j :: 0 <= j < i ==> f(s[j]).None?
    ensures FirstMatch(s, f) == f(s[i])
  {
    assert s == s[..i] + s[i..];
    FirstMatchAfter(s[..i], s[i..], f);
  }

  /** Any participant and session sent in a structure that the matcher looks at are recovered,
      after any structures without a lab frame and before any bytes at all. */
  lemma ExtractRecovers(prefix: Prefix, before: seq<Ad>, a: Ad, rest: seq<u8>, participant: u16, session: u16)
    requires Encodable(before) && |a.payload| < 255 && Carries(prefix, a, participant, session)
    requires forall i :: 0 <= i < |before| ==> FrameOf(prefix)(before[i]).None?
    ensures FirstMatch(Structures(Encoded(before) + AdBytes(a) + rest), FrameOf(prefix)) ==
      Some(LabFrame(Canonical(BigEndian(prefix, participant, session)), participant, session))
  {
    hide MatchUuid, Offered, Canonical, BigEndian;
    MatchOfOnAir(prefix, participant, session);
    CarriedFrame(prefix, a, participant, session);
    StructuresOfBytes(before, AdBytes(a) + rest);
    assert Encoded(before) + AdBytes(a) + rest == Encoded(before) + (AdBytes(a) + rest);
    assert Encoded([a]) == AdBytes(a) by { assert [a][1..] == []; assert AdBytes(a) + [] == AdBytes(a); }
    StructuresOfBytes([a], rest);
    FirstMatchAfter(before, [a] + Structures(rest), FrameOf(prefix));
  }

  lemma CarriedFrame(prefix: Prefix, a: Ad, participant: u16, session: u16)
    requires Carries(prefix, a, participant, session)
    ensures FrameOf(prefix)(a) == MatchUuid(prefix, OnAir(prefix, participant, session))
  {
    hide MatchUuid, Offered, Canonical, BigEndian;
    MatchOfOnAir(prefix, participant, session);
    var uuids := Offered(a);
    var i :| 0 <= i < |uuids| && uuids[i] == OnAir(prefix, participant, session)
             && forall j :: 0 <= j < i ==> MatchUuid(prefix, uuids[j]).None?;
    FirstMatchAt(uuids, Matcher(prefix), i);
  }

  /** Nothing is extracted from a payload in which no offered UUID has the namespace. */
  lemma OnlyTheNamespaceMatches(prefix: Prefix, data: seq<u8>) returns (i: nat, j: nat)
    requires FirstMatch(Structures(data), FrameOf(prefix)).Some?
    ensures i < |Structures(data)| && j < |Offered(Structures(data)[i])|
    ensures var uuid := Offered(Structures(data)[i])[j];
      |uuid| == UUID && Reversed(uuid)[..12] == prefix
      && FirstMatch(Structures(data), FrameOf(prefix)) == MatchUuid(prefix, uuid)
  {
    hide Structures, Offered, Canonical;
    i := FirstMatchIsFirst(Structures(data), FrameOf(prefix));
    var uuids := Offered(Structures(data)[i]);
    j := FirstMatchIsFirst(uuids, Matcher(prefix));
  }
}
