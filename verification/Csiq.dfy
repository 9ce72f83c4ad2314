/**
 The CSIQ v1 container: records as type-length-value fields, and a stream of framed
 records. Decoding a payload is shown to be a lookup of each field's last value, from
 which the format's compatibility promises follow.
 */
module Csiq {
  import opened Prelude
  import opened Bytes

  // -- field types -------------------------------------------------------------------------

  const T_FTM: u8 := 0x01
  const T_US: u8 := 0x02
  const T_UNIX_TS_NS: u8 := 0x03
  const T_RNF: u8 := 0x04
  const T_PHY: u8 := 0x05
  const T_NRX: u8 := 0x06
  const T_NTX: u8 := 0x07
  const T_NTONE: u8 := 0x08
  const T_SRC_MAC: u8 := 0x09
  const T_CHANNEL: u8 := 0x0A
  const T_WIDTH: u8 := 0x0B
  const T_RSSI: u8 := 0x0C
  const T_SEQ: u8 := 0x0D
  const T_CSI_MATRIX: u8 := 0x10
  const T_BW_ANTSEL: u8 := 0x11
  const T_MONO_US: u8 := 0x12
  const T_VENDOR_HDR: u8 := 0x14
  const T_NODE_TEMP_MC: u8 := 0x40
  const T_NODE_THROTTLE: u8 := 0x41
  const T_NODE_SPOOL_FREE: u8 := 0x42
  const T_NODE_LOAD_M: u8 := 0x43
  const T_NODE_NIC_TEMP_C: u8 := 0x44

  predicate Known(ty: u8) {
    || T_FTM <= ty <= T_SEQ || T_CSI_MATRIX <= ty <= T_MONO_US || ty == T_VENDOR_HDR
    || T_NODE_TEMP_MC <= ty <= T_NODE_NIC_TEMP_C
  }

  predicate Required(ty: u8) { ty == T_FTM || ty == T_NRX || ty == T_NTX || ty == T_NTONE }

  // -- records --------------------------------------------------------------------------------

  datatype Phy = Phy(modulation: u8, mcs: u8, nss: u8)

  datatype BwAntsel = BwAntsel(bandwidth: u8, antenna: u8)

  datatype NodeState = NodeState(tempMc: Option<int>, throttle: Option<nat>, spoolFree: Option<nat>,
                                 loadM: Option<nat>, nicTempC: Option<int>)

  /** The record's fields in groups. `phy` and `width` keep the codes that the reader
      turns into names. */
  datatype Clocks = Clocks(ftm: nat, us: nat, unixTsNs: nat, monoUs: Option<nat>)

  datatype Label = Label(rnf: nat, phy: Option<Phy>, bw: Option<BwAntsel>, width: nat)

  datatype Origin = Origin(seqNo: nat, srcMac: seq<u8>, channel: nat, vendorHdr: Option<seq<u8>>)

  datatype Csi = Csi(nrx: nat, ntx: nat, ntone: nat, rssi: seq<int>, iq: seq<int>)

  datatype Rec = Rec(clocks: Clocks, rate: Label, origin: Origin, csi: Csi, node: NodeState)

  const EMPTY_REC: Rec :=
    Rec(Clocks(0, 0, 0, None), Label(0, None, None, 0), Origin(0, [0, 0, 0, 0, 0, 0], 0, None),
        Csi(0, 0, 0, [], []), NodeState(None, None, None, None, None))

  datatype Error = Truncated | Malformed | MissingRequired | Desync | BadMagic | UnsupportedVersion | PythonError

  /** Bandwidth and antenna selection as `rate_n_flags` carries them. */
  function DecodeBwAntsel(rnf: nat): Option<BwAntsel> {
    if rnf == 0 then None else Some(BwAntsel(rnf / 2048 % 8, rnf / 16384 % 4))
  }

  /** Bits 11 to 13 of the word are the bandwidth and bits 14 and 15 the antennas; a zero word
      has neither. */
  lemma BwAntselBits(low: nat, bandwidth: nat, antenna: nat, high: nat)
    requires low < 0x800 && bandwidth < 8 && antenna < 4
    ensures var rnf := low + 0x800 * bandwidth + 0x4000 * antenna + 0x1_0000 * high;
      DecodeBwAntsel(rnf) == if rnf == 0 then None else Some(BwAntsel(bandwidth, antenna))
  {
    var rnf := low + 0x800 * bandwidth + 0x4000 * antenna + 0x1_0000 * high;
    assert rnf / 0x800 == bandwidth + 8 * antenna + 32 * high;
    assert rnf / 0x4000 == antenna + 4 * high;
  }

  // -- one field --------------------------------------------------------------------------------

  /** The lengths each field's unpacking accepts. */
  predicate Fits(ty: u8, n: nat) {
    if ty == T_FTM || ty == T_US || ty == T_RNF || ty == T_CHANNEL || ty == T_NODE_TEMP_MC || ty == T_NODE_THROTTLE
       || ty == T_NODE_LOAD_M || ty == T_NODE_NIC_TEMP_C then n == 4
    else if ty == T_UNIX_TS_NS || ty == T_MONO_US || ty == T_NODE_SPOOL_FREE then n == 8
    else if ty == T_NTONE || ty == T_WIDTH then n == 2
    else if ty == T_PHY then n >= 3
    else if ty == T_SEQ || ty == T_NRX || ty == T_NTX then n >= 1
    else if ty == T_BW_ANTSEL then n >= 2
    else if ty == T_RSSI || ty == T_CSI_MATRIX then n % 2 == 0
    else true
  }

  /** Types of four, eight and two bytes, of at least one to three, of pairs, and of any length. */
  lemma FitsByType(ty: u8, n: nat)
    ensures ty in {0x01, 0x02, 0x04, 0x0A, 0x40, 0x41, 0x43, 0x44} ==> (Fits(ty, n) <==> n == 4)
    ensures ty in {0x03, 0x12, 0x42} ==> (Fits(ty, n) <==> n == 8)
    ensures ty in {0x08, 0x0B} ==> (Fits(ty, n) <==> n == 2)
    ensures ty in {0x06, 0x07, 0x0D} ==> (Fits(ty, n) <==> n >= 1)
    ensures ty == 0x11 ==> (Fits(ty, n) <==> n >= 2)
    ensures ty == 0x05 ==> (Fits(ty, n) <==> n >= 3)
    ensures ty in {0x0C, 0x10} ==> (Fits(ty, n) <==> n % 2 == 0)
    ensures ty in {0x09, 0x14} || !Known(ty) ==> Fits(ty, n)
    ensures Known(ty) <==> 0x01 <= ty <= 0x0D || 0x10 <= ty <= 0x12 || ty == 0x14 || 0x40 <= ty <= 0x44
  {
  }

  function SetClock(c: Clocks, ty: u8, v: seq<u8>): Clocks
    requires Fits(ty, |v|)
  {
    if ty == T_FTM then c.(ftm := FromLe(v))
    else if ty == T_US then c.(us := FromLe(v))
    else if ty == T_UNIX_TS_NS then c.(unixTsNs := FromLe(v))
    else if ty == T_MONO_US then c.(monoUs := Some(FromLe(v)))
    else c
  }

  function SetLabel(l: Label, ty: u8, v: seq<u8>): Label
    requires Fits(ty, |v|)
  {
    if ty == T_RNF then l.(rnf := FromLe(v))
    else if ty == T_PHY then l.(phy := Some(Phy(v[0], v[1], v[2])))
    else if ty == T_WIDTH then l.(width := FromLe(v))
    else if ty == T_BW_ANTSEL then l.(bw := Some(BwAntsel(v[0], v[1])))
    else l
  }

  function SetOrigin(o: Origin, ty: u8, v: seq<u8>): Origin
    requires Fits(ty, |v|)
  {
    if ty == T_SEQ then o.(seqNo := v[0])
    else if ty == T_SRC_MAC then o.(srcMac := v)
    else if ty == T_CHANNEL then o.(channel := FromLe(v))
    else if ty == T_VENDOR_HDR then o.(vendorHdr := Some(v))
    else o
  }

  function SetCsi(c: Csi, ty: u8, v: seq<u8>): Csi
    requires Fits(ty, |v|)
  {
    if ty == T_NRX then c.(nrx := v[0])
    else if ty == T_NTX then c.(ntx := v[0])
    else if ty == T_NTONE then c.(ntone := FromLe(v))
    else if ty == T_RSSI then c.(rssi := Words(v))
    else if ty == T_CSI_MATRIX then c.(iq := Words(v))
    else c
  }

  function SetNode(n: NodeState, ty: u8, v: seq<u8>): NodeState
    requires Fits(ty, |v|)
  {
    if ty == T_NODE_TEMP_MC then n.(tempMc := Some(FromLeSigned(v)))
    else if ty == T_NODE_THROTTLE then n.(throttle := Some(FromLe(v)))
    else if ty == T_NODE_SPOOL_FREE then n.(spoolFree := Some(FromLe(v)))
    else if ty == T_NODE_LOAD_M then n.(loadM := Some(FromLe(v)))
    else if ty == T_NODE_NIC_TEMP_C then n.(nicTempC := Some(FromLeSigned(v)))
    else n
  }

  /** Store one field; a type that no group knows is skipped. */
  function Set(r: Rec, ty: u8, v: seq<u8>): Rec
    requires Fits(ty, |v|)
  {
    Rec(SetClock(r.clocks, ty, v), SetLabel(r.rate, ty, v), SetOrigin(r.origin, ty, v),
        SetCsi(r.csi, ty, v), SetNode(r.node, ty, v))
  }

  function FieldError(ty: u8): Error { if ty == T_BW_ANTSEL then Malformed else PythonError }

  // -- a payload ----------------------------------------------------------------------------------

  datatype Tlv = Tlv(ty: u8, value: seq<u8>)

  /** What the loop has read so far: the record, and which required fields it has seen. */
  datatype Progress = Progress(rec: Rec, seen: set<u8>)

  function Step(p: Progress, t: Tlv): Result<Progress, Error> {
    if !Fits(t.ty, |t.value|) then Err(FieldError(t.ty))
    else Ok(Progress(Set(p.rec, t.ty, t.value), if Required(t.ty) then p.seen + {t.ty} else p.seen))
  }

  function Fold(p: Progress, b: seq<u8>): Result<Progress, Error>
    decreases |b|
  {
    if b == [] then Ok(p)
    else if |b| < 5 then Err(Truncated)
    else
      var ln := FromLe(b[1..5]);
      if 5 + ln > |b| then Err(Malformed)
      else match Step(p, Tlv(b[0], b[5..5 + ln]))
        case Err(e) => Err(e)
        case Ok(q) => Fold(q, b[5 + ln..])
  }

  const START: Progress := Progress(EMPTY_REC, {})

  /** Without a BW_ANTSEL field the same bits are taken from RNF. */
  function Completed(l: Label): Label { if l.bw.None? then l.(bw := DecodeBwAntsel(l.rnf)) else l }

  function Finish(p: Progress): Result<Rec, Error> {
    if p.seen != {T_FTM, T_NRX, T_NTX, T_NTONE} then Err(MissingRequired)
    else Ok(p.rec.(rate := Completed(p.rec.rate)))
  }

  function Decode(b: seq<u8>): Result<Rec, Error> {
    match Fold(START, b)
    case Err(e) => Err(e)
    case Ok(p) => Finish(p)
  }

  /** What the loop does at `pos`, in terms of the bytes left. */
  lemma FoldAt(p: Progress, b: seq<u8>, pos: nat)
    requires pos < |b|
    ensures Fold(p, b[pos..]) ==
      if |b| - pos < 5 then Err(Truncated)
      else
        var next := pos + 5 + FromLe(b[pos + 1..pos + 5]);
        if next > |b| then Err(Malformed)
        else match Step(p, Tlv(b[pos], b[pos + 5..next])) case Err(e) => Err(e) case Ok(q) => Fold(q, b[next..])
  {
    hide FromLe, Step;
    var rest := b[pos..];
    assert rest != [] && rest[0] == b[pos] && rest == b[pos..|b|];
    if |rest| >= 5 {
      Subslice(b, pos, |b|, 1, 5);
      var ln := FromLe(rest[1..5]);
      if 5 + ln <= |rest| {
        Subslice(b, pos, |b|, 5, 5 + ln);
        SplitAfter(b, pos, 5 + ln);
      }
    }
  }

  method DecodePayload(payload: seq<u8>) returns (r: Result<Rec, Error>)
    ensures r == Decode(payload)
  {
    hide Set, Fits, FromLe, Required, FieldError, Fold, Finish;
    var rec, seen := EMPTY_REC, {};
    var pos := 0;
    assert payload[0..] == payload;
    while pos < |payload|
      invariant pos <= |payload|
      invariant Fold(START, payload) == Fold(Progress(rec, seen), payload[pos..])
    {
      FoldAt(Progress(rec, seen), payload, pos);
      if |payload| - pos < 5 { return Err(Truncated); }
      var ty := payload[pos];
      var ln := FromLe(payload[pos + 1..pos + 5]);
      pos := pos + 5;
      if pos + ln > |payload| { return Err(Malformed); }
      var val := payload[pos..pos + ln];
      pos := pos + ln;
      if !Fits(ty, |val|) { return Err(FieldError(ty)); }
      rec := Set(rec, ty, val);
      if Required(ty) { seen := seen + {ty}; }
    }
    assert payload[pos..] == [];
    FoldNothing(Progress(rec, seen));
    FinishIs(Progress(rec, seen));
    if seen != {T_FTM, T_NRX, T_NTX, T_NTONE} { return Err(MissingRequired); }
    if rec.rate.bw.None? { rec := rec.(rate := rec.rate.(bw := DecodeBwAntsel(rec.rate.rnf))); }
    return Ok(rec);
  }

  lemma FoldNothing(p: Progress)
    ensures Fold(p, []) == Ok(p)
  {
  }

  lemma FinishIs(p: Progress)
    ensures p.seen != {T_FTM, T_NRX, T_NTX, T_NTONE} ==> Finish(p) == Err(MissingRequired)
    ensures p.seen == {T_FTM, T_NRX, T_NTX, T_NTONE} ==>
      Finish(p) == Ok(if p.rec.rate.bw.Some? then p.rec
                      else p.rec.(rate := p.rec.rate.(bw := DecodeBwAntsel(p.rec.rate.rnf))))
  {
    hide DecodeBwAntsel;
    assert p.rec.rate.bw.Some? ==> p.rec.(rate := Completed(p.rec.rate)) == p.rec;
  }

  // -- encoding -------------------------------------------------------------------------------------

  predicate Encodable(ts: seq<Tlv>) { forall i :: 0 <= i < |ts| ==> |ts[i].value| < TWO_32 }

  function EncodeTlv(t: Tlv): (b: seq<u8>)
    ensures |b| == 5 + |t.value|
  {
    [t.ty] + Le(4, |t.value|) + t.value
  }

  function Encode(ts: seq<Tlv>): seq<u8> {
    if ts == [] then [] else EncodeTlv(ts[0]) + Encode(ts[1..])
  }

  function FoldTlvs(p: Progress, ts: seq<Tlv>): Result<Progress, Error>
    decreases |ts|
  {
    if ts == [] then Ok(p)
    else match Step(p, ts[0])
      case Err(e) => Err(e)
      case Ok(q) => FoldTlvs(q, ts[1..])
  }

  lemma {:induction false} FoldOfEncoded(p: Progress, ts: seq<Tlv>)
    requires Encodable(ts)
    ensures Fold(p, Encode(ts)) == FoldTlvs(p, ts)
    decreases |ts|
  {
    hide Step, Le, FromLe;
    if ts != [] {
      var b, n := Encode(ts), |ts[0].value|;
      Powers();
      FromLeOfLe(4, n);
      assert b[1..5] == Le(4, n);
      assert b[5..5 + n] == ts[0].value && b[5 + n..] == Encode(ts[1..]);
      assert Tlv(b[0], b[5..5 + n]) == ts[0];
      match Step(p, ts[0])
      case Err(_) =>
      case Ok(q) => FoldOfEncoded(q, ts[1..]);
    }
  }

  // -- decoding is a lookup ---------------------------------------------------------------------------

  type Values = m: map<u8, seq<u8>> | forall ty :: ty in m ==> Fits(ty, |m[ty]|)

  function Number(m: Values, ty: u8): nat { if ty in m then FromLe(m[ty]) else 0 }

  function Byte(m: Values, ty: u8): nat
    requires ty == T_SEQ || ty == T_NRX || ty == T_NTX
  {
    if ty in m then m[ty][0] else 0
  }

  function OptNumber(m: Values, ty: u8): Option<nat> { if ty in m then Some(FromLe(m[ty])) else None }

  function OptSigned(m: Values, ty: u8): Option<int> { if ty in m then Some(FromLeSigned(m[ty])) else None }

  function Series(m: Values, ty: u8): seq<int>
    requires ty == T_RSSI || ty == T_CSI_MATRIX
  {
    if ty in m then Words(m[ty]) else []
  }

  function BuildClocks(m: Values): Clocks {
    Clocks(Number(m, T_FTM), Number(m, T_US), Number(m, T_UNIX_TS_NS), OptNumber(m, T_MONO_US))
  }

  function BuildLabel(m: Values): Label {
    Label(Number(m, T_RNF),
          if T_PHY in m then Some(Phy(m[T_PHY][0], m[T_PHY][1], m[T_PHY][2])) else None,
          if T_BW_ANTSEL in m then Some(BwAntsel(m[T_BW_ANTSEL][0], m[T_BW_ANTSEL][1])) else None,
          Number(m, T_WIDTH))
  }

  function BuildOrigin(m: Values): Origin {
    Origin(Byte(m, T_SEQ), if T_SRC_MAC in m then m[T_SRC_MAC] else [0, 0, 0, 0, 0, 0], Number(m, T_CHANNEL),
           if T_VENDOR_HDR in m then Some(m[T_VENDOR_HDR]) else None)
  }

  function BuildCsi(m: Values): Csi {
    Csi(Byte(m, T_NRX), Byte(m, T_NTX), Number(m, T_NTONE), Series(m, T_RSSI), Series(m, T_CSI_MATRIX))
  }

  function BuildNode(m: Values): NodeState {
    NodeState(OptSigned(m, T_NODE_TEMP_MC), OptNumber(m, T_NODE_THROTTLE), OptNumber(m, T_NODE_SPOOL_FREE),
              OptNumber(m, T_NODE_LOAD_M), OptSigned(m, T_NODE_NIC_TEMP_C))
  }

  /** The record whose fields have the given values, each read on its own. */
  function Build(m: Values): Rec {
    Rec(BuildClocks(m), BuildLabel(m), BuildOrigin(m), BuildCsi(m), BuildNode(m))
  }

  lemma BuildStep(m: Values, ty: u8, v: seq<u8>)
    requires Fits(ty, |v|)
    ensures Build(m[ty := v]) == Set(Build(m), ty, v)
  {
    hide Fits;
    ClockStep(m, ty, v);
    LabelStep(m, ty, v);
    OriginStep(m, ty, v);
    CsiStep(m, ty, v);
    NodeStep(m, ty, v);
  }

  lemma ClockStep(m: Values, ty: u8, v: seq<u8>)
    requires Fits(ty, |v|)
    ensures BuildClocks(m[ty := v]) == SetClock(BuildClocks(m), ty, v)
  {
    hide FromLe, FromLeSigned, Words;
  }

  lemma LabelStep(m: Values, ty: u8, v: seq<u8>)
    requires Fits(ty, |v|)
    ensures BuildLabel(m[ty := v]) == SetLabel(BuildLabel(m), ty, v)
  {
    hide FromLe, FromLeSigned, Words;
  }

  lemma OriginStep(m: Values, ty: u8, v: seq<u8>)
    requires Fits(ty, |v|)
    ensures BuildOrigin(m[ty := v]) == SetOrigin(BuildOrigin(m), ty, v)
  {
    hide FromLe, FromLeSigned, Words;
  }

  lemma CsiStep(m: Values, ty: u8, v: seq<u8>)
    requires Fits(ty, |v|)
    ensures BuildCsi(m[ty := v]) == SetCsi(BuildCsi(m), ty, v)
  {
    hide FromLe, FromLeSigned, Words;
  }

  lemma NodeStep(m: Values, ty: u8, v: seq<u8>)
    requires Fits(ty, |v|)
    ensures BuildNode(m[ty := v]) == SetNode(BuildNode(m), ty, v)
  {
    hide FromLe, FromLeSigned, Words;
  }

  ghost predicate AllFit(ts: seq<Tlv>) { forall i :: 0 <= i < |ts| ==> Fits(ts[i].ty, |ts[i].value|) }

  /** The last value of every type that occurs. */
  function Last(ts: seq<Tlv>): (m: Values)
    requires AllFit(ts)
  {
    if ts == [] then map[]
    else
      var n := |ts| - 1;
      Last(ts[..n])[ts[n].ty := ts[n].value]
  }

  lemma {:induction false} LastOccurs(ts: seq<Tlv>, ty: u8) returns (i: nat)
    requires AllFit(ts) && ty in Last(ts)
    ensures i < |ts| && ts[i].ty == ty
  {
    hide Fits;
    var n := |ts| - 1;
    if ts[n].ty == ty { i := n; } else { i := LastOccurs(ts[..n], ty); }
  }

  function SeenIn(m: Values): set<u8> { set ty | ty in m && Required(ty) }

  lemma {:induction false} FoldTlvsAppend(p: Progress, ts: seq<Tlv>, t: Tlv)
    ensures FoldTlvs(p, ts + [t]) == match FoldTlvs(p, ts) case Err(e) => Err(e) case Ok(q) => Step(q, t)
    decreases |ts|
  {
    hide Step;
    if ts == [] {
      assert ts + [t] == [t];
    } else {
      assert (ts + [t])[0] == ts[0] && (ts + [t])[1..] == ts[1..] + [t];
      match Step(p, ts[0])
      case Err(_) =>
      case Ok(q) => FoldTlvsAppend(q, ts[1..], t);
    }
  }

  lemma {:induction false} FoldIsLookup(ts: seq<Tlv>)
    requires AllFit(ts)
    ensures FoldTlvs(START, ts) == Ok(Progress(Build(Last(ts)), SeenIn(Last(ts))))
  {
    hide Fits, Set, Build, Required;
    if ts == [] {
      EmptyBuild();
    } else {
      var n := |ts| - 1;
      FoldIsLookup(ts[..n]);
      FoldTlvsAppend(START, ts[..n], ts[n]);
      assert ts[..n] + [ts[n]] == ts;
      var m := Last(ts[..n]);
      BuildStep(m, ts[n].ty, ts[n].value);
      SeenStep(m, ts[n].ty, ts[n].value);
    }
  }

  lemma EmptyBuild()
    ensures Build(map[]) == EMPTY_REC && SeenIn(map[]) == {}
  {
  }

  lemma SeenStep(m: Values, ty: u8, v: seq<u8>)
    requires Fits(ty, |v|)
    ensures SeenIn(m[ty := v]) == if Required(ty) then SeenIn(m) + {ty} else SeenIn(m)
  {
  }

  function FinishValues(m: Values): Result<Rec, Error> { Finish(Progress(Build(m), SeenIn(m))) }

  /** Decoding a payload of fitting fields reads off each field's last value. */
  lemma DecodeIsLookup(ts: seq<Tlv>)
    requires Encodable(ts) && AllFit(ts)
    ensures Decode(Encode(ts)) == FinishValues(Last(ts))
  {
    FoldOfEncoded(START, ts);
    FoldIsLookup(ts);
  }

  /** A payload of fitting fields is refused exactly when one of the FTM, receiver, transmitter
      and tone counts, types 1, 6, 7 and 8, is missing, and then with that error. */
  lemma MissingIff(ts: seq<Tlv>)
    requires Encodable(ts) && AllFit(ts)
    ensures var r, m := Decode(Encode(ts)), Last(ts);
      && (r.Err? <==> 0x01 !in m || 0x06 !in m || 0x07 !in m || 0x08 !in m)
      && (r.Err? ==> r.error == MissingRequired)
  {
    DecodeIsLookup(ts);
    var m := Last(ts);
    hide Build, Last, Decode, Encode, Fits;
    RequiredTypes(m);
    hide SeenIn;
  }

  lemma RequiredTypes(m: Values)
    ensures SeenIn(m) == {T_FTM, T_NRX, T_NTX, T_NTONE} <==> 0x01 in m && 0x06 in m && 0x07 in m && 0x08 in m
  {
    assert SeenIn(m) == {T_FTM, T_NRX, T_NTX, T_NTONE} <==>
           T_FTM in SeenIn(m) && T_NRX in SeenIn(m) && T_NTX in SeenIn(m) && T_NTONE in SeenIn(m);
  }

  /** Field `i` is the first that does not fit, and `e` the error of one: only the bandwidth and
      antenna field, type 0x11, checks its own length. */
  ghost predicate FirstMisfit(ts: seq<Tlv>, i: nat, e: Error) {
    && i < |ts| && !Fits(ts[i].ty, |ts[i].value|)
    && (forall j :: 0 <= j < i ==> Fits(ts[j].ty, |ts[j].value|))
    && e == if ts[i].ty == 0x11 then Malformed else PythonError
  }

  lemma {:induction false} FoldOfMisfit(p: Progress, ts: seq<Tlv>) returns (i: nat)
    requires !AllFit(ts)
    ensures var r := FoldTlvs(p, ts); r.Err? && FirstMisfit(ts, i, r.error)
    decreases |ts|
  {
    hide Fits, Set;
    i := 0;
    if Fits(ts[0].ty, |ts[0].value|) {
      assert !AllFit(ts[1..]) by {
        var k :| 0 <= k < |ts| && !Fits(ts[k].ty, |ts[k].value|);
        assert ts[1..][k - 1] == ts[k];
      }
      i := FoldOfMisfit(Step(p, ts[0]).value, ts[1..]);
      i := i + 1;
      forall j | 0 <= j < i ensures Fits(ts[j].ty, |ts[j].value|) {
        if j > 0 { assert ts[j] == ts[1..][j - 1]; }
      }
    }
  }

  /** A payload with a field of a length that its type does not accept fails with the error of
      the first such field, even if required fields are missing too. */
  lemma MisfitFails(ts: seq<Tlv>) returns (i: nat)
    requires Encodable(ts) && !AllFit(ts)
    ensures var r := Decode(Encode(ts)); r.Err? && FirstMisfit(ts, i, r.error)
  {
    FoldOfEncoded(START, ts);
    i := FoldOfMisfit(START, ts);
  }

  // -- cut payloads -------------------------------------------------------------------------------------

  /** A field cut inside its first five bytes is truncated, and cut later its length is too
      great for what is left. */
  lemma FoldOfCutTlv(p: Progress, t: Tlv, k: nat)
    requires |t.value| < TWO_32 && 0 < k < |EncodeTlv(t)|
    ensures Fold(p, EncodeTlv(t)[..k]) == if k < 5 then Err(Truncated) else Err(Malformed)
  {
    hide Step, Le, FromLe;
    var b := EncodeTlv(t)[..k];
    if k >= 5 {
      Powers();
      FromLeOfLe(4, |t.value|);
      assert b[1..5] == Le(4, |t.value|);
    }
  }

  lemma FoldOfTlv(p: Progress, t: Tlv, rest: seq<u8>)
    requires |t.value| < TWO_32 && Fits(t.ty, |t.value|)
    ensures Step(p, t).Ok? && Fold(p, EncodeTlv(t) + rest) == Fold(Step(p, t).value, rest)
  {
    hide Le, FromLe, Fits, Set;
    var b, n := EncodeTlv(t) + rest, |t.value|;
    Powers();
    FromLeOfLe(4, n);
    assert b[1..5] == Le(4, n) && b[5..5 + n] == t.value && b[5 + n..] == rest;
  }

  lemma {:induction false} CutFold(p: Progress, ts: seq<Tlv>, k: nat) returns (n: nat)
    requires Encodable(ts) && AllFit(ts) && k <= |Encode(ts)|
    ensures n <= |ts| && |Encode(ts[..n])| <= k && (n < |ts| ==> k < |Encode(ts[..n + 1])|)
    ensures var at := |Encode(ts[..n])|;
      Fold(p, Encode(ts)[..k]) ==
        if k == at then Fold(p, Encode(ts[..n])) else if k < at + 5 then Err(Truncated) else Err(Malformed)
    decreases |ts|
  {
    hide Fold, Step, EncodeTlv, Fits;
    n := 0;
    assert ts[..0] == [] && Encode([]) == [];
    if ts == [] {
      assert Encode(ts)[..k] == [];
    } else {
      var t, e, rest := ts[0], |EncodeTlv(ts[0])|, ts[1..];
      EncodeFirst(ts, 0);
      if k == 0 {
        assert Encode(ts)[..0] == [];
      } else if k < e {
        assert Encode(ts)[..k] == EncodeTlv(t)[..k];
        FoldOfCutTlv(p, t, k);
      } else {
        assert forall i :: 0 <= i < |rest| ==> rest[i] == ts[i + 1];
        FoldOfTlv(p, t, Encode(rest)[..k - e]);
        var m := CutFold(Step(p, t).value, rest, k - e);
        n := m + 1;
        EncodeFirst(ts, m);
        if m < |rest| { EncodeFirst(ts, m + 1); }
        FoldOfTlv(p, t, Encode(rest[..m]));
        assert Encode(ts)[..k] == EncodeTlv(t) + Encode(rest)[..k - e];
        hide Encode;
      }
    }
  }

  lemma EncodeFirst(ts: seq<Tlv>, m: nat)
    requires m < |ts|
    ensures Encode(ts[..m + 1]) == EncodeTlv(ts[0]) + Encode(ts[1..][..m])
  {
    hide EncodeTlv;
    assert ts[..m + 1][0] == ts[0] && ts[..m + 1][1..] == ts[1..][..m];
  }

  /** A payload cut at a field's end decodes as the fields before the cut; cut inside a field's
      type or length it is truncated, and cut inside its value malformed. */
  lemma CutPayload(ts: seq<Tlv>, k: nat) returns (n: nat)
    requires Encodable(ts) && AllFit(ts) && k <= |Encode(ts)|
    ensures n <= |ts| && |Encode(ts[..n])| <= k && (n < |ts| ==> k < |Encode(ts[..n + 1])|)
    ensures var at := |Encode(ts[..n])|;
      Decode(Encode(ts)[..k]) ==
        if k == at then Decode(Encode(ts[..n])) else if k < at + 5 then Err(Truncated) else Err(Malformed)
  {
    hide Fold, Encode, Finish, AllFit;
    n := CutFold(START, ts, k);
  }

  // -- compatibility -----------------------------------------------------------------------------------

  ghost predicate SameKnown(m: Values, n: Values) {
    forall ty: u8 :: Known(ty) ==> (ty in m <==> ty in n) && (ty in m ==> m[ty] == n[ty])
  }

  /** A record depends only on the last values of the known fields. */
  lemma SameKnownSameRecord(m: Values, n: Values)
    requires SameKnown(m, n)
    ensures FinishValues(m) == FinishValues(n)
  {
    assert SeenIn(m) == SeenIn(n);
  }

  ghost predicate DistinctTypes(ts: seq<Tlv>) {
    forall i, j :: 0 <= i < j < |ts| ==> ts[i].ty != ts[j].ty
  }

  lemma {:induction false} LastOfDistinct(ts: seq<Tlv>, i: nat)
    requires AllFit(ts) && DistinctTypes(ts) && i < |ts|
    ensures ts[i].ty in Last(ts) && Last(ts)[ts[i].ty] == ts[i].value
  {
    hide Fits;
    var n := |ts| - 1;
    if i < n { LastOfDistinct(ts[..n], i); }
  }

  /** The order of fields of distinct types does not matter. */
  lemma FieldOrderIsIrrelevant(ts: seq<Tlv>, us: seq<Tlv>)
    requires Encodable(ts) && Encodable(us) && AllFit(ts) && DistinctTypes(ts) && DistinctTypes(us)
    requires multiset(ts) == multiset(us)
    ensures Decode(Encode(ts)) == Decode(Encode(us))
  {
    SameLast(ts, us);
    DecodeIsLookup(ts);
    DecodeIsLookup(us);
  }

  /** Every field of `ts` is in `us`. */
  ghost predicate Within(ts: seq<Tlv>, us: seq<Tlv>) {
    forall i :: 0 <= i < |ts| ==> ts[i] in us
  }

  lemma SameLast(ts: seq<Tlv>, us: seq<Tlv>)
    requires AllFit(ts) && DistinctTypes(ts) && DistinctTypes(us) && multiset(ts) == multiset(us)
    ensures AllFit(us) && Last(ts) == Last(us)
  {
    hide Fits;
    SameElements(ts, us);
    SameElements(us, ts);
    forall j | 0 <= j < |us| ensures Fits(us[j].ty, |us[j].value|) {
      assert us[j] in ts;
    }
    LastWithin(ts, us);
    LastWithin(us, ts);
  }

  lemma LastWithin(ts: seq<Tlv>, us: seq<Tlv>)
    requires AllFit(ts) && AllFit(us) && DistinctTypes(ts) && DistinctTypes(us) && Within(ts, us)
    ensures forall ty :: ty in Last(ts) ==> ty in Last(us) && Last(us)[ty] == Last(ts)[ty]
  {
    hide Fits;
    forall ty | ty in Last(ts) ensures ty in Last(us) && Last(us)[ty] == Last(ts)[ty] {
      var i := LastOccurs(ts, ty);
      assert ts[i] in us;
      var j :| 0 <= j < |us| && us[j] == ts[i];
      LastOfDistinct(ts, i);
      LastOfDistinct(us, j);
    }
  }

  lemma SameElements(ts: seq<Tlv>, us: seq<Tlv>)
    requires multiset(ts) == multiset(us)
    ensures Within(ts, us)
  {
    forall i | 0 <= i < |ts| ensures ts[i] in us {
      assert ts[i] in multiset(us);
    }
  }

  function KnownOnly(ts: seq<Tlv>): seq<Tlv> {
    if ts == [] then [] else (if Known(ts[0].ty) then [ts[0]] else []) + KnownOnly(ts[1..])
  }

  lemma UnknownStep(p: Progress, t: Tlv)
    requires !Known(t.ty)
    ensures Step(p, t) == Ok(p)
  {
  }

  lemma {:induction false} FoldSkipsUnknown(p: Progress, ts: seq<Tlv>)
    ensures FoldTlvs(p, KnownOnly(ts)) == FoldTlvs(p, ts)
    ensures Encodable(ts) ==> Encodable(KnownOnly(ts))
    decreases |ts|
  {
    hide Step, Known;
    if ts != [] {
      var rest := KnownOnly(ts[1..]);
      if Known(ts[0].ty) {
        assert ([ts[0]] + rest)[1..] == rest;
        match Step(p, ts[0])
        case Err(_) => FoldSkipsUnknown(p, ts[1..]);
        case Ok(q) => FoldSkipsUnknown(q, ts[1..]);
      } else {
        UnknownStep(p, ts[0]);
        assert [] + rest == rest;
        FoldSkipsUnknown(p, ts[1..]);
      }
    }
  }

  /** Fields of unknown type, wherever they stand, change neither the record nor the
      error: a payload decodes as if they were not there. */
  lemma UnknownFieldsAreInvisible(ts: seq<Tlv>)
    requires Encodable(ts)
    ensures Decode(Encode(ts)) == Decode(Encode(KnownOnly(ts)))
  {
    FoldSkipsUnknown(START, ts);
    FoldOfEncoded(START, ts);
    FoldOfEncoded(START, KnownOnly(ts));
  }

  /** The fields of every type but `ty`. */
  function Without(ts: seq<Tlv>, ty: u8): seq<Tlv> {
    if ts == [] then []
    else
      var n := |ts| - 1;
      Without(ts[..n], ty) + if ts[n].ty == ty then [] else [ts[n]]
  }

  lemma LastAppend(ts: seq<Tlv>, t: Tlv)
    requires AllFit(ts) && Fits(t.ty, |t.value|)
    ensures AllFit(ts + [t]) && Last(ts + [t]) == Last(ts)[t.ty := t.value]
  {
    hide Fits;
    assert (ts + [t])[..|ts|] == ts;
  }

  lemma UpdateWithout(m: Values, ty: u8, t: Tlv)
    ensures m[t.ty := t.value] - {ty} == if t.ty == ty then m - {ty} else (m - {ty})[t.ty := t.value]
  {
  }

  lemma WithoutAppend(ts: seq<Tlv>, ty: u8, t: Tlv)
    ensures Without(ts + [t], ty) == if t.ty == ty then Without(ts, ty) else Without(ts, ty) + [t]
  {
    assert (ts + [t])[..|ts|] == ts && Without(ts, ty) + [] == Without(ts, ty);
  }

  lemma {:induction false} LastWithout(ts: seq<Tlv>, ty: u8)
    requires AllFit(ts)
    ensures AllFit(Without(ts, ty)) && Last(Without(ts, ty)) == Last(ts) - {ty}
  {
    if ts != [] {
      var n := |ts| - 1;
      var before, t := ts[..n], ts[n];
      assert AllFit(before) && Fits(t.ty, |t.value|);
      assert ts == before + [t];
      hide Last, Without, AllFit, Fits;
      LastWithout(before, ty);
      WithoutAppend(before, ty, t);
      LastAppend(before, t);
      UpdateWithout(Last(before), ty, t);
      if t.ty != ty { LastAppend(Without(before, ty), t); }
    }
  }

  lemma {:induction false} WithoutIsEncodable(ts: seq<Tlv>, ty: u8)
    requires Encodable(ts)
    ensures Encodable(Without(ts, ty))
  {
    if ts != [] { WithoutIsEncodable(ts[..|ts| - 1], ty); }
  }

  /** Leaving the BW_ANTSEL fields out of a payload changes nothing exactly when it is
      refused anyway, or the last of them holds the bits of its RNF. */
  lemma BwAntselIsRedundantIff(ts: seq<Tlv>)
    requires Encodable(ts) && AllFit(ts) && T_BW_ANTSEL in Last(ts)
    ensures var m := Last(ts);
      Decode(Encode(Without(ts, T_BW_ANTSEL))) == Decode(Encode(ts)) <==>
        || SeenIn(m) != {T_FTM, T_NRX, T_NTX, T_NTONE}
        || DecodeBwAntsel(Number(m, T_RNF)) == Some(BwAntsel(m[T_BW_ANTSEL][0], m[T_BW_ANTSEL][1]))
  {
    hide Encode, Decode, Encodable, AllFit, Last, FinishValues, Number, DecodeBwAntsel, SeenIn, Without;
    LastWithout(ts, T_BW_ANTSEL);
    WithoutIsEncodable(ts, T_BW_ANTSEL);
    DecodeIsLookup(ts);
    DecodeIsLookup(Without(ts, T_BW_ANTSEL));
    BwOfValues(Last(ts));
  }

  lemma BwOfValues(m: Values)
    requires T_BW_ANTSEL in m
    ensures FinishValues(m - {T_BW_ANTSEL}) == FinishValues(m) <==>
      || SeenIn(m) != {T_FTM, T_NRX, T_NTX, T_NTONE}
      || DecodeBwAntsel(Number(m, T_RNF)) == Some(BwAntsel(m[T_BW_ANTSEL][0], m[T_BW_ANTSEL][1]))
  {
    hide FromLe, FromLeSigned, Words, DecodeBwAntsel;
    var n: Values := m - {T_BW_ANTSEL};
    assert SeenIn(n) == SeenIn(m);
    BuildWithoutBw(m);
    hide Build, SeenIn;
    if SeenIn(m) == {T_FTM, T_NRX, T_NTX, T_NTONE} {
      assert FinishValues(n) == Ok(Build(n).(rate := Completed(Build(n).rate)));
    }
  }

  lemma BuildWithoutBw(m: Values)
    requires T_BW_ANTSEL in m
    ensures Build(m - {T_BW_ANTSEL}) == Build(m).(rate := Build(m).rate.(bw := None))
    ensures Build(m).rate.bw == Some(BwAntsel(m[T_BW_ANTSEL][0], m[T_BW_ANTSEL][1]))
    ensures Build(m).rate.rnf == Number(m, T_RNF)
  {
    hide FromLe, FromLeSigned, Words;
    var n: Values := m - {T_BW_ANTSEL};
    OthersAgree(m, n);
    assert BuildLabel(n) == BuildLabel(m).(bw := None);
    hide BuildClocks, BuildOrigin, BuildCsi, BuildNode, BuildLabel;
  }

  lemma OthersAgree(m: Values, n: Values)
    requires n == m - {T_BW_ANTSEL}
    ensures BuildClocks(n) == BuildClocks(m) && BuildOrigin(n) == BuildOrigin(m)
    ensures BuildCsi(n) == BuildCsi(m) && BuildNode(n) == BuildNode(m)
  {
    hide FromLe, FromLeSigned, Words;
    assert BuildClocks(n) == BuildClocks(m) by { hide BuildOrigin, BuildCsi, BuildNode; }
    assert BuildOrigin(n) == BuildOrigin(m) by { hide BuildClocks, BuildCsi, BuildNode; }
    assert BuildCsi(n) == BuildCsi(m) by { hide BuildOrigin, BuildClocks, BuildNode; }
    assert BuildNode(n) == BuildNode(m) by { hide BuildOrigin, BuildCsi, BuildClocks; }
  }
}
