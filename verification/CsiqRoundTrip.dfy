/**
 Writing a CSIQ record and reading it back: the fields a record carries, one value per
 type, decode to that record in whatever order they are written.
 */
module CsiqRoundTrip {
  import opened Prelude
  import opened Bytes
  import opened Csiq

  // -- the value each field carries, by its type on the wire ------------------------------------

  function ClockValue(c: Clocks, ty: u8): Option<seq<u8>> {
    if ty == 0x01 then Some(Le(4, c.ftm))
    else if ty == 0x02 then Some(Le(4, c.us))
    else if ty == 0x03 then Some(Le(8, c.unixTsNs))
    else if ty == 0x12 && c.monoUs.Some? then Some(Le(8, c.monoUs.value))
    else None
  }

  function LabelValue(l: Label, ty: u8): Option<seq<u8>> {
    if ty == 0x04 then Some(Le(4, l.rnf))
    else if ty == 0x05 && l.phy.Some? then Some([l.phy.value.modulation, l.phy.value.mcs, l.phy.value.nss])
    else if ty == 0x0B then Some(Le(2, l.width))
    else if ty == 0x11 && l.bw.Some? then Some([l.bw.value.bandwidth, l.bw.value.antenna])
    else None
  }

  function OriginValue(o: Origin, ty: u8): Option<seq<u8>>
    requires o.seqNo < TWO_8
  {
    if ty == 0x0D then Some([o.seqNo])
    else if ty == 0x09 then Some(o.srcMac)
    else if ty == 0x0A then Some(Le(4, o.channel))
    else if ty == 0x14 then o.vendorHdr
    else None
  }

  function CsiValue(c: Csi, ty: u8): Option<seq<u8>>
    requires c.nrx < TWO_8 && c.ntx < TWO_8 && I16(c.rssi) && I16(c.iq)
  {
    if ty == 0x06 then Some([c.nrx])
    else if ty == 0x07 then Some([c.ntx])
    else if ty == 0x08 then Some(Le(2, c.ntone))
    else if ty == 0x0C then Some(LeWords(c.rssi))
    else if ty == 0x10 then Some(LeWords(c.iq))
    else None
  }

  predicate Signed32(o: Option<int>) { o.Some? ==> FitsSigned(4, o.value) }

  predicate Below(o: Option<nat>, bound: nat) { o.Some? ==> o.value < bound }

  function NodeValue(n: NodeState, ty: u8): Option<seq<u8>>
    requires Signed32(n.tempMc) && Signed32(n.nicTempC)
  {
    if ty == 0x40 && n.tempMc.Some? then Some(LeSigned(4, n.tempMc.value))
    else if ty == 0x41 && n.throttle.Some? then Some(Le(4, n.throttle.value))
    else if ty == 0x42 && n.spoolFree.Some? then Some(Le(8, n.spoolFree.value))
    else if ty == 0x43 && n.loadM.Some? then Some(Le(4, n.loadM.value))
    else if ty == 0x44 && n.nicTempC.Some? then Some(LeSigned(4, n.nicTempC.value))
    else None
  }

  // -- records the format can hold ----------------------------------------------------------------

  predicate ClocksFit(c: Clocks) {
    c.ftm < TWO_32 && c.us < TWO_32 && c.unixTsNs < TWO_64 && Below(c.monoUs, TWO_64)
  }

  predicate LabelFits(l: Label) { l.rnf < TWO_32 && l.width < TWO_16 }

  predicate OriginFits(o: Origin) {
    && o.seqNo < TWO_8 && |o.srcMac| < TWO_32 && o.channel < TWO_32
    && (o.vendorHdr.Some? ==> |o.vendorHdr.value| < TWO_32)
  }

  predicate CsiFits(c: Csi) {
    && c.nrx < TWO_8 && c.ntx < TWO_8 && c.ntone < TWO_16
    && I16(c.rssi) && I16(c.iq) && 2 * |c.rssi| < TWO_32 && 2 * |c.iq| < TWO_32
  }

  predicate NodeFits(n: NodeState) {
    && Signed32(n.tempMc) && Signed32(n.nicTempC)
    && Below(n.throttle, TWO_32) && Below(n.spoolFree, TWO_64) && Below(n.loadM, TWO_32)
  }

  predicate Holdable(r: Rec) {
    ClocksFit(r.clocks) && LabelFits(r.rate) && OriginFits(r.origin) && CsiFits(r.csi) && NodeFits(r.node)
  }

  function FieldValue(r: Rec, ty: u8): Option<seq<u8>>
    requires Holdable(r)
  {
    if ClockValue(r.clocks, ty).Some? then ClockValue(r.clocks, ty)
    else if LabelValue(r.rate, ty).Some? then LabelValue(r.rate, ty)
    else if OriginValue(r.origin, ty).Some? then OriginValue(r.origin, ty)
    else if CsiValue(r.csi, ty).Some? then CsiValue(r.csi, ty)
    else NodeValue(r.node, ty)
  }

  /** The fields of `r` with a type below `n`, by type. */
  function FieldsBelow(r: Rec, n: nat): seq<Tlv>
    requires Holdable(r) && n <= TWO_8
  {
    if n == 0 then []
    else
      FieldsBelow(r, n - 1)
      + match FieldValue(r, n - 1) case None => [] case Some(v) => [Tlv(n - 1, v)]
  }

  function Fields(r: Rec): seq<Tlv>
    requires Holdable(r)
  {
    FieldsBelow(r, TWO_8)
  }

  // -- the fields read back ----------------------------------------------------------------------------

  predicate Holds(m: Values, ty: u8, v: Option<seq<u8>>) {
    match v
    case None => ty !in m
    case Some(b) => ty in m && m[ty] == b
  }

  lemma ValueFits(r: Rec, ty: u8)
    requires Holdable(r) && FieldValue(r, ty).Some?
    ensures Fits(ty, |FieldValue(r, ty).value|) && |FieldValue(r, ty).value| < TWO_32
  {
    hide Le, LeSigned, LeWords, I16;
    if ClockValue(r.clocks, ty).Some? {
      hide LabelValue, OriginValue, CsiValue, NodeValue;
    } else if LabelValue(r.rate, ty).Some? {
      hide ClockValue, OriginValue, CsiValue, NodeValue;
    } else if OriginValue(r.origin, ty).Some? {
      hide LabelValue, ClockValue, CsiValue, NodeValue;
    } else if CsiValue(r.csi, ty).Some? {
      hide LabelValue, OriginValue, ClockValue, NodeValue;
    } else {
      hide LabelValue, OriginValue, CsiValue, ClockValue;
    }
  }

  /** `m` holds the values that `r` carries in types below `n`, and no others. */
  ghost predicate HoldsBelow(m: Values, r: Rec, n: nat)
    requires Holdable(r)
  {
    forall ty: u8 :: if ty < n then Holds(m, ty, FieldValue(r, ty)) else ty !in m
  }

  ghost predicate Ascending(ts: seq<Tlv>, n: nat) {
    DistinctTypes(ts) && forall i :: 0 <= i < |ts| ==> ts[i].ty < n
  }

  lemma AppendField(ts: seq<Tlv>, t: Tlv)
    requires AllFit(ts) && Encodable(ts) && Ascending(ts, t.ty)
    requires Fits(t.ty, |t.value|) && |t.value| < TWO_32
    ensures var us := ts + [t];
      AllFit(us) && Encodable(us) && Ascending(us, t.ty + 1) && Last(us) == Last(ts)[t.ty := t.value]
  {
    hide Fits;
    var us := ts + [t];
    assert us[..|us| - 1] == ts;
    assert AllFit(us);
  }

  ghost predicate Written(ts: seq<Tlv>, r: Rec, n: nat)
    requires Holdable(r)
  {
    AllFit(ts) && Encodable(ts) && Ascending(ts, n) && HoldsBelow(Last(ts), r, n)
  }

  lemma SkipStep(ts: seq<Tlv>, r: Rec, n: nat)
    requires Holdable(r) && 0 < n <= TWO_8 && Written(ts, r, n - 1) && FieldValue(r, n - 1).None?
    ensures Written(ts, r, n)
  {
    HeldStep(Last(ts), r, n);
    hide Holdable, FieldValue, Fits, HoldsBelow, AllFit, Encodable, Last;
  }

  lemma FieldStep(ts: seq<Tlv>, r: Rec, n: nat)
    requires Holdable(r) && 0 < n <= TWO_8 && Written(ts, r, n - 1) && FieldValue(r, n - 1).Some?
    ensures Written(ts + [Tlv(n - 1, FieldValue(r, n - 1).value)], r, n)
  {
    hide Holdable, FieldValue, Fits, HoldsBelow, AllFit, Encodable, Ascending, Last;
    HeldStep(Last(ts), r, n);
    ValueFits(r, n - 1);
    AppendField(ts, Tlv(n - 1, FieldValue(r, n - 1).value));
  }

  lemma {:induction false} FieldsAreWritten(r: Rec, n: nat)
    requires Holdable(r) && n <= TWO_8
    ensures Written(FieldsBelow(r, n), r, n)
  {
    hide Holdable, FieldValue;
    if n == 0 {
      assert FieldsBelow(r, n) == [] && Last([]) == map[];
      NothingHeld(r);
    } else {
      hide Written;
      FieldsAreWritten(r, n - 1);
      var ts := FieldsBelow(r, n - 1);
      if FieldValue(r, n - 1).None? {
        SkipStep(ts, r, n);
        assert ts + [] == ts;
      } else {
        FieldStep(ts, r, n);
      }
    }
  }

  lemma NothingHeld(r: Rec)
    requires Holdable(r)
    ensures HoldsBelow(map[], r, 0)
  {
  }

  lemma HeldStep(m: Values, r: Rec, n: nat)
    requires Holdable(r) && 0 < n <= TWO_8 && HoldsBelow(m, r, n - 1)
    ensures FieldValue(r, n - 1).None? ==> HoldsBelow(m, r, n)
    ensures FieldValue(r, n - 1).Some? && Fits(n - 1, |FieldValue(r, n - 1).value|) ==>
      HoldsBelow(m[n - 1 := FieldValue(r, n - 1).value], r, n)
  {
    hide Holdable, FieldValue, Fits;
  }

  lemma ClocksBack(m: Values, c: Clocks)
    requires ClocksFit(c)
    requires Holds(m, T_FTM, ClockValue(c, T_FTM)) && Holds(m, T_US, ClockValue(c, T_US))
    requires Holds(m, T_UNIX_TS_NS, ClockValue(c, T_UNIX_TS_NS)) && Holds(m, T_MONO_US, ClockValue(c, T_MONO_US))
    ensures BuildClocks(m) == c
  {
    hide FromLe, Le;
    Powers();
    FromLeOfLe(4, c.ftm);
    FromLeOfLe(4, c.us);
    FromLeOfLe(8, c.unixTsNs);
    if c.monoUs.Some? { FromLeOfLe(8, c.monoUs.value); }
  }

  lemma LabelBack(m: Values, l: Label)
    requires LabelFits(l)
    requires Holds(m, T_RNF, LabelValue(l, T_RNF)) && Holds(m, T_PHY, LabelValue(l, T_PHY))
    requires Holds(m, T_WIDTH, LabelValue(l, T_WIDTH)) && Holds(m, T_BW_ANTSEL, LabelValue(l, T_BW_ANTSEL))
    ensures BuildLabel(m) == l
  {
    hide FromLe, Le;
    Powers();
    FromLeOfLe(4, l.rnf);
    FromLeOfLe(2, l.width);
  }

  lemma OriginBack(m: Values, o: Origin)
    requires OriginFits(o)
    requires Holds(m, T_SEQ, OriginValue(o, T_SEQ)) && Holds(m, T_SRC_MAC, OriginValue(o, T_SRC_MAC))
    requires Holds(m, T_CHANNEL, OriginValue(o, T_CHANNEL)) && Holds(m, T_VENDOR_HDR, OriginValue(o, T_VENDOR_HDR))
    ensures BuildOrigin(m) == o
  {
    hide FromLe, Le;
    Powers();
    FromLeOfLe(4, o.channel);
  }

  lemma CsiBack(m: Values, c: Csi)
    requires CsiFits(c)
    requires Holds(m, T_NRX, CsiValue(c, T_NRX)) && Holds(m, T_NTX, CsiValue(c, T_NTX))
    requires Holds(m, T_NTONE, CsiValue(c, T_NTONE)) && Holds(m, T_RSSI, CsiValue(c, T_RSSI))
    requires Holds(m, T_CSI_MATRIX, CsiValue(c, T_CSI_MATRIX))
    ensures BuildCsi(m) == c
  {
    hide FromLe, Le, Words, LeWords, I16;
    Powers();
    FromLeOfLe(2, c.ntone);
    WordsOfLeWords(c.rssi);
    WordsOfLeWords(c.iq);
  }

  lemma NodeBack(m: Values, n: NodeState)
    requires NodeFits(n)
    requires Holds(m, T_NODE_TEMP_MC, NodeValue(n, T_NODE_TEMP_MC))
    requires Holds(m, T_NODE_THROTTLE, NodeValue(n, T_NODE_THROTTLE))
    requires Holds(m, T_NODE_SPOOL_FREE, NodeValue(n, T_NODE_SPOOL_FREE))
    requires Holds(m, T_NODE_LOAD_M, NodeValue(n, T_NODE_LOAD_M))
    requires Holds(m, T_NODE_NIC_TEMP_C, NodeValue(n, T_NODE_NIC_TEMP_C))
    ensures BuildNode(m) == n
  {
    hide FromLe, Le, LeSigned, FromLeSigned;
    Powers();
    if n.tempMc.Some? { SignedRoundTrip(4, n.tempMc.value); }
    if n.throttle.Some? { FromLeOfLe(4, n.throttle.value); }
    if n.spoolFree.Some? { FromLeOfLe(8, n.spoolFree.value); }
    if n.loadM.Some? { FromLeOfLe(4, n.loadM.value); }
    if n.nicTempC.Some? { SignedRoundTrip(4, n.nicTempC.value); }
  }

  /** Which group a known type belongs to. */
  lemma ValueByGroup(r: Rec, ty: u8)
    requires Holdable(r)
    ensures ty == T_FTM || ty == T_US || ty == T_UNIX_TS_NS || ty == T_MONO_US ==>
      FieldValue(r, ty) == ClockValue(r.clocks, ty)
    ensures ty == T_RNF || ty == T_PHY || ty == T_WIDTH || ty == T_BW_ANTSEL ==>
      FieldValue(r, ty) == LabelValue(r.rate, ty)
    ensures ty == T_SEQ || ty == T_SRC_MAC || ty == T_CHANNEL || ty == T_VENDOR_HDR ==>
      FieldValue(r, ty) == OriginValue(r.origin, ty)
    ensures ty == T_NRX || ty == T_NTX || ty == T_NTONE || ty == T_RSSI || ty == T_CSI_MATRIX ==>
      FieldValue(r, ty) == CsiValue(r.csi, ty)
    ensures T_NODE_TEMP_MC <= ty <= T_NODE_NIC_TEMP_C ==> FieldValue(r, ty) == NodeValue(r.node, ty)
  {
    hide Le, LeSigned, LeWords, I16;
  }

  lemma FieldsBack(r: Rec)
    requires Holdable(r)
    ensures AllFit(Fields(r)) && Build(Last(Fields(r))) == r
    ensures SeenIn(Last(Fields(r))) == {T_FTM, T_NRX, T_NTX, T_NTONE}
  {
    FieldsAreWritten(r, TWO_8);
    var m := Last(Fields(r));
    hide Last, Fields, FieldsBelow, AllFit, Ascending, Encodable;
    assert forall ty: u8 :: Holds(m, ty, FieldValue(r, ty));
    GroupsBack(r, m);
  }

  lemma GroupsBack(r: Rec, m: Values)
    requires Holdable(r) && forall ty: u8 :: Holds(m, ty, FieldValue(r, ty))
    ensures Build(m) == r && SeenIn(m) == {T_FTM, T_NRX, T_NTX, T_NTONE}
  {
    RequiredHeld(r, m);
    hide FieldValue, Fits, SeenIn, BuildClocks, BuildLabel, BuildOrigin, BuildCsi, BuildNode;
    hide Holds, ClockValue, LabelValue, OriginValue, CsiValue, NodeValue;
    forall ty: u8
      ensures ty == T_FTM || ty == T_US || ty == T_UNIX_TS_NS || ty == T_MONO_US ==>
        Holds(m, ty, ClockValue(r.clocks, ty))
      ensures ty == T_RNF || ty == T_PHY || ty == T_WIDTH || ty == T_BW_ANTSEL ==> Holds(m, ty, LabelValue(r.rate, ty))
      ensures ty == T_SEQ || ty == T_SRC_MAC || ty == T_CHANNEL || ty == T_VENDOR_HDR ==>
        Holds(m, ty, OriginValue(r.origin, ty))
      ensures ty == T_NRX || ty == T_NTX || ty == T_NTONE || ty == T_RSSI || ty == T_CSI_MATRIX ==>
        Holds(m, ty, CsiValue(r.csi, ty))
      ensures T_NODE_TEMP_MC <= ty <= T_NODE_NIC_TEMP_C ==> Holds(m, ty, NodeValue(r.node, ty))
    {
      ValueByGroup(r, ty);
    }
    ClocksBack(m, r.clocks);
    LabelBack(m, r.rate);
    OriginBack(m, r.origin);
    CsiBack(m, r.csi);
    NodeBack(m, r.node);
  }

  lemma RequiredHeld(r: Rec, m: Values)
    requires Holdable(r) && forall ty: u8 :: Holds(m, ty, FieldValue(r, ty))
    ensures SeenIn(m) == {T_FTM, T_NRX, T_NTX, T_NTONE}
  {
    hide Le, LeSigned, LeWords, I16, Fits;
    ValueByGroup(r, T_FTM);
    ValueByGroup(r, T_NRX);
    ValueByGroup(r, T_NTX);
    ValueByGroup(r, T_NTONE);
    hide FieldValue;
  }

  /** Writing a record's fields in any order and decoding them gives the record back; a
      record without BW_ANTSEL comes back with the one its RNF implies. */
  lemma RoundTrip(r: Rec, ts: seq<Tlv>)
    requires Holdable(r) && multiset(ts) == multiset(Fields(r))
    ensures Encodable(ts) && Decode(Encode(ts)) == Ok(r.(rate := Completed(r.rate)))
  {
    var us := Fields(r);
    FieldsAreWritten(r, TWO_8);
    FieldsBack(r);
    hide Build, SeenIn, Holdable, Last, Fields, FieldsBelow, AllFit, Holds;
    SameElements(ts, us);
    SameElements(us, ts);
    assert Encodable(ts);
    DistinctCarries(us, ts);
    DecodeIsLookup(us);
    FieldOrderIsIrrelevant(us, ts);
  }

  /** Reordering keeps types distinct. */
  lemma DistinctCarries(us: seq<Tlv>, ts: seq<Tlv>)
    requires DistinctTypes(us) && multiset(us) == multiset(ts)
    ensures DistinctTypes(ts)
  {
    forall i, j | 0 <= i < j < |ts| ensures ts[i].ty != ts[j].ty {
      if ts[i].ty == ts[j].ty {
        SameElements(ts, us);
        var k :| 0 <= k < |us| && us[k] == ts[i];
        var l :| 0 <= l < |us| && us[l] == ts[j];
        assert ts[i] == ts[j];
        Once(us, k);
        Twice(ts, i, j);
        assert false;
      }
    }
  }

  lemma Twice<T>(s: seq<T>, i: nat, j: nat)
    requires i < j < |s| && s[i] == s[j]
    ensures multiset(s)[s[i]] >= 2
  {
    assert s == s[..j] + s[j..];
    assert s[..j][i] == s[i] && s[j..][0] == s[j];
    assert s[i] in multiset(s[..j]) && s[i] in multiset(s[j..]);
  }

  lemma Once(us: seq<Tlv>, k: nat)
    requires DistinctTypes(us) && k < |us|
    ensures multiset(us)[us[k]] == 1
  {
    assert us == us[..k] + [us[k]] + us[k + 1..];
    assert us[k] !in us[..k] && us[k] !in us[k + 1..];
  }
}
