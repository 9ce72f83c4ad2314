/**
 Sealing one capture segment: sidecar `capturing`, export of the container, sidecar
 `complete`, with a power cut allowed after every file operation. The sync job ships a
 directory whose `metadata.json` says `complete`, so that word must never be ahead of
 the files it describes.
 */
module Sealing {
  import opened Prelude
  import opened Disk
  import S = Summaries

  const META: Name := "metadata.json"
  const META_TMP: Name := "metadata.json.tmp"
  const CSIQ: Name := "capture.csiq.zst"

  datatype Status = Capturing | Complete

  datatype Summary = Summary(counts: S.Seal, ble: Option<nat>)

  /** The fields of the sidecar that sealing sets; times in seconds. */
  datatype Sidecar = Sidecar(
    segment: nat, startedAt: nat, endedAt: Option<nat>, status: Status, summary: Option<Summary>)

  /** What a file of the segment directory may contain. */
  datatype Doc =
    | Torn
    | Meta(sidecar: Sidecar)
    | Container(session: Option<Sidecar>, records: seq<S.Rec>)

  // -- export ----------------------------------------------------------------------------

  /** Copy every record before the first unreadable one. Writing goes to a buffer, whose
      failures show when the container is filled. */
  method Drain(raw: seq<S.Item>) returns (n: nat, out: seq<S.Rec>)
    ensures out == S.Readable(raw) && n == |out|
  {
    n, out := 0, [];
    while n < |raw| && raw[n].Good?
      invariant n <= |S.Readable(raw)| && out == S.Readable(raw)[..n]
    {
      out := out + [raw[n].rec];
      n := n + 1;
    }
  }

  /** All that a cut could leave under `CSIQ` is the container `c`. */
  ghost predicate Durable(t: Dir<Doc>, c: Doc) {
    forall e :: e in t.History(CSIQ) ==> Holds(t, e, c)
  }

  /** Export `raw` into the container and make it durable: fill it, fsync it, fsync the
      directory. */
  method Convert(volume: Volume<Doc>, raw: seq<S.Item>, opens: bool, session: Option<Sidecar>) returns (ok: bool)
    requires volume.now.Wf() && Private(volume.now, CSIQ)
    modifies volume
    ensures Beside(old(volume.now), CSIQ, volume.now)
    ensures ok ==> Durable(volume.now, Container(session, S.Readable(raw)))
    ensures volume.faults >= old(volume.faults)
    ensures ok <==> opens && volume.faults == old(volume.faults)
    ensures old(volume.trail) <= volume.trail
    ensures forall i :: |old(volume.trail)| <= i < |volume.trail| ==> Beside(old(volume.now), CSIQ, volume.trail[i])
  {
    hide Beside, Holds, Durable;
    ghost var s := volume.now;
    BesideStarts(s, CSIQ);
    if !opens { return false; }
    var n, out := Drain(raw);
    var c := Container(session, out);
    ok := FillInPlace(volume, CSIQ, Torn, c);
    if !ok { return; }
    DirSyncIsDurable(s, volume.now, c);
    ok := volume.FsyncDir();
  }

  lemma DirSyncIsDurable(s: Dir<Doc>, t: Dir<Doc>, c: Doc)
    requires Beside(s, CSIQ, t) && Holds(t, t.Live(CSIQ), c)
    ensures Beside(s, CSIQ, t.FsyncDir()) && Durable(t.FsyncDir(), c)
  {
    DirSyncStaysBeside(s, CSIQ, t, c);
  }

  // -- what a sealed directory may show -----------------------------------------------------

  /** A `metadata.json` that may be read: `capturing`, or the finalised sidecar over a
      container that is durable unless its export was not asked for or returned an error. */
  ghost predicate Honest(t: Dir<Doc>, d: Doc, final: Sidecar, excused: bool, c: Doc) {
    && d.Meta?
    && (d.sidecar.status.Capturing? || (d.sidecar == final && (excused || Durable(t, c))))
  }

  ghost predicate Safe(t: Dir<Doc>, final: Sidecar, excused: bool, c: Doc) {
    forall e :: e in t.History(META) && e.Some? ==>
      && e.value < |t.files| && t.files[e.value].synced
      && Honest(t, t.files[e.value].data, final, excused, c)
  }

  /** After a cut at a safe state, `metadata.json` is absent or a whole document; if it
      says `complete` it is the finalised sidecar, and the container reads back as
      exported unless the export is excused. */
  lemma CutLeavesHonestFiles(t: Dir<Doc>, u: Dir<Doc>, final: Sidecar, excused: bool, c: Doc)
    requires Safe(t, final, excused, c) && CrashOf(t, u)
    ensures u.Live(META).Some? ==>
      && u.Read(META).Some? && u.Read(META).value.Meta?
      && (u.Read(META).value.sidecar.status.Complete? ==>
            u.Read(META).value.sidecar == final && (excused || u.Read(CSIQ) == Some(c)))
  {
    assert u.History(META) == [u.Live(META)] && u.Live(META) in t.History(META);
    assert u.History(CSIQ) == [u.Live(CSIQ)] && u.Live(CSIQ) in t.History(CSIQ);
  }

  /** No `metadata.json` that a cut may leave says more than `capturing`. */
  ghost predicate OnlyCapturing(t: Dir<Doc>) {
    forall e :: e in t.History(META) && e.Some? ==>
      && e.value < |t.files| && t.files[e.value].synced
      && t.files[e.value].data.Meta? && t.files[e.value].data.sidecar.status.Capturing?
  }

  lemma CapturingIsSafe(t: Dir<Doc>, final: Sidecar, excused: bool, c: Doc)
    requires OnlyCapturing(t)
    ensures Safe(t, final, excused, c)
  {
  }

  lemma FirstWriteIsCapturing(s: Dir<Doc>, sc: Sidecar, t: Dir<Doc>)
    requires OnlyCapturing(s) && sc.status.Capturing?
    requires Replacing(s, META_TMP, META, Meta(sc), t)
    ensures OnlyCapturing(t)
  {
    forall e | e in t.History(META) && e.Some?
      ensures e.value < |t.files| && t.files[e.value].synced
      ensures t.files[e.value].data.Meta? && t.files[e.value].data.sidecar.status.Capturing?
    {
      assert Kept(s, t, META, e) || Holds(t, e, Meta(sc));
    }
  }

  lemma ExportIsCapturing(s: Dir<Doc>, t: Dir<Doc>)
    requires OnlyCapturing(s) && Beside(s, CSIQ, t)
    ensures OnlyCapturing(t)
  {
    forall e | e in t.History(META) && e.Some?
      ensures e.value < |t.files| && t.files[e.value].synced
      ensures t.files[e.value].data.Meta? && t.files[e.value].data.sidecar.status.Capturing?
    {
      assert Kept(s, t, META, e);
    }
  }

  lemma LastWriteIsSafe(s: Dir<Doc>, t: Dir<Doc>, final: Sidecar, excused: bool, c: Doc)
    requires Safe(s, final, excused, c) && (excused || Durable(s, c))
    requires Replacing(s, META_TMP, META, Meta(final), t)
    ensures Safe(t, final, excused, c)
  {
    if !excused {
      forall e | e in t.History(CSIQ) ensures Holds(t, e, c) {
        assert Kept(s, t, CSIQ, e);
      }
    }
    forall e | e in t.History(META) && e.Some?
      ensures e.value < |t.files| && t.files[e.value].synced && Honest(t, t.files[e.value].data, final, excused, c)
    {
      assert Kept(s, t, META, e) || Holds(t, e, Meta(final));
    }
  }

  // -- sealing ---------------------------------------------------------------------------------

  /** `Sidecar::write`: atomic and durable replacement. */
  method WriteSidecar(volume: Volume<Doc>, sc: Sidecar, serialises: bool) returns (ok: bool)
    requires volume.now.Wf() && Private(volume.now, META_TMP)
    modifies volume
    ensures Replacing(old(volume.now), META_TMP, META, Meta(sc), volume.now)
    ensures ok ==> Replaced(old(volume.now), META_TMP, META, Meta(sc), volume.now)
    ensures volume.faults >= old(volume.faults)
    ensures ok <==> serialises && volume.faults == old(volume.faults)
    ensures old(volume.trail) <= volume.trail
    ensures forall i :: |old(volume.trail)| <= i < |volume.trail| ==>
      Replacing(old(volume.now), META_TMP, META, Meta(sc), volume.trail[i])
  {
    ReplacingStarts(volume.now, META_TMP, META, Meta(sc));
    if !serialises { return false; }
    ok := ReplaceFile(volume, META_TMP, META, Torn, Meta(sc), false);
  }

  /** The sidecar while sealing, and as it is finalised: one value, one `ended_at`. */
  function Template(segment: nat, sessionStart: nat): Sidecar {
    Sidecar(segment, sessionStart, None, Capturing, None)
  }

  function Finalise(sc: Sidecar, stats: S.SegmentStats, ble: Option<nat>, now: nat): Sidecar {
    sc.(startedAt := if stats.firstTs != 0 then stats.firstTs / NS_PER_S else sc.startedAt,
        endedAt := Some(now), status := Complete, summary := Some(Summary(stats.seal, ble)))
  }

  /** A segment directory the sealer can start on: it has no finished sidecar yet, and its
      temp file and container are nobody else's. */
  ghost predicate Fresh(t: Dir<Doc>) {
    t.Wf() && Private(t, META_TMP) && Private(t, CSIQ) && OnlyCapturing(t)
  }

  lemma ReplacingKeepsFresh(s: Dir<Doc>, sc: Sidecar, t: Dir<Doc>)
    requires Fresh(s) && sc.status.Capturing? && Replacing(s, META_TMP, META, Meta(sc), t)
    ensures Fresh(t)
  {
    FirstWriteIsCapturing(s, sc, t);
  }

  lemma BesideKeepsFresh(s: Dir<Doc>, t: Dir<Doc>)
    requires Fresh(s) && Beside(s, CSIQ, t)
    ensures Fresh(t)
  {
    ExportIsCapturing(s, t);
  }

  /** Mark the directory `capturing`. */
  method Begin(volume: Volume<Doc>, sc: Sidecar, serialises: bool) returns (ok: bool)
    requires Fresh(volume.now) && sc.status.Capturing?
    modifies volume
    ensures old(volume.trail) <= volume.trail
    ensures Fresh(volume.now)
    ensures volume.faults >= old(volume.faults) && (ok <==> serialises && volume.faults == old(volume.faults))
    ensures forall i :: |old(volume.trail)| <= i < |volume.trail| ==> Fresh(volume.trail[i])
  {
    ghost var s := volume.now;
    ok := WriteSidecar(volume, sc, serialises);
    hide Fresh, Replacing, Replaced;
    ReplacingKeepsFresh(s, sc, volume.now);
    forall i | |old(volume.trail)| <= i < |volume.trail| ensures Fresh(volume.trail[i]) {
      ReplacingKeepsFresh(s, sc, volume.trail[i]);
    }
  }

  /** Export the container while the sidecar on disk still says `capturing`. */
  method Export(volume: Volume<Doc>, raw: seq<S.Item>, opens: bool, session: Option<Sidecar>) returns (ok: bool)
    requires Fresh(volume.now)
    modifies volume
    ensures old(volume.trail) <= volume.trail
    ensures Fresh(volume.now)
    ensures ok ==> Durable(volume.now, Container(session, S.Readable(raw)))
    ensures volume.faults >= old(volume.faults)
    ensures ok <==> opens && volume.faults == old(volume.faults)
    ensures forall i :: |old(volume.trail)| <= i < |volume.trail| ==> Fresh(volume.trail[i])
  {
    ghost var s := volume.now;
    ok := Convert(volume, raw, opens, session);
    hide Fresh, Beside, Durable;
    BesideKeepsFresh(s, volume.now);
    forall i | |old(volume.trail)| <= i < |volume.trail| ensures Fresh(volume.trail[i]) {
      BesideKeepsFresh(s, volume.trail[i]);
    }
  }

  /** Write the finalised sidecar; a failure is logged and changes nothing else. */
  method Persist(volume: Volume<Doc>, final: Sidecar, serialises: bool, ghost excused: bool, ghost c: Doc)
    requires Fresh(volume.now) && (excused || Durable(volume.now, c))
    modifies volume
    ensures old(volume.trail) <= volume.trail
    ensures volume.faults >= old(volume.faults)
    ensures serialises && volume.faults == old(volume.faults) ==> Says(volume.now, final)
    ensures forall i :: |old(volume.trail)| <= i < |volume.trail| ==> Safe(volume.trail[i], final, excused, c)
  {
    ghost var s := volume.now;
    CapturingIsSafe(s, final, excused, c);
    var _ := WriteSidecar(volume, final, serialises);
    hide Fresh, Safe, Durable, Replacing, Replaced;
    forall i | |old(volume.trail)| <= i < |volume.trail| ensures Safe(volume.trail[i], final, excused, c) {
      LastWriteIsSafe(s, volume.trail[i], final, excused, c);
    }
  }

  /** `metadata.json` is `sc`, and would be after a cut. */
  ghost predicate Says(t: Dir<Doc>, sc: Sidecar) {
    t.History(META) == [t.Live(META)] && Holds(t, t.Live(META), Meta(sc))
  }

  lemma FreshIsSafe(t: Dir<Doc>, final: Sidecar, excused: bool, c: Doc)
    requires Fresh(t)
    ensures Safe(t, final, excused, c)
  {
    CapturingIsSafe(t, final, excused, c);
  }

  /** What decides the calls beside the segment directory: whether the raw file opens for
      each of its two readers, and whether the sidecar serialises each of the three times. */
  datatype Luck = Luck(opensForSummary: bool, opensForExport: bool,
                       firstSerialises: bool, blockSerialises: bool, lastSerialises: bool)

  /** When a sealed segment says it started: at its own first stamp in whole seconds, or
      with the session if no readable record carries one. */
  ghost predicate StartsAt(recs: seq<S.Rec>, sessionStart: nat, startedAt: nat) {
    && (forall i: nat, ts: u64 :: S.FirstStamp(recs, i, ts) && ts != 0 ==> startedAt == ts / 1_000_000_000)
    && ((forall i :: 0 <= i < |recs| ==> recs[i].ts == 0) ==> startedAt == sessionStart)
  }

  lemma StartIsOwn(recs: seq<S.Rec>, sc: Sidecar, stats: S.SegmentStats, ble: Option<nat>, now: nat)
    requires S.Bounds(recs, stats.firstTs, stats.lastTs)
    ensures StartsAt(recs, sc.startedAt, Finalise(sc, stats, ble, now).startedAt)
  {
    forall i: nat, ts: u64 | S.FirstStamp(recs, i, ts) && ts != 0 ensures ts == stats.firstTs {
      assert recs[i].ts != 0;
      var k, j :| S.FirstStamp(recs, k, stats.firstTs) && S.LastStamp(recs, j, stats.lastTs);
      assert k == i;
    }
  }

  /**
   Seal one segment. `embedded` is the session block that went into the container, and
   `excused` says that no container was asked for or that its export returned an error,
   which takes a raw file that does not open or a failed operation on the volume.
   */
  method SealOne(volume: Volume<Doc>, segment: nat, sessionStart: nat, raw: seq<S.Item>, exportOnClose: bool,
                 ble: Option<nat>, now: nat, luck: Luck)
    returns (r: Result<nat, ()>, final: Sidecar, ghost embedded: Option<Sidecar>, ghost excused: bool)
    requires Fresh(volume.now)
    modifies volume
    ensures old(volume.trail) <= volume.trail
    ensures forall i :: |old(volume.trail)| <= i < |volume.trail| ==>
      Safe(volume.trail[i], final, excused, Container(embedded, S.Readable(raw)))
    ensures r.Ok? && exportOnClose ==> embedded == (if luck.blockSerialises then Some(final) else None)
    ensures r.Ok? && excused ==>
      !exportOnClose || !luck.opensForExport || volume.faults > old(volume.faults)
    ensures r.Err? ==> !luck.firstSerialises || volume.faults > old(volume.faults)
    ensures luck.firstSerialises && volume.faults == old(volume.faults) ==>
      r.Ok? && (luck.lastSerialises ==> Says(volume.now, final))
    ensures r.Ok? ==>
      && final.status == Complete && final.endedAt == Some(now) && final.summary.Some?
      && final.segment == segment && final.summary.value.ble == ble
      && (if luck.opensForSummary then StartsAt(S.Readable(raw), sessionStart, final.startedAt)
          else final.startedAt == sessionStart)
      && r.value == final.summary.value.counts.records
      && (luck.opensForSummary ==> S.SealOf(S.Readable(raw), final.summary.value.counts))
      && (r.value == |S.Readable(raw)| <==> luck.opensForSummary || S.Readable(raw) == [])
  {
    hide Fresh, Safe, Durable, Says, StartsAt;
    ghost var n0 := |volume.trail|;
    final, embedded, excused := Template(segment, sessionStart), None, true;
    var ok := Begin(volume, final, luck.firstSerialises);
    if ok {
      var stats := S.SummarizeSegment(if luck.opensForSummary then Some(raw) else None);
      if luck.opensForSummary { StartIsOwn(S.Readable(raw), final, stats, ble, now); }
      final := Finalise(final, stats, ble, now);
      if exportOnClose {
        var session := if luck.blockSerialises then Some(final) else None;
        var exported := Export(volume, raw, luck.opensForExport, session);
        embedded, excused := session, !exported;
      }
      r := Ok(stats.seal.records);
    } else {
      r := Err(());
    }
    ghost var n1 := |volume.trail|;
    ghost var c := Container(embedded, S.Readable(raw));
    forall i | n0 <= i < n1 ensures Safe(volume.trail[i], final, excused, c) {
      FreshIsSafe(volume.trail[i], final, excused, c);
    }
    if ok { Persist(volume, final, luck.lastSerialises, excused, c); }
  }
}
