/**
 The background export of one BLE segment: the parquet in place, fsynced, then the seal
 `session.json` by temp file and rename. The directory itself is not fsynced, and it may
 hold the files of an earlier export.
 */
module BleSeal {
  import opened Prelude
  import opened Disk

  const PARQUET: Name := "ble_rssi.parquet"
  const SEAL: Name := "session.json"
  const SEAL_TMP: Name := "session.json.tmp"

  /** What a file of the directory may contain; a row is named by its stamp. */
  datatype Doc = Torn | Parquet(rows: seq<u64>) | Seal(observations: nat)

  // -- the steps ----------------------------------------------------------------------------

  function Created(s: Dir<Doc>): Dir<Doc> { s.Create(PARQUET, Torn) }

  function Wrote(s: Dir<Doc>, d: Doc): Dir<Doc> { Created(s).Write(PARQUET, d) }

  function ParquetDone(s: Dir<Doc>, rows: seq<u64>): Dir<Doc> { Wrote(s, Parquet(rows)).Fsync(PARQUET) }

  function SealCreated(p: Dir<Doc>): Dir<Doc> { p.Create(SEAL_TMP, Torn) }

  function SealWrote(p: Dir<Doc>, d: Doc): Dir<Doc> { SealCreated(p).Write(SEAL_TMP, d) }

  function SealFilled(p: Dir<Doc>, n: nat): Dir<Doc> { SealWrote(p, Seal(n)).Fsync(SEAL_TMP) }

  function Sealed(p: Dir<Doc>, n: nat): Dir<Doc> { SealFilled(p, n).Rename(SEAL_TMP, SEAL) }

  /** The directory after an export of `rows` in which nothing failed. */
  function ExportedInto(s: Dir<Doc>, rows: seq<u64>): Dir<Doc> { Sealed(ParquetDone(s, rows), |rows|) }

  /** A write under way, or one that failed, may have put anything into its file. */
  ghost predicate WritingParquet(s: Dir<Doc>, rows: seq<u64>, t: Dir<Doc>) {
    t == s || t == Created(s) || (exists d :: t == Wrote(s, d)) || t == ParquetDone(s, rows)
  }

  ghost predicate WritingSeal(p: Dir<Doc>, n: nat, t: Dir<Doc>) {
    t == p || t == SealCreated(p) || (exists d :: t == SealWrote(p, d)) || t == SealFilled(p, n) || t == Sealed(p, n)
  }

  /** The states that an export of `rows` into `s` passes through, in some run. */
  ghost predicate Passes(s: Dir<Doc>, rows: seq<u64>, t: Dir<Doc>) {
    WritingParquet(s, rows, t) || WritingSeal(ParquetDone(s, rows), |rows|, t)
  }

  // -- the export -----------------------------------------------------------------------------

  method WriteParquet(volume: Volume<Doc>, rows: seq<u64>) returns (ok: bool)
    modifies volume
    ensures WritingParquet(old(volume.now), rows, volume.now)
    ensures ok ==> volume.now == ParquetDone(old(volume.now), rows)
    ensures ok ==>
      |volume.trail| > |old(volume.trail)| && volume.trail[|old(volume.trail)|] == Created(old(volume.now))
    ensures volume.faults >= old(volume.faults) && (ok <==> volume.faults == old(volume.faults))
    ensures old(volume.trail) <= volume.trail
    ensures forall i :: |old(volume.trail)| <= i < |volume.trail| ==>
      WritingParquet(old(volume.now), rows, volume.trail[i])
  {
    ok := volume.Create(PARQUET, Torn);
    if !ok { return; }
    var written;
    ok, written := volume.WriteAll(PARQUET, Parquet(rows));
    assert volume.now == Wrote(old(volume.now), written);
    if !ok { return; }
    ok := volume.Fsync(PARQUET);
  }

  /** Fill the temp file and rename it, leaving the directory entry to the system. */
  method WriteSeal(volume: Volume<Doc>, n: nat) returns (ok: bool)
    modifies volume
    ensures WritingSeal(old(volume.now), n, volume.now)
    ensures ok ==> volume.now == Sealed(old(volume.now), n)
    ensures volume.faults >= old(volume.faults) && (ok <==> volume.faults == old(volume.faults))
    ensures old(volume.trail) <= volume.trail
    ensures forall i :: |old(volume.trail)| <= i < |volume.trail| ==>
      WritingSeal(old(volume.now), n, volume.trail[i])
  {
    ok := volume.Create(SEAL_TMP, Torn);
    if !ok { return; }
    var written;
    ok, written := volume.WriteAll(SEAL_TMP, Seal(n));
    assert volume.now == SealWrote(old(volume.now), written);
    if !ok { return; }
    ok := volume.Fsync(SEAL_TMP);
    if !ok { return; }
    ok := volume.Rename(SEAL_TMP, SEAL);
  }

  /** Export and seal one segment, into a directory that may hold an earlier one's files. */
  method ExportSegment(volume: Volume<Doc>, rows: seq<u64>) returns (ok: bool)
    requires Ready(volume.now)
    modifies volume
    ensures Ready(volume.now)
    ensures ok ==> volume.now == ExportedInto(old(volume.now), rows)
    ensures ok ==>
      |volume.trail| > |old(volume.trail)| && volume.trail[|old(volume.trail)|] == Created(old(volume.now))
    ensures volume.faults >= old(volume.faults) && (ok <==> volume.faults == old(volume.faults))
    ensures old(volume.trail) <= volume.trail
    ensures forall i :: |old(volume.trail)| <= i < |volume.trail| ==> Passes(old(volume.now), rows, volume.trail[i])
  {
    hide Ready, WritingParquet, WritingSeal;
    ghost var s := volume.now;
    ok := WriteParquet(volume, rows);
    PassesKeepsReady(s, rows, volume.now);
    if !ok { return; }
    ok := WriteSeal(volume, |rows|);
    PassesKeepsReady(s, rows, volume.now);
  }

  // -- what the steps do to the directory ---------------------------------------------------------

  /** No live entry of another name is a file that `n` may come back with. */
  ghost predicate Alone(s: Dir<Doc>, n: Name) {
    forall m :: m != n && s.Live(m).Some? ==> s.Live(m) !in s.History(n)
  }

  /** The export's own files are nobody else's. */
  ghost predicate Ready(s: Dir<Doc>) {
    s.Wf() && Private(s, PARQUET) && Private(s, SEAL_TMP) && Alone(s, PARQUET) && Alone(s, SEAL)
  }

  /** `t` is `s` with the file under `n` created if need be, and changed. */
  ghost predicate Reworked(s: Dir<Doc>, t: Dir<Doc>, n: Name) {
    && |t.files| == (if s.Live(n).Some? then |s.files| else |s.files| + 1)
    && t.History(n) == (if s.Live(n).Some? then s.History(n) else s.History(n) + [Some(|s.files|)])
    && t.Live(n) == (if s.Live(n).Some? then s.Live(n) else Some(|s.files|))
    && (forall m :: m != n ==> t.History(m) == s.History(m) && t.Live(m) == s.Live(m))
    && forall i :: 0 <= i < |s.files| && s.Live(n) != Some(i) ==> t.files[i] == s.files[i]
  }

  lemma LiveIsAFile(s: Dir<Doc>)
    requires s.Wf()
    ensures forall n :: s.Live(n) in s.History(n) && (s.Live(n).Some? ==> s.Live(n).value < |s.files|)
  {
    assert forall n :: s.Live(n) in s.History(n);
  }

  lemma CreateReworks(s: Dir<Doc>, n: Name)
    requires s.Wf()
    ensures var t := s.Create(n, Torn);
      Reworked(s, t, n) && t.files[t.Live(n).value] == File(Torn, false)
  {
    LiveIsAFile(s);
  }

  lemma WorkReworks(s: Dir<Doc>, t: Dir<Doc>, n: Name, d: Doc)
    requires s.Wf() && Reworked(s, t, n)
    ensures t.Live(n).value < |t.files|
    ensures Reworked(s, t.Write(n, d), n) && t.Write(n, d).files[t.Live(n).value] == File(d, false)
    ensures Reworked(s, t.Fsync(n), n) && t.Fsync(n).files[t.Live(n).value] == t.files[t.Live(n).value].(synced := true)
  {
    LiveIsAFile(s);
    SameEntriesReworked(s, t, t.Write(n, d), n);
    SameEntriesReworked(s, t, t.Fsync(n), n);
  }

  lemma SameEntriesReworked(s: Dir<Doc>, t: Dir<Doc>, u: Dir<Doc>, n: Name)
    requires Reworked(s, t, n) && u.entries == t.entries && |u.files| == |t.files|
    requires forall i :: 0 <= i < |t.files| && t.Live(n) != Some(i) ==> u.files[i] == t.files[i]
    ensures Reworked(s, u, n)
  {
    assert forall m :: u.History(m) == t.History(m) && u.Live(m) == t.Live(m);
  }

  lemma ReworkedKeeps(s: Dir<Doc>, t: Dir<Doc>, n: Name, m: Name)
    requires s.Wf() && Private(s, n) && Reworked(s, t, n)
    ensures t.Wf() && Private(t, n) && (Private(s, m) ==> Private(t, m))
    ensures Alone(s, m) ==> Alone(t, m)
  {
    LiveIsAFile(s);
    if s.Live(n).None? {
      forall k | k != n ensures Some(|s.files|) !in t.History(k) {
        assert t.History(k) == s.History(k);
      }
    }
    forall k, e | e in t.History(k) && e.Some? ensures e.value < |t.files| {
      assert e in s.History(k) || e == Some(|s.files|);
    }
    forall j, k | j != k && t.Live(j).Some? ensures t.Live(j) != t.Live(k) {
    }
  }

  lemma ParquetIsReworked(s: Dir<Doc>, rows: seq<u64>, t: Dir<Doc>)
    requires s.Wf() && WritingParquet(s, rows, t)
    ensures t == s || Reworked(s, t, PARQUET)
    ensures t == ParquetDone(s, rows) ==> Reworked(s, t, PARQUET) && Holds(t, t.Live(PARQUET), Parquet(rows))
  {
    hide Reworked;
    CreateReworks(s, PARQUET);
    var c := Created(s);
    WorkReworks(s, c, PARQUET, Parquet(rows));
    WorkReworks(s, Wrote(s, Parquet(rows)), PARQUET, Torn);
    ReworkedLive(s, c, PARQUET);
    ReworkedLive(s, Wrote(s, Parquet(rows)), PARQUET);
    ReworkedLive(s, ParquetDone(s, rows), PARQUET);
    if d :| t == Wrote(s, d) { WorkReworks(s, c, PARQUET, d); }
  }

  lemma ReworkedLive(s: Dir<Doc>, t: Dir<Doc>, n: Name)
    requires Reworked(s, t, n)
    ensures t.Live(n) == (if s.Live(n).Some? then s.Live(n) else Some(|s.files|))
  {
  }

  lemma SealIsReworked(p: Dir<Doc>, n: nat, t: Dir<Doc>)
    requires p.Wf() && WritingSeal(p, n, t)
    ensures t == p || Reworked(p, t, SEAL_TMP) || t == Sealed(p, n)
    ensures Reworked(p, SealFilled(p, n), SEAL_TMP)
    ensures Holds(SealFilled(p, n), SealFilled(p, n).Live(SEAL_TMP), Seal(n))
  {
    hide Reworked;
    CreateReworks(p, SEAL_TMP);
    var c := SealCreated(p);
    WorkReworks(p, c, SEAL_TMP, Seal(n));
    WorkReworks(p, SealWrote(p, Seal(n)), SEAL_TMP, Torn);
    ReworkedLive(p, c, SEAL_TMP);
    ReworkedLive(p, SealWrote(p, Seal(n)), SEAL_TMP);
    ReworkedLive(p, SealFilled(p, n), SEAL_TMP);
    if d :| t == SealWrote(p, d) { WorkReworks(p, c, SEAL_TMP, d); }
  }

  lemma SealIsFilled(p: Dir<Doc>, n: nat)
    requires p.Wf()
    ensures Reworked(p, SealFilled(p, n), SEAL_TMP)
    ensures Holds(SealFilled(p, n), SealFilled(p, n).Live(SEAL_TMP), Seal(n))
  {
    SealIsReworked(p, n, p);
  }

  lemma ReworkedKeepsReady(s: Dir<Doc>, t: Dir<Doc>, n: Name)
    requires Ready(s) && (n == PARQUET || n == SEAL_TMP) && Reworked(s, t, n)
    ensures Ready(t)
  {
    hide Private, Alone, Reworked;
    ReworkedKeeps(s, t, n, PARQUET);
    ReworkedKeeps(s, t, n, SEAL_TMP);
    ReworkedKeeps(s, t, n, SEAL);
  }

  lemma RenameKeepsReady(w: Dir<Doc>)
    requires Ready(w) && w.Live(SEAL_TMP).Some?
    ensures Ready(w.Rename(SEAL_TMP, SEAL))
    ensures w.Rename(SEAL_TMP, SEAL).Live(SEAL) == w.Live(SEAL_TMP)
  {
    LiveIsAFile(w);
    RenameHistories(w, SEAL_TMP, SEAL);
    var t := w.Rename(SEAL_TMP, SEAL);
    assert t.Live(SEAL_TMP) == None && t.Live(SEAL) == w.Live(SEAL_TMP);
    assert forall m :: m != SEAL && m != SEAL_TMP ==> t.Live(m) == w.Live(m);
    assert t.Wf();
  }

  /** However it ends, an export leaves a directory that another can start on. */
  lemma PassesKeepsReady(s: Dir<Doc>, rows: seq<u64>, t: Dir<Doc>)
    requires Ready(s) && Passes(s, rows, t)
    ensures Ready(t)
  {
    hide Private, Alone, Reworked, WritingParquet, WritingSeal;
    if WritingParquet(s, rows, t) {
      ParquetIsReworked(s, rows, t);
      if t != s { ReworkedKeepsReady(s, t, PARQUET); }
    } else {
      var p := ParquetDone(s, rows);
      ParquetIsDone(s, rows);
      ReworkedKeepsReady(s, p, PARQUET);
      SealIsReworked(p, |rows|, t);
      var w := SealFilled(p, |rows|);
      ReworkedKeepsReady(p, w, SEAL_TMP);
      RenameKeepsReady(w);
      if t != p && t != Sealed(p, |rows|) { ReworkedKeepsReady(p, t, SEAL_TMP); }
    }
  }

  lemma ParquetIsDone(s: Dir<Doc>, rows: seq<u64>)
    requires s.Wf()
    ensures var p := ParquetDone(s, rows);
      Reworked(s, p, PARQUET) && Holds(p, p.Live(PARQUET), Parquet(rows))
  {
    ParquetIsReworked(s, rows, ParquetDone(s, rows));
  }

  // -- the seal comes after the parquet ---------------------------------------------------------------

  /** At every state of an export, a seal that was not there before is whole, counts the
      rows, and stands over a parquet that was written and fsynced before it. */
  lemma NewSealsFollowParquet(s: Dir<Doc>, rows: seq<u64>, t: Dir<Doc>, e: Option<nat>)
    requires Ready(s) && Passes(s, rows, t) && e in t.History(SEAL) && e !in s.History(SEAL)
    ensures Holds(t, e, Seal(|rows|)) && Holds(t, t.Live(PARQUET), Parquet(rows))
  {
    hide Alone, Private, WritingParquet, WritingSeal, Reworked, Holds;
    var p := ParquetDone(s, rows);
    ParquetIsDone(s, rows);
    ReworkedKeepsReady(s, p, PARQUET);
    SameSeals(s, p, PARQUET);
    if WritingParquet(s, rows, t) {
      ParquetIsReworked(s, rows, t);
      if t != s { SameSeals(s, t, PARQUET); }
    } else {
      SealIsReworked(p, |rows|, t);
      if t == Sealed(p, |rows|) {
        var w := SealFilled(p, |rows|);
        SameSeals(p, w, SEAL_TMP);
        ParquetStays(p, w, rows);
        RenamedShowsBoth(w, |rows|, rows);
      } else if t != p {
        SameSeals(p, t, SEAL_TMP);
      }
    }
  }

  lemma SameSeals(s: Dir<Doc>, t: Dir<Doc>, n: Name)
    requires n != SEAL && Reworked(s, t, n)
    ensures t.History(SEAL) == s.History(SEAL)
  {
  }

  lemma ParquetStays(p: Dir<Doc>, w: Dir<Doc>, rows: seq<u64>)
    requires Ready(p) && Reworked(p, w, SEAL_TMP) && Holds(p, p.Live(PARQUET), Parquet(rows))
    ensures Holds(w, w.Live(PARQUET), Parquet(rows))
  {
    hide Private, Alone;
    assert p.Live(SEAL_TMP).Some? ==> p.Live(SEAL_TMP) != p.Live(PARQUET);
  }

  lemma RenamedShowsBoth(w: Dir<Doc>, n: nat, rows: seq<u64>)
    requires Holds(w, w.Live(SEAL_TMP), Seal(n)) && Holds(w, w.Live(PARQUET), Parquet(rows))
    ensures var t := w.Rename(SEAL_TMP, SEAL);
      && Holds(t, t.Live(PARQUET), Parquet(rows))
      && forall e :: e in t.History(SEAL) ==> e in w.History(SEAL) || Holds(t, e, Seal(n))
  {
    RenameHistories(w, SEAL_TMP, SEAL);
  }

  /** After a cut a seal of this export is whole, and so is its parquet if its name survived. */
  lemma CutKeepsWholeFiles(s: Dir<Doc>, rows: seq<u64>, t: Dir<Doc>, u: Dir<Doc>)
    requires Ready(s) && Passes(s, rows, t) && CrashOf(t, u)
    requires u.Live(SEAL).Some? && u.Live(SEAL) !in s.History(SEAL)
    ensures u.Read(SEAL) == Some(Seal(|rows|))
    ensures u.Live(PARQUET) == t.Live(PARQUET) ==> u.Read(PARQUET) == Some(Parquet(rows))
  {
    hide Ready, Passes;
    assert u.Live(SEAL) in t.History(SEAL);
    NewSealsFollowParquet(s, rows, t, u.Live(SEAL));
  }

  // -- which directories survive every cut ---------------------------------------------------------------

  /** A readable seal has its whole parquet beside it. */
  ghost predicate Backed(u: Dir<Doc>) {
    u.Read(SEAL).Some? && u.Read(SEAL).value.Seal? ==>
      && u.Read(PARQUET).Some? && u.Read(PARQUET).value.Parquet?
      && |u.Read(PARQUET).value.rows| == u.Read(SEAL).value.observations
  }

  /** No cut can bring back a readable seal. */
  ghost predicate NoSeal(s: Dir<Doc>) {
    forall e :: e in s.History(SEAL) && e.Some? ==>
      e.value < |s.files| && s.files[e.value].synced && !s.files[e.value].data.Seal?
  }

  ghost predicate Whole(s: Dir<Doc>, e: Option<nat>, n: nat) {
    && e.Some? && e.value < |s.files| && s.files[e.value].synced
    && s.files[e.value].data.Parquet? && |s.files[e.value].data.rows| == n
  }

  /** The parquet's name is there whatever a cut brings back: for the live file, or for
      another that already holds `n` rows. */
  ghost predicate Certain(s: Dir<Doc>, n: nat) {
    forall e :: e in s.History(PARQUET) ==> e.Some? && (e == s.Live(PARQUET) || Whole(s, e, n))
  }

  ghost predicate AllWhole(s: Dir<Doc>, n: nat) { forall e :: e in s.History(PARQUET) ==> Whole(s, e, n) }

  lemma ReworkedKeepsNoSeal(s: Dir<Doc>, t: Dir<Doc>, n: Name)
    requires s.Wf() && NoSeal(s) && Private(s, n) && n != SEAL && Reworked(s, t, n)
    ensures NoSeal(t)
  {
    forall e | e in t.History(SEAL) && e.Some?
      ensures e.value < |t.files| && t.files[e.value].synced && !t.files[e.value].data.Seal?
    {
      assert e in s.History(SEAL) && e != s.Live(n);
    }
  }

  lemma NoSealIsBacked(t: Dir<Doc>, u: Dir<Doc>)
    requires NoSeal(t) && CrashOf(t, u)
    ensures Backed(u)
  {
    assert u.Live(SEAL) in t.History(SEAL);
  }

  lemma DoneIsWhole(s: Dir<Doc>, rows: seq<u64>)
    requires Ready(s) && Certain(s, |rows|)
    ensures AllWhole(ParquetDone(s, rows), |rows|)
  {
    ParquetIsDone(s, rows);
    LiveIsAFile(s);
  }

  lemma ReworkedKeepsWhole(p: Dir<Doc>, t: Dir<Doc>, n: nat)
    requires p.Wf() && AllWhole(p, n) && Private(p, SEAL_TMP) && Reworked(p, t, SEAL_TMP)
    ensures AllWhole(t, n)
  {
    forall e | e in t.History(PARQUET) ensures Whole(t, e, n) {
      assert e in p.History(PARQUET) && Whole(p, e, n) && e != p.Live(SEAL_TMP);
    }
  }

  lemma SealedIsBacked(w: Dir<Doc>, n: nat, u: Dir<Doc>)
    requires AllWhole(w, n) && NoSeal(w) && Holds(w, w.Live(SEAL_TMP), Seal(n))
    requires CrashOf(w.Rename(SEAL_TMP, SEAL), u)
    ensures Backed(u)
  {
    RenameHistories(w, SEAL_TMP, SEAL);
    var t := w.Rename(SEAL_TMP, SEAL);
    assert u.Live(SEAL) in t.History(SEAL) && u.Live(PARQUET) in t.History(PARQUET);
  }

  lemma SafeStart(s: Dir<Doc>, rows: seq<u64>, t: Dir<Doc>, u: Dir<Doc>)
    requires Ready(s) && NoSeal(s) && Certain(s, |rows|) && Passes(s, rows, t) && CrashOf(t, u)
    ensures Backed(u)
  {
    hide Alone, Private, NoSeal, AllWhole, Backed, Reworked, CrashOf, WritingParquet, WritingSeal, Certain;
    var p := ParquetDone(s, rows);
    ParquetIsDone(s, rows);
    ReworkedKeepsNoSeal(s, p, PARQUET);
    ReworkedKeepsReady(s, p, PARQUET);
    DoneIsWhole(s, rows);
    if WritingParquet(s, rows, t) {
      ParquetIsReworked(s, rows, t);
      if t != s { ReworkedKeepsNoSeal(s, t, PARQUET); }
      NoSealIsBacked(t, u);
    } else {
      SealIsReworked(p, |rows|, t);
      var w := SealFilled(p, |rows|);
      ReworkedKeepsNoSeal(p, w, SEAL_TMP);
      ReworkedKeepsWhole(p, w, |rows|);
      if t == Sealed(p, |rows|) {
        SealedIsBacked(w, |rows|, u);
      } else {
        if t != p { ReworkedKeepsNoSeal(p, t, SEAL_TMP); }
        NoSealIsBacked(t, u);
      }
    }
  }

  /** A cut may leave anything in a file that was not fsynced. */
  function Filled(u: Dir<Doc>, i: nat, d: Doc): Dir<Doc>
    requires i < |u.files|
  {
    u.(files := u.files[i := File(d, true)])
  }

  lemma FilledIsACrash(t: Dir<Doc>, u: Dir<Doc>, i: nat, d: Doc)
    requires CrashOf(t, u) && i < |t.files| && !t.files[i].synced
    ensures CrashOf(t, Filled(u, i, d))
    ensures forall n :: Filled(u, i, d).Live(n) == u.Live(n)
  {
    var v := Filled(u, i, d);
    assert forall n :: v.History(n) == u.History(n) && v.Live(n) == u.Live(n);
  }

  /** A directory that a seal may come back in is torn under it by the very first step. */
  lemma ReopeningTearsParquet(s: Dir<Doc>) returns (u: Dir<Doc>)
    requires Ready(s) && !NoSeal(s)
    ensures CrashOf(Created(s), u)
    ensures u.Read(SEAL).Some? && u.Read(SEAL).value.Seal? && u.Read(PARQUET) == Some(Torn)
  {
    hide Alone, Private;
    var e :| e in s.History(SEAL) && e.Some?
             && (e.value >= |s.files| || !s.files[e.value].synced || s.files[e.value].data.Seal?);
    var t := Created(s);
    TornBesideSeal(s, e);
    u := SealComesBackAs(t, e);
  }

  /** The cut that brings the seal's name back as `e` over a torn parquet. */
  lemma SealComesBackAs(t: Dir<Doc>, e: Option<nat>) returns (u: Dir<Doc>)
    requires t.Wf() && e in t.History(SEAL) && e.Some? && e.value < |t.files| && t.Live(PARQUET) != e
    requires !t.files[e.value].synced || t.files[e.value].data.Seal?
    requires t.Live(PARQUET).Some? && t.Live(PARQUET).value < |t.files|
    requires t.files[t.Live(PARQUET).value].data == Torn
    requires forall m :: m != SEAL && t.Live(m).Some? ==> t.Live(m) != e
    ensures CrashOf(t, u) && u.Read(SEAL).Some? && u.Read(SEAL).value.Seal? && u.Read(PARQUET) == Some(Torn)
  {
    RevertingIsACrash(t, SEAL, e);
    u := Reverting(t, SEAL, e);
    hide Reverting, CrashOf;
    assert u.Live(SEAL) == e && u.Live(PARQUET) == t.Live(PARQUET);
    if !t.files[e.value].synced {
      FilledIsACrash(t, u, e.value, Seal(0));
      u := Filled(u, e.value, Seal(0));
    }
  }

  lemma TornBesideSeal(s: Dir<Doc>, e: Option<nat>)
    requires Ready(s) && e in s.History(SEAL) && e.Some?
    ensures var t := Created(s);
      && t.Wf() && e in t.History(SEAL) && e.value < |s.files| <= |t.files|
      && t.files[e.value] == s.files[e.value] && t.Live(PARQUET) != e
      && t.Live(PARQUET).Some? && t.Live(PARQUET).value < |t.files|
      && t.files[t.Live(PARQUET).value].data == Torn
      && forall m :: m != SEAL && t.Live(m).Some? ==> t.Live(m) != e
  {
    var t := Created(s);
    CreateReworks(s, PARQUET);
    hide Created;
    ReworkedKeepsReady(s, t, PARQUET);
    LiveIsAFile(t);
    assert e != s.Live(PARQUET) && e in t.History(SEAL);
  }

  /** A directory whose parquet name a cut can take back, or turn to another file, can come
      back with the seal of a faultless export and without its parquet. */
  lemma SealCanOutliveParquet(s: Dir<Doc>, rows: seq<u64>) returns (u: Dir<Doc>)
    requires Ready(s) && !Certain(s, |rows|)
    ensures CrashOf(ExportedInto(s, rows), u) && u.Read(SEAL) == Some(Seal(|rows|)) && !Backed(u)
  {
    var e :| e in s.History(PARQUET) && !(e.Some? && (e == s.Live(PARQUET) || Whole(s, e, |rows|)));
    if e.None? { LiveIsAFile(s); }
    ExportKeepsOlder(s, rows, e);
    u := ComesBackAs(ExportedInto(s, rows), e, |rows|);
  }

  /** The cut that brings the parquet's name back as `e`, whose file is not `n` whole rows. */
  lemma ComesBackAs(t: Dir<Doc>, e: Option<nat>, n: nat) returns (u: Dir<Doc>)
    requires t.Wf() && e in t.History(PARQUET) && Holds(t, t.Live(SEAL), Seal(n)) && !Whole(t, e, n)
    requires forall m :: m != PARQUET && t.Live(m).Some? ==> t.Live(m) != e
    ensures CrashOf(t, u) && u.Read(SEAL) == Some(Seal(n)) && !Backed(u)
  {
    RevertingIsACrash(t, PARQUET, e);
    u := Reverting(t, PARQUET, e);
    hide Reverting, CrashOf;
    assert u.Live(SEAL) == t.Live(SEAL) && u.Live(PARQUET) == e;
    if e.Some? && !t.files[e.value].synced {
      FilledIsACrash(t, u, e.value, Torn);
      u := Filled(u, e.value, Torn);
    }
  }

  /** What a faultless export leaves: its seal, and what else the parquet's name may show. */
  lemma ExportKeepsOlder(s: Dir<Doc>, rows: seq<u64>, e: Option<nat>)
    requires Ready(s) && e in s.History(PARQUET) && (e.None? || e != s.Live(PARQUET))
    ensures var t := ExportedInto(s, rows);
      && t.Wf() && e in t.History(PARQUET) && Holds(t, t.Live(SEAL), Seal(|rows|))
      && (forall m :: m != PARQUET && t.Live(m).Some? ==> t.Live(m) != e)
      && (e.Some? ==> e.value < |s.files| <= |t.files| && t.files[e.value] == s.files[e.value])
  {
    hide Private, WritingParquet, WritingSeal, Alone, Reworked;
    var p := ParquetDone(s, rows);
    ParquetIsDone(s, rows);
    ReworkedKeepsReady(s, p, PARQUET);
    OlderIsKept(s, p, PARQUET, e);
    var w := SealFilled(p, |rows|);
    SealIsFilled(p, |rows|);
    ReworkedKeepsReady(p, w, SEAL_TMP);
    OlderIsKept(p, w, SEAL_TMP, e);
    RenameKeepsReady(w);
    RenameHistories(w, SEAL_TMP, SEAL);
    NoOtherShows(ExportedInto(s, rows), e);
  }

  lemma OlderIsKept(s: Dir<Doc>, t: Dir<Doc>, n: Name, e: Option<nat>)
    requires Ready(s) && (n == PARQUET || n == SEAL_TMP) && Reworked(s, t, n)
    requires e in s.History(PARQUET) && (n == PARQUET ==> e.None? || e != s.Live(PARQUET))
    ensures e in t.History(PARQUET)
    ensures e.Some? ==> e.value < |s.files| <= |t.files| && t.files[e.value] == s.files[e.value]
  {
    hide Private;
    LiveIsAFile(s);
  }

  lemma NoOtherShows(t: Dir<Doc>, e: Option<nat>)
    requires Ready(t) && e in t.History(PARQUET)
    ensures forall m :: m != PARQUET && t.Live(m).Some? ==> t.Live(m) != e
  {
    hide Private;
  }

  /** No cut at any state of any run of the export leaves a readable seal without its whole
      parquet, exactly when the directory it starts on can bring back no seal and cannot
      lose the parquet's name. */
  lemma ExportSurvivesCutsIff(s: Dir<Doc>, rows: seq<u64>)
    requires Ready(s)
    ensures (forall t, u :: Passes(s, rows, t) && CrashOf(t, u) ==> Backed(u))
      <==> NoSeal(s) && Certain(s, |rows|)
  {
    hide Ready, NoSeal, Certain, Backed, CrashOf;
    if NoSeal(s) && Certain(s, |rows|) {
      forall t, u | Passes(s, rows, t) && CrashOf(t, u) ensures Backed(u) { SafeStart(s, rows, t, u); }
    } else if !NoSeal(s) {
      var u := ReopeningTearsParquet(s);
      assert Passes(s, rows, Created(s)) && CrashOf(Created(s), u);
      TornIsNotBacked(u);
    } else {
      var u := SealCanOutliveParquet(s, rows);
      assert Passes(s, rows, ExportedInto(s, rows)) && CrashOf(ExportedInto(s, rows), u);
    }
  }

  lemma TornIsNotBacked(u: Dir<Doc>)
    requires u.Read(SEAL).Some? && u.Read(SEAL).value.Seal? && u.Read(PARQUET) == Some(Torn)
    ensures !Backed(u)
  {
  }

  /** A directory made for the segment has no certain name yet, so its export does not
      survive every cut. */
  lemma NewDirectoryCanLoseParquet(rows: seq<u64>) returns (u: Dir<Doc>)
    ensures Ready(Dir([], map[]))
    ensures CrashOf(ExportedInto(Dir([], map[]), rows), u)
    ensures u.Read(SEAL) == Some(Seal(|rows|)) && !Backed(u)
  {
    var s: Dir<Doc> := Dir([], map[]);
    assert None in s.History(PARQUET);
    u := SealCanOutliveParquet(s, rows);
  }
}
