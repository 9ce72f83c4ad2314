/**
 The rotating BLE archive: wall-clock aligned segments, each observation hashed with the
 salt of its own timestamp's segment, closed segments exported and sealed in the background.
 SHA-256 and HMAC are parameters.
 */
module ContinuousArchive {
  import opened Prelude
  import opened Division
  import opened Text
  import opened Disk
  import opened FleetKey

  const DAY_S: nat := 86_400

  function UtcDay(ns: u64): u64 { ns / NS_PER_S / DAY_S }

  function SegmentIndex(ns: u64, segmentS: nat): nat
    requires segmentS > 0
  {
    ns / NS_PER_S / segmentS
  }

  /** Segment `i` covers the seconds from `i` segment lengths on, and day `d` those from
      `d` times 86400 on. */
  lemma IndexBounds(ns: u64, segmentS: nat)
    requires segmentS > 0
    ensures var s := ns / 1_000_000_000;
      && segmentS * SegmentIndex(ns, segmentS) <= s < segmentS * SegmentIndex(ns, segmentS) + segmentS
      && 86_400 * UtcDay(ns) <= s < 86_400 * UtcDay(ns) + 86_400
  {
    DivBounds(ns / NS_PER_S, segmentS);
    DivBounds(ns / NS_PER_S, DAY_S);
  }

  // -- a segment never straddles midnight ----------------------------------------------

  lemma SameSegmentSameDay(segmentS: nat, x: u64, y: u64)
    requires segmentS > 0 && DAY_S % segmentS == 0
    requires SegmentIndex(x, segmentS) == SegmentIndex(y, segmentS)
    ensures UtcDay(x) == UtcDay(y)
  {
    var m := DAY_S / segmentS;
    assert segmentS * m == DAY_S;
    DivDiv(x / NS_PER_S, segmentS, m);
    DivDiv(y / NS_PER_S, segmentS, m);
  }

  /** The day is a function of the segment index for exactly the lengths that divide a day. */
  lemma DayFollowsIndexIffLengthDividesDay(segmentS: nat)
    requires 0 < segmentS
    ensures DAY_S % segmentS == 0 <==>
      forall x: u64, y: u64 :: SegmentIndex(x, segmentS) == SegmentIndex(y, segmentS) ==> UtcDay(x) == UtcDay(y)
  {
    if DAY_S % segmentS == 0 {
      forall x: u64, y: u64 | SegmentIndex(x, segmentS) == SegmentIndex(y, segmentS)
        ensures UtcDay(x) == UtcDay(y)
      {
        SameSegmentSameDay(segmentS, x, y);
      }
    } else {
      var k := DAY_S / segmentS;
      var start := segmentS * k;
      assert DAY_S == start + DAY_S % segmentS;
      var x: u64, y: u64 := start * NS_PER_S, DAY_S * NS_PER_S;
      DivUnique(start, segmentS, k, 0);
      DivUnique(x, NS_PER_S, start, 0);
      assert SegmentIndex(x, segmentS) == SegmentIndex(y, segmentS);
      assert UtcDay(x) == 0 && UtcDay(y) == 1;
    }
  }

  // -- rows -------------------------------------------------------------------------------

  /** The hash functions: the day's key step, `segment_salt` and the address digest. */
  datatype Crypto = Crypto(ratchet: Ratchet, mac: (Digest, nat, nat) -> Digest, digest: (Digest, u8, seq<u8>) -> Digest)

  /** `body` stands for what a row keeps of the advertisement besides the address. */
  datatype Adv = Adv(addrType: u8, addr: seq<u8>, body: string)

  datatype Entry = Entry(adv: Adv, ts: u64)

  datatype Row = Row(ts: u64, deviceHash: string, body: string)

  function Clamp(bytes: nat): nat { Max(4, Min(bytes, 32)) }

  function RowOf(c: Crypto, bytes: nat, salt: Digest, e: Entry): Row {
    Row(e.ts, Hex(c.digest(salt, e.adv.addrType, e.adv.addr)[..Clamp(bytes)]), e.adv.body)
  }

  function RowsOf(c: Crypto, bytes: nat, salt: Digest, es: seq<Entry>): (rows: seq<Row>)
    ensures |rows| == |es|
    ensures forall i :: 0 <= i < |es| ==> rows[i] == RowOf(c, bytes, salt, es[i])
  {
    if es == [] then []
    else RowsOf(c, bytes, salt, es[..|es| - 1]) + [RowOf(c, bytes, salt, es[|es| - 1])]
  }

  lemma RowsOfAppend(c: Crypto, bytes: nat, salt: Digest, es: seq<Entry>, e: Entry)
    ensures RowsOf(c, bytes, salt, es + [e]) == RowsOf(c, bytes, salt, es) + [RowOf(c, bytes, salt, e)]
  {
    assert (es + [e])[..|es|] == es;
  }

  /** How many bytes of a digest a row keeps, for a configured count. */
  ghost predicate Width(bytes: nat, n: nat) {
    && 4 <= n <= 32 && (4 <= bytes <= 32 ==> n == bytes) && (bytes < 4 ==> n == 4) && (bytes > 32 ==> n == 32)
  }

  /** `row` stands for `e`: its hash is the first `n` bytes of the digest of the salt and of
      the advertiser's own address type and address, in lower-case hexadecimal. */
  ghost predicate StandsFor(c: Crypto, n: nat, salt: Digest, e: Entry, row: Row) {
    && row.ts == e.ts && row.body == e.adv.body && |row.deviceHash| == 2 * n <= 64
    && (forall i :: 0 <= i < 2 * n ==> row.deviceHash[i] in "0123456789abcdef")
    && ParseHex(row.deviceHash) == Some(c.digest(salt, e.adv.addrType, e.adv.addr)[..n])
  }

  ghost predicate Logs(f: Fleet, salt: Digest, e: Entry, row: Row) {
    exists n :: Width(f.bytes, n) && StandsFor(f.c, n, salt, e, row)
  }

  lemma RowStandsFor(c: Crypto, bytes: nat, salt: Digest, e: Entry) returns (n: nat)
    ensures Width(bytes, n) && StandsFor(c, n, salt, e, RowOf(c, bytes, salt, e))
  {
    n := Clamp(bytes);
    ParseOfHex(c.digest(salt, e.adv.addrType, e.adv.addr)[..n]);
    HexIsLowerCase(c.digest(salt, e.adv.addrType, e.adv.addr)[..n]);
  }

  /** Two rows have one hash exactly when the kept bytes of their digests agree. */
  lemma SameHashIff(c: Crypto, n: nat, s: Digest, d: Entry, r: Row, t: Digest, e: Entry, q: Row)
    requires StandsFor(c, n, s, d, r) && StandsFor(c, n, t, e, q)
    ensures r.deviceHash == q.deviceHash <==>
      c.digest(s, d.adv.addrType, d.adv.addr)[..n] == c.digest(t, e.adv.addrType, e.adv.addr)[..n]
  {
    var a, b := c.digest(s, d.adv.addrType, d.adv.addr)[..n], c.digest(t, e.adv.addrType, e.adv.addr)[..n];
    HexOfParse(r.deviceHash);
    HexOfParse(q.deviceHash);
  }

  datatype Scope = Random | Fleet(day: u64)

  /** One segment as it was opened, with the observations accepted into it. */
  datatype Segment = Segment(started: u64, index: nat, scope: Scope, salt: Digest, entries: seq<Entry>)

  datatype Seal = Seal(rows: nat, index: nat, scope: Scope)

  /** A segment directory: the raw log and, once sealed, `session.json`. */
  datatype SegmentDir = SegmentDir(log: seq<Row>, seal: Option<Seal>)

  /** What every node of the fleet was set up with. */
  datatype Fleet = Setup(c: Crypto, bytes: nat, segmentS: nat, seedDay: u64, seed: Digest)

  ghost predicate ValidFleet(f: Fleet) {
    60 <= f.segmentS && DAY_S % f.segmentS == 0
  }

  /** Every observation of the segment carries the salt of its own timestamp: the salt is
      that of its segment index, under the key of its UTC day. */
  ghost predicate SaltedByOwnTime(f: Fleet, g: Segment)
    requires ValidFleet(f)
  {
    && g.index == SegmentIndex(g.started, f.segmentS)
    && (g.scope.Fleet? ==> g.scope.day == UtcDay(g.started))
    && OwnSalt(f, g, g.started)
    && forall i :: 0 <= i < |g.entries| ==> OwnSalt(f, g, g.entries[i].ts)
  }

  ghost predicate OwnSalt(f: Fleet, g: Segment, ts: u64)
    requires ValidFleet(f)
  {
    && SegmentIndex(ts, f.segmentS) == g.index
    && UtcDay(ts) == UtcDay(g.started)
    && (g.scope.Fleet? ==>
          && f.seedDay <= UtcDay(ts)
          && g.salt == f.c.mac(Steps(f.c.ratchet, f.seed, UtcDay(ts) - f.seedDay), f.segmentS,
                               SegmentIndex(ts, f.segmentS)))
  }

  /** Two nodes of one fleet that both hold the day's key give one address one pseudonym
      inside a wall-clock segment, whenever each was started and whatever its clock did. */
  lemma OnePseudonymPerSegment(f: Fleet, a: Segment, i: nat, b: Segment, j: nat)
    requires ValidFleet(f) && SaltedByOwnTime(f, a) && SaltedByOwnTime(f, b)
    requires i < |a.entries| && j < |b.entries| && a.scope.Fleet? && b.scope.Fleet?
    requires SegmentIndex(a.entries[i].ts, f.segmentS) == SegmentIndex(b.entries[j].ts, f.segmentS)
    requires a.entries[i].adv.addrType == b.entries[j].adv.addrType
    requires a.entries[i].adv.addr == b.entries[j].adv.addr
    ensures RowsOf(f.c, f.bytes, a.salt, a.entries)[i].deviceHash ==
            RowsOf(f.c, f.bytes, b.salt, b.entries)[j].deviceHash
  {
    assert OwnSalt(f, a, a.entries[i].ts) && OwnSalt(f, b, b.entries[j].ts);
    SameSegmentSameDay(f.segmentS, a.entries[i].ts, b.entries[j].ts);
  }

  // -- what the directories hold ------------------------------------------------------------

  function Accepted(gs: seq<Segment>): seq<Entry> {
    if gs == [] then [] else Accepted(gs[..|gs| - 1]) + gs[|gs| - 1].entries
  }

  /** No later segment was opened at the same nanosecond. A directory is named by that
      stamp, so a later one would have emptied its log. */
  predicate Keeps(gs: seq<Segment>, i: nat)
    requires i < |gs|
  {
    forall j :: i < j < |gs| ==> gs[j].started != gs[i].started
  }

  /** The rows sealed in all directories together, each directory counted once. */
  function SealedRows(gs: seq<Segment>, dirs: map<u64, SegmentDir>, n: nat): nat
    requires n <= |gs|
  {
    if n == 0 then 0
    else
      var d := gs[n - 1].started;
      SealedRows(gs, dirs, n - 1)
      + (if Keeps(gs, n - 1) && d in dirs && dirs[d].seal.Some? then dirs[d].seal.value.rows else 0)
  }

  ghost predicate AllSealed(gs: seq<Segment>, dirs: map<u64, SegmentDir>, n: nat)
    requires n <= |gs|
  {
    forall i :: 0 <= i < n && Keeps(gs, i) ==>
      && gs[i].started in dirs
      && dirs[gs[i].started].seal == Some(Seal(|gs[i].entries|, gs[i].index, gs[i].scope))
  }

  lemma {:induction false} SealedAtMostAccepted(gs: seq<Segment>, dirs: map<u64, SegmentDir>, n: nat)
    requires n <= |gs| && AllSealed(gs, dirs, n)
    ensures SealedRows(gs, dirs, n) <= |Accepted(gs[..n])|
    ensures SealedRows(gs, dirs, n) == |Accepted(gs[..n])| <==>
      forall i :: 0 <= i < n && !Keeps(gs, i) ==> gs[i].entries == []
  {
    if n > 0 {
      SealedAtMostAccepted(gs, dirs, n - 1);
      assert gs[..n][..n - 1] == gs[..n - 1];
    }
  }

  /** A finished archive has sealed every accepted observation, exactly when no segment
      with rows was followed by one opened at the very same nanosecond. */
  lemma ConservationIffStampsDiffer(gs: seq<Segment>, dirs: map<u64, SegmentDir>)
    requires AllSealed(gs, dirs, |gs|)
    ensures SealedRows(gs, dirs, |gs|) == |Accepted(gs)| <==>
      forall i, j :: 0 <= i < j < |gs| && gs[i].started == gs[j].started ==> gs[i].entries == []
  {
    assert gs[..|gs|] == gs;
    SealedAtMostAccepted(gs, dirs, |gs|);
    if forall i, j :: 0 <= i < j < |gs| && gs[i].started == gs[j].started ==> gs[i].entries == [] {
      forall i | 0 <= i < |gs| && !Keeps(gs, i) ensures gs[i].entries == [] {
      }
    } else {
      var i, j :| 0 <= i < j < |gs| && gs[i].started == gs[j].started && gs[i].entries != [];
      assert !Keeps(gs, i);
    }
  }

  /** Seals that count nothing sum to nothing. */
  lemma {:induction false} NothingSealed(gs: seq<Segment>, dirs: map<u64, SegmentDir>, n: nat)
    requires n <= |gs| && AllSealed(gs, dirs, n)
    requires forall i :: 0 <= i < n && Keeps(gs, i) ==> gs[i].entries == []
    ensures SealedRows(gs, dirs, n) == 0
  {
    if n > 0 { NothingSealed(gs, dirs, n - 1); }
  }

  // -- the archive ---------------------------------------------------------------------------

  ghost predicate ChainOk(f: Fleet, chain: FleetKeyChain)
    reads chain, chain.volume`now
  {
    && chain.Valid() && chain.h == f.c.ratchet
    && f.seedDay <= chain.day && chain.key == Steps(f.c.ratchet, f.seed, chain.day - f.seedDay)
  }

  lemma AskKeepsChain(f: Fleet, n: Node, d: u64, r: Result<Option<Digest>, ()>, n': Node)
    requires Asked(f.c.ratchet, n, d, r, n') && f.seedDay <= n.mem.value.day
    requires n.mem.value.key == Steps(f.c.ratchet, f.seed, n.mem.value.day - f.seedDay)
    ensures n'.mem.Some? && f.seedDay <= n'.mem.value.day
    ensures n'.mem.value.key == Steps(f.c.ratchet, f.seed, n'.mem.value.day - f.seedDay)
    ensures r.Ok? && r.value.Some? ==> f.seedDay <= d && r.value.value == Steps(f.c.ratchet, f.seed, d - f.seedDay)
    ensures r.Ok? ==> (r.value.None? <==> d < n.mem.value.day || d - n.mem.value.day > MAX_RATCHET_DAYS)
  {
    hide Writing, Written;
    if Moves(n, d) {
      StepsAdd(f.c.ratchet, f.seed, n.mem.value.day - f.seedDay, d - n.mem.value.day);
    }
  }

  /** An empty segment under the right key, or under a random salt, is properly salted. */
  lemma FreshSegmentIsSalted(f: Fleet, at: u64, scope: Scope, salt: Digest)
    requires ValidFleet(f)
    requires scope.Fleet? ==>
      && f.seedDay <= UtcDay(at) == scope.day
      && salt == f.c.mac(Steps(f.c.ratchet, f.seed, UtcDay(at) - f.seedDay), f.segmentS, SegmentIndex(at, f.segmentS))
    ensures SaltedByOwnTime(f, Segment(at, SegmentIndex(at, f.segmentS), scope, salt, []))
  {
  }

  /** A chain at `day` has no key for the time `at`: it is a past day, or too far ahead. */
  predicate Unkeyed(day: u64, at: u64) { UtcDay(at) < day || UtcDay(at) - day > MAX_RATCHET_DAYS }

  /** The salt of the segment `at` falls in: the fleet salt when this node can have the
      day's key, a random one when it cannot. */
  method SaltFor(f: Fleet, chain: FleetKeyChain, at: u64) returns (r: Option<(Scope, Digest)>)
    requires ValidFleet(f) && ChainOk(f, chain)
    modifies chain, chain.volume
    ensures ChainOk(f, chain)
    ensures r.Some? ==>
      SaltedByOwnTime(f, Segment(at, SegmentIndex(at, f.segmentS), r.value.0, r.value.1, []))
    ensures chain.volume.faults >= old(chain.volume.faults)
    ensures r.None? ==> chain.volume.faults > old(chain.volume.faults)
    ensures r.Some? ==> (r.value.0.Random? <==> Unkeyed(old(chain.day), at))
  {
    hide Moved, Steps, SaltedByOwnTime;
    var day := UtcDay(at);
    ghost var before := chain.State();
    var k := chain.KeyForDay(day);
    AskKeepsChain(f, before, day, k, chain.State());
    match k
    case Err(_) => return None;
    case Ok(None) =>
      var salt: Digest := *;
      FreshSegmentIsSalted(f, at, Random, salt);
      var drawn := chain.volume.Attempt();
      return if drawn then Some((Random, salt)) else None;
    case Ok(Some(key)) =>
      var salt := f.c.mac(key, f.segmentS, SegmentIndex(at, f.segmentS));
      FreshSegmentIsSalted(f, at, Scope.Fleet(day), salt);
      return Some((Scope.Fleet(day), salt));
  }

  /** The opening of a segment: its salt, then its directory and log. A failure of either
      leaves the directories as they are. */
  method OpenAt(f: Fleet, chain: FleetKeyChain, at: u64) returns (r: Option<(Scope, Digest)>)
    requires ValidFleet(f) && ChainOk(f, chain)
    modifies chain, chain.volume
    ensures ChainOk(f, chain)
    ensures r.Some? ==>
      SaltedByOwnTime(f, Segment(at, SegmentIndex(at, f.segmentS), r.value.0, r.value.1, []))
    ensures chain.volume.faults >= old(chain.volume.faults)
    ensures r.None? ==> chain.volume.faults > old(chain.volume.faults)
    ensures r.Some? ==> (r.value.0.Random? <==> Unkeyed(old(chain.day), at))
  {
    hide SaltedByOwnTime;
    r := SaltFor(f, chain, at);
    if r.Some? {
      var created := chain.volume.Attempt();
      if !created { r := None; }
    }
  }

  /** What the background export is told about its segment. */
  datatype Job = Job(started: u64, index: nat, scope: Scope)

  /** The whole archive between two calls. `segs` lists every segment opened so far, the
      last being the current one; `clean` says that no call has failed. */
  datatype Archive = Archive(
    index: nat, started: u64, scope: Scope, salt: Digest, exporting: Option<Job>,
    dirs: map<u64, SegmentDir>, segs: seq<Segment>, running: nat, clean: bool)

  ghost predicate Logged(f: Fleet, dirs: map<u64, SegmentDir>, g: Segment) {
    g.started in dirs && dirs[g.started].log == RowsOf(f.c, f.bytes, g.salt, g.entries)
  }

  ghost predicate AllLogged(f: Fleet, segs: seq<Segment>, dirs: map<u64, SegmentDir>) {
    forall i :: 0 <= i < |segs| && Keeps(segs, i) ==> Logged(f, dirs, segs[i])
  }

  ghost predicate ArchiveOk(f: Fleet, a: Archive)
    requires ValidFleet(f)
  {
    && a.segs != []
    && (var g := a.segs[|a.segs| - 1];
        g.started == a.started && g.index == a.index && g.scope == a.scope && g.salt == a.salt)
    && (forall i :: 0 <= i < |a.segs| ==> SaltedByOwnTime(f, a.segs[i]))
    && AllLogged(f, a.segs, a.dirs)
    && a.running == (if a.exporting.Some? then 1 else 0)
    && (a.exporting.Some? ==>
          && |a.segs| >= 2 && a.segs[|a.segs| - 2].started != a.started
          && a.exporting.value == JobOf(a.segs[|a.segs| - 2]))
    && (a.clean ==> AllSealed(a.segs, a.dirs, |a.segs| - 1 - a.running))
  }

  function JobOf(g: Segment): Job { Job(g.started, g.index, g.scope) }

  /** What a finished export leaves: the seal, counting the rows of the log. */
  function Exported(dirs: map<u64, SegmentDir>, job: Job): map<u64, SegmentDir>
    requires job.started in dirs
  {
    dirs[job.started := dirs[job.started].(seal := Some(Seal(|dirs[job.started].log|, job.index, job.scope)))]
  }

  /** Sealing the segment that is being exported seals one more. */
  lemma ExportSeals(f: Fleet, segs: seq<Segment>, dirs: map<u64, SegmentDir>, k: nat)
    requires k < |segs| && Keeps(segs, k) && AllLogged(f, segs, dirs)
    ensures segs[k].started in dirs
    ensures AllLogged(f, segs, Exported(dirs, JobOf(segs[k])))
    ensures AllSealed(segs, dirs, k) ==> AllSealed(segs, Exported(dirs, JobOf(segs[k])), k + 1)
  {
    assert Logged(f, dirs, segs[k]);
    var after := Exported(dirs, JobOf(segs[k]));
    forall i | 0 <= i < |segs| && Keeps(segs, i) ensures Logged(f, after, segs[i]) {
    }
    if AllSealed(segs, dirs, k) {
      forall i | 0 <= i < k && Keeps(segs, i)
        ensures segs[i].started != segs[k].started
      {
      }
    }
  }

  /** Opening a directory empties its log, which only an older segment of the same stamp
      can notice. */
  lemma OpeningKeepsOthers(f: Fleet, segs: seq<Segment>, dirs: map<u64, SegmentDir>, g: Segment, d: SegmentDir, n: nat)
    requires AllLogged(f, segs, dirs) && g.entries == [] && d.log == [] && n <= |segs|
    ensures AllLogged(f, segs + [g], dirs[g.started := d])
    ensures AllSealed(segs, dirs, n) ==> AllSealed(segs + [g], dirs[g.started := d], n)
  {
    var after := segs + [g];
    forall i | 0 <= i < |after| && Keeps(after, i)
      ensures Logged(f, dirs[g.started := d], after[i])
    {
      if i < |segs| {
        assert after[|segs|].started != segs[i].started;
        KeepsPrefix(segs, g, i);
      }
    }
    if AllSealed(segs, dirs, n) {
      forall i | 0 <= i < n && Keeps(after, i)
        ensures Keeps(segs, i) && segs[i].started != g.started
      {
        assert after[|segs|].started != segs[i].started;
        KeepsPrefix(segs, g, i);
      }
    }
  }

  lemma KeepsPrefix(segs: seq<Segment>, g: Segment, i: nat)
    requires i < |segs| && Keeps(segs + [g], i)
    ensures Keeps(segs, i)
  {
    forall j | i < j < |segs| ensures segs[j].started != segs[i].started {
      assert (segs + [g])[j] == segs[j];
    }
  }

  function Joined(a: Archive): Archive
    requires a.exporting.Some? && a.exporting.value.started in a.dirs
  {
    a.(exporting := None, running := 0, dirs := Exported(a.dirs, a.exporting.value))
  }

  lemma JoinKeeps(f: Fleet, a: Archive)
    requires ValidFleet(f) && ArchiveOk(f, a) && a.exporting.Some?
    ensures a.exporting.value.started in a.dirs
    ensures ArchiveOk(f, Joined(a))
    ensures ArchiveOk(f, a.(exporting := None, running := 0, clean := false))
  {
    hide SaltedByOwnTime, Logged, AllLogged, AllSealed, Exported;
    var k := |a.segs| - 2;
    assert Keeps(a.segs, k);
    ExportSeals(f, a.segs, a.dirs, k);
  }

  lemma LastExportSeals(f: Fleet, a: Archive)
    requires ValidFleet(f) && ArchiveOk(f, a) && a.exporting.None?
    ensures a.running == 0 && a.started in a.dirs
    ensures a.clean ==>
      AllSealed(a.segs, Exported(a.dirs, Job(a.started, a.index, a.scope)), |a.segs|)
  {
    hide SaltedByOwnTime, Logged, AllLogged, AllSealed, Exported;
    var k := |a.segs| - 1;
    assert Keeps(a.segs, k);
    ExportSeals(f, a.segs, a.dirs, k);
  }

  /** The archive after opening segment `g` with `exported` handed to the background. */
  function Rotated(a: Archive, g: Segment, job: Option<Job>): Archive {
    Archive(g.index, g.started, g.scope, g.salt, job, Reopened(a.dirs, g.started), a.segs + [g],
            if job.Some? then 1 else 0, a.clean && job.Some?)
  }

  /** Creating a segment's log empties the directory's old one, if there was one. */
  function Reopened(dirs: map<u64, SegmentDir>, at: u64): map<u64, SegmentDir> {
    dirs[at := SegmentDir([], if at in dirs then dirs[at].seal else None)]
  }

  lemma RotateKeeps(f: Fleet, a: Archive, g: Segment, job: Option<Job>)
    requires ValidFleet(f) && ArchiveOk(f, a) && a.exporting.None?
    requires g.entries == [] && g.index != a.index && SaltedByOwnTime(f, g)
    requires job.Some? ==> job.value == Job(a.started, a.index, a.scope)
    ensures ArchiveOk(f, Rotated(a, g, job))
    ensures Accepted(a.segs + [g]) == Accepted(a.segs)
  {
    hide SaltedByOwnTime, AllLogged, AllSealed, Keeps, Accepted, Reopened, ValidFleet;
    StartsDiffer(f, a.segs[|a.segs| - 1], g);
    ReopeningKeeps(f, a, g);
    AcceptedOfEmpty(a.segs, g);
  }

  lemma ReopeningKeeps(f: Fleet, a: Archive, g: Segment)
    requires AllLogged(f, a.segs, a.dirs) && g.entries == [] && a.segs != []
    ensures AllLogged(f, a.segs + [g], Reopened(a.dirs, g.started))
    ensures AllSealed(a.segs, a.dirs, |a.segs| - 1) ==>
      AllSealed(a.segs + [g], Reopened(a.dirs, g.started), |a.segs| - 1)
  {
    hide AllLogged, AllSealed, Keeps;
    OpeningKeepsOthers(f, a.segs, a.dirs, g, Reopened(a.dirs, g.started)[g.started], |a.segs| - 1);
  }

  lemma AcceptedOfEmpty(segs: seq<Segment>, g: Segment)
    requires g.entries == []
    ensures Accepted(segs + [g]) == Accepted(segs)
  {
    assert (segs + [g])[..|segs|] == segs;
  }

  lemma StartsDiffer(f: Fleet, g: Segment, h: Segment)
    requires ValidFleet(f) && SaltedByOwnTime(f, g) && SaltedByOwnTime(f, h) && g.index != h.index
    ensures g.started != h.started
  {
  }

  lemma AnyFailureKeeps(f: Fleet, a: Archive)
    requires ValidFleet(f) && ArchiveOk(f, a)
    ensures ArchiveOk(f, a.(clean := false))
    ensures a.segs != [] && a.running == (if a.exporting.Some? then 1 else 0)
  {
    hide SaltedByOwnTime, AllLogged, AllSealed;
  }

  /** The segments after the last of them has taken in one more observation. */
  function Noted(segs: seq<Segment>, e: Entry): seq<Segment>
    requires segs != []
  {
    var n := |segs| - 1;
    segs[n := segs[n].(entries := segs[n].entries + [e])]
  }

  function Appended(f: Fleet, a: Archive, e: Entry): Archive
    requires a.segs != [] && a.started in a.dirs
  {
    var log := a.dirs[a.started].log + [RowOf(f.c, f.bytes, a.salt, e)];
    a.(segs := Noted(a.segs, e),
       dirs := a.dirs[a.started := a.dirs[a.started].(log := log)])
  }

  /** Row `i` of a segment's log stands for the segment's observation `i`, under its salt. */
  lemma LogStandsForEntries(f: Fleet, a: Archive, k: nat, i: nat) returns (n: nat)
    requires ValidFleet(f) && ArchiveOk(f, a) && k < |a.segs| && Keeps(a.segs, k) && i < |a.segs[k].entries|
    ensures a.segs[k].started in a.dirs && |a.dirs[a.segs[k].started].log| == |a.segs[k].entries|
    ensures Width(f.bytes, n)
    ensures StandsFor(f.c, n, a.segs[k].salt, a.segs[k].entries[i], a.dirs[a.segs[k].started].log[i])
  {
    hide SaltedByOwnTime, AllSealed, RowOf, StandsFor, Width;
    var g := a.segs[k];
    assert Logged(f, a.dirs, g);
    n := RowStandsFor(f.c, f.bytes, g.salt, g.entries[i]);
  }

  /** Two rows of one segment's log have one pseudonym exactly when the kept bytes of the
      digests of their own address types and addresses agree. */
  lemma PseudonymsAgreeIff(f: Fleet, a: Archive, k: nat, i: nat, j: nat) returns (n: nat)
    requires ValidFleet(f) && ArchiveOk(f, a) && k < |a.segs| && Keeps(a.segs, k)
    requires i < |a.segs[k].entries| && j < |a.segs[k].entries|
    ensures Width(f.bytes, n)
    ensures a.segs[k].started in a.dirs && |a.dirs[a.segs[k].started].log| == |a.segs[k].entries|
    ensures var g, log := a.segs[k], a.dirs[a.segs[k].started].log;
      log[i].deviceHash == log[j].deviceHash <==>
        f.c.digest(g.salt, g.entries[i].adv.addrType, g.entries[i].adv.addr)[..n] ==
        f.c.digest(g.salt, g.entries[j].adv.addrType, g.entries[j].adv.addr)[..n]
  {
    var g := a.segs[k];
    n := LogStandsForEntries(f, a, k, i);
    var m := LogStandsForEntries(f, a, k, j);
    var log := a.dirs[g.started].log;
    hide ArchiveOk;
    SameHashIff(f.c, n, g.salt, g.entries[i], log[i], g.salt, g.entries[j], log[j]);
  }

  lemma AppendKeeps(f: Fleet, a: Archive, e: Entry)
    requires ValidFleet(f) && ArchiveOk(f, a) && SegmentIndex(e.ts, f.segmentS) == a.index
    ensures a.started in a.dirs
    ensures ArchiveOk(f, Appended(f, a, e))
    ensures Accepted(Appended(f, a, e).segs) == Accepted(a.segs) + [e]
  {
    hide SaltedByOwnTime, AllLogged, AllSealed, SegmentIndex, RowOf, RowsOf;
    var n := |a.segs| - 1;
    AppendLogs(f, a, e);
    if a.clean { AppendSealed(f, a, e, n - a.running); }
    AppendSalts(f, a.segs[n], e);
    AcceptedOfAppend(f, a, e);
  }

  lemma AcceptedOfAppend(f: Fleet, a: Archive, e: Entry)
    requires a.segs != [] && a.started in a.dirs
    ensures Accepted(Appended(f, a, e).segs) == Accepted(a.segs) + [e]
  {
    hide RowOf;
    var n := |a.segs| - 1;
    assert Appended(f, a, e).segs[..n] == a.segs[..n];
  }

  lemma AppendLogs(f: Fleet, a: Archive, e: Entry)
    requires a.segs != [] && a.segs[|a.segs| - 1].started == a.started && a.segs[|a.segs| - 1].salt == a.salt
    requires AllLogged(f, a.segs, a.dirs)
    ensures a.started in a.dirs
    ensures AllLogged(f, Appended(f, a, e).segs, Appended(f, a, e).dirs)
  {
    hide RowsOf, RowOf;
    var n := |a.segs| - 1;
    assert Keeps(a.segs, n) && Logged(f, a.dirs, a.segs[n]);
    var b := Appended(f, a, e);
    RowsOfAppend(f.c, f.bytes, a.salt, a.segs[n].entries, e);
    assert Logged(f, b.dirs, b.segs[n]);
    forall i | 0 <= i < n && Keeps(b.segs, i) ensures Logged(f, b.dirs, b.segs[i]) {
      OlderKeeps(a.segs, b.segs, i);
      assert Logged(f, a.dirs, a.segs[i]);
    }
  }

  lemma AppendSealed(f: Fleet, a: Archive, e: Entry, m: nat)
    requires a.segs != [] && a.segs[|a.segs| - 1].started == a.started && a.started in a.dirs
    requires m < |a.segs| && AllSealed(a.segs, a.dirs, m)
    ensures AllSealed(Appended(f, a, e).segs, Appended(f, a, e).dirs, m)
  {
    hide RowsOf, RowOf;
    var b := Appended(f, a, e);
    forall i | 0 <= i < m && Keeps(b.segs, i) ensures Keeps(a.segs, i) && b.segs[i].started != a.started {
      OlderKeeps(a.segs, b.segs, i);
    }
  }

  lemma OlderKeeps(s: seq<Segment>, t: seq<Segment>, i: nat)
    requires |s| == |t| && (forall j :: 0 <= j < |s| ==> s[j].started == t[j].started)
    requires i < |t| - 1 && Keeps(t, i)
    ensures Keeps(s, i) && s[i].started != s[|s| - 1].started
  {
    assert t[|t| - 1].started != t[i].started;
  }

  lemma AppendSalts(f: Fleet, g: Segment, e: Entry)
    requires ValidFleet(f) && SaltedByOwnTime(f, g) && SegmentIndex(e.ts, f.segmentS) == g.index
    ensures SaltedByOwnTime(f, g.(entries := g.entries + [e]))
  {
    var h := g.(entries := g.entries + [e]);
    SameSegmentSameDay(f.segmentS, g.started, e.ts);
    forall i | 0 <= i < |h.entries| ensures OwnSalt(f, h, h.entries[i].ts) {
      if i < |g.entries| { assert OwnSalt(f, g, g.entries[i].ts); }
    }
  }

  class ContinuousLog {
    const f: Fleet
    const chain: FleetKeyChain
    var index: nat
    var started: u64
    var scope: Scope
    var salt: Digest
    var exporting: Option<Job>
    /** The archive's root. A background export touches only its own directory, which
        nothing else touches before the join, so its work is placed at the join. */
    var dirs: map<u64, SegmentDir>
    ghost var segs: seq<Segment>
    ghost var running: nat
    ghost var clean: bool

    ghost function State(): Archive
      reads this
    {
      Archive(index, started, scope, salt, exporting, dirs, segs, running, clean)
    }

    ghost predicate Valid()
      reads this, chain, chain.volume`now
    {
      ValidFleet(f) && ChainOk(f, chain) && ArchiveOk(f, State())
    }

    constructor (f: Fleet, chain: FleetKeyChain, at: u64, scope: Scope, salt: Digest, root: map<u64, SegmentDir>)
      requires ValidFleet(f) && ChainOk(f, chain)
      requires SaltedByOwnTime(f, Segment(at, SegmentIndex(at, f.segmentS), scope, salt, []))
      ensures Valid() && this.f == f && this.chain == chain && clean && running == 0
      ensures segs == [Segment(at, SegmentIndex(at, f.segmentS), scope, salt, [])]
      ensures index == SegmentIndex(at, f.segmentS) && started == at && this.scope == scope && this.salt == salt
    {
      this.f, this.chain := f, chain;
      this.index, this.started, this.scope, this.salt := SegmentIndex(at, f.segmentS), at, scope, salt;
      this.exporting := None;
      this.dirs := Reopened(root, at);
      this.segs := [Segment(at, SegmentIndex(at, f.segmentS), scope, salt, [])];
      this.running, this.clean := 0, true;
    }

    /** Join the background export, if there is one. With `requireFinished`, an export
        that still runs is an error and is left running. */
    method JoinExport(requireFinished: bool) returns (ok: bool)
      requires Valid()
      modifies this, chain.volume`faults
      ensures Valid() && segs == old(segs) && index == old(index) && started == old(started)
      ensures scope == old(scope) && salt == old(salt)
      ensures chain.volume.faults >= old(chain.volume.faults)
      ensures !ok ==> chain.volume.faults > old(chain.volume.faults)
      ensures ok ==> exporting.None?
      ensures clean == (old(clean) && ok)
      ensures exporting.None? || exporting == old(exporting)
    {
      hide ArchiveOk, Accepted, ValidFleet, ChainOk, Exported;
      if exporting.None? { return true; }
      JoinKeeps(f, State());
      var finished := true;
      if requireFinished { finished := chain.volume.Attempt(); }
      if !finished {
        AnyFailureKeeps(f, State());
        clean := false;
        assert State() == old(State()).(clean := false);
        return false;
      }
      var job := exporting.value;
      exporting, running := None, 0;
      ok := chain.volume.Attempt();
      if ok {
        dirs := Exported(dirs, job);
      } else {
        clean := false;
      }
      assert State() ==
        if ok then Joined(old(State())) else old(State()).(exporting := None, running := 0, clean := false);
    }

    /** Close the given segment's log and export it in the background. */
    method SealAsync(job: Job) returns (ok: bool)
      requires exporting.None? && running == 0
      modifies this`exporting, this`running, this`clean, chain.volume`faults
      ensures chain.volume.faults == old(chain.volume.faults) + (if ok then 0 else 1)
      ensures exporting == if ok then Some(job) else None
      ensures running == if ok then 1 else 0
      ensures clean == (old(clean) && ok)
    {
      ok := chain.volume.Attempt();
      if ok { exporting, running := Some(job), 1; } else { clean := false; }
    }

    /** Move to the segment `ts` falls in, if it is another one. */
    method RotateAt(ts: u64) returns (ok: bool)
      requires Valid()
      modifies this, chain, chain.volume
      ensures Valid()
      ensures chain.volume.faults >= old(chain.volume.faults)
      ensures !ok ==> chain.volume.faults > old(chain.volume.faults)
      ensures Accepted(segs) == old(Accepted(segs))
      ensures ok ==> SegmentIndex(ts, f.segmentS) == index
      ensures clean == (old(clean) && ok)
      ensures segs == old(segs) || (|segs| == |old(segs)| + 1 && segs[..|segs| - 1] == old(segs))
      ensures SegmentIndex(ts, f.segmentS) == old(index) ==> ok && State() == old(State())
      ensures ok && SegmentIndex(ts, f.segmentS) != old(index) ==>
        && started == ts && exporting == Some(Job(old(started), old(index), old(scope)))
        && (scope.Random? <==> Unkeyed(old(chain.day), ts))
        && segs == old(segs) + [Segment(ts, index, scope, salt, [])]
    {
      hide ArchiveOk, Accepted, SaltedByOwnTime, ChainOk, Unkeyed;
      if SegmentIndex(ts, f.segmentS) == index { return true; }
      ok := JoinExport(true);
      if !ok { return; }
      var s := OpenAt(f, chain, ts);
      if s.None? {
        ghost var a := State();
        AnyFailureKeeps(f, a);
        clean := false;
        assert State() == a.(clean := false);
        return false;
      }
      ok := Enter(ts, s.value.0, s.value.1);
    }

    /** Replace the current segment by a new one and export the old one. */
    method Enter(ts: u64, newScope: Scope, newSalt: Digest) returns (ok: bool)
      requires Valid() && exporting.None? && SegmentIndex(ts, f.segmentS) != index
      requires SaltedByOwnTime(f, Segment(ts, SegmentIndex(ts, f.segmentS), newScope, newSalt, []))
      modifies this, chain.volume`faults
      ensures Valid()
      ensures chain.volume.faults >= old(chain.volume.faults)
      ensures !ok ==> chain.volume.faults > old(chain.volume.faults)
      ensures Accepted(segs) == old(Accepted(segs))
      ensures SegmentIndex(ts, f.segmentS) == index
      ensures clean == (old(clean) && ok)
      ensures segs == old(segs) + [Segment(ts, index, newScope, newSalt, [])]
      ensures started == ts && scope == newScope && salt == newSalt
      ensures ok ==> exporting == Some(Job(old(started), old(index), old(scope)))
    {
      hide ArchiveOk, Accepted, SaltedByOwnTime, ChainOk;
      ghost var a := State();
      AnyFailureKeeps(f, a);
      var job := Job(started, index, scope);
      ghost var g := Segment(ts, SegmentIndex(ts, f.segmentS), newScope, newSalt, []);
      index, started, scope, salt := SegmentIndex(ts, f.segmentS), ts, newScope, newSalt;
      dirs, segs := Reopened(dirs, ts), segs + [g];
      ok := SealAsync(job);
      RotateKeeps(f, a, g, if ok then Some(job) else None);
      assert State() == Rotated(a, g, if ok then Some(job) else None);
    }

    /** Take in one advertisement: rotate first, then hash, then log. */
    method Observe(adv: Adv, ts: u64) returns (ok: bool)
      requires Valid()
      modifies this, chain, chain.volume
      ensures Valid()
      ensures chain.volume.faults >= old(chain.volume.faults)
      ensures !ok ==> chain.volume.faults > old(chain.volume.faults)
      ensures Accepted(segs) == if ok then old(Accepted(segs)) + [Entry(adv, ts)] else old(Accepted(segs))
      ensures ok ==> index == SegmentIndex(ts, f.segmentS)
      ensures ok && index != old(index) ==> (scope.Random? <==> Unkeyed(old(chain.day), ts))
      ensures ok && index == old(index) ==> scope == old(scope) && salt == old(salt) && exporting == old(exporting)
      ensures clean == (old(clean) && ok)
      ensures ok && index == old(index) ==> old(segs) != [] && segs == Noted(old(segs), Entry(adv, ts))
      ensures ok && index != old(index) ==>
        segs == Noted(old(segs) + [Segment(ts, index, scope, salt, [])], Entry(adv, ts))
      ensures ok ==>
        && started in dirs && dirs[started].log != []
        && Logs(f, salt, Entry(adv, ts), dirs[started].log[|dirs[started].log| - 1])
    {
      hide ArchiveOk, Accepted, ChainOk, Unkeyed, Logs;
      ok := RotateAt(ts);
      if !ok { return; }
      ok := Log(adv, ts);
    }

    /** Hash one advertisement of the current segment and append its row. */
    method Log(adv: Adv, ts: u64) returns (ok: bool)
      requires Valid() && SegmentIndex(ts, f.segmentS) == index
      modifies this, chain.volume`faults
      ensures Valid()
      ensures chain.volume.faults == old(chain.volume.faults) + (if ok then 0 else 1)
      ensures Accepted(segs) == if ok then old(Accepted(segs)) + [Entry(adv, ts)] else old(Accepted(segs))
      ensures index == old(index) && scope == old(scope) && salt == old(salt) && exporting == old(exporting)
      ensures clean == (old(clean) && ok)
      ensures old(segs) != [] && segs == if ok then Noted(old(segs), Entry(adv, ts)) else old(segs)
      ensures ok ==>
        && started in dirs && dirs[started].log != []
        && Logs(f, salt, Entry(adv, ts), dirs[started].log[|dirs[started].log| - 1])
    {
      hide ArchiveOk, Accepted, RowOf, StandsFor, Width;
      ghost var a := State();
      AppendKeeps(f, a, Entry(adv, ts));
      AnyFailureKeeps(f, a);
      ok := chain.volume.Attempt();
      if !ok {
        clean := false;
        assert State() == a.(clean := false);
        return;
      }
      var row := RowOf(f.c, f.bytes, salt, Entry(adv, ts));
      ghost var n := RowStandsFor(f.c, f.bytes, salt, Entry(adv, ts));
      dirs := dirs[started := dirs[started].(log := dirs[started].log + [row])];
      segs := Noted(segs, Entry(adv, ts));
      assert State() == Appended(f, a, Entry(adv, ts));
    }

    /** Close the archive: join the export in flight, then export the last segment and
        join that too. Succeeding, with no earlier failure, leaves every segment sealed. */
    method Finish() returns (ok: bool)
      requires Valid()
      modifies this, chain.volume`faults
      ensures segs == old(segs)
      ensures chain.volume.faults >= old(chain.volume.faults)
      ensures !ok ==> chain.volume.faults > old(chain.volume.faults)
      ensures ok ==> running == 0
      ensures ok && old(clean) ==> AllSealed(segs, dirs, |segs|)
    {
      hide ArchiveOk, AllSealed, ChainOk;
      ok := JoinExport(false);
      if !ok { return; }
      LastExportSeals(f, State());
      var job := Job(started, index, scope);
      ok := SealAsync(job);
      if !ok { return; }
      exporting, running := None, 0;
      ok := chain.volume.Attempt();
      if ok { dirs := Exported(dirs, job); }
    }
  }

  /** Open the archive at time `at`, refusing a length a day's key could not cover. */
  method Open(f: Fleet, chain: FleetKeyChain, at: u64, root: map<u64, SegmentDir>) returns (log: ContinuousLog?)
    requires ChainOk(f, chain)
    modifies chain, chain.volume
    ensures log == null ==>
      f.segmentS < 60 || 86_400 % f.segmentS != 0 || chain.volume.faults > old(chain.volume.faults)
    ensures log != null ==> f.segmentS >= 60 && 86_400 % f.segmentS == 0
    ensures log != null ==> fresh(log) && log.Valid() && log.clean
    ensures log != null ==> log.f == f && log.chain == chain && Accepted(log.segs) == []
    ensures log != null ==> log.started == at && (log.scope.Random? <==> Unkeyed(old(chain.day), at))
    ensures log != null ==> log.index == SegmentIndex(at, f.segmentS)
    ensures log != null ==> log.segs == [Segment(at, log.index, log.scope, log.salt, [])]
    ensures chain.volume.faults >= old(chain.volume.faults)
  {
    if f.segmentS < 60 || DAY_S % f.segmentS != 0 { return null; }
    var s := OpenAt(f, chain, at);
    if s.None? { return null; }
    log := new ContinuousLog(f, chain, at, s.value.0, s.value.1, root);
  }

  /** The loss happens in a run without faults. A clock that leaves a segment and comes back
      to the very nanosecond at which it was opened empties its directory: the observation
      was accepted, every segment is sealed, and no seal counts it. */
  method ReturningClockLosesRows(f: Fleet, chain: FleetKeyChain, adv: Adv, at: u64, later: u64,
                                 root: map<u64, SegmentDir>)
    returns (log: ContinuousLog?)
    requires ValidFleet(f) && ChainOk(f, chain) && SegmentIndex(later, f.segmentS) != SegmentIndex(at, f.segmentS)
    modifies chain, chain.volume
    ensures chain.volume.faults >= old(chain.volume.faults)
    ensures chain.volume.faults == old(chain.volume.faults) ==>
      && log != null && Accepted(log.segs) == [Entry(adv, at)]
      && AllSealed(log.segs, log.dirs, |log.segs|) && SealedRows(log.segs, log.dirs, |log.segs|) == 0
  {
    hide ChainOk, ArchiveOk, AllSealed, Accepted, Unkeyed, SegmentIndex, SealedRows, Logs;
    log := Open(f, chain, at, root);
    if log == null { return; }
    var ok := log.Observe(adv, at);
    if !ok { return; }
    ok := log.RotateAt(later);
    if !ok { return; }
    ok := log.RotateAt(at);
    if !ok { return; }
    ok := log.Finish();
    if !ok { return; }
    assert |log.segs| == 3 && log.segs[0].started == log.segs[2].started && !Keeps(log.segs, 0);
    NothingSealed(log.segs, log.dirs, 3);
  }
}
