/**
 A directory as a POSIX file system keeps it across a power cut.

 File contents survive only after an fsync of the file, and a changed directory
 entry is certain only after an fsync of the directory: until then a cut may leave
 either the old or the new entry, name by name. Renames never leave one file under
 two names. These are the facts the write protocols of the key file, the segment
 sidecar and the exported container rely on.
 */
module Disk {
  import opened Prelude

  type Name = string

  datatype File<D> = File(data: D, synced: bool)

  /** `entries[n]` is every file number the name `n` may show after a cut: the entry that
      is certain to be on disk, then each later one, the last being the live entry. */
  datatype Dir<D> = Dir(files: seq<File<D>>, entries: map<Name, seq<Option<nat>>>) {

    function History(n: Name): seq<Option<nat>> {
      if n in entries && entries[n] != [] then entries[n] else [None]
    }

    function Live(n: Name): Option<nat> {
      var h := History(n);
      h[|h| - 1]
    }

    /** No entry names a file that was never made, and no two names share a live file. */
    ghost predicate Wf() {
      && (forall n, e :: e in History(n) && e.Some? ==> e.value < |files|)
      && (forall m, n :: m != n && Live(m).Some? ==> Live(m) != Live(n))
    }

    /** What a reader of `n` finds now. */
    function Read(n: Name): Option<D> {
      match Live(n)
      case Some(i) => if i < |files| then Some(files[i].data) else None
      case None => None
    }

    function Point(n: Name, e: Option<nat>): Dir<D> {
      this.(entries := entries[n := History(n) + [e]])
    }

    /** Open for writing with create and truncate. */
    function Create(n: Name, empty: D): Dir<D> {
      match Live(n)
      case Some(i) =>
        if i < |files| then this.(files := files[i := File(empty, false)]) else this
      case None =>
        this.(files := files + [File(empty, false)]).Point(n, Some(|files|))
    }

    function Write(n: Name, d: D): Dir<D> {
      match Live(n)
      case Some(i) =>
        if i < |files| then this.(files := files[i := File(d, false)]) else this
      case None => this
    }

    function Fsync(n: Name): Dir<D> {
      match Live(n)
      case Some(i) =>
        if i < |files| then this.(files := files[i := files[i].(synced := true)]) else this
      case None => this
    }

    function Remove(n: Name): Dir<D> {
      Point(n, None)
    }

    function Rename(a: Name, b: Name): Dir<D>
      requires a != b
    {
      if Live(a).None? then this else Point(b, Live(a)).Point(a, None)
    }

    function FsyncDir(): Dir<D> {
      Dir(files, map n | n in entries :: [Live(n)])
    }
  }

  /** `t` is a state the volume may come back in when the power is cut in state `s`. */
  ghost predicate CrashOf<D>(s: Dir<D>, t: Dir<D>) {
    && |t.files| == |s.files|
    && (forall i :: 0 <= i < |s.files| && s.files[i].synced ==> t.files[i] == s.files[i])
    && (forall i :: 0 <= i < |t.files| ==> t.files[i].synced)
    && (forall n :: t.History(n) == [t.Live(n)] && t.Live(n) in s.History(n))
    && (forall m, n :: m != n && t.Live(m).Some? ==> t.Live(m) != t.Live(n))
  }

  /** Writing under `n` cannot reach a file that another name may show. */
  ghost predicate Private<D>(s: Dir<D>, n: Name) {
    s.Live(n).Some? ==> forall m :: m != n ==> s.Live(n) !in s.History(m)
  }

  /** The disk after a cut that brings `n` back as `e` and every other name as it is. */
  function Reverting<D>(t: Dir<D>, n: Name, e: Option<nat>): Dir<D> {
    Dir(seq(|t.files|, i requires 0 <= i < |t.files| => t.files[i].(synced := true)),
        map m | m in t.entries :: if m == n then [e] else [t.Live(m)])
  }

  lemma RevertingIsACrash<D>(t: Dir<D>, n: Name, e: Option<nat>)
    requires t.Wf() && e in t.History(n)
    requires forall m :: m != n && t.Live(m).Some? ==> t.Live(m) != e
    ensures CrashOf(t, Reverting(t, n, e))
    ensures forall m :: Reverting(t, n, e).Live(m) == (if m == n then e else t.Live(m))
    ensures forall i :: 0 <= i < |t.files| ==> Reverting(t, n, e).files[i] == File(t.files[i].data, true)
  {
    var u := Reverting(t, n, e);
    assert forall m :: u.History(m) == (if m == n then [e] else [t.Live(m)]);
    forall m ensures u.Live(m) in t.History(m) && (m != n ==> u.Live(m) == t.Live(m)) {
    }
  }

  lemma CrashKeepsForm<D>(s: Dir<D>, t: Dir<D>, n: Name)
    requires s.Wf() && CrashOf(s, t)
    ensures t.Wf() && Private(t, n)
  {
    forall m, e | e in t.History(m) && e.Some?
      ensures e.value < |t.files|
    {
      assert e == t.Live(m) && t.Live(m) in s.History(m);
    }
    forall m | m != n && t.Live(n).Some?
      ensures t.Live(n) !in t.History(m)
    {
      assert t.History(m) == [t.Live(m)];
    }
  }

  /** `u` differs from `t` only in the entry and the private file of the name `n`. */
  ghost predicate OnlyUnder<D>(t: Dir<D>, u: Dir<D>, n: Name) {
    && u.Wf() && Private(u, n) && |t.files| <= |u.files|
    && (forall m :: m != n ==> u.History(m) == t.History(m))
    && (forall i :: 0 <= i < |t.files| && t.Live(n) != Some(i) ==> u.files[i] == t.files[i])
    && (forall e :: e in u.History(n) ==> e in t.History(n) || e == u.Live(n))
  }

  lemma CreateStaysUnder<D>(t: Dir<D>, n: Name, empty: D)
    requires t.Wf() && Private(t, n)
    ensures OnlyUnder(t, t.Create(n, empty), n) && HasFile(t.Create(n, empty), n)
  {
    var u := t.Create(n, empty);
    assert forall m :: m != n ==> u.History(m) == t.History(m);
    if t.Live(n).None? {
      assert u.History(n) == t.History(n) + [Some(|t.files|)];
      forall m | m != n ensures Some(|t.files|) !in u.History(m) {
        assert u.History(m) == t.History(m);
      }
      forall m, k | m != k && u.Live(m).Some? ensures u.Live(m) != u.Live(k) {
        assert m != n ==> u.Live(m) == t.Live(m) && u.Live(m) in u.History(m);
        assert k != n ==> u.Live(k) == t.Live(k) && u.Live(k) in u.History(k);
      }
    } else {
      SameEntries(t, u, n);
    }
  }

  lemma SameEntries<D>(t: Dir<D>, u: Dir<D>, n: Name)
    requires t.Wf() && Private(t, n) && u.entries == t.entries && |u.files| == |t.files|
    ensures u.Wf() && Private(u, n)
    ensures forall m :: u.History(m) == t.History(m)
  {
    assert forall m :: u.History(m) == t.History(m) && u.Live(m) == t.Live(m);
  }

  lemma FileWorkStaysUnder<D>(t: Dir<D>, n: Name, d: D)
    requires t.Wf() && Private(t, n)
    ensures OnlyUnder(t, t.Write(n, d), n) && OnlyUnder(t, t.Fsync(n), n)
  {
    SameEntries(t, t.Write(n, d), n);
    SameEntries(t, t.Fsync(n), n);
  }

  lemma RemoveStaysUnder<D>(t: Dir<D>, n: Name)
    requires t.Wf() && Private(t, n)
    ensures OnlyUnder(t, t.Remove(n), n)
  {
    var u := t.Remove(n);
    assert u.files == t.files && u.History(n) == t.History(n) + [None] && u.Live(n) == None;
    assert forall m :: m != n ==> u.History(m) == t.History(m) && u.Live(m) == t.Live(m);
    assert u.Wf();
  }

  ghost predicate HasFile<D>(t: Dir<D>, n: Name) {
    t.Live(n).Some? && t.Live(n).value < |t.files|
  }

  // -- replacing a file atomically -----------------------------------------------------

  /** After a cut, `e` would show all of `d`. */
  ghost predicate Holds<D>(t: Dir<D>, e: Option<nat>, d: D) {
    e.Some? && e.value < |t.files| && t.files[e.value] == File(d, true)
  }

  ghost predicate Kept<D>(s: Dir<D>, t: Dir<D>, n: Name, e: Option<nat>) {
    && e in s.History(n)
    && (e.Some? ==> e.value < |s.files| <= |t.files| && t.files[e.value] == s.files[e.value])
  }

  /** On the way from `s`: after a cut in `t`, `target` shows what it could show in `s`,
      or all of `d`, and every other name but the temp name is as in `s`. */
  ghost predicate Replacing<D>(s: Dir<D>, tmp: Name, target: Name, d: D, t: Dir<D>) {
    && t.Wf() && Private(t, tmp) && tmp != target
    && (forall e :: e in t.History(target) ==> Kept(s, t, target, e) || Holds(t, e, d))
    && (forall m, e :: m != tmp && m != target && e in t.History(m) ==> Kept(s, t, m, e))
    && (forall m :: m != tmp && m != target ==> t.Live(m) == s.Live(m) && (Private(s, m) ==> Private(t, m)))
  }

  ghost predicate Replaced<D>(s: Dir<D>, tmp: Name, target: Name, d: D, t: Dir<D>) {
    && Replacing(s, tmp, target, d, t)
    && t.History(target) == [t.Live(target)] && Holds(t, t.Live(target), d)
  }

  lemma ReplacingStarts<D>(s: Dir<D>, tmp: Name, target: Name, d: D)
    requires s.Wf() && Private(s, tmp) && tmp != target
    ensures Replacing(s, tmp, target, d, s)
  {
    forall m, e | e in s.History(m) ensures Kept(s, s, m, e) {
      assert e.Some? ==> e.value < |s.files|;
    }
  }

  /** Work on the temp file leaves what every other name shows alone. */
  lemma TempWorkIsInvisible<D>(s: Dir<D>, tmp: Name, target: Name, d: D, t: Dir<D>, u: Dir<D>)
    requires Replacing(s, tmp, target, d, t) && OnlyUnder(t, u, tmp)
    ensures Replacing(s, tmp, target, d, u)
  {
    forall m, e | m != tmp && e in u.History(m)
      ensures e in t.History(m) && (Kept(s, t, m, e) ==> Kept(s, u, m, e)) && (Holds(t, e, d) ==> Holds(u, e, d))
    {
      assert e.Some? ==> e != t.Live(tmp);
    }
    OnlyUnderKeepsPrivate(t, u, tmp);
  }

  lemma OnlyUnderKeepsPrivate<D>(t: Dir<D>, u: Dir<D>, n: Name)
    requires OnlyUnder(t, u, n)
    ensures forall m :: m != n ==> u.Live(m) == t.Live(m) && (Private(t, m) ==> Private(u, m))
  {
    forall m | m != n ensures u.Live(m) == t.Live(m) && (Private(t, m) ==> Private(u, m)) {
      assert u.History(m) == t.History(m);
      if Private(t, m) && u.Live(m).Some? {
        forall k | k != m ensures u.Live(m) !in u.History(k) {
          assert k != n ==> u.History(k) == t.History(k);
        }
      }
    }
  }

  lemma TempCreated<D>(s: Dir<D>, tmp: Name, target: Name, d: D, t: Dir<D>, empty: D)
    requires Replacing(s, tmp, target, d, t)
    ensures Replacing(s, tmp, target, d, t.Create(tmp, empty))
    ensures HasFile(t.Create(tmp, empty), tmp)
  {
    CreateStaysUnder(t, tmp, empty);
    TempWorkIsInvisible(s, tmp, target, d, t, t.Create(tmp, empty));
    assert t.Live(tmp) in t.History(tmp);
  }

  lemma TempWritten<D>(s: Dir<D>, tmp: Name, target: Name, d: D, t: Dir<D>, written: D)
    requires Replacing(s, tmp, target, d, t) && HasFile(t, tmp)
    ensures Replacing(s, tmp, target, d, t.Write(tmp, written))
    ensures HasFile(t.Write(tmp, written), tmp)
    ensures t.Write(tmp, written).Read(tmp) == Some(written)
  {
    FileWorkStaysUnder(t, tmp, written);
    TempWorkIsInvisible(s, tmp, target, d, t, t.Write(tmp, written));
  }

  lemma TempSynced<D>(s: Dir<D>, tmp: Name, target: Name, d: D, t: Dir<D>)
    requires Replacing(s, tmp, target, d, t) && HasFile(t, tmp) && t.Read(tmp) == Some(d)
    ensures Replacing(s, tmp, target, d, t.Fsync(tmp))
    ensures Holds(t.Fsync(tmp), t.Fsync(tmp).Live(tmp), d)
  {
    FileWorkStaysUnder(t, tmp, d);
    TempWorkIsInvisible(s, tmp, target, d, t, t.Fsync(tmp));
  }

  lemma RenameHistories<D>(t: Dir<D>, a: Name, b: Name)
    requires a != b && t.Live(a).Some?
    ensures
      var u := t.Rename(a, b);
      && u.files == t.files && u.History(b) == t.History(b) + [t.Live(a)] && u.History(a) == t.History(a) + [None]
      && forall m :: m != a && m != b ==> u.History(m) == t.History(m)
  {
  }

  lemma RenameShowsTheFile<D>(s: Dir<D>, tmp: Name, target: Name, d: D, t: Dir<D>)
    requires Replacing(s, tmp, target, d, t) && Holds(t, t.Live(tmp), d)
    ensures Replacing(s, tmp, target, d, t.Rename(tmp, target))
    ensures Holds(t.Rename(tmp, target), t.Rename(tmp, target).Live(target), d)
  {
    var u := t.Rename(tmp, target);
    RenameHistories(t, tmp, target);
    assert forall m :: m != tmp && m != target ==> u.Live(m) == t.Live(m);
    assert u.Live(target) == t.Live(tmp) && u.Live(tmp) == None;
    forall m, e | m != tmp && e in u.History(m)
      ensures e in t.History(m) || (m == target && e == t.Live(tmp))
    {
    }
    forall m, e | m != tmp && Kept(s, t, m, e) ensures Kept(s, u, m, e) {
    }
    forall m | m != tmp && m != target && Private(t, m) ensures Private(u, m) {
      forall k | k != m && u.Live(m).Some? ensures u.Live(m) !in u.History(k) {
        assert k != target && k != tmp ==> u.History(k) == t.History(k);
      }
    }
  }

  lemma DirSyncSettles<D>(s: Dir<D>, tmp: Name, target: Name, d: D, t: Dir<D>)
    requires Replacing(s, tmp, target, d, t) && Holds(t, t.Live(target), d)
    ensures Replaced(s, tmp, target, d, t.FsyncDir())
  {
    var u := t.FsyncDir();
    DirSyncHistories(t);
    forall m, e | m != tmp && Kept(s, t, m, e) ensures Kept(s, u, m, e) {
    }
  }

  // -- filling a file in place ------------------------------------------------------------

  /** Names other than `n` show in `t` only what they could show in `s`. */
  ghost predicate Beside<D>(s: Dir<D>, n: Name, t: Dir<D>) {
    && t.Wf() && Private(t, n)
    && (forall m, e :: m != n && e in t.History(m) ==> Kept(s, t, m, e))
    && (forall m :: m != n && Private(s, m) ==> Private(t, m))
  }

  lemma BesideStarts<D>(s: Dir<D>, n: Name)
    requires s.Wf() && Private(s, n)
    ensures Beside(s, n, s)
  {
    forall m, e | e in s.History(m) ensures Kept(s, s, m, e) {
      assert e.Some? ==> e.value < |s.files|;
    }
  }

  lemma WorkStaysBeside<D>(s: Dir<D>, n: Name, t: Dir<D>, u: Dir<D>)
    requires Beside(s, n, t) && OnlyUnder(t, u, n)
    ensures Beside(s, n, u)
  {
    forall m, e | m != n && e in u.History(m) ensures Kept(s, u, m, e) {
      assert Kept(s, t, m, e);
      assert e.Some? ==> e != t.Live(n);
    }
    OnlyUnderKeepsPrivate(t, u, n);
  }

  lemma WriteStaysBeside<D>(s: Dir<D>, n: Name, t: Dir<D>, d: D)
    requires Beside(s, n, t) && HasFile(t, n)
    ensures Beside(s, n, t.Write(n, d)) && HasFile(t.Write(n, d), n) && t.Write(n, d).Read(n) == Some(d)
  {
    FileWorkStaysUnder(t, n, d);
    WorkStaysBeside(s, n, t, t.Write(n, d));
  }

  lemma SyncStaysBeside<D>(s: Dir<D>, n: Name, t: Dir<D>, d: D)
    requires Beside(s, n, t) && HasFile(t, n) && t.Read(n) == Some(d)
    ensures Beside(s, n, t.Fsync(n)) && Holds(t.Fsync(n), t.Fsync(n).Live(n), d)
  {
    FileWorkStaysUnder(t, n, d);
    WorkStaysBeside(s, n, t, t.Fsync(n));
  }

  lemma DirSyncHistories<D>(t: Dir<D>)
    ensures t.FsyncDir().files == t.files
    ensures forall m :: t.FsyncDir().History(m) == [t.Live(m)] && t.FsyncDir().Live(m) == t.Live(m)
    ensures forall m :: t.Live(m) in t.History(m)
  {
  }

  lemma DirSyncStaysBeside<D>(s: Dir<D>, n: Name, t: Dir<D>, c: D)
    requires Beside(s, n, t) && Holds(t, t.Live(n), c)
    ensures Beside(s, n, t.FsyncDir())
    ensures forall e :: e in t.FsyncDir().History(n) ==> Holds(t.FsyncDir(), e, c)
  {
    var u := t.FsyncDir();
    DirSyncHistories(t);
    forall m, e | m != n && e in u.History(m) ensures Kept(s, u, m, e) {
      assert Kept(s, t, m, e);
    }
  }

  /**
   The running system's view of one directory. Every operation may fail, and `trail`
   records each state passed through: those are the states a power cut can hit.
   */
  class Volume<D(0)> {
    var now: Dir<D>
    ghost var trail: seq<Dir<D>>
    /** How many operations have failed. */
    ghost var faults: nat

    constructor (start: Dir<D>)
      ensures now == start && trail == [start] && faults == 0
    {
      now := start;
      trail := [start];
      faults := 0;
    }

    /** Any other request to the system. */
    method Attempt() returns (ok: bool)
      modifies this`faults
      ensures faults == old(faults) + (if ok then 0 else 1)
    {
      ok := *;
      if !ok { faults := faults + 1; }
    }

    method Create(n: Name, empty: D) returns (ok: bool)
      modifies this
      ensures now == if ok then old(now).Create(n, empty) else old(now)
      ensures trail == old(trail) + [now]
      ensures faults == old(faults) + (if ok then 0 else 1)
    {
      ok := Attempt();
      if ok { now := now.Create(n, empty); }
      trail := trail + [now];
    }

    /** A failed write may have put anything into the file. */
    method WriteAll(n: Name, d: D) returns (ok: bool, written: D)
      modifies this
      ensures ok ==> written == d
      ensures now == old(now).Write(n, written)
      ensures trail == old(trail) + [now]
      ensures faults == old(faults) + (if ok then 0 else 1)
    {
      ok := Attempt();
      written := d;
      if !ok { written := *; }
      now := now.Write(n, written);
      trail := trail + [now];
    }

    method Fsync(n: Name) returns (ok: bool)
      modifies this
      ensures now == if ok then old(now).Fsync(n) else old(now)
      ensures trail == old(trail) + [now]
      ensures faults == old(faults) + (if ok then 0 else 1)
    {
      ok := Attempt();
      if ok { now := now.Fsync(n); }
      trail := trail + [now];
    }

    method Remove(n: Name) returns (ok: bool)
      modifies this
      ensures now == if ok then old(now).Remove(n) else old(now)
      ensures trail == old(trail) + [now]
      ensures faults == old(faults) + (if ok then 0 else 1)
    {
      ok := Attempt();
      if ok { now := now.Remove(n); }
      trail := trail + [now];
    }

    method Rename(a: Name, b: Name) returns (ok: bool)
      requires a != b
      modifies this
      ensures now == if ok then old(now).Rename(a, b) else old(now)
      ensures trail == old(trail) + [now]
      ensures faults == old(faults) + (if ok then 0 else 1)
    {
      ok := Attempt();
      if ok { now := now.Rename(a, b); }
      trail := trail + [now];
    }

    method FsyncDir() returns (ok: bool)
      modifies this
      ensures now == if ok then old(now).FsyncDir() else old(now)
      ensures trail == old(trail) + [now]
      ensures faults == old(faults) + (if ok then 0 else 1)
    {
      ok := Attempt();
      if ok { now := now.FsyncDir(); }
      trail := trail + [now];
    }
  }

  /** Create, fill and fsync a file in place. */
  method FillInPlace<D(0)>(volume: Volume<D>, n: Name, empty: D, d: D) returns (ok: bool)
    requires volume.now.Wf() && Private(volume.now, n)
    modifies volume
    ensures Beside(old(volume.now), n, volume.now)
    ensures ok ==> Holds(volume.now, volume.now.Live(n), d)
    ensures volume.faults >= old(volume.faults) && (ok <==> volume.faults == old(volume.faults))
    ensures old(volume.trail) <= volume.trail
    ensures forall i :: |old(volume.trail)| <= i < |volume.trail| ==> Beside(old(volume.now), n, volume.trail[i])
  {
    hide Beside, Holds;
    ghost var s := volume.now;
    BesideStarts(s, n);
    CreateStaysUnder(s, n, empty);
    WorkStaysBeside(s, n, s, s.Create(n, empty));
    ok := volume.Create(n, empty);
    if !ok { return; }
    ghost var t := volume.now;
    var written;
    ok, written := volume.WriteAll(n, d);
    WriteStaysBeside(s, n, t, written);
    if !ok { return; }
    SyncStaysBeside(s, n, volume.now, d);
    ok := volume.Fsync(n);
  }

  // -- the replacement's steps when nothing fails --------------------------------------------

  function TempFilled<D>(s: Dir<D>, tmp: Name, empty: D, d: D): Dir<D> {
    s.Create(tmp, empty).Write(tmp, d).Fsync(tmp)
  }

  /** `target` shows the new file, and what a cut brings back is not yet settled. */
  function Renamed<D>(s: Dir<D>, tmp: Name, target: Name, empty: D, d: D, unlink: bool): Dir<D>
    requires tmp != target
  {
    TempFilled(if unlink then s.Remove(tmp) else s, tmp, empty, d).Rename(tmp, target)
  }

  /** Create, fill and fsync the temp file. */
  method FillTemp<D(0)>(volume: Volume<D>, tmp: Name, empty: D, d: D, ghost s: Dir<D>, ghost target: Name)
    returns (ok: bool)
    requires Replacing(s, tmp, target, d, volume.now)
    modifies volume
    ensures Replacing(s, tmp, target, d, volume.now)
    ensures ok ==> Holds(volume.now, volume.now.Live(tmp), d)
    ensures ok ==> volume.now == TempFilled(old(volume.now), tmp, empty, d)
    ensures ok <==> volume.faults == old(volume.faults)
    ensures volume.faults >= old(volume.faults)
    ensures old(volume.trail) <= volume.trail
    ensures forall i :: |old(volume.trail)| <= i < |volume.trail| ==>
      Replacing(s, tmp, target, d, volume.trail[i])
  {
    hide Replacing, Holds;
    TempCreated(s, tmp, target, d, volume.now, empty);
    ok := volume.Create(tmp, empty);
    if !ok { return; }
    ghost var t := volume.now;
    var written;
    ok, written := volume.WriteAll(tmp, d);
    TempWritten(s, tmp, target, d, t, written);
    if !ok { return; }
    TempSynced(s, tmp, target, d, volume.now);
    ok := volume.Fsync(tmp);
  }

  /** Move the filled temp file over `target` and make the move durable. */
  method Publish<D(0)>(volume: Volume<D>, tmp: Name, target: Name, ghost d: D, ghost s: Dir<D>)
    returns (ok: bool)
    requires tmp != target && Replacing(s, tmp, target, d, volume.now)
    requires Holds(volume.now, volume.now.Live(tmp), d)
    modifies volume
    ensures Replacing(s, tmp, target, d, volume.now)
    ensures ok ==> Replaced(s, tmp, target, d, volume.now)
    ensures ok ==>
      var moved := old(volume.now).Rename(tmp, target);
      volume.trail == old(volume.trail) + [moved, moved.FsyncDir()] && volume.now == moved.FsyncDir()
    ensures ok <==> volume.faults == old(volume.faults)
    ensures volume.faults >= old(volume.faults)
    ensures old(volume.trail) <= volume.trail
    ensures forall i :: |old(volume.trail)| <= i < |volume.trail| ==>
      Replacing(s, tmp, target, d, volume.trail[i])
  {
    hide Replacing, Replaced, Holds, HasFile;
    RenameShowsTheFile(s, tmp, target, d, volume.now);
    ok := volume.Rename(tmp, target);
    if !ok { return; }
    DirSyncSettles(s, tmp, target, d, volume.now);
    ok := volume.FsyncDir();
  }

  /**
   Replace `target` by a whole new file: fill a temp file beside it, fsync it, rename it
   over `target`, fsync the directory. The first failing step ends the work. `unlink`
   first clears a temp file that a crash left behind.
   */
  method ReplaceFile<D(0)>(volume: Volume<D>, tmp: Name, target: Name, empty: D, d: D, unlink: bool)
    returns (ok: bool)
    requires volume.now.Wf() && Private(volume.now, tmp) && tmp != target
    modifies volume
    ensures Replacing(old(volume.now), tmp, target, d, volume.now)
    ensures ok ==> Replaced(old(volume.now), tmp, target, d, volume.now)
    ensures volume.faults >= old(volume.faults) && (!ok ==> volume.faults > old(volume.faults))
    ensures !unlink ==> (ok <==> volume.faults == old(volume.faults))
    ensures old(volume.trail) <= volume.trail
    ensures volume.faults == old(volume.faults) ==>
      var moved := Renamed(old(volume.now), tmp, target, empty, d, unlink);
      moved in volume.trail[|old(volume.trail)|..] && volume.now == moved.FsyncDir()
    ensures forall i :: |old(volume.trail)| <= i < |volume.trail| ==>
      Replacing(old(volume.now), tmp, target, d, volume.trail[i])
  {
    hide Replacing, Replaced, Holds;
    ghost var s := volume.now;
    ReplacingStarts(s, tmp, target, d);
    if unlink {
      RemoveStaysUnder(s, tmp);
      TempWorkIsInvisible(s, tmp, target, d, s, s.Remove(tmp));
      var _ := volume.Remove(tmp);
    }
    ok := FillTemp(volume, tmp, empty, d, s, target);
    if !ok { return; }
    ghost var before := |volume.trail|;
    ok := Publish(volume, tmp, target, d, s);
    assert ok ==> volume.trail[before] in volume.trail[|old(volume.trail)|..];
  }
}
