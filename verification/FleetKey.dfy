/**
 The fleet key chain: one key per UTC day, moved forward by a one-way step, and the
 root-only file that carries it across reboots.
 SHA-256 is a parameter, so every result holds for any hash.
 */
module FleetKey {
  import opened Prelude
  import opened Text
  import opened Disk

  type Digest = d: seq<u8> | |d| == 32 witness seq(32, i => 0)

  /** Both `SHA-256(tag || key)`, the next day's key, and anything else of that shape. */
  type Ratchet = Digest -> Digest

  const SCHEMA := "csid-ble-fleet-key/2"
  const MAX_RATCHET_DAYS: nat := 366
  const KEY: Name := "ble-fleet.key"
  const TMP: Name := ".ble-fleet.key.tmp"

  function Zero(): Digest { seq(32, i => 0) }

  datatype DayKey = DayKey(day: u64, key: Digest)

  /** The key `n` days after `k`. */
  function Steps(h: Ratchet, k: Digest, n: nat): Digest {
    if n == 0 then k else h(Steps(h, k, n - 1))
  }

  lemma {:induction false} StepsAdd(h: Ratchet, k: Digest, m: nat, n: nat)
    ensures Steps(h, Steps(h, k, m), n) == Steps(h, k, m + n)
  {
    if n > 0 { StepsAdd(h, k, m, n - 1); }
  }

  // -- the key file ----------------------------------------------------------------

  function Render(day: u64, key: Digest): string {
    SCHEMA + "\n" + ("day " + Decimal(day) + "\n" + ("key " + Hex(key) + "\n" + ""))
  }

  function FromHex(s: string): Option<Digest> {
    if |s| != 64 then None
    else match ParseHex(s)
      case Some(key) => if key == Zero() then None else Some(key)
      case None => None
  }

  function Parse(text: string): Option<DayKey> {
    var f := Fields(text);
    if |f| == 0 || f[0] != SCHEMA || |f| < 2 then None
    else match StripPrefix(f[1], "day ")
      case None => None
      case Some(d) =>
        match ParseU64(Trim(d))
        case None => None
        case Some(day) =>
          if |f| < 3 then None
          else match StripPrefix(f[2], "key ")
            case None => None
            case Some(k) =>
              match FromHex(Trim(k))
              case None => None
              case Some(key) => if |f| == 3 then Some(DayKey(day, key)) else None
  }

  /** A text is a key file exactly when it has three lines, the format's name, a day and a key
      of 64 hexadecimal digits that are not all zero. */
  lemma ParseIff(text: string, x: DayKey)
    ensures Parse(text) == Some(x) <==>
      var f := Fields(text);
      && |f| == 3 && f[0] == "csid-ble-fleet-key/2" && "day " <= f[1] && "key " <= f[2]
      && ParseU64(Trim(f[1][4..])) == Some(x.day)
      && |Trim(f[2][4..])| == 64 && ParseHex(Trim(f[2][4..])) == Some(x.key)
      && exists i :: 0 <= i < 32 && x.key[i] != 0
  {
    hide Fields, Trim, ParseU64, ParseHex;
    assert x.key == Zero() <==> forall i :: 0 <= i < 32 ==> x.key[i] == 0;
  }

  lemma {:induction false} HexIsHex(bytes: seq<u8>)
    ensures forall i :: 0 <= i < |Hex(bytes)| ==> HexDigitValue(Hex(bytes)[i]).Some?
  {
    if bytes != [] {
      HexIsHex(bytes[1..]);
      HexDigitRoundTrip(bytes[0] / 16);
      HexDigitRoundTrip(bytes[0] % 16);
      var s := Hex(bytes);
      forall i | 0 <= i < |s| ensures HexDigitValue(s[i]).Some? {
        if i >= 2 { assert s[i] == Hex(bytes[1..])[i - 2]; }
      }
    }
  }

  lemma FieldsOfThree(l0: string, l1: string, l2: string)
    requires Tidy(l0) && Tidy(l1) && Tidy(l2)
    ensures Fields(l0 + "\n" + (l1 + "\n" + (l2 + "\n" + ""))) == [l0, l1, l2]
  {
    hide Fields, Tidy;
    FieldsOfLine(l0, l1 + "\n" + (l2 + "\n" + ""));
    FieldsOfLine(l1, l2 + "\n" + "");
    FieldsOfLine(l2, "");
    NoFields();
  }

  lemma NoFields()
    ensures Fields("") == []
  {
  }

  lemma TidyPrefixed(prefix: string, s: string)
    requires prefix != [] && !IsSpace(prefix[0]) && '\n' !in prefix
    requires s != [] && forall i :: 0 <= i < |s| ==> HexDigitValue(s[i]).Some?
    ensures Tidy(prefix + s)
  {
    NotSpace(s);
    assert (prefix + s)[|prefix + s| - 1] == s[|s| - 1];
  }

  lemma FieldsOfRender(day: u64, key: Digest)
    ensures Fields(Render(day, key)) == [SCHEMA, "day " + Decimal(day), "key " + Hex(key)]
  {
    hide Fields, Decimal, Hex;
    HexIsHex(key);
    TidyPrefixed("day ", Decimal(day));
    TidyPrefixed("key ", Hex(key));
    FieldsOfThree(SCHEMA, "day " + Decimal(day), "key " + Hex(key));
  }

  lemma NotSpace(s: string)
    requires forall i :: 0 <= i < |s| ==> HexDigitValue(s[i]).Some?
    ensures forall i :: 0 <= i < |s| ==> !IsSpace(s[i]) && s[i] != '\n'
  {
  }

  lemma TidyTrims(s: string)
    requires s != [] && forall i :: 0 <= i < |s| ==> HexDigitValue(s[i]).Some?
    ensures Trim(s) == s
  {
    NotSpace(s);
  }

  /** A printed key file reads back as what was printed, except that the all-zero
      key is refused. */
  lemma ParseOfRender(day: u64, key: Digest)
    ensures Parse(Render(day, key)) == if key == Zero() then None else Some(DayKey(day, key))
  {
    var l1, l2 := "day " + Decimal(day), "key " + Hex(key);
    FieldsOfRender(day, key);
    assert l1[4..] == Decimal(day) && l2[4..] == Hex(key);
    HexIsHex(key);
    TidyTrims(Decimal(day));
    TidyTrims(Hex(key));
    ParseOfDecimal(day);
    ParseOfHex(key);
  }

  /** On the way from disk `s` to one whose key file holds `day` and `key`. */
  ghost predicate Writing(s: Dir<string>, day: u64, key: Digest, t: Dir<string>) {
    Replacing(s, TMP, KEY, Render(day, key), t)
  }

  ghost predicate Written(s: Dir<string>, day: u64, key: Digest, t: Dir<string>) {
    Replaced(s, TMP, KEY, Render(day, key), t)
  }

  lemma WritingKeepsForm(s: Dir<string>, day: u64, key: Digest, t: Dir<string>)
    requires Writing(s, day, key, t)
    ensures t.Wf() && Private(t, TMP)
  {
  }

  /** The new key file is renamed into place, and the directory is not yet fsynced. */
  function Unsettled(s: Dir<string>, day: u64, key: Digest): Dir<string> {
    Renamed(s, TMP, KEY, "", Render(day, key), true)
  }

  // -- the chain ----------------------------------------------------------------------

  /** A node between two steps: the chain in memory, if it is up, and its disk. */
  datatype Node = Node(mem: Option<DayKey>, disk: Dir<string>)

  ghost predicate Moves(n: Node, d: u64) {
    n.mem.Some? && n.mem.value.day < d && d - n.mem.value.day <= MAX_RATCHET_DAYS
  }

  ghost function NextKey(h: Ratchet, n: Node, d: u64): Digest
    requires Moves(n, d)
  {
    Steps(h, n.mem.value.key, d - n.mem.value.day)
  }

  /** What one call of `key_for_day` may do. */
  ghost predicate Asked(h: Ratchet, n: Node, d: u64, r: Result<Option<Digest>, ()>, n': Node) {
    && n.mem.Some?
    && if Moves(n, d) then Moved(n, d, NextKey(h, n, d), r, n')
       else n' == n && r == Ok(if d == n.mem.value.day then Some(n.mem.value.key) else None)
  }

  ghost predicate Moved(n: Node, d: u64, k: Digest, r: Result<Option<Digest>, ()>, n': Node) {
    match r
    case Ok(k') =>
      k' == Some(k) && n'.mem == Some(DayKey(d, k)) && Written(n.disk, d, k, n'.disk)
    case Err(_) => n'.mem == n.mem && Writing(n.disk, d, k, n'.disk)
  }

  class FleetKeyChain {
    const volume: Volume<string>
    const h: Ratchet
    var day: u64
    var key: Digest

    ghost predicate Valid()
      reads this, volume`now
    {
      volume.now.Wf() && Private(volume.now, TMP)
    }

    ghost function State(): Node
      reads this, volume`now
    {
      Node(Some(DayKey(day, key)), volume.now)
    }

    constructor (volume: Volume<string>, h: Ratchet, day: u64, key: Digest)
      ensures this.volume == volume && this.h == h && this.day == day && this.key == key
    {
      this.volume, this.h, this.day, this.key := volume, h, day, key;
    }

    method KeyForDay(d: u64) returns (r: Result<Option<Digest>, ()>)
      requires Valid()
      modifies this, volume
      ensures Valid()
      ensures Asked(h, old(State()), d, r, State())
      ensures r == Ok(None) <==> d < old(day) || d > old(day) + 366
      ensures volume.faults >= old(volume.faults) && (r.Err? ==> volume.faults > old(volume.faults))
      ensures old(volume.trail) <= volume.trail
      ensures !Moves(old(State()), d) ==> volume.trail == old(volume.trail)
      ensures Moves(old(State()), d) ==>
        forall i :: |old(volume.trail)| <= i < |volume.trail| ==>
          Writing(old(volume.now), d, NextKey(h, old(State()), d), volume.trail[i])
      ensures Moves(old(State()), d) && volume.faults == old(volume.faults) ==>
        Unsettled(old(volume.now), d, NextKey(h, old(State()), d)) in volume.trail[|old(volume.trail)|..]
    {
      hide Writing, Written, Unsettled;
      if d < day || d - day > MAX_RATCHET_DAYS { return Ok(None); }
      if d > day {
        var k := key;
        for i := 0 to d - day
          invariant k == Steps(h, key, i)
        {
          k := h(k);
        }
        var ok := WriteKeyFile(volume, d, k);
        WritingKeepsForm(old(volume.now), d, k, volume.now);
        if !ok { return Err(()); }
        day, key := d, k;
      }
      return Ok(Some(key));
    }
  }

  method WriteKeyFile(volume: Volume<string>, day: u64, key: Digest) returns (ok: bool)
    requires volume.now.Wf() && Private(volume.now, TMP)
    modifies volume
    ensures Writing(old(volume.now), day, key, volume.now)
    ensures ok ==> Written(old(volume.now), day, key, volume.now)
    ensures volume.faults >= old(volume.faults) && (!ok ==> volume.faults > old(volume.faults))
    ensures old(volume.trail) <= volume.trail
    ensures forall i :: |old(volume.trail)| <= i < |volume.trail| ==>
      Writing(old(volume.now), day, key, volume.trail[i])
    ensures volume.faults == old(volume.faults) ==>
      var last := Unsettled(old(volume.now), day, key);
      last in volume.trail[|old(volume.trail)|..] && volume.now == last.FsyncDir()
  {
    ok := ReplaceFile(volume, TMP, KEY, "", Render(day, key), true);
  }

  // -- runs of one node ----------------------------------------------------------------

  /** A process may end between two calls or inside one, of its own accord after a failed
      call or by being killed; a cut ends the system as well. The service then loads the
      key file anew. */
  datatype Event =
    | Ask(day: u64, result: Result<Option<Digest>, ()>)
    | Exit
    | ExitAsking(during: u64)
    | Cut
    | CutAsking(during: u64)
    | Load(ok: bool)

  /** The day and key an event gives to the program, if any. */
  function Handed(ev: Event): Option<DayKey> {
    match ev
    case Ask(d, Ok(Some(k))) => Some(DayKey(d, k))
    case _ => None
  }

  /** What the directory entry `e` of the key file would load as. */
  function Yields(disk: Dir<string>, e: Option<nat>): Option<DayKey> {
    if e.Some? && e.value < |disk.files| then Parse(disk.files[e.value].data) else None
  }

  /** What `load` makes of the disk. */
  function Loaded(disk: Dir<string>): Option<DayKey> { Yields(disk, disk.Live(KEY)) }

  ghost predicate MidAsking(h: Ratchet, n: Node, d: u64, mid: Dir<string>) {
    Moves(n, d) && Writing(n.disk, d, NextKey(h, n, d), mid)
  }

  ghost predicate CutWhileAsking(h: Ratchet, n: Node, d: u64, mid: Dir<string>, disk: Dir<string>) {
    MidAsking(h, n, d, mid) && CrashOf(mid, disk)
  }

  ghost predicate Step(h: Ratchet, n: Node, ev: Event, n': Node) {
    match ev
    case Ask(d, r) => Asked(h, n, d, r, n')
    case Exit => n' == n.(mem := None)
    case ExitAsking(d) => n'.mem == None && MidAsking(h, n, d, n'.disk)
    case Cut => n'.mem == None && CrashOf(n.disk, n'.disk)
    case CutAsking(d) => n'.mem == None && exists mid :: CutWhileAsking(h, n, d, mid, n'.disk)
    case Load(ok) =>
      n.mem == None && n' == n.(mem := Loaded(n.disk)) && ok == n'.mem.Some?
  }

  ghost predicate Run(h: Ratchet, nodes: seq<Node>, events: seq<Event>) {
    && |nodes| == |events| + 1
    && forall i :: 0 <= i < |events| ==> Step(h, nodes[i], events[i], nodes[i + 1])
  }

  /** The key file as the node was seeded: one whole document, nothing pending. */
  ghost predicate Seeded(n: Node, day: u64, seed: Digest) {
    && n.mem == None && n.disk.Wf() && Private(n.disk, TMP)
    && n.disk.History(KEY) == [n.disk.Live(KEY)]
    && Holds(n.disk, n.disk.Live(KEY), Render(day, seed))
  }

  ghost predicate HoldsDay(h: Ratchet, day: u64, seed: Digest, disk: Dir<string>, e: Option<nat>, d: u64) {
    day <= d && Holds(disk, e, Render(d, Steps(h, seed, d - day)))
  }

  ghost predicate OnChain(h: Ratchet, day: u64, seed: Digest, disk: Dir<string>, e: Option<nat>) {
    exists d: u64 :: HoldsDay(h, day, seed, disk, e, d)
  }

  /** Whatever the node holds, or may find after a power cut, is a whole key of the seed's
      chain. */
  ghost predicate Inv(h: Ratchet, day: u64, seed: Digest, n: Node) {
    && n.disk.Wf() && Private(n.disk, TMP)
    && (n.mem.Some? ==>
          day <= n.mem.value.day && n.mem.value.key == Steps(h, seed, n.mem.value.day - day))
    && forall e :: e in n.disk.History(KEY) ==> OnChain(h, day, seed, n.disk, e)
  }

  lemma CrashKeepsChain(h: Ratchet, day: u64, seed: Digest, s: Dir<string>, t: Dir<string>)
    requires s.Wf() && CrashOf(s, t)
    requires forall e :: e in s.History(KEY) ==> OnChain(h, day, seed, s, e)
    ensures Inv(h, day, seed, Node(None, t))
  {
    CrashKeepsForm(s, t, TMP);
    forall e | e in t.History(KEY) ensures OnChain(h, day, seed, t, e) {
      assert t.History(KEY) == [t.Live(KEY)] && e in s.History(KEY);
      var d: u64 :| HoldsDay(h, day, seed, s, e, d);
      assert HoldsDay(h, day, seed, t, e, d);
    }
  }

  /** At every step of a replacement, what a cut may leave is still on the chain. */
  lemma MidKeepsInv(h: Ratchet, day: u64, seed: Digest, n: Node, d: u64, t: Dir<string>)
    requires Inv(h, day, seed, n) && MidAsking(h, n, d, t)
    ensures day <= d && NextKey(h, n, d) == Steps(h, seed, d - day)
    ensures Inv(h, day, seed, Node(None, t))
  {
    var m := n.mem.value.day;
    StepsAdd(h, seed, m - day, d - m);
    assert NextKey(h, n, d) == Steps(h, seed, d - day);
    forall e | e in t.History(KEY) ensures OnChain(h, day, seed, t, e) {
      if Holds(t, e, Render(d, NextKey(h, n, d))) {
        assert HoldsDay(h, day, seed, t, e, d);
      } else {
        assert OnChain(h, day, seed, n.disk, e);
        var x: u64 :| HoldsDay(h, day, seed, n.disk, e, x);
        assert HoldsDay(h, day, seed, t, e, x);
      }
    }
  }

  /** One step keeps the invariant, and hands out only keys of the chain. */
  lemma StepKeepsInv(h: Ratchet, day: u64, seed: Digest, n: Node, ev: Event, n': Node)
    requires Inv(h, day, seed, n) && Step(h, n, ev, n')
    ensures Inv(h, day, seed, n')
    ensures Handed(ev).Some? ==>
      day <= Handed(ev).value.day && Handed(ev).value.key == Steps(h, seed, Handed(ev).value.day - day)
  {
    hide Replacing, OnChain, Steps, Holds;
    match ev
    case Ask(d, r) =>
      if Moves(n, d) { MidKeepsInv(h, day, seed, n, d, n'.disk); }
    case Exit =>
    case ExitAsking(d) =>
      MidKeepsInv(h, day, seed, n, d, n'.disk);
    case Cut =>
      CrashKeepsChain(h, day, seed, n.disk, n'.disk);
    case CutAsking(d) =>
      var mid :| CutWhileAsking(h, n, d, mid, n'.disk);
      MidKeepsInv(h, day, seed, n, d, mid);
      CrashKeepsChain(h, day, seed, mid, n'.disk);
    case Load(ok) =>
      var _ := LoadKeepsInv(h, day, seed, n);
  }

  /** A load finds a whole document of the chain, and fails only on the all-zero key. */
  lemma LoadKeepsInv(h: Ratchet, day: u64, seed: Digest, n: Node) returns (d: u64)
    requires Inv(h, day, seed, n) && n.mem == None
    ensures Inv(h, day, seed, n.(mem := Loaded(n.disk)))
    ensures day <= d
    ensures Loaded(n.disk) ==
      if Steps(h, seed, d - day) == Zero() then None else Some(DayKey(d, Steps(h, seed, d - day)))
  {
    hide Parse, Render, Steps;
    assert n.disk.Live(KEY) in n.disk.History(KEY);
    d := EntryYields(h, day, seed, n.disk, n.disk.Live(KEY));
  }

  lemma EntryYields(h: Ratchet, day: u64, seed: Digest, disk: Dir<string>, e: Option<nat>) returns (d: u64)
    requires OnChain(h, day, seed, disk, e)
    ensures HoldsDay(h, day, seed, disk, e, d)
    ensures Yields(disk, e) ==
      if Steps(h, seed, d - day) == Zero() then None else Some(DayKey(d, Steps(h, seed, d - day)))
  {
    hide Parse, Render, Steps;
    d :| HoldsDay(h, day, seed, disk, e, d);
    ParseOfRender(d, Steps(h, seed, d - day));
  }

  // -- what every run keeps ---------------------------------------------------------------

  lemma SeededInv(h: Ratchet, day: u64, seed: Digest, n: Node)
    requires Seeded(n, day, seed)
    ensures Inv(h, day, seed, n)
  {
    assert HoldsDay(h, day, seed, n.disk, n.disk.Live(KEY), day);
  }

  lemma {:induction false} RunKeepsInv(h: Ratchet, day: u64, seed: Digest, nodes: seq<Node>, events: seq<Event>)
    requires Run(h, nodes, events) && Inv(h, day, seed, nodes[0])
    ensures Inv(h, day, seed, nodes[|events|])
  {
    hide Inv, Step;
    if events != [] {
      var n := |events| - 1;
      RunKeepsInv(h, day, seed, nodes[..n + 1], events[..n]);
      StepKeepsInv(h, day, seed, nodes[n], events[n], nodes[n + 1]);
    }
  }

  /** Every key handed out for a day is the seed ratcheted to that day. */
  lemma HandedOutIsRatcheted(h: Ratchet, day: u64, seed: Digest, nodes: seq<Node>, events: seq<Event>, i: nat)
    requires Run(h, nodes, events) && Seeded(nodes[0], day, seed)
    requires i < |events| && Handed(events[i]).Some?
    ensures day <= Handed(events[i]).value.day
    ensures Handed(events[i]).value.key == Steps(h, seed, Handed(events[i]).value.day - day)
  {
    hide Step, Inv, Seeded, Steps;
    SeededInv(h, day, seed, nodes[0]);
    RunKeepsInv(h, day, seed, nodes[..i + 1], events[..i]);
    StepKeepsInv(h, day, seed, nodes[i], events[i], nodes[i + 1]);
  }

  /** Any two nodes started from one seed that are given a key for the same day, after
      whatever calls, write failures, exits, power cuts and reloads, are given the same key. */
  lemma NodesAgree(h: Ratchet, day: u64, seed: Digest,
                   a: seq<Node>, ea: seq<Event>, i: nat, b: seq<Node>, eb: seq<Event>, j: nat)
    requires Run(h, a, ea) && Seeded(a[0], day, seed) && i < |ea|
    requires Run(h, b, eb) && Seeded(b[0], day, seed) && j < |eb|
    requires Handed(ea[i]).Some? && Handed(eb[j]).Some?
    requires Handed(ea[i]).value.day == Handed(eb[j]).value.day
    ensures Handed(ea[i]) == Handed(eb[j])
  {
    HandedOutIsRatcheted(h, day, seed, a, ea, i);
    HandedOutIsRatcheted(h, day, seed, b, eb, j);
  }

  /** A reload at any point of any run, after an exit or a cut, fails exactly when the key
      it finds is all zero. */
  lemma ReloadFailsOnlyOnZero(h: Ratchet, day: u64, seed: Digest, nodes: seq<Node>, events: seq<Event>, i: nat)
    returns (d: u64)
    requires Run(h, nodes, events) && Seeded(nodes[0], day, seed)
    requires i < |events| && events[i].Load?
    ensures day <= d
    ensures events[i].ok <==> Steps(h, seed, d - day) != Zero()
    ensures events[i].ok ==> nodes[i + 1].mem == Some(DayKey(d, Steps(h, seed, d - day)))
  {
    SeededInv(h, day, seed, nodes[0]);
    RunKeepsInv(h, day, seed, nodes[..i + 1], events[..i]);
    assert Step(h, nodes[i], events[i], nodes[i + 1]);
    d := LoadKeepsInv(h, day, seed, nodes[i]);
  }

  // -- when there is no way back --------------------------------------------------------------

  ghost predicate AtLeast(x: Option<DayKey>, low: nat) { x.Some? ==> low <= x.value.day }

  /** Neither memory nor any key file that may come back is of a day before `low`. */
  ghost predicate NoneBelow(n: Node, low: nat) {
    AtLeast(n.mem, low) && forall e :: e in n.disk.History(KEY) ==> AtLeast(Yields(n.disk, e), low)
  }

  /** No other name shares a file that may come back with any name. */
  ghost predicate Separate(disk: Dir<string>) { forall m :: m != KEY ==> Private(disk, m) }

  ghost predicate Continues(h: Ratchet, n: Node, nodes: seq<Node>, events: seq<Event>) {
    Run(h, nodes, events) && nodes[0] == n
  }

  ghost predicate NeverBelow(events: seq<Event>, low: nat) {
    forall i :: 0 <= i < |events| ==> AtLeast(Handed(events[i]), low)
  }

  lemma CrashKeepsFloor(h: Ratchet, day: u64, seed: Digest, n: Node, low: nat, t: Dir<string>)
    requires Inv(h, day, seed, n) && NoneBelow(n, low) && CrashOf(n.disk, t)
    ensures NoneBelow(Node(None, t), low)
  {
    hide Parse, Render, Steps;
    forall e | e in t.History(KEY) ensures AtLeast(Yields(t, e), low) {
      assert t.History(KEY) == [t.Live(KEY)] && e in n.disk.History(KEY);
      assert OnChain(h, day, seed, n.disk, e);
      assert Yields(t, e) == Yields(n.disk, e);
    }
  }

  lemma MidKeepsFloor(h: Ratchet, n: Node, low: nat, d: u64, t: Dir<string>)
    requires MidAsking(h, n, d, t) && NoneBelow(n, low)
    ensures low <= d && NoneBelow(Node(None, t), low)
  {
    hide Parse, Render, Steps, Private;
    ParseOfRender(d, NextKey(h, n, d));
    forall e | e in t.History(KEY) ensures AtLeast(Yields(t, e), low) {
      if !Holds(t, e, Render(d, NextKey(h, n, d))) {
        assert Kept(n.disk, t, KEY, e);
        assert AtLeast(Yields(n.disk, e), low);
      }
    }
  }

  lemma StepKeepsFloor(h: Ratchet, day: u64, seed: Digest, n: Node, low: nat, ev: Event, n': Node)
    requires Inv(h, day, seed, n) && NoneBelow(n, low) && Step(h, n, ev, n')
    ensures NoneBelow(n', low) && AtLeast(Handed(ev), low)
  {
    hide Replacing, OnChain, Steps, Holds, Parse, Inv, CrashOf;
    match ev
    case Ask(d, r) =>
      if Moves(n, d) { MidKeepsFloor(h, n, low, d, n'.disk); }
    case Exit =>
    case ExitAsking(d) =>
      MidKeepsFloor(h, n, low, d, n'.disk);
    case Cut =>
      CrashKeepsFloor(h, day, seed, n, low, n'.disk);
    case CutAsking(d) =>
      var mid :| CutWhileAsking(h, n, d, mid, n'.disk);
      MidKeepsFloor(h, n, low, d, mid);
      MidKeepsInv(h, day, seed, n, d, mid);
      CrashKeepsFloor(h, day, seed, Node(None, mid), low, n'.disk);
    case Load(ok) =>
      assert n.disk.Live(KEY) in n.disk.History(KEY);
  }

  lemma {:induction false} RunKeepsFloor(h: Ratchet, day: u64, seed: Digest, low: nat,
                                         nodes: seq<Node>, events: seq<Event>)
    requires Run(h, nodes, events) && Inv(h, day, seed, nodes[0]) && NoneBelow(nodes[0], low)
    ensures NoneBelow(nodes[|events|], low) && NeverBelow(events, low)
  {
    hide Inv, Step, NoneBelow, AtLeast;
    if events != [] {
      var n := |events| - 1;
      RunKeepsFloor(h, day, seed, low, nodes[..n + 1], events[..n]);
      RunKeepsInv(h, day, seed, nodes[..n + 1], events[..n]);
      StepKeepsFloor(h, day, seed, nodes[n], low, events[n], nodes[n + 1]);
    }
  }

  lemma StepKeepsSeparate(h: Ratchet, day: u64, seed: Digest, n: Node, ev: Event, n': Node)
    requires Inv(h, day, seed, n) && Separate(n.disk) && Step(h, n, ev, n')
    ensures Separate(n'.disk)
  {
    hide OnChain, Holds, Kept, Private, Parse;
    match ev
    case Cut => CrashIsSeparate(n.disk, n'.disk);
    case CutAsking(d) =>
      var mid :| CutWhileAsking(h, n, d, mid, n'.disk);
      CrashIsSeparate(mid, n'.disk);
    case _ =>
  }

  lemma CrashIsSeparate(s: Dir<string>, t: Dir<string>)
    requires s.Wf() && CrashOf(s, t)
    ensures Separate(t)
  {
    forall m | m != KEY ensures Private(t, m) { CrashKeepsForm(s, t, m); }
  }

  lemma {:induction false} RunKeepsSeparate(h: Ratchet, day: u64, seed: Digest, nodes: seq<Node>, events: seq<Event>)
    requires Run(h, nodes, events) && Inv(h, day, seed, nodes[0]) && Separate(nodes[0].disk)
    ensures Separate(nodes[|events|].disk)
  {
    hide Inv, Step, Separate;
    if events != [] {
      var n := |events| - 1;
      RunKeepsSeparate(h, day, seed, nodes[..n + 1], events[..n]);
      RunKeepsInv(h, day, seed, nodes[..n + 1], events[..n]);
      StepKeepsSeparate(h, day, seed, nodes[n], events[n], nodes[n + 1]);
    }
  }

  /** A readable key file that may come back does, after a cut and a reload, and its key is
      handed out. */
  lemma PendingKeyComesBack(h: Ratchet, n: Node, e: Option<nat>) returns (nodes: seq<Node>, events: seq<Event>)
    requires n.disk.Wf() && Separate(n.disk) && e in n.disk.History(KEY) && Yields(n.disk, e).Some?
    ensures Continues(h, n, nodes, events) && |events| == 3
    ensures Handed(events[2]) == Yields(n.disk, e)
  {
    hide Parse;
    var u, x := Reverting(n.disk, KEY, e), Yields(n.disk, e).value;
    forall m | m != KEY && n.disk.Live(m).Some? ensures n.disk.Live(m) != e { assert Private(n.disk, m); }
    RevertingIsACrash(n.disk, KEY, e);
    hide Reverting;
    var down, up := Node(None, u), Node(Some(x), u);
    nodes := [n, down, up, up];
    events := [Cut, Load(true), Ask(x.day, Ok(Some(x.key)))];
    assert Loaded(u) == Some(x);
    assert Step(h, n, events[0], down) && Step(h, down, events[1], up) && Step(h, up, events[2], up);
  }

  /** After any run, no continuation of any kind hands out a day before `low` exactly when
      neither memory nor any key file that may still come back is of an earlier day. */
  lemma NoWayBackIff(h: Ratchet, day: u64, seed: Digest, before: seq<Node>, past: seq<Event>, low: nat)
    requires Run(h, before, past) && Seeded(before[0], day, seed) && Separate(before[0].disk)
    ensures (forall nodes, events :: Continues(h, before[|past|], nodes, events) ==> NeverBelow(events, low))
      <==> NoneBelow(before[|past|], low)
  {
    hide Step, Inv, Separate, NoneBelow, Seeded;
    var n := before[|past|];
    SeededInv(h, day, seed, before[0]);
    RunKeepsInv(h, day, seed, before, past);
    RunKeepsSeparate(h, day, seed, before, past);
    if NoneBelow(n, low) {
      forall nodes, events | Continues(h, n, nodes, events) ensures NeverBelow(events, low) {
        RunKeepsFloor(h, day, seed, low, nodes, events);
      }
    } else {
      var nodes, events := WayBack(h, day, seed, n, low);
      assert Continues(h, n, nodes, events) && !NeverBelow(events, low);
    }
  }

  lemma WayBack(h: Ratchet, day: u64, seed: Digest, n: Node, low: nat) returns (nodes: seq<Node>, events: seq<Event>)
    requires Inv(h, day, seed, n) && Separate(n.disk) && !NoneBelow(n, low)
    ensures Continues(h, n, nodes, events) && !NeverBelow(events, low)
  {
    hide OnChain, Separate, Yields, Parse;
    if !AtLeast(n.mem, low) {
      nodes, events := [n, n], [Ask(n.mem.value.day, Ok(Some(n.mem.value.key)))];
      assert !AtLeast(Handed(events[0]), low);
    } else {
      var e :| e in n.disk.History(KEY) && !AtLeast(Yields(n.disk, e), low);
      nodes, events := PendingKeyComesBack(h, n, e);
      assert !AtLeast(Handed(events[2]), low);
    }
  }

  /** A key handed out by the very call that wrote it leaves no way back: the file was
      settled before the key was returned. */
  lemma WrittenKeyIsFinal(h: Ratchet, day: u64, seed: Digest, n: Node, d: u64, k: Digest, n': Node,
                          nodes: seq<Node>, events: seq<Event>)
    requires Inv(h, day, seed, n) && Moves(n, d) && Step(h, n, Ask(d, Ok(Some(k))), n')
    requires Continues(h, n', nodes, events)
    ensures NeverBelow(events, d)
  {
    hide Parse, Render, Steps, Private;
    ParseOfRender(d, k);
    assert NoneBelow(n', d);
    hide Step, Inv, NoneBelow;
    StepKeepsInv(h, day, seed, n, Ask(d, Ok(Some(k))), n');
    RunKeepsFloor(h, day, seed, d, nodes, events);
  }

  /** A restart can lose a day: a process that is killed after the rename and before the
      directory fsync, in the state that `WriteKeyFile` then passes through; a reload that
      hands out the new day without writing; and a cut that brings the old file back. */
  lemma RestartLosesDay(h: Ratchet, n: Node, day: u64, seed: Digest, d: u64)
    returns (nodes: seq<Node>, events: seq<Event>)
    requires Seeded(n, day, seed) && Separate(n.disk) && day < d && d - day <= MAX_RATCHET_DAYS
    requires seed != Zero() && Steps(h, seed, d - day) != Zero()
    ensures Continues(h, n, nodes, events) && |events| == 7 && events[1] == ExitAsking(d)
    ensures nodes[2].disk == Unsettled(n.disk, d, Steps(h, seed, d - day))
    ensures Handed(events[3]) == Some(DayKey(d, Steps(h, seed, d - day)))
    ensures Handed(events[6]) == Some(DayKey(day, seed))
  {
    hide Step, Yields, Separate, Steps, Zero;
    assert n.mem == None;
    hide Seeded;
    var k := Steps(h, seed, d - day);
    var mid, again := KilledMidway(h, n, day, seed, d);
    var up := Node(Some(DayKey(day, seed)), n.disk);
    FourSteps(h, [n, up, Node(None, mid), again, again], Load(true), ExitAsking(d), Load(true), Ask(d, Ok(Some(k))));
    var after, last := PendingKeyComesBack(h, again, n.disk.Live(KEY));
    JoinRuns(h, [n, up, Node(None, mid), again, again],
             [Load(true), ExitAsking(d), Load(true), Ask(d, Ok(Some(k)))], after, last);
    nodes := [n, up, Node(None, mid), again, again][..4] + after;
    events := [Load(true), ExitAsking(d), Load(true), Ask(d, Ok(Some(k)))] + last;
  }

  lemma FourSteps(h: Ratchet, ns: seq<Node>, a: Event, b: Event, c: Event, e: Event)
    requires |ns| == 5 && Step(h, ns[0], a, ns[1]) && Step(h, ns[1], b, ns[2])
    requires Step(h, ns[2], c, ns[3]) && Step(h, ns[3], e, ns[4])
    ensures Run(h, ns, [a, b, c, e])
  {
    hide Step;
  }

  lemma JoinRuns(h: Ratchet, a: seq<Node>, ea: seq<Event>, b: seq<Node>, eb: seq<Event>)
    requires Run(h, a, ea) && Run(h, b, eb) && a[|ea|] == b[0]
    ensures Run(h, a[..|ea|] + b, ea + eb) && (a[..|ea|] + b)[0] == a[0]
  {
    hide Step;
    var nodes, events := a[..|ea|] + b, ea + eb;
    forall i | 0 <= i < |events| ensures Step(h, nodes[i], events[i], nodes[i + 1]) {
      if i < |ea| {
        assert Step(h, a[i], ea[i], a[i + 1]);
      } else {
        var j := i - |ea|;
        assert Step(h, b[j], eb[j], b[j + 1]);
      }
    }
  }

  lemma LoadStep(h: Ratchet, disk: Dir<string>, x: DayKey)
    requires Loaded(disk) == Some(x)
    ensures Step(h, Node(None, disk), Load(true), Node(Some(x), disk))
  {
    hide Parse;
  }

  /** Asking for the day that memory holds changes nothing and gives its key. */
  lemma AskAgainStep(h: Ratchet, disk: Dir<string>, x: DayKey)
    ensures Step(h, Node(Some(x), disk), Ask(x.day, Ok(Some(x.key))), Node(Some(x), disk))
  {
  }

  lemma MidIsSeparate(h: Ratchet, n: Node, d: u64, mid: Dir<string>)
    requires MidAsking(h, n, d, mid) && Separate(n.disk)
    ensures Separate(mid)
  {
    hide Private, Kept, Holds;
  }

  /** The first four steps: up from the seed, killed after the rename, up again on the day
      whose file the directory shows but does not yet keep. */
  lemma KilledMidway(h: Ratchet, n: Node, day: u64, seed: Digest, d: u64) returns (mid: Dir<string>, again: Node)
    requires Seeded(n, day, seed) && Separate(n.disk) && day < d && d - day <= MAX_RATCHET_DAYS
    requires seed != Zero() && Steps(h, seed, d - day) != Zero()
    ensures var k, up := Steps(h, seed, d - day), Node(Some(DayKey(day, seed)), n.disk);
      && mid == Unsettled(n.disk, d, k) && again == Node(Some(DayKey(d, k)), mid)
      && Step(h, n, Load(true), up) && Step(h, up, ExitAsking(d), Node(None, mid))
      && Step(h, Node(None, mid), Load(true), again) && Step(h, again, Ask(d, Ok(Some(k))), again)
    ensures mid.Wf() && Separate(mid) && n.disk.Live(KEY) in mid.History(KEY)
    ensures Yields(mid, n.disk.Live(KEY)) == Some(DayKey(day, seed))
  {
    assert n.mem == None;
    hide Seeded, Step, Steps, Unsettled, Separate, MidAsking, Loaded, Yields, Zero, Writing;
    var k := Steps(h, seed, d - day);
    var was, now := DayKey(day, seed), DayKey(d, k);
    mid := KilledDisk(n, day, seed, d, k);
    again := Node(Some(now), mid);
    ExitStep(h, n.disk, was, d, mid);
    MidIsSeparate(h, Node(Some(was), n.disk), d, mid);
    LoadStep(h, n.disk, was);
    LoadStep(h, mid, now);
    AskAgainStep(h, mid, now);
  }

  lemma ExitStep(h: Ratchet, disk: Dir<string>, was: DayKey, d: u64, mid: Dir<string>)
    requires was.day < d && d - was.day <= MAX_RATCHET_DAYS
    requires Writing(disk, d, Steps(h, was.key, d - was.day), mid)
    ensures MidAsking(h, Node(Some(was), disk), d, mid)
    ensures Step(h, Node(Some(was), disk), ExitAsking(d), Node(None, mid))
  {
    hide Writing, Steps;
  }

  /** The disk that the kill leaves shows the new key and keeps the old one. */
  lemma KilledDisk(n: Node, day: u64, seed: Digest, d: u64, k: Digest) returns (mid: Dir<string>)
    requires Seeded(n, day, seed) && seed != Zero() && k != Zero()
    ensures mid == Unsettled(n.disk, d, k) && Writing(n.disk, d, k, mid) && mid.Wf()
    ensures Loaded(n.disk) == Some(DayKey(day, seed)) && Loaded(mid) == Some(DayKey(d, k))
    ensures n.disk.Live(KEY) in mid.History(KEY) && Yields(mid, n.disk.Live(KEY)) == Some(DayKey(day, seed))
  {
    hide Parse, Render, Private, Replacing, Zero, Renamed;
    ParseOfRender(day, seed);
    ParseOfRender(d, k);
    mid := RenamedOnly(n.disk, Render(d, k));
    ReplacingIsWf(n.disk, Render(d, k), mid);
  }

  lemma ReplacingIsWf(s: Dir<string>, doc: string, t: Dir<string>)
    requires Replacing(s, TMP, KEY, doc, t)
    ensures t.Wf()
  {
  }

  /** Work on the temp file does not reach what the key file may show. */
  lemma TempWorkKeepsKey(t: Dir<string>, u: Dir<string>)
    requires Private(t, TMP) && OnlyUnder(t, u, TMP) && HasFile(t, KEY)
    ensures u.History(KEY) == t.History(KEY) && HasFile(u, KEY) && Private(u, TMP) && u.Wf()
    ensures u.files[t.Live(KEY).value] == t.files[t.Live(KEY).value]
  {
    assert t.Live(KEY) in t.History(KEY);
  }

  /** The state between the rename and the directory fsync. */
  lemma RenamedOnly(s: Dir<string>, doc: string) returns (t: Dir<string>)
    requires s.Wf() && Private(s, TMP) && HasFile(s, KEY)
    ensures t == Renamed(s, TMP, KEY, "", doc, true) && Replacing(s, TMP, KEY, doc, t)
    ensures s.Live(KEY) in t.History(KEY) && t.Read(KEY) == Some(doc)
    ensures s.Live(KEY).value < |t.files| && t.files[s.Live(KEY).value] == s.files[s.Live(KEY).value]
  {
    hide Replacing, OnlyUnder, Private, Holds;
    var w := FilledTemp(s, doc);
    t := w.Rename(TMP, KEY);
    RenameShowsTheFile(s, TMP, KEY, doc, w);
    RenameHistories(w, TMP, KEY);
    assert s.Live(KEY) in s.History(KEY);
    assert Holds(t, t.Live(KEY), doc);
    ShowsTheDocument(t, doc);
  }

  lemma ShowsTheDocument(t: Dir<string>, doc: string)
    requires Holds(t, t.Live(KEY), doc)
    ensures t.Read(KEY) == Some(doc)
  {
  }

  lemma FilledTemp(s: Dir<string>, doc: string) returns (w: Dir<string>)
    requires s.Wf() && Private(s, TMP) && HasFile(s, KEY)
    ensures w == TempFilled(s.Remove(TMP), TMP, "", doc)
    ensures Replacing(s, TMP, KEY, doc, w) && Holds(w, w.Live(TMP), doc) && w.Live(TMP).Some?
    ensures w.History(KEY) == s.History(KEY) && HasFile(w, KEY)
    ensures w.files[s.Live(KEY).value] == s.files[s.Live(KEY).value]
  {
    hide Replacing, OnlyUnder, Private, Kept;
    ReplacingStarts(s, TMP, KEY, doc);
    RemoveStaysUnder(s, TMP);
    var r := s.Remove(TMP);
    TempWorkIsInvisible(s, TMP, KEY, doc, s, r);
    TempWorkKeepsKey(s, r);
    CreateStaysUnder(r, TMP, "");
    var c := r.Create(TMP, "");
    TempWorkIsInvisible(s, TMP, KEY, doc, r, c);
    TempWorkKeepsKey(r, c);
    FileWorkStaysUnder(c, TMP, doc);
    var d := c.Write(TMP, doc);
    TempWritten(s, TMP, KEY, doc, c, doc);
    TempWorkKeepsKey(c, d);
    FileWorkStaysUnder(d, TMP, doc);
    w := d.Fsync(TMP);
    TempSynced(s, TMP, KEY, doc, d);
    TempWorkKeepsKey(d, w);
  }
}
