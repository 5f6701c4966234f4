/** The log-structured ref store: a snapshot, an append-only log of checksummed frames, and compaction. */
module RefLog {
  import opened Bytes
  import opened Records
  import opened Refs

  /** The serializer and the checksum, known only through what the store relies on. */
  datatype Codec = Codec(enc: RefEdit -> Key, dec: Key -> Option<RefEdit>, sum: Key -> Key,
                         encRefs: Refs -> Key, decRefs: Key -> Option<Refs>)

  const CHECKSUM_LEN := 8

  ghost predicate Faithful(c: Codec) {
    && (forall e :: c.dec(c.enc(e)) == Some(e))
    && (forall p :: |c.sum(p)| == CHECKSUM_LEN)
    && (forall r :: c.decRefs(c.encRefs(r)) == Some(r))
  }

  /** One past the longest payload four length bytes can announce. */
  const FRAME_LIMIT := 0x1_0000_0000

  predicate Framed(c: Codec, es: seq<RefEdit>) { forall e | e in es :: |c.enc(e)| < FRAME_LIMIT }

  // ---------- frames ----------

  function ToLe(n: nat): (b: Key)
    requires n < 0x1_0000_0000
    ensures |b| == 4
  {
    [n % 256, n / 256 % 256, n / 0x1_0000 % 256, n / 0x100_0000]
  }

  function FromLe(b: Key): nat
    requires |b| == 4
  {
    var b0: int, b1: int, b2: int, b3: int := b[0], b[1], b[2], b[3];
    b0 + 256 * b1 + 0x1_0000 * b2 + 0x100_0000 * b3
  }

  lemma LeRoundTrip(n: nat)
    requires n < 0x1_0000_0000
    ensures FromLe(ToLe(n)) == n
  {
    var q := n / 256;
    assert n == 256 * q + n % 256;
    assert n / 0x1_0000 == q / 256 && n / 0x100_0000 == q / 256 / 256;
  }

  /** The length, truncated to a 32-bit word; the payload; its checksum. */
  function Frame(c: Codec, e: RefEdit): Key { ToLe(|c.enc(e)| % FRAME_LIMIT) + c.enc(e) + c.sum(c.enc(e)) }

  /** Twelve bytes around the payload: its length with the least byte first, and its checksum. */
  lemma FrameLayout(c: Codec, e: RefEdit)
    requires Faithful(c) && |c.enc(e)| < FRAME_LIMIT
    ensures var f := Frame(c, e);
            && |f| == 12 + |c.enc(e)| && f[4..|f| - 8] == c.enc(e) && f[|f| - 8..] == c.sum(c.enc(e))
            && |c.enc(e)| == f[0] as int + 0x100 * f[1] as int + 0x1_0000 * f[2] as int + 0x100_0000 * f[3] as int
  {
    var (n, f) := (|c.enc(e)|, Frame(c, e));
    LeSum(n);
    hide Faithful, ToLe;
    assert f == ToLe(n) + c.enc(e) + c.sum(c.enc(e));
    assert f[..4] == ToLe(n);
  }

  lemma LeSum(n: nat)
    requires n < FRAME_LIMIT
    ensures var b := ToLe(n);
            n == b[0] as int + 0x100 * b[1] as int + 0x1_0000 * b[2] as int + 0x100_0000 * b[3] as int
  {
    LeRoundTrip(n);
  }

  function Frames(c: Codec, es: seq<RefEdit>): Key {
    if es == [] then [] else Frame(c, es[0]) + Frames(c, es[1..])
  }

  /** Complete, checksum-valid frames from the front; the first torn, short or undecodable one ends the log. */
  function FramesDecode(c: Codec, buf: Key): seq<RefEdit> {
    if |buf| < 4 then []
    else
      var end := 4 + FromLe(buf[..4]);
      if end + CHECKSUM_LEN > |buf| || c.sum(buf[4..end]) != buf[end..end + CHECKSUM_LEN] then []
      else
        match c.dec(buf[4..end])
        case None => []
        case Some(e) => [e] + FramesDecode(c, buf[end + CHECKSUM_LEN..])
  }

  lemma Window(buf: Key, pos: nat, a: nat, b: nat)
    requires pos <= a <= b <= |buf|
    ensures buf[pos..][a - pos..b - pos] == buf[a..b] && buf[pos..][b - pos..] == buf[b..]
  {
  }

  method DecodeLog(c: Codec, buf: Key) returns (edits: seq<RefEdit>)
    ensures edits == FramesDecode(c, buf)
  {
    hide FramesDecode, FromLe;
    edits := [];
    var pos := 0;
    assert buf[0..] == buf;
    while pos + 4 <= |buf|
      invariant pos <= |buf|
      invariant FramesDecode(c, buf) == edits + FramesDecode(c, buf[pos..])
    {
      DecodeFront(c, buf, pos);
      var start := pos + 4;
      var end := start + FromLe(buf[pos..start]);
      var sumEnd := end + CHECKSUM_LEN;
      if sumEnd > |buf| { return; }
      if c.sum(buf[start..end]) != buf[end..sumEnd] { return; }
      match c.dec(buf[start..end]) {
        case Some(e) => edits := edits + [e];
        case None => return;
      }
      pos := sumEnd;
    }
    DecodeShort(c, buf[pos..]);
  }

  lemma DecodeShort(c: Codec, buf: Key)
    requires |buf| < 4
    ensures FramesDecode(c, buf) == []
  {
  }

  /** What decoding from a cursor on does with the frame there. */
  lemma DecodeFront(c: Codec, buf: Key, pos: nat)
    requires pos + 4 <= |buf|
    ensures var end := pos + 4 + FromLe(buf[pos..pos + 4]);
            var rest := FramesDecode(c, buf[pos..]);
            if end + CHECKSUM_LEN > |buf| || c.sum(buf[pos + 4..end]) != buf[end..end + CHECKSUM_LEN]
               || c.dec(buf[pos + 4..end]).None? then rest == []
            else rest == [c.dec(buf[pos + 4..end]).value] + FramesDecode(c, buf[end + CHECKSUM_LEN..])
  {
    hide FromLe;
    var end := pos + 4 + FromLe(buf[pos..pos + 4]);
    assert buf[pos..][..4] == buf[pos..pos + 4];
    if end + CHECKSUM_LEN <= |buf| {
      Window(buf, pos, pos + 4, end);
      Window(buf, pos, end, end + CHECKSUM_LEN);
      assert buf[pos..][end + CHECKSUM_LEN - pos..] == buf[end + CHECKSUM_LEN..];
    }
  }

  /** How many frames lie wholly inside the first n bytes. */
  function WholeFrames(c: Codec, es: seq<RefEdit>, n: nat): (k: nat)
    ensures k <= |es|
  {
    if es == [] || |Frame(c, es[0])| > n then 0 else 1 + WholeFrames(c, es[1..], n - |Frame(c, es[0])|)
  }

  lemma FrontFrame(c: Codec, e: RefEdit, rest: Key)
    requires Faithful(c) && |c.enc(e)| < FRAME_LIMIT
    ensures FramesDecode(c, Frame(c, e) + rest) == [e] + FramesDecode(c, rest)
  {
    var buf, p := Frame(c, e) + rest, c.enc(e);
    LeRoundTrip(|p|);
    assert buf[..4] == ToLe(|p|);
    var end := 4 + |p|;
    assert buf[4..end] == p && buf[end..end + CHECKSUM_LEN] == c.sum(p) && buf[end + CHECKSUM_LEN..] == rest;
  }

  lemma TornFrame(c: Codec, e: RefEdit, n: nat)
    requires Faithful(c) && |c.enc(e)| < FRAME_LIMIT && n < |Frame(c, e)|
    ensures FramesDecode(c, Frame(c, e)[..n]) == []
  {
    var buf, p := Frame(c, e)[..n], c.enc(e);
    if n >= 4 {
      LeRoundTrip(|p|);
      assert buf[..4] == ToLe(|p|);
    }
  }

  lemma TornEmpty(c: Codec)
    ensures FramesDecode(c, []) == []
  {
  }

  /** **A torn append.** Any byte prefix of encoded edits decodes to exactly the edits whose frames are whole;
      nothing is assumed of the checksum beyond its length. */
  lemma {:induction false} TornDecode(c: Codec, es: seq<RefEdit>, n: nat)
    requires Faithful(c) && Framed(c, es) && n <= |Frames(c, es)|
    ensures FramesDecode(c, Frames(c, es)[..n]) == es[..WholeFrames(c, es, n)]
    ensures n == |Frames(c, es)| ==> WholeFrames(c, es, n) == |es|
  {
    hide FramesDecode, ToLe;
    if es == [] {
      assert Frames(c, es)[..n] == [];
      TornEmpty(c);
    } else {
      var f, rest := Frame(c, es[0]), Frames(c, es[1..]);
      if n < |f| {
        assert (f + rest)[..n] == f[..n];
        TornFrame(c, es[0], n);
      } else {
        assert (f + rest)[..n] == f + rest[..n - |f|];
        FrontFrame(c, es[0], rest[..n - |f|]);
        TornDecode(c, es[1..], n - |f|);
        var k := WholeFrames(c, es[1..], n - |f|);
        assert [es[0]] + es[1..][..k] == es[..k + 1];
      }
    }
  }

  lemma {:induction false} FramesConcat(c: Codec, a: seq<RefEdit>, b: seq<RefEdit>)
    ensures Frames(c, a + b) == Frames(c, a) + Frames(c, b)
  {
    if a == [] {
      assert a + b == b;
    } else {
      assert (a + b)[1..] == a[1..] + b;
      FramesConcat(c, a[1..], b);
    }
  }

  lemma {:induction false} DecodeAfter(c: Codec, es: seq<RefEdit>, tail: Key)
    requires Faithful(c) && Framed(c, es)
    ensures FramesDecode(c, Frames(c, es) + tail) == es + FramesDecode(c, tail)
  {
    hide Faithful, FramesDecode, Frame;
    if es == [] {
      assert Frames(c, es) + tail == tail;
    } else {
      var rest := Frames(c, es[1..]);
      assert Frames(c, es) + tail == Frame(c, es[0]) + (rest + tail);
      FrontFrame(c, es[0], rest + tail);
      DecodeAfter(c, es[1..], tail);
      assert [es[0]] + (es[1..] + FramesDecode(c, tail)) == es + FramesDecode(c, tail);
    }
  }

  lemma CleanDecode(c: Codec, es: seq<RefEdit>)
    requires Faithful(c) && Framed(c, es)
    ensures FramesDecode(c, Frames(c, es)) == es
  {
    DecodeAfter(c, es, []);
    assert Frames(c, es) + [] == Frames(c, es);
  }

  /** No whole frame at the front: too short for a header or for the frame its header announces, a checksum that fails,
      or a payload that does not decode. */
  predicate Unreadable(c: Codec, buf: Key) {
    || |buf| < 4
    || var end := 4 + FromLe(buf[..4]);
       end + CHECKSUM_LEN > |buf| || c.sum(buf[4..end]) != buf[end..end + CHECKSUM_LEN] || c.dec(buf[4..end]).None?
  }

  lemma NothingRead(c: Codec, buf: Key)
    ensures FramesDecode(c, buf) == [] <==> Unreadable(c, buf)
  {
  }

  /** **Appending after a torn tail.** A torn frame is never cut off, so the bytes appended next are read as its rest:
      wherever the tear, whatever is appended, none of it is reached exactly as long as the two spliced are unreadable.
      A tear past the length bytes makes the splice as long as the torn frame was going to be. */
  lemma AppendAfterTear(c: Codec, es: seq<RefEdit>, e: RefEdit, n: nat, more: Key)
    requires Faithful(c) && Framed(c, es) && |c.enc(e)| < FRAME_LIMIT && 0 < n < |Frame(c, e)|
    ensures var tail := Frame(c, e)[..n] + more;
            && (FramesDecode(c, Frames(c, es) + tail) == es <==> Unreadable(c, tail))
            && es <= FramesDecode(c, Frames(c, es) + tail)
            && (n >= 4 ==> FromLe(tail[..4]) == |c.enc(e)|)
  {
    hide FramesDecode, Frames, Faithful, Unreadable, ToLe, FromLe;
    var tail := Frame(c, e)[..n] + more;
    DecodeAfter(c, es, tail);
    NothingRead(c, tail);
    if n >= 4 {
      LeRoundTrip(|c.enc(e)|);
      assert tail[..4] == ToLe(|c.enc(e)|);
    }
    assert es + [] == es;
    if FramesDecode(c, tail) != [] { assert |es + FramesDecode(c, tail)| > |es|; }
  }

  // ---------- the store ----------

  /** The three files, any of which may be absent. */
  datatype Disk = Disk(snapshot: Option<Key>, legacy: Option<Key>, log: Option<Key>)

  datatype Loaded = Corrupt | Live(refs: Option<Refs>)

  function LogBytes(d: Disk): Key { if d.log.Some? then d.log.value else [] }

  /** The snapshot, or the legacy single file where there is none yet. */
  function ReadSnapshot(c: Codec, d: Disk): Loaded {
    var file := if d.snapshot.Some? then d.snapshot else d.legacy;
    if file.None? then Live(None)
    else
      var r := c.decRefs(file.value);
      if r.Some? then Live(r) else Corrupt
  }

  function OnTop(base: Option<Refs>, es: seq<RefEdit>): Option<Refs> {
    if base.None? && es == [] then None else Some(Replay(if base.Some? then base.value else NO_REFS, es))
  }

  function Reconstruct(c: Codec, d: Disk): Loaded {
    match ReadSnapshot(c, d)
    case Corrupt => Corrupt
    case Live(base) => Live(OnTop(base, FramesDecode(c, LogBytes(d))))
  }

  /** What a file of refs with a log's edits on top loads as. */
  ghost predicate LoadsFile(c: Codec, file: Key, es: seq<RefEdit>, loaded: Loaded) {
    match c.decRefs(file)
    case Some(r) => loaded == Live(Some(Replay(r, es)))
    case None => loaded == Corrupt
  }

  /** What three files load as: the snapshot with the log's edits on top, whatever the legacy file holds; the legacy
      file with them where there is no snapshot; and with neither just the edits, or nothing for a new database. */
  ghost predicate LoadsFiles(c: Codec, d: Disk, es: seq<RefEdit>, loaded: Loaded) {
    && (d.snapshot.Some? ==> LoadsFile(c, d.snapshot.value, es, loaded))
    && (d.snapshot.None? && d.legacy.Some? ==> LoadsFile(c, d.legacy.value, es, loaded))
    && (d.snapshot.None? && d.legacy.None? ==>
          loaded == Live(if es == [] then None else Some(Replay(NO_REFS, es))))
  }

  /** The log's bytes spell these edits, and what follows them, if anything, does not read. */
  ghost predicate LogSpells(c: Codec, d: Disk, es: seq<RefEdit>) {
    && Framed(c, es)
    && match d.log
       case None => es == []
       case Some(log) => Frames(c, es) <= log && Unreadable(c, log[|Frames(c, es)|..])
  }

  lemma FilesReconstruct(c: Codec, d: Disk, es: seq<RefEdit>)
    requires Faithful(c) && LogSpells(c, d, es)
    ensures LoadsFiles(c, d, es, Reconstruct(c, d))
  {
    hide Frames, Framed, FramesDecode, Unreadable, Replay, Faithful;
    if d.log.Some? {
      var log := d.log.value;
      var tail := log[|Frames(c, es)|..];
      assert log == Frames(c, es) + tail;
      DecodeAfter(c, es, tail);
      NothingRead(c, tail);
      assert es + [] == es;
    } else {
      NothingRead(c, []);
      NothingShort(c);
    }
  }

  lemma NothingShort(c: Codec)
    ensures Unreadable(c, [])
  {
  }

  method ReplayLoop(base: Refs, es: seq<RefEdit>) returns (r: Refs)
    ensures r == Replay(base, es)
  {
    r := base;
    for i := 0 to |es|
      invariant r == Replay(base, es[..i])
    {
      assert es[..i + 1][..i] == es[..i];
      r := ApplyEdit(r, es[i]);
    }
    assert es[..|es|] == es;
  }

  // ---------- the trivial store it refines ----------

  datatype Op = SaveOp(refs: Refs) | ApplyOp(batch: seq<RefEdit>)

  function OrEmpty(x: Option<Refs>): Refs { if x.Some? then x.value else NO_REFS }

  /** Refs held in memory. */
  function MemStep(x: Option<Refs>, op: Op): Option<Refs> {
    match op
    case SaveOp(r) => Some(r)
    case ApplyOp(batch) => Some(Replay(OrEmpty(x), batch))
  }

  /** Refs in files: an empty batch is not even a store to create. */
  function FileStep(x: Option<Refs>, op: Op): Option<Refs> {
    if op == ApplyOp([]) then x else MemStep(x, op)
  }

  class MemRefStore {
    var refs: Option<Refs>

    constructor ()
      ensures refs == None
    {
      refs := None;
    }

    method Save(r: Refs)
      modifies this
      ensures refs == MemStep(old(refs), SaveOp(r))
    {
      refs := Some(r);
    }

    method Apply(batch: seq<RefEdit>)
      modifies this
      ensures refs == MemStep(old(refs), ApplyOp(batch))
    {
      var r := ReplayLoop(OrEmpty(refs), batch);
      refs := Some(r);
    }
  }

  class FileRefStore {
    const codec: Codec
    const floor: nat
    var disk: Disk
    var snapshotBytes: nat
    var logBytes: nat

    ghost predicate Valid()
      reads this
    {
      && Faithful(codec)
      && snapshotBytes == (if disk.snapshot.Some? then |disk.snapshot.value| else 0)
      && logBytes == |LogBytes(disk)|
    }

    /** What the files stand for. */
    ghost function State(): Loaded
      reads this
    {
      Reconstruct(codec, disk)
    }

    /** The log is whole frames, with no torn tail left by a crash. */
    ghost predicate Clean()
      reads this
      requires Valid()
    {
      exists es :: Framed(codec, es) && LogBytes(disk) == Frames(codec, es)
    }

    constructor Open(codec: Codec, disk: Disk, floor: nat)
      requires Faithful(codec)
      ensures Valid() && this.disk == disk && this.codec == codec && this.floor == floor
    {
      this.codec, this.disk, this.floor := codec, disk, floor;
      snapshotBytes := if disk.snapshot.Some? then |disk.snapshot.value| else 0;
      logBytes := |LogBytes(disk)|;
    }

    /** Read the refs back: None for a brand-new database, an error for an unreadable snapshot. */
    method Load() returns (r: Loaded)
      requires Valid()
      ensures r == State()
      ensures forall es | LogSpells(codec, disk, es) :: LoadsFiles(codec, disk, es, r)
    {
      forall es | LogSpells(codec, disk, es) ensures LoadsFiles(codec, disk, es, State()) {
        FilesReconstruct(codec, disk, es);
      }
      hide LogSpells, LoadsFiles;
      var es := DecodeLog(codec, LogBytes(disk));
      var snap := ReadSnapshot(codec, disk);
      match snap {
        case Corrupt => r := Corrupt;
        case Live(base) =>
          if base.None? && es == [] { return Live(None); }
          var refs := ReplayLoop(if base.Some? then base.value else NO_REFS, es);
          r := Live(Some(refs));
      }
    }

    /** Write a full snapshot, then cut the log. */
    method Save(refs: Refs)
      requires Valid()
      modifies this
      ensures Valid() && Clean()
      ensures State() == Live(FileStep(None, SaveOp(refs)))
      ensures disk.legacy == old(disk.legacy)
    {
      var bytes := codec.encRefs(refs);
      disk := disk.(snapshot := Some(bytes));
      if disk.log.Some? { disk := disk.(log := Some([])); }
      snapshotBytes := |bytes|;
      logBytes := 0;
      assert Framed(codec, []) && LogBytes(disk) == Frames(codec, []);
    }

    /** Append a batch's frames in one write. */
    method AppendFrames(batch: seq<RefEdit>)
      requires Valid() && batch != []
      modifies this
      ensures Valid()
      ensures old(Clean()) && Framed(codec, batch) ==> Clean()
      ensures old(State()).Corrupt? <==> State().Corrupt?
      ensures old(Clean()) && Framed(codec, batch) && old(State()).Live? ==>
                State() == Live(Some(Replay(OrEmpty(old(State()).refs), batch)))
    {
      hide Frames, Framed, Faithful, Replay;
      var bytes := EncodeAll(codec, batch);
      if Clean() && Framed(codec, batch) {
        ghost var prior :| Framed(codec, prior) && LogBytes(disk) == Frames(codec, prior);
        Appended(codec, disk, prior, batch);
      }
      disk := disk.(log := Some(LogBytes(disk) + bytes));
      logBytes := logBytes + |bytes|;
    }

    /** Append a batch in one write, then compact when the log has outgrown the snapshot. On a clean log the state
        is the old one with the batch applied, whether or not compaction fired, for edits whose length a frame can
        say; compaction alone can fail, on a snapshot that will not decode. */
    method Apply(batch: seq<RefEdit>) returns (ok: bool)
      requires Valid()
      modifies this
      ensures Valid()
      ensures !ok ==> old(State()).Corrupt?
      ensures batch == [] ==> ok && disk == old(disk)
      ensures old(Clean()) && Framed(codec, batch) ==> Clean()
      ensures old(Clean()) && Framed(codec, batch) && old(State()).Live? ==>
                State() == Live(FileStep(old(State()).refs, ApplyOp(batch)))
    {
      if batch == [] { return true; }
      hide Framed, Clean, Reconstruct;
      AppendFrames(batch);
      if logBytes > (if snapshotBytes > floor then snapshotBytes else floor) {
        var now := Load();
        if now.Corrupt? { return false; }
        Save(OrEmpty(now.refs));
      }
      ok := true;
    }
  }

  /** A whole append to a clean log. */
  lemma Appended(c: Codec, d: Disk, prior: seq<RefEdit>, batch: seq<RefEdit>)
    requires Faithful(c) && Framed(c, prior) && Framed(c, batch) && LogBytes(d) == Frames(c, prior) && batch != []
    ensures var d' := d.(log := Some(LogBytes(d) + Frames(c, batch)));
            && Framed(c, prior + batch) && LogBytes(d') == Frames(c, prior + batch)
            && (Reconstruct(c, d).Live? ==>
                  Reconstruct(c, d') == Live(Some(Replay(OrEmpty(Reconstruct(c, d).refs), batch))))
  {
    hide Faithful, FramesDecode, Frames, Replay;
    FramesConcat(c, prior, batch);
    CleanDecode(c, prior);
    CleanDecode(c, prior + batch);
    if ReadSnapshot(c, d).Live? {
      ReplayConcat(OrEmpty(ReadSnapshot(c, d).refs), prior, batch);
      ReplayNone(OrEmpty(ReadSnapshot(c, d).refs));
    }
  }

  lemma ReplayNone(r: Refs)
    ensures Replay(r, []) == r
  {
  }

  method EncodeAll(c: Codec, es: seq<RefEdit>) returns (bytes: Key)
    ensures bytes == Frames(c, es)
  {
    bytes := [];
    for i := 0 to |es|
      invariant bytes == Frames(c, es[..i])
    {
      assert es[..i + 1] == es[..i] + [es[i]];
      FramesConcat(c, es[..i], [es[i]]);
      assert Frames(c, [es[i]]) == Frame(c, es[i]) + Frames(c, []);
      bytes := bytes + Frame(c, es[i]);
    }
    assert es[..|es|] == es;
  }

  // ---------- whole runs ----------

  function MemRun(x: Option<Refs>, ops: seq<Op>): Option<Refs>
    decreases |ops|
  {
    if ops == [] then x else MemRun(MemStep(x, ops[0]), ops[1..])
  }

  function FileRun(x: Option<Refs>, ops: seq<Op>): Option<Refs>
    decreases |ops|
  {
    if ops == [] then x else FileRun(FileStep(x, ops[0]), ops[1..])
  }

  lemma {:induction false} StartedStoresAgree(x: Option<Refs>, ops: seq<Op>)
    requires x.Some?
    ensures FileRun(x, ops) == MemRun(x, ops) && MemRun(x, ops).Some?
    decreases |ops|
  {
    if ops != [] { StartedStoresAgree(FileStep(x, ops[0]), ops[1..]); }
  }

  /** From a brand-new store the two agree on every run, except one made of nothing but empty batches: the
      in-memory store then has refs and the file store still has none. */
  lemma {:induction false} FreshStoresAgree(ops: seq<Op>)
    ensures FileRun(None, ops) == MemRun(None, ops) <==> ops == [] || exists i ::
              0 <= i < |ops| && ops[i] != ApplyOp([])
  {
    if ops != [] {
      var mem := MemStep(None, ops[0]);
      StartedStoresAgree(mem, ops[1..]);
      if ops[0] == ApplyOp([]) {
        StartedStoresAgree(Some(NO_REFS), ops[1..]);
        FreshStoresAgree(ops[1..]);
        if exists i :: 0 <= i < |ops| && ops[i] != ApplyOp([]) {
          var i :| 0 <= i < |ops| && ops[i] != ApplyOp([]);
          assert ops[1..][i - 1] == ops[i];
        } else {
          OnlyEmptyBatches(ops[1..]);
        }
      }
    }
  }

  lemma {:induction false} OnlyEmptyBatches(ops: seq<Op>)
    requires forall i | 0 <= i < |ops| :: ops[i] == ApplyOp([])
    ensures FileRun(None, ops) == None
  {
    if ops != [] { OnlyEmptyBatches(ops[1..]); }
  }

  ghost predicate AllFramed(c: Codec, ops: seq<Op>) {
    forall i | 0 <= i < |ops| && ops[i].ApplyOp? :: Framed(c, ops[i].batch)
  }

  /** **The two stores themselves, given the same run**: from a clean log over a readable snapshot, the files stand for
      what the run of steps says, and so, once there is a state, for what the memory holds. */
  method RunBoth(file: FileRefStore, mem: MemRefStore, ops: seq<Op>)
    requires file.Valid() && file.Clean() && file.State().Live? && AllFramed(file.codec, ops)
    modifies file, mem
    ensures file.Valid() && file.Clean()
    ensures mem.refs == MemRun(old(mem.refs), ops)
    ensures file.State() == Live(FileRun(old(file.State()).refs, ops))
    ensures old(mem.refs).Some? && old(file.State()).refs == old(mem.refs) ==> file.State() == Live(mem.refs)
  {
    hide Reconstruct, Framed, Frames, Faithful, Replay, FileRefStore.Clean;
    ghost var x, y := file.State().refs, mem.refs;
    for i := 0 to |ops|
      invariant file.Valid() && file.Clean() && file.State().Live?
      invariant FileRun(file.State().refs, ops[i..]) == FileRun(x, ops)
      invariant MemRun(mem.refs, ops[i..]) == MemRun(y, ops)
    {
      assert ops[i..][0] == ops[i] && ops[i..][1..] == ops[i + 1..];
      match ops[i]
      case SaveOp(r) =>
        file.Save(r);
        mem.Save(r);
      case ApplyOp(batch) =>
        var _ := file.Apply(batch);
        mem.Apply(batch);
    }
    if y.Some? { StartedStoresAgree(y, ops); }
  }

  // ---------- crashes ----------

  lemma SnapshotReadsBack(c: Codec, r: Refs)
    requires Faithful(c)
    ensures c.decRefs(c.encRefs(r)) == Some(r)
  {
  }

  /** Where a crash inside Apply can leave the files. */
  datatype CrashPoint =
    | DuringAppend(bytes: nat)
    | BeforeTruncate
    | DuringTruncate(left: nat)

  function CrashedApply(c: Codec, d: Disk, batch: seq<RefEdit>, at: CrashPoint): Disk
    requires at.DuringAppend? ==> at.bytes <= |Frames(c, batch)|
    requires at.DuringTruncate? ==> at.left <= |LogBytes(d)| + |Frames(c, batch)|
  {
    var full := LogBytes(d) + Frames(c, batch);
    match at
    case DuringAppend(n) => d.(log := Some(full[..|LogBytes(d)| + n]))
    case BeforeTruncate => CompactedDisk(c, d, full, full)
    case DuringTruncate(m) => CompactedDisk(c, d, full, full[..m])
  }

  /** A snapshot of everything is durable; the log still has some of its bytes. */
  function CompactedDisk(c: Codec, d: Disk, full: Key, log: Key): Disk {
    match ReadSnapshot(c, d)
    case Corrupt => d
    case Live(base) => Disk(Some(c.encRefs(OrEmpty(OnTop(base, FramesDecode(c, full))))), d.legacy, Some(log))
  }

  /** **A crash while appending, or between the new snapshot and the cut**, loads the old refs with a prefix of
      the batch applied: all of it once the append is whole. */
  lemma CrashLoadsPrefix(c: Codec, d: Disk, prior: seq<RefEdit>, batch: seq<RefEdit>, at: CrashPoint)
    requires Faithful(c) && Framed(c, prior) && Framed(c, batch)
    requires LogBytes(d) == Frames(c, prior) && ReadSnapshot(c, d).Live? && batch != []
    requires at.DuringAppend? ==> at.bytes <= |Frames(c, batch)|
    requires !at.DuringTruncate?
    ensures var k := if at.DuringAppend? then WholeFrames(c, batch, at.bytes) else |batch|;
            Reconstruct(c, CrashedApply(c, d, batch, at)) == Live(OnTop(ReadSnapshot(c, d).refs, prior + batch[..k]))
  {
    hide Faithful, FramesDecode, Frames, Replay, WholeFrames;
    var full := Frames(c, prior) + Frames(c, batch);
    FramesConcat(c, prior, batch);
    if at.DuringAppend? {
      assert full[..|Frames(c, prior)| + at.bytes] == Frames(c, prior) + Frames(c, batch)[..at.bytes];
      DecodeAfter(c, prior, Frames(c, batch)[..at.bytes]);
      TornDecode(c, batch, at.bytes);
    } else {
      CleanDecode(c, prior + batch);
      ReplayTwice(OrEmpty(ReadSnapshot(c, d).refs), prior + batch);
      SnapshotReadsBack(c, Replay(OrEmpty(ReadSnapshot(c, d).refs), prior + batch));
      assert batch[..|batch|] == batch;
    }
  }

  /** A crash inside the truncate leaves a prefix of the old log over the new snapshot: it loads the same refs
      exactly when the lost rest respects what survived. */
  lemma CrashInTruncate(c: Codec, d: Disk, prior: seq<RefEdit>, batch: seq<RefEdit>, m: nat)
    requires Faithful(c) && Framed(c, prior) && Framed(c, batch)
    requires LogBytes(d) == Frames(c, prior) && ReadSnapshot(c, d).Live? && batch != []
    requires m <= |Frames(c, prior)| + |Frames(c, batch)|
    ensures var all, base := prior + batch, ReadSnapshot(c, d).refs;
            var k := WholeFrames(c, all, m);
            Reconstruct(c, CrashedApply(c, d, batch, DuringTruncate(m))) == Live(OnTop(base, all)) <==>
              RestRespects(OrEmpty(base), all[..k], all[k..])
  {
    hide Faithful, FramesDecode, Frames, Replay, WholeFrames, RestRespects;
    var all, base := prior + batch, OrEmpty(ReadSnapshot(c, d).refs);
    FramesConcat(c, prior, batch);
    CleanDecode(c, all);
    TornDecode(c, all, m);
    var k := WholeFrames(c, all, m);
    assert all == all[..k] + all[k..];
    SnapshotReadsBack(c, Replay(base, all));
    PrefixReplay(base, all[..k], all[k..]);
  }

  /** A crash between the two halves of Save loads the saved refs exactly when they had absorbed the old log. */
  lemma CrashInSave(c: Codec, d: Disk, prior: seq<RefEdit>, refs: Refs)
    requires Faithful(c) && Framed(c, prior) && LogBytes(d) == Frames(c, prior)
    ensures Reconstruct(c, d.(snapshot := Some(c.encRefs(refs)))) == Live(Some(refs)) <==> Absorbed(refs, prior)
  {
    CleanDecode(c, prior);
    ReplayNoOp(refs, prior);
  }

  // ---------- a plain write's batch ----------

  /** Every head is a commit whose parents are recorded, or one of the unrecorded roots. */
  ghost predicate HeadsRecorded(r: Refs, roots: set<CommitId>) {
    forall b | b in r.branches :: r.branches[b] in r.commits || r.branches[b] in roots
  }

  /** Whatever prefix of a plain write's batch survives, a durable head has its first-parent edge: the edge is
      queued before the head move. */
  lemma PlainWriteCrash(r: Refs, roots: set<CommitId>, b: Name, commit: CommitId, head: CommitId, k: nat)
    requires HeadsRecorded(r, roots) && k <= 2
    ensures var r' := Replay(r, [RecordCommit(commit, [head]), SetHead(b, commit)][..k]);
            && HeadsRecorded(r', roots)
            && (b in r'.branches && r'.branches[b] == commit && !(b in r.branches && r.branches[b] == commit)
                ==> commit in r'.commits && r'.commits[commit] == [head])
  {
    var es := [RecordCommit(commit, [head]), SetHead(b, commit)];
    assert es[..2] == es && es[..2][..1] == [es[0]] && es[..1] == [es[0]] && es[..1][..0] == [] && es[..0] == [];
    assert Replay(r, es[..1]) == ApplyEdit(r, es[0]);
    assert Replay(r, es[..2]) == ApplyEdit(Replay(r, es[..1]), es[1]);
  }

  /** What a plain write appends: the edge, then the head move; only the move, when the commit is a no-op. */
  function WriteBatch(b: Name, commit: CommitId, head: CommitId): seq<RefEdit> {
    if commit == head then [SetHead(b, head)] else [RecordCommit(commit, [head]), SetHead(b, commit)]
  }

  lemma WritePrefix(r: Refs, roots: set<CommitId>, b: Name, commit: CommitId, head: CommitId, k: nat)
    requires HeadsRecorded(r, roots) && b in r.branches && r.branches[b] == head && k <= |WriteBatch(b, commit, head)|
    ensures HeadsRecorded(Replay(r, WriteBatch(b, commit, head)[..k]), roots)
  {
    var batch := WriteBatch(b, commit, head);
    if commit == head {
      assert batch[..1] == batch && batch[..1][..0] == [] && batch[..0] == [];
      assert Replay(r, batch[..1]) == ApplyEdit(Replay(r, []), batch[0]);
    } else {
      PlainWriteCrash(r, roots, b, commit, head, k);
    }
  }

  /** **After a crash at any byte of a plain write's append**, or between its new snapshot and the cut, what the store
      reloads has every head's edge recorded: the lost head move of a lost edge is lost with it. */
  lemma PlainWriteReloads(c: Codec, d: Disk, prior: seq<RefEdit>, roots: set<CommitId>, b: Name, commit: CommitId,
                          head: CommitId, at: CrashPoint)
    requires Faithful(c) && Framed(c, prior) && Framed(c, WriteBatch(b, commit, head))
    requires LogBytes(d) == Frames(c, prior) && ReadSnapshot(c, d).Live?
    requires var r := Replay(OrEmpty(ReadSnapshot(c, d).refs), prior);
             HeadsRecorded(r, roots) && b in r.branches && r.branches[b] == head
    requires (at.DuringAppend? ==> at.bytes <= |Frames(c, WriteBatch(b, commit, head))|) && !at.DuringTruncate?
    ensures var loaded := Reconstruct(c, CrashedApply(c, d, WriteBatch(b, commit, head), at));
            loaded.Live? && (loaded.refs.Some? ==> HeadsRecorded(loaded.refs.value, roots))
  {
    hide Faithful, Frames, Framed, CrashedApply, Reconstruct, HeadsRecorded, WholeFrames;
    var batch := WriteBatch(b, commit, head);
    var start := OrEmpty(ReadSnapshot(c, d).refs);
    CrashLoadsPrefix(c, d, prior, batch, at);
    var k := if at.DuringAppend? then WholeFrames(c, batch, at.bytes) else |batch|;
    ReplayConcat(start, prior, batch[..k]);
    WritePrefix(Replay(start, prior), roots, b, commit, head, k);
  }

  // ---------- crashes inside the truncate ----------

  predicate MovesHead(e: RefEdit) { e.SetHead? || e.CreateBranch? }

  function HeadMovedTo(e: RefEdit): CommitId
    requires MovesHead(e)
  {
    match e
    case SetHead(_, to) => to
    case CreateBranch(_, at) => at
  }

  /** Every head these edits ever set is recorded by these refs, or a root. */
  ghost predicate MovesRecorded(r: Refs, roots: set<CommitId>, es: seq<RefEdit>) {
    forall i | 0 <= i < |es| && MovesHead(es[i]) :: HeadMovedTo(es[i]) in r.commits || HeadMovedTo(es[i]) in roots
  }

  /** A recorded commit stays recorded. */
  lemma {:induction false} CommitsGrow(r: Refs, es: seq<RefEdit>)
    ensures r.commits.Keys <= Replay(r, es).commits.Keys
  {
    if es != [] { CommitsGrow(r, es[..|es| - 1]); }
  }

  /** Replay records the same commits from any refs that have no fewer. */
  lemma {:induction false} CommitsOf(r: Refs, r': Refs, es: seq<RefEdit>)
    requires Replay(r', es).commits.Keys <= r.commits.Keys
    ensures Replay(r, es).commits.Keys == r.commits.Keys
  {
    if es != [] {
      CommitsOf(r, r', es[..|es| - 1]);
    }
  }

  /** Heads after a replay are old ones or ones it set. */
  lemma {:induction false} HeadsAre(r: Refs, es: seq<RefEdit>, b: Name)
    requires b in Replay(r, es).branches
    ensures var c := Replay(r, es).branches[b];
            (b in r.branches && r.branches[b] == c)
            || exists i :: 0 <= i < |es| && MovesHead(es[i]) && HeadMovedTo(es[i]) == c
  {
    if es != [] {
      var (init, e) := (es[..|es| - 1], es[|es| - 1]);
      if b in Replay(r, init).branches && Replay(r, init).branches[b] == Replay(r, es).branches[b] {
        HeadsAre(r, init, b);
        var c := Replay(r, es).branches[b];
        if !(b in r.branches && r.branches[b] == c) {
          var i :| 0 <= i < |init| && MovesHead(init[i]) && HeadMovedTo(init[i]) == c;
          assert es[i] == init[i];
        }
      } else {
        assert MovesHead(es[|es| - 1]);
      }
    }
  }

  /** Where a log's own edits have been replayed already, replaying a prefix of it again leaves every head recorded, for
      every prefix, exactly when every head the log ever set is recorded by its end. */
  lemma PrefixHeads(base: Refs, roots: set<CommitId>, all: seq<RefEdit>)
    ensures var r := Replay(base, all);
            (forall k | 0 <= k <= |all| :: HeadsRecorded(Replay(r, all[..k]), roots)) <==>
              HeadsRecorded(r, roots) && MovesRecorded(r, roots, all)
  {
    var r := Replay(base, all);
    forall k | 0 <= k <= |all| ensures Replay(r, all[..k]).commits.Keys == r.commits.Keys {
      assert all == all[..k] + all[k..];
      ReplayConcat(base, all[..k], all[k..]);
      CommitsGrow(Replay(base, all[..k]), all[k..]);
      CommitsOf(r, base, all[..k]);
    }
    if HeadsRecorded(r, roots) && MovesRecorded(r, roots, all) {
      forall k | 0 <= k <= |all| ensures HeadsRecorded(Replay(r, all[..k]), roots) {
        forall b | b in Replay(r, all[..k]).branches
          ensures Replay(r, all[..k]).branches[b] in r.commits || Replay(r, all[..k]).branches[b] in roots
        {
          HeadsAre(r, all[..k], b);
        }
      }
    }
    if forall k | 0 <= k <= |all| :: HeadsRecorded(Replay(r, all[..k]), roots) {
      ReplayNone(r);
      assert all[..0] == [];
      assert HeadsRecorded(Replay(r, all[..0]), roots);
      forall i | 0 <= i < |all| && MovesHead(all[i])
        ensures HeadMovedTo(all[i]) in r.commits || HeadMovedTo(all[i]) in roots
      {
        assert all[..i + 1][..i] == all[..i];
        assert HeadsRecorded(Replay(r, all[..i + 1]), roots);
        var b := if all[i].SetHead? then all[i].branch else all[i].name;
        assert Replay(r, all[..i + 1]).branches[b] == HeadMovedTo(all[i]);
      }
    }
  }

  /** What a crash that leaves m bytes of the old log over the new snapshot loads. */
  lemma TruncatedLoads(c: Codec, d: Disk, prior: seq<RefEdit>, batch: seq<RefEdit>, m: nat)
    requires Faithful(c) && Framed(c, prior) && Framed(c, batch)
    requires LogBytes(d) == Frames(c, prior) && ReadSnapshot(c, d).Live? && batch != []
    requires m <= |Frames(c, prior)| + |Frames(c, batch)|
    ensures var all, base := prior + batch, OrEmpty(ReadSnapshot(c, d).refs);
            var k := WholeFrames(c, all, m);
            && Framed(c, all) && Frames(c, all) == Frames(c, prior) + Frames(c, batch)
            && Reconstruct(c, CrashedApply(c, d, batch, DuringTruncate(m)))
               == Live(Some(Replay(Replay(base, all), all[..k])))
  {
    hide Faithful, FramesDecode, Frames, Replay, WholeFrames;
    var all, base := prior + batch, OrEmpty(ReadSnapshot(c, d).refs);
    FramesConcat(c, prior, batch);
    CleanDecode(c, all);
    TornDecode(c, all, m);
    SnapshotReadsBack(c, Replay(base, all));
  }

  lemma {:induction false} FramesBefore(c: Codec, es: seq<RefEdit>, k: nat)
    requires k <= |es|
    ensures |Frames(c, es[..k])| <= |Frames(c, es)| && WholeFrames(c, es, |Frames(c, es[..k])|) == k
  {
    if k > 0 {
      assert es[..k][1..] == es[1..][..k - 1];
      FramesBefore(c, es[1..], k - 1);
    } else {
      assert es[..0] == [];
    }
  }

  /** These files load, with every head recorded. */
  ghost predicate LoadsRecorded(c: Codec, d: Disk, roots: set<CommitId>) {
    var loaded := Reconstruct(c, d);
    loaded.Live? && loaded.refs.Some? && HeadsRecorded(loaded.refs.value, roots)
  }

  /** **Inside the truncate heads may go back, but not to an unrecorded commit**, wherever the crash, exactly when every
      head the log ever set is recorded by the batch's end. */
  lemma TruncatedReloads(c: Codec, d: Disk, prior: seq<RefEdit>, batch: seq<RefEdit>, roots: set<CommitId>)
    requires Faithful(c) && Framed(c, prior) && Framed(c, batch)
    requires LogBytes(d) == Frames(c, prior) && ReadSnapshot(c, d).Live? && batch != []
    ensures var r := Replay(OrEmpty(ReadSnapshot(c, d).refs), prior + batch);
            (forall m: nat | m <= |Frames(c, prior)| + |Frames(c, batch)| ::
               LoadsRecorded(c, CrashedApply(c, d, batch, DuringTruncate(m)), roots)) <==>
              HeadsRecorded(r, roots) && MovesRecorded(r, roots, prior + batch)
  {
    hide Faithful, Frames, Framed, Replay, WholeFrames, HeadsRecorded, MovesRecorded, CrashedApply, Reconstruct;
    var all, base := prior + batch, OrEmpty(ReadSnapshot(c, d).refs);
    PrefixHeads(base, roots, all);
    var r := Replay(base, all);
    forall m: nat | m <= |Frames(c, prior)| + |Frames(c, batch)|
      ensures Reconstruct(c, CrashedApply(c, d, batch, DuringTruncate(m)))
              == Live(Some(Replay(r, all[..WholeFrames(c, all, m)])))
    {
      TruncatedLoads(c, d, prior, batch, m);
    }
    FramesConcat(c, prior, batch);
    if forall m: nat | m <= |Frames(c, prior)| + |Frames(c, batch)| ::
        LoadsRecorded(c, CrashedApply(c, d, batch, DuringTruncate(m)), roots) {
      forall k | 0 <= k <= |all| ensures HeadsRecorded(Replay(r, all[..k]), roots) {
        FramesBefore(c, all, k);
        assert LoadsRecorded(c, CrashedApply(c, d, batch, DuringTruncate(|Frames(c, all[..k])|)), roots);
      }
    }
  }
}
