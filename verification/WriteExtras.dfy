/** What a write puts in the tree beside its records and their provenance: index entries, buffered vectors, and versions
    of claims. */
module WriteExtras {
  import opened Bytes
  import opened Records
  import opened Keyspace
  import opened Listings
  import BTree
  import HnswGraph
  import opened LiveIndex
  import opened AnnFold
  import ClaimStore

  // ---------- index entries and the buffer ----------

  function EntryRecord(c: Codec, k: Key, v: Option<HnswGraph.Vec>): Record { OfValue(Blob(c.writeEntry(k, v))) }

  function VecRecord(c: Codec, v: HnswGraph.Vec): Record { OfValue(Blob(c.writeVec(v))) }

  /** One hint: the entry replaced, and its vector, if any, buffered. */
  function PutHint(c: Codec, m: Table, k: Key, v: Option<HnswGraph.Vec>): Table {
    var m1 := m[IndexKey(k) := EntryRecord(c, k, v)];
    if v.Some? then m1[BufferKey(k) := VecRecord(c, v.value)] else m1
  }

  /** The table after a batch's hints: every entry replaced, every vector buffered. */
  function PutHints(c: Codec, m: Table, hints: Hints): Table {
    if hints == [] then m
    else
      var (k, v) := hints[|hints| - 1];
      PutHint(c, PutHints(c, m, hints[..|hints| - 1]), k, v)
  }

  method InsertHints(tree: BTree.Tree, c: Codec, hints: Hints)
    requires tree.Valid()
    modifies tree
    ensures tree.Valid() && tree.Model() == PutHints(c, old(tree.Model()), hints)
    ensures hints == [] ==> tree.Snapshot() == old(tree.Snapshot())
  {
    for i := 0 to |hints|
      invariant tree.Valid() && tree.Model() == PutHints(c, old(tree.Model()), hints[..i])
      invariant i == 0 ==> tree.Snapshot() == old(tree.Snapshot())
    {
      assert hints[..i + 1][..i] == hints[..i];
      var (k, v) := hints[i];
      tree.Insert(IndexKey(k), EntryRecord(c, k, v));
      if v.Some? { tree.Insert(BufferKey(k), VecRecord(c, v.value)); }
    }
    assert hints[..|hints|] == hints;
  }

  /** What a caller asks to be indexed, by record. */
  type HintMap = map<Key, Option<HnswGraph.Vec>>

  /** Whether a record has anything to cite; one with nothing is written, but not indexed. */
  predicate Cites(rec: Record) {
    match rec
    case OfObservation(_) => true
    case OfClaim(claim) => claim.evidence != []
    case OfValue(_) => false
  }

  /** The hints of a batch's own records that can be indexed, in batch order. */
  function HintsOf(kvs: seq<(Key, Record)>, wanted: HintMap): Hints {
    if kvs == [] then []
    else
      var (before, kv) := (HintsOf(kvs[..|kvs| - 1], wanted), kvs[|kvs| - 1]);
      if kv.0 in wanted && Cites(kv.1) then before + [(kv.0, wanted[kv.0])] else before
  }

  method CollectHints(kvs: seq<(Key, Record)>, wanted: HintMap) returns (hints: Hints)
    ensures hints == HintsOf(kvs, wanted)
  {
    hints := [];
    for i := 0 to |kvs|
      invariant hints == HintsOf(kvs[..i], wanted)
    {
      assert kvs[..i + 1][..i] == kvs[..i];
      if kvs[i].0 in wanted && Cites(kvs[i].1) { hints := hints + [(kvs[i].0, wanted[kvs[i].0])]; }
    }
    assert kvs[..|kvs|] == kvs;
  }

  // ---------- claim versions ----------

  /** The table after a batch's claims are asserted, in batch order. */
  ghost function PutClaims(c: ClaimStore.Codec, m: Table, kvs: seq<(Key, Record)>): Table {
    if kvs == [] then m
    else
      var before := PutClaims(c, m, kvs[..|kvs| - 1]);
      match kvs[|kvs| - 1].1
      case OfClaim(claim) => ClaimStore.Appended(c, before, claim)
      case _ => before
  }

  method InsertClaims(tree: BTree.Tree, c: ClaimStore.Codec, kvs: seq<(Key, Record)>)
    requires tree.Valid()
    modifies tree
    ensures tree.Valid() && tree.Model() == PutClaims(c, old(tree.Model()), kvs)
    ensures (forall i | 0 <= i < |kvs| :: !kvs[i].1.OfClaim?) ==> tree.Snapshot() == old(tree.Snapshot())
  {
    hide ClaimStore.Appended, BTree.Represents, BTree.SizesOk;
    for i := 0 to |kvs|
      invariant tree.Valid() && tree.Model() == PutClaims(c, old(tree.Model()), kvs[..i])
      invariant (forall j | 0 <= j < i :: !kvs[j].1.OfClaim?) ==> tree.Snapshot() == old(tree.Snapshot())
    {
      assert kvs[..i + 1][..i] == kvs[..i];
      if kvs[i].1.OfClaim? { ClaimStore.Append(tree, c, kvs[i].1.claim); }
    }
    assert kvs[..|kvs|] == kvs;
  }

  // ---------- and nothing else ----------

  lemma {:induction false} HintsElsewhere(c: Codec, m: Table, hints: Hints, k: Key)
    requires RegionOf(k) !in {Region.Index, Region.Buffer}
    ensures (k in PutHints(c, m, hints) <==> k in m) && (k in m ==> PutHints(c, m, hints)[k] == m[k])
  {
    if hints != [] {
      HintsElsewhere(c, m, hints[..|hints| - 1], k);
      BuilderRegions(hints[|hints| - 1].0, [], 0);
      hide RegionOf, IndexKey, BufferKey;
    }
  }

  lemma {:induction false} ClaimsElsewhere(c: ClaimStore.Codec, m: Table, kvs: seq<(Key, Record)>, k: Key)
    requires RegionOf(k) != Region.History
    ensures (k in PutClaims(c, m, kvs) <==> k in m) && (k in m ==> PutClaims(c, m, kvs)[k] == m[k])
  {
    if kvs != [] {
      ClaimsElsewhere(c, m, kvs[..|kvs| - 1], k);
      match kvs[|kvs| - 1].1
      case OfClaim(claim) =>
        HistoryOnly(k);
        ClaimStore.AppendElsewhere(c, PutClaims(c, m, kvs[..|kvs| - 1]), claim, k);
      case _ =>
    }
  }

  /** Nothing outside the histories' region has a history's prefix. */
  lemma HistoryOnly(k: Key)
    requires RegionOf(k) != Region.History
    ensures forall s, p :: !StartsWith(k, HistoryPrefix(s, p))
  {
    forall s, p ensures !StartsWith(k, HistoryPrefix(s, p)) {
      var pre := HistoryPrefix(s, p);
      assert pre[..6] == RESERVED_PREFIX && pre[6] == 99;
    }
  }

  /** A batch of one engine's value has nothing to index and nothing to believe. */
  lemma NoExtras(kv: (Key, Record), wanted: HintMap, c: ClaimStore.Codec, m: Table)
    requires kv.1.OfValue?
    ensures HintsOf([kv], wanted) == [] && PutClaims(c, m, [kv]) == m
  {
    var kvs := [kv];
    assert kvs[..0] == [];
    assert HintsOf(kvs[..0], wanted) == [] && PutClaims(c, m, kvs[..0]) == m;
  }
}
