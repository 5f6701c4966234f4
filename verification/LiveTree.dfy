/** A branch's tree as a live index: what a write and a fold make of it, and the state both keep it in. */
module LiveTree {
  import opened Bytes
  import opened Records
  import opened Keyspace
  import opened Listings
  import HnswGraph
  import opened HnswStore
  import opened LiveIndex
  import opened AnnFold
  import opened AnnSearch
  import opened AnnWrite
  import opened WriteExtras
  import opened Merge
  import Repo
  import RepoGraph
  import Refs
  import ClaimStore

  // ---------- two tables with one index ----------

  predicate OfIndex(k: Key) { RegionOf(k) in {Region.Index, Region.Buffer, Region.Graph} }

  ghost predicate SameIndex(m: Table, m': Table) { forall k | OfIndex(k) :: Look(m, k) == Look(m', k) }

  lemma IndexKeys(id: Key)
    ensures OfIndex(IndexKey(id)) && OfIndex(BufferKey(id)) && OfIndex(GraphNodeKey(id)) && OfIndex(GRAPH_META)
  {
    BuilderRegions(id, [], 0);
    NodeKeyParts(id);
    IndexRegions(GraphNodeKey(id));
    IndexRegions(GRAPH_META);
  }

  lemma SameAt(c: Codec, m: Table, m': Table, id: Key)
    requires SameIndex(m, m')
    ensures BlobAt(m, IndexKey(id)) == BlobAt(m', IndexKey(id)) && BlobAt(m, BufferKey(id)) == BlobAt(m', BufferKey(id))
    ensures NodeAt(c, m, id) == NodeAt(c, m', id) && BlobAt(m, GRAPH_META) == BlobAt(m', GRAPH_META)
    ensures BlobAt(m, GraphNodeKey(id)) == BlobAt(m', GraphNodeKey(id))
  {
    IndexKeys(id);
    hide OfIndex, IndexKey, BufferKey, GraphNodeKey;
    assert Look(m, IndexKey(id)) == Look(m', IndexKey(id)) && Look(m, BufferKey(id)) == Look(m', BufferKey(id));
    assert Look(m, GraphNodeKey(id)) == Look(m', GraphNodeKey(id)) && Look(m, GRAPH_META) == Look(m', GRAPH_META);
  }

  lemma SameStored(c: Codec, m: Table, m': Table)
    requires SameIndex(m, m')
    ensures StoreOf(c, m) == StoreOf(c, m') && MetaOf(c, m) == MetaOf(c, m')
  {
    hide StoreOf, NodeAt, SameIndex;
    forall id ensures id in StoreOf(c, m) <==> id in StoreOf(c, m')
              ensures id in StoreOf(c, m) ==> StoreOf(c, m)[id] == StoreOf(c, m')[id]
    {
      SameAt(c, m, m', id);
      StoreIs(c, m, id);
      StoreIs(c, m', id);
    }
    SameAt(c, m, m', []);
  }

  lemma SameLiveAt(c: Codec, m: Table, m': Table, members: set<Key>, id: Key)
    requires SameIndex(m, m')
    ensures var (i, i') := (IndexOf(c, m, members), IndexOf(c, m', members));
            && (id in i.entries <==> id in i'.entries) && (id in i.entries ==> i.entries[id] == i'.entries[id])
            && (id in i.buffer <==> id in i'.buffer) && (id in i.buffer ==> i.buffer[id] == i'.buffer[id])
            && (id in i.nodes <==> id in i'.nodes) && (id in i.nodes ==> i.nodes[id] == i'.nodes[id])
  {
    SameAt(c, m, m', id);
    assert EntryAt(c, m, id) == EntryAt(c, m', id) && BufferedAt(c, m, id) == BufferedAt(c, m', id);
    hide IndexOf, SameIndex, NodeAt, EntryAt, BufferedAt, BlobAt;
    EntriesAre(c, m, members, id);
    EntriesAre(c, m', members, id);
    BuffersAre(c, m, members, id);
    BuffersAre(c, m', members, id);
    NodesAre(c, m, members, id);
    NodesAre(c, m', members, id);
  }

  lemma SameLive(c: Codec, m: Table, m': Table, members: set<Key>)
    requires SameIndex(m, m')
    ensures IndexOf(c, m, members) == IndexOf(c, m', members)
  {
    var (i, i') := (IndexOf(c, m, members), IndexOf(c, m', members));
    SameMembers(c, m, m', members);
    hide IndexOf, SameIndex;
    forall id
      ensures (id in i.entries <==> id in i'.entries) && (id in i.entries ==> i.entries[id] == i'.entries[id])
      ensures (id in i.buffer <==> id in i'.buffer) && (id in i.buffer ==> i.buffer[id] == i'.buffer[id])
      ensures (id in i.nodes <==> id in i'.nodes) && (id in i.nodes ==> i.nodes[id] == i'.nodes[id])
    {
      SameLiveAt(c, m, m', members, id);
    }
    assert i.entries == i'.entries && i.buffer == i'.buffer && i.nodes == i'.nodes;
  }

  lemma SameSound(c: Codec, m: Table, m': Table)
    requires SameIndex(m, m') && IndexSound(c, m)
    ensures IndexSound(c, m')
  {
    hide SameIndex, IndexKey, BufferKey, BlobAt;
    forall id ensures BlobAt(m, IndexKey(id)) == BlobAt(m', IndexKey(id))
              ensures BlobAt(m, BufferKey(id)) == BlobAt(m', BufferKey(id))
    {
      SameAt(c, m, m', id);
    }
  }

  // ---------- a write ----------

  /** Records whose keys are none of the index's own. */
  predicate BesideIndex(kvs: seq<(Key, Record)>) { forall j | 0 <= j < |kvs| :: !OfIndex(kvs[j].0) }

  lemma TracedBeside(m: Table, b: Refs.Name, kvs: seq<(Key, Record)>, describe: Repo.Describe)
    requires BesideIndex(kvs)
    ensures SameIndex(m, Repo.Traced(m, b, kvs, describe))
  {
    hide Repo.Traced, Repo.PutAll;
    forall k | OfIndex(k) ensures Look(m, k) == Look(Repo.Traced(m, b, kvs, describe), k) {
      RepoGraph.TracedElsewhere(m, b, kvs, describe, k);
      RepoGraph.PutAllElsewhere(m, kvs, k);
    }
  }

  lemma {:induction false} HintsSame(c: Codec, m: Table, m': Table, hints: Hints)
    requires SameIndex(m, m')
    ensures SameIndex(PutHints(c, m, hints), PutHints(c, m', hints))
  {
    if hints != [] { HintsSame(c, m, m', hints[..|hints| - 1]); }
  }

  lemma ClaimsBeside(c: ClaimStore.Codec, m: Table, kvs: seq<(Key, Record)>)
    ensures SameIndex(m, PutClaims(c, m, kvs))
  {
    forall k | OfIndex(k) ensures Look(m, k) == Look(PutClaims(c, m, kvs), k) { ClaimsElsewhere(c, m, kvs, k); }
  }

  /** A write's index is that of the table with just its hints put in. */
  lemma WrittenHints(m: Table, b: Refs.Name, kvs: seq<(Key, Record)>, x: Repo.Extras)
    requires BesideIndex(kvs)
    ensures SameIndex(PutHints(x.entries, m, HintsOf(kvs, x.hints)), Repo.Written(m, b, kvs, x))
  {
    hide Repo.Traced, PutHints, PutClaims, OfIndex;
    var traced := Repo.Traced(m, b, kvs, x.describe);
    var hints := HintsOf(kvs, x.hints);
    TracedBeside(m, b, kvs, x.describe);
    HintsSame(x.entries, m, traced, hints);
    ClaimsBeside(x.versions, PutHints(x.entries, traced, hints), kvs);
  }

  lemma HintsLeaveGraph(c: Codec, m: Table, hints: Hints)
    ensures StoreOf(c, PutHints(c, m, hints)) == StoreOf(c, m)
    ensures MetaOf(c, PutHints(c, m, hints)) == MetaOf(c, m)
    ensures BlobAt(PutHints(c, m, hints), GRAPH_META) == BlobAt(m, GRAPH_META)
  {
    var m' := PutHints(c, m, hints);
    hide StoreOf, PutHints;
    forall id ensures id in StoreOf(c, m') <==> id in StoreOf(c, m)
              ensures id in StoreOf(c, m) ==> StoreOf(c, m')[id] == StoreOf(c, m)[id]
    {
      NodeKeyParts(id);
      IndexRegions(GraphNodeKey(id));
      HintsElsewhere(c, m, hints, GraphNodeKey(id));
      StoreIs(c, m, id);
      StoreIs(c, m', id);
    }
    IndexRegions(GRAPH_META);
    HintsElsewhere(c, m, hints, GRAPH_META);
  }

  /** **A write is, on the live index, its hints, and leaves the stored graph alone.** */
  lemma WriteIndexed(m: Table, b: Refs.Name, kvs: seq<(Key, Record)>, x: Repo.Extras, members: set<Key>)
    requires Decodes(x.entries) && IndexSound(x.entries, m) && BesideIndex(kvs)
    ensures var (c, m') := (x.entries, Repo.Written(m, b, kvs, x));
            && IndexSound(c, m') && IndexOf(c, m', members) == Hinted(IndexOf(c, m, members), HintsOf(kvs, x.hints))
            && StoreOf(c, m') == StoreOf(c, m) && MetaOf(c, m') == MetaOf(c, m)
            && BlobAt(m', GRAPH_META) == BlobAt(m, GRAPH_META)
  {
    hide Repo.Written, PutHints, IndexOf, StoreOf, IndexSound, SameIndex, MetaOf, BlobAt;
    var (c, hints) := (x.entries, HintsOf(kvs, x.hints));
    var (hinted, m') := (PutHints(c, m, hints), Repo.Written(m, b, kvs, x));
    WrittenHints(m, b, kvs, x);
    HintsIndexed(c, m, members, hints);
    HintsLeaveGraph(c, m, hints);
    SameLive(c, hinted, m', members);
    SameSound(c, hinted, m');
    SameStored(c, hinted, m');
    SameAt(c, hinted, m', []);
  }

  // ---------- fresh ----------

  ghost predicate MetaReads(c: Codec, m: Table) {
    BlobAt(m, GRAPH_META).Some? ==> c.readMeta(BlobAt(m, GRAPH_META).value).Some?
  }

  /** The tree stores this graph of vectors of one dimension, and decodes as a live index that is fresh. */
  ghost predicate FreshWith(c: Codec, space: Space, dim: nat, m: Table, g: HnswGraph.Graph,
                            raw: map<Key, HnswGraph.Vec>)
  {
    var i := IndexOf(c, m, g.at.Keys);
    && IndexSound(c, m) && MetaReads(c, m)
    && HnswGraph.WellBuilt(g) && Raw(space, g, raw) && Holds(StoreOf(c, m), g, raw) && MetaOf(c, m) == ExportMeta(g)
    && (forall k | k in g.at :: HasDim(space, dim, raw[k]))
    && Fresh(i) && Alike(space, dim, i) && i.buffer.Keys + i.members <= i.entries.Keys
  }

  ghost predicate FreshTable(c: Codec, space: Space, dim: nat, m: Table) {
    exists g, raw :: FreshWith(c, space, dim, m, g, raw)
  }

  lemma EmptyFresh(c: Codec, space: Space, dim: nat)
    ensures FreshTable(c, space, dim, map[])
  {
    HnswGraph.EmptyWellBuilt();
    var g := HnswGraph.EMPTY;
    assert FreshWith(c, space, dim, map[], g, map[]);
  }

  predicate AllAlike(space: Space, dim: nat, hints: Hints) {
    forall j | 0 <= j < |hints| && hints[j].1.Some? :: HasDim(space, dim, hints[j].1.value)
  }

  lemma {:induction false} HintedKeys(i: Index, hints: Hints)
    requires i.buffer.Keys + i.members <= i.entries.Keys
    ensures var i' := Hinted(i, hints); i'.buffer.Keys + i'.members <= i'.entries.Keys && i'.members == i.members
  {
    if hints != [] { HintedKeys(i, hints[..|hints| - 1]); }
  }

  /** A write of vectors of the dimension keeps a tree fresh. */
  lemma WriteFresh(space: Space, dim: nat, m: Table, b: Refs.Name, kvs: seq<(Key, Record)>, x: Repo.Extras)
    requires Decodes(x.entries) && BesideIndex(kvs) && AllAlike(space, dim, HintsOf(kvs, x.hints))
    requires FreshTable(x.entries, space, dim, m)
    ensures FreshTable(x.entries, space, dim, Repo.Written(m, b, kvs, x))
  {
    hide HnswGraph.WellBuilt, Raw, Holds, Fresh, Alike, IndexOf, StoreOf, IndexSound, Repo.Written, HintsOf, MetaOf,
         BlobAt;
    var (c, hints) := (x.entries, HintsOf(kvs, x.hints));
    var g, raw :| FreshWith(c, space, dim, m, g, raw);
    var i := IndexOf(c, m, g.at.Keys);
    WriteIndexed(m, b, kvs, x, g.at.Keys);
    WriteKeepsFresh(i, hints);
    WriteKeepsAlike(space, dim, i, hints);
    HintedKeys(i, hints);
    assert FreshWith(c, space, dim, Repo.Written(m, b, kvs, x), g, raw);
  }

  // ---------- a fold ----------

  lemma FoldedSound(c: Codec, g: HnswGraph.Graph, raw: map<Key, HnswGraph.Vec>, m: Table, m': Table)
    requires Decodes(c) && HnswGraph.WellBuilt(g) && FoldsTo(c, g, raw, m, m') && IndexSound(c, m)
    ensures IndexSound(c, m') && MetaReads(c, m')
  {
    hide HnswGraph.WellBuilt, ExportNode;
    forall id ensures BlobAt(m', IndexKey(id)) == BlobAt(m, IndexKey(id)) && BlobAt(m', BufferKey(id)).None? {
      var (k, b) := (IndexKey(id), BufferKey(id));
      assert k[..|INDEX|] == INDEX && b[..|BUFFER|] == BUFFER;
      IndexRegions(k);
      assert Look(m', k) == RecordAfter(c, g, raw, m, k) && Look(m', b) == RecordAfter(c, g, raw, m, b);
    }
    MetaApart(GRAPH_META);
    assert Look(m', GRAPH_META) == RecordAfter(c, g, raw, m, GRAPH_META);
    assert c.readMeta(c.writeMeta(ExportMeta(g))) == Some(ExportMeta(g));
  }

  /** What a fold places are current vectors of the dimension. */
  lemma PlacedAlike(space: Space, dim: nat, i: Index)
    requires Alike(space, dim, i)
    ensures var placed := Placed(space, EntryPairs(i)).1;
            forall k | k in placed :: k in i.entries && HasDim(space, dim, placed[k])
  {
    var pairs := EntryPairs(i);
    EntryPairsAre(i);
    PlacedExactly(space, pairs);
    var placed := Placed(space, pairs).1;
    forall k | k in placed ensures k in i.entries && HasDim(space, dim, placed[k]) {
      var j :| 0 <= j < |pairs| && pairs[j].0 == k;
      assert Embedded(i, k);
    }
  }

  /** A fold keeps a fresh tree fresh. */
  lemma FoldFresh(c: Codec, space: Space, dim: nat, m: Table)
    requires Decodes(c) && FreshTable(c, space, dim, m)
    ensures PairsIn(c, Listing(m)).Some? && FreshTable(c, space, dim, FoldedTable(c, space, m))
  {
    hide HnswGraph.WellBuilt, Raw, Holds, Fresh, Alike, IndexOf, StoreOf, IndexSound, FoldedTable, Placed, EntryPairs,
         Built, RawOf, PairsIn, MetaReads, MetaOf, FoldsTo, Apart, ExportMeta;
    var g0, raw0 :| FreshWith(c, space, dim, m, g0, raw0);
    var i := IndexOf(c, m, g0.at.Keys);
    ScanIsEntryPairs(c, m, g0.at.Keys);
    var pairs := EntryPairs(i);
    var (g, raw, m') := (Built(space, pairs), RawOf(pairs), FoldedTable(c, space, m));
    FoldedTableIs(c, space, m, m');
    BuiltRaw(space, pairs);
    RebuiltStore(c, g, raw, m, m');
    FoldedSound(c, g, raw, m, m');
    RebuildFolds(c, space, m, m', g0.at.Keys);
    PlacedAlike(space, dim, i);
    FoldedStays(space, dim, i);
    assert Fresh(IndexOf(c, m', g.at.Keys));
    assert FreshWith(c, space, dim, m', g, raw);
  }

  lemma FoldedStays(space: Space, dim: nat, i: Index)
    requires Alike(space, dim, i)
    ensures var i' := Folded(space, i);
            Alike(space, dim, i') && i'.buffer.Keys + i'.members <= i'.entries.Keys
  {
    PlacedAlike(space, dim, i);
  }
}
