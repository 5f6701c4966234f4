/** What a rebuilt tree answers: the same as the graph in memory, and fresh as the index it was built from. */
module AnnSearch {
  import opened Bytes
  import opened Records
  import opened SortedEntries
  import opened Keyspace
  import opened KeyOrder
  import opened Listings
  import HnswGraph
  import opened HnswStore
  import opened LiveIndex
  import opened AnnFold
  import Merge
  import Repo

  // ---------- the rest of the tree ----------

  lemma IndexRegions(k: Key)
    ensures StartsWith(k, BUFFER) ==> RegionOf(k) == Region.Buffer
    ensures StartsWith(k, GRAPH_NODE) || k == GRAPH_META ==> RegionOf(k) == Region.Graph
    ensures StartsWith(k, INDEX) ==> RegionOf(k) == Region.Index
  {
    if StartsWith(k, BUFFER) { assert k[..|BUFFER|][..6] == RESERVED_PREFIX && k[6] == k[..|BUFFER|][6]; }
    if StartsWith(k, GRAPH_NODE) { assert k[..|GRAPH_NODE|][..6] == RESERVED_PREFIX && k[6] == k[..|GRAPH_NODE|][6]; }
    if StartsWith(k, INDEX) { assert k[..|INDEX|][..6] == RESERVED_PREFIX && k[6] == k[..|INDEX|][6]; }
    assert GRAPH_META[..6] == RESERVED_PREFIX;
  }

  /** A rebuild touches nothing outside the graph and the buffer. */
  lemma RebuildElsewhere(c: Codec, g: HnswGraph.Graph, raw: map<Key, HnswGraph.Vec>, m: Table, m': Table)
    requires HnswGraph.WellBuilt(g) && FoldsTo(c, g, raw, m, m')
    ensures Repo.SameOutsideIndex(m, m')
  {
    forall k | RegionOf(k) !in {Region.Graph, Region.Buffer} ensures Merge.Look(m, k) == Merge.Look(m', k) {
      IndexRegions(k);
    }
  }

  // ---------- the stored graph ----------

  predicate HasNode(c: Codec, m: Table, k: Key) {
    k in m && StartsWith(k, GRAPH_NODE) && m[k].OfValue? && m[k].value.Blob? && c.readNode(m[k].value.bytes).Some?
  }

  lemma Rest(p: Key, k: Key)
    requires StartsWith(k, p)
    ensures k == p + k[|p|..]
  {
  }

  function NodeAt(c: Codec, m: Table, id: Key): Option<Persisted> {
    var k := GraphNodeKey(id);
    if HasNode(c, m, k) then c.readNode(m[k].value.bytes) else None
  }

  /** The nodes a search of this tree reads. */
  function StoreOf(c: Codec, m: Table): NodeStore {
    map id | id in (set k | k in m && StartsWith(k, GRAPH_NODE) :: k[|GRAPH_NODE|..]) && NodeAt(c, m, id).Some? ::
        NodeAt(c, m, id).value
  }

  lemma StoreIs(c: Codec, m: Table, id: Key)
    ensures (id in StoreOf(c, m) <==> NodeAt(c, m, id).Some?)
            && (id in StoreOf(c, m) ==> StoreOf(c, m)[id] == NodeAt(c, m, id).value)
  {
    var k := GraphNodeKey(id);
    assert k[|GRAPH_NODE|..] == id;
    if NodeAt(c, m, id).Some? { assert k in m && StartsWith(k, GRAPH_NODE); }
  }

  function MetaOf(c: Codec, m: Table): StoreMeta {
    if GRAPH_META in m && m[GRAPH_META].OfValue? && m[GRAPH_META].value.Blob?
      && c.readMeta(m[GRAPH_META].value.bytes).Some?
    then c.readMeta(m[GRAPH_META].value.bytes).value
    else StoreMeta(None, 0, None)
  }

  lemma NodeKeyParts(id: Key)
    ensures StartsWith(GraphNodeKey(id), GRAPH_NODE) && GraphNodeKey(id)[|GRAPH_NODE|..] == id
    ensures !StartsWith(GraphNodeKey(id), BUFFER) && GraphNodeKey(id) != GRAPH_META
  {
    var k := GraphNodeKey(id);
    assert k[..|GRAPH_NODE|] == GRAPH_NODE;
    MetaApart(k);
  }

  /** The rebuilt tree holds the exported graph, and its bookkeeping. */
  lemma RebuiltStore(c: Codec, g: HnswGraph.Graph, raw: map<Key, HnswGraph.Vec>, m: Table, m': Table)
    requires Decodes(c) && HnswGraph.WellBuilt(g) && FoldsTo(c, g, raw, m, m')
    ensures Holds(StoreOf(c, m'), g, raw) && MetaOf(c, m') == ExportMeta(g)
    ensures forall id | id !in g.at :: NodeAt(c, m', id) == NodeAt(c, m, id)
  {
    assert |g.nodes| == |g.ids| && forall id | id in g.at :: g.at[id] < |g.nodes|;
    hide HnswGraph.WellBuilt, ExportNode, StoreOf;
    forall id ensures id in g.at ==> NodeAt(c, m', id) == Some(ExportNode(g, raw, g.at[id]))
              ensures id !in g.at ==> NodeAt(c, m', id) == NodeAt(c, m, id)
    {
      NodeKeyParts(id);
      assert Merge.Look(m', GraphNodeKey(id)) == RecordAfter(c, g, raw, m, GraphNodeKey(id));
    }
    forall id | id in g.at ensures id in StoreOf(c, m') && StoreOf(c, m')[id] == ExportNode(g, raw, g.at[id]) {
      StoreIs(c, m', id);
    }
    MetaApart(GRAPH_META);
    assert Merge.Look(m', GRAPH_META) == RecordAfter(c, g, raw, m, GRAPH_META);
  }

  // ---------- the graph against its pairs ----------

  lemma {:induction false} RawIs(pairs: Pairs)
    requires Apart(pairs)
    ensures forall j | 0 <= j < |pairs| :: pairs[j].0 in RawOf(pairs) && RawOf(pairs)[pairs[j].0] == pairs[j].1
  {
    if pairs != [] { RawIs(pairs[..|pairs| - 1]); }
  }

  lemma NothingStored()
    ensures HnswGraph.WellBuilt(HnswGraph.EMPTY) && HnswGraph.Stored(HnswGraph.EMPTY) == map[]
  {
    HnswGraph.EmptyWellBuilt();
  }

  /** The built graph holds exactly what the vectors' directions and the first dimension let in, as unit vectors. */
  lemma {:induction false} BuiltHolds(space: Space, pairs: Pairs)
    ensures var (g, (dim, placed)) := (Built(space, pairs), Placed(space, pairs));
            && g.dim == dim && HnswGraph.Stored(g).Keys == placed.Keys
            && forall k | k in placed :: space.norm(placed[k]) == Some(HnswGraph.Stored(g)[k])
  {
    hide HnswGraph.WellBuilt, HnswGraph.Inserted, HnswGraph.Stored;
    if pairs != [] {
      var init := pairs[..|pairs| - 1];
      BuiltHolds(space, init);
      HnswGraph.InsertStores(space, Built(space, init), pairs[|pairs| - 1].0, pairs[|pairs| - 1].1);
    } else {
      NothingStored();
    }
  }

  lemma BuiltRaw(space: Space, pairs: Pairs)
    requires Apart(pairs)
    ensures Raw(space, Built(space, pairs), RawOf(pairs))
    ensures Built(space, pairs).at.Keys == Placed(space, pairs).1.Keys
    ensures forall k | k in Placed(space, pairs).1 :: k in RawOf(pairs) && RawOf(pairs)[k] == Placed(space, pairs).1[k]
  {
    BuiltHolds(space, pairs);
    PlacedExactly(space, pairs);
    RawIs(pairs);
    var g := Built(space, pairs);
    assert g.at.Keys == HnswGraph.Stored(g).Keys;
    forall k | k in Placed(space, pairs).1 ensures k in RawOf(pairs) && RawOf(pairs)[k] == Placed(space, pairs).1[k] {
      var j :| 0 <= j < |pairs| && pairs[j].0 == k;
    }
  }

  /** A build of so few vectors that its searches cannot wrap the epoch leaves the next search nothing seen. */
  lemma {:induction false} BuiltFresh(space: Space, pairs: Pairs, layers: nat)
    requires forall j | 0 <= j < |pairs| :: space.level(pairs[j].0) < layers
    requires |pairs| * layers < HnswGraph.EPOCHS - 1
    ensures var g := Built(space, pairs);
            HnswGraph.Tagged(g) && g.epoch <= |pairs| * layers && HnswGraph.Flat(g, layers)
              && HnswGraph.SeenAtStart(g) == {}
  {
    hide HnswGraph.WellBuilt, HnswGraph.Inserted, HnswGraph.Tagged, HnswGraph.Flat, HnswGraph.SeenAtStart;
    if pairs != [] {
      var n := |pairs| - 1;
      assert n * layers + layers == |pairs| * layers;
      BuiltFresh(space, pairs[..n], layers);
      HnswGraph.InsertTags(space, Built(space, pairs[..n]), pairs[n].0, pairs[n].1, layers);
    } else {
      NothingTagged(layers);
    }
    HnswGraph.FreshUntilWrap(Built(space, pairs));
  }

  lemma NothingTagged(layers: nat)
    ensures HnswGraph.Tagged(HnswGraph.EMPTY) && HnswGraph.Flat(HnswGraph.EMPTY, layers)
  {
  }

  /** Searching the rebuilt tree gives what searching the graph in memory gives: for every query with a direction, every
      k and every ef, the same ids at the same distances in the same order. */
  lemma RebuiltSearchSame(c: Codec, space: Space, pairs: Pairs, layers: nat, m: Table, m': Table, query: HnswGraph.Vec,
                          k: nat, ef: nat)
    requires Decodes(c) && Faithful(space) && Apart(pairs) && FoldsTo(c, Built(space, pairs), RawOf(pairs), m, m')
    requires (forall j | 0 <= j < |pairs| :: space.level(pairs[j].0) < layers)
             && |pairs| * layers < HnswGraph.EPOCHS - 1
    requires space.norm(query).Some?
    ensures StoredSearch(space, StoreOf(c, m'), MetaOf(c, m'), query, k, ef)
            == RamSearch(space, Built(space, pairs), query, k, ef).0
  {
    var (g, raw) := (Built(space, pairs), RawOf(pairs));
    BuiltFresh(space, pairs, layers);
    BuiltRaw(space, pairs);
    RebuiltStore(c, g, raw, m, m');
    ExportedSearchSame(space, g, raw, StoreOf(c, m'), query, k, ef);
  }

  // ---------- the tree as a live index ----------

  function BlobAt(m: Table, k: Key): Option<Key> {
    if k in m && m[k].OfValue? && m[k].value.Blob? then Some(m[k].value.bytes) else None
  }

  /** The records under one of the index's prefixes, by record id. */
  function IdsUnder(m: Table, p: Key): set<Key> { set k | k in m && StartsWith(k, p) && BlobAt(m, k).Some? :: k[|p|..] }

  lemma UnderIs(m: Table, p: Key, id: Key)
    ensures id in IdsUnder(m, p) <==> BlobAt(m, p + id).Some?
  {
    assert (p + id)[|p|..] == id && (p + id)[..|p|] == p;
    if id in IdsUnder(m, p) {
      var k :| k in m && StartsWith(k, p) && BlobAt(m, k).Some? && k[|p|..] == id;
      Rest(p, k);
    }
  }

  /** Every entry decodes, to an entry of the record its key names; every buffered vector decodes. */
  ghost predicate IndexSound(c: Codec, m: Table) {
    && (forall id | BlobAt(m, IndexKey(id)).Some? ::
          c.readEntry(BlobAt(m, IndexKey(id)).value).Some? && c.readEntry(BlobAt(m, IndexKey(id)).value).value.0 == id)
    && (forall id | BlobAt(m, BufferKey(id)).Some? :: c.readVec(BlobAt(m, BufferKey(id)).value).Some?)
  }

  function EntryAt(c: Codec, m: Table, id: Key): Option<Option<HnswGraph.Vec>> {
    var b := BlobAt(m, IndexKey(id));
    if b.Some? && c.readEntry(b.value).Some? then Some(c.readEntry(b.value).value.1) else None
  }

  function BufferedAt(c: Codec, m: Table, id: Key): Option<HnswGraph.Vec> {
    var b := BlobAt(m, BufferKey(id));
    if b.Some? then c.readVec(b.value) else None
  }

  /** The live index a tree stands for, its graph linking these members. */
  function IndexOf(c: Codec, m: Table, members: set<Key>): LiveIndex.Index {
    LiveIndex.Index(
      map id | id in IdsUnder(m, INDEX) && EntryAt(c, m, id).Some? :: EntryAt(c, m, id).value,
      map id | id in IdsUnder(m, BUFFER) && BufferedAt(c, m, id).Some? :: BufferedAt(c, m, id).value,
      map id | id in StoreOf(c, m) :: StoreOf(c, m)[id].vector,
      members)
  }

  lemma EntriesAre(c: Codec, m: Table, members: set<Key>, id: Key)
    ensures var i := IndexOf(c, m, members);
            (id in i.entries <==> EntryAt(c, m, id).Some?)
              && (id in i.entries ==> i.entries[id] == EntryAt(c, m, id).value)
  {
    UnderIs(m, INDEX, id);
  }

  function KeysOf(pairs: Pairs): seq<Key> { seq(|pairs|, i requires 0 <= i < |pairs| => pairs[i].0) }

  /** The scan's pairs come in ascending order of record, each an embedded entry, and none is missed. */
  lemma {:induction false} PairsAre(c: Codec, m: Table, all: seq<Entry>)
    requires Sorted(all) && IndexSound(c, m) && forall i | 0 <= i < |all| ::
               all[i].key in m && m[all[i].key] == all[i].rec
    ensures PairsIn(c, all).Some?
    ensures var pairs := PairsIn(c, all).value;
            && Ascending(KeysOf(pairs))
            && (forall j | 0 <= j < |pairs| ::
                  Named(all, IndexKey(pairs[j].0)) && EntryAt(c, m, pairs[j].0) == Some(Some(pairs[j].1)))
            && (forall id | Named(all, IndexKey(id)) && EntryAt(c, m, id).Some? && EntryAt(c, m, id).value.Some? ::
                  id in KeysOf(pairs))
  {
    if all != [] {
      var (init, e) := (all[..|all| - 1], all[|all| - 1]);
      PairsAre(c, m, init);
      var before := PairsIn(c, init).value;
      NamedMore(all);
      if IsEntry(e) {
        var id := e.key[|INDEX|..];
        Rest(INDEX, e.key);
        assert BlobAt(m, IndexKey(id)) == Some(e.rec.value.bytes);
        assert all[|all| - 1].key == IndexKey(id);
        var (k, v) := c.readEntry(e.rec.value.bytes).value;
        if v.Some? {
          assert PairsIn(c, all).value == before + [(id, v.value)];
          forall j | 0 <= j < |before| ensures Less(before[j].0, id) {
            var n :| 0 <= n < |init| && init[n].key == IndexKey(before[j].0);
            LessConcat(INDEX, before[j].0, id);
          }
          assert KeysOf(before + [(id, v.value)]) == KeysOf(before) + [id];
        }
        forall x | IndexKey(x) == e.key ensures x == id { ConcatInjective(INDEX, x, id); }
      } else {
        forall x | IndexKey(x) == e.key ensures EntryAt(c, m, x).None? { assert IndexKey(x)[..|INDEX|] == INDEX; }
      }
    }
  }

  /** Ascending pairs of just the embedded entries are the entry pairs. */
  lemma PairsAreEntries(i: LiveIndex.Index, pairs: Pairs)
    requires Ascending(KeysOf(pairs)) && forall id | Embedded(i, id) :: id in KeysOf(pairs)
    requires forall j | 0 <= j < |pairs| :: Embedded(i, pairs[j].0) && i.entries[pairs[j].0] == Some(pairs[j].1)
    ensures pairs == EntryPairs(i)
  {
    var keys := InOrder(EmbeddedKeys(i));
    forall id ensures id in KeysOf(pairs) <==> id in keys {
      if id in KeysOf(pairs) { var j :| 0 <= j < |pairs| && KeysOf(pairs)[j] == id; }
    }
    AscendingUnique(KeysOf(pairs), keys);
    assert |pairs| == |keys|;
    forall j | 0 <= j < |pairs| ensures pairs[j] == EntryPairs(i)[j] {
      assert KeysOf(pairs)[j] == keys[j] && keys[j] in keys;
    }
  }

  lemma EntryNamed(c: Codec, m: Table, members: set<Key>, id: Key)
    ensures var i := IndexOf(c, m, members);
            && (Embedded(i, id) <==> EntryAt(c, m, id).Some? && EntryAt(c, m, id).value.Some?)
            && (Embedded(i, id) ==> Some(i.entries[id]) == EntryAt(c, m, id) && Named(Listing(m), IndexKey(id)))
  {
    EntriesAre(c, m, members, id);
    ListingOf(m);
  }

  /** The vectors a rebuild takes from the tree are those of the live index, in its order. */
  lemma ScanIsEntryPairs(c: Codec, m: Table, members: set<Key>)
    requires IndexSound(c, m)
    ensures PairsIn(c, Listing(m)) == Some(EntryPairs(IndexOf(c, m, members)))
            && Apart(EntryPairs(IndexOf(c, m, members)))
  {
    var i := IndexOf(c, m, members);
    ListingOf(m);
    PairsAre(c, m, Listing(m));
    hide IndexOf, EntryAt, PairsIn, Listing, IndexSound, Named, KeysOf, EntryPairs;
    var pairs := PairsIn(c, Listing(m)).value;
    forall j | 0 <= j < |pairs| ensures Embedded(i, pairs[j].0) && i.entries[pairs[j].0] == Some(pairs[j].1) {
      EntryNamed(c, m, members, pairs[j].0);
    }
    forall id | Embedded(i, id) ensures id in KeysOf(pairs) { EntryNamed(c, m, members, id); }
    PairsAreEntries(i, pairs);
    EntryPairsAre(i);
  }

  lemma RebuiltEntries(c: Codec, g: HnswGraph.Graph, raw: map<Key, HnswGraph.Vec>, m: Table, m': Table,
                       members: set<Key>, members': set<Key>)
    requires HnswGraph.WellBuilt(g) && FoldsTo(c, g, raw, m, m')
    ensures IndexOf(c, m', members').entries == IndexOf(c, m, members).entries
            && IndexOf(c, m', members').buffer == map[]
  {
    hide HnswGraph.WellBuilt, ExportNode;
    forall id ensures EntryAt(c, m', id) == EntryAt(c, m, id) && BufferedAt(c, m', id) == None {
      var (k, b) := (IndexKey(id), BufferKey(id));
      assert k[..|INDEX|] == INDEX && b[..|BUFFER|] == BUFFER;
      IndexRegions(k);
      assert Merge.Look(m', k) == RecordAfter(c, g, raw, m, k) && Merge.Look(m', b) == RecordAfter(c, g, raw, m, b);
    }
    forall id ensures id in IndexOf(c, m', members').entries <==> id in IndexOf(c, m, members).entries {
      EntriesAre(c, m, members, id);
      EntriesAre(c, m', members', id);
    }
  }

  lemma NodesAre(c: Codec, m: Table, members: set<Key>, id: Key)
    ensures var n := IndexOf(c, m, members).nodes;
            (id in n <==> NodeAt(c, m, id).Some?) && (id in n ==> n[id] == NodeAt(c, m, id).value.vector)
  {
    StoreIs(c, m, id);
    hide StoreOf, NodeAt;
  }

  lemma RebuiltNode(c: Codec, space: Space, pairs: Pairs, m: Table, m': Table, id: Key)
    requires Decodes(c) && Apart(pairs) && FoldsTo(c, Built(space, pairs), RawOf(pairs), m, m')
    ensures var placed := Placed(space, pairs).1;
            if id in placed then NodeAt(c, m', id).Some? && NodeAt(c, m', id).value.vector == placed[id]
            else NodeAt(c, m', id) == NodeAt(c, m, id)
  {
    var (g, raw) := (Built(space, pairs), RawOf(pairs));
    BuiltRaw(space, pairs);
    RebuiltStore(c, g, raw, m, m');
    StoreIs(c, m', id);
    if id in Placed(space, pairs).1 {
      assert id in g.at;
      assert g.ids[g.at[id]] == id;
      hide HnswGraph.WellBuilt, Built, Placed, RawOf, StoreOf, NodeAt;
      assert StoreOf(c, m')[id] == ExportNode(g, raw, g.at[id]);
    }
  }

  lemma RebuiltNodes(c: Codec, space: Space, pairs: Pairs, m: Table, m': Table, members: set<Key>, members': set<Key>)
    requires Decodes(c) && Apart(pairs) && FoldsTo(c, Built(space, pairs), RawOf(pairs), m, m')
    ensures IndexOf(c, m', members').nodes == IndexOf(c, m, members).nodes + Placed(space, pairs).1
  {
    hide Built, Placed, RawOf, NodeAt, IndexOf, FoldsTo;
    var (n, n', placed) := (IndexOf(c, m, members).nodes, IndexOf(c, m', members').nodes, Placed(space, pairs).1);
    forall id ensures (id in n' <==> id in n || id in placed) && (id in n' ==> n'[id] == (n + placed)[id]) {
      NodesAre(c, m, members, id);
      NodesAre(c, m', members', id);
      RebuiltNode(c, space, pairs, m, m', id);
    }
  }

  /** Rebuilding the tree folds the live index it stands for; so after it every indexed vector is searchable exactly
      when all of them have a direction and one dimension. */
  lemma RebuildFolds(c: Codec, space: Space, m: Table, m': Table, members: set<Key>)
    requires Decodes(c) && IndexSound(c, m) && PairsIn(c, Listing(m)).Some?
    requires var pairs := PairsIn(c, Listing(m)).value; FoldsTo(c, Built(space, pairs), RawOf(pairs), m, m')
    ensures var (i, members') := (IndexOf(c, m, members), Built(space, PairsIn(c, Listing(m)).value).at.Keys);
            && IndexOf(c, m', members') == Folded(space, i)
            && (Fresh(IndexOf(c, m', members')) <==> exists dim :: Alike(space, dim, i))
  {
    var i := IndexOf(c, m, members);
    ScanIsEntryPairs(c, m, members);
    var pairs := EntryPairs(i);
    var g := Built(space, pairs);
    BuiltRaw(space, pairs);
    RebuiltEntries(c, g, RawOf(pairs), m, m', members, g.at.Keys);
    RebuiltNodes(c, space, pairs, m, m', members, g.at.Keys);
    FoldFreshIff(space, i);
  }
}
