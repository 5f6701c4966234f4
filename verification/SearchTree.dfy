/** Searching a branch's tree: what is read of it, when that fails, and that a fresh tree is searched at every record's
    current vector. */
module SearchTree {
  import opened Bytes
  import opened Records
  import opened Keyspace
  import opened Listings
  import opened Heap
  import opened Beam
  import opened BeamReads
  import SortedEntries
  import HnswGraph
  import opened HnswStore
  import opened LiveIndex
  import opened AnnFold
  import opened AnnSearch
  import opened SearchAnn
  import opened LiveTree
  import BTree

  // ---------- what the search of the stored graph reads ----------

  function DescentReads(space: Space, store: NodeStore, entry: Key, q: HnswGraph.Vec, start: Key, top: nat): set<Key>
    requires start in Mentioned(store, entry)
    decreases top
  {
    if top <= 1 then {}
    else
      var g := StoredLayer(space, store, entry, q, top - 1);
      StoredClosed(space, store, entry, q, top - 1);
      GreedyStops(g, start);
      Walked(g, start) + DescentReads(space, store, entry, q, Greedy(g, start), top - 1)
  }

  function BottomReads(space: Space, store: NodeStore, entry: Key, query: HnswGraph.Vec, cur: Key, ef: nat): set<Key>
    requires cur in Mentioned(store, entry)
  {
    StoredClosed(space, store, entry, query, 0);
    SearchLayer(StoredLayer(space, store, entry, query, 0), {}, [cur], ef).1
  }

  /** The ids whose nodes a search looks up. */
  function StoredReads(space: Space, store: NodeStore, meta: StoreMeta, query: HnswGraph.Vec, k: nat, ef: nat): set<Key>
  {
    if meta.entry.None? || meta.dim != Some(|query|) || k == 0 then {}
    else
      var entry := meta.entry.value;
      var cur := StoredDescend(space, store, entry, query, entry, meta.maxLevel + 1);
      DescentReads(space, store, entry, query, entry, meta.maxLevel + 1)
      + BottomReads(space, store, entry, query, cur, Max(ef, k))
  }

  /** Two stores that answer alike for these ids. */
  ghost predicate Agree(store: NodeStore, store': NodeStore, ids: set<Key>) {
    forall id | id in ids :: (id in store <==> id in store') && (id in store ==> store[id] == store'[id])
  }

  lemma AgreeShows(space: Space, store: NodeStore, store': NodeStore, entry: Key, q: HnswGraph.Vec, layer: nat,
                   ids: set<Key>)
    requires Agree(store, store', ids)
    ensures SameOn(StoredLayer(space, store, entry, q, layer), StoredLayer(space, store', entry, q, layer), ids)
  {
  }

  lemma {:induction false} DescentSame(space: Space, store: NodeStore, store': NodeStore, entry: Key, q: HnswGraph.Vec,
                                       start: Key, top: nat)
    requires start in Mentioned(store, entry) && start in Mentioned(store', entry)
    requires Agree(store, store', DescentReads(space, store, entry, q, start, top))
    ensures StoredDescend(space, store', entry, q, start, top) == StoredDescend(space, store, entry, q, start, top)
    ensures DescentReads(space, store', entry, q, start, top) == DescentReads(space, store, entry, q, start, top)
    decreases top
  {
    hide StoredLayer, Mentioned, Walked, Agree;
    if top > 1 {
      var (g, g') := (StoredLayer(space, store, entry, q, top - 1), StoredLayer(space, store', entry, q, top - 1));
      StoredClosed(space, store, entry, q, top - 1);
      StoredClosed(space, store', entry, q, top - 1);
      LayerAll(space, store, entry, q, top - 1);
      LayerAll(space, store', entry, q, top - 1);
      GreedyStops(g, start);
      GreedyStops(g', start);
      FewerAgree(store, store', DescentReads(space, store, entry, q, start, top), Walked(g, start));
      AgreeShows(space, store, store', entry, q, top - 1, Walked(g, start));
      WalkSame(g, g', start);
      FewerAgree(store, store', DescentReads(space, store, entry, q, start, top),
                 DescentReads(space, store, entry, q, Greedy(g, start), top - 1));
      DescentSame(space, store, store', entry, q, Greedy(g, start), top - 1);
    }
  }

  lemma LayerAll(space: Space, store: NodeStore, entry: Key, q: HnswGraph.Vec, layer: nat)
    ensures StoredLayer(space, store, entry, q, layer).all == Mentioned(store, entry)
  {
  }

  lemma FewerAgree(store: NodeStore, store': NodeStore, ids: set<Key>, fewer: set<Key>)
    requires Agree(store, store', ids) && fewer <= ids
    ensures Agree(store, store', fewer)
  {
  }

  lemma BottomSame(space: Space, store: NodeStore, store': NodeStore, entry: Key, query: HnswGraph.Vec, cur: Key,
                   ef: nat)
    requires cur in Mentioned(store, entry) && cur in Mentioned(store', entry)
    requires Agree(store, store', BottomReads(space, store, entry, query, cur, ef))
    ensures StoredBottom(space, store', entry, query, cur, ef) == StoredBottom(space, store, entry, query, cur, ef)
    ensures BottomReads(space, store', entry, query, cur, ef) == BottomReads(space, store, entry, query, cur, ef)
  {
    hide StoredLayer, Mentioned, SearchLayer, Agree;
    StoredClosed(space, store, entry, query, 0);
    StoredClosed(space, store', entry, query, 0);
    LayerAll(space, store, entry, query, 0);
    LayerAll(space, store', entry, query, 0);
    var (g, g') := (StoredLayer(space, store, entry, query, 0), StoredLayer(space, store', entry, query, 0));
    AgreeShows(space, store, store', entry, query, 0, BottomReads(space, store, entry, query, cur, ef));
    SearchSame(g, g', cur, ef);
  }

  /** **A search reads only the nodes it comes across**: any store that answers alike for those gives the same answer,
      and is read at the same places. */
  lemma ReadsDecide(space: Space, store: NodeStore, store': NodeStore, meta: StoreMeta, query: HnswGraph.Vec, k: nat,
                    ef: nat)
    requires Agree(store, store', StoredReads(space, store, meta, query, k, ef))
    ensures StoredSearch(space, store', meta, query, k, ef) == StoredSearch(space, store, meta, query, k, ef)
    ensures StoredReads(space, store', meta, query, k, ef) == StoredReads(space, store, meta, query, k, ef)
  {
    hide StoredLayer, Mentioned, DescentReads, BottomReads, StoredDescend, StoredBottom, Agree, Answer;
    if meta.entry.Some? && meta.dim == Some(|query|) && k > 0 {
      var (entry, ids) := (meta.entry.value, StoredReads(space, store, meta, query, k, ef));
      EntryMentioned(store, entry);
      EntryMentioned(store', entry);
      var cur := StoredDescend(space, store, entry, query, entry, meta.maxLevel + 1);
      FewerAgree(store, store', ids, DescentReads(space, store, entry, query, entry, meta.maxLevel + 1));
      DescentSame(space, store, store', entry, query, entry, meta.maxLevel + 1);
      FewerAgree(store, store', ids, BottomReads(space, store, entry, query, cur, Max(ef, k)));
      BottomSame(space, store, store', entry, query, cur, Max(ef, k));
    }
  }

  // ---------- the search of a tree ----------

  /** The buffered vectors in scan order, or none if one does not decode. */
  function BuffersIn(c: Codec, hits: seq<SortedEntries.Entry>): Option<Pairs> {
    if hits == [] then Some([])
    else
      var (before, e) := (BuffersIn(c, hits[..|hits| - 1]), hits[|hits| - 1]);
      if before.None? || !StartsWith(e.key, BUFFER) || !e.rec.OfValue? || !e.rec.value.Blob? then before
      else
        match c.readVec(e.rec.value.bytes)
        case None => None
        case Some(v) => Some(before.value + [(e.key[|BUFFER|..], v)])
  }

  ghost function Buffered(c: Codec, m: Table): Option<Pairs> {
    BuffersIn(c, BTree.WithPrefix(Listing(m), BUFFER))
  }

  /** A node that is there and does not decode. */
  predicate BadNode(c: Codec, m: Table, id: Key) {
    var b := BlobAt(m, GraphNodeKey(id));
    b.Some? && c.readNode(b.value).None?
  }

  /** The bookkeeping decodes, and so does every node the search looks up. */
  ghost predicate GraphReads(c: Codec, space: Space, m: Table, query: HnswGraph.Vec, k: nat) {
    MetaReads(c, m)
    && forall id | id in StoredReads(space, StoreOf(c, m), MetaOf(c, m), query, k, EF_DEFAULT) :: !BadNode(c, m, id)
  }

  /** What a search of the tree answers; none is a failure to decode something it read. */
  ghost function SearchTable(c: Codec, space: Space, m: Table, query: HnswGraph.Vec, k: nat): Option<seq<Item<Key>>> {
    var buffered := Buffered(c, m);
    if buffered.None?
       || !GraphReads(c, space, m, query, k + |AddUnseen([], BufferItems(space, buffered.value, query))|) then None
    else Some(Answer(Union(space, StoreOf(c, m), MetaOf(c, m), buffered.value, query, k), k))
  }

  lemma PrefixHits(m: Table, p: Key, hits: seq<SortedEntries.Entry>)
    requires exists all ::
               SortedEntries.Sorted(all) && SortedEntries.ToMap(all) == m && hits == BTree.WithPrefix(all, p)
    ensures hits == BTree.WithPrefix(Listing(m), p)
    ensures forall e | e in hits :: e.key in m && m[e.key] == e.rec && StartsWith(e.key, p)
    ensures forall k | k in m && StartsWith(k, p) :: SortedEntries.Entry(k, m[k]) in hits
  {
    var all: seq<SortedEntries.Entry> :|
      SortedEntries.Sorted(all) && SortedEntries.ToMap(all) == m && hits == BTree.WithPrefix(all, p);
    ListingIs(all);
    ListingOf(m);
    PrefixedAre(all, p);
    forall k | k in m && StartsWith(k, p) ensures SortedEntries.Entry(k, m[k]) in hits {
      var i :| 0 <= i < |all| && all[i].key == k;
      assert all[i] == SortedEntries.Entry(k, m[k]);
    }
  }

  lemma {:induction false} StaysUnread(c: Codec, hits: seq<SortedEntries.Entry>, i: nat)
    requires i <= |hits| && BuffersIn(c, hits[..i]).None?
    ensures BuffersIn(c, hits).None?
    decreases |hits|
  {
    if i < |hits| {
      assert hits[..|hits| - 1][..i] == hits[..i];
      StaysUnread(c, hits[..|hits| - 1], i);
    } else {
      assert hits[..i] == hits;
    }
  }

  method ReadBuffers(c: Codec, hits: seq<SortedEntries.Entry>) returns (buffered: Option<Pairs>)
    ensures buffered == BuffersIn(c, hits)
  {
    var found: Pairs := [];
    for i := 0 to |hits|
      invariant BuffersIn(c, hits[..i]) == Some(found)
    {
      assert hits[..i + 1][..i] == hits[..i];
      if StartsWith(hits[i].key, BUFFER) && hits[i].rec.OfValue? && hits[i].rec.value.Blob? {
        match c.readVec(hits[i].rec.value.bytes)
        case None =>
          StaysUnread(c, hits, i + 1);
          return None;
        case Some(v) => found := found + [(hits[i].key[|BUFFER|..], v)];
      }
    }
    assert hits[..|hits|] == hits;
    buffered := Some(found);
  }

  /** The nodes under the graph's prefix, and the ids of those that do not decode. */
  method ReadNodes(c: Codec, ghost m: Table, hits: seq<SortedEntries.Entry>) returns (store: NodeStore, bad: set<Key>)
    requires forall e | e in hits :: e.key in m && m[e.key] == e.rec && StartsWith(e.key, GRAPH_NODE)
    requires forall k | k in m && StartsWith(k, GRAPH_NODE) :: SortedEntries.Entry(k, m[k]) in hits
    ensures store == StoreOf(c, m) && forall id :: id in bad <==> BadNode(c, m, id)
  {
    hide StoreOf;
    store, bad := map[], {};
    for i := 0 to |hits|
      invariant forall id :: id in store <==> Listed(hits[..i], GraphNodeKey(id)) && NodeAt(c, m, id).Some?
      invariant forall id | id in store :: store[id] == NodeAt(c, m, id).value
      invariant forall id :: id in bad <==> Listed(hits[..i], GraphNodeKey(id)) && BadNode(c, m, id)
    {
      var (e, id) := (hits[i], hits[i].key[|GRAPH_NODE|..]);
      assert e in hits;
      Rest(GRAPH_NODE, e.key);
      assert hits[..i + 1] == hits[..i] + [e];
      forall x ensures Listed(hits[..i + 1], GraphNodeKey(x)) <==> Listed(hits[..i], GraphNodeKey(x)) || x == id {
        ListedMore(hits[..i], e, GraphNodeKey(x));
        ConcatInjective(GRAPH_NODE, x, id);
      }
      if e.rec.OfValue? && e.rec.value.Blob? {
        match c.readNode(e.rec.value.bytes)
        case None => bad := bad + {id};
        case Some(n) => store := store[id := n];
      }
    }
    assert hits[..|hits|] == hits;
    forall id ensures (id in store <==> id in StoreOf(c, m)) && (id in store ==> store[id] == StoreOf(c, m)[id])
              ensures id in bad <==> BadNode(c, m, id)
    {
      StoreIs(c, m, id);
      NodeKeyParts(id);
    }
  }

  ghost predicate Listed(hits: seq<SortedEntries.Entry>, k: Key) { exists e :: e in hits && e.key == k }

  lemma ListedMore(hits: seq<SortedEntries.Entry>, e: SortedEntries.Entry, k: Key)
    ensures Listed(hits + [e], k) <==> Listed(hits, k) || e.key == k
  {
    if Listed(hits, k) {
      var x :| x in hits && x.key == k;
      assert x in hits + [e];
    }
    assert e in hits + [e];
  }

  method ScanBuffer(tree: BTree.Tree, c: Codec) returns (buffered: Option<Pairs>)
    requires tree.Valid()
    modifies tree`sizes
    ensures tree.Valid() && tree.Model() == old(tree.Model()) && buffered == Buffered(c, tree.Model())
  {
    hide BTree.Represents, BTree.SizesOk, BTree.WithPrefix, Listing, SortedEntries.Sorted, SortedEntries.ToMap;
    var hits := tree.ScanPrefix(BUFFER);
    PrefixHits(tree.Model(), BUFFER, hits);
    buffered := ReadBuffers(c, hits);
  }

  method ScanNodes(tree: BTree.Tree, c: Codec) returns (store: NodeStore, bad: set<Key>)
    requires tree.Valid()
    modifies tree`sizes
    ensures tree.Valid() && tree.Model() == old(tree.Model()) && store == StoreOf(c, tree.Model())
    ensures forall id :: id in bad <==> BadNode(c, tree.Model(), id)
  {
    hide BTree.Represents, BTree.SizesOk, BTree.WithPrefix, Listing, SortedEntries.Sorted, SortedEntries.ToMap, StoreOf,
         BadNode;
    var hits := tree.ScanPrefix(GRAPH_NODE);
    PrefixHits(tree.Model(), GRAPH_NODE, hits);
    store, bad := ReadNodes(c, tree.Model(), hits);
  }

  /** The graph's bookkeeping: the default where there is none, and none where it does not decode. */
  method ReadMeta(tree: BTree.Tree, c: Codec) returns (meta: Option<StoreMeta>)
    requires tree.Valid()
    modifies tree`sizes
    ensures tree.Valid() && tree.Model() == old(tree.Model())
    ensures meta == if MetaReads(c, tree.Model()) then Some(MetaOf(c, tree.Model())) else None
  {
    hide BTree.Represents, BTree.SizesOk;
    var stored := tree.Lookup(GRAPH_META);
    if stored.Some? && stored.value.OfValue? && stored.value.value.Blob? {
      meta := c.readMeta(stored.value.value.bytes);
    } else {
      meta := Some(StoreMeta(None, 0, None));
    }
  }

  /** Search one tree: the buffer scanned, the graph's bookkeeping and nodes read, and the best k of both. */
  method Search(tree: BTree.Tree, c: Codec, space: Space, query: HnswGraph.Vec, k: nat)
    returns (answer: Option<seq<Item<Key>>>)
    requires tree.Valid()
    modifies tree`sizes
    ensures tree.Valid() && tree.Model() == old(tree.Model())
    ensures answer == SearchTable(c, space, tree.Model(), query, k)
  {
    hide BTree.Represents, BTree.SizesOk, StoreOf, MetaOf, MetaReads, BadNode, Buffered, StoredReads, Union, Answer,
         BufferItems, AddUnseen;
    var buffered := ScanBuffer(tree, c);
    if buffered.None? { return None; }
    var meta := ReadMeta(tree, c);
    if meta.None? { return None; }
    var store, bad := ScanNodes(tree, c);
    var scored, _ := ScoreBuffer(space, buffered.value, query);
    if exists id :: id in bad && id in StoredReads(space, store, meta.value, query, k + |scored|, EF_DEFAULT) {
      return None;
    }
    var found := SearchBoth(space, store, meta.value, buffered.value, query, k);
    answer := Some(found);
  }
}
