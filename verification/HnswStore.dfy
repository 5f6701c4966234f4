/** The graph exported by id, and searched where it is stored. */
module HnswStore {
  import opened Bytes
  import opened Records
  import opened Heap
  import opened Beam
  import opened BeamRenaming
  import opened HnswGraph

  /** A stored node: the vector, and its neighbours' ids per layer. */
  datatype Persisted = Persisted(vector: Vec, links: seq<seq<Key>>)

  datatype StoreMeta = StoreMeta(entry: Option<Key>, maxLevel: nat, dim: Option<nat>)

  type NodeStore = map<Key, Persisted>

  function Max(a: nat, b: nat): nat { if a < b then b else a }

  /** The first k, most similar first. */
  function Answer(found: seq<Item<Key>>, k: nat): seq<Item<Key>> {
    var s := SortByDist(found);
    if |s| <= k then s else s[..k]
  }

  // ---------- in memory ----------

  function IdAt(ids: seq<Key>): nat -> Key { (n: nat) => if n < |ids| then ids[n] else [] }

  /** The k nearest ids, nearest first, and the graph with its tags as the search leaves them. */
  function RamSearch(space: Space, g: Graph, query: Vec, k: nat, ef: nat): (seq<Item<Key>>, Graph)
    requires WellBuilt(g)
  {
    if g.entry.None? || g.dim != Some(|query|) || k == 0 then ([], g)
    else
      match space.norm(query)
      case None => ([], g)
      case Some(q) =>
        var cur := Descend(space, g.nodes, q, g.entry.value, g.maxLevel + 1, 1);
        var (found, g') := SearchFrom(space, g, q, cur, Max(ef, k), 0);
        (Answer(MapItems(IdAt(g.ids), found), k), g')
  }

  // ---------- in the store ----------

  function Mentioned(store: NodeStore, entry: Key): set<Key> {
    store.Keys + {entry} + set k, l, n | k in store && 0 <= l < |store[k].links| && n in store[k].links[l] :: n
  }

  /** One layer of the stored graph; a node that is not there has no neighbours and is as far as can be. */
  function StoredLayer(space: Space, store: NodeStore, entry: Key, q: Vec, layer: nat): Layer<Key> {
    Layer(Mentioned(store, entry),
          k => if k in store && layer < |store[k].links| then store[k].links[layer] else [],
          k => if k in store then space.Far(store[k].vector, q) else 2.0)
  }

  lemma StoredClosed(space: Space, store: NodeStore, entry: Key, q: Vec, layer: nat)
    ensures var g := StoredLayer(space, store, entry, q, layer); Closed(g, g.all)
  {
  }

  function StoredDescend(space: Space, store: NodeStore, entry: Key, q: Vec, start: Key, top: nat): (r: Key)
    requires start in Mentioned(store, entry)
    ensures r in Mentioned(store, entry)
    decreases top
  {
    if top <= 1 then start
    else
      var g := StoredLayer(space, store, entry, q, top - 1);
      StoredClosed(space, store, entry, q, top - 1);
      GreedyStops(g, start);
      StoredDescend(space, store, entry, q, Greedy(g, start), top - 1)
  }

  function StoredBottom(space: Space, store: NodeStore, entry: Key, query: Vec, cur: Key, ef: nat): seq<Item<Key>>
    requires cur in Mentioned(store, entry)
  {
    StoredClosed(space, store, entry, query, 0);
    SearchLayer(StoredLayer(space, store, entry, query, 0), {}, [cur], ef).0
  }

  function StoredSearch(space: Space, store: NodeStore, meta: StoreMeta, query: Vec, k: nat, ef: nat): seq<Item<Key>> {
    if meta.entry.None? || meta.dim != Some(|query|) || k == 0 then []
    else
      var entry := meta.entry.value;
      var cur := StoredDescend(space, store, entry, query, entry, meta.maxLevel + 1);
      Answer(StoredBottom(space, store, entry, query, cur, Max(ef, k)), k)
  }

  // ---------- export ----------

  function MapLists(f: nat -> Key, lists: seq<seq<nat>>): seq<seq<Key>> {
    seq(|lists|, i requires 0 <= i < |lists| => MapIds(f, lists[i]))
  }

  function ExportNode(g: Graph, raw: map<Key, Vec>, i: nat): Persisted
    requires i < |g.nodes| == |g.ids|
  {
    Persisted(if g.ids[i] in raw then raw[g.ids[i]] else g.nodes[i].vector, MapLists(IdAt(g.ids), g.nodes[i].links))
  }

  function Exported(g: Graph, raw: map<Key, Vec>): NodeStore
    requires WellBuilt(g)
  {
    map k | k in g.at :: ExportNode(g, raw, g.at[k])
  }

  function ExportMeta(g: Graph): StoreMeta
    requires WellBuilt(g)
  {
    StoreMeta(if g.entry.Some? then Some(g.ids[g.entry.value]) else None, g.maxLevel, g.dim)
  }

  // ---------- one search, two homes ----------

  /** Distance is cosine distance either way, and normalising keeps the dimension. */
  ghost predicate Faithful(space: Space) {
    && (forall a, q | space.norm(a).Some? && space.norm(q).Some? ::
          space.near(space.norm(a).value, space.norm(q).value) == space.Far(a, q))
    && (forall a | space.norm(a).Some? :: |space.norm(a).value| == |a|)
  }

  /** The raw vectors are those that were inserted. */
  ghost predicate Raw(space: Space, g: Graph, raw: map<Key, Vec>)
    requires WellBuilt(g)
  {
    forall k | k in g.at :: k in raw && space.norm(raw[k]) == Some(g.nodes[g.at[k]].vector)
  }

  /** The store answers for each exported node; what else it holds does not matter. */
  ghost predicate Holds(store: NodeStore, g: Graph, raw: map<Key, Vec>)
    requires WellBuilt(g)
  {
    forall k | k in g.at :: k in store && store[k] == ExportNode(g, raw, g.at[k])
  }

  lemma ExportCarries(space: Space, g: Graph, raw: map<Key, Vec>, store: NodeStore, query: Vec, layer: nat)
    requires WellBuilt(g) && Faithful(space) && Raw(space, g, raw) && Holds(store, g, raw) && g.entry.Some?
    requires space.norm(query).Some?
    ensures Carries(LayerOf(space, g.nodes, space.norm(query).value, layer),
                    StoredLayer(space, store, g.ids[g.entry.value], query, layer), IdAt(g.ids))
  {
    hide Raw, Holds, Faithful, ExportNode, Tidy;
    var l := LayerOf(space, g.nodes, space.norm(query).value, layer);
    forall n: nat | n in l.all { ExportAt(space, g, raw, store, query, layer, n); }
  }

  /** A node in memory and the one stored under its id: the same neighbours by id, at the same distance. */
  lemma ExportAt(space: Space, g: Graph, raw: map<Key, Vec>, store: NodeStore, query: Vec, layer: nat, n: nat)
    requires WellBuilt(g) && Faithful(space) && Raw(space, g, raw) && Holds(store, g, raw) && g.entry.Some?
    requires space.norm(query).Some? && n < |g.nodes|
    ensures var (f, l) := (IdAt(g.ids), LayerOf(space, g.nodes, space.norm(query).value, layer));
            var l' := StoredLayer(space, store, g.ids[g.entry.value], query, layer);
            f(n) in l'.all && l'.adj(f(n)) == MapIds(f, l.adj(n)) && l'.dist(f(n)) == l.dist(n)
  {
    var (f, l) := (IdAt(g.ids), LayerOf(space, g.nodes, space.norm(query).value, layer));
    var id := g.ids[n];
    assert id in g.at && g.at[id] == n;
    assert store[id] == ExportNode(g, raw, n);
    assert space.near(space.norm(raw[id]).value, space.norm(query).value) == space.Far(raw[id], query);
    if OnLayer(g.nodes, n, layer) {
      assert store[id].links[layer] == MapIds(f, g.nodes[n].links[layer]);
    } else {
      assert MapIds(f, l.adj(n)) == [];
    }
  }

  lemma {:induction false} DescendMapped(space: Space, g: Graph, raw: map<Key, Vec>, store: NodeStore, query: Vec,
                                         start: nat, top: nat)
    requires WellBuilt(g) && Faithful(space) && Raw(space, g, raw) && Holds(store, g, raw) && g.entry.Some?
    requires space.norm(query).Some? && start < |g.nodes|
    ensures var entry := g.ids[g.entry.value];
            && IdAt(g.ids)(start) in Mentioned(store, entry)
            && StoredDescend(space, store, entry, query, IdAt(g.ids)(start), top)
               == IdAt(g.ids)(Descend(space, g.nodes, space.norm(query).value, start, top, 1))
    decreases top
  {
    var q := space.norm(query).value;
    var entry := g.ids[g.entry.value];
    assert g.ids[start] in g.at;
    if top > 1 {
      ExportCarries(space, g, raw, store, query, top - 1);
      LayerClosed(space, g.nodes, q, top - 1);
      StoredClosed(space, store, entry, query, top - 1);
      GreedyMapped(LayerOf(space, g.nodes, q, top - 1), StoredLayer(space, store, entry, query, top - 1), IdAt(g.ids),
                   start);
      GreedyStops(LayerOf(space, g.nodes, q, top - 1), start);
      DescendMapped(space, g, raw, store, query, WalkFrom(space, g.nodes, q, start, top - 1), top - 1);
    }
  }

  lemma EntryReady(g: Graph)
    requires WellBuilt(g) && g.entry.Some?
    ensures Tidy(g.nodes) && |g.nodes| == |g.ids| && g.entry.value < |g.nodes|
  {
  }

  lemma BottomMapped(space: Space, g: Graph, raw: map<Key, Vec>, store: NodeStore, query: Vec, cur: nat, ef: nat)
    requires WellBuilt(g) && Faithful(space) && Raw(space, g, raw) && Holds(store, g, raw) && g.entry.Some?
    requires space.norm(query).Some? && SeenAtStart(g) == {} && cur < |g.nodes|
    ensures var entry := g.ids[g.entry.value];
            && IdAt(g.ids)(cur) in Mentioned(store, entry)
            && StoredBottom(space, store, entry, query, IdAt(g.ids)(cur), ef)
               == MapItems(IdAt(g.ids), SearchFrom(space, g, space.norm(query).value, cur, ef, 0).0)
  {
    var q := space.norm(query).value;
    var entry := g.ids[g.entry.value];
    EntryReady(g);
    ExportCarries(space, g, raw, store, query, 0);
    hide WellBuilt, Raw, Holds, Faithful, Tidy, Carries, MapItems;
    LayerClosed(space, g.nodes, q, 0);
    StoredClosed(space, store, entry, query, 0);
    SearchOneMapped(LayerOf(space, g.nodes, q, 0), StoredLayer(space, store, entry, query, 0), IdAt(g.ids), cur, ef);
    hide SearchLayer, Closed;
  }

  lemma RamSearchIs(space: Space, g: Graph, query: Vec, k: nat, ef: nat)
    requires WellBuilt(g) && g.entry.Some? && g.dim == Some(|query|) && k > 0 && space.norm(query).Some?
    ensures var q := space.norm(query).value;
            && Tidy(g.nodes) && g.entry.value < |g.nodes| == |g.ids|
            && var cur := Descend(space, g.nodes, q, g.entry.value, g.maxLevel + 1, 1);
            && cur < |g.nodes|
            && RamSearch(space, g, query, k, ef).0
               == Answer(MapItems(IdAt(g.ids), SearchFrom(space, g, q, cur, Max(ef, k), 0).0), k)
  {
    EntryReady(g);
    hide WellBuilt, Tidy, SearchFrom, MapItems, Answer, Descend;
  }

  lemma StoredSearchIs(space: Space, store: NodeStore, meta: StoreMeta, query: Vec, k: nat, ef: nat)
    requires meta.entry.Some? && meta.dim == Some(|query|) && k > 0
    ensures var entry := meta.entry.value;
            && entry in Mentioned(store, entry)
            && var cur := StoredDescend(space, store, entry, query, entry, meta.maxLevel + 1);
            && cur in Mentioned(store, entry)
            && StoredSearch(space, store, meta, query, k, ef)
               == Answer(StoredBottom(space, store, entry, query, cur, Max(ef, k)), k)
  {
    hide StoredBottom, Answer, StoredDescend;
  }

  lemma NothingEitherWay(space: Space, g: Graph, store: NodeStore, query: Vec, k: nat, ef: nat)
    requires WellBuilt(g) && (g.entry.None? || g.dim != Some(|query|) || k == 0)
    ensures StoredSearch(space, store, ExportMeta(g), query, k, ef) == [] == RamSearch(space, g, query, k, ef).0
  {
    hide StoredBottom, Answer, StoredDescend, Descend, SearchFrom, MapItems;
  }

  /** A graph in memory and its exported image in any store that holds it give the same ids at the same distances in the
      same order, for every query that has a direction, while the epoch has not wrapped. */
  lemma ExportedSearchSame(space: Space, g: Graph, raw: map<Key, Vec>, store: NodeStore, query: Vec, k: nat, ef: nat)
    requires WellBuilt(g) && Faithful(space) && Raw(space, g, raw) && Holds(store, g, raw)
    requires space.norm(query).Some? && SeenAtStart(g) == {}
    ensures StoredSearch(space, store, ExportMeta(g), query, k, ef) == RamSearch(space, g, query, k, ef).0
  {
    hide WellBuilt, Tidy, Raw, Holds, Faithful, StoredBottom, SearchFrom, MapItems, Answer, Mentioned,
         StoredDescend, Descend, RamSearch, StoredSearch;
    if g.entry.None? || g.dim != Some(|query|) || k == 0 {
      NothingEitherWay(space, g, store, query, k, ef);
    } else {
      RamSearchIs(space, g, query, k, ef);
      StoredSearchIs(space, store, ExportMeta(g), query, k, ef);
      DescendMapped(space, g, raw, store, query, g.entry.value, g.maxLevel + 1);
      var cur := Descend(space, g.nodes, space.norm(query).value, g.entry.value, g.maxLevel + 1, 1);
      BottomMapped(space, g, raw, store, query, cur, Max(ef, k));
    }
  }

  lemma BottomFinds(space: Space, store: NodeStore, entry: Key, query: Vec, cur: Key, ef: nat)
    requires cur in Mentioned(store, entry) && ef > 0
    ensures |StoredBottom(space, store, entry, query, cur, ef)| > 0
  {
    StoredClosed(space, store, entry, query, 0);
    var l := StoredLayer(space, store, entry, query, 0);
    hide StoredLayer, Mentioned;
    SearchLayerExit(l, {}, [cur], ef);
    var after := SearchLayer(l, {}, [cur], ef).1;
    assert cur in after - {} + Members([cur]);
  }

  lemma EntryMentioned(store: NodeStore, entry: Key)
    ensures entry in Mentioned(store, entry)
  {
  }

  lemma StoredFinds(space: Space, store: NodeStore, meta: StoreMeta, query: Vec, k: nat, ef: nat)
    requires meta.entry.Some? && meta.dim == Some(|query|) && k > 0
    ensures StoredSearch(space, store, meta, query, k, ef) != []
  {
    hide StoredBottom, StoredDescend, Mentioned, SortByDist, Sorted;
    var entry := meta.entry.value;
    EntryMentioned(store, entry);
    var cur := StoredDescend(space, store, entry, query, entry, meta.maxLevel + 1);
    BottomFinds(space, store, entry, query, cur, Max(ef, k));
    SortSorts(StoredBottom(space, store, entry, query, cur, Max(ef, k)));
  }

  /** A query with no direction: memory answers nothing, the store answers something. So the two agree for all queries
      but those with no direction that get past the checks on entry, dimension and k. */
  lemma SearchesAgree(space: Space, g: Graph, raw: map<Key, Vec>, store: NodeStore, query: Vec, k: nat, ef: nat)
    requires WellBuilt(g) && Faithful(space) && Raw(space, g, raw) && Holds(store, g, raw) && SeenAtStart(g) == {}
    ensures StoredSearch(space, store, ExportMeta(g), query, k, ef) == RamSearch(space, g, query, k, ef).0
            <==> space.norm(query).Some? || g.entry.None? || g.dim != Some(|query|) || k == 0
  {
    if space.norm(query).Some? {
      ExportedSearchSame(space, g, raw, store, query, k, ef);
    } else if g.entry.Some? && g.dim == Some(|query|) && k > 0 {
      StoredFinds(space, store, ExportMeta(g), query, k, ef);
      hide StoredSearch, WellBuilt;
    } else {
      hide WellBuilt;
    }
  }
}
