/** How many records a search answers: as many as asked for, or all it can reach. */
module SearchCounts {
  import opened Bytes
  import opened Records
  import opened Keyspace
  import opened Listings
  import opened Heap
  import opened Beam
  import opened BeamRenaming
  import SortedEntries
  import BTree
  import HnswGraph
  import opened HnswStore
  import opened LiveIndex
  import opened AnnFold
  import opened AnnSearch
  import opened SearchAnn
  import opened SearchTree
  import opened FreshSearch

  // ---------- what can be reached ----------

  /** Exactly what can be reached from a node over the layer's links. */
  ghost predicate Reachable<T(!new)>(g: Layer<T>, from: T, c: set<T>) {
    from in c && Closed(g, c) && forall s | from in s && Closed(g, s) :: c <= s
  }

  function Least(a: nat, b: nat): nat { if a < b then a else b }

  /** A search of a layer from one node finds as many as it is wide, or all that can be reached; and the closest. */
  lemma SearchReaches<T(!new)>(g: Layer<T>, e: T, ef: nat, c: set<T>)
    requires Closed(g, g.all) && e in g.all && ef > 0 && Reachable(g, e, c)
    ensures var out := SearchLayer(g, {}, [e], ef).0;
            && DistinctIds(out) && Ids(out) <= c && |out| == |Ids(out)| == Least(ef, |c|)
            && (forall x | x in out :: x.dist == g.dist(x.id))
            && (|c| <= ef ==> Ids(out) == c)
  {
    hide SearchLayer, Closed, Sorted;
    SearchLayerExit(g, {}, [e], ef);
    FewerIsComponent(g, [e], ef);
    var (out, after) := SearchLayer(g, {}, [e], ef);
    assert Members([e]) == {e} by { assert e in [e]; }
    var met := after - {} + Members([e]);
    assert met <= c;
    SubsetSize(Ids(out), c);
    if |out| < ef {
      assert c <= Ids(out);
      assert Ids(out) == c;
    } else if |c| <= ef {
      SubsetEqual(Ids(out), c);
    }
  }

  /** There is such a set. */
  lemma ReachExists<T(!new)>(g: Layer<T>, e: T) returns (c: set<T>)
    requires Closed(g, g.all) && e in g.all
    ensures Reachable(g, e, c) && c <= g.all
  {
    hide SearchLayer, Closed, Sorted;
    var ef := |g.all| + 1;
    SearchLayerExit(g, {}, [e], ef);
    FewerIsComponent(g, [e], ef);
    var out := SearchLayer(g, {}, [e], ef).0;
    c := Ids(out);
    SubsetSize(c, g.all);
    assert Members([e]) == {e} by { assert e in [e]; }
  }

  lemma ReachOnce<T(!new)>(g: Layer<T>, e: T, c: set<T>, d: set<T>)
    requires Reachable(g, e, c) && Reachable(g, e, d)
    ensures c == d
  {
  }

  // ---------- the best of what was found ----------

  lemma AnswerIds(found: seq<Item<Key>>, k: nat)
    requires DistinctIds(found)
    ensures var a := Answer(found, k);
            && DistinctIds(a) && |a| == |Ids(a)| == Least(k, |found|) && Ids(a) <= Ids(found)
            && (|found| <= k ==> Ids(a) == Ids(found))
            && (forall x | x in a :: x in found)
            && (forall x, y | x in found && x !in a && y in a :: y.dist <= x.dist)
  {
    hide Answer, Sorted;
    AnswerBest(found, k);
    var a := Answer(found, k);
    DistinctCount(a);
    DistinctCount(found);
    assert Ids(a) <= Ids(found);
    if |found| <= k { SubsetEqual(Ids(a), Ids(found)); }
  }

  // ---------- the stored graph ----------

  /** Whether a search of the graph gets past its checks. */
  predicate Searches(meta: StoreMeta, query: HnswGraph.Vec, k: nat) {
    meta.entry.Some? && meta.dim == Some(|query|) && k > 0
  }

  /** Where its descent ends. */
  function Landing(space: Space, store: NodeStore, meta: StoreMeta, query: HnswGraph.Vec): (r: Key)
    requires meta.entry.Some?
    ensures r in Mentioned(store, meta.entry.value)
  {
    EntryMentioned(store, meta.entry.value);
    StoredDescend(space, store, meta.entry.value, query, meta.entry.value, meta.maxLevel + 1)
  }

  /** One less the cosine of the stored vector; and two, as far as can be, for one that cannot be compared or is not
      there. */
  function StoredFar(space: Space, store: NodeStore, query: HnswGraph.Vec, id: Key): real {
    match if id in store then space.cosine(store[id].vector, query) else None
    case Some(c) => 1.0 - c
    case None => 2.0
  }

  lemma StoredDist(space: Space, store: NodeStore, entry: Key, q: HnswGraph.Vec, layer: nat)
    ensures forall id :: StoredLayer(space, store, entry, q, layer).dist(id) == StoredFar(space, store, q, id)
  {
  }

  /** The descent ends no farther than it begins, and where no neighbour on the layer above the bottom is closer. */
  lemma {:induction false} DescentEnds(space: Space, store: NodeStore, entry: Key, q: HnswGraph.Vec, start: Key,
                                       top: nat)
    requires start in Mentioned(store, entry)
    ensures var r := StoredDescend(space, store, entry, q, start, top);
            && StoredFar(space, store, q, r) <= StoredFar(space, store, q, start)
            && (top > 1 ==> forall n | n in StoredLayer(space, store, entry, q, 1).adj(r) ::
                  StoredFar(space, store, q, r) <= StoredFar(space, store, q, n))
    decreases top
  {
    hide StoredLayer, Mentioned, StoredFar;
    if top > 1 {
      var g := StoredLayer(space, store, entry, q, top - 1);
      StoredClosed(space, store, entry, q, top - 1);
      LayerAll(space, store, entry, q, top - 1);
      StoredDist(space, store, entry, q, top - 1);
      GreedyStops(g, start);
      DescentEnds(space, store, entry, q, Greedy(g, start), top - 1);
    }
  }

  /** What can be reached on the bottom layer from where the descent ends. */
  ghost predicate InReach(space: Space, store: NodeStore, meta: StoreMeta, query: HnswGraph.Vec, c: set<Key>) {
    && meta.entry.Some?
    && Reachable(StoredLayer(space, store, meta.entry.value, query, 0), Landing(space, store, meta, query), c)
  }

  /** **A search of the stored graph answers k records, or all in reach**; and the closest of all in reach, if no more
      are than the search is wide. */
  lemma StoredCounts(space: Space, store: NodeStore, meta: StoreMeta, query: HnswGraph.Vec, k: nat, ef: nat,
                     c: set<Key>)
    requires Searches(meta, query, k) && InReach(space, store, meta, query, c)
    ensures var a := StoredSearch(space, store, meta, query, k, ef);
            && DistinctIds(a) && |a| == |Ids(a)| == Least(k, |c|) && Ids(a) <= c
            && (|a| < k ==> Ids(a) == c)
            && (forall x | x in a :: x.dist == StoredFar(space, store, query, x.id))
            && (|c| <= ef ==> forall x, y | x in c && x !in Ids(a) && y in a ::
                  y.dist <= StoredFar(space, store, query, x))
  {
    var (entry, cur) := (meta.entry.value, Landing(space, store, meta, query));
    var wide := if ef < k then k else ef;
    var found := StoredBottom(space, store, entry, query, cur, wide);
    assert StoredSearch(space, store, meta, query, k, ef) == Answer(found, k) by {
      StoredSearchIs(space, store, meta, query, k, ef);
    }
    BottomReaches(space, store, entry, query, cur, wide, c);
    hide StoredLayer, Mentioned, Answer, StoredBottom, StoredSearch, StoredDescend, StoredFar, DistinctIds;
    AnswerIds(found, k);
    if |c| <= ef { AnswerClosest(space, store, query, found, k, c); }
  }

  lemma BottomReaches(space: Space, store: NodeStore, entry: Key, query: HnswGraph.Vec, cur: Key, wide: nat,
                      c: set<Key>)
    requires cur in Mentioned(store, entry) && wide > 0
    requires Reachable(StoredLayer(space, store, entry, query, 0), cur, c)
    ensures var found := StoredBottom(space, store, entry, query, cur, wide);
            && DistinctIds(found) && Ids(found) <= c && |found| == |Ids(found)| == Least(wide, |c|)
            && (forall x | x in found :: x.dist == StoredFar(space, store, query, x.id))
            && (|c| <= wide ==> Ids(found) == c)
  {
    var l := StoredLayer(space, store, entry, query, 0);
    StoredClosed(space, store, entry, query, 0);
    LayerAll(space, store, entry, query, 0);
    StoredDist(space, store, entry, query, 0);
    hide StoredLayer, Mentioned, SearchLayer, Closed, Reachable, StoredFar;
    SearchReaches(l, cur, wide, c);
  }

  lemma AnswerClosest(space: Space, store: NodeStore, query: HnswGraph.Vec, found: seq<Item<Key>>, k: nat, c: set<Key>)
    requires DistinctIds(found) && Ids(found) == c
    requires forall x | x in found :: x.dist == StoredFar(space, store, query, x.id)
    ensures forall x, y | x in c && x !in Ids(Answer(found, k)) && y in Answer(found, k) ::
              y.dist <= StoredFar(space, store, query, x)
  {
    hide Answer, StoredFar, DistinctIds;
    AnswerIds(found, k);
    var a := Answer(found, k);
    forall x, y | x in c && x !in Ids(a) && y in a ensures y.dist <= StoredFar(space, store, query, x) {
      var i :| i in found && i.id == x;
      assert i !in a;
    }
  }

  // ---------- buffer and graph together ----------

  /** The buffered records that can be compared with the query. */
  function Comparable(space: Space, buffered: Pairs, query: HnswGraph.Vec): set<Key> {
    set j | 0 <= j < |buffered| && space.cosine(buffered[j].1, query).Some? :: buffered[j].0
  }

  lemma ComparableIs(space: Space, buffered: Pairs, query: HnswGraph.Vec)
    requires Apart(buffered)
    ensures var b := BufferItems(space, buffered, query);
            && DistinctIds(b) && AddUnseen([], b) == b && Ids(b) == Comparable(space, buffered, query)
            && |b| == |Comparable(space, buffered, query)|
  {
    var b := BufferItems(space, buffered, query);
    BufferIs(space, buffered, query);
    OwnIs(b);
    DistinctCount(b);
    forall id ensures id in Ids(b) <==> id in Comparable(space, buffered, query) {
      if id in Ids(b) {
        var x :| x in b && x.id == id;
        var j :| 0 <= j < |buffered| && buffered[j].0 == id;
      }
      if id in Comparable(space, buffered, query) {
        var j :| 0 <= j < |buffered| && space.cosine(buffered[j].1, query).Some? && buffered[j].0 == id;
        assert Item(id, space.Far(buffered[j].1, query)) in b;
      }
    }
  }

  /** The union of what the buffer and the graph found, as ids. */
  lemma UnionIds(space: Space, store: NodeStore, meta: StoreMeta, buffered: Pairs, query: HnswGraph.Vec, k: nat)
    requires Apart(buffered)
    ensures var (b, hits) := (Comparable(space, buffered, query), Hits(space, store, meta, buffered, query, k));
            var union := Union(space, store, meta, buffered, query, k);
            && hits == StoredSearch(space, store, meta, query, k + |b|, 64)
            && DistinctIds(union) && |union| == |Ids(union)| && Ids(union) == b + Ids(hits)
            && forall x | x in hits && x.id !in b :: x in union
  {
    ComparableIs(space, buffered, query);
    var own := BufferItems(space, buffered, query);
    var hits := Hits(space, store, meta, buffered, query, k);
    StoredDistinct(space, store, meta, query, k + |own|, EF_DEFAULT);
    hide StoredSearch, BufferItems, AddUnseen, Comparable, DistinctIds;
    UnseenIds(own, hits);
  }

  lemma UnseenIds(own: seq<Item<Key>>, hits: seq<Item<Key>>)
    requires DistinctIds(own) && DistinctIds(hits)
    ensures var union := AddUnseen(own, hits);
            && DistinctIds(union) && |union| == |Ids(union)| && Ids(union) == Ids(own) + Ids(hits)
            && forall x | x in hits && x.id !in Ids(own) :: x in union
  {
    hide AddUnseen, DistinctIds;
    UnseenIs(own, hits);
    var union := AddUnseen(own, hits);
    DistinctCount(union);
    forall x | x in hits && x.id !in Ids(own) ensures x in union {
      assert x.id in Ids(union);
      var y :| y in union && y.id == x.id;
      InIds(own);
      OneOfEach(hits, x, y);
    }
  }

  lemma CountBoth(b: set<Key>, c: set<Key>, hits: set<Key>, k: nat)
    requires hits <= c && |hits| == Least(k + |b|, |c|)
    ensures Least(k, |b + hits|) == Least(k, |b + c|) && (|b + hits| < k ==> hits == c)
  {
    SubsetSize(hits, b + hits);
    SubsetSize(b + hits, b + c);
    if |hits| == |c| { SubsetEqual(hits, c); }
  }

  /** **A search of buffer and graph answers k records, or all there are**: the comparable buffered ones and those the
      graph reaches. */
  lemma BothCount(space: Space, store: NodeStore, meta: StoreMeta, buffered: Pairs, query: HnswGraph.Vec, k: nat,
                  c: set<Key>)
    requires Apart(buffered) && Searches(meta, query, k) && InReach(space, store, meta, query, c)
    ensures var b := Comparable(space, buffered, query);
            var a := Answer(Union(space, store, meta, buffered, query, k), k);
            && |a| == |Ids(a)| == Least(k, |b + c|) && Ids(a) <= b + c && (|a| < k ==> Ids(a) == b + c)
  {
    var b := Comparable(space, buffered, query);
    var hits := Hits(space, store, meta, buffered, query, k);
    var union := Union(space, store, meta, buffered, query, k);
    hide Union, Hits, StoredSearch, Answer, InReach, Comparable;
    UnionIds(space, store, meta, buffered, query, k);
    StoredCounts(space, store, meta, query, k + |b|, 64, c);
    AnswerIds(union, k);
    CountBoth(b, c, Ids(hits), k);
  }

  /** With nothing to search in the graph, it answers from the buffer. */
  lemma BufferCounts(space: Space, store: NodeStore, meta: StoreMeta, buffered: Pairs, query: HnswGraph.Vec, k: nat)
    requires Apart(buffered) && (meta.entry.None? || meta.dim != Some(|query|))
    ensures var b := Comparable(space, buffered, query);
            var a := Answer(Union(space, store, meta, buffered, query, k), k);
            |a| == |Ids(a)| == Least(k, |b|) && Ids(a) <= b && (|a| < k ==> Ids(a) == b)
  {
    UnionIds(space, store, meta, buffered, query, k);
    assert Hits(space, store, meta, buffered, query, k) == [];
    hide Union, Hits, Answer, Comparable;
    AnswerIds(Union(space, store, meta, buffered, query, k), k);
  }

  // ---------- the closest of all ----------

  lemma {:induction false} CountFar(own: seq<Item<Key>>, b: set<Key>)
    requires DistinctIds(own)
    ensures |Ids(own) - b| + |b| >= |own|
  {
    DistinctCount(own);
    SubsetSize(Ids(own), (Ids(own) - b) + b);
  }

  /** Where the graph answered only nodes at most so far, of which k are not buffered, nothing farther is answered. */
  lemma NoneFarther(found: seq<Item<Key>>, hits: seq<Item<Key>>, b: set<Key>, k: nat, far: real, y: Item<Key>)
    requires DistinctIds(found) && DistinctIds(hits) && |hits| >= k + |b|
    requires (forall x | x in hits && x.id !in b :: x in found) && forall x | x in hits :: x.dist <= far
    requires y in Answer(found, k)
    ensures y.dist <= far
  {
    hide Answer, DistinctIds;
    AnswerIds(found, k);
    var a := Answer(found, k);
    assert y.id in Ids(a);
    if y.dist > far {
      CountFar(hits, b);
      var near := Ids(hits) - b;
      forall id | id in near ensures id in Ids(a) - {y.id} {
        var x :| x in hits && x.id == id;
        assert x in found && x in a;
        if x.id == y.id { OneOfEach(a, x, y); }
      }
      SubsetSize(near, Ids(a) - {y.id});
    }
  }

  /** **While the graph reaches at most sixty-four nodes, the answer is exact**: the closest of the comparable buffered
      vectors and of all the graph reaches. */
  lemma BothClosest(space: Space, store: NodeStore, meta: StoreMeta, buffered: Pairs, query: HnswGraph.Vec, k: nat,
                    c: set<Key>, x: Key, y: Item<Key>)
    requires Apart(buffered) && Searches(meta, query, k) && InReach(space, store, meta, query, c) && |c| <= 64
    requires var a := Answer(Union(space, store, meta, buffered, query, k), k); x in c && x !in Ids(a) && y in a
    requires x !in Comparable(space, buffered, query)
    ensures y.dist <= StoredFar(space, store, query, x)
  {
    var b := Comparable(space, buffered, query);
    var hits := Hits(space, store, meta, buffered, query, k);
    var union := Union(space, store, meta, buffered, query, k);
    hide Union, Hits, StoredSearch, Answer, InReach, Comparable;
    UnionIds(space, store, meta, buffered, query, k);
    StoredCounts(space, store, meta, query, k + |b|, 64, c);
    AnswerIds(union, k);
    if x in Ids(hits) {
      var h :| h in hits && h.id == x;
      assert h in union && h !in Answer(union, k);
    } else {
      NoneFarther(union, hits, b, k, StoredFar(space, store, query, x), y);
    }
  }

  // ---------- one tree, and the graph in memory ----------

  lemma {:induction false} BuffersApart(c: Codec, hits: seq<SortedEntries.Entry>)
    requires KeysApart(hits) && BuffersIn(c, hits).Some? && forall e | e in hits :: StartsWith(e.key, BUFFER)
    ensures Apart(BuffersIn(c, hits).value)
    ensures forall x | Has(BuffersIn(c, hits).value, x) :: Listed(hits, BufferKey(x))
  {
    if hits != [] {
      var (init, e) := (hits[..|hits| - 1], hits[|hits| - 1]);
      assert hits == init + [e] && e in hits && forall x | x in init :: x in hits;
      BuffersApart(c, init);
      var (before, pairs, id) := (BuffersIn(c, init).value, BuffersIn(c, hits).value, e.key[|BUFFER|..]);
      Rest(BUFFER, e.key);
      NotListed(hits, BufferKey(id));
      forall x ensures Listed(hits, BufferKey(x)) <==> Listed(init, BufferKey(x)) || x == id {
        ListedMore(init, e, BufferKey(x));
        ConcatInjective(BUFFER, x, id);
      }
      hide Listed, Apart, Has, BufferKey, KeysApart;
      if pairs != before {
        assert pairs == before + [(id, pairs[|before|].1)];
        ApartMore(before, id, pairs[|before|].1);
      }
    }
  }

  lemma ApartMore(before: Pairs, id: Key, v: HnswGraph.Vec)
    requires Apart(before) && !Has(before, id)
    ensures Apart(before + [(id, v)]) && forall x | Has(before + [(id, v)], x) :: x == id || Has(before, x)
  {
    var pairs := before + [(id, v)];
    assert forall j | 0 <= j < |before| :: pairs[j] == before[j];
    forall x | Has(pairs, x) ensures x == id || Has(before, x) {
      var j :| 0 <= j < |pairs| && pairs[j].0 == x;
      if j < |before| { assert before[j].0 == x; }
    }
  }

  /** A scan of the buffer has no record twice. */
  lemma BufferedApart(c: Codec, m: Table)
    requires Buffered(c, m).Some?
    ensures Apart(Buffered(c, m).value)
  {
    ListingOf(m);
    SortedEntries.SortedApart(Listing(m));
    PrefixApart(Listing(m), BUFFER);
    PrefixedAre(Listing(m), BUFFER);
    BuffersApart(c, BTree.WithPrefix(Listing(m), BUFFER));
  }

  /** **What a search of a tree answers, counted**: k records, or every comparable buffered one and every one the graph
      reaches, if it gets past its checks; and the closest of those, while the graph reaches at most sixty-four. */
  lemma TableCounts(c: Codec, space: Space, m: Table, query: HnswGraph.Vec, k: nat, reach: set<Key>)
    requires SearchTable(c, space, m, query, k).Some? && k > 0
    requires var meta := MetaOf(c, m);
             if Searches(meta, query, k) then InReach(space, StoreOf(c, m), meta, query, reach) else reach == {}
    ensures Buffered(c, m).Some?
    ensures var (b, a) := (Comparable(space, Buffered(c, m).value, query), SearchTable(c, space, m, query, k).value);
            && |a| == |Ids(a)| == Least(k, |b + reach|) && Ids(a) <= b + reach
            && (|a| < k ==> Ids(a) == b + reach)
            && (|reach| <= 64 ==> forall x, y | x in reach && x !in b && x !in Ids(a) && y in a ::
                  y.dist <= StoredFar(space, StoreOf(c, m), query, x))
  {
    hide Union, Answer, InReach, Comparable, StoreOf, MetaOf, Buffered, GraphReads, StoredFar;
    BufferedApart(c, m);
    var (store, meta, buffered) := (StoreOf(c, m), MetaOf(c, m), Buffered(c, m).value);
    var b := Comparable(space, buffered, query);
    var a := SearchTable(c, space, m, query, k).value;
    if Searches(meta, query, k) {
      BothCount(space, store, meta, buffered, query, k, reach);
      forall x, y | |reach| <= 64 && x in reach && x !in b && x !in Ids(a) && y in a
        ensures y.dist <= StoredFar(space, store, query, x)
      {
        BothClosest(space, store, meta, buffered, query, k, reach, x, y);
      }
    } else {
      BufferCounts(space, store, meta, buffered, query, k);
      assert b + reach == b;
    }
  }

  /** The ids of some nodes. */
  function Named(ids: seq<Key>, c: set<nat>): set<Key> { set n | n in c && n < |ids| :: ids[n] }

  /** **The graph in memory answers k records, or all in reach**, until its epoch wraps. */
  lemma RamCounts(space: Space, g: HnswGraph.Graph, query: HnswGraph.Vec, k: nat, ef: nat, c: set<nat>)
    requires HnswGraph.WellBuilt(g) && g.entry.Some? && g.dim == Some(|query|) && k > 0 && space.norm(query).Some?
    requires HnswGraph.SeenAtStart(g) == {} && g.entry.value < |g.nodes|
    requires var q := space.norm(query).value;
             Reachable(HnswGraph.LayerOf(space, g.nodes, q, 0),
                       HnswGraph.Descend(space, g.nodes, q, g.entry.value, g.maxLevel + 1, 1), c)
    ensures var a := RamSearch(space, g, query, k, ef).0;
            |a| == |Ids(a)| == Least(k, |c|) && Ids(a) <= Named(g.ids, c) && (|a| < k ==> Ids(a) == Named(g.ids, c))
  {
    var q := space.norm(query).value;
    RamSearchIs(space, g, query, k, ef);
    var cur := HnswGraph.Descend(space, g.nodes, q, g.entry.value, g.maxLevel + 1, 1);
    var wide := if ef < k then k else ef;
    var found := HnswGraph.SearchFrom(space, g, q, cur, wide, 0).0;
    DistinctNames(g);
    RamFinds(space, g, q, cur, wide, c);
    hide HnswGraph.WellBuilt, HnswGraph.Tidy, HnswGraph.SearchFrom, HnswGraph.LayerOf, HnswGraph.Descend, Answer,
         MapItems, RamSearch, Reachable;
    NamedItems(g.ids, found);
    AnswerIds(MapItems(IdAt(g.ids), found), k);
    NamedFew(g.ids, Ids(found), c);
  }

  lemma NamedFew(ids: seq<Key>, some: set<nat>, c: set<nat>)
    requires some <= c
    ensures Named(ids, some) <= Named(ids, c)
  {
  }

  /** What the search of the bottom layer in memory finds. */
  lemma RamFinds(space: Space, g: HnswGraph.Graph, q: HnswGraph.Vec, cur: nat, wide: nat, c: set<nat>)
    requires HnswGraph.Tidy(g.nodes) && cur < |g.nodes| && wide > 0 && HnswGraph.SeenAtStart(g) == {}
    requires Reachable(HnswGraph.LayerOf(space, g.nodes, q, 0), cur, c)
    ensures var found := HnswGraph.SearchFrom(space, g, q, cur, wide, 0).0;
            && DistinctIds(found) && Ids(found) <= c && |found| == |Ids(found)| == Least(wide, |c|)
            && (|c| <= wide ==> Ids(found) == c) && forall x | x in found :: x.id < |g.nodes|
  {
    var l := HnswGraph.LayerOf(space, g.nodes, q, 0);
    HnswGraph.LayerClosed(space, g.nodes, q, 0);
    var found := HnswGraph.SearchFrom(space, g, q, cur, wide, 0).0;
    assert found == SearchLayer(l, {}, [cur], wide).0 && cur in l.all;
    assert forall n | n in l.all :: n < |g.nodes|;
    hide HnswGraph.Tidy, HnswGraph.SearchFrom, HnswGraph.LayerOf, SearchLayer, Closed;
    SearchReaches(l, cur, wide, c);
    assert c <= l.all;
    forall x | x in found ensures x.id < |g.nodes| { assert x.id in Ids(found); }
  }

  lemma DistinctNames(g: HnswGraph.Graph)
    requires HnswGraph.WellBuilt(g)
    ensures Distinct(g.ids)
  {
  }

  lemma NamedItems(ids: seq<Key>, found: seq<Item<nat>>)
    requires Distinct(ids) && DistinctIds(found) && forall x | x in found :: x.id < |ids|
    ensures var r := MapItems(IdAt(ids), found);
            DistinctIds(r) && |r| == |found| && Ids(r) == Named(ids, Ids(found))
  {
    var r := MapItems(IdAt(ids), found);
    assert forall i | 0 <= i < |found| :: found[i] in found && r[i].id == ids[found[i].id];
    forall id ensures id in Ids(r) <==> id in Named(ids, Ids(found)) {
      if id in Ids(r) {
        var x :| x in r && x.id == id;
        var i :| 0 <= i < |r| && r[i] == x;
        assert found[i].id in Ids(found);
      }
      if id in Named(ids, Ids(found)) {
        var n :| n in Ids(found) && n < |ids| && ids[n] == id;
        var x :| x in found && x.id == n;
        var i :| 0 <= i < |found| && found[i] == x;
        assert r[i] in r;
      }
    }
  }
}
