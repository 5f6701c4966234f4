/** Searching a fresh tree: it never fails, and scores every record at its current vector. */
module FreshSearch {
  import opened Bytes
  import opened Records
  import opened Keyspace
  import opened Listings
  import opened Heap
  import opened Beam
  import opened BeamReads
  import SortedEntries
  import HnswGraph
  import opened HnswStore
  import opened LiveIndex
  import opened AnnFold
  import opened AnnSearch
  import opened AnnWrite
  import opened SearchAnn
  import opened LiveTree
  import opened SearchTree
  import BTree

  /** Two vectors are compared exactly if both have a direction and they have one dimension. */
  ghost predicate Compares(space: Space) {
    && (forall a, q :: space.cosine(a, q).Some? <==> space.norm(a).Some? && space.norm(q).Some? && |a| == |q|)
    && (forall a | space.norm(a).Some? :: |space.norm(a).value| == |a|)
  }

  /** There is such a space, in which normalising also keeps the distance. */
  lemma SpaceExists() returns (space: Space)
    ensures Compares(space) && Faithful(space) && HasDim(space, 1, [0])
  {
    var cosine := (a: HnswGraph.Vec, q: HnswGraph.Vec) => if a != [] && |a| == |q| then Some(0.0) else None;
    space := HnswGraph.Space.Space(v => if v == [] then None else Some(v),
                                   (a, q) => if cosine(a, q).Some? then 1.0 else 2.0, cosine, k => 0);
  }

  // ---------- the buffer ----------

  ghost predicate KeysApart(s: seq<SortedEntries.Entry>) { forall i, j | 0 <= i < j < |s| :: s[i].key != s[j].key }

  lemma {:induction false} PrefixApart(s: seq<SortedEntries.Entry>, p: Key)
    requires KeysApart(s)
    ensures KeysApart(BTree.WithPrefix(s, p))
  {
    if s != [] {
      PrefixApart(s[1..], p);
      PrefixedAre(s[1..], p);
      var rest := BTree.WithPrefix(s[1..], p);
      forall i | 0 <= i < |rest| ensures rest[i].key != s[0].key {
        assert rest[i] in s[1..];
        var j :| 0 <= j < |s[1..]| && s[1..][j] == rest[i];
        assert s[j + 1] == rest[i];
      }
    }
  }

  /** What the scan of the buffer gives: one pair for each buffered vector. */
  lemma {:induction false} BuffersAsPairs(c: Codec, m: Table, hits: seq<SortedEntries.Entry>)
    requires IndexSound(c, m) && KeysApart(hits)
    requires forall e | e in hits :: e.key in m && m[e.key] == e.rec && StartsWith(e.key, BUFFER)
    ensures BuffersIn(c, hits).Some?
    ensures var pairs := BuffersIn(c, hits).value;
            && Apart(pairs)
            && (forall j | 0 <= j < |pairs| ::
                  Listed(hits, BufferKey(pairs[j].0)) && BufferedAt(c, m, pairs[j].0) == Some(pairs[j].1))
            && (forall id | Listed(hits, BufferKey(id)) && BufferedAt(c, m, id).Some? :: Has(pairs, id))
  {
    if hits != [] {
      var (init, e) := (hits[..|hits| - 1], hits[|hits| - 1]);
      assert hits == init + [e] && e in hits;
      BuffersAsPairs(c, m, init);
      var (before, id) := (BuffersIn(c, init).value, e.key[|BUFFER|..]);
      Rest(BUFFER, e.key);
      forall x ensures Listed(hits, BufferKey(x)) <==> Listed(init, BufferKey(x)) || x == id {
        ListedMore(init, e, BufferKey(x));
        ConcatInjective(BUFFER, x, id);
      }
      if e.rec.OfValue? && e.rec.value.Blob? {
        assert BlobAt(m, BufferKey(id)) == Some(e.rec.value.bytes);
        var pairs := before + [(id, BufferedAt(c, m, id).value)];
        assert BuffersIn(c, hits).value == pairs;
        assert pairs[|before|].0 == id;
        forall j | 0 <= j < |before| ensures before[j].0 != id {
          if before[j].0 == id { NotListed(hits, BufferKey(id)); }
        }
        forall x | Has(before, x) ensures Has(pairs, x) {
          var j :| 0 <= j < |before| && before[j].0 == x;
          assert pairs[j].0 == x;
        }
      } else {
        assert BufferedAt(c, m, id).None?;
      }
    }
  }

  lemma NotListed(hits: seq<SortedEntries.Entry>, k: Key)
    requires KeysApart(hits) && hits != [] && hits[|hits| - 1].key == k
    ensures !Listed(hits[..|hits| - 1], k)
  {
  }

  /** The buffered pairs are the live index's buffer. */
  lemma BufferOf(c: Codec, m: Table, members: set<Key>)
    requires IndexSound(c, m)
    ensures Buffered(c, m).Some?
    ensures var (pairs, i) := (Buffered(c, m).value, IndexOf(c, m, members));
            && Apart(pairs)
            && (forall j | 0 <= j < |pairs| :: pairs[j].0 in i.buffer && i.buffer[pairs[j].0] == pairs[j].1)
            && (forall id | id in i.buffer :: Has(pairs, id))
  {
    var hits := BTree.WithPrefix(Listing(m), BUFFER);
    ListingOf(m);
    SortedEntries.SortedApart(Listing(m));
    PrefixApart(Listing(m), BUFFER);
    Relisted(m);
    PrefixHits(m, BUFFER, hits);
    BuffersAsPairs(c, m, hits);
    hide IndexOf, BuffersIn, BufferedAt, Listing, IndexSound;
    var (pairs, i) := (Buffered(c, m).value, IndexOf(c, m, members));
    forall j | 0 <= j < |pairs| ensures pairs[j].0 in i.buffer && i.buffer[pairs[j].0] == pairs[j].1 {
      BuffersAre(c, m, members, pairs[j].0);
    }
    forall id | id in i.buffer ensures Has(pairs, id) {
      BuffersAre(c, m, members, id);
      InBuffer(c, m, id);
      PrefixOfConcat(BUFFER, id);
      assert SortedEntries.Entry(BufferKey(id), m[BufferKey(id)]) in hits;
    }
  }

  lemma InBuffer(c: Codec, m: Table, id: Key)
    requires BufferedAt(c, m, id).Some?
    ensures BufferKey(id) in m
  {
  }

  lemma Relisted(m: Table)
    ensures SortedEntries.Sorted(Listing(m)) && SortedEntries.ToMap(Listing(m)) == m
  {
    ListingOf(m);
    var s := Listing(m);
    SortedEntries.MapListed(s);
    forall k ensures k in m <==> k in SortedEntries.ToMap(s)
             ensures k in m ==> m[k] == SortedEntries.ToMap(s)[k]
    {
      if k in m { assert SortedEntries.Named(s, k); }
    }
  }

  // ---------- the graph ----------

  lemma LinkStays(g: HnswGraph.Graph, n: nat, layer: nat, j: nat)
    requires HnswGraph.WellBuilt(g) && HnswGraph.OnLayer(g.nodes, n, layer) && j < |g.nodes[n].links[layer]|
    ensures g.nodes[n].links[layer][j] < |g.ids| && g.ids[g.nodes[n].links[layer][j]] in g.at
  {
    assert HnswGraph.TidyList(g.nodes, n, layer, g.nodes[n].links[layer]);
    assert g.nodes[n].links[layer][j] in g.nodes[n].links[layer];
    assert g.ids[g.nodes[n].links[layer][j]] in g.ids;
  }

  /** The exported nodes' links lead to exported nodes only. */
  lemma GraphClosed(space: Space, g: HnswGraph.Graph, raw: map<Key, HnswGraph.Vec>, store: NodeStore, entry: Key,
                    q: HnswGraph.Vec, layer: nat)
    requires HnswGraph.WellBuilt(g) && Holds(store, g, raw)
    ensures Closed(StoredLayer(space, store, entry, q, layer), g.at.Keys)
  {
    var l := StoredLayer(space, store, entry, q, layer);
    assert |g.ids| == |g.nodes| && forall id | id in g.at :: g.at[id] < |g.nodes|;
    hide HnswGraph.WellBuilt, Mentioned;
    forall x, y | x in g.at.Keys && y in l.adj(x) ensures y in g.at.Keys {
      var n := g.at[x];
      assert store[x] == ExportNode(g, raw, n);
      var j :| 0 <= j < |l.adj(x)| && l.adj(x)[j] == y;
      LinkStays(g, n, layer, j);
    }
  }

  /** A search that starts in a closed part of the store stays there. */
  lemma {:induction false} DescentInside(space: Space, store: NodeStore, entry: Key, q: HnswGraph.Vec, start: Key,
                                         top: nat, s: set<Key>)
    requires start in Mentioned(store, entry) && start in s
    requires forall layer: nat :: Closed(StoredLayer(space, store, entry, q, layer), s)
    ensures DescentReads(space, store, entry, q, start, top) <= s
    ensures StoredDescend(space, store, entry, q, start, top) in s
    decreases top
  {
    hide StoredLayer, Mentioned;
    if top > 1 {
      var g := StoredLayer(space, store, entry, q, top - 1);
      StoredClosed(space, store, entry, q, top - 1);
      LayerAll(space, store, entry, q, top - 1);
      GreedyStops(g, start);
      WalkInside(g, start, s);
      DescentInside(space, store, entry, q, Greedy(g, start), top - 1, s);
    }
  }

  lemma BottomInside(space: Space, store: NodeStore, entry: Key, query: HnswGraph.Vec, cur: Key, ef: nat, s: set<Key>)
    requires cur in Mentioned(store, entry) && cur in s && ef > 0
    requires Closed(StoredLayer(space, store, entry, query, 0), s)
    ensures BottomReads(space, store, entry, query, cur, ef) <= s
    ensures forall x | x in StoredBottom(space, store, entry, query, cur, ef) ::
              x.id in s && x.dist == StoredLayer(space, store, entry, query, 0).dist(x.id)
  {
    StoredClosed(space, store, entry, query, 0);
    LayerAll(space, store, entry, query, 0);
    hide StoredLayer, Mentioned, SearchLayer, Closed;
    SearchInside(StoredLayer(space, store, entry, query, 0), cur, ef, s);
  }

  lemma AnswerOf(found: seq<Item<Key>>, k: nat)
    ensures forall x | x in Answer(found, k) :: x in found
  {
    SortSorts(found);
    SameItems(found, SortByDist(found));
  }

  /** The graph's search of a tree that stores graph `g` reads and finds nodes of `g` only, each at the distance of its
      stored vector. */
  lemma GraphFinds(space: Space, g: HnswGraph.Graph, raw: map<Key, HnswGraph.Vec>, store: NodeStore,
                   query: HnswGraph.Vec, k: nat, ef: nat)
    requires HnswGraph.WellBuilt(g) && Raw(space, g, raw) && Holds(store, g, raw)
    ensures StoredReads(space, store, ExportMeta(g), query, k, ef) <= g.at.Keys
    ensures forall x | x in StoredSearch(space, store, ExportMeta(g), query, k, ef) ::
              x.id in g.at && x.dist == space.Far(raw[x.id], query)
  {
    hide StoredLayer, Mentioned, DescentReads, BottomReads, StoredDescend, StoredBottom, Answer;
    var meta := ExportMeta(g);
    if meta.entry.Some? && meta.dim == Some(|query|) && k > 0 {
      var (entry, s) := (meta.entry.value, g.at.Keys);
      assert entry in s by { EntryStored(g); }
      EntryMentioned(store, entry);
      forall layer: nat ensures Closed(StoredLayer(space, store, entry, query, layer), s) {
        GraphClosed(space, g, raw, store, entry, query, layer);
      }
      hide HnswGraph.WellBuilt, Raw, Holds;
      DescentInside(space, store, entry, query, entry, meta.maxLevel + 1, s);
      var cur := StoredDescend(space, store, entry, query, entry, meta.maxLevel + 1);
      BottomInside(space, store, entry, query, cur, Max(ef, k), s);
      AnswerOf(StoredBottom(space, store, entry, query, cur, Max(ef, k)), k);
      forall x | x in StoredSearch(space, store, meta, query, k, ef)
        ensures x.id in g.at && x.dist == space.Far(raw[x.id], query)
      {
        StoredAt(space, g, raw, store, entry, query, x.id);
      }
    }
  }

  lemma EntryStored(g: HnswGraph.Graph)
    requires HnswGraph.WellBuilt(g) && g.entry.Some?
    ensures g.entry.value < |g.ids| && g.ids[g.entry.value] in g.at
  {
    assert g.ids[g.entry.value] in g.ids;
  }

  lemma StoredAt(space: Space, g: HnswGraph.Graph, raw: map<Key, HnswGraph.Vec>, store: NodeStore, entry: Key,
                 q: HnswGraph.Vec, id: Key)
    requires HnswGraph.WellBuilt(g) && Raw(space, g, raw) && Holds(store, g, raw) && id in g.at
    ensures id in store && store[id].vector == raw[id]
    ensures StoredLayer(space, store, entry, q, 0).dist(id) == space.Far(raw[id], q)
  {
    assert store[id] == ExportNode(g, raw, g.at[id]) && g.ids[g.at[id]] == id;
  }

  // ---------- both ----------

  lemma GraphGood(c: Codec, m: Table, id: Key)
    requires id in StoreOf(c, m)
    ensures !BadNode(c, m, id)
  {
    StoreIs(c, m, id);
  }

  /** A search of a fresh tree never fails to read. */
  lemma FreshReads(c: Codec, space: Space, dim: nat, m: Table, g: HnswGraph.Graph, raw: map<Key, HnswGraph.Vec>,
                   query: HnswGraph.Vec, k: nat)
    requires FreshWith(c, space, dim, m, g, raw)
    ensures Buffered(c, m).Some? && SearchTable(c, space, m, query, k).Some?
  {
    hide HnswGraph.WellBuilt, Raw, Holds, Fresh, Alike, IndexOf, StoreOf, IndexSound, MetaOf, StoredReads, Union,
         Answer, BadNode, ExportMeta, Buffered, BufferItems, AddUnseen;
    BufferOf(c, m, g.at.Keys);
    var want := k + |AddUnseen([], BufferItems(space, Buffered(c, m).value, query))|;
    GraphFinds(space, g, raw, StoreOf(c, m), query, want, EF_DEFAULT);
    forall id | id in StoredReads(space, StoreOf(c, m), MetaOf(c, m), query, want, EF_DEFAULT)
      ensures !BadNode(c, m, id)
    {
      InStore(StoreOf(c, m), g, raw, id);
      GraphGood(c, m, id);
    }
  }

  lemma InStore(store: NodeStore, g: HnswGraph.Graph, raw: map<Key, HnswGraph.Vec>, id: Key)
    requires HnswGraph.WellBuilt(g) && Holds(store, g, raw) && id in g.at
    ensures id in store
  {
  }

  /** What a union found is a buffered vector at its own distance, or one of the graph's hits. */
  lemma FoundWhere(space: Space, store: NodeStore, meta: StoreMeta, buffered: Pairs, query: HnswGraph.Vec, k: nat)
    requires Apart(buffered)
    ensures forall x | x in Union(space, store, meta, buffered, query, k) ::
              x in Hits(space, store, meta, buffered, query, k)
              || exists j :: 0 <= j < |buffered| && x == Item(buffered[j].0, space.Far(buffered[j].1, query))
  {
    hide StoredSearch, BufferItems;
    var b := BufferItems(space, buffered, query);
    BufferIs(space, buffered, query);
    OwnIs(b);
    UnseenIs(b, Hits(space, store, meta, buffered, query, k));
    forall x | x in b
      ensures exists j :: 0 <= j < |buffered| && x == Item(buffered[j].0, space.Far(buffered[j].1, query))
    {
      var j :| 0 <= j < |buffered| && buffered[j].0 == x.id;
      assert x == Item(buffered[j].0, space.Far(buffered[j].1, query));
    }
  }

  lemma SameEntries(c: Codec, m: Table, members: set<Key>)
    ensures IndexOf(c, m, {}).entries == IndexOf(c, m, members).entries
    ensures IndexOf(c, m, {}).buffer == IndexOf(c, m, members).buffer
  {
  }

  /** Two vectors of one dimension with a direction compare with the same queries. */
  lemma CompareAlike(space: Space, dim: nat, a: HnswGraph.Vec, b: HnswGraph.Vec, q: HnswGraph.Vec)
    requires Compares(space) && HasDim(space, dim, a) && HasDim(space, dim, b)
    ensures space.cosine(a, q).Some? <==> space.cosine(b, q).Some?
  {
  }

  lemma Visibly(space: Space, dim: nat, i: Index, id: Key)
    requires Fresh(i) && Alike(space, dim, i) && Embedded(i, id)
    ensures HasDim(space, dim, i.entries[id].value)
    ensures if id in i.buffer then i.buffer[id] == i.entries[id].value
            else id in i.nodes && i.nodes[id] == i.entries[id].value
  {
  }

  /** A found record with an embedding, whether its vector is buffered or not. */
  lemma FoundCurrent(space: Space, dim: nat, i: Index, store: NodeStore, meta: StoreMeta, buffered: Pairs,
                     raw: map<Key, HnswGraph.Vec>, query: HnswGraph.Vec, k: nat, x: Item<Key>)
    requires Compares(space) && Fresh(i) && Alike(space, dim, i) && Embedded(i, x.id) && Apart(buffered)
    requires forall j | 0 <= j < |buffered| :: buffered[j].0 in i.buffer && i.buffer[buffered[j].0] == buffered[j].1
    requires forall id | id in i.buffer :: Has(buffered, id)
    requires x in Union(space, store, meta, buffered, query, k)
    requires x in Hits(space, store, meta, buffered, query, k) ==>
               x.id in raw && HasDim(space, dim, raw[x.id]) && x.dist == space.Far(raw[x.id], query)
               && (x.id in i.nodes ==> i.nodes[x.id] == raw[x.id])
    ensures x.dist == space.Far(i.entries[x.id].value, query)
  {
    hide Union, Hits, Compares, Fresh, Alike, HasDim, Answer, Sorted;
    Visibly(space, dim, i, x.id);
    LiveSearch(space, store, meta, buffered, query, k);
    FoundWhere(space, store, meta, buffered, query, k);
    if x.id in i.buffer {
      var j :| 0 <= j < |buffered| && buffered[j].0 == x.id;
      assert buffered[j].1 == i.entries[x.id].value;
      if x in Hits(space, store, meta, buffered, query, k) {
        CompareAlike(space, dim, raw[x.id], i.entries[x.id].value, query);
      }
    }
  }

  lemma NodeVector(c: Codec, m: Table, members: set<Key>, id: Key)
    requires id in StoreOf(c, m)
    ensures id in IndexOf(c, m, members).nodes && IndexOf(c, m, members).nodes[id] == StoreOf(c, m)[id].vector
  {
  }

  /** What a search of a fresh tree answers is an indexed record, scored at its current vector if it still has one. */
  lemma ScoredCurrent(c: Codec, space: Space, dim: nat, m: Table, g: HnswGraph.Graph, raw: map<Key, HnswGraph.Vec>,
                      query: HnswGraph.Vec, k: nat, x: Item<Key>)
    requires Compares(space) && FreshWith(c, space, dim, m, g, raw) && Buffered(c, m).Some?
    requires x in Union(space, StoreOf(c, m), MetaOf(c, m), Buffered(c, m).value, query, k)
    ensures var i := IndexOf(c, m, {});
            x.id in i.entries && (i.entries[x.id].Some? ==> x.dist == space.Far(i.entries[x.id].value, query))
  {
    hide HnswGraph.WellBuilt, Raw, Holds, IndexSound, StoredSearch, Union, BufferItems, ExportMeta, Buffered, AddUnseen,
         MetaReads, MetaOf, StoreOf, IndexOf, Fresh, Alike, HasDim, Compares;
    var (i, buffered) := (IndexOf(c, m, g.at.Keys), Buffered(c, m).value);
    BufferOf(c, m, g.at.Keys);
    FoundWhere(space, StoreOf(c, m), MetaOf(c, m), buffered, query, k);
    SameEntries(c, m, g.at.Keys);
    SameMembers(c, m, m, g.at.Keys);
    if x in Hits(space, StoreOf(c, m), MetaOf(c, m), buffered, query, k) {
      GraphFinds(space, g, raw, StoreOf(c, m), query, k + |AddUnseen([], BufferItems(space, buffered, query))|,
                 EF_DEFAULT);
      StoredAt(space, g, raw, StoreOf(c, m), [], query, x.id);
      InRaw(space, g, raw, x.id);
      NodeVector(c, m, g.at.Keys, x.id);
    }
    if x.id in i.entries && i.entries[x.id].Some? {
      FoundCurrent(space, dim, i, StoreOf(c, m), MetaOf(c, m), buffered, raw, query, k, x);
    }
  }

  lemma InRaw(space: Space, g: HnswGraph.Graph, raw: map<Key, HnswGraph.Vec>, id: Key)
    requires HnswGraph.WellBuilt(g) && Raw(space, g, raw) && id in g.at
    ensures id in raw
  {
  }

  /** Whatever is found and not answered is no closer than all k answered. */
  lemma LeftOut(found: seq<Item<Key>>, k: nat, x: Item<Key>)
    requires DistinctIds(found) && x in found && x !in Answer(found, k)
    ensures |Answer(found, k)| == k && forall y | y in Answer(found, k) :: y.dist <= x.dist
  {
    AnswerBest(found, k);
    SortSorts(found);
    SameItems(found, SortByDist(found));
  }

  /** **A search of a fresh tree never fails to read it, and answers indexed records only, each at the distance of its
      current vector; and no buffered vector that compares with the query is passed over for a farther one.** */
  lemma SearchIsCurrent(c: Codec, space: Space, dim: nat, m: Table, query: HnswGraph.Vec, k: nat)
    requires Compares(space) && FreshTable(c, space, dim, m)
    ensures SearchTable(c, space, m, query, k).Some?
    ensures var (i, answer) := (IndexOf(c, m, {}), SearchTable(c, space, m, query, k).value);
            && DistinctIds(answer) && Sorted(answer) && |answer| <= k
            && (forall x | x in answer ::
                  x.id in i.entries && (i.entries[x.id].Some? ==> x.dist == space.Far(i.entries[x.id].value, query)))
            && (forall id | id in i.buffer && space.cosine(i.buffer[id], query).Some? ::
                  Item(id, space.Far(i.buffer[id], query)) in answer
                  || (|answer| == k && forall y | y in answer :: y.dist <= space.Far(i.buffer[id], query)))
  {
    hide FreshWith, StoreOf, MetaOf, IndexOf, Buffered, Union, Answer, GraphReads, Compares, Sorted;
    var g, raw :| FreshWith(c, space, dim, m, g, raw);
    FreshReads(c, space, dim, m, g, raw, query, k);
    var (i, buffered) := (IndexOf(c, m, {}), Buffered(c, m).value);
    FreshSound(c, space, dim, m, g, raw);
    BufferOf(c, m, {});
    LiveSearch(space, StoreOf(c, m), MetaOf(c, m), buffered, query, k);
    var union := Union(space, StoreOf(c, m), MetaOf(c, m), buffered, query, k);
    UnionDistinct(space, StoreOf(c, m), MetaOf(c, m), buffered, query, k);
    forall x | x in union
      ensures x.id in i.entries && (i.entries[x.id].Some? ==> x.dist == space.Far(i.entries[x.id].value, query))
    {
      ScoredCurrent(c, space, dim, m, g, raw, query, k, x);
    }
    forall id | id in i.buffer && space.cosine(i.buffer[id], query).Some?
      ensures var x := Item(id, space.Far(i.buffer[id], query));
              x in Answer(union, k) || (|Answer(union, k)| == k && forall y | y in Answer(union, k) :: y.dist <= x.dist)
    {
      var j :| 0 <= j < |buffered| && buffered[j].0 == id;
      var x := Item(id, space.Far(i.buffer[id], query));
      if x !in Answer(union, k) { LeftOut(union, k, x); }
    }
  }

  lemma FreshSound(c: Codec, space: Space, dim: nat, m: Table, g: HnswGraph.Graph, raw: map<Key, HnswGraph.Vec>)
    requires FreshWith(c, space, dim, m, g, raw)
    ensures IndexSound(c, m)
  {
  }

  lemma UnionDistinct(space: Space, store: NodeStore, meta: StoreMeta, buffered: Pairs, query: HnswGraph.Vec, k: nat)
    requires Apart(buffered)
    ensures DistinctIds(Union(space, store, meta, buffered, query, k))
  {
    hide StoredSearch, BufferItems, AddUnseen;
    StoredDistinct(space, store, meta, query, k + |AddUnseen([], BufferItems(space, buffered, query))|, EF_DEFAULT);
    UnionIs(space, buffered, query, Hits(space, store, meta, buffered, query, k));
  }
}
