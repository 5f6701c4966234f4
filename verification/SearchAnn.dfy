/** Searching a live index: the buffer by brute force, the graph beyond it, and the best of both. */
module SearchAnn {
  import opened Bytes
  import opened Records
  import opened Heap
  import opened Beam
  import HnswGraph
  import opened HnswStore
  import opened LiveIndex

  const EF_DEFAULT := 64

  // ---------- the union ----------

  /** Take items one by one, but for those of a record already there. */
  function AddUnseen(scored: seq<Item<Key>>, items: seq<Item<Key>>): seq<Item<Key>> {
    if items == [] then scored
    else
      var before := AddUnseen(scored, items[..|items| - 1]);
      var x := items[|items| - 1];
      if x.id in Ids(before) then before else before + [x]
  }

  /** The buffered vectors that can be compared with the query. */
  function BufferItems(space: HnswGraph.Space, buffered: Pairs, query: HnswGraph.Vec): seq<Item<Key>> {
    if buffered == [] then []
    else
      var (id, v) := buffered[|buffered| - 1];
      var before := BufferItems(space, buffered[..|buffered| - 1], query);
      if space.cosine(v, query).Some? then before + [Item(id, space.Far(v, query))] else before
  }

  function Hits(space: HnswGraph.Space, store: NodeStore, meta: StoreMeta, buffered: Pairs, query: HnswGraph.Vec,
                k: nat): seq<Item<Key>> {
    StoredSearch(space, store, meta, query, k + |AddUnseen([], BufferItems(space, buffered, query))|, EF_DEFAULT)
  }

  function Union(space: HnswGraph.Space, store: NodeStore, meta: StoreMeta, buffered: Pairs, query: HnswGraph.Vec,
                 k: nat): seq<Item<Key>> {
    AddUnseen(AddUnseen([], BufferItems(space, buffered, query)), Hits(space, store, meta, buffered, query, k))
  }

  method ScoreBuffer(space: HnswGraph.Space, buffered: Pairs, query: HnswGraph.Vec)
    returns (scored: seq<Item<Key>>, seen: set<Key>)
    ensures scored == AddUnseen([], BufferItems(space, buffered, query)) && seen == Ids(scored)
  {
    scored, seen := [], {};
    for i := 0 to |buffered|
      invariant scored == AddUnseen([], BufferItems(space, buffered[..i], query)) && seen == Ids(scored)
    {
      assert buffered[..i + 1][..i] == buffered[..i];
      var (id, v) := buffered[i];
      var cosine := space.cosine(v, query);
      if cosine.Some? {
        ghost var items := BufferItems(space, buffered[..i + 1], query);
        assert items[..|items| - 1] == BufferItems(space, buffered[..i], query);
        if id !in seen {
          IdsMore(scored, Item(id, 1.0 - cosine.value));
          scored, seen := scored + [Item(id, 1.0 - cosine.value)], seen + {id};
        }
      }
    }
    assert buffered[..|buffered|] == buffered;
  }

  method AddHits(own: seq<Item<Key>>, seen: set<Key>, hits: seq<Item<Key>>) returns (scored: seq<Item<Key>>)
    requires seen == Ids(own)
    ensures scored == AddUnseen(own, hits)
  {
    var all := seen;
    scored := own;
    for j := 0 to |hits|
      invariant scored == AddUnseen(own, hits[..j]) && all == Ids(scored)
    {
      assert hits[..j + 1][..j] == hits[..j];
      if hits[j].id !in all {
        IdsMore(scored, hits[j]);
        scored, all := scored + [hits[j]], all + {hits[j].id};
      }
    }
    assert hits[..|hits|] == hits;
  }

  /** Score the buffer, over-fetch from the graph by what the buffer already has, and keep the best k of both. */
  method SearchBoth(space: HnswGraph.Space, store: NodeStore, meta: StoreMeta, buffered: Pairs, query: HnswGraph.Vec,
                    k: nat)
    returns (answer: seq<Item<Key>>)
    ensures answer == Answer(Union(space, store, meta, buffered, query, k), k)
  {
    hide AddUnseen, BufferItems, StoredSearch, Answer;
    var scored, seen := ScoreBuffer(space, buffered, query);
    var hits := StoredSearch(space, store, meta, query, k + |scored|, EF_DEFAULT);
    scored := AddHits(scored, seen, hits);
    answer := Answer(scored, k);
  }

  lemma IdsMore(s: seq<Item<Key>>, x: Item<Key>)
    ensures Ids(s + [x]) == Ids(s) + {x.id}
  {
    assert x in s + [x] && forall y | y in s :: y in s + [x];
    assert forall y | y in s + [x] :: y in s || y == x;
  }

  // ---------- what it finds ----------

  lemma {:induction false} UnseenIs(scored: seq<Item<Key>>, items: seq<Item<Key>>)
    requires DistinctIds(scored)
    ensures var r := AddUnseen(scored, items);
            && DistinctIds(r) && scored <= r && Ids(r) == Ids(scored) + Ids(items)
            && (forall x | x in r :: x in scored || (x in items && x.id !in Ids(scored)))
  {
    if items != [] {
      var (init, x) := (items[..|items| - 1], items[|items| - 1]);
      assert items == init + [x];
      IdsMore(init, x);
      UnseenIs(scored, init);
      var before := AddUnseen(scored, init);
      if x.id !in Ids(before) {
        IdsMore(before, x);
        forall i | 0 <= i < |before| ensures before[i].id != x.id { assert before[i] in before; }
      }
    }
  }

  lemma {:induction false} BufferIs(space: HnswGraph.Space, buffered: Pairs, query: HnswGraph.Vec)
    requires Apart(buffered)
    ensures var b := BufferItems(space, buffered, query);
            && DistinctIds(b)
            && (forall x | x in b :: Has(buffered, x.id))
            && (forall j | 0 <= j < |buffered| && space.cosine(buffered[j].1, query).Some? ::
                  Item(buffered[j].0, space.Far(buffered[j].1, query)) in b)
            && (forall j, x | 0 <= j < |buffered| && x in b && x.id == buffered[j].0 ::
                  space.cosine(buffered[j].1, query).Some? && x.dist == space.Far(buffered[j].1, query))
  {
    if buffered != [] {
      var (init, last) := (buffered[..|buffered| - 1], buffered[|buffered| - 1]);
      assert buffered == init + [last];
      BufferIs(space, init, query);
      var before := BufferItems(space, init, query);
      forall x | x in before ensures x.id != last.0 && Has(buffered, x.id) {
        var j :| 0 <= j < |init| && init[j].0 == x.id;
        assert buffered[j].0 == x.id && buffered[|buffered| - 1].0 == last.0;
      }
      assert buffered[|buffered| - 1].0 == last.0 && Has(buffered, last.0);
      forall i | 0 <= i < |before| ensures before[i].id != last.0 { assert before[i] in before; }
    }
  }

  /** The answer is the k best of what was found. */
  lemma AnswerBest(found: seq<Item<Key>>, k: nat)
    requires DistinctIds(found)
    ensures var a := Answer(found, k);
            && Sorted(a) && DistinctIds(a) && |a| == (if |found| <= k then |found| else k)
            && (forall x | x in a :: x in found)
            && forall x, y | x in found && x !in a && y in a :: y.dist <= x.dist
  {
    hide SortByDist, Sorted;
    var s := SortByDist(found);
    SortSorts(found);
    SameItems(found, s);
    SortDistinct(found);
    var n := if |found| <= k then |found| else k;
    assert Answer(found, k) == s[..n];
    FirstAreBest(s, n);
  }

  lemma SameItems(a: seq<Item<Key>>, b: seq<Item<Key>>)
    requires multiset(a) == multiset(b)
    ensures forall x :: x in a <==> x in b
  {
    forall x ensures x in a <==> x in b { assert x in a <==> x in multiset(a); }
  }

  lemma FirstAreBest(s: seq<Item<Key>>, n: nat)
    requires Sorted(s) && DistinctIds(s) && n <= |s|
    ensures Sorted(s[..n]) && DistinctIds(s[..n]) && forall x | x in s[..n] :: x in s
    ensures forall x, y | x in s && x !in s[..n] && y in s[..n] :: y.dist <= x.dist
  {
    forall x, y | x in s && x !in s[..n] && y in s[..n] ensures y.dist <= x.dist {
      var i :| 0 <= i < |s| && s[i] == x;
      var j :| 0 <= j < n && s[..n][j] == y;
      assert forall m | 0 <= m < n :: s[..n][m] == s[m] && s[m] in s[..n];
    }
  }

  lemma SortDistinct(s: seq<Item<Key>>)
    requires DistinctIds(s)
    ensures DistinctIds(SortByDist(s))
  {
    SortSorts(s);
    var r := SortByDist(s);
    forall i, j | 0 <= i < j < |r| ensures r[i].id != r[j].id {
      assert r[i] in multiset(s) && r[j] in multiset(s);
      var a :| 0 <= a < |s| && s[a] == r[i];
      var b :| 0 <= b < |s| && s[b] == r[j];
      if r[i] == r[j] { TwiceSorted(s, r, i, j); }
    }
  }

  lemma {:induction false} OnceEach(s: seq<Item<Key>>, x: Item<Key>)
    requires DistinctIds(s)
    ensures multiset(s)[x] <= 1
  {
    if s != [] {
      OnceEach(s[..|s| - 1], x);
      assert s == s[..|s| - 1] + [s[|s| - 1]];
      assert s[|s| - 1] !in s[..|s| - 1];
    }
  }

  lemma TwiceSorted(s: seq<Item<Key>>, r: seq<Item<Key>>, i: nat, j: nat)
    requires DistinctIds(s) && multiset(r) == multiset(s) && i < j < |r|
    ensures r[i] != r[j]
  {
    OnceEach(s, r[i]);
    if r[i] == r[j] { TwiceCounts(r, i, j); }
  }

  lemma {:induction false} DistinctCount(s: seq<Item<Key>>)
    requires DistinctIds(s)
    ensures |Ids(s)| == |s|
  {
    if s != [] {
      var (init, x) := (s[..|s| - 1], s[|s| - 1]);
      assert s == init + [x];
      DistinctCount(init);
      assert x.id !in Ids(init);
      assert Ids(s) == Ids(init) + {x.id};
    }
  }

  lemma InMentioned(space: HnswGraph.Space, store: NodeStore, entry: Key, query: HnswGraph.Vec, cur: Key)
    requires cur in Mentioned(store, entry)
    ensures cur in StoredLayer(space, store, entry, query, 0).all
  {
  }

  lemma BottomDistinct(space: HnswGraph.Space, store: NodeStore, entry: Key, query: HnswGraph.Vec, cur: Key, ef: nat)
    requires cur in Mentioned(store, entry) && ef > 0
    ensures DistinctIds(StoredBottom(space, store, entry, query, cur, ef))
  {
    hide StoredLayer, SearchLayer, Mentioned, Sorted, Linked;
    StoredClosed(space, store, entry, query, 0);
    InMentioned(space, store, entry, query, cur);
    SearchLayerExit(StoredLayer(space, store, entry, query, 0), {}, [cur], ef);
  }

  lemma StoredDistinct(space: HnswGraph.Space, store: NodeStore, meta: StoreMeta, query: HnswGraph.Vec, k: nat, ef: nat)
    ensures DistinctIds(StoredSearch(space, store, meta, query, k, ef))
  {
    hide StoredBottom, Mentioned, StoredDescend, Answer;
    if meta.entry.Some? && meta.dim == Some(|query|) && k > 0 {
      var entry := meta.entry.value;
      EntryMentioned(store, entry);
      var cur := StoredDescend(space, store, entry, query, entry, meta.maxLevel + 1);
      BottomDistinct(space, store, entry, query, cur, Max(ef, k));
      AnswerBest(StoredBottom(space, store, entry, query, cur, Max(ef, k)), k);
    }
  }

  /** What the union of buffer and graph holds. */
  lemma UnionIs(space: HnswGraph.Space, buffered: Pairs, query: HnswGraph.Vec, hits: seq<Item<Key>>)
    requires Apart(buffered) && DistinctIds(hits)
    ensures var own := AddUnseen([], BufferItems(space, buffered, query));
            var union := AddUnseen(own, hits);
            && DistinctIds(union) && |hits| <= |union|
            && (forall j | 0 <= j < |buffered| && space.cosine(buffered[j].1, query).Some? ::
                  Item(buffered[j].0, space.Far(buffered[j].1, query)) in union)
            && (forall x | x in union :: x in hits || Has(buffered, x.id))
            && (forall x | x in hits :: x.id in Ids(union))
  {
    hide BufferItems, AddUnseen, Apart, Has;
    var own := AddUnseen([], BufferItems(space, buffered, query));
    var union := AddUnseen(own, hits);
    BufferIs(space, buffered, query);
    OwnIs(BufferItems(space, buffered, query));
    UnseenIs(own, hits);
    assert forall x | x in own :: x in union;
    DistinctCount(hits);
    DistinctCount(union);
    SubsetSize(Ids(hits), Ids(union));
    InIds(hits);
  }

  lemma {:induction false} OwnIs(b: seq<Item<Key>>)
    requires DistinctIds(b)
    ensures AddUnseen([], b) == b
  {
    if b != [] {
      OwnIs(b[..|b| - 1]);
      assert b == b[..|b| - 1] + [b[|b| - 1]];
    }
  }

  lemma InIds(s: seq<Item<Key>>)
    ensures forall x | x in s :: x.id in Ids(s)
  {
  }

  lemma OneOfEach(s: seq<Item<Key>>, x: Item<Key>, y: Item<Key>)
    requires DistinctIds(s) && x in s && y in s && x.id == y.id
    ensures x == y
  {
  }

  /** **What a live search answers**: no record twice; the closest k of everything found; each buffered vector that can
      be compared found at its own distance, whatever the graph holds for that record; every other record as the graph
      answered it; and k records in all whenever the graph returned all it was asked for. */
  lemma LiveSearch(space: HnswGraph.Space, store: NodeStore, meta: StoreMeta, buffered: Pairs, query: HnswGraph.Vec,
                   k: nat)
    requires Apart(buffered)
    ensures var hits := Hits(space, store, meta, buffered, query, k);
            var union := Union(space, store, meta, buffered, query, k);
            var answer := Answer(union, k);
            && Sorted(answer) && DistinctIds(answer) && |answer| <= k
            && (forall x | x in answer :: x in union)
            && (forall x, y | x in union && x !in answer && y in answer :: y.dist <= x.dist)
            && (forall j | 0 <= j < |buffered| && space.cosine(buffered[j].1, query).Some? ::
                  Item(buffered[j].0, space.Far(buffered[j].1, query)) in union)
            && (forall j, x | 0 <= j < |buffered| && x in union && x.id == buffered[j].0
                                && space.cosine(buffered[j].1, query).Some? ::
                                     x.dist == space.Far(buffered[j].1, query))
            && (forall x | x in union :: x in hits || Has(buffered, x.id))
            && (forall x | x in hits :: x.id in Ids(union))
            && (|hits| == k + |AddUnseen([], BufferItems(space, buffered, query))| ==> |answer| == k)
  {
    hide BufferItems, AddUnseen, Answer, StoredSearch, Apart, Has;
    var own := AddUnseen([], BufferItems(space, buffered, query));
    var hits := Hits(space, store, meta, buffered, query, k);
    var union := Union(space, store, meta, buffered, query, k);
    StoredDistinct(space, store, meta, query, k + |own|, EF_DEFAULT);
    UnionIs(space, buffered, query, hits);
    AnswerBest(union, k);
    forall j, x | 0 <= j < |buffered| && x in union && x.id == buffered[j].0 && space.cosine(buffered[j].1, query).Some?
      ensures x.dist == space.Far(buffered[j].1, query)
    {
      OneOfEach(union, x, Item(buffered[j].0, space.Far(buffered[j].1, query)));
    }
  }
}
