/** Rebuilding a branch's graph in its tree: entries scanned, graph built in memory, nodes written, buffer cleared. */
module AnnFold {
  import opened Bytes
  import opened Records
  import opened SortedEntries
  import opened PageSize
  import opened BTree
  import opened Keyspace
  import opened KeyOrder
  import opened Listings
  import HnswGraph
  import opened HnswStore
  import opened LiveIndex
  import Hnsw
  import Merge

  type Space = HnswGraph.Space

  /** How entries, buffered vectors, nodes and the graph's bookkeeping become bytes. */
  datatype Codec = Codec(
    writeEntry: (Key, Option<HnswGraph.Vec>) -> Key, readEntry: Key -> Option<(Key, Option<HnswGraph.Vec>)>,
    writeVec: HnswGraph.Vec -> Key, readVec: Key -> Option<HnswGraph.Vec>,
    writeNode: Persisted -> Key, readNode: Key -> Option<Persisted>,
    writeMeta: StoreMeta -> Key, readMeta: Key -> Option<StoreMeta>)

  ghost predicate Decodes(c: Codec) {
    && (forall k, v :: c.readEntry(c.writeEntry(k, v)) == Some((k, v)))
       && (forall v :: c.readVec(c.writeVec(v)) == Some(v))
    && (forall n :: c.readNode(c.writeNode(n)) == Some(n)) && (forall m :: c.readMeta(c.writeMeta(m)) == Some(m))
  }

  // ---------- what is built ----------

  predicate IsEntry(e: Entry) { StartsWith(e.key, INDEX) && e.rec.OfValue? && e.rec.value.Blob? }

  /** The embedded entries in scan order, or none if one does not decode. */
  function PairsIn(c: Codec, all: seq<Entry>): Option<Pairs> {
    if all == [] then Some([])
    else
      var before := PairsIn(c, all[..|all| - 1]);
      var e := all[|all| - 1];
      if before.None? || !IsEntry(e) then before
      else
        match c.readEntry(e.rec.value.bytes)
        case None => None
        case Some((_, None)) => before
        case Some((k, Some(v))) => Some(before.value + [(k, v)])
  }

  function Built(space: Space, pairs: Pairs): (g: HnswGraph.Graph)
    ensures HnswGraph.WellBuilt(g)
  {
    HnswGraph.EmptyWellBuilt();
    if pairs == [] then HnswGraph.EMPTY
    else
      var g := Built(space, pairs[..|pairs| - 1]);
      var (k, v) := pairs[|pairs| - 1];
      HnswGraph.InsertKeeps(space, g, k, v);
      HnswGraph.Inserted(space, g, k, v).0
  }

  function RawOf(pairs: Pairs): map<Key, HnswGraph.Vec> {
    if pairs == [] then map[] else RawOf(pairs[..|pairs| - 1])[pairs[|pairs| - 1].0 := pairs[|pairs| - 1].1]
  }

  function NodeRecord(c: Codec, n: Persisted): Record { OfValue(Blob(c.writeNode(n))) }

  /** The record under a key once graph `g` is written over table `m` and the buffer cleared. */
  function RecordAfter(c: Codec, g: HnswGraph.Graph, raw: map<Key, HnswGraph.Vec>, m: Table, k: Key): Option<Record>
    requires HnswGraph.WellBuilt(g)
  {
    if StartsWith(k, BUFFER) then None
    else if k == GRAPH_META then Some(OfValue(Blob(c.writeMeta(ExportMeta(g)))))
    else if StartsWith(k, GRAPH_NODE) && k[|GRAPH_NODE|..] in g.at then
      Some(NodeRecord(c, ExportNode(g, raw, g.at[k[|GRAPH_NODE|..]])))
    else Merge.Look(m, k)
  }

  ghost predicate FoldsTo(c: Codec, g: HnswGraph.Graph, raw: map<Key, HnswGraph.Vec>, m: Table, m': Table)
    requires HnswGraph.WellBuilt(g)
  {
    forall k :: Merge.Look(m', k) == RecordAfter(c, g, raw, m, k)
  }

  /** The table a rebuild leaves. */
  ghost function FoldedTable(c: Codec, space: Space, m: Table): Table
    requires PairsIn(c, Listing(m)).Some?
  {
    var pairs := PairsIn(c, Listing(m)).value;
    var (g, raw) := (Built(space, pairs), RawOf(pairs));
    map k | k in m.Keys + {GRAPH_META} + (set id | id in g.at :: GraphNodeKey(id)) && RecordAfter(c, g, raw, m, k).Some?
      :: RecordAfter(c, g, raw, m, k).value
  }

  /** It is the one table that holds, under every key, the record the rebuild puts there. */
  lemma FoldedTableIs(c: Codec, space: Space, m: Table, m': Table)
    requires PairsIn(c, Listing(m)).Some?
    ensures var pairs := PairsIn(c, Listing(m)).value;
            FoldsTo(c, Built(space, pairs), RawOf(pairs), m, m') <==> m' == FoldedTable(c, space, m)
  {
    var pairs := PairsIn(c, Listing(m)).value;
    var (g, raw) := (Built(space, pairs), RawOf(pairs));
    var folded := FoldedTable(c, space, m);
    hide HnswGraph.WellBuilt, ExportNode, Built, RawOf;
    forall k ensures Merge.Look(folded, k) == RecordAfter(c, g, raw, m, k) {
      if StartsWith(k, GRAPH_NODE) { assert k == GraphNodeKey(k[|GRAPH_NODE|..]); }
    }
    if FoldsTo(c, g, raw, m, m') {
      forall k ensures k in m' <==> k in folded
               ensures k in m' ==> m'[k] == folded[k]
      {
        assert Merge.Look(m', k) == RecordAfter(c, g, raw, m, k) == Merge.Look(folded, k);
      }
    }
  }

  // ---------- the rebuild ----------

  method ScanEntries(c: Codec, all: seq<Entry>) returns (pairs: Option<Pairs>)
    ensures pairs == PairsIn(c, all)
  {
    var found: Pairs := [];
    for i := 0 to |all|
      invariant PairsIn(c, all[..i]) == Some(found)
    {
      assert all[..i + 1][..i] == all[..i];
      if IsEntry(all[i]) {
        match c.readEntry(all[i].rec.value.bytes)
        case None =>
          StaysNone(c, all, i + 1);
          return None;
        case Some((_, None)) =>
        case Some((k, Some(v))) => found := found + [(k, v)];
      }
    }
    assert all[..|all|] == all;
    pairs := Some(found);
  }

  lemma {:induction false} StaysNone(c: Codec, all: seq<Entry>, i: nat)
    requires i <= |all| && PairsIn(c, all[..i]) == None
    ensures PairsIn(c, all) == None
    decreases |all|
  {
    if i < |all| {
      assert all[..|all| - 1][..i] == all[..i];
      StaysNone(c, all[..|all| - 1], i);
    } else {
      assert all[..i] == all;
    }
  }

  lemma IdsUnique(g: HnswGraph.Graph, i: nat)
    requires HnswGraph.WellBuilt(g) && i < |g.ids|
    ensures |g.ids| == |g.nodes| && g.ids[i] in g.at && g.at[g.ids[i]] == i
  {
    assert g.ids[i] in g.ids;
  }

  lemma AllIds(g: HnswGraph.Graph)
    requires HnswGraph.WellBuilt(g)
    ensures |g.ids| == |g.nodes| && forall k :: k in g.at <==> k in g.ids
  {
  }

  /** The exported nodes as a map by id. */
  method ById(nodes: seq<(Key, Persisted)>, ghost g: HnswGraph.Graph, ghost raw: map<Key, HnswGraph.Vec>)
    returns (out: map<Key, Persisted>)
    requires HnswGraph.WellBuilt(g) && |nodes| == |g.ids| == |g.nodes|
    requires forall i | 0 <= i < |g.ids| :: nodes[i] == (g.ids[i], ExportNode(g, raw, i))
    ensures out == Exported(g, raw)
  {
    hide HnswGraph.WellBuilt, ExportNode;
    AllIds(g);
    out := map[];
    for i := 0 to |nodes|
      invariant forall k :: k in out <==> k in g.ids[..i]
      invariant forall k | k in out :: k in g.at && g.at[k] < |g.ids| && out[k] == ExportNode(g, raw, g.at[k])
    {
      IdsUnique(g, i);
      assert g.ids[..i + 1] == g.ids[..i] + [g.ids[i]];
      out := out[nodes[i].0 := nodes[i].1];
    }
    assert g.ids[..|nodes|] == g.ids;
  }

  method BuildGraph(space: Space, pairs: Pairs) returns (out: map<Key, Persisted>, meta: StoreMeta)
    ensures var g := Built(space, pairs); out == Exported(g, RawOf(pairs)) && meta == ExportMeta(g)
  {
    var raw: map<Key, HnswGraph.Vec> := map[];
    var graph := new Hnsw.Hnsw.New(space);
    hide HnswGraph.WellBuilt, HnswGraph.Inserted, ExportNode;
    for i := 0 to |pairs|
      invariant graph.space == space && graph.State() == Built(space, pairs[..i]) && raw == RawOf(pairs[..i])
    {
      assert pairs[..i + 1][..i] == pairs[..i];
      raw := raw[pairs[i].0 := pairs[i].1];
      var _ := graph.Insert(pairs[i].0, pairs[i].1);
    }
    assert pairs[..|pairs|] == pairs;
    var nodes;
    nodes, meta := graph.ExportPersisted(raw);
    AllIds(graph.State());
    out := ById(nodes, graph.State(), raw);
  }

  /** Write each node under its id's key, in key order. */
  method PutNodes(tree: BTree.Tree, c: Codec, nodes: map<Key, Persisted>)
    requires tree.Valid()
    modifies tree
    ensures tree.Valid()
    ensures forall k :: Merge.Look(tree.Model(), k)
                     == if StartsWith(k, GRAPH_NODE) && k[|GRAPH_NODE|..] in nodes
                        then Some(NodeRecord(c, nodes[k[|GRAPH_NODE|..]]))
                        else Merge.Look(old(tree.Model()), k)
  {
    hide Represents, SizesOk;
    ghost var m := tree.Model();
    var rest := nodes.Keys;
    while rest != {}
      invariant rest <= nodes.Keys && tree.Valid()
      invariant forall k :: Merge.Look(tree.Model(), k)
                         == if StartsWith(k, GRAPH_NODE) && k[|GRAPH_NODE|..] in nodes.Keys - rest
                            then Some(NodeRecord(c, nodes[k[|GRAPH_NODE|..]]))
                            else Merge.Look(m, k)
      decreases rest
    {
      HasLeast(rest);
      var id :| Least(id, rest);
      tree.Insert(GraphNodeKey(id), NodeRecord(c, nodes[id]));
      rest := rest - {id};
      forall k ensures k == GraphNodeKey(id) <==> StartsWith(k, GRAPH_NODE) && k[|GRAPH_NODE|..] == id {
        if StartsWith(k, GRAPH_NODE) { assert k == GRAPH_NODE + k[|GRAPH_NODE|..]; }
      }
    }
  }

  lemma {:induction false} PrefixedAre(s: seq<Entry>, p: Key)
    ensures forall e :: e in WithPrefix(s, p) <==> e in s && StartsWith(e.key, p)
  {
    if s != [] {
      PrefixedAre(s[1..], p);
      assert s == [s[0]] + s[1..];
    }
  }

  /** Drop everything under the buffer's prefix. */
  method ClearBuffer(tree: BTree.Tree)
    requires tree.Valid()
    modifies tree
    ensures tree.Valid()
    ensures forall k :: Merge.Look(tree.Model(), k) ==
              if StartsWith(k, BUFFER) then None else Merge.Look(old(tree.Model()), k)
  {
    hide Represents, SizesOk, ToMap, Sorted, WithPrefix;
    ghost var m := tree.Model();
    var hits := tree.ScanPrefix(BUFFER);
    BufferHits(m, hits);
    for j := 0 to |hits|
      invariant tree.Valid() && tree.Model() == m - set e | e in hits[..j] :: e.key
    {
      assert hits[..j + 1] == hits[..j] + [hits[j]];
      var _ := tree.Remove(hits[j].key);
    }
    assert hits[..|hits|] == hits;
  }

  lemma BufferHits(m: Table, hits: seq<Entry>)
    requires exists all :: Sorted(all) && ToMap(all) == m && hits == WithPrefix(all, BUFFER)
    ensures forall k | k in m :: StartsWith(k, BUFFER) <==> k in set e | e in hits :: e.key
  {
    var all: seq<Entry> :| Sorted(all) && ToMap(all) == m && hits == WithPrefix(all, BUFFER);
    PrefixedAre(all, BUFFER);
    MapListed(all);
    forall k | k in m && StartsWith(k, BUFFER) ensures k in set e | e in hits :: e.key {
      var i :| 0 <= i < |all| && all[i].key == k;
      assert all[i] in hits;
    }
  }

  /** Rebuild the graph of a branch's tree from its index entries, and clear the buffer, in one commit's pages; or
      fail on an entry that does not decode. */
  method RebuildGraph(pages: Manifest, c: Codec, space: Space, pageSize: nat, size: Sizer)
    returns (pages': Option<Manifest>, count: nat)
    requires WellFormed(pages)
    ensures var pairs := PairsIn(c, Listing(Contents(pages)));
            && (pages'.Some? <==> pairs.Some?)
            && (pages'.Some? ==>
                  && count == |pairs.value| && WellFormed(pages'.value)
                  && FoldsTo(c, Built(space, pairs.value), RawOf(pairs.value), Contents(pages), Contents(pages'.value))
                  && Contents(pages'.value) == FoldedTable(c, space, Contents(pages)))
  {
    hide Represents, SizesOk, WellFormed, ToMap, Sorted, Listing, Built, HnswGraph.WellBuilt, ExportNode;
    var tree := new BTree.Tree.Open(pages, pageSize, size);
    var all := tree.Scan();
    ListingIs(all);
    var pairs := ScanEntries(c, all);
    if pairs.None? { return None, 0; }
    count := |pairs.value|;
    var nodes, meta := BuildGraph(space, pairs.value);
    ghost var m := tree.Model();
    PutNodes(tree, c, nodes);
    tree.Insert(GRAPH_META, OfValue(Blob(c.writeMeta(meta))));
    ClearBuffer(tree);
    ghost var g, raw := Built(space, pairs.value), RawOf(pairs.value);
    forall k ensures Merge.Look(tree.Model(), k) == RecordAfter(c, g, raw, m, k) { MetaApart(k); }
    FoldedTableIs(c, space, m, tree.Model());
    var after := tree.Flush();
    pages' := Some(after);
  }

  lemma MetaApart(k: Key)
    ensures !StartsWith(GRAPH_META, GRAPH_NODE) && !StartsWith(GRAPH_META, BUFFER)
    ensures StartsWith(k, GRAPH_NODE) ==> !StartsWith(k, BUFFER)
  {
    assert GRAPH_META[11] == 109 && GRAPH_NODE[11] == 110;
  }
}
