/** The indexed half of a write, as what it does to the live index. */
module AnnWrite {
  import opened Bytes
  import opened Records
  import opened Keyspace
  import opened Listings
  import HnswGraph
  import opened LiveIndex
  import opened AnnFold
  import opened AnnSearch
  import opened WriteExtras

  /** Keys of entries, buffered vectors and nodes are three apart families. */
  lemma FamiliesApart(a: Key, b: Key)
    ensures IndexKey(a) == IndexKey(b) <==> a == b
    ensures BufferKey(a) == BufferKey(b) <==> a == b
    ensures IndexKey(a) != BufferKey(b) && IndexKey(a) != GraphNodeKey(b) && BufferKey(a) != GraphNodeKey(b)
  {
    ConcatInjective(INDEX, a, b);
    ConcatInjective(BUFFER, a, b);
    BuilderRegions(a, [], 0);
    BuilderRegions(b, [], 0);
    NodeKeyParts(b);
    IndexRegions(GraphNodeKey(b));
  }

  /** One hint's entry and vector change its own record's, and nothing else of the index. */
  lemma HintAt(c: Codec, m: Table, k: Key, v: Option<HnswGraph.Vec>, id: Key)
    requires Decodes(c)
    ensures var m' := PutHint(c, m, k, v);
            && EntryAt(c, m', id) == (if id == k then Some(v) else EntryAt(c, m, id))
            && BufferedAt(c, m', id) == (if id == k && v.Some? then v else BufferedAt(c, m, id))
            && NodeAt(c, m', id) == NodeAt(c, m, id)
            && (id != k ==> BlobAt(m', IndexKey(id)) == BlobAt(m, IndexKey(id)))
            && (id != k || v.None? ==> BlobAt(m', BufferKey(id)) == BlobAt(m, BufferKey(id)))
            && BlobAt(m', IndexKey(k)) == Some(c.writeEntry(k, v))
            && (v.Some? ==> BlobAt(m', BufferKey(k)) == Some(c.writeVec(v.value)))
  {
    FamiliesApart(k, id);
    FamiliesApart(id, k);
    FamiliesApart(k, k);
    hide IndexKey, BufferKey, GraphNodeKey;
    assert c.readEntry(c.writeEntry(k, v)) == Some((k, v));
    if v.Some? { assert c.readVec(c.writeVec(v.value)) == v; }
  }

  lemma BuffersAre(c: Codec, m: Table, members: set<Key>, id: Key)
    ensures var i := IndexOf(c, m, members);
            (id in i.buffer <==> BufferedAt(c, m, id).Some?)
              && (id in i.buffer ==> i.buffer[id] == BufferedAt(c, m, id).value)
  {
    UnderIs(m, BUFFER, id);
  }

  lemma OneSound(c: Codec, m: Table, k: Key, v: Option<HnswGraph.Vec>)
    requires Decodes(c) && IndexSound(c, m)
    ensures IndexSound(c, PutHint(c, m, k, v))
  {
    assert c.readEntry(c.writeEntry(k, v)) == Some((k, v));
    assert v.Some? ==> c.readVec(c.writeVec(v.value)) == v;
    var m' := PutHint(c, m, k, v);
    forall id
      ensures BlobAt(m', IndexKey(id)).Some? ==>
                c.readEntry(BlobAt(m', IndexKey(id)).value).Some?
                  && c.readEntry(BlobAt(m', IndexKey(id)).value).value.0 == id
      ensures BlobAt(m', BufferKey(id)).Some? ==> c.readVec(BlobAt(m', BufferKey(id)).value).Some?
    {
      HintAt(c, m, k, v, id);
      hide IndexKey, BufferKey, EntryRecord, VecRecord, PutHint, BlobAt;
    }
  }

  lemma HintedAt(c: Codec, m: Table, members: set<Key>, k: Key, v: Option<HnswGraph.Vec>, id: Key)
    requires Decodes(c)
    ensures var (i, i') := (IndexOf(c, m, members), IndexOf(c, PutHint(c, m, k, v), members));
            && (id in i'.entries <==> id in i.entries || id == k)
            && (id in i'.entries ==> i'.entries[id] == if id == k then v else i.entries[id])
            && (id in i'.buffer <==> id in i.buffer || (id == k && v.Some?))
            && (id in i'.buffer ==> Some(i'.buffer[id]) == if id == k && v.Some? then v else Some(i.buffer[id]))
            && (id in i'.nodes <==> id in i.nodes) && (id in i'.nodes ==> i'.nodes[id] == i.nodes[id])
  {
    var m' := PutHint(c, m, k, v);
    HintAt(c, m, k, v, id);
    hide IndexKey, BufferKey, EntryRecord, VecRecord, EntryAt, BufferedAt, NodeAt, BlobAt, IndexOf, PutHint;
    EntriesAre(c, m, members, id);
    EntriesAre(c, m', members, id);
    BuffersAre(c, m, members, id);
    BuffersAre(c, m', members, id);
    NodesAre(c, m, members, id);
    NodesAre(c, m', members, id);
  }

  lemma OneHinted(c: Codec, m: Table, members: set<Key>, k: Key, v: Option<HnswGraph.Vec>)
    requires Decodes(c)
    ensures var (i, i') := (IndexOf(c, m, members), IndexOf(c, PutHint(c, m, k, v), members));
            i' == i.(entries := i.entries[k := v], buffer := if v.Some? then i.buffer[k := v.value] else i.buffer)
  {
    var (i, i') := (IndexOf(c, m, members), IndexOf(c, PutHint(c, m, k, v), members));
    SameMembers(c, m, PutHint(c, m, k, v), members);
    hide IndexOf, PutHint;
    forall id
      ensures id in i'.entries <==> id in i.entries[k := v]
      ensures id in i'.entries ==> i'.entries[id] == i.entries[k := v][id]
      ensures var buffer := if v.Some? then i.buffer[k := v.value] else i.buffer;
              (id in i'.buffer <==> id in buffer) && (id in buffer ==> i'.buffer[id] == buffer[id])
      ensures (id in i'.nodes <==> id in i.nodes) && (id in i.nodes ==> i'.nodes[id] == i.nodes[id])
    {
      HintedAt(c, m, members, k, v, id);
    }
    assert i'.entries == i.entries[k := v];
    assert i'.buffer == if v.Some? then i.buffer[k := v.value] else i.buffer;
    assert i'.nodes == i.nodes;
  }

  lemma SameMembers(c: Codec, m: Table, m': Table, members: set<Key>)
    ensures IndexOf(c, m, members).members == IndexOf(c, m', members).members == members
  {
  }

  /** **An indexed write on the tree is one on the live index it stands for.** */
  lemma {:induction false} HintsIndexed(c: Codec, m: Table, members: set<Key>, hints: Hints)
    requires Decodes(c) && IndexSound(c, m)
    ensures IndexSound(c, PutHints(c, m, hints))
    ensures IndexOf(c, PutHints(c, m, hints), members) == Hinted(IndexOf(c, m, members), hints)
  {
    hide IndexOf, IndexSound, PutHint;
    if hints != [] {
      var (k, v) := hints[|hints| - 1];
      HintsIndexed(c, m, members, hints[..|hints| - 1]);
      OneSound(c, PutHints(c, m, hints[..|hints| - 1]), k, v);
      OneHinted(c, PutHints(c, m, hints[..|hints| - 1]), members, k, v);
    }
  }
}
