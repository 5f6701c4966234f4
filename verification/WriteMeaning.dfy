/** What a write must leave in its branch's tree: its records, a derivation node for each, its index entries, and its
    claims' versions; told without saying how they are put there. */
module WriteMeaning {
  import opened Bytes
  import opened Records
  import opened Keyspace
  import opened Merge
  import opened Refs
  import opened Repo
  import opened RepoGraph
  import opened RepoProvenance
  import opened RepoHistory
  import opened LiveIndex
  import opened AnnSearch
  import opened AnnWrite
  import opened LiveTree
  import opened WriteExtras
  import HnswGraph
  import AnnFold

  /** The last record of a batch under a key. */
  ghost predicate Last(kvs: seq<(Key, Record)>, k: Key, i: int) {
    0 <= i < |kvs| && kvs[i].0 == k && forall j | i < j < |kvs| :: kvs[j].0 != k
  }

  // ---------- records ----------

  /** Under a caller's key: the batch's last record there, or what was there. */
  ghost predicate RecordsRight(m: Tree, m': Tree, kvs: seq<(Key, Record)>) {
    forall k | IsCaller(k) ::
      && (forall i | Last(kvs, k, i) :: Look(m', k) == Some(kvs[i].1))
      && ((forall i | 0 <= i < |kvs| :: kvs[i].0 != k) ==> Look(m', k) == Look(m, k))
  }

  lemma {:induction false} PutAllLast(m: Tree, kvs: seq<(Key, Record)>, k: Key, i: int)
    requires Last(kvs, k, i)
    ensures Look(PutAll(m, kvs), k) == Some(kvs[i].1)
  {
    if i < |kvs| - 1 {
      assert kvs[|kvs| - 1].0 != k;
      PutAllLast(m, kvs[..|kvs| - 1], k, i);
    }
  }

  lemma WriteRecords(m: Tree, b: Name, kvs: seq<(Key, Record)>, x: Extras)
    ensures RecordsRight(m, Written(m, b, kvs, x), kvs)
  {
    hide Written, PutAll;
    forall k | IsCaller(k)
      ensures forall i | Last(kvs, k, i) :: Look(Written(m, b, kvs, x), k) == Some(kvs[i].1)
      ensures (forall i | 0 <= i < |kvs| :: kvs[i].0 != k) ==> Look(Written(m, b, kvs, x), k) == Look(m, k)
    {
      WrittenElsewhere(m, b, kvs, x, k);
      forall i | Last(kvs, k, i) ensures Look(PutAll(m, kvs), k) == Some(kvs[i].1) { PutAllLast(m, kvs, k, i); }
      if forall i | 0 <= i < |kvs| :: kvs[i].0 != k { PutAllElsewhere(m, kvs, k); }
    }
  }

  // ---------- derivation nodes ----------

  /** A node is stored under its number, and found under each of its sources. */
  ghost predicate NodeFound(m: Tree, b: Name, n: nat, body: NodeBody) {
    && Look(m, NodeKey(b, n)) == Some(OfValue(Blob(body.blob)))
    && forall source | source in body.sources :: Look(m, SourceKey(source, b, n)) == Some(OfValue(Blob(body.id)))
  }

  /** The node of record i is found by number, by source, and as its key's latest. */
  ghost predicate NodeFoundAt(m: Tree, b: Name, n: nat, kvs: seq<(Key, Record)>, describe: Describe, i: nat)
    requires i < |kvs|
  {
    var (k, body) := (kvs[i].0, describe(kvs[i].0, kvs[i].1));
    && NodeFound(m, b, n + NodeCount(kvs[..i]), body)
    && (Last(kvs, k, i) ==> Look(m, LatestNodeKey(k)) == Some(OfValue(Blob(body.id))))
  }

  ghost predicate NodesFound(m: Tree, b: Name, n: nat, kvs: seq<(Key, Record)>, describe: Describe) {
    forall i | 0 <= i < |kvs| && !IsProvenance(kvs[i].0) :: NodeFoundAt(m, b, n, kvs, describe, i)
  }

  /** With a caller's record among them, every record gets a node, numbered on from the branch's counter. */
  ghost predicate NodesRight(m: Tree, m': Tree, b: Name, kvs: seq<(Key, Record)>, describe: Describe) {
    AnyCaller(kvs) && (forall i | 0 <= i < |kvs| :: RegionOf(kvs[i].0) != ProvSeq)
    && NextSeq(m, b) + NodeCount(kvs) < MAX_SEQ ==>
      NextSeq(m', b) == NextSeq(m, b) + NodeCount(kvs) && NodesFound(m', b, NextSeq(m, b), kvs, describe)
  }

  lemma SourceKeysApart(s: Key, s': Key, b: Name, i: nat, j: nat)
    requires i < MAX_SEQ && j < MAX_SEQ && SourceKey(s, b, i) == SourceKey(s', b, j)
    ensures i == j
  {
    MaxSeq();
    var (x, y) := (SourceKey(s, b, i), SourceKey(s', b, j));
    assert x[|x| - 8..] == ToBe(i, 8) && y[|y| - 8..] == ToBe(j, 8);
    BeOrder(i, j, 8);
  }

  lemma {:induction false} SourcesLand(m: Tree, b: Name, n: nat, sources: seq<Key>, id: Key, source: Key, i: nat)
    requires n < MAX_SEQ && i < MAX_SEQ
    ensures Look(PutSources(m, b, n, sources, id), SourceKey(source, b, i))
            == if i == n && source in sources then Some(OfValue(Blob(id))) else Look(m, SourceKey(source, b, i))
  {
    hide SourceKey;
    if sources != [] {
      var (init, last) := (sources[..|sources| - 1], sources[|sources| - 1]);
      assert sources == init + [last];
      SourcesLand(m, b, n, init, id, source, i);
      if SourceKey(last, b, n) == SourceKey(source, b, i) {
        SourceKeysApart(last, source, b, n, i);
        SameSource(last, source, b, n);
      }
    }
  }

  lemma SameSource(s: Key, s': Key, b: Name, n: nat)
    requires SourceKey(s, b, n) == SourceKey(s', b, n)
    ensures s == s'
  {
    var (x, y, t) := (SourceKey(s, b, n), SourceKey(s', b, n), [47] + BranchSeq(b, n));
    assert x == SRC + s + t && y == SRC + s' + t;
    assert x[|SRC|..|x| - |t|] == s && y[|SRC|..|y| - |t|] == s';
  }

  /** A node just put is found, and one of another number is as it was. */
  lemma PutNodeFound(m: Tree, b: Name, n: nat, k: Key, body: NodeBody, i: nat, other: NodeBody)
    requires n < MAX_SEQ && i < MAX_SEQ
    ensures NodeFound(PutNode(m, b, n, k, body), b, n, body)
    ensures i != n && NodeFound(m, b, i, other) ==> NodeFound(PutNode(m, b, n, k, body), b, i, other)
  {
    hide NodeKey, LatestNodeKey, SourceKey, RegionOf;
    NodeLands(m, b, n, k, body, b, n);
    NodeLands(m, b, n, k, body, b, i);
    var m1 := m[NodeKey(b, n) := OfValue(Blob(body.blob))][LatestNodeKey(k) := OfValue(Blob(body.id))];
    forall source ensures Look(m1, SourceKey(source, b, i)) == Look(m, SourceKey(source, b, i)) {
      BuilderRegions(b, source, i);
      BuilderRegions(b, source, n);
      BuilderRegions(k, source, n);
    }
    forall source
      ensures source in body.sources ==>
                Look(PutNode(m, b, n, k, body), SourceKey(source, b, n)) == Some(OfValue(Blob(body.id)))
      ensures i != n ==>
                Look(PutNode(m, b, n, k, body), SourceKey(source, b, i)) == Look(m, SourceKey(source, b, i))
    {
      SourcesLand(m1, b, n, body.sources, body.id, source, n);
      SourcesLand(m1, b, n, body.sources, body.id, source, i);
    }
  }

  lemma PutNodeLatest(m: Tree, b: Name, n: nat, k: Key, body: NodeBody, k': Key)
    ensures Look(PutNode(m, b, n, k, body), LatestNodeKey(k'))
            == if k' == k then Some(OfValue(Blob(body.id))) else Look(m, LatestNodeKey(k'))
  {
    hide NodeKey, SourceKey, RegionOf;
    BuilderRegions(k', [], n);
    BuilderRegions(b, [], n);
    ConcatInjective(LATEST, k, k');
    assert LatestNodeKey(k) == LatestNodeKey(k') <==> k == k';
    BuilderRegions(k, [], n);
    hide LatestNodeKey;
    PutSourcesElsewhere(m[NodeKey(b, n) := OfValue(Blob(body.blob))][LatestNodeKey(k) := OfValue(Blob(body.id))],
                        b, n, body.sources, body.id, LatestNodeKey(k'));
  }

  lemma {:induction false} CountGrows(kvs: seq<(Key, Record)>, i: nat)
    requires i < |kvs| && !IsProvenance(kvs[i].0)
    ensures NodeCount(kvs[..i]) < NodeCount(kvs)
  {
    hide IsProvenance;
    if i < |kvs| - 1 {
      assert kvs[..|kvs| - 1][..i] == kvs[..i];
      CountGrows(kvs[..|kvs| - 1], i);
    }
  }

  lemma LastBefore(kvs: seq<(Key, Record)>, i: nat)
    requires i < |kvs| - 1 && Last(kvs, kvs[i].0, i)
    ensures Last(kvs[..|kvs| - 1], kvs[i].0, i) && kvs[|kvs| - 1].0 != kvs[i].0
  {
  }

  lemma PutNodesStep(m: Tree, b: Name, n: nat, kvs: seq<(Key, Record)>, describe: Describe)
    requires kvs != []
    ensures var (init, kv) := (kvs[..|kvs| - 1], kvs[|kvs| - 1]);
            var before := PutNodes(m, b, n, init, describe);
            && PutNodes(m, b, n, kvs, describe)
               == (if IsProvenance(kv.0) then before
                   else PutNode(before, b, n + NodeCount(init), kv.0, describe(kv.0, kv.1)))
            && NodeCount(kvs) == NodeCount(init) + if IsProvenance(kv.0) then 0 else 1
  {
  }

  lemma StillThere(m: Tree, m': Tree, b: Name, n: nat, k: Key, body: NodeBody, i: nat, it: NodeBody, key: Key)
    requires m' == m || (n < MAX_SEQ && m' == PutNode(m, b, n, k, body))
    requires i < n && i < MAX_SEQ && NodeFound(m, b, i, it)
    ensures NodeFound(m', b, i, it) && (key != k ==> Look(m', LatestNodeKey(key)) == Look(m, LatestNodeKey(key)))
  {
    hide PutNode, NodeFound, LatestNodeKey, Look;
    if m' != m {
      PutNodeFound(m, b, n, k, body, i, it);
      PutNodeLatest(m, b, n, k, body, key);
    }
  }

  /** One more node disturbs none of those before it. */
  lemma FoundStill(m: Tree, b: Name, n: nat, kvs: seq<(Key, Record)>, describe: Describe, i: nat)
    requires i < |kvs| - 1 && !IsProvenance(kvs[i].0) && n + NodeCount(kvs) <= MAX_SEQ
    requires NodeFoundAt(PutNodes(m, b, n, kvs[..|kvs| - 1], describe), b, n, kvs[..|kvs| - 1], describe, i)
    ensures NodeFoundAt(PutNodes(m, b, n, kvs, describe), b, n, kvs, describe, i)
  {
    hide NodeKey, SourceKey, LatestNodeKey, PutNode, PutNodes, NodeCount, NodeFound, Look, Last, IsProvenance;
    PutNodesStep(m, b, n, kvs, describe);
    var (init, kv) := (kvs[..|kvs| - 1], kvs[|kvs| - 1]);
    assert init[..i] == kvs[..i] && init[i] == kvs[i];
    CountGrows(init, i);
    var (before, n', it) := (PutNodes(m, b, n, init, describe), n + NodeCount(init), describe(kvs[i].0, kvs[i].1));
    var at := n + NodeCount(kvs[..i]);
    StillThere(before, PutNodes(m, b, n, kvs, describe), b, n', kv.0, describe(kv.0, kv.1), at, it, kvs[i].0);
    if Last(kvs, kvs[i].0, i) { LastBefore(kvs, i); }
  }

  lemma FoundNow(m: Tree, b: Name, n: nat, kvs: seq<(Key, Record)>, describe: Describe)
    requires kvs != [] && !IsProvenance(kvs[|kvs| - 1].0) && n + NodeCount(kvs) <= MAX_SEQ
    ensures NodeFoundAt(PutNodes(m, b, n, kvs, describe), b, n, kvs, describe, |kvs| - 1)
  {
    hide NodeKey, SourceKey, LatestNodeKey, PutNode, PutNodes, NodeCount, NodeFound, Look, Last;
    PutNodesStep(m, b, n, kvs, describe);
    var (init, kv) := (kvs[..|kvs| - 1], kvs[|kvs| - 1]);
    var (before, n', body) := (PutNodes(m, b, n, init, describe), n + NodeCount(init), describe(kv.0, kv.1));
    PutNodeFound(before, b, n', kv.0, body, n', body);
    PutNodeLatest(before, b, n', kv.0, body, kv.0);
  }

  lemma {:induction false} PutNodesFound(m: Tree, b: Name, n: nat, kvs: seq<(Key, Record)>, describe: Describe)
    requires n + NodeCount(kvs) <= MAX_SEQ
    ensures NodesFound(PutNodes(m, b, n, kvs, describe), b, n, kvs, describe)
  {
    hide IsProvenance, PutNode, NodeFoundAt, PutNodes;
    if kvs != [] {
      PutNodesFound(m, b, n, kvs[..|kvs| - 1], describe);
      forall i | 0 <= i < |kvs| && !IsProvenance(kvs[i].0)
        ensures NodeFoundAt(PutNodes(m, b, n, kvs, describe), b, n, kvs, describe, i)
      {
        if i < |kvs| - 1 {
          assert kvs[..|kvs| - 1][i] == kvs[i];
          FoundStill(m, b, n, kvs, describe, i);
        } else {
          FoundNow(m, b, n, kvs, describe);
        }
      }
    }
  }

  /** Whether a node is found depends on provenance keys only. */
  ghost predicate SameProvenance(m: Tree, m': Tree) {
    forall k | RegionOf(k) in {Region.Node, Source, Latest} :: Look(m', k) == Look(m, k)
  }

  lemma FoundSameOne(m: Tree, m': Tree, b: Name, n: nat, k: Key, body: NodeBody)
    requires SameProvenance(m, m')
    ensures NodeFound(m, b, n, body) ==> NodeFound(m', b, n, body)
    ensures Look(m', LatestNodeKey(k)) == Look(m, LatestNodeKey(k))
  {
    hide NodeKey, SourceKey, LatestNodeKey, RegionOf, Look;
    BuilderRegions(k, [], n);
    BuilderRegions(b, [], n);
    forall source ensures Look(m', SourceKey(source, b, n)) == Look(m, SourceKey(source, b, n)) {
      BuilderRegions(b, source, n);
    }
  }

  lemma FoundSame(m: Tree, m': Tree, b: Name, n: nat, kvs: seq<(Key, Record)>, describe: Describe)
    requires NodesFound(m, b, n, kvs, describe) && SameProvenance(m, m')
    ensures NodesFound(m', b, n, kvs, describe)
  {
    hide NodeFound, LatestNodeKey, Look, Last, IsProvenance, SameProvenance, NodeCount;
    forall i | 0 <= i < |kvs| && !IsProvenance(kvs[i].0) ensures NodeFoundAt(m', b, n, kvs, describe, i) {
      assert NodeFoundAt(m, b, n, kvs, describe, i);
      FoundSameOne(m, m', b, n + NodeCount(kvs[..i]), kvs[i].0, describe(kvs[i].0, kvs[i].1));
    }
  }

  lemma TracedCounter(m: Tree, b: Name, kvs: seq<(Key, Record)>, describe: Describe)
    requires AnyCaller(kvs) && forall i | 0 <= i < |kvs| :: RegionOf(kvs[i].0) != ProvSeq
    requires NextSeq(m, b) + NodeCount(kvs) < MAX_SEQ
    ensures NextSeq(Traced(m, b, kvs, describe), b) == NextSeq(m, b) + NodeCount(kvs)
  {
    hide Traced, NodeCount, RegionOf, ProvSeqKey, AsI64, AsU64, AnyCaller;
    WrittenCounter(m, b, kvs, describe, b);
    CounterReads(NextSeq(m, b) + NodeCount(kvs));
  }

  /** The counter is all that provenance changes after the nodes. */
  lemma TracedAfter(m: Tree, b: Name, kvs: seq<(Key, Record)>, describe: Describe)
    requires AnyCaller(kvs) && forall i | 0 <= i < |kvs| :: RegionOf(kvs[i].0) != ProvSeq
    ensures SameProvenance(PutNodes(PutAll(m, kvs), b, NextSeq(m, b), kvs, describe), Traced(m, b, kvs, describe))
  {
    hide PutAll, PutNodes, NodeCount, RegionOf, ProvSeqKey, AsI64, AnyCaller, NextSeq;
    RecordsLeaveCounter(m, kvs, b, b);
    BuilderRegions(b, [], 0);
  }

  lemma TracedNodes(m: Tree, b: Name, kvs: seq<(Key, Record)>, describe: Describe)
    requires AnyCaller(kvs) && forall i | 0 <= i < |kvs| :: RegionOf(kvs[i].0) != ProvSeq
    requires NextSeq(m, b) + NodeCount(kvs) < MAX_SEQ
    ensures NodesFound(Traced(m, b, kvs, describe), b, NextSeq(m, b), kvs, describe)
  {
    hide PutAll, PutNodes, NodesFound, NodeCount, RegionOf, AnyCaller, SameProvenance, NextSeq, Traced;
    TracedAfter(m, b, kvs, describe);
    PutNodesFound(PutAll(m, kvs), b, NextSeq(m, b), kvs, describe);
    FoundSame(PutNodes(PutAll(m, kvs), b, NextSeq(m, b), kvs, describe), Traced(m, b, kvs, describe), b, NextSeq(m, b),
              kvs, describe);
  }

  lemma WriteNodes(m: Tree, b: Name, kvs: seq<(Key, Record)>, x: Extras)
    ensures NodesRight(m, Written(m, b, kvs, x), b, kvs, x.describe)
  {
    hide NodesFound, Traced, Written, RegionOf, NodeCount, ProvSeqKey, AnyCaller;
    if AnyCaller(kvs) && (forall i | 0 <= i < |kvs| :: RegionOf(kvs[i].0) != ProvSeq)
       && NextSeq(m, b) + NodeCount(kvs) < MAX_SEQ {
      TracedNodes(m, b, kvs, x.describe);
      TracedCounter(m, b, kvs, x.describe);
      var (traced, m') := (Traced(m, b, kvs, x.describe), Written(m, b, kvs, x));
      forall k | RegionOf(k) !in {Region.Index, Buffer, History} ensures Look(m', k) == Look(traced, k) {
        ExtrasElsewhere(m, b, kvs, x, k);
      }
      BuilderRegions(b, [], 0);
      SameCounter(traced, m', b);
      FoundSame(traced, m', b, NextSeq(m, b), kvs, x.describe);
    }
  }

  // ---------- the index ----------

  /** A record that says where it comes from: an observation, or a claim with evidence. */
  predicate SaysWhence(rec: Record) { rec.OfObservation? || (rec.OfClaim? && |rec.claim.evidence| > 0) }

  /** What the batch has to index under a key: the entry wanted there, if one of its records there says whence. */
  ghost function Entry(kvs: seq<(Key, Record)>, wanted: HintMap, k: Key): Option<Option<HnswGraph.Vec>> {
    if k in wanted && exists i :: 0 <= i < |kvs| && kvs[i].0 == k && SaysWhence(kvs[i].1) then Some(wanted[k]) else None
  }

  /** An entry's vector. */
  function VectorOf(entry: Option<Option<HnswGraph.Vec>>): Option<HnswGraph.Vec> {
    if entry.Some? then entry.value else None
  }

  function Or<T>(a: Option<T>, b: Option<T>): Option<T> { if a.Some? then a else b }

  /** What a write leaves of the live index: the entry wanted of each record that can be cited, and its vector buffered
      if it has one; everything else of entries and buffer as it was. */
  ghost predicate IndexRight(m: Tree, m': Tree, kvs: seq<(Key, Record)>, x: Extras) {
    AnnFold.Decodes(x.entries) && IndexSound(x.entries, m) && BesideIndex(kvs) ==>
      && IndexSound(x.entries, m')
      && forall k ::
        var entry := Entry(kvs, x.hints, k);
        && EntryAt(x.entries, m', k) == Or(entry, EntryAt(x.entries, m, k))
        && BufferedAt(x.entries, m', k) == Or(VectorOf(entry), BufferedAt(x.entries, m, k))
  }

  function At<T>(m: map<Key, T>, k: Key): Option<T> { if k in m then Some(m[k]) else None }

  lemma EntryMore(kvs: seq<(Key, Record)>, wanted: HintMap, k: Key)
    requires kvs != []
    ensures var (init, kv) := (kvs[..|kvs| - 1], kvs[|kvs| - 1]);
            Entry(kvs, wanted, k)
            == if kv.0 == k && k in wanted && SaysWhence(kv.1) then Some(wanted[k]) else Entry(init, wanted, k)
  {
    var (init, kv) := (kvs[..|kvs| - 1], kvs[|kvs| - 1]);
    assert kvs[|kvs| - 1] == kv && forall j | 0 <= j < |init| :: init[j] == kvs[j];
  }

  lemma HintedStep(i: Index, kvs: seq<(Key, Record)>, wanted: HintMap)
    requires kvs != []
    ensures var (init, kv) := (kvs[..|kvs| - 1], kvs[|kvs| - 1]);
            var (before, after) := (Hinted(i, HintsOf(init, wanted)), Hinted(i, HintsOf(kvs, wanted)));
            after == if kv.0 in wanted && SaysWhence(kv.1)
                     then before.(entries := before.entries[kv.0 := wanted[kv.0]],
                                  buffer := if wanted[kv.0].Some? then before.buffer[kv.0 := wanted[kv.0].value]
                                            else before.buffer)
                     else before
  {
    var (init, kv, hints) := (kvs[..|kvs| - 1], kvs[|kvs| - 1], HintsOf(kvs, wanted));
    if kv.0 in wanted && Cites(kv.1) { assert hints[..|hints| - 1] == HintsOf(init, wanted); }
  }

  lemma {:induction false} HintedIs(i: Index, kvs: seq<(Key, Record)>, wanted: HintMap, k: Key)
    ensures var (i', entry) := (Hinted(i, HintsOf(kvs, wanted)), Entry(kvs, wanted, k));
            At(i'.entries, k) == Or(entry, At(i.entries, k)) && At(i'.buffer, k) == Or(VectorOf(entry), At(i.buffer, k))
  {
    if kvs != [] {
      var (init, kv) := (kvs[..|kvs| - 1], kvs[|kvs| - 1]);
      HintedIs(i, init, wanted, k);
      EntryMore(kvs, wanted, k);
      HintedStep(i, kvs, wanted);
      hide Entry, Hinted, HintsOf, SaysWhence;
    }
  }

  lemma EntryFromIndex(c: AnnFold.Codec, m: Tree, k: Key)
    ensures var i := IndexOf(c, m, {});
            EntryAt(c, m, k) == At(i.entries, k) && BufferedAt(c, m, k) == At(i.buffer, k)
  {
    EntriesAre(c, m, {}, k);
    BuffersAre(c, m, {}, k);
    hide IndexOf, EntryAt, BufferedAt;
  }

  lemma WriteIndex(m: Tree, b: Name, kvs: seq<(Key, Record)>, x: Extras)
    ensures IndexRight(m, Written(m, b, kvs, x), kvs, x)
  {
    hide Written, IndexOf, EntryAt, BufferedAt, IndexSound, AnnFold.Decodes, BesideIndex, Entry, Hinted, HintsOf, At;
    if AnnFold.Decodes(x.entries) && IndexSound(x.entries, m) && BesideIndex(kvs) {
      var m' := Written(m, b, kvs, x);
      WriteIndexed(m, b, kvs, x, {});
      forall k
        ensures var entry := Entry(kvs, x.hints, k);
                && EntryAt(x.entries, m', k) == Or(entry, EntryAt(x.entries, m, k))
                && BufferedAt(x.entries, m', k) == Or(VectorOf(entry), BufferedAt(x.entries, m, k))
      {
        EntryFromIndex(x.entries, m, k);
        EntryFromIndex(x.entries, m', k);
        HintedIs(IndexOf(x.entries, m, {}), kvs, x.hints, k);
      }
    }
  }

  /** A hinted observation with an embedding can be searched as soon as it is written, and so can a hinted claim with
      evidence. */
  lemma WrittenIsVisible(m: Tree, b: Name, kvs: seq<(Key, Record)>, x: Extras, members: set<Key>, i: nat)
    requires AnnFold.Decodes(x.entries) && IndexSound(x.entries, m) && BesideIndex(kvs)
    requires i < |kvs| && SaysWhence(kvs[i].1) && kvs[i].0 in x.hints && x.hints[kvs[i].0].Some?
    ensures var (live, k) := (IndexOf(x.entries, Written(m, b, kvs, x), members), kvs[i].0);
            Embedded(live, k) && Visible(live, k) == x.hints[k]
  {
    var (m', k) := (Written(m, b, kvs, x), kvs[i].0);
    assert Entry(kvs, x.hints, k) == Some(x.hints[k]);
    hide Written, IndexOf, EntryAt, BufferedAt, IndexSound, AnnFold.Decodes, BesideIndex, Entry;
    WriteIndex(m, b, kvs, x);
    EntriesAre(x.entries, m', members, k);
    BuffersAre(x.entries, m', members, k);
  }

  // ---------- all of it ----------

  /** **What a write leaves**: its records, their nodes, their index entries, and a version of each claim. */
  ghost predicate WriteRight(m: Tree, m': Tree, b: Name, kvs: seq<(Key, Record)>, x: Extras) {
    && RecordsRight(m, m', kvs) && NodesRight(m, m', b, kvs, x.describe) && IndexRight(m, m', kvs, x)
    && HistoriesAsserted(m, m', kvs, x.versions)
  }

  lemma WrittenIsRight(m: Tree, b: Name, kvs: seq<(Key, Record)>, x: Extras)
    ensures WriteRight(m, Written(m, b, kvs, x), b, kvs, x)
  {
    hide Written, RecordsRight, NodesRight, IndexRight, HistoriesAsserted;
    WriteRecords(m, b, kvs, x);
    WriteNodes(m, b, kvs, x);
    WriteIndex(m, b, kvs, x);
    WriteAssertsAll(m, b, kvs, x);
  }
}
