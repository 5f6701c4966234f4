/** Append-ordered provenance: a derivation node's key is written with one value, once, in every run without
    a rewind; so provenance merges without ever conflicting. */
module RepoProvenance {
  import opened Bytes
  import opened Records
  import opened Keyspace
  import opened KeyOrder
  import opened MergeRules
  import opened Merge
  import opened Refs
  import opened CommitDag
  import opened Repo
  import opened RepoGraph
  import opened RepoOrder

  /** Every node each branch ever appended, in sequence order. */
  type Ledger = map<Name, seq<Record>>

  function Of(l: Ledger, b: Name): seq<Record> { if b in l then l[b] else [] }

  ghost predicate Bounded(l: Ledger) { forall b :: |Of(l, b)| < MAX_SEQ }

  /** The nodes a batch appends. */
  function NodesOf(kvs: seq<(Key, Record)>, describe: Describe): (s: seq<Record>)
    ensures |s| == NodeCount(kvs)
  {
    if kvs == [] then []
    else
      var (init, kv) := (kvs[..|kvs| - 1], kvs[|kvs| - 1]);
      NodesOf(init, describe) + if IsProvenance(kv.0) then [] else [OfValue(Blob(describe(kv.0, kv.1).blob))]
  }

  function AfterBatch(l: Ledger, b: Name, kvs: seq<(Key, Record)>, describe: Describe): Ledger {
    if AnyCaller(kvs) then l[b := Of(l, b) + NodesOf(kvs, describe)] else l
  }

  ghost function LedgerAfter(r: Repo, ids: IdBytes, l: Ledger, e: Event): Ledger
    requires Sound(r) && Allowed(r, e)
  {
    match e
    case Write(b, kvs, extras, _) => AfterBatch(l, b, kvs, extras.describe)
    case MergeInto(_, t, _, _, extras, _) =>
      var writes := MergeWrites(r, ids, e);
      if writes.Some? then AfterBatch(l, t, writes.value, extras.describe) else l
    case _ => l
  }

  // ---------- node keys through a write ----------

  /** Every node key of a tree holds the ledger's value. */
  ghost predicate Follows(m: Tree, l: Ledger) {
    forall b, i: nat | i < MAX_SEQ && NodeKey(b, i) in m :: i < |Of(l, b)| && m[NodeKey(b, i)] == Of(l, b)[i]
  }

  lemma NodeLands(m: Tree, b: Name, n: nat, key: Key, body: NodeBody, b': Name, i: nat)
    requires n < MAX_SEQ && i < MAX_SEQ
    ensures Look(PutNode(m, b, n, key, body), NodeKey(b', i))
            == if b' == b && i == n then Some(OfValue(Blob(body.blob))) else Look(m, NodeKey(b', i))
  {
    hide RegionOf, IsReserved, IsProvenance, NodeKey, LatestNodeKey;
    BuilderRegions(b', [], i);
    BuilderRegions(key, [], i);
    MaxSeq();
    NodeKeyInjective(b, n, b', i);
    PutSourcesElsewhere(m[NodeKey(b, n) := OfValue(Blob(body.blob))][LatestNodeKey(key) := OfValue(Blob(body.id))],
                        b, n, body.sources, body.id, NodeKey(b', i));
  }

  /** A batch lands at its own sequence numbers and nowhere else. */
  lemma {:induction false} NodesLand(m: Tree, b: Name, n: nat, kvs: seq<(Key, Record)>, describe: Describe,
                                     b': Name, i: nat)
    requires n + NodeCount(kvs) <= MAX_SEQ && i < MAX_SEQ
    ensures Look(PutNodes(m, b, n, kvs, describe), NodeKey(b', i))
            == if b' == b && n <= i < n + NodeCount(kvs) then Some(NodesOf(kvs, describe)[i - n])
               else Look(m, NodeKey(b', i))
  {
    hide IsProvenance, NodeKey, PutNode, Look;
    if kvs != [] {
      var init, kv := kvs[..|kvs| - 1], kvs[|kvs| - 1];
      NodesLand(m, b, n, init, describe, b', i);
      if !IsProvenance(kv.0) {
        NodeLands(PutNodes(m, b, n, init, describe), b, n + NodeCount(init), kv.0, describe(kv.0, kv.1), b', i);
      }
    }
  }

  lemma CounterApart(m: Tree, b: Name, kvs: seq<(Key, Record)>, describe: Describe, b': Name, i: nat)
    requires AnyCaller(kvs)
    ensures Look(Traced(m, b, kvs, describe), NodeKey(b', i))
            == Look(PutNodes(PutAll(m, kvs), b, NextSeq(PutAll(m, kvs), b), kvs, describe), NodeKey(b', i))
  {
    hide PutAll, PutNodes, NodeCount, NodeKey, ProvSeqKey, NextSeq, RegionOf, AnyCaller;
    BuilderRegions(b', [], i);
    BuilderRegions(b, [], i);
  }

  lemma WrittenFollows(m: Tree, b: Name, kvs: seq<(Key, Record)>, describe: Describe, l: Ledger)
    requires Follows(PutAll(m, kvs), l) && NextSeq(PutAll(m, kvs), b) == |Of(l, b)|
    requires |Of(AfterBatch(l, b, kvs, describe), b)| <= MAX_SEQ
    ensures Follows(Traced(m, b, kvs, describe), AfterBatch(l, b, kvs, describe))
  {
    hide PutAll, NodesOf, PutNodes, NodeCount, NodeKey, NextSeq, Traced, AfterBatch;
    var w, l' := Traced(m, b, kvs, describe), AfterBatch(l, b, kvs, describe);
    forall b', i: nat | i < MAX_SEQ && NodeKey(b', i) in w
      ensures i < |Of(l', b')| && w[NodeKey(b', i)] == Of(l', b')[i]
    {
      WrittenNode(m, b, kvs, describe, l, b', i);
    }
  }

  /** One node key after a batch: the batch's node at its sequence number, or what the ledger had. */
  lemma WrittenNode(m: Tree, b: Name, kvs: seq<(Key, Record)>, describe: Describe, l: Ledger, b': Name, i: nat)
    requires Follows(PutAll(m, kvs), l) && NextSeq(PutAll(m, kvs), b) == |Of(l, b)| && i < MAX_SEQ
    requires |Of(AfterBatch(l, b, kvs, describe), b)| <= MAX_SEQ
    ensures var (w, l') := (Traced(m, b, kvs, describe), AfterBatch(l, b, kvs, describe));
            NodeKey(b', i) in w ==> i < |Of(l', b')| && w[NodeKey(b', i)] == Of(l', b')[i]
  {
    hide PutAll, NodesOf, PutNodes, NodeCount, NodeKey, NextSeq, IsCaller;
    if AnyCaller(kvs) {
      CounterApart(m, b, kvs, describe, b', i);
      hide Traced;
      NodesLand(PutAll(m, kvs), b, NextSeq(PutAll(m, kvs), b), kvs, describe, b', i);
    }
  }

  lemma CounterReads(n: nat)
    requires n < MAX_SEQ
    ensures AsU64(AsI64(n)) == n
  {
  }

  /** The branch's counter moves past what it appended; no other branch's counter moves. */
  lemma WrittenCounter(m: Tree, b: Name, kvs: seq<(Key, Record)>, describe: Describe, b': Name)
    requires forall i | 0 <= i < |kvs| :: RegionOf(kvs[i].0) != ProvSeq
    ensures var n := NextSeq(m, b) + NodeCount(kvs);
            Look(Traced(m, b, kvs, describe), ProvSeqKey(b'))
            == if b' == b && AnyCaller(kvs) then Some(OfValue(Counter(AsI64(n)))) else Look(m, ProvSeqKey(b'))
  {
    hide PutAll, PutNodes, ProvSeqKey, NodeCount, RegionOf, AsI64, AsU64, AnyCaller, NextSeq, Look;
    NodesLeaveCounter(PutAll(m, kvs), b, kvs, describe, b');
    RecordsLeaveCounter(m, kvs, b, b');
    WrittenCounterCases(m, b, kvs, describe, b');
  }

  lemma NodesLeaveCounter(m: Tree, b: Name, kvs: seq<(Key, Record)>, describe: Describe, b': Name)
    ensures Look(PutNodes(m, b, NextSeq(m, b), kvs, describe), ProvSeqKey(b')) == Look(m, ProvSeqKey(b'))
  {
    BuilderRegions(b', [], 0);
    PutNodesElsewhere(m, b, NextSeq(m, b), kvs, describe, ProvSeqKey(b'));
  }

  lemma RecordsLeaveCounter(m: Tree, kvs: seq<(Key, Record)>, b: Name, b': Name)
    requires forall i | 0 <= i < |kvs| :: RegionOf(kvs[i].0) != ProvSeq
    ensures Look(PutAll(m, kvs), ProvSeqKey(b')) == Look(m, ProvSeqKey(b'))
    ensures NextSeq(PutAll(m, kvs), b) == NextSeq(m, b)
    ensures ProvSeqKey(b') == ProvSeqKey(b) <==> b' == b
  {
    CounterKeys(m, kvs, b, b');
    CounterKeys(m, kvs, b', b);
    SameCounter(PutAll(m, kvs), m, b);
  }

  lemma WrittenCounterCases(m: Tree, b: Name, kvs: seq<(Key, Record)>, describe: Describe, b': Name)
    ensures var m' := PutAll(m, kvs); var n := NextSeq(m', b);
            Look(Traced(m, b, kvs, describe), ProvSeqKey(b'))
            == if !AnyCaller(kvs) then Look(m', ProvSeqKey(b'))
               else if ProvSeqKey(b') == ProvSeqKey(b) then Some(OfValue(Counter(AsI64(n + NodeCount(kvs)))))
               else Look(PutNodes(m', b, n, kvs, describe), ProvSeqKey(b'))
  {
  }

  lemma SameCounter(m: Tree, m': Tree, b: Name)
    requires Look(m, ProvSeqKey(b)) == Look(m', ProvSeqKey(b))
    ensures NextSeq(m, b) == NextSeq(m', b)
  {
  }

  lemma CounterKeys(m: Tree, kvs: seq<(Key, Record)>, b: Name, b': Name)
    requires forall i | 0 <= i < |kvs| :: RegionOf(kvs[i].0) != ProvSeq
    ensures Look(PutAll(m, kvs), ProvSeqKey(b)) == Look(m, ProvSeqKey(b))
    ensures ProvSeqKey(b) == ProvSeqKey(b') <==> b == b'
  {
    BuilderRegions(b, [], 0);
    ConcatInjective(PROV_SEQ, b, b');
    PutAllElsewhere(m, kvs, ProvSeqKey(b));
  }

  lemma {:induction false} SomeNodes(kvs: seq<(Key, Record)>)
    requires AnyCaller(kvs)
    ensures NodeCount(kvs) > 0
  {
    var i :| 0 <= i < |kvs| && IsCaller(kvs[i].0);
    if i < |kvs| - 1 {
      assert kvs[..|kvs| - 1][i] == kvs[i];
      SomeNodes(kvs[..|kvs| - 1]);
    }
  }

  // ---------- the invariant ----------

  ghost predicate PInv(r: Repo, ids: IdBytes, l: Ledger) {
    && Ordered(r, ids)
    && (forall c | c in r.trees :: Follows(r.trees[c], l))
    && (forall b | b in r.refs.branches :: NextSeq(HeadTree(r, b), b) == |Of(l, b)|)
    && (forall b | b in l :: b in r.refs.branches)
    && (forall c, b | c in r.trees && ProvSeqKey(b) in r.trees[c] :: b in r.refs.branches)
  }

  /** No rewind, and no branch runs out of 64-bit sequence numbers. */
  ghost predicate Appends(r: Repo, ids: IdBytes, l: Ledger, e: Event) {
    && Sound(r) && Allowed(r, e) && !e.Rewind?
    && Bounded(LedgerAfter(r, ids, l, e))
  }

  /** With every tree following one ledger, any three-way decision on a node key carries the ledger's value over
      or leaves the target alone, and no policy is asked. */
  lemma NodeDecision(l: Ledger, base: Tree, s: Tree, t: Tree, b: Name, i: nat, p: Policy, q: Policy)
    requires Follows(base, l) && Follows(s, l) && Follows(t, l) && i < MAX_SEQ
    ensures var k := NodeKey(b, i); var d := DecideAt(k, base, s, t, p);
            && d == DecideAt(k, base, s, t, q)
            && (d == Nothing || (i < |Of(l, b)| && d == MergeRules.Write(Of(l, b)[i])))
  {
    var k := NodeKey(b, i);
    if i < |Of(l, b)| {
      SingleValueNeverConflicts(k, Of(l, b)[i], Look(base, k), Look(s, k), Look(t, k), p, q);
    }
  }

  lemma {:induction false} PlanFollows(keys: seq<Key>, base: Tree, s: Tree, t: Tree, policy: Policy, l: Ledger, m: Tree)
    requires Follows(base, l) && Follows(s, l) && Follows(t, l) && Follows(m, l)
    ensures Follows(PutAll(m, PlanOver(keys, base, s, t, policy).writes), l)
  {
    hide NodeKey, Decide, Follows, PutAll, Extend;
    if keys != [] {
      var init, k := keys[..|keys| - 1], keys[|keys| - 1];
      PlanFollows(init, base, s, t, policy, l, m);
      OneMoreFollows(PlanOver(init, base, s, t, policy), k, base, s, t, policy, l, m);
    } else {
      NoneWritten(m);
    }
  }

  lemma NoneWritten(m: Tree)
    ensures PutAll(m, []) == m
  {
  }

  lemma OneMoreFollows(p: Plan, k: Key, base: Tree, s: Tree, t: Tree, policy: Policy, l: Ledger, m: Tree)
    requires Follows(base, l) && Follows(s, l) && Follows(t, l) && Follows(PutAll(m, p.writes), l)
    ensures Follows(PutAll(m, Extend(p, k, DecideAt(k, base, s, t, policy)).writes), l)
  {
    hide NodeKey, Decide;
    var p' := Extend(p, k, DecideAt(k, base, s, t, policy));
    if p'.writes != p.writes {
      assert p'.writes[..|p'.writes| - 1] == p.writes;
      var w := PutAll(m, p'.writes);
      forall b, i: nat | i < MAX_SEQ && NodeKey(b, i) in w ensures i < |Of(l, b)| && w[NodeKey(b, i)] == Of(l, b)[i] {
        if NodeKey(b, i) == k { NodeDecision(l, base, s, t, b, i, policy, REPORT); }
      }
    }
  }

  // ---------- every step ----------

  lemma FollowsOn(m: Tree, l: Ledger, l': Ledger, b: Name)
    requires Follows(m, l) && (forall b' | b' != b :: Of(l', b') == Of(l, b')) && Of(l, b) <= Of(l', b)
    ensures Follows(m, l')
  {
    hide NodeKey;
    forall b', i: nat | i < MAX_SEQ && NodeKey(b', i) in m
      ensures i < |Of(l', b')| && m[NodeKey(b', i)] == Of(l', b')[i]
    {
      assert Of(l', b')[i] == Of(l, b')[i];
    }
  }

  /** Committing a tree that follows the new ledger, on branch b. */
  lemma CommitKeeps(r: Repo, ids: IdBytes, l: Ledger, l': Ledger, r': Repo, b: Name, head: CommitId, tree: Tree)
    requires PInv(r, ids, l) && Ordered(r', ids) && b in r.refs.branches && head == r.refs.branches[b]
    requires r'.refs.branches == r.refs.branches[b := r.next] && r'.trees == r.trees[r.next := tree]
    requires Follows(tree, l') && (forall b' | b' != b :: Of(l', b') == Of(l, b')) && Of(l, b) <= Of(l', b)
    requires forall b' | b' in l' :: b' in r.refs.branches
    requires NextSeq(tree, b) == |Of(l', b)|
    requires forall b' | ProvSeqKey(b') in tree :: b' in r.refs.branches
    ensures PInv(r', ids, l')
  {
    hide NodeKey, NextSeq, ProvSeqKey, Ordered, Follows, Sound;
    OrderedSound(r, ids);
    OrderedSound(r', ids);
    HeadsStored(r);
    HeadsStored(r');
    forall c | c in r'.trees ensures Follows(r'.trees[c], l') {
      if c != r.next { FollowsOn(r.trees[c], l, l', b); }
    }
    forall b' | b' in r'.refs.branches ensures NextSeq(HeadTree(r', b'), b') == |Of(l', b')| {
      if b' != b { assert HeadTree(r', b') == HeadTree(r, b'); }
    }
  }

  /** Provenance reads the same whatever goes with the batch beside it. */
  lemma SameTraced(m: Tree, b: Name, kvs: seq<(Key, Record)>, x: Extras, l: Ledger)
    ensures var (w, t) := (Written(m, b, kvs, x), Traced(m, b, kvs, x.describe));
            && (Follows(w, l) <==> Follows(t, l))
            && (forall b' :: Look(w, ProvSeqKey(b')) == Look(t, ProvSeqKey(b')) && NextSeq(w, b') == NextSeq(t, b'))
  {
    hide NodeKey, ProvSeqKey, Written, Traced, RegionOf;
    var (w, t) := (Written(m, b, kvs, x), Traced(m, b, kvs, x.describe));
    forall b', i: nat ensures Look(w, NodeKey(b', i)) == Look(t, NodeKey(b', i)) {
      BuilderRegions(b', [], i);
      ExtrasElsewhere(m, b, kvs, x, NodeKey(b', i));
    }
    forall b' ensures Look(w, ProvSeqKey(b')) == Look(t, ProvSeqKey(b')) {
      BuilderRegions(b', [], 0);
      ExtrasElsewhere(m, b, kvs, x, ProvSeqKey(b'));
    }
  }

  /** What a batch makes of a tree that follows the ledger. */
  lemma BatchTree(m: Tree, b: Name, kvs: seq<(Key, Record)>, x: Extras, l: Ledger)
    requires Follows(PutAll(m, kvs), l) && NextSeq(m, b) == |Of(l, b)|
    requires forall i | 0 <= i < |kvs| :: RegionOf(kvs[i].0) != ProvSeq
    requires Bounded(AfterBatch(l, b, kvs, x.describe))
    ensures var tree, l' := Written(m, b, kvs, x), AfterBatch(l, b, kvs, x.describe);
            && Follows(tree, l') && NextSeq(tree, b) == |Of(l', b)|
            && (forall b' | ProvSeqKey(b') in tree :: b' == b || ProvSeqKey(b') in m)
            && (tree == m ==> l' == l)
            && (forall b' | b' != b :: Of(l', b') == Of(l, b')) && Of(l, b) <= Of(l', b)
            && (forall b' | b' in l' :: b' == b || b' in l)
  {
    hide PutAll, NodesOf, PutNodes, NodeCount, NodeKey, ProvSeqKey, Follows, RegionOf, AsI64, AsU64, AnyCaller, Written,
         Traced;
    SameTraced(m, b, kvs, x, AfterBatch(l, b, kvs, x.describe));
    var tree, l' := Written(m, b, kvs, x), AfterBatch(l, b, kvs, x.describe);
    assert |Of(l', b)| < MAX_SEQ;
    WrittenCounter(m, b, kvs, x.describe, b);
    CounterReads(|Of(l', b)|);
    CounterKeys(m, kvs, b, b);
    WrittenFollows(m, b, kvs, x.describe, l);
    forall b' | ProvSeqKey(b') in tree
      ensures b' == b || ProvSeqKey(b') in m
    {
      WrittenCounter(m, b, kvs, x.describe, b');
    }
    if AnyCaller(kvs) { SomeNodes(kvs); }
  }

  lemma SameHeadsKeep(r: Repo, ids: IdBytes, l: Ledger, r': Repo)
    requires PInv(r, ids, l) && Ordered(r', ids) && r'.trees == r.trees && r'.refs.branches == r.refs.branches
    ensures PInv(r', ids, l)
  {
    hide NodeKey, NextSeq, ProvSeqKey, Follows, Older, Edges;
    assert forall b | b in r'.refs.branches :: HeadTree(r', b) == HeadTree(r, b);
  }

  /** A batch committed on branch b: plain write or merge. */
  lemma BatchKeeps(r: Repo, ids: IdBytes, l: Ledger, b: Name, kvs: seq<(Key, Record)>, extras: Extras,
                   repacked: bool, r': Repo)
    requires PInv(r, ids, l) && b in r.refs.branches && Ordered(r', ids)
    requires Follows(PutAll(HeadTree(r, b), kvs), l)
    requires forall i | 0 <= i < |kvs| :: RegionOf(kvs[i].0) != ProvSeq
    requires Bounded(AfterBatch(l, b, kvs, extras.describe))
    requires var tree := Written(HeadTree(r, b), b, kvs, extras);
             || (tree == HeadTree(r, b) && r'.trees == r.trees && r'.refs.branches == r.refs.branches)
             || (r'.refs.branches == r.refs.branches[b := r.next] && r'.trees == r.trees[r.next := tree])
    ensures PInv(r', ids, AfterBatch(l, b, kvs, extras.describe))
  {
    hide PutAll, NodesOf, NodeKey, NextSeq, ProvSeqKey, Follows, RegionOf, Written, AnyCaller, AfterBatch, Ordered;
    assert Sound(r) && Sound(r') by { OrderedSound(r, ids); OrderedSound(r', ids); }
    var m, l' := HeadTree(r, b), AfterBatch(l, b, kvs, extras.describe);
    var tree := Written(m, b, kvs, extras);
    BatchTree(m, b, kvs, extras, l);
    if r'.trees == r.trees && r'.refs.branches == r.refs.branches {
      SameHeadsKeep(r, ids, l, r');
    } else {
      assert b in r.refs.branches && forall b' | b' in l :: b' in r.refs.branches;
      CommitKeeps(r, ids, l, l', r', b, r.refs.branches[b], tree);
    }
  }

  lemma PlainWriteKeeps(r: Repo, ids: IdBytes, l: Ledger, e: Event)
    requires PInv(r, ids, l) && e.Write? && Appends(r, ids, l, e)
    ensures PInv(Step(r, ids, e), ids, LedgerAfter(r, ids, l, e))
  {
    hide Written, NodeKey, ProvSeqKey, NextSeq, Ordered, Sound, Follows, PutAll, Edges, RegionOf,
         IsReserved, StartsWith, AnyCaller, NodesOf;
    PInvOrdered(r, ids, l);
    HeadsStored(r);
    var b, kvs := e.b, e.kvs;
    var m := HeadTree(r, b);
    StepOrdered(r, ids, e);
    AdvanceCases(r, b, Written(m, b, kvs, e.extras), e.repacked);
    CallerRegions(kvs);
    CallerPutsFollow(m, kvs, l);
    BatchKeeps(r, ids, l, b, kvs, e.extras, e.repacked, Step(r, ids, e));
  }

  lemma CallerRegions(kvs: seq<(Key, Record)>)
    requires forall i | 0 <= i < |kvs| :: !IsReserved(kvs[i].0)
    ensures forall i | 0 <= i < |kvs| :: RegionOf(kvs[i].0) != ProvSeq
  {
  }

  lemma CallerPutsFollow(m: Tree, kvs: seq<(Key, Record)>, l: Ledger)
    requires Follows(m, l) && forall i | 0 <= i < |kvs| :: IsCaller(kvs[i].0)
    ensures Follows(PutAll(m, kvs), l)
  {
    forall b, i: nat | i < MAX_SEQ && NodeKey(b, i) in PutAll(m, kvs)
      ensures i < |Of(l, b)| && PutAll(m, kvs)[NodeKey(b, i)] == Of(l, b)[i]
    {
      BuilderRegions(b, [], i);
      forall j | 0 <= j < |kvs| ensures kvs[j].0 != NodeKey(b, i) { }
      PutAllElsewhere(m, kvs, NodeKey(b, i));
    }
  }

  lemma MergeKeeps(r: Repo, ids: IdBytes, l: Ledger, e: Event)
    requires PInv(r, ids, l) && e.MergeInto? && Appends(r, ids, l, e) && MergeWrites(r, ids, e).Some?
    ensures PInv(Step(r, ids, e), ids, LedgerAfter(r, ids, l, e))
  {
    hide Written, NodeKey, ProvSeqKey, NextSeq, Ordered, Sound, Follows, PutAll, Edges, RegionOf,
         AnyCaller, NodesOf, MergeWrites;
    PInvOrdered(r, ids, l);
    HeadsStored(r);
    var b, kvs := e.target, MergeWrites(r, ids, e).value;
    var m, head, second := HeadTree(r, b), r.refs.branches[b], r.refs.branches[e.source];
    StepOrdered(r, ids, e);
    MergeStep(r, b, MergeTree(r, ids, e), e.repacked, second);
    MergeKeysApart(r, ids, e);
    MergePutsFollow(r, ids, l, e);
    BatchKeeps(r, ids, l, b, kvs, e.extras.(hints := map[]), e.repacked, Step(r, ids, e));
  }

  lemma MergeKeysApart(r: Repo, ids: IdBytes, e: Event)
    requires Sound(r) && e.MergeInto? && Allowed(r, e) && MergeWrites(r, ids, e).Some?
    ensures var kvs := MergeWrites(r, ids, e).value; forall i | 0 <= i < |kvs| :: RegionOf(kvs[i].0) != ProvSeq
  {
    MergeWritesShape(r, ids, e);
    BuilderRegions(e.source, [], 0);
    var kvs := MergeWrites(r, ids, e).value;
    CallerRegions(kvs[..|kvs| - 1]);
    assert forall i | 0 <= i < |kvs| - 1 :: kvs[i] == kvs[..|kvs| - 1][i];
  }

  lemma MergePutsFollow(r: Repo, ids: IdBytes, l: Ledger, e: Event)
    requires Sound(r) && e.MergeInto? && Allowed(r, e) && MergeWrites(r, ids, e).Some?
    requires forall c | c in r.trees :: Follows(r.trees[c], l)
    ensures Follows(PutAll(HeadTree(r, e.target), MergeWrites(r, ids, e).value), l)
  {
    hide NodeKey, PlanOver;
    var s, t := r.refs.branches[e.source], r.refs.branches[e.target];
    var base := BaseOf(GraphOf(r), s, t).value;
    var (vb, vs, vt) := (r.trees[base], r.trees[s], r.trees[t]);
    PlanFollows(InOrder(SideKeys(vb, vs, vt)), vb, vs, vt, e.policy, l, vt);
    var kvs := MergeWrites(r, ids, e).value;
    assert kvs[..|kvs| - 1] == PlanOf(vb, vs, vt, e.policy).writes;
    forall b, i: nat | i < MAX_SEQ ensures NodeKey(b, i) != MergedFromKey(e.source) {
      BuilderRegions(b, [], i);
      BuilderRegions(e.source, [], 0);
    }
  }

  /** Trees added off the branches, and branches made at old heads. */
  lemma OtherHeadsKeep(r: Repo, ids: IdBytes, l: Ledger, r': Repo)
    requires PInv(r, ids, l) && Ordered(r', ids)
    requires forall c | c in r.trees :: c in r'.trees && r'.trees[c] == r.trees[c]
    requires forall c | c in r'.trees && c !in r.trees ::
               Follows(r'.trees[c], l) && forall b | ProvSeqKey(b) in r'.trees[c] :: b in r.refs.branches
    requires forall b | b in r.refs.branches :: b in r'.refs.branches && r'.refs.branches[b] == r.refs.branches[b]
    requires forall b | b in r'.refs.branches && b !in r.refs.branches ::
               r'.refs.branches[b] in r'.trees && NextSeq(r'.trees[r'.refs.branches[b]], b) == |Of(l, b)|
    ensures PInv(r', ids, l)
  {
    hide NodeKey, NextSeq, ProvSeqKey, Ordered, Follows, Sound;
    OrderedSound(r, ids);
    OrderedSound(r', ids);
    HeadsStored(r);
    HeadsStored(r');
    forall b | b in r'.refs.branches ensures NextSeq(HeadTree(r', b), b) == |Of(l, b)| {
      if b in r.refs.branches { assert HeadTree(r', b) == HeadTree(r, b); }
    }
  }

  /** A new branch starts counting from nothing. */
  lemma BranchKeeps(r: Repo, ids: IdBytes, l: Ledger, from: Name, name: Name)
    requires PInv(r, ids, l) && from in r.refs.branches && name !in r.refs.branches
    requires Ordered(Moved(r, name, r.refs.branches[from]), ids)
    ensures PInv(Moved(r, name, r.refs.branches[from]), ids, l)
  {
    hide NodeKey, ProvSeqKey, Ordered, Follows, Sound;
    OrderedSound(r, ids);
    HeadsStored(r);
    var r' := Moved(r, name, r.refs.branches[from]);
    assert ProvSeqKey(name) !in HeadTree(r, from);
    OtherHeadsKeep(r, ids, l, r');
  }

  lemma ReindexKeeps(r: Repo, ids: IdBytes, l: Ledger, e: Event)
    requires PInv(r, ids, l) && e.Reindex? && Appends(r, ids, l, e)
    ensures PInv(Step(r, ids, e), ids, l)
  {
    hide NodeKey, ProvSeqKey, NextSeq, Follows, SameOutsideIndex, Ordered, Sound;
    OrderedSound(r, ids);
    HeadsStored(r);
    var m, head := HeadTree(r, e.b), r.refs.branches[e.b];
    StepOrdered(r, ids, e);
    AdvanceCases(r, e.b, e.tree, e.repacked);
    SameProvenance(m, e.tree, e.b, l);
    var r' := Step(r, ids, e);
    if e.published && r' != r {
      CommitKeeps(r, ids, l, l, r', e.b, head, e.tree);
    } else {
      OtherHeadsKeep(r, ids, l, r');
    }
  }

  lemma SameProvenance(m: Tree, tree: Tree, b: Name, l: Ledger)
    requires Follows(m, l) && SameOutsideIndex(m, tree)
    ensures Follows(tree, l) && NextSeq(tree, b) == NextSeq(m, b)
    ensures forall b' :: ProvSeqKey(b') in tree <==> ProvSeqKey(b') in m
  {
    hide NodeKey, ProvSeqKey, RegionOf;
    forall b, i: nat ensures Look(tree, NodeKey(b, i)) == Look(m, NodeKey(b, i)) { BuilderRegions(b, [], i); }
    forall b ensures Look(tree, ProvSeqKey(b)) == Look(m, ProvSeqKey(b)) { BuilderRegions(b, [], 0); }
  }

  lemma PInvOrdered(r: Repo, ids: IdBytes, l: Ledger)
    requires PInv(r, ids, l)
    ensures Ordered(r, ids) && Sound(r)
  {
  }

  /** **Each step keeps one value per node key**, and the ledger only grows. */
  lemma StepKeeps(r: Repo, ids: IdBytes, l: Ledger, e: Event)
    requires PInv(r, ids, l) && Appends(r, ids, l, e)
    ensures PInv(Step(r, ids, e), ids, LedgerAfter(r, ids, l, e))
    ensures forall b :: Of(l, b) <= Of(LedgerAfter(r, ids, l, e), b)
  {
    hide PInv, Written, MergeWrites, NodesOf, Ordered;
    PInvOrdered(r, ids, l);
    match e
    case BranchFrom(from, name) =>
      StepOrdered(r, ids, e);
      if name !in r.refs.branches { BranchKeeps(r, ids, l, from, name); }
    case Write(_, _, _, _) => PlainWriteKeeps(r, ids, l, e);
    case MergeInto(_, _, _, _, _, _) => if MergeWrites(r, ids, e).Some? { MergeKeeps(r, ids, l, e); }
    case Reindex(_, _, _, _) => ReindexKeeps(r, ids, l, e);
  }

  // ---------- runs ----------

  ghost predicate AppendRun(r: Repo, ids: IdBytes, l: Ledger, es: seq<Event>)
    decreases |es|
  {
    es == [] || (Appends(r, ids, l, es[0])
                 && AppendRun(Step(r, ids, es[0]), ids, LedgerAfter(r, ids, l, es[0]), es[1..]))
  }

  lemma {:induction false} AppendRunKeeps(r: Repo, ids: IdBytes, l: Ledger, es: seq<Event>)
    returns (r': Repo, l': Ledger)
    requires PInv(r, ids, l) && AppendRun(r, ids, l, es)
    ensures AllowedRun(r, ids, es) && r' == Run(r, ids, es)
    ensures PInv(r', ids, l') && forall b :: Of(l, b) <= Of(l', b)
    decreases |es|
  {
    if es == [] {
      r', l' := r, l;
    } else {
      StepKeeps(r, ids, l, es[0]);
      r', l' := AppendRunKeeps(Step(r, ids, es[0]), ids, LedgerAfter(r, ids, l, es[0]), es[1..]);
    }
  }

  /** **Provenance never conflicts.** In every run from the root without a rewind, whatever three commits a merge
      looks at, its decision on a derivation-node key is never a conflict and is the same under every policy. */
  lemma ProvenanceNeverConflicts(ids: IdBytes, es: seq<Event>, x: CommitId, y: CommitId, z: CommitId,
                                 b: Name, i: nat, p: Policy, q: Policy)
    requires Injective(ids) && AppendRun(ROOT, ids, map[], es) && i < MAX_SEQ
    ensures AllowedRun(ROOT, ids, es)
    ensures var r := Run(ROOT, ids, es);
            x in r.trees && y in r.trees && z in r.trees ==>
              var d := DecideAt(NodeKey(b, i), r.trees[x], r.trees[y], r.trees[z], p);
              !d.Undecided? && !d.Resolved? && d == DecideAt(NodeKey(b, i), r.trees[x], r.trees[y], r.trees[z], q)
  {
    RootOrdered(ids);
    var r, l := AppendRunKeeps(ROOT, ids, map[], es);
    if x in r.trees && y in r.trees && z in r.trees {
      NodeDecision(l, r.trees[x], r.trees[y], r.trees[z], b, i, p, q);
    }
  }

  /** A node key once held is held, by every commit that has it, with that one value, for the rest of the run. */
  lemma NodesNeverOverwritten(r: Repo, ids: IdBytes, l: Ledger, es: seq<Event>, c: CommitId, d: CommitId, b: Name,
                              i: nat)
    requires PInv(r, ids, l) && AppendRun(r, ids, l, es) && i < MAX_SEQ
    requires c in r.trees && NodeKey(b, i) in r.trees[c]
    ensures AllowedRun(r, ids, es)
    ensures var r' := Run(r, ids, es);
            d in r'.trees && NodeKey(b, i) in r'.trees[d] ==> r'.trees[d][NodeKey(b, i)] == r.trees[c][NodeKey(b, i)]
  {
    hide NodeKey;
    var r', l' := AppendRunKeeps(r, ids, l, es);
    assert Follows(r.trees[c], l);
    assert Of(l', b)[i] == Of(l, b)[i];
    if d in r'.trees { assert Follows(r'.trees[d], l'); }
  }

  // ---------- with a rewind ----------

  lemma OneNode(m: Tree, b: Name, kv: (Key, Record), x: Extras)
    requires IsCaller(kv.0) && NextSeq(m, b) < MAX_SEQ - 1
    ensures Look(Written(m, b, [kv], x), NodeKey(b, NextSeq(m, b)))
            == Some(OfValue(Blob(x.describe(kv.0, kv.1).blob)))
  {
    var kvs, n := [kv], NextSeq(m, b);
    assert kvs[0] == kv && AnyCaller(kvs) && kvs[..0] == [];
    assert NodeCount(kvs) == 1 && NodesOf(kvs, x.describe) == [OfValue(Blob(x.describe(kv.0, kv.1).blob))];
    hide Written, RegionOf, NodeKey, NextSeq, PutNodes, PutAll;
    CallerRegions(kvs);
    CounterKeys(m, kvs, b, b);
    SameCounter(PutAll(m, kvs), m, b);
    BuilderRegions(b, [], n);
    CounterApart(m, b, kvs, x.describe, b, n);
    NodesLand(PutAll(m, kvs), b, n, kvs, x.describe, b, n);
    ExtrasElsewhere(m, b, kvs, x, NodeKey(b, n));
  }

  /** A plan conflicts at a key exactly when deciding the key does. */
  lemma {:induction false} ConflictsAt(keys: seq<Key>, b: Tree, s: Tree, t: Tree, policy: Policy, k: Key)
    ensures (exists c :: c in PlanOver(keys, b, s, t, policy).conflicts && c.key == k)
            <==> k in keys && DecideAt(k, b, s, t, policy).Undecided?
  {
    if keys != [] {
      var (init, last) := (keys[..|keys| - 1], keys[|keys| - 1]);
      assert keys == init + [last];
      ConflictsAt(init, b, s, t, policy, k);
      var (p, d) := (PlanOver(init, b, s, t, policy), DecideAt(last, b, s, t, policy));
      if d.Undecided? { assert d.conflict in Extend(p, last, d).conflicts && d.conflict.key == last; }
    }
  }

  /** Two fresh commits on one head have that head as their one merge base. */
  lemma SiblingsBase(g: Graph, h: CommitId, c: CommitId, d: CommitId)
    requires Acyclic(g) && c != d && Edges(g, c) == [h] && Edges(g, d) == [h]
    requires !Reaches(g, h, c) && !Reaches(g, h, d)
    ensures BaseOf(g, c, d) == Some(h)
  {
    hide Acyclic;
    forall x ensures Reaches(g, c, x) <==> x == c || Reaches(g, h, x) { ReachesFirst(g, c, x); }
    forall x ensures Reaches(g, d, x) <==> x == d || Reaches(g, h, x) { ReachesFirst(g, d, x); }
    ReachesSelf(g, h);
    forall o | Common(g, c, d, o) && o != h ensures !Reaches(g, o, h) {
      if Reaches(g, o, h) { AcyclicAntisymmetric(g, o, h); }
    }
    assert UniqueBase(g, c, d, h);
  }

  /** A fresh commit on the head of b. */
  lemma FreshWrite(r: Repo, ids: IdBytes, b: Name, kv: (Key, Record), x: Extras, repacked: bool)
    requires Sound(r) && b in r.refs.branches && IsCaller(kv.0) && r.refs.branches[b] in r.trees
    requires NextSeq(HeadTree(r, b), b) < MAX_SEQ - 1 && NodeKey(b, NextSeq(HeadTree(r, b), b)) !in HeadTree(r, b)
    ensures var e := Event.Write(b, [kv], x, repacked);
            && Allowed(r, e)
            && var tree := Written(HeadTree(r, b), b, [kv], x);
               Step(r, ids, e) == Moved(Added(r, r.refs.branches[b], tree, Some([r.refs.branches[b]])), b, r.next)
  {
    OneNode(HeadTree(r, b), b, kv, x);
    hide Written, NodeKey, NextSeq, Edges;
    AdvanceCases(r, b, Written(HeadTree(r, b), b, [kv], x), repacked);
  }

  /** The repository after writing on b, branching off, taking b back and writing again. */
  function Twice(r: Repo, b: Name, side: Name, t1: Tree, t2: Tree): Repo
    requires b in r.refs.branches
  {
    var h := r.refs.branches[b];
    var r1 := Moved(Added(r, h, t1, Some([h])), b, r.next);
    var r3 := Moved(Moved(r1, side, r.next), b, h);
    Moved(Added(r3, h, t2, Some([h])), b, r.next + 1)
  }

  /** One more commit on h, in a sound and acyclic repository. */
  lemma OneMore(r: Repo, h: CommitId, tree: Tree)
    requires Sound(r) && Acyclic(GraphOf(r)) && h in r.trees
    ensures var (r', g, g') := (Added(r, h, tree, Some([h])), GraphOf(r), GraphOf(Added(r, h, tree, Some([h]))));
            && Sound(r') && Acyclic(g') && Edges(g', r.next) == [h] && !Reaches(g', h, r.next)
            && (forall a | a in r.trees :: Edges(g', a) == Edges(g, a))
            && (forall a, x | a in r.trees :: Reaches(g', a, x) <==> Reaches(g, a, x))
            && r.next in r'.trees && h in r'.trees && r'.next == r.next + 1 && r.next !in r.trees
  {
    hide Reaches, Acyclic, GraphOf, Edges, Sound;
    HeadsStored(r);
    AddedReach(r, h, tree, Some([h]));
    AddedAcyclic(r, h, tree, Some([h]));
  }

  lemma TwiceGraph(r: Repo, b: Name, side: Name, t1: Tree, t2: Tree)
    requires Sound(r) && Acyclic(GraphOf(r)) && b in r.refs.branches && r.refs.branches[b] in r.trees
    ensures var h := r.refs.branches[b];
            BaseOf(GraphOf(Twice(r, b, side, t1, t2)), r.next, r.next + 1) == Some(h)
  {
    hide Reaches, Acyclic, GraphOf, Edges, Sound, Added, Moved, BaseOf;
    var h := r.refs.branches[b];
    var a := Added(r, h, t1, Some([h]));
    OneMore(r, h, t1);
    var r3 := Moved(Moved(Moved(a, b, r.next), side, r.next), b, h);
    MovedTwice(r, a, b, side, h);
    OneMore(r3, h, t2);
    var g := GraphOf(Twice(r, b, side, t1, t2));
    SameGraphMoved(Added(r3, h, t2, Some([h])), b, r.next + 1);
    SiblingsBase(g, h, r.next, r.next + 1);
  }

  lemma SameGraphMoved(r: Repo, b: Name, c: CommitId)
    ensures GraphOf(Moved(r, b, c)) == GraphOf(r)
  {
  }

  lemma MovedTwice(r: Repo, a: Repo, b: Name, side: Name, h: CommitId)
    requires Sound(a) && r.next in a.trees && h in a.trees
    ensures var r3 := Moved(Moved(Moved(a, b, r.next), side, r.next), b, h);
            Sound(r3) && GraphOf(r3) == GraphOf(a) && r3.trees == a.trees && r3.next == a.next
  {
    assert GraphOf(Moved(Moved(Moved(a, b, r.next), side, r.next), b, h)) == GraphOf(a);
  }

  /** **Rewind is what breaks it.** Write on a branch, branch off, take the branch back and write again: the second
      write puts its node at the key the first one used, and merging the two conflicts there exactly when the nodes
      differ. */
  lemma RewindReusesKeys(r: Repo, ids: IdBytes, b: Name, side: Name, kv: (Key, Record), kv': (Key, Record), x: Extras,
                         x': Extras, repacked: bool, repacked': bool)
    requires Sound(r) && Acyclic(GraphOf(r)) && b in r.refs.branches && r.refs.branches[b] in r.trees
    requires side !in r.refs.branches && IsCaller(kv.0) && IsCaller(kv'.0)
    requires NextSeq(HeadTree(r, b), b) < MAX_SEQ - 1 && NodeKey(b, NextSeq(HeadTree(r, b), b)) !in HeadTree(r, b)
    ensures var (h, n) := (r.refs.branches[b], NextSeq(HeadTree(r, b), b));
            var es := [Event.Write(b, [kv], x, repacked)] + ([BranchFrom(b, side)] + ([Rewind(b, h)]
                      + ([Event.Write(b, [kv'], x', repacked')] + [])));
            && AllowedRun(r, ids, es)
            && var r' := Run(r, ids, es);
            && side in r'.refs.branches && b in r'.refs.branches && h in r'.trees
            && r'.refs.branches[side] in r'.trees && r'.refs.branches[b] in r'.trees
            && BaseOf(GraphOf(r'), r'.refs.branches[side], r'.refs.branches[b]) == Some(h)
            && ((exists c :: c in PlanOf(r'.trees[h], HeadTree(r', side), HeadTree(r', b), REPORT).conflicts
                             && c.key == NodeKey(b, n))
                <==> x.describe(kv.0, kv.1).blob != x'.describe(kv'.0, kv'.1).blob)
  {
    hide Written, NodeKey, NextSeq, Edges, Reaches, Acyclic, Sound, AllowedRun, Run, PlanOver, InOrder, BaseOf, Twice,
         IsCaller;
    var m := HeadTree(r, b);
    var (t1, t2) := (Written(m, b, [kv], x), Written(m, b, [kv'], x'));
    TwiceRuns(r, ids, b, side, kv, kv', x, x', repacked, repacked');
    TwiceGraph(r, b, side, t1, t2);
    TwiceTrees(r, b, side, t1, t2);
    OneNode(m, b, kv, x);
    OneNode(m, b, kv', x');
    NodeConflict(m, t1, t2, b, NextSeq(m, b), x.describe(kv.0, kv.1).blob, x'.describe(kv'.0, kv'.1).blob);
  }

  lemma TwiceTrees(r: Repo, b: Name, side: Name, t1: Tree, t2: Tree)
    requires Sound(r) && b in r.refs.branches && side !in r.refs.branches && r.refs.branches[b] in r.trees
    ensures var r' := Twice(r, b, side, t1, t2); var h := r.refs.branches[b];
            && side in r'.refs.branches && r'.refs.branches[side] == r.next
            && b in r'.refs.branches && r'.refs.branches[b] == r.next + 1
            && h in r'.trees && r'.trees[h] == r.trees[h]
            && r.next in r'.trees && r'.trees[r.next] == t1 && r.next + 1 in r'.trees && r'.trees[r.next + 1] == t2
  {
    HeadsStored(r);
    hide Sound;
  }

  /** Two trees with a node each at a key the base has none at. */
  lemma NodeConflict(m: Tree, t1: Tree, t2: Tree, b: Name, n: nat, one: Key, two: Key)
    requires NodeKey(b, n) !in m && Look(t1, NodeKey(b, n)) == Some(OfValue(Blob(one)))
    requires Look(t2, NodeKey(b, n)) == Some(OfValue(Blob(two)))
    ensures (exists c :: c in PlanOf(m, t1, t2, REPORT).conflicts && c.key == NodeKey(b, n)) <==> one != two
  {
    hide NodeKey, PlanOver, InOrder;
    BuilderRegions(b, [], n);
    ConflictsAt(InOrder(SideKeys(m, t1, t2)), m, t1, t2, REPORT, NodeKey(b, n));
  }

  lemma TwiceRuns(r: Repo, ids: IdBytes, b: Name, side: Name, kv: (Key, Record), kv': (Key, Record), x: Extras,
                  x': Extras, repacked: bool, repacked': bool)
    requires Sound(r) && b in r.refs.branches && r.refs.branches[b] in r.trees
    requires side !in r.refs.branches && IsCaller(kv.0) && IsCaller(kv'.0)
    requires NextSeq(HeadTree(r, b), b) < MAX_SEQ - 1 && NodeKey(b, NextSeq(HeadTree(r, b), b)) !in HeadTree(r, b)
    ensures var (h, m) := (r.refs.branches[b], HeadTree(r, b));
            var es := [Event.Write(b, [kv], x, repacked)] + ([BranchFrom(b, side)] + ([Rewind(b, h)]
                      + ([Event.Write(b, [kv'], x', repacked')] + [])));
            AllowedRun(r, ids, es)
            && Run(r, ids, es) == Twice(r, b, side, Written(m, b, [kv], x), Written(m, b, [kv'], x'))
  {
    hide Written, NodeKey, NextSeq, Sound, GraphOf, Edges, Reaches, Moved, Added, AllowedRun, Run;
    var (m, h) := (HeadTree(r, b), r.refs.branches[b]);
    FreshWrite(r, ids, b, kv, x, repacked);
    TwiceStates(r, b, side, Written(m, b, [kv], x));
    var r1 := Moved(Added(r, h, Written(m, b, [kv], x), Some([h])), b, r.next);
    var r2 := Moved(r1, side, r.next);
    var r3 := Moved(r2, b, h);
    RewindIs(r2, ids, b, h);
    BranchIs(r1, ids, b, side);
    FreshWrite(r3, ids, b, kv', x', repacked');
    hide Allowed, Step;
    var (e1, e4) := (Event.Write(b, [kv], x, repacked), Event.Write(b, [kv'], x', repacked'));
    FourRun(r, ids, e1, r1, BranchFrom(b, side), r2, Rewind(b, h), r3, e4);
  }

  /** The repository along the way. */
  lemma TwiceStates(r: Repo, b: Name, side: Name, tree: Tree)
    requires Sound(r) && b in r.refs.branches && side !in r.refs.branches && r.refs.branches[b] in r.trees
    ensures var h := r.refs.branches[b];
            var r1 := Moved(Added(r, h, tree, Some([h])), b, r.next);
            var (r2, r3) := (Moved(r1, side, r.next), Moved(Moved(r1, side, r.next), b, h));
            && Sound(r1) && Sound(r2) && Sound(r3) && b in r1.refs.branches && r1.refs.branches[b] == r.next
            && side !in r1.refs.branches && b in r2.refs.branches && h in r2.trees
            && b in r3.refs.branches && r3.refs.branches[b] == h && h in r3.trees && r3.trees[h] == r.trees[h]
            && r3.next == r.next + 1
  {
    var h := r.refs.branches[b];
    AddedReach(r, h, tree, Some([h]));
    var a := Added(r, h, tree, Some([h]));
    var r1 := Moved(a, b, r.next);
    assert h != r.next && b != side && r.next in a.trees;
    hide Edges, Reaches, GraphOf, Sound, Added;
    MovedSound(a, b, r.next);
    MovedSound(r1, side, r.next);
    MovedSound(Moved(r1, side, r.next), b, h);
  }

  /** A run of four. */
  lemma FourRun(r: Repo, ids: IdBytes, e1: Event, r1: Repo, e2: Event, r2: Repo, e3: Event, r3: Repo, e4: Event)
    requires Sound(r) && Allowed(r, e1) && Step(r, ids, e1) == r1 && Sound(r1) && Allowed(r1, e2)
    requires Step(r1, ids, e2) == r2 && Sound(r2) && Allowed(r2, e3) && Step(r2, ids, e3) == r3
    requires Sound(r3) && Allowed(r3, e4)
    ensures var es := [e1] + ([e2] + ([e3] + ([e4] + [])));
            AllowedRun(r, ids, es) && Run(r, ids, es) == Step(r3, ids, e4)
  {
    hide Sound, Allowed, Step, Run, AllowedRun;
    RunNothing(Step(r3, ids, e4), ids);
    RunFirst(r3, ids, e4, []);
    RunFirst(r2, ids, e3, [e4] + []);
    RunFirst(r1, ids, e2, [e3] + ([e4] + []));
    RunFirst(r, ids, e1, [e2] + ([e3] + ([e4] + [])));
  }
}
