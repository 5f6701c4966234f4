/** The commit graph of a repository: how it grows, and what a write leaves of the merged-from records. */
module RepoGraph {
  import opened Bytes
  import opened Records
  import opened Keyspace
  import opened MergeRules
  import opened Merge
  import opened Refs
  import opened CommitDag
  import opened Repo

  // ---------- graphs that grow ----------

  /** Graphs that agree on a closed set have the same ancestry there. */
  lemma {:induction false} SameFrom(g: Graph, g': Graph, s: set<CommitId>, a: CommitId, b: CommitId, n: nat)
    requires Closed(g, s) && a in s && forall c | c in s :: Edges(g, c) == Edges(g', c)
    ensures ReachIn(g, a, b, n) <==> ReachIn(g', a, b, n)
    decreases n
  {
    if n > 0 {
      forall m | m in Edges(g, a) ensures ReachIn(g, m, b, n - 1) <==> ReachIn(g', m, b, n - 1) {
        SameFrom(g, g', s, m, b, n - 1);
      }
    }
  }

  lemma SameReach(g: Graph, g': Graph, s: set<CommitId>, a: CommitId, b: CommitId)
    requires Closed(g, s) && a in s && forall c | c in s :: Edges(g, c) == Edges(g', c)
    ensures Reaches(g, a, b) <==> Reaches(g', a, b)
  {
    if Reaches(g, a, b) {
      var n: nat :| ReachIn(g, a, b, n);
      SameFrom(g, g', s, a, b, n);
    }
    if Reaches(g', a, b) {
      var n: nat :| ReachIn(g', a, b, n);
      SameFrom(g, g', s, a, b, n);
    }
  }

  lemma {:induction false} MoreEdges(g: Graph, g': Graph, c: CommitId, p: CommitId, a: CommitId, b: CommitId, n: nat)
    requires Reaches(g, c, p) && ReachIn(g', a, b, n)
    requires forall x, y | y in Edges(g', x) :: y in Edges(g, x) || (x == c && y == p)
    ensures Reaches(g, a, b)
    decreases n
  {
    if n == 0 {
      ReachesSelf(g, a);
    } else {
      var m :| m in Edges(g', a) && ReachIn(g', m, b, n - 1);
      MoreEdges(g, g', c, p, m, b, n - 1);
      if m in Edges(g, a) { ReachesStep(g, a, m, b); } else { ReachesTransitive(g, c, p, b); }
    }
  }

  lemma {:induction false} FewerEdges(g: Graph, g': Graph, a: CommitId, b: CommitId, n: nat)
    requires ReachIn(g, a, b, n) && forall x, y | y in Edges(g, x) :: y in Edges(g', x)
    ensures ReachIn(g', a, b, n)
    decreases n
  {
    if n > 0 {
      var m :| m in Edges(g, a) && ReachIn(g, m, b, n - 1);
      FewerEdges(g, g', m, b, n - 1);
    }
  }

  /** An edge to a commit that was an ancestor already changes no ancestry. */
  lemma RedundantEdge(g: Graph, g': Graph, c: CommitId, p: CommitId, a: CommitId, b: CommitId)
    requires Reaches(g, c, p)
    requires forall x, y | y in Edges(g, x) :: y in Edges(g', x)
    requires forall x, y | y in Edges(g', x) :: y in Edges(g, x) || (x == c && y == p)
    ensures Reaches(g, a, b) <==> Reaches(g', a, b)
  {
    if Reaches(g, a, b) {
      var n: nat :| ReachIn(g, a, b, n);
      FewerEdges(g, g', a, b, n);
    }
    if Reaches(g', a, b) {
      var n: nat :| ReachIn(g', a, b, n);
      MoreEdges(g, g', c, p, a, b, n);
    }
  }

  lemma HeadsStored(r: Repo)
    requires Sound(r)
    ensures r.next !in r.trees && forall b | b in r.refs.branches :: r.refs.branches[b] in r.trees
  {
  }

  // ---------- what the operations come to ----------

  /** One more commit on head. */
  function Added(r: Repo, head: CommitId, tree: Tree, edges: Option<seq<CommitId>>): Repo {
    r.(parents := r.parents[r.next := Some(head)], trees := r.trees[r.next := tree], next := r.next + 1,
       refs := if edges.Some? then r.refs.(commits := r.refs.commits[r.next := edges.value]) else r.refs)
  }

  function Moved(r: Repo, b: Name, c: CommitId): Repo { r.(refs := r.refs.(branches := r.refs.branches[b := c])) }

  lemma WithoutNone(ps: seq<CommitId>, c: CommitId)
    requires c !in ps
    ensures Without(ps, c) == ps
  {
  }

  /** A commit is a no-op on the head, or a fresh commit on it. */
  lemma AdvanceCases(r: Repo, b: Name, tree: Tree, repacked: bool)
    requires Sound(r) && b in r.refs.branches
    ensures var head := r.refs.branches[b];
            var r' := Advance(r, b, tree, repacked);
            || (tree == r.trees[head] && !repacked && r' == r)
            || r' == Moved(Added(r, head, tree, Some([head])), b, r.next)
  {
    var head := r.refs.branches[b];
    assert r.refs.branches[b := head] == r.refs.branches;
    assert Without([head], head) == [];
    WithoutNone([head], r.next);
  }

  lemma AdvanceSound(r: Repo, b: Name, tree: Tree, repacked: bool)
    requires Sound(r) && b in r.refs.branches
    ensures Sound(Advance(r, b, tree, repacked))
  {
    hide Reaches;
    AdvanceCases(r, b, tree, repacked);
    AddedReach(r, r.refs.branches[b], tree, Some([r.refs.branches[b]]));
  }

  lemma SecondParentSound(r: Repo, c: CommitId, before: CommitId, second: CommitId)
    requires Sound(r) && c in r.trees && before in r.trees && second in r.trees
    ensures Sound(WithSecondParent(r, c, before, second))
  {
    var r' := WithSecondParent(r, c, before, second);
    forall x, p | x in r'.trees && p in Edges(GraphOf(r'), x) ensures p in r'.trees {
      if x != c { assert p in Edges(GraphOf(r), x); }
      else if c in r.refs.commits { assert forall q | q in r.refs.commits[c] :: q in Edges(GraphOf(r), c); }
      WithoutSubset([before, second], c);
    }
  }

  lemma {:induction false} WithoutSubset(ps: seq<CommitId>, c: CommitId)
    ensures forall p | p in Without(ps, c) :: p in ps
  {
    if ps != [] { WithoutSubset(ps[1..], c); }
  }

  lemma ReachStored(r: Repo, a: CommitId, b: CommitId)
    requires Sound(r) && a in r.trees
    ensures Reaches(GraphOf(r), a, b) ==> b in r.trees
  {
    if Reaches(GraphOf(r), a, b) {
      var n: nat :| ReachIn(GraphOf(r), a, b, n);
      ClosedHolds(GraphOf(r), r.trees.Keys, a, b, n);
    }
  }

  /** Ancestry after a fresh commit: old commits keep theirs, the new one adds itself. */
  lemma AddedReach(r: Repo, head: CommitId, tree: Tree, edges: Option<seq<CommitId>>)
    requires Sound(r) && head in r.trees
    requires edges.Some? ==> forall p | p in edges.value :: p in r.trees
    ensures var r' := Added(r, head, tree, edges); var g, g' := GraphOf(r), GraphOf(r');
            var ps := if edges.Some? then edges.value else [head];
            && Sound(r')
            && Edges(g', r.next) == ps
            && (forall a, x | a in r.trees :: Reaches(g', a, x) <==> Reaches(g, a, x))
            && (forall x :: Reaches(g', r.next, x) <==> x == r.next || exists p :: p in ps && Reaches(g, p, x))
            && (forall a | a in r.trees :: !Reaches(g, a, r.next))
            && (forall a | a in r.trees :: Edges(g', a) == Edges(g, a))
  {
    var r' := Added(r, head, tree, edges);
    var g, g' := GraphOf(r), GraphOf(r');
    var s := r.trees.Keys;
    assert Closed(g, s);
    assert forall a | a in s :: Edges(g', a) == Edges(g, a);
    forall a, x | a in s ensures (Reaches(g', a, x) <==> Reaches(g, a, x)) && (Reaches(g, a, x) ==> x in s) {
      SameReach(g, g', s, a, x);
      if Reaches(g, a, x) {
        var n: nat :| ReachIn(g, a, x, n);
        ClosedHolds(g, s, a, x, n);
      }
    }
    forall x ensures Reaches(g', r.next, x) <==> x == r.next || exists p :: p in Edges(g', r.next) && Reaches(g, p, x) {
      ReachesFirst(g', r.next, x);
    }
    forall c, p | c in r'.trees && p in Edges(g', c) ensures p in r'.trees {
      if c != r.next { assert p in Edges(g, c); }
    }
  }

  lemma AddedAcyclic(r: Repo, head: CommitId, tree: Tree, edges: Option<seq<CommitId>>)
    requires Sound(r) && Acyclic(GraphOf(r)) && head in r.trees
    requires edges.Some? ==> forall p | p in edges.value :: p in r.trees
    ensures Acyclic(GraphOf(Added(r, head, tree, edges)))
  {
    hide Look, Reaches;
    var r' := Added(r, head, tree, edges);
    var g, g' := GraphOf(r), GraphOf(r');
    AddedReach(r, head, tree, edges);
    forall c, p | p in Edges(g', c) ensures !Reaches(g', p, c) {
      if c in r.trees { assert p in Edges(g, c) && p in r.trees; }
    }
  }

  // ---------- merged-from records through a write ----------

  lemma {:induction false} PutAllElsewhere(m: Tree, kvs: seq<(Key, Record)>, k: Key)
    requires forall i | 0 <= i < |kvs| :: kvs[i].0 != k
    ensures Look(PutAll(m, kvs), k) == Look(m, k)
  {
    if kvs != [] { PutAllElsewhere(m, kvs[..|kvs| - 1], k); }
  }

  lemma {:induction false} PutSourcesElsewhere(m: Tree, b: Name, n: nat, sources: seq<Key>, id: Key, k: Key)
    requires RegionOf(k) != Source
    ensures Look(PutSources(m, b, n, sources, id), k) == Look(m, k)
  {
    if sources != [] {
      BuilderRegions(b, sources[|sources| - 1], n);
      PutSourcesElsewhere(m, b, n, sources[..|sources| - 1], id, k);
    }
  }

  /** Provenance touches only provenance keys. */
  lemma {:induction false} PutNodesElsewhere(m: Tree, b: Name, n: nat, kvs: seq<(Key, Record)>, describe: Describe,
                                             k: Key)
    requires RegionOf(k) !in {Node, Latest, Source}
    ensures Look(PutNodes(m, b, n, kvs, describe), k) == Look(m, k)
  {
    hide PutSources, NodeKey, LatestNodeKey, RegionOf, IsProvenance, NodeCount;
    if kvs != [] {
      var init, kv := kvs[..|kvs| - 1], kvs[|kvs| - 1];
      PutNodesElsewhere(m, b, n, init, describe, k);
      if !IsProvenance(kv.0) {
        var m', i, body := PutNodes(m, b, n, init, describe), n + NodeCount(init), describe(kv.0, kv.1);
        BuilderRegions(b, [], i);
        BuilderRegions(kv.0, [], i);
        PutSourcesElsewhere(m'[NodeKey(b, i) := OfValue(Blob(body.blob))]
                              [LatestNodeKey(kv.0) := OfValue(Blob(body.id))],
                            b, i, body.sources, body.id, k);
      }
    }
  }

  /** Index entries, buffered vectors and claim versions touch only their own keys. */
  lemma ExtrasElsewhere(m: Tree, b: Name, kvs: seq<(Key, Record)>, x: Extras, k: Key)
    requires RegionOf(k) !in {Region.Index, Buffer, History}
    ensures Look(Written(m, b, kvs, x), k) == Look(Traced(m, b, kvs, x.describe), k)
  {
    hide RegionOf, Traced;
    var hints := WriteExtras.HintsOf(kvs, x.hints);
    WriteExtras.HintsElsewhere(x.entries, Traced(m, b, kvs, x.describe), hints, k);
    WriteExtras.ClaimsElsewhere(x.versions, WriteExtras.PutHints(x.entries, Traced(m, b, kvs, x.describe), hints), kvs,
                                k);
  }

  lemma WrittenElsewhere(m: Tree, b: Name, kvs: seq<(Key, Record)>, x: Extras, k: Key)
    requires RegionOf(k) !in {Node, Latest, Source, ProvSeq, Region.Index, Buffer, History}
    ensures Look(Written(m, b, kvs, x), k) == Look(PutAll(m, kvs), k)
  {
    hide RegionOf, Written, Traced;
    ExtrasElsewhere(m, b, kvs, x, k);
    TracedElsewhere(m, b, kvs, x.describe, k);
  }

  lemma TracedElsewhere(m: Tree, b: Name, kvs: seq<(Key, Record)>, describe: Describe, k: Key)
    requires RegionOf(k) !in {Node, Latest, Source, ProvSeq}
    ensures Look(Traced(m, b, kvs, describe), k) == Look(PutAll(m, kvs), k)
  {
    BuilderRegions(b, [], 0);
    PutNodesElsewhere(PutAll(m, kvs), b, NextSeq(PutAll(m, kvs), b), kvs, describe, k);
  }

  lemma {:induction false} PlanKeys(keys: seq<Key>, b: Tree, s: Tree, t: Tree, policy: Policy)
    ensures forall i | 0 <= i < |PlanOver(keys, b, s, t, policy).writes| ::
              PlanOver(keys, b, s, t, policy).writes[i].0 in keys
  {
    if keys != [] {
      var init := keys[..|keys| - 1];
      PlanKeys(init, b, s, t, policy);
      assert keys[|keys| - 1] in keys && forall k | k in init :: k in keys;
    }
  }

  lemma CallerKeysElsewhere(k: Key, b: Name)
    requires IsCaller(k) || !IsReserved(k)
    ensures k != MergedFromKey(b)
  {
    BuilderRegions(b, [], 0);
  }

  /** After a plain write every merged-from record is the old one. */
  lemma WriteKeepsMerged(m: Tree, b: Name, kvs: seq<(Key, Record)>, x: Extras, from: Name)
    requires forall i | 0 <= i < |kvs| :: IsCaller(kvs[i].0)
    ensures Look(Written(m, b, kvs, x), MergedFromKey(from)) == Look(m, MergedFromKey(from))
  {
    BuilderRegions(from, [], 0);
    WrittenElsewhere(m, b, kvs, x, MergedFromKey(from));
    forall i | 0 <= i < |kvs| ensures kvs[i].0 != MergedFromKey(from) { CallerKeysElsewhere(kvs[i].0, from); }
    PutAllElsewhere(m, kvs, MergedFromKey(from));
  }

  /** After a merge the source's record is its head, and every other one is the old one. */
  lemma MergeRecordsHead(r: Repo, ids: IdBytes, e: Event, from: Name)
    requires Sound(r) && e.MergeInto? && Allowed(r, e) && MergeWrites(r, ids, e).Some?
    ensures Look(MergeTree(r, ids, e),
                 MergedFromKey(from))
            == if from == e.source then Some(OfValue(Blob(ids(r.refs.branches[e.source]))))
               else Look(HeadTree(r, e.target), MergedFromKey(from))
  {
    var m, kvs := HeadTree(r, e.target), MergeWrites(r, ids, e).value;
    var init := kvs[..|kvs| - 1];
    MergeWritesShape(r, ids, e);
    BuilderRegions(from, [], 0);
    WrittenElsewhere(m, e.target, kvs, e.extras.(hints := map[]), MergedFromKey(from));
    ConcatInjective(MERGED_FROM, from, e.source);
    forall i | 0 <= i < |init| ensures init[i].0 != MergedFromKey(from) {
      assert init[i] == kvs[i];
      CallerKeysElsewhere(init[i].0, from);
    }
    PutAllElsewhere(m, init, MergedFromKey(from));
  }

  lemma MergeWritesShape(r: Repo, ids: IdBytes, e: Event)
    requires Sound(r) && e.MergeInto? && Allowed(r, e) && MergeWrites(r, ids, e).Some?
    ensures var kvs := MergeWrites(r, ids, e).value;
            && kvs != [] && kvs[|kvs| - 1] == (MergedFromKey(e.source), OfValue(Blob(ids(r.refs.branches[e.source]))))
            && forall i | 0 <= i < |kvs| - 1 :: !IsReserved(kvs[i].0)
  {
    var s, t := r.refs.branches[e.source], r.refs.branches[e.target];
    var base := BaseOf(GraphOf(r), s, t).value;
    PlanKeys(KeyOrder.InOrder(SideKeys(r.trees[base], r.trees[s], r.trees[t])), r.trees[base], r.trees[s], r.trees[t],
             e.policy);
  }

  // ---------- runs ----------

  /** A database with one branch at an empty root. */
  const ROOT: Repo := Repo(Refs(map[MAIN := 0], map[], map[]), map[0 := None], map[0 := map[]], 1)

  ghost predicate AllowedRun(r: Repo, ids: IdBytes, es: seq<Event>)
    decreases |es|
  {
    es == [] || (Sound(r) && Allowed(r, es[0]) && AllowedRun(Step(r, ids, es[0]), ids, es[1..]))
  }

  ghost function Run(r: Repo, ids: IdBytes, es: seq<Event>): Repo
    requires AllowedRun(r, ids, es)
    decreases |es|
  {
    if es == [] then r else Run(Step(r, ids, es[0]), ids, es[1..])
  }

  /** Writes and published folds are plain advances of a head. */
  lemma AdvancingSteps(r: Repo, ids: IdBytes, e: Event)
    requires Sound(r) && Allowed(r, e)
    ensures e.Write? ==> e.b in r.refs.branches && r.refs.branches[e.b] in r.trees
                         && Step(r, ids, e)
                            == Advance(r, e.b, Written(HeadTree(r, e.b), e.b, e.kvs, e.extras), e.repacked)
    ensures e.Reindex? && e.published ==>
              e.b in r.refs.branches && r.refs.branches[e.b] in r.trees
              && Step(r, ids, e) == Advance(r, e.b, e.tree, e.repacked)
  {
    hide Sound, Advance, Written;
    HeadsStored(r);
  }

  lemma RunFirst(r: Repo, ids: IdBytes, e: Event, es: seq<Event>)
    requires Sound(r) && Allowed(r, e) && AllowedRun(Step(r, ids, e), ids, es)
    ensures AllowedRun(r, ids, [e] + es) && Run(r, ids, [e] + es) == Run(Step(r, ids, e), ids, es)
  {
    hide Step, Sound, Allowed;
    assert ([e] + es)[1..] == es;
  }

  lemma MovedSound(r: Repo, b: Name, c: CommitId)
    requires Sound(r) && c in r.trees
    ensures Sound(Moved(r, b, c))
  {
    assert GraphOf(Moved(r, b, c)) == GraphOf(r);
  }

  lemma RunNothing(r: Repo, ids: IdBytes)
    ensures AllowedRun(r, ids, []) && Run(r, ids, []) == r
  {
  }

  lemma RewindIs(r: Repo, ids: IdBytes, b: Name, h: CommitId)
    requires Sound(r) && b in r.refs.branches && h in r.trees
    ensures Allowed(r, Rewind(b, h)) && Step(r, ids, Rewind(b, h)) == Moved(r, b, h)
  {
  }

  lemma BranchIs(r: Repo, ids: IdBytes, b: Name, side: Name)
    requires Sound(r) && b in r.refs.branches && side !in r.refs.branches
    ensures Allowed(r, BranchFrom(b, side))
            && Step(r, ids, BranchFrom(b, side)) == Moved(r, side, r.refs.branches[b])
  {
  }

  lemma ReindexIs(r: Repo, ids: IdBytes, b: Name)
    requires Sound(r) && b in r.refs.branches && r.refs.branches[b] in r.trees
    ensures var e := Reindex(b, HeadTree(r, b), true, false);
            var r1 := Added(r, r.refs.branches[b], HeadTree(r, b), None);
            Allowed(r, e) && Step(r, ids, e) == r1 && Sound(r1)
  {
    HeadsStored(r);
    AddedReach(r, r.refs.branches[b], HeadTree(r, b), None);
  }
}
