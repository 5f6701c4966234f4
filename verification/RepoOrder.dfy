/** Every edge of the commit graph goes down to an older id, so the graph stays acyclic in every run. */
module RepoOrder {
  import opened Records
  import opened Keyspace
  import opened Merge
  import opened Refs
  import opened CommitDag
  import opened Repo
  import opened RepoGraph

  /** Parents, and the heads a tree records as merged, are older than the commit. */
  ghost predicate Older(r: Repo, ids: IdBytes) {
    && (forall c, p | c in r.trees && p in Edges(GraphOf(r), c) :: p < c)
    && (forall c, b, id: CommitId | c in r.trees
        && Look(r.trees[c], MergedFromKey(b)) == Some(OfValue(Blob(ids(id)))) :: id < c)
  }

  /** What every operation keeps. */
  ghost predicate Ordered(r: Repo, ids: IdBytes) { Injective(ids) && Sound(r) && Older(r, ids) }

  lemma {:induction false} ReachIsOlder(r: Repo, ids: IdBytes, a: CommitId, b: CommitId, n: nat)
    requires Sound(r) && Older(r, ids) && ReachIn(GraphOf(r), a, b, n)
    ensures b <= a
    decreases n
  {
    if n > 0 {
      var m :| m in Edges(GraphOf(r), a) && ReachIn(GraphOf(r), m, b, n - 1);
      EdgesStored(r, a);
      ReachIsOlder(r, ids, m, b, n - 1);
    }
  }

  lemma EdgesStored(r: Repo, a: CommitId)
    requires Sound(r)
    ensures a in r.trees || Edges(GraphOf(r), a) == []
  {
  }

  lemma OlderIsAcyclic(r: Repo, ids: IdBytes)
    requires Sound(r) && Older(r, ids)
    ensures Acyclic(GraphOf(r))
  {
    var g := GraphOf(r);
    forall c, p | p in Edges(g, c) ensures !Reaches(g, p, c) {
      if Reaches(g, p, c) {
        var n: nat :| ReachIn(g, p, c, n);
        ReachIsOlder(r, ids, p, c, n);
      }
    }
  }

  lemma OrderedSound(r: Repo, ids: IdBytes)
    requires Ordered(r, ids)
    ensures Sound(r) && Acyclic(GraphOf(r)) && Injective(ids)
  {
    OlderIsAcyclic(r, ids);
  }

  // ---------- every step ----------

  lemma NextIsFresh(r: Repo)
    requires Sound(r)
    ensures forall c | c in r.trees :: c < r.next
  {
  }

  /** A fresh commit on a head, given parents among the stored commits and merged-from records that are the head's or
      name one of its parents. */
  lemma AddedOlder(r: Repo, ids: IdBytes, head: CommitId, tree: Tree, edges: Option<seq<CommitId>>)
    requires Sound(r) && Older(r, ids) && head in r.trees
    requires edges.Some? ==> forall p | p in edges.value :: p in r.trees
    requires forall b, id: CommitId | Look(tree, MergedFromKey(b)) == Some(OfValue(Blob(ids(id)))) ::
               || Look(r.trees[head], MergedFromKey(b)) == Some(OfValue(Blob(ids(id))))
               || (edges.Some? && id in edges.value)
    ensures Sound(Added(r, head, tree, edges)) && Older(Added(r, head, tree, edges), ids)
  {
    hide MergedFromKey, Look, Reaches;
    NextIsFresh(r);
    AddedReach(r, head, tree, edges);
    hide Sound;
    var r' := Added(r, head, tree, edges);
    forall c, p | c in r'.trees && p in Edges(GraphOf(r'), c) ensures p < c {
      if c in r.trees { assert p in Edges(GraphOf(r), c); }
    }
  }

  lemma MovedOlder(r: Repo, ids: IdBytes, b: Name, c: CommitId)
    requires Sound(r) && Older(r, ids) && c in r.trees
    ensures Sound(Moved(r, b, c)) && Older(Moved(r, b, c), ids)
  {
    assert GraphOf(Moved(r, b, c)) == GraphOf(r);
  }

  /** What a merge that changes nothing does to its target's parents: joins the source to recorded ones, and otherwise
      takes the place of the manifest's. */
  lemma NoOpMergeEdges(r: Repo, c: CommitId, second: CommitId)
    requires Sound(r) && c in r.trees && second != c
    ensures var r' := WithSecondParent(r, c, c, second);
            && Edges(GraphOf(r'), c) == (if c in r.refs.commits then Joined(r.refs.commits[c], second) else [second])
            && (forall x | x != c :: Edges(GraphOf(r'), x) == Edges(GraphOf(r), x))
  {
    WithoutNone([second], c);
    assert [c, second][1..] == [second];
    assert Without([c, second], c) == Without([second], c);
  }

  lemma NoOpMergeOlder(r: Repo, ids: IdBytes, c: CommitId, second: CommitId)
    requires Sound(r) && Older(r, ids) && c in r.trees && second in r.trees && second < c
    ensures Sound(WithSecondParent(r, c, c, second)) && Older(WithSecondParent(r, c, c, second), ids)
  {
    SecondParentSound(r, c, c, second);
    NoOpMergeEdges(r, c, second);
    hide Sound;
    var r' := WithSecondParent(r, c, c, second);
    forall x, p | x in r'.trees && p in Edges(GraphOf(r'), x) ensures p < x {
      if p != second || x != c { assert p in Edges(GraphOf(r), x); }
    }
  }

  /** A merge's step: one more commit under both parents, or nothing but the merge edge. */
  lemma MergeStep(r: Repo, b: Name, tree: Tree, repacked: bool, second: CommitId)
    requires Sound(r) && b in r.refs.branches && second in r.trees
    ensures var head := r.refs.branches[b];
            var r1 := Advance(r, b, tree, repacked);
            var r' := WithSecondParent(r1, r1.refs.branches[b], head, second);
            if tree == r.trees[head] && !repacked then r' == WithSecondParent(r, head, head, second)
            else r' == Moved(Added(r, head, tree, Some(Joined([head], second))), b, r.next)
  {
    AdvanceCases(r, b, tree, repacked);
    var head := r.refs.branches[b];
    var r1 := Advance(r, b, tree, repacked);
    if tree == r.trees[head] && !repacked {
      assert Without([head], head) == [] && r.refs.branches[b := head] == r.refs.branches;
    } else {
      WithoutNone([head, second], r.next);
      WithoutNone([head], r.next);
      assert r1.refs.commits == r.refs.commits[r.next := [head]];
      var r' := WithSecondParent(r1, r.next, head, second);
      assert r'.refs.commits == r.refs.commits[r.next := Joined([head], second)];
    }
  }

  /** A merge into a head, whose tree keeps the head's merged-from records but for the source's. */
  lemma MergedOlder(r: Repo, ids: IdBytes, b: Name, tree: Tree, repacked: bool, source: Name, second: CommitId)
    requires Injective(ids) && Sound(r) && Older(r, ids) && b in r.refs.branches && r.refs.branches[b] in r.trees
             && second in r.trees
    requires Look(tree, MergedFromKey(source)) == Some(OfValue(Blob(ids(second))))
    requires forall from | from != source ::
               Look(tree, MergedFromKey(from)) == Look(HeadTree(r, b), MergedFromKey(from))
    ensures var r1 := Advance(r, b, tree, repacked);
            var r' := WithSecondParent(r1, r1.refs.branches[b], r.refs.branches[b], second);
            Sound(r') && Older(r', ids)
  {
    hide Older, Sound, MergedFromKey, Look, Advance, WithSecondParent, Injective;
    var head := r.refs.branches[b];
    MergeStep(r, b, tree, repacked, second);
    if tree == r.trees[head] && !repacked {
      RecordIsOlder(r, ids, head, source, second);
      NoOpMergeOlder(r, ids, head, second);
    } else {
      RecordsFrom(r, ids, head, tree, source, second);
      AddedOlder(r, ids, head, tree, Some(Joined([head], second)));
      MovedOlder(Added(r, head, tree, Some(Joined([head], second))), ids, b, r.next);
    }
  }

  lemma RecordsFrom(r: Repo, ids: IdBytes, head: CommitId, tree: Tree, source: Name, second: CommitId)
    requires Injective(ids) && head in r.trees && Look(tree, MergedFromKey(source)) == Some(OfValue(Blob(ids(second))))
    requires forall from | from != source :: Look(tree, MergedFromKey(from)) == Look(r.trees[head], MergedFromKey(from))
    ensures forall b, id: CommitId | Look(tree, MergedFromKey(b)) == Some(OfValue(Blob(ids(id)))) ::
              || Look(r.trees[head], MergedFromKey(b)) == Some(OfValue(Blob(ids(id))))
              || id in Joined([head], second)
  {
    hide MergedFromKey, Look;
  }

  lemma MergeOlder(r: Repo, ids: IdBytes, e: Event)
    requires Injective(ids) && Sound(r) && Older(r, ids) && e.MergeInto? && Allowed(r, e)
             && MergeWrites(r, ids, e).Some?
    ensures Sound(Step(r, ids, e)) && Older(Step(r, ids, e), ids)
  {
    hide Written, MergeWrites, Older, Sound, MergedFromKey, Look, Advance, WithSecondParent, Injective;
    HeadsStored(r);
    var tree := MergeTree(r, ids, e);
    forall from { MergeRecordsHead(r, ids, e, from); }
    MergedOlder(r, ids, e.target, tree, e.repacked, e.source, r.refs.branches[e.source]);
  }

  lemma RecordIsOlder(r: Repo, ids: IdBytes, c: CommitId, from: Name, id: CommitId)
    requires Older(r, ids) && c in r.trees && Look(r.trees[c], MergedFromKey(from)) == Some(OfValue(Blob(ids(id))))
    ensures id < c
  {
  }

  /** A commit that leaves the merged-from records alone, published on its branch or not. */
  lemma CommitOlder(r: Repo, ids: IdBytes, b: Name, tree: Tree, repacked: bool)
    requires Sound(r) && Older(r, ids) && b in r.refs.branches
    requires forall from :: Look(tree, MergedFromKey(from)) == Look(HeadTree(r, b), MergedFromKey(from))
    ensures Sound(Advance(r, b, tree, repacked)) && Older(Advance(r, b, tree, repacked), ids)
    ensures var r' := Committed(r, r.refs.branches[b], tree, repacked).0; Sound(r') && Older(r', ids)
  {
    hide Older, Sound, MergedFromKey, Look;
    HeadsStored(r);
    var head := r.refs.branches[b];
    AdvanceCases(r, b, tree, repacked);
    AddedOlder(r, ids, head, tree, Some([head]));
    MovedOlder(Added(r, head, tree, Some([head])), ids, b, r.next);
    AddedOlder(r, ids, head, tree, None);
  }

  /** Every operation keeps parents older than children: any stored commit may be rewound to. */
  lemma StepOrdered(r: Repo, ids: IdBytes, e: Event)
    requires Ordered(r, ids) && Allowed(r, e)
    ensures Ordered(Step(r, ids, e), ids)
  {
    hide Older, Sound, Written, MergeWrites;
    HeadsStored(r);
    match e
    case BranchFrom(from, name) =>
      if name !in r.refs.branches { MovedOlder(r, ids, name, r.refs.branches[from]); }
    case Write(b, kvs, extras, repacked) =>
      forall from { WriteKeepsMerged(HeadTree(r, b), b, kvs, extras, from); }
      CommitOlder(r, ids, b, Written(HeadTree(r, b), b, kvs, extras), repacked);
    case MergeInto(_, _, _, _, _, _) => if MergeWrites(r, ids, e).Some? { MergeOlder(r, ids, e); }
    case Rewind(b, to) => MovedOlder(r, ids, b, to);
    case Reindex(b, tree, repacked, published) =>
      forall from ensures Look(tree, MergedFromKey(from)) == Look(HeadTree(r, b), MergedFromKey(from)) {
        BuilderRegions(from, [], 0);
      }
      CommitOlder(r, ids, b, tree, repacked);
  }

  // ---------- runs ----------

  lemma {:induction false} RunOrdered(r: Repo, ids: IdBytes, es: seq<Event>)
    requires Ordered(r, ids) && AllowedRun(r, ids, es)
    ensures Ordered(Run(r, ids, es), ids)
    decreases |es|
  {
    if es != [] {
      StepOrdered(r, ids, es[0]);
      RunOrdered(Step(r, ids, es[0]), ids, es[1..]);
    }
  }

  lemma RootOrdered(ids: IdBytes)
    requires Injective(ids)
    ensures Ordered(ROOT, ids)
  {
    assert forall c :: Edges(GraphOf(ROOT), c) == [];
  }

  /** From the root, whatever is branched, written, merged, reindexed and rewound, to any stored commit and through
      merges whose commit is a no-op, no commit is ever its own ancestor, and every pair of heads sharing any history
      has a merge base. */
  lemma GraphAlwaysAcyclic(ids: IdBytes, es: seq<Event>)
    requires Injective(ids) && AllowedRun(ROOT, ids, es)
    ensures var r := Run(ROOT, ids, es);
            && Sound(r) && Acyclic(GraphOf(r))
            && forall a, b, c | Common(GraphOf(r), a, b, c) :: exists base :: IsBase(GraphOf(r), a, b, base)
  {
    RootOrdered(ids);
    RunOrdered(ROOT, ids, es);
    var r := Run(ROOT, ids, es);
    OlderIsAcyclic(r, ids);
    var g := GraphOf(r);
    forall a, b, c | Common(g, a, b, c) ensures exists base :: IsBase(g, a, b, base) {
      var base := BaseBelow(g, a, b, c);
    }
  }
}
