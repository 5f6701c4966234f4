/** The commits whose ancestry nothing changes any more. A merge that commits nothing can take an unrecorded commit's
    manifest parent away, so not every commit is one; those made on branches that keep to such commits are. */
module RepoTrust {
  import opened Records
  import opened Keyspace
  import opened Merge
  import opened Refs
  import opened CommitDag
  import opened Repo
  import opened RepoGraph
  import opened RepoOrder

  /** A set of commits closed under parents, each recorded or a root, whose merged-from records name ancestors. */
  ghost predicate Trusted(r: Repo, ids: IdBytes, s: set<CommitId>) {
    && Ordered(r, ids)
    && s <= r.trees.Keys && Closed(GraphOf(r), s)
    && (forall c | c in s && c in r.parents && c !in r.refs.commits :: r.parents[c].None?)
    && RecordsReach(r, ids, s)
  }

  ghost predicate RecordsReach(r: Repo, ids: IdBytes, s: set<CommitId>) {
    forall c, b, id: CommitId | c in s && c in r.trees
                                && Look(r.trees[c], MergedFromKey(b)) == Some(OfValue(Blob(ids(id)))) ::
      c in r.refs.commits && Reaches(GraphOf(r), c, id)
  }

  /** Ancestry within the set is as it was. */
  ghost predicate SameBelow(r: Repo, r': Repo, s: set<CommitId>) {
    forall a, c | a in s :: Reaches(GraphOf(r'), a, c) <==> Reaches(GraphOf(r), a, c)
  }

  /** What the set becomes: a commit made on a head in it joins it, if what it merges is in it too. */
  ghost function TrustedAfter(r: Repo, ids: IdBytes, s: set<CommitId>, e: Event): set<CommitId>
    requires Sound(r) && Allowed(r, e)
  {
    if Step(r, ids, e).next == r.next then s
    else
      match e
      case Write(b, _, _, _) => if r.refs.branches[b] in s then s + {r.next} else s
      case MergeInto(from, t, _, _, _, _) =>
        if r.refs.branches[t] in s && r.refs.branches[from] in s then s + {r.next} else s
      case Reindex(b, _, _, published) => if published && r.refs.branches[b] in s then s + {r.next} else s
      case _ => s
  }

  lemma RootTrusted(ids: IdBytes)
    requires Injective(ids)
    ensures Trusted(ROOT, ids, {0})
  {
    RootOrdered(ids);
    assert forall c :: Edges(GraphOf(ROOT), c) == [];
  }

  // ---------- every step ----------

  /** A fresh commit whose records name what its head's did, or its parents. */
  lemma AddedRecords(r: Repo, ids: IdBytes, s: set<CommitId>, head: CommitId, tree: Tree, ps: seq<CommitId>)
    requires Sound(r) && s <= r.trees.Keys && RecordsReach(r, ids, s) && head in r.trees && head in ps
    requires forall p | p in ps :: p in r.trees
    requires forall b, id: CommitId | Look(tree, MergedFromKey(b)) == Some(OfValue(Blob(ids(id)))) ::
               Look(r.trees[head], MergedFromKey(b)) == Some(OfValue(Blob(ids(id)))) || id in ps
    ensures var r' := Added(r, head, tree, Some(ps));
            RecordsReach(r', ids, s) && (head in s ==> RecordsReach(r', ids, s + {r.next}))
  {
    hide MergedFromKey, Look, Reaches, Edges, GraphOf;
    HeadsStored(r);
    AddedReach(r, head, tree, Some(ps));
    hide Sound;
    var r' := Added(r, head, tree, Some(ps));
    if head in s {
      forall b, id: CommitId | Look(tree, MergedFromKey(b)) == Some(OfValue(Blob(ids(id))))
        ensures Reaches(GraphOf(r'), r.next, id)
      {
        if Look(r.trees[head], MergedFromKey(b)) == Some(OfValue(Blob(ids(id)))) {
          assert Reaches(GraphOf(r), head, id);
        } else {
          ReachesSelf(GraphOf(r), id);
        }
      }
    }
  }

  /** A fresh commit on a head, trusted if its parents are. */
  lemma AddedTrusted(r: Repo, ids: IdBytes, s: set<CommitId>, head: CommitId, tree: Tree, ps: seq<CommitId>)
    requires Trusted(r, ids, s) && head in r.trees && head in ps && forall p | p in ps :: p in r.trees
    requires Ordered(Added(r, head, tree, Some(ps)), ids)
    requires forall b, id: CommitId | Look(tree, MergedFromKey(b)) == Some(OfValue(Blob(ids(id)))) ::
               Look(r.trees[head], MergedFromKey(b)) == Some(OfValue(Blob(ids(id)))) || id in ps
    ensures var r' := Added(r, head, tree, Some(ps));
            && Trusted(r', ids, s) && SameBelow(r, r', s)
            && ((forall p | p in ps :: p in s) ==> Trusted(r', ids, s + {r.next}))
  {
    assert Sound(r) by { OrderedSound(r, ids); }
    HeadsStored(r);
    AddedRecords(r, ids, s, head, tree, ps);
    hide MergedFromKey, Look, Reaches, Ordered, Edges, RecordsReach;
    AddedReach(r, head, tree, Some(ps));
    hide GraphOf, Sound;
  }

  lemma UnpublishedTrusted(r: Repo, ids: IdBytes, s: set<CommitId>, head: CommitId, tree: Tree)
    requires Trusted(r, ids, s) && head in r.trees && Ordered(Added(r, head, tree, None), ids)
    ensures Trusted(Added(r, head, tree, None), ids, s) && SameBelow(r, Added(r, head, tree, None), s)
  {
    hide MergedFromKey, Look, Reaches, Ordered, Edges;
    assert Sound(r) by { OrderedSound(r, ids); }
    HeadsStored(r);
    AddedReach(r, head, tree, None);
    hide GraphOf, Sound;
  }

  lemma MovedTrusted(r: Repo, ids: IdBytes, s: set<CommitId>, b: Name, c: CommitId)
    requires Trusted(r, ids, s) && Ordered(Moved(r, b, c), ids)
    ensures Trusted(Moved(r, b, c), ids, s) && SameBelow(r, Moved(r, b, c), s)
  {
    hide Ordered, Look, Reaches;
    assert GraphOf(Moved(r, b, c)) == GraphOf(r);
  }

  /** A merge that commits nothing changes no trusted ancestry: on a trusted head the edge it records was there to
      follow already, and no other head is below the trusted ones. */
  lemma NoOpTrusted(r: Repo, ids: IdBytes, s: set<CommitId>, head: CommitId, from: Name, second: CommitId)
    requires Trusted(r, ids, s) && head in r.trees && second in r.trees && second != head
    requires Look(r.trees[head], MergedFromKey(from)) == Some(OfValue(Blob(ids(second))))
    requires Ordered(WithSecondParent(r, head, head, second), ids)
    ensures var r' := WithSecondParent(r, head, head, second);
            Trusted(r', ids, s) && SameBelow(r, r', s)
  {
    hide MergedFromKey, Look, Reaches, Ordered;
    var r' := WithSecondParent(r, head, head, second);
    var (g, g') := (GraphOf(r), GraphOf(r'));
    assert Sound(r) by { OrderedSound(r, ids); }
    NoOpMergeEdges(r, head, second);
    assert r'.trees == r.trees && r'.parents == r.parents && r.refs.commits.Keys <= r'.refs.commits.Keys;
    hide Sound, WithSecondParent, GraphOf;
    if head in s {
      assert head in r.refs.commits && Reaches(g, head, second);
      ClosedReaches(g, s, head, second);
      RecordedEdges(r, head);
      forall a, x ensures Reaches(g', a, x) <==> Reaches(g, a, x) { RedundantEdge(g, g', head, second, a, x); }
    } else {
      forall a, x | a in s ensures Reaches(g', a, x) <==> Reaches(g, a, x) { SameReach(g, g', s, a, x); }
    }
  }

  lemma RecordedEdges(r: Repo, c: CommitId)
    requires c in r.refs.commits
    ensures Edges(GraphOf(r), c) == r.refs.commits[c]
  {
  }

  /** A commit on a branch that leaves the merged-from records alone. */
  lemma CommitTrusted(r: Repo, ids: IdBytes, s: set<CommitId>, b: Name, tree: Tree, repacked: bool)
    requires Trusted(r, ids, s) && b in r.refs.branches
    requires forall from :: Look(tree, MergedFromKey(from)) == Look(HeadTree(r, b), MergedFromKey(from))
    ensures var r' := Advance(r, b, tree, repacked);
            && Trusted(r', ids, if r'.next != r.next && r.refs.branches[b] in s then s + {r.next} else s)
            && SameBelow(r, r', s)
    ensures var r' := Committed(r, r.refs.branches[b], tree, repacked).0; Trusted(r', ids, s) && SameBelow(r, r', s)
  {
    hide Older, Sound, MergedFromKey, Look, Reaches, GraphOf, RecordsReach, Closed;
    assert Sound(r) by { OrderedSound(r, ids); }
    HeadsStored(r);
    var head := r.refs.branches[b];
    AdvanceCases(r, b, tree, repacked);
    AddedOlder(r, ids, head, tree, Some([head]));
    AddedOlder(r, ids, head, tree, None);
    var r1 := Added(r, head, tree, Some([head]));
    MovedOlder(r1, ids, b, r.next);
    AddedTrusted(r, ids, s, head, tree, [head]);
    UnpublishedTrusted(r, ids, s, head, tree);
    MovedTrusted(r1, ids, s, b, r.next);
    if head in s { MovedTrusted(r1, ids, s + {r.next}, b, r.next); }
  }

  lemma MergeFresh(r: Repo, ids: IdBytes, s: set<CommitId>, b: Name, tree: Tree, source: Name, second: CommitId)
    requires Trusted(r, ids, s) && b in r.refs.branches && r.refs.branches[b] in r.trees && second in r.trees
    requires Look(tree, MergedFromKey(source)) == Some(OfValue(Blob(ids(second))))
    requires forall from | from != source ::
               Look(tree, MergedFromKey(from)) == Look(HeadTree(r, b), MergedFromKey(from))
    ensures var head := r.refs.branches[b];
            var r' := Moved(Added(r, head, tree, Some(Joined([head], second))), b, r.next);
            && Trusted(r', ids, if head in s && second in s then s + {r.next} else s) && SameBelow(r, r', s)
  {
    hide Older, Sound, MergedFromKey, Look, Reaches, GraphOf, RecordsReach, Closed;
    assert Sound(r) by { OrderedSound(r, ids); }
    var head := r.refs.branches[b];
    var ps := Joined([head], second);
    RecordsFrom(r, ids, head, tree, source, second);
    AddedOlder(r, ids, head, tree, Some(ps));
    var r1 := Added(r, head, tree, Some(ps));
    MovedOlder(r1, ids, b, r.next);
    AddedTrusted(r, ids, s, head, tree, ps);
    MovedTrusted(r1, ids, s, b, r.next);
    if head in s && second in s { MovedTrusted(r1, ids, s + {r.next}, b, r.next); }
  }

  lemma MergeTrusted(r: Repo, ids: IdBytes, s: set<CommitId>, e: Event)
    requires Trusted(r, ids, s) && e.MergeInto? && Allowed(r, e) && MergeWrites(r, ids, e).Some?
    ensures Trusted(Step(r, ids, e), ids, TrustedAfter(r, ids, s, e)) && SameBelow(r, Step(r, ids, e), s)
  {
    hide Trusted, SameBelow, Older, Sound, MergedFromKey, Look, Reaches, GraphOf, MergeTree, MergeWrites, Advance,
         WithSecondParent, Written;
    TrustedOrdered(r, ids, s);
    HeadsStored(r);
    StepOrdered(r, ids, e);
    var (head, second, tree) := (r.refs.branches[e.target], r.refs.branches[e.source], MergeTree(r, ids, e));
    forall from { MergeRecordsHead(r, ids, e, from); }
    MergeStep(r, e.target, tree, e.repacked, second);
    if tree == r.trees[head] && !e.repacked {
      RecordIsOlder(r, ids, head, e.source, second);
      NoOpTrusted(r, ids, s, head, e.source, second);
      NoOpNext(r, head, second);
    } else {
      MergeFresh(r, ids, s, e.target, tree, e.source, second);
    }
  }

  lemma TrustedOrdered(r: Repo, ids: IdBytes, s: set<CommitId>)
    requires Trusted(r, ids, s)
    ensures Ordered(r, ids) && Sound(r)
  {
    OrderedSound(r, ids);
  }

  lemma NoOpNext(r: Repo, c: CommitId, second: CommitId)
    ensures WithSecondParent(r, c, c, second).next == r.next
  {
  }

  /** **Whatever happens, trusted commits stay trusted, with the ancestors they had.** */
  lemma StepTrusted(r: Repo, ids: IdBytes, s: set<CommitId>, e: Event)
    requires Trusted(r, ids, s) && Allowed(r, e)
    ensures Trusted(Step(r, ids, e), ids, TrustedAfter(r, ids, s, e)) && SameBelow(r, Step(r, ids, e), s)
  {
    hide Older, Written, MergeWrites, Reaches, RecordsReach, Closed, GraphOf, Advance, Committed, Recorded, Edges;
    hide Sound;
    assert Sound(r) by { OrderedSound(r, ids); }
    HeadsStored(r);
    StepOrdered(r, ids, e);
    match e
    case BranchFrom(from, name) =>
      if name !in r.refs.branches { MovedTrusted(r, ids, s, name, r.refs.branches[from]); } else { SameSelf(r, s); }
    case Rewind(b, to) => MovedTrusted(r, ids, s, b, to);
    case Write(b, kvs, extras, repacked) =>
      forall from { WriteKeepsMerged(HeadTree(r, b), b, kvs, extras, from); }
      CommitTrusted(r, ids, s, b, Written(HeadTree(r, b), b, kvs, extras), repacked);
    case Reindex(b, tree, repacked, published) =>
      forall from ensures Look(tree, MergedFromKey(from)) == Look(HeadTree(r, b), MergedFromKey(from)) {
        BuilderRegions(from, [], 0);
      }
      CommitTrusted(r, ids, s, b, tree, repacked);
    case MergeInto(_, _, _, _, _, _) =>
      if MergeWrites(r, ids, e).Some? { MergeTrusted(r, ids, s, e); } else { SameSelf(r, s); }
  }

  lemma SameSelf(r: Repo, s: set<CommitId>)
    ensures SameBelow(r, r, s)
  {
  }

  // ---------- runs ----------

  ghost function TrustedRun(r: Repo, ids: IdBytes, s: set<CommitId>, es: seq<Event>): set<CommitId>
    requires AllowedRun(r, ids, es)
    decreases |es|
  {
    if es == [] then s else TrustedRun(Step(r, ids, es[0]), ids, TrustedAfter(r, ids, s, es[0]), es[1..])
  }

  lemma {:induction false} RunTrusted(r: Repo, ids: IdBytes, s: set<CommitId>, es: seq<Event>)
    requires Trusted(r, ids, s) && AllowedRun(r, ids, es)
    ensures Trusted(Run(r, ids, es), ids, TrustedRun(r, ids, s, es))
    decreases |es|
  {
    if es != [] {
      StepTrusted(r, ids, s, es[0]);
      RunTrusted(Step(r, ids, es[0]), ids, TrustedAfter(r, ids, s, es[0]), es[1..]);
    }
  }

  /** The rewinds of a run go to trusted commits. */
  ghost predicate RewindsTrusted(r: Repo, ids: IdBytes, s: set<CommitId>, es: seq<Event>)
    requires AllowedRun(r, ids, es)
    decreases |es|
  {
    es == [] || ((es[0].Rewind? ==> es[0].to in s)
                 && RewindsTrusted(Step(r, ids, es[0]), ids, TrustedAfter(r, ids, s, es[0]), es[1..]))
  }

  ghost predicate HeadsIn(r: Repo, s: set<CommitId>) { forall b | b in r.refs.branches :: r.refs.branches[b] in s }

  lemma StepHeadsIn(r: Repo, ids: IdBytes, s: set<CommitId>, e: Event)
    requires Sound(r) && Allowed(r, e) && HeadsIn(r, s) && (e.Rewind? ==> e.to in s)
    ensures HeadsIn(Step(r, ids, e), TrustedAfter(r, ids, s, e))
  {
    hide Written, MergeWrites, MergeTree, SameOutsideIndex, Sound;
    HeadsStored(r);
    if e.MergeInto? && MergeWrites(r, ids, e).Some? {
      MergeStep(r, e.target, MergeTree(r, ids, e), e.repacked, r.refs.branches[e.source]);
    }
  }

  /** **Every head is trusted, always, in a run that never rewinds to a commit an index build left unpublished**, or
      made on top of one: from any head, then, a branch can be forked off and its merges counted. */
  lemma {:induction false} RunHeadsIn(r: Repo, ids: IdBytes, s: set<CommitId>, es: seq<Event>)
    requires Trusted(r, ids, s) && HeadsIn(r, s) && AllowedRun(r, ids, es) && RewindsTrusted(r, ids, s, es)
    ensures HeadsIn(Run(r, ids, es), TrustedRun(r, ids, s, es))
    decreases |es|
  {
    if es != [] {
      StepTrusted(r, ids, s, es[0]);
      StepHeadsIn(r, ids, s, es[0]);
      RunHeadsIn(Step(r, ids, es[0]), ids, TrustedAfter(r, ids, s, es[0]), es[1..]);
    }
  }
}
