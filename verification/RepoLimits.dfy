/** Where the commit graph's promises end: a merge that commits nothing onto a head nobody recorded. */
module RepoLimits {
  import opened Records
  import opened Keyspace
  import opened Merge
  import opened Refs
  import opened CommitDag
  import opened Repo
  import opened RepoGraph
  import opened RepoOrder
  import opened RepoTrust
  import opened RepoMerges
  import opened RepoCounting

  /** A merge that changes nothing on its target keeps all the target's parents exactly when the head is recorded, or
      its manifest names no parent, or names the source's head. */
  lemma NoOpMergeKeepsParents(r: Repo, c: CommitId, second: CommitId)
    requires Sound(r) && c in r.trees && second != c
    ensures (forall p | p in Edges(GraphOf(r), c) :: p in Edges(GraphOf(WithSecondParent(r, c, c, second)), c)) <==>
              c in r.refs.commits || r.parents[c].None? || r.parents[c] == Some(second)
  {
    NoOpMergeEdges(r, c, second);
    if c !in r.refs.commits && r.parents[c].Some? { assert r.parents[c].value in Edges(GraphOf(r), c); }
  }

  /** X has just been merged into T. Make a commit on T's head that is not published, as an index build that lost its
      race does; take T there; and merge X again. */
  ghost function Orphaning(r: Repo, t: Name, again: Event): seq<Event>
    requires t in r.refs.branches && r.refs.branches[t] in r.trees
  {
    [Reindex(t, HeadTree(r, t), true, false)] + ([Rewind(t, r.next)] + ([again] + []))
  }

  /** T on an unpublished copy of its head. */
  function OnCopy(r: Repo, t: Name): Repo
    requires t in r.refs.branches && r.refs.branches[t] in r.trees
  {
    Moved(Added(r, r.refs.branches[t], HeadTree(r, t), None), t, r.next)
  }

  lemma CopyRuns(r: Repo, ids: IdBytes, t: Name, again: Event)
    requires Sound(r) && t in r.refs.branches && r.refs.branches[t] in r.trees
    requires Sound(OnCopy(r, t)) && Allowed(OnCopy(r, t), again)
    ensures AllowedRun(r, ids, Orphaning(r, t, again))
            && Run(r, ids, Orphaning(r, t, again)) == Step(OnCopy(r, t), ids, again)
  {
    hide Sound, GraphOf, Edges, Reaches, Allowed, Step, Run, AllowedRun;
    ReindexIs(r, ids, t);
    var r1 := Added(r, r.refs.branches[t], HeadTree(r, t), None);
    RewindIs(r1, ids, t, r.next);
    RunNothing(Step(OnCopy(r, t), ids, again), ids);
    RunFirst(OnCopy(r, t), ids, again, []);
    RunFirst(r1, ids, Rewind(t, r.next), [again] + []);
    RunFirst(r, ids, Reindex(t, HeadTree(r, t), true, false), [Rewind(t, r.next)] + ([again] + []));
  }

  /** What the copy's history is. */
  lemma CopyHistory(r: Repo, ids: IdBytes, s: set<CommitId>, x: Name, t: Name)
    requires x in r.refs.branches && Tracks(r, ids, s, x, t, r.refs.branches[x])
    ensures r.refs.branches[t] in r.trees && Ordered(OnCopy(r, t), ids) && Trusted(OnCopy(r, t), ids, s)
    ensures var (g, hx, ht, c) := (GraphOf(OnCopy(r, t)), r.refs.branches[x], r.refs.branches[t], r.next);
            && c !in s && c !in OnCopy(r, t).refs.commits && Edges(g, c) == [ht] && Reaches(g, c, ht)
            && BaseOf(g, hx, c) == Some(hx) && (ht != hx ==> !Reaches(g, hx, ht))
  {
    hide Look, MergedFromKey, Reaches, RecordsReach, Older, Edges;
    TrustedOrdered(r, ids, s);
    HeadsStored(r);
    var (hx, ht, tree) := (r.refs.branches[x], r.refs.branches[t], HeadTree(r, t));
    AddedOlder(r, ids, ht, tree, None);
    var r1 := Added(r, ht, tree, None);
    MovedOlder(r1, ids, t, r.next);
    UnpublishedTrusted(r, ids, s, ht, tree);
    MovedTrusted(r1, ids, s, t, r.next);
    AddedReach(r, ht, tree, None);
    OrderedSound(OnCopy(r, t), ids);
    var g := GraphOf(OnCopy(r, t));
    assert g == GraphOf(r1);
    ReachesSelf(g, ht);
    ReachesSelf(g, hx);
    if Reaches(g, hx, ht) && ht != hx { AcyclicAntisymmetric(g, hx, ht); }
    BetweenBase(g, hx, r.next, hx);
  }

  /** **The promise that a merged head stays in its branch's history fails there**: T's head ends without the merge
      commit among its ancestors. */
  lemma MergeOrphaned(r: Repo, ids: IdBytes, s: set<CommitId>, x: Name, t: Name, again: Event)
    requires x in r.refs.branches && Tracks(r, ids, s, x, t, r.refs.branches[x]) && r.refs.branches[t] in r.trees
    requires Look(HeadTree(r, t), MergedFromKey(x)) == Some(OfValue(Blob(ids(r.refs.branches[x]))))
    requires again.MergeInto? && again.source == x && again.target == t && !again.repacked
    ensures Sound(r) && AllowedRun(r, ids, Orphaning(r, t, again))
    ensures var (r', hx, ht) := (Run(r, ids, Orphaning(r, t, again)), r.refs.branches[x], r.refs.branches[t]);
            && t in r'.refs.branches && Edges(GraphOf(r'), r'.refs.branches[t]) == [hx]
            && !Reaches(GraphOf(r'), r'.refs.branches[t], ht)
  {
    hide Look, MergedFromKey, Reaches, RecordsReach, MergeWrites, Written, WithSecondParent, BaseOf, Trusted,
         Edges;
    TrustedOrdered(r, ids, s);
    CopyHistory(r, ids, s, x, t);
    var (r2, hx, ht, c) := (OnCopy(r, t), r.refs.branches[x], r.refs.branches[t], r.next);
    TrustedOrdered(r2, ids, s);
    HeadsStored(r);
    hide Sound;
    CopyRuns(r, ids, t, again);
    OnlyBookkeepingWrites(r2, ids, again);
    OnlyBookkeepingMerge(HeadTree(r, t), t, x, ids(hx), again.extras.(hints := map[]));
    MergeStep(r2, t, HeadTree(r, t), false, hx);
    RecordIsOlder(r, ids, ht, x, hx);
    var r3 := WithSecondParent(r2, c, c, hx);
    assert Step(r2, ids, again) == r3;
    NoOpIs(r2, c, hx);
    NoOpMergeEdges(r2, c, hx);
    StepTrusted(r2, ids, s, again);
    ReachesFirst(GraphOf(r3), c, ht);
  }

  /** The shortest such run from a new database: branch X off main, merge it back, and go on as above. */
  lemma OrphanedFromRoot(ids: IdBytes, x: Name, merge: Event, again: Event)
    requires Injective(ids) && x != MAIN
    requires forall e | e in {merge, again} :: e.MergeInto? && e.source == x && e.target == MAIN && !e.repacked
    ensures AllowedRun(ROOT, ids, [BranchFrom(MAIN, x)] + ([merge] + []))
    ensures var r := Run(ROOT, ids, [BranchFrom(MAIN, x)] + ([merge] + []));
            && MAIN in r.refs.branches && r.refs.branches[MAIN] in r.trees
            && AllowedRun(r, ids, Orphaning(r, MAIN, again))
            && var r' := Run(r, ids, Orphaning(r, MAIN, again));
            && MAIN in r'.refs.branches && Edges(GraphOf(r'), r'.refs.branches[MAIN]) == [0]
            && !Reaches(GraphOf(r'), r'.refs.branches[MAIN], r.refs.branches[MAIN])
  {
    hide Look, MergedFromKey, Reaches, RecordsReach, MergeWrites, Written, WithSecondParent, BaseOf, Trusted, Edges,
         Between, Step;
    RootTrusted(ids);
    ForkTracks(ROOT, ids, {0}, x, MAIN);
    var r1 := Step(ROOT, ids, BranchFrom(MAIN, x));
    assert r1.refs.branches[x] == 0 && r1.refs.branches[MAIN] == 0 by { ForkHeads(ids, x); }
    TrustedOrdered(r1, ids, {0});
    BaseIsLast(r1, ids, {0}, x, MAIN, 0);
    OnlyBookkeepingWrites(r1, ids, merge);
    MergeTracks(r1, ids, {0}, x, MAIN, 0, merge);
    MergeDoes(r1, ids, merge);
    MergeRecordsHead(r1, ids, merge, x);
    var r := Step(r1, ids, merge);
    hide Sound, MergeTree;
    RunNothing(r, ids);
    RunFirst(r1, ids, merge, []);
    RunFirst(ROOT, ids, BranchFrom(MAIN, x), [merge] + []);
    MergeOrphaned(r, ids, TrustedAfter(r1, ids, {0}, merge), x, MAIN, again);
  }

  lemma ForkHeads(ids: IdBytes, x: Name)
    requires Sound(ROOT) && x != MAIN
    ensures var r := Step(ROOT, ids, BranchFrom(MAIN, x));
            r.refs.branches == map[MAIN := 0, x := 0] && r.trees == ROOT.trees
  {
  }
}
