/** Repeated merges of X into T never double-count. */
module RepoCounting {
  import opened Bytes
  import opened Records
  import opened Keyspace
  import opened KeyOrder
  import opened MergeRules
  import opened Merge
  import opened Refs
  import opened CommitDag
  import opened Repo
  import opened RepoGraph
  import opened RepoOrder
  import opened RepoTrust
  import opened RepoMerges
  import WriteExtras

  // ---------- the merge base is always X's head at the last merge ----------

  /** X and T share the history of X's head at its last merge into T, or at the fork, and no more; and that history is
      among the trusted commits. */
  ghost predicate Tracks(r: Repo, ids: IdBytes, s: set<CommitId>, x: Name, t: Name, last: CommitId) {
    && Trusted(r, ids, s) && x != t && x in r.refs.branches && t in r.refs.branches
    && r.refs.branches[x] in s && r.refs.branches[t] in s && last in s
    && Between(GraphOf(r), r.refs.branches[x], r.refs.branches[t], last)
  }

  ghost predicate Between(g: Graph, hx: CommitId, ht: CommitId, last: CommitId) {
    Reaches(g, hx, last) && Reaches(g, ht, last) && forall c | Common(g, hx, ht, c) :: Reaches(g, last, c)
  }

  lemma BetweenBase(g: Graph, hx: CommitId, ht: CommitId, last: CommitId)
    requires Acyclic(g) && Between(g, hx, ht, last)
    ensures BaseOf(g, hx, ht) == Some(last)
  {
    forall o | Common(g, hx, ht, o) && o != last ensures !Reaches(g, o, last) {
      if Reaches(g, o, last) { AcyclicAntisymmetric(g, o, last); }
    }
    forall d | IsBase(g, hx, ht, d) ensures d == last { }
    assert UniqueBase(g, hx, ht, last);
  }

  lemma BaseIsLast(r: Repo, ids: IdBytes, s: set<CommitId>, x: Name, t: Name, last: CommitId)
    requires Tracks(r, ids, s, x, t, last)
    ensures BaseOf(GraphOf(r), r.refs.branches[x], r.refs.branches[t]) == Some(last)
  {
    OrderedSound(r, ids);
    BetweenBase(GraphOf(r), r.refs.branches[x], r.refs.branches[t], last);
  }

  /** X is not rewound and merges nothing; T is not rewound and merges only X; everything else is free. */
  ghost predicate Calm(r: Repo, x: Name, t: Name, e: Event) {
    && Sound(r) && Allowed(r, e)
    && (e.Rewind? ==> e.b != x && e.b != t)
    && (e.MergeInto? ==> e.target != x && (e.target == t ==> e.source == x))
  }

  lemma AdvanceOthers(r: Repo, b: Name, tree: Tree, repacked: bool)
    requires Sound(r) && b in r.refs.branches && r.refs.branches[b] in r.trees
    ensures var r' := Advance(r, b, tree, repacked);
            && (forall c | c in r.trees :: c in r'.trees && r'.trees[c] == r.trees[c])
            && forall x | x in r.refs.branches && x != b ::
                 x in r'.refs.branches && r'.refs.branches[x] == r.refs.branches[x]
  {
  }

  /** No event touches what is stored, or any head but that of the branch it acts on. */
  lemma OthersStay(r: Repo, ids: IdBytes, e: Event)
    requires Sound(r) && Allowed(r, e)
    ensures var r' := Step(r, ids, e);
            && (forall c | c in r.trees :: c in r'.trees && r'.trees[c] == r.trees[c])
            && forall b | b in r.refs.branches && !(e.Write? && e.b == b) && !(e.MergeInto? && e.target == b)
                          && !(e.Rewind? && e.b == b) && !(e.Reindex? && e.b == b) ::
                 b in r'.refs.branches && r'.refs.branches[b] == r.refs.branches[b]
  {
    hide Written, MergeWrites, MergeTree, Sound, Advance;
    HeadsStored(r);
    match e
    case Write(b, kvs, extras, repacked) => AdvanceOthers(r, b, Written(HeadTree(r, b), b, kvs, extras), repacked);
    case MergeInto(_, t, _, _, _, repacked) =>
      if MergeWrites(r, ids, e).Some? { AdvanceOthers(r, t, MergeTree(r, ids, e), repacked); }
    case Reindex(b, tree, repacked, _) => AdvanceOthers(r, b, tree, repacked);
    case _ =>
  }

  /** Who X's last merged head is after an event. */
  ghost function LastAfter(r: Repo, ids: IdBytes, x: Name, t: Name, last: CommitId, e: Event): CommitId
    requires Sound(r) && Allowed(r, e)
  {
    if e.MergeInto? && e.target == t && e.source == x && MergeWrites(r, ids, e).Some? then r.refs.branches[x] else last
  }

  /** Heads that stay keep their shared history. */
  lemma StillBetween(r: Repo, r': Repo, s: set<CommitId>, hx: CommitId, ht: CommitId, last: CommitId)
    requires Between(GraphOf(r), hx, ht, last) && SameBelow(r, r', s) && hx in s && ht in s && last in s
    ensures Between(GraphOf(r'), hx, ht, last)
  {
    hide Reaches;
    forall c | Common(GraphOf(r'), hx, ht, c) ensures Reaches(GraphOf(r'), last, c) {
      assert Common(GraphOf(r), hx, ht, c);
    }
  }

  /** A fresh commit on one of the two heads is shared with nobody. */
  lemma AdvancedBetween(r: Repo, r': Repo, s: set<CommitId>, head: CommitId, other: CommitId, last: CommitId)
    requires SameBelow(r, r', s) && head in s && other in s && last in s && r.next !in s && Closed(GraphOf(r), s)
    requires Edges(GraphOf(r'), r.next) == [head]
    ensures Between(GraphOf(r), head, other, last) ==> Between(GraphOf(r'), r.next, other, last)
    ensures Between(GraphOf(r), other, head, last) ==> Between(GraphOf(r'), other, r.next, last)
  {
    hide Reaches, GraphOf, Edges;
    var (g, g') := (GraphOf(r), GraphOf(r'));
    forall c ensures Reaches(g', r.next, c) <==> c == r.next || Reaches(g, head, c) { ReachesFirst(g', r.next, c); }
    if Reaches(g', other, r.next) { ClosedReaches(g, s, other, r.next); }
    forall c | Common(g', r.next, other, c) ensures Common(g, head, other, c) && Common(g, other, head, c) { }
    forall c | Common(g', other, r.next, c) ensures Common(g, head, other, c) && Common(g, other, head, c) { }
  }

  /** What a commit on a branch comes to. */
  lemma CommitIs(r: Repo, b: Name, tree: Tree, repacked: bool)
    requires Sound(r) && b in r.refs.branches && r.refs.branches[b] in r.trees
    ensures var r' := Advance(r, b, tree, repacked);
            || r' == r
            || (r'.next != r.next && r'.refs.branches == r.refs.branches[b := r.next]
                && Edges(GraphOf(r'), r.next) == [r.refs.branches[b]])
    ensures var r' := Committed(r, r.refs.branches[b], tree, repacked).0; r'.refs.branches == r.refs.branches
  {
    hide Sound;
    AdvanceCases(r, b, tree, repacked);
  }

  lemma CommitTracks(r: Repo, ids: IdBytes, s: set<CommitId>, x: Name, t: Name, last: CommitId, b: Name, r': Repo,
                     s': set<CommitId>)
    requires Tracks(r, ids, s, x, t, last) && Trusted(r', ids, s') && SameBelow(r, r', s)
    requires r'.next != r.next && r'.refs.branches == r.refs.branches[b := r.next] && b in r.refs.branches
    requires Edges(GraphOf(r'), r.next) == [r.refs.branches[b]]
    requires s' == if r.refs.branches[b] in s then s + {r.next} else s
    ensures Tracks(r', ids, s', x, t, last)
  {
    hide Reaches, Ordered, RecordsReach, Edges, GraphOf, Between;
    var (hx, ht) := (r.refs.branches[x], r.refs.branches[t]);
    assert r.next !in s by { TrustedOrdered(r, ids, s); HeadsStored(r); }
    StillBetween(r, r', s, hx, ht, last);
    if b == x { AdvancedBetween(r, r', s, hx, ht, last); }
    if b == t { AdvancedBetween(r, r', s, ht, hx, last); }
  }

  lemma MergeTracks(r: Repo, ids: IdBytes, s: set<CommitId>, x: Name, t: Name, last: CommitId, e: Event)
    requires Tracks(r, ids, s, x, t, last) && e.MergeInto? && e.source == x && e.target == t && Allowed(r, e)
    requires MergeWrites(r, ids, e).Some?
    ensures Tracks(Step(r, ids, e), ids, TrustedAfter(r, ids, s, e), x, t, r.refs.branches[x])
  {
    hide Reaches, MergeWrites, MergeTree, Written, Ordered, RecordsReach, GraphOf, Closed, Step, Edges;
    TrustedOrdered(r, ids, s);
    HeadsStored(r);
    StepTrusted(r, ids, s, e);
    MergeDoes(r, ids, e);
    MergeRecordsHead(r, ids, e, x);
    var (r', hx) := (Step(r, ids, e), r.refs.branches[x]);
    var (g', ht') := (GraphOf(r'), r'.refs.branches[t]);
    ReachesSelf(g', hx);
    assert Reaches(g', ht', hx) by {
      if r'.next == r.next {
        TrustedRecord(r, ids, s, r.refs.branches[t], x, hx);
      } else {
        RecordedEdges(r', r.next);
        ReachesStep(g', r.next, hx, hx);
      }
    }
  }

  lemma TrustedRecord(r: Repo, ids: IdBytes, s: set<CommitId>, c: CommitId, from: Name, id: CommitId)
    requires Trusted(r, ids, s) && c in s && c in r.trees
    requires Look(r.trees[c], MergedFromKey(from)) == Some(OfValue(Blob(ids(id))))
    ensures c in r.refs.commits && Reaches(GraphOf(r), c, id) && id != c
  {
    hide Look, MergedFromKey, Reaches;
    RecordIsOlder(r, ids, c, from, id);
  }

  /** Nothing happened to either branch. */
  lemma StillTracks(r: Repo, ids: IdBytes, s: set<CommitId>, x: Name, t: Name, last: CommitId, r': Repo,
                    s': set<CommitId>)
    requires Tracks(r, ids, s, x, t, last) && Trusted(r', ids, s') && s <= s' && SameBelow(r, r', s)
    requires x in r'.refs.branches && r'.refs.branches[x] == r.refs.branches[x]
    requires t in r'.refs.branches && r'.refs.branches[t] == r.refs.branches[t]
    ensures Tracks(r', ids, s', x, t, last)
  {
    hide Reaches, Ordered, RecordsReach, GraphOf, Closed, Between;
    StillBetween(r, r', s, r.refs.branches[x], r.refs.branches[t], last);
  }

  /** A commit on some branch. */
  lemma AdvanceTracks(r: Repo, ids: IdBytes, s: set<CommitId>, x: Name, t: Name, last: CommitId, b: Name, tree: Tree,
                      repacked: bool, s': set<CommitId>)
    requires Tracks(r, ids, s, x, t, last) && b in r.refs.branches && r.refs.branches[b] in r.trees
    requires var r' := Advance(r, b, tree, repacked);
             && Trusted(r', ids, s') && SameBelow(r, r', s)
             && s' == if r'.next != r.next && r.refs.branches[b] in s then s + {r.next} else s
    ensures Tracks(Advance(r, b, tree, repacked), ids, s', x, t, last)
  {
    TrustedOrdered(r, ids, s);
    hide Trusted, SameBelow, Between, Sound, Advance, GraphOf, Edges;
    CommitIs(r, b, tree, repacked);
    var r' := Advance(r, b, tree, repacked);
    if r' == r { StillTracks(r, ids, s, x, t, last, r', s'); } else { CommitTracks(r, ids, s, x, t, last, b, r', s'); }
  }

  /** **The merge base of X and T is X's head at its last merge into T**, after every calm event, whatever other
      branches are rewound to. */
  lemma StepTracks(r: Repo, ids: IdBytes, s: set<CommitId>, x: Name, t: Name, last: CommitId, e: Event)
    requires Tracks(r, ids, s, x, t, last) && Calm(r, x, t, e)
    ensures Tracks(Step(r, ids, e), ids, TrustedAfter(r, ids, s, e), x, t, LastAfter(r, ids, x, t, last, e))
  {
    TrustedOrdered(r, ids, s);
    hide Trusted, SameBelow, Between, MergeWrites, Written, MergeTree, Sound, Advance, Committed, GraphOf, Edges,
         SameOutsideIndex, WithSecondParent, Tracks, Step;
    TracksAre(r, ids, s, x, t, last);
    StepTrusted(r, ids, s, e);
    HeadsStored(r);
    AdvancingSteps(r, ids, e);
    var s' := TrustedAfter(r, ids, s, e);
    if e.Write? {
      AdvanceTracks(r, ids, s, x, t, last, e.b, Written(HeadTree(r, e.b), e.b, e.kvs, e.extras), e.repacked, s');
    } else if e.Reindex? && e.published {
      AdvanceTracks(r, ids, s, x, t, last, e.b, e.tree, e.repacked, s');
    } else if e.MergeInto? && MergeWrites(r, ids, e).Some? && e.target == t {
      MergeTracks(r, ids, s, x, t, last, e);
    } else {
      QuietTracks(r, ids, s, x, t, last, e);
    }
  }

  lemma TracksAre(r: Repo, ids: IdBytes, s: set<CommitId>, x: Name, t: Name, last: CommitId)
    requires Tracks(r, ids, s, x, t, last)
    ensures Trusted(r, ids, s) && x in r.refs.branches && t in r.refs.branches
  {
  }

  /** An event that moves neither head. */
  lemma QuietTracks(r: Repo, ids: IdBytes, s: set<CommitId>, x: Name, t: Name, last: CommitId, e: Event)
    requires Tracks(r, ids, s, x, t, last) && Calm(r, x, t, e) && !e.Write? && !(e.Reindex? && e.published)
    requires !(e.MergeInto? && e.target == t && MergeWrites(r, ids, e).Some?)
    ensures Tracks(Step(r, ids, e), ids, TrustedAfter(r, ids, s, e), x, t, LastAfter(r, ids, x, t, last, e))
  {
    TrustedOrdered(r, ids, s);
    hide Trusted, SameBelow, Between, MergeWrites, MergeTree, Sound, GraphOf, Edges, SameOutsideIndex, WithSecondParent;
    StepTrusted(r, ids, s, e);
    HeadsStored(r);
    OthersStay(r, ids, e);
    StillTracks(r, ids, s, x, t, last, Step(r, ids, e), TrustedAfter(r, ids, s, e));
  }

  // ---------- an immediate re-merge ----------

  lemma {:induction false} NothingToPlan(keys: seq<Key>, b: Tree, t: Tree, policy: Policy)
    ensures PlanOver(keys, b, b, t, policy) == Plan([], 0, [])
  {
    if keys != [] { NothingToPlan(keys[..|keys| - 1], b, t, policy); }
  }

  /** **Merging X into T again at once brings nothing over**, whether or not the pages come out the same: T's records
      are as they were, and X's head is still the merge base. */
  lemma RemergeBringsNothing(r: Repo, ids: IdBytes, s: set<CommitId>, x: Name, t: Name, last: CommitId, e: Event,
                             again: Event)
    requires Tracks(r, ids, s, x, t, last) && Calm(r, x, t, e) && e.MergeInto? && e.target == t
             && MergeWrites(r, ids, e).Some?
    requires again.MergeInto? && again.source == x && again.target == t
    ensures var r' := Step(r, ids, e);
            && Sound(r') && Allowed(r', again) && NothingNew(r', ids, again)
            && var (r'', s'') := (Step(r', ids, again), TrustedAfter(r', ids, TrustedAfter(r, ids, s, e), again));
            && Tracks(r'', ids, s'', x, t, r.refs.branches[x]) && r''.refs.branches[x] == r.refs.branches[x]
            && BaseOf(GraphOf(r''), r''.refs.branches[x], r''.refs.branches[t]) == Some(r.refs.branches[x])
            && r''.refs.branches[t] in r''.trees && HeadTree(r'', t) == MergeTree(r, ids, e) == HeadTree(r', t)
  {
    hide Trusted, TrustedAfter, Between, MergeWrites, Written, Recorded, Sound, GraphOf, Edges, Advance,
         WithSecondParent;
    TrustedOrdered(r, ids, s);
    HeadsStored(r);
    var (r', s') := (Step(r, ids, e), TrustedAfter(r, ids, s, e));
    var hx := r.refs.branches[x];
    MergeTracks(r, ids, s, x, t, last, e);
    MergeDoes(r, ids, e);
    MergeRecordsHead(r, ids, e, x);
    TrustedOrdered(r', ids, s');
    RemergeWrites(r', ids, s', x, t, again);
    OnlyBookkeepingMerge(HeadTree(r', t), t, x, ids(hx), again.extras.(hints := map[]));
    MergeTracks(r', ids, s', x, t, hx, again);
    MergeDoes(r', ids, again);
    BaseIsLast(Step(r', ids, again), ids, TrustedAfter(r', ids, s', again), x, t, hx);
  }

  /** **Merging X into T again at once does nothing at all, exactly when the pages come out the same**: no record, no
      commit, no edge. */
  lemma RemergeIsNoOp(r: Repo, ids: IdBytes, s: set<CommitId>, x: Name, t: Name, last: CommitId, e: Event,
                      again: Event)
    requires Tracks(r, ids, s, x, t, last) && Calm(r, x, t, e) && e.MergeInto? && e.target == t
             && MergeWrites(r, ids, e).Some?
    requires again.MergeInto? && again.source == x && again.target == t
    ensures var r' := Step(r, ids, e);
            Sound(r') && Allowed(r', again) && (Step(r', ids, again) == r' <==> !again.repacked)
  {
    hide Trusted, TrustedAfter, Between, MergeWrites, Written, Recorded, Sound, GraphOf, Edges, Advance,
         WithSecondParent;
    TrustedOrdered(r, ids, s);
    HeadsStored(r);
    var (r', s') := (Step(r, ids, e), TrustedAfter(r, ids, s, e));
    var hx := r.refs.branches[x];
    MergeTracks(r, ids, s, x, t, last, e);
    MergeDoes(r, ids, e);
    MergeRecordsHead(r, ids, e, x);
    TrustedOrdered(r', ids, s');
    HeadsStored(r');
    RemergeWrites(r', ids, s', x, t, again);
    var ht := r'.refs.branches[t];
    OnlyBookkeepingMerge(r'.trees[ht], t, x, ids(hx), again.extras.(hints := map[]));
    MergeStep(r', t, r'.trees[ht], again.repacked, hx);
    if !again.repacked { ParentThere(r, ids, s, x, t, last, e); }
  }

  /** After a merge of X into T, T's head has X's among its recorded parents. */
  lemma ParentThere(r: Repo, ids: IdBytes, s: set<CommitId>, x: Name, t: Name, last: CommitId, e: Event)
    requires Tracks(r, ids, s, x, t, last) && e.MergeInto? && e.source == x && e.target == t && Allowed(r, e)
    requires MergeWrites(r, ids, e).Some?
    ensures var (r', hx) := (Step(r, ids, e), r.refs.branches[x]);
            && t in r'.refs.branches && WithSecondParent(r', r'.refs.branches[t], r'.refs.branches[t], hx) == r'
  {
    hide MergeWrites, MergeTree, Written, RecordsReach, GraphOf, Closed, Edges, Advance, Between, Sound;
    TrustedOrdered(r, ids, s);
    HeadsStored(r);
    MergeDoes(r, ids, e);
    MergeRecordsHead(r, ids, e, x);
    var (r', hx, ht) := (Step(r, ids, e), r.refs.branches[x], r.refs.branches[t]);
    MergeStep(r, t, MergeTree(r, ids, e), e.repacked, hx);
    if r'.next == r.next {
      TrustedRecord(r, ids, s, ht, x, hx);
      JoinedTwice(r, ht, hx);
    } else {
      StandStill(r', r.next, hx);
    }
  }

  lemma JoinedTwice(r: Repo, c: CommitId, second: CommitId)
    requires c in r.refs.commits
    ensures var r' := WithSecondParent(r, c, c, second); WithSecondParent(r', c, c, second) == r'
  {
    var r' := WithSecondParent(r, c, c, second);
    assert r'.refs.commits[c := r'.refs.commits[c]] == r'.refs.commits;
  }

  lemma StandStill(r: Repo, c: CommitId, second: CommitId)
    requires c in r.refs.commits && second in r.refs.commits[c]
    ensures WithSecondParent(r, c, c, second) == r
  {
    assert r.refs.commits[c := r.refs.commits[c]] == r.refs.commits;
  }

  /** With the source's head as base there is only bookkeeping to write. */
  lemma RemergeWrites(r: Repo, ids: IdBytes, s: set<CommitId>, x: Name, t: Name, again: Event)
    requires x in r.refs.branches && Tracks(r, ids, s, x, t, r.refs.branches[x])
    requires again.MergeInto? && again.source == x && again.target == t
    ensures Sound(r) && MergeWrites(r, ids, again) == Some([(MergedFromKey(x), OfValue(Blob(ids(r.refs.branches[x]))))])
  {
    hide Reaches, PlanOver, RecordsReach, Closed, GraphOf, MergedFromKey, Between, BaseOf;
    TrustedOrdered(r, ids, s);
    BaseIsLast(r, ids, s, x, t, r.refs.branches[x]);
    OnlyBookkeepingWrites(r, ids, again);
  }

  /** Whenever the source's head is the base. */
  lemma OnlyBookkeepingWrites(r: Repo, ids: IdBytes, e: Event)
    requires Sound(r) && e.MergeInto? && Allowed(r, e)
    requires BaseOf(GraphOf(r), r.refs.branches[e.source], r.refs.branches[e.target]) == Some(r.refs.branches[e.source])
    ensures MergeWrites(r, ids, e)
            == Some([(MergedFromKey(e.source), OfValue(Blob(ids(r.refs.branches[e.source]))))])
  {
    hide PlanOver, GraphOf, MergedFromKey, BaseOf;
    var (hx, ht) := (r.refs.branches[e.source], r.refs.branches[e.target]);
    NothingToPlan(InOrder(SideKeys(r.trees[hx], r.trees[hx], r.trees[ht])), r.trees[hx], r.trees[ht], e.policy);
    var none: seq<(Key, Record)> := [];
    var kv := (MergedFromKey(e.source), OfValue(Blob(ids(hx))));
    assert PlanOf(r.trees[hx], r.trees[hx], r.trees[ht], e.policy).writes == none && none + [kv] == [kv];
  }

  lemma OnlyBookkeepingMerge(m: Tree, t: Name, x: Name, id: Key, extras: Extras)
    requires Look(m, MergedFromKey(x)) == Some(OfValue(Blob(id)))
    ensures Written(m, t, [(MergedFromKey(x), OfValue(Blob(id)))], extras) == m
  {
    BuilderRegions(x, [], 0);
    OnlyBookkeeping(m, t, (MergedFromKey(x), OfValue(Blob(id))), extras);
  }

  /** A bookkeeping record already there leaves the tree as it was, and writes no provenance. */
  lemma OnlyBookkeeping(m: Tree, b: Name, kv: (Key, Record), extras: Extras)
    requires IsReserved(kv.0) && kv.1.OfValue? && Look(m, kv.0) == Some(kv.1)
    ensures Written(m, b, [kv], extras) == m
  {
    WriteExtras.NoExtras(kv, extras.hints, extras.versions, m);
    var kvs := [kv];
    assert kvs[..0] == [] && kvs[0] == kv;
    assert PutAll(m, kvs) == m[kv.0 := kv.1] == m;
  }

  // ---------- counting ----------

  /** The key holds counters, and is held wherever the base holds it. */
  ghost predicate CountersAt(r: Repo, x: Name, t: Name, last: CommitId, k: Key)
    requires Sound(r) && x in r.refs.branches && t in r.refs.branches && last in r.trees
  {
    var (vb, vx, vt) := (Look(r.trees[last], k), Look(HeadTree(r, x), k), Look(HeadTree(r, t), k));
    && CounterOrAbsent(vb) && CounterOrAbsent(vx) && CounterOrAbsent(vt)
    && (vb.Some? ==> vx.Some? && vt.Some?)
  }

  function ValueAt(m: Tree, k: Key): int { CounterOf(Look(m, k)) }

  lemma TracksStored(r: Repo, ids: IdBytes, s: set<CommitId>, x: Name, t: Name, last: CommitId)
    requires Tracks(r, ids, s, x, t, last)
    ensures Sound(r) && r.refs.branches[x] in r.trees && r.refs.branches[t] in r.trees && last in r.trees
  {
    OrderedSound(r, ids);
  }

  /** One merge adds X's change since the last merge to T, if and only if it is additive. */
  lemma MergeAddsOnce(r: Repo, ids: IdBytes, s: set<CommitId>, x: Name, t: Name, last: CommitId, e: Event, k: Key)
    requires Tracks(r, ids, s, x, t, last) && Calm(r, x, t, e) && e.MergeInto? && e.target == t
             && MergeWrites(r, ids, e).Some?
    requires last in r.trees && IsCaller(k) && CountersAt(r, x, t, last, k)
    ensures var r' := Step(r, ids, e);
            && t in r'.refs.branches && r'.refs.branches[t] in r'.trees
            && CounterOrAbsent(Look(HeadTree(r', t), k))
            && (Look(HeadTree(r, x), k).Some? ==> Look(HeadTree(r', t), k).Some?)
            && (ValueAt(HeadTree(r', t), k)
                  == ValueAt(HeadTree(r, t), k) + (ValueAt(HeadTree(r, x), k) - ValueAt(r.trees[last], k)) <==>
                Additive(Look(r.trees[last], k), Look(HeadTree(r, x), k), Look(HeadTree(r, t), k)))
  {
    hide Trusted, Between, MergeWrites, MergeTree, Written, Sound, Step, GraphOf, BaseOf, IsCaller, Additive;
    TracksStored(r, ids, s, x, t, last);
    MergeDoes(r, ids, e);
    BaseIsLast(r, ids, s, x, t, last);
    MergeLook(r, ids, e, k);
    CounterMergeExact(k, Look(r.trees[last], k), Look(HeadTree(r, x), k), Look(HeadTree(r, t), k), e.policy);
  }

  /** The events keep counters at k, and every merge of X into T is additive there. */
  ghost predicate Counts(r: Repo, ids: IdBytes, x: Name, t: Name, last: CommitId, e: Event, k: Key)
    requires Sound(r) && x in r.refs.branches && t in r.refs.branches && last in r.trees
  {
    && Calm(r, x, t, e) && CountersAt(r, x, t, last, k)
    && (e.Write? && e.b in {x, t} ==> forall i | 0 <= i < |e.kvs| && e.kvs[i].0 == k ::
          CounterOrAbsent(Some(e.kvs[i].1)))
    && (e.MergeInto? && e.target == t && MergeWrites(r, ids, e).Some? ==>
          Additive(Look(r.trees[last], k), Look(HeadTree(r, x), k), Look(HeadTree(r, t), k)))
  }

  /** T's own change in one event: all of it, unless the event is a merge. */
  ghost function OwnChange(r: Repo, ids: IdBytes, t: Name, e: Event, k: Key): int
    requires Sound(r) && Allowed(r, e)
  {
    if e.MergeInto? then 0 else ValueAt(AtHead(Step(r, ids, e), t), k) - ValueAt(AtHead(r, t), k)
  }

  lemma {:induction false} PutAllCounters(m: Tree, kvs: seq<(Key, Record)>, k: Key)
    requires CounterOrAbsent(Look(m, k))
    requires forall i | 0 <= i < |kvs| && kvs[i].0 == k :: CounterOrAbsent(Some(kvs[i].1))
    ensures CounterOrAbsent(Look(PutAll(m, kvs), k)) && (Look(m, k).Some? ==> Look(PutAll(m, kvs), k).Some?)
  {
    if kvs != [] { PutAllCounters(m, kvs[..|kvs| - 1], k); }
  }

  /** The tree a commit leaves at its branch's head. */
  lemma CommitHead(r: Repo, b: Name, tree: Tree, repacked: bool)
    requires Sound(r) && b in r.refs.branches && r.refs.branches[b] in r.trees
    ensures AtHead(Advance(r, b, tree, repacked), b) == tree
  {
    hide Sound;
    HeadsStored(r);
  }

  /** A branch head after an event that is not a merge into it: the record is still a counter, and still there. */
  lemma HeadCounters(r: Repo, ids: IdBytes, e: Event, b: Name, k: Key)
    requires Sound(r) && Allowed(r, e) && b in r.refs.branches && r.refs.branches[b] in r.trees && IsCaller(k)
             && CounterOrAbsent(Look(HeadTree(r, b), k))
    requires e.Rewind? ==> e.b != b
    requires e.MergeInto? ==> e.target != b || MergeWrites(r, ids, e).None?
    requires e.Write? && e.b == b ==> forall i | 0 <= i < |e.kvs| && e.kvs[i].0 == k ::
               CounterOrAbsent(Some(e.kvs[i].1))
    ensures var after := AtHead(Step(r, ids, e), b);
            && CounterOrAbsent(Look(after, k)) && (Look(HeadTree(r, b), k).Some? ==> Look(after, k).Some?)
            && (!(e.Write? && e.b == b) ==> Look(after, k) == Look(HeadTree(r, b), k))
  {
    hide Sound, MergeWrites, Written, MergeTree, Advance, IsCaller, RegionOf;
    HeadsStored(r);
    OthersStay(r, ids, e);
    CallerRegion(k);
    match e
    case Write(b', kvs, extras, repacked) =>
      if b' == b {
        CommitHead(r, b, Written(HeadTree(r, b), b, kvs, extras), repacked);
        WrittenElsewhere(HeadTree(r, b), b, kvs, extras, k);
        PutAllCounters(HeadTree(r, b), kvs, k);
      }
    case Reindex(b', tree, repacked, published) =>
      if b' == b { CommitHead(r, b, tree, repacked); }
    case _ =>
  }

  lemma CallerRegion(k: Key)
    requires IsCaller(k)
    ensures RegionOf(k) == Region.Caller
  {
  }

  /** One event: T's counter less the base's moves by T's own change, and by nothing else. */
  lemma StepCounts(r: Repo, ids: IdBytes, s: set<CommitId>, x: Name, t: Name, last: CommitId, e: Event, k: Key)
    requires Tracks(r, ids, s, x, t, last) && Sound(r) && last in r.trees && Counts(r, ids, x, t, last, e, k)
             && IsCaller(k)
    ensures var r', s', last' := Step(r, ids, e), TrustedAfter(r, ids, s, e), LastAfter(r, ids, x, t, last, e);
            && Tracks(r', ids, s', x, t, last') && Sound(r') && last' in r.trees && last' in r'.trees
            && r'.trees[last'] == r.trees[last'] && CountersAt(r', x, t, last', k)
            && ValueAt(HeadTree(r', t), k) - ValueAt(r'.trees[last'], k)
               == ValueAt(HeadTree(r, t), k) - ValueAt(r.trees[last], k) + OwnChange(r, ids, t, e, k)
  {
    hide Trusted, TrustedAfter, Between, MergeWrites, MergeTree, Written, Sound, Step, Additive, IsCaller;
    var (r', s', last') := (Step(r, ids, e), TrustedAfter(r, ids, s, e), LastAfter(r, ids, x, t, last, e));
    TracksStored(r, ids, s, x, t, last);
    StepTracks(r, ids, s, x, t, last, e);
    TracksStored(r', ids, s', x, t, last');
    OthersStay(r, ids, e);
    HeadCounters(r, ids, e, x, k);
    if e.MergeInto? && e.target == t && MergeWrites(r, ids, e).Some? {
      MergeAddsOnce(r, ids, s, x, t, last, e, k);
    } else {
      HeadCounters(r, ids, e, t, k);
    }
  }

  ghost predicate CountRun(r: Repo, ids: IdBytes, x: Name, t: Name, last: CommitId, es: seq<Event>, k: Key)
    decreases |es|
  {
    && Sound(r) && x in r.refs.branches && t in r.refs.branches && last in r.trees
    && if es == [] then CountersAt(r, x, t, last, k)
       else
         && Counts(r, ids, x, t, last, es[0], k)
         && CountRun(Step(r, ids, es[0]), ids, x, t, LastAfter(r, ids, x, t, last, es[0]), es[1..], k)
  }

  /** **No double counting.** Over any run of writes, branches, folds, rewinds and merges elsewhere, and merges of X
      into T, T's counter ends at its start, plus T's own changes, plus X's change between the first base and the last,
      each once. */
  lemma {:induction false} NoDoubleCounting(r: Repo, ids: IdBytes, s: set<CommitId>, x: Name, t: Name, last: CommitId,
                                            es: seq<Event>, k: Key)
    returns (r': Repo, s': set<CommitId>, last': CommitId, own: int)
    requires Tracks(r, ids, s, x, t, last) && IsCaller(k) && CountRun(r, ids, x, t, last, es, k)
    ensures AllowedRun(r, ids, es) && r' == Run(r, ids, es) && Tracks(r', ids, s', x, t, last')
    ensures own == OwnTotal(r, ids, t, es, k) && last' in r'.trees
    ensures ValueAt(AtHead(r', t), k)
            == ValueAt(AtHead(r, t), k) + own + (ValueAt(r'.trees[last'], k) - ValueAt(r.trees[last], k))
    ensures BaseOf(GraphOf(r'), r'.refs.branches[x], r'.refs.branches[t]) == Some(last')
    decreases |es|
  {
    hide Trusted, TrustedAfter, Between, Counts, Sound, Step, LastAfter, IsCaller, CountersAt, GraphOf, BaseOf;
    TracksStored(r, ids, s, x, t, last);
    if es == [] {
      r', s', last', own := r, s, last, 0;
      BaseIsLast(r, ids, s, x, t, last);
    } else {
      CalmAllowed(r, ids, x, t, last, es[0], k);
      StepCounts(r, ids, s, x, t, last, es[0], k);
      var r1 := Step(r, ids, es[0]);
      TracksStored(r1, ids, TrustedAfter(r, ids, s, es[0]), x, t, LastAfter(r, ids, x, t, last, es[0]));
      r', s', last', own := NoDoubleCounting(r1, ids, TrustedAfter(r, ids, s, es[0]), x, t,
                                             LastAfter(r, ids, x, t, last, es[0]), es[1..], k);
      own := own + OwnChange(r, ids, t, es[0], k);
    }
  }

  lemma CalmAllowed(r: Repo, ids: IdBytes, x: Name, t: Name, last: CommitId, e: Event, k: Key)
    requires Sound(r) && x in r.refs.branches && t in r.refs.branches && last in r.trees
    requires Counts(r, ids, x, t, last, e, k)
    ensures Allowed(r, e)
  {
  }

  /** The sum of T's own changes over a run. */
  ghost function OwnTotal(r: Repo, ids: IdBytes, t: Name, es: seq<Event>, k: Key): int
    requires AllowedRun(r, ids, es)
    decreases |es|
  {
    if es == [] then 0 else OwnChange(r, ids, t, es[0], k) + OwnTotal(Step(r, ids, es[0]), ids, t, es[1..], k)
  }

  /** Forking X from a trusted T starts such a run, with the fork point as the first base. */
  lemma ForkTracks(r: Repo, ids: IdBytes, s: set<CommitId>, x: Name, t: Name)
    requires Trusted(r, ids, s) && t in r.refs.branches && r.refs.branches[t] in s && x !in r.refs.branches
    ensures Sound(r)
    ensures Tracks(Step(r, ids, BranchFrom(t, x)), ids, s, x, t, r.refs.branches[t])
  {
    TrustedOrdered(r, ids, s);
    StepTrusted(r, ids, s, BranchFrom(t, x));
    ReachesSelf(GraphOf(r), r.refs.branches[t]);
  }
}
