/** The database over pages: every operation is the repository's step on what the pages hold. */
module Loom {
  import opened Bytes
  import opened Records
  import opened SortedEntries
  import opened BTreeShape
  import opened PageSize
  import opened BTree
  import opened Keyspace
  import opened KeyOrder
  import opened Listings
  import opened MergeRules
  import opened Merge
  import opened MergeAnswers
  import opened Refs
  import opened CommitDag
  import R = Repo
  import RepoGraph
  import AnnFold
  import AnnSearch
  import HnswGraph
  import WriteExtras
  import WriteMeaning
  import RepoMerges
  import RepoCounting

  // ---------- writing a tree ----------

  /** The leaf a key belongs to encodes within the fill limit. */
  ghost predicate LeafFits(t: Shape, key: Key, limit: nat, size: Sizer) {
    EncodedLen(size, Leaf(OwnerLeaf(t, key))) <= limit
  }

  ghost predicate Fits(pages: Manifest, key: Key, pageSize: nat, size: Sizer)
    requires WellFormed(pages)
  {
    LeafFits(ShapeOf(pages), key, pageSize * 7 / 10, size)
  }

  lemma {:induction false} EntryBytesWithin(size: Sizer, s: seq<Entry>, e: Entry)
    requires e in s
    ensures EntryBytes(size, e) <= EntriesBytes(size, s)
  {
    if s[0] != e { EntryBytesWithin(size, s[1..], e); }
  }

  /** The leaf a held record belongs to holds it, and nothing its tree does not. */
  lemma OwnerHolds(t: Shape, key: Key)
    requires Wf(t, None, None) && key in ToMap(Flat(t))
    ensures Entry(key, ToMap(Flat(t))[key]) in OwnerLeaf(t, key) && Sorted(OwnerLeaf(t, key))
    ensures forall e | e in OwnerLeaf(t, key) :: e in Flat(t)
  {
    WfFlat(t, None, None);
    GetOwner(t, key, None, None);
    GetIsLookup(Flat(t), key);
    OwnerSorted(t, key, None, None);
    GetIsLookup(OwnerLeaf(t, key), key);
    Merge.EntriesAreMap(OwnerLeaf(t, key), key);
    OwnerWithin(t, key, None, None);
  }

  lemma {:induction false} OwnerWithin(t: Shape, key: Key, lo: Bound, hi: Bound)
    requires Wf(t, lo, hi)
    ensures forall e | e in OwnerLeaf(t, key) :: e in Flat(t)
    decreases t
  {
    if t.SInner? {
      var i := ChildIndex(t.keys, key);
      WfKid(t.keys, t.kids, lo, hi, i);
      OwnerWithin(t.kids[i], key, KidLo(t.keys, i, lo), KidHi(t.keys, i, hi));
      assert t.kids == t.kids[..i] + ([t.kids[i]] + t.kids[i + 1..]);
      FlatAllConcat(t.kids[..i], [t.kids[i]] + t.kids[i + 1..]);
    }
  }

  /** A record that by itself encodes past the limit never fits, however its tree was written. */
  lemma OversizeNeverFits(pages: Manifest, key: Key, pageSize: nat, size: Sizer)
    requires WellFormed(pages) && key in Contents(pages)
    requires TAG + LENGTH_PREFIX + EntryBytes(size, Entry(key, Contents(pages)[key])) > pageSize * 7 / 10
    ensures !Fits(pages, key, pageSize, size)
  {
    hide Wf, Rep, Uniform, Count, EntriesBytes, OwnerLeaf, EntryBytes;
    var t := ShapeOf(pages);
    assert Wf(t, None, None);
    OwnerHolds(t, key);
    EntryBytesWithin(size, OwnerLeaf(t, key), Entry(key, Contents(pages)[key]));
  }

  lemma OneEntry(s: seq<Entry>, e: Entry)
    requires Sorted(s) && e in s && forall i | 0 <= i < |s| :: s[i] == e
    ensures s == [e]
  {
    var rest := s[1..];
    assert rest != [] ==> rest[0].key in ToMap(rest);
    assert rest != [] ==> rest[0] == s[1] == s[0];
    Uncons(s);
    AboveNotIn(rest, s[0].key);
  }

  /** Inserted into an empty tree it ends alone in its leaf, since splitting that leaf only sets an empty one aside. */
  lemma AloneInLeaf(pages: Manifest, key: Key, rec: Record)
    requires WellFormed(pages) && Contents(pages) == map[key := rec]
    ensures OwnerLeaf(ShapeOf(pages), key) == [Entry(key, rec)]
  {
    hide Wf, Rep, Uniform, Count, OwnerLeaf;
    var t := ShapeOf(pages);
    assert Wf(t, None, None);
    OwnerHolds(t, key);
    WfFlat(t, None, None);
    MapListed(Flat(t));
    var leaf := OwnerLeaf(t, key);
    forall i | 0 <= i < |leaf| ensures leaf[i] == Entry(key, rec) {
      assert leaf[i] in Flat(t);
      var j :| 0 <= j < |Flat(t)| && Flat(t)[j] == leaf[i];
    }
    assert Entry(key, rec) in leaf;
    OneEntry(leaf, Entry(key, rec));
  }

  /** Such trees exist. */
  lemma OversizeLeaf(key: Key, rec: Record)
    ensures var leaf := Manifest(Some(Meta(1, 2, 1)), map[1 := Leaf([Entry(key, rec)])]);
            WellFormed(leaf) && Contents(leaf) == map[key := rec]
  {
    var leaf := Manifest(Some(Meta(1, 2, 1)), map[1 := Leaf([Entry(key, rec)])]);
    assert Represents(leaf, SLeaf(1, [Entry(key, rec)]), 0);
    ShapeUnique(leaf, SLeaf(1, [Entry(key, rec)]), 0);
    assert ToMap([Entry(key, rec)]) == map[key := rec];
  }

  /** A batch of one engine's value the tree already holds. */
  ghost predicate Repeats(m: R.Tree, kvs: seq<(Key, Record)>) {
    |kvs| == 1 && !IsCaller(kvs[0].0) && kvs[0].1.OfValue? && Merge.Look(m, kvs[0].0) == Some(kvs[0].1)
  }

  /** Insert a batch. One record the tree already holds leaves the pages alone exactly when its leaf is within the
      limit. */
  method InsertAll(tree: BTree.Tree, kvs: seq<(Key, Record)>)
    requires tree.Valid()
    modifies tree
    ensures tree.Valid() && tree.Model() == R.PutAll(old(tree.Model()), kvs)
    ensures |kvs| == 1 && old(Merge.Look(tree.Model(), kvs[0].0)) == Some(kvs[0].1) ==>
              (tree.Snapshot() == old(tree.Snapshot()) <==> old(LeafFits(tree.shape, kvs[0].0, tree.limit, tree.size)))
  {
    for i := 0 to |kvs|
      invariant tree.Valid() && tree.Model() == R.PutAll(old(tree.Model()), kvs[..i])
      invariant i == 0 ==> tree.Snapshot() == old(tree.Snapshot()) && tree.shape == old(tree.shape)
      invariant i == 1 && old(Merge.Look(tree.Model(), kvs[0].0)) == Some(kvs[0].1) ==>
                  (tree.Snapshot() == old(tree.Snapshot()) <==>
                   old(LeafFits(tree.shape, kvs[0].0, tree.limit, tree.size)))
    {
      tree.Insert(kvs[i].0, kvs[i].1);
      assert kvs[..i + 1][..i] == kvs[..i];
    }
    assert kvs[..|kvs|] == kvs;
  }

  method InsertSources(tree: BTree.Tree, b: Name, n: nat, sources: seq<Key>, id: Key)
    requires tree.Valid()
    modifies tree
    ensures tree.Valid() && tree.Model() == R.PutSources(old(tree.Model()), b, n, sources, id)
  {
    for i := 0 to |sources|
      invariant tree.Valid() && tree.Model() == R.PutSources(old(tree.Model()), b, n, sources[..i], id)
    {
      tree.Insert(SourceKey(sources[i], b, n), OfValue(Blob(id)));
      assert sources[..i + 1][..i] == sources[..i];
    }
    assert sources[..|sources|] == sources;
  }

  method InsertNode(tree: BTree.Tree, b: Name, n: nat, key: Key, body: R.NodeBody)
    requires tree.Valid()
    modifies tree
    ensures tree.Valid() && tree.Model() == R.PutNode(old(tree.Model()), b, n, key, body)
  {
    tree.Insert(NodeKey(b, n), OfValue(Blob(body.blob)));
    tree.Insert(LatestNodeKey(key), OfValue(Blob(body.id)));
    InsertSources(tree, b, n, body.sources, body.id);
  }

  /** Append one derivation node per record outside the provenance space. */
  method InsertNodes(tree: BTree.Tree, b: Name, start: nat, kvs: seq<(Key, Record)>, describe: R.Describe)
    returns (n: nat)
    requires tree.Valid()
    modifies tree
    ensures tree.Valid() && tree.Model() == R.PutNodes(old(tree.Model()), b, start, kvs, describe)
    ensures n == start + R.NodeCount(kvs)
  {
    hide R.PutNode, BTree.Tree.Valid, BTree.Tree.Model, IsProvenance;
    n := start;
    for i := 0 to |kvs|
      invariant tree.Valid() && tree.Model() == R.PutNodes(old(tree.Model()), b, start, kvs[..i], describe)
      invariant n == start + R.NodeCount(kvs[..i])
    {
      assert kvs[..i + 1][..i] == kvs[..i];
      if !IsProvenance(kvs[i].0) {
        InsertNode(tree, b, n, kvs[i].0, describe(kvs[i].0, kvs[i].1));
        n := n + 1;
      }
    }
    assert kvs[..|kvs|] == kvs;
  }

  /** The batch's derivation nodes, from the branch's counter on, and the counter past them. */
  method InsertProvenance(tree: BTree.Tree, b: Name, kvs: seq<(Key, Record)>, describe: R.Describe)
    requires tree.Valid()
    modifies tree
    ensures var n := R.NextSeq(old(tree.Model()), b);
            && tree.Valid()
            && tree.Model() == R.PutNodes(old(tree.Model()), b, n, kvs, describe)
                                 [ProvSeqKey(b) := OfValue(Counter(R.AsI64(n + R.NodeCount(kvs))))]
  {
    hide Represents, SizesOk, R.PutNodes, R.NodeCount, ProvSeqKey, R.AsI64, R.AsU64, ToMap, Flat;
    var counter := tree.Lookup(ProvSeqKey(b));
    var n := match counter case Some(OfValue(Counter(c))) => R.AsU64(c) case _ => 0;
    var n' := InsertNodes(tree, b, n, kvs, describe);
    tree.Insert(ProvSeqKey(b), OfValue(Counter(R.AsI64(n'))));
  }

  /** Records and provenance, in one transaction. */
  method InsertBatch(tree: BTree.Tree, b: Name, kvs: seq<(Key, Record)>, describe: R.Describe)
    requires tree.Valid()
    modifies tree
    ensures tree.Valid() && tree.Model() == R.Traced(old(tree.Model()), b, kvs, describe)
    ensures Repeats(old(tree.Model()), kvs) ==>
              (tree.Snapshot() == old(tree.Snapshot()) <==> old(LeafFits(tree.shape, kvs[0].0, tree.limit, tree.size)))
  {
    hide Represents, SizesOk, LeafFits, R.PutAll, R.PutNodes, R.NodeCount, IsCaller, ProvSeqKey, R.AsI64, R.NextSeq,
         ToMap, Flat;
    InsertAll(tree, kvs);
    if R.AnyCaller(kvs) { InsertProvenance(tree, b, kvs, describe); }
  }

  /** Index entries, buffered vectors and claim versions, in the same one. */
  method InsertExtras(tree: BTree.Tree, kvs: seq<(Key, Record)>, x: R.Extras)
    requires tree.Valid()
    modifies tree
    ensures tree.Valid()
    ensures var hints := WriteExtras.HintsOf(kvs, x.hints);
            tree.Model()
            == WriteExtras.PutClaims(x.versions, WriteExtras.PutHints(x.entries, old(tree.Model()), hints), kvs)
    ensures |kvs| == 1 && kvs[0].1.OfValue? ==> tree.Snapshot() == old(tree.Snapshot())
  {
    hide Represents, SizesOk, ToMap, Flat, WriteExtras.PutClaims, WriteExtras.PutHints, WriteExtras.HintsOf;
    var hints := WriteExtras.CollectHints(kvs, x.hints);
    NothingExtra(kvs, x.hints);
    WriteExtras.InsertHints(tree, x.entries, hints);
    WriteExtras.InsertClaims(tree, x.versions, kvs);
  }

  lemma NothingExtra(kvs: seq<(Key, Record)>, wanted: WriteExtras.HintMap)
    ensures |kvs| == 1 && kvs[0].1.OfValue? ==> WriteExtras.HintsOf(kvs, wanted) == []
  {
  }

  /** Everything a write puts in its branch's tree, in one transaction. */
  method WriteTree(pages: Manifest, b: Name, kvs: seq<(Key, Record)>, x: R.Extras, pageSize: nat, size: Sizer)
    returns (pages': Manifest)
    requires WellFormed(pages)
    ensures WellFormed(pages') && Contents(pages') == R.Written(Contents(pages), b, kvs, x)
    ensures Repeats(Contents(pages), kvs) ==> (pages' == pages <==> Fits(pages, kvs[0].0, pageSize, size))
  {
    hide Represents, SizesOk, LeafFits, R.Traced, IsCaller, ToMap, Flat, WriteExtras.PutClaims, WriteExtras.PutHints,
         WriteExtras.HintsOf;
    var tree := new BTree.Tree.Open(pages, pageSize, size);
    OpenedShape(tree, pages);
    InsertBatch(tree, b, kvs, x.describe);
    InsertExtras(tree, kvs, x);
    pages' := tree.Flush();
  }

  lemma OpenedShape(tree: BTree.Tree, pages: Manifest)
    requires tree.Valid() && tree.Snapshot() == pages
    ensures WellFormed(pages) && tree.shape == ShapeOf(pages)
  {
    ShapeUnique(pages, tree.shape, tree.height);
  }

  /** The page diff: every page either side holds differently from the base. */
  method Diff3(base: Manifest, source: Manifest, target: Manifest) returns (changed: seq<PageNo>)
    ensures ListsChanges(changed, base, source, target)
  {
    var rest := base.nodes.Keys + source.nodes.Keys + target.nodes.Keys + {META_PAGE};
    ghost var all := rest;
    changed := [];
    while rest != {}
      invariant rest <= all
      invariant forall p: PageNo | p in all - rest && p !in changed ::
                  SameContent(base, source, p) && SameContent(base, target, p)
      decreases rest
    {
      var p :| p in rest;
      rest := rest - {p};
      if !SameContent(base, source, p) || !SameContent(base, target, p) { changed := changed + [p]; }
    }
  }

  // ---------- the database ----------

  ghost predicate AllWellFormed(pages: map<CommitId, Manifest>) { forall c | c in pages :: WellFormed(pages[c]) }

  ghost function AllContents(pages: map<CommitId, Manifest>): (trees: map<CommitId, R.Tree>)
    requires AllWellFormed(pages)
    ensures trees.Keys == pages.Keys
  {
    map c | c in pages :: Contents(pages[c])
  }

  /** Only where branches point changes. */
  lemma HeadsSound(r: R.Repo, branches: map<Name, CommitId>)
    requires R.Sound(r) && forall b | b in branches :: branches[b] in r.trees
    ensures R.Sound(r.(refs := r.refs.(branches := branches)))
  {
    assert R.GraphOf(r.(refs := r.refs.(branches := branches))) == R.GraphOf(r);
  }

  /** What branching leaves and answers: refused for a missing source or a name in use. */
  ghost predicate Branches(r: R.Repo, r': R.Repo, ids: R.IdBytes, from: Name, name: Name, ok: bool)
    requires R.Sound(r)
  {
    && (ok <==> from in r.refs.branches && name !in r.refs.branches)
    && r' == if ok then R.Step(r, ids, R.BranchFrom(from, name)) else r
  }

  ghost predicate Rewinds(r: R.Repo, r': R.Repo, ids: R.IdBytes, b: Name, to: CommitId, ok: bool)
    requires R.Sound(r) && to in r.trees
  {
    && (ok <==> b in r.refs.branches)
    && r' == if ok then R.Step(r, ids, R.Rewind(b, to)) else r
  }

  lemma HeadPages(pages: map<CommitId, Manifest>, c: CommitId)
    requires AllWellFormed(pages) && c in pages
    ensures WellFormed(pages[c]) && AllContents(pages)[c] == Contents(pages[c])
  {
  }

  /** What building an index leaves: the repository's reindexing step, to the tree a fold of the head's makes. */
  ghost predicate Rebuilds(r: R.Repo, r': R.Repo, ids: R.IdBytes, b: Name, c: AnnFold.Codec, space: AnnFold.Space,
                           tree: R.Tree, repacked: bool, count: nat)
    requires R.Sound(r)
  {
    && R.Allowed(r, R.Reindex(b, tree, repacked, true)) && r' == R.Step(r, ids, R.Reindex(b, tree, repacked, true))
    && var pairs := AnnFold.PairsIn(c, Listing(R.HeadTree(r, b)));
    && pairs.Some? && count == |pairs.value|
    && AnnFold.FoldsTo(c, AnnFold.Built(space, pairs.value), AnnFold.RawOf(pairs.value), R.HeadTree(r, b), tree)
  }

  /** A merge with nothing to bring over makes a new commit exactly when the leaf of its merged-from record is over the
      fill limit, so that rewriting the record splits it. */
  ghost predicate RemergeOutcome(r: R.Repo, ids: R.IdBytes, e: R.Event, fits: bool)
    requires R.Sound(r) && e.MergeInto?
  {
    e.source in r.refs.branches && e.target in r.refs.branches && R.NothingNew(r, ids, e) ==> (e.repacked <==> !fits)
  }

  class Loom {
    const ids: R.IdBytes
    const pageSize: nat
    const size: Sizer
    var refs: Refs
    var pending: seq<RefEdit>
    /** What the ref store loads. */
    var stored: Refs
    /** The pager: each commit's parent and pages. */
    var parents: map<CommitId, Option<CommitId>>
    var pages: map<CommitId, Manifest>
    var next: CommitId

    ghost predicate PagesOk()
      reads this`pages
    {
      AllWellFormed(pages)
    }

    ghost function State(): R.Repo
      reads this
      requires PagesOk()
    {
      R.Repo.Repo(refs, parents, AllContents(pages), next)
    }

    /** Queued edits are exactly what the store has yet to hear. */
    ghost predicate Valid()
      reads this
    {
      && PagesOk() && R.Sound(State())
      && Replay(stored, pending) == refs
    }

    /** Nothing waits to be persisted: the store and memory agree. */
    ghost predicate Settled()
      reads this
    {
      Valid() && pending == [] && stored == refs
    }

    /** A new database: one branch at an empty root, and refs saved. */
    constructor Init(ids: R.IdBytes, pageSize: nat, size: Sizer)
      ensures Settled() && State() == RepoGraph.ROOT
      ensures this.ids == ids && this.pageSize == pageSize && this.size == size
    {
      this.ids, this.pageSize, this.size := ids, pageSize, size;
      refs, stored := RepoGraph.ROOT.refs, RepoGraph.ROOT.refs;
      pending := [];
      parents, pages, next := map[0 := None], map[0 := Manifest(None, map[])], 1;
      new;
      EmptyWellFormed();
      assert AllContents(pages) == map[0 := map[]];
    }

    method PushEdit(e: RefEdit)
      modifies this`pending
      ensures pending == old(pending) + [e] && Replay(stored, pending) == ApplyEdit(Replay(stored, old(pending)), e)
    {
      pending := pending + [e];
      assert pending[..|pending| - 1] == old(pending);
    }

    /** Append the queued edits to the ref store in one batch. */
    method Persist()
      modifies this`pending, this`stored
      ensures stored == old(Replay(stored, pending)) && pending == [] && Replay(stored, pending) == stored
    {
      stored := Replay(stored, pending);
      pending := [];
    }

    /** The leaf a key belongs to, at a branch's head, is within the fill limit. */
    ghost predicate HeadFits(b: Name, key: Key)
      reads this
    {
      && b in refs.branches && refs.branches[b] in pages && WellFormed(pages[refs.branches[b]])
      && Fits(pages[refs.branches[b]], key, pageSize, size)
    }

    /** Record a commit's parents; only the first recording takes. */
    method RecordCommit(commit: CommitId, ps: seq<CommitId>)
      requires Replay(stored, pending) == refs
      modifies this`refs, this`pending
      ensures refs == R.Recorded(old(refs), commit, ps) && Replay(stored, pending) == refs
    {
      var q := R.Without(ps, commit);
      if q == [] || commit in refs.commits { return; }
      refs := refs.(commits := refs.commits[commit := q]);
      PushEdit(RefEdit.RecordCommit(commit, q));
    }

    method SetHead(b: Name, to: CommitId) returns (ok: bool)
      requires Replay(stored, pending) == refs
      modifies this`refs, this`pending, this`stored
      ensures ok <==> b in old(refs).branches
      ensures refs == (if ok then old(refs).(branches := old(refs).branches[b := to]) else old(refs))
      ensures Replay(stored, pending) == refs
      ensures if ok then pending == [] && stored == refs else pending == old(pending) && stored == old(stored)
    {
      if b !in refs.branches { return false; }
      refs := refs.(branches := refs.branches[b := to]);
      PushEdit(RefEdit.SetHead(b, to));
      Persist();
      ok := true;
    }

    method Branch(from: Name, name: Name) returns (ok: bool)
      requires Settled()
      modifies this
      ensures Settled() && Branches(old(State()), State(), ids, from, name, ok)
    {
      hide R.Sound, AllWellFormed, AllContents, Replay;
      if from !in refs.branches || name in refs.branches { return false; }
      var at := refs.branches[from];
      ghost var before := State();
      RepoGraph.HeadsStored(before);
      HeadsSound(before, refs.branches[name := at]);
      refs := refs.(branches := refs.branches[name := at]);
      PushEdit(CreateBranch(name, at));
      Persist();
      ok := true;
    }

    method Rewind(b: Name, to: CommitId) returns (ok: bool)
      requires Settled() && to in pages
      modifies this
      ensures Settled() && Rewinds(old(State()), State(), ids, b, to, ok)
    {
      hide R.Sound, AllWellFormed, AllContents, Replay, ApplyEdit;
      if b in refs.branches {
        RepoGraph.HeadsStored(State());
        HeadsSound(State(), refs.branches[b := to]);
      }
      ok := SetHead(b, to);
    }

    /** The pager's commit: identical pages are the base itself, others a fresh commit on it. */
    method Commit(head: CommitId, pages': Manifest) returns (c: CommitId, ghost repacked: bool)
      requires Valid() && head in pages && WellFormed(pages')
      modifies this`parents, this`pages, this`next
      ensures PagesOk()
      ensures (State(), c) == R.Committed(old(State()), head, Contents(pages'), repacked)
      ensures c in pages && Contents(pages[c]) == Contents(pages')
      ensures repacked <==> pages' != old(pages)[head]
    {
      hide R.Sound, WellFormed, Contents, Replay, ApplyEdit;
      if pages' == pages[head] { return head, false; }
      c, repacked := next, true;
      ghost var before := State();
      parents := parents[c := Some(head)];
      pages := pages[c := pages'];
      next := next + 1;
      assert State().trees == before.trees[c := Contents(pages')];
    }

    /** Commit pages on a branch's head, record the edge, and move the head. */
    method AdvanceHead(b: Name, pages': Manifest) returns (c: CommitId, ghost repacked: bool)
      requires Settled() && b in refs.branches && WellFormed(pages')
      modifies this
      ensures Settled() && b in refs.branches && refs.branches[b] == c
      ensures State() == R.Advance(old(State()), b, Contents(pages'), repacked)
      ensures old(refs.branches[b] in pages) && (repacked <==> pages' != old(pages[refs.branches[b]]))
    {
      hide R.Sound, WellFormed, Contents, R.Without, Replay, ApplyEdit;
      ghost var before := State();
      ghost var tree := Contents(pages');
      var head := refs.branches[b];
      RepoGraph.HeadsStored(before);
      c, repacked := Commit(head, pages');
      RecordCommit(c, [head]);
      var _ := SetHead(b, c);
      assert State() == R.Advance(before, b, tree, repacked);
      RepoGraph.AdvanceSound(before, b, tree, repacked);
    }

    /** The write path: commit the batch on the head, record the edge, move the head. */
    method WriteAll(b: Name, kvs: seq<(Key, Record)>, x: R.Extras)
      returns (commit: Option<CommitId>, ghost repacked: bool)
      requires Settled()
      modifies this
      ensures Settled() && (commit.Some? <==> b in old(refs).branches)
      ensures commit.Some? ==>
                && State() == R.Advance(old(State()), b, R.Written(R.HeadTree(old(State()), b), b, kvs, x),
                                        repacked)
                && b in refs.branches && refs.branches[b] == commit.value
      ensures commit.None? ==> State() == old(State())
      ensures commit.Some? ==>
                WriteMeaning.WriteRight(R.HeadTree(old(State()), b), RepoMerges.AtHead(State(), b), b, kvs, x)
      ensures commit.Some? && Repeats(R.HeadTree(old(State()), b), kvs) ==> (repacked <==> !old(HeadFits(b, kvs[0].0)))
    {
      hide R.Advance, R.Written, WellFormed, Contents, R.Sound, AllWellFormed, AllContents, Fits,
           WriteMeaning.WriteRight, RepoMerges.AtHead;
      if b !in refs.branches { return None, false; }
      var head := refs.branches[b];
      ghost var before := State();
      RepoGraph.HeadsStored(State());
      HeadPages(pages, head);
      var pages' := WriteTree(pages[head], b, kvs, x, pageSize, size);
      var c;
      c, repacked := AdvanceHead(b, pages');
      commit := Some(c);
      ghost var tree := R.Written(R.HeadTree(before, b), b, kvs, x);
      RepoCounting.CommitHead(before, b, tree, repacked);
      WriteMeaning.WrittenIsRight(R.HeadTree(before, b), b, kvs, x);
    }

    /** Build the branch's graph from its entries and publish it; or change nothing, on a missing branch or an entry
        that does not decode. */
    method BuildAnnIndex(b: Name, c: AnnFold.Codec, space: AnnFold.Space)
      returns (count: Option<nat>, ghost tree: R.Tree, ghost repacked: bool)
      requires Settled()
      modifies this
      ensures Settled()
      ensures count.Some? ==> Rebuilds(old(State()), State(), ids, b, c, space, tree, repacked, count.value)
      ensures count.None? ==> State() == old(State())
    {
      hide R.Sound, R.Advance, WellFormed, Contents, AllWellFormed, HnswGraph.WellBuilt, AnnFold.Built;
      tree := map[];
      if b !in refs.branches { return None, tree, false; }
      var head := refs.branches[b];
      ghost var before := State();
      RepoGraph.HeadsStored(before);
      HeadPages(pages, head);
      var pages', n := AnnFold.RebuildGraph(pages[head], c, space, pageSize, size);
      if pages'.None? { return None, tree, false; }
      tree := Contents(pages'.value);
      ghost var pairs := AnnFold.PairsIn(c, Listing(Contents(pages[head]))).value;
      AnnSearch.RebuildElsewhere(c, AnnFold.Built(space, pairs), AnnFold.RawOf(pairs), Contents(pages[head]), tree);
      var commit;
      commit, repacked := AdvanceHead(b, pages'.value);
      count := Some(n);
    }

    /** Join a parent to a recorded commit. */
    method JoinParent(c: CommitId, second: CommitId)
      requires Replay(stored, pending) == refs
      modifies this`refs, this`pending
      ensures refs == if c in old(refs).commits
              then old(refs).(commits := old(refs).commits[c := Joined(old(refs).commits[c], second)])
                      else old(refs)
      ensures Replay(stored, pending) == refs
    {
      hide Replay;
      if c in refs.commits && second !in refs.commits[c] {
        refs := refs.(commits := refs.commits[c := refs.commits[c] + [second]]);
        PushEdit(AddParent(c, second));
      } else if c in refs.commits {
        assert refs.commits[c := refs.commits[c]] == refs.commits;
      }
    }

    /** Record the merge edge: both parents on a commit not yet recorded, the second one joined to a recorded one. */
    method RecordMerge(c: CommitId, before: CommitId, second: CommitId)
      requires Settled() && c in pages && before in pages && second in pages
      modifies this`refs, this`pending, this`stored
      ensures Settled() && State() == R.WithSecondParent(old(State()), c, before, second)
    {
      hide R.Sound, R.Recorded, AllWellFormed, AllContents, Replay;
      RepoGraph.SecondParentSound(State(), c, before, second);
      RecordCommit(c, [before, second]);
      JoinParent(c, second);
      Persist();
    }

    /** A write that records a second parent: the merge edge. */
    method WriteMerge(b: Name, kvs: seq<(Key, Record)>, x: R.Extras, second: CommitId)
      returns (commit: Option<CommitId>, ghost repacked: bool)
      requires Settled() && second in pages
      modifies this
      ensures Settled() && (commit.Some? <==> b in old(refs).branches)
      ensures commit.Some? ==>
                var r' := R.Advance(old(State()), b, R.Written(R.HeadTree(old(State()), b), b, kvs, x),
                                    repacked);
                && b in r'.refs.branches && r'.refs.branches[b] == commit.value
                && State() == R.WithSecondParent(r', commit.value, old(refs).branches[b], second)
      ensures commit.None? ==> State() == old(State())
      ensures commit.Some? ==>
                WriteMeaning.WriteRight(R.HeadTree(old(State()), b), RepoMerges.AtHead(State(), b), b, kvs, x)
      ensures commit.Some? && Repeats(R.HeadTree(old(State()), b), kvs) ==> (repacked <==> !old(HeadFits(b, kvs[0].0)))
    {
      hide R.Sound, R.Written, AllWellFormed, Replay, HeadFits, Repeats, R.Advance, WriteMeaning.WriteRight,
           RepoMerges.AtHead, R.WithSecondParent;
      if b !in refs.branches { return None, false; }
      var before := refs.branches[b];
      ghost var start := State();
      RepoGraph.HeadsStored(start);
      commit, repacked := WriteAll(b, kvs, x);
      ghost var written := State();
      RepoCounting.AdvanceOthers(start, b, R.Written(R.HeadTree(start, b), b, kvs, x), repacked);
      RepoGraph.HeadsStored(written);
      RecordMerge(commit.value, before, second);
      SameHeadTree(written, commit.value, before, second, b);
    }

    /** The merge base, when there is exactly one; the source where nothing is shared. */
    method FindBase(source: CommitId, target: CommitId) returns (base: Option<CommitId>, bases: nat)
      requires Valid() && source in pages
      ensures base == R.BaseOf(R.GraphOf(State()), source, target)
      ensures base.Some? ==> base.value in pages
      ensures base.None? ==> bases > 1
      ensures bases == |Bases(R.GraphOf(State()), source, target)|
    {
      hide R.Sound, AllWellFormed, Replay, ReachIn, R.BaseOf, R.GraphOf, IsBase;
      ghost var g := R.GraphOf(State());
      assert g == Graph.Graph(refs.commits, parents) by { GraphIs(State()); }
      var lowest := MergeBases(Graph.Graph(refs.commits, parents), source, target);
      bases := |lowest|;
      BasesAre(g, source, target);
      assert lowest == Bases(g, source, target);
      BaseCases(g, source, target);
      if lowest == {} { return Some(source), 0; }
      var c :| c in lowest;
      BaseStored(State(), source, target, c);
      if lowest == {c} { return Some(c), bases; }
      assert lowest == (lowest - {c}) + {c};
      ghost var d :| d in lowest - {c};
      TwoMembers(lowest, c, d);
      base := None;
    }

    /** Plan a merge of two commits over a base, from their pages. */
    method Planned(base: CommitId, s: CommitId, t: CommitId, policy: Policy) returns (outcome: Outcome)
      requires Valid() && base in pages && s in pages && t in pages
      ensures outcome == OutcomeOf(R.PlanOf(State().trees[base], State().trees[s], State().trees[t], policy))
    {
      hide R.Sound, WellFormed, Contents, PlanOver, InOrder, OutcomeOf;
      HeadPages(pages, base);
      HeadPages(pages, s);
      HeadPages(pages, t);
      var changed := Diff3(pages[base], pages[s], pages[t]);
      outcome := PlanMerge(pages[base], pages[s], pages[t], changed, policy, pageSize, size);
    }

    /** Merge one head into another: base, plan, policy, one write. */
    method MergeHeads(source: Name, target: Name, policy: Policy, forbids: R.Forbids, x: R.Extras)
      returns (answer: MergeResult, ghost repacked: bool)
      requires Settled() && source in refs.branches && target in refs.branches
      modifies this
      ensures Settled()
      ensures MergeOutcome(old(State()), State(), ids,
                           R.MergeInto(source, target, policy, forbids, x, repacked), Some(answer))
      ensures RemergeOutcome(old(State()), ids, R.MergeInto(source, target, policy, forbids, x, repacked),
                             old(HeadFits(target, MergedFromKey(source))))
    {
      hide R.Sound, AllWellFormed, AllContents, Replay, R.Advance, R.Written, R.BaseOf, R.PlanOf, R.Without, R.Refused,
           MergedFromKey, HeadFits;
      repacked := false;
      var s, t := refs.branches[source], refs.branches[target];
      ghost var before := State();
      RepoGraph.HeadsStored(before);
      ghost var event := R.MergeInto(source, target, policy, forbids, x, false);
      var base, bases := FindBase(s, t);
      if base.None? { return Ambiguous(bases), false; }
      var outcome := Planned(base.value, s, t, policy);
      match outcome {
        case Conflicted(report) => return Conflicts(report), false;
        case Merged(writes, automatic) =>
          var records, refused := CheckPolicy(writes, forbids);
          if refused.Some? { return PolicyRefused(refused.value), false; }
          var kvs := writes + [(MergedFromKey(source), OfValue(Blob(ids(s))))];
          assert R.MergeWrites(before, ids, event) == Some(kvs);
          MergedFromReserved(source);
          var commit;
          commit, repacked := WriteMerge(target, kvs, x.(hints := map[]), s);
          answer := MergeResult.Merged(commit.value, records, automatic);
          assert R.MergeWrites(before, ids, R.MergeInto(source, target, policy, forbids, x, repacked))
                 == Some(kvs);
      }
    }

    /** Merge one branch into another at record granularity, each write re-checked against the policy of the day. */
    method MergeChecked(source: Name, target: Name, policy: Policy, forbids: R.Forbids, x: R.Extras)
      returns (result: Option<MergeResult>, ghost repacked: bool)
      requires Settled()
      modifies this
      ensures Settled()
      ensures MergeOutcome(old(State()), State(), ids,
                           R.MergeInto(source, target, policy, forbids, x, repacked), result)
      ensures result.Some? ==>
                OutcomeRight(old(State()), State(), R.MergeInto(source, target, policy, forbids, x, repacked),
                             result.value)
      ensures RemergeOutcome(old(State()), ids, R.MergeInto(source, target, policy, forbids, x, repacked),
                             old(HeadFits(target, MergedFromKey(source))))
    {
      hide R.Sound, HeadFits, OutcomeRight, Answers, R.NothingNew, R.Step;
      if source !in refs.branches || target !in refs.branches { return None, false; }
      ghost var before := State();
      var answer;
      answer, repacked := MergeHeads(source, target, policy, forbids, x);
      AnswersAreRight(before, ids, R.MergeInto(source, target, policy, forbids, x, repacked), answer);
      result := Some(answer);
    }
  }

  lemma GraphIs(r: R.Repo)
    ensures R.GraphOf(r) == Graph.Graph(r.refs.commits, r.parents)
  {
  }

  /** The base, by how many there are. */
  lemma BaseCases(g: Graph, s: CommitId, t: CommitId)
    ensures Bases(g, s, t) == {} ==> R.BaseOf(g, s, t) == Some(s)
    ensures forall c | Bases(g, s, t) == {c} :: R.BaseOf(g, s, t) == Some(c)
    ensures forall c, d | c in Bases(g, s, t) && d in Bases(g, s, t) && c != d :: R.BaseOf(g, s, t) == None
  {
    BasesAre(g, s, t);
    hide IsBase;
    forall c | Bases(g, s, t) == {c} ensures R.BaseOf(g, s, t) == Some(c) { assert R.UniqueBase(g, s, t, c); }
    forall c, d | c in Bases(g, s, t) && d in Bases(g, s, t) && c != d ensures R.BaseOf(g, s, t) == None {
      assert IsBase(g, s, t, c) && IsBase(g, s, t, d);
    }
  }

  lemma BaseStored(r: R.Repo, s: CommitId, t: CommitId, c: CommitId)
    requires R.Sound(r) && s in r.trees && c in Bases(R.GraphOf(r), s, t)
    ensures c in r.trees
  {
    RepoGraph.ReachStored(r, s, c);
  }

  /** A merge edge moves no head. */
  lemma SameHeadTree(r: R.Repo, c: CommitId, before: CommitId, second: CommitId, b: Name)
    ensures RepoMerges.AtHead(R.WithSecondParent(r, c, before, second), b) == RepoMerges.AtHead(r, b)
  {
  }

  lemma MergedFromReserved(source: Name)
    ensures !IsCaller(MergedFromKey(source))
  {
    BuilderRegions(source, [], 0);
  }

  lemma TwoMembers(s: set<CommitId>, c: CommitId, d: CommitId)
    requires c in s && d in s && c != d
    ensures |s| > 1
  {
    assert s == {c, d} + (s - {c, d});
    assert |{c, d}| == 2;
  }
}
