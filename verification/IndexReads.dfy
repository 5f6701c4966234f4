/** Whatever races: an acknowledged record is read from its branch until it is written over. */
module IndexReads {
  import opened Bytes
  import opened Records
  import opened Keyspace
  import opened Refs
  import opened Merge
  import opened Listings
  import opened AnnFold
  import opened IndexRaces
  import AnnSearch
  import WriteMeaning
  import Repo

  /** What a commit's tree holds under a key. */
  function Held(w: World, c: CommitId, k: Key): Option<Record> { if c in w.trees then Look(w.trees[c], k) else None }

  /** What a branch's head holds under a key. */
  function Read(w: World, b: Name, k: Key): Option<Record> { if b in w.heads then Held(w, w.heads[b], k) else None }

  /** A rebuilt tree holds under the key what the tree it was built from holds. */
  predicate Agrees(w: World, s: Proc, k: Key) {
    s.Rebuilt? || s.Publishing? ==> Held(w, s.commit, k) == Held(w, s.head, k)
  }

  predicate FoldsAgree(w: World, k: Key) { forall p | p in w.procs :: Agrees(w, w.procs[p], k) }

  /** What is written and not yet published on the branch holds under the key what the branch is to be read with. */
  predicate Pends(w: World, s: Proc, b: Name, k: Key, v: Option<Record>) {
    s.Written? && s.b == b ==> Held(w, s.commit, k) == v
  }

  /** The branch is read with this under the key, and nothing pending is about to change that. */
  predicate Reads(w: World, b: Name, k: Key, v: Option<Record>) {
    && b in w.heads && Read(w, b, k) == v && FoldsAgree(w, k)
    && forall p | p in w.procs :: Pends(w, w.procs[p], b, k, v)
  }

  /** The step writes nothing under this key of this branch. */
  predicate Spares(w: World, a: Act, b: Name, k: Key) {
    a.CommitWrite? && At(w, a.p).Writing? && At(w, a.p).b == b ==> forall i | 0 <= i < |a.kvs| :: a.kvs[i].0 != k
  }

  // ---------- trees ----------

  lemma WriteSpares(m: Table, b: Name, kvs: seq<(Key, Record)>, x: Repo.Extras, k: Key)
    requires IsCaller(k) && forall i | 0 <= i < |kvs| :: kvs[i].0 != k
    ensures Look(Repo.Written(m, b, kvs, x), k) == Look(m, k)
  {
    hide Repo.Written;
    WriteMeaning.WriteRecords(m, b, kvs, x);
  }

  lemma FoldSpares(ann: Ann, m: Table, k: Key)
    requires IsCaller(k) && PairsIn(ann.codec, Listing(m)).Some?
    ensures Look(FoldedTable(ann.codec, ann.space, m), k) == Look(m, k)
  {
    var pairs := PairsIn(ann.codec, Listing(m)).value;
    var folded := FoldedTable(ann.codec, ann.space, m);
    FoldedTableIs(ann.codec, ann.space, m, folded);
    hide FoldedTable, PairsIn, Listing, FoldsTo;
    AnnSearch.RebuildElsewhere(ann.codec, Built(ann.space, pairs), RawOf(pairs), m, folded);
    CallersBeside(k);
  }

  lemma CallersBeside(k: Key)
    requires IsCaller(k)
    ensures RegionOf(k) == Region.Caller
  {
  }

  /** Committing keeps every stored tree, and gives the new commit its tree. */
  lemma CommittingHolds(w: World, head: CommitId, tree: Table, repacked: bool)
    requires Stored(w) && head in w.trees
    ensures var (w', c) := Committing(w, head, tree, repacked);
            && (forall d, k | d in w.trees :: Held(w', d, k) == Held(w, d, k))
            && (forall k :: Held(w', c, k) == Look(tree, k)) && w'.heads == w.heads && w'.procs == w.procs
  {
  }

  /** In a good world everything a process remembers is stored. */
  lemma Remembered(w: World, p: ProcId)
    requires Good(w) && p in w.procs
    ensures match w.procs[p]
            case Idle => true
            case Folding(_, _) => true
            case Writing(b, head) => b in w.heads && w.heads[b] == head && head in w.trees
            case Written(b, head, c) => b in w.heads && w.heads[b] == head && head in w.trees && c in w.trees
            case Rebuilding(_, _, head) => head in w.trees
            case Rebuilt(_, _, head, c) => head in w.trees && c in w.trees
            case Publishing(_, _, head, c) => head in w.trees && c in w.trees
  {
    assert Sane(w, w.procs[p]);
  }

  // ---------- steps ----------

  /** A world with more trees, and one process changed. */
  lemma GrownAgrees(w: World, w': World, p: ProcId, s: Proc, k: Key)
    requires Good(w) && FoldsAgree(w, k) && w'.procs == w.procs[p := s]
    requires forall d | d in w.trees :: Held(w', d, k) == Held(w, d, k)
    requires Agrees(w', s, k)
    ensures FoldsAgree(w', k)
  {
    hide Good;
    forall q | q in w'.procs && q != p ensures Agrees(w', w'.procs[q], k) {
      Remembered(w, q);
      assert Agrees(w, w.procs[q], k);
    }
  }

  lemma GrownReads(w: World, w': World, p: ProcId, s: Proc, b: Name, k: Key, v: Option<Record>)
    requires Good(w) && Reads(w, b, k, v) && w'.heads == w.heads && w'.procs == w.procs[p := s]
    requires forall d | d in w.trees :: Held(w', d, k) == Held(w, d, k)
    requires Agrees(w', s, k) && Pends(w', s, b, k, v)
    ensures Reads(w', b, k, v)
  {
    HeadsIn(w);
    GrownAgrees(w, w', p, s, k);
    hide Good, FoldsAgree;
    forall q | q in w'.procs && q != p ensures Pends(w', w'.procs[q], b, k, v) {
      Remembered(w, q);
      assert Pends(w, w.procs[q], b, k, v);
    }
  }

  /** A write's commit holds what the write leaves of its head's tree. */
  lemma WriteTrees(ann: Ann, w: World, a: Act)
    requires Good(w) && Enabled(ann, w, a) && a.CommitWrite?
    ensures var (w', head, b) := (Next(ann, w, a), At(w, a.p).head, At(w, a.p).b);
            && b in w.heads && w.heads[b] == head && head in w.trees
            && (forall d, k | d in w.trees :: Held(w', d, k) == Held(w, d, k)) && w'.heads == w.heads
            && At(w', a.p).Written? && At(w', a.p).b == b && w'.procs == w.procs[a.p := At(w', a.p)]
            && forall k :: Held(w', At(w', a.p).commit, k) == Look(Repo.Written(w.trees[head], b, a.kvs, a.extras), k)
  {
    GoodStored(w);
    SaneAt(w, a.p);
    hide Good, Repo.Written, Stored, Held;
    var Writing(b, head) := At(w, a.p);
    CommittingHolds(w, head, Repo.Written(w.trees[head], b, a.kvs, a.extras), a.repacked);
    HeldSame(Committing(w, head, Repo.Written(w.trees[head], b, a.kvs, a.extras), a.repacked).0, Next(ann, w, a));
    hide Committing;
  }

  lemma HeldSame(w: World, w': World)
    requires w'.trees == w.trees
    ensures forall c, k :: Held(w', c, k) == Held(w, c, k)
  {
  }

  lemma RebuildTrees(ann: Ann, w: World, a: Act, k: Key)
    requires Good(w) && Enabled(ann, w, a) && a.Rebuild? && IsCaller(k)
    ensures var (w', head) := (Next(ann, w, a), At(w, a.p).head);
            && head in w.trees && (forall d | d in w.trees :: Held(w', d, k) == Held(w, d, k)) && w'.heads == w.heads
            && At(w', a.p).Rebuilt? && At(w', a.p).head == head && w'.procs == w.procs[a.p := At(w', a.p)]
            && Held(w', At(w', a.p).commit, k) == Held(w', head, k)
  {
    GoodStored(w);
    SaneAt(w, a.p);
    var head := At(w, a.p).head;
    RefoldedHolds(ann, w, head, k);
    hide Good, Refolded, Stored, Held;
    CommittingHolds(w, head, Refolded(ann, w, head), a.repacked);
    HeldSame(Committing(w, head, Refolded(ann, w, head), a.repacked).0, Next(ann, w, a));
    hide Committing;
  }

  lemma RefoldedHolds(ann: Ann, w: World, head: CommitId, k: Key)
    requires Decodable(ann, w, head) && IsCaller(k)
    ensures Look(Refolded(ann, w, head), k) == Held(w, head, k)
  {
    FoldSpares(ann, w.trees[head], k);
  }

  lemma OtherTrees(ann: Ann, w: World, a: Act)
    requires Good(w) && Enabled(ann, w, a) && !a.CommitWrite? && !a.Rebuild?
    ensures Next(ann, w, a).trees == w.trees
  {
    hide Good;
    SaneAt(w, if a.Fork? then 0 else a.p);
  }

  /** What the other steps change: one process, and at most one head, to a commit it waited to publish. */
  lemma OtherSteps(ann: Ann, w: World, a: Act)
    requires Good(w) && Enabled(ann, w, a) && !a.CommitWrite? && !a.Rebuild? && !a.Fork?
    ensures var w' := Next(ann, w, a);
            && w'.trees == w.trees && w'.procs == w.procs[a.p := At(w', a.p)] && !At(w', a.p).Written?
            && (At(w', a.p).Rebuilt? || At(w', a.p).Publishing? ==>
                  (At(w, a.p).Rebuilt? || At(w, a.p).Publishing?)
                  && At(w', a.p).head == At(w, a.p).head && At(w', a.p).commit == At(w, a.p).commit)
            && (w'.heads == w.heads
                || ((At(w, a.p).Written? || At(w, a.p).Publishing?) && At(w, a.p).b in w.heads
                    && w.heads[At(w, a.p).b] == At(w, a.p).head
                    && w'.heads == w.heads[At(w, a.p).b := At(w, a.p).commit]))
  {
    SaneAt(w, a.p);
    hide Good, ChildOf, Stored;
  }

  lemma WriteKeepsReads(ann: Ann, w: World, a: Act, b: Name, k: Key, v: Option<Record>)
    requires Good(w) && Enabled(ann, w, a) && a.CommitWrite? && IsCaller(k) && Reads(w, b, k, v) && Spares(w, a, b, k)
    ensures Reads(Next(ann, w, a), b, k, v)
  {
    WriteTrees(ann, w, a);
    assert At(w, a.p).Writing?;
    hide Good, Next, Enabled, Repo.Written, FoldsAgree;
    var (w', head) := (Next(ann, w, a), At(w, a.p).head);
    if At(w, a.p).b == b { WriteSpares(w.trees[head], b, a.kvs, a.extras, k); }
    GrownReads(w, w', a.p, At(w', a.p), b, k, v);
  }

  lemma ForkReads(ann: Ann, w: World, a: Act, b: Name, k: Key, v: Option<Record>)
    requires Good(w) && Enabled(ann, w, a) && a.Fork? && Reads(w, b, k, v)
    ensures Reads(Next(ann, w, a), b, k, v)
  {
    var w' := Next(ann, w, a);
    assert w'.trees == w.trees && w'.procs == w.procs && w'.heads[b] == w.heads[b];
    hide Good, Next, Enabled;
    HeldSame(w, w');
    forall p | p in w'.procs ensures Agrees(w', w'.procs[p], k) && Pends(w', w'.procs[p], b, k, v) {
      assert Agrees(w, w.procs[p], k) && Pends(w, w.procs[p], b, k, v);
    }
  }

  /** Publishing what agrees with the head, or what the branch is to be read with anyway. */
  lemma MovedReads(w: World, w': World, p: ProcId, b: Name, k: Key, v: Option<Record>)
    requires Good(w) && Reads(w, b, k, v)
    requires w'.trees == w.trees && w'.procs == w.procs[p := At(w', p)] && !At(w', p).Written?
    requires At(w', p).Rebuilt? || At(w', p).Publishing? ==>
               (At(w, p).Rebuilt? || At(w, p).Publishing?)
               && At(w', p).head == At(w, p).head && At(w', p).commit == At(w, p).commit
    requires w'.heads == w.heads
             || ((At(w, p).Written? || At(w, p).Publishing?) && At(w, p).b in w.heads
                 && w.heads[At(w, p).b] == At(w, p).head && w'.heads == w.heads[At(w, p).b := At(w, p).commit])
    ensures Reads(w', b, k, v)
  {
    HeldSame(w, w');
    hide Good;
    assert p in w.procs ==> Agrees(w, w.procs[p], k) && Pends(w, w.procs[p], b, k, v);
    forall q | q in w'.procs ensures Agrees(w', w'.procs[q], k) && Pends(w', w'.procs[q], b, k, v) {
      if q != p { assert Agrees(w, w.procs[q], k) && Pends(w, w.procs[q], b, k, v); }
    }
  }

  /** **A step that spares the key keeps what the branch is read with.** */
  lemma StepReads(ann: Ann, w: World, a: Act, b: Name, k: Key, v: Option<Record>)
    requires Good(w) && Enabled(ann, w, a) && IsCaller(k) && Reads(w, b, k, v) && Spares(w, a, b, k)
    ensures Reads(Next(ann, w, a), b, k, v)
  {
    hide Good, Next, Enabled, Repo.Written;
    var w' := Next(ann, w, a);
    if a.CommitWrite? {
      WriteTrees(ann, w, a);
      WriteKeepsReads(ann, w, a, b, k, v);
    } else if a.Rebuild? {
      RebuildTrees(ann, w, a, k);
      GrownReads(w, w', a.p, At(w', a.p), b, k, v);
    } else if a.Fork? {
      ForkReads(ann, w, a, b, k, v);
    } else {
      OtherSteps(ann, w, a);
      MovedReads(w, w', a.p, b, k, v);
    }
  }

  /** What a write commits is what a write should leave of its head's tree. */
  lemma CommitsRight(ann: Ann, w: World, a: Act)
    requires Good(w) && Enabled(ann, w, a) && a.CommitWrite?
    ensures var (w', head, b) := (Next(ann, w, a), At(w, a.p).head, At(w, a.p).b);
            && head in w.trees && At(w', a.p).Written? && At(w', a.p).commit in w'.trees
            && WriteMeaning.WriteRight(w.trees[head], w'.trees[At(w', a.p).commit], b, a.kvs, a.extras)
  {
    GoodStored(w);
    SaneAt(w, a.p);
    hide Good, Repo.Written, Stored, WriteMeaning.WriteRight;
    var Writing(b, head) := At(w, a.p);
    CommittingStores(w, head, Repo.Written(w.trees[head], b, a.kvs, a.extras), a.repacked);
    WriteMeaning.WrittenIsRight(w.trees[head], b, a.kvs, a.extras);
    hide Committing;
  }

  // ---------- runs ----------

  lemma StepAgrees(ann: Ann, w: World, a: Act, k: Key)
    requires Good(w) && Enabled(ann, w, a) && IsCaller(k) && FoldsAgree(w, k)
    ensures FoldsAgree(Next(ann, w, a), k)
  {
    hide Good, Next, Enabled, Repo.Written;
    var w' := Next(ann, w, a);
    if a.CommitWrite? {
      WriteTrees(ann, w, a);
      GrownAgrees(w, w', a.p, At(w', a.p), k);
    } else if a.Rebuild? {
      RebuildTrees(ann, w, a, k);
      GrownAgrees(w, w', a.p, At(w', a.p), k);
    } else if a.Fork? {
      ForkAgrees(ann, w, a, k);
    } else {
      OtherSteps(ann, w, a);
      HeldSame(w, w');
      assert a.p in w.procs ==> Agrees(w, w.procs[a.p], k);
      GrownAgrees(w, w', a.p, At(w', a.p), k);
    }
  }

  lemma ForkAgrees(ann: Ann, w: World, a: Act, k: Key)
    requires Good(w) && Enabled(ann, w, a) && a.Fork? && FoldsAgree(w, k)
    ensures FoldsAgree(Next(ann, w, a), k)
  {
    var w' := Next(ann, w, a);
    assert w'.trees == w.trees && w'.procs == w.procs;
    hide Good, Next, Enabled;
    HeldSame(w, w');
    forall p | p in w'.procs ensures Agrees(w', w'.procs[p], k) { assert Agrees(w, w.procs[p], k); }
  }

  lemma {:induction false} RunAgrees(ann: Ann, w: World, acts: seq<Act>, k: Key)
    requires Good(w) && CanRun(ann, w, acts) && IsCaller(k) && FoldsAgree(w, k)
    ensures FoldsAgree(Run(ann, w, acts), k)
    decreases |acts|
  {
    if acts != [] {
      StepGood(ann, w, acts[0]);
      StepAgrees(ann, w, acts[0], k);
      hide Good, Next, Enabled, FoldsAgree;
      RunAgrees(ann, Next(ann, w, acts[0]), acts[1..], k);
    }
  }

  /** No step of a run writes under this key of this branch. */
  ghost predicate AllSpare(ann: Ann, w: World, acts: seq<Act>, b: Name, k: Key)
    requires Good(w) && CanRun(ann, w, acts)
    decreases |acts|
  {
    acts == [] || (Spares(w, acts[0], b, k)
                   && (StepGood(ann, w, acts[0]); AllSpare(ann, Next(ann, w, acts[0]), acts[1..], b, k)))
  }

  lemma {:induction false} RunReads(ann: Ann, w: World, acts: seq<Act>, b: Name, k: Key, v: Option<Record>)
    requires Good(w) && CanRun(ann, w, acts) && IsCaller(k) && Reads(w, b, k, v) && AllSpare(ann, w, acts, b, k)
    ensures Reads(Run(ann, w, acts), b, k, v)
    decreases |acts|
  {
    if acts != [] {
      StepGood(ann, w, acts[0]);
      StepReads(ann, w, acts[0], b, k, v);
      hide Good, Next, Enabled, Reads, Spares;
      RunReads(ann, Next(ann, w, acts[0]), acts[1..], b, k, v);
    }
  }

  /** An acknowledged write is what its branch is read with: it held the lock, so nothing else is about to be
      written. */
  lemma AckReads(ann: Ann, w: World, p: ProcId, k: Key)
    requires Good(w) && Enabled(ann, w, FinishWrite(p)) && FoldsAgree(w, k)
    ensures Reads(Next(ann, w, FinishWrite(p)), At(w, p).b, k, Held(w, At(w, p).commit, k))
  {
    var (w', b, c) := (Next(ann, w, FinishWrite(p)), At(w, p).b, At(w, p).commit);
    SaneAt(w, p);
    assert w'.trees == w.trees && w'.procs == w.procs[p := Idle] && w'.heads == w.heads[b := c];
    forall q | q in w.procs && q != p ensures !w.procs[q].Written? { assert Holding(w.procs[q]) ==> w.lock == Some(q); }
    hide Good, Next, Enabled;
    HeldSame(w, w');
    forall q | q in w'.procs ensures Agrees(w', w'.procs[q], k) && Pends(w', w'.procs[q], b, k, Held(w, c, k)) {
      if q != p { assert Agrees(w, w.procs[q], k); }
    }
  }

  /** **An acknowledged record is read from its branch until it is written over**, whatever writes under other keys and
      on other branches, failing writes, and folds are interleaved. */
  lemma AckedRecordsRead(ann: Ann, acts: seq<Act>, p: ProcId, later: seq<Act>, k: Key)
    requires Possible(ann, acts) && IsCaller(k) && Good(After(ann, acts))
    requires Enabled(ann, After(ann, acts), FinishWrite(p)) && Good(Next(ann, After(ann, acts), FinishWrite(p)))
    requires CanRun(ann, Next(ann, After(ann, acts), FinishWrite(p)), later)
    requires AllSpare(ann, Next(ann, After(ann, acts), FinishWrite(p)), later, At(After(ann, acts), p).b, k)
    ensures var w := After(ann, acts);
            Read(Run(ann, Next(ann, w, FinishWrite(p)), later), At(w, p).b, k) == Held(w, At(w, p).commit, k)
  {
    var w := After(ann, acts);
    StartGood();
    assert FoldsAgree(START, k);
    RunAgrees(ann, START, acts, k);
    assert w == Run(ann, START, acts);
    hide Good, Enabled, Next, FoldsAgree, Run, AllSpare, CanRun;
    AckReads(ann, w, p, k);
    RunReads(ann, Next(ann, w, FinishWrite(p)), later, At(w, p).b, k, Held(w, At(w, p).commit, k));
  }
}
