/** Writers and folds racing on branch heads: one lock for every head move, folds that publish by compare-and-set. */
module IndexRaces {
  import opened Bytes
  import opened Records
  import opened Refs
  import opened CommitDag
  import opened Listings
  import opened AnnFold
  import opened LiveTree
  import WriteExtras
  import AnnSearch
  import SearchTree
  import FreshSearch
  import HnswGraph
  import Repo
  import RepoGraph

  const MAX_RETRIES := 8

  /** Where each process is: a write holds the lock from reading the head to moving it, a fold only to publish. */
  datatype Proc =
    | Idle
    | Writing(b: Name, head: CommitId)
    | Written(b: Name, head: CommitId, commit: CommitId)
    | Folding(b: Name, left: nat)
    | Rebuilding(b: Name, left: nat, head: CommitId)
    | Rebuilt(b: Name, left: nat, head: CommitId, commit: CommitId)
    | Publishing(b: Name, left: nat, head: CommitId, commit: CommitId)

  type ProcId = nat

  /** How entries, vectors and nodes are stored, and what vectors are compared by. */
  datatype Ann = Ann(codec: Codec, space: Space)

  datatype World = World(lock: Option<ProcId>, procs: map<ProcId, Proc>, heads: map<Name, CommitId>, graph: Graph,
                         trees: map<CommitId, Table>, next: CommitId, acked: set<(Name, CommitId)>)

  /** FailWrite leaves the head alone; FailAppend is the ref append failing once the head has moved in memory, so the
      caller is told of an error although the commit is the head. */
  datatype Act =
    | Fork(from: Name, name: Name)
    | BeginWrite(p: ProcId, b: Name)
    | CommitWrite(p: ProcId, kvs: seq<(Key, Record)>, extras: Repo.Extras, repacked: bool)
    | FinishWrite(p: ProcId)
    | FailWrite(p: ProcId)
    | FailAppend(p: ProcId)
    | BeginFold(p: ProcId, b: Name)
    | ReadHead(p: ProcId)
    | Rebuild(p: ProcId, repacked: bool)
    | FailFold(p: ProcId)
    | Lock(p: ProcId)
    | CompareAndSet(p: ProcId)

  function At(w: World, p: ProcId): Proc { if p in w.procs then w.procs[p] else Idle }

  function Set(w: World, p: ProcId, s: Proc): World { w.(procs := w.procs[p := s]) }

  predicate Holding(s: Proc) { s.Writing? || s.Written? || s.Publishing? }

  // ---------- steps ----------

  ghost predicate Enabled(ann: Ann, w: World, a: Act) {
    match a
    case Fork(from, name) => from in w.heads && name !in w.heads
    case BeginWrite(p, b) => At(w, p).Idle? && w.lock.None? && b in w.heads
    case CommitWrite(p, kvs, extras, _) => At(w, p).Writing? && BesideIndex(kvs) && extras.entries == ann.codec
    case FinishWrite(p) => At(w, p).Written?
    case FailWrite(p) => At(w, p).Writing? || At(w, p).Written?
    case FailAppend(p) =>
      At(w, p).Written? || (At(w, p).Publishing? && At(w, p).b in w.heads && w.heads[At(w, p).b] == At(w, p).head)
    case BeginFold(p, b) => At(w, p).Idle? && b in w.heads
    case ReadHead(p) => At(w, p).Folding? && At(w, p).left > 0
    case Rebuild(p, _) => At(w, p).Rebuilding? && Decodable(ann, w, At(w, p).head)
    case FailFold(p) => At(w, p).Rebuilding?
    case Lock(p) => At(w, p).Rebuilt? && w.lock.None?
    case CompareAndSet(p) => At(w, p).Publishing?
  }

  /** Every embedded entry under a commit decodes. */
  ghost predicate Decodable(ann: Ann, w: World, head: CommitId) {
    head in w.trees && PairsIn(ann.codec, Listing(w.trees[head])).Some?
  }

  /** What a rebuild makes of a commit's tree. */
  ghost function Refolded(ann: Ann, w: World, head: CommitId): Table
    requires Decodable(ann, w, head)
  {
    FoldedTable(ann.codec, ann.space, w.trees[head])
  }

  /** The pager's commit, and the id it answers. */
  function Committing(w: World, head: CommitId, tree: Table, repacked: bool): (World, CommitId)
    requires head in w.trees
  {
    if tree == w.trees[head] && !repacked then (w, head)
    else
      (w.(graph := w.graph.(manifests := w.graph.manifests[w.next := Some(head)]), trees := w.trees[w.next := tree],
          next := w.next + 1), w.next)
  }

  /** Record a commit's one parent, the first time, and move a head. */
  function Moving(w: World, b: Name, head: CommitId, commit: CommitId): World {
    var recorded :=
      if commit == head || commit in w.graph.recorded then w.graph.recorded else w.graph.recorded[commit := [head]];
    w.(graph := w.graph.(recorded := recorded), heads := w.heads[b := commit])
  }

  ghost function Next(ann: Ann, w: World, a: Act): World
    requires Good(w) && Enabled(ann, w, a)
  {
    match a
    case Fork(from, name) => w.(heads := w.heads[name := w.heads[from]])
    case BeginWrite(p, b) => Set(w, p, Writing(b, w.heads[b])).(lock := Some(p))
    case CommitWrite(p, kvs, extras, repacked) =>
      var Writing(b, head) := At(w, p);
      assert Sane(w, At(w, p));
      var (w', c) := Committing(w, head, Repo.Written(w.trees[head], b, kvs, extras), repacked);
      Set(w', p, Written(b, head, c))
    case FinishWrite(p) =>
      var Written(b, head, c) := At(w, p);
      Set(Moving(w, b, head, c), p, Idle).(lock := None, acked := w.acked + {(b, c)})
    case FailWrite(p) => Set(w, p, Idle).(lock := None)
    case FailAppend(p) =>
      var (b, head, c) := (At(w, p).b, At(w, p).head, At(w, p).commit);
      Set(Moving(w, b, head, c), p, Idle).(lock := None)
    case BeginFold(p, b) => Set(w, p, Folding(b, MAX_RETRIES))
    case ReadHead(p) =>
      assert Sane(w, At(w, p));
      Set(w, p, Rebuilding(At(w, p).b, At(w, p).left - 1, w.heads[At(w, p).b]))
    case Rebuild(p, repacked) =>
      var Rebuilding(b, left, head) := At(w, p);
      assert Sane(w, At(w, p));
      var (w', c) := Committing(w, head, Refolded(ann, w, head), repacked);
      Set(w', p, Rebuilt(b, left, head, c))
    case FailFold(p) => Set(w, p, Idle)
    case Lock(p) =>
      var Rebuilt(b, left, head, c) := At(w, p);
      Set(w, p, Publishing(b, left, head, c)).(lock := Some(p))
    case CompareAndSet(p) =>
      var Publishing(b, left, head, c) := At(w, p);
      assert Sane(w, At(w, p));
      if w.heads[b] == head then Set(Moving(w, b, head, c), p, Idle).(lock := None)
      else Set(w, p, if left > 0 then Folding(b, left) else Idle).(lock := None)
  }

  // ---------- what every step keeps ----------

  /** A commit answered for a head: the head itself, or its stored child. */
  predicate ChildOf(w: World, c: CommitId, head: CommitId) {
    c in w.trees && head in w.trees && (c == head || (c in w.graph.manifests && w.graph.manifests[c] == Some(head)))
  }

  /** What a process remembers still makes sense; a writer's head is the branch's head as long as it holds the lock. */
  predicate Sane(w: World, s: Proc) {
    match s
    case Idle => true
    case Writing(b, head) => b in w.heads && w.heads[b] == head && head in w.trees
    case Written(b, head, c) => b in w.heads && w.heads[b] == head && ChildOf(w, c, head)
    case Folding(b, left) => b in w.heads && left <= MAX_RETRIES
    case Rebuilding(b, left, head) => b in w.heads && left < MAX_RETRIES && head in w.trees
    case Rebuilt(b, left, head, c) => b in w.heads && left < MAX_RETRIES && ChildOf(w, c, head)
    case Publishing(b, left, head, c) => b in w.heads && left < MAX_RETRIES && ChildOf(w, c, head)
  }

  /** Recorded parents agree with the manifests', and nothing points outside the store. */
  ghost predicate Stored(w: World) {
    && w.graph.manifests.Keys == w.trees.Keys
    && (forall c | c in w.trees ::
          c < w.next && Edges(w.graph, c) == (if w.graph.manifests[c].Some? then [w.graph.manifests[c].value] else []))
    && (forall c | c in w.graph.recorded :: c in w.trees)
    && (forall c | c in w.trees && w.graph.manifests[c].Some? :: w.graph.manifests[c].value in w.trees)
    && (forall b | b in w.heads :: w.heads[b] in w.trees)
  }

  /** The lock is held exactly by the one process that should hold it: it is never shared, and never left behind. */
  ghost predicate LockHeld(w: World) {
    && (forall p | p in w.procs :: Holding(w.procs[p]) <==> w.lock == Some(p))
    && (w.lock.Some? ==> w.lock.value in w.procs)
  }

  ghost predicate Good(w: World) {
    && Stored(w)
    && (forall p | p in w.procs :: Sane(w, w.procs[p]))
    && LockHeld(w)
    && (forall a | a in w.acked :: a.0 in w.heads && Reaches(w.graph, w.heads[a.0], a.1))
  }

  lemma SameEdges(w: World, w': World, a: CommitId, b: CommitId)
    requires Stored(w) && Stored(w') && a in w.trees
    requires forall c | c in w.trees :: c in w'.trees && w'.graph.manifests[c] == w.graph.manifests[c]
    ensures Reaches(w.graph, a, b) <==> Reaches(w'.graph, a, b)
  {
    RepoGraph.SameReach(w.graph, w'.graph, w.trees.Keys, a, b);
  }

  /** A world grown by commits: what was stored still is, as it was. */
  ghost predicate Extends(w: World, w': World) {
    forall c | c in w.trees :: c in w'.trees && w'.trees[c] == w.trees[c]
                               && c in w.graph.manifests && c in w'.graph.manifests
                                  && w'.graph.manifests[c] == w.graph.manifests[c]
  }

  lemma ExtendsReach(w: World, w': World, a: CommitId, b: CommitId)
    requires Stored(w) && Stored(w') && Extends(w, w') && a in w.trees && Reaches(w.graph, a, b)
    ensures Reaches(w'.graph, a, b)
  {
    SameEdges(w, w', a, b);
  }

  lemma CommittingStores(w: World, head: CommitId, tree: Table, repacked: bool)
    requires Stored(w) && head in w.trees
    ensures var (w', c) := Committing(w, head, tree, repacked);
            && Stored(w') && Extends(w, w') && ChildOf(w', c, head) && w'.trees[c] == tree
            && w' == w.(graph := w'.graph, trees := w'.trees, next := w'.next)
            && forall d | d in w'.trees :: d in w.trees || d == c
  {
    var (w', c) := Committing(w, head, tree, repacked);
    assert w.next !in w.trees;
  }

  /** What a process remembers outlives the others' commits; and their head moves, unless it counts on a head. */
  lemma SaneStays(w: World, w': World, s: Proc)
    requires Sane(w, s) && Extends(w, w') && forall b | b in w.heads :: b in w'.heads
    requires s.Writing? || s.Written? ==> w'.heads == w.heads
    ensures Sane(w', s)
  {
  }

  lemma AckedStay(w: World, w': World)
    requires Good(w) && Stored(w') && Extends(w, w') && w'.heads == w.heads
    ensures forall a | a in w.acked :: a.0 in w'.heads && Reaches(w'.graph, w'.heads[a.0], a.1)
  {
    hide Extends, Reaches, Sane;
    forall a | a in w.acked ensures a.0 in w'.heads && Reaches(w'.graph, w'.heads[a.0], a.1) {
      assert w.heads[a.0] in w.trees;
      ExtendsReach(w, w', w.heads[a.0], a.1);
    }
  }

  /** Commits by one process disturb no other. */
  lemma CommittingKeeps(w: World, p: ProcId, s: Proc, head: CommitId, tree: Table, repacked: bool)
    requires Good(w) && head in w.trees
    requires var (w', c) := Committing(w, head, tree, repacked); Sane(w', s) && (Holding(s) <==> w.lock == Some(p))
    ensures Good(Set(Committing(w, head, tree, repacked).0, p, s))
  {
    hide Sane, Extends, Reaches, Stored, Committing, Holding, ChildOf;
    CommittingStores(w, head, tree, repacked);
    var w' := Committing(w, head, tree, repacked).0;
    AckedStay(w, w');
    ProcsStay(w, w');
    SameProcs(w', Set(w', p, s));
  }

  lemma ProcsStay(w: World, w': World)
    requires Good(w) && Extends(w, w') && w'.heads == w.heads
    ensures forall q | q in w.procs :: Sane(w', w.procs[q])
  {
    hide Sane, Extends, Reaches, Stored;
    forall q | q in w.procs ensures Sane(w', w.procs[q]) { SaneStays(w, w', w.procs[q]); }
  }

  lemma SameProcs(w: World, w': World)
    requires w'.graph == w.graph && w'.trees == w.trees && w'.heads == w.heads && w'.next == w.next
    ensures (Stored(w) ==> Stored(w')) && forall s :: Sane(w, s) ==> Sane(w', s)
  {
  }

  lemma MovingStores(w: World, b: Name, head: CommitId, c: CommitId)
    requires Stored(w) && b in w.heads && w.heads[b] == head && ChildOf(w, c, head)
    ensures var w' := Moving(w, b, head, c);
            && Stored(w') && Extends(w, w') && w' == w.(graph := w'.graph, heads := w.heads[b := c])
            && w'.graph.manifests == w.graph.manifests
            && Reaches(w'.graph, c, head) && Reaches(w'.graph, c, c)
            && (c != head ==> Edges(w'.graph, c) == [head])
  {
    var w' := Moving(w, b, head, c);
    ReachesSelf(w'.graph, c);
    ReachesSelf(w'.graph, head);
    if c != head { ReachesStep(w'.graph, c, head, head); }
  }

  lemma MovingAcked(w: World, b: Name, head: CommitId, c: CommitId, a: (Name, CommitId))
    requires Good(w) && b in w.heads && w.heads[b] == head && ChildOf(w, c, head) && (a in w.acked || a == (b, c))
    ensures var w' := Moving(w, b, head, c); a.0 in w'.heads && Reaches(w'.graph, w'.heads[a.0], a.1)
  {
    hide Reaches, Sane;
    MovingStores(w, b, head, c);
    var w' := Moving(w, b, head, c);
    if a in w.acked {
      assert w.heads[a.0] in w.trees;
      ExtendsReach(w, w', w.heads[a.0], a.1);
      if a.0 == b { ReachesTransitive(w'.graph, c, head, a.1); }
    }
  }

  lemma MovingAckedAll(w: World, b: Name, head: CommitId, c: CommitId, acked: set<(Name, CommitId)>)
    requires Good(w) && b in w.heads && w.heads[b] == head && ChildOf(w, c, head) && acked <= w.acked + {(b, c)}
    ensures var w' := Moving(w, b, head, c); forall a | a in acked ::
              a.0 in w'.heads && Reaches(w'.graph, w'.heads[a.0], a.1)
  {
    hide Good, Moving, Reaches, ChildOf;
    var w' := Moving(w, b, head, c);
    forall a | a in acked ensures a.0 in w'.heads && Reaches(w'.graph, w'.heads[a.0], a.1) {
      MovingAcked(w, b, head, c, a);
    }
  }

  lemma MovingProcs(w: World, p: ProcId, b: Name, head: CommitId, c: CommitId)
    requires Good(w) && w.lock == Some(p) && b in w.heads && w.heads[b] == head && ChildOf(w, c, head)
    ensures var w' := Moving(w, b, head, c);
            Stored(w') && forall q | q in w.procs && q != p :: Sane(w', w.procs[q]) && !Holding(w.procs[q])
  {
    hide Sane, Extends, Reaches, Stored, ChildOf, Edges, Moving;
    MovingStores(w, b, head, c);
    var w' := Moving(w, b, head, c);
    forall q | q in w.procs && q != p ensures Sane(w', w.procs[q]) && !Holding(w.procs[q]) {
      SaneStays(w, w', w.procs[q]);
    }
  }

  /** The one that moves a head held the lock, so nobody else relied on where it was. */
  lemma MovingKeeps(w: World, p: ProcId, b: Name, head: CommitId, c: CommitId, acked: set<(Name, CommitId)>)
    requires Good(w) && w.lock == Some(p) && b in w.heads && w.heads[b] == head && ChildOf(w, c, head)
    requires acked <= w.acked + {(b, c)}
    ensures Good(Set(Moving(w, b, head, c), p, Idle).(lock := None, acked := acked))
  {
    MovingAckedAll(w, b, head, c, acked);
    MovingProcs(w, p, b, head, c);
    var w' := Moving(w, b, head, c);
    assert w'.procs == w.procs;
    hide Moving, Sane, Reaches, Stored, ChildOf, Edges;
    IdleSane(w');
    SameProcs(w', Set(w', p, Idle).(lock := None, acked := acked));
  }

  lemma IdleSane(w: World)
    ensures Sane(w, Idle) && !Holding(Idle)
  {
  }

  /** A step that only changes one process and the lock. */
  lemma ProcKeeps(w: World, p: ProcId, s: Proc, lock: Option<ProcId>)
    requires Good(w) && Sane(w, s)
    requires lock == w.lock || (w.lock == None && lock == Some(p)) || (w.lock == Some(p) && lock == None)
    requires Holding(s) <==> lock == Some(p)
    ensures Good(Set(w, p, s).(lock := lock))
  {
    var w' := Set(w, p, s).(lock := lock);
    assert w'.graph == w.graph && Stored(w');
    forall q | q in w'.procs && q != p ensures Sane(w', w'.procs[q]) { assert Sane(w, w.procs[q]); }
  }

  lemma SaneAt(w: World, p: ProcId)
    requires Good(w)
    ensures Sane(w, At(w, p)) && (Holding(At(w, p)) <==> w.lock == Some(p))
  {
  }

  lemma ForkGood(w: World, from: Name, name: Name)
    requires Good(w) && from in w.heads && name !in w.heads
    ensures Good(w.(heads := w.heads[name := w.heads[from]]))
  {
    hide Reaches, Edges;
    var w' := w.(heads := w.heads[name := w.heads[from]]);
    forall q | q in w'.procs ensures Sane(w', w'.procs[q]) { assert Sane(w, w.procs[q]); }
  }

  lemma WriteGood(ann: Ann, w: World, a: Act)
    requires Good(w) && Enabled(ann, w, a) && a.CommitWrite?
    ensures Good(Next(ann, w, a))
  {
    hide Good, Repo.Written, Stored, Extends, Committing;
    SaneAt(w, a.p);
    var Writing(b, head) := At(w, a.p);
    var tree := Repo.Written(w.trees[head], b, a.kvs, a.extras);
    GoodStored(w);
    CommittingStores(w, head, tree, a.repacked);
    CommittingKeeps(w, a.p, Written(b, head, Committing(w, head, tree, a.repacked).1), head, tree, a.repacked);
  }

  lemma GoodStored(w: World)
    requires Good(w)
    ensures Stored(w)
  {
  }

  lemma RebuildGood(ann: Ann, w: World, a: Act)
    requires Good(w) && Enabled(ann, w, a) && a.Rebuild?
    ensures Good(Next(ann, w, a))
  {
    hide Good, Refolded, Stored, Extends, Committing;
    SaneAt(w, a.p);
    var Rebuilding(b, left, head) := At(w, a.p);
    var tree := Refolded(ann, w, head);
    GoodStored(w);
    CommittingStores(w, head, tree, a.repacked);
    CommittingKeeps(w, a.p, Rebuilt(b, left, head, Committing(w, head, tree, a.repacked).1), head, tree, a.repacked);
  }

  lemma PublishGood(ann: Ann, w: World, a: Act)
    requires Good(w) && Enabled(ann, w, a) && (a.FinishWrite? || a.FailAppend? || a.CompareAndSet?)
    ensures Good(Next(ann, w, a))
  {
    SaneAt(w, a.p);
    hide Good, Moving, ChildOf;
    if a.FinishWrite? {
      var Written(b, head, c) := At(w, a.p);
      MovingKeeps(w, a.p, b, head, c, w.acked + {(b, c)});
    } else if a.FailAppend? {
      MovingKeeps(w, a.p, At(w, a.p).b, At(w, a.p).head, At(w, a.p).commit, w.acked);
    } else {
      var Publishing(b, left, head, c) := At(w, a.p);
      if w.heads[b] == head { MovingKeeps(w, a.p, b, head, c, w.acked); }
      else { ProcKeeps(w, a.p, if left > 0 then Folding(b, left) else Idle, None); }
    }
  }

  lemma StepGood(ann: Ann, w: World, a: Act)
    requires Good(w) && Enabled(ann, w, a)
    ensures Good(Next(ann, w, a))
  {
    hide Good, Moving, Committing, Repo.Written, Refolded, ChildOf;
    HeadsIn(w);
    match a
    case Fork(from, name) => ForkGood(w, from, name);
    case BeginWrite(p, b) => ProcKeeps(w, p, Writing(b, w.heads[b]), Some(p));
    case CommitWrite(_, _, _, _) => WriteGood(ann, w, a);
    case FinishWrite(_) => PublishGood(ann, w, a);
    case FailWrite(p) =>
      SaneAt(w, p);
      ProcKeeps(w, p, Idle, None);
    case FailAppend(_) => PublishGood(ann, w, a);
    case BeginFold(p, b) =>
      SaneAt(w, p);
      ProcKeeps(w, p, Folding(b, MAX_RETRIES), w.lock);
    case ReadHead(p) =>
      SaneAt(w, p);
      ProcKeeps(w, p, Rebuilding(At(w, p).b, At(w, p).left - 1, w.heads[At(w, p).b]), w.lock);
    case Rebuild(_, _) => RebuildGood(ann, w, a);
    case FailFold(p) =>
      SaneAt(w, p);
      ProcKeeps(w, p, Idle, w.lock);
    case Lock(p) =>
      SaneAt(w, p);
      ProcKeeps(w, p, Publishing(At(w, p).b, At(w, p).left, At(w, p).head, At(w, p).commit), Some(p));
    case CompareAndSet(_) => PublishGood(ann, w, a);
  }

  /** Every move of a branch's head, by a write or a published fold, is to the head itself or to its child. */
  lemma HeadsMoveToChildren(ann: Ann, w: World, a: Act, b: Name)
    requires Good(w) && Enabled(ann, w, a) && b in w.heads
    ensures var w' := Next(ann, w, a);
            b in w'.heads && (w'.heads[b] != w.heads[b] ==> Edges(w'.graph, w'.heads[b]) == [w.heads[b]])
  {
    hide Good, Stored, Extends, Edges, Reaches, Repo.Written, Refolded;
    if a.FinishWrite? || a.FailAppend? || a.CompareAndSet? {
      SaneAt(w, a.p);
      GoodStored(w);
      var (b', head) := (At(w, a.p).b, At(w, a.p).head);
      if w.heads[b'] == head { MovingStores(w, b', head, At(w, a.p).commit); }
    }
  }

  // ---------- runs ----------

  const START: World := World(None, map[], map[MAIN := 0], CommitDag.Graph.Graph(map[], map[0 := None]),
                              map[0 := map[]], 1, {})

  ghost predicate CanRun(ann: Ann, w: World, acts: seq<Act>)
    requires Good(w)
    decreases |acts|
  {
    acts == [] || (Enabled(ann, w, acts[0])
                   && (StepGood(ann, w, acts[0]); CanRun(ann, Next(ann, w, acts[0]), acts[1..])))
  }

  ghost function Run(ann: Ann, w: World, acts: seq<Act>): (w': World)
    requires Good(w) && CanRun(ann, w, acts)
    ensures Good(w')
    decreases |acts|
  {
    if acts == [] then w
    else
      StepGood(ann, w, acts[0]);
      Run(ann, Next(ann, w, acts[0]), acts[1..])
  }

  lemma StartGood()
    ensures Good(START)
  {
  }

  ghost predicate Possible(ann: Ann, acts: seq<Act>) {
    StartGood();
    CanRun(ann, START, acts)
  }

  /** The world a run from a new database ends in. */
  ghost function After(ann: Ann, acts: seq<Act>): (w: World)
    requires Possible(ann, acts)
  {
    StartGood();
    Run(ann, START, acts)
  }

  /** Whatever writes and folds are interleaved, every acknowledged write stays in its branch's history. */
  lemma AckedNeverLost(ann: Ann, acts: seq<Act>, b: Name, c: CommitId)
    requires Possible(ann, acts) && (b, c) in After(ann, acts).acked
    ensures var w := After(ann, acts); b in w.heads && Reaches(w.graph, w.heads[b], c)
  {
    StartGood();
    assert Good(Run(ann, START, acts));
  }

  /** Steps that end a turn with the lock. */
  predicate Ends(a: Act) { a.FailWrite? || a.FinishWrite? || a.FailAppend? || a.CompareAndSet? }

  lemma EndsReleases(ann: Ann, w: World, a: Act)
    requires Good(w) && Enabled(ann, w, a) && Ends(a)
    ensures w.lock == Some(a.p) && Next(ann, w, a).lock.None?
  {
    SaneAt(w, a.p);
    hide Good, Moving;
  }

  lemma HolderEnds(ann: Ann, w: World)
    requires Good(w) && w.lock.Some?
    ensures Enabled(ann, w, FailWrite(w.lock.value)) || Enabled(ann, w, CompareAndSet(w.lock.value))
  {
    assert Holding(At(w, w.lock.value));
    hide Good;
  }

  /** At any time in any run the lock is free, or held by a process that can end its turn, which gives it back: no write
      that failed, and no fold that lost, leaves it behind. */
  lemma LockNeverLost(ann: Ann, acts: seq<Act>, a: Act)
    requires Possible(ann, acts)
    ensures var w := After(ann, acts);
            && Good(w)
            && (w.lock.Some? ==>
                  Enabled(ann, w, FailWrite(w.lock.value)) || Enabled(ann, w, CompareAndSet(w.lock.value)))
            && (Ends(a) && Enabled(ann, w, a) ==> w.lock == Some(a.p) && Next(ann, w, a).lock.None?)
  {
    StartGood();
    var w := After(ann, acts);
    assert Good(Run(ann, START, acts));
    hide Run, After, Good, Next, Enabled, Ends;
    if w.lock.Some? { HolderEnds(ann, w); }
    if Ends(a) && Enabled(ann, w, a) { EndsReleases(ann, w, a); }
  }

  // ---------- freshness over runs ----------

  /** Every stored tree is a fresh index of vectors of this dimension. */
  ghost predicate AllFresh(ann: Ann, dim: nat, w: World) {
    forall c | c in w.trees :: FreshTable(ann.codec, ann.space, dim, w.trees[c])
  }

  predicate HintsAlike(ann: Ann, dim: nat, a: Act) {
    a.CommitWrite? ==> AllAlike(ann.space, dim, WriteExtras.HintsOf(a.kvs, a.extras.hints))
  }

  lemma CommitFresh(ann: Ann, dim: nat, w: World, head: CommitId, tree: Table, repacked: bool)
    requires Stored(w) && head in w.trees && AllFresh(ann, dim, w) && FreshTable(ann.codec, ann.space, dim, tree)
    ensures AllFresh(ann, dim, Committing(w, head, tree, repacked).0)
  {
    hide FreshTable, Stored, Committing, ChildOf;
    CommittingStores(w, head, tree, repacked);
  }

  lemma StepFresh(ann: Ann, dim: nat, w: World, a: Act)
    requires Decodes(ann.codec) && Good(w) && Enabled(ann, w, a) && AllFresh(ann, dim, w) && HintsAlike(ann, dim, a)
    ensures AllFresh(ann, dim, Next(ann, w, a))
  {
    hide Good, Stored, FreshTable, Repo.Written, FoldedTable, Committing, Decodes, AllAlike, BesideIndex;
    GoodStored(w);
    if a.CommitWrite? {
      SaneAt(w, a.p);
      var (b, head) := (At(w, a.p).b, At(w, a.p).head);
      WriteFresh(ann.space, dim, w.trees[head], b, a.kvs, a.extras);
      CommitFresh(ann, dim, w, head, Repo.Written(w.trees[head], b, a.kvs, a.extras), a.repacked);
    } else if a.Rebuild? {
      SaneAt(w, a.p);
      var head := At(w, a.p).head;
      FoldFresh(ann.codec, ann.space, dim, w.trees[head]);
      CommitFresh(ann, dim, w, head, Refolded(ann, w, head), a.repacked);
    }
  }

  lemma {:induction false} RunFresh(ann: Ann, dim: nat, w: World, acts: seq<Act>)
    requires Decodes(ann.codec) && Good(w) && CanRun(ann, w, acts) && AllFresh(ann, dim, w)
    requires forall i | 0 <= i < |acts| :: HintsAlike(ann, dim, acts[i])
    ensures AllFresh(ann, dim, Run(ann, w, acts))
    decreases |acts|
  {
    if acts != [] {
      StepGood(ann, w, acts[0]);
      StepFresh(ann, dim, w, acts[0]);
      RunFresh(ann, dim, Next(ann, w, acts[0]), acts[1..]);
    }
  }

  /** Under any interleaving of indexed writes and folds over vectors of one dimension with a direction, at every head
      each indexed record is searched at its current vector: no vector is ever in neither place. */
  lemma HeadsAlwaysFresh(ann: Ann, dim: nat, acts: seq<Act>, b: Name)
    requires Decodes(ann.codec)
    requires Possible(ann, acts) && forall i | 0 <= i < |acts| :: HintsAlike(ann, dim, acts[i])
    requires b in After(ann, acts).heads
    ensures var w := After(ann, acts);
            w.heads[b] in w.trees && FreshTable(ann.codec, ann.space, dim, w.trees[w.heads[b]])
  {
    StartGood();
    EmptyFresh(ann.codec, ann.space, dim);
    RunFresh(ann, dim, START, acts);
  }

  /** So a search at any head of any such run reads what it needs, and answers indexed records only, each at the
      distance of its current vector. */
  lemma HeadsSearchCurrent(ann: Ann, dim: nat, acts: seq<Act>, b: Name, query: HnswGraph.Vec, k: nat)
    requires Decodes(ann.codec) && FreshSearch.Compares(ann.space)
    requires Possible(ann, acts) && forall i | 0 <= i < |acts| :: HintsAlike(ann, dim, acts[i])
    requires b in After(ann, acts).heads
    ensures var w := After(ann, acts);
            && w.heads[b] in w.trees
            && var m := w.trees[w.heads[b]];
            && SearchTree.SearchTable(ann.codec, ann.space, m, query, k).Some?
            && var i := AnnSearch.IndexOf(ann.codec, m, {});
            && forall x | x in SearchTree.SearchTable(ann.codec, ann.space, m, query, k).value ::
              x.id in i.entries && (i.entries[x.id].Some? ==> x.dist == ann.space.Far(i.entries[x.id].value, query))
  {
    hide FreshTable, FreshSearch.Compares, Decodes, SearchTree.SearchTable, AnnSearch.IndexOf;
    HeadsAlwaysFresh(ann, dim, acts, b);
    var w := After(ann, acts);
    FreshSearch.SearchIsCurrent(ann.codec, ann.space, dim, w.trees[w.heads[b]], query, k);
  }

  lemma RunThen(ann: Ann, w: World, a: Act, acts: seq<Act>)
    requires Good(w) && Enabled(ann, w, a) && Good(Next(ann, w, a)) && CanRun(ann, Next(ann, w, a), acts)
    ensures CanRun(ann, w, [a] + acts) && Run(ann, w, [a] + acts) == Run(ann, Next(ann, w, a), acts)
  {
    hide Next, Enabled, Good;
    assert ([a] + acts)[1..] == acts;
  }

  lemma ReadStep(ann: Ann, w: World, p: ProcId)
    requires Good(w) && At(w, p).Folding? && At(w, p).left > 0
    ensures var b := At(w, p).b;
            && b in w.heads && w.heads[b] in w.trees && Good(Next(ann, w, ReadHead(p)))
            && Next(ann, w, ReadHead(p)) == Set(w, p, Rebuilding(b, At(w, p).left - 1, w.heads[b]))
  {
    hide Good, Edges, Reaches;
    SaneAt(w, p);
    HeadsIn(w);
    StepGood(ann, w, ReadHead(p));
  }

  lemma HeadsIn(w: World)
    requires Good(w)
    ensures forall b | b in w.heads :: w.heads[b] in w.trees
  {
  }

  lemma RebuildStep(ann: Ann, w: World, p: ProcId, repacked: bool)
    requires Good(w) && At(w, p).Rebuilding? && Decodable(ann, w, At(w, p).head)
    ensures var Rebuilding(b, left, head) := At(w, p);
            var w' := Next(ann, w, Rebuild(p, repacked));
            && Good(w') && At(w', p).Rebuilt? && w'.lock == w.lock && w'.heads == w.heads
            && At(w', p).b == b && At(w', p).head == head && head in w.trees
            && At(w', p).commit in w'.trees && w'.trees[At(w', p).commit] == Refolded(ann, w, head)
  {
    hide Good, Refolded, Edges, Reaches, Stored, Extends;
    SaneAt(w, p);
    GoodStored(w);
    CommittingStores(w, At(w, p).head, Refolded(ann, w, At(w, p).head), repacked);
    StepGood(ann, w, Rebuild(p, repacked));
  }

  lemma LockStep(ann: Ann, w: World, p: ProcId)
    requires Good(w) && At(w, p).Rebuilt? && w.lock.None?
    ensures var Rebuilt(b, left, head, c) := At(w, p);
            && Next(ann, w, Lock(p)) == Set(w, p, Publishing(b, left, head, c)).(lock := Some(p))
            && Good(Next(ann, w, Lock(p)))
  {
    hide Good;
    StepGood(ann, w, Lock(p));
  }

  lemma SwapStep(ann: Ann, w: World, p: ProcId)
    requires Good(w) && At(w, p).Publishing? && At(w, p).b in w.heads && w.heads[At(w, p).b] == At(w, p).head
    ensures var w' := Next(ann, w, CompareAndSet(p));
            && Good(w') && At(w', p).Idle? && w'.trees == w.trees && w'.heads == w.heads[At(w, p).b := At(w, p).commit]
  {
    hide Good, Edges, Reaches, Stored, Extends;
    SaneAt(w, p);
    StepGood(ann, w, CompareAndSet(p));
  }

  /** An undisturbed attempt: read, rebuild, lock, swap. */
  lemma AttemptWins(ann: Ann, w: World, p: ProcId, repacked: bool)
    requires Good(w) && At(w, p).Folding? && At(w, p).left > 0 && w.lock.None?
    requires At(w, p).b in w.heads && Decodable(ann, w, w.heads[At(w, p).b])
    ensures var b := At(w, p).b;
            var w1 := Next(ann, w, ReadHead(p));
            && Enabled(ann, w, ReadHead(p)) && w.heads[b] in w.trees && Good(w1)
            && Enabled(ann, w1, Rebuild(p, repacked))
            && var w2 := Next(ann, w1, Rebuild(p, repacked));
            && Good(w2) && Enabled(ann, w2, Lock(p))
            && var w3 := Next(ann, w2, Lock(p));
            && Good(w3) && Enabled(ann, w3, CompareAndSet(p))
            && var w4 := Next(ann, w3, CompareAndSet(p));
            && Good(w4) && At(w4, p).Idle? && b in w4.heads && w4.heads[b] in w4.trees
            && w4.trees[w4.heads[b]] == Refolded(ann, w, w.heads[b])
  {
    hide FoldedTable, Good, Next, PairsIn, Listing;
    ReadStep(ann, w, p);
    var w1 := Next(ann, w, ReadHead(p));
    RebuildStep(ann, w1, p, repacked);
    var w2 := Next(ann, w1, Rebuild(p, repacked));
    LockStep(ann, w2, p);
    SwapStep(ann, Next(ann, w2, Lock(p)), p);
  }

  /** A fold nobody races, of entries that decode, publishes at its first attempt: the head it leaves is its rebuilt
      tree. */
  lemma FoldAloneWins(ann: Ann, w: World, p: ProcId, repacked: bool)
    requires Good(w) && At(w, p).Folding? && At(w, p).left > 0 && w.lock.None?
    requires At(w, p).b in w.heads && Decodable(ann, w, w.heads[At(w, p).b])
    ensures var acts := [ReadHead(p)] + ([Rebuild(p, repacked)] + ([Lock(p)] + ([CompareAndSet(p)] + [])));
            && CanRun(ann, w, acts)
            && var (w', b) := (Run(ann, w, acts), At(w, p).b);
            && At(w', p).Idle? && b in w.heads && b in w'.heads && w.heads[b] in w.trees && w'.heads[b] in w'.trees
            && w'.trees[w'.heads[b]] == Refolded(ann, w, w.heads[b])
  {
    hide Next, Good, Refolded, Decodable, Enabled;
    AttemptWins(ann, w, p, repacked);
    var w1 := Next(ann, w, ReadHead(p));
    var w2 := Next(ann, w1, Rebuild(p, repacked));
    var w3 := Next(ann, w2, Lock(p));
    RunThen(ann, w3, CompareAndSet(p), []);
    RunThen(ann, w2, Lock(p), [CompareAndSet(p)] + []);
    RunThen(ann, w1, Rebuild(p, repacked), [Lock(p)] + ([CompareAndSet(p)] + []));
    RunThen(ann, w, ReadHead(p), [Rebuild(p, repacked)] + ([Lock(p)] + ([CompareAndSet(p)] + [])));
  }
}
