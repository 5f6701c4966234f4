/** A repository as a value: refs, and what every commit's tree holds; and what each operation makes of it. */
module Repo {
  import opened Bytes
  import opened Records
  import opened Keyspace
  import opened KeyOrder
  import opened MergeRules
  import opened Merge
  import opened Refs
  import opened CommitDag
  import WriteExtras
  import AnnFold
  import ClaimStore

  type Tree = map<Key, Record>

  /** `next` bounds every commit id ever handed out. */
  datatype Repo = Repo(refs: Refs, parents: map<CommitId, Option<CommitId>>, trees: map<CommitId, Tree>, next: CommitId)

  function GraphOf(r: Repo): Graph { Graph.Graph(r.refs.commits, r.parents) }

  function HeadTree(r: Repo, b: Name): Tree
    requires b in r.refs.branches && r.refs.branches[b] in r.trees
  {
    r.trees[r.refs.branches[b]]
  }

  // ---------- committing ----------

  function Without(ps: seq<CommitId>, c: CommitId): seq<CommitId> {
    if ps == [] then [] else (if ps[0] == c then [] else [ps[0]]) + Without(ps[1..], c)
  }

  /** Only the first recording of a commit takes, and a commit is never its own parent. */
  function Recorded(refs: Refs, c: CommitId, ps: seq<CommitId>): Refs {
    var q := Without(ps, c);
    if q == [] || c in refs.commits then refs else refs.(commits := refs.commits[c := q])
  }

  /** Committing identical content returns the base; anything else gets a fresh id. `repacked` says the pages
      changed although the records did not. */
  function Committed(r: Repo, head: CommitId, tree: Tree, repacked: bool): (Repo, CommitId)
    requires head in r.trees
  {
    if tree == r.trees[head] && !repacked then (r, head)
    else (r.(parents := r.parents[r.next := Some(head)], trees := r.trees[r.next := tree], next := r.next + 1), r.next)
  }

  /** Commit a tree on a branch's head, record the edge, and move the head. */
  function Advance(r: Repo, b: Name, tree: Tree, repacked: bool): Repo
    requires b in r.refs.branches && r.refs.branches[b] in r.trees
  {
    var head := r.refs.branches[b];
    var (r', c) := Committed(r, head, tree, repacked);
    var refs := Recorded(r'.refs, c, [head]);
    r'.(refs := refs.(branches := refs.branches[b := c]))
  }

  /** The merge edge. */
  function WithSecondParent(r: Repo, c: CommitId, before: CommitId, second: CommitId): Repo {
    var refs := Recorded(r.refs, c, [before, second]);
    r.(refs := if c in refs.commits then refs.(commits := refs.commits[c := Joined(refs.commits[c], second)]) else refs)
  }

  // ---------- what a write puts in the tree ----------

  function PutAll(m: Tree, kvs: seq<(Key, Record)>): Tree {
    if kvs == [] then m
    else
      var (init, kv) := (kvs[..|kvs| - 1], kvs[|kvs| - 1]);
      PutAll(m, init)[kv.0 := kv.1]
  }

  /** The derivation node of one written record. */
  datatype NodeBody = NodeBody(blob: Key, id: Key, sources: seq<Key>)

  type Describe = (Key, Record) -> NodeBody

  function AsI64(n: nat): I64 {
    var m := n % 0x1_0000_0000_0000_0000;
    if m > I64_MAX then m - 0x1_0000_0000_0000_0000 else m
  }

  function AsU64(n: I64): nat { if n < 0 then n + 0x1_0000_0000_0000_0000 else n }

  function NextSeq(m: Tree, b: Name): nat {
    match Look(m, ProvSeqKey(b))
    case Some(OfValue(Counter(n))) => AsU64(n)
    case _ => 0
  }

  function PutSources(m: Tree, b: Name, n: nat, sources: seq<Key>, id: Key): Tree {
    if sources == [] then m
    else PutSources(m, b, n, sources[..|sources| - 1], id)[SourceKey(sources[|sources| - 1], b, n) := OfValue(Blob(id))]
  }

  function PutNode(m: Tree, b: Name, n: nat, k: Key, body: NodeBody): Tree {
    PutSources(m[NodeKey(b, n) := OfValue(Blob(body.blob))][LatestNodeKey(k) := OfValue(Blob(body.id))],
               b, n, body.sources, body.id)
  }

  /** One node per written record outside the provenance space, appended from sequence n. */
  function PutNodes(m: Tree, b: Name, n: nat, kvs: seq<(Key, Record)>, describe: Describe): Tree {
    if kvs == [] then m
    else
      var (init, kv) := (kvs[..|kvs| - 1], kvs[|kvs| - 1]);
      var m' := PutNodes(m, b, n, init, describe);
      if IsProvenance(kv.0) then m' else PutNode(m', b, n + NodeCount(init), kv.0, describe(kv.0, kv.1))
  }

  function NodeCount(kvs: seq<(Key, Record)>): nat {
    if kvs == [] then 0 else NodeCount(kvs[..|kvs| - 1]) + if IsProvenance(kvs[|kvs| - 1].0) then 0 else 1
  }

  predicate AnyCaller(kvs: seq<(Key, Record)>) { exists i :: 0 <= i < |kvs| && IsCaller(kvs[i].0) }

  /** The records, and, when a caller's key is among them, their provenance. */
  function Traced(m: Tree, b: Name, kvs: seq<(Key, Record)>, describe: Describe): Tree {
    var m' := PutAll(m, kvs);
    if AnyCaller(kvs) then
      var n := NextSeq(m', b);
      PutNodes(m', b, n, kvs, describe)[ProvSeqKey(b) := OfValue(Counter(AsI64(n + NodeCount(kvs))))]
    else m'
  }

  /** What goes with a batch: its nodes, what to index of it, and how entries and claim versions are stored. */
  datatype Extras = Extras(describe: Describe, hints: WriteExtras.HintMap, entries: AnnFold.Codec,
                           versions: ClaimStore.Codec)

  /** The tree a write commits: records and provenance, then the index entries and buffered vectors of those that are
      hinted, then a version of each claim. */
  ghost function Written(m: Tree, b: Name, kvs: seq<(Key, Record)>, x: Extras): Tree {
    var hinted := WriteExtras.PutHints(x.entries, Traced(m, b, kvs, x.describe), WriteExtras.HintsOf(kvs, x.hints));
    WriteExtras.PutClaims(x.versions, hinted, kvs)
  }

  // ---------- operations ----------

  type IdBytes = CommitId -> Key

  ghost predicate Injective(f: IdBytes) { forall a, b :: f(a) == f(b) ==> a == b }

  type Forbids = (Key, Record) -> bool

  datatype Event =
    | BranchFrom(from: Name, name: Name)
    | Write(b: Name, kvs: seq<(Key, Record)>, extras: Extras, repacked: bool)
    | MergeInto(source: Name, target: Name, policy: Policy, forbids: Forbids, extras: Extras, repacked: bool)
    | Rewind(b: Name, to: CommitId)
    | Reindex(b: Name, tree: Tree, repacked: bool, published: bool)

  ghost predicate UniqueBase(g: Graph, s: CommitId, t: CommitId, c: CommitId) {
    IsBase(g, s, t, c) && forall d | IsBase(g, s, t, d) :: d == c
  }

  /** The base of a three-way merge: the only merge base; the source itself where nothing is shared; none when
      the history is ambiguous. */
  ghost function BaseOf(g: Graph, s: CommitId, t: CommitId): Option<CommitId> {
    if c :| UniqueBase(g, s, t, c) then Some(c)
    else if forall c :: !IsBase(g, s, t, c) then Some(s)
    else None
  }

  ghost function PlanOf(b: Tree, s: Tree, t: Tree, policy: Policy): Plan {
    PlanOver(InOrder(SideKeys(b, s, t)), b, s, t, policy)
  }

  predicate Refused(kvs: seq<(Key, Record)>, forbids: Forbids) {
    exists i :: 0 <= i < |kvs| && IsCaller(kvs[i].0) && forbids(kvs[i].0, kvs[i].1)
  }

  /** The writes a merge makes on the target, or None when it changes nothing. */
  ghost function MergeWrites(r: Repo, ids: IdBytes, e: Event): Option<seq<(Key, Record)>>
    requires e.MergeInto? && Sound(r) && e.source in r.refs.branches && e.target in r.refs.branches
  {
    var (s, t) := (r.refs.branches[e.source], r.refs.branches[e.target]);
    var base := BaseOf(GraphOf(r), s, t);
    if base.None? || base.value !in r.trees then None
    else
      var plan := PlanOf(r.trees[base.value], r.trees[s], r.trees[t], e.policy);
      if plan.conflicts != [] || Refused(plan.writes, e.forbids) then None
      else Some(plan.writes + [(MergedFromKey(e.source), OfValue(Blob(ids(s))))])
  }

  /** The tree a merge commits on the target. Its batch comes without hints. */
  ghost function MergeTree(r: Repo, ids: IdBytes, e: Event): Tree
    requires e.MergeInto? && Sound(r) && e.source in r.refs.branches && e.target in r.refs.branches
    requires MergeWrites(r, ids, e).Some?
  {
    Written(HeadTree(r, e.target), e.target, MergeWrites(r, ids, e).value, e.extras.(hints := map[]))
  }

  /** A merge with nothing to bring over: its one write is the merged-from record, which the target already holds. */
  ghost predicate NothingNew(r: Repo, ids: IdBytes, e: Event)
    requires e.MergeInto? && Sound(r) && e.source in r.refs.branches && e.target in r.refs.branches
  {
    var kv := (MergedFromKey(e.source), OfValue(Blob(ids(r.refs.branches[e.source]))));
    MergeWrites(r, ids, e) == Some([kv]) && Look(HeadTree(r, e.target), kv.0) == Some(kv.1)
  }

  /** Every id in use is a stored commit below `next`. */
  ghost predicate Sound(r: Repo) {
    && r.parents.Keys == r.trees.Keys
    && (forall c | c in r.trees :: c < r.next)
    && (forall b | b in r.refs.branches :: r.refs.branches[b] in r.trees)
    && (forall c | c in r.refs.commits :: c in r.trees)
    && (forall c, p | c in r.trees && p in Edges(GraphOf(r), c) :: p in r.trees)
  }

  /** What an operation's caller may ask for: existing branches, and no keys of the engine's own. */
  ghost predicate Allowed(r: Repo, e: Event) {
    match e
    case BranchFrom(from, _) => from in r.refs.branches
    case Write(b, kvs, _, _) => b in r.refs.branches && forall i | 0 <= i < |kvs| :: IsCaller(kvs[i].0)
    case MergeInto(s, t, _, _, _, _) => s in r.refs.branches && t in r.refs.branches
    case Rewind(b, to) => b in r.refs.branches && to in r.trees
    case Reindex(b, tree, _, _) =>
      b in r.refs.branches && r.refs.branches[b] in r.trees && SameOutsideIndex(HeadTree(r, b), tree)
  }

  /** A rebuilt index changes only its own keys. */
  ghost predicate SameOutsideIndex(m: Tree, m': Tree) {
    forall k | RegionOf(k) !in {Region.Graph, Region.Buffer} :: Look(m, k) == Look(m', k)
  }

  ghost function Step(r: Repo, ids: IdBytes, e: Event): Repo
    requires Sound(r) && Allowed(r, e)
  {
    match e
    case BranchFrom(from, name) =>
      if name in r.refs.branches then r
      else r.(refs := r.refs.(branches := r.refs.branches[name := r.refs.branches[from]]))
    case Write(b, kvs, extras, repacked) => Advance(r, b, Written(HeadTree(r, b), b, kvs, extras), repacked)
    case MergeInto(s, t, _, _, _, repacked) =>
      if MergeWrites(r, ids, e).None? then r
      else
        var before := r.refs.branches[t];
        var second := r.refs.branches[s];
        var r' := Advance(r, t, MergeTree(r, ids, e), repacked);
        WithSecondParent(r', r'.refs.branches[t], before, second)
    case Rewind(b, to) => r.(refs := r.refs.(branches := r.refs.branches[b := to]))
    case Reindex(b, tree, repacked, published) =>
      if published then Advance(r, b, tree, repacked) else Committed(r, r.refs.branches[b], tree, repacked).0
  }
}
