/** The commit graph: ancestry, and the merge bases of two heads. */
module CommitDag {
  import opened Records
  import opened Refs

  /** The recorded parents, and the single parent each stored manifest names. */
  datatype Graph = Graph(recorded: map<CommitId, seq<CommitId>>, manifests: map<CommitId, Option<CommitId>>)

  /** Recorded parents win; an unrecorded commit falls back to its manifest's one parent. */
  function Edges(g: Graph, c: CommitId): seq<CommitId> {
    if c in g.recorded then g.recorded[c]
    else if c in g.manifests && g.manifests[c].Some? then [g.manifests[c].value]
    else []
  }

  ghost predicate ReachIn(g: Graph, a: CommitId, b: CommitId, n: nat)
    decreases n
  {
    if n == 0 then a == b else exists m :: m in Edges(g, a) && ReachIn(g, m, b, n - 1)
  }

  /** b is a, or an ancestor of a. */
  ghost predicate Reaches(g: Graph, a: CommitId, b: CommitId) { exists n: nat :: ReachIn(g, a, b, n) }

  lemma ReachesSelf(g: Graph, a: CommitId)
    ensures Reaches(g, a, a)
  {
    assert ReachIn(g, a, a, 0);
  }

  lemma ReachesStep(g: Graph, a: CommitId, m: CommitId, b: CommitId)
    requires m in Edges(g, a) && Reaches(g, m, b)
    ensures Reaches(g, a, b)
  {
    var n: nat :| ReachIn(g, m, b, n);
    assert ReachIn(g, a, b, n + 1);
  }

  lemma {:induction false} ReachInTransitive(g: Graph, a: CommitId, b: CommitId, c: CommitId, n: nat)
    requires ReachIn(g, a, b, n) && Reaches(g, b, c)
    ensures Reaches(g, a, c)
    decreases n
  {
    if n > 0 {
      var m :| m in Edges(g, a) && ReachIn(g, m, b, n - 1);
      ReachInTransitive(g, m, b, c, n - 1);
      ReachesStep(g, a, m, c);
    }
  }

  lemma ReachesTransitive(g: Graph, a: CommitId, b: CommitId, c: CommitId)
    requires Reaches(g, a, b) && Reaches(g, b, c)
    ensures Reaches(g, a, c)
  {
    var n: nat :| ReachIn(g, a, b, n);
    ReachInTransitive(g, a, b, c, n);
  }

  /** A commit reaches itself, and otherwise whatever its parents reach. */
  lemma ReachesFirst(g: Graph, a: CommitId, b: CommitId)
    ensures Reaches(g, a, b) <==> a == b || exists m :: m in Edges(g, a) && Reaches(g, m, b)
  {
    if Reaches(g, a, b) && a != b {
      var n: nat :| ReachIn(g, a, b, n);
      var m :| m in Edges(g, a) && ReachIn(g, m, b, n - 1);
      assert Reaches(g, m, b);
    }
    if a == b { ReachesSelf(g, a); }
    if exists m :: m in Edges(g, a) && Reaches(g, m, b) {
      var m :| m in Edges(g, a) && Reaches(g, m, b);
      ReachesStep(g, a, m, b);
    }
  }

  ghost predicate Closed(g: Graph, s: set<CommitId>) { forall c, p | c in s && p in Edges(g, c) :: p in s }

  lemma {:induction false} ClosedHolds(g: Graph, s: set<CommitId>, a: CommitId, b: CommitId, n: nat)
    requires Closed(g, s) && a in s && ReachIn(g, a, b, n)
    ensures b in s
    decreases n
  {
    if n > 0 {
      var m :| m in Edges(g, a) && ReachIn(g, m, b, n - 1);
      ClosedHolds(g, s, m, b, n - 1);
    }
  }

  // ---------- the walk ----------

  /** Every commit the graph mentions. */
  ghost function Mentioned(g: Graph): set<CommitId> {
    (set c, p | c in g.recorded && p in g.recorded[c] :: p)
    + (set c | c in g.manifests && g.manifests[c].Some? :: g.manifests[c].value)
  }

  lemma EdgeReached(g: Graph, head: CommitId, commit: CommitId, p: CommitId)
    requires Reaches(g, head, commit) && p in Edges(g, commit)
    ensures Reaches(g, head, p) && p in Mentioned(g)
  {
    ReachesSelf(g, p);
    ReachesStep(g, commit, p, p);
    ReachesTransitive(g, head, commit, p);
  }

  lemma ClosedReaches(g: Graph, s: set<CommitId>, a: CommitId, b: CommitId)
    requires Closed(g, s) && a in s && Reaches(g, a, b)
    ensures b in s
  {
    var n: nat :| ReachIn(g, a, b, n);
    ClosedHolds(g, s, a, b, n);
  }

  /** Every commit in a commit's history. */
  method FullAncestors(g: Graph, head: CommitId) returns (seen: set<CommitId>)
    ensures forall c :: c in seen <==> Reaches(g, head, c)
  {
    hide Reaches, Edges, Mentioned;
    seen := {};
    var stack := [head];
    ghost var all := Mentioned(g) + {head};
    ReachesSelf(g, head);
    while stack != []
      invariant head in seen || head in stack
      invariant forall c | c in seen || c in stack :: Reaches(g, head, c) && c in all
      invariant forall c, p | c in seen && p in Edges(g, c) :: p in seen || p in stack
      decreases all - seen, |stack|
    {
      var commit := stack[|stack| - 1];
      ghost var before := stack;
      stack := stack[..|stack| - 1];
      assert before == stack + [commit];
      if commit !in seen {
        forall p | p in Edges(g, commit) ensures Reaches(g, head, p) && p in all { EdgeReached(g, head, commit, p); }
        seen := seen + {commit};
        stack := stack + Edges(g, commit);
      }
    }
    assert Closed(g, seen);
    forall c | Reaches(g, head, c) ensures c in seen { ClosedReaches(g, seen, head, c); }
  }

  // ---------- merge bases ----------

  ghost predicate Common(g: Graph, a: CommitId, b: CommitId, c: CommitId) { Reaches(g, a, c) && Reaches(g, b, c) }

  /** A common ancestor no other common ancestor descends from. */
  ghost predicate IsBase(g: Graph, a: CommitId, b: CommitId, c: CommitId) {
    Common(g, a, b, c) && forall o | Common(g, a, b, o) && o != c :: !Reaches(g, o, c)
  }

  method IsLowest(g: Graph, common: set<CommitId>, candidate: CommitId) returns (lowest: bool)
    requires candidate in common
    ensures lowest <==> forall o | o in common && o != candidate :: !Reaches(g, o, candidate)
  {
    var rest := common;
    while rest != {}
      invariant rest <= common
      invariant forall o | o in common - rest && o != candidate :: !Reaches(g, o, candidate)
      decreases rest
    {
      var other :| other in rest;
      rest := rest - {other};
      if other != candidate {
        var below := FullAncestors(g, other);
        if candidate in below { return false; }
      }
    }
    lowest := true;
  }

  /** Exactly the lowest common ancestors, however many there are. */
  method MergeBases(g: Graph, source: CommitId, target: CommitId) returns (bases: set<CommitId>)
    ensures forall c :: c in bases <==> IsBase(g, source, target, c)
  {
    var a := FullAncestors(g, source);
    var b := FullAncestors(g, target);
    var common := a * b;
    bases := {};
    var rest := common;
    while rest != {}
      invariant rest <= common
      invariant forall c :: c in bases <==> c in common - rest && IsBase(g, source, target, c)
      decreases rest
    {
      var candidate :| candidate in rest;
      var low := IsLowest(g, common, candidate);
      assert low <==> IsBase(g, source, target, candidate);
      if low { bases := bases + {candidate}; }
      rest := rest - {candidate};
    }
  }

  /** The set of them. */
  ghost function Bases(g: Graph, a: CommitId, b: CommitId): set<CommitId> {
    set c | c in Mentioned(g) + {a} && IsBase(g, a, b, c)
  }

  lemma BasesAre(g: Graph, a: CommitId, b: CommitId)
    ensures forall c :: c in Bases(g, a, b) <==> IsBase(g, a, b, c)
  {
    forall c | IsBase(g, a, b, c) ensures c in Mentioned(g) + {a} { ReachesMentioned(g, a, c); }
  }

  /** No commit is its own ancestor. */
  ghost predicate Acyclic(g: Graph) { forall c, p | p in Edges(g, c) :: !Reaches(g, p, c) }

  lemma AcyclicAntisymmetric(g: Graph, a: CommitId, b: CommitId)
    requires Acyclic(g) && Reaches(g, a, b) && Reaches(g, b, a)
    ensures a == b
  {
    if a != b {
      ReachesFirst(g, a, b);
      var m :| m in Edges(g, a) && Reaches(g, m, b);
      ReachesTransitive(g, m, b, a);
    }
  }

  /** No two merge bases are related. */
  lemma BasesUnrelated(g: Graph, a: CommitId, b: CommitId, c: CommitId, d: CommitId)
    requires IsBase(g, a, b, c) && IsBase(g, a, b, d) && c != d
    ensures !Reaches(g, c, d) && !Reaches(g, d, c)
  {
  }

  lemma {:induction false} LowestOf(g: Graph, s: set<CommitId>, top: CommitId) returns (low: CommitId)
    requires Acyclic(g) && top in s
    ensures low in s && Reaches(g, low, top) && forall o | o in s && o != low :: !Reaches(g, o, low)
    decreases s
  {
    ReachesSelf(g, top);
    if o :| o in s && o != top && Reaches(g, o, top) {
      low := LowestOf(g, s - {top}, o);
      ReachesTransitive(g, low, o, top);
      if Reaches(g, top, low) { AcyclicAntisymmetric(g, top, low); }
    } else {
      low := top;
    }
  }

  /** On an acyclic graph every common ancestor has a merge base at or below it; so there is a base whenever
      there is any shared history. */
  lemma BaseBelow(g: Graph, a: CommitId, b: CommitId, c: CommitId) returns (base: CommitId)
    requires Acyclic(g) && Common(g, a, b, c)
    ensures IsBase(g, a, b, base) && Reaches(g, base, c)
  {
    var s := set x | x in Mentioned(g) + {a} && Common(g, a, b, x);
    forall x | Common(g, a, b, x) ensures x in s { ReachesMentioned(g, a, x); }
    base := LowestOf(g, s, c);
  }

  lemma ReachesMentioned(g: Graph, a: CommitId, b: CommitId)
    requires Reaches(g, a, b)
    ensures b in Mentioned(g) + {a}
  {
    var s := Mentioned(g) + {a};
    var n: nat :| ReachIn(g, a, b, n);
    forall c, p | c in s && p in Edges(g, c) ensures p in s {
      if c !in g.recorded { assert g.manifests[c].value == p; }
    }
    ClosedHolds(g, s, a, b, n);
  }
}
