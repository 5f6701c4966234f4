/** What a merge leaves on its target: the commit, and under every caller's key what is right to leave there. */
module RepoMerges {
  import opened Bytes
  import opened Records
  import opened Keyspace
  import opened KeyOrder
  import opened MergeRules
  import opened MergeMeaning
  import opened Merge
  import opened Refs
  import opened CommitDag
  import opened Repo
  import opened RepoGraph
  import opened RepoOrder

  // ---------- what a merge leaves at one key ----------

  lemma LastNew(keys: seq<Key>, k: Key)
    requires Ascending(keys) && keys != []
    ensures var init, last := keys[..|keys| - 1], keys[|keys| - 1];
            Ascending(init) && last !in init && (k in keys <==> k in init || k == last)
  {
    var init, last := keys[..|keys| - 1], keys[|keys| - 1];
    LessOrder();
    assert keys == init + [last];
  }

  lemma {:induction false} PlanLook(keys: seq<Key>, b: Tree, s: Tree, t: Tree, policy: Policy, m: Tree, k: Key)
    requires Ascending(keys)
    ensures var p := PlanOver(keys, b, s, t, policy);
            p.conflicts == [] ==>
              Look(PutAll(m, p.writes), k) ==
                if k in keys then After(DecideAt(k, b, s, t, policy), Look(m, k)) else Look(m, k)
  {
    hide Decide, Ascending, Extend, PutAll;
    if keys != [] {
      var init, last := keys[..|keys| - 1], keys[|keys| - 1];
      LastNew(keys, k);
      PlanLook(init, b, s, t, policy, m, k);
      StepLook(PlanOver(init, b, s, t, policy), last, DecideAt(last, b, s, t, policy), m, k);
    } else {
      NothingPut(m);
    }
  }

  lemma NothingPut(m: Tree)
    ensures PutAll(m, []) == m
  {
  }

  lemma StepLook(p: Plan, last: Key, d: Decision, m: Tree, k: Key)
    ensures var p' := Extend(p, last, d);
            && (p'.conflicts == [] ==> p.conflicts == [])
            && (p'.conflicts == [] ==>
                  Look(PutAll(m, p'.writes), k)
                  == if k == last then After(d, Look(PutAll(m, p.writes), k)) else Look(PutAll(m, p.writes), k))
  {
    var p' := Extend(p, last, d);
    if p'.writes != p.writes { assert p'.writes[..|p'.writes| - 1] == p.writes; }
  }

  /** On the target's own tree, a caller's key ends up as its decision says. */
  lemma MergedLook(b: Tree, s: Tree, t: Tree, policy: Policy, k: Key)
    requires !IsReserved(k) && PlanOf(b, s, t, policy).conflicts == []
    ensures Look(PutAll(t, PlanOf(b, s, t, policy).writes), k) == After(DecideAt(k, b, s, t, policy), Look(t, k))
  {
    PlanLook(InOrder(SideKeys(b, s, t)), b, s, t, policy, t, k);
  }

  lemma MergeLook(r: Repo, ids: IdBytes, e: Event, k: Key)
    requires Sound(r) && e.MergeInto? && Allowed(r, e) && MergeWrites(r, ids, e).Some? && IsCaller(k)
    ensures var (s, t) := (r.refs.branches[e.source], r.refs.branches[e.target]);
            var base := BaseOf(GraphOf(r), s, t).value;
            Look(MergeTree(r, ids, e), k)
            == After(DecideAt(k, r.trees[base], r.trees[s], r.trees[t], e.policy), Look(r.trees[t], k))
  {
    hide Decide, PlanOver;
    var s, t := r.refs.branches[e.source], r.refs.branches[e.target];
    var base := BaseOf(GraphOf(r), s, t).value;
    var kvs := MergeWrites(r, ids, e).value;
    WrittenElsewhere(r.trees[t], e.target, kvs, e.extras.(hints := map[]), k);
    BuilderRegions(e.source, [], 0);
    assert kvs[..|kvs| - 1] == PlanOf(r.trees[base], r.trees[s], r.trees[t], e.policy).writes;
    MergedLook(r.trees[base], r.trees[s], r.trees[t], e.policy, k);
  }

  /** What a merge leaves on its target. */
  ghost predicate MergeDone(r: Repo, r': Repo, b: Name, tree: Tree, second: CommitId) {
    && b in r.refs.branches
    && b in r'.refs.branches && r'.refs.branches[b] in r'.trees && r'.trees[r'.refs.branches[b]] == tree
    && (forall x | x in r.refs.branches && x != b :: x in r'.refs.branches && r'.refs.branches[x] == r.refs.branches[x])
    && (r'.next == r.next ==> r'.refs.branches[b] == r.refs.branches[b] && tree == AtHead(r, b))
    && (r'.next != r.next ==> r'.refs.branches[b] == r.next)
    && (r'.next != r.next ==> r.next in r'.refs.commits && second in r'.refs.commits[r.next])
  }

  /** The tree at a branch's head, where there is one. */
  function AtHead(r: Repo, b: Name): Tree {
    if b in r.refs.branches && r.refs.branches[b] in r.trees then HeadTree(r, b) else map[]
  }

  lemma MergeDoes(r: Repo, ids: IdBytes, e: Event)
    requires Sound(r) && e.MergeInto? && Allowed(r, e) && MergeWrites(r, ids, e).Some?
    ensures MergeDone(r, Step(r, ids, e), e.target, MergeTree(r, ids, e), r.refs.branches[e.source])
  {
    hide MergeWrites, MergeTree, Written, Sound, Edges, Advance, WithSecondParent;
    HeadsStored(r);
    var (b, second) := (e.target, r.refs.branches[e.source]);
    MergeStep(r, b, MergeTree(r, ids, e), e.repacked, second);
    NoOpIs(r, r.refs.branches[b], second);
    assert second in Joined([r.refs.branches[b]], second);
  }

  lemma NoOpIs(r: Repo, c: CommitId, second: CommitId)
    ensures var r' := WithSecondParent(r, c, c, second);
            r'.refs.branches == r.refs.branches && r'.trees == r.trees && r'.next == r.next
  {
  }

  /** What a decision makes of a record. */
  predicate Applied(d: Decision, before: Option<Record>, after: Option<Record>) {
    match d
    case Write(rec) => after == Some(rec)
    case Resolved(rec) => after == Some(rec)
    case Nothing => after == before
    case Undecided(_) => false
  }

  /** Under every caller's key the merged tree has what it is right to leave there, going by the three sides. */
  ghost predicate TreeRight(b: Tree, s: Tree, t: Tree, policy: Policy, merged: Tree) {
    forall k | IsCaller(k) :: exists d :: RightAt(k, b, s, t, policy, d) && Applied(d, Look(t, k), Look(merged, k))
  }

  lemma {:induction false} NoneUndecided(keys: seq<Key>, b: Tree, s: Tree, t: Tree, policy: Policy)
    requires PlanOver(keys, b, s, t, policy).conflicts == []
    ensures forall k | k in keys :: !DecideAt(k, b, s, t, policy).Undecided?
  {
    if keys != [] {
      NoneUndecided(keys[..|keys| - 1], b, s, t, policy);
      assert keys == keys[..|keys| - 1] + [keys[|keys| - 1]];
    }
  }

  /** **A merge leaves on its target what is right, under every caller's key and for every kind of record.** */
  lemma MergeIsRight(r: Repo, ids: IdBytes, e: Event)
    requires Sound(r) && e.MergeInto? && Allowed(r, e) && MergeWrites(r, ids, e).Some?
    ensures var (s, t) := (r.refs.branches[e.source], r.refs.branches[e.target]);
            var (base, r') := (BaseOf(GraphOf(r), s, t).value, Step(r, ids, e));
            && s in r.trees && t in r.trees && base in r.trees
            && e.target in r'.refs.branches && r'.refs.branches[e.target] in r'.trees
            && TreeRight(r.trees[base], r.trees[s], r.trees[t], e.policy, HeadTree(r', e.target))
  {
    hide Decide, PlanOver, Written, Advance, WithSecondParent, RightAt, IsCaller, IsReserved;
    MergeDoes(r, ids, e);
    HeadsStored(r);
    var (s, t) := (r.refs.branches[e.source], r.refs.branches[e.target]);
    var base := BaseOf(GraphOf(r), s, t).value;
    var (vb, vs, vt) := (r.trees[base], r.trees[s], r.trees[t]);
    var merged := HeadTree(Step(r, ids, e), e.target);
    NoneUndecided(InOrder(SideKeys(vb, vs, vt)), vb, vs, vt, e.policy);
    forall k | IsCaller(k)
      ensures exists d :: RightAt(k, vb, vs, vt, e.policy, d) && Applied(d, Look(vt, k), Look(merged, k))
    {
      MergeLook(r, ids, e, k);
      RightAtIs(k, vb, vs, vt, e.policy);
      NotReserved(k);
      AbsentDecides(k, vb, vs, vt, e.policy);
      var d := DecideAt(k, vb, vs, vt, e.policy);
      assert RightAt(k, vb, vs, vt, e.policy, d) && Applied(d, Look(vt, k), Look(merged, k));
    }
  }

  lemma NotReserved(k: Key)
    requires IsCaller(k)
    ensures !IsReserved(k)
  {
  }

  lemma AbsentDecides(k: Key, b: Tree, s: Tree, t: Tree, policy: Policy)
    requires !IsReserved(k)
    ensures k !in InOrder(SideKeys(b, s, t)) ==> DecideAt(k, b, s, t, policy) == Nothing
  {
  }
}
