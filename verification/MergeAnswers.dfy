/** What a merge answers: the commit, a report of conflicts, ambiguity, or a refusal; and when each. */
module MergeAnswers {
  import opened Bytes
  import opened Records
  import opened Keyspace
  import opened KeyOrder
  import opened MergeRules
  import opened MergeMeaning
  import opened Merge
  import opened Refs
  import opened CommitDag
  import opened RepoMerges
  import RepoGraph
  import R = Repo

  datatype MergeResult = Merged(commit: CommitId, records: nat, automatic: nat) | Conflicts(report: seq<Conflict>)
    | Ambiguous(bases: nat) | PolicyRefused(key: Key)

  predicate Forbidden(kv: (Key, Record), forbids: R.Forbids) { IsCaller(kv.0) && forbids(kv.0, kv.1) }

  /** The key of the first write the policy of the day forbids. */
  ghost predicate FirstForbidden(kvs: seq<(Key, Record)>, forbids: R.Forbids, key: Key) {
    exists i :: 0 <= i < |kvs| && Forbidden(kvs[i], forbids) && kvs[i].0 == key
                && forall j | 0 <= j < i :: !Forbidden(kvs[j], forbids)
  }

  /** How many of the writes are records of the caller's. */
  function CallerCount(kvs: seq<(Key, Record)>): nat {
    if kvs == [] then 0
    else CallerCount(kvs[..|kvs| - 1]) + if IsCaller(kvs[|kvs| - 1].0) then 1 else 0
  }

  method CheckPolicy(kvs: seq<(Key, Record)>, forbids: R.Forbids) returns (records: nat, refused: Option<Key>)
    ensures refused.None? <==> !R.Refused(kvs, forbids)
    ensures refused.Some? ==> FirstForbidden(kvs, forbids, refused.value)
    ensures refused.None? ==> records == CallerCount(kvs)
  {
    records := 0;
    for i := 0 to |kvs|
      invariant records == CallerCount(kvs[..i]) && forall j | 0 <= j < i :: !Forbidden(kvs[j], forbids)
    {
      assert kvs[..i + 1][..i] == kvs[..i];
      if IsCaller(kvs[i].0) {
        if forbids(kvs[i].0, kvs[i].1) { return records, Some(kvs[i].0); }
        records := records + 1;
      }
    }
    assert kvs[..|kvs|] == kvs;
    refused := None;
  }

  /** Which answer a merge gives, and what is in it: how many bases there are when there is more than one; the plan's
      conflicts if it has any; the first write the policy forbids if one does; and otherwise the commit, how many of
      its records are the caller's, and how many the rules decided by themselves. */
  ghost predicate Answers(r: R.Repo, r': R.Repo, ids: R.IdBytes, e: R.Event, answer: MergeResult)
    requires R.Sound(r) && e.MergeInto? && e.source in r.refs.branches && e.target in r.refs.branches
  {
    var (s, t) := (r.refs.branches[e.source], r.refs.branches[e.target]);
    var base := R.BaseOf(R.GraphOf(r), s, t);
    if base.None? then answer == Ambiguous(|Bases(R.GraphOf(r), s, t)|) && answer.bases > 1
    else
      && base.value in r.trees && s in r.trees && t in r.trees
      && var plan := R.PlanOf(r.trees[base.value], r.trees[s], r.trees[t], e.policy);
      if plan.conflicts != [] then answer == Conflicts(plan.conflicts)
      else if R.Refused(plan.writes, e.forbids) then
        answer.PolicyRefused? && FirstForbidden(plan.writes, e.forbids, answer.key)
      else
        && e.target in r'.refs.branches
        && answer == MergeResult.Merged(r'.refs.branches[e.target], CallerCount(plan.writes), plan.automatic)
  }

  /** What a merge leaves and answers: nothing for a missing branch, and otherwise the repository's step. */
  ghost predicate MergeOutcome(r: R.Repo, r': R.Repo, ids: R.IdBytes, e: R.Event, result: Option<MergeResult>)
    requires R.Sound(r) && e.MergeInto?
  {
    if e.source in r.refs.branches && e.target in r.refs.branches then
      result.Some? && r' == R.Step(r, ids, e) && Answers(r, r', ids, e, result.value)
    else result.None? && r' == r
  }

  // ---------- the right answer ----------

  /** The plan has this write. */
  ghost predicate Writes(k: Key, rec: Record, b: R.Tree, s: R.Tree, t: R.Tree, policy: Policy) {
    !IsReserved(k) && (RightAt(k, b, s, t, policy, Write(rec)) || RightAt(k, b, s, t, policy, Resolved(rec)))
  }

  ghost predicate Undecidable(k: Key, b: R.Tree, s: R.Tree, t: R.Tree, policy: Policy) {
    !IsReserved(k) && RightAt(k, b, s, t, policy, Undecided(Sides(k, b, s, t)))
  }

  /** The policy of the day forbids what would be written at this key. */
  ghost predicate Barred(k: Key, b: R.Tree, s: R.Tree, t: R.Tree, policy: Policy, forbids: R.Forbids) {
    IsCaller(k) && exists rec :: Writes(k, rec, b, s, t, policy) && forbids(k, rec)
  }

  /** The caller's keys a merge would write. */
  ghost function CallerKeys(b: R.Tree, s: R.Tree, t: R.Tree, policy: Policy): set<Key> {
    set k | k in SideKeys(b, s, t) && IsCaller(k) && exists rec :: Writes(k, rec, b, s, t, policy)
  }

  /** The answer told by the three sides' records: a report, if any key is undecidable, of just those; a refusal, if any
      write is barred, at the first of them; and otherwise the merge, with how many of the caller's records it wrote and
      how many the typed rules decided. */
  ghost predicate AnswerRight(b: R.Tree, s: R.Tree, t: R.Tree, policy: Policy, forbids: R.Forbids,
                              answer: MergeResult) {
    match answer
    case Conflicts(report) =>
      report != [] && ReportRight(Plan([], 0, report), SideKeys(b, s, t), b, s, t, policy)
    case PolicyRefused(k) =>
      && (forall j :: !Undecidable(j, b, s, t, policy))
      && Barred(k, b, s, t, policy, forbids) && forall j | Barred(j, b, s, t, policy, forbids) :: !Less(j, k)
    case Merged(_, records, automatic) =>
      && (forall k :: !Undecidable(k, b, s, t, policy) && !Barred(k, b, s, t, policy, forbids))
      && records == |CallerKeys(b, s, t, policy)| && automatic == |RuledKeys(SideKeys(b, s, t), b, s, t, policy)|
    case Ambiguous(_) => false
  }

  lemma PlanOfRight(b: R.Tree, s: R.Tree, t: R.Tree, policy: Policy)
    ensures PlanRight(R.PlanOf(b, s, t, policy), SideKeys(b, s, t), b, s, t, policy)
  {
    var keys := InOrder(SideKeys(b, s, t));
    PlanIsRight(keys, b, s, t, policy);
    assert (set k | k in keys) == SideKeys(b, s, t);
  }

  /** Only keys that some side holds are written or undecidable. */
  lemma HeldKeys(k: Key, b: R.Tree, s: R.Tree, t: R.Tree, policy: Policy)
    ensures Undecidable(k, b, s, t, policy) ==> k in SideKeys(b, s, t)
    ensures forall rec | Writes(k, rec, b, s, t, policy) :: k in SideKeys(b, s, t)
  {
    RightAtIs(k, b, s, t, policy);
    hide RightAt;
  }

  lemma PlannedWrites(b: R.Tree, s: R.Tree, t: R.Tree, policy: Policy, kv: (Key, Record))
    ensures kv in R.PlanOf(b, s, t, policy).writes <==> Writes(kv.0, kv.1, b, s, t, policy)
  {
    PlanOfRight(b, s, t, policy);
    HeldKeys(kv.0, b, s, t, policy);
    hide RightAt, R.PlanOf;
  }

  lemma NoneUndecidable(b: R.Tree, s: R.Tree, t: R.Tree, policy: Policy, k: Key)
    requires R.PlanOf(b, s, t, policy).conflicts == []
    ensures !Undecidable(k, b, s, t, policy)
  {
    PlanOfRight(b, s, t, policy);
    HeldKeys(k, b, s, t, policy);
    hide RightAt, R.PlanOf;
    var c := Sides(k, b, s, t);
    assert c in R.PlanOf(b, s, t, policy).conflicts
           <==> k in SideKeys(b, s, t) && RightAt(k, b, s, t, policy, Undecided(c));
  }

  lemma RefusedRight(b: R.Tree, s: R.Tree, t: R.Tree, policy: Policy, forbids: R.Forbids, key: Key)
    requires var plan := R.PlanOf(b, s, t, policy); FirstForbidden(plan.writes, forbids, key)
    ensures Barred(key, b, s, t, policy, forbids) && forall j | Barred(j, b, s, t, policy, forbids) :: !Less(j, key)
  {
    PlanOfRight(b, s, t, policy);
    hide RightAt, R.PlanOf, Writes;
    var writes := R.PlanOf(b, s, t, policy).writes;
    var i :| 0 <= i < |writes| && Forbidden(writes[i], forbids) && writes[i].0 == key
             && forall j | 0 <= j < i :: !Forbidden(writes[j], forbids);
    PlannedWrites(b, s, t, policy, writes[i]);
    forall j | Barred(j, b, s, t, policy, forbids) ensures !Less(j, key) {
      var rec :| Writes(j, rec, b, s, t, policy) && forbids(j, rec);
      PlannedWrites(b, s, t, policy, (j, rec));
      var n :| 0 <= n < |writes| && writes[n] == (j, rec);
      LessOrder();
    }
  }

  lemma UnbarredRight(b: R.Tree, s: R.Tree, t: R.Tree, policy: Policy, forbids: R.Forbids, k: Key)
    requires !R.Refused(R.PlanOf(b, s, t, policy).writes, forbids)
    ensures !Barred(k, b, s, t, policy, forbids)
  {
    hide R.PlanOf, Writes;
    if Barred(k, b, s, t, policy, forbids) {
      var rec :| Writes(k, rec, b, s, t, policy) && forbids(k, rec);
      PlannedWrites(b, s, t, policy, (k, rec));
    }
  }

  /** How many writes are the caller's, as a set of keys. */
  lemma {:induction false} CallersCounted(kvs: seq<(Key, Record)>)
    requires forall i, j | 0 <= i < j < |kvs| :: Less(kvs[i].0, kvs[j].0)
    ensures CallerCount(kvs) == |set kv | kv in kvs && IsCaller(kv.0) :: kv.0|
  {
    hide IsCaller;
    if kvs != [] {
      var (init, kv) := (kvs[..|kvs| - 1], kvs[|kvs| - 1]);
      assert kvs == init + [kv];
      CallersCounted(init);
      LessOrder();
      var before := set x | x in init && IsCaller(x.0) :: x.0;
      assert kv.0 !in before;
      assert (set x | x in kvs && IsCaller(x.0) :: x.0) == before + if IsCaller(kv.0) then {kv.0} else {};
    }
  }

  lemma CountRight(b: R.Tree, s: R.Tree, t: R.Tree, policy: Policy)
    ensures CallerCount(R.PlanOf(b, s, t, policy).writes) == |CallerKeys(b, s, t, policy)|
  {
    PlanOfRight(b, s, t, policy);
    var writes := R.PlanOf(b, s, t, policy).writes;
    CallersCounted(writes);
    hide RightAt, R.PlanOf, Writes, IsCaller;
    var counted := set kv | kv in writes && IsCaller(kv.0) :: kv.0;
    forall k ensures k in counted <==> k in CallerKeys(b, s, t, policy) {
      HeldKeys(k, b, s, t, policy);
      if k in counted {
        var kv :| kv in writes && IsCaller(kv.0) && kv.0 == k;
        PlannedWrites(b, s, t, policy, kv);
      }
      if k in CallerKeys(b, s, t, policy) {
        var rec :| Writes(k, rec, b, s, t, policy);
        PlannedWrites(b, s, t, policy, (k, rec));
      }
    }
    assert counted == CallerKeys(b, s, t, policy);
  }

  /** What is right of a merge as a whole: where there is a base, the answer, and the merged tree if there is one. */
  ghost predicate OutcomeRight(r: R.Repo, r': R.Repo, e: R.Event, answer: MergeResult)
    requires R.Sound(r) && e.MergeInto? && e.source in r.refs.branches && e.target in r.refs.branches
  {
    var (s, t) := (r.refs.branches[e.source], r.refs.branches[e.target]);
    var base := R.BaseOf(R.GraphOf(r), s, t);
    base.Some? ==>
      && base.value in r.trees && s in r.trees && t in r.trees
      && var (vb, vs, vt) := (r.trees[base.value], r.trees[s], r.trees[t]);
      && AnswerRight(vb, vs, vt, e.policy, e.forbids, answer)
      && (answer.Merged? ==>
            && e.target in r'.refs.branches && r'.refs.branches[e.target] in r'.trees
            && TreeRight(vb, vs, vt, e.policy, R.HeadTree(r', e.target)))
      && (!answer.Merged? ==> r' == r)
  }

  /** **A merge answers and leaves what is right.** */
  lemma AnswersAreRight(r: R.Repo, ids: R.IdBytes, e: R.Event, answer: MergeResult)
    requires R.Sound(r) && e.MergeInto? && R.Allowed(r, e) && Answers(r, R.Step(r, ids, e), ids, e, answer)
    ensures OutcomeRight(r, R.Step(r, ids, e), e, answer)
  {
    hide R.PlanOf, R.Written, R.BaseOf, R.Advance, Writes, RightAt, TreeRight, R.Refused, FirstForbidden, CallerCount;
    RepoGraph.HeadsStored(r);
    var (s, t) := (r.refs.branches[e.source], r.refs.branches[e.target]);
    var base := R.BaseOf(R.GraphOf(r), s, t);
    if base.Some? {
      var (vb, vs, vt) := (r.trees[base.value], r.trees[s], r.trees[t]);
      var plan := R.PlanOf(vb, vs, vt, e.policy);
      PlanOfRight(vb, vs, vt, e.policy);
      if plan.conflicts == [] {
        forall k ensures !Undecidable(k, vb, vs, vt, e.policy) { NoneUndecidable(vb, vs, vt, e.policy, k); }
        if R.Refused(plan.writes, e.forbids) {
          RefusedRight(vb, vs, vt, e.policy, e.forbids, answer.key);
        } else {
          forall k ensures !Barred(k, vb, vs, vt, e.policy, e.forbids) {
            UnbarredRight(vb, vs, vt, e.policy, e.forbids, k);
          }
          CountRight(vb, vs, vt, e.policy);
          MergeIsRight(r, ids, e);
        }
      }
    }
  }
}
