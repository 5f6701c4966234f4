/** What writes and merges make of claim histories: each claim of each batch gains one version, in order. */
module RepoHistory {
  import opened Bytes
  import opened Records
  import opened Keyspace
  import KeyOrder
  import opened MergeRules
  import opened Merge
  import opened Refs
  import opened Repo
  import opened RepoGraph
  import opened RepoMerges
  import opened RepoCounting
  import opened ClaimHistory
  import opened WriteExtras
  import opened ClaimStore

  // ---------- a batch ----------

  function ClaimsIn(kvs: seq<(Key, Record)>): seq<Claim> {
    if kvs == [] then []
    else ClaimsIn(kvs[..|kvs| - 1]) + if kvs[|kvs| - 1].1.OfClaim? then [kvs[|kvs| - 1].1.claim] else []
  }

  /** A history after more assertions. */
  function AssertAll(vs: seq<Version>, claims: seq<Claim>): seq<Version> {
    if claims == [] then vs else Asserting(AssertAll(vs, claims[..|claims| - 1]), claims[|claims| - 1])
  }

  /** One version for each; and from nothing, the versions of that run of assertions. */
  lemma {:induction false} AssertAllIs(vs: seq<Version>, claims: seq<Claim>)
    ensures |AssertAll(vs, claims)| == |vs| + |claims| && AssertAll([], claims) == Versions(claims)
  {
    if claims != [] { AssertAllIs(vs, claims[..|claims| - 1]); }
  }

  lemma {:induction false} AssertAllMore(vs: seq<Version>, a: seq<Claim>, b: seq<Claim>)
    ensures AssertAll(vs, a + b) == AssertAll(AssertAll(vs, a), b)
  {
    if b == [] {
      assert a + b == a;
    } else {
      assert (a + b)[..|a + b| - 1] == a + b[..|b| - 1];
      AssertAllMore(vs, a, b[..|b| - 1]);
    }
  }

  lemma {:induction false} AboutMore(c: ClaimStore.Codec, a: seq<Claim>, b: seq<Claim>, s: Key, p: Key)
    ensures About(c, a + b, s, p) == About(c, a, s, p) + About(c, b, s, p) && |About(c, b, s, p)| <= |b|
  {
    if b == [] {
      assert a + b == a;
    } else {
      assert (a + b)[..|a + b| - 1] == a + b[..|b| - 1];
      AboutMore(c, a, b[..|b| - 1], s, p);
    }
  }

  /** Asserting one claim in a table asserts it in its own history and no other. */
  lemma ClaimHolds(c: ClaimStore.Codec, m: Tree, claim: Claim, s: Key, p: Key, vs: seq<Version>)
    requires ClaimStore.Faithful(c) && Holds(c, m, s, p, vs) && NulFree(s) && NulFree(p)
    requires NulFreeNames(c, [claim]) && |vs| < MAX_SEQ
    ensures Holds(c, Appended(c, m, claim), s, p, AssertAll(vs, About(c, [claim], s, p)))
  {
    hide Holds, Appended, ClaimStore.Faithful, NulFree;
    assert NulFree(c.utf8([claim][0].subject)) && NulFree(c.utf8([claim][0].predicateName));
    assert [claim][..0] == [];
    if c.utf8(claim.subject) == s && c.utf8(claim.predicateName) == p {
      AppendAsserts(c, m, claim, vs);
      assert About(c, [claim], s, p) == [claim];
    } else {
      OtherHistoryKept(c, m, claim, s, p, vs);
      assert About(c, [claim], s, p) == [];
    }
  }

  lemma ClaimsSplit(kvs: seq<(Key, Record)>)
    requires kvs != []
    ensures var (init, rec) := (ClaimsIn(kvs[..|kvs| - 1]), kvs[|kvs| - 1].1);
            ClaimsIn(kvs) == if rec.OfClaim? then init + [rec.claim] else init
  {
  }

  lemma NulFreeParts(c: ClaimStore.Codec, a: seq<Claim>, b: seq<Claim>)
    ensures NulFreeNames(c, a + b) <==> NulFreeNames(c, a) && NulFreeNames(c, b)
  {
    hide NulFree;
    if NulFreeNames(c, a + b) {
      assert forall i | 0 <= i < |a| :: (a + b)[i] == a[i];
      assert forall i | 0 <= i < |b| :: (a + b)[|a| + i] == b[i];
    }
  }

  /** Asserting a batch's claims in a table asserts those of each history's own name in it. */
  lemma {:induction false} ClaimsHold(c: ClaimStore.Codec, m: Tree, kvs: seq<(Key, Record)>, s: Key, p: Key,
                                      vs: seq<Version>)
    requires ClaimStore.Faithful(c) && Holds(c, m, s, p, vs) && NulFree(s) && NulFree(p)
    requires NulFreeNames(c, ClaimsIn(kvs)) && |vs| + |ClaimsIn(kvs)| < MAX_SEQ
    ensures Holds(c, PutClaims(c, m, kvs), s, p, AssertAll(vs, About(c, ClaimsIn(kvs), s, p)))
  {
    hide Holds, Appended, ClaimStore.Faithful, NulFree, NulFreeNames, ClaimsIn, AssertAll, About;
    if kvs != [] {
      var (init, rec) := (kvs[..|kvs| - 1], kvs[|kvs| - 1].1);
      var claims := ClaimsIn(init);
      ClaimsSplit(kvs);
      if rec.OfClaim? {
        NulFreeParts(c, claims, [rec.claim]);
        ClaimsHold(c, m, init, s, p, vs);
        var now := AssertAll(vs, About(c, claims, s, p));
        AssertAllIs(vs, About(c, claims, s, p));
        AboutMore(c, [], claims, s, p);
        ClaimHolds(c, PutClaims(c, m, init), rec.claim, s, p, now);
        AboutMore(c, claims, [rec.claim], s, p);
        AssertAllMore(vs, About(c, claims, s, p), About(c, [rec.claim], s, p));
      } else {
        ClaimsHold(c, m, init, s, p, vs);
      }
    } else {
      NoClaims(c, vs, s, p);
    }
  }

  lemma NoClaims(c: ClaimStore.Codec, vs: seq<Version>, s: Key, p: Key)
    ensures AssertAll(vs, About(c, ClaimsIn([]), s, p)) == vs && ClaimsIn([]) == []
    ensures AssertAll(vs, About(c, [], s, p)) == vs
  {
  }

  // ---------- a write ----------

  ghost predicate SameHistory(m: Tree, m': Tree) {
    forall k | RegionOf(k) == Region.History :: Look(m, k) == Look(m', k)
  }

  lemma SameHolds(c: ClaimStore.Codec, m: Tree, m': Tree, s: Key, p: Key, vs: seq<Version>)
    requires SameHistory(m, m') && Holds(c, m, s, p, vs)
    ensures Holds(c, m', s, p, vs)
  {
    forall i: nat | i < |vs| ensures HistoryKey(s, p, i) in m' && m'[HistoryKey(s, p, i)] == m[HistoryKey(s, p, i)] {
      HistoryRegions(s, p, i);
      assert Look(m, HistoryKey(s, p, i)) == Look(m', HistoryKey(s, p, i));
    }
    forall k | k in m' && StartsWith(k, HistoryPrefix(s, p)) ensures k in m {
      PrefixRegion(k, s, p);
      assert Look(m, k) == Look(m', k);
    }
  }

  lemma PrefixRegion(k: Key, s: Key, p: Key)
    requires StartsWith(k, HistoryPrefix(s, p))
    ensures RegionOf(k) == Region.History
  {
    if RegionOf(k) != Region.History { HistoryOnly(k); }
  }

  /** Records whose keys are none of the histories' own. */
  predicate BesideHistory(kvs: seq<(Key, Record)>) { forall j | 0 <= j < |kvs| :: RegionOf(kvs[j].0) != Region.History }

  lemma HintedHistory(m: Tree, b: Name, kvs: seq<(Key, Record)>, x: Extras)
    requires BesideHistory(kvs)
    ensures SameHistory(m, PutHints(x.entries, Traced(m, b, kvs, x.describe), HintsOf(kvs, x.hints)))
  {
    var traced := Traced(m, b, kvs, x.describe);
    var hinted := PutHints(x.entries, traced, HintsOf(kvs, x.hints));
    hide Traced, PutAll, PutHints, HintsOf;
    forall k | RegionOf(k) == Region.History ensures Look(m, k) == Look(hinted, k) {
      TracedElsewhere(m, b, kvs, x.describe, k);
      PutAllElsewhere(m, kvs, k);
      HintsElsewhere(x.entries, traced, HintsOf(kvs, x.hints), k);
    }
  }

  /** What of a batch's claims a history can take: NUL-free names, and a count a sequence number can say. */
  ghost predicate Fitting(c: ClaimStore.Codec, s: Key, p: Key, vs: seq<Version>, claims: seq<Claim>) {
    NulFree(s) && NulFree(p) && NulFreeNames(c, claims) && |vs| + |claims| < MAX_SEQ
  }

  /** **After a write each history holds what it held, and a version more for each of the batch's claims of its
      name.** */
  lemma WriteAsserts(m: Tree, b: Name, kvs: seq<(Key, Record)>, x: Extras, s: Key, p: Key, vs: seq<Version>)
    requires ClaimStore.Faithful(x.versions) && BesideHistory(kvs) && Fitting(x.versions, s, p, vs, ClaimsIn(kvs))
    requires Holds(x.versions, m, s, p, vs)
    ensures Holds(x.versions, Written(m, b, kvs, x), s, p, AssertAll(vs, About(x.versions, ClaimsIn(kvs), s, p)))
  {
    hide Traced, PutHints, PutClaims, Holds, HintsOf, SameHistory;
    var hinted := PutHints(x.entries, Traced(m, b, kvs, x.describe), HintsOf(kvs, x.hints));
    HintedHistory(m, b, kvs, x);
    SameHolds(x.versions, m, hinted, s, p, vs);
    ClaimsHold(x.versions, hinted, kvs, s, p, vs);
  }

  /** What WriteAsserts says, of every history at once. */
  ghost predicate HistoriesAsserted(m: Tree, m': Tree, kvs: seq<(Key, Record)>, c: ClaimStore.Codec) {
    ClaimStore.Faithful(c) && BesideHistory(kvs) ==>
      forall s, p, vs | Holds(c, m, s, p, vs) && Fitting(c, s, p, vs, ClaimsIn(kvs)) ::
        Holds(c, m', s, p, AssertAll(vs, About(c, ClaimsIn(kvs), s, p)))
  }

  lemma WriteAssertsAll(m: Tree, b: Name, kvs: seq<(Key, Record)>, x: Extras)
    ensures HistoriesAsserted(m, Written(m, b, kvs, x), kvs, x.versions)
  {
    hide Written, Holds, ClaimStore.Faithful, Fitting, BesideHistory;
    if ClaimStore.Faithful(x.versions) && BesideHistory(kvs) {
      forall s, p, vs | Holds(x.versions, m, s, p, vs) && Fitting(x.versions, s, p, vs, ClaimsIn(kvs))
        ensures Holds(x.versions, Written(m, b, kvs, x), s, p, AssertAll(vs, About(x.versions, ClaimsIn(kvs), s, p)))
      {
        WriteAsserts(m, b, kvs, x, s, p, vs);
      }
    }
  }

  // ---------- runs ----------

  /** The claims an event asserts on a branch: its own batch's, or those a merge brings over. */
  ghost function Asserted(r: Repo, ids: IdBytes, b: Name, e: Event): seq<Claim>
    requires Sound(r) && Allowed(r, e)
  {
    if e.Write? && e.b == b then ClaimsIn(e.kvs)
    else if e.MergeInto? && e.target == b && MergeWrites(r, ids, e).Some? then ClaimsIn(MergeWrites(r, ids, e).value)
    else []
  }

  ghost function AllAsserted(r: Repo, ids: IdBytes, b: Name, es: seq<Event>): seq<Claim>
    requires AllowedRun(r, ids, es)
    decreases |es|
  {
    if es == [] then [] else Asserted(r, ids, b, es[0]) + AllAsserted(Step(r, ids, es[0]), ids, b, es[1..])
  }

  /** The branch is not rewound, and what goes into it is stored one way. */
  ghost predicate Forward(b: Name, c: ClaimStore.Codec, e: Event) {
    && (e.Rewind? ==> e.b != b) && (e.Write? && e.b == b ==> e.extras.versions == c)
    && (e.MergeInto? && e.target == b ==> e.extras.versions == c)
  }

  lemma MergeBeside(r: Repo, ids: IdBytes, e: Event)
    requires Sound(r) && Allowed(r, e) && e.MergeInto? && MergeWrites(r, ids, e).Some?
    ensures BesideHistory(MergeWrites(r, ids, e).value)
  {
    hide PlanOver, Refused, BaseOf;
    var (s, t) := (r.refs.branches[e.source], r.refs.branches[e.target]);
    var base := BaseOf(GraphOf(r), s, t).value;
    PlanKeys(KeyOrder.InOrder(SideKeys(r.trees[base], r.trees[s], r.trees[t])), r.trees[base], r.trees[s], r.trees[t],
             e.policy);
    BuilderRegions(e.source, [], 0);
  }

  lemma WriteBeside(kvs: seq<(Key, Record)>)
    requires forall i | 0 <= i < |kvs| :: IsCaller(kvs[i].0)
    ensures BesideHistory(kvs)
  {
  }

  lemma AtHeadIs(r: Repo, b: Name)
    requires b in r.refs.branches && r.refs.branches[b] in r.trees
    ensures AtHead(r, b) == HeadTree(r, b)
  {
  }

  /** A head that stays, or takes on a tree with the same histories. */
  lemma StepKeepsHistories(r: Repo, ids: IdBytes, b: Name, e: Event)
    requires Sound(r) && Allowed(r, e) && b in r.refs.branches
    requires !(e.Write? && e.b == b) && !(e.MergeInto? && e.target == b && MergeWrites(r, ids, e).Some?)
             && !(e.Rewind? && e.b == b)
    ensures b in Step(r, ids, e).refs.branches && SameHistory(AtHead(r, b), AtHead(Step(r, ids, e), b))
  {
    HeadsStored(r);
    AtHeadIs(r, b);
    if e.Reindex? && e.b == b && e.published {
      hide Sound, Advance, RegionOf, AtHead;
      CommitHead(r, b, e.tree, e.repacked);
      AdvanceBranch(r, b, e.tree, e.repacked);
    } else if e.MergeInto? && e.target == b {
      assert Step(r, ids, e) == r;
    } else {
      hide Sound, MergeWrites, Written, RegionOf;
      OthersStay(r, ids, e);
      if e.Reindex? && e.b == b { UnpublishedHead(r, b, e.tree, e.repacked); }
    }
  }

  lemma UnpublishedHead(r: Repo, b: Name, tree: Tree, repacked: bool)
    requires Sound(r) && b in r.refs.branches && r.refs.branches[b] in r.trees
    ensures AtHead(Committed(r, r.refs.branches[b], tree, repacked).0, b) == AtHead(r, b)
  {
  }

  lemma StepAsserts(r: Repo, ids: IdBytes, b: Name, e: Event, c: ClaimStore.Codec, s: Key, p: Key, vs: seq<Version>)
    requires Sound(r) && Allowed(r, e) && Forward(b, c, e) && ClaimStore.Faithful(c)
    requires b in r.refs.branches && Fitting(c, s, p, vs, Asserted(r, ids, b, e))
    requires Holds(c, AtHead(r, b), s, p, vs)
    ensures var r' := Step(r, ids, e);
            && b in r'.refs.branches
            && Holds(c, AtHead(r', b), s, p, AssertAll(vs, About(c, Asserted(r, ids, b, e), s, p)))
  {
    HeadsStored(r);
    AtHeadIs(r, b);
    hide Sound, Written, MergeWrites, Advance, WithSecondParent, Holds, Fitting, BesideHistory, GraphOf, AtHead,
         AssertAll, About, ClaimsIn, SameHistory;
    if e.Write? && e.b == b {
      var tree := Written(HeadTree(r, b), b, e.kvs, e.extras);
      WriteBeside(e.kvs);
      CommitHead(r, b, tree, e.repacked);
      AdvanceBranch(r, b, tree, e.repacked);
      WriteAsserts(HeadTree(r, b), b, e.kvs, e.extras, s, p, vs);
    } else if e.MergeInto? && e.target == b && MergeWrites(r, ids, e).Some? {
      MergeBeside(r, ids, e);
      MergeDoes(r, ids, e);
      AtHeadIs(Step(r, ids, e), b);
      WriteAsserts(HeadTree(r, b), b, MergeWrites(r, ids, e).value, e.extras.(hints := map[]), s, p, vs);
    } else {
      StepKeepsHistories(r, ids, b, e);
      SameHolds(c, AtHead(r, b), AtHead(Step(r, ids, e), b), s, p, vs);
      NoClaims(c, vs, s, p);
    }
  }

  lemma AdvanceBranch(r: Repo, b: Name, tree: Tree, repacked: bool)
    requires Sound(r) && b in r.refs.branches && r.refs.branches[b] in r.trees
    ensures b in Advance(r, b, tree, repacked).refs.branches
  {
  }

  /** **A branch's histories hold exactly the versions of what was asserted on it**: over any run that does not rewind
      it, of writes, merges into it, folds and whatever happens elsewhere, each history gains one version for each claim
      of its name, in order, and nothing else. */
  lemma {:induction false} RunAsserts(r: Repo, ids: IdBytes, b: Name, es: seq<Event>, c: ClaimStore.Codec, s: Key,
                                      p: Key, vs: seq<Version>)
    requires AllowedRun(r, ids, es) && ClaimStore.Faithful(c) && forall i | 0 <= i < |es| :: Forward(b, c, es[i])
    requires b in r.refs.branches && Fitting(c, s, p, vs, AllAsserted(r, ids, b, es))
    requires Holds(c, AtHead(r, b), s, p, vs)
    ensures Holds(c, AtHead(Run(r, ids, es), b), s, p, AssertAll(vs, About(c, AllAsserted(r, ids, b, es), s, p)))
    decreases |es|
  {
    hide Sound, Allowed, Step, Holds, Asserted, ClaimStore.Faithful, Forward, NulFree, NulFreeNames, AssertAll, About;
    if es != [] {
      var (now, later) := (Asserted(r, ids, b, es[0]), AllAsserted(Step(r, ids, es[0]), ids, b, es[1..]));
      assert AllAsserted(r, ids, b, es) == now + later;
      NulFreeParts(c, now, later);
      StepAsserts(r, ids, b, es[0], c, s, p, vs);
      AboutMore(c, now, later, s, p);
      AboutMore(c, [], now, s, p);
      AssertAllIs(vs, About(c, now, s, p));
      AssertAllMore(vs, About(c, now, s, p), About(c, later, s, p));
      RunAsserts(Step(r, ids, es[0]), ids, b, es[1..], c, s, p, AssertAll(vs, About(c, now, s, p)));
    } else {
      NoClaims(c, vs, s, p);
    }
  }
}
