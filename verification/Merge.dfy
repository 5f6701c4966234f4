/** Planning a three-way merge: the page diff narrows the search, records decide it. */
module Merge {
  import opened Bytes
  import opened Records
  import opened SortedEntries
  import opened BTreeShape
  import opened PageSize
  import opened BTree
  import opened MergeRules
  import opened Keyspace
  import opened KeyOrder

  // ---------- the unfiltered merge ----------

  function Look(m: map<Key, Record>, k: Key): Option<Record> { if k in m then Some(m[k]) else None }

  function DecideAt(k: Key, b: map<Key, Record>, s: map<Key, Record>, t: map<Key, Record>, policy: Policy): Decision {
    Decide(k, Look(b, k), Look(s, k), Look(t, k), policy)
  }

  datatype Plan = Plan(writes: seq<(Key, Record)>, automatic: nat, conflicts: seq<Conflict>)

  function Extend(p: Plan, k: Key, d: Decision): Plan {
    match d
    case Nothing => p
    case Write(r) => Plan(p.writes + [(k, r)], p.automatic + 1, p.conflicts)
    case Resolved(r) => p.(writes := p.writes + [(k, r)])
    case Undecided(c) => p.(conflicts := p.conflicts + [c])
  }

  /** Deciding each key of a run, in order. */
  function PlanOver(keys: seq<Key>, b: map<Key, Record>, s: map<Key, Record>, t: map<Key, Record>,
                    policy: Policy): Plan {
    if keys == [] then Plan([], 0, [])
    else
      var (init, k) := (keys[..|keys| - 1], keys[|keys| - 1]);
      Extend(PlanOver(init, b, s, t, policy), k, DecideAt(k, b, s, t, policy))
  }

  datatype Outcome = Merged(writes: seq<(Key, Record)>, automatic: nat) | Conflicted(report: seq<Conflict>)

  function OutcomeOf(p: Plan): Outcome {
    if p.conflicts != [] then Conflicted(p.conflicts) else Merged(p.writes, p.automatic)
  }

  lemma {:induction false} OnlySnoc(s: seq<Key>, k: Key, keep: set<Key>)
    ensures Only(s + [k], keep) == Only(s, keep) + if k in keep then [k] else []
  {
    if s == [] {
      assert s + [k] == [k];
    } else {
      assert (s + [k])[1..] == s[1..] + [k];
      OnlySnoc(s[1..], k, keep);
    }
  }

  /** Keys that decide Nothing can be left out. */
  lemma {:induction false} SkipUndisturbed(keys: seq<Key>, keep: set<Key>,
                                           b: map<Key, Record>, s: map<Key, Record>, t: map<Key, Record>,
                                           policy: Policy)
    requires forall k | k in keys && k !in keep :: DecideAt(k, b, s, t, policy) == Nothing
    ensures PlanOver(Only(keys, keep), b, s, t, policy) == PlanOver(keys, b, s, t, policy)
  {
    if keys != [] {
      var init, k := keys[..|keys| - 1], keys[|keys| - 1];
      assert keys == init + [k];
      SkipUndisturbed(init, keep, b, s, t, policy);
      OnlySnoc(init, k, keep);
      assert k in keys;
      if k in keep {
        var o := Only(keys, keep);
        assert o == Only(init, keep) + [k] && o[..|o| - 1] == Only(init, keep);
      } else {
        assert Only(keys, keep) == Only(init, keep);
      }
    }
  }

  // ---------- the prefilter never drops a record ----------

  predicate SameContent(a: Manifest, b: Manifest, p: PageNo) {
    if p == META_PAGE then a.meta == b.meta
    else (p in a.nodes <==> p in b.nodes) && (p in a.nodes ==> a.nodes[p] == b.nodes[p])
  }

  /** A page diff lists every page whose content under either side differs from the base. */
  ghost predicate ListsChanges(changed: seq<PageNo>, base: Manifest, source: Manifest, target: Manifest) {
    forall p: PageNo | p !in changed :: SameContent(base, source, p) && SameContent(base, target, p)
  }

  lemma {:induction false} EntriesAreMap(s: seq<Entry>, k: Key)
    requires Sorted(s)
    ensures k in ToMap(s) ==> Entry(k, ToMap(s)[k]) in s
    ensures forall e | e in s && e.key == k :: k in ToMap(s) && ToMap(s)[k] == e.rec
  {
    if s != [] {
      Uncons(s);
      EntriesAreMap(s[1..], k);
      LessTotal(k, k);
    }
  }

  /** A record one snapshot holds and no changed leaf mentions is held by the other as well. */
  lemma UnchangedKeyShared(a: Manifest, ta: Shape, ha: nat, b: Manifest, tb: Shape, hb: nat, changed: seq<PageNo>,
                           k: Key)
    requires Represents(a, ta, ha) && Represents(b, tb, hb)
    requires forall p: PageNo | p !in changed :: SameContent(a, b, p)
    requires k !in LeafKeys(a.nodes, changed) && k in ToMap(Flat(ta))
    ensures k in ToMap(Flat(tb)) && ToMap(Flat(tb))[k] == ToMap(Flat(ta))[k]
  {
    WfFlat(ta, None, None);
    WfFlat(tb, None, None);
    EntriesAreMap(Flat(ta), k);
    EntriesAreMap(Flat(tb), k);
    var e := Entry(k, ToMap(Flat(ta))[k]);
    var p := FlatEntryHasLeaf(a.nodes, ta, e);
    assert p != META_PAGE;
    assert p in changed ==> k in LeafKeys(a.nodes, changed);
    assert SameContent(a, b, p);
    LeafEntriesInFlat(b.nodes, tb, p, e);
  }

  /** **Prefilter completeness.** A key no changed leaf mentions, on any side, reads the same on all three. */
  lemma PrefilterComplete(base: Manifest, source: Manifest, target: Manifest, changed: seq<PageNo>, k: Key)
    requires WellFormed(base) && WellFormed(source) && WellFormed(target)
    requires ListsChanges(changed, base, source, target)
    requires k !in LeafKeys(base.nodes, changed)
    requires k !in LeafKeys(source.nodes, changed) && k !in LeafKeys(target.nodes, changed)
    ensures Look(Contents(base), k) == Look(Contents(source), k) == Look(Contents(target), k)
  {
    PairAgrees(base, source, changed, k);
    PairAgrees(base, target, changed, k);
  }

  lemma PairAgrees(a: Manifest, b: Manifest, changed: seq<PageNo>, k: Key)
    requires WellFormed(a) && WellFormed(b)
    requires forall p: PageNo | p !in changed :: SameContent(a, b, p)
    requires k !in LeafKeys(a.nodes, changed) && k !in LeafKeys(b.nodes, changed)
    ensures Look(Contents(a), k) == Look(Contents(b), k)
  {
    var ta, ha :| Represents(a, ta, ha);
    var tb, hb :| Represents(b, tb, hb);
    ShapeUnique(a, ta, ha);
    ShapeUnique(b, tb, hb);
    assert forall p: PageNo | p !in changed :: SameContent(a, b, p) && SameContent(b, a, p);
    if k in ToMap(Flat(ta)) { UnchangedKeyShared(a, ta, ha, b, tb, hb, changed, k); }
    if k in ToMap(Flat(tb)) { UnchangedKeyShared(b, tb, hb, a, ta, ha, changed, k); }
  }

  /** Every unreserved key of the three sides. */
  function SideKeys(b: map<Key, Record>, s: map<Key, Record>, t: map<Key, Record>): set<Key> {
    set k | k in b.Keys + s.Keys + t.Keys && !IsReserved(k)
  }

  /** Plan the merge of `source` into `target`, reading only. `changed` is the page diff. The outcome is that of
      deciding every unreserved key of the three sides, in ascending order. */
  method PlanMerge(base: Manifest, source: Manifest, target: Manifest, changed: seq<PageNo>, policy: Policy,
                   pageSize: nat, size: Sizer)
    returns (outcome: Outcome)
    requires WellFormed(base) && WellFormed(source) && WellFormed(target)
    requires ListsChanges(changed, base, source, target)
    ensures outcome == OutcomeOf(PlanOver(InOrder(SideKeys(Contents(base), Contents(source), Contents(target))),
                                          Contents(base), Contents(source), Contents(target), policy))
  {
    hide Represents, SizesOk, LeafKeys, Less, Decide, Tree.Valid, Tree.Model, WellFormed;
    var baseTree := new Tree.Open(base, pageSize, size);
    var sourceTree := new Tree.Open(source, pageSize, size);
    var targetTree := new Tree.Open(target, pageSize, size);
    ghost var b, s, t := Contents(base), Contents(source), Contents(target);
    var sourceKeys := sourceTree.KeysInPages(changed);
    var targetKeys := targetTree.KeysInPages(changed);
    var baseKeys := baseTree.KeysInPages(changed);
    var candidates := set k | k in sourceKeys + targetKeys + baseKeys && !IsReserved(k);
    var plan := Plan([], 0, []);
    ghost var done: seq<Key> := [];
    var rest := candidates;
    while rest != {}
      invariant baseTree.Valid() && sourceTree.Valid() && targetTree.Valid()
      invariant baseTree.Model() == b && sourceTree.Model() == s && targetTree.Model() == t
      invariant rest <= candidates && Ascending(done) && (forall k :: k in done <==> k in candidates - rest)
      invariant forall k, j | k in done && j in rest :: Less(k, j)
      invariant plan == PlanOver(done, b, s, t, policy)
      decreases rest
    {
      HasLeast(rest);
      var key :| Least(key, rest);
      var vb := baseTree.Lookup(key);
      var vs := sourceTree.Lookup(key);
      var vt := targetTree.Lookup(key);
      plan := Extend(plan, key, Decide(key, vb, vs, vt, policy));
      assert (done + [key])[..|done|] == done;
      LeastIsNext(done, key, rest);
      done, rest := done + [key], rest - {key};
    }
    outcome := OutcomeOf(plan);
    CandidatesSuffice(base, source, target, changed, policy, candidates, done);
  }

  lemma LeastIsNext(done: seq<Key>, key: Key, rest: set<Key>)
    requires Ascending(done) && Least(key, rest)
    requires forall k, j | k in done && j in rest :: Less(k, j)
    ensures Ascending(done + [key])
    ensures forall k, j | k in done + [key] && j in rest - {key} :: Less(k, j)
  {
    LessOrder();
  }

  lemma CandidatesSuffice(base: Manifest, source: Manifest, target: Manifest, changed: seq<PageNo>, policy: Policy,
                          candidates: set<Key>, done: seq<Key>)
    requires WellFormed(base) && WellFormed(source) && WellFormed(target)
    requires ListsChanges(changed, base, source, target)
    requires candidates == set k | k in LeafKeys(source.nodes, changed) + LeafKeys(target.nodes, changed)
             + LeafKeys(base.nodes, changed)
                                   && !IsReserved(k)
    requires Ascending(done) && forall k :: k in done <==> k in candidates
    ensures var b, s, t := Contents(base), Contents(source), Contents(target);
            PlanOver(done, b, s, t, policy) == PlanOver(InOrder(SideKeys(b, s, t)), b, s, t, policy)
  {
    var b, s, t := Contents(base), Contents(source), Contents(target);
    var keys := InOrder(SideKeys(b, s, t));
    forall k | !IsReserved(k) && k !in candidates ensures DecideAt(k, b, s, t, policy) == Nothing {
      PrefilterComplete(base, source, target, changed, k);
    }
    var all := SideKeys(b, s, t);
    SkipUndisturbed(done, all, b, s, t, policy);
    SkipUndisturbed(keys, candidates, b, s, t, policy);
    OnlyAscending(done, all);
    OnlyAscending(keys, candidates);
    AscendingUnique(Only(done, all), Only(keys, candidates));
  }
}
