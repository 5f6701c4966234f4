/** What a merge must make of one key, told by what the three sides hold there; and that the rules make just that. */
module MergeMeaning {
  import opened Bytes
  import opened Records
  import opened Floats
  import opened KeyOrder
  import opened MergeRules
  import opened Merge

  // ---------- the better of two claims ----------

  /** Methods, from the most trustworthy down: direct, by a human, by a rule, statistical, imported, by a model. */
  predicate MoreTrusted(m: Method, n: Method) {
    match m
    case Direct => n != Direct
    case ByHuman => n in {Rule, Statistical, Imported, LanguageModel}
    case Rule => n in {Statistical, Imported, LanguageModel}
    case Statistical => n in {Imported, LanguageModel}
    case Imported => n == LanguageModel
    case LanguageModel => false
  }

  /** The whole millionths of a confidence, from none to all an unsigned 64-bit word holds. */
  ghost predicate InMillionths(confidence: Float, n: nat) {
    match confidence
    case NotANumber => n == 0
    case Infinite(negative) => n == if negative then 0 else 0xffff_ffff_ffff_ffff
    case Finite(c) =>
      if c <= 0.0 then n == 0
      else if c * 1000000.0 >= 0x1_0000_0000_0000_0000 as real then n == 0xffff_ffff_ffff_ffff
      else n as real <= c * 1000000.0 < (n + 1) as real
  }

  ghost predicate MoreConfident(x: Claim, y: Claim) {
    exists n: nat, m: nat ::
      InMillionths(Meaning(x.confidence), n) && InMillionths(Meaning(y.confidence), m) && n > m
  }

  ghost predicate Better(x: Claim, y: Claim) {
    MoreTrusted(x.via, y.via) || (x.via == y.via && MoreConfident(x, y))
  }

  lemma MillionthsAre(c: Claim, n: nat)
    ensures InMillionths(Meaning(c.confidence), n) <==> n == c.Millionths()
  {
    hide Meaning;
    if Meaning(c.confidence).Finite? {
      var m := Meaning(c.confidence).value * 1000000.0;
      assert m.Floor as real <= m < (m.Floor + 1) as real;
    }
  }

  lemma TrustIsRank(m: Method, n: Method)
    ensures (MoreTrusted(m, n) <==> m.Rank() > n.Rank()) && (m == n <==> m.Rank() == n.Rank())
  {
  }

  lemma BetterOutranks(x: Claim, y: Claim)
    ensures Better(x, y) <==> x.Outranks(y)
  {
    hide Meaning, InMillionths, MoreTrusted;
    TrustIsRank(x.via, y.via);
    forall n ensures InMillionths(Meaning(x.confidence), n) <==> n == x.Millionths()
             ensures InMillionths(Meaning(y.confidence), n) <==> n == y.Millionths()
    {
      MillionthsAre(x, n);
      MillionthsAre(y, n);
    }
    assert InMillionths(Meaning(x.confidence), x.Millionths());
    assert InMillionths(Meaning(y.confidence), y.Millionths());
  }

  // ---------- one key ----------

  /** The 64-bit number nearest to a whole one. */
  predicate Nearest(n: int, m: int) {
    && InI64(m) && (InI64(n) ==> m == n) && (n > I64_MAX ==> m == I64_MAX) && (n < I64_MIN ==> m == I64_MIN)
  }

  /** A number moved by a change, both as near as 64 bits come. */
  ghost predicate MovedBy(n: int, change: int, m: int) { exists d :: Nearest(change, d) && Nearest(n + d, m) }

  ghost predicate MovedAlong(n: int, from: int, to: int, m: int) { MovedBy(n, to - from, m) }

  /** A counter moved by the source's change, and then by the target's. */
  ghost predicate BothAdded(b: int, s: int, t: int, n: int) {
    exists once :: MovedAlong(b, b, s, once) && MovedAlong(once, b, t, n)
  }

  /** What the caller's policy says of a conflict. */
  ghost predicate Asked(c: Conflict, policy: Policy, d: Decision) {
    match policy(c)
    case TakeSource => d == if c.source.Some? then Resolved(c.source.value) else Undecided(c)
    case TakeTarget => d == Nothing
    case Replace(r) => d == Resolved(r)
    case Unresolved => d == Undecided(c)
  }

  /** Both sides changed a claim: of two true at different times the later stays, the source's if they start together;
      of two true at once the better; and where the starts are unknown or neither is better, the policy is asked. */
  ghost predicate ClaimsRight(c: Conflict, s: Claim, t: Claim, policy: Policy, d: Decision) {
    var (x, y) := (s.valid, t.valid);
    && (!x.Overlaps(y) && x.start.Instant? && y.start.Instant? ==>
          d == Write(OfClaim(if x.start.ms < y.start.ms then t else s)))
    && (!x.Overlaps(y) && (x.start.Unknown? || y.start.Unknown?) ==> Asked(c, policy, d))
    && (x.Overlaps(y) && Better(s, t) ==> d == Write(OfClaim(s)))
    && (x.Overlaps(y) && Better(t, s) ==> d == Write(OfClaim(t)))
    && (x.Overlaps(y) && !Better(s, t) && !Better(t, s) ==> Asked(c, policy, d))
  }

  /** All three differ: what to do goes by the kind of record. */
  ghost predicate ApartRight(c: Conflict, policy: Policy, d: Decision) {
    match (c.source, c.target)
    case (Some(OfValue(Counter(s))), Some(OfValue(Counter(t)))) =>
      d.Write? && d.rec.OfValue? && d.rec.value.Counter? && BothAdded(CounterOf(c.base), s, t, d.rec.value.n)
    case (Some(OfValue(Set(s))), Some(OfValue(Set(t)))) =>
      d.Write? && d.rec.OfValue? && d.rec.value.Set? && forall i :: i in d.rec.value.items <==> i in s || i in t
    case (Some(OfClaim(s)), Some(OfClaim(t))) => ClaimsRight(c, s, t, policy, d)
    case _ => Asked(c, policy, d)
  }

  /** What is right to do at a key: nothing where the target alone moved, or both moved alike; the source's record where
      the source alone moved, if it still has one; and by the kind of record where they moved apart. */
  ghost predicate Right(c: Conflict, policy: Policy, d: Decision) {
    && (c.source == c.target || c.source == c.base ==> d == Nothing)
    && (c.source != c.target && c.target == c.base ==>
          d == if c.source.Some? then Write(c.source.value) else Nothing)
    && (c.source != c.target && c.source != c.base && c.target != c.base ==> ApartRight(c, policy, d))
  }

  /** **The merge rules do what is right, and nothing else is right.** */
  lemma DecideIsRight(c: Conflict, policy: Policy, d: Decision)
    ensures Right(c, policy, d) <==> d == Decide(c.key, c.base, c.source, c.target, policy)
  {
    hide Better, Meaning;
    match (c.source, c.target)
    case (Some(OfClaim(s)), Some(OfClaim(t))) =>
      BetterOutranks(s, t);
      BetterOutranks(t, s);
      BetterOne(s, t);
    case (Some(OfValue(Counter(s))), Some(OfValue(Counter(t)))) => AddedOnce(CounterOf(c.base), s, t);
    case (Some(OfValue(Set(s))), Some(OfValue(Set(t)))) =>
      if d.Write? && d.rec.OfValue? && d.rec.value.Set? {
        assert d.rec.value.items == s + t <==> forall i :: i in d.rec.value.items <==> i in s || i in t;
      }
    case _ =>
  }

  lemma BetterOne(x: Claim, y: Claim)
    ensures !(Better(x, y) && Better(y, x))
  {
    BetterOutranks(x, y);
    BetterOutranks(y, x);
  }

  lemma AddedOnce(b: I64, s: I64, t: I64)
    ensures forall n: int :: BothAdded(b, s, t, n) <==> n == MergeCounters(b, s, t)
  {
    forall x: int, change: int, m: int ensures MovedBy(x, change, m) <==> m == Clamp(x + Clamp(change)) {
      if m == Clamp(x + Clamp(change)) { assert Nearest(change, Clamp(change)) && Nearest(x + Clamp(change), m); }
    }
    hide MovedBy;
    assert MovedAlong(b, b, s, Clamp(b + Clamp(s - b)));
  }

  // ---------- a plan ----------

  type Table = map<Key, Record>

  /** What the three sides hold at a key. */
  function Sides(k: Key, b: Table, s: Table, t: Table): Conflict { Conflict(k, Look(b, k), Look(s, k), Look(t, k)) }

  ghost predicate RightAt(k: Key, b: Table, s: Table, t: Table, policy: Policy, d: Decision) {
    Right(Sides(k, b, s, t), policy, d)
  }

  lemma RightAtIs(k: Key, b: Table, s: Table, t: Table, policy: Policy)
    ensures forall d :: RightAt(k, b, s, t, policy, d) <==> d == DecideAt(k, b, s, t, policy)
  {
    hide Decide, Right;
    forall d ensures RightAt(k, b, s, t, policy, d) <==> d == DecideAt(k, b, s, t, policy) {
      DecideIsRight(Sides(k, b, s, t), policy, d);
    }
  }

  /** The typed rules have an answer of their own. */
  ghost predicate Ruled(k: Key, b: Table, s: Table, t: Table, policy: Policy) {
    exists rec :: RightAt(k, b, s, t, policy, Write(rec))
  }

  ghost function RuledKeys(keys: set<Key>, b: Table, s: Table, t: Table, policy: Policy): set<Key> {
    set k | k in keys && Ruled(k, b, s, t, policy)
  }

  /** Written are exactly what is right to write, each key once and in ascending order. */
  ghost predicate WritesRight(p: Plan, keys: set<Key>, b: Table, s: Table, t: Table, policy: Policy) {
    && (forall kv :: kv in p.writes <==>
          && kv.0 in keys
          && (RightAt(kv.0, b, s, t, policy, Write(kv.1)) || RightAt(kv.0, b, s, t, policy, Resolved(kv.1))))
    && (forall i, j | 0 <= i < j < |p.writes| :: Less(p.writes[i].0, p.writes[j].0))
  }

  /** Reported are exactly the undecided keys, with their three records, in ascending order. */
  ghost predicate ReportRight(p: Plan, keys: set<Key>, b: Table, s: Table, t: Table, policy: Policy) {
    && (forall c :: c in p.conflicts <==>
          c.key in keys && c == Sides(c.key, b, s, t) && RightAt(c.key, b, s, t, policy, Undecided(c)))
    && (forall i, j | 0 <= i < j < |p.conflicts| :: Less(p.conflicts[i].key, p.conflicts[j].key))
  }

  /** The right plan for some keys; it also counts what the typed rules decided. */
  ghost predicate PlanRight(p: Plan, keys: set<Key>, b: Table, s: Table, t: Table, policy: Policy) {
    && WritesRight(p, keys, b, s, t, policy) && ReportRight(p, keys, b, s, t, policy)
    && p.automatic == |RuledKeys(keys, b, s, t, policy)|
  }

  /** **A plan is right.** */
  lemma {:induction false} PlanIsRight(keys: seq<Key>, b: Table, s: Table, t: Table, policy: Policy)
    requires Ascending(keys)
    ensures PlanRight(PlanOver(keys, b, s, t, policy), (set k | k in keys), b, s, t, policy)
  {
    hide RightAt, DecideAt, Less, Ruled, Sides;
    if keys == [] {
    } else {
      var (init, k) := (keys[..|keys| - 1], keys[|keys| - 1]);
      assert keys == init + [k];
      PlanIsRight(init, b, s, t, policy);
      LastIsNew(keys, k);
      PlanGrows(PlanOver(init, b, s, t, policy), (set j | j in init), k, b, s, t, policy);
      assert (set j | j in keys) == (set j | j in init) + {k};
    }
  }

  lemma LastIsNew(keys: seq<Key>, k: Key)
    requires Ascending(keys) && keys != [] && k == keys[|keys| - 1]
    ensures var init := keys[..|keys| - 1]; Ascending(init) && k !in init && forall j | j in init :: Less(j, k)
  {
    LessOrder();
  }

  lemma DecidedThere(k: Key, b: Table, s: Table, t: Table, policy: Policy)
    ensures var d := DecideAt(k, b, s, t, policy);
            (d.Undecided? ==> d.conflict == Sides(k, b, s, t)) && (d.Write? <==> Ruled(k, b, s, t, policy))
  {
    RightAtIs(k, b, s, t, policy);
    hide RightAt;
  }

  lemma WritesGrow(p: Plan, keys: set<Key>, k: Key, b: Table, s: Table, t: Table, policy: Policy)
    requires WritesRight(p, keys, b, s, t, policy) && (forall j | j in keys :: Less(j, k)) && k !in keys
    ensures WritesRight(Extend(p, k, DecideAt(k, b, s, t, policy)), keys + {k}, b, s, t, policy)
  {
    RightAtIs(k, b, s, t, policy);
    hide RightAt, DecideAt, Less;
    assert forall i | 0 <= i < |p.writes| :: p.writes[i] in p.writes;
  }

  lemma ReportGrows(p: Plan, keys: set<Key>, k: Key, b: Table, s: Table, t: Table, policy: Policy)
    requires ReportRight(p, keys, b, s, t, policy) && (forall j | j in keys :: Less(j, k)) && k !in keys
    ensures ReportRight(Extend(p, k, DecideAt(k, b, s, t, policy)), keys + {k}, b, s, t, policy)
  {
    RightAtIs(k, b, s, t, policy);
    DecidedThere(k, b, s, t, policy);
    hide RightAt, DecideAt, Less, Sides;
    assert forall i | 0 <= i < |p.conflicts| :: p.conflicts[i] in p.conflicts;
    assert Sides(k, b, s, t).key == k by { SidesKey(k, b, s, t); }
  }

  lemma SidesKey(k: Key, b: Table, s: Table, t: Table)
    ensures Sides(k, b, s, t).key == k
  {
  }

  lemma PlanGrows(p: Plan, keys: set<Key>, k: Key, b: Table, s: Table, t: Table, policy: Policy)
    requires PlanRight(p, keys, b, s, t, policy) && (forall j | j in keys :: Less(j, k)) && k !in keys
    ensures PlanRight(Extend(p, k, DecideAt(k, b, s, t, policy)), keys + {k}, b, s, t, policy)
  {
    WritesGrow(p, keys, k, b, s, t, policy);
    ReportGrows(p, keys, k, b, s, t, policy);
    DecidedThere(k, b, s, t, policy);
    RuledGrow(keys, k, b, s, t, policy);
    hide WritesRight, ReportRight, DecideAt, Ruled, RuledKeys, Less;
  }

  lemma RuledGrow(keys: set<Key>, k: Key, b: Table, s: Table, t: Table, policy: Policy)
    requires k !in keys
    ensures |RuledKeys(keys + {k}, b, s, t, policy)|
            == |RuledKeys(keys, b, s, t, policy)| + if Ruled(k, b, s, t, policy) then 1 else 0
  {
    hide Ruled;
    var before := RuledKeys(keys, b, s, t, policy);
    assert RuledKeys(keys + {k}, b, s, t, policy) == before + if Ruled(k, b, s, t, policy) then {k} else {};
  }
}
