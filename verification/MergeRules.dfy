/** The record-level merge decision: who moved, the typed rules, then the caller's policy. */
module MergeRules {
  import opened Bytes
  import opened Records

  datatype Resolution = TakeSource | TakeTarget | Replace(rec: Record) | Unresolved

  datatype Conflict = Conflict(key: Key, base: Option<Record>, source: Option<Record>, target: Option<Record>)

  /** What the caller wants done when the typed rules cannot decide: any function of the conflict. */
  type Policy = Conflict -> Resolution

  const REPORT: Policy := c => Unresolved

  datatype Decision = Nothing | Write(rec: Record) | Resolved(rec: Record) | Undecided(conflict: Conflict)

  function Clamp(n: int): I64 { if n < I64_MIN then I64_MIN else if n > I64_MAX then I64_MAX else n }

  function MergeCounters(b: I64, s: I64, t: I64): I64 { Clamp(Clamp(b + Clamp(s - b)) + Clamp(t - b)) }

  function CounterOf(r: Option<Record>): I64 {
    if r.Some? && r.value.OfValue? && r.value.value.Counter? then r.value.value.n else 0
  }

  function MergeClaims(s: Claim, t: Claim): Option<Claim> {
    if !s.valid.Overlaps(t.valid) then
      if s.valid.start.Instant? && t.valid.start.Instant? then
        Some(if s.valid.start.ms >= t.valid.start.ms then s else t)
      else None
    else if s.Outranks(t) then Some(s)
    else if t.Outranks(s) then Some(t)
    else None
  }

  function MergeTyped(base: Option<Record>, s: Record, t: Record): Option<Record> {
    match (s, t)
    case (OfValue(Counter(n)), OfValue(Counter(m))) => Some(OfValue(Counter(MergeCounters(CounterOf(base), n, m))))
    case (OfValue(Set(x)), OfValue(Set(y))) => Some(OfValue(Set(x + y)))
    case (OfClaim(x), OfClaim(y)) =>
      var w := MergeClaims(x, y);
      if w.Some? then Some(OfClaim(w.value)) else None
    case _ => None
  }

  function Decide(key: Key, base: Option<Record>, source: Option<Record>, target: Option<Record>,
                  policy: Policy): Decision {
    if source == target then Nothing
    else if source == base then Nothing
    else if target == base then
      if source.Some? then Write(source.value) else Nothing
    else
      var typed := if source.Some? && target.Some? then MergeTyped(base, source.value, target.value) else None;
      if typed.Some? then Write(typed.value)
      else
        var c := Conflict(key, base, source, target);
        match policy(c)
        case TakeSource => if source.Some? then Resolved(source.value) else Undecided(c)
        case TakeTarget => Nothing
        case Replace(r) => Resolved(r)
        case Unresolved => Undecided(c)
  }

  /** What the target holds once a decision is applied. */
  function After(d: Decision, target: Option<Record>): Option<Record> {
    match d
    case Write(r) => Some(r)
    case Resolved(r) => Some(r)
    case _ => target
  }

  // ---------- counters ----------

  predicate InI64(n: int) { I64_MIN <= n <= I64_MAX }

  predicate CounterOrAbsent(r: Option<Record>) { r.Some? ==> r.value.OfValue? && r.value.value.Counter? }

  /** Saturation never cancels out: the merged counter is exact just when no step overflows. */
  lemma MergeCountersExact(b: I64, s: I64, t: I64)
    ensures MergeCounters(b, s, t) == s + t - b <==> InI64(s - b) && InI64(t - b) && InI64(s + t - b)
  {
  }

  /** When a merge of counters adds up: the source did not move, or the target did not, or they moved apart without a
      step leaving 64 bits. Two sides that moved to the same record are taken to agree. */
  predicate Additive(base: Option<Record>, source: Option<Record>, target: Option<Record>) {
    var b: int, s: int, t: int := CounterOf(base), CounterOf(source), CounterOf(target);
    || source == base
    || (target == base && source != target)
    || (source == target && s == b)
    || (source != target && InI64(s - b) && InI64(t - b) && InI64(s + t - b))
  }

  /** A merge adds the source's change to the target's counter exactly when it is additive. */
  lemma CounterMergeExact(key: Key, base: Option<Record>, source: Option<Record>, target: Option<Record>,
                          policy: Policy)
    requires CounterOrAbsent(base) && CounterOrAbsent(source) && CounterOrAbsent(target)
    requires source.Some? || base.None?
    requires target.Some? || base.None?
    ensures var b: int, s: int, t: int := CounterOf(base), CounterOf(source), CounterOf(target);
            var after := After(Decide(key, base, source, target, policy), target);
            && CounterOrAbsent(after)
            && (CounterOf(after) == t + (s - b) <==> Additive(base, source, target))
  {
    MergeCountersExact(CounterOf(base), CounterOf(source), CounterOf(target));
  }

  /** Two branches that both move a counter from 10 to 13 merge to 13, not 16. */
  lemma ConvergentIncrementsCountOnce(key: Key, policy: Policy)
    ensures var c := (n: I64) => Some(OfValue(Counter(n)));
            After(Decide(key, c(10), c(13), c(13), policy), c(13)) == c(13)
  {
  }

  // ---------- deletions ----------

  /** A deletion on the source is never carried over, whatever the policy answers: a key the target holds is still held
      after the merge. */
  lemma TargetKeyKept(key: Key, base: Option<Record>, source: Option<Record>, target: Option<Record>, policy: Policy)
    requires target.Some?
    ensures After(Decide(key, base, source, target, policy), target).Some?
  {
  }

  // ---------- direction ----------

  /** Claims merge the same way from either side, except two non-overlapping windows that start together:
      then each direction keeps its own source. */
  lemma MergeClaimsSymmetric(s: Claim, t: Claim)
    ensures MergeClaims(s, t) == MergeClaims(t, s) <==>
              s == t || s.valid.Overlaps(t.valid) || s.valid.start != t.valid.start || s.valid.start.Unknown?
  {
  }

  /** Whether a key conflicts does not depend on which branch is merged into which. */
  lemma ConflictSymmetric(key: Key, base: Option<Record>, a: Option<Record>, b: Option<Record>)
    ensures Decide(key, base, a, b, REPORT).Undecided? <==> Decide(key, base, b, a, REPORT).Undecided?
  {
  }

  /** With one value ever written at a key, a merge neither conflicts nor asks the policy: it carries the
      record over or leaves the target alone. */
  lemma SingleValueNeverConflicts(key: Key, v: Record, base: Option<Record>, source: Option<Record>,
                                  target: Option<Record>,
                                  p: Policy, q: Policy)
    requires forall r | r in [base, source, target] && r.Some? :: r.value == v
    ensures var d := Decide(key, base, source, target, p);
            && d == Decide(key, base, source, target, q)
            && d in {Nothing, Write(v)}
            && After(d, target) == (if source.Some? && base.None? then Some(v) else target)
  {
    assert base in [base, source, target] && source in [base, source, target] && target in [base, source, target];
  }
}
