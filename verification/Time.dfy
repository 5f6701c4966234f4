/** Half-open intervals whose bounds may be unknown. */
module Time {
  datatype MaybeTime = Unknown | Instant(ms: nat)

  datatype Interval = Interval(start: MaybeTime, end: MaybeTime) {
    predicate Contains(at: nat) {
      && (start.Instant? ==> at >= start.ms)
      && (end.Instant? ==> at < end.ms)
    }

    predicate Overlaps(other: Interval) {
      && (start.Instant? && other.end.Instant? ==> start.ms < other.end.ms)
      && (other.start.Instant? && end.Instant? ==> other.start.ms < end.ms)
    }

    function ClosedAt(end': nat): Interval { Interval(start, Instant(end')) }
  }

  function Earliest(i: Interval): nat { if i.start.Instant? then i.start.ms else 0 }

  predicate Inhabited(i: Interval) { i.end.Instant? ==> Earliest(i) < i.end.ms }

  /** Two inhabited intervals overlap exactly when some instant lies in both. */
  lemma OverlapsIffShared(a: Interval, b: Interval)
    requires Inhabited(a) && Inhabited(b)
    ensures a.Overlaps(b) <==> exists at :: a.Contains(at) && b.Contains(at)
  {
    if a.Overlaps(b) {
      var at := if Earliest(a) > Earliest(b) then Earliest(a) else Earliest(b);
      assert a.Contains(at) && b.Contains(at);
    }
  }
}
