/** The versions of a claim: what an assertion does to a history, and how the known intervals tile time. */
module ClaimHistory {
  import opened Time
  import opened Records

  datatype Version = Version(claim: Claim, seqNo: nat)

  predicate IsOpen(v: Version) { v.claim.known.end.Unknown? }

  /** Close a superseded version where the new belief begins, if that is known. */
  function Close(v: Version, now: MaybeTime): Version {
    var known := if now.Instant? then v.claim.known.ClosedAt(now.ms) else v.claim.known;
    v.(claim := v.claim.(known := known, status := ClaimStatus.Superseded))
  }

  function CloseOpen(v: Version, now: MaybeTime): Version { if IsOpen(v) then Close(v, now) else v }

  /** Assert a claim: whatever is open closes, and the new version follows. */
  function Asserting(vs: seq<Version>, claim: Claim): seq<Version> {
    seq(|vs|, i requires 0 <= i < |vs| => CloseOpen(vs[i], claim.known.start)) + [Version(claim, |vs|)]
  }

  /** The history a run of assertions leaves. */
  function Versions(claims: seq<Claim>): seq<Version> {
    if claims == [] then [] else Asserting(Versions(claims[..|claims| - 1]), claims[|claims| - 1])
  }

  // ---------- one step ----------

  ghost predicate OnlyLastOpen(vs: seq<Version>) { forall i | 0 <= i < |vs| :: IsOpen(vs[i]) <==> i == |vs| - 1 }

  /** An open assertion leaves exactly one open version exactly when it says since when it is known, or nothing was
      open. */
  lemma OneOpenIff(vs: seq<Version>, claim: Claim)
    requires claim.known.end.Unknown?
    ensures OnlyLastOpen(Asserting(vs, claim)) <==> claim.known.start.Instant? || forall i | 0 <= i < |vs| ::
              !IsOpen(vs[i])
  {
    var after := Asserting(vs, claim);
    if i :| 0 <= i < |vs| && IsOpen(vs[i]) && claim.known.start.Unknown? {
      assert IsOpen(after[i]);
    }
  }

  // ---------- any run ----------

  /** The first start some claims give. */
  function FirstStart(claims: seq<Claim>): MaybeTime {
    if claims == [] then Unknown
    else if claims[0].known.start.Instant? then claims[0].known.start
    else FirstStart(claims[1..])
  }

  /** What becomes of claim i of a run: its version has number i; if it was asserted open and another followed, it is
      superseded and known up to the first start a later one gives; and nothing else of it ever changes. */
  ghost predicate Kept(claims: seq<Claim>, i: nat, v: Version)
    requires i < |claims|
  {
    var (c, later) := (claims[i], claims[i + 1..]);
    && v.seqNo == i
    && v.claim == c.(known := Interval(c.known.start, v.claim.known.end), status := v.claim.status)
    && (c.known.end.Instant? || later == [] ==> v.claim.known.end == c.known.end && v.claim.status == c.status)
    && (c.known.end.Unknown? && later != [] ==>
          v.claim.known.end == FirstStart(later) && v.claim.status == ClaimStatus.Superseded)
  }

  lemma {:induction false} FirstStartMore(claims: seq<Claim>, c: Claim)
    ensures FirstStart(claims + [c])
            == if FirstStart(claims).Instant? then FirstStart(claims) else FirstStart([c])
  {
    if claims == [] {
      assert claims + [c] == [c];
    } else {
      assert (claims + [c])[1..] == claims[1..] + [c];
      FirstStartMore(claims[1..], c);
    }
  }

  /** The history of any run of assertions: one version each, in order, as it should be. */
  lemma {:induction false} VersionsAre(claims: seq<Claim>)
    ensures |Versions(claims)| == |claims| && forall i | 0 <= i < |claims| :: Kept(claims, i, Versions(claims)[i])
  {
    if claims != [] {
      var (init, last) := (claims[..|claims| - 1], claims[|claims| - 1]);
      VersionsAre(init);
      forall i | 0 <= i < |claims| ensures Kept(claims, i, Versions(claims)[i]) {
        if i < |init| {
          assert Kept(init, i, Versions(init)[i]);
          assert claims[i + 1..] == init[i + 1..] + [last];
          FirstStartMore(init[i + 1..], last);
          assert [last][1..] == [];
        }
      }
    }
  }

  // ---------- runs ----------

  /** Known since some instant, until further notice. */
  predicate Asserted(c: Claim) { c.known.start.Instant? && c.known.end.Unknown? }

  predicate AllAsserted(claims: seq<Claim>) { forall i | 0 <= i < |claims| :: Asserted(claims[i]) }

  /** Version i of a run: known from its own start up to the next one's, superseded unless it is the last. */
  function VersionOf(claims: seq<Claim>, i: nat): Version
    requires i < |claims| && AllAsserted(claims)
  {
    if i == |claims| - 1 then Version(claims[i], i)
    else
      var known := Interval(claims[i].known.start, Instant(claims[i + 1].known.start.ms));
      Version(claims[i].(known := known, status := ClaimStatus.Superseded), i)
  }

  /** The versions are numbered from 0 in order, nothing of a claim but its known end and status ever changes, and only
      the last is open. */
  lemma {:induction false} HistoryIs(claims: seq<Claim>)
    requires AllAsserted(claims)
    ensures |Versions(claims)| == |claims| && OnlyLastOpen(Versions(claims))
    ensures forall i | 0 <= i < |claims| :: Versions(claims)[i] == VersionOf(claims, i)
  {
    if claims != [] {
      var init := claims[..|claims| - 1];
      HistoryIs(init);
      forall i | 0 <= i < |claims| ensures Versions(claims)[i] == VersionOf(claims, i) {
        if i < |init| { assert Versions(init)[i] == VersionOf(init, i); }
      }
    }
  }

  function Start(claims: seq<Claim>, i: nat): nat
    requires i < |claims| && AllAsserted(claims)
  {
    claims[i].known.start.ms
  }

  ghost predicate KnownAt(claims: seq<Claim>, i: nat, at: nat)
    requires i < |claims|
  {
    |Versions(claims)| > i && Versions(claims)[i].claim.known.Contains(at)
  }

  lemma KnownAtIs(claims: seq<Claim>, i: nat, at: nat)
    requires i < |claims| && AllAsserted(claims)
    ensures KnownAt(claims, i, at) <==> Start(claims, i) <= at && (i + 1 < |claims| ==> at < Start(claims, i + 1))
  {
    HistoryIs(claims);
    assert Versions(claims)[i] == VersionOf(claims, i);
  }

  /** From a version that had started by an instant on, one up to n is known then, unless the nth starts later. */
  lemma {:induction false} SomeKnown(claims: seq<Claim>, i: nat, n: nat, at: nat) returns (k: nat)
    requires i < n <= |claims| && AllAsserted(claims) && Start(claims, i) <= at
    requires n < |claims| ==> at < Start(claims, n)
    ensures i <= k < n && KnownAt(claims, k, at)
    decreases n - i
  {
    KnownAtIs(claims, i, at);
    if KnownAt(claims, i, at) { k := i; } else { k := SomeKnown(claims, i + 1, n, at); }
  }

  /** Between a start after an instant and a later start up to it, some start drops from after to up to it. */
  lemma {:induction false} SomeDrop(claims: seq<Claim>, i: nat, j: nat, at: nat) returns (k: nat)
    requires i < j < |claims| && AllAsserted(claims) && at < Start(claims, i) && Start(claims, j) <= at
    ensures i <= k < j && Start(claims, k + 1) <= at < Start(claims, k)
    decreases j - i
  {
    if Start(claims, i + 1) <= at { k := i; } else { k := SomeDrop(claims, i + 1, j, at); }
  }

  ghost predicate KnownOnce(claims: seq<Claim>, at: nat) {
    exists i: nat :: i < |claims| && KnownAt(claims, i, at)
                && forall j: nat | j < |claims| && KnownAt(claims, j, at) :: j == i
  }

  /** Starts never go back, but from at or before the first. */
  predicate Tiles(claims: seq<Claim>)
    requires AllAsserted(claims)
  {
    forall i | 0 <= i < |claims| - 1 :: Start(claims, i) <= Start(claims, i + 1) || Start(claims, i) <= Start(claims, 0)
  }

  lemma TilesOnce(claims: seq<Claim>, at: nat)
    requires AllAsserted(claims) && claims != [] && Tiles(claims) && Start(claims, 0) <= at
    ensures KnownOnce(claims, at)
  {
    var k := SomeKnown(claims, 0, |claims|, at);
    forall j: nat | j < |claims| && KnownAt(claims, j, at) ensures j == k {
      KnownAtIs(claims, j, at);
      KnownAtIs(claims, k, at);
      if j < k { var d := SomeDrop(claims, j + 1, k, at); }
      else if k < j { var d := SomeDrop(claims, k + 1, j, at); }
    }
  }

  /** Every instant from the first start on lies in exactly one known interval exactly when no start goes back from
      beyond the first; so always when the starts do not decrease. */
  lemma PartitionIff(claims: seq<Claim>)
    requires AllAsserted(claims) && claims != []
    ensures (forall at: nat | Start(claims, 0) <= at :: KnownOnce(claims, at)) <==> Tiles(claims)
  {
    if Tiles(claims) {
      forall at: nat | Start(claims, 0) <= at ensures KnownOnce(claims, at) { TilesOnce(claims, at); }
    } else {
      var i: nat :| i < |claims| - 1 && Start(claims, i) > Start(claims, i + 1) && Start(claims, i) > Start(claims, 0);
      var at := if Start(claims, i + 1) < Start(claims, 0) then Start(claims, 0) else Start(claims, i + 1);
      var k := SomeKnown(claims, 0, i, at);
      var j := SomeKnown(claims, i + 1, |claims|, at);
      assert !KnownOnce(claims, at);
    }
  }

  /** Before the first start nothing was known, when the starts do not decrease. */
  lemma {:induction false} NothingBefore(claims: seq<Claim>, i: nat, at: nat)
    requires AllAsserted(claims) && i < |claims| && at < Start(claims, 0)
    requires forall j | 0 <= j < |claims| - 1 :: Start(claims, j) <= Start(claims, j + 1)
    ensures !KnownAt(claims, i, at)
  {
    KnownAtIs(claims, i, at);
    if Start(claims, i) <= at && i > 0 { var d := SomeDrop(claims, 0, i, at); }
  }
}
