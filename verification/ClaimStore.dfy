/** Claim histories in the tree: appending a version under the reserved prefix. */
module ClaimStore {
  import opened Bytes
  import opened Time
  import opened Records
  import opened SortedEntries
  import opened BTree
  import opened Keyspace
  import opened ClaimHistory
  import opened Listings

  /** How versions and names become bytes. */
  datatype Codec = Codec(encode: Version -> Key, decode: Key -> Option<Version>, utf8: string -> Key)

  ghost predicate Faithful(c: Codec) { forall v :: c.decode(c.encode(v)) == Some(v) }

  function Prefix(c: Codec, claim: Claim): Key { HistoryPrefix(c.utf8(claim.subject), c.utf8(claim.predicateName)) }

  function VersionIn(c: Codec, pre: Key, k: Key, rec: Record): Option<Version> {
    if StartsWith(k, pre) && rec.OfValue? && rec.value.Blob? then c.decode(rec.value.bytes) else None
  }

  function Stored(c: Codec, v: Version): Record { OfValue(Blob(c.encode(v))) }

  /** What closing makes of one record. */
  function ClosedRecord(c: Codec, pre: Key, now: MaybeTime, k: Key, rec: Record): Record {
    match VersionIn(c, pre, k, rec)
    case Some(v) => if IsOpen(v) then Stored(c, Close(v, now)) else rec
    case None => rec
  }

  // ---------- appending ----------

  function NextIn(c: Codec, pre: Key, all: seq<Entry>): nat {
    if all == [] then 0
    else
      var n := NextIn(c, pre, all[..|all| - 1]);
      var e := all[|all| - 1];
      match VersionIn(c, pre, e.key, e.rec)
      case Some(v) => if v.seqNo >= n then v.seqNo + 1 else n
      case None => n
  }

  function OpenIn(c: Codec, pre: Key, all: seq<Entry>): seq<(Key, Version)> {
    if all == [] then []
    else
      var e := all[|all| - 1];
      match VersionIn(c, pre, e.key, e.rec)
      case Some(v) => OpenIn(c, pre, all[..|all| - 1]) + if IsOpen(v) then [(e.key, v)] else []
      case None => OpenIn(c, pre, all[..|all| - 1])
  }

  function ClosedAll(c: Codec, now: MaybeTime, m: Table, open: seq<(Key, Version)>): Table {
    if open == [] then m
    else
      var (k, v) := open[|open| - 1];
      ClosedAll(c, now, m, open[..|open| - 1])[k := Stored(c, Close(v, now))]
  }

  /** The table after a claim is asserted: every open version under its prefix closed, and one more at the number after
      the highest in use. */
  ghost function Appended(c: Codec, m: Table, claim: Claim): Table {
    var pre := Prefix(c, claim);
    var n := NextIn(c, pre, Listing(m));
    (map k | k in m :: ClosedRecord(c, pre, claim.known.start, k, m[k]))
    [HistoryKey(c.utf8(claim.subject), c.utf8(claim.predicateName), n) := Stored(c, Version(claim, n))]
  }

  ghost predicate HasSeq(c: Codec, m: Table, pre: Key, n: nat) {
    exists k :: k in m && VersionIn(c, pre, k, m[k]).Some? && VersionIn(c, pre, k, m[k]).value.seqNo == n
  }

  lemma {:induction false} NextInIs(c: Codec, pre: Key, all: seq<Entry>, m: Table)
    requires Lists(all, m)
    ensures var n := NextIn(c, pre, all);
            && (forall i | 0 <= i < |all| && VersionIn(c, pre, all[i].key, all[i].rec).Some? ::
                  VersionIn(c, pre, all[i].key, all[i].rec).value.seqNo < n)
            && (n > 0 ==> HasSeq(c, m, pre, n - 1))
  {
    if all != [] { NextInIs(c, pre, all[..|all| - 1], m); }
  }

  /** The number is past every one in use, and follows the highest. */
  lemma NextIs(c: Codec, m: Table, pre: Key)
    ensures var n := NextIn(c, pre, Listing(m));
            (forall i: nat | HasSeq(c, m, pre, i) :: i < n) && (n > 0 ==> HasSeq(c, m, pre, n - 1))
  {
    ListingLists(m);
    NextInIs(c, pre, Listing(m), m);
    forall i: nat | HasSeq(c, m, pre, i) ensures i < NextIn(c, pre, Listing(m)) {
      var k :| k in m && VersionIn(c, pre, k, m[k]).Some? && VersionIn(c, pre, k, m[k]).value.seqNo == i;
      var j :| 0 <= j < |Listing(m)| && Listing(m)[j].key == k;
    }
  }

  /** The table with the open versions among these entries closed. */
  function ClosedWhere(c: Codec, pre: Key, now: MaybeTime, all: seq<Entry>, m: Table): Table {
    map k | k in m :: if Named(all, k) then ClosedRecord(c, pre, now, k, m[k]) else m[k]
  }

  /** Closing what the scan found open closes every open version. */
  lemma {:induction false} ClosedAllIs(c: Codec, pre: Key, now: MaybeTime, all: seq<Entry>, m: Table)
    requires Lists(all, m)
    ensures ClosedAll(c, now, m, OpenIn(c, pre, all)) == ClosedWhere(c, pre, now, all, m)
  {
    if all != [] {
      var (init, e) := (all[..|all| - 1], all[|all| - 1]);
      ClosedAllIs(c, pre, now, init, m);
      NamedMore(all);
      assert !Named(init, e.key) && m[e.key] == e.rec;
      ClosedMore(c, pre, now, all, m);
      hide ClosedRecord, OpenIn, ClosedAll, Named;
    }
  }

  /** One more entry scanned: one more record closed, if it is an open version. */
  lemma ClosedMore(c: Codec, pre: Key, now: MaybeTime, all: seq<Entry>, m: Table)
    requires all != []
    ensures var (before, e) := (ClosedAll(c, now, m, OpenIn(c, pre, all[..|all| - 1])), all[|all| - 1]);
            e.key in before && before[e.key] == e.rec ==>
              ClosedAll(c, now, m, OpenIn(c, pre, all)) == before[e.key := ClosedRecord(c, pre, now, e.key, e.rec)]
  {
    hide VersionIn, Stored;
    var (init, e) := (all[..|all| - 1], all[|all| - 1]);
    var open := OpenIn(c, pre, all);
    var v := VersionIn(c, pre, e.key, e.rec);
    if v.Some? && IsOpen(v.value) {
      assert open[..|open| - 1] == OpenIn(c, pre, init);
    } else {
      assert open == OpenIn(c, pre, init);
      var before := ClosedAll(c, now, m, open);
      if e.key in before && before[e.key] == e.rec { assert before == before[e.key := e.rec]; }
    }
  }

  /** Close what is open and append the new version, in the tree. */
  method Append(tree: BTree.Tree, c: Codec, claim: Claim)
    requires tree.Valid()
    modifies tree
    ensures tree.Valid() && tree.Model() == Appended(c, old(tree.Model()), claim)
  {
    hide Represents, SizesOk, ToMap, Sorted, VersionIn, Listing, HistoryKey, HistoryPrefix, ClosedWhere, ClosedRecord,
         Close, Stored;
    var pre := Prefix(c, claim);
    ghost var m := tree.Model();
    var all := tree.Scan();
    ListingIs(all);
    MapListed(all);
    var next, open := ScanVersions(c, pre, all);
    var now := claim.known.start;
    for j := 0 to |open|
      invariant tree.Valid() && tree.Model() == ClosedAll(c, now, m, open[..j])
    {
      assert open[..j + 1][..j] == open[..j];
      tree.Insert(open[j].0, Stored(c, Close(open[j].1, now)));
    }
    assert open[..|open|] == open;
    ClosedAllIs(c, pre, now, all, m);
    AllClosed(c, pre, now, all, m);
    tree.Insert(HistoryKey(c.utf8(claim.subject), c.utf8(claim.predicateName), next), Stored(c, Version(claim, next)));
  }

  /** The next number, and the versions still open, with their keys. */
  method ScanVersions(c: Codec, pre: Key, all: seq<Entry>) returns (next: nat, open: seq<(Key, Version)>)
    ensures next == NextIn(c, pre, all) && open == OpenIn(c, pre, all)
  {
    hide VersionIn;
    next, open := 0, [];
    for i := 0 to |all|
      invariant next == NextIn(c, pre, all[..i]) && open == OpenIn(c, pre, all[..i])
    {
      assert all[..i + 1][..i] == all[..i];
      var v := VersionIn(c, pre, all[i].key, all[i].rec);
      if v.Some? {
        if v.value.seqNo >= next { next := v.value.seqNo + 1; }
        if IsOpen(v.value) { open := open + [(all[i].key, v.value)]; }
      }
    }
    assert all[..|all|] == all;
  }

  lemma AllClosed(c: Codec, pre: Key, now: MaybeTime, all: seq<Entry>, m: Table)
    requires forall k | k in m :: Named(all, k)
    ensures ClosedWhere(c, pre, now, all, m) == map k | k in m :: ClosedRecord(c, pre, now, k, m[k])
  {
    hide ClosedRecord, Named;
  }

  // ---------- histories in the table ----------

  /** The table holds exactly these versions of a claim, each at its own number. */
  ghost predicate Holds(c: Codec, m: Table, subject: Key, predicateName: Key, vs: seq<Version>) {
    && |vs| <= MAX_SEQ
    && (forall i: nat | i < |vs| :: HistoryKey(subject, predicateName, i) in m && vs[i].seqNo == i
                               && m[HistoryKey(subject, predicateName, i)] == Stored(c, vs[i]))
    && (forall k | k in m && StartsWith(k, HistoryPrefix(subject, predicateName)) ::
          exists i: nat :: i < |vs| && k == HistoryKey(subject, predicateName, i))
  }

  lemma HistoryKeysApart(s: Key, p: Key, i: nat, j: nat)
    requires i < MAX_SEQ && j < MAX_SEQ && HistoryKey(s, p, i) == HistoryKey(s, p, j)
    ensures i == j
  {
    ConcatInjective(HistoryPrefix(s, p), ToBe(i, 8), ToBe(j, 8));
    WordsApart(i, j);
  }

  lemma WordsApart(i: nat, j: nat)
    requires i < MAX_SEQ && j < MAX_SEQ && ToBe(i, 8) == ToBe(j, 8)
    ensures i == j
  {
    MaxSeq();
    BeOrder(i, j, 8);
  }

  lemma VersionAt(c: Codec, s: Key, p: Key, n: nat, v: Version)
    requires Faithful(c)
    ensures VersionIn(c, HistoryPrefix(s, p), HistoryKey(s, p, n), Stored(c, v)) == Some(v)
  {
    assert HistoryKey(s, p, n)[..|HistoryPrefix(s, p)|] == HistoryPrefix(s, p);
    assert c.decode(c.encode(v)) == Some(v);
  }

  lemma NextIsLength(c: Codec, m: Table, s: Key, p: Key, vs: seq<Version>)
    requires Faithful(c) && Holds(c, m, s, p, vs)
    ensures NextIn(c, HistoryPrefix(s, p), Listing(m)) == |vs|
  {
    var pre := HistoryPrefix(s, p);
    NextIs(c, m, pre);
    var n := NextIn(c, pre, Listing(m));
    if |vs| > 0 {
      var last := |vs| - 1;
      VersionAt(c, s, p, last, vs[last]);
      assert HistoryKey(s, p, last) in m && HasSeq(c, m, pre, last);
    }
    if n > 0 {
      var k :| k in m && VersionIn(c, pre, k, m[k]).Some? && VersionIn(c, pre, k, m[k]).value.seqNo == n - 1;
      var i: nat :| i < |vs| && k == HistoryKey(s, p, i);
      VersionAt(c, s, p, i, vs[i]);
    }
  }

  /** Asserting a claim in the table asserts it in its history. */
  lemma AppendAsserts(c: Codec, m: Table, claim: Claim, vs: seq<Version>)
    requires Faithful(c)
    requires Holds(c, m, c.utf8(claim.subject), c.utf8(claim.predicateName), vs) && |vs| < MAX_SEQ
    ensures Holds(c, Appended(c, m, claim), c.utf8(claim.subject), c.utf8(claim.predicateName), Asserting(vs, claim))
  {
    var (s, p, m') := (c.utf8(claim.subject), c.utf8(claim.predicateName), Appended(c, m, claim));
    var pre := Prefix(c, claim);
    var n := |vs|;
    NextIsLength(c, m, s, p, vs);
    hide Listing, NextIn;
    var after := Asserting(vs, claim);
    forall i: nat | i < |after|
      ensures HistoryKey(s, p, i) in m' && after[i].seqNo == i && m'[HistoryKey(s, p, i)] == Stored(c, after[i])
    {
      if i < |vs| {
        VersionAt(c, s, p, i, vs[i]);
        if HistoryKey(s, p, i) == HistoryKey(s, p, n) { HistoryKeysApart(s, p, i, n); }
      }
    }
    forall k | k in m' && StartsWith(k, pre) ensures exists i: nat :: i < |after| && k == HistoryKey(s, p, i) {
      if k in m {
        var i: nat :| i < |vs| && k == HistoryKey(s, p, i);
        assert i < |after|;
      } else {
        assert n < |after|;
      }
    }
  }

  /** It leaves every record of another kind, and every history of another NUL-free name, untouched. */
  lemma AppendElsewhere(c: Codec, m: Table, claim: Claim, k: Key)
    requires !StartsWith(k, Prefix(c, claim))
    ensures var m' := Appended(c, m, claim); (k in m' <==> k in m) && (k in m ==> m'[k] == m[k])
  {
    var pre := Prefix(c, claim);
    var n := NextIn(c, pre, Listing(m));
    assert HistoryKey(c.utf8(claim.subject), c.utf8(claim.predicateName), n)[..|pre|] == pre;
  }

  lemma OtherHistoryKept(c: Codec, m: Table, claim: Claim, s: Key, p: Key, vs: seq<Version>)
    requires Holds(c, m, s, p, vs)
    requires NulFree(s) && NulFree(p) && NulFree(c.utf8(claim.subject)) && NulFree(c.utf8(claim.predicateName))
    requires s != c.utf8(claim.subject) || p != c.utf8(claim.predicateName)
    ensures Holds(c, Appended(c, m, claim), s, p, vs)
  {
    var (s', p', m') := (c.utf8(claim.subject), c.utf8(claim.predicateName), Appended(c, m, claim));
    hide NulFree, NextIn, Listing;
    forall i: nat | i < |vs| ensures HistoryKey(s, p, i) in m' && m'[HistoryKey(s, p, i)] == m[HistoryKey(s, p, i)] {
      HistoriesApart(s', p', s, p, i);
      AppendElsewhere(c, m, claim, HistoryKey(s, p, i));
    }
    forall k | k in m' && StartsWith(k, HistoryPrefix(s, p)) ensures k in m {
      if k !in m { HistoriesApart(s, p, s', p', NextIn(c, Prefix(c, claim), Listing(m))); }
    }
  }

  // ---------- runs ----------

  /** Tables from one assertion to the next. */
  ghost predicate Asserts(c: Codec, tables: seq<Table>, claims: seq<Claim>) {
    |tables| == |claims| + 1 && forall i | 0 <= i < |claims| :: tables[i + 1] == Appended(c, tables[i], claims[i])
  }

  /** The claims of one subject and predicate, in order. */
  function About(c: Codec, claims: seq<Claim>, s: Key, p: Key): seq<Claim> {
    if claims == [] then []
    else
      var last := claims[|claims| - 1];
      About(c, claims[..|claims| - 1], s, p) 
      + if c.utf8(last.subject) == s && c.utf8(last.predicateName) == p then [last] else []
  }

  ghost predicate NulFreeNames(c: Codec, claims: seq<Claim>) {
    forall i | 0 <= i < |claims| :: NulFree(c.utf8(claims[i].subject)) && NulFree(c.utf8(claims[i].predicateName))
  }

  /** **Whatever assertions of whatever NUL-free names are interleaved**, each history holds exactly the versions of its
      own assertions, 0 to n - 1, tiling time as ClaimHistory says. */
  lemma {:induction false} RunHolds(c: Codec, tables: seq<Table>, claims: seq<Claim>, s: Key, p: Key)
    requires Faithful(c) && Asserts(c, tables, claims) && |claims| < MAX_SEQ
    requires NulFree(s) && NulFree(p) && NulFreeNames(c, claims) && Holds(c, tables[0], s, p, [])
    ensures Holds(c, tables[|claims|], s, p, Versions(About(c, claims, s, p)))
    ensures |Versions(About(c, claims, s, p))| == |About(c, claims, s, p)| <= |claims|
  {
    hide Holds, Appended, Faithful, NulFree;
    if claims != [] {
      var n := |claims| - 1;
      RunHolds(c, tables[..n + 1], claims[..n], s, p);
      assert tables[n + 1] == Appended(c, tables[n], claims[n]);
      var vs := Versions(About(c, claims[..n], s, p));
      if c.utf8(claims[n].subject) == s && c.utf8(claims[n].predicateName) == p {
        AppendAsserts(c, tables[n], claims[n], vs);
        var about := About(c, claims, s, p);
        assert about[..|about| - 1] == About(c, claims[..n], s, p);
      } else {
        OtherHistoryKept(c, tables[n], claims[n], s, p, vs);
        assert About(c, claims, s, p) == About(c, claims[..n], s, p);
      }
    }
  }
}
