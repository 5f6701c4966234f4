/** Strictly ascending runs of entries: what a leaf holds and what a scan returns. */
module SortedEntries {
  import opened Bytes
  import opened Records

  datatype Entry = Entry(key: Key, rec: Record)

  ghost predicate Sorted(s: seq<Entry>) {
    forall i, j | 0 <= i < j < |s| :: Less(s[i].key, s[j].key)
  }

  ghost predicate AllBelow(s: seq<Entry>, k: Key) { forall i | 0 <= i < |s| :: Less(s[i].key, k) }

  ghost predicate AllAbove(s: seq<Entry>, k: Key) { forall i | 0 <= i < |s| :: Less(k, s[i].key) }

  // ---------- the simple forms, one entry at a time ----------

  function Get(s: seq<Entry>, k: Key): Option<Record> {
    if s == [] || Less(k, s[0].key) then None
    else if s[0].key == k then Some(s[0].rec)
    else Get(s[1..], k)
  }

  function Put(s: seq<Entry>, k: Key, r: Record): seq<Entry> {
    if s == [] || Less(k, s[0].key) then [Entry(k, r)] + s
    else if s[0].key == k then [Entry(k, r)] + s[1..]
    else [s[0]] + Put(s[1..], k, r)
  }

  function Drop(s: seq<Entry>, k: Key): seq<Entry> {
    if s == [] || Less(k, s[0].key) then s
    else if s[0].key == k then s[1..]
    else [s[0]] + Drop(s[1..], k)
  }

  /** The map a run stands for. */
  function ToMap(s: seq<Entry>): map<Key, Record> {
    if s == [] then map[] else ToMap(s[1..])[s[0].key := s[0].rec]
  }

  // ---------- what they mean ----------

  lemma Cons(x: Entry, s: seq<Entry>)
    requires Sorted(s) && AllAbove(s, x.key)
    ensures Sorted([x] + s)
  {
  }

  lemma Uncons(s: seq<Entry>)
    requires Sorted(s) && s != []
    ensures Sorted(s[1..]) && AllAbove(s[1..], s[0].key) && s == [s[0]] + s[1..]
  {
  }

  lemma AboveTransitive(s: seq<Entry>, a: Key, b: Key)
    requires Less(a, b) && AllAbove(s, b)
    ensures AllAbove(s, a)
  {
    forall i | 0 <= i < |s| ensures Less(a, s[i].key) { LessTransitive(a, b, s[i].key); }
  }

  lemma {:induction false} AboveNotIn(s: seq<Entry>, k: Key)
    requires AllAbove(s, k)
    ensures k !in ToMap(s)
  {
    if s != [] {
      LessTotal(k, k);
      AboveNotIn(s[1..], k);
    }
  }

  /** Get is map lookup. */
  lemma {:induction false} GetIsLookup(s: seq<Entry>, k: Key)
    requires Sorted(s)
    ensures Get(s, k) == if k in ToMap(s) then Some(ToMap(s)[k]) else None
  {
    if s != [] {
      Uncons(s);
      if Less(k, s[0].key) {
        LessTotal(k, k);
        AboveTransitive(s[1..], k, s[0].key);
        AboveNotIn(s[1..], k);
      } else if s[0].key != k {
        GetIsLookup(s[1..], k);
      }
    }
  }

  lemma {:induction false} PutAbove(s: seq<Entry>, k: Key, r: Record, b: Key)
    requires AllAbove(s, b) && Less(b, k)
    ensures AllAbove(Put(s, k, r), b)
  {
    if s != [] && !Less(k, s[0].key) && s[0].key != k {
      PutAbove(s[1..], k, r, b);
    }
  }

  lemma {:induction false} PutSorted(s: seq<Entry>, k: Key, r: Record)
    requires Sorted(s)
    ensures Sorted(Put(s, k, r))
  {
    if s != [] {
      Uncons(s);
      if Less(k, s[0].key) {
        AboveTransitive(s[1..], k, s[0].key);
        Cons(Entry(k, r), s);
      } else if s[0].key == k {
        Cons(Entry(k, r), s[1..]);
      } else {
        LessTotal(s[0].key, k);
        PutSorted(s[1..], k, r);
        PutAbove(s[1..], k, r, s[0].key);
        Cons(s[0], Put(s[1..], k, r));
      }
    }
  }

  /** Put is map update. */
  lemma {:induction false} PutIsUpdate(s: seq<Entry>, k: Key, r: Record)
    requires Sorted(s)
    ensures ToMap(Put(s, k, r)) == ToMap(s)[k := r]
    ensures |Put(s, k, r)| == |s| + if k in ToMap(s) then 0 else 1
  {
    if s != [] {
      Uncons(s);
      if Less(k, s[0].key) {
        LessTotal(k, k);
        AboveTransitive(s[1..], k, s[0].key);
        AboveNotIn(s[1..], k);
        assert Put(s, k, r)[1..] == s;
      } else if s[0].key == k {
        assert Put(s, k, r)[1..] == s[1..];
      } else {
        PutIsUpdate(s[1..], k, r);
        assert Put(s, k, r)[1..] == Put(s[1..], k, r);
      }
    }
  }

  lemma {:induction false} DropAbove(s: seq<Entry>, k: Key, b: Key)
    requires AllAbove(s, b)
    ensures AllAbove(Drop(s, k), b)
  {
    if s != [] && !Less(k, s[0].key) && s[0].key != k {
      DropAbove(s[1..], k, b);
    }
  }

  lemma {:induction false} DropSorted(s: seq<Entry>, k: Key)
    requires Sorted(s)
    ensures Sorted(Drop(s, k))
  {
    if s != [] && !Less(k, s[0].key) && s[0].key != k {
      Uncons(s);
      DropSorted(s[1..], k);
      DropAbove(s[1..], k, s[0].key);
      Cons(s[0], Drop(s[1..], k));
    }
  }

  /** Drop is map removal. */
  lemma {:induction false} DropIsRemoval(s: seq<Entry>, k: Key)
    requires Sorted(s)
    ensures ToMap(Drop(s, k)) == ToMap(s) - {k}
    ensures |Drop(s, k)| == |s| - if k in ToMap(s) then 1 else 0
  {
    if s != [] {
      Uncons(s);
      if Less(k, s[0].key) {
        LessTotal(k, k);
        AboveTransitive(s[1..], k, s[0].key);
        AboveNotIn(s[1..], k);
      } else if s[0].key == k {
        AboveNotIn(s[1..], k);
      } else {
        DropIsRemoval(s[1..], k);
        assert Drop(s, k)[1..] == Drop(s[1..], k);
      }
    }
  }

  // ---------- locality: work on a middle run leaves its surroundings alone ----------

  lemma {:induction false} GetSkipBelow(a: seq<Entry>, b: seq<Entry>, k: Key)
    requires AllBelow(a, k)
    ensures Get(a + b, k) == Get(b, k)
  {
    if a == [] {
      assert a + b == b;
    } else {
      LessTotal(a[0].key, k);
      assert (a + b)[1..] == a[1..] + b;
      GetSkipBelow(a[1..], b, k);
      assert a == [a[0]] + a[1..];
    }
  }

  lemma {:induction false} GetSkipAbove(b: seq<Entry>, c: seq<Entry>, k: Key)
    requires AllAbove(c, k)
    ensures Get(b + c, k) == Get(b, k)
  {
    if b == [] {
      assert b + c == c;
    } else if !Less(k, b[0].key) {
      assert (b + c)[1..] == b[1..] + c;
      if b[0].key != k { GetSkipAbove(b[1..], c, k); }
    }
  }

  lemma GetLocal(a: seq<Entry>, b: seq<Entry>, c: seq<Entry>, k: Key)
    requires AllBelow(a, k) && AllAbove(c, k)
    ensures Get(a + b + c, k) == Get(b, k)
  {
    assert a + b + c == a + (b + c);
    GetSkipBelow(a, b + c, k);
    GetSkipAbove(b, c, k);
  }

  lemma {:induction false} PutSkipBelow(a: seq<Entry>, b: seq<Entry>, k: Key, r: Record)
    requires AllBelow(a, k)
    ensures Put(a + b, k, r) == a + Put(b, k, r)
  {
    if a == [] {
      assert a + b == b;
    } else {
      LessTotal(a[0].key, k);
      assert (a + b)[1..] == a[1..] + b;
      PutSkipBelow(a[1..], b, k, r);
      assert a == [a[0]] + a[1..];
    }
  }

  lemma {:induction false} PutSkipAbove(b: seq<Entry>, c: seq<Entry>, k: Key, r: Record)
    requires AllAbove(c, k)
    ensures Put(b + c, k, r) == Put(b, k, r) + c
  {
    hide Less;
    var e := [Entry(k, r)];
    if b == [] {
      assert b + c == c && e + [] == e;
    } else if Less(k, b[0].key) {
      assert e + (b + c) == e + b + c;
    } else {
      assert (b + c)[1..] == b[1..] + c;
      if b[0].key == k {
        assert e + (b[1..] + c) == e + b[1..] + c;
      } else {
        PutSkipAbove(b[1..], c, k, r);
        assert [b[0]] + (Put(b[1..], k, r) + c) == [b[0]] + Put(b[1..], k, r) + c;
      }
    }
  }

  lemma PutLocal(a: seq<Entry>, b: seq<Entry>, c: seq<Entry>, k: Key, r: Record)
    requires AllBelow(a, k) && AllAbove(c, k)
    ensures Put(a + b + c, k, r) == a + Put(b, k, r) + c
  {
    assert a + b + c == a + (b + c);
    PutSkipBelow(a, b + c, k, r);
    PutSkipAbove(b, c, k, r);
  }

  lemma {:induction false} DropSkipBelow(a: seq<Entry>, b: seq<Entry>, k: Key)
    requires AllBelow(a, k)
    ensures Drop(a + b, k) == a + Drop(b, k)
  {
    if a == [] {
      assert a + b == b;
    } else {
      LessTotal(a[0].key, k);
      assert (a + b)[1..] == a[1..] + b;
      DropSkipBelow(a[1..], b, k);
      assert a == [a[0]] + a[1..];
    }
  }

  lemma {:induction false} DropSkipAbove(b: seq<Entry>, c: seq<Entry>, k: Key)
    requires AllAbove(c, k)
    ensures Drop(b + c, k) == Drop(b, k) + c
  {
    hide Less;
    if b == [] {
      assert b + c == c;
    } else if !Less(k, b[0].key) {
      assert (b + c)[1..] == b[1..] + c;
      if b[0].key != k {
        DropSkipAbove(b[1..], c, k);
        assert [b[0]] + (Drop(b[1..], k) + c) == [b[0]] + Drop(b[1..], k) + c;
      }
    }
  }

  lemma DropLocal(a: seq<Entry>, b: seq<Entry>, c: seq<Entry>, k: Key)
    requires AllBelow(a, k) && AllAbove(c, k)
    ensures Drop(a + b + c, k) == a + Drop(b, k) + c
  {
    assert a + b + c == a + (b + c);
    DropSkipBelow(a, b + c, k);
    DropSkipAbove(b, c, k);
  }

  // ---------- the binary-search forms the leaf code uses ----------

  /** The position `binary_search` reports: where k is, or where it would go. */
  function LowerBound(s: seq<Entry>, k: Key): (i: nat)
    ensures i <= |s|
    ensures AllBelow(s[..i], k)
    ensures i < |s| ==> !Less(s[i].key, k)
  {
    if s == [] || !Less(s[0].key, k) then 0
    else
      var i := 1 + LowerBound(s[1..], k);
      assert forall j | 0 < j < i :: s[j] == s[1..][..i - 1][j - 1];
      i
  }

  predicate Hit(s: seq<Entry>, k: Key) {
    var i := LowerBound(s, k);
    i < |s| && s[i].key == k
  }

  /** Splicing at the search position is the simple form. */
  lemma GetSplice(s: seq<Entry>, k: Key)
    ensures Get(s, k) == if Hit(s, k) then Some(s[LowerBound(s, k)].rec) else None
  {
    var i := LowerBound(s, k);
    assert s == s[..i] + s[i..];
    GetSkipBelow(s[..i], s[i..], k);
    if i < |s| { LessTotal(s[i].key, k); }
  }

  lemma PutSplice(s: seq<Entry>, k: Key, r: Record)
    ensures var i := LowerBound(s, k);
            Put(s, k, r) == if Hit(s, k) then s[i := Entry(s[i].key, r)] else s[..i] + [Entry(k, r)] + s[i..]
  {
    hide Less;
    var i, e := LowerBound(s, k), [Entry(k, r)];
    assert s == s[..i] + s[i..];
    PutSkipBelow(s[..i], s[i..], k, r);
    LessTotal(k, k);
    if i < |s| { LessTotal(s[i].key, k); }
    if Hit(s, k) {
      assert s[i..][1..] == s[i + 1..];
      assert s[..i] + (e + s[i + 1..]) == s[i := Entry(s[i].key, r)];
    } else {
      assert s[..i] + (e + s[i..]) == s[..i] + e + s[i..];
    }
  }

  lemma DropSplice(s: seq<Entry>, k: Key)
    ensures var i := LowerBound(s, k);
            Drop(s, k) == if Hit(s, k) then s[..i] + s[i + 1..] else s
  {
    hide Less;
    var i := LowerBound(s, k);
    assert s == s[..i] + s[i..];
    DropSkipBelow(s[..i], s[i..], k);
    LessTotal(k, k);
    if i < |s| { LessTotal(s[i].key, k); }
    if Hit(s, k) { assert s[i..][1..] == s[i + 1..]; }
  }

  // ---------- a run as a listing of its map ----------

  ghost predicate Lists(all: seq<Entry>, m: map<Key, Record>) {
    && (forall i | 0 <= i < |all| :: all[i].key in m && m[all[i].key] == all[i].rec)
    && forall i, j | 0 <= i < j < |all| :: all[i].key != all[j].key
  }

  predicate Named(all: seq<Entry>, k: Key) { exists i :: 0 <= i < |all| && all[i].key == k }

  lemma SortedApart(s: seq<Entry>)
    requires Sorted(s)
    ensures forall i, j | 0 <= i < j < |s| :: s[i].key != s[j].key
  {
    LessOrder();
  }

  lemma {:induction false} InMap(s: seq<Entry>, i: nat)
    requires Sorted(s) && i < |s|
    ensures s[i].key in ToMap(s) && ToMap(s)[s[i].key] == s[i].rec
  {
    Uncons(s);
    if i > 0 {
      InMap(s[1..], i - 1);
      LessTotal(s[0].key, s[0].key);
    }
  }

  lemma {:induction false} FromMap(s: seq<Entry>, k: Key)
    requires k in ToMap(s)
    ensures Named(s, k)
  {
    if s[0].key != k {
      FromMap(s[1..], k);
      var i :| 0 <= i < |s[1..]| && s[1..][i].key == k;
      assert s[i + 1].key == k;
    } else {
      assert s[0].key == k;
    }
  }

  lemma MapListed(s: seq<Entry>)
    requires Sorted(s)
    ensures Lists(s, ToMap(s)) && forall k | k in ToMap(s) :: Named(s, k)
  {
    SortedApart(s);
    forall i | 0 <= i < |s| ensures s[i].key in ToMap(s) && ToMap(s)[s[i].key] == s[i].rec { InMap(s, i); }
    forall k | k in ToMap(s) ensures Named(s, k) { FromMap(s, k); }
  }

  lemma NamedMore(all: seq<Entry>)
    requires all != []
    ensures forall k :: Named(all, k) <==> Named(all[..|all| - 1], k) || k == all[|all| - 1].key
  {
    assert all[|all| - 1].key == all[|all| - 1].key;
    forall k | Named(all[..|all| - 1], k) ensures Named(all, k) {
      var i :| 0 <= i < |all| - 1 && all[..|all| - 1][i].key == k;
      assert all[i].key == k;
    }
  }
}
