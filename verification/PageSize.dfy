/** How many bytes a node encodes to, and the running estimate the fullness check consults. */
module PageSize {
  import opened Bytes
  import opened Records
  import opened SortedEntries
  import opened BTreeShape

  /** The serializer's size of one record; everything below holds for any such function. */
  type Sizer = Record -> nat

  const TAG := 4
  const LENGTH_PREFIX := 8
  const PAGE_NUMBER := 8
  const SLACK := 24

  function EntryBytes(size: Sizer, e: Entry): nat { LENGTH_PREFIX + |e.key| + size(e.rec) }

  function EntriesBytes(size: Sizer, s: seq<Entry>): nat {
    if s == [] then 0 else EntryBytes(size, s[0]) + EntriesBytes(size, s[1..])
  }

  function KeysBytes(s: seq<Key>): nat {
    if s == [] then 0 else LENGTH_PREFIX + |s[0]| + KeysBytes(s[1..])
  }

  /** The true encoded length of a node. */
  function EncodedLen(size: Sizer, n: Node): nat {
    match n
    case Leaf(entries) => TAG + LENGTH_PREFIX + EntriesBytes(size, entries)
    case Internal(keys, children) =>
      TAG + LENGTH_PREFIX + KeysBytes(keys) + LENGTH_PREFIX + PAGE_NUMBER * |children|
  }

  /** A leaf encodes to twelve bytes, and for each entry to eight more than its key and record; an entry is charged
      sixteen more than it takes. */
  lemma LeafBytes(size: Sizer, entries: seq<Entry>, e: Entry)
    ensures EncodedLen(size, Leaf([])) == 12
    ensures EncodedLen(size, Leaf([e] + entries)) == EncodedLen(size, Leaf(entries)) + 8 + |e.key| + size(e.rec)
    ensures EntryCost(size, e.key, e.rec)
            == EncodedLen(size, Leaf([e] + entries)) - EncodedLen(size, Leaf(entries)) + 16
  {
    assert ([e] + entries)[1..] == entries;
  }

  /** An internal node encodes to twenty bytes, and for each separator to eight more than it is long, and eight for each
      child. */
  lemma InternalBytes(size: Sizer, keys: seq<Key>, k: Key, children: seq<PageNo>)
    ensures EncodedLen(size, Internal([], children)) == 20 + 8 * |children|
    ensures EncodedLen(size, Internal([k] + keys, children)) == EncodedLen(size, Internal(keys, children)) + 8 + |k|
  {
    assert ([k] + keys)[1..] == keys;
  }

  /** What one entry is charged. */
  function EntryCost(size: Sizer, key: Key, r: Record): nat { |key| + size(r) + SLACK }

  function SaturatingSub(a: nat, b: nat): nat { if a < b then 0 else a - b }

  lemma {:induction false} EntriesBytesConcat(size: Sizer, a: seq<Entry>, b: seq<Entry>)
    ensures EntriesBytes(size, a + b) == EntriesBytes(size, a) + EntriesBytes(size, b)
    ensures EntriesBytes(size, a) >= LENGTH_PREFIX * |a|
  {
    if a == [] {
      assert a + b == b;
    } else {
      assert (a + b)[1..] == a[1..] + b;
      EntriesBytesConcat(size, a[1..], b);
    }
  }

  /** Charging an insert keeps the estimate an over-count. */
  lemma InsertOverCounts(size: Sizer, s: seq<Entry>, i: nat, e: Entry, est: nat)
    requires i <= |s| && est >= EncodedLen(size, Leaf(s))
    ensures est + EntryCost(size, e.key, e.rec) >= EncodedLen(size, Leaf(s[..i] + [e] + s[i..]))
  {
    assert s == s[..i] + s[i..];
    EntriesBytesConcat(size, s[..i], s[i..]);
    EntriesBytesConcat(size, s[..i] + [e], s[i..]);
    EntriesBytesConcat(size, s[..i], [e]);
  }

  /** Charging a replace does too, although the subtraction saturates: it can only clamp in a leaf of
      one entry, where the new charge alone covers the whole node. */
  lemma ReplaceOverCounts(size: Sizer, s: seq<Entry>, i: nat, r: Record, est: nat)
    requires i < |s| && est >= EncodedLen(size, Leaf(s))
    ensures SaturatingSub(est, EntryCost(size, s[i].key, s[i].rec)) + EntryCost(size, s[i].key, r)
            >= EncodedLen(size, Leaf(s[i := Entry(s[i].key, r)]))
    ensures est < EntryCost(size, s[i].key, s[i].rec) ==> |s| == 1
  {
    var e, rest := Entry(s[i].key, r), s[i + 1..];
    Around(size, s, i, s[i]);
    Around(size, s, i, e);
    assert s[..i] + [s[i]] + rest == s;
    assert s[..i] + [e] + rest == s[i := e];
    EntriesBytesConcat(size, s[..i], []);
    EntriesBytesConcat(size, rest, []);
  }

  /** One entry's bytes stand apart from its neighbours'. */
  lemma Around(size: Sizer, s: seq<Entry>, i: nat, e: Entry)
    requires i < |s|
    ensures EntriesBytes(size, s[..i] + [e] + s[i + 1..])
            == EntriesBytes(size, s[..i]) + EntryBytes(size, e) + EntriesBytes(size, s[i + 1..])
  {
    EntriesBytesConcat(size, s[..i] + [e], s[i + 1..]);
    EntriesBytesConcat(size, s[..i], [e]);
  }
}
