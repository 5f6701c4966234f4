/** The keys the engine keeps for itself, and how they are kept apart. */
module Keyspace {
  import opened Bytes

  /** `\x00loom/`: hidden from scans and excluded from merge. */
  const RESERVED_PREFIX: Key := [0, 108, 111, 111, 109, 47]
  /** `\x00loom/merged-from/` */
  const MERGED_FROM: Key := RESERVED_PREFIX + [109, 101, 114, 103, 101, 100, 45, 102, 114, 111, 109, 47]
  /** `\x00loom/provseq/` */
  const PROV_SEQ: Key := RESERVED_PREFIX + [112, 114, 111, 118, 115, 101, 113, 47]
  /** `\x00loom/latest/` */
  const LATEST: Key := RESERVED_PREFIX + [108, 97, 116, 101, 115, 116, 47]
  /** `\x00loom/idx/` */
  const INDEX: Key := RESERVED_PREFIX + [105, 100, 120, 47]
  /** `\x00loom/hnsw/` */
  const GRAPH: Key := RESERVED_PREFIX + [104, 110, 115, 119, 47]
  /** `\x00loom/annbuf/` */
  const BUFFER: Key := RESERVED_PREFIX + [97, 110, 110, 98, 117, 102, 47]
  /** `\x00loom/clmhist/` */
  const HISTORY: Key := RESERVED_PREFIX + [99, 108, 109, 104, 105, 115, 116, 47]
  /** `\x01prov/` and `\x01src/`: hidden from scans but merged. */
  const PROV: Key := [1, 112, 114, 111, 118, 47]
  const SRC: Key := [1, 115, 114, 99, 47]

  predicate IsReserved(k: Key) { StartsWith(k, RESERVED_PREFIX) }

  predicate IsProvenance(k: Key) { StartsWith(k, PROV) || StartsWith(k, SRC) }

  predicate IsCaller(k: Key) { !IsReserved(k) && !IsProvenance(k) }

  // ---------- key builders ----------

  function MergedFromKey(source: Key): Key { MERGED_FROM + source }

  function ProvSeqKey(branch: Key): Key { PROV_SEQ + branch }

  function LatestNodeKey(key: Key): Key { LATEST + key }

  function IndexKey(key: Key): Key { INDEX + key }

  function BufferKey(key: Key): Key { BUFFER + key }

  /** `\x00loom/hnsw/n/` */
  const GRAPH_NODE: Key := GRAPH + [110, 47]

  function GraphNodeKey(key: Key): Key { GRAPH_NODE + key }

  /** `\x00loom/hnsw/meta` */
  const GRAPH_META: Key := GRAPH + [109, 101, 116, 97]

  function HistoryPrefix(subject: Key, predicateName: Key): Key { HISTORY + subject + [0] + predicateName + [0] }

  function HistoryKey(subject: Key, predicateName: Key, seqNo: nat): Key {
    HistoryPrefix(subject, predicateName) + ToBe(seqNo, 8)
  }

  /** `<u16 length><branch><u64 sequence>`; the length is truncated to sixteen bits. */
  function BranchSeq(branch: Key, seqNo: nat): Key { ToBe(|branch| % 0x1_0000, 2) + branch + ToBe(seqNo, 8) }

  function NodeKey(branch: Key, seqNo: nat): Key { PROV + BranchSeq(branch, seqNo) }

  function SourceKey(source: Key, branch: Key, seqNo: nat): Key { SRC + source + [47] + BranchSeq(branch, seqNo) }

  // ---------- as text ----------

  /** Text of plain characters, as its bytes. */
  function Ascii(text: string): Key {
    seq(|text|, i requires 0 <= i < |text| => var b: Byte := text[i] as int % 256; b)
  }

  /** The engine's prefixes spell what they are documented to spell. */
  lemma BookkeepingSpelled()
    ensures MERGED_FROM == [0] + Ascii("loom/merged-from/") && PROV_SEQ == [0] + Ascii("loom/provseq/")
    ensures LATEST == [0] + Ascii("loom/latest/")
  {
  }

  lemma IndexSpelled()
    ensures INDEX == [0] + Ascii("loom/idx/") && GRAPH == [0] + Ascii("loom/hnsw/")
    ensures BUFFER == [0] + Ascii("loom/annbuf/") && GRAPH_NODE == GRAPH + Ascii("n/")
            && GRAPH_META == GRAPH + Ascii("meta")
  {
  }

  lemma ClaimsSpelled()
    ensures HISTORY == [0] + Ascii("loom/clmhist/") && PROV == [1] + Ascii("prov/") && SRC == [1] + Ascii("src/")
  {
  }

  // ---------- regions ----------

  /** Which part of the key space a key lies in, read off its first bytes. */
  datatype Region = MergedFrom | ProvSeq | Latest | Index | Graph | Buffer | History | OtherReserved | Node | Source
    | Caller

  function RegionOf(k: Key): Region {
    if IsReserved(k) then
      if |k| == 6 then OtherReserved
      else if k[6] == 109 then MergedFrom
      else if k[6] == 112 then ProvSeq
      else if k[6] == 108 then Latest
      else if k[6] == 105 then Index
      else if k[6] == 104 then Graph
      else if k[6] == 97 then Buffer
      else if k[6] == 99 then History
      else OtherReserved
    else if StartsWith(k, PROV) then Node
    else if StartsWith(k, SRC) then Source
    else Caller
  }

  lemma PrefixOfConcat(p: Key, x: Key)
    ensures StartsWith(p + x, p)
  {
    assert (p + x)[..|p|] == p;
  }

  /** The provenance builders keep to their own prefixes. */
  lemma NodeRegions(a: Key, b: Key, n: nat)
    ensures RegionOf(NodeKey(a, n)) == Node && RegionOf(SourceKey(b, a, n)) == Source
  {
    hide ToBe, BranchSeq;
    var x, y := NodeKey(a, n), SourceKey(b, a, n);
    assert x[..6] == PROV && y[..5] == SRC;
    assert x[0] == 1 && y[0] == 1 && y[1] == 115;
    assert !IsReserved(x) by { assert x[..6][0] != RESERVED_PREFIX[0]; }
    assert !IsReserved(y) by { if |y| >= 6 { assert y[..6][0] != RESERVED_PREFIX[0]; } }
    assert !StartsWith(y, PROV) by { if |y| >= 6 { assert y[..6][1] != PROV[1]; } }
  }

  /** A claim history's keys keep to theirs. */
  lemma HistoryRegions(a: Key, b: Key, n: nat)
    ensures RegionOf(HistoryKey(a, b, n)) == History && RegionOf(HistoryPrefix(a, b)) == History
  {
    hide ToBe;
    assert HistoryPrefix(a, b)[..6] == RESERVED_PREFIX && HistoryKey(a, b, n)[..6] == RESERVED_PREFIX;
    assert HistoryPrefix(a, b)[6] == 99 && HistoryKey(a, b, n)[6] == 99;
  }

  /** Every builder writes into a region of its own. */
  lemma BuilderRegions(a: Key, b: Key, n: nat)
    ensures RegionOf(MergedFromKey(a)) == MergedFrom && RegionOf(ProvSeqKey(a)) == ProvSeq
    ensures RegionOf(LatestNodeKey(a)) == Latest && RegionOf(IndexKey(a)) == Index && RegionOf(BufferKey(a)) == Buffer
    ensures RegionOf(HistoryKey(a, b, n)) == History && RegionOf(HistoryPrefix(a, b)) == History
    ensures RegionOf(NodeKey(a, n)) == Node && RegionOf(SourceKey(b, a, n)) == Source
  {
    hide ToBe, NodeKey, SourceKey, HistoryKey, HistoryPrefix;
    NodeRegions(a, b, n);
    HistoryRegions(a, b, n);
    assert MergedFromKey(a)[..6] == RESERVED_PREFIX && ProvSeqKey(a)[..6] == RESERVED_PREFIX;
    assert LatestNodeKey(a)[..6] == RESERVED_PREFIX && IndexKey(a)[..6] == RESERVED_PREFIX;
    assert BufferKey(a)[..6] == RESERVED_PREFIX;
  }

  // ---------- no two meanings share a key ----------

  lemma ConcatInjective(p: Key, x: Key, y: Key)
    ensures p + x == p + y <==> x == y
  {
    assert (p + x)[|p|..] == x && (p + y)[|p|..] == y;
  }

  /** Node keys of different branches or sequence numbers differ, for names of any length: the key's own length
      gives the name's length away, even where the stored sixteen bits do not. */
  lemma NodeKeyInjective(a: Key, i: nat, b: Key, j: nat)
    requires i < Pow256(8) && j < Pow256(8)
    ensures NodeKey(a, i) == NodeKey(b, j) <==> a == b && i == j
  {
    if NodeKey(a, i) == NodeKey(b, j) {
      ConcatInjective(PROV, BranchSeq(a, i), BranchSeq(b, j));
      var x, y := BranchSeq(a, i), BranchSeq(b, j);
      assert |x| == 10 + |a| && |y| == 10 + |b|;
      assert x[2..2 + |a|] == a && y[2..2 + |b|] == b;
      assert x[2 + |a|..] == ToBe(i, 8) && y[2 + |b|..] == ToBe(j, 8);
      BeOrder(i, j, 8);
    }
  }

  /** A branch's node keys sort by sequence number: appends land at the tail of its range. */
  lemma NodeKeysAppend(b: Key, i: nat, j: nat)
    requires i < Pow256(8) && j < Pow256(8)
    ensures Less(NodeKey(b, i), NodeKey(b, j)) <==> i < j
  {
    var p := PROV + (ToBe(|b| % 0x1_0000, 2) + b);
    assert NodeKey(b, i) == p + ToBe(i, 8) && NodeKey(b, j) == p + ToBe(j, 8);
    LessConcat(p, ToBe(i, 8), ToBe(j, 8));
    BeOrder(i, j, 8);
  }

  predicate NulFree(s: Key) { forall i | 0 <= i < |s| :: s[i] != 0 }

  lemma FirstNul(s: Key, i: nat, j: nat)
    requires i < |s| && j < |s| && s[i] == 0 && s[j] == 0
    requires (forall k | 0 <= k < i :: s[k] != 0) && (forall k | 0 <= k < j :: s[k] != 0)
    ensures i == j
  {
  }

  /** A NUL ends a NUL-free field. */
  lemma {:induction false} FieldEnds(a: Key, x: Key, b: Key, y: Key)
    requires NulFree(a) && NulFree(b) && a + [0] + x == b + [0] + y
    ensures a == b && x == y
  {
    var s, t := a + [0] + x, b + [0] + y;
    assert s[|a|] == 0 && t[|b|] == 0;
    assert forall i | 0 <= i < |a| :: s[i] == a[i];
    assert forall i | 0 <= i < |b| :: t[i] == b[i];
    FirstNul(s, |a|, |b|);
    assert s[..|a|] == a && t[..|b|] == b && s[|a| + 1..] == x && t[|b| + 1..] == y;
  }

  lemma FieldsOf(s: Key, p: Key, x: Key)
    ensures HistoryPrefix(s, p) + x == HISTORY + (s + [0] + (p + [0] + x))
  {
  }

  /** A history's prefix matches its own versions and no other history's, for NUL-free names. */
  lemma HistoriesApart(s: Key, p: Key, s': Key, p': Key, n: nat)
    requires NulFree(s) && NulFree(p) && NulFree(s') && NulFree(p')
    ensures StartsWith(HistoryKey(s', p', n), HistoryPrefix(s, p)) <==> s == s' && p == p'
  {
    hide NulFree, ToBe;
    var k, pre := HistoryKey(s', p', n), HistoryPrefix(s, p);
    if StartsWith(k, pre) {
      var rest := k[|pre|..];
      assert k == pre + rest;
      FieldsOf(s, p, rest);
      FieldsOf(s', p', ToBe(n, 8));
      ConcatInjective(HISTORY, s + [0] + (p + [0] + rest), s' + [0] + (p' + [0] + ToBe(n, 8)));
      FieldEnds(s, p + [0] + rest, s', p' + [0] + ToBe(n, 8));
      FieldEnds(p, rest, p', ToBe(n, 8));
    } else if s == s' && p == p' {
      PrefixOfConcat(pre, ToBe(n, 8));
    }
  }

  /** Two histories share a key exactly when their names spell the same bytes around the NUL between them. */
  lemma SameHistoryKey(s: Key, p: Key, s': Key, p': Key, n: nat, m: nat)
    ensures HistoryKey(s, p, n) == HistoryKey(s', p', m) <==> s + [0] + p == s' + [0] + p' && ToBe(n, 8) == ToBe(m, 8)
  {
    var a, b := s + [0] + p, s' + [0] + p';
    assert HistoryKey(s, p, n) == HISTORY + (a + [0] + ToBe(n, 8));
    assert HistoryKey(s', p', m) == HISTORY + (b + [0] + ToBe(m, 8));
    ConcatInjective(HISTORY, a + [0] + ToBe(n, 8), b + [0] + ToBe(m, 8));
    if HistoryKey(s, p, n) == HistoryKey(s', p', m) {
      assert |a| == |b|;
      assert (a + [0] + ToBe(n, 8))[..|a|] == a && (b + [0] + ToBe(m, 8))[..|a|] == b;
      assert (a + [0] + ToBe(n, 8))[|a| + 1..] == ToBe(n, 8) && (b + [0] + ToBe(m, 8))[|a| + 1..] == ToBe(m, 8);
    }
  }

  /** Names that spell the same bytes as NUL-free ones are the same names. */
  lemma OneSplit(s: Key, p: Key, s': Key, p': Key)
    requires NulFree(s) && NulFree(p) && s + [0] + p == s' + [0] + p'
    ensures s == s' && p == p'
  {
    var a, b := s + [0] + p, s' + [0] + p';
    assert b[|s'|] == 0 && a[|s|] == 0;
    assert forall i | 0 <= i < |s| :: a[i] == s[i];
    assert forall i | |s| < i < |a| :: a[i] == p[i - |s| - 1];
    assert |s'| == |s|;
    assert a[..|s|] == s && b[..|s|] == s' && a[|s| + 1..] == p && b[|s| + 1..] == p';
  }

  /** **A claim's history has its keys to itself exactly when neither of its names has a NUL inside.** With one, the
      name can be cut there instead, and the other part moved over to the other name. */
  lemma OwnKeysIff(s: Key, p: Key)
    ensures NulFree(s) && NulFree(p) <==>
              forall s', p', n, m | HistoryKey(s, p, n) == HistoryKey(s', p', m) :: s == s' && p == p'
  {
    if NulFree(s) && NulFree(p) {
      forall s', p', n, m | HistoryKey(s, p, n) == HistoryKey(s', p', m) ensures s == s' && p == p' {
        SameHistoryKey(s, p, s', p', n, m);
        OneSplit(s, p, s', p');
      }
    } else if !NulFree(s) {
      var i :| 0 <= i < |s| && s[i] == 0;
      var s', p' := s[..i], s[i + 1..] + [0] + p;
      assert s + [0] + p == s' + [0] + p';
      SameHistoryKey(s, p, s', p', 0, 0);
      assert s != s';
    } else {
      var i :| 0 <= i < |p| && p[i] == 0;
      var s', p' := s + [0] + p[..i], p[i + 1..];
      assert s + [0] + p == s' + [0] + p';
      SameHistoryKey(s, p, s', p', 0, 0);
      assert s != s';
    }
  }

  /** With a NUL inside a name two histories share their keys. */
  lemma NulMixesHistories(n: nat)
    ensures HistoryKey([97, 0, 98], [99], n) == HistoryKey([97], [98, 0, 99], n)
  {
    assert HistoryPrefix([97, 0, 98], [99]) == HISTORY + [97, 0, 98, 0, 99, 0] == HistoryPrefix([97], [98, 0, 99]);
  }
}
