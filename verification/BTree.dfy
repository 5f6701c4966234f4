/** The record store: a B+tree whose nodes are logical pages, with a transaction's dirty overlay. */
module BTree {
  import opened Bytes
  import opened Records
  import opened SortedEntries
  import opened BTreeShape
  import opened BTreeGrowth
  import opened PageSize

  datatype Meta = Meta(root: PageNo, nextFree: PageNo, count: nat)

  const EMPTY_META := Meta(1, 2, 0)

  /** What a snapshot holds: the metadata page 0, once written, and the node pages. */
  datatype Manifest = Manifest(meta: Option<Meta>, nodes: map<PageNo, Node>)

  function MetaOf(m: Manifest): Meta { if m.meta.Some? then m.meta.value else EMPTY_META }

  /** Only allocated pages are ever written. */
  ghost predicate AllocatedOnly(nodes: map<PageNo, Node>, free: PageNo) {
    forall p | p in nodes :: 1 <= p < free
  }

  /** No remembered size under-counts its page. */
  ghost predicate SizesOk(size: Sizer, view: map<PageNo, Node>, sizes: map<PageNo, nat>) {
    forall p | p in sizes :: sizes[p] >= EncodedLen(size, At(view, p))
  }

  /** A snapshot is the B+tree t: its root unfolds to t, t is ordered and of uniform depth, t occupies every
      allocated page exactly once, nothing else was ever written, and the record count is right. */
  ghost predicate Represents(m: Manifest, t: Shape, h: nat) {
    var meta := MetaOf(m);
    && t.page == meta.root && Rep(m.nodes, t)
    && Wf(t, None, None) && Uniform(t, h)
    && (forall p: PageNo :: Count(t, p) == if 1 <= p < meta.nextFree then 1 else 0)
    && AllocatedOnly(m.nodes, meta.nextFree)
    && meta.count == |Flat(t)|
  }

  ghost predicate WellFormed(m: Manifest) { exists t, h :: Represents(m, t, h) }

  ghost function ShapeOf(m: Manifest): Shape
    requires WellFormed(m)
  {
    var t, h :| Represents(m, t, h); t
  }

  /** The map a snapshot stands for. */
  ghost function Contents(m: Manifest): map<Key, Record>
    requires WellFormed(m)
  {
    ToMap(Flat(ShapeOf(m)))
  }

  lemma ShapeUnique(m: Manifest, t: Shape, h: nat)
    requires Represents(m, t, h)
    ensures ShapeOf(m) == t
  {
    RepUnique(m.nodes, ShapeOf(m), t);
  }

  /** The store before anything was written: one empty leaf nobody has stored yet. */
  lemma EmptyWellFormed()
    ensures Represents(Manifest(None, map[]), SLeaf(1, []), 0)
    ensures Contents(Manifest(None, map[])) == map[]
  {
    ShapeUnique(Manifest(None, map[]), SLeaf(1, []), 0);
  }

  const META_PAGE := 0

  function KeySet(s: seq<Entry>): set<Key> { set e | e in s :: e.key }

  /** The keys of every leaf among these pages. */
  ghost function LeafKeys(view: map<PageNo, Node>, pages: seq<PageNo>): set<Key> {
    set p, e | p in pages && p != META_PAGE && At(view, p).Leaf? && e in At(view, p).entries :: e.key
  }

  lemma LeafKeysStep(view: map<PageNo, Node>, pages: seq<PageNo>, p: PageNo)
    ensures LeafKeys(view, pages + [p])
            == LeafKeys(view, pages) + if p != META_PAGE && At(view, p).Leaf? then KeySet(At(view, p).entries) else {}
  {
    var all := LeafKeys(view, pages + [p]);
    var q := if p != META_PAGE && At(view, p).Leaf? then KeySet(At(view, p).entries) else {};
    forall k | k in LeafKeys(view, pages) ensures k in all {
      var p', e :| p' in pages && p' != META_PAGE && At(view, p').Leaf? && e in At(view, p').entries && e.key == k;
      assert p' in pages + [p];
    }
    forall k | k in q ensures k in all {
      var e :| e in At(view, p).entries && e.key == k;
      assert p in pages + [p];
    }
  }

  // ---------- prefixes ----------

  /** The smallest key past everything starting with a prefix; None when nothing is past it. */
  function PrefixUpper(p: Key): Bound {
    if p == [] then None
    else if p[|p| - 1] < 255 then Some(p[..|p| - 1] + [p[|p| - 1] + 1])
    else PrefixUpper(p[..|p| - 1])
  }

  method PrefixUpperLoop(prefix: Key) returns (r: Bound)
    ensures r == PrefixUpper(prefix)
  {
    var hi := prefix;
    while hi != []
      invariant PrefixUpper(hi) == PrefixUpper(prefix)
      decreases |hi|
    {
      var last := hi[|hi| - 1];
      if last < 255 { return Some(hi[..|hi| - 1] + [last + 1]); }
      hi := hi[..|hi| - 1];
    }
    r := None;
  }

  lemma {:induction false} PrefixUpperFront(p: Key)
    requires p != []
    ensures var u := PrefixUpper(p[1..]);
            PrefixUpper(p) == if u.Some? then Some([p[0]] + u.value) else if p[0] < 255 then Some([p[0] + 1]) else None
  {
    var n := |p| - 1;
    assert p[..n] + [p[n]] == p;
    if n == 0 {
      assert p[1..] == [] && p[..0] == [] && (p[0] < 255 ==> p[..0] + [p[0] + 1] == [p[0] + 1]);
    } else {
      assert p[1..][..n - 1] == p[..n][1..] && p[1..][n - 1] == p[n] && p[..n][0] == p[0];
      if p[n] < 255 {
        assert p[..n] + [p[n] + 1] == [p[0]] + (p[1..][..n - 1] + [p[n] + 1]);
      } else {
        PrefixUpperFront(p[..n]);
      }
    }
  }

  /** The prefix range is exactly the keys with the prefix. */
  lemma {:induction false} PrefixRange(p: Key, k: Key)
    ensures Within(k, p, PrefixUpper(p)) <==> StartsWith(k, p)
  {
    if p != [] {
      PrefixUpperFront(p);
      var u := PrefixUpper(p[1..]);
      assert u.Some? ==> ([p[0]] + u.value)[1..] == u.value;
      assert |p| <= |k| ==> k[..|p|] == [k[0]] + k[1..][..|p| - 1];
      assert p == [p[0]] + p[1..];
      if k != [] && k[0] == p[0] {
        PrefixRange(p[1..], k[1..]);
        assert Less(k, p) <==> Less(k[1..], p[1..]);
      } else {
        assert !StartsWith(k, p) by { if |p| <= |k| { assert k[..|p|][0] != p[0]; } }
        assert Less(k, p) <==> k == [] || k[0] < p[0];
        if k != [] && k[0] > p[0] {
          var hi := PrefixUpper(p);
          assert hi.Some? ==> !Less(k, hi.value) by {
            if hi.Some? && u.None? { assert hi.value == [p[0] + 1] && hi.value[1..] == []; }
          }
        }
      }
    }
  }

  function WithPrefix(s: seq<Entry>, p: Key): seq<Entry> {
    if s == [] then [] else (if StartsWith(s[0].key, p) then [s[0]] else []) + WithPrefix(s[1..], p)
  }

  lemma {:induction false} SliceIsPrefix(s: seq<Entry>, p: Key)
    ensures Slice(s, p, PrefixUpper(p)) == WithPrefix(s, p)
  {
    if s != [] {
      PrefixRange(p, s[0].key);
      SliceIsPrefix(s[1..], p);
    }
  }

  lemma EmptyRuns(kids: seq<Shape>, lo: Key, hi: Bound)
    ensures FlatAll(kids[..0]) == [] && Slice([], lo, hi) == []
  {
  }

  // ---------- a whole tree owns its pages ----------

  lemma OwnedWhole(size: Sizer, v: map<PageNo, Node>, z: map<PageNo, nat>, t: Shape, free: PageNo)
    requires Rep(v, t) && (forall p: PageNo :: Count(t, p) == if 1 <= p < free then 1 else 0)
    requires SizesOk(size, v, z)
    ensures Owned(size, v, z, [t], free)
  {
    forall p ensures CountAll([t], p) == Count(t, p) { CountOne(t, p); }
  }

  lemma AfterInsert(size: Sizer, v: map<PageNo, Node>, z: map<PageNo, nat>, free: PageNo,
                    v': map<PageNo, Node>, z': map<PageNo, nat>, free': PageNo, t: Shape, out: seq<Shape>)
    requires 1 <= free && forall p: PageNo :: Count(t, p) == if 1 <= p < free then 1 else 0
    requires SizesOk(size, v, z)
    requires Owned(size, v', z', out, free') && Grown(t, out, free, free') && Framed(v, z, free, v', z', free', t)
    ensures forall p: PageNo :: CountAll(out, p) == if 1 <= p < free' then 1 else 0
    ensures SizesOk(size, v', z')
  {
    hide Count, CountAll, EncodedLen, Rep;
    forall p | p in z' ensures z'[p] >= EncodedLen(size, At(v', p)) {
      if CountAll(out, p) > 0 {
        assert OverCounts(size, v', z', p);
      } else {
        assert SamePage(v, z, v', z', p);
      }
    }
  }

  /** A new root page over two halves represents both. `meta` has the new page allocated but is yet to point at it. */
  lemma RootOver(size: Sizer, v: map<PageNo, Node>, z: map<PageNo, nat>, meta: Meta, sep: Key, out: seq<Shape>,
                 newRoot: PageNo, h: nat)
    requires |out| == 2 && newRoot >= 1 && meta.nextFree == newRoot + 1
    requires WfKids([sep], out, None, None) && Uniform(out[0], h) && Uniform(out[1], h) && Rep(v, out[0])
             && Rep(v, out[1])
    requires forall p: PageNo :: CountAll(out, p) == if 1 <= p < newRoot then 1 else 0
    requires AllocatedOnly(v, newRoot) && meta.count == |FlatAll(out)| && SizesOk(size, v, z)
    ensures var v' := v[newRoot := Internal([sep], [out[0].page, out[1].page])];
            var t := SInner(newRoot, [sep], out);
            && Represents(Manifest(Some(meta.(root := newRoot)), v'), t, h + 1)
            && SizesOk(size, v', z - {newRoot}) && Flat(t) == FlatAll(out)
  {
    var v' := v[newRoot := Internal([sep], [out[0].page, out[1].page])];
    var t := SInner(newRoot, [sep], out);
    assert PagesOf(out) == [out[0].page, out[1].page];
    forall i | 0 <= i < 2 ensures Rep(v', out[i]) {
      forall p | Count(out[i], p) > 0 ensures At(v, p) == At(v', p) { CountSplit(out, i, p); }
      RepFrame(v, v', out[i]);
    }
    assert Rep(v', t);
    assert Wf(t, None, None) && Uniform(t, h + 1);
    assert forall p: PageNo :: Count(t, p) == if 1 <= p < newRoot + 1 then 1 else 0;
    assert Flat(t) == FlatAll(out);
  }

  lemma LeafUniform(t: Shape, out: seq<Shape>, h: nat)
    requires (forall i | 0 <= i < |out| :: out[i].SLeaf?) && t.SLeaf? && Uniform(t, h)
    ensures forall i | 0 <= i < |out| :: Uniform(out[i], h)
  {
  }

  lemma FlatOfLeaf(t: Shape)
    requires t.SLeaf?
    ensures Flat(t) == t.entries
  {
  }

  lemma NoNewKeys(keys: seq<Key>, i: nat)
    requires i <= |keys|
    ensures GrowKeys(keys, i, []) == keys
  {
  }

  /** Inserting the record a leaf already holds, in a leaf that encodes within the limit. */
  ghost predicate Absorbs(size: Sizer, limit: nat, t: Shape, key: Key, rec: Record) {
    Put(OwnerLeaf(t, key), key, rec) == OwnerLeaf(t, key) && EncodedLen(size, Leaf(OwnerLeaf(t, key))) <= limit
  }

  lemma {:induction false} PutHeld(s: seq<Entry>, key: Key, rec: Record)
    requires Sorted(s) && Get(s, key) == Some(rec)
    ensures Put(s, key, rec) == s
  {
    Uncons(s);
    if s[0].key != key { PutHeld(s[1..], key, rec); }
  }

  /** The leaf a key belongs to holds the tree's record of it. */
  lemma HeldInOwner(t: Shape, key: Key, rec: Record, lo: Bound, hi: Bound)
    requires Wf(t, lo, hi) && FromLo(lo, key) && UptoHi(key, hi) && key in ToMap(Flat(t)) && ToMap(Flat(t))[key] == rec
    ensures Put(OwnerLeaf(t, key), key, rec) == OwnerLeaf(t, key)
  {
    WfFlat(t, lo, hi);
    GetOwner(t, key, lo, hi);
    GetIsLookup(Flat(t), key);
    OwnerSorted(t, key, lo, hi);
    PutHeld(OwnerLeaf(t, key), key, rec);
  }

  lemma {:induction false} OwnerSorted(t: Shape, key: Key, lo: Bound, hi: Bound)
    requires Wf(t, lo, hi)
    ensures Sorted(OwnerLeaf(t, key))
    decreases t
  {
    if t.SInner? {
      var i := ChildIndex(t.keys, key);
      WfKid(t.keys, t.kids, lo, hi, i);
      OwnerSorted(t.kids[i], key, KidLo(t.keys, i, lo), KidHi(t.keys, i, hi));
    }
  }

  /** Where a leaf's binary search lands, and what taking out a hit leaves. */
  lemma DropAt(entries: seq<Entry>, key: Key)
    requires Sorted(entries)
    ensures LowerBound(entries, key) <= |entries|
    ensures Hit(entries, key) <==> Get(entries, key).Some?
    ensures var i := LowerBound(entries, key);
            Hit(entries, key) ==> i < |entries| && entries[..i] + entries[i + 1..] == Drop(entries, key)
  {
    GetSplice(entries, key);
    DropSplice(entries, key);
  }

  /** An owned shape's root page holds its node, under an estimate that does not fall short. */
  lemma OwnedNode(size: Sizer, v: map<PageNo, Node>, s: map<PageNo, nat>, t: Shape, free: PageNo, lo: Bound, hi: Bound)
    requires Owned(size, v, s, [t], free) && Wf(t, lo, hi)
    ensures At(v, t.page) == if t.SLeaf? then Leaf(t.entries) else Internal(t.keys, PagesOf(t.kids))
    ensures t.SInner? ==> |t.kids| == |t.keys| + 1 == |PagesOf(t.kids)|
    ensures t.page in s ==> s[t.page] >= EncodedLen(size, At(v, t.page))
  {
    assert [t][0] == t;
    CountOne(t, t.page);
  }

  lemma AbsorbsHeld(size: Sizer, limit: nat, t: Shape, key: Key, rec: Record)
    requires t.SLeaf?
    ensures Absorbs(size, limit, t, key, rec) ==> t.entries != []
  {
  }

  lemma LeafOwns(t: Shape, key: Key)
    requires t.SLeaf?
    ensures OwnerLeaf(t, key) == t.entries
  {
  }

  lemma OnlyPage(v: map<PageNo, Node>, s: map<PageNo, nat>, w: map<PageNo, Node>, z: map<PageNo, nat>, page: PageNo)
    requires page in w && page in z && w == v[page := w[page]] && z == s[page := z[page]]
    ensures forall p | p != page :: SamePage(v, s, w, z, p)
  {
  }

  lemma OnlyPages(v: map<PageNo, Node>, s: map<PageNo, nat>, w: map<PageNo, Node>, z: map<PageNo, nat>,
                  page: PageNo, other: PageNo)
    requires page in w && page in z && other in w && other in z
    requires w == v[page := w[page]][other := w[other]] && z == s[page := z[page]][other := z[other]]
    ensures forall p | p != page && p != other :: SamePage(v, s, w, z, p)
  {
  }

  lemma OwnedRoot(size: Sizer, v: map<PageNo, Node>, s: map<PageNo, nat>, t: Shape, free: PageNo)
    requires Owned(size, v, s, [t], free)
    ensures 1 <= t.page < free
  {
    CountOne(t, t.page);
  }

  /** One step down: what the page at a shape's root holds, and where the key's leaf is. */
  lemma OwnerBelow(v: map<PageNo, Node>, t: Shape, key: Key)
    requires Rep(v, t) && Arity(t)
    ensures At(v, t.page) == if t.SLeaf? then Leaf(t.entries) else Internal(t.keys, PagesOf(t.kids))
    ensures t.SLeaf? ==> OwnerLeaf(t, key) == t.entries && OwnerPage(t, key) == t.page
    ensures t.SInner? ==>
              && |t.kids| == |t.keys| + 1 && ChildIndex(t.keys, key) < |t.kids| == |PagesOf(t.kids)|
              && var kid := t.kids[ChildIndex(t.keys, key)];
              && PagesOf(t.kids)[ChildIndex(t.keys, key)] == kid.page && Rep(v, kid) && Arity(kid)
              && OwnerLeaf(kid, key) == OwnerLeaf(t, key) && OwnerPage(kid, key) == OwnerPage(t, key)
  {
  }

  lemma RootOrder(m: Manifest, t: Shape, h: nat)
    requires Represents(m, t, h)
    ensures Wf(t, None, None) && Sorted(Flat(t))
  {
    WfFlat(t, None, None);
  }

  lemma RootCounts(t: Shape)
    ensures Count(t, t.page) > 0
  {
  }

  lemma OneWf(t: Shape, seps: seq<Key>, out: seq<Shape>)
    requires WfKids(seps, out, None, None) && |out| == 1 && out[0] == t && seps == []
    ensures Wf(t, None, None)
  {
  }

  lemma SameShape(m: Manifest, t: Shape, h: nat, t': Shape, h': nat)
    requires Represents(m, t, h) && Represents(m, t', h')
    ensures t == t'
  {
    RepUnique(m.nodes, t, t');
  }

  class Tree {
    const base: Manifest
    const limit: nat
    const size: Sizer
    var dirty: map<PageNo, Node>
    var sizes: map<PageNo, nat>
    var meta: Meta
    var metaDirty: bool

    ghost function View(): map<PageNo, Node>
      reads this
    {
      base.nodes + dirty
    }

    ghost var shape: Shape
    ghost var height: nat

    /** What a flush would commit. */
    ghost function Snapshot(): Manifest
      reads this
    {
      Manifest(if metaDirty then Some(meta) else base.meta, View())
    }

    ghost predicate Valid()
      reads this
    {
      && Represents(Snapshot(), shape, height)
      && MetaOf(Snapshot()) == meta
      && SizesOk(size, View(), sizes)
    }

    /** The map this transaction sees. */
    ghost function Model(): map<Key, Record>
      reads this
    {
      ToMap(Flat(shape))
    }

    constructor Open(store: Manifest, pageSize: nat, size: Sizer)
      requires WellFormed(store)
      ensures Valid() && Model() == Contents(store) && Snapshot() == store
      ensures base == store && limit == pageSize * 7 / 10 && this.size == size
    {
      base := store;
      limit := pageSize * 7 / 10;
      this.size := size;
      dirty := map[];
      sizes := map[];
      meta := MetaOf(store);
      metaDirty := false;
      ghost var t, h :| Represents(store, t, h);
      shape, height := t, h;
      new;
      ShapeUnique(store, t, h);
      assert base.nodes + map[] == base.nodes;
    }

    /** Read a node: from this transaction's writes first, then from the store. */
    method ReadNode(page: PageNo) returns (n: Node)
      modifies this`sizes
      ensures n == At(View(), page)
      ensures old(Valid()) ==> Valid()
      ensures sizes == old(sizes) || (page !in dirty && sizes == old(sizes)[page := EncodedLen(size, n)])
    {
      if page in dirty {
        n := dirty[page];
      } else if page in base.nodes {
        n := base.nodes[page];
        sizes := sizes[page := EncodedLen(size, n)];
      } else {
        n := Leaf([]);
      }
    }

    /** Take a node out of the overlay; the caller must put one back. */
    method TakeNode(page: PageNo) returns (n: Node)
      modifies this`sizes, this`dirty
      ensures n == old(At(View(), page))
      ensures dirty == old(dirty) - {page}
      ensures sizes == old(sizes) || sizes == old(sizes)[page := EncodedLen(size, n)]
    {
      if page in dirty {
        n := dirty[page];
        dirty := dirty - {page};
      } else {
        n := ReadNode(page);
      }
    }

    method SetNode(page: PageNo, n: Node)
      modifies this`sizes, this`dirty
      ensures sizes == old(sizes) - {page} && dirty == old(dirty)[page := n]
    {
      sizes := sizes - {page};
      dirty := dirty[page := n];
    }

    method SetSized(page: PageNo, n: Node, est: nat)
      modifies this`sizes, this`dirty
      ensures sizes == old(sizes)[page := est] && dirty == old(dirty)[page := n]
    {
      sizes := sizes[page := est];
      dirty := dirty[page := n];
    }

    method SizeOf(page: PageNo, n: Node) returns (est: nat)
      modifies this`sizes
      ensures sizes == old(sizes)[page := est]
      ensures est == if page in old(sizes) then old(sizes)[page] else EncodedLen(size, n)
    {
      if page in sizes {
        est := sizes[page];
      } else {
        est := EncodedLen(size, n);
        sizes := sizes[page := est];
      }
    }

    /** Has this node outgrown its page? A real encode is paid for only when the estimate says "possibly". */
    method Overflowed(n: Node, est: nat) returns (over: bool, est': nat)
      requires est >= EncodedLen(size, n)
      ensures over <==> EncodedLen(size, n) > limit
      ensures est' >= EncodedLen(size, n)
    {
      if est <= limit { return false, est; }
      est' := EncodedLen(size, n);
      over := est' > limit;
    }

    method Alloc() returns (page: PageNo)
      modifies this`meta, this`metaDirty
      ensures page == old(meta).nextFree && meta == old(meta).(nextFree := page + 1) && metaDirty
    {
      page := meta.nextFree;
      meta := meta.(nextFree := page + 1);
      metaDirty := true;
    }

    /** Place an entry in a leaf's run and charge its size estimate. */
    method PlaceEntry(page: PageNo, entries: seq<Entry>, key: Key, rec: Record)
      returns (entries': seq<Entry>, est: nat)
      requires page in sizes ==> sizes[page] >= EncodedLen(size, Leaf(entries))
      modifies this`sizes, this`meta, this`metaDirty
      ensures entries' == Put(entries, key, rec) && entries' != []
      ensures est >= EncodedLen(size, Leaf(entries'))
      ensures page in sizes && sizes == old(sizes)[page := sizes[page]]
      ensures meta == old(meta).(count := meta.count) && meta.count + |entries| == old(meta).count + |entries'|
      ensures metaDirty || (!old(metaDirty) && meta == old(meta))
      ensures entries' == entries ==> meta == old(meta) && metaDirty == old(metaDirty)
      ensures View() == old(View())
    {
      PutSplice(entries, key, rec);
      est := SizeOf(page, Leaf(entries));
      var i := LowerBound(entries, key);
      if Hit(entries, key) {
        ReplaceOverCounts(size, entries, i, rec, est);
        est := SaturatingSub(est, EntryCost(size, entries[i].key, entries[i].rec)) + EntryCost(size, key, rec);
        entries' := entries[i := Entry(entries[i].key, rec)];
      } else {
        InsertOverCounts(size, entries, i, Entry(key, rec), est);
        est := est + EntryCost(size, key, rec);
        entries' := entries[..i] + [Entry(key, rec)] + entries[i..];
        meta := meta.(count := meta.count + 1);
        metaDirty := true;
      }
    }

    /** Store a leaf back, or split it when it overflows; the left half keeps the page. */
    method StoreLeaf(page: PageNo, entries: seq<Entry>, est: nat)
      returns (split: Option<(Key, PageNo)>, ghost left: seq<Entry>, ghost right: seq<Entry>)
      requires entries != [] && 1 <= page < meta.nextFree && est >= EncodedLen(size, Leaf(entries))
      requires AllocatedOnly(dirty, meta.nextFree)
      modifies this`dirty, this`sizes, this`meta, this`metaDirty
      ensures left + right == entries && AllocatedOnly(dirty, meta.nextFree)
      ensures EncodedLen(size, Leaf(entries)) <= limit ==> split.None?
      ensures page in sizes && sizes[page] >= EncodedLen(size, Leaf(left))
      ensures split.None? ==>
        && left == entries && right == [] && EncodedLen(size, Leaf(left)) <= limit
        && View() == old(View())[page := Leaf(left)]
        && sizes == old(sizes)[page := sizes[page]]
        && meta == old(meta) && metaDirty == old(metaDirty)
      ensures split.Some? ==>
        && right != [] && split.value == (right[0].key, old(meta).nextFree)
        && View() == old(View())[page := Leaf(left)][split.value.1 := Leaf(right)]
        && sizes == old(sizes)[page := sizes[page]][split.value.1 := EncodedLen(size, Leaf(right))]
        && meta == old(meta).(nextFree := old(meta).nextFree + 1) && metaDirty
    {
      var over, est' := Overflowed(Leaf(entries), est);
      if !over {
        SetSized(page, Leaf(entries), est');
        return None, entries, [];
      }
      var mid := |entries| / 2;
      left, right := entries[..mid], entries[mid..];
      var rightPage := Alloc();
      SetSized(page, Leaf(entries[..mid]), EncodedLen(size, Leaf(entries[..mid])));
      SetSized(rightPage, Leaf(entries[mid..]), EncodedLen(size, Leaf(entries[mid..])));
      split := Some((entries[mid].key, rightPage));
    }

    /** Insert below one page. The ghost arguments are the shape at that page, its key range and its height;
        `out` is what the shape became, one node or two around a separator. */
    method InsertInto(page: PageNo, key: Key, rec: Record, ghost t: Shape, ghost lo: Bound, ghost hi: Bound,
                      ghost h: nat)
      returns (split: Option<(Key, PageNo)>, ghost out: seq<Shape>, ghost seps: seq<Key>)
      requires t.page == page && Owned(size, View(), sizes, [t], meta.nextFree)
      requires Wf(t, lo, hi) && Uniform(t, h) && FromLo(lo, key) && UptoHi(key, hi)
      requires AllocatedOnly(dirty, meta.nextFree)
      modifies this`dirty, this`sizes, this`meta, this`metaDirty
      decreases t, 1
      ensures |out| == 1 + |seps| && seps == if split.Some? then [split.value.0] else []
      ensures out[0].page == page && (split.Some? ==> out[1].page == split.value.1)
      ensures WfKids(seps, out, lo, hi) && forall i | 0 <= i < |out| :: Uniform(out[i], h)
      ensures FlatAll(out) == Put(Flat(t), key, rec)
      ensures Owned(size, View(), sizes, out, meta.nextFree)
      ensures Grown(t, out, old(meta).nextFree, meta.nextFree)
      ensures Framed(old(View()), old(sizes), old(meta).nextFree, View(), sizes, meta.nextFree, t)
      ensures meta.root == old(meta).root
      ensures meta.count + |Flat(t)| == old(meta).count + |FlatAll(out)|
      ensures metaDirty || (!old(metaDirty) && meta == old(meta))
      ensures split.Some? ==> meta.nextFree > old(meta).nextFree
      ensures AllocatedOnly(dirty, meta.nextFree)
      ensures meta.nextFree == old(meta).nextFree ==> EncodedLen(size, Leaf(OwnerLeaf(out[0], key))) <= limit
      ensures Absorbs(size, limit, t, key, rec) ==>
        split.None? && View() == old(View()) && meta == old(meta) && metaDirty == old(metaDirty)
    {
      hide Less, Put, EncodedLen, Framed, Grown, Wf, WfKids, Uniform, Flat, FlatAll, Owned, Rep, Count, CountAll;
      OwnedNode(size, View(), sizes, t, meta.nextFree, lo, hi);
      var n := TakeNode(page);
      if n != Leaf([]) { assert View()[page := n] == old(View()); }
      if t.SLeaf? { AbsorbsHeld(size, limit, t, key, rec); }
      hide Absorbs;
      match n
      case Leaf(entries) =>
        split, out, seps := InsertIntoLeaf(page, entries, key, rec, t, lo, hi, old(View()), old(sizes));
        LeafUniform(t, out, h);
        FlatOfLeaf(t);
      case Internal(keys, children) =>
        split, out, seps := InsertBelow(page, keys, children, key, rec, t, lo, hi, h, old(View()), old(sizes));
    }

    /** Insert below an internal node taken out of the overlay: into the child the key belongs to, then put the node
        back, with the child's new sibling if it split. */
    method InsertBelow(page: PageNo, keys: seq<Key>, children: seq<PageNo>, key: Key, rec: Record,
                       ghost t: Shape, ghost lo: Bound, ghost hi: Bound, ghost h: nat,
                       ghost v: map<PageNo, Node>, ghost s: map<PageNo, nat>)
      returns (split: Option<(Key, PageNo)>, ghost out: seq<Shape>, ghost seps: seq<Key>)
      requires t.SInner? && t.page == page && t.keys == keys && PagesOf(t.kids) == children && |children| == |keys| + 1
      requires Owned(size, v, s, [t], meta.nextFree)
      requires Wf(t, lo, hi) && Uniform(t, h) && FromLo(lo, key) && UptoHi(key, hi)
      requires forall p | p != page :: SamePage(v, s, View(), sizes, p)
      requires page in sizes ==> sizes[page] >= EncodedLen(size, Internal(keys, children))
      requires AllocatedOnly(dirty, meta.nextFree)
      modifies this`dirty, this`sizes, this`meta, this`metaDirty
      decreases t, 0
      ensures |out| == 1 + |seps| && seps == if split.Some? then [split.value.0] else []
      ensures out[0].page == page && (split.Some? ==> out[1].page == split.value.1)
      ensures WfKids(seps, out, lo, hi) && forall i | 0 <= i < |out| :: Uniform(out[i], h)
      ensures FlatAll(out) == Put(Flat(t), key, rec)
      ensures Owned(size, View(), sizes, out, meta.nextFree)
      ensures Grown(t, out, old(meta).nextFree, meta.nextFree)
      ensures Framed(v, s, old(meta).nextFree, View(), sizes, meta.nextFree, t)
      ensures meta.root == old(meta).root
      ensures meta.count + |Flat(t)| == old(meta).count + |FlatAll(out)|
      ensures metaDirty || (!old(metaDirty) && meta == old(meta))
      ensures split.Some? ==> meta.nextFree > old(meta).nextFree
      ensures AllocatedOnly(dirty, meta.nextFree)
      ensures meta.nextFree == old(meta).nextFree ==> EncodedLen(size, Leaf(OwnerLeaf(out[0], key))) <= limit
      ensures Absorbs(size, limit, t, key, rec) ==>
        && split.None? && View() == old(View())[page := Internal(keys, children)]
        && meta == old(meta) && metaDirty == old(metaDirty)
    {
      hide Less, Put, EncodedLen, Framed, Grown, WfKids, FlatAll, CountAll, Count, Rep;
      var idx := ChildIndex(keys, key);
      var child := children[idx];
      ghost var free, v1, s1 := meta.nextFree, View(), sizes;
      KidOwned(size, v, s, v1, s1, t, idx, meta.nextFree);
      WfKid(keys, t.kids, lo, hi, idx);
      var sub, subOut, subSeps := InsertInto(child, key, rec, t.kids[idx], KidLo(keys, idx, lo), KidHi(keys, idx, hi),
                                             h - 1);
      KidPages(t, idx, subOut);
      hide Owned, Wf, SamePage, AllocatedOnly;
      if sub.None? {
        split, seps := None, [];
        out := PutBack(page, keys, children, idx, key, rec, t, lo, hi, h, subOut, subSeps, v, s, free, v1, s1);
      } else {
        split, out, seps := StoreInternal(page, keys[..idx] + [sub.value.0] + keys[idx..],
                                          children[..idx + 1] + [sub.value.1] + children[idx + 1..], idx, key, rec,
                                          t, lo, hi, h, subOut, subSeps, v, s, free, v1, s1);
      }
    }

    method InsertIntoLeaf(page: PageNo, entries: seq<Entry>, key: Key, rec: Record, ghost t: Shape, ghost lo: Bound,
                          ghost hi: Bound,
                          ghost v: map<PageNo, Node>, ghost s: map<PageNo, nat>)
      returns (split: Option<(Key, PageNo)>, ghost out: seq<Shape>, ghost seps: seq<Key>)
      requires t == SLeaf(page, entries) && Owned(size, v, s, [t], meta.nextFree)
      requires Wf(t, lo, hi) && FromLo(lo, key) && UptoHi(key, hi)
      requires forall p | p != page :: SamePage(v, s, View(), sizes, p)
      requires page in sizes ==> sizes[page] >= EncodedLen(size, Leaf(entries))
      requires AllocatedOnly(dirty, meta.nextFree)
      modifies this`dirty, this`sizes, this`meta, this`metaDirty
      ensures |out| == 1 + |seps| && seps == if split.Some? then [split.value.0] else []
      ensures out[0].page == page && (split.Some? ==> out[1].page == split.value.1)
      ensures WfKids(seps, out, lo, hi) && forall i | 0 <= i < |out| :: out[i].SLeaf?
      ensures FlatAll(out) == Put(Flat(t), key, rec)
      ensures Owned(size, View(), sizes, out, meta.nextFree)
      ensures Grown(t, out, old(meta).nextFree, meta.nextFree)
      ensures Framed(v, s, old(meta).nextFree, View(), sizes, meta.nextFree, t)
      ensures meta.root == old(meta).root
      ensures meta.count + |entries| == old(meta).count + |FlatAll(out)|
      ensures metaDirty || (!old(metaDirty) && meta == old(meta))
      ensures split.None? ==> EncodedLen(size, Leaf(out[0].entries)) <= limit
      ensures Absorbs(size, limit, t, key, rec) ==>
        split.None? && View() == old(View())[page := Leaf(entries)] && meta == old(meta) && metaDirty == old(metaDirty)
      ensures split.Some? ==> meta.nextFree > old(meta).nextFree
      ensures AllocatedOnly(dirty, meta.nextFree)
    {
      hide Less, Put, Framed, Grown, EncodedLen, Wf, Owned, WfKids, FlatAll, OwnerLeaf, Flat, AllocatedOnly,
           SamePage, View;
      OwnedRoot(size, v, s, t, meta.nextFree);
      LeafOwns(t, key);
      FlatOfLeaf(t);
      ghost var free, v0: map<PageNo, Node>, s0 := meta.nextFree, View(), sizes;
      var entries', est := PlaceEntry(page, entries, key, rec);
      ghost var left, right;
      split, left, right := StoreLeaf(page, entries', est);
      if split.None? {
        OnlyPage(v0, s0, View(), sizes, page);
      } else {
        OnlyPages(v0, s0, View(), sizes, page, free);
      }
      out := if right == [] then [SLeaf(page, left)] else [SLeaf(page, left), SLeaf(free, right)];
      seps := if right == [] then [] else [right[0].key];
      LeafOut(t, left, right, key, rec, lo, hi, free);
      LeafResult(size, v, s, v0, s0, View(), sizes, free, t, left, right);
    }

    /** Put an internal node back over a child that absorbed the insert. */
    method PutBack(page: PageNo, keys: seq<Key>, children: seq<PageNo>, ghost idx: nat, ghost key: Key,
                   ghost rec: Record,
                  ghost t: Shape, ghost lo: Bound, ghost hi: Bound, ghost h: nat,
                  ghost subOut: seq<Shape>, ghost subSeps: seq<Key>,
                  ghost v: map<PageNo, Node>, ghost s: map<PageNo, nat>, ghost free: PageNo,
                  ghost v1: map<PageNo, Node>, ghost s1: map<PageNo, nat>)
      returns (ghost out: seq<Shape>)
      requires t.SInner? && t.page == page && |t.kids| == |t.keys| + 1 && idx == ChildIndex(t.keys, key)
      requires Owned(size, v, s, [t], free) && Wf(t, lo, hi) && Uniform(t, h)
      requires forall p | p != page :: SamePage(v, s, v1, s1, p)
      requires |subOut| == 1 + |subSeps| && |subSeps| <= 1
      requires WfKids(subSeps, subOut, KidLo(t.keys, idx, lo), KidHi(t.keys, idx, hi))
      requires forall i | 0 <= i < |subOut| :: Uniform(subOut[i], h - 1)
      requires FlatAll(subOut) == Put(Flat(t.kids[idx]), key, rec)
      requires Owned(size, View(), sizes, subOut, meta.nextFree)
      requires Grown(t.kids[idx], subOut, free, meta.nextFree)
      requires Framed(v1, s1, free, View(), sizes, meta.nextFree, t.kids[idx])
      requires AllocatedOnly(dirty, meta.nextFree)
      requires t.keys == keys && PagesOf(t.kids) == children && subSeps == [] && subOut[0].page == children[idx]
      requires page in s1 ==> s1[page] >= EncodedLen(size, Internal(keys, children))
      modifies this`dirty
      ensures |out| == 1 && out[0].page == page
      ensures WfKids([], out, lo, hi) && Uniform(out[0], h)
      ensures FlatAll(out) == Put(Flat(t), key, rec)
      ensures |FlatAll(out)| + |Flat(t.kids[idx])| == |Flat(t)| + |FlatAll(subOut)|
      ensures Owned(size, View(), sizes, out, meta.nextFree)
      ensures Grown(t, out, free, meta.nextFree)
      ensures Framed(v, s, free, View(), sizes, meta.nextFree, t)
      ensures OwnerLeaf(out[0], key) == OwnerLeaf(subOut[0], key)
      ensures View() == old(View())[page := Internal(keys, children)]
      ensures AllocatedOnly(dirty, meta.nextFree)
    {
      hide Wf, WfKids, FlatAll, Flat, Uniform, Rep, Count, CountAll, Put, EncodedLen, Owned, Grown, Framed, SamePage;
      hide OwnerLeaf, GrowKeys, KidLo, KidHi, Regrow, PagesOf, ChildIndex;
      ghost var w := View();
      dirty := dirty[page := Internal(keys, children)];
      out := [SInner(page, keys, Regrow(t.kids, idx, subOut))];
      NoNewKeys(keys, idx);
      GrownOrder(t, idx, subSeps, subOut, out[0], key, rec, lo, hi, h);
      PutBackResult(size, v, s, free, v1, s1, w, sizes, meta.nextFree, View(), t, idx, subOut, out[0]);
    }

    /** Store an internal node that took in its child's new sibling, splitting it when it overflows. */
    method StoreInternal(page: PageNo, keys': seq<Key>, children': seq<PageNo>, ghost idx: nat, ghost key: Key,
                         ghost rec: Record,
                  ghost t: Shape, ghost lo: Bound, ghost hi: Bound, ghost h: nat,
                  ghost subOut: seq<Shape>, ghost subSeps: seq<Key>,
                  ghost v: map<PageNo, Node>, ghost s: map<PageNo, nat>, ghost free: PageNo,
                  ghost v1: map<PageNo, Node>, ghost s1: map<PageNo, nat>)
      returns (split: Option<(Key, PageNo)>, ghost out: seq<Shape>, ghost seps: seq<Key>)
      requires t.SInner? && t.page == page && |t.kids| == |t.keys| + 1 && idx == ChildIndex(t.keys, key)
      requires Owned(size, v, s, [t], free) && Wf(t, lo, hi) && Uniform(t, h)
      requires forall p | p != page :: SamePage(v, s, v1, s1, p)
      requires |subOut| == 1 + |subSeps| && |subSeps| <= 1
      requires WfKids(subSeps, subOut, KidLo(t.keys, idx, lo), KidHi(t.keys, idx, hi))
      requires forall i | 0 <= i < |subOut| :: Uniform(subOut[i], h - 1)
      requires FlatAll(subOut) == Put(Flat(t.kids[idx]), key, rec)
      requires Owned(size, View(), sizes, subOut, meta.nextFree)
      requires Grown(t.kids[idx], subOut, free, meta.nextFree)
      requires Framed(v1, s1, free, View(), sizes, meta.nextFree, t.kids[idx])
      requires AllocatedOnly(dirty, meta.nextFree)
      requires |subSeps| == 1 && keys' == GrowKeys(t.keys, idx, subSeps)
               && children' == PagesOf(Regrow(t.kids, idx, subOut))
      modifies this`dirty, this`sizes, this`meta, this`metaDirty
      ensures |out| == 1 + |seps| && seps == if split.Some? then [split.value.0] else []
      ensures out[0].page == page && (split.Some? ==> out[1].page == split.value.1)
      ensures WfKids(seps, out, lo, hi) && forall i | 0 <= i < |out| :: Uniform(out[i], h)
      ensures FlatAll(out) == Put(Flat(t), key, rec)
      ensures |FlatAll(out)| + |Flat(t.kids[idx])| == |Flat(t)| + |FlatAll(subOut)|
      ensures Owned(size, View(), sizes, out, meta.nextFree)
      ensures Grown(t, out, free, meta.nextFree)
      ensures Framed(v, s, free, View(), sizes, meta.nextFree, t)
      ensures meta.nextFree >= old(meta).nextFree && AllocatedOnly(dirty, meta.nextFree)
      ensures meta == old(meta).(nextFree := meta.nextFree) && (metaDirty || (!old(metaDirty) && meta == old(meta)))
    {
      hide Less, Put, Count, CountAll, Rep, OwnerLeaf, Flat, FlatAll, ChildIndex, Owned, Grown, Framed;
      ghost var w, z, free' := View(), sizes, meta.nextFree;
      var node := Internal(keys', children');
      ghost var t' := SInner(page, keys', Regrow(t.kids, idx, subOut));
      GrownOrder(t, idx, subSeps, subOut, t', key, rec, lo, hi, h);
      KidApart(size, v, s, t, idx, free);
      var over, est := Overflowed(node, EncodedLen(size, node));
      if !over {
        SetSized(page, node, est);
        AbsorbOwned(size, v, s, free, v1, s1, w, z, free', View(), sizes, t, idx, subOut, keys');
        return None, [t'], [];
      }
      ghost var w', z' := w[page := node], z - {page};
      AbsorbOwned(size, v, s, free, v1, s1, w, z, free', w', z', t, idx, subOut, keys');
      split, out, seps := SplitInternal(page, keys', children', t', lo, hi, h, w', z');
      GrownTwice(v, s, free, w', z', free', View(), sizes, t, t', out);
    }

    method SplitInternal(page: PageNo, keys: seq<Key>, children: seq<PageNo>, ghost t: Shape, ghost lo: Bound,
                         ghost hi: Bound, ghost h: nat,
                         ghost w: map<PageNo, Node>, ghost z: map<PageNo, nat>)
      returns (split: Option<(Key, PageNo)>, ghost out: seq<Shape>, ghost seps: seq<Key>)
      requires t.SInner? && t.page == page && t.keys == keys && PagesOf(t.kids) == children && |t.kids| == |keys| + 1
      requires keys != [] && Wf(t, lo, hi) && Uniform(t, h) && Owned(size, w, z, [t], meta.nextFree)
      requires AllocatedOnly(dirty, meta.nextFree)
      requires forall p | p != page :: SamePage(w, z, View(), sizes, p)
      modifies this`dirty, this`sizes, this`meta, this`metaDirty
      ensures split.Some? && |out| == 2 && seps == [split.value.0] && out[0].page == page
              && out[1].page == split.value.1
      ensures WfKids(seps, out, lo, hi) && Uniform(out[0], h) && Uniform(out[1], h)
      ensures FlatAll(out) == Flat(t) && AllocatedOnly(dirty, meta.nextFree)
      ensures meta == old(meta).(nextFree := old(meta).nextFree + 1) && metaDirty
      ensures Owned(size, View(), sizes, out, meta.nextFree) && Grown(t, out, old(meta).nextFree, meta.nextFree)
      ensures forall p | p != page && p != old(meta).nextFree :: SamePage(w, z, View(), sizes, p)
    {
      ghost var v0, s0 := View(), sizes;
      CountOne(t, page);
      var mid := |keys| / 2;
      var right := Alloc();
      SetNode(page, Internal(keys[..mid], children[..mid + 1]));
      SetNode(right, Internal(keys[mid + 1..], children[mid + 1..]));
      split, seps := Some((keys[mid], right)), [keys[mid]];
      ghost var a, b := SInner(page, keys[..mid], t.kids[..mid + 1]), SInner(right, keys[mid + 1..], t.kids[mid + 1..]);
      out := [a, b];
      SplitOut(t, mid, lo, hi, h, right);
      assert PagesOf(a.kids) == children[..mid + 1] && PagesOf(b.kids) == children[mid + 1..];
      forall p | p != page && p != right ensures SamePage(w, z, View(), sizes, p) { assert SamePage(w, z, v0, s0, p); }
      HalvesOwned(size, w, z, right, View(), sizes, t, a, b);
    }

    // ---------- the operations ----------

    /** Look a key up. */
    method Lookup(key: Key) returns (r: Option<Record>)
      requires Valid()
      modifies this`sizes
      ensures Valid() && Model() == old(Model())
      ensures r == if key in Model() then Some(Model()[key]) else None
    {
      WfArity(shape, None, None);
      WfFlat(shape, None, None);
      GetOwner(shape, key, None, None);
      GetIsLookup(Flat(shape), key);
      var page := meta.root;
      ghost var t := shape;
      while true
        invariant Valid() && t.page == page && Rep(View(), t) && Arity(t)
        invariant OwnerLeaf(t, key) == OwnerLeaf(shape, key)
        decreases t
      {
        var n := ReadNode(page);
        match n {
          case Leaf(entries) =>
            GetSplice(entries, key);
            var i := LowerBound(entries, key);
            return if Hit(entries, key) then Some(entries[i].rec) else None;
          case Internal(keys, children) =>
            var idx := ChildIndex(keys, key);
            page, t := children[idx], t.kids[idx];
        }
      }
    }

    /** Remove a key; an emptied leaf keeps its page. */
    method Remove(key: Key) returns (found: bool)
      requires Valid()
      modifies this
      ensures Valid()
      ensures found <==> key in old(Model())
      ensures Model() == old(Model()) - {key}
      ensures meta.nextFree == old(meta).nextFree
    {
      WfArity(shape, None, None);
      WfFlat(shape, None, None);
      DropIsRemoval(Flat(shape), key);
      GetOwner(shape, key, None, None);
      GetIsLookup(Flat(shape), key);
      OwnerPageIn(View(), shape, key);
      OwnerSorted(shape, key, None, None);
      hide Represents, SizesOk, Less, Get, Drop, ToMap, Hit, LowerBound, Wf, Flat, Sorted, Rep, Arity, OwnerLeaf,
           OwnerPage, ChildIndex;
      var page := meta.root;
      ghost var t := shape;
      while true
        invariant Valid() && t.page == page && Rep(View(), t) && Arity(t)
        invariant OwnerLeaf(t, key) == OwnerLeaf(shape, key) && OwnerPage(t, key) == OwnerPage(shape, key)
        invariant dirty == old(dirty) && meta == old(meta) && metaDirty == old(metaDirty) && shape == old(shape)
        decreases t
      {
        var n := ReadNode(page);
        OwnerBelow(View(), t, key);
        match n {
          case Leaf(entries) =>
            DropAt(entries, key);
            var i := LowerBound(entries, key);
            if !Hit(entries, key) { return false; }
            DropFromLeaf(page, entries[..i] + entries[i + 1..], key);
            return true;
          case Internal(keys, children) =>
            var idx := ChildIndex(keys, key);
            page, t := children[idx], t.kids[idx];
        }
      }
    }

    method DropFromLeaf(page: PageNo, entries': seq<Entry>, ghost key: Key)
      requires Valid() && page == OwnerPage(shape, key)
      requires key in Model() && entries' == Drop(OwnerLeaf(shape, key), key)
      modifies this
      ensures Valid() && Model() == old(Model()) - {key} && meta.nextFree == old(meta).nextFree
    {
      hide Less, Drop, Flat, Count, Wf, EncodedLen, Uniform, DropShape, OwnerLeaf, OwnerPage;
      WfArity(shape, None, None);
      WfFlat(shape, None, None);
      OwnerPageIn(View(), shape, key);
      DropIsRemoval(Flat(shape), key);
      DropShapeOk(shape, key, None, None, height);
      forall p ensures Count(DropShape(shape, key), p) == Count(shape, p) { DropShapeCount(shape, key, p); }
      ghost var v := View();
      SetNode(page, Leaf(entries'));
      assert View() == v[page := Leaf(entries')];
      DropRep(v, View(), shape, key);
      meta := meta.(count := SaturatingSub(meta.count, 1));
      metaDirty := true;
      shape := DropShape(shape, key);
    }

    /** Insert or replace. A leaf that took the record without any page being allocated still encodes within the fill
        limit; and a record already held leaves the snapshot as it was exactly when its leaf is within the limit. */
    method Insert(key: Key, rec: Record)
      requires Valid()
      modifies this
      ensures Valid()
      ensures Model() == old(Model())[key := rec]
      ensures meta.nextFree >= old(meta).nextFree
      ensures meta.nextFree == old(meta).nextFree ==> EncodedLen(size, Leaf(OwnerLeaf(shape, key))) <= limit
      ensures old(key in Model() && Model()[key] == rec) ==>
                (Snapshot() == old(Snapshot()) <==> old(EncodedLen(size, Leaf(OwnerLeaf(shape, key))) <= limit))
    {
      hide Represents, SizesOk, Less, Put, EncodedLen, Flat, ToMap, OwnerLeaf;
      RootOrder(Snapshot(), shape, height);
      PutIsUpdate(Flat(shape), key, rec);
      if key in Model() && Model()[key] == rec { HeldInOwner(shape, key, rec, None, None); }
      InsertAtRoot(key, rec);
      if old(key in Model() && Model()[key] == rec) && Snapshot() == old(Snapshot()) {
        SameShape(Snapshot(), shape, height, old(shape), old(height));
      }
    }

    /** Insert from the root down, growing a new root when the old one splits. */
    method InsertAtRoot(key: Key, rec: Record)
      requires Valid()
      modifies this
      ensures Valid() && Flat(shape) == Put(old(Flat(shape)), key, rec)
      ensures meta.nextFree >= old(meta).nextFree
      ensures meta.nextFree == old(meta).nextFree ==> EncodedLen(size, Leaf(OwnerLeaf(shape, key))) <= limit
      ensures old(Absorbs(size, limit, shape, key, rec)) ==> Snapshot() == old(Snapshot())
    {
      hide Less, Put, EncodedLen, Framed, Absorbs, OwnerLeaf, Flat, Wf, Uniform;
      var root := meta.root;
      OwnedWhole(size, View(), sizes, shape, meta.nextFree);
      RootCounts(shape);
      var split, out, seps := InsertInto(root, key, rec, shape, None, None, height);
      AfterInsert(size, old(View()), old(sizes), old(meta).nextFree, View(), sizes, meta.nextFree, shape, out);
      hide Owned, Grown, SizesOk, AllocatedOnly, WfKids, FlatAll, CountAll, Count;
      if split.None? {
        OneWf(out[0], seps, out);
        KeepRoot(out);
      } else {
        GrowRoot(root, split.value.0, split.value.1, out);
      }
    }

    /** The root absorbed the insert. */
    ghost method KeepRoot(out: seq<Shape>)
      requires |out| == 1 && out[0].page == meta.root && Rep(View(), out[0])
      requires Wf(out[0], None, None) && Uniform(out[0], height)
      requires forall p: PageNo :: CountAll(out, p) == if 1 <= p < meta.nextFree then 1 else 0
      requires AllocatedOnly(View(), meta.nextFree) && meta.count == |FlatAll(out)|
      requires SizesOk(size, View(), sizes) && MetaOf(Snapshot()) == meta
      modifies this`shape
      ensures Valid() && shape == out[0] && Flat(shape) == FlatAll(out)
    {
      shape := out[0];
      assert out == [shape];
      FlatOne(shape);
      forall p ensures CountAll(out, p) == Count(shape, p) { CountOne(shape, p); }
    }

    /** The root split: a new root over the two halves, one level taller. */
    method GrowRoot(root: PageNo, sep: Key, right: PageNo, ghost out: seq<Shape>)
      requires |out| == 2 && out[0].page == root && out[1].page == right
      requires WfKids([sep], out, None, None) && Uniform(out[0], height) && Uniform(out[1], height)
      requires Rep(View(), out[0]) && Rep(View(), out[1])
      requires forall p: PageNo :: CountAll(out, p) == if 1 <= p < meta.nextFree then 1 else 0
      requires AllocatedOnly(View(), meta.nextFree) && meta.count == |FlatAll(out)| && meta.nextFree > 1
      requires SizesOk(size, View(), sizes)
      requires metaDirty
      modifies this
      ensures Valid() && Flat(shape) == FlatAll(out) && meta.nextFree == old(meta).nextFree + 1
    {
      ghost var v, z := View(), sizes;
      var newRoot := Alloc();
      SetNode(newRoot, Internal([sep], [root, right]));
      RootOver(size, v, z, meta, sep, out, newRoot, height);
      assert View() == v[newRoot := Internal([sep], [root, right])];
      hide Represents, SizesOk, Wf, Uniform, Flat, FlatAll, CountAll, Rep;
      meta := meta.(root := newRoot);
      shape := SInner(newRoot, [sep], out);
      height := height + 1;
    }

    /** Every record, in key order. */
    method Scan() returns (all: seq<Entry>)
      requires Valid()
      modifies this`sizes
      ensures Valid()
      ensures Sorted(all) && ToMap(all) == Model() && |all| == meta.count
    {
      WfFlat(shape, None, None);
      WfArity(shape, None, None);
      all := Collect(meta.root, [], shape);
      assert all == Flat(shape);
    }

    method Collect(page: PageNo, acc: seq<Entry>, ghost t: Shape) returns (all: seq<Entry>)
      requires Valid() && t.page == page && Rep(View(), t) && Arity(t)
      modifies this`sizes
      decreases t
      ensures Valid() && all == acc + Flat(t)
    {
      hide Represents, SizesOk;
      var n := ReadNode(page);
      match n {
        case Leaf(entries) => all := acc + entries;
        case Internal(keys, children) =>
          all := acc;
          for i := 0 to |children|
            invariant Valid() && all == acc + FlatAll(t.kids[..i])
          {
            all := Collect(children[i], all, t.kids[i]);
            FlatStep(t.kids, i);
          }
          assert t.kids[..|children|] == t.kids;
      }
    }

    /** Every record whose key starts with a prefix, in key order, visiting only subtrees whose separators'
        range meets the prefix range. */
    method ScanPrefix(prefix: Key) returns (hits: seq<Entry>)
      requires Valid()
      modifies this`sizes
      ensures Valid()
      ensures exists all :: Sorted(all) && ToMap(all) == Model() && hits == WithPrefix(all, prefix)
    {
      WfFlat(shape, None, None);
      WfArity(shape, None, None);
      var hi := PrefixUpperLoop(prefix);
      hits := CollectRange(meta.root, prefix, hi, [], shape, None, None);
      assert hits == Slice(Flat(shape), prefix, hi);
      SliceIsPrefix(Flat(shape), prefix);
    }

    static method SliceLeaf(entries: seq<Entry>, lo: Key, hi: Bound, acc: seq<Entry>) returns (hits: seq<Entry>)
      ensures hits == acc + Slice(entries, lo, hi)
    {
      hits := acc;
      for i := 0 to |entries|
        invariant hits == acc + Slice(entries[..i], lo, hi)
      {
        assert entries[..i + 1] == entries[..i] + [entries[i]];
        SliceConcat(entries[..i], [entries[i]], lo, hi);
        if Within(entries[i].key, lo, hi) { hits := hits + [entries[i]]; }
      }
      assert entries[..|entries|] == entries;
    }

    method CollectRange(page: PageNo, lo: Key, hi: Bound, acc: seq<Entry>, ghost t: Shape, ghost tlo: Bound,
                        ghost thi: Bound)
      returns (hits: seq<Entry>)
      requires Valid() && t.page == page && Rep(View(), t) && Arity(t) && Wf(t, tlo, thi)
      modifies this`sizes
      decreases t, 1
      ensures Valid() && hits == acc + Slice(Flat(t), lo, hi)
    {
      hide Represents, SizesOk, Less, Within, Wf;
      var n := ReadNode(page);
      match n {
        case Leaf(entries) => hits := SliceLeaf(entries, lo, hi, acc);
        case Internal(keys, children) =>
          assert t.kids[..|children|] == t.kids;
          hits := CollectKids(keys, children, |children|, lo, hi, acc, t, tlo, thi);
      }
    }

    /** Collect from the first n children, skipping each whose separator range misses the asked one. */
    method CollectKids(keys: seq<Key>, children: seq<PageNo>, n: nat, lo: Key, hi: Bound, acc: seq<Entry>,
                       ghost t: Shape, ghost tlo: Bound, ghost thi: Bound)
      returns (hits: seq<Entry>)
      requires Valid() && t.SInner? && keys == t.keys && children == PagesOf(t.kids) && n <= |children| == |keys| + 1
      requires (forall i | 0 <= i < |t.kids| :: Rep(View(), t.kids[i]) && Arity(t.kids[i])) && Wf(t, tlo, thi)
      modifies this`sizes
      decreases t, 0
      ensures Valid() && hits == acc + Slice(FlatAll(t.kids[..n]), lo, hi)
    {
      hide Represents, SizesOk, Less, Within, WfKids, Flat, FlatAll, Slice, Rep, Arity, EncodedLen;
      hits := acc;
      assert FlatAll(t.kids[..0]) == [] && Slice([], lo, hi) == [] by { EmptyRuns(t.kids, lo, hi); }
      for i := 0 to n
        invariant Valid() && hits == acc + Slice(FlatAll(t.kids[..i]), lo, hi)
      {
        FlatStep(t.kids, i);
        SliceConcat(FlatAll(t.kids[..i]), Flat(t.kids[i]), lo, hi);
        if Overlaps(keys, i, lo, hi) {
          WfKid(keys, t.kids, tlo, thi, i);
          hits := CollectRange(children[i], lo, hi, hits, t.kids[i], KidLo(keys, i, tlo), KidHi(keys, i, thi));
        } else {
          SkippedIsEmpty(keys, t.kids, tlo, thi, i, lo, hi);
        }
      }
    }

    /** Every key in the leaves at these pages: the merge prefilter. */
    method KeysInPages(pages: seq<PageNo>) returns (keys: set<Key>)
      requires Valid()
      modifies this`sizes
      ensures Valid() && Model() == old(Model())
      ensures keys == LeafKeys(View(), pages) && View() == old(View())
    {
      keys := {};
      for i := 0 to |pages|
        invariant Valid() && keys == LeafKeys(View(), pages[..i])
      {
        assert pages[..i + 1] == pages[..i] + [pages[i]];
        LeafKeysStep(View(), pages[..i], pages[i]);
        if pages[i] != META_PAGE {
          var n := ReadNode(pages[i]);
          if n.Leaf? { keys := keys + KeySet(n.entries); }
        }
      }
      assert pages[..|pages|] == pages;
    }

    /** Write everything this transaction touched, page by page. */
    method Flush() returns (m: Manifest)
      requires Valid()
      ensures m == Snapshot() && WellFormed(m) && Contents(m) == Model()
    {
      ShapeUnique(Snapshot(), shape, height);
      var staged := Stage(base.nodes, dirty);
      m := Manifest(if metaDirty then Some(meta) else base.meta, staged);
    }

    static method Stage(base: map<PageNo, Node>, dirty: map<PageNo, Node>) returns (staged: map<PageNo, Node>)
      ensures staged == base + dirty
    {
      var rest := dirty.Keys;
      staged := base;
      while rest != {}
        invariant rest <= dirty.Keys
        invariant staged == base + map p | p in dirty && p !in rest :: dirty[p]
      {
        var p :| p in rest;
        staged, rest := staged[p := dirty[p]], rest - {p};
      }
    }
  }
}
