/** How an insert changes the shapes at a page: ownership of pages, order and contents, step by step. */
module BTreeGrowth {
  import opened Bytes
  import opened Records
  import opened SortedEntries
  import opened BTreeShape
  import opened PageSize

  // ---------- what a subtree owns ----------

  /** A stored size never under-counts the node it is for. */
  ghost predicate OverCounts(size: Sizer, view: map<PageNo, Node>, sizes: map<PageNo, nat>, p: PageNo) {
    p in sizes ==> sizes[p] >= EncodedLen(size, At(view, p))
  }

  /** The shapes occupy distinct allocated pages, hold what the view says, and their sizes over-count. */
  ghost predicate Owned(size: Sizer, view: map<PageNo, Node>, sizes: map<PageNo, nat>, ts: seq<Shape>, free: PageNo) {
    && (forall i | 0 <= i < |ts| :: Rep(view, ts[i]))
    && forall p: PageNo | CountAll(ts, p) > 0 ::
         CountAll(ts, p) == 1 && 1 <= p < free && OverCounts(size, view, sizes, p)
  }

  ghost predicate SamePage(view: map<PageNo, Node>, sizes: map<PageNo, nat>,
                           view': map<PageNo, Node>, sizes': map<PageNo, nat>, p: PageNo) {
    && At(view, p) == At(view', p)
    && (p in sizes <==> p in sizes')
    && (p in sizes ==> sizes[p] == sizes'[p])
  }

  /** Only pages of the subtree and freshly allocated ones were touched. */
  ghost predicate Framed(view: map<PageNo, Node>, sizes: map<PageNo, nat>, free: PageNo,
                         view': map<PageNo, Node>, sizes': map<PageNo, nat>, free': PageNo, t: Shape) {
    forall p: PageNo | Count(t, p) == 0 && !(free <= p < free') :: SamePage(view, sizes, view', sizes', p)
  }

  /** No page lost or shared: the results occupy t's pages and the fresh ones, each once. */
  ghost predicate Grown(t: Shape, out: seq<Shape>, free: PageNo, free': PageNo) {
    && free <= free'
    && forall p: PageNo :: CountAll(out, p) == Count(t, p) + if free <= p < free' then 1 else 0
  }

  // ---------- keeping ownership through an insert ----------

  lemma CountOne(t: Shape, p: PageNo)
    ensures CountAll([t], p) == Count(t, p)
  {
  }

  /** A child owns its pages, whatever happened at its parent's page. */
  lemma KidOwned(size: Sizer, v: map<PageNo, Node>, s: map<PageNo, nat>,
                 v': map<PageNo, Node>, s': map<PageNo, nat>, t: Shape, i: nat, free: PageNo)
    requires Owned(size, v, s, [t], free) && t.SInner? && i < |t.kids|
    requires forall p | p != t.page :: SamePage(v, s, v', s', p)
    ensures Owned(size, v', s', [t.kids[i]], free)
    ensures CountAll(t.kids, t.page) == 0
  {
    var kid := t.kids[i];
    assert [t][0] == t;
    CountOne(t, t.page);
    forall p: PageNo | Count(kid, p) > 0
      ensures Count(kid, p) == 1 && 1 <= p < free && OverCounts(size, v', s', p) && At(v, p) == At(v', p)
    {
      CountOne(t, p);
      CountSplit(t.kids, i, p);
      assert SamePage(v, s, v', s', p);
    }
    RepFrame(v, v', kid);
    forall p ensures CountAll([kid], p) == Count(kid, p) { CountOne(kid, p); }
  }

  /** Replacing child i by the shapes an insert left of it. */
  function Regrow(kids: seq<Shape>, i: nat, out: seq<Shape>): seq<Shape>
    requires i < |kids|
  {
    kids[..i] + out + kids[i + 1..]
  }

  lemma RegrowCount(kids: seq<Shape>, i: nat, out: seq<Shape>, p: PageNo)
    requires i < |kids|
    ensures CountAll(Regrow(kids, i, out), p) + Count(kids[i], p) == CountAll(kids, p) + CountAll(out, p)
  {
    CountSplit(kids, i, p);
    CountAllConcat(kids[..i] + out, kids[i + 1..], p);
    CountAllConcat(kids[..i], out, p);
  }

  lemma RegrowFlat(kids: seq<Shape>, i: nat, out: seq<Shape>)
    requires i < |kids|
    ensures FlatAll(Regrow(kids, i, out)) == FlatAll(kids[..i]) + FlatAll(out) + FlatAll(kids[i + 1..])
  {
    FlatAllConcat(kids[..i] + out, kids[i + 1..]);
    FlatAllConcat(kids[..i], out);
  }

  /** Putting the parent back after its child grew: siblings are untouched and all sizes still over-count. */
  lemma RegrowOwned(size: Sizer, v: map<PageNo, Node>, s: map<PageNo, nat>, free: PageNo,
                    w: map<PageNo, Node>, z: map<PageNo, nat>, free': PageNo,
                    w': map<PageNo, Node>, z': map<PageNo, nat>,
                    t: Shape, i: nat, out: seq<Shape>, keys: seq<Key>)
    requires t.SInner? && i < |t.kids| && Owned(size, v, s, [t], free)
    requires Owned(size, w, z, out, free') && Grown(t.kids[i], out, free, free')
    requires forall p: PageNo | Count(t.kids[i], p) == 0 && !(free <= p < free') && p != t.page ::
               SamePage(v, s, w, z, p)
    requires forall p | p != t.page :: SamePage(w, z, w', z', p)
    requires At(w', t.page) == Internal(keys, PagesOf(Regrow(t.kids, i, out))) && OverCounts(size, w', z', t.page)
    ensures var t' := SInner(t.page, keys, Regrow(t.kids, i, out));
            Owned(size, w', z', [t'], free') && Grown(t, [t'], free, free')
  {
    var kids' := Regrow(t.kids, i, out);
    var t' := SInner(t.page, keys, kids');
    assert [t][0] == t;
    forall p: PageNo ensures CountAll([t'], p) == Count(t, p) + if free <= p < free' then 1 else 0 {
      CountOne(t', p);
      RegrowCount(t.kids, i, out, p);
    }
    forall p: PageNo | Count(t, p) > 0
      ensures Count(t, p) == 1 && 1 <= p < free && OverCounts(size, v, s, p)
    {
      CountOne(t, p);
    }
    assert Count(t, t.page) > 0;
    forall p: PageNo | CountAll([t'], p) > 0
      ensures CountAll([t'], p) == 1 && 1 <= p < free' && OverCounts(size, w', z', p)
    {
      if p != t.page {
        CountSplit(t.kids, i, p);
        assert SamePage(w, z, w', z', p);
        if CountAll(out, p) == 0 { assert SamePage(v, s, w, z, p); }
      }
    }
    forall j | 0 <= j < |kids'| ensures Rep(w', kids'[j]) {
      if i <= j < i + |out| {
        var o := out[j - i];
        assert kids'[j] == o;
        forall p | Count(o, p) > 0 ensures At(w, p) == At(w', p) {
          CountSplit(out, j - i, p);
          CountSplit(t.kids, i, t.page);
          assert SamePage(w, z, w', z', p);
        }
        RepFrame(w, w', o);
      } else {
        var j0 := if j < i then j else j - |out| + 1;
        assert kids'[j] == t.kids[j0];
        SiblingKept(v, s, free, w, z, free', w', z', t, i, j0);
      }
    }
  }

  lemma SiblingKept(v: map<PageNo, Node>, s: map<PageNo, nat>, free: PageNo,
                    w: map<PageNo, Node>, z: map<PageNo, nat>, free': PageNo,
                    w': map<PageNo, Node>, z': map<PageNo, nat>, t: Shape, i: nat, j: nat)
    requires t.SInner? && i < |t.kids| && j < |t.kids| && i != j && Rep(v, t)
    requires forall p: PageNo | Count(t, p) > 0 :: Count(t, p) == 1 && p < free
    requires forall p: PageNo | Count(t.kids[i], p) == 0 && !(free <= p < free') && p != t.page ::
               SamePage(v, s, w, z, p)
    requires forall p | p != t.page :: SamePage(w, z, w', z', p)
    ensures Rep(w', t.kids[j])
  {
    forall p | Count(t.kids[j], p) > 0 ensures At(v, p) == At(w', p) {
      CountSplit(t.kids, j, p);
      CountSplit(t.kids, i, p);
      TwoKids(t.kids, i, j, p);
      assert Count(t, p) == 1;
      assert SamePage(v, s, w, z, p) && SamePage(w, z, w', z', p);
    }
    RepFrame(v, w', t.kids[j]);
  }

  /** Splitting a node in two onto a fresh page. */
  lemma HalvesOwned(size: Sizer, v: map<PageNo, Node>, s: map<PageNo, nat>, free: PageNo,
                    v': map<PageNo, Node>, s': map<PageNo, nat>, t: Shape, a: Shape, b: Shape)
    requires Owned(size, v, s, [t], free)
    requires a.page == t.page && b.page == free
    requires if t.SLeaf? then a.SLeaf? && b.SLeaf? else a.SInner? && b.SInner? && t.kids == a.kids + b.kids
    requires forall p | p != t.page && p != free :: SamePage(v, s, v', s', p)
    requires forall x | x in [a, b] ::
               && At(v', x.page) == (if x.SLeaf? then Leaf(x.entries) else Internal(x.keys, PagesOf(x.kids)))
               && OverCounts(size, v', s', x.page)
    ensures Owned(size, v', s', [a, b], free + 1) && Grown(t, [a, b], free, free + 1)
  {
    var out := [a, b];
    assert [t][0] == t && out[1..] == [b] && a in out && b in out;
    forall p: PageNo ensures CountAll(out, p) == Count(t, p) + if free <= p < free + 1 then 1 else 0 {
      CountOne(t, p);
      CountOne(b, p);
      if t.SInner? { CountAllConcat(a.kids, b.kids, p); }
    }
    forall p: PageNo | Count(t, p) > 0
      ensures Count(t, p) == 1 && 1 <= p < free
              && (p != t.page ==> At(v, p) == At(v', p) && OverCounts(size, v', s', p))
    {
      CountOne(t, p);
      if p != t.page { assert SamePage(v, s, v', s', p); }
    }
    assert Count(t, t.page) == 1;
    if t.SInner? {
      forall i | 0 <= i < |t.kids| ensures Rep(v', t.kids[i]) {
        forall p | Count(t.kids[i], p) > 0 ensures At(v, p) == At(v', p) {
          CountSplit(t.kids, i, p);
        }
        RepFrame(v, v', t.kids[i]);
      }
      assert forall i | 0 <= i < |a.kids| :: a.kids[i] == t.kids[i];
      assert forall i | 0 <= i < |b.kids| :: b.kids[i] == t.kids[|a.kids| + i];
    }
  }

  /** A leaf rewritten in place. */
  lemma LeafOwned(size: Sizer, v: map<PageNo, Node>, s: map<PageNo, nat>, free: PageNo,
                  v': map<PageNo, Node>, s': map<PageNo, nat>, t: Shape, a: Shape)
    requires Owned(size, v, s, [t], free) && t.SLeaf? && a.SLeaf? && a.page == t.page
    requires At(v', a.page) == Leaf(a.entries) && OverCounts(size, v', s', a.page)
    ensures Owned(size, v', s', [a], free) && Grown(t, [a], free, free)
  {
    assert [t][0] == t && [a][0] == a;
    forall p: PageNo ensures CountAll([a], p) == Count(t, p) {
      CountOne(t, p);
      CountOne(a, p);
    }
    CountOne(t, t.page);
  }

  /** What a leaf insert means for order and contents. */
  lemma LeafOut(t: Shape, left: seq<Entry>, right: seq<Entry>, key: Key, rec: Record, lo: Bound, hi: Bound,
                free: PageNo)
    requires t.SLeaf? && Wf(t, lo, hi) && FromLo(lo, key) && UptoHi(key, hi)
    requires left + right == Put(t.entries, key, rec)
    ensures var a, b := SLeaf(t.page, left), SLeaf(free, right);
            && (right == [] ==> WfKids([], [a], lo, hi) && FlatAll([a]) == Put(Flat(t), key, rec))
            && (right != [] ==> WfKids([right[0].key], [a, b], lo, hi) && FlatAll([a, b]) == Put(Flat(t), key, rec))
  {
    var s := left + right;
    PutSorted(t.entries, key, rec);
    PutRange(t.entries, key, rec, lo, hi);
    var a, b := SLeaf(t.page, left), SLeaf(free, right);
    FlatOne(a);
    FlatOne(b);
    if right == [] {
      assert left == s;
      BoundsAround(lo, key, hi);
    } else {
      CutLeaf(left, right, lo, hi);
      assert [a, b][1..] == [b];
      var seps: seq<Key> := [right[0].key];
      assert seps[1..] == [];
    }
  }

  lemma BoundsAround(lo: Bound, key: Key, hi: Bound)
    requires FromLo(lo, key) && UptoHi(key, hi)
    ensures LoHi(lo, hi) && LoHi(lo, Some(key)) && LoHi(Some(key), hi)
  {
    LessOrder();
  }

  /** A run cut in two, around the key the second part starts with. */
  lemma CutLeaf(left: seq<Entry>, right: seq<Entry>, lo: Bound, hi: Bound)
    requires right != [] && Sorted(left + right) && InRange(left + right, lo, hi)
    ensures Sorted(left) && InRange(left, lo, Some(right[0].key)) && LoHi(lo, Some(right[0].key))
    ensures Sorted(right) && InRange(right, Some(right[0].key), hi) && LoHi(Some(right[0].key), hi)
  {
    var s := left + right;
    assert forall i | 0 <= i < |left| :: s[i] == left[i];
    assert forall i | 0 <= i < |right| :: s[|left| + i] == right[i];
    assert s[|left|] == right[0];
    BoundsAround(lo, right[0].key, hi);
    forall i | 0 <= i < |right| ensures !Less(right[i].key, right[0].key) {
      LessTotal(right[0].key, right[i].key);
    }
  }

  lemma {:induction false} PutRange(s: seq<Entry>, key: Key, rec: Record, lo: Bound, hi: Bound)
    requires InRange(s, lo, hi) && FromLo(lo, key) && UptoHi(key, hi)
    ensures InRange(Put(s, key, rec), lo, hi)
  {
    if s != [] && !Less(key, s[0].key) && s[0].key != key {
      PutRange(s[1..], key, rec, lo, hi);
    }
  }

  function GrowKeys(keys: seq<Key>, i: nat, seps: seq<Key>): seq<Key>
    requires i <= |keys|
  {
    keys[..i] + seps + keys[i..]
  }

  /** An internal node over a grown child: order, contents and height. */
  lemma InnerOut(t: Shape, i: nat, seps: seq<Key>, out: seq<Shape>, key: Key, rec: Record, lo: Bound, hi: Bound, h: nat)
    requires t.SInner? && |t.kids| == |t.keys| + 1 && i == ChildIndex(t.keys, key)
    requires Wf(t, lo, hi) && Uniform(t, h)
    requires |out| == 1 + |seps| && |seps| <= 1
    requires WfKids(seps, out, KidLo(t.keys, i, lo), KidHi(t.keys, i, hi))
    requires forall j | 0 <= j < |out| :: Uniform(out[j], h - 1)
    requires FlatAll(out) == Put(Flat(t.kids[i]), key, rec)
    ensures var t' := SInner(t.page, GrowKeys(t.keys, i, seps), Regrow(t.kids, i, out));
            && Wf(t', lo, hi) && Uniform(t', h)
            && Flat(t') == Put(Flat(t), key, rec)
            && |Flat(t')| + |Flat(t.kids[i])| == |Flat(t)| + |FlatAll(out)|
  {
    if seps == [] {
      assert out == [out[0]];
      ReplaceWf(t.keys, t.kids, lo, hi, i, out[0]);
      assert Regrow(t.kids, i, out) == t.kids[i := out[0]];
      assert GrowKeys(t.keys, i, seps) == t.keys;
    } else {
      assert out == [out[0], out[1]] && out[1..] == [out[1]] && seps == [seps[0]] && seps[1..] == [];
      SpliceWf(t.keys, t.kids, lo, hi, i, out[0], seps[0], out[1]);
      assert Regrow(t.kids, i, out) == SpliceKids(t.kids, i, out[0], out[1]);
      assert GrowKeys(t.keys, i, seps) == SpliceKeys(t.keys, i, seps[0]);
    }
    InnerContents(t, i, out, key, rec, lo, hi);
    UniformRegrow(t, i, out, GrowKeys(t.keys, i, seps), h);
  }

  lemma InnerContents(t: Shape, i: nat, out: seq<Shape>, key: Key, rec: Record, lo: Bound, hi: Bound)
    requires t.SInner? && |t.kids| == |t.keys| + 1 && Wf(t, lo, hi) && i == ChildIndex(t.keys, key)
    requires FlatAll(out) == Put(Flat(t.kids[i]), key, rec)
    ensures FlatAll(Regrow(t.kids, i, out)) == Put(Flat(t), key, rec)
    ensures |FlatAll(Regrow(t.kids, i, out))| + |Flat(t.kids[i])| == |Flat(t)| + |FlatAll(out)|
  {
    Locate(t.keys, t.kids, lo, hi, key);
    RegrowFlat(t.kids, i, out);
    PutLocal(FlatAll(t.kids[..i]), Flat(t.kids[i]), FlatAll(t.kids[i + 1..]), key, rec);
  }

  lemma UniformRegrow(t: Shape, i: nat, out: seq<Shape>, keys: seq<Key>, h: nat)
    requires t.SInner? && Uniform(t, h) && i < |t.kids|
    requires forall j | 0 <= j < |out| :: Uniform(out[j], h - 1)
    ensures Uniform(SInner(t.page, keys, Regrow(t.kids, i, out)), h)
  {
    var kids' := Regrow(t.kids, i, out);
    forall j | 0 <= j < |kids'| ensures Uniform(kids'[j], h - 1) {
      if j < i { assert kids'[j] == t.kids[j]; }
      else if j < i + |out| { assert kids'[j] == out[j - i]; }
      else { assert kids'[j] == t.kids[j - |out| + 1]; }
    }
  }

  /** An internal split: both halves are ordered around the separator pushed up. */
  lemma SplitOut(t: Shape, mid: nat, lo: Bound, hi: Bound, h: nat, right: PageNo)
    requires t.SInner? && |t.kids| == |t.keys| + 1 && mid < |t.keys|
    requires Wf(t, lo, hi) && Uniform(t, h)
    ensures var a, b := SInner(t.page, t.keys[..mid], t.kids[..mid + 1]),
            SInner(right, t.keys[mid + 1..], t.kids[mid + 1..]);
            && WfKids([t.keys[mid]], [a, b], lo, hi) && Uniform(a, h) && Uniform(b, h)
            && FlatAll([a, b]) == Flat(t) && t.kids == a.kids + b.kids
  {
    SplitWf(t.keys, t.kids, lo, hi, mid);
    WfLoHi(t.keys[..mid], t.kids[..mid + 1], lo, Some(t.keys[mid]));
    WfLoHi(t.keys[mid + 1..], t.kids[mid + 1..], Some(t.keys[mid]), hi);
    var a, b := SInner(t.page, t.keys[..mid], t.kids[..mid + 1]), SInner(right, t.keys[mid + 1..], t.kids[mid + 1..]);
    var mids: seq<Key> := [t.keys[mid]];
    assert [a, b][1..] == [b] && mids[1..] == [] && [b][1..] == [];
    assert t.kids == a.kids + b.kids;
    FlatAllConcat(a.kids, b.kids);
    assert FlatAll([b]) == Flat(b);
  }

  /** Growth and frames compose. */
  lemma GrownTwice(v: map<PageNo, Node>, s: map<PageNo, nat>, free: PageNo,
                   w: map<PageNo, Node>, z: map<PageNo, nat>, free': PageNo,
                   w': map<PageNo, Node>, z': map<PageNo, nat>, t: Shape, t': Shape, out: seq<Shape>)
    requires Grown(t, [t'], free, free') && Framed(v, s, free, w, z, free', t)
    requires Grown(t', out, free', free' + 1) && t'.page == t.page
    requires forall p | p != t.page && p != free' :: SamePage(w, z, w', z', p)
    ensures Grown(t, out, free, free' + 1) && Framed(v, s, free, w', z', free' + 1, t)
  {
    forall p: PageNo ensures CountAll(out, p) == Count(t, p) + if free <= p < free' + 1 then 1 else 0 {
      CountOne(t', p);
    }
    forall p: PageNo | Count(t, p) == 0 && !(free <= p < free' + 1) ensures SamePage(v, s, w', z', p) {
      assert Count(t, t.page) > 0;
      assert SamePage(v, s, w, z, p) && SamePage(w, z, w', z', p);
    }
  }

  /** The children's pages after one was regrown. */
  lemma KidPages(t: Shape, i: nat, out: seq<Shape>)
    requires t.SInner? && i < |t.kids| && |out| in {1, 2} && out[0].page == t.kids[i].page
    ensures var ps := PagesOf(t.kids);
            PagesOf(Regrow(t.kids, i, out)) == if |out| == 1 then ps else ps[..i + 1] + [out[1].page] + ps[i + 1..]
  {
  }

  /** A parent's page is not one of its child's. */
  lemma KidApart(size: Sizer, v: map<PageNo, Node>, s: map<PageNo, nat>, t: Shape, i: nat, free: PageNo)
    requires Owned(size, v, s, [t], free) && t.SInner? && i < |t.kids|
    ensures Count(t.kids[i], t.page) == 0 && 1 <= t.page < free
  {
    CountOne(t, t.page);
    CountSplit(t.kids, i, t.page);
  }

  /** InnerOut, as the one-node result of an insert. */
  lemma GrownOrder(t: Shape, i: nat, seps: seq<Key>, out: seq<Shape>, t': Shape, key: Key, rec: Record, lo: Bound,
                   hi: Bound, h: nat)
    requires t.SInner? && |t.kids| == |t.keys| + 1 && i == ChildIndex(t.keys, key)
    requires Wf(t, lo, hi) && Uniform(t, h)
    requires |out| == 1 + |seps| && |seps| <= 1
    requires WfKids(seps, out, KidLo(t.keys, i, lo), KidHi(t.keys, i, hi))
    requires forall j | 0 <= j < |out| :: Uniform(out[j], h - 1)
    requires FlatAll(out) == Put(Flat(t.kids[i]), key, rec)
    requires t' == SInner(t.page, GrowKeys(t.keys, i, seps), Regrow(t.kids, i, out))
    ensures Wf(t', lo, hi) && WfKids([], [t'], lo, hi) && Uniform(t', h)
    ensures FlatAll([t']) == Flat(t') == Put(Flat(t), key, rec)
    ensures |FlatAll([t'])| + |Flat(t.kids[i])| == |Flat(t)| + |FlatAll(out)|
    ensures |t'.kids| == |t'.keys| + 1
    ensures seps == [] ==> OwnerLeaf(t', key) == OwnerLeaf(out[0], key)
  {
    InnerOut(t, i, seps, out, key, rec, lo, hi, h);
    FlatOne(t');
    WfLoHi(t'.keys, t'.kids, lo, hi);
    if seps == [] { assert t'.keys == t.keys && t'.kids[i] == out[0]; }
  }

  lemma LeafResult(size: Sizer, v: map<PageNo, Node>, s: map<PageNo, nat>, v0: map<PageNo, Node>, s0: map<PageNo, nat>,
                   w: map<PageNo, Node>, z: map<PageNo, nat>, free: PageNo, t: Shape,
                   left: seq<Entry>, right: seq<Entry>)
    requires t.SLeaf? && Owned(size, v, s, [t], free)
    requires forall p | p != t.page :: SamePage(v, s, v0, s0, p)
    requires forall p | p != t.page && (p != free || right == []) :: SamePage(v0, s0, w, z, p)
    requires At(w, t.page) == Leaf(left) && OverCounts(size, w, z, t.page)
    requires right != [] ==> At(w, free) == Leaf(right) && OverCounts(size, w, z, free)
    ensures var out := if right == [] then [SLeaf(t.page, left)] else [SLeaf(t.page, left), SLeaf(free, right)];
            var free' := if right == [] then free else free + 1;
            && Owned(size, w, z, out, free') && Grown(t, out, free, free')
            && Framed(v, s, free, w, z, free', t)
  {
    forall p | p != t.page && (p != free || right == []) ensures SamePage(v, s, w, z, p) {
      assert SamePage(v, s, v0, s0, p) && SamePage(v0, s0, w, z, p);
    }
    assert Count(t, t.page) > 0;
    if right == [] {
      LeafOwned(size, v, s, free, w, z, t, SLeaf(t.page, left));
    } else {
      HalvesOwned(size, v, s, free, w, z, t, SLeaf(t.page, left), SLeaf(free, right));
    }
  }

  lemma AbsorbOwned(size: Sizer, v: map<PageNo, Node>, s: map<PageNo, nat>, free: PageNo, v1: map<PageNo, Node>,
                    s1: map<PageNo, nat>,
                    w: map<PageNo, Node>, z: map<PageNo, nat>, free': PageNo,
                    w': map<PageNo, Node>, z': map<PageNo, nat>, t: Shape, i: nat, out: seq<Shape>, keys: seq<Key>)
    requires t.SInner? && i < |t.kids| && Owned(size, v, s, [t], free)
    requires forall p | p != t.page :: SamePage(v, s, v1, s1, p)
    requires Owned(size, w, z, out, free') && Grown(t.kids[i], out, free, free')
    requires Framed(v1, s1, free, w, z, free', t.kids[i])
    requires forall p | p != t.page :: SamePage(w, z, w', z', p)
    requires At(w', t.page) == Internal(keys, PagesOf(Regrow(t.kids, i, out)))
    requires OverCounts(size, w', z', t.page)
    ensures var t' := SInner(t.page, keys, Regrow(t.kids, i, out));
            && Owned(size, w', z', [t'], free') && Grown(t, [t'], free, free')
            && Framed(v, s, free, w', z', free', t)
  {
    forall p: PageNo | Count(t.kids[i], p) == 0 && !(free <= p < free') && p != t.page ensures SamePage(v, s, w, z, p) {
      assert SamePage(v, s, v1, s1, p) && SamePage(v1, s1, w, z, p);
    }
    RegrowOwned(size, v, s, free, w, z, free', w', z', t, i, out, keys);
    forall p: PageNo | Count(t, p) == 0 && !(free <= p < free') ensures SamePage(v, s, w', z', p) {
      CountSplit(t.kids, i, p);
      assert SamePage(v, s, w, z, p) && SamePage(w, z, w', z', p);
    }
  }

  /** Putting an internal node back over a child that absorbed the insert. */
  lemma PutBackResult(size: Sizer, v: map<PageNo, Node>, s: map<PageNo, nat>, free: PageNo,
                      v1: map<PageNo, Node>, s1: map<PageNo, nat>, w: map<PageNo, Node>, z: map<PageNo, nat>,
                      free': PageNo,
                      w': map<PageNo, Node>, t: Shape, i: nat, out: seq<Shape>, t': Shape)
    requires t.SInner? && i < |t.kids| && |out| == 1 && out[0].page == t.kids[i].page
    requires Owned(size, v, s, [t], free)
    requires forall p | p != t.page :: SamePage(v, s, v1, s1, p)
    requires t.page in s1 ==> s1[t.page] >= EncodedLen(size, Internal(t.keys, PagesOf(t.kids)))
    requires Owned(size, w, z, out, free') && Grown(t.kids[i], out, free, free')
    requires Framed(v1, s1, free, w, z, free', t.kids[i])
    requires w' == w[t.page := Internal(t.keys, PagesOf(t.kids))]
    requires t' == SInner(t.page, t.keys, Regrow(t.kids, i, out))
    ensures Owned(size, w', z, [t'], free') && Grown(t, [t'], free, free') && Framed(v, s, free, w', z, free', t)
    ensures 1 <= t.page < free
  {
    KidPages(t, i, out);
    KidApart(size, v, s, t, i, free);
    assert SamePage(v1, s1, w, z, t.page);
    assert forall p | p != t.page :: SamePage(w, z, w', z, p);
    AbsorbOwned(size, v, s, free, v1, s1, w, z, free', w', z, t, i, out, t.keys);
  }
}
