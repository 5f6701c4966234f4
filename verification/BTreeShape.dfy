/** The mathematics of the B+tree: shapes, their order invariant, and the page space they occupy. */
module BTreeShape {
  import opened Bytes
  import opened Records
  import opened SortedEntries

  type PageNo = nat
  type Bound = Option<Key>

  /** A stored node: children are page numbers. */
  datatype Node =
    | Leaf(entries: seq<Entry>)
    | Internal(keys: seq<Key>, children: seq<PageNo>)

  /** The tree a root page unfolds to. */
  datatype Shape =
    | SLeaf(page: PageNo, entries: seq<Entry>)
    | SInner(page: PageNo, keys: seq<Key>, kids: seq<Shape>)

  // ---------- contents ----------

  /** Every entry, left to right. */
  function Flat(t: Shape): seq<Entry>
    decreases t, 1
  {
    match t
    case SLeaf(_, entries) => entries
    case SInner(_, _, kids) => FlatAll(kids)
  }

  function FlatAll(kids: seq<Shape>): seq<Entry>
    decreases kids, 0
  {
    if kids == [] then [] else Flat(kids[0]) + FlatAll(kids[1..])
  }

  lemma {:induction false} FlatAllConcat(a: seq<Shape>, b: seq<Shape>)
    ensures FlatAll(a + b) == FlatAll(a) + FlatAll(b)
  {
    if a == [] {
      assert a + b == b;
    } else {
      assert (a + b)[1..] == a[1..] + b;
      FlatAllConcat(a[1..], b);
    }
  }

  // ---------- the page space ----------

  /** How many nodes of a shape sit at page p. */
  function Count(t: Shape, p: PageNo): nat
    decreases t, 1
  {
    (if t.page == p then 1 else 0) + if t.SInner? then CountAll(t.kids, p) else 0
  }

  function CountAll(kids: seq<Shape>, p: PageNo): nat
    decreases kids, 0
  {
    if kids == [] then 0 else Count(kids[0], p) + CountAll(kids[1..], p)
  }

  lemma {:induction false} CountAllConcat(a: seq<Shape>, b: seq<Shape>, p: PageNo)
    ensures CountAll(a + b, p) == CountAll(a, p) + CountAll(b, p)
  {
    if a == [] {
      assert a + b == b;
    } else {
      assert (a + b)[1..] == a[1..] + b;
      CountAllConcat(a[1..], b, p);
    }
  }

  /** One child counted apart from its siblings. */
  lemma CountSplit(kids: seq<Shape>, i: nat, p: PageNo)
    requires i < |kids|
    ensures CountAll(kids, p) == CountAll(kids[..i], p) + Count(kids[i], p) + CountAll(kids[i + 1..], p)
  {
    assert kids == kids[..i] + kids[i..];
    CountAllConcat(kids[..i], kids[i..], p);
  }

  /** What a page holds; a page never written is an empty leaf. */
  function At(view: map<PageNo, Node>, p: PageNo): Node {
    if p in view then view[p] else Leaf([])
  }

  function PagesOf(kids: seq<Shape>): (ps: seq<PageNo>)
    ensures |ps| == |kids| && forall i | 0 <= i < |kids| :: ps[i] == kids[i].page
  {
    seq(|kids|, i requires 0 <= i < |kids| => kids[i].page)
  }

  /** The pages of a view, followed from t's page, unfold to exactly t. */
  ghost predicate Rep(view: map<PageNo, Node>, t: Shape) {
    match t
    case SLeaf(p, entries) => At(view, p) == Leaf(entries)
    case SInner(p, keys, kids) =>
      && At(view, p) == Internal(keys, PagesOf(kids))
      && forall i | 0 <= i < |kids| :: Rep(view, kids[i])
  }

  /** A shape depends only on its own pages. */
  lemma {:induction false} RepFrame(v: map<PageNo, Node>, w: map<PageNo, Node>, t: Shape)
    requires Rep(v, t)
    requires forall p | Count(t, p) > 0 :: At(v, p) == At(w, p)
    ensures Rep(w, t)
  {
    assert Count(t, t.page) > 0;
    if t.SInner? {
      forall i | 0 <= i < |t.kids| ensures Rep(w, t.kids[i]) {
        forall p | Count(t.kids[i], p) > 0 ensures At(v, p) == At(w, p) {
          CountSplit(t.kids, i, p);
          assert Count(t, p) > 0;
        }
        RepFrame(v, w, t.kids[i]);
      }
    }
  }

  /** A page determines its shape. */
  lemma {:induction false} RepUnique(v: map<PageNo, Node>, t: Shape, u: Shape)
    requires Rep(v, t) && Rep(v, u) && t.page == u.page
    ensures t == u
  {
    if t.SInner? {
      assert |t.kids| == |PagesOf(t.kids)| == |u.kids|;
      forall i | 0 <= i < |t.kids| ensures t.kids[i] == u.kids[i] {
        assert PagesOf(t.kids)[i] == PagesOf(u.kids)[i];
        RepUnique(v, t.kids[i], u.kids[i]);
      }
      assert t.kids == u.kids;
    }
  }

  /** A page that occurs in a shape holds a node of it. */
  lemma {:induction false} LeafEntriesInFlat(v: map<PageNo, Node>, t: Shape, p: PageNo, e: Entry)
    requires Rep(v, t) && Count(t, p) > 0
    requires At(v, p).Leaf? && e in At(v, p).entries
    ensures e in Flat(t)
    decreases t, 1
  {
    if t.page != p { LeafEntriesInFlatAll(v, t.kids, p, e); }
  }

  lemma {:induction false} LeafEntriesInFlatAll(v: map<PageNo, Node>, kids: seq<Shape>, p: PageNo, e: Entry)
    requires (forall i | 0 <= i < |kids| :: Rep(v, kids[i])) && CountAll(kids, p) > 0
    requires At(v, p).Leaf? && e in At(v, p).entries
    ensures e in FlatAll(kids)
    decreases kids, 0
  {
    if Count(kids[0], p) > 0 {
      LeafEntriesInFlat(v, kids[0], p, e);
    } else {
      LeafEntriesInFlatAll(v, kids[1..], p, e);
    }
  }

  /** An entry of a shape sits in a leaf at one of its pages. */
  lemma {:induction false} FlatEntryHasLeaf(v: map<PageNo, Node>, t: Shape, e: Entry) returns (p: PageNo)
    requires Rep(v, t) && e in Flat(t)
    ensures Count(t, p) > 0 && At(v, p).Leaf? && e in At(v, p).entries
    decreases t, 1
  {
    if t.SLeaf? {
      p := t.page;
    } else {
      p := FlatAllEntryHasLeaf(v, t.kids, e);
    }
  }

  lemma {:induction false} FlatAllEntryHasLeaf(v: map<PageNo, Node>, kids: seq<Shape>, e: Entry) returns (p: PageNo)
    requires (forall i | 0 <= i < |kids| :: Rep(v, kids[i])) && e in FlatAll(kids)
    ensures CountAll(kids, p) > 0 && At(v, p).Leaf? && e in At(v, p).entries
    decreases kids, 0
  {
    if e in Flat(kids[0]) {
      p := FlatEntryHasLeaf(v, kids[0], e);
    } else {
      p := FlatAllEntryHasLeaf(v, kids[1..], e);
    }
  }

  // ---------- the order invariant ----------

  predicate FromLo(lo: Bound, k: Key) { lo.Some? ==> !Less(k, lo.value) }

  predicate UptoHi(k: Key, hi: Bound) { hi.Some? ==> Less(k, hi.value) }

  predicate LoHi(lo: Bound, hi: Bound) { lo.Some? && hi.Some? ==> !Less(hi.value, lo.value) }

  ghost predicate InRange(s: seq<Entry>, lo: Bound, hi: Bound) {
    forall i | 0 <= i < |s| :: FromLo(lo, s[i].key) && UptoHi(s[i].key, hi)
  }

  /** Every entry lies in [lo, hi), leaves ascend, and separators split the range between children.
      Separators ascend only weakly: splitting a one-entry leaf leaves an empty leaf behind. */
  ghost predicate Wf(t: Shape, lo: Bound, hi: Bound)
    decreases t, 1
  {
    match t
    case SLeaf(_, entries) => Sorted(entries) && InRange(entries, lo, hi)
    case SInner(_, keys, kids) => WfKids(keys, kids, lo, hi)
  }

  ghost predicate WfKids(keys: seq<Key>, kids: seq<Shape>, lo: Bound, hi: Bound)
    decreases kids, 0
  {
    && |kids| == |keys| + 1
    && if keys == [] then LoHi(lo, hi) && Wf(kids[0], lo, hi)
       else
         && LoHi(lo, Some(keys[0]))
         && Wf(kids[0], lo, Some(keys[0]))
         && WfKids(keys[1..], kids[1..], Some(keys[0]), hi)
  }

  /** Every leaf at the same depth. */
  ghost predicate Uniform(t: Shape, h: nat) {
    if t.SLeaf? then h == 0 else h > 0 && forall i | 0 <= i < |t.kids| :: Uniform(t.kids[i], h - 1)
  }

  lemma Widen(s: seq<Entry>, lo: Bound, mid: Key, hi: Bound)
    requires LoHi(lo, Some(mid)) && LoHi(Some(mid), hi)
    ensures InRange(s, lo, Some(mid)) ==> InRange(s, lo, hi)
    ensures InRange(s, Some(mid), hi) ==> InRange(s, lo, hi)
  {
    LessOrder();
  }

  lemma JoinSorted(a: seq<Entry>, b: seq<Entry>, lo: Bound, mid: Key, hi: Bound)
    requires Sorted(a) && InRange(a, lo, Some(mid)) && Sorted(b) && InRange(b, Some(mid), hi)
    ensures Sorted(a + b)
  {
    var s := a + b;
    forall i, j | 0 <= i < j < |s| ensures Less(s[i].key, s[j].key) {
      if i < |a| <= j {
        assert FromLo(Some(mid), b[j - |a|].key) && UptoHi(a[i].key, Some(mid));
        LessTotal(mid, s[j].key);
        if Less(mid, s[j].key) { LessTransitive(s[i].key, mid, s[j].key); }
      }
    }
  }

  lemma {:induction false} WfLoHi(keys: seq<Key>, kids: seq<Shape>, lo: Bound, hi: Bound)
    requires WfKids(keys, kids, lo, hi)
    ensures LoHi(lo, hi)
  {
    if keys != [] {
      WfLoHi(keys[1..], kids[1..], Some(keys[0]), hi);
      LessOrder();
    }
  }

  /** A well-formed tree's entries ascend and lie in its range. */
  lemma {:induction false} WfFlat(t: Shape, lo: Bound, hi: Bound)
    requires Wf(t, lo, hi)
    ensures Sorted(Flat(t)) && InRange(Flat(t), lo, hi)
    decreases t, 1
  {
    if t.SInner? { WfFlatAll(t.keys, t.kids, lo, hi); }
  }

  lemma {:induction false} WfFlatAll(keys: seq<Key>, kids: seq<Shape>, lo: Bound, hi: Bound)
    requires WfKids(keys, kids, lo, hi)
    ensures Sorted(FlatAll(kids)) && InRange(FlatAll(kids), lo, hi)
    decreases kids, 0
  {
    if keys == [] {
      WfFlat(kids[0], lo, hi);
      assert FlatAll(kids) == Flat(kids[0]);
    } else {
      var k := keys[0];
      WfFlat(kids[0], lo, Some(k));
      WfFlatAll(keys[1..], kids[1..], Some(k), hi);
      WfLoHi(keys[1..], kids[1..], Some(k), hi);
      Widen(Flat(kids[0]), lo, k, hi);
      Widen(FlatAll(kids[1..]), lo, k, hi);
      JoinSorted(Flat(kids[0]), FlatAll(kids[1..]), lo, k, hi);
    }
  }

  // ---------- descent ----------

  /** Which child owns a key: the first separator past it (`partition_point`). */
  function ChildIndex(keys: seq<Key>, k: Key): (i: nat)
    ensures i <= |keys|
    ensures forall j | 0 <= j < i :: !Less(k, keys[j])
    ensures i < |keys| ==> Less(k, keys[i])
  {
    if keys == [] || Less(k, keys[0]) then 0 else 1 + ChildIndex(keys[1..], k)
  }

  function KidLo(keys: seq<Key>, i: nat, lo: Bound): Bound
    requires i <= |keys|
  {
    if i == 0 then lo else Some(keys[i - 1])
  }

  function KidHi(keys: seq<Key>, i: nat, hi: Bound): Bound
    requires i <= |keys|
  {
    if i == |keys| then hi else Some(keys[i])
  }

  /** Child i is well formed in its own slice of the range. */
  lemma {:induction false} WfKid(keys: seq<Key>, kids: seq<Shape>, lo: Bound, hi: Bound, i: nat)
    requires WfKids(keys, kids, lo, hi) && i <= |keys|
    ensures Wf(kids[i], KidLo(keys, i, lo), KidHi(keys, i, hi))
  {
    if i > 0 { WfKid(keys[1..], kids[1..], Some(keys[0]), hi, i - 1); }
  }

  lemma BelowFromRange(s: seq<Entry>, lo: Bound, mid: Key, k: Key)
    requires InRange(s, lo, Some(mid)) && !Less(k, mid)
    ensures AllBelow(s, k)
  {
    LessOrder();
  }

  lemma AboveFromRange(s: seq<Entry>, mid: Key, hi: Bound, k: Key)
    requires InRange(s, Some(mid), hi) && Less(k, mid)
    ensures AllAbove(s, k)
  {
    LessOrder();
  }

  /** Everything left of the owning child is before the key, everything right of it after. */
  lemma Locate(keys: seq<Key>, kids: seq<Shape>, lo: Bound, hi: Bound, k: Key)
    requires |kids| == |keys| + 1 && WfKids(keys, kids, lo, hi)
    ensures var i := ChildIndex(keys, k);
            && FlatAll(kids) == FlatAll(kids[..i]) + Flat(kids[i]) + FlatAll(kids[i + 1..])
            && AllBelow(FlatAll(kids[..i]), k)
            && AllAbove(FlatAll(kids[i + 1..]), k)
  {
    var i := ChildIndex(keys, k);
    assert kids == kids[..i] + kids[i..];
    FlatAllConcat(kids[..i], kids[i..]);
    LeftOfKey(keys, kids, lo, hi, k, i);
    RightOfKey(keys, kids, lo, hi, k, i);
  }

  lemma {:induction false} LeftOfKey(keys: seq<Key>, kids: seq<Shape>, lo: Bound, hi: Bound, k: Key, i: nat)
    requires WfKids(keys, kids, lo, hi) && i <= |keys| && forall j | 0 <= j < i :: !Less(k, keys[j])
    ensures AllBelow(FlatAll(kids[..i]), k)
  {
    if i > 0 {
      assert kids[..i][0] == kids[0] && kids[..i][1..] == kids[1..][..i - 1];
      LeftOfKey(keys[1..], kids[1..], Some(keys[0]), hi, k, i - 1);
      WfFlat(kids[0], lo, Some(keys[0]));
      BelowFromRange(Flat(kids[0]), lo, keys[0], k);
    }
  }

  lemma {:induction false} RightOfKey(keys: seq<Key>, kids: seq<Shape>, lo: Bound, hi: Bound, k: Key, i: nat)
    requires WfKids(keys, kids, lo, hi) && i <= |keys| && (i < |keys| ==> Less(k, keys[i]))
    ensures AllAbove(FlatAll(kids[i + 1..]), k)
  {
    if i > 0 {
      RightOfKey(keys[1..], kids[1..], Some(keys[0]), hi, k, i - 1);
      assert kids[1..][i..] == kids[i + 1..];
    } else if keys != [] {
      WfFlatAll(keys[1..], kids[1..], Some(keys[0]), hi);
      AboveFromRange(FlatAll(kids[1..]), keys[0], hi, k);
    }
  }

  // ---------- splicing and splitting ----------

  function SpliceKeys(keys: seq<Key>, i: nat, sep: Key): seq<Key>
    requires i <= |keys|
  {
    keys[..i] + [sep] + keys[i..]
  }

  function SpliceKids(kids: seq<Shape>, i: nat, a: Shape, b: Shape): seq<Shape>
    requires i < |kids|
  {
    kids[..i] + [a, b] + kids[i + 1..]
  }

  /** A split child takes its sibling in next to it. */
  lemma {:induction false} SpliceWf(keys: seq<Key>, kids: seq<Shape>, lo: Bound, hi: Bound,
                                    i: nat, a: Shape, sep: Key, b: Shape)
    requires WfKids(keys, kids, lo, hi) && i <= |keys|
    requires Wf(a, KidLo(keys, i, lo), Some(sep)) && LoHi(KidLo(keys, i, lo), Some(sep))
    requires Wf(b, Some(sep), KidHi(keys, i, hi)) && LoHi(Some(sep), KidHi(keys, i, hi))
    ensures WfKids(SpliceKeys(keys, i, sep), SpliceKids(kids, i, a, b), lo, hi)
  {
    var keys', kids' := SpliceKeys(keys, i, sep), SpliceKids(kids, i, a, b);
    if i == 0 {
      assert keys'[1..] == keys && kids'[1..] == [b] + kids[1..];
      assert ([b] + kids[1..])[1..] == kids[1..];
    } else {
      SpliceWf(keys[1..], kids[1..], Some(keys[0]), hi, i - 1, a, sep, b);
      assert keys'[1..] == SpliceKeys(keys[1..], i - 1, sep);
      assert kids'[1..] == SpliceKids(kids[1..], i - 1, a, b);
    }
  }

  /** A child that absorbed an insert replaces the old one. */
  lemma {:induction false} ReplaceWf(keys: seq<Key>, kids: seq<Shape>, lo: Bound, hi: Bound, i: nat, a: Shape)
    requires WfKids(keys, kids, lo, hi) && i <= |keys|
    requires Wf(a, KidLo(keys, i, lo), KidHi(keys, i, hi))
    ensures WfKids(keys, kids[i := a], lo, hi)
  {
    var kids' := kids[i := a];
    if i == 0 {
      assert kids'[1..] == kids[1..];
    } else {
      ReplaceWf(keys[1..], kids[1..], Some(keys[0]), hi, i - 1, a);
      assert kids'[1..] == kids[1..][i - 1 := a];
    }
  }

  /** An internal split pushes its middle separator up. */
  lemma {:induction false} SplitWf(keys: seq<Key>, kids: seq<Shape>, lo: Bound, hi: Bound, mid: nat)
    requires WfKids(keys, kids, lo, hi) && mid < |keys|
    ensures WfKids(keys[..mid], kids[..mid + 1], lo, Some(keys[mid]))
    ensures WfKids(keys[mid + 1..], kids[mid + 1..], Some(keys[mid]), hi)
  {
    if mid > 0 {
      SplitWf(keys[1..], kids[1..], Some(keys[0]), hi, mid - 1);
      assert keys[1..][..mid - 1] == keys[..mid][1..];
      assert kids[1..][..mid] == kids[..mid + 1][1..];
      assert keys[1..][mid..] == keys[mid + 1..] && kids[1..][mid..] == kids[mid + 1..];
    }
  }

  // ---------- lookup and removal ----------

  /** The entries of the leaf a lookup of k ends in, and its page. */
  ghost function OwnerLeaf(t: Shape, k: Key): seq<Entry> {
    match t
    case SLeaf(_, entries) => entries
    case SInner(_, keys, kids) => if |kids| == |keys| + 1 then OwnerLeaf(kids[ChildIndex(keys, k)], k) else []
  }

  ghost function OwnerPage(t: Shape, k: Key): PageNo {
    match t
    case SLeaf(p, _) => p
    case SInner(p, keys, kids) => if |kids| == |keys| + 1 then OwnerPage(kids[ChildIndex(keys, k)], k) else p
  }

  /** The shape once k's leaf has dropped it. */
  ghost function DropShape(t: Shape, k: Key): (t': Shape)
    ensures t'.page == t.page
  {
    match t
    case SLeaf(p, entries) => SLeaf(p, Drop(entries, k))
    case SInner(p, keys, kids) =>
      if |kids| == |keys| + 1 then
        var i := ChildIndex(keys, k);
        SInner(p, keys, kids[i := DropShape(kids[i], k)])
      else t
  }

  /** One more child than separators, all the way down. */
  ghost predicate Arity(t: Shape) {
    t.SInner? ==> |t.kids| == |t.keys| + 1 && forall i | 0 <= i < |t.kids| :: Arity(t.kids[i])
  }

  lemma {:induction false} WfArity(t: Shape, lo: Bound, hi: Bound)
    requires Wf(t, lo, hi)
    ensures Arity(t)
  {
    if t.SInner? {
      forall i | 0 <= i < |t.kids| ensures Arity(t.kids[i]) {
        WfKid(t.keys, t.kids, lo, hi, i);
        WfArity(t.kids[i], KidLo(t.keys, i, lo), KidHi(t.keys, i, hi));
      }
    }
  }

  /** Descent finds what a search of all entries finds. */
  lemma {:induction false} GetOwner(t: Shape, k: Key, lo: Bound, hi: Bound)
    requires Wf(t, lo, hi)
    ensures Get(Flat(t), k) == Get(OwnerLeaf(t, k), k)
  {
    if t.SInner? {
      var i := ChildIndex(t.keys, k);
      WfKid(t.keys, t.kids, lo, hi, i);
      GetOwner(t.kids[i], k, KidLo(t.keys, i, lo), KidHi(t.keys, i, hi));
      Locate(t.keys, t.kids, lo, hi, k);
      GetLocal(FlatAll(t.kids[..i]), Flat(t.kids[i]), FlatAll(t.kids[i + 1..]), k);
    }
  }

  lemma {:induction false} DropRange(s: seq<Entry>, k: Key, lo: Bound, hi: Bound)
    requires InRange(s, lo, hi)
    ensures InRange(Drop(s, k), lo, hi)
  {
    if s != [] && !Less(k, s[0].key) && s[0].key != k { DropRange(s[1..], k, lo, hi); }
  }

  /** Dropping from the owning leaf drops from the whole, and keeps order and height. */
  lemma {:induction false} DropShapeOk(t: Shape, k: Key, lo: Bound, hi: Bound, h: nat)
    requires Wf(t, lo, hi) && Uniform(t, h)
    ensures var t' := DropShape(t, k); Wf(t', lo, hi) && Uniform(t', h) && Flat(t') == Drop(Flat(t), k)
  {
    if t.SLeaf? {
      DropSorted(t.entries, k);
      DropRange(t.entries, k, lo, hi);
    } else {
      var i := ChildIndex(t.keys, k);
      WfKid(t.keys, t.kids, lo, hi, i);
      DropShapeOk(t.kids[i], k, KidLo(t.keys, i, lo), KidHi(t.keys, i, hi), h - 1);
      var kid' := DropShape(t.kids[i], k);
      ReplaceWf(t.keys, t.kids, lo, hi, i, kid');
      DropKidFlat(t.keys, t.kids, lo, hi, k, kid');
    }
  }

  lemma DropKidFlat(keys: seq<Key>, kids: seq<Shape>, lo: Bound, hi: Bound, k: Key, kid': Shape)
    requires |kids| == |keys| + 1 && WfKids(keys, kids, lo, hi)
    requires Flat(kid') == Drop(Flat(kids[ChildIndex(keys, k)]), k)
    ensures FlatAll(kids[ChildIndex(keys, k) := kid']) == Drop(FlatAll(kids), k)
  {
    var i := ChildIndex(keys, k);
    Locate(keys, kids, lo, hi, k);
    DropLocal(FlatAll(kids[..i]), Flat(kids[i]), FlatAll(kids[i + 1..]), k);
    ReplaceFlat(kids, i, kid');
  }

  lemma ReplaceFlat(kids: seq<Shape>, i: nat, kid: Shape)
    requires i < |kids|
    ensures FlatAll(kids[i := kid]) == FlatAll(kids[..i]) + Flat(kid) + FlatAll(kids[i + 1..])
  {
    assert kids[i := kid] == kids[..i] + [kid] + kids[i + 1..];
    FlatAllConcat(kids[..i] + [kid], kids[i + 1..]);
    FlatAllConcat(kids[..i], [kid]);
    FlatOne(kid);
  }

  lemma FlatOne(t: Shape)
    ensures FlatAll([t]) == Flat(t)
  {
    assert FlatAll([t]) == Flat(t) + FlatAll([]);
  }

  /** One more child. */
  lemma FlatStep(kids: seq<Shape>, i: nat)
    requires i < |kids|
    ensures FlatAll(kids[..i + 1]) == FlatAll(kids[..i]) + Flat(kids[i])
  {
    assert kids[..i + 1] == kids[..i] + [kids[i]];
    FlatAllConcat(kids[..i], [kids[i]]);
    FlatOne(kids[i]);
  }

  lemma {:induction false} DropShapeCount(t: Shape, k: Key, p: PageNo)
    ensures Count(DropShape(t, k), p) == Count(t, p)
  {
    if t.SInner? && |t.kids| == |t.keys| + 1 {
      var i := ChildIndex(t.keys, k);
      DropShapeCount(t.kids[i], k, p);
      var kids' := t.kids[i := DropShape(t.kids[i], k)];
      assert kids'[..i] == t.kids[..i] && kids'[i + 1..] == t.kids[i + 1..];
      CountSplit(t.kids, i, p);
      CountSplit(kids', i, p);
    }
  }

  lemma {:induction false} OwnerPageIn(v: map<PageNo, Node>, t: Shape, k: Key)
    requires Rep(v, t) && Arity(t)
    ensures Count(t, OwnerPage(t, k)) > 0 && At(v, OwnerPage(t, k)) == Leaf(OwnerLeaf(t, k))
  {
    if t.SInner? {
      var i := ChildIndex(t.keys, k);
      OwnerPageIn(v, t.kids[i], k);
      CountSplit(t.kids, i, OwnerPage(t.kids[i], k));
    }
  }

  /** Rewriting the owning leaf's page is dropping from the shape. */
  lemma {:induction false} DropRep(v: map<PageNo, Node>, w: map<PageNo, Node>, t: Shape, k: Key)
    requires Rep(v, t) && Arity(t) && forall p | Count(t, p) > 0 :: Count(t, p) == 1
    requires w == v[OwnerPage(t, k) := Leaf(Drop(OwnerLeaf(t, k), k))]
    ensures Rep(w, DropShape(t, k))
  {
    if t.SInner? {
      var i, q := ChildIndex(t.keys, k), OwnerPage(t, k);
      OwnerPageIn(v, t.kids[i], k);
      CountSplit(t.kids, i, q);
      forall j | 0 <= j < |t.kids| && j != i ensures Rep(w, t.kids[j]) {
        TwoKids(t.kids, i, j, q);
        assert Count(t, q) == 1 && Count(t.kids[j], q) == 0;
        RepFrame(v, w, t.kids[j]);
      }
      forall p | Count(t.kids[i], p) > 0 ensures Count(t.kids[i], p) == 1 {
        CountSplit(t.kids, i, p);
        assert Count(t, p) > 0;
      }
      DropRep(v, w, t.kids[i], k);
      var kids' := DropShape(t, k).kids;
      assert PagesOf(kids') == PagesOf(t.kids);
    }
  }

  /** Two children's pages are counted apart. */
  lemma {:induction false} TwoKids(kids: seq<Shape>, i: nat, j: nat, p: PageNo)
    requires i < |kids| && j < |kids| && i != j
    ensures CountAll(kids, p) >= Count(kids[i], p) + Count(kids[j], p)
  {
    if i == 0 {
      CountSplit(kids[1..], j - 1, p);
    } else if j == 0 {
      CountSplit(kids[1..], i - 1, p);
    } else {
      TwoKids(kids[1..], i - 1, j - 1, p);
    }
  }

  // ---------- ranges of keys ----------

  predicate Within(k: Key, lo: Key, hi: Bound) { !Less(k, lo) && UptoHi(k, hi) }

  /** The entries whose keys lie in [lo, hi). */
  function Slice(s: seq<Entry>, lo: Key, hi: Bound): seq<Entry> {
    if s == [] then [] else (if Within(s[0].key, lo, hi) then [s[0]] else []) + Slice(s[1..], lo, hi)
  }

  lemma {:induction false} SliceConcat(a: seq<Entry>, b: seq<Entry>, lo: Key, hi: Bound)
    ensures Slice(a + b, lo, hi) == Slice(a, lo, hi) + Slice(b, lo, hi)
  {
    hide Within;
    if a == [] {
      assert a + b == b;
    } else {
      assert (a + b)[1..] == a[1..] + b;
      SliceConcat(a[1..], b, lo, hi);
    }
  }

  lemma {:induction false} SliceNone(s: seq<Entry>, lo: Key, hi: Bound)
    requires forall i | 0 <= i < |s| :: !Within(s[i].key, lo, hi)
    ensures Slice(s, lo, hi) == []
  {
    if s != [] {
      assert !Within(s[0].key, lo, hi);
      SliceNone(s[1..], lo, hi);
    }
  }

  /** A child is visited only where its separators' range meets [lo, hi). */
  predicate Overlaps(keys: seq<Key>, i: nat, lo: Key, hi: Bound)
    requires i <= |keys|
  {
    && (i > 0 && hi.Some? ==> Less(keys[i - 1], hi.value))
    && (i < |keys| ==> Less(lo, keys[i]))
  }

  /** A skipped child holds nothing in the range. */
  lemma SkippedIsEmpty(keys: seq<Key>, kids: seq<Shape>, tlo: Bound, thi: Bound, i: nat, lo: Key, hi: Bound)
    requires WfKids(keys, kids, tlo, thi) && i <= |keys| && i < |kids| && !Overlaps(keys, i, lo, hi)
    ensures Slice(Flat(kids[i]), lo, hi) == []
  {
    WfKid(keys, kids, tlo, thi, i);
    WfFlat(kids[i], KidLo(keys, i, tlo), KidHi(keys, i, thi));
    LessOrder();
    SliceNone(Flat(kids[i]), lo, hi);
  }
}
