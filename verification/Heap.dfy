/** The standard binary heap, kept in an array order that only distances decide, and the stable sort. */
module Heap {
  datatype Item<T> = Item(id: T, dist: real)

  /** The heap's order, which makes the greatest come first: by distance, or reversed for a closest-first heap. */
  predicate Le<T>(closest: bool, a: Item<T>, b: Item<T>) {
    if closest then b.dist <= a.dist else a.dist <= b.dist
  }

  function Parent(i: nat): nat
    requires i > 0
  {
    (i - 1) / 2
  }

  ghost predicate IsHeap<T>(closest: bool, h: seq<Item<T>>) {
    forall i | 0 < i < |h| :: Le(closest, h[i], h[Parent(i)])
  }

  function Swap<T>(h: seq<T>, i: nat, j: nat): (r: seq<T>)
    requires i < |h| && j < |h|
    ensures multiset(r) == multiset(h) && |r| == |h|
  {
    h[i := h[j]][j := h[i]]
  }

  function SiftUp<T>(closest: bool, h: seq<Item<T>>, i: nat): seq<Item<T>>
    requires i < |h|
    decreases i
  {
    if i == 0 || Le(closest, h[i], h[Parent(i)]) then h else SiftUp(closest, Swap(h, i, Parent(i)), Parent(i))
  }

  /** Move the element at `i` down to a leaf, past the greater child each time; where it ended is returned too. */
  function SinkToBottom<T>(closest: bool, h: seq<Item<T>>, i: nat): (r: (seq<Item<T>>, nat))
    requires i < |h|
    ensures |r.0| == |h| && r.1 < |h|
    decreases |h| - i
  {
    var c := 2 * i + 1;
    if c + 1 < |h| then
      var g := if Le(closest, h[c], h[c + 1]) then c + 1 else c;
      SinkToBottom(closest, Swap(h, i, g), g)
    else if c < |h| then (Swap(h, i, c), c)
    else (h, i)
  }

  function Push<T>(closest: bool, h: seq<Item<T>>, x: Item<T>): seq<Item<T>> { SiftUp(closest, h + [x], |h|) }

  /** The last element takes the root's place. */
  function Moved<T>(h: seq<T>): seq<T>
    requires |h| > 1
  {
    h[..|h| - 1][0 := h[|h| - 1]]
  }

  function Pop<T>(closest: bool, h: seq<Item<T>>): (Item<T>, seq<Item<T>>)
    requires h != []
  {
    if |h| == 1 then (h[0], [])
    else
      var (sunk, i) := SinkToBottom(closest, Moved(h), 0);
      (h[0], SiftUp(closest, sunk, i))
  }

  lemma {:induction false} SiftUpPerm<T>(closest: bool, h: seq<Item<T>>, i: nat)
    requires i < |h|
    ensures multiset(SiftUp(closest, h, i)) == multiset(h) && |SiftUp(closest, h, i)| == |h|
    decreases i
  {
    if i != 0 && !Le(closest, h[i], h[Parent(i)]) { SiftUpPerm(closest, Swap(h, i, Parent(i)), Parent(i)); }
    assert |multiset(SiftUp(closest, h, i))| == |multiset(h)|;
  }

  lemma {:induction false} SinkPerm<T>(closest: bool, h: seq<Item<T>>, i: nat)
    requires i < |h|
    ensures multiset(SinkToBottom(closest, h, i).0) == multiset(h)
    decreases |h| - i
  {
    hide Swap, Le;
    var c := 2 * i + 1;
    if c + 1 < |h| {
      var g := if Le(closest, h[c], h[c + 1]) then c + 1 else c;
      SinkPerm(closest, Swap(h, i, g), g);
    }
  }

  lemma PushPerm<T>(closest: bool, h: seq<Item<T>>, x: Item<T>)
    ensures var r := Push(closest, h, x); multiset(r) == multiset(h) + multiset{x} && |r| == |h| + 1
  {
    SiftUpPerm(closest, h + [x], |h|);
  }

  lemma MovedPerm<T>(h: seq<T>)
    requires |h| > 1
    ensures multiset(h) == multiset(Moved(h)) + multiset{h[0]}
  {
    var mid := h[1..|h| - 1];
    assert h == [h[0]] + mid + [h[|h| - 1]];
    assert Moved(h) == [h[|h| - 1]] + mid;
  }

  lemma PopPerm<T>(closest: bool, h: seq<Item<T>>)
    requires h != []
    ensures var (top, r) := Pop(closest, h); multiset(h) == multiset(r) + multiset{top} && |r| == |h| - 1 && top == h[0]
  {
    if |h| > 1 {
      MovedPerm(h);
      SinkPerm(closest, Moved(h), 0);
      var (sunk, i) := SinkToBottom(closest, Moved(h), 0);
      SiftUpPerm(closest, sunk, i);
    } else {
      assert h == [h[0]];
    }
  }

  // ---------- the heap property ----------

  /** A heap but for the element at i, over whose head its children still are. */
  ghost predicate HeapButAt<T>(closest: bool, h: seq<Item<T>>, i: nat) {
    && (forall j | 0 < j < |h| && j != i :: Le(closest, h[j], h[Parent(j)]))
    && (forall j | 0 < j < |h| && Parent(j) == i && 0 < i < |h| :: Le(closest, h[j], h[Parent(i)]))
  }

  lemma {:induction false} SiftUpHeap<T>(closest: bool, h: seq<Item<T>>, i: nat)
    requires i < |h| && HeapButAt(closest, h, i)
    ensures IsHeap(closest, SiftUp(closest, h, i))
    decreases i
  {
    if i != 0 && !Le(closest, h[i], h[Parent(i)]) { SiftUpHeap(closest, Swap(h, i, Parent(i)), Parent(i)); }
  }

  /** A heap but for the element at i, whatever its children are to it. */
  ghost predicate HeapAround<T>(closest: bool, h: seq<Item<T>>, i: nat) {
    && (forall j | 0 < j < |h| && j != i && Parent(j) != i :: Le(closest, h[j], h[Parent(j)]))
    && (forall j | 0 < j < |h| && Parent(j) == i && 0 < i < |h| :: Le(closest, h[j], h[Parent(i)]))
  }

  lemma Children(i: nat, j: nat)
    requires j > 0
    ensures Parent(j) == i <==> j == 2 * i + 1 || j == 2 * i + 2
    ensures Parent(j) < j
  {
  }

  /** The greater child may take its parent's place. */
  lemma SinkStep<T>(closest: bool, h: seq<Item<T>>, i: nat, g: nat)
    requires HeapAround(closest, h, i) && 0 < g < |h| && Parent(g) == i
    requires forall j | 0 < j < |h| && Parent(j) == i :: Le(closest, h[j], h[g])
    ensures i < |h| && HeapAround(closest, Swap(h, i, g), g)
  {
    Children(i, g);
    hide Parent;
    var s := Swap(h, i, g);
    forall j | 0 < j < |s| && j != g && Parent(j) != g ensures Le(closest, s[j], s[Parent(j)]) {
      Children(Parent(j), j);
      if j == i { assert Le(closest, h[g], h[Parent(i)]); }
    }
    forall j | 0 < j < |s| && Parent(j) == g ensures Le(closest, s[j], s[Parent(g)]) {
      Children(g, j);
      assert Le(closest, h[j], h[g]);
    }
  }

  /** At a leaf there is no one below to be out of order. */
  lemma LeafSettled<T>(closest: bool, h: seq<Item<T>>, i: nat)
    requires HeapAround(closest, h, i) && |h| <= 2 * i + 1
    ensures HeapButAt(closest, h, i)
  {
    forall j | 0 < j < |h| ensures Parent(j) != i { Children(i, j); }
  }

  lemma {:induction false} SinkHeap<T>(closest: bool, h: seq<Item<T>>, i: nat)
    requires i < |h| && HeapAround(closest, h, i)
    ensures var (r, k) := SinkToBottom(closest, h, i); HeapButAt(closest, r, k)
    decreases |h| - i
  {
    hide HeapAround, HeapButAt, Parent, Swap;
    var c := 2 * i + 1;
    forall j | 0 < j < |h| ensures Parent(j) == i <==> j == c || j == c + 1 { Children(i, j); }
    if c + 1 < |h| {
      var g := if Le(closest, h[c], h[c + 1]) then c + 1 else c;
      SinkStep(closest, h, i, g);
      SinkHeap(closest, Swap(h, i, g), g);
    } else if c < |h| {
      SinkStep(closest, h, i, c);
      LeafSettled(closest, Swap(h, i, c), c);
    } else {
      LeafSettled(closest, h, i);
    }
  }

  lemma {:induction false} RootFirst<T>(closest: bool, h: seq<Item<T>>, i: nat)
    requires IsHeap(closest, h) && i < |h|
    ensures Le(closest, h[i], h[0])
    decreases i
  {
    if i > 0 { RootFirst(closest, h, Parent(i)); }
  }

  /** Pushing adds the item and keeps a heap. */
  lemma PushHeap<T>(closest: bool, h: seq<Item<T>>, x: Item<T>)
    requires IsHeap(closest, h)
    ensures var r := Push(closest, h, x);
            IsHeap(closest, r) && multiset(r) == multiset(h) + multiset{x}
            && |r| == |h| + 1
  {
    var s := h + [x];
    assert forall j | 0 < j < |s| :: Parent(j) < |h|;
    SiftUpHeap(closest, s, |h|);
    PushPerm(closest, h, x);
  }

  /** The last element in the root's place: a heap but there. */
  lemma LastToRoot<T>(closest: bool, h: seq<Item<T>>)
    requires |h| > 1 && IsHeap(closest, h)
    ensures HeapAround(closest, Moved(h), 0)
  {
  }

  /** Popping takes out a greatest item and keeps a heap. */
  lemma PopHeap<T>(closest: bool, h: seq<Item<T>>)
    requires h != [] && IsHeap(closest, h)
    ensures var (top, r) := Pop(closest, h);
            && IsHeap(closest, r) && multiset(h) == multiset(r) + multiset{top} && |r| == |h| - 1
            && top == h[0] && forall x | x in h :: Le(closest, x, top)
  {
    forall x | x in h ensures Le(closest, x, h[0]) {
      var i :| 0 <= i < |h| && h[i] == x;
      RootFirst(closest, h, i);
    }
    PopPerm(closest, h);
    if |h| > 1 {
      LastToRoot(closest, h);
      hide IsHeap, Le, HeapAround, HeapButAt;
      var moved := Moved(h);
      SinkHeap(closest, moved, 0);
      var (sunk, i) := SinkToBottom(closest, moved, 0);
      SiftUpHeap(closest, sunk, i);
    }
  }

  // ---------- sorting ----------

  function Place<T>(s: seq<Item<T>>, x: Item<T>): seq<Item<T>> {
    if s == [] || s[|s| - 1].dist <= x.dist then s + [x] else Place(s[..|s| - 1], x) + [s[|s| - 1]]
  }

  /** The stable sort, closest first. */
  function SortByDist<T>(s: seq<Item<T>>): seq<Item<T>> {
    if s == [] then [] else Place(SortByDist(s[..|s| - 1]), s[|s| - 1])
  }

  predicate Sorted<T>(s: seq<Item<T>>) { forall i, j | 0 <= i < j < |s| :: s[i].dist <= s[j].dist }

  lemma {:induction false} PlaceSorts<T>(s: seq<Item<T>>, x: Item<T>)
    requires Sorted(s)
    ensures Sorted(Place(s, x)) && multiset(Place(s, x)) == multiset(s) + multiset{x}
    ensures forall y | y in Place(s, x) :: y in s || y == x
  {
    if s != [] && s[|s| - 1].dist > x.dist {
      var init := s[..|s| - 1];
      PlaceSorts(init, x);
      var (r, last) := (Place(init, x), s[|s| - 1]);
      assert s == init + [last] && Place(s, x) == r + [last];
      assert forall i | 0 <= i < |r| :: r[i] in r;
      hide Place;
      assert forall y | y in r :: y.dist <= last.dist;
    }
  }

  lemma {:induction false} SortSorts<T>(s: seq<Item<T>>)
    ensures Sorted(SortByDist(s)) && multiset(SortByDist(s)) == multiset(s) && |SortByDist(s)| == |s|
  {
    if s != [] {
      SortSorts(s[..|s| - 1]);
      PlaceSorts(SortByDist(s[..|s| - 1]), s[|s| - 1]);
      assert s == s[..|s| - 1] + [s[|s| - 1]];
    }
    assert |multiset(SortByDist(s))| == |multiset(s)|;
  }
}
