/** Searching a layer under other names finds the same nodes in the same order. */
module BeamRenaming {
  import opened Heap
  import opened Beam

  function MapIds<T, U>(f: T -> U, s: seq<T>): seq<U> { seq(|s|, i requires 0 <= i < |s| => f(s[i])) }

  function MapItems<T, U>(f: T -> U, h: seq<Item<T>>): seq<Item<U>> {
    seq(|h|, i requires 0 <= i < |h| => Item(f(h[i].id), h[i].dist))
  }

  function MapSet<T, U>(f: T -> U, s: set<T>): set<U> { set x | x in s :: f(x) }

  function MapFront<T, U>(f: T -> U, b: Front<T>): Front<U> {
    Front(MapSet(f, b.seen), MapItems(f, b.cand), MapItems(f, b.res))
  }

  /** f carries one layer into another, apart names to apart names, with the same neighbours in the same order and
      the same distances. */
  ghost predicate Carries<T(!new), U(!new)>(g: Layer<T>, g': Layer<U>, f: T -> U) {
    && (forall x, y | x in g.all && y in g.all && f(x) == f(y) :: x == y)
    && (forall x | x in g.all :: f(x) in g'.all && g'.adj(f(x)) == MapIds(f, g.adj(x)) && g'.dist(f(x)) == g.dist(x))
  }

  lemma SwapMapped<T, U>(f: T -> U, h: seq<Item<T>>, i: nat, j: nat)
    requires i < |h| && j < |h|
    ensures |MapItems(f, h)| == |h| && Swap(MapItems(f, h), i, j) == MapItems(f, Swap(h, i, j))
  {
  }

  lemma AtMapped<T, U>(f: T -> U, h: seq<Item<T>>)
    ensures |MapItems(f, h)| == |h|
    ensures forall i {:trigger MapItems(f, h)[i]} {:trigger h[i]} | 0 <= i < |h| ::
        MapItems(f, h)[i].dist == h[i].dist && MapItems(f, h)[i].id == f(h[i].id)
  {
  }

  lemma {:induction false} SiftUpMapped<T, U>(f: T -> U, closest: bool, h: seq<Item<T>>, i: nat)
    requires i < |h|
    ensures SiftUp(closest, MapItems(f, h), i) == MapItems(f, SiftUp(closest, h, i))
    decreases i
  {
    if i != 0 && !Le(closest, h[i], h[Parent(i)]) {
      SiftUpMapped(f, closest, Swap(h, i, Parent(i)), Parent(i));
      assert Swap(MapItems(f, h), i, Parent(i)) == MapItems(f, Swap(h, i, Parent(i)));
    }
  }

  lemma {:induction false} SinkMapped<T, U>(f: T -> U, closest: bool, h: seq<Item<T>>, i: nat)
    requires i < |h|
    ensures |MapItems(f, h)| == |h|
    ensures var (r, k) := SinkToBottom(closest, h, i); SinkToBottom(closest, MapItems(f, h), i) == (MapItems(f, r), k)
    decreases |h| - i
  {
    AtMapped(f, h);
    hide MapItems, Swap;
    var c := 2 * i + 1;
    if c + 1 < |h| {
      var g := if Le(closest, h[c], h[c + 1]) then c + 1 else c;
      SinkMapped(f, closest, Swap(h, i, g), g);
      SwapMapped(f, h, i, g);
    } else if c < |h| {
      SwapMapped(f, h, i, c);
    }
  }

  lemma PushMapped<T, U>(f: T -> U, closest: bool, h: seq<Item<T>>, x: Item<T>)
    ensures Push(closest, MapItems(f, h), Item(f(x.id), x.dist)) == MapItems(f, Push(closest, h, x))
  {
    SiftUpMapped(f, closest, h + [x], |h|);
    assert MapItems(f, h) + [Item(f(x.id), x.dist)] == MapItems(f, h + [x]);
  }

  lemma MovedMapped<T, U>(f: T -> U, h: seq<Item<T>>)
    requires |h| > 1
    ensures |MapItems(f, h)| == |h| && Moved(MapItems(f, h)) == MapItems(f, Moved(h))
  {
  }

  lemma PopMapped<T, U>(f: T -> U, closest: bool, h: seq<Item<T>>)
    requires h != []
    ensures |MapItems(f, h)| == |h|
    ensures var (top, r) := Pop(closest, h);
            Pop(closest, MapItems(f, h)) == (Item(f(top.id), top.dist), MapItems(f, r))
  {
    AtMapped(f, h);
    if |h| > 1 {
      MovedMapped(f, h);
      SinkMapped(f, closest, Moved(h), 0);
      var (sunk, i) := SinkToBottom(closest, Moved(h), 0);
      AtMapped(f, sunk);
      SiftUpMapped(f, closest, sunk, i);
      hide MapItems, Moved, SinkToBottom, SiftUp;
    } else {
      assert MapItems(f, Pop(closest, h).1) == [];
    }
  }

  lemma {:induction false} SortMapped<T, U>(f: T -> U, s: seq<Item<T>>)
    ensures SortByDist(MapItems(f, s)) == MapItems(f, SortByDist(s))
  {
    if s != [] {
      SortMapped(f, s[..|s| - 1]);
      PlaceMapped(f, SortByDist(s[..|s| - 1]), s[|s| - 1]);
      assert MapItems(f, s)[..|s| - 1] == MapItems(f, s[..|s| - 1]);
    }
  }

  lemma {:induction false} PlaceMapped<T, U>(f: T -> U, s: seq<Item<T>>, x: Item<T>)
    ensures Place(MapItems(f, s), Item(f(x.id), x.dist)) == MapItems(f, Place(s, x))
  {
    if s != [] && s[|s| - 1].dist > x.dist {
      PlaceMapped(f, s[..|s| - 1], x);
      assert MapItems(f, s)[..|s| - 1] == MapItems(f, s[..|s| - 1]);
    }
  }

  lemma OfferMapped<T(!new), U(!new)>(g: Layer<T>, g': Layer<U>, f: T -> U, ef: nat, b: Front<T>, n: T)
    requires Carries(g, g', f) && b.seen <= g.all && n in g.all
    ensures Offer(g', ef, MapFront(f, b), f(n)) == MapFront(f, Offer(g, ef, b, n))
  {
    assert f(n) in MapSet(f, b.seen) <==> n in b.seen;
    var item := Item(n, g.dist(n));
    PushMapped(f, true, b.cand, item);
    PushMapped(f, false, b.res, item);
    var res := Push(false, b.res, item);
    if res != [] { PopMapped(f, false, res); }
    AddMapped(f, b.seen, n);
  }

  lemma {:induction false} OfferAllMapped<T(!new), U(!new)>(g: Layer<T>, g': Layer<U>, f: T -> U, ef: nat, b: Front<T>,
                                                            ns: seq<T>)
    requires Carries(g, g', f) && Inside(g, b) && forall n | n in ns :: n in g.all
    ensures OfferAll(g', ef, MapFront(f, b), MapIds(f, ns)) == MapFront(f, OfferAll(g, ef, b, ns))
  {
    if ns != [] {
      var (init, n) := (ns[..|ns| - 1], ns[|ns| - 1]);
      assert n in ns && forall m | m in init :: m in ns;
      OfferAllMapped(g, g', f, ef, b, init);
      OfferAllInside(g, ef, b, init);
      OfferMapped(g, g', f, ef, OfferAll(g, ef, b, init), n);
      assert MapIds(f, ns)[..|ns| - 1] == MapIds(f, init);
    }
  }

  lemma MapInside<T(!new), U(!new)>(g: Layer<T>, g': Layer<U>, f: T -> U, b: Front<T>)
    requires Carries(g, g', f) && Inside(g, b) && Closed(g', g'.all)
    ensures Inside(g', MapFront(f, b))
  {
    var cand := MapItems(f, b.cand);
    forall i | i in cand ensures i.id in g'.all {
      var j :| 0 <= j < |cand| && cand[j] == i;
      assert b.cand[j] in b.cand;
    }
  }

  lemma {:induction false} ExploreMapped<T(!new), U(!new)>(g: Layer<T>, g': Layer<U>, f: T -> U, ef: nat, b: Front<T>)
    requires Carries(g, g', f) && Inside(g, b) && Closed(g', g'.all)
    ensures Inside(g', MapFront(f, b)) && Explore(g', ef, MapFront(f, b)) == MapFront(f, Explore(g, ef, b))
    decreases g.all - b.seen, |b.cand|
  {
    MapInside(g, g', f, b);
    if b.cand != [] {
      PopMapped(f, true, b.cand);
      PopInside(g, b);
      var (top, rest) := Pop(true, b.cand);
      var b1 := b.(cand := rest);
      if !Done(b, top, ef) {
        OfferAllInside(g, ef, b1, g.adj(top.id));
        OfferAllMapped(g, g', f, ef, b1, g.adj(top.id));
        ExploreMapped(g, g', f, ef, OfferAll(g, ef, b1, g.adj(top.id)));
      }
    }
  }

  lemma AddMapped<T, U>(f: T -> U, s: set<T>, x: T)
    ensures MapSet(f, s + {x}) == MapSet(f, s) + {f(x)}
  {
  }

  lemma {:induction false} BeginMapped<T(!new), U(!new)>(g: Layer<T>, g': Layer<U>, f: T -> U, seen: set<T>,
                                                         entries: seq<T>)
    requires Carries(g, g', f) && forall e | e in entries :: e in g.all
    ensures Begin(g', MapSet(f, seen), MapIds(f, entries)) == MapFront(f, Begin(g, seen, entries))
  {
    if entries != [] {
      var (init, e) := (entries[..|entries| - 1], entries[|entries| - 1]);
      assert e in entries && forall m | m in init :: m in entries;
      BeginMapped(g, g', f, seen, init);
      var b := Begin(g, seen, init);
      PushMapped(f, true, b.cand, Item(e, g.dist(e)));
      PushMapped(f, false, b.res, Item(e, g.dist(e)));
      assert MapIds(f, entries)[..|entries| - 1] == MapIds(f, init);
      assert g'.dist(f(e)) == g.dist(e);
      AddMapped(f, b.seen, e);
      hide MapSet, MapItems, Push, Carries, MapIds;
      assert MapIds(f, entries)[|entries| - 1] == f(e);
    }
  }

  lemma MapIdsWithin<T(!new), U(!new)>(g: Layer<T>, g': Layer<U>, f: T -> U, s: seq<T>)
    requires Carries(g, g', f) && forall e | e in s :: e in g.all
    ensures forall e | e in MapIds(f, s) :: e in g'.all
  {
    var m := MapIds(f, s);
    forall e | e in m ensures e in g'.all {
      var j :| 0 <= j < |m| && m[j] == e;
      assert s[j] in s;
    }
  }

  /** Searching a layer under other names finds the same nodes in the same order. */
  lemma SearchLayerMapped<T(!new), U(!new)>(g: Layer<T>, g': Layer<U>, f: T -> U, seen: set<T>, entries: seq<T>,
                                            ef: nat)
    requires Carries(g, g', f) && Closed(g, g.all) && Closed(g', g'.all)
    requires seen <= g.all && forall e | e in entries :: e in g.all
    ensures MapSet(f, seen) <= g'.all && forall e | e in MapIds(f, entries) :: e in g'.all
    ensures var (out, after) := SearchLayer(g, seen, entries, ef);
            SearchLayer(g', MapSet(f, seen), MapIds(f, entries), ef) == (MapItems(f, out), MapSet(f, after))
  {
    MapIdsWithin(g, g', f, entries);
    BeginInside(g, seen, entries);
    BeginMapped(g, g', f, seen, entries);
    ExploreMapped(g, g', f, ef, Begin(g, seen, entries));
    SortMapped(f, Explore(g, ef, Begin(g, seen, entries)).res);
  }

  /** A fresh search from one node. */
  lemma SearchOneMapped<T(!new), U(!new)>(g: Layer<T>, g': Layer<U>, f: T -> U, cur: T, ef: nat)
    requires Carries(g, g', f) && Closed(g, g.all) && Closed(g', g'.all) && cur in g.all
    ensures f(cur) in g'.all && SearchLayer(g', {}, [f(cur)], ef).0 == MapItems(f, SearchLayer(g, {}, [cur], ef).0)
  {
    SearchLayerMapped(g, g', f, {}, [cur], ef);
    hide Carries, Closed, SearchLayer, MapItems;
    assert MapIds(f, [cur]) == [f(cur)];
    assert MapSet(f, {}) == {};
  }

  lemma {:induction false} HopMapped<T(!new), U(!new)>(g: Layer<T>, g': Layer<U>, f: T -> U, ns: seq<T>, cur: T)
    requires Carries(g, g', f) && cur in g.all && forall n | n in ns :: n in g.all
    ensures Hop(g', MapIds(f, ns), f(cur)) == f(Hop(g, ns, cur)) && Hop(g, ns, cur) in g.all
  {
    if ns != [] {
      var (init, n) := (ns[..|ns| - 1], ns[|ns| - 1]);
      assert n in ns && forall m | m in init :: m in ns;
      HopMapped(g, g', f, init, cur);
      assert MapIds(f, ns)[..|ns| - 1] == MapIds(f, init);
    }
  }

  lemma {:induction false} GreedyMapped<T(!new), U(!new)>(g: Layer<T>, g': Layer<U>, f: T -> U, cur: T)
    requires Carries(g, g', f) && Closed(g, g.all) && Closed(g', g'.all) && cur in g.all
    ensures f(cur) in g'.all && Greedy(g', f(cur)) == f(Greedy(g, cur))
    decreases Closer(g, cur)
  {
    HopMapped(g, g', f, g.adj(cur), cur);
    HopBest(g, g.adj(cur), cur);
    var c := Hop(g, g.adj(cur), cur);
    if c != cur {
      CloserShrinks(g, c, cur);
      GreedyMapped(g, g', f, c);
    }
  }
}
