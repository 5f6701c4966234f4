/** What a search of a layer looks at: nothing else of the layer can change what it finds. */
module BeamReads {
  import opened Heap
  import opened Beam

  /** Two layers that show the same of these nodes. */
  ghost predicate SameOn<T(!new)>(g: Layer<T>, g': Layer<T>, r: set<T>) {
    forall x | x in r :: g.adj(x) == g'.adj(x) && g.dist(x) == g'.dist(x)
  }

  // ---------- the greedy walk ----------

  /** The nodes a greedy walk looks at: each it stands on, and all of that one's neighbours. */
  function Walked<T(!new)>(g: Layer<T>, cur: T): set<T>
    requires Closed(g, g.all) && cur in g.all
    decreases Closer(g, cur)
  {
    HopBest(g, g.adj(cur), cur);
    var c := Hop(g, g.adj(cur), cur);
    {cur} + Members(g.adj(cur)) + if c == cur then {} else (CloserShrinks(g, c, cur); Walked(g, c))
  }

  lemma {:induction false} HopSame<T(!new)>(g: Layer<T>, g': Layer<T>, ns: seq<T>, cur: T, r: set<T>)
    requires SameOn(g, g', r) && cur in r && Members(ns) <= r
    ensures Hop(g', ns, cur) == Hop(g, ns, cur)
  {
    if ns != [] {
      var (init, n) := (ns[..|ns| - 1], ns[|ns| - 1]);
      assert n in ns && forall x | x in init :: x in ns;
      HopSame(g, g', init, cur, r);
      HopBest(g, init, cur);
    }
  }

  lemma {:induction false} WalkSame<T(!new)>(g: Layer<T>, g': Layer<T>, cur: T)
    requires Closed(g, g.all) && Closed(g', g'.all) && cur in g.all && cur in g'.all
    requires SameOn(g, g', Walked(g, cur))
    ensures Greedy(g', cur) == Greedy(g, cur) && Walked(g', cur) == Walked(g, cur)
    decreases Closer(g, cur)
  {
    HopBest(g, g.adj(cur), cur);
    HopSame(g, g', g.adj(cur), cur, Walked(g, cur));
    var c := Hop(g, g.adj(cur), cur);
    if c != cur {
      CloserShrinks(g, c, cur);
      WalkSame(g, g', c);
    }
  }

  lemma {:induction false} WalkInside<T(!new)>(g: Layer<T>, cur: T, s: set<T>)
    requires Closed(g, g.all) && cur in g.all && cur in s && Closed(g, s)
    ensures Walked(g, cur) <= s && Greedy(g, cur) in Walked(g, cur)
    decreases Closer(g, cur)
  {
    HopBest(g, g.adj(cur), cur);
    var c := Hop(g, g.adj(cur), cur);
    if c != cur {
      CloserShrinks(g, c, cur);
      WalkInside(g, c, s);
    }
  }

  // ---------- the search of a layer ----------

  lemma {:induction false} OffersMark<T(!new)>(g: Layer<T>, ef: nat, b: Front<T>, ns: seq<T>)
    ensures b.seen <= OfferAll(g, ef, b, ns).seen
  {
    if ns != [] { OffersMark(g, ef, b, ns[..|ns| - 1]); }
  }

  lemma {:induction false} OffersSame<T(!new)>(g: Layer<T>, g': Layer<T>, ef: nat, b: Front<T>, ns: seq<T>, r: set<T>)
    requires SameOn(g, g', r) && OfferAll(g, ef, b, ns).seen <= r
    ensures OfferAll(g', ef, b, ns) == OfferAll(g, ef, b, ns)
  {
    if ns != [] {
      var b1 := OfferAll(g, ef, b, ns[..|ns| - 1]);
      assert b1.seen <= Offer(g, ef, b1, ns[|ns| - 1]).seen && ns[|ns| - 1] in Offer(g, ef, b1, ns[|ns| - 1]).seen;
      OffersSame(g, g', ef, b, ns[..|ns| - 1], r);
    }
  }

  /** Every candidate is marked. */
  ghost predicate Marked<T(!new)>(b: Front<T>) { forall i | i in b.cand :: i.id in b.seen }

  lemma {:induction false} OffersMarked<T(!new)>(g: Layer<T>, ef: nat, b: Front<T>, ns: seq<T>)
    requires Marked(b)
    ensures Marked(OfferAll(g, ef, b, ns))
  {
    if ns != [] {
      var (init, n) := (ns[..|ns| - 1], ns[|ns| - 1]);
      OffersMarked(g, ef, b, init);
      var b1 := OfferAll(g, ef, b, init);
      PushPerm(true, b1.cand, Item(n, g.dist(n)));
      assert forall i | i in Push(true, b1.cand, Item(n, g.dist(n))) ::
          i in multiset(b1.cand) + multiset{Item(n, g.dist(n))};
    }
  }

  lemma PopMarked<T(!new)>(b: Front<T>)
    requires Marked(b) && b.cand != []
    ensures var (top, rest) := Pop(true, b.cand); top.id in b.seen && Marked(b.(cand := rest))
  {
    PopPerm(true, b.cand);
    var (top, rest) := Pop(true, b.cand);
    assert forall i | i in rest :: i in multiset(b.cand);
    assert top in multiset(b.cand);
  }

  lemma {:induction false} ExploreMarks<T(!new)>(g: Layer<T>, ef: nat, b: Front<T>)
    requires Inside(g, b)
    ensures b.seen <= Explore(g, ef, b).seen
    decreases g.all - b.seen, |b.cand|
  {
    if b.cand != [] {
      var (top, rest) := Pop(true, b.cand);
      PopInside(g, b);
      OfferAllInside(g, ef, b.(cand := rest), g.adj(top.id));
      if !Done(b, top, ef) { ExploreMarks(g, ef, OfferAll(g, ef, b.(cand := rest), g.adj(top.id))); }
    }
  }

  lemma {:induction false} ExploreSame<T(!new)>(g: Layer<T>, g': Layer<T>, ef: nat, b: Front<T>, r: set<T>)
    requires Inside(g, b) && Inside(g', b) && Marked(b) && SameOn(g, g', r) && Explore(g, ef, b).seen <= r
    ensures Explore(g', ef, b) == Explore(g, ef, b)
    decreases g.all - b.seen, |b.cand|
  {
    if b.cand != [] {
      var (top, rest) := Pop(true, b.cand);
      var b1 := b.(cand := rest);
      PopInside(g, b);
      PopInside(g', b);
      PopMarked(b);
      if !Done(b, top, ef) {
        var b2 := OfferAll(g, ef, b1, g.adj(top.id));
        OfferAllInside(g, ef, b1, g.adj(top.id));
        ExploreMarks(g, ef, b2);
        OffersMark(g, ef, b1, g.adj(top.id));
        assert g.adj(top.id) == g'.adj(top.id);
        OffersSame(g, g', ef, b1, g.adj(top.id), r);
        OfferAllInside(g', ef, b1, g.adj(top.id));
        OffersMarked(g, ef, b1, g.adj(top.id));
        ExploreSame(g, g', ef, b2, r);
      }
    }
  }

  /** A search of a layer from one node finds the same in a layer that shows the same of every node it marks. */
  lemma SearchSame<T(!new)>(g: Layer<T>, g': Layer<T>, e: T, ef: nat)
    requires Closed(g, g.all) && Closed(g', g'.all) && e in g.all && e in g'.all
    requires SameOn(g, g', SearchLayer(g, {}, [e], ef).1)
    ensures SearchLayer(g', {}, [e], ef) == SearchLayer(g, {}, [e], ef)
  {
    BeginOne(g, {}, e);
    BeginOne(g', {}, e);
    BeginInside(g, {}, [e]);
    BeginInside(g', {}, [e]);
    var b := Begin(g, {}, [e]);
    ExploreMarks(g, ef, b);
    PushPerm(true, [], Item(e, g.dist(e)));
    assert forall i | i in b.cand :: i in multiset(b.cand);
    ExploreSame(g, g', ef, b, SearchLayer(g, {}, [e], ef).1);
  }

  /** A search that starts in a closed part of the layer marks and finds nothing outside it. */
  lemma SearchInside<T(!new)>(g: Layer<T>, e: T, ef: nat, s: set<T>)
    requires Closed(g, g.all) && e in g.all && e in s && Closed(g, s) && ef > 0
    ensures var (out, after) := SearchLayer(g, {}, [e], ef);
            after <= s && forall x | x in out :: x.id in s && x.dist == g.dist(x.id)
  {
    hide SearchLayer, Closed, Sorted;
    SearchLayerExit(g, {}, [e], ef);
    var (out, after) := SearchLayer(g, {}, [e], ef);
    var met := after - {} + Members([e]);
    assert after <= met <= s by { assert Members([e]) <= s; }
    forall x | x in out ensures x.id in s { assert x.id in Ids(out); }
  }
}
