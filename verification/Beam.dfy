/** Beam search over one layer of a neighbour graph, and the greedy walk: what is found when they stop. */
module Beam {
  import opened Heap

  /** One layer as a query sees it: the nodes, each one's neighbours there, and its distance to the query. */
  datatype Layer<!T(==)> = Layer(all: set<T>, adj: T -> seq<T>, dist: T -> real)

  ghost predicate Closed<T(!new)>(g: Layer<T>, s: set<T>) { forall x, y | x in s && y in g.adj(x) :: y in s }

  /** Nodes marked seen, the heap still to explore, and the heap of results. */
  datatype Front<T(==)> = Front(seen: set<T>, cand: seq<Item<T>>, res: seq<Item<T>>)

  function Ids<T>(h: seq<Item<T>>): set<T> { set i | i in h :: i.id }

  function Begin<T>(g: Layer<T>, seen: set<T>, entries: seq<T>): Front<T> {
    if entries == [] then Front(seen, [], [])
    else
      var b := Begin(g, seen, entries[..|entries| - 1]);
      var e := entries[|entries| - 1];
      var item := Item(e, g.dist(e));
      Front(b.seen + {e}, Push(true, b.cand, item), Push(false, b.res, item))
  }

  /** Look at one neighbour: unseen, it joins both heaps if it beats the worst result or there is room, and the
      worst result makes way when there is none. */
  function Offer<T>(g: Layer<T>, ef: nat, b: Front<T>, n: T): Front<T> {
    if n in b.seen then b
    else
      var item := Item(n, g.dist(n));
      var seen := b.seen + {n};
      if b.res == [] || item.dist < b.res[0].dist || |b.res| < ef then
        var res := Push(false, b.res, item);
        Front(seen, Push(true, b.cand, item), if |res| > ef && res != [] then Pop(false, res).1 else res)
      else b.(seen := seen)
  }

  function OfferAll<T>(g: Layer<T>, ef: nat, b: Front<T>, ns: seq<T>): Front<T> {
    if ns == [] then b else Offer(g, ef, OfferAll(g, ef, b, ns[..|ns| - 1]), ns[|ns| - 1])
  }

  predicate Done<T>(b: Front<T>, top: Item<T>, ef: nat) {
    b.res != [] && top.dist > b.res[0].dist && |b.res| >= ef
  }

  ghost predicate Inside<T(!new)>(g: Layer<T>, b: Front<T>) {
    Closed(g, g.all) && b.seen <= g.all && forall i | i in b.cand :: i.id in g.all
  }

  lemma PopInside<T(!new)>(g: Layer<T>, b: Front<T>)
    requires Inside(g, b) && b.cand != []
    ensures var (top, rest) := Pop(true, b.cand);
            top.id in g.all && Inside(g, b.(cand := rest)) && |rest| == |b.cand| - 1
  {
    PopPerm(true, b.cand);
    var (top, rest) := Pop(true, b.cand);
    assert forall i | i in rest :: i in multiset(b.cand);
    assert top in multiset(b.cand);
  }

  /** Offers only add nodes, and none without marking it. */
  lemma {:induction false} OfferAllInside<T(!new)>(g: Layer<T>, ef: nat, b: Front<T>, ns: seq<T>)
    requires Inside(g, b) && forall n | n in ns :: n in g.all
    ensures var b' := OfferAll(g, ef, b, ns);
            Inside(g, b') && b.seen <= b'.seen && (b'.seen == b.seen ==> b' == b)
  {
    if ns != [] {
      var (init, n) := (ns[..|ns| - 1], ns[|ns| - 1]);
      assert n in ns && forall m | m in init :: m in ns;
      OfferAllInside(g, ef, b, init);
      var b1 := OfferAll(g, ef, b, init);
      if n !in b1.seen {
        var item := Item(n, g.dist(n));
        PushPerm(true, b1.cand, item);
        assert forall i | i in Push(true, b1.cand, item) :: i in multiset(b1.cand) + multiset{item};
        assert n in Offer(g, ef, b1, n).seen;
      }
    }
  }

  /** Explore the closest candidate until none is left, or it is farther than the worst of ef results. */
  function Explore<T(!new)>(g: Layer<T>, ef: nat, b: Front<T>): Front<T>
    requires Inside(g, b)
    decreases g.all - b.seen, |b.cand|
  {
    if b.cand == [] then b
    else
      var (top, rest) := Pop(true, b.cand);
      PopInside(g, b);
      OfferAllInside(g, ef, b.(cand := rest), g.adj(top.id));
      if Done(b, top, ef) then b.(cand := rest)
      else Explore(g, ef, OfferAll(g, ef, b.(cand := rest), g.adj(top.id)))
  }

  lemma BeginOne<T>(g: Layer<T>, seen: set<T>, e: T)
    ensures var item := Item(e, g.dist(e));
            Begin(g, seen, [e]) == Front(seen + {e}, Push(true, [], item), Push(false, [], item))
  {
    assert [e][..0] == [];
  }

  lemma {:induction false} BeginInside<T(!new)>(g: Layer<T>, seen: set<T>, entries: seq<T>)
    requires Closed(g, g.all) && seen <= g.all && forall e | e in entries :: e in g.all
    ensures Inside(g, Begin(g, seen, entries))
  {
    if entries != [] {
      var (init, e) := (entries[..|entries| - 1], entries[|entries| - 1]);
      assert e in entries && forall m | m in init :: m in entries;
      BeginInside(g, seen, init);
      var item := Item(e, g.dist(e));
      PushPerm(true, Begin(g, seen, init).cand, item);
      assert forall i | i in Push(true, Begin(g, seen, init).cand, item) ::
          i in multiset(Begin(g, seen, init).cand) + multiset{item};
    }
  }

  /** The search of one layer, from nodes marked seen beforehand: the results closest first, and all nodes marked. */
  function SearchLayer<T(!new)>(g: Layer<T>, seen: set<T>, entries: seq<T>, ef: nat): (seq<Item<T>>, set<T>)
    requires Closed(g, g.all) && seen <= g.all && forall e | e in entries :: e in g.all
  {
    BeginInside(g, seen, entries);
    var b := Explore(g, ef, Begin(g, seen, entries));
    (SortByDist(b.res), b.seen)
  }

  // ---------- the heaps as sets of nodes ----------

  /** Each node at most once, at its own distance. */
  ghost predicate Exact<T(!new)>(g: Layer<T>, h: seq<Item<T>>) {
    && (forall i | i in h :: i.dist == g.dist(i.id))
    && (forall i: Item<T> :: multiset(h)[i] <= 1)
  }

  lemma AddItem<T(!new)>(g: Layer<T>, closest: bool, h: seq<Item<T>>, x: T)
    requires IsHeap(closest, h) && Exact(g, h) && x !in Ids(h)
    ensures var r := Push(closest, h, Item(x, g.dist(x)));
            IsHeap(closest, r) && Exact(g, r) && Ids(r) == Ids(h) + {x} && |r| == |h| + 1
  {
    hide IsHeap, Le;
    var item := Item(x, g.dist(x));
    PushHeap(closest, h, item);
    var r := Push(closest, h, item);
    assert item !in h;
    forall i ensures i in r <==> i in h || i == item { assert i in r <==> i in multiset(r); }
    assert x in Ids(r) by { assert item in r; }
    forall y | y in Ids(h) ensures y in Ids(r) {
      var i :| i in h && i.id == y;
      assert i in r;
    }
  }

  lemma TakeItem<T(!new)>(g: Layer<T>, closest: bool, h: seq<Item<T>>)
    requires IsHeap(closest, h) && Exact(g, h) && h != []
    ensures var (top, r) := Pop(closest, h);
            && IsHeap(closest, r) && Exact(g, r) && |r| == |h| - 1
            && top == h[0] && top.dist == g.dist(top.id) && top.id in Ids(h) && Ids(r) == Ids(h) - {top.id}
            && forall x | x in Ids(h) :: Le(closest, Item(x, g.dist(x)), top)
  {
    hide IsHeap;
    PopHeap(closest, h);
    var (top, r) := Pop(closest, h);
    assert top in h;
    forall i ensures i in h <==> i in r || i == top { assert i in h <==> i in multiset(h); }
    assert top !in r by { assert multiset(h)[top] == multiset(r)[top] + 1; }
    forall i: Item<T> ensures multiset(r)[i] <= 1 { assert multiset(r)[i] <= multiset(h)[i]; }
    forall y | y in Ids(h) - {top.id} ensures y in Ids(r) {
      var i :| i in h && i.id == y;
      assert i in r;
    }
    assert forall i | i in r :: i in h && (i.id == top.id ==> i == top);
  }

  lemma {:induction false} IdsCount<T(!new)>(g: Layer<T>, h: seq<Item<T>>)
    requires Exact(g, h)
    ensures |Ids(h)| == |h|
  {
    if h != [] {
      var (init, x) := (h[..|h| - 1], h[|h| - 1]);
      assert h == init + [x];
      forall i: Item<T> ensures multiset(init)[i] <= 1 { assert multiset(init)[i] <= multiset(h)[i]; }
      IdsCount(g, init);
      assert x in h && multiset(h)[x] == multiset(init)[x] + 1;
      assert forall i | i in init :: i in h && (i.id == x.id ==> i == x);
      assert Ids(h) == Ids(init) + {x.id};
    }
  }

  lemma TwiceCounts<T>(h: seq<T>, i: nat, j: nat)
    requires i < j < |h| && h[i] == h[j]
    ensures multiset(h)[h[i]] >= 2
  {
    assert h == h[..i] + [h[i]] + h[i + 1..j] + [h[j]] + h[j + 1..];
  }

  predicate DistinctIds<T(==)>(h: seq<Item<T>>) { forall i, j | 0 <= i < j < |h| :: h[i].id != h[j].id }

  lemma ExactDistinct<T(!new)>(g: Layer<T>, h: seq<Item<T>>)
    requires Exact(g, h)
    ensures DistinctIds(h)
  {
    forall i, j | 0 <= i < j < |h| ensures h[i].id != h[j].id {
      assert h[i] in h && h[j] in h;
      if h[i].id == h[j].id { TwiceCounts(h, i, j); }
    }
  }

  lemma {:induction false} DistinctExact<T(!new)>(g: Layer<T>, h: seq<Item<T>>)
    requires DistinctIds(h) && forall i | i in h :: i.dist == g.dist(i.id)
    ensures Exact(g, h)
  {
    if h != [] {
      var (init, x) := (h[..|h| - 1], h[|h| - 1]);
      assert h == init + [x];
      DistinctExact(g, init);
      assert x !in init;
    }
  }

  // ---------- what every step keeps ----------

  /** The nodes this search has met: the entries, and whatever it marked. */
  function Met<T>(b: Front<T>, seen: set<T>, from: set<T>): set<T> { b.seen - seen + from }

  /** The results are the ef closest of the nodes met. */
  ghost predicate Closest<T(!new)>(g: Layer<T>, ef: nat, b: Front<T>, met: set<T>) {
    && IsHeap(true, b.cand) && IsHeap(false, b.res) && Exact(g, b.cand) && Exact(g, b.res)
    && Ids(b.cand) <= met && Ids(b.res) <= met
    && |b.res| <= ef && (|b.res| < ef ==> Ids(b.res) == met)
    && forall x, y | x in met && x !in Ids(b.res) && y in Ids(b.res) :: g.dist(y) <= g.dist(x)
  }

  /** A result waits to be explored, is being explored, or has only seen neighbours. */
  ghost predicate Explored<T(!new)>(g: Layer<T>, b: Front<T>, busy: set<T>) {
    forall x, y | x in Ids(b.res) && x !in Ids(b.cand) && x !in busy && y in g.adj(x) :: y in b.seen
  }

  lemma RootIsWorst<T(!new)>(g: Layer<T>, h: seq<Item<T>>)
    requires IsHeap(false, h) && Exact(g, h) && h != []
    ensures h[0].id in Ids(h) && h[0].dist == g.dist(h[0].id) && forall x | x in Ids(h) :: g.dist(x) <= h[0].dist
  {
    TakeItem(g, false, h);
  }

  lemma OfferKeeps<T(!new)>(g: Layer<T>, ef: nat, b: Front<T>, n: T, met: set<T>, busy: set<T>)
    requires ef > 0 && Closest(g, ef, b, met) && Explored(g, b, busy) && met <= b.seen && n !in b.seen
    ensures var b' := Offer(g, ef, b, n);
            Closest(g, ef, b', met + {n}) && Explored(g, b', busy) && b'.seen == b.seen + {n}
  {
    hide IsHeap, Exact, Push, Pop;
    if b.res != [] { RootIsWorst(g, b.res); }
    if b.res == [] || g.dist(n) < b.res[0].dist || |b.res| < ef {
      AddItem(g, true, b.cand, n);
      AddItem(g, false, b.res, n);
      var res := Push(false, b.res, Item(n, g.dist(n)));
      if |res| > ef {
        TakeItem(g, false, res);
      }
    }
  }

  lemma {:induction false} OfferAllKeeps<T(!new)>(g: Layer<T>, ef: nat, b: Front<T>, ns: seq<T>, seen: set<T>,
                                                  from: set<T>, busy: set<T>)
    requires ef > 0 && Closest(g, ef, b, Met(b, seen, from)) && Explored(g, b, busy) && seen <= b.seen && from <= b.seen
    ensures var b' := OfferAll(g, ef, b, ns);
            && Closest(g, ef, b', Met(b', seen, from)) && Explored(g, b', busy)
            && b.seen <= b'.seen && forall n :: n in b'.seen <==> n in b.seen || n in ns
  {
    hide Closest, Explored;
    if ns != [] {
      var (init, n) := (ns[..|ns| - 1], ns[|ns| - 1]);
      assert ns == init + [n];
      OfferAllKeeps(g, ef, b, init, seen, from, busy);
      var b1 := OfferAll(g, ef, b, init);
      if n !in b1.seen {
        OfferKeeps(g, ef, b1, n, Met(b1, seen, from), busy);
        assert Met(Offer(g, ef, b1, n), seen, from) == Met(b1, seen, from) + {n};
      }
    }
  }

  /** Nothing is met but what every closed set around the entries holds. */
  ghost predicate Linked<T(!new)>(g: Layer<T>, from: set<T>, met: set<T>) {
    forall s | from <= s && Closed(g, s) :: met <= s
  }

  ghost predicate Steady<T(!new)>(g: Layer<T>, ef: nat, b: Front<T>, seen: set<T>, from: set<T>) {
    && seen <= b.seen && from <= b.seen
    && Closest(g, ef, b, Met(b, seen, from)) && Linked(g, from, Met(b, seen, from))
    && Explored(g, b, {})
  }

  lemma {:induction false} BeginHeaps<T(!new)>(g: Layer<T>, seen: set<T>, entries: seq<T>)
    requires Distinct(entries)
    ensures var b := Begin(g, seen, entries);
            && IsHeap(true, b.cand) && IsHeap(false, b.res) && Exact(g, b.cand) && Exact(g, b.res)
            && Ids(b.res) == Ids(b.cand) == Members(entries) && |b.res| == |entries|
               && b.seen == seen + Members(entries)
  {
    if entries != [] {
      hide IsHeap, Exact, Push;
      var (init, e) := (entries[..|entries| - 1], entries[|entries| - 1]);
      assert entries == init + [e];
      BeginHeaps(g, seen, init);
      var b := Begin(g, seen, init);
      AddItem(g, true, b.cand, e);
      AddItem(g, false, b.res, e);
      assert Members(entries) == Members(init) + {e};
    }
  }

  lemma BeginKeeps<T(!new)>(g: Layer<T>, ef: nat, seen: set<T>, entries: seq<T>)
    requires Distinct(entries) && |entries| <= ef
    ensures Steady(g, ef, Begin(g, seen, entries), seen, Members(entries))
    ensures Begin(g, seen, entries).seen == seen + Members(entries)
  {
    hide IsHeap, Exact, Begin;
    BeginHeaps(g, seen, entries);
    assert Met(Begin(g, seen, entries), seen, Members(entries)) == Members(entries);
  }

  predicate Distinct<T(==)>(s: seq<T>) { forall i, j | 0 <= i < j < |s| :: s[i] != s[j] }

  function Members<T>(s: seq<T>): set<T> { set x | x in s }

  /** A popped candidate is the closest, and only it loses its place in line. */
  lemma PopKeeps<T(!new)>(g: Layer<T>, ef: nat, b: Front<T>, met: set<T>)
    requires b.cand != [] && Closest(g, ef, b, met) && Explored(g, b, {})
    ensures var (top, rest) := Pop(true, b.cand);
            && Closest(g, ef, b.(cand := rest), met) && Explored(g, b.(cand := rest), {top.id})
            && top.id in met && (Done(b, top, ef) ==> Explored(g, b.(cand := rest), {}) && Ids(b.res) !! Ids(b.cand))
  {
    hide IsHeap, Exact, Pop;
    TakeItem(g, true, b.cand);
    var (top, rest) := Pop(true, b.cand);
    if Done(b, top, ef) {
      RootIsWorst(g, b.res);
      forall x | x in Ids(b.cand) ensures x !in Ids(b.res) {
        assert Le(true, Item(x, g.dist(x)), top);
      }
    }
  }

  lemma {:induction false} ExploreKeeps<T(!new)>(g: Layer<T>, ef: nat, b: Front<T>, seen: set<T>, from: set<T>)
    requires ef > 0 && Inside(g, b) && Steady(g, ef, b, seen, from)
    ensures var b' := Explore(g, ef, b);
            Steady(g, ef, b', seen, from) && b.seen <= b'.seen && Inside(g, b')
            && forall x, y | x in Ids(b'.res) && y in g.adj(x) :: y in b'.seen
    decreases g.all - b.seen, |b.cand|
  {
    hide Closest, Linked;
    if b.cand != [] {
      var met := Met(b, seen, from);
      var (top, rest) := Pop(true, b.cand);
      PopInside(g, b);
      PopKeeps(g, ef, b, met);
      var b1 := b.(cand := rest);
      assert Met(b1, seen, from) == met;
      if !Done(b, top, ef) {
        OfferAllInside(g, ef, b1, g.adj(top.id));
        OfferAllKeeps(g, ef, b1, g.adj(top.id), seen, from, {top.id});
        var b2 := OfferAll(g, ef, b1, g.adj(top.id));
        MoreLinked(g, from, met, top.id, Met(b2, seen, from));
        ExploreKeeps(g, ef, b2, seen, from);
      }
    }
  }

  lemma MoreLinked<T(!new)>(g: Layer<T>, from: set<T>, met: set<T>, x: T, met': set<T>)
    requires Linked(g, from, met) && x in met && forall y | y in met' :: y in met || y in g.adj(x)
    ensures Linked(g, from, met')
  {
  }

  /** When the search of a layer stops, it has the ef closest of all the nodes it met, nearest first, and has seen
      every layer neighbour of each; and it has met nothing out of reach of its entries. */
  lemma SearchLayerExit<T(!new)>(g: Layer<T>, seen: set<T>, entries: seq<T>, ef: nat)
    requires Closed(g, g.all) && seen <= g.all && forall e | e in entries :: e in g.all
    requires Distinct(entries) && 0 < |entries| <= ef
    ensures var (out, after) := SearchLayer(g, seen, entries, ef);
            var met := after - seen + Members(entries);
            && Sorted(out) && DistinctIds(out) && (forall i | i in out :: i.dist == g.dist(i.id))
            && |Ids(out)| == |out| == (if |met| < ef then |met| else ef)
            && Ids(out) <= met <= after <= g.all && seen <= after
            && (forall x, i | x in met && x !in Ids(out) && i in out :: i.dist <= g.dist(x))
            && (forall i, y | i in out && y in g.adj(i.id) :: y in after)
            && Linked(g, Members(entries), met)
  {
    hide IsHeap, Exact, Begin, Explore, SortByDist, Sorted, DistinctIds, Explored;
    BeginInside(g, seen, entries);
    BeginKeeps(g, ef, seen, entries);
    var b0 := Begin(g, seen, entries);
    ExploreKeeps(g, ef, b0, seen, Members(entries));
    var b := Explore(g, ef, b0);
    SortKeeps(g, b.res);
    SubsetSize(Ids(b.res), Met(b, seen, Members(entries)));
  }

  /** Sorting keeps the nodes, each once and at its own distance. */
  lemma SortKeeps<T(!new)>(g: Layer<T>, h: seq<Item<T>>)
    requires Exact(g, h)
    ensures var out := SortByDist(h);
            && Sorted(out) && DistinctIds(out) && (forall i | i in out :: i.dist == g.dist(i.id))
            && Ids(out) == Ids(h) && |Ids(out)| == |out| == |h|
  {
    var out := SortByDist(h);
    SortSorts(h);
    assert forall i :: i in out <==> i in h by {
      assert forall i :: i in out <==> i in multiset(out);
    }
    IdsCount(g, h);
    ExactDistinct(g, out);
  }

  lemma {:induction false} SubsetSize<T>(a: set<T>, b: set<T>)
    requires a <= b
    ensures |a| <= |b|
  {
    assert b == a + (b - a);
  }

  /** A fresh search that returns fewer than ef has returned exactly what the entries reach. */
  lemma FewerIsComponent<T(!new)>(g: Layer<T>, entries: seq<T>, ef: nat)
    requires Closed(g, g.all) && forall e | e in entries :: e in g.all
    requires Distinct(entries) && 0 < |entries| <= ef
    ensures var (out, after) := SearchLayer(g, {}, entries, ef);
            |out| < ef ==>
              && Members(entries) <= Ids(out) && Closed(g, Ids(out))
              && forall s | Members(entries) <= s && Closed(g, s) :: Ids(out) <= s
  {
    hide SearchLayer, Sorted, DistinctIds;
    SearchLayerExit(g, {}, entries, ef);
    var (out, after) := SearchLayer(g, {}, entries, ef);
    if |out| < ef {
      var met := after - {} + Members(entries);
      SubsetEqual(Ids(out), met);
      assert after == met;
    }
  }

  lemma SubsetEqual<T>(a: set<T>, b: set<T>)
    requires a <= b && |a| == |b|
    ensures a == b
  {
    assert b == a + (b - a);
  }

  // ---------- the greedy walk ----------

  /** Take each neighbour in turn that is closer than the best so far. */
  function Hop<T>(g: Layer<T>, ns: seq<T>, cur: T): T {
    if ns == [] then cur
    else
      var c := Hop(g, ns[..|ns| - 1], cur);
      var n := ns[|ns| - 1];
      if g.dist(n) < g.dist(c) then n else c
  }

  lemma {:induction false} HopBest<T(!new)>(g: Layer<T>, ns: seq<T>, cur: T)
    ensures var c := Hop(g, ns, cur);
            (c == cur || c in ns) && g.dist(c) <= g.dist(cur) && (forall n | n in ns :: g.dist(c) <= g.dist(n))
            && (c != cur ==> g.dist(c) < g.dist(cur))
  {
    if ns != [] {
      HopBest(g, ns[..|ns| - 1], cur);
      assert ns == ns[..|ns| - 1] + [ns[|ns| - 1]];
    }
  }

  ghost function Closer<T(!new)>(g: Layer<T>, cur: T): set<T> { set x | x in g.all && g.dist(x) < g.dist(cur) }

  lemma CloserShrinks<T(!new)>(g: Layer<T>, c: T, cur: T)
    requires c in g.all && g.dist(c) < g.dist(cur)
    ensures Closer(g, c) < Closer(g, cur)
  {
    assert c in Closer(g, cur) && c !in Closer(g, c);
  }

  function Greedy<T(!new)>(g: Layer<T>, cur: T): T
    requires Closed(g, g.all) && cur in g.all
    decreases Closer(g, cur)
  {
    HopBest(g, g.adj(cur), cur);
    var c := Hop(g, g.adj(cur), cur);
    if c == cur then cur
    else
      CloserShrinks(g, c, cur);
      Greedy(g, c)
  }

  /** The walk ends within reach, no farther than it began, where no neighbour is closer. */
  lemma {:induction false} GreedyStops<T(!new)>(g: Layer<T>, cur: T)
    requires Closed(g, g.all) && cur in g.all
    ensures var c := Greedy(g, cur);
            && c in g.all && g.dist(c) <= g.dist(cur) && (forall n | n in g.adj(c) :: g.dist(c) <= g.dist(n))
            && forall s | cur in s && Closed(g, s) :: c in s
    decreases Closer(g, cur)
  {
    HopBest(g, g.adj(cur), cur);
    var c := Hop(g, g.adj(cur), cur);
    if c != cur {
      CloserShrinks(g, c, cur);
      GreedyStops(g, c);
    }
  }
}
