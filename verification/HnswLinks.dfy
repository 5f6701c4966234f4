/** What an insert links: the nearest nodes it found, spread out, both ways. */
module HnswLinks {
  import opened Bytes
  import opened Records
  import opened Heap
  import opened Beam
  import opened HnswGraph

  // ---------- one layer ----------

  /** One of the nodes a search found, but the one it was made for. */
  predicate Other(out: seq<Item<nat>>, idx: nat, e: Item<nat>) { e in out && e.id != idx }

  /** Nearer to a listed node than so far. */
  ghost predicate Behind(space: Space, nodes: seq<Node>, list: seq<nat>, n: nat, far: real) {
    exists r :: r in list && r < |nodes| && n < |nodes| && space.near(nodes[n].vector, nodes[r].vector) < far
  }

  /** The links a node takes of what its search found: found nodes other than itself, at most sixteen, the nearest first
      among them; and with room left, none passed over but for being nearer to a linked one than to the node. */
  ghost predicate OwnLinks(space: Space, nodes: seq<Node>, out: seq<Item<nat>>, idx: nat, list: seq<nat>) {
    && |list| <= 16 && Distinct(list)
    && (forall n | n in list :: exists e :: Other(out, idx, e) && e.id == n)
    && (forall e | Other(out, idx, e) ::
          list != [] && exists f :: Other(out, idx, f) && f.id == list[0] && f.dist <= e.dist)
    && (|list| < 16 ==> forall e | Other(out, idx, e) :: e.id in list || Behind(space, nodes, list, e.id, e.dist))
  }

  /** What becomes of the list of a node that is linked to: it lists the new node too; or it had been full, and is a
      choice among the old ones and the new, whatever it leaves out being nearer to a chosen one than to the node, or
      the list full again. */
  ghost predicate LinkedBack(space: Space, nodes: seq<Node>, idx: nat, layer: nat, n: nat, list': seq<nat>)
    requires OnLayer(nodes, n, layer)
  {
    var (list, cap) := (nodes[n].links[layer], if layer == 0 then 32 else 16);
    && (idx in list ==> list' == list)
    && (idx !in list && |list| < cap ==> list' == list + [idx])
    && (idx !in list && |list| >= cap ==>
          && |list'| <= cap && Distinct(list') && (forall m | m in list' :: m in list + [idx])
          && forall m | m in list + [idx] && m < |nodes| ::
            m in list' || |list'| == cap
            || Behind(space, nodes, list', m, space.near(nodes[m].vector, nodes[n].vector)))
  }

  /** A layer once a node is linked there: its own list from what a search two hundred wide found, every listed node's
      list, and all other lists as they were. */
  ghost predicate LayerLinked(space: Space, g: Graph, idx: nat, cur: nat, layer: nat, after: seq<Node>)
    requires Tidy(g.nodes) && OnLayer(g.nodes, idx, layer) && cur < |g.nodes|
  {
    var out := SearchFrom(space, g, g.nodes[idx].vector, cur, 200, layer).0;
    && SameFrame(g.nodes, after)
    && OwnLinks(space, g.nodes, out, idx, after[idx].links[layer])
    && (forall n | n in after[idx].links[layer] ::
          OnLayer(g.nodes, n, layer) && LinkedBack(space, g.nodes, idx, layer, n, after[n].links[layer]))
    && (forall n: nat | OnLayer(g.nodes, n, layer) && n != idx && n !in after[idx].links[layer] ::
          after[n].links[layer] == g.nodes[n].links[layer])
  }

  // ---------- selection ----------

  lemma {:induction false} ExceptSorted(found: seq<Item<nat>>, idx: nat)
    requires Sorted(found)
    ensures Sorted(Except(found, idx))
    ensures forall e | e in Except(found, idx) :: e in found
  {
    if found != [] {
      var (init, x) := (found[..|found| - 1], found[|found| - 1]);
      assert found == init + [x];
      ExceptSorted(init, idx);
      var e := Except(init, idx);
      forall i | 0 <= i < |e| ensures e[i].dist <= x.dist {
        assert e[i] in init;
        var j :| 0 <= j < |init| && init[j] == e[i];
      }
    }
  }

  /** The first candidate is always kept first. */
  lemma SelectFirst(space: Space, nodes: seq<Node>, cands: seq<Item<nat>>, m: nat)
    requires cands != [] && m > 0 && (forall e | e in cands :: e.id < |nodes|) && DistinctIds(cands)
    ensures var s := Select(space, nodes, [], cands, m); s != [] && s[0] == cands[0].id
  {
    var e := cands[0];
    assert e in cands && forall x | x in cands[1..] :: x in cands;
    assert [] + [e.id] == [e.id];
    forall x | x in cands[1..] ensures x.id != e.id {
      var j :| 0 <= j < |cands[1..]| && cands[1..][j] == x;
      assert cands[j + 1] == x;
    }
    SelectWithin(space, nodes, [e.id], cands[1..], m);
  }

  /** What selection keeps of ranked candidates, and why it leaves out what it does. */
  lemma SelectKeeps(space: Space, nodes: seq<Node>, base: nat -> real, cands: seq<Item<nat>>, m: nat)
    requires (forall e | e in cands :: e.id < |nodes| && e.dist == base(e.id)) && DistinctIds(cands)
    ensures var s := Select(space, nodes, [], cands, m);
            && |s| <= m && Distinct(s) && (forall n | n in s :: exists e :: e in cands && e.id == n)
            && (|s| < m ==> forall e | e in cands :: e.id in s || Behind(space, nodes, s, e.id, e.dist))
  {
    assert Spread(space, nodes, base, []);
    SelectWithin(space, nodes, [], cands, m);
    SelectSpread(space, nodes, base, [], cands, m);
    var s := Select(space, nodes, [], cands, m);
    if |s| < m {
      forall e | e in cands ensures e.id in s || Behind(space, nodes, s, e.id, e.dist) {
        assert Weighed(space, nodes, s, e);
      }
    }
  }

  /** A search's results: nearest first, each node once and at its own distance, all on the layer. */
  lemma FoundAre(space: Space, g: Graph, q: Vec, cur: nat, layer: nat)
    requires Tidy(g.nodes) && OnLayer(g.nodes, cur, layer)
    ensures var out := SearchFrom(space, g, q, cur, 200, layer).0;
            && Sorted(out) && DistinctIds(out) && out != []
            && forall e | e in out :: OnLayer(g.nodes, e.id, layer) && e.dist == space.near(g.nodes[e.id].vector, q)
  {
    hide SearchLayer, Sorted, Tidy;
    LayerClosed(space, g.nodes, q, layer);
    var l := LayerOf(space, g.nodes, q, layer);
    SearchLayerExit(l, SeenAtStart(g), [cur], 200);
    FoundOnLayer(space, g, q, cur, 200, layer);
    var (out, after) := SearchLayer(l, SeenAtStart(g), [cur], 200);
    var met := after - SeenAtStart(g) + Members([cur]);
    assert cur in [cur] && cur in met;
    assert met != {};
  }

  /** What selecting from a search's results makes. */
  lemma SelectedLinks(space: Space, nodes: seq<Node>, q: Vec, out: seq<Item<nat>>, idx: nat)
    requires Sorted(out) && DistinctIds(out)
    requires forall e | e in out :: e.id < |nodes| && e.dist == space.near(nodes[e.id].vector, q)
    ensures (forall e | e in Except(out, idx) :: e.id < |nodes|)
            && OwnLinks(space, nodes, out, idx, Select(space, nodes, [], Except(out, idx), 16))
  {
    ExceptWithin(out, idx);
    ExceptSorted(out, idx);
    var found := Except(out, idx);
    assert forall e :: Other(out, idx, e) <==> e in found;
    hide Behind, Sorted, Distinct, DistinctIds, Select, Except, Other, OwnLinks;
    var base := (n: nat) => if n < |nodes| then space.near(nodes[n].vector, q) else 0.0;
    SelectKeeps(space, nodes, base, found, 16);
    if found != [] {
      SelectFirst(space, nodes, found, 16);
      FirstNearest(found);
    }
    KeptLinks(space, nodes, out, idx, found, Select(space, nodes, [], found, 16));
  }

  lemma KeptLinks(space: Space, nodes: seq<Node>, out: seq<Item<nat>>, idx: nat, found: seq<Item<nat>>, list: seq<nat>)
    requires forall e :: Other(out, idx, e) <==> e in found
    requires |list| <= 16 && Distinct(list) && forall n | n in list :: exists e :: e in found && e.id == n
    requires found != [] ==> list != [] && list[0] == found[0].id && forall e | e in found :: found[0].dist <= e.dist
    requires |list| < 16 ==> forall e | e in found :: e.id in list || Behind(space, nodes, list, e.id, e.dist)
    ensures OwnLinks(space, nodes, out, idx, list)
  {
    hide Behind, Distinct, Other;
    if found != [] { assert found[0] in found; }
  }

  lemma FirstNearest(s: seq<Item<nat>>)
    requires Sorted(s) && s != []
    ensures forall e | e in s :: s[0].dist <= e.dist
  {
  }

  lemma ChosenLinks(space: Space, g: Graph, idx: nat, cur: nat, layer: nat)
    requires Ready(g) && OnLayer(g.nodes, idx, layer) && OnLayer(g.nodes, cur, layer)
    ensures var q := g.nodes[idx].vector;
            OwnLinks(space, g.nodes, SearchFrom(space, g, q, cur, 200, layer).0, idx,
                     Chosen(space, g, idx, cur, layer).0)
  {
    var q := g.nodes[idx].vector;
    var out := SearchFrom(space, g, q, cur, 200, layer).0;
    FoundAre(space, g, q, cur, layer);
    SelectedLinks(space, g.nodes, q, out, idx);
    hide Tidy, SearchFrom, OwnLinks, DistinctIds, Select, Except;
    assert Chosen(space, g, idx, cur, layer).0 == Select(space, g.nodes, [], Except(out, idx), 16);
  }

  // ---------- linking back ----------

  lemma SortMembers<T>(s: seq<Item<T>>)
    ensures forall e :: e in SortByDist(s) <==> e in s
  {
    SortSorts(s);
    hide SortByDist;
    forall e ensures e in SortByDist(s) <==> e in s { assert e in SortByDist(s) <==> e in multiset(SortByDist(s)); }
  }

  lemma RankedAre(space: Space, nodes: seq<Node>, n: nat, list: seq<nat>)
    requires n < |nodes| && Below(list, |nodes|) && Distinct(list)
    ensures var ranked := Ranked(space, nodes, n, list);
            && DistinctIds(ranked) && (forall m :: m in list <==> exists e :: e in ranked && e.id == m)
            && forall e | e in ranked :: e.id < |nodes| && e.dist == space.near(nodes[e.id].vector, nodes[n].vector)
  {
    var raw := seq(|list|, i requires 0 <= i < |list| =>
                   Item(list[i], space.near(nodes[list[i]].vector, nodes[n].vector)));
    RankedIds(space, nodes, n, list);
    SortMembers(raw);
    assert Ranked(space, nodes, n, list) == SortByDist(raw);
    hide SortByDist, Ranked, DistinctIds, Distinct;
    forall m | m in list ensures exists e :: e in SortByDist(raw) && e.id == m {
      var i :| 0 <= i < |list| && list[i] == m;
      assert raw[i] in raw && raw[i].id == m;
    }
  }

  lemma BackIs(space: Space, nodes: seq<Node>, idx: nat, layer: nat, n: nat)
    requires Tidy(nodes) && OnLayer(nodes, n, layer) && OnLayer(nodes, idx, layer)
    ensures LinkedBack(space, nodes, idx, layer, n, BackList(space, nodes, idx, layer, n))
  {
    var list := nodes[n].links[layer];
    assert TidyList(nodes, n, layer, list);
    var all := list + [idx];
    var cap := if layer == 0 then 32 else 16;
    if idx !in list && |all| > cap {
      assert Below(all, |nodes|) && Distinct(all) by { assert forall i | 0 <= i < |list| :: list[i] in list; }
      hide Tidy, Ranked, Select, Behind;
      RankedAre(space, nodes, n, all);
      var base := (m: nat) => if m < |nodes| then space.near(nodes[m].vector, nodes[n].vector) else 0.0;
      SelectKeeps(space, nodes, base, Ranked(space, nodes, n, all), cap);
    }
  }

  lemma LinkBackStep(space: Space, nodes: seq<Node>, idx: nat, layer: nat, sel: seq<nat>)
    requires Tidy(nodes) && OnLayer(nodes, idx, layer) && sel != []
    requires forall n | n in sel :: OnLayer(nodes, n, layer) && n != idx
    ensures var (init, n) := (sel[..|sel| - 1], sel[|sel| - 1]);
            && (forall m | m in init :: OnLayer(nodes, m, layer) && m != idx) && OnLayer(nodes, n, layer) && n != idx
            && var (mid, r) := (LinkBack(space, nodes, idx, layer, init), LinkBack(space, nodes, idx, layer, sel));
            && Tidy(mid) && SameFrame(nodes, mid) && SameFrame(nodes, r) && OnLayer(mid, n, layer)
            && OnLayer(mid, idx, layer) && r[n].links[layer] == BackList(space, mid, idx, layer, n)
            && forall m: nat, l: nat | OnLayer(nodes, m, l) && (l != layer || m != n) ::
                 OnLayer(mid, m, l) && r[m].links[l] == mid[m].links[l]
  {
    hide Tidy, BackList;
    assert sel[|sel| - 1] in sel && forall m | m in sel[..|sel| - 1] :: m in sel;
  }

  /** Linking back changes the lists of the linked, each once. */
  lemma {:induction false} LinkBackIs(space: Space, nodes: seq<Node>, idx: nat, layer: nat, sel: seq<nat>)
    requires Tidy(nodes) && OnLayer(nodes, idx, layer) && Distinct(sel)
    requires forall n | n in sel :: OnLayer(nodes, n, layer) && n != idx
    ensures var r := LinkBack(space, nodes, idx, layer, sel);
            && SameFrame(nodes, r)
            && (forall n | n in sel :: LinkedBack(space, nodes, idx, layer, n, r[n].links[layer]))
            && (forall n: nat, l: nat | OnLayer(nodes, n, l) && (l != layer || n !in sel) ::
                  r[n].links[l] == nodes[n].links[l])
    decreases |sel|
  {
    hide LinkedBack, BackList, Tidy, LinkBack;
    if sel != [] {
      var (init, n) := (sel[..|sel| - 1], sel[|sel| - 1]);
      assert sel == init + [n];
      assert n !in init;
      LinkBackStep(space, nodes, idx, layer, sel);
      LinkBackIs(space, nodes, idx, layer, init);
      BackIs(space, nodes, idx, layer, n);
      BackSame(space, nodes, LinkBack(space, nodes, idx, layer, init), idx, layer, n);
    } else {
      NoneBack(space, nodes, idx, layer);
    }
  }

  lemma NoneBack(space: Space, nodes: seq<Node>, idx: nat, layer: nat)
    requires Tidy(nodes) && OnLayer(nodes, idx, layer)
    ensures LinkBack(space, nodes, idx, layer, []) == nodes
  {
  }

  /** A back list depends on vectors and on the node's own list only. */
  lemma BackSame(space: Space, a: seq<Node>, b: seq<Node>, idx: nat, layer: nat, n: nat)
    requires Tidy(a) && Tidy(b) && SameFrame(a, b) && OnLayer(a, n, layer) && OnLayer(a, idx, layer)
    requires a[n].links[layer] == b[n].links[layer]
    ensures BackList(space, a, idx, layer, n) == BackList(space, b, idx, layer, n)
  {
    var list := a[n].links[layer];
    assert TidyList(a, n, layer, list);
    assert Below(list + [idx], |a|) by { assert forall i | 0 <= i < |list| :: list[i] in list; }
    hide Tidy, Ranked, Select;
    SameVectors(space, a, b, n, list + [idx], Cap(layer));
  }

  /** A node's chosen links put in, and linked back. */
  lemma LinkedAll(space: Space, nodes: seq<Node>, idx: nat, layer: nat, sel: seq<nat>)
    requires Tidy(nodes) && OnLayer(nodes, idx, layer) && TidyList(nodes, idx, layer, sel)
    requires Tidy(WithLinks(nodes, idx, layer, sel)) && OnLayer(WithLinks(nodes, idx, layer, sel), idx, layer)
    requires forall n | n in sel :: OnLayer(WithLinks(nodes, idx, layer, sel), n, layer) && n != idx
    ensures var after := LinkBack(space, WithLinks(nodes, idx, layer, sel), idx, layer, sel);
            && SameFrame(nodes, after) && after[idx].links[layer] == sel
            && (forall n | n in sel ::
                  OnLayer(nodes, n, layer) && LinkedBack(space, nodes, idx, layer, n, after[n].links[layer]))
            && (forall n: nat, l: nat | OnLayer(nodes, n, l) && (l != layer || (n != idx && n !in sel)) ::
                  after[n].links[l] == nodes[n].links[l])
  {
    var linked := WithLinks(nodes, idx, layer, sel);
    WithLinksTidy(nodes, idx, layer, sel);
    hide Tidy, LinkedBack, LinkBack;
    LinkBackIs(space, linked, idx, layer, sel);
    var after := LinkBack(space, linked, idx, layer, sel);
    forall n | n in sel ensures LinkedBack(space, nodes, idx, layer, n, after[n].links[layer]) {
      LinkedSame(space, linked, nodes, idx, layer, n, after[n].links[layer]);
    }
    forall n: nat, l: nat | OnLayer(nodes, n, l) && (l != layer || (n != idx && n !in sel))
      ensures after[n].links[l] == nodes[n].links[l]
    {
      assert OnLayer(linked, n, l) && linked[n].links[l] == nodes[n].links[l];
    }
  }

  lemma LinkLayerParts(space: Space, g: Graph, idx: nat, cur: nat, layer: nat)
    requires Ready(g) && OnLayer(g.nodes, idx, layer) && OnLayer(g.nodes, cur, layer)
    ensures var (sel, next, g1) := Chosen(space, g, idx, cur, layer);
            var (g', next') := LinkLayer(space, g, idx, cur, layer);
            var linked := WithLinks(g.nodes, idx, layer, sel);
            && Tidy(g.nodes) && Tidy(linked) && OnLayer(linked, idx, layer) && TidyList(g.nodes, idx, layer, sel)
            && (forall n | n in sel :: OnLayer(linked, n, layer) && n != idx)
            && g'.nodes == LinkBack(space, linked, idx, layer, sel) && next' == next
  {
    WithLinksTidy(g.nodes, idx, layer, Chosen(space, g, idx, cur, layer).0);
    hide Chosen;
  }

  /** **Linking a node at a layer does what LayerLinked says**, and leaves the other layers alone. */
  lemma LinkLayerIs(space: Space, g: Graph, idx: nat, cur: nat, layer: nat)
    requires Ready(g) && OnLayer(g.nodes, idx, layer) && OnLayer(g.nodes, cur, layer)
    ensures var (g', next) := LinkLayer(space, g, idx, cur, layer);
            && Tidy(g.nodes) && LayerLinked(space, g, idx, cur, layer, g'.nodes)
            && (forall n: nat, l: nat | OnLayer(g.nodes, n, l) && l != layer ::
                  OnLayer(g'.nodes, n, l) && g'.nodes[n].links[l] == g.nodes[n].links[l])
            && (cur != idx ==> next != idx)
  {
    var sel := Chosen(space, g, idx, cur, layer).0;
    ChosenLinks(space, g, idx, cur, layer);
    ChosenNext(space, g, idx, cur, layer);
    LinkLayerParts(space, g, idx, cur, layer);
    hide Ready, Tidy, Chosen, LinkLayer, SearchFrom, OwnLinks, LinkedBack, WithLinks, LinkBack, TidyList, LayerLinked;
    LinkedAll(space, g.nodes, idx, layer, sel);
    LayerFrom(space, g, idx, cur, layer, sel, LinkLayer(space, g, idx, cur, layer).0.nodes);
  }

  lemma LayerFrom(space: Space, g: Graph, idx: nat, cur: nat, layer: nat, sel: seq<nat>, after: seq<Node>)
    requires Tidy(g.nodes) && OnLayer(g.nodes, idx, layer) && cur < |g.nodes|
    requires OwnLinks(space, g.nodes, SearchFrom(space, g, g.nodes[idx].vector, cur, 200, layer).0, idx, sel)
    requires SameFrame(g.nodes, after) && after[idx].links[layer] == sel
    requires forall n | n in sel ::
               OnLayer(g.nodes, n, layer) && LinkedBack(space, g.nodes, idx, layer, n, after[n].links[layer])
    requires forall n: nat, l: nat | OnLayer(g.nodes, n, l) && (l != layer || (n != idx && n !in sel)) ::
               after[n].links[l] == g.nodes[n].links[l]
    ensures LayerLinked(space, g, idx, cur, layer, after)
  {
    hide Tidy, SearchFrom, OwnLinks, LinkedBack;
  }

  lemma ChosenNext(space: Space, g: Graph, idx: nat, cur: nat, layer: nat)
    requires Ready(g) && OnLayer(g.nodes, idx, layer) && OnLayer(g.nodes, cur, layer)
    ensures cur != idx ==> Chosen(space, g, idx, cur, layer).1 != idx
  {
    hide Tidy, SearchFrom, Select;
    var out := SearchFrom(space, g, g.nodes[idx].vector, cur, EF_CONSTRUCTION, layer).0;
    ExceptWithin(out, idx);
    if Except(out, idx) != [] { assert Except(out, idx)[0] in Except(out, idx); }
  }

  lemma LinkedSame(space: Space, a: seq<Node>, b: seq<Node>, idx: nat, layer: nat, n: nat, list: seq<nat>)
    requires SameFrame(a, b) && OnLayer(a, n, layer) && OnLayer(b, n, layer)
             && a[n].links[layer] == b[n].links[layer]
    requires LinkedBack(space, a, idx, layer, n, list)
    ensures LinkedBack(space, b, idx, layer, n, list)
  {
  }

  // ---------- all layers ----------

  /** The same nodes, with the same lists at this layer. */
  ghost predicate SameLayer(a: Graph, b: Graph, layer: nat) {
    && SameFrame(a.nodes, b.nodes)
    && forall n: nat | OnLayer(a.nodes, n, layer) ::
         OnLayer(b.nodes, n, layer) && b.nodes[n].links[layer] == a.nodes[n].links[layer]
  }

  /** A node has been linked at a layer as it was in `g`, by a search there; and one not started from the node
      itself, unless that is where the linking starts. */
  ghost predicate LinkedAt(space: Space, g: Graph, idx: nat, layer: nat, after: Graph, start: nat) {
    exists at: Graph, cur: nat ::
      && Ready(at) && SameLayer(g, at, layer) && OnLayer(at.nodes, idx, layer) && OnLayer(at.nodes, cur, layer)
      && (start != idx ==> cur != idx)
      && LayerLinked(space, at, idx, cur, layer, after.nodes)
  }

  lemma LinkedSince(space: Space, g0: Graph, g: Graph, idx: nat, layer: nat, after: Graph, start: nat)
    requires LinkedAt(space, g, idx, layer, after, start) && SameLayer(g0, g, layer)
    ensures LinkedAt(space, g0, idx, layer, after, start)
  {
    hide Tidy, LayerLinked;
    var at: Graph, cur: nat :|
      && Ready(at) && SameLayer(g, at, layer) && OnLayer(at.nodes, idx, layer) && OnLayer(at.nodes, cur, layer)
      && (start != idx ==> cur != idx)
      && LayerLinked(space, at, idx, cur, layer, after.nodes);
    assert SameLayer(g0, at, layer);
  }

  lemma LayerStays(space: Space, g: Graph, idx: nat, cur: nat, layer: nat, a: Graph, b: Graph)
    requires Tidy(g.nodes) && OnLayer(g.nodes, idx, layer) && cur < |g.nodes|
    requires LayerLinked(space, g, idx, cur, layer, a.nodes) && SameLayer(a, b, layer)
    ensures LayerLinked(space, g, idx, cur, layer, b.nodes)
  {
    hide Tidy, SearchFrom, OwnLinks, LinkedBack;
    forall n: nat | OnLayer(g.nodes, n, layer) ensures b.nodes[n].links[layer] == a.nodes[n].links[layer] {
      assert OnLayer(a.nodes, n, layer);
    }
  }

  /** Linking at layers n - 1 down to 0 links at each of them, and leaves the higher ones alone. */
  lemma {:induction false} LinkLayersAre(space: Space, g: Graph, idx: nat, cur: nat, n: nat)
    requires Ready(g) && idx < |g.nodes| && n <= |g.nodes[idx].links| && cur < |g.nodes| && n <= |g.nodes[cur].links|
    ensures var r := LinkLayers(space, g, idx, cur, n);
            && (forall layer: nat | layer < n :: LinkedAt(space, g, idx, layer, r, cur))
            && forall layer: nat | layer >= n :: SameLayer(g, r, layer)
    decreases n
  {
    hide Ready, Tidy, LinkLayer, LinkLayers, LayerLinked, LinkedAt, SameLayer;
    LinkStep(space, g, idx, cur, n);
    if n == 0 {
      forall layer: nat ensures SameLayer(g, g, layer) { SameLayerSelf(g, layer); }
    } else {
      var top := n - 1;
      LinkLayerIs(space, g, idx, cur, top);
      var (g', cur') := LinkLayer(space, g, idx, cur, top);
      LinkLayersAre(space, g', idx, cur', top);
      var r := LinkLayers(space, g', idx, cur', top);
      LayerStays(space, g, idx, cur, top, g', r);
      TopLinked(space, g, idx, cur, top, r, cur);
      forall layer: nat | layer != top ensures SameLayer(g, g', layer) { OtherLayer(g, g', top, layer); }
      forall layer: nat | layer < top ensures LinkedAt(space, g, idx, layer, r, cur) {
        LinkedSince(space, g, g', idx, layer, r, cur');
        LinkedWeaker(space, g, idx, layer, r, cur', cur);
      }
      forall layer: nat | layer >= n ensures SameLayer(g, r, layer) { SameLayerOn(g, g', r, layer); }
    }
  }

  lemma SameLayerSelf(g: Graph, layer: nat)
    ensures SameLayer(g, g, layer)
  {
  }

  lemma SameLayerOn(a: Graph, b: Graph, c: Graph, layer: nat)
    requires SameLayer(a, b, layer) && SameLayer(b, c, layer)
    ensures SameLayer(a, c, layer)
  {
  }

  lemma OtherLayer(a: Graph, b: Graph, top: nat, layer: nat)
    requires SameFrame(a.nodes, b.nodes) && layer != top
    requires forall n: nat, l: nat | OnLayer(a.nodes, n, l) && l != top ::
               OnLayer(b.nodes, n, l) && b.nodes[n].links[l] == a.nodes[n].links[l]
    ensures SameLayer(a, b, layer)
  {
  }

  lemma LinkedWeaker(space: Space, g: Graph, idx: nat, layer: nat, after: Graph, was: nat, now: nat)
    requires LinkedAt(space, g, idx, layer, after, was) && (now != idx ==> was != idx)
    ensures LinkedAt(space, g, idx, layer, after, now)
  {
    hide LayerLinked, Ready, SameLayer;
  }

  lemma TopLinked(space: Space, g: Graph, idx: nat, cur: nat, layer: nat, after: Graph, start: nat)
    requires Ready(g) && OnLayer(g.nodes, idx, layer) && OnLayer(g.nodes, cur, layer) && (start != idx ==> cur != idx)
    requires Tidy(g.nodes) && LayerLinked(space, g, idx, cur, layer, after.nodes)
    ensures LinkedAt(space, g, idx, layer, after, start)
  {
    SameLayerSelf(g, layer);
    hide LayerLinked, Ready, SameLayer, Tidy;
  }

  lemma RelinkedIs(space: Space, g: Graph, idx: nat)
    requires Ready(g) && idx < |g.nodes|
    ensures |g.nodes[idx].links| > 0 && Tidy(g.nodes)
            && g.entry.Some? && g.entry.value < |g.nodes| && |g.nodes[g.entry.value].links| == g.maxLevel + 1
    ensures var (cur, n) := Entering(space, g, idx);
            && cur < |g.nodes| && n <= |g.nodes[cur].links|
            && n == (if |g.nodes[idx].links| <= g.maxLevel + 1 then |g.nodes[idx].links| else g.maxLevel + 1)
            && Relinked(space, g, idx) == LinkLayers(space, g, idx, cur, n)
  {
    ReadyParts(g, idx);
    hide Ready, Tidy, LinkLayers, Descend;
  }

  /** **Relinking links a node at every layer up to its own and the graph's.** */
  lemma RelinkedAre(space: Space, g: Graph, idx: nat)
    requires Ready(g) && idx < |g.nodes|
    ensures |g.nodes[idx].links| > 0 && Tidy(g.nodes)
            && g.entry.Some? && g.entry.value < |g.nodes| && |g.nodes[g.entry.value].links| == g.maxLevel + 1
    ensures forall layer: nat | layer < |g.nodes[idx].links| && layer <= g.maxLevel ::
              LinkedAt(space, g, idx, layer, Relinked(space, g, idx), Entering(space, g, idx).0)
  {
    RelinkedIs(space, g, idx);
    hide Ready, Tidy, LinkLayers, LinkedAt, Entering, Relinked;
    var (cur, n) := Entering(space, g, idx);
    LinkLayersAre(space, g, idx, cur, n);
  }

  // ---------- a node nobody links to ----------

  lemma FoundInside<T(!new)>(l: Layer<T>, seen: set<T>, cur: T, ef: nat, s: set<T>)
    requires Closed(l, l.all) && seen <= l.all && cur in l.all && cur in s && Closed(l, s) && ef > 0
    ensures forall x | x in SearchLayer(l, seen, [cur], ef).0 :: x.id in s
  {
    hide SearchLayer, Closed, Sorted;
    SearchLayerExit(l, seen, [cur], ef);
    var out := SearchLayer(l, seen, [cur], ef).0;
    assert Members([cur]) <= s;
    forall x | x in out ensures x.id in s { assert x.id in Ids(out); }
  }

  /** No list at this layer names the node. */
  ghost predicate UnlinkedAt(nodes: seq<Node>, idx: nat, layer: nat) {
    forall n: nat | OnLayer(nodes, n, layer) :: idx !in nodes[n].links[layer]
  }

  lemma OthersClosed(space: Space, nodes: seq<Node>, q: Vec, idx: nat, layer: nat)
    requires Tidy(nodes) && UnlinkedAt(nodes, idx, layer)
    ensures Closed(LayerOf(space, nodes, q, layer), Numbers(|nodes|) - {idx})
  {
    var l := LayerOf(space, nodes, q, layer);
    LayerClosed(space, nodes, q, layer);
    hide Tidy;
    forall x, y | x in Numbers(|nodes|) - {idx} && y in l.adj(x) ensures y in Numbers(|nodes|) - {idx} {
      assert x in l.all && y in l.all;
    }
  }

  /** A walk from elsewhere does not come to a node nobody links to. */
  lemma {:induction false} DescendElsewhere(space: Space, nodes: seq<Node>, q: Vec, start: nat, top: nat, bottom: nat,
                                            idx: nat)
    requires Tidy(nodes) && start < |nodes| && start != idx
    requires forall layer: nat :: UnlinkedAt(nodes, idx, layer)
    ensures Descend(space, nodes, q, start, top, bottom) != idx
    decreases top
  {
    hide Tidy;
    if top > bottom {
      var g := LayerOf(space, nodes, q, top - 1);
      LayerClosed(space, nodes, q, top - 1);
      GreedyStops(g, start);
      OthersClosed(space, nodes, q, idx, top - 1);
      DescendElsewhere(space, nodes, q, WalkFrom(space, nodes, q, start, top - 1), top - 1, bottom, idx);
    }
  }

  /** A search from elsewhere finds another node. */
  lemma FindsOther(space: Space, g: Graph, idx: nat, cur: nat, layer: nat)
    requires Tidy(g.nodes) && OnLayer(g.nodes, cur, layer) && idx < |g.nodes| && cur != idx
    requires UnlinkedAt(g.nodes, idx, layer)
    ensures exists e :: Other(SearchFrom(space, g, g.nodes[idx].vector, cur, 200, layer).0, idx, e)
  {
    var q := g.nodes[idx].vector;
    var out := SearchFrom(space, g, q, cur, 200, layer).0;
    var l := LayerOf(space, g.nodes, q, layer);
    FoundAre(space, g, q, cur, layer);
    LayerClosed(space, g.nodes, q, layer);
    OthersClosed(space, g.nodes, q, idx, layer);
    assert SeenAtStart(g) <= l.all && cur in l.all && out == SearchLayer(l, SeenAtStart(g), [cur], 200).0;
    hide Tidy, SearchLayer, Sorted, LayerOf, SearchFrom, Closed, DistinctIds;
    FoundInside(l, SeenAtStart(g), cur, 200, Numbers(|g.nodes|) - {idx});
    assert out[0] in out;
    assert Other(out, idx, out[0]);
  }

  // ---------- where the searches start ----------

  /** Distance between nodes. */
  function Apart(space: Space, nodes: seq<Node>, a: nat, b: nat): real
    requires a < |nodes| && b < |nodes|
  {
    space.near(nodes[a].vector, nodes[b].vector)
  }

  /** No neighbour of this node, on this layer, is closer. */
  ghost predicate Nearby(space: Space, nodes: seq<Node>, idx: nat, r: nat, layer: nat)
    requires r < |nodes| && idx < |nodes|
  {
    OnLayer(nodes, r, layer) ==>
      forall n | n in nodes[r].links[layer] && n < |nodes| :: Apart(space, nodes, r, idx) <= Apart(space, nodes, n, idx)
  }

  lemma WalkEnds(space: Space, nodes: seq<Node>, idx: nat, start: nat, layer: nat)
    requires Tidy(nodes) && start < |nodes| && idx < |nodes|
    ensures var r := WalkFrom(space, nodes, nodes[idx].vector, start, layer);
            && r < |nodes| && Apart(space, nodes, r, idx) <= Apart(space, nodes, start, idx)
            && Nearby(space, nodes, idx, r, layer)
  {
    var (g, q) := (LayerOf(space, nodes, nodes[idx].vector, layer), nodes[idx].vector);
    LayerClosed(space, nodes, q, layer);
    hide Tidy, Closed;
    GreedyStops(g, start);
    hide Greedy;
  }

  /** A descent ends no farther than it starts, and where no neighbour one layer up is closer. */
  lemma {:induction false} DescendEnds(space: Space, nodes: seq<Node>, idx: nat, start: nat, top: nat, bottom: nat)
    requires Tidy(nodes) && start < |nodes| && idx < |nodes|
    ensures var r := Descend(space, nodes, nodes[idx].vector, start, top, bottom);
            && Apart(space, nodes, r, idx) <= Apart(space, nodes, start, idx)
            && (top > bottom ==> Nearby(space, nodes, idx, r, bottom))
    decreases top
  {
    hide Tidy, Descend, WalkFrom, Nearby, Apart;
    var q := nodes[idx].vector;
    if top > bottom {
      var next := WalkFrom(space, nodes, q, start, top - 1);
      WalkEnds(space, nodes, idx, start, top - 1);
      DescendStep(space, nodes, q, start, top, bottom);
      DescendEnds(space, nodes, idx, next, top - 1, bottom);
      if top - 1 == bottom { DescendDone(space, nodes, q, next, top - 1, bottom); }
    } else {
      DescendDone(space, nodes, q, start, top, bottom);
    }
  }

  /** **Linking enters near**: no farther than the entry point, and where no neighbour on the layer above the node's own
      is closer. */
  lemma EntersNear(space: Space, g: Graph, idx: nat)
    requires Tidy(g.nodes) && idx < |g.nodes| && |g.nodes[idx].links| > 0
    requires g.entry.Some? && g.entry.value < |g.nodes| && |g.nodes[g.entry.value].links| == g.maxLevel + 1
    ensures var (start, above) := (Entering(space, g, idx).0, |g.nodes[idx].links|);
            && Apart(space, g.nodes, start, idx) <= Apart(space, g.nodes, g.entry.value, idx)
            && (above <= g.maxLevel ==> Nearby(space, g.nodes, idx, start, above))
  {
    hide Tidy, Descend;
    DescendEnds(space, g.nodes, idx, g.entry.value, g.maxLevel + 1, |g.nodes[idx].links|);
  }

  /** The next layer down is searched from the nearest node this one found. */
  lemma NextNearest(space: Space, g: Graph, idx: nat, cur: nat, layer: nat)
    requires Ready(g) && OnLayer(g.nodes, idx, layer) && OnLayer(g.nodes, cur, layer)
    ensures var out := SearchFrom(space, g, g.nodes[idx].vector, cur, 200, layer).0;
            var next := LinkLayer(space, g, idx, cur, layer).1;
            if exists e :: Other(out, idx, e) then
              exists e :: Other(out, idx, e) && e.id == next && forall f | Other(out, idx, f) :: e.dist <= f.dist
            else next == cur
  {
    var out := SearchFrom(space, g, g.nodes[idx].vector, cur, 200, layer).0;
    FoundAre(space, g, g.nodes[idx].vector, cur, layer);
    ExceptWithin(out, idx);
    ExceptSorted(out, idx);
    LinkLayerParts(space, g, idx, cur, layer);
    hide Tidy, SearchFrom, Select, LinkLayer, Sorted;
    var found := Except(out, idx);
    if found != [] {
      FirstNearest(found);
      assert found[0] in found && Other(out, idx, found[0]);
    }
  }

  // ---------- inserting ----------

  ghost predicate LinkedThere(space: Space, g: Graph, idx: nat, layer: nat, after: Graph) {
    exists start: nat :: LinkedAt(space, g, idx, layer, after, start)
  }

  /** A node linked, as `before` was, at every layer up to its own and the graph's; and if it is a new one, at each to
      at least one other. */
  ghost predicate LinkedUpTo(space: Space, before: Graph, idx: nat, after: Graph, added: bool) {
    && idx < |before.nodes| && SameFrame(before.nodes, after.nodes)
    && forall layer: nat | layer < |before.nodes[idx].links| && layer <= before.maxLevel ::
      && LinkedThere(space, before, idx, layer, after)
      && (added ==> after.nodes[idx].links[layer] != [])
  }

  /** The graph an insert links in: the node's vector replaced and its links cleared, or a new node without any. */
  function Unlinked(space: Space, g: Graph, id: Key, v: Vec): Graph
    requires WellBuilt(g)
  {
    if id in g.at then g.(nodes := g.nodes[g.at[id] := Cleared(v, |g.nodes[g.at[id]].links|)])
    else Pushed(g, id, v, space.level(id))
  }

  /** The other nodes are as they were; this one has its vector, no link yet, and the layers it has or its level gives
      it. */
  ghost predicate OnlyCleared(space: Space, g: Graph, id: Key, v: Vec, before: Graph, idx: nat)
    requires WellBuilt(g)
  {
    && |before.nodes| == (if id in g.at then |g.nodes| else |g.nodes| + 1) && idx < |before.nodes|
    && (forall n | 0 <= n < |g.nodes| && n != idx :: before.nodes[n] == g.nodes[n])
    && before.nodes[idx].vector == v
    && |before.nodes[idx].links| == (if id in g.at then |g.nodes[idx].links| else space.level(id) + 1)
    && forall l | 0 <= l < |before.nodes[idx].links| :: before.nodes[idx].links[l] == []
  }

  /** What an insert leaves of a graph that had nodes. */
  ghost predicate InsertLinked(space: Space, g: Graph, id: Key, v: Vec, after: Graph)
    requires WellBuilt(g)
  {
    var (before, idx) := (Unlinked(space, g, id, v), if id in g.at then g.at[id] else |g.nodes|);
    && OnlyCleared(space, g, id, v, before, idx) && before.maxLevel == g.maxLevel && before.entry == g.entry
    && LinkedUpTo(space, before, idx, after, id !in g.at)
  }

  lemma PushedUnlinked(g: Graph, id: Key, v: Vec, level: nat, layer: nat)
    requires WellBuilt(g)
    ensures UnlinkedAt(Pushed(g, id, v, level).nodes, |g.nodes|, layer)
  {
    var after := Pushed(g, id, v, level).nodes;
    forall n: nat | OnLayer(after, n, layer) ensures |g.nodes| !in after[n].links[layer] {
      if n < |g.nodes| { assert OnLayer(g.nodes, n, layer) && TidyList(g.nodes, n, layer, g.nodes[n].links[layer]); }
    }
  }

  lemma FoundLinked(space: Space, g: Graph, idx: nat, cur: nat, layer: nat, after: seq<Node>)
    requires Tidy(g.nodes) && OnLayer(g.nodes, idx, layer) && OnLayer(g.nodes, cur, layer)
    requires LayerLinked(space, g, idx, cur, layer, after) && cur != idx && UnlinkedAt(g.nodes, idx, layer)
    ensures OnLayer(after, idx, layer) && after[idx].links[layer] != []
  {
    hide SearchFrom, Behind, LinkedBack, Distinct, Tidy;
    FindsOther(space, g, idx, cur, layer);
  }

  lemma UnlinkedSame(a: Graph, b: Graph, idx: nat, layer: nat)
    requires SameLayer(a, b, layer) && UnlinkedAt(a.nodes, idx, layer)
    ensures UnlinkedAt(b.nodes, idx, layer)
  {
    forall n: nat | OnLayer(b.nodes, n, layer) ensures idx !in b.nodes[n].links[layer] {
      assert OnLayer(a.nodes, n, layer);
    }
  }

  /** A node nobody linked to, linked from elsewhere, has a link. */
  lemma LinkedSomewhere(space: Space, g: Graph, idx: nat, layer: nat, after: Graph, start: nat)
    requires LinkedAt(space, g, idx, layer, after, start) && start != idx && UnlinkedAt(g.nodes, idx, layer)
    ensures OnLayer(after.nodes, idx, layer) && after.nodes[idx].links[layer] != []
  {
    var at: Graph, cur: nat :|
      && Ready(at) && SameLayer(g, at, layer) && OnLayer(at.nodes, idx, layer) && OnLayer(at.nodes, cur, layer)
      && (start != idx ==> cur != idx)
      && LayerLinked(space, at, idx, cur, layer, after.nodes);
    hide LayerLinked, SameLayer, UnlinkedAt, Tidy;
    UnlinkedSame(g, at, idx, layer);
    FoundLinked(space, at, idx, cur, layer, after.nodes);
  }

  lemma LinkedNodes(space: Space, g: Graph, idx: nat, layer: nat, a: Graph, b: Graph, start: nat)
    requires LinkedAt(space, g, idx, layer, a, start) && b.nodes == a.nodes
    ensures LinkedAt(space, g, idx, layer, b, start)
  {
    hide LayerLinked, SameLayer, Ready;
  }

  lemma RelinkedUpTo(space: Space, before: Graph, idx: nat)
    requires Ready(before) && idx < |before.nodes|
    ensures LinkedUpTo(space, before, idx, Relinked(space, before, idx), false)
  {
    hide Ready, LinkedAt, Tidy, Relinked, Entering;
    RelinkedAre(space, before, idx);
    var start: nat := Entering(space, before, idx).0;
    forall layer: nat | layer < |before.nodes[idx].links| && layer <= before.maxLevel
      ensures LinkedThere(space, before, idx, layer, Relinked(space, before, idx))
    {
      assert LinkedAt(space, before, idx, layer, Relinked(space, before, idx), start);
    }
    assert SameFrame(before.nodes, Relinked(space, before, idx).nodes);
  }

  /** A node nobody links to, entered from elsewhere. */
  lemma FreshUpTo(space: Space, before: Graph, idx: nat, after: Graph)
    requires Ready(before) && idx < |before.nodes| && after.nodes == Relinked(space, before, idx).nodes
    requires forall layer: nat :: UnlinkedAt(before.nodes, idx, layer)
    requires before.entry != Some(idx)
    ensures LinkedUpTo(space, before, idx, after, true)
  {
    RelinkedAre(space, before, idx);
    EntersElsewhere(space, before, idx);
    hide Ready, LinkedAt, Tidy, Relinked, Entering, UnlinkedAt;
    var (linked, start) := (Relinked(space, before, idx), Entering(space, before, idx).0);
    forall layer: nat | layer < |before.nodes[idx].links| && layer <= before.maxLevel
      ensures LinkedThere(space, before, idx, layer, after) && after.nodes[idx].links[layer] != []
    {
      LinkedNodes(space, before, idx, layer, linked, after, start);
      LinkedSomewhere(space, before, idx, layer, after, start);
    }
  }

  lemma EntersElsewhere(space: Space, g: Graph, idx: nat)
    requires Tidy(g.nodes) && idx < |g.nodes| && |g.nodes[idx].links| > 0
    requires g.entry.Some? && g.entry.value < |g.nodes| && |g.nodes[g.entry.value].links| == g.maxLevel + 1
    requires forall layer: nat :: UnlinkedAt(g.nodes, idx, layer)
    requires g.entry != Some(idx)
    ensures Entering(space, g, idx).0 != idx
  {
    hide UnlinkedAt, Tidy, Descend;
    var q := g.nodes[idx].vector;
    DescendElsewhere(space, g.nodes, q, g.entry.value, g.maxLevel + 1, |g.nodes[idx].links|, idx);
  }

  lemma UnlinkedIs(space: Space, g: Graph, id: Key, v: Vec)
    requires WellBuilt(g)
    ensures var (before, idx) := (Unlinked(space, g, id, v), if id in g.at then g.at[id] else |g.nodes|);
            OnlyCleared(space, g, id, v, before, idx) && before.maxLevel == g.maxLevel && before.entry == g.entry
  {
    hide Tidy, Distinct;
  }

  lemma ReplaceLinks(space: Space, g: Graph, id: Key, v: Vec)
    requires WellBuilt(g) && id in g.at
    ensures g.at[id] < |g.nodes|
    ensures var before := g.(nodes := g.nodes[g.at[id] := Cleared(v, |g.nodes[g.at[id]].links|)]);
            Ready(before) && InsertLinked(space, g, id, v, Relinked(space, before, g.at[id]))
  {
    var idx := g.at[id];
    ReplacedReady(g, idx, v);
    UnlinkedIs(space, g, id, v);
    RelinkedUpTo(space, g.(nodes := g.nodes[idx := Cleared(v, |g.nodes[idx].links|)]), idx);
    hide WellBuilt, Ready, LinkedUpTo, Relinked, OnlyCleared;
  }

  lemma PushLinks(space: Space, g: Graph, id: Key, v: Vec, after: Graph)
    requires WellBuilt(g) && g.entry.Some? && id !in g.at && Ready(Pushed(g, id, v, space.level(id)))
    requires after.nodes == Relinked(space, Pushed(g, id, v, space.level(id)), |g.nodes|).nodes
    ensures InsertLinked(space, g, id, v, after)
  {
    var before := Pushed(g, id, v, space.level(id));
    forall layer: nat ensures UnlinkedAt(before.nodes, |g.nodes|, layer) {
      PushedUnlinked(g, id, v, space.level(id), layer);
    }
    assert before.entry != Some(|g.nodes|);
    UnlinkedIs(space, g, id, v);
    hide WellBuilt, Ready, UnlinkedAt, LinkedUpTo, Relinked, OnlyCleared;
    FreshUpTo(space, before, |g.nodes|, after);
  }

  /** **An insert links what it puts in**: at every layer up to its own and the graph's, the nearest node its search
      found, spread out, and both ways unless a full list has better; a new node always to at least one. */
  lemma InsertLinks(space: Space, g: Graph, id: Key, vector: Vec)
    requires WellBuilt(g) && g.entry.Some? && Inserted(space, g, id, vector).1
    ensures InsertLinked(space, g, id, space.norm(vector).value, Inserted(space, g, id, vector).0)
  {
    var v := space.norm(vector).value;
    if id in g.at { ReplaceLinks(space, g, id, v); } else { PushedReady(g, id, v, space.level(id)); }
    hide InsertLinked, Relinked, WellBuilt, Ready;
    if id !in g.at { PushLinks(space, g, id, v, Inserted(space, g, id, vector).0); }
  }

  /** Where an insert puts its node, and what becomes of the entry point: the new node takes its place exactly if it is
      the first, or reaches higher than any. */
  lemma InsertPlaces(space: Space, g: Graph, id: Key, vector: Vec)
    requires WellBuilt(g) && Inserted(space, g, id, vector).1
    ensures var (g', level) := (Inserted(space, g, id, vector).0, space.level(id));
            var idx := if id in g.at then g.at[id] else |g.nodes|;
            && g'.at == g.at[id := idx] && g'.ids == (if id in g.at then g.ids else g.ids + [id])
            && |g'.nodes| == |g'.ids| && idx < |g'.nodes|
            && |g'.nodes[idx].links| == (if id in g.at then |g.nodes[idx].links| else level + 1)
            && (g'.entry, g'.maxLevel)
               == if id !in g.at && (g.entry.None? || level > g.maxLevel) then (Some(idx), level)
                  else (g.entry, g.maxLevel)
  {
    var v := space.norm(vector).value;
    hide Relinked, Tidy, Distinct;
    if id in g.at {
      ReplacedReady(g, g.at[id], v);
    } else if g.entry.Some? {
      PushedReady(g, id, v, space.level(id));
    }
  }
}
