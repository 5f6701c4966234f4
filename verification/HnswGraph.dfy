/** The neighbour graph as a value: what an insert makes of it, and the structure every insert keeps. */
module HnswGraph {
  import opened Bytes
  import opened Records
  import opened Heap
  import opened Beam

  /** Components as they are stored: their bits, as numbers. */
  type Vec = seq<int>

  /** The geometry: unit vectors (none for a vector without direction), distance between unit vectors, cosine of raw
      ones (none for two that cannot be compared), and each id's level. */
  datatype Space = Space(norm: Vec -> Option<Vec>, near: (Vec, Vec) -> real, cosine: (Vec, Vec) -> Option<real>,
                         level: Key -> nat)
  {
    /** Cosine distance; what cannot be compared is as far as can be. */
    function Far(a: Vec, q: Vec): real {
      match cosine(a, q)
      case Some(c) => 1.0 - c
      case None => 2.0
    }
  }

  const M := 16
  const M_MAX0 := 32
  const EF_CONSTRUCTION := 200
  const EPOCHS := 0x1_0000_0000

  /** links[l] are the neighbours at layer l. */
  datatype Node = Node(vector: Vec, links: seq<seq<nat>>)

  datatype Graph = Graph(nodes: seq<Node>, ids: seq<Key>, at: map<Key, nat>, entry: Option<nat>, maxLevel: nat,
                         dim: Option<nat>, tags: seq<nat>, epoch: nat)

  const EMPTY: Graph := Graph([], [], map[], None, 0, None, [], 0)

  function Cap(layer: nat): nat { if layer == 0 then M_MAX0 else M }

  // ---------- structure ----------

  predicate OnLayer(nodes: seq<Node>, n: nat, layer: nat) { n < |nodes| && layer < |nodes[n].links| }

  /** A neighbour list: distinct nodes, not the node itself, all on this layer, and no more than its cap. */
  ghost predicate TidyList(nodes: seq<Node>, i: nat, layer: nat, list: seq<nat>) {
    && Distinct(list) && |list| <= Cap(layer)
    && forall n | n in list :: n != i && OnLayer(nodes, n, layer)
  }

  ghost predicate Tidy(nodes: seq<Node>) {
    && (forall i | 0 <= i < |nodes| :: nodes[i].links != [])
    && (forall i: nat, l: nat | OnLayer(nodes, i, l) :: TidyList(nodes, i, l, nodes[i].links[l]))
  }

  ghost predicate SameFrame(a: seq<Node>, b: seq<Node>) {
    |a| == |b| && forall i | 0 <= i < |a| :: a[i].vector == b[i].vector && |a[i].links| == |b[i].links|
  }

  /** What relinking relies on: an entry point on the top layer. */
  ghost predicate Ready(g: Graph) {
    && Tidy(g.nodes) && |g.tags| <= |g.nodes|
    && g.entry.Some? && g.entry.value < |g.nodes| && |g.nodes[g.entry.value].links| == g.maxLevel + 1
  }

  ghost predicate WellBuilt(g: Graph) {
    && Tidy(g.nodes) && |g.tags| <= |g.nodes|
    && |g.ids| == |g.nodes| && Distinct(g.ids)
    && (forall k :: k in g.at <==> k in g.ids)
    && (forall k | k in g.at :: g.at[k] < |g.ids| && g.ids[g.at[k]] == k)
    && (g.entry.None? <==> g.nodes == [])
    && (if g.nodes == [] then g.dim == None else Ready(g))
    && (forall i | 0 <= i < |g.nodes| :: |g.nodes[i].links| <= g.maxLevel + 1)
    && (forall i | 0 <= i < |g.nodes| :: g.dim == Some(|g.nodes[i].vector|))
  }

  // ---------- searching a layer ----------

  function Numbers(n: nat): (s: set<nat>)
    ensures forall i: nat :: i in s <==> i < n
  {
    if n == 0 then {} else Numbers(n - 1) + {n - 1}
  }

  predicate Below(s: seq<nat>, n: nat) { forall i | 0 <= i < |s| :: s[i] < n }

  function LayerOf(space: Space, nodes: seq<Node>, q: Vec, layer: nat): Layer<nat> {
    Layer(Numbers(|nodes|),
          (n: nat) => if OnLayer(nodes, n, layer) then nodes[n].links[layer] else [],
          (n: nat) => if n < |nodes| then space.near(nodes[n].vector, q) else 2.0)
  }

  lemma LayerClosed(space: Space, nodes: seq<Node>, q: Vec, layer: nat)
    requires Tidy(nodes)
    ensures var g := LayerOf(space, nodes, q, layer);
            Closed(g, g.all)
            && Closed(g, set n: nat | n < |nodes| && OnLayer(nodes, n, layer))
  {
  }

  /** Tags grown to cover every node. */
  function Grown(tags: seq<nat>, n: nat): seq<nat> { if |tags| < n then tags + seq(n - |tags|, _ => 0) else tags }

  function NextEpoch(g: Graph): nat { (g.epoch + 1) % EPOCHS }

  /** The nodes the next search takes for seen before it starts. */
  function SeenAtStart(g: Graph): set<nat> {
    set n: nat | n < |g.nodes| && Grown(g.tags, |g.nodes|)[n] == NextEpoch(g)
  }

  /** Search one layer from one node; the nodes seen are tagged with the new epoch. */
  function SearchFrom(space: Space, g: Graph, q: Vec, start: nat, ef: nat, layer: nat): (seq<Item<nat>>, Graph)
    requires Tidy(g.nodes) && start < |g.nodes|
  {
    LayerClosed(space, g.nodes, q, layer);
    var (out, after) := SearchLayer(LayerOf(space, g.nodes, q, layer), SeenAtStart(g), [start], ef);
    var tags := Grown(g.tags, |g.nodes|);
    (out, g.(tags := seq(|tags|, n requires 0 <= n < |tags| => if n in after then NextEpoch(g) else tags[n]),
             epoch := NextEpoch(g)))
  }

  function WalkFrom(space: Space, nodes: seq<Node>, q: Vec, start: nat, layer: nat): nat
    requires Tidy(nodes) && start < |nodes|
  {
    LayerClosed(space, nodes, q, layer);
    Greedy(LayerOf(space, nodes, q, layer), start)
  }

  /** Walk greedily through the layers above `bottom`, from layer top - 1 down. */
  function Descend(space: Space, nodes: seq<Node>, q: Vec, start: nat, top: nat, bottom: nat): (r: nat)
    requires Tidy(nodes) && start < |nodes|
    ensures r < |nodes|
    decreases top
  {
    if top <= bottom then start
    else
      LayerClosed(space, nodes, q, top - 1);
      GreedyStops(LayerOf(space, nodes, q, top - 1), start);
      Descend(space, nodes, q, WalkFrom(space, nodes, q, start, top - 1), top - 1, bottom)
  }

  lemma DescendStep(space: Space, nodes: seq<Node>, q: Vec, start: nat, top: nat, bottom: nat)
    requires Tidy(nodes) && start < |nodes| && top > bottom
    ensures var next := WalkFrom(space, nodes, q, start, top - 1);
            next < |nodes| && Descend(space, nodes, q, start, top, bottom)
              == Descend(space, nodes, q, next, top - 1, bottom)
  {
    LayerClosed(space, nodes, q, top - 1);
    GreedyStops(LayerOf(space, nodes, q, top - 1), start);
  }

  lemma DescendDone(space: Space, nodes: seq<Node>, q: Vec, start: nat, top: nat, bottom: nat)
    requires Tidy(nodes) && start < |nodes| && top <= bottom
    ensures Descend(space, nodes, q, start, top, bottom) == start
  {
  }

  // ---------- linking ----------

  predicate Redundant(space: Space, nodes: seq<Node>, kept: seq<nat>, e: Item<nat>)
    requires e.id < |nodes| && Below(kept, |nodes|)
  {
    exists r | r in kept :: space.near(nodes[e.id].vector, nodes[r].vector) < e.dist
  }

  /** Take candidates in order, up to m, but for those nearer to one already kept than to the base. */
  function Select(space: Space, nodes: seq<Node>, kept: seq<nat>, cands: seq<Item<nat>>, m: nat): seq<nat>
    requires (Below(kept, |nodes|)) && (forall e | e in cands :: e.id < |nodes|)
    decreases |cands|
  {
    if cands == [] || |kept| >= m then kept
    else Select(space, nodes, if Redundant(space, nodes, kept, cands[0]) then kept else kept + [cands[0].id],
                cands[1..], m)
  }

  /** The links of node n, nearest first. */
  function Ranked(space: Space, nodes: seq<Node>, n: nat, list: seq<nat>): seq<Item<nat>>
    requires n < |nodes| && Below(list, |nodes|)
  {
    SortByDist(seq(|list|, i requires 0 <= i < |list| =>
                   Item(list[i], space.near(nodes[list[i]].vector, nodes[n].vector))))
  }

  lemma RankedIds(space: Space, nodes: seq<Node>, n: nat, list: seq<nat>)
    requires n < |nodes| && Below(list, |nodes|)
    ensures forall e | e in Ranked(space, nodes, n, list) :: e.id in list
    ensures Distinct(list) ==> DistinctIds(Ranked(space, nodes, n, list))
  {
    var raw := seq(|list|, i requires 0 <= i < |list| =>
                   Item(list[i], space.near(nodes[list[i]].vector, nodes[n].vector)));
    SortSorts(raw);
    var ranked := Ranked(space, nodes, n, list);
    forall e | e in ranked ensures e.id in list && e in raw {
      assert e in multiset(raw);
      var i :| 0 <= i < |raw| && raw[i] == e;
    }
    if Distinct(list) {
      var g := LayerOf(space, nodes, nodes[n].vector, 0);
      DistinctExact(g, raw);
      ExactDistinct(g, ranked);
    }
  }

  function WithLinks(nodes: seq<Node>, i: nat, layer: nat, list: seq<nat>): seq<Node>
    requires OnLayer(nodes, i, layer)
  {
    nodes[i := nodes[i].(links := nodes[i].links[layer := list])]
  }

  // ---------- selection ----------

  lemma {:induction false} SelectWithin(space: Space, nodes: seq<Node>, kept: seq<nat>, cands: seq<Item<nat>>, m: nat)
    requires (Below(kept, |nodes|)) && (forall e | e in cands :: e.id < |nodes|)
    requires |kept| <= m && Distinct(kept)
    requires DistinctIds(cands) && forall e | e in cands :: e.id !in kept
    ensures var s := Select(space, nodes, kept, cands, m);
            && |s| <= m && Distinct(s) && kept <= s
            && forall n | n in s :: n in kept || exists e :: e in cands && e.id == n
    decreases |cands|
  {
    if cands != [] && |kept| < m {
      var e := cands[0];
      assert e in cands && forall x | x in cands[1..] :: x in cands;
      forall x | x in cands[1..] ensures x.id != e.id {
        var j :| 0 <= j < |cands[1..]| && cands[1..][j] == x;
        assert cands[j + 1] == x;
      }
      SelectWithin(space, nodes, if Redundant(space, nodes, kept, e) then kept else kept + [e.id], cands[1..], m);
    }
  }

  /** The kept are spread out: none is nearer to one kept before it than to the base. */
  ghost predicate Spread(space: Space, nodes: seq<Node>, base: nat -> real, s: seq<nat>)
    requires Below(s, |nodes|)
  {
    forall i, j | 0 <= i < j < |s| :: space.near(nodes[s[j]].vector, nodes[s[i]].vector) >= base(s[j])
  }

  /** Taken, or nearer to one taken than to the base. */
  ghost predicate Weighed(space: Space, nodes: seq<Node>, s: seq<nat>, e: Item<nat>)
    requires e.id < |nodes| && Below(s, |nodes|)
  {
    e.id in s || Redundant(space, nodes, s, e)
  }

  lemma WeighedGrows(space: Space, nodes: seq<Node>, s: seq<nat>, s': seq<nat>, e: Item<nat>)
    requires e.id < |nodes| && Below(s, |nodes|) && Below(s', |nodes|) && s <= s' && Weighed(space, nodes, s, e)
    ensures Weighed(space, nodes, s', e)
  {
    assert forall r | r in s :: r in s';
  }

  lemma SpreadGrows(space: Space, nodes: seq<Node>, base: nat -> real, kept: seq<nat>, e: Item<nat>)
    requires Below(kept, |nodes|) && e.id < |nodes| && e.dist == base(e.id)
    requires Spread(space, nodes, base, kept) && !Redundant(space, nodes, kept, e)
    ensures Spread(space, nodes, base, kept + [e.id])
  {
    assert forall i | 0 <= i < |kept| :: kept[i] in kept;
  }

  /** The chosen are spread out, and a candidate was passed over only for being nearer to one chosen than to the base,
      or because the list was full. */
  lemma {:induction false} SelectSpread(space: Space, nodes: seq<Node>, base: nat -> real, kept: seq<nat>,
                                        cands: seq<Item<nat>>, m: nat)
    requires Below(kept, |nodes|) && (forall e | e in cands :: e.id < |nodes| && e.dist == base(e.id))
    requires Spread(space, nodes, base, kept)
    ensures var s := Select(space, nodes, kept, cands, m);
            && Below(s, |nodes|) && Spread(space, nodes, base, s) && kept <= s
            && (|s| < m ==> forall e | e in cands :: Weighed(space, nodes, s, e))
    decreases |cands|
  {
    if cands != [] && |kept| < m {
      var e := cands[0];
      assert e in cands && forall x | x in cands[1..] :: x in cands;
      var kept' := if Redundant(space, nodes, kept, e) then kept else kept + [e.id];
      if !Redundant(space, nodes, kept, e) { SpreadGrows(space, nodes, base, kept, e); }
      hide Spread;
      SelectSpread(space, nodes, base, kept', cands[1..], m);
      var s := Select(space, nodes, kept, cands, m);
      assert Weighed(space, nodes, kept', e);
      WeighedGrows(space, nodes, kept', s, e);
      hide Weighed, Redundant;
      assert forall x | x in cands :: x == e || x in cands[1..];
    }
  }

  // ---------- linking back ----------

  /** What node n's list becomes when idx links to it: idx joins, and an overfull list is selected anew. */
  function BackList(space: Space, nodes: seq<Node>, idx: nat, layer: nat, n: nat): seq<nat>
    requires Tidy(nodes) && OnLayer(nodes, n, layer) && OnLayer(nodes, idx, layer)
  {
    var list := nodes[n].links[layer];
    if idx in list then list
    else if |list + [idx]| > Cap(layer) then
      assert forall i | 0 <= i < |list| :: list[i] in list;
      RankedIds(space, nodes, n, list + [idx]);
      Select(space, nodes, [], Ranked(space, nodes, n, list + [idx]), Cap(layer))
    else list + [idx]
  }

  lemma WithLinksSame(nodes: seq<Node>, i: nat, layer: nat)
    requires OnLayer(nodes, i, layer)
    ensures WithLinks(nodes, i, layer, nodes[i].links[layer]) == nodes
  {
    assert nodes[i].links[layer := nodes[i].links[layer]] == nodes[i].links;
  }

  lemma WithLinksTwice(nodes: seq<Node>, i: nat, layer: nat, a: seq<nat>, b: seq<nat>)
    requires OnLayer(nodes, i, layer)
    ensures var once := WithLinks(nodes, i, layer, a);
            OnLayer(once, i, layer) && once[i].links[layer] == a
              && WithLinks(once, i, layer, b) == WithLinks(nodes, i, layer, b)
            && SameFrame(nodes, once)
  {
    assert nodes[i].links[layer := a][layer := b] == nodes[i].links[layer := b];
  }

  lemma {:induction false} SelectSame(space: Space, a: seq<Node>, b: seq<Node>, kept: seq<nat>, cands: seq<Item<nat>>,
                                      m: nat)
    requires SameFrame(a, b) && Below(kept, |a|) && forall e | e in cands :: e.id < |a|
    ensures Select(space, a, kept, cands, m) == Select(space, b, kept, cands, m)
    decreases |cands|
  {
    if cands != [] && |kept| < m {
      var e := cands[0];
      assert e in cands;
      SelectSame(space, a, b, if Redundant(space, a, kept, e) then kept else kept + [e.id], cands[1..], m);
    }
  }

  /** Ranking and selecting read vectors only. */
  lemma SameVectors(space: Space, a: seq<Node>, b: seq<Node>, n: nat, list: seq<nat>, m: nat)
    requires SameFrame(a, b) && n < |a| && Below(list, |a|)
    ensures Ranked(space, a, n, list) == Ranked(space, b, n, list)
    ensures forall e | e in Ranked(space, a, n, list) :: e.id < |a|
    ensures Select(space, a, [], Ranked(space, a, n, list), m) == Select(space, b, [], Ranked(space, a, n, list), m)
  {
    RankedIds(space, a, n, list);
    assert seq(|list|, i requires 0 <= i < |list| => Item(list[i], space.near(a[list[i]].vector, a[n].vector)))
        == seq(|list|, i requires 0 <= i < |list| => Item(list[i], space.near(b[list[i]].vector, b[n].vector)));
    SelectSame(space, a, b, [], Ranked(space, a, n, list), m);
  }

  lemma BackListTidy(space: Space, nodes: seq<Node>, idx: nat, layer: nat, n: nat)
    requires Tidy(nodes) && OnLayer(nodes, n, layer) && OnLayer(nodes, idx, layer) && n != idx
    ensures TidyList(nodes, n, layer, BackList(space, nodes, idx, layer, n))
  {
    var list := nodes[n].links[layer];
    assert TidyList(nodes, n, layer, list);
    assert forall i | 0 <= i < |list| :: list[i] in list;
    if idx !in list && |list + [idx]| > Cap(layer) {
      var ranked := Ranked(space, nodes, n, list + [idx]);
      RankedIds(space, nodes, n, list + [idx]);
      SelectWithin(space, nodes, [], ranked, Cap(layer));
    }
  }

  lemma WithLinksTidy(nodes: seq<Node>, i: nat, layer: nat, list: seq<nat>)
    requires Tidy(nodes) && OnLayer(nodes, i, layer) && TidyList(nodes, i, layer, list)
    ensures Tidy(WithLinks(nodes, i, layer, list)) && SameFrame(nodes, WithLinks(nodes, i, layer, list))
  {
    var r := WithLinks(nodes, i, layer, list);
    forall j: nat, l: nat | OnLayer(r, j, l) ensures TidyList(r, j, l, r[j].links[l]) {
      assert OnLayer(nodes, j, l);
      assert TidyList(nodes, j, l, r[j].links[l]);
    }
  }

  /** Each selected neighbour links back, in turn. */
  function LinkBack(space: Space, nodes: seq<Node>, idx: nat, layer: nat, sel: seq<nat>): (r: seq<Node>)
    requires Tidy(nodes) && OnLayer(nodes, idx, layer) && forall n | n in sel :: OnLayer(nodes, n, layer) && n != idx
    ensures Tidy(r) && SameFrame(nodes, r)
    decreases |sel|
  {
    if sel == [] then nodes
    else
      var init := LinkBack(space, nodes, idx, layer, sel[..|sel| - 1]);
      var n := sel[|sel| - 1];
      assert n in sel;
      BackListTidy(space, init, idx, layer, n);
      WithLinksTidy(init, n, layer, BackList(space, init, idx, layer, n));
      WithLinks(init, n, layer, BackList(space, init, idx, layer, n))
  }

  function Except(found: seq<Item<nat>>, idx: nat): seq<Item<nat>> {
    if found == [] then []
    else Except(found[..|found| - 1], idx) + if found[|found| - 1].id == idx then [] else [found[|found| - 1]]
  }

  lemma {:induction false} ExceptWithin(found: seq<Item<nat>>, idx: nat)
    ensures forall e :: e in Except(found, idx) <==> e in found && e.id != idx
    ensures DistinctIds(found) ==> DistinctIds(Except(found, idx))
  {
    if found != [] {
      var (init, x) := (found[..|found| - 1], found[|found| - 1]);
      assert found == init + [x];
      ExceptWithin(init, idx);
      if DistinctIds(found) {
        forall e | e in Except(init, idx) ensures e.id != x.id {
          var i :| 0 <= i < |init| && init[i] == e;
          assert found[i].id != found[|found| - 1].id;
        }
      }
    }
  }

  /** A search from a node on a layer finds nodes on that layer, each once. */
  lemma FoundOnLayer(space: Space, g: Graph, q: Vec, start: nat, ef: nat, layer: nat)
    requires Tidy(g.nodes) && OnLayer(g.nodes, start, layer) && ef > 0
    ensures var (out, g') := SearchFrom(space, g, q, start, ef, layer);
            DistinctIds(out) && forall e | e in out :: OnLayer(g.nodes, e.id, layer)
  {
    LayerClosed(space, g.nodes, q, layer);
    var l := LayerOf(space, g.nodes, q, layer);
    SearchLayerExit(l, SeenAtStart(g), [start], ef);
    var out := SearchFrom(space, g, q, start, ef, layer).0;
    var on := set n: nat | n < |g.nodes| && OnLayer(g.nodes, n, layer);
    assert Members([start]) <= on;
    forall e | e in out ensures OnLayer(g.nodes, e.id, layer) { assert e.id in Ids(out) && Ids(out) <= on; }
  }

  lemma WalkOnLayer(space: Space, nodes: seq<Node>, q: Vec, start: nat, layer: nat)
    requires Tidy(nodes) && OnLayer(nodes, start, layer)
    ensures OnLayer(nodes, WalkFrom(space, nodes, q, start, layer), layer)
  {
    LayerClosed(space, nodes, q, layer);
    GreedyStops(LayerOf(space, nodes, q, layer), start);
    assert start in set n: nat | n < |nodes| && OnLayer(nodes, n, layer);
  }

  lemma {:induction false} DescendOnLayer(space: Space, nodes: seq<Node>, q: Vec, start: nat, top: nat, bottom: nat)
    requires Tidy(nodes) && start < |nodes| && |nodes[start].links| >= top
    ensures |nodes[Descend(space, nodes, q, start, top, bottom)].links| >= if top <= bottom then top else bottom + 1
    decreases top
  {
    if top > bottom {
      WalkOnLayer(space, nodes, q, start, top - 1);
      if top - 1 > bottom {
        DescendOnLayer(space, nodes, q, WalkFrom(space, nodes, q, start, top - 1), top - 1, bottom);
      }
    }
  }

  // ---------- relinking a node ----------

  /** Nothing but links, tags and the epoch differs. */
  ghost predicate SameShell(a: Graph, b: Graph) {
    SameFrame(a.nodes, b.nodes) && b == a.(nodes := b.nodes, tags := b.tags, epoch := b.epoch)
  }

  /** The links a node takes at one layer, the diverse few of a wide search; where the next layer's search starts; and
      the graph with its tags after the search. */
  function Chosen(space: Space, g: Graph, idx: nat, cur: nat, layer: nat): (r: (seq<nat>, nat, Graph))
    requires Ready(g) && OnLayer(g.nodes, idx, layer) && OnLayer(g.nodes, cur, layer)
    ensures Ready(r.2) && r.2 == g.(tags := r.2.tags, epoch := r.2.epoch)
    ensures TidyList(g.nodes, idx, layer, r.0) && OnLayer(g.nodes, r.1, layer)
  {
    var (out, g1) := SearchFrom(space, g, g.nodes[idx].vector, cur, EF_CONSTRUCTION, layer);
    var found := Except(out, idx);
    FoundOnLayer(space, g, g.nodes[idx].vector, cur, EF_CONSTRUCTION, layer);
    ExceptWithin(out, idx);
    SelectWithin(space, g.nodes, [], found, M);
    (Select(space, g.nodes, [], found, M), if found == [] then cur else assert found[0] in found; found[0].id, g1)
  }

  /** Link a node at one layer, both ways. */
  function LinkLayer(space: Space, g: Graph, idx: nat, cur: nat, layer: nat): (r: (Graph, nat))
    requires Ready(g) && OnLayer(g.nodes, idx, layer) && OnLayer(g.nodes, cur, layer)
    ensures Ready(r.0) && SameShell(g, r.0) && OnLayer(r.0.nodes, r.1, layer)
  {
    var (sel, next, g1) := Chosen(space, g, idx, cur, layer);
    WithLinksTidy(g.nodes, idx, layer, sel);
    (g1.(nodes := LinkBack(space, WithLinks(g.nodes, idx, layer, sel), idx, layer, sel)), next)
  }

  /** Link a node at layers n - 1 down to 0, each search starting from the nearest the last one found. */
  function LinkLayers(space: Space, g: Graph, idx: nat, cur: nat, n: nat): (r: Graph)
    requires Ready(g) && idx < |g.nodes| && n <= |g.nodes[idx].links| && cur < |g.nodes| && n <= |g.nodes[cur].links|
    ensures Ready(r) && SameShell(g, r)
    decreases n
  {
    if n == 0 then g
    else
      var (g', cur') := LinkLayer(space, g, idx, cur, n - 1);
      LinkLayers(space, g', idx, cur', n - 1)
  }

  function Min(a: nat, b: nat): nat { if a < b then a else b }

  lemma ReadyParts(g: Graph, idx: nat)
    requires Ready(g) && idx < |g.nodes|
    ensures |g.nodes[idx].links| > 0 && Tidy(g.nodes)
    ensures g.entry.Some? && g.entry.value < |g.nodes| && |g.nodes[g.entry.value].links| == g.maxLevel + 1
  {
  }

  /** Where linking a node starts, walking down from the entry point: the node to search from, and how many layers to
      link. */
  function Entering(space: Space, g: Graph, idx: nat): (r: (nat, nat))
    requires Tidy(g.nodes) && idx < |g.nodes| && |g.nodes[idx].links| > 0
    requires g.entry.Some? && g.entry.value < |g.nodes| && |g.nodes[g.entry.value].links| == g.maxLevel + 1
    ensures r.0 < |g.nodes| && r.1 <= |g.nodes[idx].links| && r.1 <= |g.nodes[r.0].links|
  {
    hide Tidy;
    var (level, q) := (|g.nodes[idx].links| - 1, g.nodes[idx].vector);
    DescendOnLayer(space, g.nodes, q, g.entry.value, g.maxLevel + 1, level + 1);
    (Descend(space, g.nodes, q, g.entry.value, g.maxLevel + 1, level + 1), Min(level, g.maxLevel) + 1)
  }

  /** Link a fresh or replaced node at every layer up to its own, entering from the top. */
  function Relinked(space: Space, g: Graph, idx: nat): (r: Graph)
    requires Ready(g) && idx < |g.nodes|
    ensures Ready(r) && SameShell(g, r)
  {
    ReadyParts(g, idx);
    var (cur, n) := Entering(space, g, idx);
    LinkLayers(space, g, idx, cur, n)
  }

  lemma LinkStep(space: Space, g: Graph, idx: nat, cur: nat, n: nat)
    requires Ready(g) && idx < |g.nodes| && n <= |g.nodes[idx].links| && cur < |g.nodes| && n <= |g.nodes[cur].links|
    ensures n == 0 ==> LinkLayers(space, g, idx, cur, n) == g
    ensures n > 0 ==>
              && OnLayer(g.nodes, idx, n - 1) && OnLayer(g.nodes, cur, n - 1)
              && var (g', cur') := LinkLayer(space, g, idx, cur, n - 1);
              && Ready(g') && idx < |g'.nodes| && n <= |g'.nodes[idx].links| && cur' < |g'.nodes|
                 && n <= |g'.nodes[cur'].links|
              && LinkLayers(space, g, idx, cur, n) == LinkLayers(space, g', idx, cur', n - 1)
  {
    hide Tidy;
  }

  // ---------- inserting ----------

  function Cleared(v: Vec, layers: nat): Node { Node(v, seq(layers, _ => [])) }

  lemma ReplacedReady(g: Graph, idx: nat, v: Vec)
    requires Ready(g) && idx < |g.nodes|
    ensures Ready(g.(nodes := g.nodes[idx := Cleared(v, |g.nodes[idx].links|)]))
  {
    var nodes := g.nodes[idx := Cleared(v, |g.nodes[idx].links|)];
    forall i: nat, l: nat | OnLayer(nodes, i, l) ensures TidyList(nodes, i, l, nodes[i].links[l]) {
      assert OnLayer(g.nodes, i, l);
      if i != idx { assert TidyList(g.nodes, i, l, nodes[i].links[l]); }
    }
  }

  lemma PushedTidy(nodes: seq<Node>, v: Vec, layers: nat)
    requires Tidy(nodes) && layers > 0
    ensures Tidy(nodes + [Cleared(v, layers)])
  {
    var after := nodes + [Cleared(v, layers)];
    forall i: nat, l: nat | OnLayer(after, i, l) ensures TidyList(after, i, l, after[i].links[l]) {
      if i < |nodes| {
        assert OnLayer(nodes, i, l) && TidyList(nodes, i, l, after[i].links[l]);
        assert forall n: nat | OnLayer(nodes, n, l) :: OnLayer(after, n, l);
      }
    }
  }

  /** The graph with one more node, not yet linked. */
  function Pushed(g: Graph, id: Key, v: Vec, level: nat): Graph {
    g.(nodes := g.nodes + [Cleared(v, level + 1)], ids := g.ids + [id], at := g.at[id := |g.nodes|], dim := Some(|v|))
  }

  lemma PushedReady(g: Graph, id: Key, v: Vec, level: nat)
    requires WellBuilt(g) && g.entry.Some?
    ensures Ready(Pushed(g, id, v, level))
  {
    PushedTidy(g.nodes, v, level + 1);
    hide Tidy;
  }

  /** Insert or replace one item. Refused: a vector with no direction, or of another dimension. */
  function Inserted(space: Space, g: Graph, id: Key, vector: Vec): (Graph, bool)
    requires WellBuilt(g)
  {
    match space.norm(vector)
    case None => (g, false)
    case Some(v) =>
      if g.dim.Some? && g.dim.value != |v| then (g, false)
      else if id in g.at then
        var idx := g.at[id];
        ReplacedReady(g, idx, v);
        (Relinked(space, g.(nodes := g.nodes[idx := Cleared(v, |g.nodes[idx].links|)]), idx), true)
      else
        var (idx, level) := (|g.nodes|, space.level(id));
        var g1 := Pushed(g, id, v, level);
        if g.entry.None? then (g1.(entry := Some(idx), maxLevel := level), true)
        else
          PushedReady(g, id, v, level);
          var g2 := Relinked(space, g1, idx);
          (if level > g.maxLevel then g2.(maxLevel := level, entry := Some(idx)) else g2, true)
  }

  lemma EmptyWellBuilt()
    ensures WellBuilt(EMPTY)
  {
  }

  lemma ShellWellBuilt(a: Graph, b: Graph)
    requires WellBuilt(a) && Ready(b) && SameShell(a, b)
    ensures WellBuilt(b)
  {
    hide Tidy;
  }

  lemma ReplacedWellBuilt(g: Graph, idx: nat, v: Vec)
    requires WellBuilt(g) && idx < |g.nodes| && g.dim == Some(|v|)
    ensures WellBuilt(g.(nodes := g.nodes[idx := Cleared(v, |g.nodes[idx].links|)]))
  {
    ReplacedReady(g, idx, v);
    hide Tidy;
  }

  lemma FirstWellBuilt(g: Graph, id: Key, v: Vec, level: nat)
    requires WellBuilt(g) && g.entry.None?
    ensures WellBuilt(Pushed(g, id, v, level).(entry := Some(|g.nodes|), maxLevel := level))
  {
    PushedTidy(g.nodes, v, level + 1);
    hide Tidy;
  }

  lemma PushedIds(g: Graph, id: Key, v: Vec, level: nat)
    requires WellBuilt(g) && id !in g.at
    ensures var g1 := Pushed(g, id, v, level);
            && |g1.ids| == |g1.nodes| && Distinct(g1.ids) && (forall k :: k in g1.at <==> k in g1.ids)
            && forall k | k in g1.at :: g1.at[k] < |g1.ids| && g1.ids[g1.at[k]] == k
  {
    hide Tidy;
    assert id !in g.ids;
  }

  /** Whichever of the old entry point and the new node is higher is the entry point. */
  lemma RaisedWellBuilt(g: Graph, id: Key, v: Vec, level: nat, g2: Graph)
    requires WellBuilt(g) && g.entry.Some? && id !in g.at && g.dim == Some(|v|)
    requires Ready(g2) && SameShell(Pushed(g, id, v, level), g2)
    ensures WellBuilt(if level > g.maxLevel then g2.(maxLevel := level, entry := Some(|g.nodes|)) else g2)
  {
    PushedIds(g, id, v, level);
    hide Tidy, Distinct;
  }

  /** Every insert and replacement keeps the whole structure: links valid, distinct, never to the node itself, on a
      layer both ends reach, within the cap; and an entry point on the top layer. */
  lemma InsertKeeps(space: Space, g: Graph, id: Key, vector: Vec)
    requires WellBuilt(g)
    ensures WellBuilt(Inserted(space, g, id, vector).0)
  {
    var v := space.norm(vector);
    if v.Some? && (g.dim.Some? ==> g.dim.value == |v.value|) {
      var level := space.level(id);
      if id in g.at {
        var idx := g.at[id];
        assert g.dim == Some(|g.nodes[idx].vector|);
        ReplacedWellBuilt(g, idx, v.value);
        var g1 := g.(nodes := g.nodes[idx := Cleared(v.value, |g.nodes[idx].links|)]);
        hide WellBuilt;
        ShellWellBuilt(g1, Relinked(space, g1, idx));
      } else if g.entry.None? {
        FirstWellBuilt(g, id, v.value, level);
      } else {
        assert g.dim == Some(|g.nodes[0].vector|);
        PushedReady(g, id, v.value, level);
        RaisedWellBuilt(g, id, v.value, level, Relinked(space, Pushed(g, id, v.value, level), |g.nodes|));
        hide WellBuilt;
      }
    }
  }

  /** The vectors a graph answers with. */
  function Stored(g: Graph): map<Key, Vec>
    requires WellBuilt(g)
  {
    map k | k in g.at :: g.nodes[g.at[k]].vector
  }

  /** What a graph stores is its ids' vectors, links aside. */
  lemma StoredAs(g: Graph, g': Graph, id: Key, v: Vec)
    requires WellBuilt(g) && WellBuilt(g') && g'.at.Keys == g.at.Keys + {id}
    requires g'.nodes[g'.at[id]].vector == v
    requires forall k | k in g.at && k != id ::
               g'.at[k] == g.at[k] && g'.nodes[g'.at[k]].vector == g.nodes[g.at[k]].vector
    ensures Stored(g') == Stored(g)[id := v]
  {
    hide WellBuilt;
  }

  lemma ReplaceStores(g: Graph, id: Key, v: Vec, g': Graph)
    requires WellBuilt(g) && WellBuilt(g') && id in g.at
    requires SameShell(g.(nodes := g.nodes[g.at[id] := Cleared(v, |g.nodes[g.at[id]].links|)]), g')
    ensures Stored(g') == Stored(g)[id := v]
  {
    hide Tidy, Ready, Distinct;
    assert forall k | k in g.at && k != id :: g.at[k] != g.at[id];
    StoredAs(g, g', id, v);
  }

  lemma PushStores(g: Graph, id: Key, v: Vec, level: nat, g': Graph)
    requires WellBuilt(g) && WellBuilt(g') && id !in g.at
    requires SameFrame(Pushed(g, id, v, level).nodes, g'.nodes) && g'.at == Pushed(g, id, v, level).at
    ensures Stored(g') == Stored(g)[id := v]
  {
    hide Tidy, Ready, Distinct;
    StoredAs(g, g', id, v);
  }

  /** An insert stores the unit vector under its id and disturbs no other; it is refused, changing nothing, exactly
      when the vector has no direction or another dimension. */
  lemma InsertStores(space: Space, g: Graph, id: Key, vector: Vec)
    requires WellBuilt(g)
    ensures var (g', ok) := Inserted(space, g, id, vector);
            && WellBuilt(g')
            && (ok <==> space.norm(vector).Some? && (g.dim.Some? ==> g.dim.value == |space.norm(vector).value|))
            && (ok ==>
                  && Stored(g') == Stored(g)[id := space.norm(vector).value]
                  && g'.dim == Some(|space.norm(vector).value|))
            && (!ok ==> g' == g)
  {
    InsertKeeps(space, g, id, vector);
    var (g', ok) := Inserted(space, g, id, vector);
    if ok {
      var v := space.norm(vector).value;
      if id in g.at {
        assert g.dim == Some(|g.nodes[g.at[id]].vector|);
        ReplacedReady(g, g.at[id], v);
        hide WellBuilt, Ready;
        ReplaceStores(g, id, v, g');
      } else {
        if g.entry.Some? { PushedReady(g, id, v, space.level(id)); }
        hide WellBuilt;
        PushStores(g, id, v, space.level(id), g');
      }
    }
  }

  // ---------- the epoch ----------

  /** No tag is ahead of the epoch, as long as it has not wrapped. */
  ghost predicate Tagged(g: Graph) { g.epoch < EPOCHS && forall i | 0 <= i < |g.tags| :: g.tags[i] <= g.epoch }

  /** A search of a layer reads as starting from nothing seen exactly until the epoch wraps; the search that wraps takes
      every node no search has tagged yet for seen. */
  lemma FreshUntilWrap(g: Graph)
    requires Tagged(g)
    ensures g.epoch + 1 < EPOCHS ==> SeenAtStart(g) == {} && NextEpoch(g) == g.epoch + 1
    ensures g.epoch + 1 == EPOCHS ==> SeenAtStart(g) == set n: nat | n < |g.nodes| && Grown(g.tags, |g.nodes|)[n] == 0
  {
    assert forall n: nat | n < |Grown(g.tags, |g.nodes|)| :: Grown(g.tags, |g.nodes|)[n] <= g.epoch;
  }

  /** Each search moves the epoch on by one. */
  lemma SearchTags(space: Space, g: Graph, q: Vec, start: nat, ef: nat, layer: nat)
    requires Tidy(g.nodes) && start < |g.nodes| && Tagged(g)
    ensures var g' := SearchFrom(space, g, q, start, ef, layer).1;
            g'.epoch == NextEpoch(g) && (g.epoch + 1 < EPOCHS ==> Tagged(g'))
  {
  }

  lemma LinkLayerTags(space: Space, g: Graph, idx: nat, cur: nat, layer: nat)
    requires Ready(g) && OnLayer(g.nodes, idx, layer) && OnLayer(g.nodes, cur, layer) && Tagged(g)
             && g.epoch + 1 < EPOCHS
    ensures var g' := LinkLayer(space, g, idx, cur, layer).0; Tagged(g') && g'.epoch == g.epoch + 1
  {
    SearchTags(space, g, g.nodes[idx].vector, cur, EF_CONSTRUCTION, layer);
    hide Tidy, SearchFrom, LinkBack, Tagged;
    var g1 := Chosen(space, g, idx, cur, layer).2;
    var g' := LinkLayer(space, g, idx, cur, layer).0;
    TagsOnly(g1, g');
  }

  lemma TagsOnly(a: Graph, b: Graph)
    requires Tagged(a) && b.tags == a.tags && b.epoch == a.epoch
    ensures Tagged(b)
  {
  }

  lemma {:induction false} LinkLayersTags(space: Space, g: Graph, idx: nat, cur: nat, n: nat)
    requires Ready(g) && idx < |g.nodes| && n <= |g.nodes[idx].links| && cur < |g.nodes| && n <= |g.nodes[cur].links|
    requires Tagged(g) && g.epoch + n < EPOCHS
    ensures var r := LinkLayers(space, g, idx, cur, n); Tagged(r) && r.epoch == g.epoch + n
    decreases n
  {
    hide LinkLayer, LinkLayers, Ready, Tagged, OnLayer;
    LinkStep(space, g, idx, cur, n);
    if n > 0 {
      LinkLayerTags(space, g, idx, cur, n - 1);
      var (g', cur') := LinkLayer(space, g, idx, cur, n - 1);
      LinkLayersTags(space, g', idx, cur', n - 1);
    }
  }

  lemma RelinkedTags(space: Space, g: Graph, idx: nat, layers: nat)
    requires Ready(g) && idx < |g.nodes| && |g.nodes[idx].links| <= layers
    requires Tagged(g) && g.epoch + layers < EPOCHS
    ensures var r := Relinked(space, g, idx); Tagged(r) && r.epoch <= g.epoch + layers
  {
    hide Ready, Tagged, LinkLayers, Tidy, Entering;
    ReadyParts(g, idx);
    var (cur, n) := Entering(space, g, idx);
    LinkLayersTags(space, g, idx, cur, n);
  }

  ghost predicate Flat(g: Graph, layers: nat) { forall i | 0 <= i < |g.nodes| :: |g.nodes[i].links| <= layers }

  lemma ShellTags(a: Graph, b: Graph, layers: nat)
    requires SameShell(a, b) && Flat(a, layers)
    ensures Flat(b, layers)
  {
  }

  lemma ReplaceTags(space: Space, g: Graph, idx: nat, v: Vec, layers: nat)
    requires Ready(g) && idx < |g.nodes| && Tagged(g) && Flat(g, layers) && g.epoch + layers < EPOCHS
    requires Ready(g.(nodes := g.nodes[idx := Cleared(v, |g.nodes[idx].links|)]))
    ensures var r := Relinked(space, g.(nodes := g.nodes[idx := Cleared(v, |g.nodes[idx].links|)]), idx);
            Tagged(r) && r.epoch <= g.epoch + layers && Flat(r, layers)
  {
    var g1 := g.(nodes := g.nodes[idx := Cleared(v, |g.nodes[idx].links|)]);
    hide Ready, Relinked;
    RelinkedTags(space, g1, idx, layers);
    ShellTags(g1, Relinked(space, g1, idx), layers);
  }

  lemma PushTags(space: Space, g: Graph, id: Key, v: Vec, layers: nat)
    requires Ready(Pushed(g, id, v, space.level(id))) && Tagged(g) && Flat(g, layers)
    requires space.level(id) < layers && g.epoch + layers < EPOCHS
    ensures var r := Relinked(space, Pushed(g, id, v, space.level(id)), |g.nodes|);
            Tagged(r) && r.epoch <= g.epoch + layers && Flat(r, layers)
  {
    var g1 := Pushed(g, id, v, space.level(id));
    hide Ready, Relinked;
    RelinkedTags(space, g1, |g.nodes|, layers);
    ShellTags(g1, Relinked(space, g1, |g.nodes|), layers);
  }

  lemma IdReady(g: Graph, id: Key)
    requires WellBuilt(g) && id in g.at
    ensures Ready(g) && g.at[id] < |g.nodes|
  {
  }

  /** An insert searches at most once per layer. */
  lemma InsertTags(space: Space, g: Graph, id: Key, vector: Vec, layers: nat)
    requires WellBuilt(g) && Tagged(g) && Flat(g, layers) && space.level(id) < layers && g.epoch + layers < EPOCHS
    ensures var g' := Inserted(space, g, id, vector).0; Tagged(g') && g'.epoch <= g.epoch + layers && Flat(g', layers)
  {
    hide WellBuilt, Ready, Relinked;
    var v := space.norm(vector);
    if v.Some? && (g.dim.Some? ==> g.dim.value == |v.value|) {
      if id in g.at {
        IdReady(g, id);
        ReplacedReady(g, g.at[id], v.value);
        ReplaceTags(space, g, g.at[id], v.value, layers);
      } else if g.entry.Some? {
        PushedReady(g, id, v.value, space.level(id));
        PushTags(space, g, id, v.value, layers);
      }
    }
  }
}
