/** The graph in memory: its loops and its updates in place, each proved to do what the graph as a value says. */
module Hnsw {
  import opened Bytes
  import opened Records
  import opened Heap
  import opened Beam
  import opened BeamRenaming
  import opened HnswGraph
  import opened HnswLinks
  import opened HnswStore

  /** Where the search of a layer starts. */
  lemma BeginLayer(space: Space, g: Graph, q: Vec, start: nat, layer: nat)
    requires Tidy(g.nodes) && start < |g.nodes|
    ensures var l := LayerOf(space, g.nodes, q, layer);
            var item := Item(start, space.near(g.nodes[start].vector, q));
            && Begin(l, SeenAtStart(g), [start])
               == Front(SeenAtStart(g) + {start}, Push(true, [], item), Push(false, [], item))
            && Inside(l, Begin(l, SeenAtStart(g), [start]))
  {
    LayerClosed(space, g.nodes, q, layer);
    var l := LayerOf(space, g.nodes, q, layer);
    BeginOne(l, SeenAtStart(g), start);
    BeginInside(l, SeenAtStart(g), [start]);
  }

  /** What the search of a layer leaves, from what its exploration found. */
  lemma SearchFromIs(space: Space, g: Graph, q: Vec, start: nat, ef: nat, layer: nat,
                     result: seq<Item<nat>>, seen: set<nat>, tags: seq<nat>)
    requires Tidy(g.nodes) && start < |g.nodes|
    requires var l := LayerOf(space, g.nodes, q, layer); Inside(l, Begin(l, SeenAtStart(g), [start]))
    requires var l := LayerOf(space, g.nodes, q, layer);
             var r := Explore(l, ef, Begin(l, SeenAtStart(g), [start])); r.res == result && r.seen == seen
    requires var before := Grown(g.tags, |g.nodes|);
             |tags| == |before| && forall n: nat | n < |tags| ::
                 tags[n] == if n in seen then NextEpoch(g) else before[n]
    ensures SearchFrom(space, g, q, start, ef, layer) == (SortByDist(result), g.(tags := tags, epoch := NextEpoch(g)))
  {
    hide Tidy, Explore, Numbers, Begin, Inside;
    assert tags == SearchFrom(space, g, q, start, ef, layer).1.tags;
  }

  /** A node whose new links are tidy is ready for them to link back. */
  lemma LinkedReady(nodes: seq<Node>, idx: nat, layer: nat, sel: seq<nat>)
    requires Tidy(nodes) && OnLayer(nodes, idx, layer) && TidyList(nodes, idx, layer, sel)
    ensures var linked := WithLinks(nodes, idx, layer, sel);
            Tidy(linked) && OnLayer(linked, idx, layer) && forall n | n in sel :: OnLayer(linked, n, layer) && n != idx
  {
    WithLinksTidy(nodes, idx, layer, sel);
  }

  class Hnsw {
    const space: Space
    var nodes: seq<Node>
    var ids: seq<Key>
    var idToIndex: map<Key, nat>
    var entry: Option<nat>
    var maxLevel: nat
    var dim: Option<nat>
    /** visited[n] == epoch says the current search has seen n. */
    var visited: seq<nat>
    var epoch: nat

    ghost function State(): Graph
      reads this
    {
      Graph(nodes, ids, idToIndex, entry, maxLevel, dim, visited, epoch)
    }

    constructor New(space: Space)
      ensures State() == EMPTY && WellBuilt(State()) && this.space == space
    {
      this.space := space;
      nodes, ids, idToIndex, entry, maxLevel, dim, visited, epoch := [], [], map[], None, 0, None, [], 0;
    }

    function Dist(n: nat, q: Vec): real
      reads this`nodes
      requires n < |nodes|
    {
      space.near(nodes[n].vector, q)
    }

    function Links(n: nat, layer: nat): seq<nat>
      reads this`nodes
      requires n < |nodes|
    {
      if layer < |nodes[n].links| then nodes[n].links[layer] else []
    }

    /** Mark a node, and tell whether it was marked already. */
    method Seen(n: nat) returns (already: bool)
      requires n < |visited|
      modifies this`visited
      ensures already == (old(visited)[n] == epoch) && visited == old(visited)[n := epoch]
    {
      already := visited[n] == epoch;
      visited := visited[n := epoch];
    }

    /** Whether the array reads as this set, over what it held before. */
    ghost predicate Marks(seen: set<nat>, before: seq<nat>)
      reads this`visited, this`epoch
    {
      |visited| == |before| && forall n | 0 <= n < |visited| :: visited[n] == if n in seen then epoch else before[n]
    }

    ghost predicate Covers(seen: set<nat>, before: seq<nat>)
      reads this`epoch
    {
      (forall n | n in seen :: n < |before|) && forall n: nat | n < |before| && before[n] == epoch :: n in seen
    }

    /** One pass over a node's neighbours, moving whenever one is closer. */
    method HopOver(q: Vec, from: nat, layer: nat) returns (cur: nat)
      requires Tidy(nodes) && from < |nodes|
      ensures var g := LayerOf(space, nodes, q, layer); cur == Hop(g, g.adj(from), from) && cur < |nodes|
    {
      ghost var g := LayerOf(space, nodes, q, layer);
      LayerClosed(space, nodes, q, layer);
      var ns := Links(from, layer);
      assert forall j | 0 <= j < |ns| :: ns[j] in g.all by {
        assert forall j | 0 <= j < |ns| :: ns[j] in g.adj(from);
      }
      hide Tidy, Beam.Closed, Numbers;
      cur := from;
      var best := Dist(cur, q);
      for j := 0 to |ns|
        invariant cur == Hop(g, ns[..j], from) && cur < |nodes| && best == g.dist(cur)
      {
        assert ns[..j + 1][..j] == ns[..j];
        var d := Dist(ns[j], q);
        if d < best { best, cur := d, ns[j]; }
      }
      assert ns[..|ns|] == ns;
    }

    method GreedyClosest(q: Vec, start: nat, layer: nat) returns (cur: nat)
      requires Tidy(nodes) && start < |nodes|
      ensures cur == WalkFrom(space, nodes, q, start, layer)
    {
      ghost var g := LayerOf(space, nodes, q, layer);
      LayerClosed(space, nodes, q, layer);
      hide LayerOf, Tidy, Hop, Numbers;
      cur := start;
      while true
        invariant cur < |nodes| && Greedy(g, cur) == Greedy(g, start)
        decreases Closer(g, cur)
      {
        var next := HopOver(q, cur, layer);
        HopBest(g, g.adj(cur), cur);
        if next == cur { return; }
        CloserShrinks(g, next, cur);
        cur := next;
      }
    }

    /** Offer each neighbour of an explored node to both heaps. */
    method Expand(q: Vec, ef: nat, layer: nat, ns: seq<nat>, cand: seq<Item<nat>>, res: seq<Item<nat>>,
                  ghost b: Front<nat>, ghost before: seq<nat>)
      returns (candidates: seq<Item<nat>>, result: seq<Item<nat>>, ghost seen: set<nat>)
      requires Below(ns, |nodes|) && |before| == |nodes|
      requires b.cand == cand && b.res == res && Marks(b.seen, before) && Covers(b.seen, before)
      modifies this`visited
      ensures Front(seen, candidates, result) == OfferAll(LayerOf(space, nodes, q, layer), ef, b, ns)
      ensures Marks(seen, before) && Covers(seen, before)
    {
      ghost var g := LayerOf(space, nodes, q, layer);
      hide Push, Pop, Numbers;
      candidates, result, seen := cand, res, b.seen;
      for j := 0 to |ns|
        invariant Front(seen, candidates, result) == OfferAll(g, ef, b, ns[..j])
        invariant Marks(seen, before) && Covers(seen, before)
      {
        assert ns[..j + 1][..j] == ns[..j];
        var n := ns[j];
        var already := Seen(n);
        assert already <==> n in seen;
        if !already {
          seen := seen + {n};
          var item := Item(n, Dist(n, q));
          if result == [] || item.dist < result[0].dist || |result| < ef {
            candidates := Push(true, candidates, item);
            result := Push(false, result, item);
            if |result| > ef && result != [] { result := Pop(false, result).1; }
          }
        }
      }
      assert ns[..|ns|] == ns;
    }

    /** Explore from two loaded heaps until the closest candidate is beyond the worst of ef results. */
    method ExploreAll(q: Vec, ef: nat, layer: nat, cand: seq<Item<nat>>, res: seq<Item<nat>>,
                      ghost b: Front<nat>, ghost before: seq<nat>)
      returns (result: seq<Item<nat>>, ghost seen: set<nat>)
      requires Tidy(nodes) && |before| == |nodes|
      requires b.cand == cand && b.res == res && Marks(b.seen, before) && Covers(b.seen, before)
      requires Inside(LayerOf(space, nodes, q, layer), b)
      modifies this`visited
      ensures var r := Explore(LayerOf(space, nodes, q, layer), ef, b); r.res == result && r.seen == seen
      ensures Marks(seen, before) && Covers(seen, before)
    {
      ghost var g := LayerOf(space, nodes, q, layer);
      var candidates;
      candidates, result, seen := cand, res, b.seen;
      assert forall n: nat | n < |nodes| :: Below(Links(n, layer), |nodes|) && g.adj(n) == Links(n, layer) by {
        LayerClosed(space, nodes, q, layer);
        forall n: nat | n < |nodes| ensures Below(Links(n, layer), |nodes|) {
          assert forall j | 0 <= j < |Links(n, layer)| :: Links(n, layer)[j] in g.adj(n);
        }
      }
      hide Tidy, LayerOf, Links, OfferAll, Numbers;
      while candidates != []
        invariant Inside(g, Front(seen, candidates, result))
        invariant Explore(g, ef, Front(seen, candidates, result)) == Explore(g, ef, b)
        invariant Marks(seen, before) && Covers(seen, before)
        decreases g.all - seen, |candidates|
      {
        ghost var now := Front(seen, candidates, result);
        PopInside(g, now);
        var (top, rest) := Pop(true, candidates);
        candidates := rest;
        if result != [] && top.dist > result[0].dist && |result| >= ef { break; }
        var ns := Links(top.id, layer);
        OfferAllInside(g, ef, now.(cand := rest), ns);
        candidates, result, seen := Expand(q, ef, layer, ns, candidates, result, now.(cand := rest), before);
      }
    }

    /** Search one layer from one node, returning up to ef nodes, nearest first. */
    method SearchLayer(q: Vec, start: nat, ef: nat, layer: nat) returns (out: seq<Item<nat>>)
      requires Tidy(nodes) && start < |nodes| && |visited| <= |nodes|
      modifies this`visited, this`epoch
      ensures (out, State()) == SearchFrom(space, old(State()), q, start, ef, layer)
    {
      hide Tidy, Explore, Numbers, Begin, Push, SearchFrom, SortByDist, Inside;
      ghost var g := LayerOf(space, nodes, q, layer);
      ghost var was, seen := State(), SeenAtStart(State());
      ghost var b := Begin(g, seen, [start]);
      BeginLayer(space, was, q, start, layer);
      visited := Grown(visited, |nodes|);
      epoch := (epoch + 1) % EPOCHS;
      ghost var before := visited;
      var d := Dist(start, q);
      var _ := Seen(start);
      var candidates := Push(true, [], Item(start, d));
      var result := Push(false, [], Item(start, d));
      result, seen := ExploreAll(q, ef, layer, candidates, result, b, before);
      out := SortByDist(result);
      SearchFromIs(space, was, q, start, ef, layer, result, seen, visited);
    }

    /** The diverse few: candidates nearest first, but for those nearer to one already kept than to the base. */
    method SelectHeuristic(cands: seq<Item<nat>>, m: nat) returns (kept: seq<nat>)
      requires forall e | e in cands :: e.id < |nodes|
      ensures kept == Select(space, nodes, [], cands, m)
    {
      kept := [];
      for i := 0 to |cands|
        invariant Below(kept, |nodes|)
        invariant Select(space, nodes, kept, cands[i..], m) == Select(space, nodes, [], cands, m)
      {
        assert cands[i] in cands && cands[i..][0] == cands[i] && cands[i..][1..] == cands[i + 1..];
        if |kept| >= m { return; }
        if !Redundant(space, nodes, kept, cands[i]) { kept := kept + [cands[i].id]; }
      }
    }

    /** Have neighbour n link back to idx, re-selecting its links if they overflow. */
    method LinkBackOne(idx: nat, layer: nat, n: nat)
      requires Tidy(nodes) && OnLayer(nodes, idx, layer) && OnLayer(nodes, n, layer)
      modifies this`nodes
      ensures nodes == WithLinks(old(nodes), n, layer, BackList(space, old(nodes), idx, layer, n))
    {
      var list := nodes[n].links[layer];
      if idx in list {
        WithLinksSame(nodes, n, layer);
        return;
      }
      ghost var was := nodes;
      WithLinksTwice(was, n, layer, list + [idx], []);
      nodes := WithLinks(nodes, n, layer, list + [idx]);
      if |nodes[n].links[layer]| > Cap(layer) {
        assert forall i | 0 <= i < |list| :: list[i] in list;
        RankedIds(space, was, n, list + [idx]);
        var ranked := Ranked(space, nodes, n, list + [idx]);
        SameVectors(space, was, nodes, n, list + [idx], Cap(layer));
        var kept := SelectHeuristic(ranked, Cap(layer));
        WithLinksTwice(was, n, layer, list + [idx], kept);
        nodes := WithLinks(nodes, n, layer, kept);
      }
    }

    method LinkBackAll(idx: nat, layer: nat, sel: seq<nat>)
      requires Tidy(nodes) && OnLayer(nodes, idx, layer) && forall n | n in sel :: OnLayer(nodes, n, layer) && n != idx
      modifies this`nodes
      ensures nodes == LinkBack(space, old(nodes), idx, layer, sel)
    {
      for j := 0 to |sel|
        invariant nodes == LinkBack(space, old(nodes), idx, layer, sel[..j])
      {
        assert sel[..j + 1][..j] == sel[..j] && sel[j] in sel;
        assert forall n | n in sel[..j] :: n in sel;
        LinkBackOne(idx, layer, sel[j]);
      }
      assert sel[..|sel|] == sel;
    }

    /** Search one layer for links, and keep the diverse few. */
    method Choose(idx: nat, cur: nat, layer: nat) returns (sel: seq<nat>, next: nat)
      requires Ready(State()) && OnLayer(nodes, idx, layer) && OnLayer(nodes, cur, layer)
      modifies this`visited, this`epoch
      ensures (sel, next, State()) == Chosen(space, old(State()), idx, cur, layer)
    {
      ghost var g := State();
      var q := nodes[idx].vector;
      FoundOnLayer(space, g, q, cur, EF_CONSTRUCTION, layer);
      hide Tidy, SearchFrom;
      var out := SearchLayer(q, cur, EF_CONSTRUCTION, layer);
      ExceptWithin(out, idx);
      var found := Except(out, idx);
      sel := SelectHeuristic(found, M);
      if found != [] { assert found[0] in found; }
      next := if found == [] then cur else found[0].id;
    }

    /** Link idx at one layer, and give the node to start the next layer from. */
    method LinkAt(idx: nat, cur: nat, layer: nat) returns (next: nat)
      requires Ready(State()) && OnLayer(nodes, idx, layer) && OnLayer(nodes, cur, layer)
      modifies this`nodes, this`visited, this`epoch
      ensures (State(), next) == LinkLayer(space, old(State()), idx, cur, layer)
    {
      hide Ready, Tidy, Chosen, LinkBack, TidyList, SameFrame;
      ReadyParts(State(), idx);
      hide OnLayer;
      var sel;
      sel, next := Choose(idx, cur, layer);
      LinkedReady(nodes, idx, layer, sel);
      nodes := WithLinks(nodes, idx, layer, sel);
      LinkBackAll(idx, layer, sel);
    }

    /** Link a fresh or replaced node in, entering from the top. */
    method Relink(idx: nat)
      requires Ready(State()) && idx < |nodes|
      modifies this`nodes, this`visited, this`epoch
      ensures State() == Relinked(space, old(State()), idx)
    {
      hide Tidy, Ready, LinkLayers, Descend;
      ReadyParts(State(), idx);
      var level, q := |nodes[idx].links| - 1, nodes[idx].vector;
      var cur: nat := DescendTo(q, entry.value, maxLevel + 1, level + 1);
      assert (cur, Min(level, maxLevel) + 1) == Entering(space, State(), idx);
      LinkDown(idx, cur, Min(level, maxLevel) + 1);
    }

    /** Link idx at layers n - 1 down to 0. */
    method LinkDown(idx: nat, start: nat, n: nat)
      requires Ready(State()) && idx < |nodes| && n <= |nodes[idx].links| && start < |nodes|
               && n <= |nodes[start].links|
      modifies this`nodes, this`visited, this`epoch
      ensures State() == LinkLayers(space, old(State()), idx, start, n)
    {
      hide Tidy, Ready, LinkLayer, LinkLayers;
      ghost var g := State();
      var cur: nat, layer: nat := start, n;
      while layer > 0
        invariant Ready(State()) && idx < |nodes| && layer <= |nodes[idx].links| && cur < |nodes|
                  && layer <= |nodes[cur].links|
        invariant LinkLayers(space, State(), idx, cur, layer) == LinkLayers(space, g, idx, start, n)
      {
        LinkStep(space, State(), idx, cur, layer);
        layer := layer - 1;
        cur := LinkAt(idx, cur, layer);
      }
      LinkStep(space, State(), idx, cur, 0);
    }

    method DescendTo(q: Vec, start: nat, top: nat, bottom: nat) returns (cur: nat)
      requires Tidy(nodes) && start < |nodes|
      ensures cur == Descend(space, nodes, q, start, top, bottom)
    {
      hide Tidy, Descend, WalkFrom;
      cur := start;
      var layer: nat := top;
      while layer > bottom
        invariant cur < |nodes| && Descend(space, nodes, q, cur, layer, bottom)
                  == Descend(space, nodes, q, start, top, bottom)
      {
        DescendStep(space, nodes, q, cur, layer, bottom);
        layer := layer - 1;
        cur := GreedyClosest(q, cur, layer);
      }
      DescendDone(space, nodes, q, cur, layer, bottom);
    }

    /** Replace the vector under an id in place, and link its node anew. */
    method Replace(id: Key, vector: Vec, v: Vec)
      requires WellBuilt(State()) && id in idToIndex && space.norm(vector) == Some(v)
               && (dim.Some? ==> dim.value == |v|)
      modifies this
      ensures (State(), true) == Inserted(space, old(State()), id, vector)
    {
      var idx := idToIndex[id];
      ReplacedReady(State(), idx, v);
      hide WellBuilt, Ready, Relinked;
      nodes := nodes[idx := Cleared(v, |nodes[idx].links|)];
      Relink(idx);
    }

    method Add(id: Key, vector: Vec, v: Vec)
      requires WellBuilt(State()) && id !in idToIndex && space.norm(vector) == Some(v)
               && (dim.Some? ==> dim.value == |v|)
      modifies this
      ensures (State(), true) == Inserted(space, old(State()), id, vector)
    {
      ghost var g := State();
      hide WellBuilt, Ready, Relinked, Tidy;
      var level := space.level(id);
      var idx := |nodes|;
      if entry.Some? { PushedReady(g, id, v, level); }
      nodes := nodes + [Cleared(v, level + 1)];
      ids := ids + [id];
      idToIndex := idToIndex[id := idx];
      dim := Some(|v|);
      assert State() == Pushed(g, id, v, level);
      if entry.None? {
        entry, maxLevel := Some(idx), level;
      } else {
        Relink(idx);
        if level > maxLevel { maxLevel, entry := level, Some(idx); }
      }
    }

    /** Insert an item, or replace its vector and relink it. */
    method Insert(id: Key, vector: Vec) returns (ok: bool)
      requires WellBuilt(State())
      modifies this
      ensures (State(), ok) == Inserted(space, old(State()), id, vector) && WellBuilt(State())
      ensures ok && old(entry).Some? ==> InsertLinked(space, old(State()), id, space.norm(vector).value, State())
    {
      hide WellBuilt, InsertLinked;
      InsertKeeps(space, State(), id, vector);
      if entry.Some? && Inserted(space, State(), id, vector).1 { InsertLinks(space, State(), id, vector); }
      var v := space.norm(vector);
      if v.None? { return false; }
      if dim.Some? && dim.value != |v.value| { return false; }
      if id in idToIndex { Replace(id, vector, v.value); } else { Add(id, vector, v.value); }
      ok := true;
    }

    /** The k nearest ids, nearest first. */
    method Search(query: Vec, k: nat, ef: nat) returns (out: seq<Item<Key>>)
      requires WellBuilt(State())
      modifies this`visited, this`epoch
      ensures (out, State()) == RamSearch(space, old(State()), query, k, ef)
    {
      if entry.None? || dim != Some(|query|) || k == 0 { return []; }
      var q := space.norm(query);
      if q.None? { return []; }
      hide Tidy;
      var cur := DescendTo(q.value, entry.value, maxLevel + 1, 1);
      var found := SearchLayer(q.value, cur, Max(ef, k), 0);
      out := Answer(MapItems(IdAt(ids), found), k);
    }

    /** The whole graph by id, carrying the caller's raw vectors. */
    method ExportPersisted(raw: map<Key, Vec>) returns (out: seq<(Key, Persisted)>, meta: StoreMeta)
      requires WellBuilt(State())
      ensures |out| == |ids| && forall i | 0 <= i < |ids| :: out[i] == (ids[i], ExportNode(State(), raw, i))
      ensures meta == ExportMeta(State())
    {
      out := [];
      for i := 0 to |nodes|
        invariant |out| == i && forall j | 0 <= j < i :: out[j] == (ids[j], ExportNode(State(), raw, j))
      {
        var vector := if ids[i] in raw then raw[ids[i]] else nodes[i].vector;
        out := out + [(ids[i], Persisted(vector, MapLists(IdAt(ids), nodes[i].links)))];
      }
      meta := StoreMeta(if entry.Some? then Some(ids[entry.value]) else None, maxLevel, dim);
    }
  }
}
