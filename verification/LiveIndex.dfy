/** The vectors a branch can search: index entries, the write buffer, and the graph the last fold built. */
module LiveIndex {
  import opened Bytes
  import opened Records
  import opened KeyOrder
  import opened HnswGraph

  /** Per record: its entry's embedding, its buffered vector, the vector of its stored graph node; and which nodes the
      last fold exported, the only ones its links lead to. */
  datatype Index = Index(entries: map<Key, Option<Vec>>, buffer: map<Key, Vec>, nodes: map<Key, Vec>, members: set<Key>)

  const NOTHING: Index := Index(map[], map[], map[], {})

  type Hints = seq<(Key, Option<Vec>)>

  /** An indexed write: each hint replaces the entry, and an embedding is buffered too. */
  function Hinted(i: Index, hints: Hints): Index {
    if hints == [] then i
    else
      var i' := Hinted(i, hints[..|hints| - 1]);
      var (k, v) := hints[|hints| - 1];
      i'.(entries := i'.entries[k := v], buffer := if v.Some? then i'.buffer[k := v.value] else i'.buffer)
  }

  type Pairs = seq<(Key, Vec)>

  /** The vectors a graph takes in, one by one: the first with a direction sets the dimension. */
  function Placed(space: Space, pairs: Pairs): (Option<nat>, map<Key, Vec>) {
    if pairs == [] then (None, map[])
    else
      var (dim, placed) := Placed(space, pairs[..|pairs| - 1]);
      var (k, v) := pairs[|pairs| - 1];
      match space.norm(v)
      case None => (dim, placed)
      case Some(u) => if dim.Some? && dim.value != |u| then (dim, placed) else (Some(|u|), placed[k := v])
  }

  predicate Embedded(i: Index, k: Key) { k in i.entries && i.entries[k].Some? }

  ghost function EmbeddedKeys(i: Index): set<Key> { set k | k in i.entries && i.entries[k].Some? }

  function PairsOf(i: Index, keys: seq<Key>): Pairs
    requires forall k | k in keys :: Embedded(i, k)
  {
    seq(|keys|, j requires 0 <= j < |keys| && Embedded(i, keys[j]) => (keys[j], i.entries[keys[j]].value))
  }

  /** The entries with an embedding, in key order. */
  ghost function EntryPairs(i: Index): Pairs { PairsOf(i, InOrder(EmbeddedKeys(i))) }

  /** A fold: the graph rebuilt from the entries, its nodes written over the old ones, and the buffer cleared. */
  ghost function Folded(space: Space, i: Index): Index {
    var placed := Placed(space, EntryPairs(i)).1;
    i.(buffer := map[], nodes := i.nodes + placed, members := placed.Keys)
  }

  /** The vector a search scores a record with: the buffered one, and otherwise the graph's. */
  function Visible(i: Index, k: Key): Option<Vec> {
    if k in i.buffer then Some(i.buffer[k])
    else if k in i.members && k in i.nodes then Some(i.nodes[k])
    else None
  }

  /** No indexed vector is in neither place, and none is seen at an old value. */
  ghost predicate Fresh(i: Index) { forall k | Embedded(i, k) :: Visible(i, k) == i.entries[k] }

  /** Every vector has a direction, and all have one dimension. */
  ghost predicate Alike(space: Space, dim: nat, i: Index) {
    forall k | Embedded(i, k) :: HasDim(space, dim, i.entries[k].value)
  }

  predicate HasDim(space: Space, dim: nat, v: Vec) { space.norm(v).Some? && |space.norm(v).value| == dim }

  // ---------- one write, one fold ----------

  lemma {:induction false} WriteKeepsFresh(i: Index, hints: Hints)
    requires Fresh(i)
    ensures Fresh(Hinted(i, hints))
  {
    if hints != [] { WriteKeepsFresh(i, hints[..|hints| - 1]); }
  }

  lemma {:induction false} WriteKeepsAlike(space: Space, dim: nat, i: Index, hints: Hints)
    requires Alike(space, dim, i) && forall j | 0 <= j < |hints| && hints[j].1.Some? ::
               HasDim(space, dim, hints[j].1.value)
    ensures Alike(space, dim, Hinted(i, hints))
  {
    if hints != [] { WriteKeepsAlike(space, dim, i, hints[..|hints| - 1]); }
  }

  predicate Has(pairs: Pairs, k: Key) { exists j :: 0 <= j < |pairs| && pairs[j].0 == k }

  ghost predicate Apart(pairs: Pairs) { forall i, j | 0 <= i < j < |pairs| :: pairs[i].0 != pairs[j].0 }

  /** Placed are exactly the pairs of the dimension, each with its vector. */
  ghost predicate PlacedAre(space: Space, pairs: Pairs, dim: Option<nat>, placed: map<Key, Vec>) {
    && (forall k | k in placed :: Has(pairs, k))
    && (forall j | 0 <= j < |pairs| :: pairs[j].0 in placed <==> dim.Some? && HasDim(space, dim.value, pairs[j].1))
    && (forall j | 0 <= j < |pairs| && pairs[j].0 in placed :: placed[pairs[j].0] == pairs[j].1)
  }

  /** The dimension is that of a pair with a direction, and there is none only if no pair has one. */
  ghost predicate DimIs(space: Space, pairs: Pairs, dim: Option<nat>) {
    && (dim.None? <==> forall j | 0 <= j < |pairs| :: space.norm(pairs[j].1).None?)
    && (dim.Some? ==> exists j :: 0 <= j < |pairs| && HasDim(space, dim.value, pairs[j].1))
  }

  lemma {:induction false} DimExactly(space: Space, pairs: Pairs)
    ensures DimIs(space, pairs, Placed(space, pairs).0)
  {
    if pairs != [] {
      var (init, last) := (pairs[..|pairs| - 1], pairs[|pairs| - 1]);
      DimExactly(space, init);
      var (was, dim) := (Placed(space, init).0, Placed(space, pairs).0);
      assert forall j | 0 <= j < |init| :: pairs[j] == init[j];
      assert pairs[|pairs| - 1] == last;
      if was.Some? {
        var j :| 0 <= j < |init| && HasDim(space, was.value, init[j].1);
        assert HasDim(space, dim.value, pairs[j].1);
      } else if dim.Some? {
        assert HasDim(space, dim.value, pairs[|pairs| - 1].1);
      }
    }
  }

  lemma ApartInit(pairs: Pairs)
    requires Apart(pairs) && pairs != []
    ensures var (init, last) := (pairs[..|pairs| - 1], pairs[|pairs| - 1]);
            && Apart(init) && !Has(init, last.0) && (forall k | Has(init, k) :: Has(pairs, k)) && Has(pairs, last.0)
            && forall j | 0 <= j < |init| :: pairs[j] == init[j] && Has(init, init[j].0) && init[j].0 != last.0
  {
    var (init, last) := (pairs[..|pairs| - 1], pairs[|pairs| - 1]);
    assert pairs[|pairs| - 1].0 == last.0;
    forall k | Has(init, k) ensures Has(pairs, k) {
      var j :| 0 <= j < |init| && init[j].0 == k;
      assert pairs[j].0 == k;
    }
  }

  lemma PlacedStep(space: Space, pairs: Pairs)
    requires pairs != []
    ensures var ((was, before), (dim, placed)) := (Placed(space, pairs[..|pairs| - 1]), Placed(space, pairs));
            var (k, v) := pairs[|pairs| - 1];
            && (was.Some? ==> dim == was)
            && placed == if dim.Some? && HasDim(space, dim.value, v) then before[k := v] else before
  {
  }

  /** One more pair, placed if it is of the dimension. */
  lemma PlacedMore(space: Space, pairs: Pairs, was: Option<nat>, before: map<Key, Vec>, dim: Option<nat>,
                   placed: map<Key, Vec>)
    requires Apart(pairs) && pairs != [] && PlacedAre(space, pairs[..|pairs| - 1], was, before)
    requires was.Some? ==> dim == was
    requires was.None? ==> forall j, d: nat | 0 <= j < |pairs| - 1 :: !HasDim(space, d, pairs[j].1)
    requires var (k, v) := pairs[|pairs| - 1];
             placed == if dim.Some? && HasDim(space, dim.value, v) then before[k := v] else before
    ensures PlacedAre(space, pairs, dim, placed)
  {
    ApartInit(pairs);
    var (init, last) := (pairs[..|pairs| - 1], pairs[|pairs| - 1]);
    hide Apart, Has, HasDim;
    forall j | 0 <= j < |pairs|
      ensures pairs[j].0 in placed <==> dim.Some? && HasDim(space, dim.value, pairs[j].1)
      ensures pairs[j].0 in placed ==> placed[pairs[j].0] == pairs[j].1
    {
      if j < |init| {
        assert init[j] == pairs[j] && pairs[j].0 != last.0;
        assert pairs[j].0 in before <==> was.Some? && HasDim(space, was.value, init[j].1);
      } else {
        assert last.0 !in before;
      }
    }
  }

  /** Placed are exactly the pairs of the dimension the first one with a direction set, each with its vector. */
  lemma {:induction false} PlacedExactly(space: Space, pairs: Pairs)
    requires Apart(pairs)
    ensures var (dim, placed) := Placed(space, pairs); PlacedAre(space, pairs, dim, placed) && DimIs(space, pairs, dim)
  {
    DimExactly(space, pairs);
    if pairs != [] {
      var init := pairs[..|pairs| - 1];
      ApartInit(pairs);
      hide Apart, Has, HasDim, PlacedAre;
      PlacedExactly(space, init);
      PlacedStep(space, pairs);
      var ((was, before), (dim, placed)) := (Placed(space, init), Placed(space, pairs));
      if was.None? { NoneYet(space, init); }
      assert forall j | 0 <= j < |init| :: init[j] == pairs[j];
      hide Placed, DimIs;
      PlacedMore(space, pairs, was, before, dim, placed);
    }
  }

  /** Before any dimension is set no vector has a direction. */
  lemma NoneYet(space: Space, pairs: Pairs)
    requires DimIs(space, pairs, Placed(space, pairs).0) && Placed(space, pairs).0.None?
    ensures forall j, d: nat | 0 <= j < |pairs| :: !HasDim(space, d, pairs[j].1)
  {
  }

  lemma EntryPairsAre(i: Index)
    ensures Apart(EntryPairs(i)) && forall k :: Has(EntryPairs(i), k) <==> Embedded(i, k)
    ensures forall j | 0 <= j < |EntryPairs(i)| ::
              var (k, v) := EntryPairs(i)[j]; Embedded(i, k) && i.entries[k] == Some(v)
  {
    var keys := InOrder(EmbeddedKeys(i));
    LessOrder();
    forall j | 0 <= j < |keys| ensures var (k, v) := EntryPairs(i)[j]; Embedded(i, k) && i.entries[k] == Some(v) {
      assert keys[j] in keys;
    }
    forall k | Has(EntryPairs(i), k) ensures Embedded(i, k) {
      var j :| 0 <= j < |EntryPairs(i)| && EntryPairs(i)[j].0 == k;
      assert keys[j] in keys;
    }
    forall k | Embedded(i, k) ensures Has(EntryPairs(i), k) {
      assert k in keys;
      var j :| 0 <= j < |keys| && keys[j] == k;
      assert EntryPairs(i)[j].0 == k;
    }
  }

  /** The dimension a fold settles on. */
  ghost function FoldDim(space: Space, i: Index): Option<nat> { Placed(space, EntryPairs(i)).0 }

  /** After a fold a record is visible exactly if its vector has a direction and the fold's dimension, and then at its
      current value; a buffered vector of another kind is lost. */
  lemma FoldShows(space: Space, i: Index, k: Key)
    ensures var d := FoldDim(space, i);
            Visible(Folded(space, i), k)
            == if Embedded(i, k) && d.Some? && HasDim(space, d.value, i.entries[k].value) then i.entries[k] else None
    ensures FoldDim(space, i).None? <==> forall j | Embedded(i, j) :: space.norm(i.entries[j].value).None?
    ensures FoldDim(space, i).Some? ==>
              exists j :: Embedded(i, j) && HasDim(space, FoldDim(space, i).value, i.entries[j].value)
  {
    var pairs := EntryPairs(i);
    EntryPairsAre(i);
    PlacedExactly(space, pairs);
    if Embedded(i, k) {
      assert Has(pairs, k);
      var j :| 0 <= j < |pairs| && pairs[j].0 == k;
      assert pairs[j] == (k, i.entries[k].value);
    }
    forall j | Embedded(i, j) && FoldDim(space, i).None? ensures space.norm(i.entries[j].value).None? {
      assert Has(pairs, j);
      var n :| 0 <= n < |pairs| && pairs[n].0 == j;
    }
    if FoldDim(space, i).Some? {
      var n :| 0 <= n < |pairs| && HasDim(space, FoldDim(space, i).value, pairs[n].1);
      assert Embedded(i, pairs[n].0);
    }
    forall n | 0 <= n < |pairs| && forall j | Embedded(i, j) :: space.norm(i.entries[j].value).None?
      ensures space.norm(pairs[n].1).None?
    {
      assert Embedded(i, pairs[n].0);
    }
  }

  /** A fold leaves every indexed vector searchable exactly when all have a direction and one dimension. */
  lemma FoldFreshIff(space: Space, i: Index)
    ensures Fresh(Folded(space, i)) <==> exists dim :: Alike(space, dim, i)
  {
    var i' := Folded(space, i);
    var d := FoldDim(space, i);
    forall k
      ensures Visible(i', k)
              == if Embedded(i, k) && d.Some? && HasDim(space, d.value, i.entries[k].value) then i.entries[k] else None
    {
      FoldShows(space, i, k);
    }
    FoldShows(space, i, []);
    assert forall k :: Embedded(i', k) <==> Embedded(i, k);
    hide Visible, FoldDim;
    if Fresh(i') {
      forall k | Embedded(i, k) ensures HasDim(space, if d.Some? then d.value else 0, i.entries[k].value) {
        assert Embedded(i', k) && Visible(i', k).Some?;
      }
      assert Alike(space, if d.Some? then d.value else 0, i);
    }
  }

  /** A hint that takes an embedding away leaves the old vector visible until the next fold. */
  lemma WithdrawnStaysVisible(i: Index, k: Key)
    requires Visible(i, k).Some?
    ensures var i' := Hinted(i, [(k, None)]);
            !Embedded(i', k) && Visible(i', k) == Visible(i, k)
  {
    var hints: Hints := [(k, None)];
    assert Hinted(i, hints[..0]) == i;
  }
}
