/** Branches, tags and the commit graph, and the deltas the log appends. */
module Refs {
  import opened Bytes
  import opened Records

  /** Branch and tag names, as bytes. */
  type Name = Key
  type CommitId = nat

  datatype Refs = Refs(branches: map<Name, CommitId>, tags: map<Name, CommitId>, commits: map<CommitId, seq<CommitId>>)

  /** `main` */
  const MAIN: Name := [109, 97, 105, 110]

  const NO_REFS := Refs(map[], map[], map[])

  datatype RefEdit =
    | SetHead(branch: Name, to: CommitId)
    | CreateBranch(name: Name, at: CommitId)
    | RemoveBranch(name: Name)
    | SetTag(tag: Name, to: CommitId)
    | RemoveTag(tag: Name)
    | RecordCommit(commit: CommitId, parents: seq<CommitId>)
    | AddParent(commit: CommitId, parent: CommitId)

  function Joined(ps: seq<CommitId>, p: CommitId): seq<CommitId> { if p in ps then ps else ps + [p] }

  function ApplyEdit(r: Refs, e: RefEdit): Refs {
    match e
    case SetHead(b, c) => r.(branches := r.branches[b := c])
    case CreateBranch(b, c) => r.(branches := r.branches[b := c])
    case RemoveBranch(b) => r.(branches := r.branches - {b})
    case SetTag(t, c) => r.(tags := r.tags[t := c])
    case RemoveTag(t) => r.(tags := r.tags - {t})
    case RecordCommit(c, ps) => r.(commits := r.commits[c := ps])
    case AddParent(c, p) => r.(commits := r.commits[c := Joined(if c in r.commits then r.commits[c] else [], p)])
  }

  function Replay(r: Refs, es: seq<RefEdit>): Refs {
    if es == [] then r else ApplyEdit(Replay(r, es[..|es| - 1]), es[|es| - 1])
  }

  lemma {:induction false} ReplayConcat(r: Refs, a: seq<RefEdit>, b: seq<RefEdit>)
    ensures Replay(r, a + b) == Replay(Replay(r, a), b)
  {
    if b == [] {
      assert a + b == a;
    } else {
      assert (a + b)[..|a + b| - 1] == a + b[..|b| - 1];
      ReplayConcat(r, a, b[..|b| - 1]);
    }
  }

  // ---------- one ref at a time ----------

  /** The three kinds of ref. */
  datatype Slot = Branch(name: Name) | Tag(name: Name) | Parents(commit: CommitId)

  function Cell(r: Refs, s: Slot): Option<seq<CommitId>> {
    match s
    case Branch(n) => if n in r.branches then Some([r.branches[n]]) else None
    case Tag(n) => if n in r.tags then Some([r.tags[n]]) else None
    case Parents(c) => if c in r.commits then Some(r.commits[c]) else None
  }

  lemma SameCells(a: Refs, b: Refs)
    requires forall s :: Cell(a, s) == Cell(b, s)
    ensures a == b
  {
    forall n ensures (n in a.branches <==> n in b.branches) && (n in a.branches ==> a.branches[n] == b.branches[n]) {
      assert Cell(a, Branch(n)) == Cell(b, Branch(n));
      if n in a.branches && n in b.branches { assert [a.branches[n]][0] == [b.branches[n]][0]; }
    }
    forall n ensures (n in a.tags <==> n in b.tags) && (n in a.tags ==> a.tags[n] == b.tags[n]) {
      assert Cell(a, Tag(n)) == Cell(b, Tag(n));
      if n in a.tags && n in b.tags { assert [a.tags[n]][0] == [b.tags[n]][0]; }
    }
    forall c ensures (c in a.commits <==> c in b.commits) && (c in a.commits ==> a.commits[c] == b.commits[c]) {
      assert Cell(a, Parents(c)) == Cell(b, Parents(c));
    }
    assert a.branches == b.branches && a.tags == b.tags && a.commits == b.commits;
  }

  /** What an edit does to one ref. */
  datatype Effect = Keep | Reset(to: Option<seq<CommitId>>) | Join(parent: CommitId)

  function EffectOn(e: RefEdit, s: Slot): Effect {
    match e
    case SetHead(b, c) => if s == Branch(b) then Reset(Some([c])) else Keep
    case CreateBranch(b, c) => if s == Branch(b) then Reset(Some([c])) else Keep
    case RemoveBranch(b) => if s == Branch(b) then Reset(None) else Keep
    case SetTag(t, c) => if s == Tag(t) then Reset(Some([c])) else Keep
    case RemoveTag(t) => if s == Tag(t) then Reset(None) else Keep
    case RecordCommit(c, ps) => if s == Parents(c) then Reset(Some(ps)) else Keep
    case AddParent(c, p) => if s == Parents(c) then Join(p) else Keep
  }

  function Effected(x: Option<seq<CommitId>>, f: Effect): Option<seq<CommitId>> {
    match f
    case Keep => x
    case Reset(v) => v
    case Join(p) => Some(Joined(if x.Some? then x.value else [], p))
  }

  function CellAfter(x: Option<seq<CommitId>>, es: seq<RefEdit>, s: Slot): Option<seq<CommitId>> {
    if es == [] then x else Effected(CellAfter(x, es[..|es| - 1], s), EffectOn(es[|es| - 1], s))
  }

  lemma EditCell(r: Refs, e: RefEdit, s: Slot)
    ensures Cell(ApplyEdit(r, e), s) == Effected(Cell(r, s), EffectOn(e, s))
  {
  }

  /** Replay acts on every ref separately. */
  lemma {:induction false} ReplayCell(r: Refs, es: seq<RefEdit>, s: Slot)
    ensures Cell(Replay(r, es), s) == CellAfter(Cell(r, s), es, s)
  {
    if es != [] {
      var init, e := es[..|es| - 1], es[|es| - 1];
      ReplayCell(r, init, s);
      EditCell(Replay(r, init), e, s);
    }
  }

  predicate Resets(es: seq<RefEdit>, s: Slot) { exists i :: 0 <= i < |es| && EffectOn(es[i], s).Reset? }

  ghost predicate HasJoins(x: Option<seq<CommitId>>, es: seq<RefEdit>, s: Slot) {
    forall i | 0 <= i < |es| && EffectOn(es[i], s).Join? :: x.Some? && EffectOn(es[i], s).parent in x.value
  }

  lemma ResetsSplit(es: seq<RefEdit>, s: Slot)
    requires es != []
    ensures Resets(es, s) <==> Resets(es[..|es| - 1], s) || EffectOn(es[|es| - 1], s).Reset?
  {
    var init := es[..|es| - 1];
    if Resets(es, s) {
      var i :| 0 <= i < |es| && EffectOn(es[i], s).Reset?;
      if i < |es| - 1 { assert init[i] == es[i]; }
    }
    if Resets(init, s) {
      var i :| 0 <= i < |init| && EffectOn(init[i], s).Reset?;
      assert es[i] == init[i];
    }
  }

  /** Once a ref is set outright, what it was before does not matter. */
  lemma {:induction false} ResetForgets(x: Option<seq<CommitId>>, y: Option<seq<CommitId>>, es: seq<RefEdit>, s: Slot)
    requires Resets(es, s)
    ensures CellAfter(x, es, s) == CellAfter(y, es, s)
  {
    ResetsSplit(es, s);
    if !EffectOn(es[|es| - 1], s).Reset? { ResetForgets(x, y, es[..|es| - 1], s); }
  }

  /** Edges only added stay added, and adding them again changes nothing. */
  lemma {:induction false} JoinsStick(x: Option<seq<CommitId>>, es: seq<RefEdit>, s: Slot)
    requires !Resets(es, s)
    ensures HasJoins(CellAfter(x, es, s), es, s)
    ensures HasJoins(x, es, s) <==> CellAfter(x, es, s) == x
    ensures x.Some? ==> CellAfter(x, es, s).Some? && x.value <= CellAfter(x, es, s).value
  {
    if es != [] {
      var init, e := es[..|es| - 1], es[|es| - 1];
      ResetsSplit(es, s);
      JoinsStick(x, init, s);
      var mid, end := CellAfter(x, init, s), CellAfter(x, es, s);
      assert mid.Some? ==> end.Some? && mid.value <= end.value;
      assert forall i | 0 <= i < |init| :: init[i] == es[i];
      forall i | 0 <= i < |es| && EffectOn(es[i], s).Join? ensures end.Some? && EffectOn(es[i], s).parent in end.value {
        if i < |init| { assert EffectOn(init[i], s).parent in mid.value; }
      }
      if HasJoins(x, es, s) {
        assert HasJoins(x, init, s);
      } else if HasJoins(x, init, s) {
        assert mid == x && EffectOn(e, s).Join?;
      }
    }
  }

  /** The refs already say what the edits would make them say: every ref the edits set outright holds what
      they leave there, and every edge they only add is there. */
  ghost predicate Absorbed(r: Refs, es: seq<RefEdit>) {
    forall s :: if Resets(es, s) then Cell(r, s) == CellAfter(None, es, s) else HasJoins(Cell(r, s), es, s)
  }

  /** Replaying edits is a no-op exactly on refs that absorbed them. */
  lemma ReplayNoOp(r: Refs, es: seq<RefEdit>)
    ensures Replay(r, es) == r <==> Absorbed(r, es)
  {
    forall s
      ensures Cell(Replay(r, es), s) == Cell(r, s) <==>
                if Resets(es, s) then Cell(r, s) == CellAfter(None, es, s) else HasJoins(Cell(r, s), es, s)
    {
      ReplayCell(r, es, s);
      if Resets(es, s) { ResetForgets(Cell(r, s), None, es, s); } else { JoinsStick(Cell(r, s), es, s); }
    }
    if Absorbed(r, es) { SameCells(Replay(r, es), r); }
  }

  /** **Replaying a whole log on its own result changes nothing**, re-recorded commits followed by their merge
      edges included. */
  lemma ReplayTwice(r: Refs, es: seq<RefEdit>)
    ensures Replay(Replay(r, es), es) == Replay(r, es)
  {
    forall s ensures if Resets(es, s) then Cell(Replay(r, es), s) == CellAfter(None, es, s)
                     else HasJoins(Cell(Replay(r, es), s), es, s) {
      ReplayCell(r, es, s);
      if Resets(es, s) { ResetForgets(Cell(r, s), None, es, s); } else { JoinsStick(Cell(r, s), es, s); }
    }
    ReplayNoOp(Replay(r, es), es);
  }

  /** The lost rest of a log leaves alone every ref its surviving prefix set, and drops no edge it added. */
  ghost predicate RestRespects(r: Refs, pre: seq<RefEdit>, rest: seq<RefEdit>) {
    forall s :: if Resets(pre, s) then Cell(Replay(r, pre), s) == Cell(Replay(r, pre + rest), s)
                else HasJoins(Cell(Replay(r, pre + rest), s), pre, s)
  }

  /** Replaying only a prefix of an old log on the new snapshot is harmless exactly when the rest respects it. */
  lemma PrefixReplay(r: Refs, pre: seq<RefEdit>, rest: seq<RefEdit>)
    ensures var end := Replay(r, pre + rest);
            Replay(end, pre) == end <==> RestRespects(r, pre, rest)
  {
    var end := Replay(r, pre + rest);
    ReplayNoOp(end, pre);
    forall s | Resets(pre, s) ensures CellAfter(None, pre, s) == Cell(Replay(r, pre), s) {
      ReplayCell(r, pre, s);
      ResetForgets(Cell(r, s), None, pre, s);
    }
  }

  /** A branch moved twice: replaying the first move alone takes its head back. */
  lemma PrefixReplayMovesHeadBack()
    ensures var log := [SetHead(MAIN, 1), SetHead(MAIN, 2)];
            var end := Replay(NO_REFS, log);
            end.branches == map[MAIN := 2] && Replay(end, log[..1]).branches == map[MAIN := 1]
  {
    var log := [SetHead(MAIN, 1), SetHead(MAIN, 2)];
    assert log[..1] == [log[0]] && log[..1][..0] == [];
    assert Replay(NO_REFS, log[..1]) == ApplyEdit(NO_REFS, log[0]);
  }
}
