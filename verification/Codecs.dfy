/** The codecs the stores assume exist: every value spelled as a tree of numbers, and every such tree as bytes. */
module Codecs {
  import opened Bytes
  import opened Records
  import opened Refs
  import RefLog

  // ---------- trees of numbers as bytes ----------

  datatype Code = Leaf(n: nat) | Node(kids: seq<Code>)

  /** That many ones, and a zero. */
  function Unary(n: nat): Key { if n == 0 then [0] else [1] + Unary(n - 1) }

  function Spell(c: Code): Key
    decreases c, 0
  {
    match c
    case Leaf(n) => [0] + Unary(n)
    case Node(kids) => [1] + Unary(|kids|) + SpellAll(kids)
  }

  function SpellAll(cs: seq<Code>): Key
    decreases cs, 1
  {
    if cs == [] then [] else Spell(cs[0]) + SpellAll(cs[1..])
  }

  lemma {:induction false} UnaryEnds(m: nat, n: nat, x: Key, y: Key)
    requires Unary(m) + x == Unary(n) + y
    ensures m == n && x == y
  {
    var s, t := Unary(m) + x, Unary(n) + y;
    assert s[0] == Unary(m)[0] && t[0] == Unary(n)[0];
    if m == 0 {
      assert s[1..] == x && t[1..] == y;
    } else {
      assert s[1..] == Unary(m - 1) + x && t[1..] == Unary(n - 1) + y;
      UnaryEnds(m - 1, n - 1, x, y);
    }
  }

  /** A spelling says where it ends, and what it spells. */
  lemma {:induction false} SpellEnds(a: Code, b: Code, x: Key, y: Key)
    requires Spell(a) + x == Spell(b) + y
    ensures a == b && x == y
    decreases a, 0
  {
    var s, t := Spell(a) + x, Spell(b) + y;
    assert s[0] == Spell(a)[0] && t[0] == Spell(b)[0];
    match (a, b)
    case (Leaf(m), Leaf(n)) =>
      assert s[1..] == Unary(m) + x && t[1..] == Unary(n) + y;
      UnaryEnds(m, n, x, y);
    case (Node(p), Node(q)) =>
      assert s[1..] == Unary(|p|) + (SpellAll(p) + x) && t[1..] == Unary(|q|) + (SpellAll(q) + y);
      UnaryEnds(|p|, |q|, SpellAll(p) + x, SpellAll(q) + y);
      SpellAllEnds(p, q, x, y);
    case _ =>
  }

  lemma {:induction false} SpellAllEnds(a: seq<Code>, b: seq<Code>, x: Key, y: Key)
    requires |a| == |b| && SpellAll(a) + x == SpellAll(b) + y
    ensures a == b && x == y
    decreases a, 1
  {
    if a == [] {
      assert SpellAll(a) + x == x && SpellAll(b) + y == y;
    } else {
      assert SpellAll(a) + x == Spell(a[0]) + (SpellAll(a[1..]) + x);
      assert SpellAll(b) + y == Spell(b[0]) + (SpellAll(b[1..]) + y);
      SpellEnds(a[0], b[0], SpellAll(a[1..]) + x, SpellAll(b[1..]) + y);
      SpellAllEnds(a[1..], b[1..], x, y);
      assert a == [a[0]] + a[1..] && b == [b[0]] + b[1..];
    }
  }

  lemma SpellInjective(a: Code, b: Code)
    requires Spell(a) == Spell(b)
    ensures a == b
  {
    assert Spell(a) + [] == Spell(b) + [];
    SpellEnds(a, b, [], []);
  }

  // ---------- values as trees of numbers ----------

  ghost predicate OneToOne<T(!new), U(!new)>(f: T -> U) { forall a, b :: f(a) == f(b) ==> a == b }

  /** A decoder for a one-to-one encoder. */
  ghost function Undo<T(!new)>(f: T -> Key): (g: Key -> Option<T>)
    requires OneToOne(f)
    ensures forall a :: g(f(a)) == Some(a)
  {
    k => if exists a :: f(a) == k then var a :| f(a) == k; Some(a) else None
  }

  function Each<T>(f: T -> Code, s: seq<T>): Code { Node(seq(|s|, i requires 0 <= i < |s| => f(s[i]))) }

  lemma EachInjective<T(!new)>(f: T -> Code, s: seq<T>, t: seq<T>)
    requires OneToOne(f) && Each(f, s) == Each(f, t)
    ensures s == t
  {
    assert |s| == |Each(f, s).kids| == |t|;
    forall i | 0 <= i < |s| ensures s[i] == t[i] {
      assert Each(f, s).kids[i] == f(s[i]) && Each(f, t).kids[i] == f(t[i]);
    }
  }

  function Numbers(s: seq<nat>): Code { Each((n: nat) => Leaf(n), s) }

  lemma NumbersInjective(s: seq<nat>, t: seq<nat>)
    requires Numbers(s) == Numbers(t)
    ensures s == t
  {
    EachInjective((n: nat) => Leaf(n), s, t);
  }

  /** The entries of a map, each once, in some order. */
  ghost function Items<K, V>(m: map<K, V>): (s: seq<(K, V)>)
    ensures forall i | 0 <= i < |s| :: s[i].0 in m && m[s[i].0] == s[i].1
    ensures forall k | k in m :: (k, m[k]) in s
  {
    if m == map[] then []
    else
      var k :| k in m;
      var rest := Items(m - {k});
      assert forall j | j in m && j != k :: j in m - {k} && (j, (m - {k})[j]) in rest;
      [(k, m[k])] + rest
  }

  lemma ItemsInjective<K, V>(m: map<K, V>, n: map<K, V>)
    requires Items(m) == Items(n)
    ensures m == n
  {
    hide Items;
    forall k | k in m ensures k in n && n[k] == m[k] { assert (k, m[k]) in Items(n); }
    forall k | k in n ensures k in m { assert (k, n[k]) in Items(m); }
  }

  // ---------- the ref store's ----------

  function EditCode(e: RefEdit): Code {
    match e
    case SetHead(b, c) => Node([Leaf(0), Numbers(b), Leaf(c)])
    case CreateBranch(b, c) => Node([Leaf(1), Numbers(b), Leaf(c)])
    case RemoveBranch(b) => Node([Leaf(2), Numbers(b)])
    case SetTag(t, c) => Node([Leaf(3), Numbers(t), Leaf(c)])
    case RemoveTag(t) => Node([Leaf(4), Numbers(t)])
    case RecordCommit(c, ps) => Node([Leaf(5), Leaf(c), Numbers(ps)])
    case AddParent(c, p) => Node([Leaf(6), Leaf(c), Leaf(p)])
  }

  lemma EditCodeInjective()
    ensures OneToOne((e: RefEdit) => Spell(EditCode(e)))
  {
    forall a: RefEdit, b: RefEdit | Spell(EditCode(a)) == Spell(EditCode(b)) ensures a == b {
      SpellInjective(EditCode(a), EditCode(b));
      var (p, q) := (EditCode(a).kids, EditCode(b).kids);
      assert p[0] == q[0];
      assert p[1] == q[1];
      if |p| == 3 { assert p[2] == q[2]; }
      match (a, b)
      case (RecordCommit(_, ps), RecordCommit(_, qs)) => NumbersInjective(ps, qs);
      case (SetHead(x, _), SetHead(y, _)) => NumbersInjective(x, y);
      case (CreateBranch(x, _), CreateBranch(y, _)) => NumbersInjective(x, y);
      case (RemoveBranch(x), RemoveBranch(y)) => NumbersInjective(x, y);
      case (SetTag(x, _), SetTag(y, _)) => NumbersInjective(x, y);
      case (RemoveTag(x), RemoveTag(y)) => NumbersInjective(x, y);
      case _ =>
    }
  }

  function RefCode(r: (Name, CommitId)): Code { Node([Numbers(r.0), Leaf(r.1)]) }

  function ParentsCode(r: (CommitId, seq<CommitId>)): Code { Node([Leaf(r.0), Numbers(r.1)]) }

  lemma RefCodesInjective()
    ensures OneToOne(RefCode) && OneToOne(ParentsCode)
  {
    forall a: (Name, CommitId), b: (Name, CommitId) | RefCode(a) == RefCode(b) ensures a == b {
      assert RefCode(a).kids[0] == RefCode(b).kids[0] && RefCode(a).kids[1] == RefCode(b).kids[1];
      NumbersInjective(a.0, b.0);
    }
    forall a: (CommitId, seq<CommitId>), b: (CommitId, seq<CommitId>) | ParentsCode(a) == ParentsCode(b)
      ensures a == b
    {
      assert ParentsCode(a).kids[0] == ParentsCode(b).kids[0] && ParentsCode(a).kids[1] == ParentsCode(b).kids[1];
      NumbersInjective(a.1, b.1);
    }
  }

  ghost function RefsCode(r: Refs): Code {
    Node([Each(RefCode, Items(r.branches)), Each(RefCode, Items(r.tags)), Each(ParentsCode, Items(r.commits))])
  }

  lemma RefsCodeInjective()
    ensures OneToOne((r: Refs) => Spell(RefsCode(r)))
  {
    RefCodesInjective();
    forall a: Refs, b: Refs | Spell(RefsCode(a)) == Spell(RefsCode(b)) ensures a == b {
      SpellInjective(RefsCode(a), RefsCode(b));
      var (p, q) := (RefsCode(a).kids, RefsCode(b).kids);
      assert p[0] == q[0] && p[1] == q[1] && p[2] == q[2];
      EachInjective(RefCode, Items(a.branches), Items(b.branches));
      EachInjective(RefCode, Items(a.tags), Items(b.tags));
      EachInjective(ParentsCode, Items(a.commits), Items(b.commits));
      ItemsInjective(a.branches, b.branches);
      ItemsInjective(a.tags, b.tags);
      ItemsInjective(a.commits, b.commits);
    }
  }

  lemma UnaryLength(n: nat)
    ensures |Unary(n)| == n + 1
  {
    if n > 0 { UnaryLength(n - 1); }
  }

  lemma {:induction false} SpellAllLength(cs: seq<Code>, most: nat)
    requires forall c | c in cs :: |Spell(c)| <= most
    ensures |SpellAll(cs)| <= most * |cs|
  {
    if cs != [] {
      SpellAllLength(cs[1..], most);
      assert most * |cs| == most + most * (|cs| - 1);
    }
  }

  /** A spelling's length, by its parts. */
  lemma SpellLength(cs: seq<Code>, most: nat)
    requires forall c | c in cs :: |Spell(c)| <= most
    ensures |Spell(Node(cs))| <= 2 + |cs| + most * |cs|
  {
    UnaryLength(|cs|);
    SpellAllLength(cs, most);
  }

  lemma NumbersLength(s: seq<nat>, most: nat)
    requires forall n | n in s :: n <= most
    ensures |Spell(Numbers(s))| <= 2 + |s| + (most + 2) * |s|
  {
    forall c | c in Numbers(s).kids ensures |Spell(c)| <= most + 2 {
      var i :| 0 <= i < |s| && c == Leaf(s[i]);
      UnaryLength(s[i]);
      assert s[i] in s && Spell(c) == [0] + Unary(s[i]);
    }
    SpellLength(Numbers(s).kids, most + 2);
  }

  lemma ShortSpellings()
    ensures |Spell(EditCode(RecordCommit(1, [0])))| < 10000 && |Spell(EditCode(SetHead(MAIN, 1)))| < 10000
  {
    NumbersLength([0], 0);
    NumbersLength(MAIN, 255);
    UnaryLength(0);
    UnaryLength(1);
    UnaryLength(5);
    SpellLength(EditCode(RecordCommit(1, [0])).kids, 2000);
    SpellLength(EditCode(SetHead(MAIN, 1)).kids, 2000);
  }

  /** There is a codec as the ref store wants it, under which a first write's batch is framed. */
  lemma RefCodecExists() returns (c: RefLog.Codec)
    ensures RefLog.Faithful(c) && RefLog.Framed(c, [RecordCommit(1, [0]), SetHead(MAIN, 1)])
  {
    EditCodeInjective();
    RefsCodeInjective();
    ShortSpellings();
    var enc, encRefs := (e: RefEdit) => Spell(EditCode(e)), (r: Refs) => Spell(RefsCode(r));
    c := RefLog.Codec.Codec(enc, Undo(enc), p => seq(RefLog.CHECKSUM_LEN, _ => 0), encRefs, Undo(encRefs));
  }
}
