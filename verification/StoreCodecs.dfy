/** Codecs for claim versions and for the search index's records exist as well. */
module StoreCodecs {
  import opened Bytes
  import opened Time
  import opened Records
  import opened KeyOrder
  import opened ClaimHistory
  import opened Codecs
  import HnswGraph
  import HnswStore
  import AnnFold
  import ClaimStore

  // ---------- small parts ----------

  function Whole(n: int): Code { Leaf(if n >= 0 then 2 * n else -2 * n - 1) }

  function Count(n: nat): Code { Leaf(n) }

  function CharCode(c: char): Code { Leaf(c as nat) }

  function Chars(s: string): Code { Each(CharCode, s) }

  lemma CharsInjective()
    ensures OneToOne(Chars)
  {
    forall a: char, b: char | CharCode(a) == CharCode(b) ensures a == b { assert a as nat == b as nat; }
    forall a: string, b: string | Chars(a) == Chars(b) ensures a == b { EachInjective(CharCode, a, b); }
  }

  function Maybe<T>(f: T -> Code, v: Option<T>): Code { Node(if v.Some? then [f(v.value)] else []) }

  lemma MaybeInjective<T(!new)>(f: T -> Code, a: Option<T>, b: Option<T>)
    requires OneToOne(f) && Maybe(f, a) == Maybe(f, b)
    ensures a == b
  {
    if a.Some? { assert Maybe(f, a).kids[0] == Maybe(f, b).kids[0]; }
  }

  /** A node says what its parts are. */
  lemma Parts(a: Code, b: Code)
    requires a.Node? && a == b
    ensures b.Node? && |a.kids| == |b.kids| && forall i | 0 <= i < |a.kids| :: a.kids[i] == b.kids[i]
  {
  }

  function KeyCode(k: Key): Code { Numbers(k) }

  lemma KeyCodeInjective()
    ensures OneToOne(KeyCode)
  {
    forall a: Key, b: Key | KeyCode(a) == KeyCode(b) ensures a == b { NumbersInjective(a, b); }
  }

  // ---------- claim versions ----------

  ghost function ValueCode(v: Value): Code {
    match v
    case Blob(b) => Node([Leaf(0), Numbers(b)])
    case Counter(n) => Node([Leaf(1), Whole(n)])
    case Set(s) => Node([Leaf(2), Each(KeyCode, InOrder(s))])
    case Bool(b) => Node([Leaf(3), Leaf(if b then 1 else 0)])
    case Text(t) => Node([Leaf(4), Chars(t)])
    case Number(bits) => Node([Leaf(5), Leaf(bits)])
  }

  lemma KeysInjective(s: set<Key>, t: set<Key>)
    requires Each(KeyCode, InOrder(s)) == Each(KeyCode, InOrder(t))
    ensures s == t
  {
    KeyCodeInjective();
    EachInjective(KeyCode, InOrder(s), InOrder(t));
    assert forall k :: k in s <==> k in InOrder(s);
    assert forall k :: k in t <==> k in InOrder(t);
  }

  lemma ValueInjective(a: Value, b: Value)
    requires ValueCode(a) == ValueCode(b)
    ensures a == b
  {
    Parts(ValueCode(a), ValueCode(b));
    assert ValueCode(a).kids[0] == ValueCode(b).kids[0] && ValueCode(a).kids[1] == ValueCode(b).kids[1];
    CharsInjective();
    match (a, b)
    case (Blob(x), Blob(y)) => NumbersInjective(x, y);
    case (Set(x), Set(y)) => KeysInjective(x, y);
    case _ =>
  }

  function TimeCode(t: MaybeTime): Code { Leaf(if t.Instant? then t.ms + 1 else 0) }

  function IntervalCode(i: Interval): Code { Node([TimeCode(i.start), TimeCode(i.end)]) }

  function SourceCode(s: SourceRef): Code { Node([Chars(s.system), Chars(s.recordId)]) }

  function MethodCode(m: Method): Code { Leaf(m.Rank()) }

  function StatusCode(s: ClaimStatus): Code {
    match s
    case Asserted => Leaf(0)
    case Superseded => Leaf(1)
    case Contradicted => Leaf(2)
    case Stale => Leaf(3)
    case Invalidated => Leaf(4)
    case Expired => Leaf(5)
  }

  lemma SmallInjective(i: Interval, j: Interval)
    requires IntervalCode(i) == IntervalCode(j)
    ensures i == j
  {
    Parts(IntervalCode(i), IntervalCode(j));
    assert TimeCode(i.start) == IntervalCode(i).kids[0] == IntervalCode(j).kids[0] == TimeCode(j.start);
    assert TimeCode(i.end) == IntervalCode(i).kids[1] == IntervalCode(j).kids[1] == TimeCode(j.end);
  }

  lemma SourceInjective()
    ensures OneToOne(SourceCode)
  {
    CharsInjective();
    forall a: SourceRef, b: SourceRef | SourceCode(a) == SourceCode(b) ensures a == b {
      Parts(SourceCode(a), SourceCode(b));
      assert Chars(a.system) == SourceCode(a).kids[0] == SourceCode(b).kids[0] == Chars(b.system);
      assert Chars(a.recordId) == SourceCode(a).kids[1] == SourceCode(b).kids[1] == Chars(b.recordId);
    }
  }

  ghost function VersionParts(v: Version): seq<Code> {
    var c := v.claim;
    [Leaf(v.seqNo), Chars(c.id), Chars(c.predicateName), Chars(c.subject), ValueCode(c.about), IntervalCode(c.valid),
     IntervalCode(c.known), Leaf(c.confidence), MethodCode(c.via), Chars(c.calibration), Each(SourceCode, c.evidence),
     StatusCode(c.status), Maybe(Chars, c.policy), Chars(c.actor)]
  }

  lemma VersionInjective(v: Version, w: Version)
    requires VersionParts(v) == VersionParts(w)
    ensures v == w
  {
    var (c, d, p, q) := (v.claim, w.claim, VersionParts(v), VersionParts(w));
    assert p[0] == q[0] && p[1] == q[1] && p[2] == q[2] && p[3] == q[3] && p[4] == q[4] && p[5] == q[5] && p[6] == q[6];
    assert p[7] == q[7] && p[8] == q[8] && p[9] == q[9] && p[10] == q[10] && p[11] == q[11] && p[12] == q[12];
    assert p[13] == q[13];
    CharsInjective();
    hide Chars, ValueCode, IntervalCode, Each, Maybe;
    ValueInjective(c.about, d.about);
    SmallInjective(c.valid, d.valid);
    SmallInjective(c.known, d.known);
    SourceInjective();
    EachInjective(SourceCode, c.evidence, d.evidence);
    MaybeInjective(Chars, c.policy, d.policy);
  }

  // ---------- the search index ----------

  function VecCode(v: HnswGraph.Vec): Code { Each(Whole, v) }

  lemma VecInjective()
    ensures OneToOne(VecCode)
  {
    forall a: HnswGraph.Vec, b: HnswGraph.Vec | VecCode(a) == VecCode(b) ensures a == b { EachInjective(Whole, a, b); }
  }

  function EntryCode(e: (Key, Option<HnswGraph.Vec>)): Code { Node([KeyCode(e.0), Maybe(VecCode, e.1)]) }

  function LinksCode(links: seq<Key>): Code { Each(KeyCode, links) }

  function NodeCode(n: HnswStore.Persisted): Code { Node([VecCode(n.vector), Each(LinksCode, n.links)]) }

  function MetaCode(m: HnswStore.StoreMeta): Code {
    Node([Maybe(KeyCode, m.entry), Leaf(m.maxLevel), Maybe(Count, m.dim)])
  }

  lemma EntryInjective(a: (Key, Option<HnswGraph.Vec>), b: (Key, Option<HnswGraph.Vec>))
    requires EntryCode(a) == EntryCode(b)
    ensures a == b
  {
    var (p, q) := (EntryCode(a).kids, EntryCode(b).kids);
    assert p[0] == q[0] && p[1] == q[1];
    KeyCodeInjective();
    VecInjective();
    MaybeInjective(VecCode, a.1, b.1);
  }

  lemma NodeInjective(a: HnswStore.Persisted, b: HnswStore.Persisted)
    requires NodeCode(a) == NodeCode(b)
    ensures a == b
  {
    var (p, q) := (NodeCode(a).kids, NodeCode(b).kids);
    assert p[0] == q[0] && p[1] == q[1];
    KeyCodeInjective();
    VecInjective();
    forall x: seq<Key>, y: seq<Key> | LinksCode(x) == LinksCode(y) ensures x == y { EachInjective(KeyCode, x, y); }
    EachInjective(LinksCode, a.links, b.links);
  }

  lemma MetaInjective(a: HnswStore.StoreMeta, b: HnswStore.StoreMeta)
    requires MetaCode(a) == MetaCode(b)
    ensures a == b
  {
    var (p, q) := (MetaCode(a).kids, MetaCode(b).kids);
    assert p[0] == q[0] && p[1] == q[1] && p[2] == q[2];
    KeyCodeInjective();
    MaybeInjective(KeyCode, a.entry, b.entry);
    MaybeInjective(Count, a.dim, b.dim);
  }

  // ---------- the codecs ----------

  /** There are codecs for versions of claims, and for entries, vectors, nodes and bookkeeping, that undo what they do;
      however names are spelled. */
  lemma StoreCodecsExist(utf8: string -> Key) returns (c: ClaimStore.Codec, a: AnnFold.Codec)
    ensures ClaimStore.Faithful(c) && c.utf8 == utf8 && AnnFold.Decodes(a)
  {
    var (version, entry) := ((v: Version) => Spell(Node(VersionParts(v))),
                             (e: (Key, Option<HnswGraph.Vec>)) => Spell(EntryCode(e)));
    var (vec, node, meta) := ((v: HnswGraph.Vec) => Spell(VecCode(v)), (n: HnswStore.Persisted) => Spell(NodeCode(n)),
                              (m: HnswStore.StoreMeta) => Spell(MetaCode(m)));
    forall x, y | version(x) == version(y) ensures x == y {
      SpellInjective(Node(VersionParts(x)), Node(VersionParts(y)));
      VersionInjective(x, y);
    }
    forall x, y | entry(x) == entry(y) ensures x == y {
      SpellInjective(EntryCode(x), EntryCode(y));
      EntryInjective(x, y);
    }
    forall x, y | vec(x) == vec(y) ensures x == y {
      SpellInjective(VecCode(x), VecCode(y));
      VecInjective();
    }
    forall x, y | node(x) == node(y) ensures x == y {
      SpellInjective(NodeCode(x), NodeCode(y));
      NodeInjective(x, y);
    }
    forall x, y | meta(x) == meta(y) ensures x == y {
      SpellInjective(MetaCode(x), MetaCode(y));
      MetaInjective(x, y);
    }
    c := ClaimStore.Codec.Codec(version, Undo(version), utf8);
    a := AnnFold.Codec.Codec((k, v) => entry((k, v)), Undo(entry), vec, Undo(vec), node, Undo(node), meta, Undo(meta));
  }
}
