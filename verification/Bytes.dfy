/** Byte strings: the lexicographic order tree keys are compared by, and prefixes. */
module Bytes {
  type Byte = n: int | 0 <= n < 256
  type Key = seq<Byte>

  /** Lexicographic "strictly before", the order of Rust's byte slices. */
  predicate Less(a: Key, b: Key) {
    b != [] && (a == [] || a[0] < b[0] || (a[0] == b[0] && Less(a[1..], b[1..])))
  }

  lemma {:induction false} LessTransitive(a: Key, b: Key, c: Key)
    requires Less(a, b) && Less(b, c)
    ensures Less(a, c)
  {
    if a != [] && a[0] == b[0] && b[0] == c[0] { LessTransitive(a[1..], b[1..], c[1..]); }
  }

  lemma {:induction false} LessTotal(a: Key, b: Key)
    ensures !Less(a, a)
    ensures Less(a, b) || a == b || Less(b, a)
    ensures !(Less(a, b) && Less(b, a))
  {
    if a != [] {
      LessTotal(a[1..], if b == [] then [] else b[1..]);
      if b != [] && a[0] == b[0] {
        assert a == [a[0]] + a[1..] && b == [b[0]] + b[1..];
      }
    }
  }

  /** Less is a strict total order. */
  lemma LessOrder()
    ensures forall a: Key :: !Less(a, a)
    ensures forall a: Key, b: Key {:trigger Less(a, b)} :: Less(a, b) || a == b || Less(b, a)
    ensures forall a: Key, b: Key, c: Key {:trigger Less(a, b), Less(b, c)} ::
              Less(a, b) && Less(b, c) ==> Less(a, c)
  {
    forall a: Key, b: Key ensures !Less(a, a) && (Less(a, b) || a == b || Less(b, a)) { LessTotal(a, b); }
    forall a: Key, b: Key, c: Key | Less(a, b) && Less(b, c) ensures Less(a, c) { LessTransitive(a, b, c); }
  }

  predicate StartsWith(k: Key, prefix: Key) { |prefix| <= |k| && k[..|prefix|] == prefix }

  lemma {:induction false} LessConcat(p: Key, a: Key, b: Key)
    ensures Less(p + a, p + b) <==> Less(a, b)
  {
    if p == [] {
      assert p + a == a && p + b == b;
    } else {
      assert (p + a)[1..] == p[1..] + a && (p + b)[1..] == p[1..] + b;
      LessConcat(p[1..], a, b);
    }
  }

  /** Strings of one length that differ already are ordered whatever follows. */
  lemma {:induction false} LessExtend(a: Key, b: Key, u: Key, v: Key)
    requires Less(a, b) && |a| == |b|
    ensures Less(a + u, b + v)
  {
    if a[0] == b[0] {
      LessExtend(a[1..], b[1..], u, v);
      assert (a + u)[1..] == a[1..] + u && (b + v)[1..] == b[1..] + v;
    }
  }

  // ---------- big-endian words ----------

  function Pow256(w: nat): nat { if w == 0 then 1 else 256 * Pow256(w - 1) }

  function ToBe(n: nat, w: nat): (b: Key)
    ensures |b| == w
  {
    if w == 0 then [] else ToBe(n / 256, w - 1) + [n % 256]
  }

  /** Big-endian words sort as the numbers they encode. */
  lemma {:induction false} BeOrder(m: nat, n: nat, w: nat)
    requires m < Pow256(w) && n < Pow256(w)
    ensures Less(ToBe(m, w), ToBe(n, w)) <==> m < n
    ensures ToBe(m, w) == ToBe(n, w) <==> m == n
    decreases w
  {
    if m > n {
      BeBefore(n, m, w);
      LessTotal(ToBe(m, w), ToBe(n, w));
    } else if m < n {
      BeBefore(m, n, w);
      LessTotal(ToBe(m, w), ToBe(n, w));
    } else {
      LessTotal(ToBe(m, w), ToBe(n, w));
    }
  }

  lemma {:induction false} BeBefore(m: nat, n: nat, w: nat)
    requires m < n < Pow256(w)
    ensures Less(ToBe(m, w), ToBe(n, w))
  {
    var p, q := ToBe(m / 256, w - 1), ToBe(n / 256, w - 1);
    assert m == 256 * (m / 256) + m % 256 && n == 256 * (n / 256) + n % 256;
    if m / 256 < n / 256 {
      BeBefore(m / 256, n / 256, w - 1);
      LessExtend(p, q, [m % 256], [n % 256]);
    } else {
      LessConcat(p, [m % 256], [n % 256]);
    }
  }

  /** One past the largest 64-bit word. */
  const MAX_SEQ: nat := 0x1_0000_0000_0000_0000

  lemma MaxSeq()
    ensures MAX_SEQ == Pow256(8)
  {
    assert Pow256(4) == 0x1_0000_0000;
    assert Pow256(8) == 256 * (256 * (256 * (256 * Pow256(4))));
  }
}
