/** Floating-point words: stored and compared as their bits, and what a 64-bit one stands for. */
module Floats {
  type F64 = bits: int | 0 <= bits < 0x1_0000_0000_0000_0000

  datatype Float = NotANumber | Infinite(negative: bool) | Finite(value: real)

  function PowerOfTwo(e: int): real
    decreases if e < 0 then -e else e
  {
    if e == 0 then 1.0 else if e > 0 then 2.0 * PowerOfTwo(e - 1) else PowerOfTwo(e + 1) / 2.0
  }

  const FRACTIONS := 0x10_0000_0000_0000

  /** Eleven bits of exponent and fifty-two of fraction, as a number. */
  function Magnitude(exponent: nat, fraction: nat): real {
    if exponent == 0 then fraction as real * PowerOfTwo(-1074)
    else (fraction + FRACTIONS) as real * PowerOfTwo(exponent - 1075)
  }

  /** Sign, exponent and fraction: binary64 of IEEE 754. */
  function Meaning(b: F64): Float {
    var negative, exponent, fraction := b >= 0x8000_0000_0000_0000, b / FRACTIONS % 0x800, b % FRACTIONS;
    if exponent == 0x7ff then (if fraction == 0 then Infinite(negative) else NotANumber)
    else
      var size := Magnitude(exponent, fraction);
      Finite(if negative then -size else size)
  }

  // ---------- the order of words ----------

  lemma Doubled(e: int)
    ensures PowerOfTwo(e + 1) == 2.0 * PowerOfTwo(e)
    decreases if e < 0 then -e else e
  {
    if e < -1 { Doubled(e + 1); }
  }

  lemma Positive(e: int)
    ensures PowerOfTwo(e) > 0.0
    decreases if e < 0 then -e else e
  {
    if e > 0 { Positive(e - 1); } else if e < 0 { Positive(e + 1); }
  }

  lemma OneMore(n: nat, p: real)
    requires p > 0.0
    ensures (n + 1) as real * p == n as real * p + p > n as real * p
  {
    assert (n + 1) as real == n as real + 1.0;
  }

  /** The next fraction is larger, and after the last one the next exponent is. */
  lemma NextLarger(exponent: nat, fraction: nat)
    requires fraction < FRACTIONS
    ensures Magnitude(exponent, fraction)
            < if fraction + 1 == FRACTIONS then Magnitude(exponent + 1, 0) else Magnitude(exponent, fraction + 1)
  {
    var p := PowerOfTwo(if exponent == 0 then -1074 else exponent - 1075);
    Positive(if exponent == 0 then -1074 else exponent - 1075);
    var n := if exponent == 0 then fraction else fraction + FRACTIONS;
    OneMore(n, p);
    if exponent > 0 && fraction + 1 == FRACTIONS {
      Doubled(exponent - 1075);
      hide PowerOfTwo;
      TwiceHalf(FRACTIONS as real, p);
    }
  }

  lemma TwiceHalf(x: real, p: real)
    ensures x * (2.0 * p) == (x + x) * p
  {
  }

  /** The words of positive finite numbers. */
  predicate Plain(b: int) { 0 <= b < 0x7ff0_0000_0000_0000 }

  function Size(b: int): real
    requires b >= 0
  {
    Magnitude(b / FRACTIONS, b % FRACTIONS)
  }

  lemma NextWord(b: int)
    requires Plain(b) && Plain(b + 1)
    ensures Size(b) < Size(b + 1)
  {
    hide Magnitude;
    NextLarger(b / FRACTIONS, b % FRACTIONS);
    Divided(b);
  }

  lemma Divided(b: nat)
    ensures var (e, f) := (b / FRACTIONS, b % FRACTIONS);
            ((b + 1) / FRACTIONS, (b + 1) % FRACTIONS) == if f + 1 == FRACTIONS then (e + 1, 0) else (e, f + 1)
  {
  }

  /** **Positive words mean numbers in their own order.** */
  lemma {:induction false} WordsInOrder(a: int, b: int)
    requires Plain(a) && Plain(b) && a < b
    ensures Size(a) < Size(b)
    decreases b - a
  {
    hide Size;
    NextWord(b - 1);
    if a < b - 1 { WordsInOrder(a, b - 1); }
  }

  /** The top bit is the sign; beyond the finite words lie the infinite ones, and those that are not numbers. */
  lemma Signed(b: F64, negative: bool)
    requires b < 0x8000_0000_0000_0000
    ensures Meaning(if negative then b + 0x8000_0000_0000_0000 else b)
            == if Plain(b) then Finite(if negative then -Size(b) else Size(b))
               else if b == 0x7ff0_0000_0000_0000 then Infinite(negative) else NotANumber
  {
    hide Magnitude;
    assert b / FRACTIONS < 0x800;
    if negative {
      assert b + 0x8000_0000_0000_0000 == FRACTIONS * (b / FRACTIONS + 0x800) + b % FRACTIONS;
      Quotient(b / FRACTIONS + 0x800, b % FRACTIONS);
      assert (b / FRACTIONS + 0x800) % 0x800 == b / FRACTIONS;
    }
  }

  lemma Quotient(q: nat, r: nat)
    requires r < FRACTIONS
    ensures (FRACTIONS * q + r) / FRACTIONS == q && (FRACTIONS * q + r) % FRACTIONS == r
  {
  }

  // ---------- its scale ----------

  /** The words of nought and one. */
  lemma NoughtAndOne()
    ensures Meaning(0) == Finite(0.0) && Meaning(0x3ff0_0000_0000_0000) == Finite(1.0)
  {
    hide PowerOfTwo;
    FractionsAre();
    HalvedOften(52);
    assert 0x3ff0_0000_0000_0000 / FRACTIONS == 0x3ff && 0x3ff0_0000_0000_0000 % FRACTIONS == 0;
    assert Magnitude(0x3ff, 0) == FRACTIONS as real * PowerOfTwo(-52);
  }

  lemma FractionsAre()
    ensures TwoTo(52) == FRACTIONS
  {
    Together(13, 13);
    Together(26, 26);
    assert TwoTo(13) == 0x2000;
  }

  lemma {:induction false} Together(m: nat, n: nat)
    ensures TwoTo(m + n) == TwoTo(m) * TwoTo(n)
  {
    if n > 0 { Together(m, n - 1); }
  }

  function TwoTo(n: nat): nat { if n == 0 then 1 else 2 * TwoTo(n - 1) }

  lemma {:induction false} HalvedOften(n: nat)
    ensures TwoTo(n) as real * PowerOfTwo(0 - n) == 1.0
  {
    if n > 0 {
      HalvedOften(n - 1);
      assert PowerOfTwo(0 - n) == PowerOfTwo(1 - n) / 2.0;
      assert TwoTo(n) as real == 2.0 * TwoTo(n - 1) as real;
      hide PowerOfTwo, TwoTo;
      Cancel(TwoTo(n - 1) as real, PowerOfTwo(1 - n));
    }
  }

  lemma Cancel(x: real, p: real)
    ensures 2.0 * x * (p / 2.0) == x * p
  {
  }
}
