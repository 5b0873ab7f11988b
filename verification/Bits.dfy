/** Unsigned machine arithmetic on unbounded naturals: powers of two, and bitwise "and" and "or" bit by bit. */
module Bits {
  const U32 := 0x1_0000_0000
  const U64 := 0x1_0000_0000_0000_0000

  function Wrap32(n: int): nat { n % U32 }

  function Wrap64(n: int): nat { n % U64 }

  lemma Fits32(n: nat)
    requires n < U32
    ensures Wrap32(n) == n
  {
  }

  lemma Fits64(n: nat)
    requires n < U64
    ensures Wrap64(n) == n
  {
  }

  function Pow2(k: nat): (p: nat)
    ensures p >= 1
  {
    if k == 0 then 1 else 2 * Pow2(k - 1)
  }

  lemma PowersOf32()
    ensures Pow2(31) == 0x8000_0000 && Pow2(32) == U32
  {
    assert Pow2(8) == 256;
    assert Pow2(16) == 65536;
    assert Pow2(24) == 0x100_0000;
    assert Pow2(31) == 0x8000_0000;
  }

  /** Products, quotients and remainders of two variables. Proofs hide these and go through the lemmas below. */
  function Times(a: nat, b: nat): nat { a * b }

  function Div(n: nat, d: nat): nat
    requires d >= 1
  {
    DivNonNegative(n, d);
    n / d
  }

  function Mod(n: nat, d: nat): (r: nat)
    requires d >= 1
    ensures r < d
  {
    n % d
  }

  lemma DivNonNegative(n: int, d: int)
    requires n >= 0 && d >= 1
    ensures n / d >= 0
  {
    assert n == (n / d) * d + n % d;
    if n / d < 0 {
      MulMono(n / d, -1, d);
    }
  }

  lemma ZeroTimes(n: nat)
    ensures Times(0, n) == 0
  {
  }

  lemma DivMod(n: nat, d: nat)
    requires d >= 1
    ensures n == Times(Div(n, d), d) + Mod(n, d)
  {
  }

  /** Euclidean division is unique. */
  lemma DivModIs(n: nat, d: nat, q: nat, r: nat)
    requires d >= 1 && n == Times(q, d) + r && r < d
    ensures Div(n, d) == q && Mod(n, d) == r
  {
    DivMod(n, d);
    var x := Div(n, d);
    hide Times, Div, Mod;
    if q > x {
      TimesMono(x + 1, q, d, d);
      TimesNext(x, d);
      assert false;
    } else if q < x {
      TimesMono(q + 1, x, d, d);
      TimesNext(q, d);
      assert false;
    }
  }

  lemma DivMono(a: nat, b: nat, d: nat)
    requires a <= b && d >= 1
    ensures Div(a, d) <= Div(b, d)
  {
    hide Times, Div, Mod;
    DivMod(a, d);
    DivMod(b, d);
    if Div(a, d) > Div(b, d) {
      TimesMono(Div(b, d) + 1, Div(a, d), d, d);
      TimesNext(Div(b, d), d);
      assert false;
    }
  }

  lemma TimesMono(a: nat, a': nat, b: nat, b': nat)
    requires a <= a' && b <= b'
    ensures Times(a, b) <= Times(a', b')
  {
    MulMono(a, a', b);
    MulMono(b, b', a');
  }

  lemma TimesNext(a: nat, b: nat)
    ensures Times(a + 1, b) == Times(a, b) + b
  {
  }

  lemma TimesCommutes(a: nat, b: nat)
    ensures Times(a, b) == Times(b, a)
  {
  }

  lemma TimesSum(a: nat, b: nat, c: nat)
    ensures Times(a, b + c) == Times(a, b) + Times(a, c)
  {
  }

  lemma TimesAssociates(a: nat, b: nat, c: nat)
    ensures Times(a, Times(b, c)) == Times(Times(a, b), c)
  {
  }

  lemma TimesSwap(a: nat, b: nat, c: nat)
    ensures Times(a, Times(b, c)) == Times(b, Times(a, c))
  {
    hide Times;
    TimesAssociates(a, b, c);
    TimesCommutes(a, b);
    TimesAssociates(b, a, c);
  }

  lemma MulMono(a: int, b: int, p: int)
    requires a <= b && p >= 0
    ensures a * p <= b * p
  {
  }

  function And(a: nat, b: nat): nat {
    if a == 0 || b == 0 then 0
    else (if a % 2 == 1 && b % 2 == 1 then 1 else 0) + 2 * And(a / 2, b / 2)
  }

  function Or(a: nat, b: nat): nat {
    if a == 0 then b else if b == 0 then a
    else (if a % 2 == 1 || b % 2 == 1 then 1 else 0) + 2 * Or(a / 2, b / 2)
  }

  function ShiftRight(n: nat, k: nat): nat {
    if k == 0 then n else ShiftRight(n / 2, k - 1)
  }

  /** Bit `i` of `n` is set. */
  predicate Bit(n: nat, i: nat) {
    if i == 0 then n % 2 == 1 else Bit(n / 2, i - 1)
  }

  lemma {:induction false} BitOfOr(a: nat, b: nat, i: nat)
    ensures Bit(Or(a, b), i) <==> Bit(a, i) || Bit(b, i)
  {
    if a == 0 {
      BitOfZero(i);
    } else if b == 0 {
      BitOfZero(i);
    } else if i > 0 {
      BitOfOr(a / 2, b / 2, i - 1);
    }
  }

  lemma {:induction false} BitOfZero(i: nat)
    ensures !Bit(0, i)
  {
    if i > 0 {
      BitOfZero(i - 1);
    }
  }

  lemma {:induction false} BitOfShift(n: nat, k: nat, i: nat)
    ensures Bit(ShiftRight(n, k), i) == Bit(n, i + k)
  {
    if k > 0 {
      BitOfShift(n / 2, k - 1, i);
    }
  }

  lemma {:induction false} OrBelow(a: nat, b: nat, k: nat)
    requires a < Pow2(k) && b < Pow2(k)
    ensures Or(a, b) < Pow2(k)
  {
    if a > 0 && b > 0 {
      OrBelow(a / 2, b / 2, k - 1);
    }
  }

  lemma {:induction false} ShiftBelow(n: nat, k: nat)
    ensures ShiftRight(n, k) <= n
  {
    if k > 0 {
      ShiftBelow(n / 2, k - 1);
    }
  }

  /** k ones and nothing above them. */
  lemma {:induction false} AllOnes(n: nat, k: nat)
    requires n < Pow2(k) && forall i :: 0 <= i < k ==> Bit(n, i)
    ensures n == Pow2(k) - 1
  {
    if k > 0 {
      forall i | 0 <= i < k - 1 ensures Bit(n / 2, i) {
        assert Bit(n, i + 1);
      }
      AllOnes(n / 2, k - 1);
      assert Bit(n, 0);
    }
  }

  lemma {:induction false} TopBit(n: nat, k: nat)
    requires Pow2(k) <= n < Pow2(k + 1)
    ensures Bit(n, k)
  {
    if k > 0 {
      TopBit(n / 2, k - 1);
    }
  }

  ghost predicate IsPow2(n: nat) {
    exists k: nat :: n == Pow2(k)
  }

  lemma {:induction false} AndSelf(n: nat)
    ensures And(n, n) == n
  {
    if n > 0 {
      AndSelf(n / 2);
    }
  }

  lemma HalfIsPow2(n: nat)
    requires n >= 2
    ensures IsPow2(n) <==> n % 2 == 0 && IsPow2(n / 2)
  {
    if IsPow2(n) {
      var k: nat :| n == Pow2(k);
      assert n == 2 * Pow2(k - 1);
    }
    if n % 2 == 0 && IsPow2(n / 2) {
      var k: nat :| n / 2 == Pow2(k);
      assert n == Pow2(k + 1);
    }
  }

  /** The usual test: n & (n - 1) is zero exactly for powers of two. */
  lemma {:induction false} Pow2Test(n: nat)
    requires n >= 1
    ensures And(n, n - 1) == 0 <==> IsPow2(n)
  {
    hide IsPow2, Pow2;
    if n == 1 {
      OneIsPow2();
    } else {
      HalfIsPow2(n);
      if n % 2 == 0 {
        Pow2Test(n / 2);
        assert (n - 1) / 2 == n / 2 - 1;
      } else {
        AndSelf(n / 2);
        assert (n - 1) / 2 == n / 2;
      }
    }
  }

  lemma OneIsPow2()
    ensures IsPow2(1)
  {
    assert 1 == Pow2(0);
  }

  /** Shifting right by k divides by 2^k. */
  lemma {:induction false} ShiftIsDiv(n: nat, k: nat)
    ensures ShiftRight(n, k) == Div(n, Pow2(k))
  {
    if k > 0 {
      ShiftIsDiv(n / 2, k - 1);
      HalfRemainder(n, Pow2(k - 1));
    }
  }

  /** Masking with 2^k - 1 is the remainder modulo 2^k. */
  lemma {:induction false} AndMask(n: nat, k: nat)
    ensures And(n, Pow2(k) - 1) == Mod(n, Pow2(k))
  {
    if n == 0 {
      DivModIs(0, Pow2(k), 0, 0);
    } else if k > 0 {
      AndMask(n / 2, k - 1);
      var p := Pow2(k - 1);
      assert (2 * p - 1) / 2 == p - 1 && (2 * p - 1) % 2 == 1;
      HalfRemainder(n, p);
    }
  }

  lemma HalfRemainder(n: nat, p: nat)
    requires p >= 1
    ensures Mod(n, 2 * p) == n % 2 + 2 * Mod(n / 2, p) && Div(n, 2 * p) == Div(n / 2, p)
  {
    hide Times, Div, Mod;
    var h := n / 2;
    DivMod(h, p);
    assert Times(Div(h, p), 2 * p) == 2 * Times(Div(h, p), p) by { TimesSum(Div(h, p), p, p); }
    DivModIs(n, 2 * p, Div(h, p), n % 2 + 2 * Mod(h, p));
  }

  /** Setting bit k above k ones gives k + 1 ones. */
  lemma {:induction false} OrNextBit(k: nat)
    ensures Or(Pow2(k) - 1, Pow2(k)) == Pow2(k + 1) - 1
  {
    if k > 0 {
      OrNextBit(k - 1);
      var p := Pow2(k - 1);
      assert (2 * p - 1) / 2 == p - 1 && (2 * p - 1) % 2 == 1 && (2 * p) / 2 == p;
    }
  }

  lemma {:induction false} Pow2Mono(a: nat, b: nat)
    requires a <= b
    ensures Pow2(a) <= Pow2(b)
  {
    if a < b {
      Pow2Mono(a, b - 1);
    }
  }
}
