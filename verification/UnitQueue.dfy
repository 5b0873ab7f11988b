/** The free stack and the requeue ring of I/O units, over arrays of unit numbers. */
module UnitQueue {
  import opened Bits
  import opened Options

  type Unit = nat

  // ---------------------------------------------------------------- ring size

  /** Bits lo..k-1 of `n` are set and nothing above them. */
  predicate OnesFrom(n: nat, lo: int, k: nat) {
    n < Pow2(k) && forall i :: 0 <= i < k && lo <= i ==> Bit(n, i)
  }

  /** One smearing step `n |= n >> j` doubles the run of ones at the top. */
  lemma Smear(n: nat, j: nat, k: nat)
    requires OnesFrom(n, k - j, k)
    ensures OnesFrom(Or(n, ShiftRight(n, j)), k - 2 * j, k)
  {
    var m := Or(n, ShiftRight(n, j));
    ShiftBelow(n, j);
    OrBelow(n, ShiftRight(n, j), k);
    forall i | 0 <= i < k && k - 2 * j <= i ensures Bit(m, i) {
      BitOfOr(n, ShiftRight(n, j), i);
      BitOfShift(n, j, i);
      assert i < k - j ==> Bit(n, i + j);
    }
  }

  /** `m` is the least power of two that is at least `n`. */
  ghost predicate LeastPow2(m: nat, n: nat) {
    IsPow2(m) && n <= m && forall p: nat :: IsPow2(p) && n <= p ==> m <= p
  }

  /** The size computed by io_u_rinit, in 32 bits: the next power of two, or 0 when that does not fit. */
  method RingSize(nr: nat) returns (max: nat)
    requires nr < U32
    ensures nr + 1 <= Pow2(31) ==> LeastPow2(max, nr + 1)
    ensures nr + 1 > Pow2(31) ==> max == 0
  {
    hide Pow2, Or, And, ShiftRight, Bit, LeastPow2, IsPow2, Wrap32;
    PowersOf32();
    max := Wrap32(nr + 1);
    RoundingTest(nr);
    if And(max, Wrap32(max - 1)) != 0 {
      max := Wrap32(max - 1);
      ghost var k := HighBit(nr);
      HighBitBelow(nr, k, 32);
      TopBit(nr, k);
      max := Or(max, ShiftRight(max, 1));
      max := Or(max, ShiftRight(max, 2));
      max := Or(max, ShiftRight(max, 4));
      max := Or(max, ShiftRight(max, 8));
      max := Or(max, ShiftRight(max, 16));
      SmearAll(nr, k);
      NextPow2(nr, k);
      max := Wrap32(max + 1);
      Rounded(nr, k, max);
    } else if nr + 1 < U32 {
      OwnPow2(max);
      Pow2Above(max);
    }
  }

  /** What the test before the rounding finds out. */
  lemma RoundingTest(nr: nat)
    requires nr < U32
    ensures nr + 1 == U32 ==> Wrap32(nr + 1) == 0 && And(0, Wrap32(0 - 1)) == 0
    ensures nr + 1 < U32 ==> Wrap32(nr + 1) == nr + 1 && Wrap32(nr + 1 - 1) == nr
    ensures nr + 1 < U32 ==> (And(nr + 1, nr) == 0 <==> IsPow2(nr + 1))
    ensures nr == 0 ==> IsPow2(nr + 1)
  {
    if nr == 0 {
      OneIsPow2();
    }
    Pow2Test(nr + 1);
  }

  lemma Rounded(nr: nat, k: nat, max: nat)
    requires Pow2(k) <= nr < Pow2(k + 1) && k < 32 && max == Wrap32(Pow2(k + 1) - 1 + 1)
    ensures k < 31 ==> max == Pow2(k + 1)
    ensures k < 31 <==> nr < Pow2(31)
    ensures k == 31 ==> max == 0
  {
    hide Pow2, Wrap32;
    PowersOf32();
    if k < 31 {
      Pow2Mono(k + 1, 31);
      Fits32(Pow2(k + 1));
    } else {
      assert Wrap32(U32) == 0 by { WholeWraps(); }
    }
  }

  lemma WholeWraps()
    ensures Wrap32(U32) == 0
  {
  }

  /** A power of two below 2^32 is at most 2^31. */
  lemma Pow2Above(p: nat)
    requires IsPow2(p) && p < U32
    ensures p <= Pow2(31)
  {
    hide Pow2;
    PowersOf32();
    var k: nat :| p == Pow2(k);
    if k <= 31 {
      Pow2Mono(k, 31);
    } else {
      Pow2Mono(32, k);
    }
  }

  lemma HighBitBelow(n: nat, k: nat, bits: nat)
    requires Pow2(k) <= n < Pow2(bits)
    ensures k < bits
  {
    hide Pow2;
    if k >= bits {
      Pow2Mono(bits, k);
    }
  }

  lemma OwnPow2(n: nat)
    requires IsPow2(n)
    ensures LeastPow2(n, n)
  {
  }

  ghost function HighBit(n: nat): (k: nat)
    requires n >= 1
    ensures Pow2(k) <= n < Pow2(k + 1)
  {
    if n == 1 then 0 else HighBit(n / 2) + 1
  }

  lemma SmearAll(n: nat, k: nat)
    requires Pow2(k) <= n < Pow2(k + 1) && Bit(n, k) && k < 32
    ensures var a := Or(n, ShiftRight(n, 1));
      var b := Or(a, ShiftRight(a, 2));
      var c := Or(b, ShiftRight(b, 4));
      var d := Or(c, ShiftRight(c, 8));
      Or(d, ShiftRight(d, 16)) == Pow2(k + 1) - 1
  {
    hide Bit, Or, ShiftRight, Pow2;
    var a := Or(n, ShiftRight(n, 1));
    var b := Or(a, ShiftRight(a, 2));
    var c := Or(b, ShiftRight(b, 4));
    var d := Or(c, ShiftRight(c, 8));
    var e := Or(d, ShiftRight(d, 16));
    Smear(n, 1, k + 1);
    Smear(a, 2, k + 1);
    Smear(b, 4, k + 1);
    Smear(c, 8, k + 1);
    Smear(d, 16, k + 1);
    AllOnes(e, k + 1);
  }

  /** A number that is not a power of two lies strictly between its highest bit and the next power. */
  lemma NextPow2(n: nat, k: nat)
    requires Pow2(k) <= n < Pow2(k + 1) && !IsPow2(n + 1)
    ensures LeastPow2(Pow2(k + 1), n + 1)
  {
    forall p: nat | IsPow2(p) && n + 1 <= p ensures Pow2(k + 1) <= p {
      var j: nat :| p == Pow2(j);
      if j <= k {
        Pow2Mono(j, k);
        assert false;
      }
      Pow2Mono(k + 1, j);
    }
  }

  // ---------------------------------------------------------------- the free stack

  class Stack {
    const max: nat
    var nr: nat
    const units: array<Unit>

    ghost predicate Valid()
      reads this, units
    {
      nr <= max == units.Length
    }

    ghost function Contents(): seq<Unit>
      requires Valid()
      reads this, units
    {
      units[..nr]
    }

    /** io_u_qempty. */
    predicate Empty(): (r: bool)
      requires Valid()
      reads this, units
      ensures r <==> Contents() == []
    {
      nr == 0
    }

    constructor (nr: nat)
      ensures Valid() && Contents() == [] && max == nr && fresh(units)
    {
      max, this.nr, units := nr, 0, new Unit[nr];
    }

    method Pop() returns (u: Option<Unit>)
      requires Valid()
      modifies this
      ensures Valid()
      ensures u == if old(Contents()) == [] then None else Some(old(Contents())[|old(Contents())| - 1])
      ensures Contents() == if u.None? then [] else old(Contents())[..|old(Contents())| - 1]
    {
      if nr != 0 {
        nr := nr - 1;
        return Some(units[nr]);
      }
      u := None;
    }

    /** `ok` is false where the code reaches assert(0). */
    method Push(u: Unit) returns (ok: bool)
      requires Valid()
      modifies this, units
      ensures Valid() && ok == (|old(Contents())| < max)
      ensures Contents() == if ok then old(Contents()) + [u] else old(Contents())
    {
      ok := nr < max;
      if ok {
        units[nr] := u;
        nr := nr + 1;
      }
    }
  }

  // ---------------------------------------------------------------- the requeue ring

  class Ring {
    const max: nat
    var head: nat
    var tail: nat
    const ring: array<Unit>

    ghost predicate Valid()
      reads this
    {
      IsPow2(max) && max < U32 && head < max == ring.Length && tail < max
    }

    ghost function Contents(): seq<Unit>
      requires Valid()
      reads this, ring
    {
      if tail <= head then ring[tail..head] else ring[tail..] + ring[..head]
    }

    /** io_u_rinit. */
    constructor (nr: nat)
      requires nr + 1 <= Pow2(31)
      ensures Valid() && Contents() == [] && LeastPow2(max, nr + 1) && nr + 1 <= max && fresh(ring) && tail == 0
    {
      PowersOf32();
      var size := RingSize(nr);
      max, head, tail, ring := size, 0, 0, new Unit[size];
      new;
      SizeBelow(nr + 1, size);
    }

    /** io_u_rempty. */
    predicate Empty(): (r: bool)
      requires Valid()
      reads this, ring
      ensures r <==> Contents() == []
    {
      head == tail
    }

    /** io_u_rpush; `ok` is false where the code reaches assert(0). The full test is not masked, so a push onto a full
        ring whose tail is at slot 0 is not caught: it empties the ring. A push onto a ring with a free slot besides
        the one kept open is exactly an append. */
    method Push(u: Unit) returns (ok: bool)
      requires Valid()
      modifies this, ring
      ensures Valid() && tail == old(tail)
      ensures |old(Contents())| < max - 1 ==> ok && Contents() == old(Contents()) + [u]
      ensures |old(Contents())| == max - 1 && tail != 0 ==> !ok && Contents() == old(Contents())
      ensures |old(Contents())| == max - 1 && tail == 0 ==> ok && Contents() == []
    {
      hide And, Wrap32, IsPow2;
      Fits32(head + 1);
      ok := Wrap32(head + 1) != tail;
      if ok {
        ring[head] := u;
        MaskIsMod(head + 1, max);
        head := And(Wrap32(head + 1), max - 1);
      }
    }

    method Pop() returns (u: Option<Unit>)
      requires Valid()
      modifies this
      ensures Valid() && ring[..] == old(ring[..])
      ensures u == if old(Contents()) == [] then None else Some(old(Contents())[0])
      ensures Contents() == if u.None? then [] else old(Contents())[1..]
    {
      hide And, Wrap32, IsPow2;
      if head != tail {
        u := Some(ring[tail]);
        MaskIsMod(tail + 1, max);
        tail := And(Wrap32(tail + 1), max - 1);
      } else {
        u := None;
      }
    }
  }

  /** A new ring with every slot but one in use, the tail still at slot 0. */
  method FullRing(nr: nat, u: Unit) returns (ring: Ring)
    requires nr + 1 <= Pow2(31)
    ensures ring.Valid() && fresh(ring) && fresh(ring.ring) && ring.max > nr && ring.tail == 0
    ensures ring.Contents() == seq(ring.max - 1, _ => u)
  {
    hide Pow2, IsPow2, LeastPow2, Ring.Contents;
    ring := new Ring(nr);
    for i := 0 to ring.max - 1
      invariant ring.Valid() && ring.tail == 0 && ring.Contents() == seq(i, _ => u)
    {
      var ok := ring.Push(u);
      assert ok;
    }
  }

  /** The failing input of the unmasked full test: one more push onto such a ring is let through and empties it. */
  method LostEntries(nr: nat, u: Unit) returns (ring: Ring, ghost full: seq<Unit>, ok: bool)
    requires nr + 1 <= Pow2(31)
    ensures ring.Valid() && fresh(ring) && fresh(ring.ring) && ring.max > nr
    ensures full == seq(ring.max - 1, _ => u) && ok && ring.Contents() == []
  {
    hide Pow2, IsPow2, Ring.Contents;
    ring := FullRing(nr, u);
    full := ring.Contents();
    ok := ring.Push(u);
  }

  lemma SizeBelow(n: nat, m: nat)
    requires LeastPow2(m, n) && n <= Pow2(31)
    ensures m < U32
  {
    PowersOf32();
    assert IsPow2(Pow2(31));
  }

  /** For an index that has moved one past a slot, masking is wrapping to the start. */
  lemma MaskIsMod(i: nat, max: nat)
    requires IsPow2(max) && 1 <= i <= max < U32
    ensures And(Wrap32(i), max - 1) == if i == max then 0 else i
  {
    var k: nat :| max == Pow2(k);
    hide Pow2, And, Times, Div, Mod, Wrap32;
    Fits32(i);
    AndMask(i, k);
    ZeroTimes(max);
    if i == max {
      TimesNext(0, max);
      DivModIs(i, max, 1, 0);
    } else {
      DivModIs(i, max, 0, i);
    }
  }
}
