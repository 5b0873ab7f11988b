/** The byte FIFO with free-running 32-bit indices over a buffer of power-of-two size. */
module Fifo {
  import opened Bits

  type Byte = b: nat | b < 256

  /** `len` bytes of a buffer from position `start`, going round at its end. */
  function Circular(buffer: seq<Byte>, start: nat, len: nat): (r: seq<Byte>)
    requires start < |buffer| && len <= |buffer|
    ensures |r| == len
  {
    if start + len <= |buffer| then buffer[start..start + len]
    else buffer[start..] + buffer[..start + len - |buffer|]
  }

  function Around(pos: nat, size: nat): nat
    requires pos < 2 * size
  {
    if pos < size then pos else pos - size
  }

  lemma CircularAt(buffer: seq<Byte>, start: nat, len: nat, i: nat)
    requires start < |buffer| && i < len <= |buffer|
    ensures Circular(buffer, start, len)[i] == buffer[Around(start + i, |buffer|)]
  {
  }

  lemma SizeDividesU32(size: nat, k: nat)
    requires size == Pow2(k) && k <= 32
    ensures Mod(U32, size) == 0 && exists m: nat :: U32 == Times(m, size)
  {
    PowSplit(k, 32 - k);
    PowersOf32();
    var m := Pow2(32 - k);
    assert U32 == Times(m, size);
    DivModIs(U32, size, m, 0);
  }

  lemma {:induction false} PowSplit(a: nat, b: nat)
    ensures Pow2(a + b) == Times(Pow2(b), Pow2(a))
  {
    if b > 0 {
      PowSplit(a, b - 1);
      assert Times(2 * Pow2(b - 1), Pow2(a)) == 2 * Times(Pow2(b - 1), Pow2(a));
    }
  }

  lemma ModShift(n: nat, m: nat, size: nat)
    requires size >= 1
    ensures Mod(n + Times(m, size), size) == Mod(n, size)
  {
    hide Times, Div, Mod;
    DivMod(n, size);
    TimesCommutes(Div(n, size) + m, size);
    TimesSum(size, Div(n, size), m);
    TimesCommutes(size, Div(n, size));
    TimesCommutes(size, m);
    DivModIs(n + Times(m, size), size, Div(n, size) + m, Mod(n, size));
  }

  lemma ModAdvance(n: nat, len: nat, size: nat)
    requires size >= 1 && len <= size
    ensures Mod(n + len, size) == Around(Mod(n, size) + len, size)
  {
    hide Times, Div, Mod;
    DivMod(n, size);
    var r := Mod(n, size) + len;
    if r < size {
      DivModIs(n + len, size, Div(n, size), r);
    } else {
      TimesNext(Div(n, size), size);
      DivModIs(n + len, size, Div(n, size) + 1, r - size);
    }
  }

  /** Advancing an index modulo 2^32 advances its buffer position, also across the wrap-around of the index. */
  lemma Advance(n: nat, len: nat, size: nat, k: nat)
    requires size == Pow2(k) && k <= 31 && n < U32 && len <= size
    ensures Mod(Wrap32(n + len), size) == Around(Mod(n, size) + len, size)
  {
    ModAdvance(n, len, size);
    SizeDividesU32(size, k);
    Pow2Mono(k, 32);
    PowersOf32();
    if n + len >= U32 {
      var m: nat :| U32 == Times(m, size);
      ModShift(n + len - U32, m, size);
    }
  }

  /** Masking with `m` leaves every number up to `m` alone. */
  ghost predicate MaskKeeps(m: nat) {
    forall i: nat :: i <= m ==> And(i, m) == i
  }

  lemma {:induction false} MaskOnlyPow2(m: nat)
    requires MaskKeeps(m)
    ensures IsPow2(m + 1)
  {
    if m == 0 {
      OneIsPow2();
    } else {
      assert And(1, m) == 1;
      forall i: nat | i <= m / 2 ensures And(i, m / 2) == i {
        assert And(2 * i, m) == 2 * i;
      }
      MaskOnlyPow2(m / 2);
      HalfIsPow2(m + 1);
    }
  }

  /** Masking with size - 1 leaves every slot number alone, so that the buffer is used in order, if and only if the size
      is a power of two. */
  lemma SizeExactly(size: nat)
    requires size >= 1
    ensures MaskKeeps(size - 1) <==> IsPow2(size)
  {
    hide And, Pow2, Times, Div, Mod;
    if MaskKeeps(size - 1) {
      MaskOnlyPow2(size - 1);
    }
    if IsPow2(size) {
      var k: nat :| size == Pow2(k);
      var m := size - 1;
      forall i: nat | i <= m ensures And(i, m) == i {
        AndMask(i, k);
        ZeroTimes(size);
        DivModIs(i, size, 0, i);
      }
    }
  }

  function Min(a: nat, b: nat): nat { if a < b then a else b }

  /** Dropping `n` bytes from the front moves the start. */
  lemma CircularDrop(buffer: seq<Byte>, start: nat, len: nat, n: nat)
    requires start < |buffer| && n <= len <= |buffer|
    ensures Around(start + n, |buffer|) < |buffer|
    ensures Circular(buffer, Around(start + n, |buffer|), len - n) == Circular(buffer, start, len)[n..]
    ensures Circular(buffer, start, n) == Circular(buffer, start, len)[..n]
  {
  }

  /** Position `p` is one of the `n` positions from `at` on, going round at the end. */
  predicate InRegion(p: nat, at: nat, n: nat, size: nat) {
    at <= p < at + n || p + size < at + n
  }

  /** The buffer after `data` has been copied to position `at`, going round at the end. */
  ghost predicate Copied(was: seq<Byte>, now: seq<Byte>, at: nat, data: seq<Byte>) {
    && |now| == |was| && at < |was| && |data| <= |was|
    && (forall p :: 0 <= p < |was| && !InRegion(p, at, |data|, |was|) ==> now[p] == was[p])
    && Circular(now, at, |data|) == data
  }

  lemma CircularKept(was: seq<Byte>, now: seq<Byte>, start: nat, len: nat, data: seq<Byte>)
    requires start < |was| && len + |data| <= |was|
    requires Copied(was, now, Around(start + len, |was|), data)
    ensures Circular(now, start, len) == Circular(was, start, len)
  {
    hide Circular;
    forall i | 0 <= i < len ensures Circular(now, start, len)[i] == Circular(was, start, len)[i] {
      CircularAt(was, start, len, i);
      CircularAt(now, start, len, i);
      assert !InRegion(Around(start + i, |was|), Around(start + len, |was|), |data|, |was|);
    }
  }

  /** Copying behind the contents appends. */
  lemma CircularAppend(was: seq<Byte>, now: seq<Byte>, start: nat, len: nat, data: seq<Byte>)
    requires start < |was| && len + |data| <= |was|
    requires Copied(was, now, Around(start + len, |was|), data)
    ensures Circular(now, start, len + |data|) == Circular(was, start, len) + data
  {
    hide Circular;
    CircularDrop(now, start, len + |data|, len);
    CircularKept(was, now, start, len, data);
    var all := Circular(now, start, len + |data|);
    assert all == all[..len] + all[len..];
  }

  class Queue {
    const size: nat
    ghost const k: nat  // size == 2^k
    const buffer: array<Byte>
    var inIdx: nat   // data is added at inIdx % size
    var outIdx: nat  // data is extracted at outIdx % size

    ghost predicate Valid()
      reads this
    {
      && k <= 31 && size == Pow2(k)
      && buffer.Length == size && inIdx < U32 && outIdx < U32 && Len() <= size
    }

    /** fifo_len. */
    function Len(): nat
      reads this
    {
      Wrap32(inIdx - outIdx)
    }

    /** fifo_room. */
    function Room(): nat
      reads this
    {
      Wrap32(Wrap32(size - inIdx) + outIdx)
    }

    ghost function Start(): (p: nat)
      reads this
      requires Valid()
      ensures p < size
    {
      Mod(outIdx, size)
    }

    ghost function Contents(): seq<Byte>
      reads this, buffer
      requires Valid()
    {
      Circular(buffer[..], Start(), Len())
    }

    constructor (ghost k: nat, size: nat)
      requires k <= 31 && size == Pow2(k)
      ensures Valid() && Contents() == [] && this.size == size && fresh(buffer)
    {
      this.size, this.k, inIdx, outIdx := size, k, 0, 0;
      buffer := new Byte[size];
    }

    lemma SizeBound()
      requires Valid()
      ensures 1 <= size < U32
    {
      Pow2Mono(k, 31);
      PowersOf32();
    }

    /** Length and room add up to the size, whatever the indices have wrapped to. */
    lemma RoomIsRest()
      requires Valid()
      ensures Room() == size - Len()
    {
      SizeBound();
      RoomArithmetic(size, inIdx, outIdx);
    }

    lemma InPosition()
      requires Valid()
      ensures size >= 1 && And(inIdx, size - 1) == Mod(inIdx, size) == Around(Start() + Len(), size)
      ensures And(outIdx, size - 1) == Start()
    {
      hide Pow2, And, Mod, Wrap32, Around;
      OutPlusLen(inIdx, outIdx);
      AndMask(inIdx, k);
      AndMask(outIdx, k);
      Advance(outIdx, Len(), size, k);
    }

    /** fifo_put: appends as much of `data` as there is room for. */
    method Put(data: seq<Byte>) returns (n: nat)
      requires Valid() && |data| < U32
      modifies this, buffer
      ensures Valid() && n == Min(|data|, old(size - Len()))
      ensures Contents() == old(Contents()) + data[..n]
    {
      hide Pow2, And, Mod, Wrap32, Circular;
      RoomIsRest();
      InPosition();
      SizeBound();
      n := Min(|data|, Room());
      ghost var was, start, len := buffer[..], Start(), Len();
      var at := And(inIdx, size - 1);
      CopyIn(at, data[..n]);
      LenGrows(inIdx, outIdx, n, size);
      inIdx := Wrap32(inIdx + n);
      CircularAppend(was, buffer[..], start, len, data[..n]);
    }

    /** The two memcpy calls: up to the end of the buffer, then from its beginning. */
    method CopyIn(at: nat, data: seq<Byte>)
      requires at < size == buffer.Length && |data| <= size
      modifies buffer
      ensures Copied(old(buffer[..]), buffer[..], at, data)
    {
      var l := Min(|data|, size - at);
      forall i | 0 <= i < l {
        buffer[at + i] := data[i];
      }
      forall i | 0 <= i < |data| - l {
        buffer[i] := data[l + i];
      }
      if l == |data| {
        assert buffer[at..at + l] == data;
      } else {
        assert buffer[at..] == data[..l] && buffer[..|data| - l] == data[l..];
      }
    }

    /** The two memcpy calls of fifo_get. */
    method CopyOut(n: nat) returns (data: seq<Byte>)
      requires Valid() && n <= Len()
      ensures data == Contents()[..n]
    {
      hide Pow2, And, Mod, Wrap32;
      InPosition();
      var at := And(outIdx, size - 1);
      var l := Min(n, size - at);
      data := buffer[at..at + l] + buffer[..n - l];
      CircularDrop(buffer[..], Start(), Len(), n);
    }

    method Skip(n: nat)
      requires Valid() && n <= Len()
      modifies this
      ensures Valid() && Contents() == old(Contents())[n..]
    {
      hide Pow2, And, Mod, Wrap32, Circular, Around;
      CircularDrop(buffer[..], Start(), Len(), n);
      Advance(outIdx, n, size, k);
      LenShrinks(inIdx, outIdx, n);
      outIdx := Wrap32(outIdx + n);
    }

    /** fifo_get: takes up to `len` bytes from the front; `data` is left empty when they are only discarded. */
    method Get(len: nat, discard: bool) returns (n: nat, data: seq<Byte>)
      requires Valid() && len < U32
      modifies this
      ensures Valid() && n == Min(len, |old(Contents())|)
      ensures Contents() == old(Contents())[n..]
      ensures data == if discard then [] else old(Contents())[..n]
    {
      hide Pow2, And, Mod, Wrap32, Circular, Around;
      n := Min(len, Len());
      data := [];
      if !discard {
        data := CopyOut(n);
      }
      Skip(n);
      RestartIfEmpty();
    }

    method RestartIfEmpty()
      requires Valid()
      modifies this
      ensures Valid() && Contents() == old(Contents())
    {
      hide Pow2, Wrap32, Mod;
      if inIdx == outIdx {
        EmptyAtZero(size);
        NoLength(inIdx);
        inIdx, outIdx := 0, 0;
      }
    }
  }

  lemma RoomArithmetic(size: nat, i: nat, o: nat)
    requires size < U32 && Wrap32(i - o) <= size
    ensures Wrap32(Wrap32(size - i) + o) == size - Wrap32(i - o)
  {
  }

  lemma OutPlusLen(i: nat, o: nat)
    requires i < U32 && o < U32
    ensures Wrap32(o + Wrap32(i - o)) == i
  {
  }

  lemma LenGrows(i: nat, o: nat, n: nat, size: nat)
    requires i < U32 && o < U32 && Wrap32(i - o) + n <= size < U32
    ensures Wrap32(Wrap32(i + n) - o) == Wrap32(i - o) + n && Wrap32(i + n) < U32
  {
  }

  lemma LenShrinks(i: nat, o: nat, n: nat)
    requires i < U32 && o < U32 && n <= Wrap32(i - o)
    ensures Wrap32(i - Wrap32(o + n)) == Wrap32(i - o) - n && Wrap32(o + n) < U32
  {
  }

  lemma NoLength(i: nat)
    ensures Wrap32(i - i) == 0 && Wrap32(0) == 0
  {
  }

  lemma EmptyAtZero(size: nat)
    requires size >= 1
    ensures Mod(0, size) == 0
  {
  }
}
