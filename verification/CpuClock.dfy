/** The CPU clock: calibration of a multiplier and two shifts, and the conversion of cycles to nanoseconds. */
module CpuClock {
  import opened Bits

  const MAX_CLOCK_SEC := 60 * 60

  datatype Calibration = Calibration(shift: nat, mult: nat, cyclesShift: nat, mask: nat, nsecsForMaxCycles: nat)

  /** The largest multiplier that an hour of cycles can be multiplied by in 64 bits. */
  function MaxMult(c: nat): nat
    requires c >= 1
  {
    Div(U64 - 1, MAX_CLOCK_SEC * 1000 * c)
  }

  /** What calibration promises for a clock of `c` cycles per millisecond: the multiplier is the rounded-down
      nanoseconds per cycle scaled by 2^shift, the shift is the largest that keeps it within the largest multiplier,
      and no product of it with a masked cycle count exceeds 64 bits. */
  predicate Calibrated(c: nat, k: Calibration) {
    && 1 <= c
    && Times(k.mult, c) <= Pow2(k.shift) * 1000000 < Times(k.mult + 1, c)
    && Pow2(k.shift) * 1000000 <= Times(MaxMult(c), c) < 2 * Pow2(k.shift) * 1000000
    && Times(Pow2(k.cyclesShift), k.mult) < U64
    && Pow2(k.cyclesShift) <= MAX_CLOCK_SEC * 1000 * c < 2 * Pow2(k.cyclesShift)
    && k.mask == Pow2(k.cyclesShift) - 1
    && k.nsecsForMaxCycles == Div(Times(Pow2(k.cyclesShift), k.mult), Pow2(k.shift))
  }

  /** Counts how often a number can be halved before it is 1: the position of its highest set bit. */
  method HighestBit(n: nat) returns (k: nat)
    requires n >= 1
    ensures Pow2(k) <= n < 2 * Pow2(k)
  {
    var tmp := n;
    k := 0;
    while tmp > 1
      invariant tmp >= 1 && tmp * Pow2(k) <= n < (tmp + 1) * Pow2(k)
    {
      Halve(tmp, Pow2(k));
      tmp := tmp / 2;
      k := k + 1;
    }
  }

  lemma Halve(n: nat, p: nat)
    ensures (n / 2) * (2 * p) <= n * p && (n + 1) * p <= (n / 2 + 1) * (2 * p)
  {
    MulMono(2 * (n / 2), n, p);
    MulMono(n + 1, 2 * (n / 2 + 1), p);
  }

  /** The mask loop: one bit per position below `k`. */
  method OnesBelow(k: nat) returns (mask: nat)
    ensures mask == Pow2(k) - 1
  {
    mask := 0;
    for tmp := 0 to k
      invariant mask == Pow2(tmp) - 1
    {
      OrNextBit(tmp);
      mask := Or(mask, Pow2(tmp));
    }
  }

  /** The arithmetic of calibrate_cpu_clock after `cycles_per_msec` is known, in 64 bits. */
  method Calibrate(c: nat) returns (k: Calibration)
    requires 1 <= c && MAX_CLOCK_SEC * 1000 * c < U64
    ensures Calibrated(c, k)
  {
    hide Pow2, Times, Div, Wrap64, ShiftRight;
    Fits64(MAX_CLOCK_SEC * c);
    Fits64(MAX_CLOCK_SEC * c * 1000);
    var maxTicks := Wrap64(Wrap64(MAX_CLOCK_SEC * c) * 1000);
    var maxMult := Div(U64 - 1, maxTicks);
    MultiplierRoom(c, maxMult);
    Fits64(Times(maxMult, c));
    var tmp := Wrap64(Times(maxMult, c)) / 1000000;
    var sft := HighestBit(tmp);
    var mult := Div(Wrap64(Pow2(sft) * 1000000), c);
    MultiplierFits(c, maxMult, Pow2(sft), mult);

    Fits64(MAX_CLOCK_SEC * 1000);
    tmp := Wrap64(Wrap64(MAX_CLOCK_SEC * 1000) * c);
    var cyclesShift := HighestBit(tmp);
    TimesMono(Pow2(cyclesShift), maxTicks, mult, maxMult);
    Fits64(Times(Pow2(cyclesShift), mult));
    var nsecs := ShiftRight(Wrap64(Times(Pow2(cyclesShift), mult)), sft);
    ShiftIsDiv(Times(Pow2(cyclesShift), mult), sft);
    var mask := OnesBelow(cyclesShift);
    k := Calibration(sft, mult, cyclesShift, mask, nsecs);
  }

  /** The largest multiplier is big enough that the search for a shift starts above zero. */
  lemma MultiplierRoom(c: nat, maxMult: nat)
    requires 1 <= c && 3600000 * c < U64 && maxMult == MaxMult(c)
    ensures Times(3600000 * c, maxMult) < U64
    ensures 1000000 <= Times(maxMult, c) < U64
  {
    hide Times, Div, Mod;
    var d := 3600000 * c;
    DivMod(U64 - 1, d);
    TimesCommutes(maxMult, d);
    if maxMult == 0 {
      ZeroTimes(d);
    }
    TimesMono(1, maxMult, d, d);
    OneTimes(d);
    HourOfCycles(maxMult, c);
  }

  lemma OneTimes(d: nat)
    ensures Times(1, d) == d
  {
  }

  lemma HourOfCycles(m: nat, c: nat)
    ensures Times(m, 3600000 * c) == 3600000 * Times(m, c)
  {
  }

  lemma MultiplierFits(c: nat, maxMult: nat, p: nat, mult: nat)
    requires 1 <= c && Times(maxMult, c) < U64
    requires p <= Times(maxMult, c) / 1000000 && mult == Div(Wrap64(p * 1000000), c)
    ensures mult <= maxMult
    ensures Times(mult, c) <= p * 1000000 < Times(mult + 1, c)
  {
    hide Times, Div, Mod;
    Fits64(p * 1000000);
    DivMod(p * 1000000, c);
    TimesNext(mult, c);
    if mult > maxMult {
      TimesMono(maxMult + 1, mult, c, c);
      TimesNext(maxMult, c);
      assert false;
    }
  }

  // ---------------------------------------------------------------- conversion

  datatype Timespec = Timespec(sec: nat, nsec: nat)

  /** The conversion of `__fio_gettime` for `t` cycles since the start, in 64 bits. */
  function Gettime(k: Calibration, t: nat): Timespec {
    var multiples := ShiftRight(t, k.cyclesShift);
    var nsecs := Wrap64(Times(multiples, k.nsecsForMaxCycles));
    var nsecs' := Wrap64(nsecs + ShiftRight(Wrap64(Times(And(t, k.mask), k.mult)), k.shift));
    Timespec(nsecs' / 1000000000, nsecs' % 1000000000)
  }

  /** Cycles to nanoseconds without the two stages: scale by mult and drop the fraction. */
  function Scaled(n: nat, mult: nat, p: nat): nat
    requires p >= 1
  {
    Div(Times(n, mult), p)
  }

  /** The conversion in unbounded integers. */
  function Nanos(k: Calibration, t: nat): nat {
    var C := Pow2(k.cyclesShift);
    Times(Div(t, C), k.nsecsForMaxCycles) + Scaled(Mod(t, C), k.mult, Pow2(k.shift))
  }

  /** The masked product never overflows 64 bits. */
  lemma ProductFits(c: nat, k: Calibration, t: nat)
    requires Calibrated(c, k)
    ensures Times(And(t, k.mask), k.mult) < U64
  {
    hide Times, Div, Mod, And, Pow2;
    AndMask(t, k.cyclesShift);
    TimesMono(Mod(t, Pow2(k.cyclesShift)), Pow2(k.cyclesShift), k.mult, k.mult);
  }

  /** The 64-bit code computes the unbounded conversion modulo 2^64. */
  lemma GettimeIsNanos(c: nat, k: Calibration, t: nat)
    requires Calibrated(c, k)
    ensures var ts := Gettime(k, t); ts.sec * 1000000000 + ts.nsec == Wrap64(Nanos(k, t)) && ts.nsec < 1000000000
  {
    hide Times, Div, Mod, And, Pow2, Wrap64, ShiftRight;
    ShiftIsDiv(t, k.cyclesShift);
    ShiftIsDiv(Times(And(t, k.mask), k.mult), k.shift);
    ProductFits(c, k, t);
    Fits64(Times(And(t, k.mask), k.mult));
    AndMask(t, k.cyclesShift);
    var C := Pow2(k.cyclesShift);
    WrapAdd(Times(Div(t, C), k.nsecsForMaxCycles), Scaled(Mod(t, C), k.mult, Pow2(k.shift)));
  }

  lemma WrapAdd(a: nat, b: nat)
    ensures Wrap64(Wrap64(a) + b) == Wrap64(a + b)
  {
  }

  lemma ScaledMono(n: nat, n': nat, mult: nat, p: nat)
    requires n <= n' && p >= 1
    ensures Scaled(n, mult, p) <= Scaled(n', mult, p)
  {
    hide Times, Div;
    TimesMono(n, n', mult, mult);
    DivMono(Times(n, mult), Times(n', mult), p);
  }

  /** Converted time never goes backwards, also across a mask boundary. */
  lemma NanosMonotone(c: nat, k: Calibration, t: nat, u: nat)
    requires Calibrated(c, k) && t <= u
    ensures Nanos(k, t) <= Nanos(k, u)
  {
    hide Times, Div, Mod, Pow2;
    var C, S, M, F := Pow2(k.cyclesShift), Pow2(k.shift), k.mult, k.nsecsForMaxCycles;
    DivMono(t, u, C);
    if Div(t, C) == Div(u, C) {
      DivMod(t, C);
      DivMod(u, C);
      ScaledMono(Mod(t, C), Mod(u, C), M, S);
    } else {
      ScaledMono(Mod(t, C), C, M, S);
      TimesMono(Div(t, C) + 1, Div(u, C), F, F);
      TimesNext(Div(t, C), F);
    }
  }

  // ---------------------------------------------------------------- accuracy

  lemma DivBounds(n: nat, d: nat)
    requires d >= 1
    ensures Times(d, Div(n, d)) <= n < Times(d, Div(n, d) + 1)
  {
    hide Times, Div, Mod;
    DivMod(n, d);
    TimesCommutes(Div(n, d), d);
    TimesNext(Div(n, d), d);
    TimesCommutes(Div(n, d) + 1, d);
  }

  /** Two-stage scaling loses less than one nanosecond per stage: with S the scale, the result f satisfies
      S * f <= t * mult < S * (f + t / C + 1). */
  lemma TwoStages(C: nat, S: nat, mult: nat, t: nat)
    requires C >= 1 && S >= 1
    ensures var f := Times(Div(t, C), Scaled(C, mult, S)) + Scaled(Mod(t, C), mult, S);
      Times(S, f) <= Times(t, mult) < Times(S, f + Div(t, C) + 1)
  {
    hide Times, Div, Mod;
    var q, r := Div(t, C), Mod(t, C);
    var F, g := Scaled(C, mult, S), Scaled(r, mult, S);
    var f := Times(q, F) + g;
    DivMod(t, C);
    DivBounds(Times(C, mult), S);
    DivBounds(Times(r, mult), S);
    assert Times(t, mult) == Times(q, Times(C, mult)) + Times(r, mult) by {
      TimesCommutes(t, mult);
      TimesSum(mult, Times(q, C), r);
      TimesCommutes(mult, Times(q, C));
      TimesAssociates(q, C, mult);
      TimesCommutes(mult, r);
    }
    assert Times(S, f) == Times(q, Times(S, F)) + Times(S, g) by {
      TimesSum(S, Times(q, F), g);
      TimesSwap(S, q, F);
    }
    assert Times(S, f + q + 1) == Times(q, Times(S, F + 1)) + Times(S, g + 1) by {
      TimesNext(F, q);
      TimesCommutes(F, q);
      TimesCommutes(F + 1, q);
      TimesSum(S, Times(q, F + 1), g + 1);
      TimesSwap(S, q, F + 1);
    }
    TimesMono(q, q, Times(S, F), Times(C, mult));
    TimesMono(q, q, Times(C, mult), Times(S, F + 1));
  }

  /** Converted time never runs ahead of the exact t * 10^6 / c, and lags it by less than
      t / 2^shift + t / 2^cyclesShift + 1 nanoseconds. Both sides are multiplied by c * 2^shift. */
  lemma NanosLag(c: nat, k: Calibration, t: nat)
    requires Calibrated(c, k)
    ensures Times(c, Nanos(k, t)) <= t * 1000000
    ensures var S, q := Pow2(k.shift), Div(t, Pow2(k.cyclesShift));
      Times(S, t * 1000000) < Times(c, Times(S, Nanos(k, t) + q + 1) + t)
  {
    hide Times, Div, Mod, Pow2;
    var C, S, M := Pow2(k.cyclesShift), Pow2(k.shift), k.mult;
    var f, q := Nanos(k, t), Div(t, C);
    TwoStages(C, S, M, t);
    TimesMillion(t, S);
    TimesCommutes(M, c);
    // S * f * c <= t * M * c <= t * S * 10^6
    TimesSwap(S, c, f);
    TimesMono(c, c, Times(S, f), Times(t, M));
    TimesSwap(c, t, M);
    TimesMono(t, t, Times(M, c), S * 1000000);
    CancelTimes(S, Times(c, f), t * 1000000);
    // t * S * 10^6 <= t * M * c + t * c < c * (S * (f + q + 1) + t)
    TimesMono(t, t, S * 1000000, Times(M + 1, c));
    TimesNext(M, c);
    TimesSum(t, Times(M, c), c);
    TimesCommutes(t, c);
    TimesSum(c, Times(S, f + q + 1), t);
    StrictTimes(c, Times(t, M), Times(S, f + q + 1));
  }

  lemma TimesMillion(t: nat, s: nat)
    ensures Times(t, s * 1000000) == Times(s, t * 1000000)
  {
  }

  lemma CancelTimes(s: nat, a: nat, b: nat)
    requires s >= 1 && Times(s, a) <= Times(s, b)
    ensures a <= b
  {
    hide Times;
    if a > b {
      StrictTimes(s, b, a);
    }
  }

  lemma StrictTimes(c: nat, a: nat, b: nat)
    requires c >= 1 && a < b
    ensures Times(c, a) < Times(c, b)
  {
    hide Times;
    TimesMono(c, c, a + 1, b);
    TimesCommutes(c, a);
    TimesCommutes(c, a + 1);
    TimesNext(a, c);
  }

  /** So the 64-bit result is exact, with no wrap-around, as long as the exact time fits. */
  lemma GettimeDoesNotWrap(c: nat, k: Calibration, t: nat)
    requires Calibrated(c, k) && t * 1000000 < Times(c, U64)
    ensures var ts := Gettime(k, t); ts.sec * 1000000000 + ts.nsec == Nanos(k, t)
  {
    hide Pow2, Times, Gettime, Nanos, Wrap64;
    GettimeIsNanos(c, k, t);
    NanosLag(c, k, t);
    if Nanos(k, t) >= U64 {
      TimesMono(c, c, U64, Nanos(k, t));
      assert false;
    }
    Fits64(Nanos(k, t));
  }
}
