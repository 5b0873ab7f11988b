/** The latency-target search: queue depth doubles until a window misses the target, then the search bisects. */
module LatTarget {
  import opened Bits

  /** `gaveUp` is the result of the last __lat_target_failed: depth 1 missed the target. */
  datatype Search = Search(depth: nat, qd: nat, low: nat, high: nat, endRun: bool, done: bool, gaveUp: bool)

  /** lat_target_init with a target set. */
  function Start(depth: nat): Search {
    Search(depth, 1, 1, depth, false, false, false)
  }

  /** __lat_target_failed. */
  function Failed(s: Search): Search {
    if s.qd == 1 then s.(gaveUp := true)
    else
      var low := if s.qd == s.low then Wrap32(s.low - 1) else s.low;
      s.(high := s.qd, low := low, qd := Wrap32(s.qd + low) / 2, gaveUp := false)
  }

  /** lat_target_success. */
  function Succeeded(s: Search): Search {
    var up := if s.high != s.depth then Wrap32(s.qd + s.high) / 2 else Wrap32(s.qd * 2);
    var qd := if up > s.depth then s.depth else up;
    s.(low := s.qd, qd := qd, gaveUp := false,
       done := s.done || (qd == s.qd && s.endRun), endRun := s.endRun || qd == s.qd)
  }

  /** One measurement window of a device that meets the target exactly at depths up to `t`. */
  function Window(s: Search, t: nat): Search {
    if s.done then s else if s.qd <= t then Succeeded(s) else Failed(s)
  }

  function Windows(s: Search, t: nat, n: nat): Search {
    if n == 0 then s else Window(Windows(s, t, n - 1), t)
  }

  /** The depth options that fio's integer option type can hold. */
  predicate DepthOk(depth: nat) {
    1 <= depth < 0x8000_0000
  }

  function Goal(depth: nat, t: nat): nat {
    if t < depth then t else depth
  }

  /** The depth brackets the goal from below, and from above once some window has failed below the full depth. */
  predicate Brackets(s: Search, t: nat) {
    && DepthOk(s.depth)
    && 1 <= s.low <= s.qd <= s.high <= s.depth
    && s.low <= t
    && (s.high == s.depth || (t < s.high && s.qd < s.high))
  }

  /** The final run at the goal has started; one more good window ends the job. */
  predicate Final(s: Search, t: nat) {
    && s.qd == s.low == Goal(s.depth, t)
    && (if t < s.depth then s.high == s.qd + 1 < s.depth else s.high == s.depth)
  }

  predicate Inv(s: Search, t: nat) {
    Brackets(s, t) && (s.endRun || s.done ==> Final(s, t)) && (s.done ==> s.endRun)
  }

  lemma SuccessKeeps(s: Search, t: nat)
    requires Inv(s, t) && t + 1 != s.depth && s.qd <= t
    ensures Inv(Succeeded(s), t)
  {
    hide Wrap32;
    Fits32(s.qd + s.high);
    Fits32(s.qd * 2);
  }

  lemma FailureKeeps(s: Search, t: nat)
    requires Inv(s, t) && t + 1 != s.depth && s.qd > t
    ensures Inv(Failed(s), t)
  {
    hide Wrap32;
    Fits32(s.qd + s.low);
  }

  lemma WindowKeeps(s: Search, t: nat)
    requires Inv(s, t) && t + 1 != s.depth
    ensures Inv(Window(s, t), t) && Window(s, t).depth == s.depth
  {
    if !s.done && s.qd <= t {
      SuccessKeeps(s, t);
    } else if !s.done {
      FailureKeeps(s, t);
    }
    hide Inv;
  }

  lemma {:induction false} WindowsKeep(depth: nat, t: nat, n: nat)
    requires DepthOk(depth) && 1 <= t && t + 1 != depth
    ensures Inv(Windows(Start(depth), t, n), t) && Windows(Start(depth), t, n).depth == depth
  {
    if n > 0 {
      WindowsKeep(depth, t, n - 1);
      WindowKeeps(Windows(Start(depth), t, n - 1), t);
    }
  }

  /** Distance to the end of the search. */
  function Distance(s: Search): int {
    3 * (s.high - s.low) + if s.qd == s.low then 2 else if s.qd == s.high then 1 else 0
  }

  lemma Closer(s: Search, t: nat)
    requires Inv(s, t) && t + 1 != s.depth && !s.endRun && !Window(s, t).endRun
    ensures Distance(Window(s, t)) < Distance(s)
  {
    hide Wrap32;
    Fits32(s.qd + s.high);
    Fits32(s.qd + s.low);
    Fits32(s.qd * 2);
  }

  lemma {:induction false} Unfold(s: Search, t: nat, n: nat)
    ensures Windows(s, t, n + 1) == Windows(Window(s, t), t, n)
  {
    if n > 0 {
      Unfold(s, t, n - 1);
    }
  }

  /** From any state of the search, finitely many windows end the job at the goal. */
  lemma {:induction false} Finishes(s: Search, t: nat) returns (n: nat)
    requires Inv(s, t) && t + 1 != s.depth
    ensures Windows(s, t, n).done && Windows(s, t, n).qd == Goal(s.depth, t)
    decreases if s.endRun then 0 else 1, Distance(s)
  {
    WindowKeeps(s, t);
    if s.done {
      n := 0;
    } else if s.endRun {
      n := 1;
      Unfold(s, t, 0);
    } else {
      if !Window(s, t).endRun {
        Closer(s, t);
      }
      var m := Finishes(Window(s, t), t);
      n := m + 1;
      Unfold(s, t, m);
    }
  }

  /** The search settles at the goal. */
  ghost predicate Settles(depth: nat, t: nat) {
    exists n: nat :: Windows(Start(depth), t, n).done && Windows(Start(depth), t, n).qd == Goal(depth, t)
  }

  /** With the one depth below the maximum as threshold, a miss at full depth looks like never having missed. */
  predicate Circles(s: Search) {
    && DepthOk(s.depth) && s.depth >= 2
    && 1 <= s.low <= s.qd <= s.high == s.depth && s.low < s.depth
    && !s.endRun && !s.done
  }

  lemma CirclesOn(s: Search)
    requires Circles(s)
    ensures Circles(Window(s, s.depth - 1)) && Window(s, s.depth - 1).depth == s.depth
  {
    hide Wrap32;
    Fits32(s.qd + s.low);
    Fits32(s.qd * 2);
  }

  lemma {:induction false} NeverEnds(depth: nat, n: nat)
    requires DepthOk(depth) && depth >= 2
    ensures Circles(Windows(Start(depth), depth - 1, n)) && Windows(Start(depth), depth - 1, n).depth == depth
  {
    if n > 0 {
      hide Circles, Window;
      NeverEnds(depth, n - 1);
      CirclesOn(Windows(Start(depth), depth - 1, n - 1));
    }
  }

  /** For every device that meets the target exactly at depths up to t >= 1: the search settles at min(t, depth)
      if and only if t is not depth - 1. */
  lemma SettlesExactly(depth: nat, t: nat)
    requires DepthOk(depth) && 1 <= t
    ensures Settles(depth, t) <==> t + 1 != depth
  {
    if t + 1 != depth {
      var n := Finishes(Start(depth), t);
    } else {
      forall n: nat ensures !Windows(Start(depth), t, n).done {
        NeverEnds(depth, n);
      }
    }
  }

  /** A device that misses the target even at depth 1 is given up on in every window, and nothing else changes. */
  lemma {:induction false} GivesUp(depth: nat, n: nat)
    requires DepthOk(depth) && n >= 1
    ensures Windows(Start(depth), 0, n) == Start(depth).(gaveUp := true)
  {
    if n > 1 {
      GivesUp(depth, n - 1);
    }
    assert Windows(Start(depth), 0, n) == Window(Windows(Start(depth), 0, n - 1), 0);
  }

  // ---------------------------------------------------------------- how fast it settles

  function Min(a: nat, b: nat): nat { if a < b then a else b }

  /** The doubling phase, up to the window that reaches the full depth. */
  lemma {:induction false} Doubles(depth: nat, t: nat, n: nat)
    requires DepthOk(depth) && (forall i :: 0 <= i < n ==> Min(Pow2(i), depth) <= t)
    requires n == 0 || Pow2(n - 1) < depth
    ensures var s := Windows(Start(depth), t, n);
      && s.qd == Min(Pow2(n), depth) && s.high == s.depth == depth && !s.endRun && !s.done && !s.gaveUp
      && (if n == 0 then s.low == 1 else s.low == Pow2(n - 1))
  {
    if n > 0 {
      Smaller(n - 1, depth);
      Doubles(depth, t, n - 1);
      hide Wrap32, Pow2;
      Fits32(2 * Pow2(n - 1));
      assert Pow2(n) == 2 * Pow2(n - 1) by { PowNext(n - 1); }
      assert Min(Pow2(n - 1), depth) == Pow2(n - 1);
    }
  }

  /** As long as no window has failed the depth is 2^n after n windows, or the full depth. */
  lemma {:induction false} DepthDoubles(depth: nat, t: nat, n: nat)
    requires DepthOk(depth) && (forall i :: 0 <= i < n ==> Min(Pow2(i), depth) <= t)
    ensures var s := Windows(Start(depth), t, n); s.qd == Min(Pow2(n), depth) && s.high == s.depth == depth
  {
    if n == 0 || Pow2(n - 1) < depth {
      Doubles(depth, t, n);
    } else {
      DepthDoubles(depth, t, n - 1);
      PowNext(n - 1);
      assert Min(Pow2(n - 1), depth) == depth;
      StaysFull(Windows(Start(depth), t, n - 1), t);
    }
  }

  lemma StaysFull(s: Search, t: nat)
    requires DepthOk(s.depth) && s.qd == s.high == s.depth <= t
    ensures Window(s, t).qd == s.depth && Window(s, t).high == Window(s, t).depth == s.depth
  {
    hide Wrap32;
    Fits32(s.qd * 2);
  }

  lemma PowNext(n: nat)
    ensures Pow2(n + 1) == 2 * Pow2(n)
  {
  }

  lemma Smaller(n: nat, depth: nat)
    requires Pow2(n) < depth
    ensures n == 0 || Pow2(n - 1) < depth
  {
  }

  /** The number of halvings that take `n` to 1, rounding up. */
  function Halvings(n: nat): nat {
    if n <= 1 then 0 else 1 + Halvings((n + 1) / 2)
  }

  lemma {:induction false} HalvingsCover(n: nat)
    ensures n <= Pow2(Halvings(n))
    ensures n >= 2 ==> Pow2(Halvings(n) - 1) < n
  {
    if n >= 2 {
      HalvingsCover((n + 1) / 2);
    }
  }

  lemma {:induction false} HalvingsMono(m: nat, n: nat)
    requires m <= n
    ensures Halvings(m) <= Halvings(n)
  {
    if m >= 2 {
      HalvingsMono((m + 1) / 2, (n + 1) / 2);
    }
  }

  /** Half of a gap, rounded either way, takes one halving less. */
  lemma Halved(gap: nat, half: nat)
    requires gap >= 2 && half <= (gap + 1) / 2
    ensures Halvings(half) + 1 <= Halvings(gap)
  {
    HalvingsMono(half, (gap + 1) / 2);
  }

  /** The search after its first failure: it bisects below a failed depth, or between the last good depth and the full
      depth, which it visits again after each success. */
  predicate Bisects(s: Search, t: nat) {
    && Inv(s, t) && t + 1 < s.depth && !s.done
    && (|| s.endRun
        || (s.high < s.depth && s.qd == (s.low + s.high) / 2)
        || (s.high == s.depth && 2 * s.low >= s.depth && (s.qd == (s.low + s.depth) / 2 || s.qd == s.depth)))
  }

  /** Windows left: one for each halving, two where the full depth is visited in between. */
  function WindowsLeft(s: Search): nat {
    if s.done then 0
    else if s.endRun then 1
    else if s.high < s.low then 0
    else if s.high < s.depth then Halvings(s.high - s.low) + 2
    else 2 * Halvings(s.high - s.low) + if s.qd == s.depth then 3 else 2
  }

  lemma BisectsBelow(s: Search, t: nat)
    requires Bisects(s, t) && !s.endRun && s.high < s.depth
    ensures var s' := Window(s, t); (s'.done || Bisects(s', t)) && WindowsLeft(s') < WindowsLeft(s)
  {
    WindowKeeps(s, t);
    hide Wrap32, Halvings;
    Fits32(s.qd + s.high);
    Fits32(s.qd + s.low);
    var gap := s.high - s.low;
    if gap >= 2 {
      Halved(gap, if s.qd <= t then s.high - s.qd else s.qd - s.low);
    }
    SmallHalvings();
  }

  lemma SmallHalvings()
    ensures Halvings(0) == 0 && Halvings(1) == 0
  {
  }

  lemma BisectsAbove(s: Search, t: nat)
    requires Bisects(s, t) && !s.endRun && s.high == s.depth
    ensures var s' := Window(s, t); (s'.done || Bisects(s', t)) && WindowsLeft(s') < WindowsLeft(s)
  {
    WindowKeeps(s, t);
    hide Wrap32, Halvings;
    Fits32(s.qd * 2);
    Fits32(s.qd + s.low);
    Halved(s.depth - s.low, if s.qd <= t then s.depth - s.qd else (s.depth - s.low) / 2);
  }

  lemma {:induction false} BisectsTo(s: Search, t: nat, n: nat)
    requires ((s.done && Inv(s, t)) || Bisects(s, t)) && t + 1 != s.depth && WindowsLeft(s) <= n
    ensures Windows(s, t, n).done && Windows(s, t, n).qd == Goal(s.depth, t)
    decreases n
  {
    hide Wrap32, Halvings, Inv;
    if s.done {
      DoneStays(s, t, n);
      DoneAtGoal(s, t);
    } else {
      var s' := Window(s, t);
      BisectStep(s, t);
      Unfold(s, t, n - 1);
      BisectsTo(s', t, n - 1);
    }
  }

  lemma DoneAtGoal(s: Search, t: nat)
    requires s.done && Inv(s, t)
    ensures s.qd == Goal(s.depth, t)
  {
  }

  lemma {:induction false} DoneStays(s: Search, t: nat, n: nat)
    requires s.done
    ensures Windows(s, t, n) == s
  {
    if n > 0 {
      DoneStays(s, t, n - 1);
    }
  }

  lemma BisectStep(s: Search, t: nat)
    requires Bisects(s, t)
    ensures var s' := Window(s, t);
      ((s'.done && Inv(s', t)) || Bisects(s', t)) && WindowsLeft(s') < WindowsLeft(s) && s'.depth == s.depth
  {
    WindowKeeps(s, t);
    if s.endRun {
      hide Wrap32;
      Fits32(s.qd + s.high);
    } else if s.high < s.depth {
      BisectsBelow(s, t);
    } else {
      BisectsAbove(s, t);
    }
  }

  /** The first number of doublings that takes the depth beyond `t` or to the full depth. */
  lemma {:induction false} FirstMiss(depth: nat, t: nat, k: nat) returns (n: nat)
    requires DepthOk(depth) && t >= 1 && (Pow2(k) > t || Pow2(k) >= depth)
    ensures n <= k && (Pow2(n) > t || Pow2(n) >= depth)
    ensures forall i :: 0 <= i < n ==> Pow2(i) <= t && Pow2(i) < depth
  {
    if k == 0 {
      n := 0;
    } else if Pow2(k - 1) > t || Pow2(k - 1) >= depth {
      n := FirstMiss(depth, t, k - 1);
    } else {
      n := k;
      forall i | 0 <= i < n ensures Pow2(i) <= t && Pow2(i) < depth {
        Pow2Mono(i, k - 1);
      }
    }
  }

  lemma {:induction false} Joined(s: Search, t: nat, n: nat, m: nat)
    ensures Windows(s, t, n + m) == Windows(Windows(s, t, n), t, m)
  {
    if m > 0 {
      Joined(s, t, n, m - 1);
    }
  }

  /** The search settles within three windows for each halving of the depth, and five more. */
  lemma SettlesFast(depth: nat, t: nat)
    requires DepthOk(depth) && 1 <= t && t + 1 != depth
    ensures var n := 3 * Halvings(depth) + 5;
      Windows(Start(depth), t, n).done && Windows(Start(depth), t, n).qd == Goal(depth, t)
  {
    hide Halvings, Pow2, Wrap32, Window;
    HalvingsCover(depth);
    var n := FirstMiss(depth, t, Halvings(depth));
    assert n == 0 || Pow2(n - 1) < depth;
    Doubles(depth, t, n);
    WindowsKeep(depth, t, n);
    var s := Windows(Start(depth), t, n);
    var m := if t >= depth then 2 else 2 * Halvings(depth) + 5;
    if t >= depth {
      FullDepth(s, t);
    } else {
      MissedOnce(s, t, n);
    }
    var rest := 3 * Halvings(depth) + 5 - n - m;
    Joined(Start(depth), t, n, m);
    Joined(Start(depth), t, n + m, rest);
    DoneStays(Windows(s, t, m), t, rest);
  }

  /** At the full depth, two good windows end the job. */
  lemma FullDepth(s: Search, t: nat)
    requires Inv(s, t) && t >= s.depth && s.qd == s.high == s.depth && !s.endRun && !s.done
    ensures Windows(s, t, 2).done && Windows(s, t, 2).qd == Goal(s.depth, t)
  {
    hide Wrap32;
    Fits32(s.qd * 2);
    var s1 := Window(s, t);
    assert Windows(s, t, 2) == Window(Windows(s, t, 1), t) && Windows(s, t, 1) == Window(Windows(s, t, 0), t);
  }

  /** The first miss starts the bisection. */
  lemma MissedOnce(s: Search, t: nat, n: nat)
    requires Inv(s, t) && 1 <= t && t + 1 < s.depth && s.qd == Min(Pow2(n), s.depth) > t && s.high == s.depth
    requires n >= 1 && s.low == Pow2(n - 1) && !s.endRun && !s.done
    ensures var m := 2 * Halvings(s.depth) + 5; Windows(s, t, m).done && Windows(s, t, m).qd == Goal(s.depth, t)
  {
    PowNext(n - 1);
    hide Pow2, Wrap32, Halvings;
    Fits32(s.qd + s.low);
    WindowKeeps(s, t);
    var s' := Window(s, t);
    HalvingsMono(s'.high - s'.low, s.depth);
    assert Bisects(s', t);
    Unfold(s, t, 2 * Halvings(s.depth) + 4);
    BisectsTo(s', t, 2 * Halvings(s.depth) + 4);
  }

  /** A device that meets the target at depth 1 is never given up on, and the job ends only after a whole window at the
      depth where the final run began. */
  lemma {:induction false} EndsAfterFinalRun(depth: nat, t: nat, n: nat)
    requires DepthOk(depth) && 1 <= t && t + 1 != depth
    ensures !Windows(Start(depth), t, n).gaveUp
    ensures Windows(Start(depth), t, n + 1).done && !Windows(Start(depth), t, n).done ==>
              Windows(Start(depth), t, n).endRun && Windows(Start(depth), t, n).qd == Goal(depth, t)
  {
    WindowsKeep(depth, t, n);
    if n > 0 {
      WindowsKeep(depth, t, n - 1);
      EndsAfterFinalRun(depth, t, n - 1);
      NotGivenUp(Windows(Start(depth), t, n - 1), t);
    }
  }

  lemma NotGivenUp(s: Search, t: nat)
    requires Inv(s, t) && !s.gaveUp
    ensures !Window(s, t).gaveUp
  {
  }

  // ---------------------------------------------------------------- a device of any behaviour

  /** One measurement window with any outcome. */
  function Measured(s: Search, ok: bool): Search {
    if s.done then s else if ok then Succeeded(s) else Failed(s)
  }

  function AllMeasured(depth: nat, outcomes: seq<bool>): Search {
    if outcomes == [] then Start(depth)
    else Measured(AllMeasured(depth, outcomes[..|outcomes| - 1]), outcomes[|outcomes| - 1])
  }

  predicate InBounds(s: Search) {
    DepthOk(s.depth) && 1 <= s.low <= s.qd <= s.high <= s.depth
  }

  lemma MeasuredInBounds(s: Search, ok: bool)
    requires InBounds(s)
    ensures InBounds(Measured(s, ok)) && Measured(s, ok).depth == s.depth
  {
    hide Wrap32;
    Fits32(s.qd + s.high);
    Fits32(s.qd + s.low);
    Fits32(s.qd + s.low - 1);
    Fits32(s.qd * 2);
    Fits32(s.low - 1);
  }

  lemma {:induction false} AllInBounds(depth: nat, outcomes: seq<bool>)
    requires DepthOk(depth)
    ensures InBounds(AllMeasured(depth, outcomes)) && AllMeasured(depth, outcomes).depth == depth
  {
    hide Measured;
    if outcomes != [] {
      AllInBounds(depth, outcomes[..|outcomes| - 1]);
      MeasuredInBounds(AllMeasured(depth, outcomes[..|outcomes| - 1]), outcomes[|outcomes| - 1]);
    }
  }

  /** Whatever the windows find, also when a depth that met the target misses it later: the depth stays between 1 and
      the option's, a miss lowers it and becomes the upper bound, a hit does not lower it and becomes the lower bound,
      and only a miss at depth 1 gives up. */
  lemma EveryWindow(depth: nat, outcomes: seq<bool>, ok: bool)
    requires DepthOk(depth) && !AllMeasured(depth, outcomes).done
    ensures var s, s' := AllMeasured(depth, outcomes), AllMeasured(depth, outcomes + [ok]);
      && 1 <= s.qd <= depth
      && (ok ==> s.qd <= s'.qd && s'.low == s.qd && s'.high == s.high && !s'.gaveUp)
      && (!ok && s.qd > 1 ==> s'.qd < s.qd && s'.high == s.qd && !s'.gaveUp && !s'.done)
      && (!ok && s.qd == 1 ==> s' == s.(gaveUp := true))
  {
    assert (outcomes + [ok])[..|outcomes|] == outcomes;
    AllInBounds(depth, outcomes);
    MeasuredMoves(AllMeasured(depth, outcomes), ok);
  }

  lemma MeasuredMoves(s: Search, ok: bool)
    requires InBounds(s) && !s.done
    ensures ok ==> s.qd <= Measured(s, ok).qd && Measured(s, ok).low == s.qd
    ensures !ok && s.qd > 1 ==> Measured(s, ok).qd < s.qd && Measured(s, ok).high == s.qd
  {
    hide Wrap32;
    Fits32(s.qd + s.high);
    Fits32(s.qd + s.low);
    Fits32(s.qd + s.low - 1);
    Fits32(s.qd * 2);
    Fits32(s.low - 1);
  }

  /** The fields of thread_data that the search updates in place. */
  class Tracker {
    const depth: nat
    var qd: nat
    var low: nat
    var high: nat
    var endRun: bool
    var done: bool
    var gaveUp: bool

    ghost function State(): Search
      reads this
    {
      Search(depth, qd, low, high, endRun, done, gaveUp)
    }

    constructor (depth: nat)
      ensures State() == Start(depth)
    {
      this.depth := depth;
      qd, low, high := 1, 1, depth;
      endRun, done, gaveUp := false, false, false;
    }

    method Fail()
      modifies this
      ensures State() == Failed(old(State()))
    {
      if qd == 1 {
        gaveUp := true;
        return;
      }
      high := qd;
      if qd == low {
        low := Wrap32(low - 1);
      }
      qd := Wrap32(qd + low) / 2;
      gaveUp := false;
    }

    method Succeed()
      modifies this
      ensures State() == Succeeded(old(State()))
    {
      var was := qd;
      low := qd;
      if high != depth {
        qd := Wrap32(qd + high) / 2;
      } else {
        qd := Wrap32(qd * 2);
      }
      if qd > depth {
        qd := depth;
      }
      if qd == was {
        if endRun {
          done := true;
        } else {
          endRun := true;
        }
      }
      gaveUp := false;
    }
  }
}
