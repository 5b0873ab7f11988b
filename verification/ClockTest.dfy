/** The monotonic-clock test: any number of threads draw sequence numbers from one counter by compare-and-swap and
    read the clock between the load and the swap. Every access to the counter and every clock read is one step. */
module ClockTest {
  import opened Options
  import opened Threads

  const UINT_MAX: nat := 0xFFFF_FFFF

  datatype Label = LoadSeq | ReadClock | Swap | Record | Stopped

  datatype Entry = Entry(seqno: nat, tsc: nat)

  /** A thread: its place in the loop, the loaded number, the clock value and which clock read gave it, and the
      entries it has recorded. */
  datatype Thread = Thread(at: Label, num: nat, tsc: nat, rd: nat, entries: seq<Entry>)

  /** A successful swap, for the history kept below. */
  datatype Win = Win(t: Tid, tsc: nat, rd: nat)

  /** `next` is the shared counter. `seen` lists every clock value read by any thread in the order they happen and
      `won[k]` is the swap that drew number k; these two are history that no thread looks at. */
  datatype State = State(next: nat, th: map<Tid, Thread>, seen: seq<nat>, won: seq<Win>)

  const INIT := State(0, map[], [], [])

  function At(s: State, t: Tid): Thread {
    if t in s.th then s.th[t] else Thread(LoadSeq, 0, 0, 0, [])
  }

  /** One step of thread `t` of a test with `nr` entries per thread; `clock` is what the clock shows if it is read. */
  function Step(s: State, t: Tid, nr: nat, clock: nat): Option<State> {
    var p := At(s, t);
    match p.at
    case LoadSeq =>
      if |p.entries| >= nr || s.next == UINT_MAX then Some(s.(th := s.th[t := p.(at := Stopped)]))
      else Some(s.(th := s.th[t := p.(at := ReadClock, num := s.next)]))
    case ReadClock =>
      Some(s.(th := s.th[t := p.(at := Swap, tsc := clock, rd := |s.seen|)], seen := s.seen + [clock]))
    case Swap =>
      if s.next == p.num
      then Some(s.(next := s.next + 1, th := s.th[t := p.(at := Record)], won := s.won + [Win(t, p.tsc, p.rd)]))
      else Some(s.(th := s.th[t := p.(at := LoadSeq)]))
    case Record =>
      Some(s.(th := s.th[t := p.(at := LoadSeq, entries := p.entries + [Entry(p.num, p.tsc)])]))
    case Stopped => None
  }

  // ---------------------------------------------------------------- the invariant

  /** Number `n` was drawn by thread `t` with clock value `tsc`. */
  predicate Drew(s: State, t: Tid, n: nat, tsc: nat) {
    n < |s.won| && s.won[n].t == t && s.won[n].tsc == tsc
  }

  predicate EntriesOk(s: State, t: Tid, e: seq<Entry>) {
    && (forall i :: 0 <= i < |e| ==> Drew(s, t, e[i].seqno, e[i].tsc))
    && (forall i, j :: 0 <= i < j < |e| ==> e[i].seqno < e[j].seqno)
  }

  predicate AllBelow(e: seq<Entry>, n: nat) {
    forall i :: 0 <= i < |e| ==> e[i].seqno < n
  }

  predicate ThreadOk(s: State, t: Tid, p: Thread) {
    && EntriesOk(s, t, p.entries)
    && (p.at.ReadClock? || p.at.Swap? ==> p.num <= s.next && p.num < UINT_MAX)
    && (p.at.Swap? ==> p.rd < |s.seen| && s.seen[p.rd] == p.tsc)
    && (p.at.Swap? && p.num == s.next > 0 && s.next == |s.won| ==> s.won[s.next - 1].rd < p.rd)
    && (p.at.Record? ==> Drew(s, t, p.num, p.tsc) && AllBelow(p.entries, p.num))
  }

  predicate InOrder(s: State) {
    && (forall k :: 0 <= k < |s.won| ==> s.won[k].rd < |s.seen| && s.seen[s.won[k].rd] == s.won[k].tsc)
    && (forall k, l :: 0 <= k < l < |s.won| ==> s.won[k].rd < s.won[l].rd)
  }

  /** Number `n` is held by thread `p`: recorded, or drawn and about to be. */
  predicate Has(p: Thread, n: nat) {
    (p.at.Record? && p.num == n) || exists i :: 0 <= i < |p.entries| && p.entries[i].seqno == n
  }

  predicate GapFree(s: State) {
    forall n :: 0 <= n < |s.won| ==> s.won[n].t in s.th && Has(s.th[s.won[n].t], n)
  }

  predicate Inv(s: State) {
    && s.next == |s.won| <= UINT_MAX
    && (forall t :: t in s.th ==> ThreadOk(s, t, s.th[t]))
    && InOrder(s)
    && GapFree(s)
  }

  /** What is known about a thread survives the steps of the others, which only extend the counter and the history. */
  lemma Survives(s: State, s': State, u: Tid, p: Thread)
    requires ThreadOk(s, u, p) && s.next == |s.won| && s'.next == |s'.won|
    requires s.won <= s'.won && s.seen <= s'.seen
    ensures ThreadOk(s', u, p)
  {
    if p.at.Record? {
      assert Drew(s', u, p.num, p.tsc);
    }
  }

  lemma StepMine(s: State, t: Tid, nr: nat, clock: nat)
    requires Inv(s) && Step(s, t, nr, clock).Some?
    ensures ThreadOk(Step(s, t, nr, clock).value, t, Step(s, t, nr, clock).value.th[t])
  {
    var s' := Step(s, t, nr, clock).value;
    var p := At(s, t);
    assert ThreadOk(s, t, p);
    Survives(s, s', t, p.(at := LoadSeq));
    if p.at.Swap? && s.next == p.num {
      assert AllBelow(p.entries, p.num);
    }
    if p.at.Record? {
      RecordOk(s, t, p);
    }
    hide GapFree, EntriesOk, AllBelow;
  }

  lemma RecordOk(s: State, t: Tid, p: Thread)
    requires EntriesOk(s, t, p.entries) && Drew(s, t, p.num, p.tsc) && AllBelow(p.entries, p.num)
    ensures EntriesOk(s, t, p.entries + [Entry(p.num, p.tsc)])
  {
  }

  lemma StepThreads(s: State, t: Tid, nr: nat, clock: nat)
    requires Inv(s) && Step(s, t, nr, clock).Some?
    ensures var s' := Step(s, t, nr, clock).value; forall u :: u in s'.th ==> ThreadOk(s', u, s'.th[u])
  {
    var s' := Step(s, t, nr, clock).value;
    StepMine(s, t, nr, clock);
    hide ThreadOk, GapFree, InOrder;
    forall u | u in s'.th && u != t ensures ThreadOk(s', u, s'.th[u]) {
      Survives(s, s', u, s.th[u]);
    }
  }

  lemma StepInOrder(s: State, t: Tid, nr: nat, clock: nat)
    requires Inv(s) && Step(s, t, nr, clock).Some?
    ensures InOrder(Step(s, t, nr, clock).value)
  {
    hide GapFree;
    assert ThreadOk(s, t, At(s, t));
  }

  lemma StepGapFree(s: State, t: Tid, nr: nat, clock: nat)
    requires Inv(s) && Step(s, t, nr, clock).Some?
    ensures GapFree(Step(s, t, nr, clock).value)
  {
    hide InOrder;
    var s' := Step(s, t, nr, clock).value;
    forall n | 0 <= n < |s'.won| ensures s'.won[n].t in s'.th && Has(s'.th[s'.won[n].t], n) {
      if n < |s.won| && s.won[n].t == t {
        var p := s.th[t];
        assert Has(p, n);
        if !(p.at.Record? && p.num == n) {
          var i :| 0 <= i < |p.entries| && p.entries[i].seqno == n;
          assert s'.th[t].entries[i].seqno == n;
        } else {
          assert s'.th[t].entries[|p.entries|].seqno == n;
        }
      }
    }
  }

  lemma StepKeeps(s: State, t: Tid, nr: nat, clock: nat)
    requires Inv(s) && Step(s, t, nr, clock).Some?
    ensures Inv(Step(s, t, nr, clock).value)
  {
    assert ThreadOk(s, t, At(s, t));
    StepThreads(s, t, nr, clock);
    StepInOrder(s, t, nr, clock);
    StepGapFree(s, t, nr, clock);
    hide GapFree, InOrder;
  }

  // ---------------------------------------------------------------- whole runs

  ghost predicate Next(s: State, s': State, nr: nat) {
    exists t: Tid, clock: nat :: Step(s, t, nr, clock) == Some(s')
  }

  ghost predicate IsRun(nr: nat, run: seq<State>) {
    && run != [] && run[0] == INIT
    && forall i, j :: 0 <= i && j == i + 1 < |run| ==> Next(run[i], run[j], nr)
  }

  lemma {:induction false} RunKeeps(nr: nat, run: seq<State>, k: nat)
    requires IsRun(nr, run) && k < |run|
    ensures Inv(run[k])
  {
    hide Step;
    if k > 0 {
      RunKeeps(nr, run, k - 1);
      assert Next(run[k - 1], run[k], nr);
      var t: Tid, clock: nat :| Step(run[k - 1], t, nr, clock) == Some(run[k]);
      StepKeeps(run[k - 1], t, nr, clock);
    }
  }

  /** A thread in the loop still has an entry to fill; one that has stopped has filled them all, or the numbers have run
      out. */
  predicate Filling(s: State, p: Thread, nr: nat) {
    && |p.entries| <= nr
    && (p.at.ReadClock? || p.at.Swap? || p.at.Record? ==> |p.entries| < nr)
    && (p.at.Stopped? ==> |p.entries| == nr || s.next == UINT_MAX)
  }

  lemma StepFilling(s: State, t: Tid, nr: nat, clock: nat, u: Tid)
    requires Inv(s) && Step(s, t, nr, clock).Some? && Filling(s, At(s, u), nr)
    ensures Filling(Step(s, t, nr, clock).value, At(Step(s, t, nr, clock).value, u), nr)
  {
    assert ThreadOk(s, t, At(s, t));
    hide InOrder, GapFree;
  }

  /** A thread records at most as many entries as it was asked for, and exactly as many by the time it stops unless the
      counter has reached its end. */
  lemma {:induction false} FillsExactly(nr: nat, run: seq<State>, k: nat, t: Tid)
    requires IsRun(nr, run) && k < |run|
    ensures |At(run[k], t).entries| <= nr
    ensures At(run[k], t).at.Stopped? ==> |At(run[k], t).entries| == nr || run[k].next == UINT_MAX
    ensures Filling(run[k], At(run[k], t), nr)
  {
    hide Step, Inv;
    if k > 0 {
      FillsExactly(nr, run, k - 1, t);
      RunKeeps(nr, run, k - 1);
      assert Next(run[k - 1], run[k], nr);
      var u: Tid, clock: nat :| Step(run[k - 1], u, nr, clock) == Some(run[k]);
      StepFilling(run[k - 1], u, nr, clock, t);
    }
  }

  /** Entry `i` that thread `t` has recorded. */
  predicate Recorded(s: State, t: Tid, i: nat) {
    t in s.th && i < |s.th[t].entries|
  }

  ghost predicate Held(s: State, n: nat) {
    exists w :: w in s.th && Has(s.th[w], n)
  }

  /** Recorded sequence numbers are distinct and below the counter. */
  lemma Distinct(nr: nat, run: seq<State>, k: nat, t: Tid, i: nat, u: Tid, j: nat)
    requires IsRun(nr, run) && k < |run| && Recorded(run[k], t, i) && Recorded(run[k], u, j)
    ensures run[k].th[t].entries[i].seqno == run[k].th[u].entries[j].seqno ==> t == u && i == j
    ensures run[k].th[t].entries[i].seqno < run[k].next
  {
    RunKeeps(nr, run, k);
    var s := run[k];
    assert ThreadOk(s, t, s.th[t]) && ThreadOk(s, u, s.th[u]);
  }

  /** No number below the counter is missing: it has been recorded, or its thread is about to record it. */
  lemma NoGaps(nr: nat, run: seq<State>, k: nat, n: nat)
    requires IsRun(nr, run) && k < |run| && n < run[k].next
    ensures Held(run[k], n)
  {
    RunKeeps(nr, run, k);
    assert Has(run[k].th[run[k].won[n].t], n);
  }

  predicate Monotone(a: seq<nat>) {
    forall x, y :: 0 <= x < y < |a| ==> a[x] <= a[y]
  }

  /** If the clock never went backwards over all reads of all threads, recorded timestamps are non-decreasing in
      the order of their sequence numbers. */
  lemma SortedByNumber(nr: nat, run: seq<State>, k: nat, t: Tid, i: nat, u: Tid, j: nat)
    requires IsRun(nr, run) && k < |run| && Recorded(run[k], t, i) && Recorded(run[k], u, j)
    requires run[k].th[t].entries[i].seqno < run[k].th[u].entries[j].seqno
    requires Monotone(run[k].seen)
    ensures run[k].th[t].entries[i].tsc <= run[k].th[u].entries[j].tsc
  {
    RunKeeps(nr, run, k);
    var s := run[k];
    assert ThreadOk(s, t, s.th[t]) && ThreadOk(s, u, s.th[u]);
    var e, f := s.th[t].entries[i], s.th[u].entries[j];
    assert s.seen[s.won[e.seqno].rd] == e.tsc && s.seen[s.won[f.seqno].rd] == f.tsc;
  }

  // ---------------------------------------------------------------- the check

  predicate Descends(e: seq<Entry>, i: nat) {
    1 <= i < |e| && e[i - 1].tsc > e[i].tsc
  }

  function Descents(e: seq<Entry>, n: nat): nat
    requires n <= |e|
  {
    if n == 0 then 0 else Descents(e, n - 1) + if Descends(e, n - 1) then 1 else 0
  }

  /** The loop over the entries sorted by sequence number; it stops at the first mismatch unless debugging. */
  method CountMismatches(e: seq<Entry>, debug: bool) returns (failed: nat)
    ensures failed != 0 <==> exists i: nat :: Descends(e, i)
    ensures failed == if debug then Descents(e, |e|) else if Descents(e, |e|) == 0 then 0 else 1
  {
    failed := 0;
    var i := 0;
    while i < |e|
      invariant 0 <= i <= |e| && failed == Descents(e, i)
      invariant failed != 0 ==> debug
      invariant failed != 0 <==> exists x: nat :: x < i && Descends(e, x)
    {
      if i > 0 && e[i - 1].tsc > e[i].tsc {
        assert Descends(e, i);
        failed := failed + 1;
        if !debug {
          DescentsGrow(e, i + 1, |e|);
          return;
        }
      }
      i := i + 1;
    }
  }

  lemma {:induction false} DescentsGrow(e: seq<Entry>, m: nat, n: nat)
    requires m <= n <= |e|
    ensures Descents(e, m) <= Descents(e, n)
  {
    if m < n {
      DescentsGrow(e, m, n - 1);
    }
  }

  /** `e` lists entries recorded in `s`, sorted by sequence number. */
  ghost predicate SortedEntries(s: State, e: seq<Entry>) {
    && (forall i, j :: 0 <= i < j < |e| ==> e[i].seqno < e[j].seqno)
    && (forall i :: 0 <= i < |e| ==> exists t: Tid, x: nat :: Recorded(s, t, x) && s.th[t].entries[x] == e[i])
  }

  /** So a reported mismatch always means that the clock went backwards: some read returned less than an earlier one. */
  lemma MismatchMeansBackwards(nr: nat, run: seq<State>, k: nat, e: seq<Entry>, i: nat)
    requires IsRun(nr, run) && k < |run| && SortedEntries(run[k], e) && Descends(e, i)
    ensures exists x, y :: 0 <= x < y < |run[k].seen| && run[k].seen[x] > run[k].seen[y]
  {
    var s := run[k];
    var t: Tid, x: nat :| Recorded(s, t, x) && s.th[t].entries[x] == e[i - 1];
    var u: Tid, y: nat :| Recorded(s, u, y) && s.th[u].entries[y] == e[i];
    if Monotone(s.seen) {
      SortedByNumber(nr, run, k, t, x, u, y);
      assert false;
    }
  }
}
