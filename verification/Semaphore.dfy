/** The fio semaphore used as a lock: a value, a count of waiters, a pthread mutex and a condition variable.

    `fio_mutex_up` sends its signal after it has dropped the pthread mutex, and only when the value was zero and
    somebody was waiting. Condition waits may also return spuriously. Any number of threads may call in.
 */
module Semaphore {
  import opened Options
  import opened Threads

  datatype Label =
    | Out
    | DownLock               // fio_mutex_down: wants the pthread mutex
    | DownTest(slept: bool)  // at the loop test; `slept` once it has come back from a wait
    | Asleep                 // in pthread_cond_wait
    | Woken                  // signalled or woken spuriously, wants the pthread mutex back
    | Back                   // about to decrement waiters
    | DownUnlock
    | TryLock
    | TryTest
    | TryUnlock(taken: bool)
    | Holding
    | UpLock                 // fio_mutex_up: wants the pthread mutex
    | UpBody
    | UpUnlock(wake: bool)
    | UpSignal               // owes the signal

  datatype State = State(value: int, waiters: int, lock: Option<Tid>, at: map<Tid, Label>)

  datatype Choice = Down | Try | Up | Spurious | Wake(victim: Tid)

  function At(s: State, t: Tid): Label {
    if t in s.at then s.at[t] else Out
  }

  function Put(s: State, t: Tid, l: Label): State {
    s.(at := s.at[t := l])
  }

  function Acquire(s: State, t: Tid, l: Label): Option<State> {
    if s.lock.None? then Some(Put(s, t, l).(lock := Some(t))) else None
  }

  function Unlock(s: State, t: Tid, l: Label): State {
    Put(s, t, l).(lock := None)
  }

  const INIT := State(1, 0, None, map[])

  /** One step of thread `t`; `None` when it has to wait. */
  function Step(s: State, t: Tid, c: Choice): Option<State> {
    match At(s, t)
    case Out =>
      if c.Down? then Some(Put(s, t, DownLock)) else if c.Try? then Some(Put(s, t, TryLock)) else None
    case DownLock => Acquire(s, t, DownTest(false))
    case DownTest(_) =>
      if s.value == 0 then Some(Unlock(s, t, Asleep).(waiters := s.waiters + 1))
      else Some(Put(s, t, DownUnlock).(value := s.value - 1))
    case Asleep => if c.Spurious? then Some(Put(s, t, Woken)) else None
    case Woken => Acquire(s, t, Back)
    case Back => Some(Put(s, t, DownTest(true)).(waiters := s.waiters - 1))
    case DownUnlock => Some(Unlock(s, t, Holding))
    case TryLock => Acquire(s, t, TryTest)
    case TryTest =>
      if s.value != 0 then Some(Put(s, t, TryUnlock(true)).(value := s.value - 1))
      else Some(Put(s, t, TryUnlock(false)))
    case TryUnlock(taken) => Some(Unlock(s, t, if taken then Holding else Out))
    case Holding => if c.Up? then Some(Put(s, t, UpLock)) else None
    case UpLock => Acquire(s, t, UpBody)
    case UpBody => Some(Put(s, t, UpUnlock(s.value == 0 && s.waiters != 0)).(value := s.value + 1))
    case UpUnlock(wake) => Some(Unlock(s, t, if wake then UpSignal else Out))
    case UpSignal =>
      if c.Wake? && At(s, c.victim).Asleep? then Some(Put(Put(s, c.victim, Woken), t, Out))
      else if Sleepers(s) == {} then Some(Put(s, t, Out))
      else None
  }

  function Sleepers(s: State): set<Tid> {
    set t | t in s.at && s.at[t].Asleep?
  }

  // ---------------------------------------------------------------- the invariant

  predicate HasLock(l: Label) {
    l.DownTest? || l.Back? || l.DownUnlock? || l.TryTest? || l.TryUnlock? || l.UpBody? || l.UpUnlock?
  }

  /** Counted in `waiters`. */
  predicate Waits(l: Label) {
    l.Asleep? || l.Woken? || l.Back?
  }

  /** Has taken the value and not given it back. */
  predicate Owns(l: Label) {
    l.DownUnlock? || (l.TryUnlock? && l.taken) || l.Holding? || l.UpLock? || l.UpBody?
  }

  /** Owes a signal, or was woken and has yet to look at the value again. */
  predicate Rouses(l: Label) {
    l.UpSignal? || (l.UpUnlock? && l.wake) || l.Woken? || l.Back? || (l.DownTest? && l.slept)
  }

  function Waiting(at: map<Tid, Label>): set<Tid> {
    set t | t in at && Waits(at[t])
  }

  function Owners(at: map<Tid, Label>): set<Tid> {
    set t | t in at && Owns(at[t])
  }

  ghost predicate LockOwned(s: State) {
    && (forall t :: t in s.at && HasLock(s.at[t]) ==> s.lock == Some(t))
    && (s.lock.Some? ==> s.lock.value in s.at && HasLock(s.at[s.lock.value]))
  }

  ghost predicate Roused(s: State) {
    s.value > 0 && Sleepers(s) != {} ==> exists t :: t in s.at && Rouses(s.at[t])
  }

  ghost predicate Inv(s: State) {
    && LockOwned(s)
    && s.waiters == |Waiting(s.at)|
    && s.value >= 0 && s.value + |Owners(s.at)| == 1
    && Roused(s)
  }

  // ---------------------------------------------------------------- every step keeps it

  lemma Moved(at: map<Tid, Label>, t: Tid, l: Label)
    ensures |Waiting(at[t := l])| == |Waiting(at)| + Bit(Waits(l)) - Bit(t in at && Waits(at[t]))
    ensures |Owners(at[t := l])| == |Owners(at)| + Bit(Owns(l)) - Bit(t in at && Owns(at[t]))
  {
    CountMoved(Waiting(at), Waiting(at[t := l]), t);
    CountMoved(Owners(at), Owners(at[t := l]), t);
  }

  predicate Signals(s: State, t: Tid, c: Choice) {
    At(s, t).UpSignal? && c.Wake? && At(s, c.victim).Asleep?
  }

  lemma LockKeeps(s: State, t: Tid, c: Choice)
    requires LockOwned(s) && Step(s, t, c).Some? && !Signals(s, t, c)
    ensures LockOwned(Step(s, t, c).value)
  {
  }

  lemma CountsKeep(s: State, t: Tid, c: Choice)
    requires s.waiters == |Waiting(s.at)| && s.value >= 0 && s.value + |Owners(s.at)| == 1
    requires Step(s, t, c).Some? && !Signals(s, t, c)
    ensures var s' := Step(s, t, c).value;
      s'.waiters == |Waiting(s'.at)| && s'.value >= 0 && s'.value + |Owners(s'.at)| == 1
  {
    hide Waiting, Owners;
    var s' := Step(s, t, c).value;
    OneMoves(s, t, c);
    Moved(s.at, t, s'.at[t]);
    OwnerCounts(s.at, t);
    CountsMove(s, t, c);
    hide Step, Waits, Owns;
  }

  lemma OwnerCounts(at: map<Tid, Label>, t: Tid)
    ensures t in at && Owns(at[t]) ==> |Owners(at)| >= 1
  {
    assert t in at && Owns(at[t]) ==> t in Owners(at);
  }

  lemma OneMoves(s: State, t: Tid, c: Choice)
    requires Step(s, t, c).Some? && !Signals(s, t, c)
    ensures t in Step(s, t, c).value.at && Step(s, t, c).value.at == s.at[t := Step(s, t, c).value.at[t]]
  {
  }

  /** The counters move with the label of the thread. */
  lemma CountsMove(s: State, t: Tid, c: Choice)
    requires Step(s, t, c).Some? && !Signals(s, t, c) && t in Step(s, t, c).value.at && s.value >= 0
    requires s.value <= 1 && (Owns(At(s, t)) ==> s.value == 0)
    ensures var s', l, l' := Step(s, t, c).value, At(s, t), Step(s, t, c).value.at[t];
      && s'.waiters == s.waiters + Bit(Waits(l')) - Bit(Waits(l))
      && s'.value == s.value - Bit(Owns(l')) + Bit(Owns(l)) && s'.value >= 0
  {
  }

  lemma SignalKeeps(s: State, t: Tid, c: Choice)
    requires Inv(s) && Signals(s, t, c)
    ensures Inv(Step(s, t, c).value)
  {
    var mid := Put(s, c.victim, Woken);
    var s' := Put(mid, t, Out);
    Moved(s.at, c.victim, Woken);
    Moved(mid.at, t, Out);
    assert Rouses(s'.at[c.victim]);
  }

  /** Raising the value while somebody sleeps leaves a signal owed. */
  lemma UpRouses(s: State, t: Tid, c: Choice)
    requires Inv(s) && At(s, t).UpBody?
    ensures Roused(Step(s, t, c).value)
  {
    var s' := Step(s, t, c).value;
    if Sleepers(s') != {} {
      var a :| a in Sleepers(s');
      assert t in Owners(s.at) && a in Waiting(s.at);
      assert Rouses(s'.at[t]);
    }
  }

  /** Whoever clears a duty to rouse either passes it on, finds nobody asleep, or takes the value away. */
  lemma StepRouses(s: State, t: Tid, c: Choice)
    requires Roused(s) && s.value <= 1 && Step(s, t, c).Some? && !Signals(s, t, c) && !At(s, t).UpBody?
    ensures Roused(Step(s, t, c).value)
  {
    var s' := Step(s, t, c).value;
    if s'.value > 0 && Sleepers(s') != {} {
      var a :| a in Sleepers(s');
      assert a in Sleepers(s);
      var w :| w in s.at && Rouses(s.at[w]);
      assert Rouses(s'.at[w]);
    }
  }

  lemma StepKeeps(s: State, t: Tid, c: Choice)
    requires Inv(s) && Step(s, t, c).Some?
    ensures Inv(Step(s, t, c).value)
  {
    hide Step, LockOwned, Roused;
    if Signals(s, t, c) {
      SignalKeeps(s, t, c);
    } else {
      LockKeeps(s, t, c);
      CountsKeep(s, t, c);
      if At(s, t).UpBody? {
        UpRouses(s, t, c);
      } else {
        StepRouses(s, t, c);
      }
    }
  }

  // ---------------------------------------------------------------- whole runs

  ghost predicate Next(s: State, s': State) {
    exists t: Tid, c: Choice :: Step(s, t, c) == Some(s')
  }

  ghost predicate IsRun(run: seq<State>) {
    && run != [] && run[0] == INIT
    && forall i, j :: 0 <= i && j == i + 1 < |run| ==> Next(run[i], run[j])
  }

  lemma {:induction false} RunKeeps(run: seq<State>, k: nat)
    requires IsRun(run) && k < |run|
    ensures Inv(run[k])
  {
    hide Step;
    if k == 0 {
      assert Waiting(INIT.at) == {} && Owners(INIT.at) == {};
    } else {
      RunKeeps(run, k - 1);
      assert Next(run[k - 1], run[k]);
      var t: Tid, c: Choice :| Step(run[k - 1], t, c) == Some(run[k]);
      StepKeeps(run[k - 1], t, c);
    }
  }

  /** Used as a lock: at most one thread has the value, which is 1 exactly when nobody has it. */
  lemma MutualExclusion(run: seq<State>, k: nat, t: Tid, u: Tid)
    requires IsRun(run) && k < |run| && t in run[k].at && u in run[k].at && Owns(run[k].at[t]) && Owns(run[k].at[u])
    ensures t == u && run[k].value == 0
  {
    RunKeeps(run, k);
    assert {t, u} <= Owners(run[k].at);
    SubsetSize({t, u}, Owners(run[k].at));
  }

  /** Whenever the value is free and a thread sleeps, a signal is owed or a woken thread has yet to recheck. */
  lemma NoLostWakeup(run: seq<State>, k: nat)
    requires IsRun(run) && k < |run| && run[k].value != 0 && Sleepers(run[k]) != {}
    ensures exists u :: u in run[k].at && Rouses(run[k].at[u])
  {
    RunKeeps(run, k);
  }

  /** A step the code takes by itself: not a new call and not a spurious wakeup. */
  predicate Internal(s: State, t: Tid) {
    !At(s, t).Out? && !At(s, t).Holding? && !At(s, t).Asleep?
  }

  /** So the system is never stuck with the value free and a thread asleep: some thread can step by itself. */
  lemma SleepersAreNotStuck(run: seq<State>, k: nat)
    requires IsRun(run) && k < |run| && run[k].value != 0 && Sleepers(run[k]) != {}
    ensures exists t: Tid, c: Choice :: Internal(run[k], t) && Step(run[k], t, c).Some?
  {
    RunKeeps(run, k);
    var s := run[k];
    var a :| a in Sleepers(s);
    var u :| u in s.at && Rouses(s.at[u]);
    var t := if s.lock.Some? then s.lock.value else u;
    assert Internal(s, t) && Step(s, t, Wake(a)).Some?;
  }

  // ---------------------------------------------------------------- what the calls answer

  /** A trylock takes the value if and only if nobody has it. */
  lemma TryAnswers(run: seq<State>, k: nat, t: Tid, c: Choice)
    requires IsRun(run) && k < |run| && At(run[k], t).TryTest?
    ensures Step(run[k], t, c).Some?
    ensures At(Step(run[k], t, c).value, t) == TryUnlock(Owners(run[k].at) == {})
  {
    RunKeeps(run, k);
    NobodyOwns(run[k].at);
  }

  lemma NobodyOwns(at: map<Tid, Label>)
    ensures |Owners(at)| == 0 <==> Owners(at) == {}
  {
  }

  /** A down takes the value if and only if nobody has it, and otherwise goes to sleep. */
  lemma DownAnswers(run: seq<State>, k: nat, t: Tid, c: Choice)
    requires IsRun(run) && k < |run| && At(run[k], t).DownTest?
    ensures Step(run[k], t, c).Some?
    ensures At(Step(run[k], t, c).value, t) == if Owners(run[k].at) == {} then DownUnlock else Asleep
  {
    RunKeeps(run, k);
    NobodyOwns(run[k].at);
  }

  /** An up owes a signal if and only if some thread is in a wait. */
  lemma UpAnswers(run: seq<State>, k: nat, t: Tid, c: Choice)
    requires IsRun(run) && k < |run| && At(run[k], t).UpBody?
    ensures Step(run[k], t, c).Some?
    ensures At(Step(run[k], t, c).value, t) == UpUnlock(Waiting(run[k].at) != {})
  {
    RunKeeps(run, k);
    assert t in Owners(run[k].at);
    assert |Waiting(run[k].at)| == 0 <==> Waiting(run[k].at) == {};
  }

  predicate InDown(l: Label) {
    l.DownLock? || l.DownTest? || l.Asleep? || l.Woken? || l.Back? || l.DownUnlock?
  }

  predicate InTry(l: Label) {
    l.TryLock? || l.TryTest? || l.TryUnlock?
  }

  predicate InUp(l: Label) {
    l.UpLock? || l.UpBody? || l.UpUnlock? || l.UpSignal?
  }

  /** Calls begin and end as they should: a down ends only with the value, a trylock with it or without, an up without
      it. */
  predicate CallOk(l: Label, l': Label) {
    && (InDown(l) && !InDown(l') ==> l'.Holding?)
    && (InTry(l) && !InTry(l') ==> l.TryUnlock? && (if l.taken then l'.Holding? else l'.Out?))
    && (InUp(l) && !InUp(l') ==> l'.Out?)
    && (l.Holding? && !l'.Holding? ==> InUp(l'))
    && (l.Out? && !l'.Out? ==> l'.DownLock? || l'.TryLock?)
  }

  lemma OwnCall(s: State, t: Tid, c: Choice)
    requires Step(s, t, c).Some?
    ensures CallOk(At(s, t), At(Step(s, t, c).value, t))
  {
  }

  lemma OtherCall(s: State, u: Tid, c: Choice, t: Tid)
    requires Step(s, u, c).Some? && t != u
    ensures At(Step(s, u, c).value, t) == if Signals(s, u, c) && c.victim == t then Woken else At(s, t)
  {
  }

  lemma CallsEnd(run: seq<State>, k: nat, t: Tid)
    requires IsRun(run) && k + 1 < |run|
    ensures CallOk(At(run[k], t), At(run[k + 1], t))
  {
    hide Step;
    assert Next(run[k], run[k + 1]);
    var u: Tid, c: Choice :| Step(run[k], u, c) == Some(run[k + 1]);
    if t == u {
      OwnCall(run[k], t, c);
    } else {
      OtherCall(run[k], u, c, t);
    }
  }

  // ---------------------------------------------------------------- progress

  /** Steps a thread can still take by itself; a signal that is owed counts for the thread it will wake. */
  function Weight(l: Label): nat {
    match l
    case Out => 0
    case Holding => 0
    case Asleep => 0
    case DownUnlock => 1
    case DownTest(_) => 2
    case Back => 3
    case Woken => 4
    case DownLock => 3
    case TryUnlock(_) => 1
    case TryTest => 2
    case TryLock => 3
    case UpSignal => 5
    case UpUnlock(_) => 6
    case UpBody => 7
    case UpLock => 8
  }

  ghost function Total(at: map<Tid, Label>): nat {
    if at == map[] then 0 else var t :| t in at; Weight(at[t]) + Total(at - {t})
  }

  /** The total does not depend on the order in which it is added up. */
  lemma {:induction false} TotalOf(at: map<Tid, Label>, t: Tid)
    requires t in at
    ensures Total(at) == Weight(at[t]) + Total(at - {t})
    decreases |at|
  {
    var u :| u in at && Total(at) == Weight(at[u]) + Total(at - {u});
    if u != t {
      TotalOf(at - {u}, t);
      TotalOf(at - {t}, u);
      assert at - {u} - {t} == at - {t} - {u};
    }
  }

  lemma TotalMoved(at: map<Tid, Label>, t: Tid, l: Label)
    ensures Total(at[t := l]) == Total(at) + Weight(l) - if t in at then Weight(at[t]) else 0
  {
    TotalOf(at[t := l], t);
    assert at[t := l] - {t} == at - {t};
    if t in at {
      TotalOf(at, t);
    } else {
      assert at - {t} == at;
    }
  }

  /** Every step the code takes by itself uses some of the total up. */
  lemma InternalFalls(s: State, t: Tid, c: Choice)
    requires Internal(s, t) && Step(s, t, c).Some?
    ensures Total(Step(s, t, c).value.at) < Total(s.at)
  {
    hide Total;
    var s' := Step(s, t, c).value;
    if Signals(s, t, c) {
      TotalMoved(s.at, c.victim, Woken);
      TotalMoved(s.at[c.victim := Woken], t, Out);
    } else {
      assert s'.at == s.at[t := s'.at[t]];
      TotalMoved(s.at, t, s'.at[t]);
    }
  }

  ghost predicate InternalNext(s: State, s': State) {
    exists t: Tid, c: Choice :: Internal(s, t) && Step(s, t, c) == Some(s')
  }

  /** From state `k` on the run has only steps the code takes by itself: no new calls, no spurious wakeups. */
  ghost predicate InternalFrom(run: seq<State>, k: nat) {
    forall i, j :: k <= i && j == i + 1 < |run| ==> InternalNext(run[i], run[j])
  }

  /** There are only finitely many of them, in whatever order they come. */
  lemma {:induction false} InternalStepsEnd(run: seq<State>, k: nat, l: nat)
    requires k <= l < |run| && InternalFrom(run, k)
    ensures l - k + Total(run[l].at) <= Total(run[k].at)
    decreases l - k
  {
    hide Total, Step;
    if k < l {
      InternalStepsEnd(run, k, l - 1);
      assert InternalNext(run[l - 1], run[l]);
      var t: Tid, c: Choice :| Internal(run[l - 1], t) && Step(run[l - 1], t, c) == Some(run[l]);
      InternalFalls(run[l - 1], t, c);
    }
  }

  /** And they lead on: once no more of them are possible, somebody has the value or nobody sleeps. */
  lemma SettledMeansTaken(run: seq<State>, k: nat)
    requires IsRun(run) && k < |run| && !exists t: Tid, c: Choice :: Internal(run[k], t) && Step(run[k], t, c).Some?
    ensures run[k].value == 0 || Sleepers(run[k]) == {}
  {
    hide IsRun, Step;
    if run[k].value != 0 && Sleepers(run[k]) != {} {
      SleepersAreNotStuck(run, k);
    }
  }

  /** So every run can be continued, by such steps alone, until somebody has the value or nobody sleeps. */
  lemma {:induction false} SleepersGetOn(run: seq<State>) returns (all: seq<State>)
    requires IsRun(run)
    ensures IsRun(all) && run <= all && InternalFrom(all, |run| - 1)
    ensures all[|all| - 1].value == 0 || Sleepers(all[|all| - 1]) == {}
    decreases Total(run[|run| - 1].at)
  {
    hide Total, Step;
    var s := run[|run| - 1];
    if s.value == 0 || Sleepers(s) == {} {
      all := run;
    } else {
      SleepersAreNotStuck(run, |run| - 1);
      var t: Tid, c: Choice :| Internal(s, t) && Step(s, t, c).Some?;
      var next := Step(s, t, c).value;
      InternalFalls(s, t, c);
      assert Next(s, next) && InternalNext(s, next);
      all := SleepersGetOn(run + [next]);
      ContinuesInternally(run, next, all);
    }
  }

  lemma ContinuesInternally(run: seq<State>, next: State, all: seq<State>)
    requires run != [] && run + [next] <= all && InternalFrom(all, |run|) && InternalNext(run[|run| - 1], next)
    ensures InternalFrom(all, |run| - 1)
  {
    hide InternalNext;
    assert all[|run| - 1] == run[|run| - 1] && all[|run|] == next;
  }
}
