/** Two threads fill one array under Peterson's algorithm. Every read and every write of a shared variable is a
    step of its own, in a sequentially consistent order chosen by the scheduler. */
module Peterson {
  import opened Options

  const BATCH: nat := 100

  datatype Label =
    | Top        // at the loop test
    | SetFlag
    | SetTurn
    | ReadFlag   // first half of the wait test
    | ReadTurn   // second half of the wait test
    | BatchTop   // in the critical section, at the test of the inner loop
    | ReadSlot   // read arr_ind for the store
    | Store      // write data[reg]
    | ReadIndex  // read arr_ind for the increment
    | WriteIndex // write arr_ind
    | ClearFlag
    | Done

  datatype Thread = Thread(at: Label, i: nat, j: nat, reg: nat)

  /** `overrun` is history: some store has been outside the array. */
  datatype State = State(flag: seq<bool>, turn: nat, index: nat, data: seq<int>, th: seq<Thread>, overrun: bool)

  type Me = m: nat | m < 2

  function Other(me: Me): Me { 1 - me }

  predicate WellFormed(s: State) {
    |s.flag| == 2 && |s.th| == 2
  }

  function Init(max: nat): State {
    var t := Thread(Top, 0, 0, 0);
    State([false, false], 0, 0, seq(max, k => 0), [t, t], false)
  }

  function Goto(s: State, me: Me, l: Label): State
    requires WellFormed(s)
  {
    s.(th := s.th[me := s.th[me].(at := l)])
  }

  function StoreAt(s: State, k: nat, x: int): (r: State)
    ensures r == s.(data := r.data, overrun := r.overrun) && |r.data| == |s.data|
  {
    if k < |s.data| then s.(data := s.data[k := x]) else s.(overrun := true)
  }

  /** One step of thread `me`. A store outside the array is undefined in C; here it is only noted, so what is said of a
      run is meant up to the first such store. */
  function Step(s: State, me: Me): Option<State>
    requires WellFormed(s)
  {
    var p := s.th[me];
    match p.at
    case Top => Some(Goto(s, me, if p.i < |s.data| then SetFlag else Done))
    case SetFlag => Some(Goto(s, me, SetTurn).(flag := s.flag[me := true]))
    case SetTurn => Some(Goto(s, me, ReadFlag).(turn := Other(me)))
    case ReadFlag => Some(if s.flag[Other(me)] then Goto(s, me, ReadTurn) else Begin(s, me))
    case ReadTurn => Some(if s.turn == Other(me) then Goto(s, me, ReadFlag) else Begin(s, me))
    case BatchTop => Some(Goto(s, me, if p.j < BATCH then ReadSlot else ClearFlag))
    case ReadSlot => Some(s.(th := s.th[me := p.(at := Store, reg := s.index)]))
    case Store =>
      Some(Goto(StoreAt(s, p.reg, p.i + me), me, ReadIndex))
    case ReadIndex => Some(s.(th := s.th[me := p.(at := WriteIndex, reg := s.index)]))
    case WriteIndex =>
      Some(s.(index := p.reg + 1, th := s.th[me := p.(at := BatchTop, i := p.i + 2, j := p.j + 1)]))
    case ClearFlag => Some(Goto(s, me, Top).(flag := s.flag[me := false]))
    case Done => None
  }

  function Begin(s: State, me: Me): State
    requires WellFormed(s)
  {
    s.(th := s.th[me := s.th[me].(at := BatchTop, j := 0)])
  }

  /** Where a step takes the label of its thread. */
  predicate Goes(s: State, me: Me, l: Label)
    requires WellFormed(s)
  {
    match s.th[me].at
    case Top => l.SetFlag? || l.Done?
    case SetFlag => l.SetTurn?
    case SetTurn => l.ReadFlag?
    case ReadFlag => if s.flag[Other(me)] then l.ReadTurn? else l.BatchTop?
    case ReadTurn => if s.turn == Other(me) then l.ReadFlag? else l.BatchTop?
    case BatchTop => l.ReadSlot? || l.ClearFlag?
    case ReadSlot => l.Store?
    case Store => l.ReadIndex?
    case ReadIndex => l.WriteIndex?
    case WriteIndex => l.BatchTop?
    case ClearFlag => l.Top?
    case Done => false
  }

  /** What a step does to the lock variables and to the labels. */
  ghost predicate Shape(s: State, me: Me, s': State)
    requires WellFormed(s)
  {
    var l := s.th[me].at;
    && WellFormed(s') && Goes(s, me, s'.th[me].at) && s'.th[Other(me)] == s.th[Other(me)]
    && s'.flag[Other(me)] == s.flag[Other(me)]
    && s'.flag[me] == (if l.SetFlag? then true else if l.ClearFlag? then false else s.flag[me])
    && s'.turn == (if l.SetTurn? then Other(me) else s.turn)
    && s'.index == (if l.WriteIndex? then s.th[me].reg + 1 else s.index) && |s'.data| == |s.data|
    && s'.overrun == (s.overrun || (l.Store? && s.th[me].reg >= |s.data|))
  }

  lemma StepShape(s: State, me: Me)
    requires WellFormed(s) && Step(s, me).Some?
    ensures Shape(s, me, Step(s, me).value)
  {
  }

  // ---------------------------------------------------------------- mutual exclusion

  predicate Waits(l: Label) { l.ReadFlag? || l.ReadTurn? }

  predicate Critical(l: Label) {
    l.BatchTop? || l.ReadSlot? || l.Store? || l.ReadIndex? || l.WriteIndex? || l.ClearFlag?
  }

  predicate Flagged(l: Label) { l.SetTurn? || Waits(l) || Critical(l) }

  /** While `me` is in the critical section the other one can only wait, and the turn holds it there. */
  predicate Excludes(s: State, me: Me)
    requires WellFormed(s)
  {
    var o := s.th[Other(me)].at;
    Critical(s.th[me].at) ==> !Critical(o) && (Waits(o) ==> s.turn == me)
  }

  predicate Locked(s: State) {
    && WellFormed(s) && s.turn < 2
    && s.flag[0] == Flagged(s.th[0].at) && s.flag[1] == Flagged(s.th[1].at)
    && Excludes(s, 0) && Excludes(s, 1)
  }

  lemma StepLocked(s: State, me: Me)
    requires Locked(s) && Step(s, me).Some?
    ensures Locked(Step(s, me).value)
  {
    hide Step;
    StepShape(s, me);
  }

  // ---------------------------------------------------------------- what is in the array

  /** The numbers of thread `me` below `i`: those with its parity. */
  ghost function Numbers(me: Me, i: nat): multiset<int> {
    if i < 2 then multiset{} else Numbers(me, i - 2) + multiset{i - 2 + me}
  }

  /** The numbers both threads have counted. */
  ghost function Both(i: nat, j: nat): multiset<int> {
    Numbers(0, i) + Numbers(1, j)
  }

  lemma BothNext(i: nat, j: nat)
    ensures Both(i + 2, j) == Both(i, j) + multiset{i}
    ensures Both(i, j + 2) == Both(i, j) + multiset{j + 1}
  {
    hide Numbers;
    NextNumber(0, i);
    NextNumber(1, j);
  }

  /** A whole number of batches of both threads. */
  predicate Aligned(n: int) {
    n % (2 * BATCH) == 0
  }

  lemma AlignedRoom(n: int, max: int)
    requires Aligned(n) && Aligned(max) && n < max
    ensures n + 2 * BATCH <= max
  {
  }

  lemma AlignedNext(n: int)
    requires Aligned(n)
    ensures Aligned(n + 2 * BATCH)
  {
  }

  lemma AlignedAbove(n: int, max: int)
    requires Aligned(n) && Aligned(max) && n < max + 2 * BATCH
    ensures n <= max
  {
  }

  /** A thread counts in whole batches, and starts a batch only below the size of the array. */
  predicate ThreadOk(s: State, me: Me)
    requires WellFormed(s)
  {
    var p := s.th[me];
    && p.i < |s.data| + 2 * BATCH
    && (if Critical(p.at) then p.j <= BATCH && Aligned(p.i - 2 * p.j) && p.i - 2 * p.j < |s.data|
        else Aligned(p.i))
    && (p.at.SetFlag? || (Flagged(p.at) && !Critical(p.at)) ==> p.i < |s.data|)
    && (p.at.ReadSlot? || p.at.Store? || p.at.ReadIndex? || p.at.WriteIndex? ==> p.j < BATCH)
    && (p.at.ClearFlag? ==> p.j == BATCH)
    && (p.at.Store? || p.at.WriteIndex? ==> p.reg == s.index)
    && (p.at.Done? ==> p.i >= |s.data|)
  }

  /** A number has been stored and the index does not count it yet. */
  predicate Pending(s: State, me: Me)
    requires WellFormed(s)
  {
    s.th[me].at.ReadIndex? || s.th[me].at.WriteIndex?
  }

  predicate StoredOk(s: State, me: Me)
    requires WellFormed(s)
  {
    Pending(s, me) ==> s.index < |s.data| && s.data[s.index] == s.th[me].i + me
  }

  /** The index counts the numbers of both threads; as long as all stores were in range, the counted part of the array
      is exactly those numbers. */
  ghost predicate Filled(s: State)
    requires WellFormed(s)
  {
    && 2 * s.index == s.th[0].i + s.th[1].i
    && (s.overrun || Counted(s))
  }

  ghost predicate Counted(s: State)
    requires WellFormed(s)
  {
    && s.index <= |s.data|
    && multiset(s.data[..s.index]) == Both(s.th[0].i, s.th[1].i)
    && StoredOk(s, 0) && StoredOk(s, 1)
  }

  ghost predicate Inv(s: State) {
    Locked(s) && ThreadOk(s, 0) && ThreadOk(s, 1) && Filled(s)
  }

  lemma StepMine(s: State, me: Me)
    requires WellFormed(s) && ThreadOk(s, me) && Step(s, me).Some?
    ensures ThreadOk(Step(s, me).value, me)
  {
    hide Aligned, StoreAt;
    var p := s.th[me];
    if Critical(p.at) {
      AlignedNext(p.i - 2 * p.j);
    }
  }

  /** A step of one thread leaves what is known about the other, because only the critical section moves the index. */
  lemma StepTheirs(s: State, me: Me)
    requires Locked(s) && ThreadOk(s, me) && ThreadOk(s, Other(me)) && Step(s, me).Some?
    ensures ThreadOk(Step(s, me).value, Other(me))
  {
    hide Aligned, Step;
    StepShape(s, me);
  }

  lemma StoreFilled(s: State, me: Me)
    requires Inv(s) && s.th[me].at.Store? && Step(s, me).Some?
    ensures Filled(Step(s, me).value)
  {
    hide Aligned, Both;
    var s' := Step(s, me).value;
    if !s'.overrun {
      assert s'.data[..s'.index] == s.data[..s.index];
    }
  }

  lemma NextNumber(me: Me, i: nat)
    ensures Numbers(me, i + 2) == Numbers(me, i) + multiset{i + me}
  {
  }

  lemma Appended(a: seq<int>, n: nat)
    requires n < |a|
    ensures multiset(a[..n + 1]) == multiset(a[..n]) + multiset{a[n]}
  {
    assert a[..n + 1] == a[..n] + [a[n]];
  }

  lemma Alone(s: State, me: Me)
    requires Inv(s) && s.th[me].at.WriteIndex?
    ensures WellFormed(s) && !Pending(s, Other(me)) && s.th[me].reg == s.index
  {
    hide Filled, Aligned;
  }

  lemma CountFilled(s: State, me: Me)
    requires Inv(s) && s.th[me].at.WriteIndex?
    ensures Filled(Step(s, me).value)
  {
    hide Locked, ThreadOk, Aligned, Filled, Step;
    Alone(s, me);
    CountOne(s, me);
  }

  lemma CountStep(s: State, me: Me)
    requires WellFormed(s) && s.th[me].at.WriteIndex?
    ensures Step(s, me).Some?
    ensures var s' := Step(s, me).value;
      && WellFormed(s')
      && s'.data == s.data && s'.overrun == s.overrun && s'.index == s.th[me].reg + 1
      && s'.th[me].i == s.th[me].i + 2 && s'.th[Other(me)] == s.th[Other(me)] && !Pending(s', me)
  {
  }

  /** Counting one more slot, by thread 0 or by thread 1. */
  lemma CountSlot(data: seq<int>, k: nat, i: nat, j: nat)
    requires k < |data| && multiset(data[..k]) == Both(i, j)
    ensures data[k] == i ==> multiset(data[..k + 1]) == Both(i + 2, j)
    ensures data[k] == j + 1 ==> multiset(data[..k + 1]) == Both(i, j + 2)
  {
    hide Both;
    Appended(data, k);
    BothNext(i, j);
  }

  lemma CountOne(s: State, me: Me)
    requires WellFormed(s) && Filled(s) && s.th[me].at.WriteIndex?
    requires !Pending(s, Other(me)) && s.th[me].reg == s.index
    ensures WellFormed(Step(s, me).value) && Filled(Step(s, me).value)
  {
    hide Step, Both;
    CountStep(s, me);
    if !s.overrun {
      assert StoredOk(s, me);
      CountSlot(s.data, s.index, s.th[0].i, s.th[1].i);
    }
    assert me == 0 || me == 1;
  }

  lemma OtherStep(s: State, me: Me)
    requires WellFormed(s) && Step(s, me).Some? && !s.th[me].at.Store? && !s.th[me].at.WriteIndex?
    ensures var s' := Step(s, me).value;
      && WellFormed(s') && s'.data == s.data && s'.index == s.index && s'.overrun == s.overrun
      && s'.th[0].i == s.th[0].i && s'.th[1].i == s.th[1].i
      && (Pending(s', 0) ==> Pending(s, 0)) && (Pending(s', 1) ==> Pending(s, 1))
  {
  }

  lemma OtherFilled(s: State, me: Me)
    requires WellFormed(s) && Filled(s) && Step(s, me).Some? && !s.th[me].at.Store? && !s.th[me].at.WriteIndex?
    ensures WellFormed(Step(s, me).value) && Filled(Step(s, me).value)
  {
    hide Both, Step;
    OtherStep(s, me);
  }

  lemma StepKeeps(s: State, me: Me)
    requires Inv(s) && Step(s, me).Some?
    ensures Inv(Step(s, me).value) && |Step(s, me).value.data| == |s.data|
  {
    hide Excludes, ThreadOk, Aligned, Filled, Flagged;
    StepLocked(s, me);
    StepMine(s, me);
    StepTheirs(s, me);
    if s.th[me].at.Store? {
      StoreFilled(s, me);
    } else if s.th[me].at.WriteIndex? {
      CountFilled(s, me);
    } else {
      OtherFilled(s, me);
    }
  }

  /** With a whole number of batches a thread about to store leaves room for it. */
  lemma RoomLeft(s: State, me: Me)
    requires Inv(s) && Aligned(|s.data|) && s.th[me].at.Store?
    ensures s.th[me].reg == s.index < |s.data|
  {
    hide Aligned;
    var p, o := s.th[me], s.th[Other(me)];
    AlignedRoom(p.i - 2 * p.j, |s.data|);
    assert !Critical(o.at);
    AlignedAbove(o.i, |s.data|);
  }

  // ---------------------------------------------------------------- whole runs

  ghost predicate Next(s: State, s': State) {
    WellFormed(s) && exists me: Me :: Step(s, me) == Some(s')
  }

  ghost predicate IsRun(max: nat, run: seq<State>) {
    && run != [] && run[0] == Init(max)
    && forall i, j :: 0 <= i && j == i + 1 < |run| ==> Next(run[i], run[j])
  }

  lemma InitOk(max: nat)
    ensures Inv(Init(max))
  {
    assert Init(max).data[..0] == [];
  }

  lemma {:induction false} RunKeeps(max: nat, run: seq<State>, k: nat)
    requires IsRun(max, run) && k < |run|
    ensures Inv(run[k]) && |run[k].data| == max
  {
    hide Inv, Step;
    if k == 0 {
      InitOk(max);
    } else {
      RunKeeps(max, run, k - 1);
      assert Next(run[k - 1], run[k]);
      var me: Me :| Step(run[k - 1], me) == Some(run[k]);
      StepKeeps(run[k - 1], me);
    }
  }

  lemma RunLocked(max: nat, run: seq<State>, k: nat)
    requires IsRun(max, run) && k < |run|
    ensures Locked(run[k])
  {
    RunKeeps(max, run, k);
  }

  /** The two threads are never both in the critical section. */
  lemma MutualExclusion(max: nat, run: seq<State>, k: nat)
    requires IsRun(max, run) && k < |run|
    ensures WellFormed(run[k]) && !(Critical(run[k].th[0].at) && Critical(run[k].th[1].at))
  {
    RunLocked(max, run, k);
  }

  /** With a size that is a multiple of 200 no store is ever outside the array. */
  lemma {:induction false} StaysInRange(max: nat, run: seq<State>, k: nat)
    requires IsRun(max, run) && Aligned(max) && k < |run|
    ensures !run[k].overrun
  {
    hide Inv, Aligned, Step;
    if k > 0 {
      StaysInRange(max, run, k - 1);
      RunKeeps(max, run, k - 1);
      InvWellFormed(run[k - 1]);
      assert Next(run[k - 1], run[k]);
      var me: Me :| Step(run[k - 1], me) == Some(run[k]);
      StepShape(run[k - 1], me);
      if run[k - 1].th[me].at.Store? {
        RoomLeft(run[k - 1], me);
      }
    }
  }

  // ---------------------------------------------------------------- bounded overtaking

  predicate Enters(s: State, s': State, who: Me) {
    WellFormed(s) && WellFormed(s') && Waits(s.th[who].at) && Critical(s'.th[who].at)
  }

  /** How often `who` enters the critical section in the steps from run[i] to run[j]. */
  function Entries(run: seq<State>, who: Me, i: nat, j: nat): nat
    requires i <= j < |run|
  {
    if i == j then 0
    else Entries(run, who, i, j - 1) + if Enters(run[j - 1], run[j], who) then 1 else 0
  }

  /** While one thread waits, the other enters only when the turn is not the first one's. */
  lemma WaitEnter(s: State, s': State, me: Me)
    requires Locked(s) && Next(s, s') && Waits(s.th[me].at) && Enters(s, s', Other(me)) && Waits(s'.th[me].at)
    ensures s.turn != me
  {
    hide Step;
    var t: Me :| Step(s, t) == Some(s');
    StepShape(s, t);
  }

  lemma WaitStep(s: State, s': State, me: Me)
    requires Locked(s) && Next(s, s') && Waits(s.th[me].at) && WellFormed(s') && Waits(s'.th[me].at)
    ensures Waits(s'.th[Other(me)].at) ==> s'.turn == me || (s'.turn == s.turn && Waits(s.th[Other(me)].at))
  {
    hide Excludes, Flagged, Step;
    var t: Me :| Step(s, t) == Some(s');
    StepShape(s, t);
  }

  /** From the moment a thread has written `turn` until it gets in, the other one enters at most once, and if it comes
      back to wait it waits behind the first. */
  lemma {:induction false} OvertakenOnce(max: nat, run: seq<State>, me: Me, i: nat, j: nat)
    requires IsRun(max, run) && i <= j < |run|
    requires forall k :: i <= k <= j ==> WellFormed(run[k]) && Waits(run[k].th[me].at)
    ensures Entries(run, Other(me), i, j) <= 1
    ensures Entries(run, Other(me), i, j) == 1 && Waits(run[j].th[Other(me)].at) ==> run[j].turn == me
  {
    hide Locked, Next, Step;
    if i < j {
      OvertakenOnce(max, run, me, i, j - 1);
      RunLocked(max, run, j - 1);
      assert Next(run[j - 1], run[j]);
      WaitStep(run[j - 1], run[j], me);
      if Enters(run[j - 1], run[j], Other(me)) {
        WaitEnter(run[j - 1], run[j], me);
      }
    }
  }

  // ---------------------------------------------------------------- progress

  /** While a thread waits and the turn is its own, a step of the other one changes neither; a step of its own enters,
      or goes from the first half of the test to the second. */
  lemma OwnTurn(s: State, t: Me, me: Me)
    requires Locked(s) && Waits(s.th[me].at) && s.turn == me && Step(s, t).Some?
    ensures var s' := Step(s, t).value;
      if t != me then s'.th[me] == s.th[me] && s'.turn == me
      else Critical(s'.th[me].at) || (s.th[me].at.ReadFlag? && s'.th[me].at.ReadTurn? && s'.turn == me)
  {
    hide Step;
    StepShape(s, t);
  }

  /** A thread that waits enters when it looks at the other's flag and finds it down. */
  lemma FlagDown(s: State, me: Me)
    requires WellFormed(s) && s.th[me].at.ReadFlag? && !s.flag[Other(me)]
    ensures Critical(Step(s, me).value.th[me].at)
  {
  }

  /** Thread `me` takes the step from run[i]. */
  predicate MovesAt(run: seq<State>, me: Me, i: nat) {
    i + 1 < |run| && WellFormed(run[i]) && Step(run[i], me) == Some(run[i + 1])
  }

  /** How many of the steps from run[i] to run[j] are steps of `me`. */
  function OwnSteps(run: seq<State>, me: Me, i: nat, j: nat): nat
    requires i <= j < |run|
    decreases j - i
  {
    if i == j then 0 else (if MovesAt(run, me, i) then 1 else 0) + OwnSteps(run, me, i + 1, j)
  }

  /** A thread that waits on its own turn enters within its next two steps, whatever the other does in between. */
  lemma {:induction false} EntersInTwo(max: nat, run: seq<State>, k: nat, l: nat, me: Me)
    requires IsRun(max, run) && k <= l < |run| && WellFormed(run[k]) && Waits(run[k].th[me].at) && run[k].turn == me
    requires OwnSteps(run, me, k, l) >= if run[k].th[me].at.ReadFlag? then 2 else 1
    ensures exists m :: k < m <= l && WellFormed(run[m]) && Critical(run[m].th[me].at)
    decreases l - k
  {
    hide Step, Locked;
    RunLocked(max, run, k);
    RunLocked(max, run, k + 1);
    LockedWellFormed(run[k + 1]);
    assert Next(run[k], run[k + 1]);
    var t: Me :| Step(run[k], t) == Some(run[k + 1]);
    OwnTurn(run[k], t, me);
    if t != me {
      OnlyOneMoves(run[k], t, me);
    }
    if !Critical(run[k + 1].th[me].at) {
      EntersInTwo(max, run, k + 1, l, me);
    }
  }

  lemma LockedWellFormed(s: State)
    requires Locked(s)
    ensures WellFormed(s)
  {
  }

  /** A step is seen in the label of the thread that takes it, and in no other. */
  lemma OnlyOneMoves(s: State, t: Me, me: Me)
    requires WellFormed(s) && Step(s, t).Some? && t != me
    ensures Step(s, me) != Step(s, t)
  {
    if Step(s, me).Some? {
      StepShape(s, t);
      StepShape(s, me);
    }
    hide Step;
  }

  /** The two threads are never both stuck: when both wait, the one whose turn it is enters within its next two
      steps. */
  lemma NeverBothStuck(max: nat, run: seq<State>, k: nat, l: nat)
    requires IsRun(max, run) && k <= l < |run| && WellFormed(run[k])
    requires Waits(run[k].th[0].at) && Waits(run[k].th[1].at)
    ensures run[k].turn < 2
    ensures OwnSteps(run, run[k].turn, k, l) >= 2 ==>
              exists m :: k < m <= l && WellFormed(run[m]) && Critical(run[m].th[run[k].turn].at)
  {
    RunLocked(max, run, k);
    if OwnSteps(run, run[k].turn, k, l) >= 2 {
      EntersInTwo(max, run, k, l, run[k].turn);
    }
  }

  /** How far a thread is from its end; the two labels of the wait loop count the same. */
  function Rank(s: State, me: Me): int
    requires WellFormed(s)
  {
    var p := s.th[me];
    12 * (|s.data| + 2 * BATCH - p.i) +
    match p.at
    case Done => 0
    case WriteIndex => 1
    case ReadIndex => 2
    case Store => 3
    case ReadSlot => 4
    case BatchTop => if p.j < BATCH then 5 else 11
    case ReadFlag => 6
    case ReadTurn => 6
    case SetTurn => 7
    case SetFlag => 8
    case Top => 9
    case ClearFlag => 10
  }

  /** A step inside the wait loop. */
  predicate Spins(s: State, s': State, me: Me)
    requires WellFormed(s) && WellFormed(s')
  {
    Waits(s.th[me].at) && Waits(s'.th[me].at)
  }

  /** What a step does to the counters of its thread. */
  lemma StepNumbers(s: State, me: Me)
    requires WellFormed(s) && Step(s, me).Some?
    ensures var p, s' := s.th[me], Step(s, me).value;
      && WellFormed(s') && s'.th[me].i == (if p.at.WriteIndex? then p.i + 2 else p.i)
      && s'.th[me].j == (if p.at.WriteIndex? then p.j + 1 else if Waits(p.at) && s'.th[me].at.BatchTop? then 0 else p.j)
      && (p.at.BatchTop? ==> (s'.th[me].at.ReadSlot? <==> p.j < BATCH))
  {
    hide StoreAt;
  }

  /** Every step that does not go round the wait loop brings its thread nearer to its end and leaves the other where it
      is. */
  lemma RankFalls(s: State, me: Me)
    requires WellFormed(s) && Step(s, me).Some?
    ensures var s' := Step(s, me).value;
      && WellFormed(s') && Rank(s', Other(me)) == Rank(s, Other(me))
      && (if Spins(s, s', me) then Rank(s', me) == Rank(s, me) else Rank(s', me) < Rank(s, me))
  {
    hide Step;
    StepShape(s, me);
    StepNumbers(s, me);
  }

  lemma RankBound(s: State, me: Me)
    requires WellFormed(s) && ThreadOk(s, me)
    ensures 0 <= Rank(s, me)
  {
    hide Aligned;
  }

  /** How many of the first `k` steps of a run are work, not waiting. */
  function Work(run: seq<State>, k: nat): nat
    requires k < |run| && forall i :: 0 <= i <= k ==> WellFormed(run[i])
  {
    if k == 0 then 0
    else Work(run, k - 1) +
         if Spins(run[k - 1], run[k], 0) && run[k].th[1] == run[k - 1].th[1] then 0
         else if Spins(run[k - 1], run[k], 1) && run[k].th[0] == run[k - 1].th[0] then 0
         else 1
  }

  /** In every run, however it is scheduled, the steps that are not spent in the wait loop are bounded. */
  lemma {:induction false} WorkIsBounded(max: nat, run: seq<State>, k: nat)
    requires IsRun(max, run) && k < |run|
    ensures forall i :: 0 <= i <= k ==> WellFormed(run[i])
    ensures Work(run, k) + Rank(run[k], 0) + Rank(run[k], 1) <= 24 * (max + 2 * BATCH) + 18
    ensures Work(run, k) <= 24 * (max + 2 * BATCH) + 18
  {
    hide Inv, Step, Rank;
    if k == 0 {
      RankStart(max);
    } else {
      WorkIsBounded(max, run, k - 1);
      assert Next(run[k - 1], run[k]);
      var me: Me :| Step(run[k - 1], me) == Some(run[k]);
      RankFalls(run[k - 1], me);
      StepShape(run[k - 1], me);
    }
    RunKeeps(max, run, k);
    BothRanks(run[k]);
  }

  lemma RankStart(max: nat)
    ensures WellFormed(Init(max)) && Rank(Init(max), 0) + Rank(Init(max), 1) == 24 * (max + 2 * BATCH) + 18
  {
  }

  lemma BothRanks(s: State)
    requires Inv(s)
    ensures WellFormed(s) && 0 <= Rank(s, 0) && 0 <= Rank(s, 1)
  {
    RankBound(s, 0);
    RankBound(s, 1);
  }

  /** The thread to run next so that no step is wasted for long: one in the critical section, else one on its way to the
      wait loop, else the waiting one whose turn it is or that waits for a thread that has finished. */
  function Pick(s: State): Me
    requires WellFormed(s)
  {
    if Critical(s.th[0].at) then 0
    else if Critical(s.th[1].at) then 1
    else if !Waits(s.th[0].at) && !s.th[0].at.Done? then 0
    else if !Waits(s.th[1].at) && !s.th[1].at.Done? then 1
    else if s.th[0].at.Done? then 1
    else if s.th[1].at.Done? then 0
    else if s.turn == 0 then 0 else 1
  }

  /** Steps left in the wait loop for the thread picked. */
  function Spin(s: State): nat
    requires WellFormed(s)
  {
    var p := s.th[Pick(s)].at;
    if !Waits(p) then 0
    else if s.turn == Pick(s) then (if p.ReadTurn? then 1 else 2)
    else (if p.ReadFlag? then 1 else 2)
  }

  lemma PickWorks(s: State)
    requires Locked(s) && !(s.th[0].at.Done? && s.th[1].at.Done?)
    ensures Step(s, Pick(s)).Some?
    ensures var s' := Step(s, Pick(s)).value;
      WellFormed(s') && (Spins(s, s', Pick(s)) ==> Spin(s') < Spin(s))
  {
    CanStep(s, Pick(s));
    StepShape(s, Pick(s));
    hide Step;
  }

  lemma CanStep(s: State, me: Me)
    requires WellFormed(s) && !s.th[me].at.Done?
    ensures Step(s, me).Some?
  {
  }

  /** Running the thread picked brings the end nearer. */
  lemma PickNext(max: nat, run: seq<State>, s: State) returns (more: seq<State>, next: State)
    requires IsRun(max, run) && s == run[|run| - 1] && Inv(s) && !(s.th[0].at.Done? && s.th[1].at.Done?)
    ensures IsRun(max, more) && more == run + [next] && Inv(next)
    ensures 0 <= Left(next) < Left(s) || (Left(next) == Left(s) && SpinLeft(next) < SpinLeft(s))
  {
    hide Step, Inv, Rank, Spin, Pick, IsRun;
    InvLocked(s);
    PickWorks(s);
    more, next := Go(max, run, s, Pick(s));
    RankFalls(s, Pick(s));
    RunKeeps(max, more, |more| - 1);
    BothRanks(next);
  }

  /** Every run can be continued to one in which both threads finish. */
  lemma {:induction false} EveryRunCanFinish(max: nat, run: seq<State>) returns (all: seq<State>)
    requires IsRun(max, run)
    ensures IsRun(max, all) && run <= all
    ensures all != [] && WellFormed(all[|all| - 1])
    ensures all[|all| - 1].th[0].at.Done? && all[|all| - 1].th[1].at.Done?
    decreases Left(run[|run| - 1]), SpinLeft(run[|run| - 1])
  {
    assert run != [];
    hide Inv, IsRun, Left, SpinLeft;
    var s := run[|run| - 1];
    RunKeeps(max, run, |run| - 1);
    BothRanks(s);
    if s.th[0].at.Done? && s.th[1].at.Done? {
      all := run;
    } else {
      var more, next := PickNext(max, run, s);
      all := EveryRunCanFinish(max, more);
    }
  }

  lemma InvLocked(s: State)
    requires Inv(s)
    ensures Locked(s)
  {
  }

  function Left(s: State): int {
    if WellFormed(s) then Rank(s, 0) + Rank(s, 1) else 0
  }

  function SpinLeft(s: State): nat {
    if WellFormed(s) then Spin(s) else 0
  }

  // ---------------------------------------------------------------- stores

  /** Slots stored so far: those the index counts, and one more between a store and the increment after it. */
  function Stored(s: State): nat
    requires WellFormed(s)
  {
    s.index + if Pending(s, 0) || Pending(s, 1) then 1 else 0
  }

  lemma StepStores(s: State, me: Me)
    requires Inv(s) && Step(s, me).Some?
    ensures WellFormed(Step(s, me).value) && Stored(Step(s, me).value) >= Stored(s)
    ensures s.th[me].at.Store? ==> s.th[me].reg == Stored(s) && Stored(Step(s, me).value) == Stored(s) + 1
  {
    hide Filled, Aligned, Flagged, Step;
    StepShape(s, me);
  }

  lemma {:induction false} StoredGrows(max: nat, run: seq<State>, k: nat, l: nat)
    requires IsRun(max, run) && k <= l < |run|
    ensures WellFormed(run[k]) && WellFormed(run[l]) && Stored(run[k]) <= Stored(run[l])
  {
    hide Inv, Aligned, Step, Stored;
    RunKeeps(max, run, k);
    RunKeeps(max, run, l);
    InvWellFormed(run[k]);
    InvWellFormed(run[l]);
    if k < l {
      StoredGrows(max, run, k, l - 1);
      RunKeeps(max, run, l - 1);
      assert Next(run[l - 1], run[l]);
      var me: Me :| Step(run[l - 1], me) == Some(run[l]);
      StepStores(run[l - 1], me);
    }
  }

  lemma InvWellFormed(s: State)
    requires Inv(s)
    ensures WellFormed(s)
  {
  }

  /** Step `k` of the run is a store by `me`. */
  predicate StoresAt(run: seq<State>, k: nat, me: Me) {
    k + 1 < |run| && WellFormed(run[k]) && run[k].th[me].at.Store? && Step(run[k], me) == Some(run[k + 1])
  }

  /** No slot is stored to twice, whatever the size; with a multiple of 200 every store is inside the array. */
  lemma StoresOnce(max: nat, run: seq<State>, k: nat, me: Me, l: nat, who: Me)
    requires IsRun(max, run) && StoresAt(run, k, me)
    ensures Aligned(max) ==> run[k].th[me].reg < max
    ensures k < l && StoresAt(run, l, who) ==> run[k].th[me].reg != run[l].th[who].reg
  {
    hide Inv, Aligned, Stored;
    RunKeeps(max, run, k);
    StepStores(run[k], me);
    if Aligned(max) {
      RoomLeft(run[k], me);
    }
    if k < l && StoresAt(run, l, who) {
      RunKeeps(max, run, l);
      StepStores(run[l], who);
      StoredGrows(max, run, k + 1, l);
    }
  }

  // ---------------------------------------------------------------- the result

  function Range(n: nat): (r: seq<int>)
    ensures |r| == n && forall i :: 0 <= i < n ==> r[i] == i
  {
    seq(n, i => i)
  }

  lemma {:induction false} NumbersCover(n: nat)
    ensures Numbers(0, 2 * n) + Numbers(1, 2 * n) == multiset(Range(2 * n))
  {
    if n == 0 {
      assert Range(0) == [];
    } else {
      NumbersCover(n - 1);
      var m := 2 * (n - 1);
      assert Range(m + 2) == Range(m) + [m, m + 1];
    }
  }

  /** When both threads have finished, the array is a permutation of 0..max-1. */
  lemma FinishedPermutation(max: nat, run: seq<State>, k: nat)
    requires IsRun(max, run) && Aligned(max) && k < |run|
    requires WellFormed(run[k]) && run[k].th[0].at.Done? && run[k].th[1].at.Done?
    ensures multiset(run[k].data) == multiset(Range(max))
  {
    hide IsRun, Numbers, Aligned, Excludes, ThreadOk;
    RunKeeps(max, run, k);
    StaysInRange(max, run, k);
    AlignedHalves(max);
    NumbersCover(max / 2);
    FinishedFilled(run[k]);
  }

  lemma AlignedHalves(n: nat)
    requires Aligned(n)
    ensures 2 * (n / 2) == n
  {
  }

  lemma FinishedFilled(s: State)
    requires Inv(s) && !s.overrun && s.th[0].at.Done? && s.th[1].at.Done?
    ensures s.th[0].i == |s.data| && multiset(s.data) == Numbers(0, |s.data|) + Numbers(1, |s.data|)
  {
    hide Numbers, Aligned, Excludes;
    assert s.data[..s.index] == s.data;
  }

  /** The multiple of 200 is needed: a run in which both threads finish has kept to the array if and only if its size is
      one, because otherwise the batches of the two threads together hold more numbers than the array. */
  lemma InRangeExactly(max: nat, run: seq<State>, k: nat)
    requires IsRun(max, run) && k < |run|
    requires WellFormed(run[k]) && run[k].th[0].at.Done? && run[k].th[1].at.Done?
    ensures !run[k].overrun <==> max % 200 == 0
  {
    assert Aligned(max) <==> max % 200 == 0;
    hide IsRun, Aligned, Numbers, Excludes;
    RunKeeps(max, run, k);
    if Aligned(max) {
      StaysInRange(max, run, k);
    }
    if !run[k].overrun {
      FinishedFilled(run[k]);
    }
  }

  /** One more step of a run. */
  lemma Go(max: nat, run: seq<State>, s: State, me: Me) returns (run': seq<State>, s': State)
    requires IsRun(max, run) && s == run[|run| - 1] && WellFormed(s) && Step(s, me).Some?
    ensures s' == Step(s, me).value && run' == run + [s'] && IsRun(max, run') && WellFormed(s')
  {
    hide Step;
    s' := Step(s, me).value;
    run' := run + [s'];
    assert Next(s, s');
    StepShape(s, me);
  }

  /** Thread 0 alone enters its critical section. */
  lemma OneEntered() returns (run: seq<State>, s: State)
    ensures IsRun(1, run) && s == run[|run| - 1] && WellFormed(s)
    ensures s == State([true, false], 1, 0, [0], [Thread(BatchTop, 0, 0, 0), Thread(Top, 0, 0, 0)], false)
  {
    hide IsRun;
    s := Init(1);
    run := [s];
    assert IsRun(1, run) by { StartOfRun(1); }
    run, s := Go(1, run, s, 0);
    run, s := Go(1, run, s, 0);
    run, s := Go(1, run, s, 0);
    run, s := Go(1, run, s, 0);
  }

  /** In an array of one it comes back to the top of its batch with the array full. */
  lemma OneStored() returns (run: seq<State>, s: State)
    ensures IsRun(1, run) && s == run[|run| - 1] && WellFormed(s)
    ensures s == State([true, false], 1, 1, [0], [Thread(BatchTop, 2, 1, 0), Thread(Top, 0, 0, 0)], false)
  {
    hide IsRun;
    run, s := OneEntered();
    run, s := Go(1, run, s, 0);
    run, s := Go(1, run, s, 0);
    run, s := Go(1, run, s, 0);
    assert s == State([true, false], 1, 0, [0], [Thread(ReadIndex, 0, 0, 0), Thread(Top, 0, 0, 0)], false);
    run, s := Go(1, run, s, 0);
    run, s := Go(1, run, s, 0);
  }

  lemma StartOfRun(max: nat)
    ensures IsRun(max, [Init(max)])
  {
  }

  /** A failing size: in an array of one the second store of the first batch is outside. */
  lemma OverrunExample() returns (run: seq<State>)
    ensures IsRun(1, run) && run[|run| - 1].overrun
  {
    hide IsRun;
    var s;
    run, s := OneStored();
    run, s := Go(1, run, s, 0);
    run, s := Go(1, run, s, 0);
    run, s := Go(1, run, s, 0);
  }

  function Sum(a: seq<int>): int {
    if a == [] then 0 else Sum(a[..|a| - 1]) + a[|a| - 1]
  }

  lemma {:induction false} SumTakenOut(a: seq<int>, k: nat)
    requires k < |a|
    ensures Sum(a) == Sum(a[..k] + a[k + 1..]) + a[k]
  {
    var last := |a| - 1;
    if k == last {
      assert a[..k] + a[k + 1..] == a[..last];
    } else {
      SumTakenOut(a[..last], k);
      var b := a[..k] + a[k + 1..];
      assert b[..|b| - 1] == a[..last][..k] + a[..last][k + 1..];
    }
  }

  lemma {:induction false} SumOfPermutation(a: seq<int>, b: seq<int>)
    requires multiset(a) == multiset(b)
    ensures Sum(a) == Sum(b)
    decreases |a|
  {
    assert |a| == |multiset(a)| == |multiset(b)| == |b|;
    if a != [] {
      var last := |a| - 1;
      var x := a[last];
      assert a == a[..last] + [x];
      assert x in multiset(a);
      var k :| 0 <= k < |b| && b[k] == x;
      var rest := b[..k] + b[k + 1..];
      assert multiset(b) == multiset(rest) + multiset{x} by { assert b == b[..k] + [x] + b[k + 1..]; }
      assert multiset(a) == multiset(a[..last]) + multiset{x};
      assert multiset(rest) == multiset(b) - multiset{x};
      assert multiset(a[..last]) == multiset(a) - multiset{x};
      SumOfPermutation(a[..last], rest);
      SumTakenOut(b, k);
    }
  }

  lemma {:induction false} SumOfRange(n: nat)
    ensures 2 * Sum(Range(n)) == n * (n - 1)
  {
    if n > 0 {
      SumOfRange(n - 1);
      assert Range(n)[..n - 1] == Range(n - 1);
    }
  }

  /** So the sum the program prints is max * (max - 1) / 2. */
  lemma FinishedSum(max: nat, run: seq<State>, k: nat)
    requires IsRun(max, run) && Aligned(max) && k < |run|
    requires WellFormed(run[k]) && run[k].th[0].at.Done? && run[k].th[1].at.Done?
    ensures 2 * Sum(run[k].data) == max * (max - 1)
  {
    FinishedPermutation(max, run, k);
    SumOfPermutation(run[k].data, Range(max));
    SumOfRange(max);
  }

  /** The summing loop of main, in 64 bits. */
  method PrintedSum(data: array<int>) returns (sum: nat)
    ensures sum == Sum(data[..]) % 0x1_0000_0000_0000_0000
  {
    sum := 0;
    for i := 0 to data.Length
      invariant sum == Sum(data[..i]) % 0x1_0000_0000_0000_0000
    {
      assert data[..i + 1][..i] == data[..i];
      sum := (sum + data[i]) % 0x1_0000_0000_0000_0000;
    }
    assert data[..data.Length] == data[..];
  }
}
