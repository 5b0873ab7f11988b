/** Exclusive per-name file locks over a fixed pool of lock slots, as interleaved steps of any number of threads.

    One pool lock guards the free list, the active list, the slot hashes and the reference counts. Each slot has
    its own semaphore, taken outside the pool lock. Every step below is one access the C code makes to shared state,
    or one wait. A thread that has not called in yet is idle, so the number of threads is unbounded.
 */
module FileLock {
  import opened Options
  import opened Threads

  datatype Slot = Slot(hash: nat, refs: nat, sem: nat)

  datatype Label =
    | Idle
    | Enter      // __fio_lock_file: waiting for the pool lock
    | Lookup     // at fio_hash_find
    | Alloc      // in the loop of get_filelock
    | Nap        // dropped the pool lock, will take it again
    | Relookup   // carries a free slot, looks the hash up again
    | Install    // about to put the carried slot on the active list
    | AddRef
    | Leave      // reference taken, about to drop the pool lock
    | NoSlot     // trylock found the free list empty
    | Failing    // at assert(!trylock)
    | Down       // blocking wait for the slot semaphore
    | TryDown
    | TryEnter   // slot busy, waiting for the pool lock
    | TryCheck   // at the "only reference is us" test
    | TryKeep    // about to drop the pool lock, then wait for the slot
    | TryFail    // about to drop the pool lock and report the lock as taken
    | Holding
    | UnEnter    // fio_unlock_file: waiting for the pool lock
    | UnFind
    | UnUp       // reference dropped, about to up the semaphore
    | UnPut
    | UnLeave

  /** A thread: where it is, its name hash, whether it is a trylock, whether get_filelock dropped the pool lock,
      the slot it works on, and the local `refs` of fio_unlock_file. */
  datatype Thread = Thread(at: Label, h: nat, try: bool, retry: bool, ff: nat, left: nat)

  datatype State = State(
    slots: seq<Slot>,
    free: seq<nat>,
    active: seq<nat>,
    pool: Option<Tid>,
    threads: map<Tid, Thread>,
    halted: bool)

  /** What an idle thread or a holder decides to do next. */
  datatype Choice = Lock(h: nat) | TryLock(h: nat) | Unlock

  function At(s: State, t: Tid): Thread {
    if t in s.threads then s.threads[t] else Thread(Idle, 0, false, false, 0, 0)
  }

  function Put(s: State, t: Tid, p: Thread): State {
    s.(threads := s.threads[t := p])
  }

  function Init(n: nat): State {
    State(seq(n, i => Slot(0, 0, 1)), seq(n, i => i), [], None, map[], false)
  }

  /** The first slot on `list` that carries hash `h`. */
  function Find(list: seq<nat>, slots: seq<Slot>, h: nat): (r: Option<nat>)
    requires forall i :: i in list ==> i < |slots|
    ensures r.Some? ==> r.value in list && slots[r.value].hash == h
    ensures r.None? ==> forall i :: i in list ==> slots[i].hash != h
  {
    if list == [] then None
    else
      assert list[0] in list && forall i :: i in list[1..] ==> i in list;
      if slots[list[0]].hash == h then Some(list[0])
      else
        assert forall i :: i in list ==> i == list[0] || i in list[1..];
        Find(list[1..], slots, h)
  }

  function Without(list: seq<nat>, x: nat): (r: seq<nat>)
    ensures forall y :: y in r <==> y in list && y != x
    ensures Distinct(list) ==> Distinct(r)
  {
    if list == [] then []
    else
      assert list == [list[0]] + list[1..];
      var rest := Without(list[1..], x);
      assert Distinct(list) ==> Distinct(list[1..]) && list[0] !in list[1..];
      if list[0] == x then rest else [list[0]] + rest
  }

  predicate Distinct(list: seq<nat>) {
    forall i, j :: 0 <= i < j < |list| ==> list[i] != list[j]
  }

  predicate WellFormed(s: State) {
    && (forall i :: i in s.free ==> i < |s.slots|)
    && (forall i :: i in s.active ==> i < |s.slots|)
    && (forall t :: t in s.threads && HasSlot(s.threads[t].at) ==> s.threads[t].ff < |s.slots|)
  }

  predicate HasSlot(l: Label) {
    Carries(l) || Attached(l) || l.TryFail?
  }

  /** A 32-bit decrement; the invariant shows it never wraps. */
  function Less(n: nat): nat {
    if n == 0 then 0xFFFF_FFFF else n - 1
  }

  function SetRefs(s: State, ff: nat, n: nat): State
    requires ff < |s.slots|
  {
    s.(slots := s.slots[ff := s.slots[ff].(refs := n)])
  }

  function SetSem(s: State, ff: nat, n: nat): State
    requires ff < |s.slots|
  {
    s.(slots := s.slots[ff := s.slots[ff].(sem := n)])
  }

  function TakePool(s: State, t: Tid, p: Thread): Option<State> {
    if s.pool.None? then Some(Put(s, t, p).(pool := Some(t))) else None
  }

  /** One step of thread `t`; `None` when it has to wait. */
  function Step(s: State, t: Tid, c: Choice): Option<State>
    requires WellFormed(s)
  {
    var p := At(s, t);
    if s.halted then None else
    match p.at
    case Idle => (match c
      case Lock(h) => Some(Put(s, t, Thread(Enter, h, false, false, 0, 0)))
      case TryLock(h) => Some(Put(s, t, Thread(Enter, h, true, false, 0, 0)))
      case Unlock => None)
    case Enter => TakePool(s, t, p.(at := Lookup))
    case Lookup => (match Find(s.active, s.slots, p.h)
      case Some(ff) => Some(Put(s, t, p.(at := AddRef, ff := ff)))
      case None => Some(Put(s, t, p.(at := Alloc, retry := false))))
    case Alloc =>
      if s.free != [] then
        Some(Put(s, t, p.(at := if p.retry then Relookup else Install, ff := s.free[0])).(free := s.free[1..]))
      else if p.try then Some(Put(s, t, p.(at := NoSlot)))
      else Some(Put(s, t, p.(at := Nap)).(pool := None))
    case Nap => TakePool(s, t, p.(at := Alloc, retry := true))
    case Relookup => (match Find(s.active, s.slots, p.h)
      case Some(found) => Some(Put(s, t, p.(at := AddRef, ff := found)).(free := [p.ff] + s.free))
      case None => Some(Put(s, t, p.(at := Install))))
    case Install =>
      Some(Put(s, t, p.(at := AddRef)).(
        slots := s.slots[p.ff := s.slots[p.ff].(hash := p.h, refs := 0)], active := [p.ff] + s.active))
    case AddRef => Some(SetRefs(Put(s, t, p.(at := Leave)), p.ff, s.slots[p.ff].refs + 1))
    case Leave => Some(Put(s, t, p.(at := if p.try then TryDown else Down)).(pool := None))
    case NoSlot => Some(Put(s, t, p.(at := Failing)).(pool := None))
    case Failing => Some(s.(halted := true))
    case Down =>
      if s.slots[p.ff].sem == 0 then None
      else Some(SetSem(Put(s, t, p.(at := Holding)), p.ff, s.slots[p.ff].sem - 1))
    case TryDown =>
      if s.slots[p.ff].sem == 0 then Some(Put(s, t, p.(at := TryEnter)))
      else Some(SetSem(Put(s, t, p.(at := Holding)), p.ff, s.slots[p.ff].sem - 1))
    case TryEnter => TakePool(s, t, p.(at := TryCheck))
    case TryCheck =>
      if s.slots[p.ff].refs != 1
      then Some(SetRefs(Put(s, t, p.(at := TryFail)), p.ff, Less(s.slots[p.ff].refs)))
      else Some(Put(s, t, p.(at := TryKeep)))
    case TryKeep => Some(Put(s, t, p.(at := Down)).(pool := None))
    case TryFail => Some(Put(s, t, p.(at := Idle)).(pool := None))
    case Holding => if c.Unlock? then Some(Put(s, t, p.(at := UnEnter))) else None
    case UnEnter => TakePool(s, t, p.(at := UnFind))
    case UnFind => (match Find(s.active, s.slots, p.h)
      case Some(ff) =>
        var left := Less(s.slots[ff].refs);
        Some(SetRefs(Put(s, t, p.(at := UnUp, ff := ff, left := left)), ff, left))
      case None => Some(Put(s, t, p.(at := UnLeave))))
    case UnUp => Some(SetSem(Put(s, t, p.(at := UnPut)), p.ff, s.slots[p.ff].sem + 1))
    case UnPut =>
      Some(if p.left == 0
           then Put(s, t, p.(at := UnLeave)).(active := Without(s.active, p.ff), free := [p.ff] + s.free)
           else Put(s, t, p.(at := UnLeave)))
    case UnLeave => Some(Put(s, t, p.(at := Idle)).(pool := None))
  }

  // ---------------------------------------------------------------- the invariant

  predicate InPool(l: Label) {
    l.Lookup? || l.Alloc? || l.Relookup? || l.Install? || l.AddRef? || l.Leave? || l.NoSlot? ||
    l.TryCheck? || l.TryKeep? || l.TryFail? || l.UnFind? || l.UnUp? || l.UnPut? || l.UnLeave?
  }

  /** The thread's reference is included in the count of its slot. */
  predicate Refers(l: Label) {
    l.Leave? || l.Down? || l.TryDown? || l.TryEnter? || l.TryCheck? || l.TryKeep? || l.Holding? || l.UnEnter? ||
    l.UnFind?
  }

  /** The thread owns the semaphore of its slot. */
  predicate Holds(l: Label) {
    l.Holding? || l.UnEnter? || l.UnFind? || l.UnUp?
  }

  /** The thread took its slot off the free list and has not listed it yet. */
  predicate Carries(l: Label) {
    l.Relookup? || l.Install?
  }

  /** A slot may be active without a reference only while the pool holder is at one of these places. */
  predicate Settling(l: Label) {
    l.AddRef? || l.UnUp? || l.UnPut?
  }

  /** The thread's slot must be active under the thread's hash. */
  predicate Attached(l: Label) {
    Refers(l) || Settling(l)
  }

  function Users(threads: map<Tid, Thread>, i: nat): set<Tid> {
    set t | t in threads && Refers(threads[t].at) && threads[t].ff == i
  }

  function Holders(threads: map<Tid, Thread>, i: nat): set<Tid> {
    set t | t in threads && Holds(threads[t].at) && threads[t].ff == i
  }

  ghost predicate PoolOwned(s: State) {
    && (forall t :: t in s.threads && InPool(s.threads[t].at) ==> s.pool == Some(t))
    && (s.pool.Some? ==> s.pool.value in s.threads && InPool(s.threads[s.pool.value].at))
  }

  predicate Carried(s: State, i: nat) {
    s.pool.Some? && Carries(At(s, s.pool.value).at) && At(s, s.pool.value).ff == i
  }

  /** Each slot is in exactly one place: the free list, the active list or the pool holder's hand. */
  predicate Listed(s: State) {
    && Distinct(s.free) && Distinct(s.active)
    && (forall i :: i in s.free ==> i !in s.active && !Carried(s, i))
    && (forall i :: i in s.active ==> !Carried(s, i))
    && (forall i :: 0 <= i < |s.slots| ==> i in s.free || i in s.active || Carried(s, i))
  }

  predicate HashesDiffer(s: State)
    requires WellFormed(s)
  {
    forall i, j :: i in s.active && j in s.active && s.slots[i].hash == s.slots[j].hash ==> i == j
  }

  predicate Absent(s: State, h: nat)
    requires WellFormed(s)
  {
    forall i :: i in s.active ==> s.slots[i].hash != h
  }

  predicate ThreadOk(s: State, p: Thread)
    requires WellFormed(s)
  {
    && (Attached(p.at) ==> p.ff in s.active && s.slots[p.ff].hash == p.h)
    && (p.at.Alloc? && !p.retry ==> Absent(s, p.h))
    && (p.retry || p.at.Nap? || p.at.Relookup? ==> !p.try)
    && (p.at.Install? ==> Absent(s, p.h))
  }

  predicate ThreadsOk(s: State)
    requires WellFormed(s)
  {
    forall t :: t in s.threads ==> ThreadOk(s, s.threads[t])
  }

  predicate LeftOk(s: State, p: Thread) {
    (p.at.UnUp? || p.at.UnPut?) && p.ff < |s.slots| ==> p.left == s.slots[p.ff].refs
  }

  predicate Counted(s: State)
    requires WellFormed(s)
  {
    && (forall i :: i in s.active ==> s.slots[i].refs == |Users(s.threads, i)|)
    && (forall i :: i in s.active && s.slots[i].refs == 0 ==>
          s.pool.Some? && Settling(At(s, s.pool.value).at) && At(s, s.pool.value).ff == i)
    && (s.pool.Some? ==> LeftOk(s, At(s, s.pool.value)))
  }

  predicate SemaphoresOk(s: State) {
    forall i :: 0 <= i < |s.slots| ==> s.slots[i].sem + |Holders(s.threads, i)| == 1
  }

  ghost predicate ListsOk(s: State) {
    WellFormed(s) && PoolOwned(s) && Listed(s) && HashesDiffer(s) && ThreadsOk(s)
  }

  ghost predicate Inv(s: State) {
    ListsOk(s) && Counted(s) && SemaphoresOk(s)
  }

  // ---------------------------------------------------------------- every step keeps it

  /** Moving one thread changes the users and holders of a slot by that thread alone. */
  lemma MovedCounts(m: map<Tid, Thread>, t: Tid, p: Thread, i: nat)
    ensures |Users(m[t := p], i)| == |Users(m, i)| + Bit(Refers(p.at) && p.ff == i) - Bit(t in Users(m, i))
    ensures |Holders(m[t := p], i)| == |Holders(m, i)| + Bit(Holds(p.at) && p.ff == i) - Bit(t in Holders(m, i))
  {
    CountMoved(Users(m, i), Users(m[t := p], i), t);
    CountMoved(Holders(m, i), Holders(m[t := p], i), t);
  }

  /** A thread that starts or stops neither referring to nor holding a slot leaves every count alone. */
  lemma CountsKept(m: map<Tid, Thread>, t: Tid, p: Thread)
    requires forall i: nat :: (Refers(p.at) && p.ff == i) == (t in Users(m, i))
    requires forall i: nat :: (Holds(p.at) && p.ff == i) == (t in Holders(m, i))
    ensures forall i: nat :: Users(m[t := p], i) == Users(m, i)
    ensures forall i: nat :: Holders(m[t := p], i) == Holders(m, i)
  {
  }

  /** A thread that stays on its slot changes the counts of no other slot. */
  lemma CountsElsewhere(m: map<Tid, Thread>, t: Tid, p: Thread)
    requires t in m && p.ff == m[t].ff
    ensures forall i: nat :: i != p.ff || Refers(p.at) == Refers(m[t].at) ==> Users(m[t := p], i) == Users(m, i)
    ensures forall i: nat :: i != p.ff || Holds(p.at) == Holds(m[t].at) ==> Holders(m[t := p], i) == Holders(m, i)
  {
  }

  /** Moves of one thread, and of the pool lock with it, that leave the lists alone. */
  ghost predicate Stays(s: State, t: Tid, p: Thread, pool: Option<Tid>)
    requires WellFormed(s)
  {
    && (HasSlot(p.at) ==> p.ff < |s.slots|) && ThreadOk(s, p)
    && (pool == s.pool || (pool == Some(t) && s.pool.None?) || (pool.None? && s.pool == Some(t)))
    && (InPool(p.at) <==> pool == Some(t))
    && Carries(p.at) == Carries(At(s, t).at) && (Carries(p.at) ==> p.ff == At(s, t).ff)
  }

  lemma StaysListed(s: State, t: Tid, p: Thread, pool: Option<Tid>)
    requires ListsOk(s) && Stays(s, t, p, pool)
    ensures ListsOk(Put(s, t, p).(pool := pool))
  {
    var s' := Put(s, t, p).(pool := pool);
    assert PoolOwned(s');
    forall i: nat ensures Carried(s', i) == Carried(s, i) {}
  }

  /** The lists only depend on the slots through their hashes. */
  lemma SlotsTweaked(s: State, slots: seq<Slot>)
    requires ListsOk(s) && |slots| == |s.slots| && forall i :: 0 <= i < |slots| ==> slots[i].hash == s.slots[i].hash
    ensures ListsOk(s.(slots := slots))
  {
    var s' := s.(slots := slots);
    forall i: nat ensures Carried(s', i) == Carried(s, i) {}
    forall t | t in s'.threads ensures ThreadOk(s', s'.threads[t]) {
      assert ThreadOk(s, s.threads[t]);
    }
  }

  /** Moves that change neither the lists nor any count. */
  lemma QuietMove(s: State, t: Tid, p: Thread, pool: Option<Tid>)
    requires Inv(s) && Stays(s, t, p, pool)
    requires var q := At(s, t);
      && (p.ff == q.ff || (!Refers(p.at) && !Holds(p.at)))
      && Refers(p.at) == Refers(q.at) && Holds(p.at) == Holds(q.at)
      && (Settling(q.at) ==> (Settling(p.at) && p.ff == q.ff) || (q.ff < |s.slots| && s.slots[q.ff].refs != 0))
      && LeftOk(s, p)
    ensures Inv(Put(s, t, p).(pool := pool))
  {
    StaysListed(s, t, p, pool);
    CountsKept(s.threads, t, p);
  }

  lemma TakeFree(s: State, t: Tid, p: Thread)
    requires Inv(s) && t in s.threads && s.threads[t].at.Alloc? && s.free != []
    requires p == s.threads[t].(at := if s.threads[t].retry then Relookup else Install, ff := s.free[0])
    ensures Inv(Put(s, t, p).(free := s.free[1..]))
  {
    assert ListsOk(Put(s, t, p).(free := s.free[1..])) by { TakeFreeLists(s, t, p); }
    CountsKept(s.threads, t, p);
    hide Listed, HashesDiffer, ThreadsOk, PoolOwned;
  }

  lemma TakeFreeLists(s: State, t: Tid, p: Thread)
    requires ListsOk(s) && t in s.threads && s.threads[t].at.Alloc? && s.free != []
    requires p == s.threads[t].(at := if s.threads[t].retry then Relookup else Install, ff := s.free[0])
    ensures ListsOk(Put(s, t, p).(free := s.free[1..]))
  {
    var s' := Put(s, t, p).(free := s.free[1..]);
    assert s.free == [s.free[0]] + s.free[1..];
    assert s.free[0] in s.free;
    assert forall i :: i in s.free <==> i == s.free[0] || i in s.free[1..];
    assert WellFormed(s') && PoolOwned(s');
    assert forall i: nat :: Carried(s', i) <==> i == s.free[0];
    assert forall i: nat :: !Carried(s, i);
  }

  lemma PutBack(s: State, t: Tid, p: Thread)
    requires Inv(s) && t in s.threads && s.threads[t].at.Relookup?
    requires p.at.AddRef? && p.ff in s.active && s.slots[p.ff].hash == p.h && !p.try
    ensures Inv(Put(s, t, p).(free := [s.threads[t].ff] + s.free))
  {
    var s' := Put(s, t, p).(free := [s.threads[t].ff] + s.free);
    assert PoolOwned(s');
    assert Carried(s, s.threads[t].ff);
    assert forall i: nat :: !Carried(s', i);
    CountsKept(s.threads, t, p);
  }

  lemma Activate(s: State, t: Tid, p: Thread)
    requires Inv(s) && t in s.threads && s.threads[t].at.Install? && p == s.threads[t].(at := AddRef)
    ensures Inv(Put(s, t, p).(slots := s.slots[p.ff := s.slots[p.ff].(hash := p.h, refs := 0)],
                              active := [p.ff] + s.active))
  {
    var slots := s.slots[p.ff := s.slots[p.ff].(hash := p.h, refs := 0)];
    var s' := Put(s, t, p).(slots := slots, active := [p.ff] + s.active);
    assert PoolOwned(s');
    assert Carried(s, p.ff) && forall i: nat :: !Carried(s', i);
    CountsKept(s.threads, t, p);
    assert Users(s.threads, p.ff) == {};
  }

  /** Moving a thread on its slot and changing that slot's counters keeps the lists. */
  lemma TweakListed(s: State, t: Tid, p: Thread, slot: Slot)
    requires ListsOk(s) && Stays(s, t, p, s.pool) && p.ff < |s.slots| && slot.hash == s.slots[p.ff].hash
    ensures ListsOk(Put(s, t, p).(slots := s.slots[p.ff := slot]))
  {
    hide ListsOk, Stays;
    StaysListed(s, t, p, s.pool);
    SlotsTweaked(Put(s, t, p), s.slots[p.ff := slot]);
  }

  /** The pool holder adds or drops its reference. */
  lemma MoveRef(s: State, t: Tid, p: Thread, refs: int)
    requires Inv(s) && t in s.threads && Attached(s.threads[t].at) && (Attached(p.at) || p.at.TryFail?)
    requires p == s.threads[t].(at := p.at, left := p.left)
    requires s.pool == Some(t) && InPool(p.at) && Holds(p.at) == Holds(s.threads[t].at)
    requires Refers(p.at) != Refers(s.threads[t].at)
    requires Settling(p.at) || Refers(p.at) || s.slots[p.ff].refs > 1
    requires refs == s.slots[p.ff].refs + if Refers(p.at) then 1 else -1
    requires p.at.UnUp? || p.at.UnPut? ==> p.left == refs
    ensures refs >= 0 && Inv(SetRefs(Put(s, t, p), p.ff, refs))
  {
    hide Listed, HashesDiffer, PoolOwned, ThreadsOk;
    ThreadFacts(s, t);
    MovedCounts(s.threads, t, p, p.ff);
    CountsElsewhere(s.threads, t, p);
    var s' := SetRefs(Put(s, t, p), p.ff, refs);
    TweakListed(s, t, p, s'.slots[p.ff]);
    assert Counted(s');
    assert SemaphoresOk(s');
  }

  /** A thread takes or releases the semaphore of its slot. */
  lemma MoveSem(s: State, t: Tid, p: Thread, sem: nat)
    requires Inv(s) && t in s.threads && Attached(s.threads[t].at) && Attached(p.at)
    requires p == s.threads[t].(at := p.at) && InPool(p.at) == InPool(s.threads[t].at)
    requires Refers(p.at) == Refers(s.threads[t].at) && Settling(p.at) == Settling(s.threads[t].at)
    requires p.at.UnPut? ==> s.threads[t].at.UnUp?
    requires !p.at.UnUp?
    requires Holds(p.at) != Holds(s.threads[t].at)
    requires s.slots[p.ff].sem == sem + if Holds(p.at) then 1 else -1
    ensures Inv(SetSem(Put(s, t, p), p.ff, sem))
  {
    hide Listed, HashesDiffer, PoolOwned, ThreadsOk;
    ThreadFacts(s, t);
    MovedCounts(s.threads, t, p, p.ff);
    CountsElsewhere(s.threads, t, p);
    var s' := SetSem(Put(s, t, p), p.ff, sem);
    TweakListed(s, t, p, s'.slots[p.ff]);
    assert Counted(s');
    assert SemaphoresOk(s');
  }

  lemma Release(s: State, t: Tid, p: Thread)
    requires Inv(s) && t in s.threads && s.threads[t].at.UnPut? && s.slots[s.threads[t].ff].refs == 0
    requires p == s.threads[t].(at := UnLeave)
    ensures Inv(Put(s, t, p).(active := Without(s.active, p.ff), free := [p.ff] + s.free))
  {
    ReleaseLists(s, t, p);
    hide Listed, HashesDiffer, ThreadsOk, PoolOwned;
    CountsKept(s.threads, t, p);
  }

  lemma ReleaseLists(s: State, t: Tid, p: Thread)
    requires Inv(s) && t in s.threads && s.threads[t].at.UnPut? && s.slots[s.threads[t].ff].refs == 0
    requires p == s.threads[t].(at := UnLeave)
    ensures ListsOk(Put(s, t, p).(active := Without(s.active, p.ff), free := [p.ff] + s.free))
  {
    hide SemaphoresOk;
    var s' := Put(s, t, p).(active := Without(s.active, p.ff), free := [p.ff] + s.free);
    assert PoolOwned(s');
    assert forall i: nat :: !Carried(s, i) && !Carried(s', i);
    assert Users(s.threads, p.ff) == {};
    forall u | u in s'.threads ensures ThreadOk(s', s'.threads[u]) {
      assert Refers(s.threads[u].at) && s.threads[u].ff == p.ff ==> u in Users(s.threads, p.ff);
    }
  }

  lemma UsedBy(s: State, t: Tid)
    requires Inv(s) && t in s.threads && Refers(s.threads[t].at)
    ensures s.slots[s.threads[t].ff].refs >= 1
  {
    assert t in Users(s.threads, s.threads[t].ff);
  }

  /** What the invariant says about one thread. */
  lemma ThreadFacts(s: State, t: Tid)
    requires Inv(s)
    ensures WellFormed(s) && ThreadOk(s, At(s, t))
    ensures InPool(At(s, t).at) <==> s.pool == Some(t)
    ensures HasSlot(At(s, t).at) ==> t in s.threads && At(s, t).ff < |s.slots|
    ensures s.pool == Some(t) ==> LeftOk(s, At(s, t))
  {
  }

  lemma SameHash(s: State, t: Tid)
    requires Inv(s) && t in s.threads && Attached(s.threads[t].at)
    ensures WellFormed(s) && Find(s.active, s.slots, s.threads[t].h) == Some(s.threads[t].ff)
  {
  }

  lemma HaltKeeps(s: State)
    requires Inv(s)
    ensures Inv(s.(halted := true))
  {
    assert forall i: nat :: Carried(s.(halted := true), i) == Carried(s, i);
  }

  /** One turn of the loop in get_filelock. */
  lemma AllocKeeps(s: State, t: Tid, c: Choice)
    requires Inv(s) && t in s.threads && !s.halted && s.threads[t].at.Alloc?
    ensures Step(s, t, c).Some? && Inv(Step(s, t, c).value)
  {
    hide WellFormed, Listed, PoolOwned, ThreadsOk, Counted, SemaphoresOk, HashesDiffer, Inv, ListsOk;
    ThreadFacts(s, t);
    var p := s.threads[t];
    if s.free != [] {
      TakeFree(s, t, p.(at := if p.retry then Relookup else Install, ff := s.free[0]));
    } else if p.try {
      QuietMove(s, t, p.(at := NoSlot), s.pool);
    } else {
      QuietMove(s, t, p.(at := Nap), None);
    }
  }

  /** Steps of the pool holder inside fio_hash_get. */
  lemma HashGetKeeps(s: State, t: Tid, c: Choice)
    requires Inv(s) && t in s.threads && !s.halted
    requires var l := s.threads[t].at; l.Lookup? || l.Relookup? || l.Install?
    ensures Step(s, t, c).Some? && Inv(Step(s, t, c).value)
  {
    hide WellFormed, Listed, PoolOwned, ThreadsOk, Counted, SemaphoresOk, HashesDiffer, Inv, ListsOk;
    ThreadFacts(s, t);
    var p := s.threads[t];
    var found := Find(s.active, s.slots, p.h);
    match p.at
    case Lookup =>
      if found.Some? {
        QuietMove(s, t, p.(at := AddRef, ff := found.value), s.pool);
      } else {
        QuietMove(s, t, p.(at := Alloc, retry := false), s.pool);
      }
    case Relookup =>
      if found.Some? {
        PutBack(s, t, p.(at := AddRef, ff := found.value));
      } else {
        QuietMove(s, t, p.(at := Install), s.pool);
      }
    case Install => Activate(s, t, p.(at := AddRef));
  }

  /** Steps of the pool holder that end the first critical section of __fio_lock_file. */
  lemma LockTailKeeps(s: State, t: Tid, c: Choice)
    requires Inv(s) && t in s.threads && !s.halted
    requires var l := s.threads[t].at; l.AddRef? || l.Leave? || l.NoSlot?
    ensures Step(s, t, c).Some? && Inv(Step(s, t, c).value)
  {
    hide WellFormed, Listed, PoolOwned, ThreadsOk, Counted, SemaphoresOk, HashesDiffer, Inv, ListsOk;
    ThreadFacts(s, t);
    var p := s.threads[t];
    match p.at
    case AddRef => MoveRef(s, t, p.(at := Leave), s.slots[p.ff].refs + 1);
    case Leave =>
      UsedBy(s, t);
      QuietMove(s, t, p.(at := if p.try then TryDown else Down), None);
    case NoSlot => QuietMove(s, t, p.(at := Failing), None);
  }

  /** Steps of the pool holder in the second critical section, after a trylock found the slot busy. */
  lemma TryTailKeeps(s: State, t: Tid, c: Choice)
    requires Inv(s) && t in s.threads && !s.halted
    requires var l := s.threads[t].at; l.TryCheck? || l.TryKeep? || l.TryFail?
    ensures Step(s, t, c).Some? && Inv(Step(s, t, c).value)
  {
    hide WellFormed, Listed, PoolOwned, ThreadsOk, Counted, SemaphoresOk, HashesDiffer, Inv, ListsOk;
    ThreadFacts(s, t);
    var p := s.threads[t];
    match p.at
    case TryCheck =>
      UsedBy(s, t);
      if s.slots[p.ff].refs != 1 {
        MoveRef(s, t, p.(at := TryFail), s.slots[p.ff].refs - 1);
      } else {
        QuietMove(s, t, p.(at := TryKeep), s.pool);
      }
    case TryKeep => QuietMove(s, t, p.(at := Down), None);
    case TryFail => QuietMove(s, t, p.(at := Idle), None);
  }

  /** Steps of the pool holder in fio_unlock_file. */
  lemma UnlockKeeps(s: State, t: Tid, c: Choice)
    requires Inv(s) && t in s.threads && !s.halted
    requires var l := s.threads[t].at; l.UnFind? || l.UnUp? || l.UnPut? || l.UnLeave?
    ensures Step(s, t, c).Some? && Inv(Step(s, t, c).value)
  {
    hide WellFormed, Listed, PoolOwned, ThreadsOk, Counted, SemaphoresOk, HashesDiffer, Inv, ListsOk;
    ThreadFacts(s, t);
    var p := s.threads[t];
    match p.at
    case UnFind =>
      UsedBy(s, t);
      var found := Find(s.active, s.slots, p.h);
      SameHash(s, t);
      MoveRef(s, t, p.(at := UnUp, left := s.slots[p.ff].refs - 1), s.slots[p.ff].refs - 1);
    case UnUp => MoveSem(s, t, p.(at := UnPut), s.slots[p.ff].sem + 1);
    case UnPut =>
      if p.left == 0 {
        Release(s, t, p.(at := UnLeave));
      } else {
        QuietMove(s, t, p.(at := UnLeave), s.pool);
      }
    case UnLeave => QuietMove(s, t, p.(at := Idle), None);
  }

  /** Waits for the pool lock, and the calls and returns of the callers. */
  lemma WaitKeeps(s: State, t: Tid, c: Choice)
    requires Inv(s) && !InPool(At(s, t).at) && Step(s, t, c).Some? && !At(s, t).at.Down? && !At(s, t).at.TryDown?
    ensures Inv(Step(s, t, c).value)
  {
    hide WellFormed, Listed, PoolOwned, ThreadsOk, Counted, SemaphoresOk, HashesDiffer, Inv, ListsOk;
    ThreadFacts(s, t);
    var p := At(s, t);
    match p.at
    case Idle => QuietMove(s, t, Thread(Enter, c.h, c.TryLock?, false, 0, 0), s.pool);
    case Enter => QuietMove(s, t, p.(at := Lookup), Some(t));
    case Nap => QuietMove(s, t, p.(at := Alloc, retry := true), Some(t));
    case Failing => HaltKeeps(s);
    case TryEnter => QuietMove(s, t, p.(at := TryCheck), Some(t));
    case Holding => QuietMove(s, t, p.(at := UnEnter), s.pool);
    case UnEnter => QuietMove(s, t, p.(at := UnFind), Some(t));
  }

  /** The slot semaphore, taken outside the pool lock. */
  lemma DownKeeps(s: State, t: Tid, c: Choice)
    requires Inv(s) && (At(s, t).at.Down? || At(s, t).at.TryDown?) && Step(s, t, c).Some?
    ensures Inv(Step(s, t, c).value)
  {
    hide WellFormed, Listed, PoolOwned, ThreadsOk, Counted, SemaphoresOk, HashesDiffer, Inv, ListsOk;
    ThreadFacts(s, t);
    var p := At(s, t);
    if s.slots[p.ff].sem > 0 {
      MoveSem(s, t, p.(at := Holding), s.slots[p.ff].sem - 1);
    } else {
      QuietMove(s, t, p.(at := TryEnter), s.pool);
    }
  }

  lemma StepKeeps(s: State, t: Tid, c: Choice)
    requires Inv(s) && Step(s, t, c).Some?
    ensures Inv(Step(s, t, c).value) && |Step(s, t, c).value.slots| == |s.slots|
  {
    hide WellFormed, Listed, PoolOwned, ThreadsOk, Counted, SemaphoresOk, HashesDiffer, Inv, ListsOk;
    ThreadFacts(s, t);
    var l := At(s, t).at;
    if l.Down? || l.TryDown? {
      DownKeeps(s, t, c);
    } else if !InPool(l) {
      WaitKeeps(s, t, c);
    } else if l.Alloc? {
      AllocKeeps(s, t, c);
    } else if l.Lookup? || l.Relookup? || l.Install? {
      HashGetKeeps(s, t, c);
    } else if l.UnFind? || l.UnUp? || l.UnPut? || l.UnLeave? {
      UnlockKeeps(s, t, c);
    } else if l.TryCheck? || l.TryKeep? || l.TryFail? {
      TryTailKeeps(s, t, c);
    } else {
      LockTailKeeps(s, t, c);
    }
  }

  // ---------------------------------------------------------------- whole runs

  /** Some thread takes a step. */
  ghost predicate Next(s: State, s': State) {
    WellFormed(s) && exists t: Tid, c: Choice :: Step(s, t, c) == Some(s')
  }

  /** The states a pool of `n` slots goes through, whatever the scheduler and the callers choose. */
  ghost predicate IsRun(n: nat, run: seq<State>) {
    && run != [] && run[0] == Init(n)
    && forall i, j :: 0 <= i && j == i + 1 < |run| ==> Next(run[i], run[j])
  }

  lemma InitOk(n: nat)
    ensures Inv(Init(n))
  {
    var s := Init(n);
    forall i | 0 <= i < n ensures i in s.free { assert s.free[i] == i; }
    assert forall i :: 0 <= i < n ==> Holders(s.threads, i) == {};
  }

  lemma NextKeeps(s: State, s': State)
    requires Inv(s) && Next(s, s')
    ensures Inv(s') && |s'.slots| == |s.slots|
  {
    hide Inv, Step;
    var t: Tid, c: Choice :| Step(s, t, c) == Some(s');
    StepKeeps(s, t, c);
  }

  lemma {:induction false} RunKeeps(n: nat, run: seq<State>, k: nat)
    requires IsRun(n, run) && k < |run|
    ensures Inv(run[k]) && |run[k].slots| == n
  {
    hide Inv, Next;
    if k == 0 {
      InitOk(n);
    } else {
      RunKeeps(n, run, k - 1);
      NextKeeps(run[k - 1], run[k]);
    }
  }

  /** Mutual exclusion: in every reachable state at most one thread holds the lock of a name hash. */
  lemma MutualExclusion(n: nat, run: seq<State>, k: nat, t: Tid, u: Tid)
    requires IsRun(n, run) && k < |run| && t in run[k].threads && u in run[k].threads
    requires Holds(run[k].threads[t].at) && Holds(run[k].threads[u].at)
    requires run[k].threads[t].h == run[k].threads[u].h
    ensures t == u
  {
    RunKeeps(n, run, k);
    var s := run[k];
    var i := s.threads[t].ff;
    assert {t, u} <= Holders(s.threads, i);
    if t != u {
      SubsetSize({t, u}, Holders(s.threads, i));
      assert false;
    }
  }

  /** What is true of the pool whenever its lock is free. */
  ghost predicate AtRest(s: State) {
    && WellFormed(s)
    && (forall i :: 0 <= i < |s.slots| ==> (i in s.free) != (i in s.active))
    && Distinct(s.free) && Distinct(s.active)
    && HashesDiffer(s)
    && (forall i :: i in s.active ==> s.slots[i].refs == |Users(s.threads, i)| >= 1)
    && (forall i :: i in s.free ==> s.slots[i].sem == 1)
  }

  lemma PoolAtRest(n: nat, run: seq<State>, k: nat)
    requires IsRun(n, run) && k < |run| && run[k].pool.None?
    ensures AtRest(run[k]) && |run[k].slots| == n
  {
    RunKeeps(n, run, k);
    forall i | i in run[k].free ensures run[k].slots[i].sem == 1 {
      assert Holders(run[k].threads, i) == {};
    }
  }

  /** The pool holder is never blocked, so the pool lock is never held across a wait. */
  lemma PoolHolderMoves(n: nat, run: seq<State>, k: nat, c: Choice)
    requires IsRun(n, run) && k < |run| && run[k].pool.Some? && !run[k].halted
    ensures WellFormed(run[k]) && Step(run[k], run[k].pool.value, c).Some?
  {
    hide Inv, WellFormed;
    RunKeeps(n, run, k);
    ThreadFacts(run[k], run[k].pool.value);
  }

  /** A thread that waits for its slot is stuck if and only if some other thread holds that slot. */
  lemma WaitsExactly(n: nat, run: seq<State>, k: nat, t: Tid, c: Choice)
    requires IsRun(n, run) && k < |run| && !run[k].halted && t in run[k].threads && run[k].threads[t].at.Down?
    ensures WellFormed(run[k])
    ensures Step(run[k], t, c).None? <==> exists u :: u in Holders(run[k].threads, run[k].threads[t].ff) && u != t
  {
    RunKeeps(n, run, k);
    var s := run[k];
    var i := s.threads[t].ff;
    if s.slots[i].sem == 0 {
      assert Holders(s.threads, i) != {};
      var u :| u in Holders(s.threads, i);
    }
  }

  /** Some thread is inside a call or holds a lock. */
  ghost predicate Busy(s: State) {
    exists t :: t in s.threads && !s.threads[t].at.Idle?
  }

  ghost predicate SomeoneMoves(s: State, c: Choice)
    requires WellFormed(s)
  {
    exists t :: t in s.threads && !s.threads[t].at.Idle? && !s.threads[t].at.Holding? && Step(s, t, c).Some?
  }

  /** No deadlock: unless the assert has halted the program, while any thread is inside a call some thread inside a call
      can take its next step, or some thread holds a lock and may give it back. */
  lemma NoDeadlock(n: nat, run: seq<State>, k: nat, c: Choice)
    requires IsRun(n, run) && k < |run| && !run[k].halted && Busy(run[k])
    ensures WellFormed(run[k])
    ensures SomeoneMoves(run[k], c) || exists t :: t in run[k].threads && run[k].threads[t].at.Holding?
  {
    RunKeeps(n, run, k);
    var s := run[k];
    if s.pool.Some? {
      PoolHolderMoves(n, run, k, c);
      assert InPool(s.threads[s.pool.value].at);
    } else {
      var t :| t in s.threads && !s.threads[t].at.Idle?;
      FreePoolMoves(s, t, c);
    }
  }

  lemma FreePoolMoves(s: State, t: Tid, c: Choice)
    requires Inv(s) && s.pool.None? && !s.halted && t in s.threads && !s.threads[t].at.Idle?
    ensures SomeoneMoves(s, c) || exists u :: u in s.threads && s.threads[u].at.Holding?
  {
    hide Listed, HashesDiffer, ThreadsOk, Counted;
    ThreadFacts(s, t);
    var p := s.threads[t];
    if p.at.Down? && s.slots[p.ff].sem == 0 {
      var u :| u in Holders(s.threads, p.ff);
      assert s.threads[u].at.Holding? || Step(s, u, c).Some?;
    } else if !p.at.Holding? {
      assert Step(s, t, c).Some?;
    }
  }

  // ---------------------------------------------------------------- what the calls answer

  /** Where one step takes its thread, call by call. */
  predicate Goes(s: State, p: Thread, p': Thread)
    requires HasSlot(p.at) ==> p.ff < |s.slots|
  {
    && (p.at.Idle? || (p'.h == p.h && p'.try == p.try))
    && match p.at
       case Idle => p'.at.Enter?
       case Enter => p'.at.Lookup?
       case Lookup => p'.at.AddRef? || p'.at.Alloc?
       case Alloc =>
         if s.free != [] then p'.at.Relookup? || p'.at.Install? else if p.try then p'.at.NoSlot? else p'.at.Nap?
       case Nap => p'.at.Alloc?
       case Relookup => p'.at.AddRef? || p'.at.Install?
       case Install => p'.at.AddRef?
       case AddRef => p'.at.Leave?
       case Leave => if p.try then p'.at.TryDown? else p'.at.Down?
       case NoSlot => p'.at.Failing?
       case Failing => p' == p
       case Down => p'.at.Holding?
       case TryDown => if s.slots[p.ff].sem == 0 then p'.at.TryEnter? else p'.at.Holding?
       case TryEnter => p'.at.TryCheck?
       case TryCheck => if s.slots[p.ff].refs == 1 then p'.at.TryKeep? else p'.at.TryFail?
       case TryKeep => p'.at.Down?
       case TryFail => p'.at.Idle?
       case Holding => p'.at.UnEnter?
       case UnEnter => p'.at.UnFind?
       case UnFind => p'.at.UnUp? || p'.at.UnLeave?
       case UnUp => p'.at.UnPut?
       case UnPut => p'.at.UnLeave?
       case UnLeave => p'.at.Idle?
  }

  lemma OwnGoes(s: State, t: Tid, c: Choice)
    requires WellFormed(s) && Step(s, t, c).Some?
    ensures (HasSlot(At(s, t).at) ==> At(s, t).ff < |s.slots|) && Goes(s, At(s, t), At(Step(s, t, c).value, t))
  {
    SlotInRange(s, t);
    hide WellFormed, Find, Without, Less;
    match At(s, t).at {
      case Idle => case Enter => case Lookup => case Alloc => case Nap => case Relookup => case Install =>
      case AddRef => case Leave => case NoSlot => case Failing => case Down => case TryDown => case TryEnter =>
      case TryCheck => case TryKeep => case TryFail => case Holding => case UnEnter => case UnFind => case UnUp =>
      case UnPut => case UnLeave =>
    }
  }

  lemma SlotInRange(s: State, t: Tid)
    requires WellFormed(s)
    ensures HasSlot(At(s, t).at) ==> At(s, t).ff < |s.slots|
  {
  }

  lemma StepElsewhere(s: State, t: Tid, c: Choice, u: Tid)
    requires WellFormed(s) && Step(s, t, c).Some? && u != t
    ensures At(Step(s, t, c).value, u) == At(s, u)
  {
  }

  lemma OneStep(n: nat, run: seq<State>, k: nat)
    requires IsRun(n, run) && k + 1 < |run|
    ensures Next(run[k], run[k + 1])
  {
  }

  lemma RunGoes(n: nat, run: seq<State>, k: nat, t: Tid)
    requires IsRun(n, run) && k + 1 < |run|
    ensures HasSlot(At(run[k], t).at) ==> At(run[k], t).ff < |run[k].slots|
    ensures At(run[k + 1], t) == At(run[k], t) || Goes(run[k], At(run[k], t), At(run[k + 1], t))
  {
    hide IsRun, Inv, Step, Goes, WellFormed;
    RunKeeps(n, run, k);
    ThreadFacts(run[k], t);
    assert Next(run[k], run[k + 1]) by { OneStep(n, run, k); }
    var u: Tid, c: Choice :| Step(run[k], u, c) == Some(run[k + 1]);
    if t == u {
      OwnGoes(run[k], t, c);
    } else {
      StepElsewhere(run[k], u, c, t);
    }
  }

  /** Between the start of fio_lock_file or fio_trylock_file and its return. */
  predicate Locking(l: Label) {
    !l.Idle? && !l.Holding? && !Unlocking(l)
  }

  predicate Unlocking(l: Label) {
    l.UnEnter? || l.UnFind? || l.UnUp? || l.UnPut? || l.UnLeave?
  }

  predicate InTry(l: Label) {
    l.NoSlot? || l.Failing? || l.TryDown? || l.TryEnter? || l.TryCheck? || l.TryKeep? || l.TryFail?
  }

  lemma {:induction false} TriesOnly(n: nat, run: seq<State>, k: nat, t: Tid)
    requires IsRun(n, run) && k < |run|
    ensures InTry(At(run[k], t).at) ==> At(run[k], t).try
  {
    hide Next;
    if k > 0 {
      TriesOnly(n, run, k - 1, t);
      RunGoes(n, run, k - 1, t);
    }
  }

  /** An idle thread can only start a call, of the kind and for the name it asks. */
  lemma CallsBegin(s: State, t: Tid, c: Choice)
    requires WellFormed(s) && !s.halted && At(s, t).at.Idle?
    ensures Step(s, t, c).Some? <==> !c.Unlock?
    ensures Step(s, t, c).Some? ==>
              var p := At(Step(s, t, c).value, t); Locking(p.at) && p.h == c.h && p.try == c.TryLock?
  {
  }

  /** A call keeps its name and its kind until it returns. A lock call returns only with the lock; only a trylock can
      return without it, through its failure path. Holding ends only by unlocking, and unlocking only by being idle. */
  lemma CallsEnd(n: nat, run: seq<State>, k: nat, t: Tid)
    requires IsRun(n, run) && k + 1 < |run|
    ensures var p, p' := At(run[k], t), At(run[k + 1], t);
      && (!p.at.Idle? ==> p'.h == p.h && p'.try == p.try)
      && (Locking(p.at) && !Locking(p'.at) ==> p'.at.Holding? || (p'.at.Idle? && p.at.TryFail? && p.try))
      && (p.at.Holding? && !p'.at.Holding? ==> Unlocking(p'.at))
      && (Unlocking(p.at) && !Unlocking(p'.at) ==> p.at.UnLeave? && p'.at.Idle?)
      && (p.at.Idle? && !p'.at.Idle? ==> Locking(p'.at))
  {
    hide IsRun;
    TriesOnly(n, run, k, t);
    RunGoes(n, run, k, t);
  }

  /** The thread tries the semaphore of its slot while another thread owns it. */
  ghost predicate FoundHeld(s: State, t: Tid) {
    At(s, t).at.TryDown? && exists u :: u in Holders(s.threads, At(s, t).ff) && u != t
  }

  /** The thread tests its slot while another thread refers to it. */
  ghost predicate FoundShared(s: State, t: Tid) {
    At(s, t).at.TryCheck? && exists u :: u in Users(s.threads, At(s, t).ff) && u != t
  }

  /** The two tests of a trylock, exactly: the semaphore is refused if and only if another thread owns it, and the lock
      is reported as taken if and only if another thread refers to the slot. */
  lemma TryAnswers(n: nat, run: seq<State>, k: nat, t: Tid)
    requires IsRun(n, run) && k + 1 < |run| && At(run[k + 1], t) != At(run[k], t)
    ensures At(run[k], t).at.TryDown? ==>
              At(run[k + 1], t).at == (if FoundHeld(run[k], t) then TryEnter else Holding)
    ensures At(run[k], t).at.TryCheck? ==>
              At(run[k + 1], t).at == (if FoundShared(run[k], t) then TryFail else TryKeep)
  {
    hide IsRun, Inv, WellFormed;
    RunGoes(n, run, k, t);
    RunKeeps(n, run, k);
    ThreadFacts(run[k], t);
    if At(run[k], t).at.TryDown? {
      HeldExactly(run[k], t);
    } else if At(run[k], t).at.TryCheck? {
      SharedExactly(run[k], t);
    }
  }

  lemma HeldExactly(s: State, t: Tid)
    requires Inv(s) && t in s.threads && s.threads[t].at.TryDown? && s.threads[t].ff < |s.slots|
    ensures s.slots[s.threads[t].ff].sem == 0 <==> FoundHeld(s, t)
  {
    var held := Holders(s.threads, s.threads[t].ff);
    assert s.slots[s.threads[t].ff].sem + |held| == 1;
    assert t !in held;
    if held != {} {
      var u :| u in held;
    }
  }

  lemma SharedExactly(s: State, t: Tid)
    requires Inv(s) && t in s.threads && s.threads[t].at.TryCheck? && s.threads[t].ff < |s.slots|
    ensures s.slots[s.threads[t].ff].refs != 1 <==> FoundShared(s, t)
  {
    var users := Users(s.threads, s.threads[t].ff);
    assert t in users && |users - {t}| == |users| - 1;
    if users - {t} != {} {
      var u :| u in users - {t};
    } else {
      assert forall u :: u in users ==> u == t || u in users - {t};
    }
  }

  predicate Refused(l: Label) {
    l.TryEnter? || l.TryCheck? || l.TryFail?
  }

  ghost predicate RefusedSince(run: seq<State>, j: nat, k: nat, t: Tid) {
    j < k < |run| && FoundHeld(run[j], t) && forall m :: j < m <= k ==> Refused(At(run[m], t).at)
  }

  lemma {:induction false} RefusedHeld(n: nat, run: seq<State>, k: nat, t: Tid)
    requires IsRun(n, run) && k < |run| && Refused(At(run[k], t).at)
    ensures exists j: nat :: RefusedSince(run, j, k, t)
  {
    hide Next, FoundHeld;
    if k == 0 {
      assert false;
    } else {
      RunGoes(n, run, k - 1, t);
      if Refused(At(run[k - 1], t).at) {
        RefusedHeld(n, run, k - 1, t);
        var j: nat :| RefusedSince(run, j, k - 1, t);
        assert RefusedSince(run, j, k, t);
      } else {
        TryAnswers(n, run, k - 1, t);
        assert RefusedSince(run, k - 1, k, t);
      }
    }
  }

  lemma {:induction false} FailedShared(n: nat, run: seq<State>, j: nat, k: nat, t: Tid)
    requires IsRun(n, run) && RefusedSince(run, j, k, t) && At(run[k], t).at.TryFail?
    ensures exists m :: j < m < k && FoundShared(run[m], t)
    decreases k
  {
    hide Next, FoundHeld, FoundShared;
    RunGoes(n, run, k - 1, t);
    if j < k - 1 && At(run[k - 1], t).at.TryFail? {
      FailedShared(n, run, j, k - 1, t);
    } else {
      assert At(run[j], t).at.TryDown? by { assert FoundHeld(run[j], t); FoundAtTry(run[j], t); }
      TryAnswers(n, run, k - 1, t);
    }
  }

  lemma FoundAtTry(s: State, t: Tid)
    requires FoundHeld(s, t)
    ensures At(s, t).at.TryDown?
  {
  }

  /** A trylock reports the lock as taken only if another thread owned the slot's semaphore when this very call tried
      it, and another thread referred to the slot when it looked again with the pool lock in hand. */
  lemma TryFailsOnlyBusy(n: nat, run: seq<State>, k: nat, t: Tid)
    requires IsRun(n, run) && k + 1 < |run| && Locking(At(run[k], t).at) && At(run[k + 1], t).at.Idle?
    ensures At(run[k], t).try && At(run[k], t).at.TryFail?
    ensures exists j: nat, m: nat :: RefusedSince(run, j, k, t) && j < m < k && FoundShared(run[m], t)
  {
    hide IsRun, RefusedSince, FoundShared;
    CallsEnd(n, run, k, t);
    RefusedHeld(n, run, k, t);
    var j: nat :| RefusedSince(run, j, k, t);
    FailedShared(n, run, j, k, t);
  }

  /** The thread, a trylock, looks for a slot when none is free. */
  predicate FoundEmpty(s: State, t: Tid) {
    At(s, t).at.Alloc? && At(s, t).try && s.free == []
  }

  lemma {:induction false} FailingEmpty(n: nat, run: seq<State>, k: nat, t: Tid)
    requires IsRun(n, run) && k < |run| && (At(run[k], t).at.NoSlot? || At(run[k], t).at.Failing?)
    ensures exists j :: 0 <= j < k && FoundEmpty(run[j], t)
  {
    hide Next;
    if k == 0 {
      assert false;
    } else {
      RunGoes(n, run, k - 1, t);
      if At(run[k - 1], t).at.NoSlot? || At(run[k - 1], t).at.Failing? {
        FailingEmpty(n, run, k - 1, t);
      } else {
        assert FoundEmpty(run[k - 1], t);
      }
    }
  }

  lemma HaltsFailing(s: State, t: Tid, c: Choice)
    requires WellFormed(s) && Step(s, t, c).Some? && Step(s, t, c).value.halted
    ensures At(s, t).at.Failing?
  {
    hide WellFormed, Find, Without, Less;
    match At(s, t).at {
      case Idle => case Enter => case Lookup => case Alloc => case Nap => case Relookup => case Install =>
      case AddRef => case Leave => case NoSlot => case Failing => case Down => case TryDown => case TryEnter =>
      case TryCheck => case TryKeep => case TryFail => case Holding => case UnEnter => case UnFind => case UnUp =>
      case UnPut => case UnLeave =>
    }
  }

  /** The assertion in __fio_lock_file stops the program only after a trylock met an empty free list. */
  lemma HaltsOnlyEmpty(n: nat, run: seq<State>, k: nat)
    requires IsRun(n, run) && k < |run| && run[k].halted
    ensures exists j: nat, t: Tid :: j < k && FoundEmpty(run[j], t)
    decreases k
  {
    hide Step, WellFormed, FoundEmpty, Inv;
    if k == 0 {
      assert false;
    } else {
      RunKeeps(n, run, k - 1);
      assert Next(run[k - 1], run[k]);
      var t: Tid, c: Choice :| WellFormed(run[k - 1]) && Step(run[k - 1], t, c) == Some(run[k]);
      HaltsFailing(run[k - 1], t, c);
      FailingEmpty(n, run, k - 1, t);
    }
  }

  // ---------------------------------------------------------------- the trylock race

  /** The "only reference is us" test: a trylock that passes it is the only user of the slot and sees it unlocked. */
  lemma TryRace(n: nat, run: seq<State>, k: nat, t: Tid)
    requires IsRun(n, run) && k < |run| && t in run[k].threads && run[k].threads[t].at.TryCheck?
    ensures run[k].threads[t].ff < |run[k].slots|
    ensures var i := run[k].threads[t].ff;
      run[k].slots[i].refs == 1 ==>
        run[k].slots[i].sem == 1 && Users(run[k].threads, i) == {t} && Holders(run[k].threads, i) == {}
  {
    RunKeeps(n, run, k);
    var s := run[k];
    var i := s.threads[t].ff;
    if s.slots[i].refs == 1 {
      var others := Users(s.threads, i) - {t};
      assert t in Users(s.threads, i);
      assert Users(s.threads, i) == others + {t};
      assert others == {};
      forall u | u in Holders(s.threads, i) ensures u in others {
        ThreadFacts(s, u);
        assert InPool(s.threads[t].at);
      }
    }
  }

  /** The thread refers to slot `i` or owns its semaphore. */
  predicate Uses(p: Thread, i: nat) {
    Using(p.at) && p.ff == i
  }

  predicate Using(l: Label) {
    Refers(l) || Holds(l)
  }

  lemma StepOwn(s: State, u: Tid, c: Choice)
    requires WellFormed(s) && Step(s, u, c).Some?
    ensures var p, p' := At(s, u), At(Step(s, u, c).value, u);
      Using(p'.at) ==> (Using(p.at) || p.at.AddRef?) && (p'.ff == p.ff || p.at.UnFind?)
  {
    hide WellFormed, Find, Without, Less;
    match At(s, u).at {
      case Idle => case Enter => case Lookup => case Alloc => case Nap => case Relookup => case Install =>
      case AddRef => case Leave => case NoSlot => case Failing => case Down => case TryDown => case TryEnter =>
      case TryCheck => case TryKeep => case TryFail => case Holding => case UnEnter => case UnFind => case UnUp =>
      case UnPut => case UnLeave =>
    }
  }

  lemma StepUnFind(s: State, u: Tid, c: Choice)
    requires Inv(s) && Step(s, u, c).Some? && At(s, u).at.UnFind?
    ensures At(Step(s, u, c).value, u).ff == At(s, u).ff
  {
    hide WellFormed, Find, Without, Inv;
    ThreadFacts(s, u);
    SameHash(s, u);
  }

  /** A thread gets to use a slot only by taking a reference, with the pool lock in hand. */
  lemma ComesByReference(s: State, s': State, u: Tid, i: nat)
    requires Inv(s) && Next(s, s') && !Uses(At(s, u), i) && Uses(At(s', u), i)
    ensures At(s, u).at.AddRef? && At(s, u).ff == i && s.pool == Some(u)
  {
    hide Inv, Step;
    ThreadFacts(s, u);
    var t: Tid, c: Choice :| Step(s, t, c) == Some(s');
    if t == u {
      StepOwn(s, u, c);
      if At(s, u).at.UnFind? {
        StepUnFind(s, u, c);
      }
    } else {
      StepElsewhere(s, t, c, u);
    }
  }

  /** A trylock between passing the test and getting slot `i`. */
  predicate Passed(s: State, t: Tid, i: nat) {
    var p := At(s, t);
    (p.at.TryKeep? || (p.at.Down? && p.try)) && p.ff == i
  }

  /** Thread `u` takes its reference to slot `i` while `t` has dropped the pool lock and waits. */
  predicate SlipsIn(s: State, t: Tid, u: Tid, i: nat) {
    At(s, t).at.Down? && At(s, u).at.AddRef? && At(s, u).ff == i && s.pool == Some(u)
  }

  /** Thread `t` passes the test for slot `i` at state `j` and has not got the slot at state `k`. */
  ghost predicate AfterTest(run: seq<State>, j: nat, k: nat, t: Tid, i: nat) {
    && j < k < |run|
    && At(run[j], t).at.TryCheck? && At(run[j], t).ff == i && i < |run[j].slots| && run[j].slots[i].refs == 1
    && forall m :: j < m <= k ==> Passed(run[m], t, i)
  }

  /** Whoever uses the slot by then has taken its reference after the trylock dropped the pool lock. */
  lemma {:induction false} SlippedIn(n: nat, run: seq<State>, j: nat, k: nat, t: Tid, u: Tid, i: nat)
    requires IsRun(n, run) && AfterTest(run, j, k, t, i) && u != t && Uses(At(run[k], u), i)
    ensures exists m :: j < m < k && SlipsIn(run[m], t, u, i)
    decreases k
  {
    hide Inv, Next, Step, Uses, IsRun;
    UnusedBefore(n, run, j, t, u, i);
    RunKeeps(n, run, k - 1);
    assert Next(run[k - 1], run[k]) by { OneStep(n, run, k - 1); }
    if Uses(At(run[k - 1], u), i) {
      assert j < k - 1;
      SlippedIn(n, run, j, k - 1, t, u, i);
    } else {
      ComesByReference(run[k - 1], run[k], u, i);
      ThreadFacts(run[k - 1], t);
      assert SlipsIn(run[k - 1], t, u, i);
    }
  }

  lemma UnusedBefore(n: nat, run: seq<State>, j: nat, t: Tid, u: Tid, i: nat)
    requires IsRun(n, run) && j < |run| && At(run[j], t).at.TryCheck? && At(run[j], t).ff == i && u != t
    requires i < |run[j].slots| && run[j].slots[i].refs == 1
    ensures !Uses(At(run[j], u), i)
  {
    hide IsRun;
    TryRace(n, run, j, t);
    assert u !in Users(run[j].threads, i) && u !in Holders(run[j].threads, i);
  }

  /** So a trylock that passed its test waits for the slot if and only if another thread holds it, and every such thread
      took its reference in between: it did not use the slot when the test passed. */
  lemma TryWaitsExactly(n: nat, run: seq<State>, j: nat, k: nat, t: Tid, i: nat, c: Choice)
    requires IsRun(n, run) && AfterTest(run, j, k, t, i) && At(run[k], t).at.Down? && !run[k].halted
    ensures WellFormed(run[k])
    ensures Step(run[k], t, c).None? <==> exists u :: u in Holders(run[k].threads, i) && u != t
    ensures forall u :: u in Holders(run[k].threads, i) && u != t ==>
              !Uses(At(run[j], u), i) && exists m :: j < m < k && SlipsIn(run[m], t, u, i)
  {
    hide IsRun, Step, WellFormed, SlipsIn;
    WaitsExactly(n, run, k, t, c);
    forall u | u in Holders(run[k].threads, i) && u != t
      ensures !Uses(At(run[j], u), i) && exists m :: j < m < k && SlipsIn(run[m], t, u, i)
    {
      UnusedBefore(n, run, j, t, u, i);
      SlippedIn(n, run, j, k, t, u, i);
    }
  }

  // ---------------------------------------------------------------- a run in which the trylock waits

  ghost predicate EndsRun(n: nat, run: seq<State>, s: State) {
    IsRun(n, run) && WellFormed(s) && s == run[|run| - 1]
  }

  /** One more step of a run. */
  lemma Go(n: nat, run: seq<State>, s: State, t: Tid, c: Choice) returns (run': seq<State>, s': State)
    requires EndsRun(n, run, s) && Step(s, t, c).Some?
    ensures s' == Step(s, t, c).value && run' == run + [s'] && EndsRun(n, run', s')
  {
    hide Step, WellFormed;
    s' := Step(s, t, c).value;
    run' := run + [s'];
    assert Next(s, s');
    RunKeeps(n, run', |run|);
    ThreadFacts(s', t);
  }

  lemma StartOfRun(n: nat)
    ensures EndsRun(n, [Init(n)], Init(n))
  {
  }

  function Call(at: Label, try: bool, left: nat): Thread {
    Thread(at, 7, try, false, 0, left)
  }

  /** A pool of one slot, active under name 7. */
  function One(refs: nat, sem: nat, pool: Option<Tid>, threads: map<Tid, Thread>): State {
    State([Slot(7, refs, sem)], [], [0], pool, threads, false)
  }

  /** Thread 0 finds name 7 unused and takes the slot in hand. */
  lemma RaceInstall() returns (run: seq<State>, s: State)
    ensures EndsRun(1, run, s)
    ensures s == State([Slot(0, 0, 1)], [], [], Some(0), map[0 := Call(Install, false, 0)], false)
  {
    hide WellFormed, IsRun;
    StartOfRun(1);
    run, s := [Init(1)], Init(1);
    assert s.slots == [Slot(0, 0, 1)] && s.free == [0];
    run, s := Go(1, run, s, 0, Lock(7));
    run, s := Go(1, run, s, 0, Unlock);
    run, s := Go(1, run, s, 0, Unlock);
    run, s := Go(1, run, s, 0, Unlock);
  }

  /** Thread 0 takes the lock of name 7. */
  lemma RaceHeld() returns (run: seq<State>, s: State)
    ensures EndsRun(1, run, s) && s == One(1, 0, None, map[0 := Call(Holding, false, 0)])
  {
    hide WellFormed, IsRun;
    run, s := RaceInstall();
    run, s := Go(1, run, s, 0, Unlock);
    run, s := Go(1, run, s, 0, Unlock);
    assert s == One(1, 1, Some(0), map[0 := Call(Leave, false, 0)]);
    run, s := Go(1, run, s, 0, Unlock);
    run, s := Go(1, run, s, 0, Unlock);
  }

  /** Thread 1 tries it and finds it taken. */
  lemma RaceBusy() returns (run: seq<State>, s: State)
    ensures EndsRun(1, run, s)
    ensures s == One(2, 0, None, map[0 := Call(Holding, false, 0), 1 := Call(TryEnter, true, 0)])
  {
    hide WellFormed, IsRun;
    run, s := RaceHeld();
    run, s := Go(1, run, s, 1, TryLock(7));
    run, s := Go(1, run, s, 1, Unlock);
    assert s == One(1, 0, Some(1), map[0 := Call(Holding, false, 0), 1 := Call(Lookup, true, 0)]);
    run, s := Go(1, run, s, 1, Unlock);
    run, s := Go(1, run, s, 1, Unlock);
    assert s == One(2, 0, Some(1), map[0 := Call(Holding, false, 0), 1 := Call(Leave, true, 0)]);
    run, s := Go(1, run, s, 1, Unlock);
    run, s := Go(1, run, s, 1, Unlock);
  }

  /** Thread 0 starts to unlock. */
  lemma RaceUnlocking() returns (run: seq<State>, s: State)
    ensures EndsRun(1, run, s)
    ensures s == One(2, 0, Some(0), map[0 := Call(UnFind, false, 0), 1 := Call(TryEnter, true, 0)])
  {
    hide WellFormed, IsRun;
    run, s := RaceBusy();
    run, s := Go(1, run, s, 0, Unlock);
    run, s := Go(1, run, s, 0, Unlock);
  }

  /** Thread 0 drops its reference and gives the lock back, with the pool lock in hand. */
  lemma RaceDropped() returns (run: seq<State>, s: State)
    ensures EndsRun(1, run, s)
    ensures s == One(1, 1, Some(0), map[0 := Call(UnPut, false, 1), 1 := Call(TryEnter, true, 0)])
  {
    hide WellFormed, IsRun;
    run, s := RaceUnlocking();
    run, s := Go(1, run, s, 0, Unlock);
    assert s == One(1, 0, Some(0), map[0 := Call(UnUp, false, 1), 1 := Call(TryEnter, true, 0)]);
    run, s := Go(1, run, s, 0, Unlock);
  }

  /** Thread 0 leaves. */
  lemma RaceGivenBack() returns (run: seq<State>, s: State)
    ensures EndsRun(1, run, s)
    ensures s == One(1, 1, None, map[0 := Call(Idle, false, 1), 1 := Call(TryEnter, true, 0)])
  {
    hide WellFormed, IsRun;
    run, s := RaceDropped();
    run, s := Go(1, run, s, 0, Unlock);
    assert s == One(1, 1, Some(0), map[0 := Call(UnLeave, false, 1), 1 := Call(TryEnter, true, 0)]);
    run, s := Go(1, run, s, 0, Unlock);
  }

  /** Thread 1 is the only reference, passes the test and drops the pool lock; `j` is the state of the test. */
  lemma RacePassed() returns (run: seq<State>, s: State, j: nat)
    ensures EndsRun(1, run, s) && j + 3 == |run| && AfterTest(run, j, j + 2, 1, 0)
    ensures s == One(1, 1, None, map[0 := Call(Idle, false, 1), 1 := Call(Down, true, 0)])
  {
    hide WellFormed, IsRun;
    run, s := RaceGivenBack();
    j := |run|;
    run, s := Go(1, run, s, 1, Unlock);
    run, s := Go(1, run, s, 1, Unlock);
    run, s := Go(1, run, s, 1, Unlock);
  }

  /** Thread 2 locks the name before thread 1 gets the slot, and thread 1 is stuck: the failing input. */
  lemma TryWaitsExample() returns (run: seq<State>, j: nat, k: nat)
    ensures IsRun(1, run) && k + 1 == |run| && AfterTest(run, j, k, 1, 0)
    ensures !run[k].halted && WellFormed(run[k]) && Step(run[k], 1, Unlock).None?
  {
    hide WellFormed, IsRun;
    var s;
    run, s, j := RacePassed();
    run, s := Go(1, run, s, 2, Lock(7));
    run, s := Go(1, run, s, 2, Unlock);
    assert s == One(1, 1, Some(2),
                    map[0 := Call(Idle, false, 1), 1 := Call(Down, true, 0), 2 := Call(Lookup, false, 0)]);
    run, s := Go(1, run, s, 2, Unlock);
    run, s := Go(1, run, s, 2, Unlock);
    assert s == One(2, 1, Some(2),
                    map[0 := Call(Idle, false, 1), 1 := Call(Down, true, 0), 2 := Call(Leave, false, 0)]);
    run, s := Go(1, run, s, 2, Unlock);
    run, s := Go(1, run, s, 2, Unlock);
    k := |run| - 1;
  }
}
