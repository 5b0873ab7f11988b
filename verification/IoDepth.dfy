/** How many units are in use: the depth the latency search allows, the quiesce that follows when it goes down, and when
    that quiesce ends. */
module IoDepth {
  import opened Bits
  import opened Options
  import opened IoUnits

  /** The free stack only gives up a unit when the ring is empty and the depth is below the cap. */
  lemma StepFreelist(td: Td, act: Act)
    requires WellFormed(td) && Step(td, act).Some?
    ensures var td' := Step(td, act).value;
            || |td'.freelist| >= |td.freelist|
            || (|td'.freelist| == |td.freelist| - 1 && td.requeues == [] && !QueueFull(td))
  {
    hide Wrap32, SubmitTd, Moved, AnswerOk;
    if act.Submit? {
      SubmitFate(td, td.held.value, act.answer);
    }
  }

  /** The units that are in use: held, with the engine, or waiting on the ring. */
  function InUse(td: Td): int {
    |td.units| - |td.freelist|
  }

  function Max(a: int, b: int): int { if a < b then b else a }

  lemma NotFull(td: Td)
    ensures !QueueFull(td) && td.cfg.target ==> td.curDepth < td.qd
  {
  }

  /** One step raises the use only to a depth the search allows at that moment. */
  lemma StepCapped(n: nat, cfg: Config, run: seq<Td>, k: nat)
    requires IsRun(n, cfg, run) && n < U32 && k + 1 < |run| && cfg.target
    ensures InUse(run[k + 1]) <= Max(InUse(run[k]), run[k].qd)
  {
    hide Step, QueueFull, Inv;
    RunKeeps(n, cfg, run, k);
    RunKeeps(n, cfg, run, k + 1);
    DepthIsExact(n, cfg, run, k);
    assert Next(run[k], run[k + 1]);
    var act: Act :| Step(run[k], act) == Some(run[k + 1]);
    StepFreelist(run[k], act);
    NotFull(run[k]);
  }

  /** The search may move the depth it allows whenever the loop is quiet. As long as it allows at most `c`, the
      units in use, those waiting on the ring included, stay within `c` or within what was in use when that began,
      although a requeued unit is taken again without a look at the depth. */
  lemma {:induction false} DepthCapped(n: nat, cfg: Config, run: seq<Td>, j: nat, k: nat, c: nat)
    requires IsRun(n, cfg, run) && n < U32 && j <= k < |run| && cfg.target
    requires forall i :: j <= i < k ==> run[i].qd <= c
    ensures InUse(run[k]) == run[k].curDepth + |run[k].requeues|
    ensures InUse(run[k]) <= Max(InUse(run[j]), c)
    decreases k
  {
    hide IsRun;
    RunKeeps(n, cfg, run, k);
    DepthIsExact(n, cfg, run, k);
    if j < k {
      DepthCapped(n, cfg, run, j, k - 1, c);
      StepCapped(n, cfg, run, k - 1);
    }
  }

  // ---------------------------------------------------------------- the depth is kept

  /** At most one unit is held or waits on the ring. While quiescing nothing is queued that the engine still has, and
      otherwise the use is within the allowed depth. */
  predicate Kept(td: Td) {
    && |td.requeues| + |HeldOnly(td.held)| <= 1
    && (td.quiesce ==> td.held.None? && (td.queued == 0 || td.engine == {}))
    && (td.cfg.target ==> td.qd >= 1 && (td.quiesce || InUse(td) <= td.qd))
  }

  /** What the invariant says about the sizes. */
  lemma Counts(td: Td)
    requires Good(td)
    ensures td.curDepth == |td.engine| + |HeldOnly(td.held)|
    ensures InUse(td) == td.curDepth + |td.requeues|
    ensures td.queued < U32 && td.inFlight < U32 && Wrap32(td.queued + td.inFlight) == |td.engine| - td.reaping
    ensures |td.engine| < U32
  {
    Sizes(td);
  }

  lemma BeginKept(td: Td, act: Act)
    requires Good(td) && WellFormed(td) && Kept(td) && (act.Begin? || act.BeginFail?) && Step(td, act).Some?
    ensures Kept(Step(td, act).value)
  {
    Counts(td);
    hide Wrap32, Good, WellFormed, ExceedsLimit;
  }

  lemma SubmitKept(td: Td, act: Act)
    requires Good(td) && WellFormed(td) && Kept(td) && act.Submit? && Step(td, act).Some?
    ensures Kept(Step(td, act).value)
  {
    SubmitFate(td, td.held.value, act.answer);
    hide SubmitTd, Good, WellFormed, AnswerOk;
  }

  lemma EventKept(td: Td, act: Act)
    requires Good(td) && WellFormed(td) && Kept(td) && act.Event? && Step(td, act).Some?
    ensures Kept(Step(td, act).value)
  {
    CompleteFate(td, act.u, act.error, act.resid);
    EventQueue(td, act.u, act.error, act.resid);
    hide Complete, Good, WellFormed;
  }

  lemma EventQueue(td: Td, u: nat, error: bool, resid: nat)
    requires u < |td.units| && resid <= td.units[u].xfer <= td.units[u].buflen
    ensures Complete(td, u, error, resid).queued == td.queued && Complete(td, u, error, resid).inFlight == td.inFlight
  {
  }

  lemma OtherKept(td: Td, act: Act)
    requires Good(td) && WellFormed(td) && Kept(td) && Step(td, act).Some?
    requires !act.Begin? && !act.BeginFail? && !act.Submit? && !act.Event?
    ensures Kept(Step(td, act).value)
  {
    Counts(td);
    Fits32(td.queued);
    hide Wrap32, Good, WellFormed;
  }

  lemma StepKept(td: Td, act: Act)
    requires Good(td) && WellFormed(td) && Kept(td) && Step(td, act).Some?
    ensures Kept(Step(td, act).value)
  {
    hide Good, WellFormed, Kept, Step;
    if act.Begin? || act.BeginFail? {
      BeginKept(td, act);
    } else if act.Submit? {
      SubmitKept(td, act);
    } else if act.Event? {
      EventKept(td, act);
    } else {
      OtherKept(td, act);
    }
  }

  lemma {:induction false} RunKept(n: nat, cfg: Config, run: seq<Td>, k: nat)
    requires IsRun(n, cfg, run) && n < U32 && k < |run|
    ensures Kept(run[k]) && Good(run[k]) && run[k].cfg == cfg
  {
    hide Good, Step, WellFormed, Kept;
    RunKeeps(n, cfg, run, k);
    if k == 0 {
      InitKept(n, cfg);
    } else {
      RunKept(n, cfg, run, k - 1);
      assert Next(run[k - 1], run[k]);
      var act: Act :| Step(run[k - 1], act) == Some(run[k]);
      StepKept(run[k - 1], act);
    }
  }

  lemma InitKept(n: nat, cfg: Config)
    ensures Kept(Init(n, cfg))
  {
  }

  /** With a latency target the units in use, those waiting on the ring included, never exceed the allowed depth outside
      the quiesce that follows when it goes down. The ring never holds more than one unit. */
  lemma DepthKept(n: nat, cfg: Config, run: seq<Td>, k: nat)
    requires IsRun(n, cfg, run) && n < U32 && k < |run|
    ensures cfg.target && !run[k].quiesce ==> run[k].curDepth + |run[k].requeues| <= run[k].qd
    ensures |run[k].requeues| <= 1
  {
    hide IsRun, Good;
    RunKept(n, cfg, run, k);
    Counts(run[k]);
  }

  /** The use comes to exceed the allowed depth exactly when the search goes below it. */
  lemma ExceedsExactly(n: nat, cfg: Config, run: seq<Td>, k: nat, act: Act)
    requires IsRun(n, cfg, run) && n < U32 && k + 1 < |run| && cfg.target && InUse(run[k]) <= run[k].qd
    requires WellFormed(run[k]) && Step(run[k], act) == Some(run[k + 1])
    ensures InUse(run[k + 1]) <= run[k + 1].qd <==> !(act.Retarget? && act.qd < InUse(run[k]))
  {
    hide IsRun, Good, WellFormed;
    StepCapped(n, cfg, run, k);
    SameDepth(run[k], act);
  }

  lemma SameDepth(td: Td, act: Act)
    requires WellFormed(td) && Step(td, act).Some?
    ensures Step(td, act).value.qd == if act.Retarget? then act.qd else td.qd
    ensures act.Retarget? ==> InUse(Step(td, act).value) == InUse(td)
  {
    hide Wrap32, SubmitTd, AnswerOk, Moved, ExceedsLimit;
    if act.Submit? {
      SubmitFate(td, td.held.value, act.answer);
    }
  }

  /** A run that ends in a state from which a fresh unit can be sent without a commit. */
  ghost predicate CanSend(n: nat, cfg: Config, run: seq<Td>, td: Td) {
    && IsRun(n, cfg, run) && run[|run| - 1] == td && WellFormed(td) && n < U32 && td.cfg == cfg && |td.units| == n
    && !cfg.serialize && cfg.limit == 0 && cfg.batch == 9
    && Quiet(td) && td.requeues == [] && td.queued < 8 && td.curDepth < 8
  }

  /** A unit set up and held, with nothing else changed. */
  predicate Taken(td: Td, td': Td, u: nat) {
    && |td'.units| == |td.units| && u < |td.units| && td' == td.(units := td'.units, freelist := td'.freelist,
         held := Some(u), curDepth := td.curDepth + 1, serials := td'.serials)
    && td.freelist == td'.freelist + [u]
    && td'.units[u].xfer == td'.units[u].buflen == 8 && td'.units[u].inDepth
  }

  lemma TakeOne(td: Td, u: nat)
    requires WellFormed(td) && Quiet(td) && td.requeues == [] && td.cfg.limit == 0 && !QueueFull(td)
    requires u == td.freelist[|td.freelist| - 1] && td.curDepth < 7
    ensures Step(td, Begin(0, 8)).Some? && Taken(td, Step(td, Begin(0, 8)).value, u)
  {
    Fits32(td.curDepth + 1);
    hide Wrap32;
    TopIsUnit(td);
  }

  lemma QueueOne(td: Td, u: nat)
    requires WellFormed(td) && td.held == Some(u) && !td.cfg.serialize && td.cfg.batch == 9 && td.queued < 7
    requires td.units[u].xfer == td.units[u].buflen
    ensures Step(td, Submit(Queued)).Some?
    ensures var td' := Step(td, Submit(Queued)).value;
      && |td'.units| == |td.units| && td'.units[u] == td.units[u].(flight := true)
      && td' == td.(units := td'.units, held := None, engine := td.engine + {u}, queued := td.queued + 1,
                    issues := td.issues + 1)
  {
    Fits32(td.queued + 1);
    hide Wrap32;
  }

  lemma Send(n: nat, cfg: Config, run: seq<Td>, td: Td) returns (run': seq<Td>, td': Td)
    requires CanSend(n, cfg, run, td) && !QueueFull(td) && td.queued < 7 && td.curDepth < 7
    ensures CanSend(n, cfg, run', td') && td'.qd == td.qd
    ensures td.freelist == td'.freelist + [td.freelist[|td.freelist| - 1]]
    ensures td'.curDepth == td.curDepth + 1 && td'.queued == td.queued + 1 && td'.inFlight == td.inFlight
    ensures var u := td.freelist[|td.freelist| - 1];
      td'.engine == td.engine + {u} && u < n && td'.units[u].inDepth && td'.units[u].xfer <= td'.units[u].buflen
  {
    hide IsRun, WellFormed, Step;
    var u := td.freelist[|td.freelist| - 1];
    TakeOne(td, u);
    run', td' := Go(n, cfg, run, td, Begin(0, 8));
    QueueOne(td', u);
    run', td' := Go(n, cfg, run', td', Submit(Queued));
  }

  lemma TopIsUnit(td: Td)
    requires WellFormed(td) && td.freelist != []
    ensures td.freelist[|td.freelist| - 1] < |td.units|
  {
    assert td.freelist[|td.freelist| - 1] in td.freelist;
  }

  lemma CanStart(n: nat, cfg: Config)
    requires n < U32 && !cfg.serialize && cfg.limit == 0 && cfg.batch == 9
    ensures CanSend(n, cfg, [Init(n, cfg)], Init(n, cfg))
  {
    StartOfRun(n, cfg);
  }

  /** Both of two units are queued and the search allows depth 2. */
  lemma TwoOut(cfg: Config) returns (run: seq<Td>, td: Td)
    requires cfg == Config(false, 9, 0, true)
    ensures CanSend(2, cfg, run, td) && td.freelist == [] && td.qd == 2 && td.curDepth == 2
  {
    CanStart(2, cfg);
    td := Init(2, cfg);
    hide IsRun, WellFormed, Wrap32;
    run, td := Go(2, cfg, [td], td, Retarget(2));
    run, td := Send(2, cfg, run, td);
    run, td := Send(2, cfg, run, td);
  }

  /** More than the allowed depth can be in use: with two units queued the search goes back from depth 2 to 1. The loop
      quiesces until they have come back. */
  lemma DepthLowered(cfg: Config) returns (run: seq<Td>)
    requires cfg == Config(false, 9, 0, true)
    ensures IsRun(2, cfg, run)
    ensures var td := run[|run| - 1]; InUse(td) == 2 && td.qd == 1 && td.quiesce
  {
    hide IsRun, WellFormed, Wrap32;
    var td;
    run, td := TwoOut(cfg);
    run, td := Go(2, cfg, run, td, Retarget(1));
  }

  // ---------------------------------------------------------------- when a quiesce ends

  datatype Ev = Ev(u: nat, error: bool, resid: nat)

  /** The events of one call are looked at one after the other. */
  function Reap(td: Td, events: seq<Ev>): Option<Td>
    decreases |events|
  {
    if events == [] then Some(td)
    else if !WellFormed(td) then None
    else
      var td' := Step(td, Event(events[0].u, events[0].error, events[0].resid));
      if td'.None? then None else Reap(td'.value, events[1..])
  }

  /** One turn of the loop in io_u_quiesce: at least one event is waited for, except that with a depth of 0 the
      engine is not asked at all. */
  ghost predicate Turn(td: Td, td': Td) {
    if td.curDepth == 0 then td' == td
    else
      && WellFormed(td)
      && exists events: seq<Ev> :: events != [] && Step(td, GetEvents(|events|)).Some? &&
           Reap(Step(td, GetEvents(|events|)).value, events) == Some(td')
  }

  /** The turns of a quiesce that began in state `td`: each but the last found something in flight. */
  ghost predicate Turns(td: Td, turns: seq<Td>) {
    && turns != [] && turns[0] == CommitTd(td).(quiesce := true)
    && forall i :: 0 <= i < |turns| - 1 ==> TurnAt(turns, i)
  }

  ghost predicate TurnAt(turns: seq<Td>, i: nat)
    requires i < |turns| - 1
  {
    turns[i].inFlight != 0 && Turn(turns[i], turns[i + 1])
  }

  lemma TurnsBut1(td: Td, turns: seq<Td>)
    requires Turns(td, turns) && |turns| > 1
    ensures Turns(td, turns[..|turns| - 1]) && TurnAt(turns, |turns| - 2)
  {
    hide Turn;
    var before := turns[..|turns| - 1];
    forall i | 0 <= i < |before| - 1 ensures TurnAt(before, i) {
      assert TurnAt(turns, i);
    }
  }

  lemma TurnsMore(td: Td, turns: seq<Td>, next: Td)
    requires Turns(td, turns) && turns[|turns| - 1].inFlight != 0 && Turn(turns[|turns| - 1], next)
    ensures Turns(td, turns + [next])
  {
    hide Turn;
    var more := turns + [next];
    forall i | 0 <= i < |more| - 1 ensures TurnAt(more, i) {
      assert i < |turns| - 1 ==> TurnAt(turns, i);
    }
  }

  /** Nothing is left queued, so what is in flight is what the engine has. */
  ghost predicate Draining(td: Td) {
    Good(td) && td.held.None? && td.reaping == 0 && td.queued == 0 && td.quiesce
  }

  /** io_u_quiesce may return. */
  predicate CanReturn(td: Td) {
    WellFormed(td) && Step(td, Quiesced).Some?
  }

  lemma ReturnsWhen(td: Td)
    requires Good(td) && td.held.None? && td.reaping == 0 && td.quiesce
    ensures CanReturn(td) <==> td.inFlight == 0
  {
  }

  lemma DrainingCounts(td: Td)
    requires Draining(td)
    ensures td.inFlight == |td.engine| == td.curDepth && WellFormed(td)
  {
    Counts(td);
    Fits32(td.inFlight);
  }

  lemma {:induction false} ReapDrains(td: Td, events: seq<Ev>)
    requires Good(td) && td.held.None? && td.queued == 0 && td.quiesce && td.reaping == |events|
    requires Reap(td, events).Some?
    ensures var td' := Reap(td, events).value; Draining(td') && |td'.engine| == |td.engine| - |events|
    decreases |events|
  {
    hide Good, WellFormed;
    if events != [] {
      var e := events[0];
      var next := Step(td, Event(e.u, e.error, e.resid)).value;
      EventDrains(td, e);
      ReapDrains(next, events[1..]);
    }
  }

  lemma EventDrains(td: Td, e: Ev)
    requires Good(td) && WellFormed(td) && Step(td, Event(e.u, e.error, e.resid)).Some?
    ensures var td' := Step(td, Event(e.u, e.error, e.resid)).value;
      && Good(td') && td'.held == td.held && td'.queued == td.queued && td'.quiesce == td.quiesce
      && td'.reaping == td.reaping - 1 && |td'.engine| == |td.engine| - 1
  {
    StepKeeps(td, Event(e.u, e.error, e.resid));
    CompleteFate(td, e.u, e.error, e.resid);
    EventQueue(td, e.u, e.error, e.resid);
    hide Complete, Good, WellFormed;
  }

  lemma AskDrains(td: Td, r: nat)
    requires Draining(td) && WellFormed(td) && Step(td, GetEvents(r)).Some?
    ensures var td' := Step(td, GetEvents(r)).value;
      && Good(td') && td'.held.None? && td'.queued == 0 && td'.quiesce && td'.reaping == r && td'.engine == td.engine
  {
    StepKeeps(td, GetEvents(r));
    hide Good, WellFormed, Wrap32;
  }

  lemma TurnDrains(td: Td, td': Td)
    requires Draining(td) && td.inFlight != 0 && Turn(td, td')
    ensures Draining(td') && |td'.engine| < |td.engine|
  {
    hide Good, WellFormed, Reap, Step, Draining;
    DrainingCounts(td);
    var events: seq<Ev> :| events != [] && Step(td, GetEvents(|events|)).Some? &&
      Reap(Step(td, GetEvents(|events|)).value, events) == Some(td');
    AskDrains(td, |events|);
    ReapDrains(Step(td, GetEvents(|events|)).value, events);
  }

  /** The commit at the start leaves nothing queued, or does nothing because the depth is 0. */
  lemma StartDrains(td: Td)
    requires Good(td) && Quiet(td)
    ensures td.curDepth > 0 || td.queued == 0 ==> Draining(CommitTd(td).(quiesce := true))
    ensures CommitTd(td).engine == td.engine
    ensures !(td.curDepth > 0 || td.queued == 0) ==> CommitTd(td) == td && td.inFlight == U32 - td.queued
  {
    Counts(td);
    CommitKeeps(td);
    AsideKeeps(CommitTd(td), CommitTd(td).(quiesce := true));
    hide Inv;
  }

  /** A quiesce that begins with units at the engine or with nothing queued ends: every turn brings units back, a
      turn is always possible while something is in flight, and at the end the engine has nothing. */
  lemma {:induction false} QuiesceEnds(td: Td, turns: seq<Td>)
    requires Good(td) && Quiet(td) && (td.curDepth > 0 || td.queued == 0) && Turns(td, turns)
    ensures var last := turns[|turns| - 1];
      && Draining(last) && |turns| + |last.engine| <= |td.engine| + 1 && last.inFlight == |last.engine|
      && (CanReturn(last) <==> last.engine == {})
    decreases |turns|
  {
    hide Good, Draining, Turn, CanReturn;
    StartDrains(td);
    var last := turns[|turns| - 1];
    if |turns| > 1 {
      TurnsBut1(td, turns);
      QuiesceEnds(td, turns[..|turns| - 1]);
      TurnDrains(turns[|turns| - 2], last);
    }
    DrainingCounts(last);
    DrainingReturns(last);
  }

  lemma DrainingReturns(td: Td)
    requires Draining(td)
    ensures CanReturn(td) <==> td.inFlight == 0
  {
    hide Good, CanReturn;
    ReturnsWhen(td);
  }

  /** One that begins with nothing at the engine and something queued never ends: no turn changes anything. */
  lemma {:induction false} QuiesceHangs(td: Td, turns: seq<Td>, i: nat)
    requires Good(td) && Quiet(td) && td.curDepth == 0 && td.queued != 0 && Turns(td, turns) && i < |turns|
    ensures turns[i] == td.(quiesce := true) && turns[i].inFlight == U32 - td.queued && !CanReturn(turns[i])
  {
    hide Good, CanReturn;
    StartDrains(td);
    QueuedBelow(td);
    if i > 0 {
      QuiesceHangs(td, turns, i - 1);
      assert TurnAt(turns, i - 1);
    }
    assert Good(turns[i]) by { AsideGood(td, turns[i]); }
    ReturnsWhen(turns[i]);
  }

  lemma AsideGood(td: Td, td': Td)
    requires Good(td) && td' == td.(quiesce := true)
    ensures Good(td')
  {
    AsideKeeps(td, td');
    hide Inv;
  }

  lemma QueuedBelow(td: Td)
    requires Good(td)
    ensures td.queued < U32
  {
  }

  /** From a draining state the turns can always be continued to the end. */
  lemma {:induction false} Drain(td: Td, turns: seq<Td>) returns (all: seq<Td>)
    requires Turns(td, turns) && Draining(turns[|turns| - 1])
    ensures Turns(td, all) && all[|all| - 1].inFlight == 0
    decreases |turns[|turns| - 1].engine|
  {
    hide Draining, Turn;
    var last := turns[|turns| - 1];
    DrainingCounts(last);
    if last.inFlight == 0 {
      all := turns;
    } else {
      var next := OneTurn(last);
      TurnDrains(last, next);
      TurnsMore(td, turns, next);
      all := Drain(td, turns + [next]);
    }
  }

  lemma OneTurn(td: Td) returns (td': Td)
    requires Draining(td) && td.inFlight != 0
    ensures Turn(td, td')
  {
    DrainingCounts(td);
    var u :| u in td.engine;
    var events := [Ev(u, true, 0)];
    assert events[1..] == [];
    StepKeeps(td, GetEvents(|events|));
    var got := Step(td, GetEvents(|events|)).value;
    td' := Step(got, Event(u, true, 0)).value;
    hide Complete, Good, Wrap32;
    assert Reap(got, events) == Some(td');
  }

  /** io_u_quiesce can return if and only if, when it is called, the depth is not 0 or nothing is queued. */
  lemma QuiesceExactly(td: Td)
    requires Good(td) && Quiet(td)
    ensures (exists turns: seq<Td> :: Turns(td, turns) && CanReturn(turns[|turns| - 1])) <==>
            td.curDepth > 0 || td.queued == 0
  {
    hide Good, Draining, Turn, CanReturn;
    if td.curDepth > 0 || td.queued == 0 {
      StartDrains(td);
      var turns := Drain(td, [CommitTd(td).(quiesce := true)]);
      QuiesceEnds(td, turns);
      assert Turns(td, turns);
    } else {
      forall turns: seq<Td> | Turns(td, turns) ensures !CanReturn(turns[|turns| - 1]) {
        QuiesceHangs(td, turns, |turns| - 1);
      }
    }
  }

  /** The failing input: a unit is queued below the batch size and its event is reaped without a commit. */
  lemma HangExample(cfg: Config) returns (run: seq<Td>)
    requires cfg == Config(false, 9, 0, false)
    ensures IsRun(1, cfg, run)
    ensures var td := run[|run| - 1]; Quiet(td) && td.curDepth == 0 && td.queued == 1 && td.inFlight == U32 - 1
  {
    CanStart(1, cfg);
    var td := Init(1, cfg);
    assert td.freelist == [0];
    run, td := Send(1, cfg, [td], td);
    hide IsRun, WellFormed, Moved;
    assert td.engine == {0};
    run, td := Go(1, cfg, run, td, GetEvents(1));
    run, td := Go(1, cfg, run, td, Event(0, false, 0));
  }
}
