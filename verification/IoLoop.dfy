/** The submission loop as it works in place: units in an array, the free stack and the requeue ring beside it. Every
    method is one action of the state machine in IoUnits, so what holds of all its runs holds of this loop. */
module IoLoop {
  import opened Bits
  import opened Options
  import opened IoUnits
  import UnitQueue

  class Thread {
    const cfg: Config
    const all: array<Unit>
    const freelist: UnitQueue.Stack
    const requeues: UnitQueue.Ring
    var qd: nat
    var quiesce: bool
    var curDepth: nat
    var queued: nat
    var inFlight: nat
    var issues: int
    var blocks: nat
    var bytes: nat
    var errors: nat
    var held: Option<nat>
    var engine: set<nat>
    var reaping: nat
    var serials: nat
    ghost var credits: seq<Credit>
    ghost var failed: seq<nat>
    ghost var dropped: seq<nat>

    ghost predicate Valid()
      reads this, all, freelist, freelist.units, requeues, requeues.ring
    {
      && freelist.Valid() && requeues.Valid() && freelist.units != requeues.ring
      && freelist.max == all.Length < requeues.max
    }

    ghost function Now(): Td
      requires Valid()
      reads this, all, freelist, freelist.units, requeues, requeues.ring
    {
      Td(cfg, all[..], freelist.Contents(), requeues.Contents(), held, engine, reaping,
         qd, quiesce, curDepth, queued, inFlight, issues, blocks, bytes, errors, credits, serials, failed, dropped)
    }

    /** The queue part of init_io_u: every unit starts on the free stack. */
    constructor (n: nat, cfg: Config)
      requires n + 1 <= Pow2(31)
      ensures Valid() && Now() == Init(n, cfg)
      ensures fresh(all) && fresh(freelist) && fresh(freelist.units) && fresh(requeues) && fresh(requeues.ring)
    {
      hide Pow2, IsPow2, UnitQueue.Ring.Contents, UnitQueue.Stack.Contents;
      this.cfg := cfg;
      all := new Unit[n](_ => Unit(true, false, false, false, 0, 0, 0, 0, 0, []));
      freelist := new UnitQueue.Stack(n);
      requeues := new UnitQueue.Ring(n);
      qd := if cfg.target then 1 else n;
      curDepth, queued, inFlight, issues, blocks, bytes, errors := 0, 0, 0, 0, 0, 0, 0;
      held, engine, reaping, quiesce, serials := None, {}, 0, false, 0;
      credits, failed, dropped := [], [], [];
      new;
      assert all[..] == Init(n, cfg).units;
      FillStack();
    }

    method FillStack()
      requires Valid() && freelist.Contents() == []
      modifies freelist, freelist.units
      ensures Valid() && Now() == old(Now()).(freelist := seq(all.Length, k => k))
    {
      hide Pow2, UnitQueue.Ring.Contents, UnitQueue.Stack.Contents;
      for i := 0 to all.Length
        invariant Valid() && freelist.Contents() == seq(i, k => k)
      {
        var ok := freelist.Push(i);
        assert ok;
      }
    }

    method SetUnit(u: nat, x: Unit)
      requires Valid() && u < all.Length
      modifies all
      ensures Valid() && Now() == Set(old(Now()), u, x)
    {
      all[u] := x;
      assert all[..] == old(all[..])[u := x];
    }

    /** put_io_u; the stack has room whenever a unit is off it. */
    method PutUnit(u: nat)
      requires Valid() && u < all.Length && |Now().freelist| < all.Length
      modifies this`curDepth, all, freelist, freelist.units
      ensures Valid() && Now() == Put(old(Now()), u)
    {
      hide Wrap32, UnitQueue.Ring.Contents, UnitQueue.Stack.Contents;
      var x := all[u];
      SetUnit(u, x.(hasFile := false, free := true));
      if x.inDepth {
        curDepth := Wrap32(curDepth - 1);
      }
      var ok := freelist.Push(u);
      assert ok;
    }

    /** requeue_io_u; the ring has room whenever a unit is off it. */
    method RequeueUnit(u: nat)
      requires Valid() && u < all.Length && |Now().requeues| < all.Length
      modifies this`curDepth, this`issues, all, requeues, requeues.ring
      ensures Valid() && Now() == Requeue(old(Now()), u)
    {
      hide Wrap32, UnitQueue.Ring.Contents, UnitQueue.Stack.Contents;
      var x := all[u];
      if x.flight {
        issues := issues - 1;
      }
      SetUnit(u, x.(free := true, flight := false));
      if x.inDepth {
        curDepth := Wrap32(curDepth - 1);
      }
      var ok := requeues.Push(u);
      assert ok;
    }

    /** td_io_commit. */
    method CommitQueued()
      requires Valid()
      modifies this`queued, this`inFlight
      ensures Valid() && Now() == CommitTd(old(Now()))
    {
      hide Wrap32;
      if curDepth == 0 || queued == 0 {
        return;
      }
      inFlight := Wrap32(inFlight + queued);
      queued := 0;
    }

    /** The flags and the depth counter of a unit just taken. */
    method Claim(u: nat, x: Unit)
      requires Valid() && u < all.Length
      modifies this`curDepth, this`held, all
      ensures Valid()
      ensures Now() == Set(old(Now()), u, x.(free := false, inDepth := true)).(
                         held := Some(u), curDepth := Wrap32(old(curDepth) + 1))
    {
      hide Wrap32;
      SetUnit(u, x.(free := false, inDepth := true));
      curDepth := Wrap32(curDepth + 1);
      held := Some(u);
    }

    method TakeRequeued() returns (u: nat)
      requires Valid() && Now().requeues != [] && Now().requeues[0] < all.Length
      modifies this`curDepth, this`held, all, requeues
      ensures Valid() && u == old(Now()).requeues[0] && Now() == Get(old(Now()))
    {
      hide Wrap32, UnitQueue.Ring.Contents, UnitQueue.Stack.Contents;
      var r := requeues.Pop();
      u := r.value;
      Claim(u, all[u]);
    }

    method TakeFree() returns (u: nat)
      requires Valid() && Now().requeues == [] && !QueueFull(Now())
      requires Now().freelist[|Now().freelist| - 1] < all.Length
      modifies this`curDepth, this`held, all, freelist
      ensures Valid() && u == old(Now()).freelist[|old(Now()).freelist| - 1] && Now() == Get(old(Now()))
    {
      hide Wrap32, UnitQueue.Ring.Contents, UnitQueue.Stack.Contents;
      var r := freelist.Pop();
      u := r.value;
      Claim(u, all[u].(hasFile := false, buflen := 0));
    }

    /** __get_io_u. */
    method GetUnit() returns (r: Option<nat>)
      requires Valid() && (NextUnit(Now()).Some? ==> NextUnit(Now()).value < all.Length)
      modifies this`curDepth, this`held, all, freelist, requeues
      ensures Valid() && r == NextUnit(old(Now())) && (r.Some? ==> held == r)
      ensures Now() == if r.None? then old(Now()) else Get(old(Now()))
    {
      hide Wrap32, UnitQueue.Ring.Contents, UnitQueue.Stack.Contents;
      if !requeues.Empty() {
        var u := TakeRequeued();
        r := Some(u);
      } else if !freelist.Empty() && (!cfg.target || curDepth < qd) {
        var u := TakeFree();
        r := Some(u);
      } else {
        r := None;
      }
    }

    // ---------------------------------------------------------------- the actions of the loop

    /** One turn of do_io up to a filled unit: nothing happens when the limit is reached or no unit can be had. */
    method Begin(offset: nat, len: nat) returns (r: Option<nat>)
      requires Valid() && Good(Now()) && WellFormed(Now()) && Quiet(Now())
      requires len > 0 || Now().requeues != []
      modifies this, all, freelist, requeues
      ensures Valid() && r == held
      ensures Step(old(Now()), IoUnits.Begin(offset, len)) == if r.None? then None else Some(Now())
      ensures r.None? ==> Now() == old(Now())
    {
      hide Wrap32, Good, Get, UnitQueue.Ring.Contents, UnitQueue.Stack.Contents;
      if cfg.limit != 0 && blocks + Wrap32(queued + inFlight) >= cfg.limit {
        return None;
      }
      if NextUnit(Now()).Some? {
        TakenAgain(Now());
      }
      r := GetUnit();
      if r.Some? && !all[r.value].hasFile {
        SetUnit(r.value, Filled(all[r.value], offset, len, serials));
        serials := serials + 1;
      }
    }

    /** Puts a unit just taken back; an I/O it was set up for is over. */
    method GiveBack(u: nat, ghost again: bool)
      requires Valid() && u < all.Length && |Now().freelist| < all.Length
      modifies this`held, this`dropped, this`curDepth, all, freelist, freelist.units
      ensures Valid()
      ensures Now() == Put(old(Now()).(held := None), u).(
                         dropped := if again then old(dropped) + [old(all[u]).serial] else old(dropped))
    {
      hide Wrap32, UnitQueue.Ring.Contents, UnitQueue.Stack.Contents;
      ghost var serial := all[u].serial;
      held := None;
      PutUnit(u);
      dropped := if again then dropped + [serial] else dropped;
    }

    /** get_io_u when the unit it took cannot be set up. */
    method BeginFail() returns (took: bool)
      requires Valid() && Good(Now()) && WellFormed(Now()) && Quiet(Now())
      modifies this, all, freelist, freelist.units, requeues
      ensures Valid()
      ensures Step(old(Now()), IoUnits.BeginFail) == if took then Some(Now()) else None
      ensures !took ==> Now() == old(Now())
    {
      hide Wrap32, Put, Get, Good, UnitQueue.Ring.Contents, UnitQueue.Stack.Contents;
      if cfg.limit != 0 && blocks + Wrap32(queued + inFlight) >= cfg.limit {
        return false;
      }
      if NextUnit(Now()).Some? {
        TakenRoom(Now());
      }
      ghost var again := requeues.Contents() != [];
      var r := GetUnit();
      if r.None? {
        return false;
      }
      GiveBack(r.value, again);
      took := true;
    }

    method Commit()
      requires Valid() && WellFormed(Now()) && Quiet(Now())
      modifies this
      ensures Valid() && Step(old(Now()), IoUnits.Commit) == Some(Now())
    {
      CommitQueued();
    }

    /** What lat_target_check does to the depth the loop may use, with the quiesce that follows unless it is raised. */
    method Retarget(qd: nat)
      requires Valid() && WellFormed(Now()) && Quiet(Now()) && cfg.target && qd > 0
      modifies this
      ensures Valid() && Step(old(Now()), IoUnits.Retarget(qd)) == Some(Now())
    {
      hide Wrap32, UnitQueue.Ring.Contents, UnitQueue.Stack.Contents;
      var raised := qd > this.qd;
      this.qd := qd;
      if !raised {
        CommitQueued();
        quiesce := true;
      }
    }

    /** The start of io_u_quiesce. */
    method Quiesce()
      requires Valid() && WellFormed(Now()) && Quiet(Now())
      modifies this
      ensures Valid() && Step(old(Now()), IoUnits.Quiesce) == Some(Now())
    {
      hide Wrap32, UnitQueue.Ring.Contents, UnitQueue.Stack.Contents;
      CommitQueued();
      quiesce := true;
    }

    /** The test of its loop; `done` when it returns. */
    method Quiesced() returns (done: bool)
      requires Valid() && WellFormed(Now()) && quiesce && held.None? && reaping == 0
      modifies this`quiesce
      ensures Valid() && Step(old(Now()), IoUnits.Quiesced) == if done then Some(Now()) else None
      ensures !done ==> Now() == old(Now())
    {
      done := inFlight == 0;
      quiesce := !done;
    }

    /** td_io_getevents. */
    method GetEvents(r: nat)
      requires Valid() && WellFormed(Now()) && held.None? && reaping == 0 && r <= |engine|
      modifies this
      ensures Valid() && Step(old(Now()), IoUnits.GetEvents(r)) == Some(Now())
    {
      hide Wrap32;
      inFlight := Wrap32(inFlight - r);
      reaping := r;
    }

    /** io_completed and put_io_u. */
    method CompleteUnit(u: nat, error: bool, resid: nat)
      requires Valid() && u < all.Length && resid <= all[u].xfer <= all[u].buflen
      requires |Now().freelist| < all.Length && all[u].flight
      modifies this`curDepth, this`errors, this`blocks, this`bytes, this`credits, this`failed, all
      modifies freelist, freelist.units
      ensures Valid() && Now() == Complete(old(Now()), u, error, resid)
    {
      hide Wrap32, Put, UnitQueue.Ring.Contents, UnitQueue.Stack.Contents;
      var x := all[u];
      assert x.flight;
      SetUnit(u, x.(flight := false));
      if error {
        errors := errors + 1;
        failed := failed + [x.serial];
      } else {
        blocks := blocks + 1;
        bytes := bytes + (x.buflen - resid);
        credits := credits + [Credit(x.serial, x.start, Moved(x, x.xfer - resid), x.buflen - resid)];
      }
      PutUnit(u);
    }

    /** One turn of ios_completed. */
    method Event(u: nat, error: bool, resid: nat)
      requires Valid() && Good(Now()) && WellFormed(Now()) && reaping > 0 && u in engine && resid <= all[u].xfer
      modifies this, all, freelist, freelist.units
      ensures Valid() && Step(old(Now()), IoUnits.Event(u, error, resid)) == Some(Now())
    {
      hide Wrap32, Put, Complete, UnitQueue.Ring.Contents, UnitQueue.Stack.Contents;
      Sizes(Now());
      Facts(Now(), u);
      CompleteUnit(u, error, resid);
      engine := engine - {u};
      reaping := reaping - 1;
    }

    /** io_u_submit, td_io_queue and io_queue_event, with the engine's answer. */
    method Submit(u: nat, a: Answer)
      requires Valid() && Good(Now()) && WellFormed(Now()) && held == Some(u) && AnswerOk(all[u], a)
      modifies this, all, freelist, freelist.units, requeues, requeues.ring
      ensures Valid() && Step(old(Now()), IoUnits.Submit(a)) == Some(Now())
    {
      hide Wrap32, Put, Complete, Requeue, CommitTd, OverlapsFlight, UnitQueue.Ring.Contents, UnitQueue.Stack.Contents;
      Sizes(Now());
      Facts(Now(), u);
      held := None;
      var refused := false;
      if cfg.serialize && curDepth > 1 {
        refused := InFlightOverlap(all[..], all[u]);
      }
      if refused {
        RequeueUnit(u);
        CommitQueued();
      } else {
        assert !all[u].flight;
        Issue(u, a);
      }
    }

    /** td_io_queue and io_queue_event for a unit the overlap check let through. */
    method Issue(u: nat, a: Answer)
      requires Valid() && u < all.Length && held.None? && AnswerOk(all[u], a)
      requires all[u].xfer <= all[u].buflen && !all[u].flight
      requires |Now().freelist| < all.Length && |Now().requeues| < all.Length
      modifies this, all, freelist, freelist.units, requeues, requeues.ring
      ensures Valid() && Now() == Answered(old(Now()), u, a)
    {
      hide Wrap32, Put, Complete, Requeue, CommitTd, UnitQueue.Ring.Contents, UnitQueue.Stack.Contents;
      ghost var was := Now();
      SetUnit(u, all[u].(flight := true));
      issues := issues + 1;
      match a
      case Busy =>
        assert a == Busy;
        AnswerBusy(was, u);
      case Queued =>
        assert a == Queued;
        engine := engine + {u};
        queued := Wrap32(queued + 1);
        if queued >= cfg.batch {
          CommitQueued();
        }
      case Completed(error, resid, atEnd) =>
        AnswerCompleted(was, u, a);
    }

    method AnswerBusy(ghost was: Td, u: nat)
      requires Valid() && u < all.Length && Issued(was, Now(), u)
      requires |was.requeues| < |was.units|
      requires was.units[u].xfer <= was.units[u].buflen
      modifies this, all, requeues, requeues.ring
      ensures Valid() && Now() == Answered(was, u, Busy)
    {
      hide Wrap32, Requeue, CommitTd, UnitQueue.Ring.Contents, UnitQueue.Stack.Contents;
      SetAgain(was, u, all[u], all[u].(flight := false));
      issues := issues - 1;
      SetUnit(u, all[u].(flight := false));
      RequeueUnit(u);
      CommitQueued();
    }

    method AnswerError(ghost was: Td, u: nat, ghost a: Answer)
      requires Valid() && u < all.Length && Issued(was, Now(), u) && |was.freelist| < |was.units|
      requires a.Completed? && a.error && was.units[u].xfer <= was.units[u].buflen
      modifies this`errors, this`failed, this`curDepth, all, freelist, freelist.units
      ensures Valid() && Now() == Answered(was, u, a)
    {
      hide Wrap32, Put, UnitQueue.Ring.Contents, UnitQueue.Stack.Contents;
      var x := all[u];
      SetAgain(was, u, x, x.(flight := false));
      errors := errors + 1;
      failed := failed + [x.serial];
      SetUnit(u, x.(flight := false));
      PutUnit(u);
    }

    method AnswerCompleted(ghost was: Td, u: nat, a: Answer)
      requires Valid() && u < all.Length && Issued(was, Now(), u)
      requires |was.freelist| < |was.units| && |was.requeues| < |was.units|
      requires a.Completed? && AnswerOk(was.units[u], a) && was.units[u].xfer <= was.units[u].buflen
      modifies this, all, freelist, freelist.units, requeues, requeues.ring
      ensures Valid() && Now() == Answered(was, u, a)
    {
      hide Wrap32, Put, Complete, Requeue, UnitQueue.Ring.Contents, UnitQueue.Stack.Contents;
      var x := all[u];
      if a.error {
        AnswerError(was, u, a);
      } else if a.resid == 0 {
        CompleteUnit(u, false, 0);
      } else {
        var n := x.xfer - a.resid;
        assert Moved(x, n) == Moved(was.units[u], n);
        SetUnit(u, x.(xfer := a.resid, offset := x.offset + n, pieces := Moved(x, n)));
        if a.atEnd {
          CompleteUnit(u, false, a.resid);
        } else {
          RequeueUnit(u);
        }
      }
    }
  }

  /** A unit taken off the ring still has its file and is not filled again; one taken off the stack has none. */
  lemma TakenAgain(td: Td)
    requires Good(td) && NextUnit(td).Some?
    ensures NextUnit(td).value < |td.units|
    ensures Get(td).units[NextUnit(td).value].hasFile <==> td.requeues != []
  {
    hide Wrap32, Placed, NoOverlap, CountsOk, CreditsOk;
    Facts(td, NextUnit(td).value);
  }

  /** Taking a unit leaves room on the stack for it and keeps its number. */
  lemma TakenRoom(td: Td)
    requires Good(td) && NextUnit(td).Some?
    ensures NextUnit(td).value < |td.units| && |Get(td).freelist| < |td.units| == |Get(td).units|
    ensures Get(td).units[NextUnit(td).value].serial == td.units[NextUnit(td).value].serial
    ensures Get(td).dropped == td.dropped
  {
    hide Wrap32, UnitsOk, NoOverlap, CountsOk, CreditsOk;
    Sizes(td);
  }

  /** The loop against any script of requests, engine answers and events; what is not possible at its turn is passed
      over. It ends where the state machine ends, and the states on the way are one of its runs. */
  method DoIo(n: nat, cfg: Config, script: seq<Act>) returns (t: Thread, ghost run: seq<Td>)
    requires n + 1 <= Pow2(31)
    ensures t.Valid() && t.Now() == Exec(Init(n, cfg), script)
    ensures IsRun(n, cfg, run) && run[|run| - 1] == t.Now()
  {
    t := new Thread(n, cfg);
    run := [t.Now()];
    PowersOf32();
    InitOk(n, cfg);
    hide Pow2, Good, WellFormed, Init, Step, IsRun;
    StartOfRun(n, cfg);
    for i := 0 to |script|
      modifies t, t.all, t.freelist, t.freelist.units, t.requeues, t.requeues.ring
      invariant t.Valid() && |run| > 0 && IsRun(n, cfg, run) && run[|run| - 1] == t.Now() && Good(t.Now())
      invariant Exec(t.Now(), script[i..]) == Exec(Init(n, cfg), script)
    {
      GoodIsWellFormed(t.Now());
      var did := Perform(t, script[i]);
      assert script[i..][1..] == script[i + 1..];
      if did {
        StepKeeps(run[|run| - 1], script[i]);
        ghost var td;
        run, td := Go(n, cfg, run, run[|run| - 1], script[i]);
      }
    }
  }

  /** One action, if and only if it is possible. */
  method Perform(t: Thread, act: Act) returns (did: bool)
    requires t.Valid() && Good(t.Now()) && WellFormed(t.Now())
    modifies t, t.all, t.freelist, t.freelist.units, t.requeues, t.requeues.ring
    ensures t.Valid()
    ensures Step(old(t.Now()), act) == if did then Some(t.Now()) else None
    ensures !did ==> t.Now() == old(t.Now())
  {
    Possible(t.Now(), act);
    hide Good, WellFormed, Step, Get;
    did := false;
    match act
    case Begin(offset, len) =>
      if t.held.None? && t.reaping == 0 && !t.quiesce && (len > 0 || !t.requeues.Empty()) {
        var r := t.Begin(offset, len);
        did := r.Some?;
      }
    case BeginFail =>
      assert act == BeginFail;
      if t.held.None? && t.reaping == 0 && !t.quiesce {
        did := t.BeginFail();
      }
    case Submit(a) =>
      if t.held.Some? && AnswerOk(t.all[t.held.value], a) {
        t.Submit(t.held.value, a);
        did := true;
      }
    case GetEvents(r) =>
      if t.held.None? && t.reaping == 0 && r <= |t.engine| {
        t.GetEvents(r);
        did := true;
      }
    case Event(u, error, resid) =>
      if t.reaping > 0 && u in t.engine && resid <= t.all[u].xfer {
        t.Event(u, error, resid);
        did := true;
      }
    case Commit =>
      assert act == IoUnits.Commit;
      if t.held.None? && t.reaping == 0 && !t.quiesce {
        t.Commit();
        did := true;
      }
    case Retarget(qd) =>
      if t.held.None? && t.reaping == 0 && !t.quiesce && t.cfg.target && qd > 0 {
        t.Retarget(qd);
        did := true;
      }
    case Quiesce =>
      assert act == IoUnits.Quiesce;
      if t.held.None? && t.reaping == 0 && !t.quiesce {
        t.Quiesce();
        did := true;
      }
    case Quiesced =>
      assert act == IoUnits.Quiesced;
      if t.quiesce && t.held.None? && t.reaping == 0 {
        did := t.Quiesced();
      }
  }

  /** When an action is not possible. */
  lemma Possible(td: Td, act: Act)
    requires Good(td) && WellFormed(td)
    ensures td.held.Some? ==> td.held.value < |td.units|
    ensures forall u :: u in td.engine ==> u < |td.units|
    ensures match act
      case Begin(_, len) => !Quiet(td) || (len == 0 && td.requeues == []) ==> Step(td, act).None?
      case BeginFail => !Quiet(td) ==> Step(td, act).None?
      case Submit(a) => td.held.None? || !AnswerOk(td.units[td.held.value], a) ==> Step(td, act).None?
      case GetEvents(r) => td.held.Some? || td.reaping > 0 || r > |td.engine| ==> Step(td, act).None?
      case Event(u, _, resid) =>
        td.reaping == 0 || u !in td.engine || resid > td.units[u].xfer ==> Step(td, act).None?
      case Commit => !Quiet(td) ==> Step(td, act).None?
      case Retarget(qd) => !Quiet(td) || !td.cfg.target || qd == 0 ==> Step(td, act).None?
      case Quiesce => !Quiet(td) ==> Step(td, act).None?
      case Quiesced => !td.quiesce || td.held.Some? || td.reaping > 0 ==> Step(td, act).None?
  {
    hide Wrap32, SubmitTd, Complete, CommitTd;
    if NextUnit(td).Some? {
      TakenAgain(td);
    }
  }

  /** `now` is `was` with unit `u` marked as in flight and counted as issued. */
  ghost predicate Issued(was: Td, now: Td, u: nat) {
    && u < |was.units| && !was.units[u].flight
    && now == Set(was, u, was.units[u].(flight := true)).(issues := was.issues + 1)
  }

  lemma SetAgain(td: Td, u: nat, x: Unit, y: Unit)
    requires u < |td.units|
    ensures Set(Set(td, u, x), u, y) == Set(td, u, y)
  {
    assert td.units[u := x][u := y] == td.units[u := y];
  }
}
