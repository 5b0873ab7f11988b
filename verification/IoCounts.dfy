/** What the counters mean, told from what the engine reported: which answers and events are counted as blocks, which as
    errors, how many bytes they bring, and when the loop may take, refuse or hold back a unit. */
module IoCounts {
  import opened Bits
  import opened Options
  import opened IoUnits
  import opened IoDepth

  /** A run together with the actions that drove it. */
  ghost predicate IsTrace(n: nat, cfg: Config, run: seq<Td>, acts: seq<Act>) {
    && |run| == |acts| + 1 && run[0] == Init(n, cfg)
    && forall i :: 0 <= i < |acts| ==> WellFormed(run[i]) && Step(run[i], acts[i]) == Some(run[i + 1])
  }

  lemma TraceIsRun(n: nat, cfg: Config, run: seq<Td>, acts: seq<Act>)
    requires IsTrace(n, cfg, run, acts)
    ensures IsRun(n, cfg, run)
  {
    hide Step, WellFormed;
    forall i, j | 0 <= i && j == i + 1 < |run| ensures Next(run[i], run[j]) {
      assert Step(run[i], acts[i]) == Some(run[i + 1]);
    }
  }

  // ---------------------------------------------------------------- what is reported

  /** An I/O reported as done: its number and the bytes it moved in all. */
  datatype Done = Done(serial: nat, bytes: nat)

  /** The unit the engine reports a final result for: in an event, or on the spot for a unit it was given. */
  function Reporter(td: Td, act: Act): Option<nat> {
    match act
    case Event(u, _, _) => Some(u)
    case Submit(a) =>
      if td.held.Some? && td.held.value < |td.units| && Ends(a) && !Refused(td, td.held.value) then td.held else None
    case _ => None
  }

  predicate IsError(act: Act) {
    if act.Event? then act.error else act.Submit? && act.answer.Completed? && act.answer.error
  }

  function Residue(act: Act): nat {
    if act.Event? then act.resid
    else if act.Submit? && act.answer.Completed? then act.answer.resid
    else 0
  }

  /** The I/O an action reports as done, if any: all of its buffer but the residue. */
  function DoneBy(td: Td, act: Act): seq<Done> {
    var r := Reporter(td, act);
    if r.Some? && r.value < |td.units| && !IsError(act) && Residue(act) <= td.units[r.value].buflen
    then [Done(td.units[r.value].serial, td.units[r.value].buflen - Residue(act))]
    else []
  }

  /** The I/O an action reports as failed, if any. */
  function FailedBy(td: Td, act: Act): seq<nat> {
    var r := Reporter(td, act);
    if r.Some? && r.value < |td.units| && IsError(act) then [td.units[r.value].serial] else []
  }

  /** The credits without the places. */
  function Dones(credits: seq<Credit>): seq<Done> {
    seq(|credits|, i requires 0 <= i < |credits| => Done(credits[i].serial, credits[i].bytes))
  }

  /** The history and the counters grow by exactly what is reported. */
  predicate Grows(td: Td, td': Td, done: seq<Done>, failed: seq<nat>) {
    && Dones(td'.credits) == Dones(td.credits) + done && td'.failed == td.failed + failed
    && td'.blocks == td.blocks + |done| && td'.errors == td.errors + |failed|
  }

  lemma SameGrows(td: Td, td': Td)
    requires SameTally(td, td')
    ensures Grows(td, td', [], [])
  {
    assert Dones(td.credits) + [] == Dones(td.credits) && td.failed + [] == td.failed;
  }

  lemma DoneGrows(td: Td, td': Td, serial: nat, bytes: nat)
    requires OneDone(td, td', serial, bytes)
    ensures Grows(td, td', [Done(serial, bytes)], [])
  {
    forall i | 0 <= i < |td.credits| ensures td'.credits[i] == td.credits[i] {
      assert td'.credits[..|td.credits|][i] == td.credits[i];
    }
    assert Dones(td'.credits) == Dones(td.credits) + [Done(serial, bytes)];
    assert td.failed + [] == td.failed;
  }

  lemma FailedGrows(td: Td, td': Td, serial: nat)
    requires OneFailed(td, td', serial)
    ensures Grows(td, td', [], [serial])
  {
    assert Dones(td.credits) + [] == Dones(td.credits);
  }

  lemma SubmitGrows(td: Td, act: Act)
    requires WellFormed(td) && act.Submit? && Step(td, act).Some?
    ensures Grows(td, Step(td, act).value, DoneBy(td, act), FailedBy(td, act))
  {
    hide SubmitTd, Refused, Grows, OneDone, OneFailed, SameTally;
    var u, a, td' := td.held.value, act.answer, Step(td, act).value;
    SubmitFate(td, u, a);
    if Ends(a) && !Refused(td, u) {
      if a.error {
        FailedGrows(td, td', td.units[u].serial);
      } else {
        DoneGrows(td, td', td.units[u].serial, td.units[u].buflen - a.resid);
      }
    } else {
      SameGrows(td, td');
    }
  }

  lemma EventGrows(td: Td, act: Act)
    requires WellFormed(td) && act.Event? && Step(td, act).Some?
    ensures Grows(td, Step(td, act).value, DoneBy(td, act), FailedBy(td, act))
  {
    var x, td' := td.units[act.u], Step(td, act).value;
    CompleteFate(td, act.u, act.error, act.resid);
    hide Complete, Grows, WellFormed;
    if act.error {
      FailedGrows(td, td', x.serial);
    } else {
      DoneGrows(td, td', x.serial, x.buflen - act.resid);
    }
  }

  lemma OtherGrows(td: Td, act: Act)
    requires WellFormed(td) && !act.Submit? && !act.Event? && Step(td, act).Some?
    ensures Grows(td, Step(td, act).value, DoneBy(td, act), FailedBy(td, act))
  {
    hide Wrap32, ExceedsLimit, QueueFull, Grows;
    SameGrows(td, Step(td, act).value);
  }

  lemma StepGrows(td: Td, act: Act)
    requires WellFormed(td) && Step(td, act).Some?
    ensures Grows(td, Step(td, act).value, DoneBy(td, act), FailedBy(td, act))
  {
    hide WellFormed, Step, Grows, DoneBy, FailedBy;
    if act.Submit? {
      SubmitGrows(td, act);
    } else if act.Event? {
      EventGrows(td, act);
    } else {
      OtherGrows(td, act);
    }
  }

  // ---------------------------------------------------------------- over the whole run

  /** The I/Os reported as done, and as failed, by the first `k` actions, in order. */
  ghost function AllDone(run: seq<Td>, acts: seq<Act>, k: nat): seq<Done>
    requires k <= |acts| && k < |run|
  {
    if k == 0 then [] else AllDone(run, acts, k - 1) + DoneBy(run[k - 1], acts[k - 1])
  }

  ghost function AllFailed(run: seq<Td>, acts: seq<Act>, k: nat): seq<nat>
    requires k <= |acts| && k < |run|
  {
    if k == 0 then [] else AllFailed(run, acts, k - 1) + FailedBy(run[k - 1], acts[k - 1])
  }

  function Bytes(done: seq<Done>): nat {
    if done == [] then 0 else Bytes(done[..|done| - 1]) + done[|done| - 1].bytes
  }

  lemma {:induction false} BytesOfDones(credits: seq<Credit>)
    ensures Bytes(Dones(credits)) == Sum(credits)
  {
    if credits != [] {
      var last := |credits| - 1;
      BytesOfDones(credits[..last]);
      assert Dones(credits)[..last] == Dones(credits[..last]);
    }
  }

  lemma {:induction false} GrowsAlong(n: nat, cfg: Config, run: seq<Td>, acts: seq<Act>, k: nat)
    requires IsTrace(n, cfg, run, acts) && k < |run|
    ensures Dones(run[k].credits) == AllDone(run, acts, k) && run[k].failed == AllFailed(run, acts, k)
    ensures run[k].blocks == |AllDone(run, acts, k)| && run[k].errors == |AllFailed(run, acts, k)|
  {
    hide Step, WellFormed, DoneBy, FailedBy;
    if k > 0 {
      GrowsAlong(n, cfg, run, acts, k - 1);
      StepGrows(run[k - 1], acts[k - 1]);
      assert Step(run[k - 1], acts[k - 1]) == Some(run[k]);
    }
  }

  /** The counters are what the engine reported, whatever it reports: the block count is the number of results without
      an error, the byte count is the sum of their buffers less their residues, and the error count is the number of
      results with an error; the credits and the failures name the I/Os reported on, in order. */
  lemma CountsReported(n: nat, cfg: Config, run: seq<Td>, acts: seq<Act>, k: nat)
    requires IsTrace(n, cfg, run, acts) && n < U32 && k < |run|
    ensures run[k].blocks == |AllDone(run, acts, k)|
    ensures run[k].bytes == Bytes(AllDone(run, acts, k))
    ensures run[k].errors == |AllFailed(run, acts, k)|
    ensures Dones(run[k].credits) == AllDone(run, acts, k) && run[k].failed == AllFailed(run, acts, k)
  {
    hide IsTrace, IsRun;
    GrowsAlong(n, cfg, run, acts, k);
    TraceIsRun(n, cfg, run, acts);
    CreditedExactly(n, cfg, run, k);
    BytesOfDones(run[k].credits);
  }

  // ---------------------------------------------------------------- when the loop may go on

  /** A unit is taken exactly when the loop is quiet, fewer I/Os are done and outstanding than number_ios allows, and
      there is a unit on the ring, or one on the free stack with depth to spare. */
  lemma BeginsExactly(n: nat, cfg: Config, run: seq<Td>, k: nat, offset: nat, len: nat)
    requires IsRun(n, cfg, run) && n < U32 && k < |run| && len > 0
    ensures WellFormed(run[k])
    ensures Step(run[k], Begin(offset, len)).Some? <==>
      && run[k].held.None? && run[k].reaping == 0 && !run[k].quiesce
      && (cfg.limit == 0 || run[k].blocks + |run[k].engine| < cfg.limit)
      && (|| run[k].requeues != []
          || (|run[k].engine| < n && (cfg.target ==> |run[k].engine| < run[k].qd)))
  {
    hide IsRun, Good;
    var td := run[k];
    RunKeeps(n, cfg, run, k);
    GoodIsWellFormed(td);
    Counts(td);
    hide WellFormed, Wrap32, Get, Filled;
  }

  /** What is left to do of an I/O is as it was. */
  predicate SameTransfer(x: Unit, y: Unit) {
    && y.offset == x.offset && y.buflen == x.buflen && y.xfer == x.xfer
    && y.serial == x.serial && y.start == x.start && y.pieces == x.pieces
  }

  /** A requeued unit goes on where it stopped, before any fresh one; a fresh one is set up for the I/O asked for, under
      the next number. */
  lemma TakesExactly(n: nat, cfg: Config, run: seq<Td>, k: nat, offset: nat, len: nat)
    requires IsRun(n, cfg, run) && n < U32 && k < |run|
    requires WellFormed(run[k]) && Step(run[k], Begin(offset, len)).Some?
    ensures var td, td' := run[k], Step(run[k], Begin(offset, len)).value;
      && td'.held.Some? && td'.held.value < |td.units| == |td'.units|
      && var u := td'.held.value;
         var x := td'.units[u];
         if td.requeues != [] then u == td.requeues[0] && SameTransfer(td.units[u], x)
         else
           && td.freelist != [] && u == td.freelist[|td.freelist| - 1]
           && x.offset == x.start == offset && x.buflen == x.xfer == len && x.pieces == [] && x.serial == td.serials
  {
    hide IsRun, Good;
    var td := run[k];
    RunKeeps(n, cfg, run, k);
    if td.requeues != [] {
      RingHasFile(td);
    }
    hide WellFormed, Wrap32, ExceedsLimit;
  }

  lemma RingHasFile(td: Td)
    requires Good(td) && td.requeues != []
    ensures td.requeues[0] < |td.units| && td.units[td.requeues[0]].hasFile
  {
    assert td.requeues[0] in td.requeues;
    OnePlace(td, td.requeues[0]);
    assert UnitOk(td, td.requeues[0]);
  }

  /** With serialize_overlap a unit is refused exactly when it shares a byte with a unit the engine has; without it
      never. */
  lemma RefusedExactly(n: nat, cfg: Config, run: seq<Td>, k: nat, u: nat)
    requires IsRun(n, cfg, run) && n < U32 && k < |run| && run[k].held == Some(u)
    ensures u < |run[k].units| && forall v :: v in run[k].engine ==> v < |run[k].units|
    ensures Refused(run[k], u) <==>
              cfg.serialize && exists v :: v in run[k].engine && SharesByte(run[k].units[u], run[k].units[v])
  {
    hide IsRun, Overlap, SharesByte;
    var td := run[k];
    RunKeeps(n, cfg, run, k);
    Counts(td);
    HeldHasBytes(td, u);
    forall v | v in td.engine
      ensures v < |td.units| && td.units[v].flight && Overlap(td.units[u], td.units[v]) ==
                SharesByte(td.units[u], td.units[v])
    {
      assert UnitOk(td, v);
      InFlight(td, v);
      OverlapExactly(td.units[u], td.units[v]);
    }
    forall v | 0 <= v < |td.units| && td.units[v].flight ensures v in td.engine {
      InFlight(td, v);
    }
    assert td.engine != {} ==> |td.engine| > 0;
  }

  lemma HeldHasBytes(td: Td, u: nat)
    requires Good(td) && td.held == Some(u)
    ensures u < |td.units| && td.units[u].buflen > 0
  {
    OnePlace(td, u);
    assert UnitOk(td, u);
  }

  // ---------------------------------------------------------------- when queued units are committed

  lemma CommitQueue(td: Td)
    ensures CommitTd(td).queued == 0 || (CommitTd(td).queued == td.queued && td.curDepth == 0)
  {
  }

  lemma SubmitQueue(td: Td, u: nat, a: Answer)
    requires u < |td.units| && td.units[u].xfer <= td.units[u].buflen && AnswerOk(td.units[u], a)
    requires td.curDepth >= 1
    ensures var td' := SubmitTd(td, u, a);
      && (Refused(td, u) || a.Busy? ==> td'.queued == 0 || (td'.queued == td.queued && td'.curDepth == 0))
      && (!Refused(td, u) && a.Queued? ==>
            td'.queued == (if Wrap32(td.queued + 1) >= td.cfg.batch then 0 else Wrap32(td.queued + 1)))
      && (!Refused(td, u) && a.Completed? ==> td'.queued == td.queued)
  {
    hide Wrap32, Refused, Moved, AnswerOk;
  }

  /** Queued units never pile up to iodepth_batch. */
  predicate Batched(td: Td) {
    td.queued == 0 || td.queued < td.cfg.batch
  }

  lemma StepBatched(td: Td, act: Act)
    requires Good(td) && WellFormed(td) && Batched(td) && Step(td, act).Some?
    ensures Batched(Step(td, act).value)
  {
    StepFrame(td, act);
    Counts(td);
    if act.Submit? {
      SubmitQueue(td, td.held.value, act.answer);
    }
    hide Wrap32, SubmitTd, Good, WellFormed, AnswerOk, Refused, ExceedsLimit, Moved;
  }

  lemma {:induction false} BatchKept(n: nat, cfg: Config, run: seq<Td>, k: nat)
    requires IsRun(n, cfg, run) && n < U32 && k < |run|
    ensures run[k].queued == 0 || run[k].queued < cfg.batch
  {
    hide Good, Step, WellFormed;
    RunKeeps(n, cfg, run, k);
    if k > 0 {
      BatchKept(n, cfg, run, k - 1);
      RunKeeps(n, cfg, run, k - 1);
      assert Next(run[k - 1], run[k]);
      var act: Act :| Step(run[k - 1], act) == Some(run[k]);
      StepBatched(run[k - 1], act);
    }
  }

  /** The actions after which td_io_commit has been called: a commit, the start of a quiesce, and a submission that the
      overlap check refused or the engine was too busy for. */
  predicate Commits(td: Td, act: Act) {
    || act.Commit? || act.Quiesce? || (act.Retarget? && act.qd <= td.qd)
    || (act.Submit? && td.held.Some? && td.held.value < |td.units| &&
        (Refused(td, td.held.value) || act.answer.Busy?))
  }

  lemma StepCommits(td: Td, act: Act)
    requires Good(td) && WellFormed(td) && Step(td, act).Some? && Commits(td, act)
    ensures Step(td, act).value.queued == 0 || Step(td, act).value.curDepth == 0
  {
    Counts(td);
    if act.Submit? {
      SubmitQueue(td, td.held.value, act.answer);
    }
    hide Wrap32, SubmitTd, Good, WellFormed, AnswerOk, Refused;
  }

  /** Nothing then stays queued while the engine has a unit. */
  lemma CommitEmpties(n: nat, cfg: Config, run: seq<Td>, acts: seq<Act>, k: nat)
    requires IsTrace(n, cfg, run, acts) && n < U32 && k < |acts| && Commits(run[k], acts[k])
    ensures run[k + 1].queued == 0 || run[k + 1].engine == {}
  {
    hide IsRun, Good, Commits, Step;
    TraceIsRun(n, cfg, run, acts);
    RunKeeps(n, cfg, run, k);
    RunKeeps(n, cfg, run, k + 1);
    Counts(run[k + 1]);
    assert Step(run[k], acts[k]) == Some(run[k + 1]);
    StepCommits(run[k], acts[k]);
  }

  /** The loop waits for quiescence exactly from a quiesce, or a retarget that does not raise the depth, until the
      quiesce returns. */
  lemma QuiescesExactly(td: Td, act: Act)
    requires WellFormed(td) && Step(td, act).Some?
    ensures Step(td, act).value.quiesce <==>
      || act.Quiesce? || (act.Retarget? && act.qd <= td.qd) || (td.quiesce && !act.Quiesced?)
  {
    hide Wrap32, SubmitTd, AnswerOk, Moved, ExceedsLimit, Refused;
    if act.Submit? {
      SubmitFate(td, td.held.value, act.answer);
    }
  }
}
