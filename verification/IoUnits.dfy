/** The life cycle of I/O units in the inline submission loop: free stack, requeue ring, held by the loop, in flight
    with the engine. The engine is an oracle that answers every submission and produces completion events. */
module IoUnits {
  import opened Bits
  import opened Options

  datatype Range = Range(offset: nat, len: nat)

  /** One io_u. `serial`, `start` and `pieces` are history that no code looks at: the number of the current I/O, its
      first offset and the parts of it already moved by short transfers. */
  datatype Unit = Unit(
    free: bool, flight: bool, inDepth: bool, hasFile: bool,
    offset: nat, buflen: nat, xfer: nat,
    serial: nat, start: nat, pieces: seq<Range>)

  /** A finished I/O as history: which one it is, where it began, the parts moved, the bytes credited. */
  datatype Credit = Credit(serial: nat, start: nat, pieces: seq<Range>, bytes: nat)

  /** The options that matter here. `limit` is number_ios * loops, or 0 for none; `target` is whether a latency target
      is set. */
  datatype Config = Config(serialize: bool, batch: nat, limit: nat, target: bool)

  /** The part of thread_data that tracks units. `held` is the unit the loop is working on and `engine` the units the
      engine has accepted and that are not yet completed; `reaping` of them are events still to be looked at; `qd` is
      latency_qd; `quiesce` is set while io_u_quiesce waits. The last line is history: the credits, how many I/Os have
      been given a number, and the numbers of those that failed and of those put back unfinished. */
  datatype Td = Td(
    cfg: Config, units: seq<Unit>, freelist: seq<nat>, requeues: seq<nat>, held: Option<nat>, engine: set<nat>,
    reaping: nat,
    qd: nat, quiesce: bool,
    curDepth: nat, queued: nat, inFlight: nat, issues: int, blocks: nat, bytes: nat, errors: nat,
    credits: seq<Credit>, serials: nat, failed: seq<nat>, dropped: seq<nat>)

  datatype Answer = Busy | Queued | Completed(error: bool, resid: nat, atEnd: bool)

  datatype Act =
    | Begin(offset: nat, len: nat)  // one turn of the loop gets a unit and fills it unless it was requeued
    | BeginFail                     // get_io_u takes a unit, cannot set it up and puts it back
    | Submit(answer: Answer)
    | GetEvents(r: nat)             // td_io_getevents returns r events
    | Event(u: nat, error: bool, resid: nat)  // one turn of ios_completed
    | Commit
    | Retarget(qd: nat)             // the latency search moves the depth it allows, and quiesces unless it raises it
    | Quiesce                       // io_u_quiesce commits and starts to wait
    | Quiesced                      // io_u_quiesce finds nothing in flight and returns

  function Init(n: nat, cfg: Config): Td {
    Td(cfg, seq(n, i => Unit(true, false, false, false, 0, 0, 0, 0, 0, [])), seq(n, i => i), [], None, {}, 0,
       if cfg.target then 1 else n, false, 0, 0, 0, 0, 0, 0, 0, [], 0, [], [])
  }

  // ---------------------------------------------------------------- primitives

  function Set(td: Td, u: nat, x: Unit): Td
    requires u < |td.units|
  {
    td.(units := td.units[u := x])
  }

  /** put_io_u. */
  function Put(td: Td, u: nat): Td
    requires u < |td.units|
  {
    var x := td.units[u];
    Set(td, u, x.(hasFile := false, free := true)).(
      curDepth := if x.inDepth then Wrap32(td.curDepth - 1) else td.curDepth,
      freelist := td.freelist + [u])
  }

  /** requeue_io_u. */
  function Requeue(td: Td, u: nat): Td
    requires u < |td.units|
  {
    var x := td.units[u];
    Set(td, u, x.(free := true, flight := false)).(
      issues := if x.flight then td.issues - 1 else td.issues,
      curDepth := if x.inDepth then Wrap32(td.curDepth - 1) else td.curDepth,
      requeues := td.requeues + [u])
  }

  /** td_io_commit. */
  function CommitTd(td: Td): Td {
    if td.curDepth == 0 || td.queued == 0 then td
    else td.(inFlight := Wrap32(td.inFlight + td.queued), queued := 0)
  }

  /** queue_full. */
  predicate QueueFull(td: Td) {
    td.freelist == [] || (td.cfg.target && td.curDepth >= td.qd)
  }

  /** The unit __get_io_u would take. */
  function NextUnit(td: Td): (r: Option<nat>)
    ensures r.Some? ==> r.value in td.requeues || r.value in td.freelist
  {
    if td.requeues != [] then Some(td.requeues[0])
    else if !QueueFull(td) then Some(td.freelist[|td.freelist| - 1])
    else None
  }

  /** __get_io_u, when there is a unit to take. */
  function Get(td: Td): Td
    requires NextUnit(td).Some? && NextUnit(td).value < |td.units|
  {
    var u := NextUnit(td).value;
    var x := td.units[u];
    var fromRing := td.requeues != [];
    var y := x.(free := false, inDepth := true);
    Set(td, u, if fromRing then y else y.(hasFile := false, buflen := 0)).(
      requeues := if fromRing then td.requeues[1..] else td.requeues,
      freelist := if fromRing then td.freelist else td.freelist[..|td.freelist| - 1],
      held := Some(u), curDepth := Wrap32(td.curDepth + 1))
  }

  /** exceeds_number_ios: the outstanding count is a 32-bit sum of two 32-bit counters. */
  predicate ExceedsLimit(td: Td) {
    td.cfg.limit != 0 && td.blocks + Wrap32(td.queued + td.inFlight) >= td.cfg.limit
  }

  predicate Overlap(a: Unit, b: Unit) {
    a.offset < b.offset + b.buflen && b.offset < a.offset + a.buflen
  }

  predicate InRange(a: Unit, x: nat) {
    a.offset <= x < a.offset + a.buflen
  }

  ghost predicate SharesByte(a: Unit, b: Unit) {
    exists x: nat {:trigger InRange(a, x)} :: InRange(a, x) && InRange(b, x)
  }

  /** The comparison of end points finds exactly the ranges that share a byte. */
  lemma OverlapExactly(a: Unit, b: Unit)
    requires a.buflen > 0 && b.buflen > 0
    ensures Overlap(a, b) <==> SharesByte(a, b)
  {
    if Overlap(a, b) {
      var x := if a.offset < b.offset then b.offset else a.offset;
      assert InRange(a, x) && InRange(b, x);
    }
  }

  /** What in_flight_overlap looks for: an in-flight unit whose range meets that of `x`. */
  predicate OverlapsFlight(units: seq<Unit>, x: Unit) {
    exists v :: 0 <= v < |units| && units[v].flight && Overlap(x, units[v])
  }

  /** The loop of in_flight_overlap. */
  method InFlightOverlap(all: seq<Unit>, x: Unit) returns (overlap: bool)
    ensures overlap <==> OverlapsFlight(all, x)
  {
    overlap := false;
    var i := 0;
    while i < |all|
      invariant 0 <= i <= |all| && !overlap
      invariant forall v :: 0 <= v < i ==> !(all[v].flight && Overlap(x, all[v]))
    {
      if all[i].flight {
        var x1, x2 := x.offset, x.offset + x.buflen;
        var y1, y2 := all[i].offset, all[i].offset + all[i].buflen;
        if x1 < y2 && y1 < x2 {
          return true;
        }
      }
      i := i + 1;
    }
  }

  /** The history of `x` after `n` more bytes. */
  function Moved(x: Unit, n: nat): seq<Range> {
    if n == 0 then x.pieces else x.pieces + [Range(x.offset, n)]
  }

  /** io_completed followed by put_io_u: credit the unit unless it failed, and free it. */
  function Complete(td: Td, u: nat, error: bool, resid: nat): Td
    requires u < |td.units| && resid <= td.units[u].xfer <= td.units[u].buflen
  {
    var x := td.units[u];
    var td' := Set(td, u, x.(flight := false));
    var bytes := x.buflen - resid;
    Put(if error then td'.(errors := td.errors + 1, failed := td.failed + [x.serial])
        else td'.(blocks := td.blocks + 1, bytes := td.bytes + bytes,
                  credits := td.credits + [Credit(x.serial, x.start, Moved(x, x.xfer - resid), bytes)]), u)
  }

  /** The engine answers that fit the submission: the residue is part of the transfer, and something has moved. */
  predicate AnswerOk(x: Unit, a: Answer) {
    a.Completed? && !a.error ==> a.resid <= x.xfer && (a.resid == x.xfer ==> a.resid == 0)
  }

  /** The overlap check of io_u_submit refuses the unit. */
  predicate Refused(td: Td, u: nat)
    requires u < |td.units|
  {
    td.cfg.serialize && td.curDepth > 1 && OverlapsFlight(td.units, td.units[u])
  }

  /** td_io_queue and io_queue_event for a unit the overlap check let through. */
  function Answered(td: Td, u: nat, a: Answer): Td
    requires u < |td.units| && td.units[u].xfer <= td.units[u].buflen && AnswerOk(td.units[u], a)
  {
    var x := td.units[u];
    var issued := Set(td, u, x.(flight := true)).(issues := td.issues + 1);
    match a
    case Busy =>
      var undone := Set(td, u, x.(flight := false)).(issues := issued.issues - 1);
      CommitTd(Requeue(undone, u))
    case Queued =>
      var sent := issued.(engine := td.engine + {u}, queued := Wrap32(td.queued + 1));
      if sent.queued >= td.cfg.batch then CommitTd(sent) else sent
    case Completed(error, resid, atEnd) =>
      if error then
        Put(Set(issued, u, x.(flight := false)).(errors := td.errors + 1, failed := td.failed + [x.serial]), u)
      else if resid == 0 then Complete(issued, u, false, 0)
      else
        var n := x.xfer - resid;
        var y := x.(flight := true, xfer := resid, offset := x.offset + n, pieces := Moved(x, n));
        if atEnd then Complete(Set(issued, u, y), u, false, resid)
        else Requeue(Set(issued, u, y), u)
  }

  /** io_u_submit, td_io_queue and io_queue_event for the held unit. */
  function SubmitTd(td: Td, u: nat, a: Answer): Td
    requires u < |td.units| && td.units[u].xfer <= td.units[u].buflen && AnswerOk(td.units[u], a)
  {
    var idle := td.(held := None);
    if Refused(td, u) then CommitTd(Requeue(idle, u)) else Answered(idle, u, a)
  }

  /** The loop is between two units and not waiting for anything. */
  predicate Quiet(td: Td) {
    td.held.None? && td.reaping == 0 && !td.quiesce
  }

  /** One action; `None` when it is not possible in this state. */
  function Step(td: Td, act: Act): Option<Td>
    requires WellFormed(td)
  {
    match act
    case Begin(offset, len) =>
      if !Quiet(td) || ExceedsLimit(td) || NextUnit(td).None? then None
      else
        var u := NextUnit(td).value;
        var got := Get(td);
        var x := got.units[u];
        if x.hasFile then Some(got)
        else if len == 0 then None
        else Some(Set(got, u, Filled(x, offset, len, td.serials)).(serials := td.serials + 1))
    case BeginFail =>
      if !Quiet(td) || ExceedsLimit(td) || NextUnit(td).None? then None
      else
        var u := NextUnit(td).value;
        Some(Put(Get(td).(held := None), u).(
          dropped := if td.requeues != [] then td.dropped + [td.units[u].serial] else td.dropped))
    case Submit(a) =>
      if td.held.None? || !AnswerOk(td.units[td.held.value], a) then None
      else Some(SubmitTd(td, td.held.value, a))
    case GetEvents(r) =>
      if td.held.Some? || td.reaping > 0 || r > |td.engine| then None
      else Some(td.(inFlight := Wrap32(td.inFlight - r), reaping := r))
    case Event(u, error, resid) =>
      if td.reaping == 0 || u !in td.engine || resid > td.units[u].xfer then None
      else Some(Complete(td, u, error, resid).(engine := td.engine - {u}, reaping := td.reaping - 1))
    case Commit => if Quiet(td) then Some(CommitTd(td)) else None
    case Retarget(qd) =>
      if !Quiet(td) || !td.cfg.target || qd == 0 then None
      else if qd > td.qd then Some(td.(qd := qd))
      else Some(CommitTd(td).(qd := qd, quiesce := true))
    case Quiesce => if Quiet(td) then Some(CommitTd(td).(quiesce := true)) else None
    case Quiesced =>
      if td.quiesce && td.held.None? && td.reaping == 0 && td.inFlight == 0 then Some(td.(quiesce := false)) else None
  }

  /** A unit set up for a new I/O. */
  function Filled(x: Unit, offset: nat, len: nat, serial: nat): Unit {
    x.(hasFile := true, offset := offset, buflen := len, xfer := len, serial := serial, start := offset, pieces := [])
  }

  predicate WellFormed(td: Td) {
    && (forall u :: u in td.freelist ==> u < |td.units|)
    && (forall u :: u in td.requeues ==> u < |td.units|)
    && (forall u :: u in td.engine ==> u < |td.units|)
    && (td.held.Some? ==> td.held.value < |td.units|)
    && (forall u :: 0 <= u < |td.units| && (u in td.engine || td.held == Some(u)) ==>
          td.units[u].xfer <= td.units[u].buflen)
  }

  /** A script of actions; what is not possible at its turn is passed over. */
  function Exec(td: Td, script: seq<Act>): Td
    decreases |script|
  {
    if script == [] then td
    else if WellFormed(td) && Step(td, script[0]).Some? then Exec(Step(td, script[0]).value, script[1..])
    else Exec(td, script[1..])
  }

  // ---------------------------------------------------------------- the invariant

  function HeldOnly(held: Option<nat>): multiset<nat> {
    if held.Some? then multiset{held.value} else multiset{}
  }

  function Everyone(n: nat): (s: set<nat>)
    ensures |s| == n && forall u :: u in s <==> 0 <= u < n
  {
    if n == 0 then {} else Everyone(n - 1) + {n - 1}
  }

  function Places(td: Td): multiset<nat> {
    multiset(td.freelist) + multiset(td.requeues) + HeldOnly(td.held) + multiset(td.engine)
  }

  /** Every unit is in exactly one place. */
  ghost predicate Placed(td: Td) {
    Places(td) == multiset(Everyone(|td.units|))
  }

  function Total(pieces: seq<Range>): nat {
    if pieces == [] then 0 else Total(pieces[..|pieces| - 1]) + pieces[|pieces| - 1].len
  }

  /** The pieces are non-empty and follow each other without gaps from `start`. */
  predicate Contiguous(start: nat, pieces: seq<Range>) {
    forall i :: 0 <= i < |pieces| ==> pieces[i].len > 0 && pieces[i].offset == start + Total(pieces[..i])
  }

  /** What has moved so far is what the transfer no longer has to move, and the offset follows it. */
  predicate TransferOk(x: Unit) {
    && 0 < x.xfer <= x.buflen
    && Contiguous(x.start, x.pieces)
    && Total(x.pieces) == x.buflen - x.xfer
    && x.offset == x.start + Total(x.pieces)
  }

  predicate UnitOk(td: Td, u: nat)
    requires u < |td.units|
  {
    var x := td.units[u];
    && (x.flight <==> u in td.engine)
    && (x.free <==> u in td.freelist || u in td.requeues)
    && (u in td.engine || td.held == Some(u) ==> x.inDepth)
    && (u in td.freelist ==> !x.hasFile)
    && (u !in td.freelist ==> x.hasFile && TransferOk(x))
  }

  predicate UnitsOk(td: Td) {
    forall u :: 0 <= u < |td.units| ==> UnitOk(td, u)
  }

  predicate NoOverlap(td: Td)
    requires WellFormed(td)
  {
    td.cfg.serialize ==>
      forall u, v :: u in td.engine && v in td.engine && u != v ==> !Overlap(td.units[u], td.units[v])
  }

  predicate CountsOk(td: Td) {
    && |td.units| < U32
    && td.curDepth == |td.engine| + |HeldOnly(td.held)|
    && td.reaping <= |td.engine|
    && Wrap32(td.queued + td.inFlight) == |td.engine| - td.reaping
    && td.queued < U32 && td.inFlight < U32
    && td.issues == |td.engine| + td.blocks + td.errors
    && (td.cfg.limit != 0 ==> td.blocks + |td.engine| + |HeldOnly(td.held)| <= td.cfg.limit)
  }

  function Sum(credits: seq<Credit>): nat {
    if credits == [] then 0 else Sum(credits[..|credits| - 1]) + credits[|credits| - 1].bytes
  }

  predicate CreditOk(c: Credit) {
    Contiguous(c.start, c.pieces) && c.bytes == Total(c.pieces)
  }

  predicate CreditsOk(credits: seq<Credit>, blocks: nat, bytes: nat) {
    && |credits| == blocks && Sum(credits) == bytes
    && forall i :: 0 <= i < |credits| ==> CreditOk(credits[i])
  }

  ghost predicate Inv(td: Td) {
    && WellFormed(td) && Placed(td) && UnitsOk(td) && NoOverlap(td) && CountsOk(td)
    && CreditsOk(td.credits, td.blocks, td.bytes)
  }

  // ---------------------------------------------------------------- every action keeps it

  /** The places add up: what is not on the free stack or the ring is held or with the engine. */
  lemma Sizes(td: Td)
    requires Placed(td)
    ensures |td.freelist| + |td.requeues| + |HeldOnly(td.held)| + |td.engine| == |td.units|
  {
    assert |Places(td)| ==
           |multiset(td.freelist)| + |multiset(td.requeues)| + |HeldOnly(td.held)| + |multiset(td.engine)|;
    assert |multiset(Everyone(|td.units|))| == |td.units|;
  }

  /** A unit that is in one place is in no other. */
  lemma OnePlace(td: Td, u: nat)
    requires Placed(td)
    ensures u in td.freelist ==> u !in td.requeues && td.held != Some(u) && u !in td.engine
    ensures u in td.requeues ==> u !in td.freelist && td.held != Some(u) && u !in td.engine
    ensures td.held == Some(u) ==> u !in td.freelist && u !in td.requeues && u !in td.engine
    ensures u in td.engine ==> u !in td.freelist && u !in td.requeues && td.held != Some(u)
    ensures u in td.freelist || u in td.requeues || td.held == Some(u) || u in td.engine <==> u < |td.units|
  {
    assert Places(td)[u] == multiset(Everyone(|td.units|))[u];
    assert u in td.freelist <==> multiset(td.freelist)[u] > 0;
    assert u in td.requeues <==> multiset(td.requeues)[u] > 0;
  }

  /** Only unit `u` has changed or moved. */
  ghost predicate OnlyMoved(td: Td, td': Td, u: nat) {
    && u < |td.units| == |td'.units| && td'.cfg == td.cfg
    && forall v :: 0 <= v < |td.units| && v != u ==> SameUnit(td, td', v)
  }

  predicate SameUnit(td: Td, td': Td, v: nat)
    requires v < |td.units| == |td'.units|
  {
    && td'.units[v] == td.units[v]
    && (v in td'.freelist <==> v in td.freelist) && (v in td'.requeues <==> v in td.requeues)
    && (td'.held == Some(v) <==> td.held == Some(v)) && (v in td'.engine <==> v in td.engine)
  }

  lemma MovedUnits(td: Td, td': Td, u: nat)
    requires UnitsOk(td) && OnlyMoved(td, td', u) && UnitOk(td', u)
    ensures UnitsOk(td')
  {
    forall v | 0 <= v < |td'.units| ensures UnitOk(td', v) {
      if v != u {
        assert SameUnit(td, td', v) && UnitOk(td, v);
      }
    }
  }

  lemma MovedNoOverlap(td: Td, td': Td, u: nat)
    requires WellFormed(td) && WellFormed(td') && NoOverlap(td) && OnlyMoved(td, td', u)
    requires td.cfg.serialize && u in td'.engine ==>
      forall v :: v in td.engine && v != u ==> !Overlap(td'.units[u], td.units[v])
    ensures NoOverlap(td')
  {
    if td.cfg.serialize {
      forall a, b | a in td'.engine && b in td'.engine && a != b ensures !Overlap(td'.units[a], td'.units[b]) {
        assert a != u ==> SameUnit(td, td', a);
        assert b != u ==> SameUnit(td, td', b);
      }
    }
  }

  lemma TotalNext(pieces: seq<Range>, r: Range)
    ensures Total(pieces + [r]) == Total(pieces) + r.len
  {
    assert (pieces + [r])[..|pieces|] == pieces;
  }

  /** Moving `n` more bytes extends the contiguous pieces by exactly those bytes. */
  lemma MovedOk(x: Unit, n: nat)
    requires TransferOk(x) && n <= x.xfer
    ensures Contiguous(x.start, Moved(x, n)) && Total(Moved(x, n)) == Total(x.pieces) + n
  {
    if n > 0 {
      var r := Range(x.offset, n);
      TotalNext(x.pieces, r);
      forall i | 0 <= i < |x.pieces + [r]|
        ensures (x.pieces + [r])[i].len > 0 && (x.pieces + [r])[i].offset == x.start + Total((x.pieces + [r])[..i])
      {
        assert (x.pieces + [r])[..i] == x.pieces[..i];
        assert i == |x.pieces| ==> x.pieces[..i] == x.pieces;
      }
    }
  }

  lemma SumNext(credits: seq<Credit>, c: Credit)
    ensures Sum(credits + [c]) == Sum(credits) + c.bytes
  {
    assert (credits + [c])[..|credits|] == credits;
  }

  /** A unit is credited with exactly the bytes its pieces moved. */
  lemma CreditNext(td: Td, x: Unit, resid: nat)
    requires CreditsOk(td.credits, td.blocks, td.bytes) && TransferOk(x) && resid <= x.xfer
    ensures var c := Credit(x.serial, x.start, Moved(x, x.xfer - resid), x.buflen - resid);
      CreditsOk(td.credits + [c], td.blocks + 1, td.bytes + c.bytes)
  {
    MovedOk(x, x.xfer - resid);
    SumNext(td.credits, Credit(x.serial, x.start, Moved(x, x.xfer - resid), x.buflen - resid));
  }

  lemma CommitKeeps(td: Td)
    requires Inv(td)
    ensures Inv(CommitTd(td))
    ensures td.engine != {} ==> CommitTd(td).queued == 0
  {
    hide TransferOk, Overlap, CreditOk;
    var td' := CommitTd(td);
    assert Places(td') == Places(td);
    forall u | 0 <= u < |td.units| ensures UnitOk(td', u) {
      assert UnitOk(td, u);
    }
    assert Wrap32(td'.queued + td'.inFlight) == Wrap32(td.queued + td.inFlight);
  }

  /** The allowed depth, the waiting flag and the history of I/O numbers have no part in the invariant. */
  lemma AsideKeeps(td: Td, td': Td)
    requires Inv(td)
    requires td' == td.(qd := td'.qd, quiesce := td'.quiesce, serials := td'.serials, failed := td'.failed,
                        dropped := td'.dropped)
    ensures Inv(td')
  {
    hide TransferOk, Overlap, CreditsOk, Wrap32;
    assert Places(td') == Places(td);
    forall u | 0 <= u < |td.units| ensures UnitOk(td', u) {
      assert UnitOk(td, u);
    }
  }

  lemma MovedWellFormed(td: Td, td': Td, u: nat)
    requires WellFormed(td) && OnlyMoved(td, td', u) && Placed(td')
    requires u in td'.freelist || td'.units[u].xfer <= td'.units[u].buflen
    ensures WellFormed(td')
  {
    forall v: nat
      ensures v in td'.freelist || v in td'.requeues || td'.held == Some(v) || v in td'.engine ==> v < |td'.units|
    {
      OnePlace(td', v);
    }
    forall v | 0 <= v < |td'.units| && (v in td'.engine || td'.held == Some(v))
      ensures td'.units[v].xfer <= td'.units[v].buflen
    {
      OnePlace(td', v);
      assert v != u ==> SameUnit(td, td', v);
    }
  }

  /** The two counters as one 32-bit sum. */
  lemma SentOne(queued: nat, inFlight: nat, k: nat)
    requires Wrap32(queued + inFlight) == k && k + 1 < U32
    ensures Wrap32(Wrap32(queued + 1) + inFlight) == k + 1 && Wrap32(queued + 1) < U32
  {
  }

  lemma Returned(queued: nat, inFlight: nat, k: nat, r: nat)
    requires Wrap32(queued + inFlight) == k && r <= k
    ensures Wrap32(queued + Wrap32(inFlight - r)) == k - r && Wrap32(inFlight - r) < U32
  {
  }

  lemma EngineSizes(engine: set<nat>, u: nat)
    ensures u in engine ==> |engine - {u}| == |engine| - 1
    ensures u !in engine ==> |engine + {u}| == |engine| + 1
  {
  }

  /** What is left to show when one unit has moved. */
  lemma Assemble(td: Td, td': Td, u: nat)
    requires Inv(td) && OnlyMoved(td, td', u) && UnitOk(td', u)
    requires (u in td'.freelist || td'.units[u].xfer <= td'.units[u].buflen) && Placed(td') && CountsOk(td')
    requires CreditsOk(td'.credits, td'.blocks, td'.bytes)
    requires td.cfg.serialize && u in td'.engine ==>
      forall v :: v in td.engine && v != u ==> !Overlap(td'.units[u], td.units[v])
    ensures Inv(td')
  {
    MovedWellFormed(td, td', u);
    hide Placed, UnitsOk, CountsOk, CreditsOk, NoOverlap, WellFormed, UnitOk, OnlyMoved;
    MovedUnits(td, td', u);
    MovedNoOverlap(td, td', u);
  }

  predicate SameUnits(td: Td, td': Td, u: nat) {
    |td'.units| == |td.units| && forall v :: 0 <= v < |td.units| && v != u ==> td'.units[v] == td.units[v]
  }

  /** The moves between places, and which units they leave alone. */
  lemma HeldToRingPlaces(td: Td, td': Td, u: nat)
    requires Placed(td) && td.held == Some(u) && td'.held == None && u < |td.units|
    requires td'.freelist == td.freelist && td'.requeues == td.requeues + [u] && td'.engine == td.engine
    requires td'.cfg == td.cfg && SameUnits(td, td', u)
    ensures Placed(td') && OnlyMoved(td, td', u)
  {
  }

  lemma HeldToFreePlaces(td: Td, td': Td, u: nat)
    requires Placed(td) && td.held == Some(u) && td'.held == None && u < |td.units|
    requires td'.freelist == td.freelist + [u] && td'.requeues == td.requeues && td'.engine == td.engine
    requires td'.cfg == td.cfg && SameUnits(td, td', u)
    ensures Placed(td') && OnlyMoved(td, td', u)
  {
  }

  lemma EngineToFreePlaces(td: Td, td': Td, u: nat)
    requires Placed(td) && u in td.engine && td'.held == td.held && u < |td.units|
    requires td'.freelist == td.freelist + [u] && td'.requeues == td.requeues && td'.engine == td.engine - {u}
    requires td'.cfg == td.cfg && SameUnits(td, td', u)
    ensures Placed(td') && OnlyMoved(td, td', u)
  {
  }

  lemma HeldToEnginePlaces(td: Td, td': Td, u: nat)
    requires Placed(td) && td.held == Some(u) && td'.held == None && u < |td.units|
    requires td'.freelist == td.freelist && td'.requeues == td.requeues && td'.engine == td.engine + {u}
    requires td'.cfg == td.cfg && SameUnits(td, td', u)
    ensures Placed(td') && OnlyMoved(td, td', u)
  {
    OnePlace(td, u);
  }

  lemma RingToHeldPlaces(td: Td, td': Td, u: nat)
    requires Placed(td) && td.held.None? && td'.held == Some(u) && td.requeues != [] && u == td.requeues[0]
    requires td'.freelist == td.freelist && td'.requeues == td.requeues[1..] && td'.engine == td.engine
    requires u < |td.units| && td'.cfg == td.cfg && SameUnits(td, td', u)
    ensures Placed(td') && OnlyMoved(td, td', u)
  {
    assert td.requeues == [u] + td.requeues[1..];
  }

  lemma FreeToHeldPlaces(td: Td, td': Td, u: nat)
    requires Placed(td) && td.held.None? && td'.held == Some(u) && td.freelist != []
    requires u == td.freelist[|td.freelist| - 1] && td'.freelist == td.freelist[..|td.freelist| - 1]
    requires td'.requeues == td.requeues && td'.engine == td.engine
    requires u < |td.units| && td'.cfg == td.cfg && SameUnits(td, td', u)
    ensures Placed(td') && OnlyMoved(td, td', u)
  {
    assert td.freelist == td.freelist[..|td.freelist| - 1] + [u];
  }

  /** What the invariant says about one unit and about the depth counter. */
  lemma Facts(td: Td, u: nat)
    requires Inv(td) && u < |td.units|
    ensures UnitOk(td, u)
    ensures u in td.freelist ==> u !in td.requeues && td.held != Some(u) && u !in td.engine
    ensures u in td.requeues ==> u !in td.freelist && td.held != Some(u) && u !in td.engine
    ensures td.held == Some(u) ==> u !in td.freelist && u !in td.requeues && u !in td.engine
    ensures u in td.engine ==> u !in td.freelist && u !in td.requeues && td.held != Some(u)
    ensures u in td.engine || td.held == Some(u) ==> td.curDepth >= 1 && Wrap32(td.curDepth - 1) == td.curDepth - 1
    ensures u in td.freelist || u in td.requeues ==> Wrap32(td.curDepth + 1) == td.curDepth + 1
    ensures u !in td.freelist && u !in td.requeues ==> td.units[u].xfer <= td.units[u].buflen
    ensures td.curDepth < U32 && Wrap32(td.curDepth + 1 - 1) == td.curDepth
    ensures |td.engine| + |HeldOnly(td.held)| <= |td.units|
    ensures td.held.None? ==> u in td.freelist || u in td.requeues ==> |td.engine| < |td.units|
  {
    OnePlace(td, u);
    Sizes(td);
    assert UnitOk(td, u);
  }

  /** The next unit to be taken is on the ring or on the stack. */
  lemma NextIsIdle(td: Td)
    requires Inv(td) && NextUnit(td).Some?
    ensures NextUnit(td).value < |td.units|
  {
  }

  lemma HeldIsUnit(td: Td)
    requires Inv(td) && td.held.Some?
    ensures td.held.value < |td.units|
  {
  }

  /** `td1` is `td` after the loop has let go of its unit: only that unit and the issue count may differ. */
  ghost predicate LetGo(td: Td, td1: Td) {
    && td.held.Some? && td.reaping == 0 && td.held.value < |td.units|
    && td1 == td.(held := None, units := td1.units, issues := td1.issues, errors := td1.errors, failed := td1.failed)
    && SameUnits(td, td1, td.held.value)
    && td1.units[td.held.value].hasFile && td1.units[td.held.value].inDepth
    && TransferOk(td1.units[td.held.value])
  }

  /** The held unit goes to the ring; if it was issued, that is undone. */
  lemma HeldToRing(td: Td, td1: Td)
    requires Inv(td) && LetGo(td, td1) && td1.errors == td.errors
    requires td1.issues == td.issues + if td1.units[td.held.value].flight then 1 else 0
    ensures Inv(Requeue(td1, td.held.value))
  {
    hide Placed, Places, UnitsOk, NoOverlap, WellFormed, CreditsOk, Overlap, TransferOk, OnlyMoved, Wrap32, Moved;
    var u := td.held.value;
    Facts(td, u);
    var td' := Requeue(td1, u);
    TransferFits(td1.units[u]);
    FlagsAside(td1.units[u], td'.units[u]);
    HeldToRingPlaces(td, td', u);
    Assemble(td, td', u);
  }

  lemma TransferFits(x: Unit)
    requires TransferOk(x)
    ensures 0 < x.xfer <= x.buflen
  {
  }

  lemma TakeRequeued(td: Td)
    requires Inv(td) && td.held.None? && td.reaping == 0 && !ExceedsLimit(td) && td.requeues != []
    ensures NextUnit(td).value < |td.units| && Inv(Get(td)) && Get(td).units[NextUnit(td).value].hasFile
  {
    hide Placed, Places, UnitsOk, NoOverlap, WellFormed, CreditsOk, Overlap, TransferOk, OnlyMoved, Wrap32, Moved;
    var u := NextUnit(td).value;
    NextIsIdle(td);
    Facts(td, u);
    var td' := Get(td);
    RingToHeldPlaces(td, td', u);
    OnePlace(td', u);
    FlagsAside(td.units[u], td'.units[u]);
    TransferFits(td'.units[u]);
    Assemble(td, td', u);
  }

  /** The flags have no part in the transfer. */
  lemma FlagsAside(x: Unit, y: Unit)
    requires TransferOk(x) && y == x.(free := y.free, flight := y.flight, inDepth := y.inDepth)
    ensures TransferOk(y)
  {
  }

  lemma TakeFree(td: Td, x: Unit)
    requires Inv(td) && td.held.None? && td.reaping == 0 && !ExceedsLimit(td) && td.requeues == [] && !QueueFull(td)
    requires !x.free && !x.flight && x.inDepth && x.hasFile && TransferOk(x)
    ensures NextUnit(td).value < |td.units| && Inv(Set(Get(td), NextUnit(td).value, x))
  {
    hide Placed, Places, UnitsOk, NoOverlap, WellFormed, CreditsOk, Overlap, TransferOk, OnlyMoved, Wrap32, Moved;
    var u := NextUnit(td).value;
    NextIsIdle(td);
    Facts(td, u);
    var td' := Set(Get(td), u, x);
    FreeToHeldPlaces(td, td', u);
    OnePlace(td', u);
    TransferFits(x);
    Assemble(td, td', u);
  }

  /** get_io_u: a unit from the ring comes back with its transfer as it was, one from the stack is filled anew. */
  lemma BeginKeeps(td: Td, offset: nat, len: nat)
    requires Inv(td) && Step(td, Begin(offset, len)).Some?
    ensures Inv(Step(td, Begin(offset, len)).value)
  {
    var u := NextUnit(td).value;
    Facts(td, u);
    if td.requeues != [] {
      TakeRequeued(td);
    } else {
      var td' := Step(td, Begin(offset, len)).value;
      hide Inv;
      TakeFree(td, td'.units[u]);
      AsideKeeps(Set(Get(td), u, td'.units[u]), td');
    }
  }

  /** The held unit is put back without a credit. */
  lemma HeldToFree(td: Td)
    requires Inv(td) && td.held.Some? && td.reaping == 0
    ensures td.held.value < |td.units| && Inv(Put(td.(held := None), td.held.value))
  {
    hide Placed, Places, UnitsOk, NoOverlap, WellFormed, CreditsOk, Overlap, TransferOk, OnlyMoved, Wrap32, Moved;
    var u := td.held.value;
    HeldIsUnit(td);
    Facts(td, u);
    var td' := Put(td.(held := None), u);
    HeldToFreePlaces(td, td', u);
    Assemble(td, td', u);
  }

  /** Taking a unit off the stack and putting it back changes only what its next user overwrites. */
  lemma FreeAndBack(td: Td)
    requires Inv(td) && td.held.None? && td.reaping == 0 && td.requeues == [] && !QueueFull(td)
    ensures NextUnit(td).value < |td.units| && Inv(Put(Get(td).(held := None), NextUnit(td).value))
  {
    hide Placed, Places, UnitsOk, NoOverlap, WellFormed, CreditsOk, Overlap, TransferOk, OnlyMoved, Wrap32, Moved;
    var u := NextUnit(td).value;
    NextIsIdle(td);
    Facts(td, u);
    var td' := Put(Get(td).(held := None), u);
    assert td'.freelist == td.freelist;
    SamePlaces(td, td', u);
    Assemble(td, td', u);
  }

  lemma SamePlaces(td: Td, td': Td, u: nat)
    requires Placed(td) && td'.held == td.held && td'.freelist == td.freelist && td'.requeues == td.requeues
    requires td'.engine == td.engine && td'.cfg == td.cfg
    requires u < |td.units| && SameUnits(td, td', u)
    ensures Placed(td') && OnlyMoved(td, td', u)
  {
  }

  lemma BeginFailKeeps(td: Td)
    requires Inv(td) && Step(td, BeginFail).Some?
    ensures Inv(Step(td, BeginFail).value)
  {
    var td' := Step(td, BeginFail).value;
    hide Inv, Put;
    if td.requeues != [] {
      TakeRequeued(td);
      HeldToFree(Get(td));
    } else {
      FreeAndBack(td);
    }
    AsideKeeps(Put(Get(td).(held := None), NextUnit(td).value), td');
  }

  /** The depth shortcut is sound: with a depth of one the held unit is alone, since everything in flight counts. */
  lemma ClearOfFlight(td: Td)
    requires Inv(td) && td.held.Some? && td.held.value < |td.units| && !Refused(td, td.held.value)
    ensures td.cfg.serialize ==>
      forall v :: v in td.engine ==> v < |td.units| && !Overlap(td.units[td.held.value], td.units[v])
  {
    if td.cfg.serialize && td.curDepth > 1 {
      forall v | v in td.engine ensures !Overlap(td.units[td.held.value], td.units[v]) {
        assert UnitOk(td, v);
      }
    } else if td.cfg.serialize {
      assert td.engine == {};
    }
  }

  /** The held unit goes to the engine; the overlap check has passed, or there was nothing to check against. */
  lemma HeldToEngine(td: Td)
    requires Inv(td) && td.held.Some? && td.reaping == 0
    requires td.held.value < |td.units| && !Refused(td, td.held.value)
    ensures var u := td.held.value;
      Inv(Set(td, u, td.units[u].(flight := true)).(
            held := None, engine := td.engine + {u}, queued := Wrap32(td.queued + 1), issues := td.issues + 1))
  {
    hide Refused, OverlapsFlight;
    ClearOfFlight(td);
    hide Placed, Places, UnitsOk, NoOverlap, WellFormed, CreditsOk, Overlap, TransferOk, OnlyMoved, Wrap32, Moved;
    var u := td.held.value;
    Facts(td, u);
    var td' := Set(td, u, td.units[u].(flight := true)).(
      held := None, engine := td.engine + {u}, queued := Wrap32(td.queued + 1), issues := td.issues + 1);
    FlagsAside(td.units[u], td'.units[u]);
    HeldToEnginePlaces(td, td', u);
    SentCounts(td, td', u);
    SameRange(td, td.units[u], td'.units[u]);
    hide CountsOk;
    Assemble(td, td', u);
  }

  lemma SentCounts(td: Td, td': Td, u: nat)
    requires CountsOk(td) && td.held == Some(u) && u !in td.engine && td.reaping == 0 && |td.engine| < |td.units|
    requires |td'.units| == |td.units| && td' == td.(units := td'.units,
      held := None, engine := td.engine + {u}, queued := Wrap32(td.queued + 1), issues := td.issues + 1)
    ensures CountsOk(td')
  {
    hide Wrap32;
    SentOne(td.queued, td.inFlight, |td.engine|);
    EngineSizes(td.engine, u);
  }

  lemma SameRange(td: Td, x: Unit, y: Unit)
    requires y.offset == x.offset && y.buflen == x.buflen
    ensures forall v :: 0 <= v < |td.units| ==> Overlap(y, td.units[v]) == Overlap(x, td.units[v])
  {
  }

  /** The held unit completes at once, with its credit. */
  lemma HeldCompletes(td: Td, td1: Td, resid: nat)
    requires Inv(td) && LetGo(td, td1) && td1.errors == td.errors && td1.issues == td.issues + 1
    requires resid <= td1.units[td.held.value].xfer <= td1.units[td.held.value].buflen
    ensures Inv(Complete(td1, td.held.value, false, resid))
  {
    hide Placed, Places, UnitsOk, NoOverlap, WellFormed, CreditsOk, Overlap, TransferOk, OnlyMoved, Wrap32, Moved;
    var u := td.held.value;
    Facts(td, u);
    CreditNext(td, td1.units[u], resid);
    var td' := Complete(td1, u, false, resid);
    HeldToFreePlaces(td, td', u);
    Assemble(td, td', u);
  }

  lemma HeldFails(td: Td, td1: Td)
    requires Inv(td) && LetGo(td, td1) && td1.errors == td.errors + 1 && td1.issues == td.issues + 1
    requires !td1.units[td.held.value].flight
    ensures Inv(Put(td1, td.held.value))
  {
    hide Placed, Places, UnitsOk, NoOverlap, WellFormed, CreditsOk, Overlap, TransferOk, OnlyMoved, Wrap32, Moved;
    var u := td.held.value;
    Facts(td, u);
    var td' := Put(td1, u);
    HeldToFreePlaces(td, td', u);
    Assemble(td, td', u);
  }

  /** One completion event: the unit leaves the engine and is credited unless it failed. */
  lemma EventKeeps(td: Td, u: nat, error: bool, resid: nat)
    requires Inv(td) && td.reaping > 0 && u in td.engine && u < |td.units| && resid <= td.units[u].xfer
    requires td.units[u].xfer <= td.units[u].buflen
    ensures Inv(Complete(td, u, error, resid).(engine := td.engine - {u}, reaping := td.reaping - 1))
  {
    hide Placed, Places, UnitsOk, NoOverlap, WellFormed, CreditsOk, Overlap, TransferOk, OnlyMoved, Wrap32, Moved;
    Facts(td, u);
    var td' := Complete(td, u, error, resid).(engine := td.engine - {u}, reaping := td.reaping - 1);
    CreditNext(td, td.units[u], resid);
    EngineSizes(td.engine, u);
    EngineToFreePlaces(td, td', u);
    Assemble(td, td', u);
  }

  /** A short transfer leaves a smaller one, with the moved piece on record. */
  lemma ShortTransfer(x: Unit, resid: nat)
    requires TransferOk(x) && 0 < resid < x.xfer
    ensures var n := x.xfer - resid;
      TransferOk(x.(flight := true, xfer := resid, offset := x.offset + n, pieces := Moved(x, n)))
  {
    MovedOk(x, x.xfer - resid);
  }

  /** The outcome of a submission that puts the unit back on the ring. */
  lemma BusyKeeps(td: Td, a: Answer)
    requires Inv(td) && td.held.Some? && td.reaping == 0 && td.held.value < |td.units|
    requires td.units[td.held.value].xfer <= td.units[td.held.value].buflen && AnswerOk(td.units[td.held.value], a)
    requires Refused(td, td.held.value) || a.Busy?
    ensures Inv(SubmitTd(td, td.held.value, a))
  {
    hide Inv, CommitTd, TransferOk, Refused, Requeue, AnswerOk;
    var u := td.held.value;
    var x := td.units[u];
    Facts(td, u);
    FlagsAside(x, x.(flight := false));
    var td1 := if Refused(td, u) then td.(held := None) else Set(td.(held := None), u, x.(flight := false));
    HeldToRing(td, td1);
    CommitKeeps(Requeue(td1, u));
  }

  lemma QueuedKeeps(td: Td)
    requires Inv(td) && td.held.Some? && td.reaping == 0 && td.held.value < |td.units|
    requires td.units[td.held.value].xfer <= td.units[td.held.value].buflen && !Refused(td, td.held.value)
    ensures Inv(SubmitTd(td, td.held.value, Queued))
  {
    hide Inv, CommitTd, TransferOk, Refused;
    var u := td.held.value;
    HeldToEngine(td);
    CommitKeeps(Set(td, u, td.units[u].(flight := true)).(
      held := None, engine := td.engine + {u}, queued := Wrap32(td.queued + 1), issues := td.issues + 1));
  }

  /** An answer on the spot: an error, the whole transfer, or part of it. */
  lemma CompletedKeeps(td: Td, a: Answer)
    requires Inv(td) && td.held.Some? && td.reaping == 0 && td.held.value < |td.units| && a.Completed?
    requires td.units[td.held.value].xfer <= td.units[td.held.value].buflen && AnswerOk(td.units[td.held.value], a)
    requires !Refused(td, td.held.value)
    ensures Inv(SubmitTd(td, td.held.value, a))
  {
    hide Inv, CommitTd, TransferOk, Refused, Complete, Moved, Requeue, Put;
    var u := td.held.value;
    var x := td.units[u];
    Facts(td, u);
    var issued := Set(td.(held := None), u, x.(flight := true)).(issues := td.issues + 1);
    if a.error {
      FlagsAside(x, x.(flight := false));
      HeldFails(td, Set(issued, u, x.(flight := false)).(errors := td.errors + 1, failed := td.failed + [x.serial]));
    } else if a.resid == 0 {
      FlagsAside(x, x.(flight := true));
      HeldCompletes(td, issued, 0);
    } else {
      ShortTransfer(x, a.resid);
      var n := x.xfer - a.resid;
      var y := x.(flight := true, xfer := a.resid, offset := x.offset + n, pieces := Moved(x, n));
      if a.atEnd {
        HeldCompletes(td, Set(issued, u, y), a.resid);
      } else {
        HeldToRing(td, Set(issued, u, y));
      }
    }
  }

  lemma SubmitKeeps(td: Td, a: Answer)
    requires Inv(td) && td.held.Some? && td.reaping == 0 && td.held.value < |td.units|
    requires td.units[td.held.value].xfer <= td.units[td.held.value].buflen && AnswerOk(td.units[td.held.value], a)
    ensures Inv(SubmitTd(td, td.held.value, a))
  {
    hide Inv, SubmitTd, Refused;
    if Refused(td, td.held.value) || a.Busy? {
      BusyKeeps(td, a);
    } else if a.Queued? {
      QueuedKeeps(td);
    } else {
      CompletedKeeps(td, a);
    }
  }

  lemma GetEventsKeeps(td: Td, r: nat)
    requires Inv(td) && Step(td, GetEvents(r)).Some?
    ensures Inv(Step(td, GetEvents(r)).value)
  {
    var td' := Step(td, GetEvents(r)).value;
    Returned(td.queued, td.inFlight, |td.engine|, r);
    hide TransferOk, Overlap, CreditsOk, Wrap32;
    assert Places(td') == Places(td);
    forall u | 0 <= u < |td.units| ensures UnitOk(td', u) {
      assert UnitOk(td, u);
    }
  }

  ghost predicate Good(td: Td) {
    Inv(td) && (td.held.Some? ==> td.reaping == 0)
  }

  lemma GoodIsWellFormed(td: Td)
    requires Good(td)
    ensures WellFormed(td)
  {
  }

  /** The actions that need nothing but their own lemma. */
  lemma QuietActsKeep(td: Td, act: Act)
    requires Inv(td) && WellFormed(td) && Step(td, act).Some?
    requires act.Submit? || act.Event? || act.Commit? || act.Retarget? || act.Quiesce? || act.Quiesced?
    requires td.held.Some? ==> td.reaping == 0
    ensures Inv(Step(td, act).value)
  {
    hide Inv, SubmitTd, CommitTd, Complete;
    match act
    case Submit(a) => SubmitKeeps(td, a);
    case Event(u, error, resid) => EventKeeps(td, u, error, resid);
    case Commit => CommitKeeps(td);
    case Retarget(qd) =>
      CommitKeeps(td);
      AsideKeeps(if qd > td.qd then td else CommitTd(td), Step(td, act).value);
    case Quiesce =>
      assert act == Quiesce;
      CommitKeeps(td);
      AsideKeeps(CommitTd(td), Step(td, act).value);
    case Quiesced =>
      assert act == Quiesced;
      AsideKeeps(td, Step(td, act).value);
  }

  lemma StepKeeps(td: Td, act: Act)
    requires Good(td) && WellFormed(td) && Step(td, act).Some?
    ensures Good(Step(td, act).value)
  {
    StepReaping(td, act);
    hide Inv, Step;
    match act
    case Begin(offset, len) => BeginKeeps(td, offset, len);
    case BeginFail =>
      assert act == BeginFail;
      BeginFailKeeps(td);
    case GetEvents(r) => GetEventsKeeps(td, r);
    case _ => QuietActsKeep(td, act);
  }

  lemma StepReaping(td: Td, act: Act)
    requires Good(td) && WellFormed(td) && Step(td, act).Some?
    ensures Step(td, act).value.held.Some? ==> Step(td, act).value.reaping == 0
  {
    hide Inv;
  }

  // ---------------------------------------------------------------- whole runs

  ghost predicate Next(td: Td, td': Td) {
    WellFormed(td) && exists act: Act :: Step(td, act) == Some(td')
  }

  /** Any run of the loop with `n` units, whatever the engine answers. */
  ghost predicate IsRun(n: nat, cfg: Config, run: seq<Td>) {
    && run != [] && run[0] == Init(n, cfg)
    && forall i, j :: 0 <= i && j == i + 1 < |run| ==> Next(run[i], run[j])
  }

  lemma InitOk(n: nat, cfg: Config)
    requires n < U32
    ensures Good(Init(n, cfg))
  {
    var td := Init(n, cfg);
    RangeIsEveryone(n);
    assert Places(td) == multiset(td.freelist);
    forall u | 0 <= u < n ensures u in td.freelist { assert td.freelist[u] == u; }
  }

  lemma {:induction false} RangeIsEveryone(n: nat)
    ensures multiset(seq(n, i => i)) == multiset(Everyone(n))
  {
    if n > 0 {
      RangeIsEveryone(n - 1);
      assert seq(n, i => i) == seq(n - 1, i => i) + [n - 1];
    } else {
      assert seq(0, i => i) == [];
    }
  }

  lemma {:induction false} RunKeeps(n: nat, cfg: Config, run: seq<Td>, k: nat)
    requires IsRun(n, cfg, run) && n < U32 && k < |run|
    ensures Good(run[k]) && run[k].cfg == cfg && |run[k].units| == n
  {
    hide Good, Step, WellFormed;
    if k == 0 {
      InitOk(n, cfg);
    } else {
      RunKeeps(n, cfg, run, k - 1);
      assert Next(run[k - 1], run[k]);
      var act: Act :| Step(run[k - 1], act) == Some(run[k]);
      StepKeeps(run[k - 1], act);
      StepFrame(run[k - 1], act);
    }
  }

  // ---------------------------------------------------------------- what becomes of a submitted unit

  /** Unit `u` is no longer held; the numbers of the I/Os and everything beside the units' places stay. */
  predicate LeftHold(td: Td, td': Td, u: nat) {
    && td'.held.None? && td'.cfg == td.cfg && |td'.units| == |td.units| && td'.reaping == td.reaping
    && td'.qd == td.qd && td'.quiesce == td.quiesce && td'.serials == td.serials && td'.dropped == td.dropped
    && forall v :: 0 <= v < |td.units| ==> td'.units[v].serial == td.units[v].serial
  }

  /** Nothing is counted and no I/O ends. */
  predicate SameTally(td: Td, td': Td) {
    && td'.blocks == td.blocks && td'.bytes == td.bytes && td'.errors == td.errors
    && td'.credits == td.credits && td'.failed == td.failed
  }

  predicate ToRing(td: Td, td': Td, u: nat) {
    && td'.freelist == td.freelist && td'.requeues == td.requeues + [u] && td'.engine == td.engine && SameTally(td, td')
  }

  predicate ToEngine(td: Td, td': Td, u: nat) {
    && td'.freelist == td.freelist && td'.requeues == td.requeues && td'.engine == td.engine + {u} && SameTally(td, td')
  }

  /** An I/O that failed is one more error, under its number. */
  predicate OneFailed(td: Td, td': Td, serial: nat) {
    && td'.blocks == td.blocks && td'.bytes == td.bytes && td'.errors == td.errors + 1
    && td'.credits == td.credits && td'.failed == td.failed + [serial]
  }

  /** An I/O that did not fail is one more block, with its bytes, under its number. */
  predicate OneDone(td: Td, td': Td, serial: nat, bytes: nat) {
    && td'.blocks == td.blocks + 1 && td'.bytes == td.bytes + bytes && td'.errors == td.errors
    && td'.failed == td.failed && |td'.credits| == |td.credits| + 1 && td'.credits[..|td.credits|] == td.credits
    && td'.credits[|td.credits|].serial == serial && td'.credits[|td.credits|].bytes == bytes
  }

  /** Freed as the error says: with a failure, or with a credit for all but the residue. */
  predicate ToFree(td: Td, td': Td, u: nat, error: bool, resid: nat)
    requires u < |td.units| && resid <= td.units[u].buflen
  {
    && td'.freelist == td.freelist + [u] && td'.requeues == td.requeues
    && var x := td.units[u];
       if error then OneFailed(td, td', x.serial) else OneDone(td, td', x.serial, x.buflen - resid)
  }

  /** The answer ends the I/O: an error, the whole transfer, or what there is up to the end of the file. */
  predicate Ends(a: Answer) {
    a.Completed? && (a.error || a.resid == 0 || a.atEnd)
  }

  /** What io_u_submit and the handling of its answer make of unit `u`: back to the ring if the overlap check refuses
      it, the engine is busy or the transfer is short; to the engine if it is queued; freed if the I/O has ended. */
  predicate Fate(td: Td, td': Td, u: nat, a: Answer)
    requires u < |td.units| && td.units[u].xfer <= td.units[u].buflen && AnswerOk(td.units[u], a)
  {
    && LeftHold(td, td', u)
    && if Refused(td, u) || a.Busy? then ToRing(td, td', u)
       else if a.Queued? then ToEngine(td, td', u)
       else if Ends(a) then
         ToFree(td, td', u, a.error, if a.error then 0 else a.resid) && td'.engine == td.engine
       else ToRing(td, td', u)
  }

  lemma BusyFate(td: Td, u: nat, a: Answer)
    requires u < |td.units| && td.units[u].xfer <= td.units[u].buflen && AnswerOk(td.units[u], a)
    requires Refused(td, u) || a.Busy?
    ensures Fate(td, SubmitTd(td, u, a), u, a)
  {
    hide Wrap32, Refused, AnswerOk, ToEngine, ToFree;
  }

  lemma QueuedFate(td: Td, u: nat)
    requires u < |td.units| && td.units[u].xfer <= td.units[u].buflen && !Refused(td, u)
    ensures Fate(td, SubmitTd(td, u, Queued), u, Queued)
  {
    hide Wrap32, Refused, ToRing, ToFree;
  }

  lemma CompleteFate(td: Td, u: nat, error: bool, resid: nat)
    requires u < |td.units| && resid <= td.units[u].xfer <= td.units[u].buflen
    ensures var td' := Complete(td, u, error, resid);
      && td'.held == td.held && LeftHold(td, td'.(held := None), u) && td'.engine == td.engine
      && ToFree(td, td', u, error, resid)
  {
    hide Wrap32, Moved;
  }

  lemma CompletedFate(td: Td, u: nat, a: Answer)
    requires u < |td.units| && td.units[u].xfer <= td.units[u].buflen && AnswerOk(td.units[u], a)
    requires !Refused(td, u) && a.Completed?
    ensures Fate(td, SubmitTd(td, u, a), u, a)
  {
    hide Wrap32, Refused, Moved, Complete, ToEngine;
    var x := td.units[u];
    var issued := Set(td.(held := None), u, x.(flight := true)).(issues := td.issues + 1);
    if !a.error && a.resid == 0 {
      CompleteFate(issued, u, false, 0);
    } else if !a.error {
      var n := x.xfer - a.resid;
      var y := x.(flight := true, xfer := a.resid, offset := x.offset + n, pieces := Moved(x, n));
      if a.atEnd {
        CompleteFate(Set(issued, u, y), u, false, a.resid);
      }
    }
  }

  lemma SubmitFate(td: Td, u: nat, a: Answer)
    requires u < |td.units| && td.units[u].xfer <= td.units[u].buflen && AnswerOk(td.units[u], a)
    ensures Fate(td, SubmitTd(td, u, a), u, a)
  {
    hide SubmitTd, Refused, Fate, AnswerOk;
    if Refused(td, u) || a.Busy? {
      BusyFate(td, u, a);
    } else if a.Queued? {
      QueuedFate(td, u);
    } else {
      CompletedFate(td, u, a);
    }
  }

  lemma StepFrame(td: Td, act: Act)
    requires WellFormed(td) && Step(td, act).Some?
    ensures Step(td, act).value.cfg == td.cfg && |Step(td, act).value.units| == |td.units|
  {
    hide Wrap32, SubmitTd, AnswerOk, Moved, Refused;
    if act.Submit? {
      SubmitFate(td, td.held.value, act.answer);
    }
  }

  /** With serialize_overlap, no byte is ever in the ranges of two units in flight. */
  lemma FlightDisjoint(n: nat, cfg: Config, run: seq<Td>, k: nat, u: nat, v: nat)
    requires IsRun(n, cfg, run) && n < U32 && k < |run| && cfg.serialize && u < v < |run[k].units|
    requires run[k].units[u].flight && run[k].units[v].flight
    ensures !SharesByte(run[k].units[u], run[k].units[v])
  {
    hide IsRun, Overlap, SharesByte;
    RunKeeps(n, cfg, run, k);
    InFlight(run[k], u);
    InFlight(run[k], v);
    OverlapExactly(run[k].units[u], run[k].units[v]);
  }

  lemma InFlight(td: Td, u: nat)
    requires Good(td) && u < |td.units| && td.units[u].flight
    ensures u in td.engine && td.units[u].buflen > 0
  {
    assert UnitOk(td, u);
    OnePlace(td, u);
  }

  /** cur_depth is every unit that is not on the free stack or the ring, and every unit in flight is one of them. */
  lemma DepthIsExact(n: nat, cfg: Config, run: seq<Td>, k: nat)
    requires IsRun(n, cfg, run) && n < U32 && k < |run|
    ensures run[k].curDepth == n - |run[k].freelist| - |run[k].requeues|
    ensures forall u :: 0 <= u < |run[k].units| && run[k].units[u].flight ==>
      u !in run[k].freelist && u !in run[k].requeues
  {
    RunKeeps(n, cfg, run, k);
    Sizes(run[k]);
    forall u | 0 <= u < |run[k].units| && run[k].units[u].flight
      ensures u !in run[k].freelist && u !in run[k].requeues
    {
      assert UnitOk(run[k], u);
      OnePlace(run[k], u);
    }
  }

  lemma StartOfRun(n: nat, cfg: Config)
    ensures IsRun(n, cfg, [Init(n, cfg)]) && WellFormed(Init(n, cfg))
  {
  }

  /** One more action of a run. */
  lemma Go(n: nat, cfg: Config, run: seq<Td>, td: Td, act: Act) returns (run': seq<Td>, td': Td)
    requires IsRun(n, cfg, run) && run[|run| - 1] == td && WellFormed(td) && Step(td, act).Some? && n < U32
    ensures td' == Step(td, act).value && run' == run + [td'] && IsRun(n, cfg, run') && WellFormed(td')
  {
    hide Step, WellFormed;
    td' := Step(td, act).value;
    run' := run + [td'];
    assert Next(td, td');
    RunKeeps(n, cfg, run', |run|);
    GoodIsWellFormed(td');
  }

  /** The 32-bit sum of io_u_queued and io_u_in_flight is the number of units queued and not yet reaped; the I/Os
      completed and outstanding never exceed number_ios * loops; and every issue is outstanding, credited or failed. */
  lemma Conservation(n: nat, cfg: Config, run: seq<Td>, k: nat)
    requires IsRun(n, cfg, run) && n < U32 && k < |run|
    ensures Wrap32(run[k].queued + run[k].inFlight) == |run[k].engine| - run[k].reaping
    ensures cfg.limit != 0 ==> run[k].blocks + |run[k].engine| <= cfg.limit
    ensures run[k].issues == |run[k].engine| + run[k].blocks + run[k].errors
  {
    RunKeeps(n, cfg, run, k);
  }

  /** Every finished I/O is credited once, with exactly the bytes of its pieces, which are contiguous from its first
      offset; the byte counter is the sum of the credits. */
  lemma CreditedExactly(n: nat, cfg: Config, run: seq<Td>, k: nat)
    requires IsRun(n, cfg, run) && n < U32 && k < |run|
    ensures |run[k].credits| == run[k].blocks && Sum(run[k].credits) == run[k].bytes
    ensures forall i :: 0 <= i < |run[k].credits| ==> CreditOk(run[k].credits[i])
  {
    RunKeeps(n, cfg, run, k);
  }

  lemma {:induction false} PiecesCount(start: nat, pieces: seq<Range>)
    requires Contiguous(start, pieces)
    ensures |pieces| <= Total(pieces)
  {
    if pieces != [] {
      var last := |pieces| - 1;
      forall i | 0 <= i < last
        ensures pieces[..last][i].len > 0 && pieces[..last][i].offset == start + Total(pieces[..last][..i])
      {
        assert pieces[..last][..i] == pieces[..i];
      }
      PiecesCount(start, pieces[..last]);
    }
  }

  /** Short transfers end: a unit that is not free has been through fewer of them than it has bytes, because each one
      leaves a strictly smaller residue. */
  lemma RetriesEnd(n: nat, cfg: Config, run: seq<Td>, k: nat, u: nat)
    requires IsRun(n, cfg, run) && n < U32 && k < |run| && u < |run[k].units| && u !in run[k].freelist
    ensures var x := run[k].units[u]; |x.pieces| + x.xfer <= x.buflen && 0 < x.xfer
  {
    RunKeeps(n, cfg, run, k);
    assert UnitOk(run[k], u);
    PiecesCount(run[k].units[u].start, run[k].units[u].pieces);
  }

  /** The asserts on the way never fire: a unit to be taken is marked free, a unit to be submitted is not in flight,
      a unit that completes is, and neither the stack nor the ring is full when a unit goes back. */
  lemma AssertsHold(n: nat, cfg: Config, run: seq<Td>, k: nat)
    requires IsRun(n, cfg, run) && n < U32 && k < |run|
    ensures |run[k].units| == n
    ensures NextUnit(run[k]).Some? ==> NextUnit(run[k]).value < n && run[k].units[NextUnit(run[k]).value].free
    ensures run[k].held.Some? ==> run[k].held.value < n && !run[k].units[run[k].held.value].flight
    ensures forall u :: u in run[k].engine ==> u < |run[k].units| && run[k].units[u].flight
    ensures run[k].held.Some? || run[k].engine != {} ==> |run[k].freelist| < n && |run[k].requeues| < n
  {
    RunKeeps(n, cfg, run, k);
    var td := run[k];
    Sizes(td);
    if NextUnit(td).Some? {
      assert UnitOk(td, NextUnit(td).value);
    }
    if td.held.Some? {
      assert UnitOk(td, td.held.value);
      OnePlace(td, td.held.value);
    }
    forall u | u in td.engine ensures u < |td.units| && td.units[u].flight {
      assert UnitOk(td, u);
    }
  }
}
