/** Aggregated progress reports: one counted aggregate per request, shared by every client still to answer it. */
module ClientEta {
  import opened Bits
  import opened Options

  type Cid = nat
  const FIELDS := 25  // the counters of a report that are added up
  type Counters = s: seq<nat> | |s| == FIELDS witness seq(FIELDS, _ => 0)

  /** A progress report: counters to be added and the remaining seconds, of which the largest is kept. */
  datatype Report = Report(counters: Counters, etaSec: nat)

  function Zero(): Report {
    Report(seq(FIELDS, _ => 0), 0)
  }

  function Add(x: nat, y: nat): nat { x + y }

  /** fio_client_sum_jobs_eta. */
  function Plus(dst: Report, je: Report): Report {
    Report(seq(FIELDS, i requires 0 <= i < FIELDS => Add(dst.counters[i], je.counters[i])),
           if je.etaSec > dst.etaSec then je.etaSec else dst.etaSec)
  }

  function SumOf(reports: seq<Report>): Report {
    if reports == [] then Zero() else Plus(SumOf(reports[..|reports| - 1]), reports[|reports| - 1])
  }

  function Column(reports: seq<Report>, i: nat): nat
    requires i < FIELDS
  {
    if reports == [] then 0 else reports[0].counters[i] + Column(reports[1..], i)
  }

  lemma {:induction false} ColumnLast(reports: seq<Report>, i: nat)
    requires i < FIELDS && reports != []
    ensures Column(reports, i) == Column(reports[..|reports| - 1], i) + reports[|reports| - 1].counters[i]
  {
    if |reports| > 1 {
      ColumnLast(reports[1..], i);
      assert reports[1..][..|reports| - 2] == reports[..|reports| - 1][1..];
    }
  }

  /** What the accumulated report means: column totals, and the largest remaining time of all. */
  lemma {:induction false} SumMeans(reports: seq<Report>)
    ensures forall i :: 0 <= i < FIELDS ==> SumOf(reports).counters[i] == Column(reports, i)
    ensures forall k :: 0 <= k < |reports| ==> reports[k].etaSec <= SumOf(reports).etaSec
    ensures SumOf(reports).etaSec == 0 || exists k :: 0 <= k < |reports| && reports[k].etaSec == SumOf(reports).etaSec
  {
    if reports != [] {
      var n := |reports| - 1;
      SumMeans(reports[..n]);
      forall i | 0 <= i < FIELDS ensures SumOf(reports).counters[i] == Column(reports, i) {
        ColumnLast(reports, i);
      }
      var before := SumOf(reports[..n]).etaSec;
      if reports[n].etaSec <= before && before != 0 {
        var k :| 0 <= k < n && reports[..n][k].etaSec == before;
        assert reports[k].etaSec == SumOf(reports).etaSec;
      } else {
        assert reports[n].etaSec == SumOf(reports).etaSec || SumOf(reports).etaSec == 0;
      }
    }
  }

  /** A connected client; `queued` is membership of the list of clients being waited for. */
  datatype Client = Client(running: bool, queued: bool, inFlight: Option<nat>, replies: map<nat, nat>)

  /** One request: the live part, then what has happened to it. */
  datatype Aggregate = Aggregate(
    pending: nat, eta: Report, freed: bool,
    shown: seq<Report>, received: seq<Report>, asked: nat, skipped: nat, idle: nat, sent: nat, lost: nat)

  /** `fault` records a failed assert, a missing aggregate or any use of a released one. */
  datatype State = State(clients: map<Cid, Client>, aggs: seq<Aggregate>, fault: bool)

  const INIT := State(map[], [], false)

  datatype Act =
    | Connect(c: Cid)
    | Started(c: Cid)
    | Stopped(c: Cid)
    | Request(ids: map<Cid, nat>)  // the reply entry of every client the command could be sent to
    | Reply(c: Cid, id: nat, je: Report)
    | Timeout(c: Cid, id: nat)
    | Remove(c: Cid)

  /** fio_client_dec_jobs_eta: the last one out shows the report and releases the aggregate. */
  function Dec(g: Aggregate): Aggregate {
    var p := if g.pending == 0 then U32 - 1 else g.pending - 1;
    if p == 0 then g.(pending := 0, freed := true, shown := g.shown + [g.eta]) else g.(pending := p)
  }

  function DecTimes(g: Aggregate, n: nat): Aggregate
    decreases n
  {
    if n == 0 then g
    else if Dec(g).pending == 0 then Dec(g)
    else DecTimes(Dec(g), n - 1)
  }

  function Queued(clients: map<Cid, Client>): set<Cid> {
    set c | c in clients && clients[c].queued
  }

  function Asked(clients: map<Cid, Client>): set<Cid> {
    set c | c in clients && !clients[c].queued && clients[c].running
  }

  function Idle(clients: map<Cid, Client>): set<Cid> {
    set c | c in clients && !clients[c].queued && !clients[c].running
  }

  /** The clients that point to aggregate `a`. */
  function Waiting(clients: map<Cid, Client>, a: nat): set<Cid> {
    set c | c in clients && clients[c].inFlight == Some(a)
  }

  function Ask(cl: Client, c: Cid, a: nat, ids: map<Cid, nat>): Client {
    if cl.queued || !cl.running then cl
    else
      cl.(queued := true, inFlight := Some(a), replies := if c in ids then cl.replies[ids[c] := a] else cl.replies)
  }

  function AskAll(clients: map<Cid, Client>, a: nat, ids: map<Cid, nat>): map<Cid, Client> {
    map c | c in clients :: Ask(clients[c], c, a, ids)
  }

  function Fresh(clients: map<Cid, Client>): Aggregate {
    Aggregate(|clients|, Zero(), false, [], [],
              |clients|, |Queued(clients)|, |Idle(clients)|, |Asked(clients)|, 0)
  }

  /** request_client_etas. */
  function RequestStep(s: State, ids: map<Cid, nat>): State {
    var a := |s.aggs|;
    State(AskAll(s.clients, a, ids), s.aggs + [DecTimes(Fresh(s.clients), |Queued(s.clients)|)],
          s.fault || exists c <- s.clients :: c in Asked(s.clients) && s.clients[c].inFlight.Some?)
  }

  /** Drops one reference to aggregate `a`, after `lost` answers were given up and `more` received. */
  function Answered(s: State, a: nat, lost: nat, more: seq<Report>): State {
    if a >= |s.aggs| then s.(fault := true)
    else
      var g := s.aggs[a];
      var g' := g.(eta := if more == [] then g.eta else Plus(g.eta, more[0]),
                   received := g.received + more, lost := g.lost + lost);
      s.(aggs := s.aggs[a := Dec(g')], fault := s.fault || g.freed)
  }

  /** remove_reply_cmd, then handle_eta; a message without a matching entry is dropped. */
  function ReplyStep(s: State, c: Cid, id: nat, je: Report): State {
    if c !in s.clients || id !in s.clients[c].replies then s
    else
      var cl := s.clients[c];
      var a := cl.replies[id];
      var cl' := cl.(replies := cl.replies - {id}, inFlight := None, queued := false);
      Answered(s.(clients := s.clients[c := cl'], fault := s.fault || cl.inFlight != Some(a)), a, 0, [je])
  }

  /** handle_cmd_timeout. */
  function TimeoutStep(s: State, c: Cid, id: nat): State {
    if c !in s.clients || id !in s.clients[c].replies then s
    else
      var cl := s.clients[c];
      var cl' := cl.(replies := cl.replies - {id}, inFlight := None, queued := false);
      var s' := s.(clients := s.clients[c := cl']);
      if cl.inFlight.None? then s' else Answered(s', cl.inFlight.value, 1, [])
  }

  /** remove_client. */
  function RemoveStep(s: State, c: Cid): State {
    if c !in s.clients then s
    else
      var cl := s.clients[c];
      var s' := s.(clients := s.clients - {c});
      if !cl.queued then s'
      else if cl.inFlight.None? then s'.(fault := true)
      else Answered(s', cl.inFlight.value, 1, [])
  }

  function Step(s: State, act: Act): State {
    match act
    case Connect(c) => if c in s.clients then s else s.(clients := s.clients[c := Client(false, false, None, map[])])
    case Started(c) => if c !in s.clients then s else s.(clients := s.clients[c := s.clients[c].(running := true)])
    case Stopped(c) => if c !in s.clients then s else s.(clients := s.clients[c := s.clients[c].(running := false)])
    case Request(ids) => RequestStep(s, ids)
    case Reply(c, id, je) => ReplyStep(s, c, id, je)
    case Timeout(c, id) => TimeoutStep(s, c, id)
    case Remove(c) => RemoveStep(s, c)
  }

  ghost predicate Next(s: State, s': State) {
    exists act :: s' == Step(s, act)
  }

  ghost predicate IsRun(run: seq<State>) {
    && |run| > 0 && run[0] == INIT
    && forall i :: 0 <= i < |run| - 1 ==> Next(run[i], run[i + 1])
  }

  /** A client is listed while it has a request in flight, and at most one reply entry belongs to that request. */
  predicate ClientOk(cl: Client, aggs: nat) {
    && (cl.queued <==> cl.inFlight.Some?)
    && (cl.inFlight.Some? ==> cl.inFlight.value < aggs)
    && (forall id <- cl.replies :: cl.inFlight == Some(cl.replies[id]))
    && (forall id <- cl.replies, id' <- cl.replies :: id == id')
  }

  ghost predicate ClientsOk(s: State) {
    forall c <- s.clients :: ClientOk(s.clients[c], |s.aggs|)
  }

  /** An aggregate with `waiting` clients pointing to it. */
  predicate AggOk(g: Aggregate, waiting: nat) {
    && g.asked == g.skipped + g.idle + g.sent
    && g.sent == |g.received| + g.lost + waiting
    && g.pending == waiting + g.idle
    && (g.freed <==> g.asked > 0 && g.pending == 0)
    && (g.freed ==> g.shown == [SumOf(g.received)])
    && (!g.freed ==> g.shown == [] && g.eta == SumOf(g.received))
  }

  ghost predicate AggsOk(s: State) {
    forall a :: 0 <= a < |s.aggs| ==> AggOk(s.aggs[a], |Waiting(s.clients, a)|)
  }

  ghost predicate Ok(s: State) {
    !s.fault && ClientsOk(s) && AggsOk(s)
  }

  /** The two client tables agree except on `c`. */
  ghost predicate OnlyChanged(clients: map<Cid, Client>, clients': map<Cid, Client>, c: Cid) {
    && clients.Keys - {c} == clients'.Keys - {c}
    && forall d <- clients' :: d != c ==> d in clients && clients'[d] == clients[d]
  }

  lemma WaitingSame(clients: map<Cid, Client>, clients': map<Cid, Client>, c: Cid, b: nat)
    requires OnlyChanged(clients, clients', c)
    requires (c in clients && clients[c].inFlight == Some(b)) == (c in clients' && clients'[c].inFlight == Some(b))
    ensures Waiting(clients', b) == Waiting(clients, b)
  {
    forall d: Cid ensures d in Waiting(clients', b) <==> d in Waiting(clients, b) {
      assert d != c ==> (d in clients.Keys - {c} <==> d in clients'.Keys - {c});
    }
  }

  lemma WaitingLeaves(clients: map<Cid, Client>, clients': map<Cid, Client>, c: Cid, a: nat)
    requires OnlyChanged(clients, clients', c)
    requires c in clients && clients[c].inFlight == Some(a)
    requires c in clients' ==> clients'[c].inFlight.None?
    ensures |Waiting(clients', a)| == |Waiting(clients, a)| - 1
  {
    forall d: Cid ensures d in Waiting(clients', a) <==> d in Waiting(clients, a) - {c} {
      assert d != c ==> (d in clients.Keys - {c} <==> d in clients'.Keys - {c});
    }
    assert Waiting(clients', a) == Waiting(clients, a) - {c};
  }

  /** Taking the last of a sound aggregate's references, or one of several, keeps it sound. */
  lemma DecKeeps(g: Aggregate, waiting: nat, lost: nat, more: seq<Report>)
    requires AggOk(g, waiting) && waiting >= 1 && lost + |more| == 1
    ensures !g.freed
    ensures AggOk(Dec(g.(eta := if more == [] then g.eta else Plus(g.eta, more[0]),
                         received := g.received + more, lost := g.lost + lost)), waiting - 1)
  {
    hide Plus;
    if more == [] {
      assert g.received + more == g.received;
    } else {
      var r := g.received + more;
      assert r[..|r| - 1] == g.received && r[|r| - 1] == more[0];
    }
  }

  /** One client that points to `a` stops doing so, and its reference is dropped. */
  lemma AnsweredKeeps(s: State, t: State, c: Cid, a: nat, lost: nat, more: seq<Report>)
    requires Ok(s) && c in s.clients && s.clients[c].inFlight == Some(a) && a < |s.aggs|
    requires t.aggs == s.aggs && t.fault == s.fault && lost + |more| == 1
    requires c in t.clients ==> t.clients[c].inFlight.None? && ClientOk(t.clients[c], |s.aggs|)
    requires OnlyChanged(s.clients, t.clients, c)
    ensures Ok(Answered(t, a, lost, more))
  {
    hide AggOk, ClientOk, Dec, Plus, Waiting;
    WaitingLeaves(s.clients, t.clients, c, a);
    DecKeeps(s.aggs[a], |Waiting(s.clients, a)|, lost, more);
    forall b | 0 <= b < |s.aggs| && b != a ensures AggOk(s.aggs[b], |Waiting(t.clients, b)|) {
      WaitingSame(s.clients, t.clients, c, b);
    }
  }

  lemma QuietKeeps(s: State, t: State, c: Cid)
    requires Ok(s) && t.aggs == s.aggs && t.fault == s.fault
    requires c in t.clients ==> ClientOk(t.clients[c], |s.aggs|)
    requires c in t.clients ==> t.clients[c].inFlight == if c in s.clients then s.clients[c].inFlight else None
    requires c in s.clients && c !in t.clients ==> s.clients[c].inFlight.None?
    requires OnlyChanged(s.clients, t.clients, c)
    ensures Ok(t)
  {
    hide AggOk, ClientOk, Waiting;
    forall b | 0 <= b < |s.aggs| ensures AggOk(t.aggs[b], |Waiting(t.clients, b)|) {
      WaitingSame(s.clients, t.clients, c, b);
    }
  }

  lemma ReplyKeeps(s: State, c: Cid, id: nat, je: Report)
    requires Ok(s)
    ensures Ok(ReplyStep(s, c, id, je))
  {
    hide AggsOk, Answered;
    if c in s.clients && id in s.clients[c].replies {
      var cl := s.clients[c];
      var a := cl.replies[id];
      var cl' := cl.(replies := cl.replies - {id}, inFlight := None, queued := false);
      assert ClientOk(cl, |s.aggs|);
      AnsweredKeeps(s, s.(clients := s.clients[c := cl']), c, a, 0, [je]);
    }
  }

  lemma TimeoutKeeps(s: State, c: Cid, id: nat)
    requires Ok(s)
    ensures Ok(TimeoutStep(s, c, id))
  {
    hide AggsOk, Answered;
    if c in s.clients && id in s.clients[c].replies {
      var cl := s.clients[c];
      var cl' := cl.(replies := cl.replies - {id}, inFlight := None, queued := false);
      assert ClientOk(cl, |s.aggs|);
      AnsweredKeeps(s, s.(clients := s.clients[c := cl']), c, cl.inFlight.value, 1, []);
    }
  }

  lemma RemoveKeeps(s: State, c: Cid)
    requires Ok(s)
    ensures Ok(RemoveStep(s, c))
  {
    hide AggsOk, Answered;
    if c in s.clients {
      var cl := s.clients[c];
      var t := s.(clients := s.clients - {c});
      assert ClientOk(cl, |s.aggs|);
      if cl.queued {
        AnsweredKeeps(s, t, c, cl.inFlight.value, 1, []);
      } else {
        QuietKeeps(s, t, c);
      }
    }
  }

  /** Every client is skipped, asked or idle. */
  lemma Partition(clients: map<Cid, Client>)
    ensures |clients| == |Queued(clients)| + |Idle(clients)| + |Asked(clients)|
  {
    var q, i, k := Queued(clients), Idle(clients), Asked(clients);
    assert clients.Keys == q + i + k;
    assert q !! i && (q + i) !! k;
    assert |clients| == |clients.Keys|;
  }

  lemma {:induction false} DecTimesIs(g: Aggregate, n: nat)
    requires n <= g.pending && !g.freed
    ensures DecTimes(g, n) == if n > 0 && n == g.pending
                              then g.(pending := 0, freed := true, shown := g.shown + [g.eta])
                              else g.(pending := g.pending - n)
    decreases n
  {
    if n > 0 && g.pending > 1 {
      DecTimesIs(Dec(g), n - 1);
    }
  }

  lemma FreshOk(clients: map<Cid, Client>)
    ensures AggOk(DecTimes(Fresh(clients), |Queued(clients)|), |Asked(clients)|)
  {
    hide Queued, Asked, Idle, DecTimes;
    Partition(clients);
    DecTimesIs(Fresh(clients), |Queued(clients)|);
  }

  lemma RequestKeeps(s: State, ids: map<Cid, nat>)
    requires Ok(s)
    ensures Ok(RequestStep(s, ids))
  {
    hide AggOk, DecTimes, Fresh, Idle, Queued;
    var s', n := RequestStep(s, ids), |s.aggs|;
    FreshOk(s.clients);
    assert Waiting(s'.clients, n) == Asked(s.clients) by {
      assert ClientsOk(s);
    }
    forall a | 0 <= a < n ensures AggOk(s'.aggs[a], |Waiting(s'.clients, a)|) {
      assert Waiting(s'.clients, a) == Waiting(s.clients, a);
    }
  }

  lemma StepKeeps(s: State, act: Act)
    requires Ok(s)
    ensures Ok(Step(s, act))
  {
    hide AggsOk, ReplyStep, TimeoutStep, RemoveStep, RequestStep;
    match act
    case Connect(c) => QuietKeeps(s, Step(s, act), c);
    case Started(c) => QuietKeeps(s, Step(s, act), c);
    case Stopped(c) => QuietKeeps(s, Step(s, act), c);
    case Request(ids) => RequestKeeps(s, ids);
    case Reply(c, id, je) => ReplyKeeps(s, c, id, je);
    case Timeout(c, id) => TimeoutKeeps(s, c, id);
    case Remove(c) => RemoveKeeps(s, c);
  }

  lemma InitOk()
    ensures Ok(INIT)
  {
  }

  lemma {:induction false} RunKeeps(run: seq<State>, k: nat)
    requires IsRun(run) && k < |run|
    ensures Ok(run[k])
  {
    hide Ok, Step;
    if k == 0 {
      InitOk();
    } else {
      RunKeeps(run, k - 1);
      assert Next(run[k - 1], run[k - 1 + 1]);
      var act :| run[k] == Step(run[k - 1], act);
      StepKeeps(run[k - 1], act);
    }
  }

  // What every run keeps.

  /** The asserts never fire and no aggregate is used, or released again, once it has been released. */
  lemma NeverFaults(run: seq<State>, k: nat)
    requires IsRun(run) && k < |run|
    ensures !run[k].fault
    ensures forall c <- run[k].clients :: run[k].clients[c].inFlight.Some? ==>
              run[k].clients[c].inFlight.value < |run[k].aggs| && !run[k].aggs[run[k].clients[c].inFlight.value].freed
  {
    hide IsRun;
    RunKeeps(run, k);
    var s := run[k];
    forall c <- s.clients | s.clients[c].inFlight.Some?
      ensures s.clients[c].inFlight.value < |s.aggs| && !s.aggs[s.clients[c].inFlight.value].freed
    {
      var a := s.clients[c].inFlight.value;
      assert ClientOk(s.clients[c], |s.aggs|);
      assert c in Waiting(s.clients, a);
    }
  }

  /**
   * An aggregate has been released if and only if it was asked of someone, nobody still points to it and every
   * client not skipped was running; the callback has then been called once, with the sum of the replies received.
   */
  lemma ShownExactly(run: seq<State>, k: nat, a: nat)
    requires IsRun(run) && k < |run| && a < |run[k].aggs|
    ensures var g := run[k].aggs[a];
            && (g.freed <==> g.asked > 0 && g.idle == 0 && Waiting(run[k].clients, a) == {})
            && g.shown == if g.freed then [SumOf(g.received)] else []
  {
    hide IsRun, SumOf, Waiting;
    RunKeeps(run, k);
  }

  /** Every client of a request is accounted for. */
  lemma Accounted(run: seq<State>, k: nat, a: nat)
    requires IsRun(run) && k < |run| && a < |run[k].aggs|
    ensures var g := run[k].aggs[a];
            g.asked == g.skipped + g.idle + |g.received| + g.lost + |Waiting(run[k].clients, a)|
  {
    hide IsRun, SumOf, Waiting;
    RunKeeps(run, k);
  }

  /** What has been recorded of a request is never taken back. */
  ghost predicate Extends(g: Aggregate, g': Aggregate) {
    && g'.asked == g.asked && g'.skipped == g.skipped && g'.idle == g.idle && g'.sent == g.sent
    && g.lost <= g'.lost && g.received <= g'.received && g.shown <= g'.shown && (g.freed ==> g'.freed)
  }

  lemma StepExtends(s: State, act: Act, a: nat)
    requires a < |s.aggs|
    ensures a < |Step(s, act).aggs| && Extends(s.aggs[a], Step(s, act).aggs[a])
  {
    hide Plus, DecTimes, AskAll, Fresh;
  }

  /** Later states only add to an aggregate: with ShownExactly, its callback is called at most once in a whole run. */
  lemma {:induction false} RunExtends(run: seq<State>, j: nat, k: nat, a: nat)
    requires IsRun(run) && j <= k < |run| && a < |run[j].aggs|
    ensures a < |run[k].aggs| && Extends(run[j].aggs[a], run[k].aggs[a])
    decreases k
  {
    hide Step;
    if j < k {
      RunExtends(run, j, k - 1, a);
      assert Next(run[k - 1], run[k - 1 + 1]);
      var act :| run[k] == Step(run[k - 1], act);
      StepExtends(run[k - 1], act, a);
    }
  }

  /** A request made while some client is neither running nor waited for is never shown or released, in any later state:
      that client's share of the count is never given back. */
  lemma IdleNeverShown(run: seq<State>, j: nat, k: nat, a: nat)
    requires IsRun(run) && j <= k < |run| && a < |run[j].aggs| && run[j].aggs[a].idle > 0
    ensures a < |run[k].aggs| && !run[k].aggs[a].freed && run[k].aggs[a].shown == []
  {
    hide IsRun, Waiting, SumOf;
    RunExtends(run, j, k, a);
    ShownExactly(run, k, a);
  }

  /** The failing input: a client connects and is asked for before its jobs run. Nobody is waited for, and the
      aggregate is still there. */
  lemma IdleExample() returns (run: seq<State>)
    ensures IsRun(run)
    ensures var s := run[|run| - 1];
      |s.aggs| == 1 && s.aggs[0].idle == 1 && Waiting(s.clients, 0) == {} && !s.aggs[0].freed && s.aggs[0].shown == []
  {
    hide SumOf, Plus;
    var s1 := Step(INIT, Connect(0));
    var s2 := Step(s1, Request(map[]));
    run := [INIT, s1, s2];
    assert Next(INIT, s1) && Next(s1, s2);
    assert s1.clients == map[0 := Client(false, false, None, map[])];
    assert Idle(s1.clients) == {0} && Queued(s1.clients) == {};
  }

  /** Any answer of a client that points to `a`, or its removal, takes that client off the aggregate. */
  lemma EveryAnswerLeaves(s: State, c: Cid, a: nat, act: Act)
    requires Ok(s) && c in s.clients && s.clients[c].inFlight == Some(a)
    requires act == Remove(c) || ((act.Reply? || act.Timeout?) && act.c == c && act.id in s.clients[c].replies)
    ensures |Waiting(Step(s, act).clients, a)| == |Waiting(s.clients, a)| - 1
  {
    hide AggsOk, Waiting, Dec, Plus;
    assert ClientOk(s.clients[c], |s.aggs|);
    WaitingLeaves(s.clients, Step(s, act).clients, c, a);
  }

  /** The table of clients when all but `rest` have been visited by a request. */
  ghost predicate Visited(was: map<Cid, Client>, now: map<Cid, Client>, rest: set<Cid>, a: nat, ids: map<Cid, nat>) {
    && rest <= now.Keys == was.Keys
    && forall d <- was :: now[d] == if d in rest then was[d] else Ask(was[d], d, a, ids)
  }

  lemma VisitOne(was: map<Cid, Client>, now: map<Cid, Client>, rest: set<Cid>, c: Cid, a: nat, ids: map<Cid, nat>)
    requires Visited(was, now, rest, a, ids) && c in rest && c in was
    ensures c in now && now[c] == was[c] && Visited(was, now[c := Ask(was[c], c, a, ids)], rest - {c}, a, ids)
  {
    hide Ask;
  }

  lemma VisitedAll(was: map<Cid, Client>, now: map<Cid, Client>, a: nat, ids: map<Cid, nat>)
    requires Visited(was, now, {}, a, ids)
    ensures now == AskAll(was, a, ids)
  {
    hide Ask;
  }

  lemma NoneSkipped(clients: map<Cid, Client>)
    ensures Queued(clients) - clients.Keys == {} && Queued(clients) - {} == Queued(clients)
  {
  }

  lemma SkippedOne(clients: map<Cid, Client>, rest: set<Cid>, c: Cid)
    requires c in rest && rest <= clients.Keys
    ensures |Queued(clients) - (rest - {c})| == |Queued(clients) - rest| + if clients[c].queued then 1 else 0
  {
    var q := Queued(clients);
    assert q - (rest - {c}) == (q - rest) + if clients[c].queued then {c} else {};
  }

  /** The client side of the protocol, updated in place. */
  class Monitor {
    var clients: map<Cid, Client>
    var aggs: seq<Aggregate>

    ghost function Now(): State
      reads this
    {
      State(clients, aggs, false)
    }

    constructor ()
      ensures Now() == INIT
    {
      clients, aggs := map[], [];
    }

    method DecJobsEta(a: nat) returns (live: bool)
      requires a < |aggs| && !aggs[a].freed && aggs[a].pending > 0
      modifies this`aggs
      ensures aggs == old(aggs)[a := Dec(old(aggs[a]))]
      ensures live <==> Dec(old(aggs[a])).pending != 0
    {
      var g := aggs[a];
      g := g.(pending := g.pending - 1);
      if g.pending == 0 {
        g := g.(shown := g.shown + [g.eta]);
        g := g.(freed := true);
      }
      aggs := aggs[a := g];
      live := g.pending != 0;
    }

    method HandleEta(c: Cid, id: nat, je: Report)
      requires Ok(Now()) && c in clients
      modifies this
      ensures Now() == Step(old(Now()), Reply(c, id, je))
    {
      hide AggsOk, Plus, Dec, SumOf;
      ReplyKeeps(Now(), c, id, je);
      if id !in clients[c].replies {
        return;
      }
      var cl := clients[c];
      var a := cl.replies[id];
      cl := cl.(replies := cl.replies - {id});
      assert ClientOk(clients[c], |aggs|);
      assert cl.inFlight == Some(a);
      WaitedFor(c, a);
      clients := clients[c := cl.(inFlight := None, queued := false)];
      var g := aggs[a];
      aggs := aggs[a := g.(eta := Plus(g.eta, je), received := g.received + [je])];
      var _ := DecJobsEta(a);
    }

    lemma WaitedFor(c: Cid, a: nat)
      requires Ok(Now()) && c in clients && clients[c].inFlight == Some(a)
      ensures a < |aggs| && !aggs[a].freed && aggs[a].pending > 0
    {
      assert ClientOk(clients[c], |aggs|);
      assert c in Waiting(clients, a);
      assert AggOk(Now().aggs[a], |Waiting(Now().clients, a)|);
    }

    method HandleTimeout(c: Cid, id: nat)
      requires Ok(Now()) && c in clients && id in clients[c].replies
      modifies this
      ensures Now() == Step(old(Now()), Timeout(c, id))
    {
      hide AggsOk, Dec, SumOf;
      TimeoutKeeps(Now(), c, id);
      var cl := clients[c];
      cl := cl.(replies := cl.replies - {id}, queued := false);
      if cl.inFlight.Some? {
        WaitedFor(c, cl.inFlight.value);
        Lose(cl.inFlight.value);
        cl := cl.(inFlight := None);
      }
      clients := clients[c := cl];
    }

    /** Drops a reference whose answer will not come. */
    method Lose(a: nat)
      requires a < |aggs| && !aggs[a].freed && aggs[a].pending > 0
      modifies this`aggs
      ensures aggs == Answered(old(Now()), a, 1, []).aggs
    {
      hide Dec;
      assert aggs[a].received + [] == aggs[a].received;
      aggs := aggs[a := aggs[a].(lost := aggs[a].lost + 1)];
      var _ := DecJobsEta(a);
    }

    method RemoveClient(c: Cid)
      requires Ok(Now()) && c in clients
      modifies this
      ensures Now() == Step(old(Now()), Remove(c))
    {
      hide AggsOk, Dec, SumOf;
      RemoveKeeps(Now(), c);
      var cl := clients[c];
      assert ClientOk(cl, |aggs|);
      if cl.queued {
        WaitedFor(c, cl.inFlight.value);
        Lose(cl.inFlight.value);
      }
      clients := clients - {c};
    }

    method RequestEtas(ids: map<Cid, nat>)
      requires Ok(Now())
      modifies this
      ensures Now() == Step(old(Now()), Request(ids))
    {
      hide AggsOk, DecTimes, SumOf, AskAll, Queued, Asked, Idle;
      RequestKeeps(Now(), ids);
      Partition(clients);
      var a := |aggs|;
      aggs := aggs + [Fresh(clients)];
      var skipped := AskClients(a, ids);
      DropSkipped(a, skipped);
    }

    /** The first loop of the request, over the clients in any order. */
    method AskClients(a: nat, ids: map<Cid, nat>) returns (skipped: nat)
      requires forall c <- clients :: clients[c].queued <==> clients[c].inFlight.Some?
      modifies this`clients
      ensures clients == AskAll(old(clients), a, ids) && skipped == |Queued(old(clients))|
    {
      ghost var was := clients;
      assert Visited(was, was, was.Keys, a, ids);
      hide Queued, Ask, AskAll, Visited;
      var rest := clients.Keys;
      skipped := 0;
      NoneSkipped(was);
      while rest != {}
        invariant rest <= was.Keys && Visited(was, clients, rest, a, ids)
        invariant skipped == |Queued(was) - rest|
      {
        var c :| c in rest;
        SkippedOne(was, rest, c);
        VisitOne(was, clients, rest, c, a, ids);
        var skip := AskClient(c, a, ids);
        skipped := skipped + if skip then 1 else 0;
        rest := rest - {c};
      }
      VisitedAll(was, clients, a, ids);
    }

    method AskClient(c: Cid, a: nat, ids: map<Cid, nat>) returns (skip: bool)
      requires c in clients && (clients[c].queued <==> clients[c].inFlight.Some?)
      modifies this`clients
      ensures clients == old(clients)[c := Ask(old(clients[c]), c, a, ids)]
      ensures skip == old(clients[c].queued)
    {
      skip := clients[c].queued;
      if !skip && clients[c].running {
        assert clients[c].inFlight.None?;
        var cl := clients[c].(queued := true, inFlight := Some(a));
        if c in ids {
          cl := cl.(replies := cl.replies[ids[c] := a]);
        }
        clients := clients[c := cl];
      }
    }

    /** The second loop of the request: one reference less for every client that was skipped. */
    method DropSkipped(a: nat, skipped: nat)
      requires a < |aggs| && !aggs[a].freed && skipped <= aggs[a].pending
      modifies this`aggs
      ensures aggs == old(aggs)[a := DecTimes(old(aggs[a]), skipped)]
    {
      var left := skipped;
      while left > 0
        invariant 0 <= left && |aggs| == |old(aggs)| && left <= aggs[a].pending && !aggs[a].freed
        invariant aggs == old(aggs)[a := aggs[a]]
        invariant DecTimes(aggs[a], left) == DecTimes(old(aggs[a]), skipped)
      {
        left := left - 1;
        var live := DecJobsEta(a);
        if !live {
          return;
        }
      }
    }
  }
}
