/** What a progress report is made of, told from the events of a run: which replies were added up, which answers were
    given up, and which client is waited for by which request. */
module EtaEvents {
  import opened ClientEta
  import opened Options

  /** A run together with the events that drove it. */
  ghost predicate IsTrace(run: seq<State>, acts: seq<Act>) {
    && |run| == |acts| + 1 && run[0] == INIT
    && forall i :: 0 <= i < |acts| ==> run[i + 1] == Step(run[i], acts[i])
  }

  lemma TraceIsRun(run: seq<State>, acts: seq<Act>)
    requires IsTrace(run, acts)
    ensures IsRun(run)
  {
    hide Step;
    forall i | 0 <= i < |run| - 1 ensures Next(run[i], run[i + 1]) {
      assert run[i + 1] == Step(run[i], acts[i]);
    }
  }

  lemma TraceOk(run: seq<State>, acts: seq<Act>, k: nat)
    requires IsTrace(run, acts) && k < |run|
    ensures Ok(run[k])
  {
    hide IsTrace, IsRun, Ok;
    TraceIsRun(run, acts);
    RunKeeps(run, k);
  }

  // ---------------------------------------------------------------- what each event does to a request

  /** The event is the message of a client whose pending entry belongs to request `a`. */
  predicate Delivers(s: State, act: Act, a: nat) {
    act.Reply? && act.c in s.clients && act.id in s.clients[act.c].replies && s.clients[act.c].replies[act.id] == a
  }

  /** The event ends a client's wait for request `a` without a message. */
  predicate GivesUp(s: State, act: Act, a: nat) {
    && (act.Remove? || act.Timeout?) && act.c in s.clients && s.clients[act.c].inFlight == Some(a)
    && (act.Timeout? ==> act.id in s.clients[act.c].replies)
  }

  lemma StepRecords(s: State, act: Act, a: nat)
    requires Ok(s) && a < |s.aggs|
    ensures a < |Step(s, act).aggs|
    ensures var g, g' := s.aggs[a], Step(s, act).aggs[a];
      && g'.received == g.received + (if Delivers(s, act, a) then [act.je] else [])
      && g'.lost == g.lost + (if GivesUp(s, act, a) then 1 else 0)
  {
    hide AggsOk, Plus, DecTimes, AskAll, Fresh, SumOf;
    assert s.aggs[a].received + [] == s.aggs[a].received;
    if !act.Request? && act.c in s.clients {
      assert ClientOk(s.clients[act.c], |s.aggs|);
    }
  }

  /** A request starts with nothing received and nothing given up, and counts the clients as they are then. */
  lemma RequestStarts(s: State, ids: map<Cid, nat>)
    ensures var s', a := Step(s, Request(ids)), |s.aggs|;
      && |s'.aggs| == a + 1 && s'.aggs[a].received == [] && s'.aggs[a].lost == 0
      && s'.aggs[a].asked == |s.clients| && s'.aggs[a].skipped == |Queued(s.clients)|
      && s'.aggs[a].idle == |Idle(s.clients)| && s'.aggs[a].sent == |Asked(s.clients)|
  {
    hide Queued, Idle, Asked, AskAll, DecTimes;
    Partition(s.clients);
    DecTimesIs(Fresh(s.clients), |Queued(s.clients)|);
  }

  lemma OnlyRequestsStart(s: State, act: Act)
    ensures |Step(s, act).aggs| == |s.aggs| + if act.Request? then 1 else 0
  {
    hide Plus, DecTimes, AskAll, Fresh, Dec;
  }

  // ---------------------------------------------------------------- the request over the whole run

  /** The reports delivered for request `a` before state `k`, in order. */
  ghost function Reports(run: seq<State>, acts: seq<Act>, a: nat, k: nat): seq<Report>
    requires k <= |acts| && k < |run|
  {
    if k == 0 then []
    else Reports(run, acts, a, k - 1) + if Delivers(run[k - 1], acts[k - 1], a) then [acts[k - 1].je] else []
  }

  ghost function GivenUp(run: seq<State>, acts: seq<Act>, a: nat, k: nat): nat
    requires k <= |acts| && k < |run|
  {
    if k == 0 then 0
    else GivenUp(run, acts, a, k - 1) + if GivesUp(run[k - 1], acts[k - 1], a) then 1 else 0
  }

  lemma NotYetStarted(s: State, act: Act, a: nat)
    requires Ok(s) && a >= |s.aggs|
    ensures !Delivers(s, act, a) && !GivesUp(s, act, a)
  {
    hide AggsOk;
    if !act.Request? && act.c in s.clients {
      assert ClientOk(s.clients[act.c], |s.aggs|);
    }
  }

  lemma {:induction false} NoneBefore(run: seq<State>, acts: seq<Act>, a: nat, k: nat)
    requires IsTrace(run, acts) && k < |run| && a >= |run[k].aggs|
    ensures Reports(run, acts, a, k) == [] && GivenUp(run, acts, a, k) == 0
  {
    hide Step, Ok, Delivers, GivesUp;
    if k > 0 {
      OnlyRequestsStart(run[k - 1], acts[k - 1]);
      NoneBefore(run, acts, a, k - 1);
      TraceOk(run, acts, k - 1);
      NotYetStarted(run[k - 1], acts[k - 1], a);
    }
  }

  /** What a request has received is exactly what the replies to its own entries carried, in order, and what it has
      lost is the number of its clients that timed out or were removed. */
  lemma {:induction false} RecordedExactly(run: seq<State>, acts: seq<Act>, a: nat, k: nat)
    requires IsTrace(run, acts) && k < |run| && a < |run[k].aggs|
    ensures run[k].aggs[a].received == Reports(run, acts, a, k)
    ensures run[k].aggs[a].lost == GivenUp(run, acts, a, k)
  {
    hide Step, Ok, Delivers, GivesUp;
    if k > 0 {
      OnlyRequestsStart(run[k - 1], acts[k - 1]);
      TraceOk(run, acts, k - 1);
      if a < |run[k - 1].aggs| {
        RecordedExactly(run, acts, a, k - 1);
        StepRecords(run[k - 1], acts[k - 1], a);
      } else {
        NoneBefore(run, acts, a, k - 1);
        NotYetStarted(run[k - 1], acts[k - 1], a);
        RequestStarts(run[k - 1], acts[k - 1].ids);
      }
    }
  }

  /** The callback is called at most once for a request, after everybody it asked has answered or been given up, with
      the sum of exactly the reports delivered for it. */
  lemma ShowsDelivered(run: seq<State>, acts: seq<Act>, a: nat, k: nat)
    requires IsTrace(run, acts) && k < |run| && a < |run[k].aggs|
    ensures var g := run[k].aggs[a];
      && g.shown == (if g.freed then [SumOf(Reports(run, acts, a, k))] else [])
      && g.freed == (g.asked > 0 && g.idle == 0 && g.sent == |Reports(run, acts, a, k)| + GivenUp(run, acts, a, k))
  {
    hide IsTrace, SumOf, Waiting, Reports, GivenUp;
    RecordedExactly(run, acts, a, k);
    TraceOk(run, acts, k);
    assert AggOk(run[k].aggs[a], |Waiting(run[k].clients, a)|);
  }

  /** The counts of a request are those of the clients when it was made, for as long as the run goes on. */
  lemma CountedAtRequest(run: seq<State>, acts: seq<Act>, j: nat, k: nat)
    requires IsTrace(run, acts) && j < k < |run| && acts[j].Request?
    ensures var a, clients := |run[j].aggs|, run[j].clients;
      && a < |run[k].aggs|
      && run[k].aggs[a].asked == |clients| && run[k].aggs[a].skipped == |Queued(clients)|
      && run[k].aggs[a].idle == |Idle(clients)| && run[k].aggs[a].sent == |Asked(clients)|
  {
    hide Step, IsRun, Queued, Idle, Asked;
    TraceIsRun(run, acts);
    RequestStarts(run[j], acts[j].ids);
    assert run[j + 1] == Step(run[j], acts[j]);
    RunExtends(run, j + 1, k, |run[j].aggs|);
  }

  // ---------------------------------------------------------------- who is waited for

  /** The event ends whatever client `c` is waited for: it is removed, or an entry it has is answered or timed out. */
  predicate Leaves(s: State, act: Act, c: Cid) {
    || act == Remove(c)
    || ((act.Reply? || act.Timeout?) && act.c == c && c in s.clients && act.id in s.clients[c].replies)
  }

  /** Event `act` is request `a` and asks client `c`. */
  predicate Asks(s: State, act: Act, c: Cid, a: nat) {
    act.Request? && |s.aggs| == a && c in Asked(s.clients)
  }

  predicate WaitedFor(s: State, c: Cid, a: nat) {
    c in s.clients && s.clients[c].inFlight == Some(a)
  }

  lemma StepWaits(s: State, act: Act, c: Cid, a: nat)
    requires Ok(s)
    ensures WaitedFor(Step(s, act), c, a) <==> Asks(s, act, c, a) || (WaitedFor(s, c, a) && !Leaves(s, act, c))
  {
    hide AggsOk, Plus, Dec, DecTimes, Fresh, SumOf;
    if c in s.clients {
      assert ClientOk(s.clients[c], |s.aggs|);
    }
  }

  /** Asked by request `a` at event `j` and not gone since. */
  ghost predicate AskedSince(run: seq<State>, acts: seq<Act>, c: Cid, a: nat, j: nat, k: nat) {
    && j < k <= |acts| < |run| && Asks(run[j], acts[j], c, a)
    && forall m :: j < m < k ==> !Leaves(run[m], acts[m], c)
  }

  /** A client is waited for by request `a` exactly while that request asked it and it has neither answered, nor timed
      out, nor been removed since. */
  lemma {:induction false} WaitedForExactly(run: seq<State>, acts: seq<Act>, c: Cid, a: nat, k: nat)
    requires IsTrace(run, acts) && k < |run|
    ensures WaitedFor(run[k], c, a) <==> exists j: nat :: AskedSince(run, acts, c, a, j, k)
  {
    hide Step, Ok, WaitedFor, Asks, Leaves;
    if k == 0 {
      assert !WaitedFor(INIT, c, a) by { NobodyAtStart(c, a); }
    } else {
      WaitedForExactly(run, acts, c, a, k - 1);
      TraceOk(run, acts, k - 1);
      StepWaits(run[k - 1], acts[k - 1], c, a);
      forall j: nat | j < k - 1 && AskedSince(run, acts, c, a, j, k) ensures AskedSince(run, acts, c, a, j, k - 1) {
      }
      if Asks(run[k - 1], acts[k - 1], c, a) {
        assert AskedSince(run, acts, c, a, k - 1, k);
      } else if WaitedFor(run[k - 1], c, a) && !Leaves(run[k - 1], acts[k - 1], c) {
        var j: nat :| AskedSince(run, acts, c, a, j, k - 1);
        assert AskedSince(run, acts, c, a, j, k);
      }
    }
  }

  lemma NobodyAtStart(c: Cid, a: nat)
    ensures !WaitedFor(INIT, c, a)
  {
  }

  // ---------------------------------------------------------------- whose entry it is

  /** Request `a` was sent to client `c` under `id`. */
  predicate Sends(s: State, act: Act, c: Cid, id: nat, a: nat) {
    Asks(s, act, c, a) && c in act.ids && act.ids[c] == id
  }

  predicate HasEntry(s: State, c: Cid, id: nat, a: nat) {
    c in s.clients && id in s.clients[c].replies && s.clients[c].replies[id] == a
  }

  lemma StepEntries(s: State, act: Act, c: Cid, id: nat, a: nat)
    requires Ok(s)
    ensures HasEntry(Step(s, act), c, id, a) <==>
              Sends(s, act, c, id, a) || (HasEntry(s, c, id, a) && !Leaves(s, act, c))
  {
    hide AggsOk, Plus, Dec, DecTimes, Fresh, SumOf;
    if c in s.clients {
      assert ClientOk(s.clients[c], |s.aggs|);
    }
  }

  ghost predicate SentSince(run: seq<State>, acts: seq<Act>, c: Cid, id: nat, a: nat, j: nat, k: nat) {
    && j < k <= |acts| < |run| && Sends(run[j], acts[j], c, id, a)
    && forall m :: j < m < k ==> !Leaves(run[m], acts[m], c)
  }

  /** A message is matched to request `a` exactly when that request was sent to the client under the message's tag and
      the client has neither answered, nor timed out, nor been removed since; late or repeated ones match none. */
  lemma {:induction false} EntryExactly(run: seq<State>, acts: seq<Act>, c: Cid, id: nat, a: nat, k: nat)
    requires IsTrace(run, acts) && k < |run|
    ensures HasEntry(run[k], c, id, a) <==> exists j: nat :: SentSince(run, acts, c, id, a, j, k)
  {
    hide Step, Ok, HasEntry, Sends, Leaves;
    if k == 0 {
      assert !HasEntry(INIT, c, id, a) by { NoEntryAtStart(c, id, a); }
    } else {
      EntryExactly(run, acts, c, id, a, k - 1);
      TraceOk(run, acts, k - 1);
      StepEntries(run[k - 1], acts[k - 1], c, id, a);
      forall j: nat | j < k - 1 && SentSince(run, acts, c, id, a, j, k)
        ensures SentSince(run, acts, c, id, a, j, k - 1)
      {
      }
      if Sends(run[k - 1], acts[k - 1], c, id, a) {
        assert SentSince(run, acts, c, id, a, k - 1, k);
      } else if HasEntry(run[k - 1], c, id, a) && !Leaves(run[k - 1], acts[k - 1], c) {
        var j: nat :| SentSince(run, acts, c, id, a, j, k - 1);
        assert SentSince(run, acts, c, id, a, j, k);
      }
    }
  }

  lemma NoEntryAtStart(c: Cid, id: nat, a: nat)
    ensures !HasEntry(INIT, c, id, a)
  {
  }

  // ---------------------------------------------------------------- who is asked

  /** A request asks exactly the connected clients whose jobs run and that nobody waits for. */
  predicate Ready(s: State, c: Cid) {
    c in s.clients && s.clients[c].running
  }

  lemma AskedReady(run: seq<State>, acts: seq<Act>, c: Cid, k: nat)
    requires IsTrace(run, acts) && k < |run|
    ensures c in Asked(run[k].clients) <==> Ready(run[k], c) && forall a :: !WaitedFor(run[k], c, a)
  {
    hide IsTrace, AggsOk;
    TraceOk(run, acts, k);
    if c in run[k].clients {
      assert ClientOk(run[k].clients[c], |run[k].aggs|);
      var f := run[k].clients[c].inFlight;
      if f.Some? {
        assert WaitedFor(run[k], c, f.value);
      }
    }
  }

  lemma StepReady(s: State, act: Act, c: Cid)
    ensures Ready(Step(s, act), c) <==>
              (act == Started(c) && c in s.clients) || (Ready(s, c) && act != Stopped(c) && act != Remove(c))
  {
    hide Plus, Dec, DecTimes, Fresh, SumOf;
  }

  ghost predicate StartedSince(run: seq<State>, acts: seq<Act>, c: Cid, j: nat, k: nat) {
    && j < k <= |acts| < |run| && acts[j] == Started(c) && c in run[j].clients
    && forall m :: j < m < k ==> acts[m] != Stopped(c) && acts[m] != Remove(c)
  }

  /** A client counts as running from its start message to its stop message or its removal. */
  lemma {:induction false} ReadyExactly(run: seq<State>, acts: seq<Act>, c: Cid, k: nat)
    requires IsTrace(run, acts) && k < |run|
    ensures Ready(run[k], c) <==> exists j: nat :: StartedSince(run, acts, c, j, k)
  {
    hide Step;
    if k > 0 {
      ReadyExactly(run, acts, c, k - 1);
      StepReady(run[k - 1], acts[k - 1], c);
      forall j: nat | j < k - 1 && StartedSince(run, acts, c, j, k) ensures StartedSince(run, acts, c, j, k - 1) {
      }
      if acts[k - 1] == Started(c) && c in run[k - 1].clients {
        assert StartedSince(run, acts, c, k - 1, k);
      } else if Ready(run[k - 1], c) && acts[k - 1] != Stopped(c) && acts[k - 1] != Remove(c) {
        var j: nat :| StartedSince(run, acts, c, j, k - 1);
        assert StartedSince(run, acts, c, j, k);
      }
    }
  }
}
