/** Every I/O has one fate. The machine of IoUnits numbers each I/O when a unit is set up for it; a number is carried by
    one unit in use, or has ended in exactly one way. */
module IoHistory {
  import opened Bits
  import opened Options
  import opened IoUnits

  /** The units in use, each with the number of its I/O. */
  function Carried(td: Td): map<nat, nat> {
    map u | 0 <= u < |td.units| && u !in td.freelist :: td.units[u].serial
  }

  function Carriers(carried: map<nat, nat>, s: nat): set<nat> {
    set u | u in carried && carried[u] == s
  }

  function Serials(credits: seq<Credit>): seq<nat> {
    seq(|credits|, i requires 0 <= i < |credits| => credits[i].serial)
  }

  /** How often the I/O with number `s` has ended: credited, failed, or put back unfinished. */
  function Endings(td: Td, s: nat): nat {
    multiset(Serials(td.credits))[s] + multiset(td.failed)[s] + multiset(td.dropped)[s]
  }

  ghost predicate OneFate(td: Td, s: nat) {
    Endings(td, s) + |Carriers(Carried(td), s)| == if s < td.serials then 1 else 0
  }

  ghost predicate Accounted(td: Td) {
    forall s: nat :: OneFate(td, s)
  }

  // ---------------------------------------------------------------- the three ways the account moves

  lemma Unchanged(td: Td, td': Td)
    requires Accounted(td) && Carried(td') == Carried(td) && td'.serials == td.serials
    requires td'.credits == td.credits && td'.failed == td.failed && td'.dropped == td.dropped
    ensures Accounted(td')
  {
    forall s: nat ensures OneFate(td', s) {
      assert OneFate(td, s);
    }
  }

  lemma Starts(td: Td, td': Td, u: nat)
    requires Accounted(td) && u !in Carried(td) && Carried(td') == Carried(td)[u := td.serials]
    requires td'.credits == td.credits && td'.failed == td.failed && td'.dropped == td.dropped
    requires td'.serials == td.serials + 1
    ensures Accounted(td')
  {
    forall s: nat ensures OneFate(td', s) {
      assert OneFate(td, s);
      if s == td.serials {
        assert Carriers(Carried(td'), s) == Carriers(Carried(td), s) + {u};
      } else {
        assert Carriers(Carried(td'), s) == Carriers(Carried(td), s);
      }
    }
  }

  lemma EndsOne(td: Td, td': Td, u: nat)
    requires Accounted(td) && u in Carried(td) && Carried(td') == Carried(td) - {u} && td'.serials == td.serials
    requires forall s: nat :: Endings(td', s) == Endings(td, s) + if s == Carried(td)[u] then 1 else 0
    ensures Accounted(td')
  {
    forall s: nat ensures OneFate(td', s) {
      assert OneFate(td, s);
      if s == Carried(td)[u] {
        assert Carriers(Carried(td'), s) == Carriers(Carried(td), s) - {u};
      } else {
        assert Carriers(Carried(td'), s) == Carriers(Carried(td), s);
      }
    }
  }

  lemma EndsByCredit(td: Td, td': Td, u: nat, error: bool, resid: nat)
    requires u < |td.units| && resid <= td.units[u].buflen && ToFree(td, td', u, error, resid)
    requires td'.dropped == td.dropped
    ensures forall s: nat :: Endings(td', s) == Endings(td, s) + if s == td.units[u].serial then 1 else 0
  {
    if td'.credits != td.credits {
      assert Serials(td'.credits) == Serials(td.credits) + [td.units[u].serial] by {
        forall i | 0 <= i < |td.credits| ensures td'.credits[i] == td.credits[i] {
          assert td'.credits[..|td.credits|][i] == td.credits[i];
        }
      }
    }
  }

  // ---------------------------------------------------------------- every action

  /** A submitted or completed unit ends on the free stack, or stays in use with its number. */
  lemma FreedEnds(td: Td, td': Td, u: nat, error: bool, resid: nat)
    requires Accounted(td) && u < |td.units| && u !in td.freelist
    requires resid <= td.units[u].buflen && ToFree(td, td', u, error, resid)
    requires |td'.units| == |td.units| && td'.serials == td.serials && td'.dropped == td.dropped
    requires forall v :: 0 <= v < |td.units| ==> td'.units[v].serial == td.units[v].serial
    ensures Accounted(td')
  {
    EndsByCredit(td, td', u, error, resid);
    assert Carried(td') == Carried(td) - {u};
    EndsOne(td, td', u);
  }

  lemma FateAccounted(td: Td, td': Td, u: nat, a: Answer)
    requires Accounted(td) && u < |td.units| && u !in td.freelist
    requires td.units[u].xfer <= td.units[u].buflen && AnswerOk(td.units[u], a) && Fate(td, td', u, a)
    ensures Accounted(td')
  {
    hide Accounted, ToFree, Refused;
    if !Refused(td, u) && Ends(a) {
      FreedEnds(td, td', u, a.error, if a.error then 0 else a.resid);
    } else {
      assert Carried(td') == Carried(td);
      Unchanged(td, td');
    }
  }

  lemma SubmitAccounted(td: Td, a: Answer)
    requires Good(td) && WellFormed(td) && Accounted(td) && Step(td, Submit(a)).Some?
    ensures Accounted(Step(td, Submit(a)).value)
  {
    hide SubmitTd, Accounted, Good, Fate, AnswerOk;
    var u := td.held.value;
    SubmitFate(td, u, a);
    HeldIsOff(td);
    FateAccounted(td, Step(td, Submit(a)).value, u, a);
  }

  lemma EventAccounted(td: Td, u: nat, error: bool, resid: nat)
    requires Good(td) && WellFormed(td) && Accounted(td) && Step(td, Event(u, error, resid)).Some?
    ensures Accounted(Step(td, Event(u, error, resid)).value)
  {
    var td' := Step(td, Event(u, error, resid)).value;
    CompleteFate(td, u, error, resid);
    Facts(td, u);
    hide Complete, Accounted, Good, WellFormed;
    FreedEnds(td, td', u, error, resid);
  }

  /** The history of `td'` is that of `td`, except for numbers given out and put back. */
  predicate SameHistory(td: Td, td': Td) {
    && |td'.units| == |td.units| && td'.credits == td.credits && td'.failed == td.failed
    && td'.serials >= td.serials
  }

  predicate OthersSame(td: Td, td': Td, u: nat)
    requires |td'.units| == |td.units|
  {
    forall v :: 0 <= v < |td.units| && v != u ==> td'.units[v].serial == td.units[v].serial
  }

  lemma BeginEffect(td: Td, offset: nat, len: nat, u: nat)
    requires WellFormed(td) && Step(td, Begin(offset, len)).Some? && NextUnit(td) == Some(u)
    requires td.requeues != [] ==> td.units[u].hasFile
    ensures var td' := Step(td, Begin(offset, len)).value;
      && SameHistory(td, td') && OthersSame(td, td', u) && td'.held == Some(u) && td'.dropped == td.dropped
      && (if td.requeues != [] then
            td'.freelist == td.freelist && td'.serials == td.serials && td'.units[u].serial == td.units[u].serial
          else
            td.freelist == td'.freelist + [u] && td'.serials == td.serials + 1 && td'.units[u].serial == td.serials)
  {
    hide Wrap32, ExceedsLimit;
  }

  lemma BeginAccounted(td: Td, offset: nat, len: nat)
    requires Good(td) && WellFormed(td) && Accounted(td) && Step(td, Begin(offset, len)).Some?
    ensures Accounted(Step(td, Begin(offset, len)).value)
  {
    hide Accounted, Good, Carried;
    var u := NextUnit(td).value;
    TakenOnce(td, Begin(offset, len), u);
    BeginEffect(td, offset, len, u);
    BeginCarried(td, Step(td, Begin(offset, len)).value, u);
  }

  /** The unit to be taken is idle, with its transfer if it comes from the ring, and is off the stack when taken. */
  lemma TakenOnce(td: Td, act: Act, u: nat)
    requires Good(td) && WellFormed(td) && act.Begin? && Step(td, act).Some? && NextUnit(td) == Some(u)
    ensures u < |td.units| && (td.requeues != [] ==> td.units[u].hasFile && u !in td.freelist)
    ensures Step(td, act).value.held == Some(u) ==> u !in Step(td, act).value.freelist
  {
    StepKeeps(td, act);
    hide Step;
    Facts(td, u);
    HeldIsOff(Step(td, act).value);
  }

  lemma HeldIsOff(td: Td)
    requires Good(td) && td.held.Some?
    ensures td.held.value !in td.freelist
  {
    Facts(td, td.held.value);
  }

  lemma BeginCarried(td: Td, td': Td, u: nat)
    requires Accounted(td) && u < |td.units| && SameHistory(td, td') && OthersSame(td, td', u)
    requires td'.dropped == td.dropped && u !in td'.freelist
    requires if td.requeues != [] then
               td'.freelist == td.freelist && td'.serials == td.serials && td'.units[u].serial == td.units[u].serial
             else
               td.freelist == td'.freelist + [u] && td'.serials == td.serials + 1 && td'.units[u].serial == td.serials
    ensures Accounted(td')
  {
    hide Accounted;
    if td.requeues != [] {
      assert Carried(td') == Carried(td);
      Unchanged(td, td');
    } else {
      assert Carried(td') == Carried(td)[u := td.serials];
      Starts(td, td', u);
    }
  }

  lemma BeginFailEffect(td: Td, u: nat)
    requires WellFormed(td) && Step(td, BeginFail).Some? && NextUnit(td) == Some(u)
    ensures var td' := Step(td, BeginFail).value;
      && SameHistory(td, td') && OthersSame(td, td', u) && td'.serials == td.serials
      && td'.units[u].serial == td.units[u].serial
      && (if td.requeues != [] then
            td'.freelist == td.freelist + [u] && td'.dropped == td.dropped + [td.units[u].serial]
          else
            td'.freelist == td.freelist && td'.dropped == td.dropped)
  {
    hide Wrap32, ExceedsLimit;
    if td.requeues == [] {
      assert td.freelist == td.freelist[..|td.freelist| - 1] + [u];
    }
  }

  lemma BeginFailCarried(td: Td, td': Td, u: nat)
    requires Accounted(td) && u < |td.units| && SameHistory(td, td') && OthersSame(td, td', u)
    requires td'.serials == td.serials && td'.units[u].serial == td.units[u].serial
    requires td.requeues != [] ==> u !in td.freelist
    requires if td.requeues != [] then
               td'.freelist == td.freelist + [u] && td'.dropped == td.dropped + [td.units[u].serial]
             else
               td'.freelist == td.freelist && td'.dropped == td.dropped
    ensures Accounted(td')
  {
    hide Accounted;
    if td.requeues != [] {
      assert Carried(td') == Carried(td) - {u};
      EndsOne(td, td', u);
    } else {
      assert Carried(td') == Carried(td);
      Unchanged(td, td');
    }
  }

  lemma RingIsOff(td: Td, u: nat)
    requires Good(td) && NextUnit(td) == Some(u)
    ensures u < |td.units| && (td.requeues != [] ==> u !in td.freelist)
  {
    Facts(td, u);
  }

  lemma BeginFailAccounted(td: Td)
    requires Good(td) && WellFormed(td) && Accounted(td) && Step(td, BeginFail).Some?
    ensures Accounted(Step(td, BeginFail).value)
  {
    hide Accounted, Good, Carried;
    var u := NextUnit(td).value;
    RingIsOff(td, u);
    BeginFailEffect(td, u);
    BeginFailCarried(td, Step(td, BeginFail).value, u);
  }

  lemma StepAccounted(td: Td, act: Act)
    requires Good(td) && WellFormed(td) && Accounted(td) && Step(td, act).Some?
    ensures Accounted(Step(td, act).value)
  {
    hide Good, WellFormed, Accounted;
    match act
    case Begin(offset, len) => BeginAccounted(td, offset, len);
    case BeginFail =>
      assert act == BeginFail;
      BeginFailAccounted(td);
    case Submit(a) => SubmitAccounted(td, a);
    case Event(u, error, resid) => EventAccounted(td, u, error, resid);
    case _ =>
      assert Carried(Step(td, act).value) == Carried(td);
      Unchanged(td, Step(td, act).value);
  }

  lemma InitAccounted(n: nat, cfg: Config)
    ensures Accounted(Init(n, cfg))
  {
    var td := Init(n, cfg);
    forall u | 0 <= u < n ensures u in td.freelist { assert td.freelist[u] == u; }
    assert Carried(td) == map[];
    forall s: nat ensures OneFate(td, s) {
      assert Carriers(Carried(td), s) == {};
      assert Serials(td.credits) == [];
    }
  }

  lemma {:induction false} RunAccounted(n: nat, cfg: Config, run: seq<Td>, k: nat)
    requires IsRun(n, cfg, run) && n < U32 && k < |run|
    ensures Accounted(run[k])
  {
    hide Good, Step, WellFormed, Accounted;
    if k == 0 {
      InitAccounted(n, cfg);
    } else {
      RunAccounted(n, cfg, run, k - 1);
      RunKeeps(n, cfg, run, k - 1);
      assert Next(run[k - 1], run[k]);
      var act: Act :| Step(run[k - 1], act) == Some(run[k]);
      StepAccounted(run[k - 1], act);
    }
  }

  // ---------------------------------------------------------------- what that means

  /** Every I/O that was given a number is carried by exactly one unit in use, or has ended exactly once: credited,
      failed or put back unfinished. A number not given out is nowhere. */
  lemma ExactlyOneFate(n: nat, cfg: Config, run: seq<Td>, k: nat, s: nat)
    requires IsRun(n, cfg, run) && n < U32 && k < |run|
    ensures multiset(Serials(run[k].credits))[s] + multiset(run[k].failed)[s] + multiset(run[k].dropped)[s] +
            |Carriers(Carried(run[k]), s)| == if s < run[k].serials then 1 else 0
  {
    hide IsRun;
    RunAccounted(n, cfg, run, k);
    assert OneFate(run[k], s);
  }

  lemma TwiceCounted(s: seq<nat>, i: nat, j: nat)
    requires i < j < |s| && s[i] == s[j]
    ensures multiset(s)[s[i]] >= 2
  {
    assert s == s[..i] + [s[i]] + s[i + 1..j] + [s[j]] + s[j + 1..];
  }

  /** No I/O is credited twice, and none that is credited has failed, was put back or is still in use. */
  lemma CreditedOnce(n: nat, cfg: Config, run: seq<Td>, k: nat, i: nat, j: nat)
    requires IsRun(n, cfg, run) && n < U32 && k < |run| && i < j < |run[k].credits|
    ensures run[k].credits[i].serial != run[k].credits[j].serial
    ensures run[k].credits[i].serial !in run[k].failed && run[k].credits[i].serial !in run[k].dropped
    ensures forall u :: 0 <= u < |run[k].units| && u !in run[k].freelist ==>
              run[k].units[u].serial != run[k].credits[i].serial
  {
    hide IsRun;
    var td := run[k];
    var s := td.credits[i].serial;
    ExactlyOneFate(n, cfg, run, k, s);
    assert Serials(td.credits)[i] == s;
    if td.credits[j].serial == s {
      TwiceCounted(Serials(td.credits), i, j);
    }
    forall u | 0 <= u < |td.units| && u !in td.freelist ensures td.units[u].serial != s {
      assert td.units[u].serial == s ==> u in Carriers(Carried(td), s);
    }
  }
}
