/**
  The accounting law under concurrency: every schedule of the locking machine is a run, so what a
  surviving rule has used is accounted for whatever requests and reconfigurations overlapped.
*/
module QuotaAccounting {
  import opened QuotaModel
  import opened QuotaRuns
  import opened QuotaCheckpoint
  import C = QuotaConcurrency

  // Definitions as a reconfiguration holds them once they are validated and normalised.
  ghost predicate Prepared(defs: Definitions) {
    ValidDefinitions(defs) && Normalize(defs) == defs
  }

  // The event of the run lemmas that an operation is, if it changes anything.
  function EventsOf(l: C.Label): seq<Event> {
    match l
    case Silent => []
    case Replace(defs) => [Reconfigure(defs)]
    case OnEntry(key, op) =>
      match op
      case AdmitOp(now) => [Admit(key, now)]
      case CompleteOp(names, cost) => [Complete(Ticket(key, names), cost)]
      case AckOp(ruleId, revision, version) => [Ack(key, ruleId, revision, version)]
      case ReadOp => []
  }

  function Events(labels: seq<C.Label>): seq<Event> {
    if labels == [] then []
    else Events(labels[..|labels| - 1]) + EventsOf(labels[|labels| - 1])
  }

  // ---- reconfigurations under way are prepared ------------------------------------------------------

  ghost predicate PcPrepared(pc: C.Pc) {
    match pc
    case WantWrite(defs) => Prepared(defs)
    case Announced(defs) => Prepared(defs)
    case Writing(defs, _, _) => Prepared(defs)
    case WantClone(defs, _, _, _) => Prepared(defs)
    case Cloning(defs, _, _, _) => Prepared(defs)
    case _ => true
  }

  ghost predicate AllPrepared(s: C.State) {
    forall t :: PcPrepared(C.PcOf(s, t))
  }

  // Every reconfiguration of the schedule starts with prepared definitions.
  ghost predicate WritesPrepared(turns: seq<C.Turn>) {
    forall i :: 0 <= i < |turns| && turns[i].choice.BeginWrite? ==> Prepared(turns[i].choice.defs)
  }

  lemma StepPrepared(s: C.State, t: C.Thread, c: C.Choice)
    requires AllPrepared(s) && C.Step(s, t, c).Some? && (c.BeginWrite? ==> Prepared(c.defs))
    ensures AllPrepared(C.Step(s, t, c).value)
  {
    hide Prepared, QuotaModel.CarryAll, QuotaModel.Compatible, C.Apply, C.NewHeap, C.Prev;
    assert PcPrepared(C.PcOf(s, t));
    var s' := C.Step(s, t, c).value;
    forall u ensures PcPrepared(C.PcOf(s', u)) {
      if u != t {
        assert C.PcOf(s', u) == C.PcOf(s, u);
      }
    }
  }

  lemma LabelPrepared(s: C.State, t: C.Thread, c: C.Choice)
    requires AllPrepared(s)
    ensures var l := C.LabelOf(s, t, c); l.Replace? ==> Prepared(l.defs)
  {
    assert PcPrepared(C.PcOf(s, t));
  }

  // ---- schedules are runs ---------------------------------------------------------------------------

  lemma LabelIsEvents(w: World, l: C.Label, next: Entries)
    requires C.Effect(w.entries, l, next) && (l.Replace? ==> Prepared(l.defs))
    ensures EventsOf(l) == [] ==> next == w.entries
    ensures EventsOf(l) != [] ==> |EventsOf(l)| == 1 && StepEntries(w, EventsOf(l)[0]) == next
  {
    if l.OnEntry? {
      C.PerformIsStep(w.entries, l.key, l.op);
    }
  }

  lemma RunNext(w: World, es: seq<Event>, more: seq<Event>)
    requires |more| <= 1
    ensures more == [] ==> Run(w, es + more) == Run(w, es)
    ensures more != [] ==> Run(w, es + more).entries == StepEntries(Run(w, es), more[0])
  {
    if more == [] {
      assert es + more == es;
    } else {
      assert (es + more)[..|es + more| - 1] == es;
    }
  }

  /** Every schedule has the effect of the run of its operations, in the order in which they take
      effect. */
  lemma {:induction false} SchedulesAreRuns(s: C.State, turns: seq<C.Turn>, w: World)
    requires C.Inv(s) && AllPrepared(s) && C.Schedule(s, turns).Some? && WritesPrepared(turns) && w.entries == C.Abs(s)
    ensures C.Inv(C.Schedule(s, turns).value) && AllPrepared(C.Schedule(s, turns).value)
    ensures C.Abs(C.Schedule(s, turns).value) == Run(w, Events(C.Effects(s, turns))).entries
    decreases |turns|
  {
    hide C.Step, C.Inv, C.Abs, C.LabelOf, C.Effect, Run, EventsOf, AllPrepared, Prepared, StepEntries;
    if turns == [] {
      assert Run(w, []) == w by { RunNothing(w); }
    } else {
      var init, last := turns[..|turns| - 1], turns[|turns| - 1];
      SchedulesAreRuns(s, init, w);
      var before, labels := C.Schedule(s, init).value, C.Effects(s, turns);
      assert labels[..|labels| - 1] == C.Effects(s, init);
      C.StepRefines(before, last.thread, last.choice);
      StepPrepared(before, last.thread, last.choice);
      LabelPrepared(before, last.thread, last.choice);
      var now, more := Run(w, Events(C.Effects(s, init))), EventsOf(labels[|labels| - 1]);
      LabelIsEvents(now, labels[|labels| - 1], C.Abs(C.Schedule(s, turns).value));
      RunNext(w, Events(C.Effects(s, init)), more);
    }
  }

  lemma RunNothing(w: World)
    ensures Run(w, []) == w
  {
  }

  lemma QuietPrepared(entries: Entries)
    ensures AllPrepared(C.Quiescent(entries))
  {
  }

  /** In every schedule from rest whose completions present issued tickets, what a surviving rule has
      used is its baseline plus the capped sum of exactly the completions that name its revision and
      window. */
  lemma ConcurrentAccounting(entries: Entries, turns: seq<C.Turn>, key: nat, i: nat)
    requires WellFormedEntries(entries) && WritesPrepared(turns) && C.Schedule(C.Quiescent(entries), turns).Some?
    requires PermittedRun(Start(entries), Events(C.Effects(C.Quiescent(entries), turns)))
    requires var last := C.Abs(C.Schedule(C.Quiescent(entries), turns).value);
             key in last && i < |last[key]| && last[key][i].generation < MAX_UINT64
    ensures var es := Events(C.Effects(C.Quiescent(entries), turns));
            var r := C.Abs(C.Schedule(C.Quiescent(entries), turns).value)[key][i];
            var a := AccountOf(key, r);
            var base, costs := Baseline(entries, a), Costs(a, es);
            r.used == if AnyNegative(costs) || base + Sum(costs) > MAX_INT64 then MAX_INT64
                      else base + Sum(costs)
  {
    hide QuotaModel.WellFormedEntries, PermittedRun, Run, C.Schedule, C.Effects, Events, C.Abs, C.Inv, Consistent;
    hide AllPrepared, WritesPrepared, C.Quiescent;
    C.QuietStart(entries);
    QuietPrepared(entries);
    SchedulesAreRuns(C.Quiescent(entries), turns, Start(entries));
    StartHealthy(entries);
    AccountingLaw(Start(entries), Events(C.Effects(C.Quiescent(entries), turns)), key, i);
  }
}
