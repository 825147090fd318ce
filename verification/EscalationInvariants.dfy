/**
 * What every interleaving of the engine's handlers keeps.
 *
 * A tick first lists the firing alerts and then takes them one by one, so the turn of
 * an alert works on a copy that may be older than the stored row. A run therefore
 * consists of handler calls, of listings, and of turns on any copy listed earlier.
 */
module EscalationInvariants {
  import opened Common
  import opened Escalation

  // ---------- Timelines ----------

  function Timeline(events: seq<Event>, id: string): seq<EventKind> {
    if events == [] then []
    else
      var e := events[|events| - 1];
      var before := Timeline(events[..|events| - 1], id);
      if e.alertID == id then before + [e.kind] else before
  }

  lemma {:induction false} TimelineConcat(a: seq<Event>, b: seq<Event>, id: string)
    ensures Timeline(a + b, id) == Timeline(a, id) + Timeline(b, id)
  {
    if b == [] {
      assert a + b == a;
    } else {
      TimelineConcat(a, b[..|b| - 1], id);
      assert (a + b)[..|a + b| - 1] == a + b[..|b| - 1];
    }
  }

  lemma TimelineSnoc(events: seq<Event>, e: Event, id: string)
    ensures Timeline(events + [e], id) == if e.alertID == id then Timeline(events, id) + [e.kind] else Timeline(events, id)
  {
    assert (events + [e])[..|events + [e]| - 1] == events;
  }

  /** Where a timeline stands in `Triggered (Escalated|Notified)* Ack* ResolvedEvent?`. */
  datatype Phase = Fresh | Live | Acked | Done | Broken

  function After(p: Phase, k: EventKind): Phase {
    match k
    case Triggered => if p == Fresh then Live else Broken
    case Escalated => if p == Live then Live else Broken
    case Notified => if p == Live then Live else Broken
    case Ack => if p == Live || p == Acked then Acked else Broken
    case ResolvedEvent => if p == Live || p == Acked then Done else Broken
  }

  function PhaseOf(t: seq<EventKind>): Phase {
    if t == [] then Fresh else After(PhaseOf(t[..|t| - 1]), t[|t| - 1])
  }

  /** The same language, with acknowledgements anywhere before the end. */
  function LooseAfter(p: Phase, k: EventKind): Phase {
    if k == Triggered then (if p == Fresh then Live else Broken)
    else if p != Live then Broken
    else if k == ResolvedEvent then Done else Live
  }

  function LoosePhase(t: seq<EventKind>): Phase {
    if t == [] then Fresh else LooseAfter(LoosePhase(t[..|t| - 1]), t[|t| - 1])
  }

  lemma PhaseSnoc(t: seq<EventKind>, k: EventKind)
    ensures PhaseOf(t + [k]) == After(PhaseOf(t), k)
    ensures LoosePhase(t + [k]) == LooseAfter(LoosePhase(t), k)
  {
    assert (t + [k])[..|t + [k]| - 1] == t;
  }

  /** t[0] is Triggered, then escalations and notifications up to i, then acks up to j, then at most a resolution. */
  ghost predicate Shape(t: seq<EventKind>, i: nat, j: nat) {
    && 1 <= i <= j <= |t| <= j + 1
    && t[0] == Triggered
    && (forall k :: 1 <= k < i ==> t[k] == Escalated || t[k] == Notified)
    && (forall k :: i <= k < j ==> t[k] == Ack)
    && (j < |t| ==> t[j] == ResolvedEvent)
  }

  ghost predicate WellFormed(t: seq<EventKind>) {
    exists i: nat, j: nat :: Shape(t, i, j)
  }

  ghost predicate ShapeIn(t: seq<EventKind>, i: nat, j: nat, p: Phase) {
    && Shape(t, i, j)
    && (p == Live ==> i == j == |t|)
    && (p == Acked ==> i < j == |t|)
    && (p == Done ==> j < |t|)
    && p != Fresh && p != Broken
  }

  lemma {:induction false} PhaseGivesShape(t: seq<EventKind>) returns (i: nat, j: nat)
    requires PhaseOf(t) != Fresh && PhaseOf(t) != Broken
    ensures ShapeIn(t, i, j, PhaseOf(t))
  {
    var n := |t| - 1;
    if n == 0 {
      i, j := 1, 1;
    } else {
      i, j := PhaseGivesShape(t[..n]);
      match t[n] {
        case Triggered =>
        case Escalated => i, j := n + 1, n + 1;
        case Notified => i, j := n + 1, n + 1;
        case Ack => j := n + 1;
        case ResolvedEvent =>
      }
    }
  }

  lemma {:induction false} ShapeGivesPhase(t: seq<EventKind>, i: nat, j: nat)
    requires Shape(t, i, j)
    ensures PhaseOf(t) == if j < |t| then Done else if i < j then Acked else Live
  {
    var n := |t| - 1;
    if n > 0 {
      var t' := t[..n];
      if j < |t| {
        ShapeGivesPhase(t', i, j);
      } else if i < j {
        ShapeGivesPhase(t', i, j - 1);
      } else {
        ShapeGivesPhase(t', i - 1, j - 1);
      }
    } else {
      assert t[..n] == [];
    }
  }

  /** The automaton accepts exactly the timelines of the documented shape. */
  lemma PhaseIsLanguage(t: seq<EventKind>)
    ensures WellFormed(t) <==> PhaseOf(t) != Fresh && PhaseOf(t) != Broken
  {
    if PhaseOf(t) != Fresh && PhaseOf(t) != Broken {
      var i, j := PhaseGivesShape(t);
    }
    if i: nat, j: nat :| Shape(t, i, j) {
      ShapeGivesPhase(t, i, j);
    }
  }

  // ---------- The invariant of every run ----------

  function UnresolvedOf(s: State, org: string): set<string> {
    set id | id in s.alerts && s.alerts[id].status != Resolved && s.alerts[id].orgID == org
  }

  ghost predicate GaugeExact(s: State) {
    forall org :: GaugeOf(s.gauge, org) == |UnresolvedOf(s, org)|
  }

  ghost predicate RowsSound(s: State) {
    forall id :: id in s.alerts ==>
      s.alerts[id].id == id && (s.alerts[id].status == Resolved <==> s.alerts[id].resolvedAt.Some?)
  }

  /** Escalation rows exist only for unresolved alerts and name the alert's own current step. */
  ghost predicate EscalationAgrees(s: State) {
    forall id :: id in s.escalation ==>
      Unresolved(s, id) && s.escalation[id].currentStepID == s.alerts[id].currentStep
  }

  ghost predicate LoosePhases(s: State) {
    forall id :: LoosePhase(Timeline(s.events, id)) ==
                 if id !in s.alerts then Fresh else if s.alerts[id].status == Resolved then Done else Live
  }

  ghost predicate Inv(s: State) {
    RowsSound(s) && UniqueActive(s) && EscalationAgrees(s) && GaugeExact(s) && LoosePhases(s)
  }

  function StatusPhase(status: AlertStatus): Phase {
    match status
    case Firing => Live
    case Acknowledged => Acked
    case Resolved => Done
  }

  /** Every alert's status is exactly the phase of its timeline. */
  ghost predicate PhasesAgree(s: State) {
    forall id :: PhaseOf(Timeline(s.events, id)) == if id in s.alerts then StatusPhase(s.alerts[id].status) else Fresh
  }

  /** A copy some tick listed: firing at that time, its fixed columns still those of the row. */
  ghost predicate CopyOf(s: State, c: Alert) {
    && c.status == Firing && c.resolvedAt == None
    && c.id in s.alerts
    && s.alerts[c.id].monitorID == c.monitorID && s.alerts[c.id].orgID == c.orgID
    && s.alerts[c.id].startedAt == c.startedAt
  }

  // ---------- Runs ----------

  datatype World = World(db: State, cfg: Config, copies: set<Alert>)

  datatype Op =
    | DoTrigger(monitorID: string, status: CheckStatus, error: string, id: string, now: int, env: Surroundings)
    | DoRecover(monitorID: string, now: int)
    | DoAck(id: string, user: string, channel: string, now: int)
    | DoList
    | DoTurn(copy: Alert, now: int, env: Surroundings)
    | DoConfigure(cfg: Config)

  /** New alert ids are unused, and a turn works on a copy that was listed. */
  predicate Enabled(w: World, op: Op) {
    match op
    case DoTrigger(_, _, _, id, _, _) => id !in w.db.alerts
    case DoTurn(copy, _, _) => copy in w.copies
    case _ => true
  }

  function FiringCopies(s: State): set<Alert> {
    set id | id in s.alerts && s.alerts[id].status == Firing :: s.alerts[id]
  }

  ghost function Next(w: World, op: Op): World {
    if !Enabled(w, op) then w
    else match op
      case DoTrigger(m, status, error, id, now, env) => w.(db := Trigger(w.db, w.cfg, m, status, error, id, now, env))
      case DoRecover(m, now) => w.(db := Recover(w.db, m, now))
      case DoAck(id, user, channel, now) => w.(db := Acknowledge(w.db, id, user, channel, now))
      case DoList => w.(copies := w.copies + FiringCopies(w.db))
      case DoTurn(copy, now, env) => w.(db := Turn(w.db, w.cfg, copy, now, env))
      case DoConfigure(cfg) => w.(cfg := cfg)
  }

  ghost function Run(w: World, ops: seq<Op>): World {
    if ops == [] then w else Next(Run(w, ops[..|ops| - 1]), ops[|ops| - 1])
  }

  ghost predicate WorldInv(w: World) {
    Inv(w.db) && forall c :: c in w.copies ==> CopyOf(w.db, c)
  }

  // ---------- Notifications leave the phase alone ----------

  lemma {:induction false} JobsBelongToAlert(alertID: string, org: string, monitorOrg: string, stepID: string, targets: seq<Target>)
    ensures forall j :: j in Jobs(alertID, org, monitorOrg, stepID, targets) ==> j.alertID == alertID
  {
    if targets != [] {
      JobsBelongToAlert(alertID, org, monitorOrg, stepID, targets[..|targets| - 1]);
    }
  }

  lemma NotifiedSnoc(before: seq<Event>, jobs: seq<Job>)
    requires jobs != []
    ensures var n := |jobs| - 1;
      before + NotifiedEvents(jobs) == before + NotifiedEvents(jobs[..n]) + [NotifiedEvents(jobs)[n]]
  {
    var n := |jobs| - 1;
    assert NotifiedEvents(jobs) == NotifiedEvents(jobs[..n]) + [NotifiedEvents(jobs)[n]];
  }

  /** Notifications on one alert keep a live timeline live and touch no other timeline. */
  lemma {:induction false} NotifiedKeepsPhase(before: seq<Event>, jobs: seq<Job>, owner: string, id: string)
    requires forall j :: j in jobs ==> j.alertID == owner
    requires id == owner ==> PhaseOf(Timeline(before, id)) == Live || jobs == []
    ensures PhaseOf(Timeline(before + NotifiedEvents(jobs), id)) == PhaseOf(Timeline(before, id))
  {
    if jobs == [] {
      assert before + NotifiedEvents(jobs) == before;
    } else {
      var n := |jobs| - 1;
      NotifiedKeepsPhase(before, jobs[..n], owner, id);
      var so := before + NotifiedEvents(jobs[..n]);
      var e := NotifiedEvents(jobs)[n];
      NotifiedSnoc(before, jobs);
      TimelineSnoc(so, e, id);
      PhaseSnoc(Timeline(so, id), e.kind);
    }
  }

  lemma {:induction false} NotifiedKeepsLoosePhase(before: seq<Event>, jobs: seq<Job>, owner: string, id: string)
    requires forall j :: j in jobs ==> j.alertID == owner
    requires id == owner ==> LoosePhase(Timeline(before, id)) == Live
    ensures LoosePhase(Timeline(before + NotifiedEvents(jobs), id)) == LoosePhase(Timeline(before, id))
  {
    if jobs == [] {
      assert before + NotifiedEvents(jobs) == before;
    } else {
      var n := |jobs| - 1;
      NotifiedKeepsLoosePhase(before, jobs[..n], owner, id);
      var so := before + NotifiedEvents(jobs[..n]);
      var e := NotifiedEvents(jobs)[n];
      NotifiedSnoc(before, jobs);
      TimelineSnoc(so, e, id);
      PhaseSnoc(Timeline(so, id), e.kind);
    }
  }

  lemma RoundJobsBelong(a: Alert, monitorOrg: string, stepID: string, env: Surroundings)
    ensures forall j :: j in RoundJobs(a, monitorOrg, stepID, env) ==> j.alertID == a.id
  {
    if env.targets.Some? {
      JobsBelongToAlert(a.id, a.orgID, monitorOrg, stepID, env.targets.value);
    }
  }

  /** A round of a live alert: rows other than its own escalation row stay, phases stay. */
  lemma NotifyKeeps(s: State, a: Alert, monitorOrg: string, st: EscState, now: int, env: Surroundings)
    requires LoosePhase(Timeline(s.events, a.id)) == Live
    requires a.id in s.escalation && s.escalation[a.id] == st
    ensures var s' := Notify(s, a, monitorOrg, st, now, env);
      && s'.alerts == s.alerts && s'.gauge == s.gauge
      && s'.escalation.Keys == s.escalation.Keys
      && (forall id :: id in s.escalation ==> s'.escalation[id].currentStepID == s.escalation[id].currentStepID)
      && (forall id :: LoosePhase(Timeline(s'.events, id)) == LoosePhase(Timeline(s.events, id)))
      && (PhaseOf(Timeline(s.events, a.id)) == Live || RoundJobs(a, monitorOrg, st.currentStepID, env) == [] ==>
            forall id :: PhaseOf(Timeline(s'.events, id)) == PhaseOf(Timeline(s.events, id)))
  {
    var s' := Notify(s, a, monitorOrg, st, now, env);
    var jobs := RoundJobs(a, monitorOrg, st.currentStepID, env);
    RoundJobsBelong(a, monitorOrg, st.currentStepID, env);
    if !(env.suppressed || env.targets.None?) {
      forall id ensures LoosePhase(Timeline(s'.events, id)) == LoosePhase(Timeline(s.events, id)) {
        NotifiedKeepsLoosePhase(s.events, jobs, a.id, id);
      }
      if PhaseOf(Timeline(s.events, a.id)) == Live || jobs == [] {
        forall id ensures PhaseOf(Timeline(s'.events, id)) == PhaseOf(Timeline(s.events, id)) {
          NotifiedKeepsPhase(s.events, jobs, a.id, id);
        }
      }
    }
  }

  // ---------- Each handler keeps the invariant ----------

  /** One more log entry moves exactly one timeline, by one step of each automaton. */
  lemma LogMoves(s: State, e: Event)
    ensures forall id :: id != e.alertID ==> Timeline(Log(s, e).events, id) == Timeline(s.events, id)
    ensures PhaseOf(Timeline(Log(s, e).events, e.alertID)) == After(PhaseOf(Timeline(s.events, e.alertID)), e.kind)
    ensures LoosePhase(Timeline(Log(s, e).events, e.alertID)) == LooseAfter(LoosePhase(Timeline(s.events, e.alertID)), e.kind)
  {
    forall id ensures Timeline(Log(s, e).events, id) ==
                      if e.alertID == id then Timeline(s.events, id) + [e.kind] else Timeline(s.events, id)
    {
      TimelineSnoc(s.events, e, id);
    }
    PhaseSnoc(Timeline(s.events, e.alertID), e.kind);
  }

  ghost predicate Rows(s: State) {
    RowsSound(s) && UniqueActive(s) && EscalationAgrees(s)
  }

  lemma UnresolvedGrows(s: State, s': State, a: Alert, org: string)
    requires a.id !in s.alerts && s'.alerts == s.alerts[a.id := a] && a.status == Firing
    ensures |UnresolvedOf(s', org)| == |UnresolvedOf(s, org)| + if org == a.orgID then 1 else 0
  {
    var before, after := UnresolvedOf(s, org), UnresolvedOf(s', org);
    assert a.id !in before;
    forall id ensures id in after <==> id in before || (id == a.id && org == a.orgID) {
      assert id != a.id ==> (id in s'.alerts <==> id in s.alerts);
    }
    assert after == if org == a.orgID then before + {a.id} else before;
  }

  /** The gauge moves with the set of unresolved alerts when one alert is opened. */
  lemma OpenedGauge(s: State, a: Alert)
    requires GaugeExact(s) && a.id !in s.alerts && a.status == Firing
    ensures GaugeExact(Opened(s, a))
  {
    var s' := Opened(s, a);
    assert s'.gauge == s.gauge[a.orgID := GaugeOf(s.gauge, a.orgID) + 1];
    forall org ensures GaugeOf(s'.gauge, org) == |UnresolvedOf(s', org)| {
      assert GaugeOf(s.gauge, org) == |UnresolvedOf(s, org)|;
      UnresolvedGrows(s, s', a, org);
    }
  }

  lemma OpenedRows(s: State, a: Alert)
    requires Rows(s) && a.id !in s.alerts && a.status == Firing && a.resolvedAt == None
    requires forall id :: !ActiveFor(s, id, a.monitorID)
    ensures Rows(Opened(s, a))
  {
    var s' := Opened(s, a);
    forall i, j | Unresolved(s', i) && Unresolved(s', j) && s'.alerts[i].monitorID == s'.alerts[j].monitorID
      ensures i == j
    {
      assert !ActiveFor(s, i, a.monitorID) && !ActiveFor(s, j, a.monitorID);
      assert i != a.id ==> Unresolved(s, i);
      assert j != a.id ==> Unresolved(s, j);
    }
    forall id | id in s'.escalation ensures Unresolved(s', id) && s'.escalation[id].currentStepID == s'.alerts[id].currentStep {
      assert Unresolved(s, id);
    }
  }

  lemma OpenedPhases(s: State, a: Alert)
    requires LoosePhases(s) && a.id !in s.alerts && a.status == Firing
    ensures LoosePhases(Opened(s, a))
    ensures PhasesAgree(s) ==> PhasesAgree(Opened(s, a))
  {
    var s0 := AddGauge(s.(alerts := s.alerts[a.id := a]), a.orgID, 1);
    LogMoves(s0, Event(a.id, Triggered, "", ""));
  }

  /** Rewriting one unresolved row as another unresolved row of the same monitor and organisation. */
  ghost predicate Rewrites(s: State, s': State, id: string) {
    && id in s.alerts && s'.alerts.Keys == s.alerts.Keys
    && s.alerts[id].status != Resolved && s'.alerts[id].status != Resolved
    && s'.alerts[id].orgID == s.alerts[id].orgID && s'.alerts[id].monitorID == s.alerts[id].monitorID
    && s'.alerts[id].id == s.alerts[id].id && s'.alerts[id].resolvedAt == None
    && (forall i :: i in s.alerts && i != id ==> s'.alerts[i] == s.alerts[i])
  }

  lemma RewriteKeepsGauge(s: State, s': State, id: string)
    requires Rewrites(s, s', id) && s'.gauge == s.gauge && GaugeExact(s)
    ensures GaugeExact(s')
  {
    forall org ensures GaugeOf(s'.gauge, org) == |UnresolvedOf(s', org)| {
      assert GaugeOf(s.gauge, org) == |UnresolvedOf(s, org)|;
      assert UnresolvedOf(s', org) == UnresolvedOf(s, org);
    }
  }

  lemma RewriteKeepsRows(s: State, s': State, id: string)
    requires Rewrites(s, s', id) && Rows(s)
    requires s'.escalation.Keys <= s.escalation.Keys + {id}
    requires forall i :: i in s'.escalation && i != id ==> s'.escalation[i].currentStepID == s.escalation[i].currentStepID
    requires id in s'.escalation ==> s'.escalation[id].currentStepID == s'.alerts[id].currentStep
    ensures Rows(s')
  {
    assert forall i :: Unresolved(s', i) <==> Unresolved(s, i);
    forall i | i in s'.escalation ensures Unresolved(s', i) && s'.escalation[i].currentStepID == s'.alerts[i].currentStep {
      assert Unresolved(s, i);
    }
  }

  lemma TriggerKeeps(s: State, cfg: Config, monitorID: string, status: CheckStatus, error: string,
                     id: string, now: int, env: Surroundings)
    requires Inv(s) && id !in s.alerts
    ensures Inv(Trigger(s, cfg, monitorID, status, error, id, now, env))
    ensures PhasesAgree(s) ==> PhasesAgree(Trigger(s, cfg, monitorID, status, error, id, now, env))
  {
    if monitorID in cfg.monitors && ActiveOf(s, monitorID).None? {
      var m := cfg.monitors[monitorID];
      var a := NewAlert(m, monitorID, status, error, id, now);
      var s1 := Opened(s, a);
      OpenedGauge(s, a);
      OpenedRows(s, a);
      OpenedPhases(s, a);
      var steps := cfg.StepsOf(m.policyID);
      if !m.muted && m.policyID != "" && steps != [] {
        EscalateKeeps(s1, id, a.(currentStep := steps[0].id), EscState(steps[0].id, now, 0, None, 0), m.orgID, now, env);
      }
    }
  }

  /** Writing an alert's current step and escalation row together, then running the round. */
  lemma EscalateKeeps(s: State, id: string, a: Alert, st: EscState, org: string, now: int, env: Surroundings)
    requires Inv(s) && CopyOf(s, a) && a.id == id && Unresolved(s, id)
    requires st.currentStepID == a.currentStep
    ensures var s' := Notify(Upsert(UpdateRow(s, a), id, st), a, org, st, now, env);
      && Inv(s')
      && (PhasesAgree(s) && s.alerts[id].status == Firing ==> PhasesAgree(s'))
  {
    var s1 := Upsert(UpdateRow(s, a), id, st);
    WriteBackKeeps(s, a, st);
    NotifyKeeps(s1, a, org, st, now, env);
    NotifyKeepsInv(s1, Notify(s1, a, org, st, now, env));
  }

  /** The write-back touches one row, and leaves status classes alone. */
  lemma WriteBackRow(s: State, a: Alert, st: EscState)
    requires RowsSound(s) && CopyOf(s, a) && Unresolved(s, a.id)
    ensures var s1 := Upsert(UpdateRow(s, a), a.id, st);
      && Rewrites(s, s1, a.id) && s1.gauge == s.gauge && s1.events == s.events
      && s1.escalation == s.escalation[a.id := st]
      && s1.alerts[a.id].status == Firing && s1.alerts[a.id].currentStep == a.currentStep
  {
  }

  lemma WriteBackRows(s: State, a: Alert, st: EscState)
    requires Rows(s) && GaugeExact(s) && CopyOf(s, a) && Unresolved(s, a.id)
    requires st.currentStepID == a.currentStep
    ensures var s1 := Upsert(UpdateRow(s, a), a.id, st); Rows(s1) && GaugeExact(s1)
  {
    var s1 := Upsert(UpdateRow(s, a), a.id, st);
    WriteBackRow(s, a, st);
    RewriteKeepsGauge(s, s1, a.id);
    RewriteKeepsRows(s, s1, a.id);
  }

  /** Rewriting an unresolved row keeps the loose phases, and the strict ones if its status stays. */
  lemma RewriteKeepsPhases(s: State, s': State, id: string)
    requires Rewrites(s, s', id) && s'.events == s.events
    ensures LoosePhases(s) ==> LoosePhases(s') && LoosePhase(Timeline(s'.events, id)) == Live
    ensures PhasesAgree(s) && s'.alerts[id].status == s.alerts[id].status ==> PhasesAgree(s')
  {
  }

  lemma WriteBackKeeps(s: State, a: Alert, st: EscState)
    requires Inv(s) && CopyOf(s, a) && Unresolved(s, a.id)
    requires st.currentStepID == a.currentStep
    ensures var s1 := Upsert(UpdateRow(s, a), a.id, st);
      && Inv(s1) && s1.events == s.events
      && (PhasesAgree(s) && s.alerts[a.id].status == Firing ==> PhasesAgree(s1))
      && LoosePhase(Timeline(s1.events, a.id)) == Live
      && (PhasesAgree(s) && s.alerts[a.id].status == Firing ==> PhaseOf(Timeline(s1.events, a.id)) == Live)
  {
    WriteBackRow(s, a, st);
    WriteBackRows(s, a, st);
    RewriteKeepsPhases(s, Upsert(UpdateRow(s, a), a.id, st), a.id);
  }

  /** Two states with the same alerts, gauge, step names and phases satisfy the invariant together. */
  lemma NotifyKeepsInv(s: State, s': State)
    requires Inv(s)
    requires s'.alerts == s.alerts && s'.gauge == s.gauge && s'.escalation.Keys == s.escalation.Keys
    requires forall id :: id in s.escalation ==> s'.escalation[id].currentStepID == s.escalation[id].currentStepID
    requires forall id :: LoosePhase(Timeline(s'.events, id)) == LoosePhase(Timeline(s.events, id))
    ensures Inv(s')
  {
    assert forall i :: Unresolved(s', i) <==> Unresolved(s, i);
    assert GaugeExact(s') by {
      forall org ensures GaugeOf(s'.gauge, org) == |UnresolvedOf(s', org)| {
        assert UnresolvedOf(s', org) == UnresolvedOf(s, org);
      }
    }
  }

  lemma ResolveGauge(s: State, id: string, now: int)
    requires GaugeExact(s) && Unresolved(s, id)
    ensures GaugeExact(Resolve(s, id, now))
  {
    var s' := Resolve(s, id, now);
    var a := s.alerts[id];
    forall org ensures GaugeOf(s'.gauge, org) == |UnresolvedOf(s', org)| {
      assert GaugeOf(s.gauge, org) == |UnresolvedOf(s, org)|;
      if org == a.orgID {
        assert UnresolvedOf(s', org) == UnresolvedOf(s, org) - {id};
        assert id in UnresolvedOf(s, org);
      } else {
        assert UnresolvedOf(s', org) == UnresolvedOf(s, org);
      }
    }
  }

  lemma ResolveRows(s: State, id: string, now: int)
    requires Rows(s) && Unresolved(s, id)
    ensures Rows(Resolve(s, id, now))
  {
    var s' := Resolve(s, id, now);
    assert forall i :: Unresolved(s', i) <==> Unresolved(s, i) && i != id;
    forall i | i in s'.escalation ensures Unresolved(s', i) && s'.escalation[i].currentStepID == s'.alerts[i].currentStep {
      assert i in s.escalation && Unresolved(s, i);
    }
  }

  lemma ResolveKeeps(s: State, id: string, now: int)
    requires Inv(s) && Unresolved(s, id)
    ensures Inv(Resolve(s, id, now))
    ensures PhasesAgree(s) ==> PhasesAgree(Resolve(s, id, now))
  {
    ResolveGauge(s, id, now);
    ResolveRows(s, id, now);
    ResolveLogs(s, id, now);
  }

  /** Resolving adds one entry to the alert's own timeline. */
  lemma ResolveLogs(s: State, id: string, now: int)
    requires id in s.alerts
    ensures var s' := Resolve(s, id, now);
      && (forall i :: i != id ==> Timeline(s'.events, i) == Timeline(s.events, i))
      && PhaseOf(Timeline(s'.events, id)) == After(PhaseOf(Timeline(s.events, id)), ResolvedEvent)
      && LoosePhase(Timeline(s'.events, id)) == LooseAfter(LoosePhase(Timeline(s.events, id)), ResolvedEvent)
  {
    var a := s.alerts[id];
    var s1 := AddGauge(s.(alerts := s.alerts[id := a.(status := Resolved, resolvedAt := Some(now))]), a.orgID, -1);
    LogMoves(s1.(escalation := s1.escalation - {id}), Event(id, ResolvedEvent, "", ""));
  }

  lemma AckRowKeeps(s: State, id: string, a: Alert)
    requires Inv(s) && Unresolved(s, id)
    requires a == s.alerts[id].(status := Acknowledged, acknowledgedAt := a.acknowledgedAt, acknowledgedBy := a.acknowledgedBy)
    ensures var s1 := s.(alerts := s.alerts[id := a]); Rows(s1) && GaugeExact(s1)
  {
    var s1 := s.(alerts := s.alerts[id := a]);
    RewriteKeepsGauge(s, s1, id);
    RewriteKeepsRows(s, s1, id);
  }

  /** A log entry changes neither rows nor gauge. */
  lemma LogKeepsRows(s: State, e: Event)
    requires Rows(s) && GaugeExact(s)
    ensures Rows(Log(s, e)) && GaugeExact(Log(s, e))
  {
    assert forall i :: Unresolved(Log(s, e), i) <==> Unresolved(s, i);
    forall org ensures GaugeOf(s.gauge, org) == |UnresolvedOf(Log(s, e), org)| {
      assert UnresolvedOf(Log(s, e), org) == UnresolvedOf(s, org);
    }
  }

  lemma AcknowledgeKeeps(s: State, id: string, user: string, channel: string, now: int)
    requires Inv(s)
    ensures Inv(Acknowledge(s, id, user, channel, now))
    ensures PhasesAgree(s) ==> PhasesAgree(Acknowledge(s, id, user, channel, now))
  {
    if Unresolved(s, id) {
      var a := s.alerts[id].(status := Acknowledged, acknowledgedAt := Some(now), acknowledgedBy := user);
      var s1 := s.(alerts := s.alerts[id := a]);
      var e := Event(id, Ack, channel, user);
      AckRowKeeps(s, id, a);
      LogKeepsRows(s1, e);
      LogMoves(s1, e);
    }
  }

  /** The alert rows after a turn: the copy written back if it changes step, else as they were. */
  lemma TurnAlerts(s: State, cfg: Config, copy: Alert, now: int, env: Surroundings)
    ensures var move := Choose(s, cfg, copy, now);
      Turn(s, cfg, copy, now, env).alerts ==
      (if move.Advance? || move.Restart? then UpdateRow(s, copy.(currentStep := move.step.id)).alerts else s.alerts)
  {
    var move := Choose(s, cfg, copy, now);
    if !move.Idle? {
      var s1 := Upsert(s, copy.id, Moved(s.escalation[copy.id], move, now));
      assert s1.alerts == s.alerts;
      if !move.Retry? {
        var copy' := copy.(currentStep := move.step.id);
        assert UpdateRow(s1, copy').alerts == UpdateRow(s, copy').alerts;
      }
    }
  }

  /** Every status after a turn is the old one, or firing on the copy's own row if an escalation row exists. */
  lemma TurnStatuses(s: State, cfg: Config, copy: Alert, now: int, env: Surroundings)
    requires copy.status == Firing
    ensures var s' := Turn(s, cfg, copy, now, env);
      && s'.alerts.Keys == s.alerts.Keys
      && (forall id :: id in s.alerts && id != copy.id ==> s'.alerts[id] == s.alerts[id])
      && (copy.id in s.alerts && copy.id !in s.escalation ==> s'.alerts[copy.id] == s.alerts[copy.id])
      && (copy.id in s.alerts ==>
            && s'.alerts[copy.id].monitorID == s.alerts[copy.id].monitorID
            && s'.alerts[copy.id].orgID == s.alerts[copy.id].orgID
            && s'.alerts[copy.id].startedAt == s.alerts[copy.id].startedAt
            && (s'.alerts[copy.id].status == s.alerts[copy.id].status || s'.alerts[copy.id].status == Firing))
  {
    TurnAlerts(s, cfg, copy, now, env);
  }

  /** A turn, however old its copy, keeps the invariant and never revives a resolved alert. */
  lemma TurnKeeps(s: State, cfg: Config, copy: Alert, now: int, env: Surroundings)
    requires Inv(s) && CopyOf(s, copy)
    ensures Inv(Turn(s, cfg, copy, now, env))
    ensures PhasesAgree(s) && s.alerts[copy.id].status == Firing ==> PhasesAgree(Turn(s, cfg, copy, now, env))
  {
    var move := Choose(s, cfg, copy, now);
    if !move.Idle? {
      var st := Moved(s.escalation[copy.id], move, now);
      var org := cfg.monitors[copy.monitorID].orgID;
      if move.Retry? {
        RetryKeeps(s, copy, st, org, now, env);
      } else {
        var e := Event(copy.id, Escalated, "", "");
        var copy' := copy.(currentStep := move.step.id);
        EscalatedKeeps(s, e);
        EscalateKeeps(Log(s, e), copy.id, copy', st, org, now, env);
        assert Upsert(UpdateRow(Log(s, e), copy'), copy.id, st) == Log(UpdateRow(Upsert(s, copy.id, st), copy'), e);
      }
    }
  }

  /** An escalation entry keeps the invariant; it keeps the phases only of a firing alert. */
  lemma EscalatedKeeps(s: State, e: Event)
    requires Inv(s) && Unresolved(s, e.alertID) && e.kind == Escalated
    ensures Inv(Log(s, e))
    ensures PhasesAgree(s) && s.alerts[e.alertID].status == Firing ==> PhasesAgree(Log(s, e))
  {
    LogMoves(s, e);
    LogKeepsRows(s, e);
  }

  lemma RetryKeeps(s: State, copy: Alert, st: EscState, org: string, now: int, env: Surroundings)
    requires Inv(s) && CopyOf(s, copy) && copy.id in s.escalation
    requires st.currentStepID == s.escalation[copy.id].currentStepID
    ensures var s' := Notify(Upsert(s, copy.id, st), copy, org, st, now, env);
      && Inv(s')
      && (PhasesAgree(s) && s.alerts[copy.id].status == Firing ==> PhasesAgree(s'))
      && (PhasesAgree(s) && RoundJobs(copy, org, st.currentStepID, env) == [] ==> PhasesAgree(s'))
  {
    assert Unresolved(s, copy.id);
    assert LoosePhase(Timeline(s.events, copy.id)) == Live;
    RetryRows(s, copy, st, org, now, env);
    var s' := Notify(Upsert(s, copy.id, st), copy, org, st, now, env);
    RewriteKeepsGauge(s, s', copy.id);
    RewriteKeepsRows(s, s', copy.id);
  }

  /** A retry touches the alert's own escalation row and its timeline. */
  lemma RetryRows(s: State, copy: Alert, st: EscState, org: string, now: int, env: Surroundings)
    requires LoosePhase(Timeline(s.events, copy.id)) == Live && copy.id in s.escalation
    requires st.currentStepID == s.escalation[copy.id].currentStepID
    ensures var s' := Notify(Upsert(s, copy.id, st), copy, org, st, now, env);
      && s'.alerts == s.alerts && s'.gauge == s.gauge && s'.escalation.Keys == s.escalation.Keys
      && (forall id :: id in s.escalation ==> s'.escalation[id].currentStepID == s.escalation[id].currentStepID)
      && (forall id :: LoosePhase(Timeline(s'.events, id)) == LoosePhase(Timeline(s.events, id)))
      && (PhaseOf(Timeline(s.events, copy.id)) == Live || RoundJobs(copy, org, st.currentStepID, env) == [] ==>
            forall id :: PhaseOf(Timeline(s'.events, id)) == PhaseOf(Timeline(s.events, id)))
  {
    NotifyKeeps(Upsert(s, copy.id, st), copy, org, st, now, env);
  }
}
