/**
 * The theorems about whole runs of the engine: what every interleaving guarantees, what
 * only runs without stale turns guarantee, and exactly what a stale turn can undo.
 */
module EscalationSafety {
  import opened Common
  import opened Escalation
  import opened EscalationInvariants

  function Start(cfg: Config): World {
    World(Empty, cfg, {})
  }

  /** Rows are never deleted, and their fixed columns never change. */
  ghost predicate RowsPersist(s: State, s': State) {
    forall id :: id in s.alerts ==>
      && id in s'.alerts
      && s'.alerts[id].monitorID == s.alerts[id].monitorID
      && s'.alerts[id].orgID == s.alerts[id].orgID
      && s'.alerts[id].startedAt == s.alerts[id].startedAt
  }

  lemma StepKeepsRows(w: World, op: Op)
    requires RowsSound(w.db)
    ensures RowsPersist(w.db, Next(w, op).db)
  {
    match op
    case DoTrigger(m, status, error, id, now, env) =>
      if Enabled(w, op) {
        TriggerRows(w.db, w.cfg, m, status, error, id, now, env);
      }
    case DoRecover(m, now) => RecoverRows(w.db, m, now);
    case DoAck(id, user, channel, now) => AcknowledgeRows(w.db, id, user, channel, now);
    case DoList =>
    case DoTurn(copy, now, env) => TurnRows(w.db, w.cfg, copy, now, env);
    case DoConfigure(_) =>
  }

  lemma RecoverRows(s: State, m: string, now: int)
    ensures RowsPersist(s, Recover(s, m, now))
  {
  }

  lemma AcknowledgeRows(s: State, id: string, user: string, channel: string, now: int)
    ensures RowsPersist(s, Acknowledge(s, id, user, channel, now))
  {
  }

  lemma TurnRows(s: State, cfg: Config, copy: Alert, now: int, env: Surroundings)
    ensures RowsPersist(s, Turn(s, cfg, copy, now, env))
  {
    TurnAlerts(s, cfg, copy, now, env);
  }

  /** A trigger without an active alert adds exactly one row, firing, for its monitor. */
  lemma TriggerAddsRow(s: State, cfg: Config, m: string, status: CheckStatus, error: string, newID: string,
                       now: int, env: Surroundings) returns (a: Alert)
    requires m in cfg.monitors && newID !in s.alerts && ActiveOf(s, m).None?
    ensures Trigger(s, cfg, m, status, error, newID, now, env).alerts == s.alerts[newID := a]
    ensures a == NewAlert(cfg.monitors[m], m, status, error, newID, now).(currentStep := a.currentStep)
  {
    var inserted := NewAlert(cfg.monitors[m], m, status, error, newID, now);
    var s1 := Opened(s, inserted);
    a := Trigger(s, cfg, m, status, error, newID, now, env).alerts[newID];
    assert s1.alerts == s.alerts[newID := inserted];
  }

  lemma TriggerRows(s: State, cfg: Config, m: string, status: CheckStatus, error: string, newID: string,
                    now: int, env: Surroundings)
    requires RowsSound(s) && newID !in s.alerts
    ensures RowsPersist(s, Trigger(s, cfg, m, status, error, newID, now, env))
  {
    if m in cfg.monitors && ActiveOf(s, m).None? {
      var a := TriggerAddsRow(s, cfg, m, status, error, newID, now, env);
    }
  }

  lemma StepKeepsDb(w: World, op: Op)
    requires WorldInv(w)
    ensures Inv(Next(w, op).db)
  {
    if Enabled(w, op) {
      match op
      case DoTrigger(m, status, error, id, now, env) => TriggerKeeps(w.db, w.cfg, m, status, error, id, now, env);
      case DoRecover(m, now) =>
        if ActiveOf(w.db, m).Some? {
          ResolveKeeps(w.db, ActiveOf(w.db, m).value, now);
        }
      case DoAck(id, user, channel, now) => AcknowledgeKeeps(w.db, id, user, channel, now);
      case DoList =>
      case DoTurn(copy, now, env) => TurnKeeps(w.db, w.cfg, copy, now, env);
      case DoConfigure(_) =>
    }
  }

  lemma StepKeepsInv(w: World, op: Op)
    requires WorldInv(w)
    ensures WorldInv(Next(w, op))
  {
    StepKeepsDb(w, op);
    StepKeepsRows(w, op);
    var w' := Next(w, op);
    forall c | c in w'.copies ensures CopyOf(w'.db, c) {
      if c in w.copies {
        assert CopyOf(w.db, c);
      }
    }
  }

  /**
   * Every interleaving of triggers, recoveries, acknowledgements, listings, turns on copies of any
   * age, and edits of the configuration keeps: at most one unresolved alert per monitor, escalation
   * rows only for unresolved alerts and naming their own current step, the gauge of every
   * organisation equal to the number of its unresolved alerts, and timelines that begin with their
   * only trigger and end with their only resolution.
   */
  lemma {:induction false} EveryRunIsSafe(cfg: Config, ops: seq<Op>)
    ensures WorldInv(Run(Start(cfg), ops))
  {
    if ops == [] {
      forall org ensures GaugeOf(Empty.gauge, org) == |UnresolvedOf(Empty, org)| {
        assert UnresolvedOf(Empty, org) == {};
      }
    } else {
      EveryRunIsSafe(cfg, ops[..|ops| - 1]);
      StepKeepsInv(Run(Start(cfg), ops[..|ops| - 1]), ops[|ops| - 1]);
    }
  }

  // ---------- What a stale turn can undo ----------

  lemma {:induction false} BrokenStays(before: seq<Event>, jobs: seq<Job>, id: string)
    requires forall j :: j in jobs ==> j.alertID == id
    requires PhaseOf(Timeline(before, id)) == Broken || (PhaseOf(Timeline(before, id)) == Acked && jobs != [])
    ensures PhaseOf(Timeline(before + NotifiedEvents(jobs), id)) == Broken
  {
    if jobs == [] {
      assert before + NotifiedEvents(jobs) == before;
    } else {
      var n := |jobs| - 1;
      var so := before + NotifiedEvents(jobs[..n]);
      var e := NotifiedEvents(jobs)[n];
      if n == 0 {
        assert so == before;
      } else {
        BrokenStays(before, jobs[..n], id);
      }
      NotifiedSnoc(before, jobs);
      TimelineSnoc(so, e, id);
      PhaseSnoc(Timeline(so, id), e.kind);
    }
  }

  /** A turn that leaves the alert's timeline and row alone: it does nothing, or retries without a single job. */
  predicate SilentTurn(s: State, cfg: Config, copy: Alert, now: int, env: Surroundings) {
    match Choose(s, cfg, copy, now)
    case Idle => true
    case Retry(step) => RoundJobs(copy, cfg.monitors[copy.monitorID].orgID, step.id, env) == []
    case _ => false
  }

  /** The log after a turn that does something. */
  lemma TurnEvents(s: State, cfg: Config, copy: Alert, now: int, env: Surroundings)
    requires !Choose(s, cfg, copy, now).Idle?
    ensures var move := Choose(s, cfg, copy, now);
      var jobs := RoundJobs(copy, cfg.monitors[copy.monitorID].orgID, Moved(s.escalation[copy.id], move, now).currentStepID, env);
      Turn(s, cfg, copy, now, env).events ==
        (if move.Retry? then s else Log(s, Event(copy.id, Escalated, "", ""))).events + NotifiedEvents(jobs)
  {
    assert NotifiedEvents([]) == [];
  }

  lemma LoudTurnBreaks(s: State, cfg: Config, copy: Alert, now: int, env: Surroundings)
    requires PhaseOf(Timeline(s.events, copy.id)) == Acked
    requires !SilentTurn(s, cfg, copy, now, env)
    ensures PhaseOf(Timeline(Turn(s, cfg, copy, now, env).events, copy.id)) == Broken
  {
    TurnEvents(s, cfg, copy, now, env);
    var move := Choose(s, cfg, copy, now);
    var stepID := Moved(s.escalation[copy.id], move, now).currentStepID;
    var org := cfg.monitors[copy.monitorID].orgID;
    RoundJobsBelong(copy, org, stepID, env);
    var jobs := RoundJobs(copy, org, stepID, env);
    if move.Retry? {
      assert stepID == move.step.id;
      BrokenStays(s.events, jobs, copy.id);
    } else {
      EscalatedBreaks(s, copy.id, jobs);
    }
  }

  lemma EscalatedBreaks(s: State, id: string, jobs: seq<Job>)
    requires PhaseOf(Timeline(s.events, id)) == Acked && forall j :: j in jobs ==> j.alertID == id
    ensures PhaseOf(Timeline(Log(s, Event(id, Escalated, "", "")).events + NotifiedEvents(jobs), id)) == Broken
  {
    var e := Event(id, Escalated, "", "");
    LogMoves(s, e);
    BrokenStays(Log(s, e).events, jobs, id);
  }

  lemma SilentTurnKeeps(s: State, cfg: Config, copy: Alert, now: int, env: Surroundings)
    requires Inv(s) && PhasesAgree(s) && CopyOf(s, copy) && SilentTurn(s, cfg, copy, now, env)
    ensures PhasesAgree(Turn(s, cfg, copy, now, env))
  {
    var move := Choose(s, cfg, copy, now);
    if move.Retry? {
      var st := Moved(s.escalation[copy.id], move, now);
      assert move.step.id == st.currentStepID;
      RetryKeeps(s, copy, st, cfg.monitors[copy.monitorID].orgID, now, env);
    }
  }

  /** Exactly when a turn keeps statuses and timelines in step: the stored row still fires, or the turn is silent. */
  lemma TurnKeepsPhasesExactly(s: State, cfg: Config, copy: Alert, now: int, env: Surroundings)
    requires Inv(s) && PhasesAgree(s) && CopyOf(s, copy)
    ensures PhasesAgree(Turn(s, cfg, copy, now, env))
            <==> s.alerts[copy.id].status == Firing || SilentTurn(s, cfg, copy, now, env)
  {
    TurnKeeps(s, cfg, copy, now, env);
    if s.alerts[copy.id].status != Firing {
      if SilentTurn(s, cfg, copy, now, env) {
        SilentTurnKeeps(s, cfg, copy, now, env);
      } else {
        assert Unresolved(s, copy.id);
        LoudTurnBreaks(s, cfg, copy, now, env);
      }
    }
  }

  // ---------- Exactly which runs keep the language ----------

  /** The alert's stored row is still firing when its turn comes, or the turn is silent. */
  predicate QuietTurn(w: World, op: Op) {
    op.DoTurn? && op.copy in w.copies ==>
      && op.copy.id in w.db.alerts
      && (w.db.alerts[op.copy.id].status == Firing || SilentTurn(w.db, w.cfg, op.copy, op.now, op.env))
  }

  /** Every turn of the run is quiet when it comes. */
  ghost predicate QuietRun(w: World, ops: seq<Op>) {
    ops != [] ==>
      var before := ops[..|ops| - 1];
      QuietRun(w, before) && QuietTurn(Run(w, before), ops[|ops| - 1])
  }

  /** Every alert's timeline reads triggered (escalated|notified)* ack* resolved?. */
  ghost predicate InLanguage(s: State) {
    forall id :: id in s.alerts ==> WellFormed(Timeline(s.events, id))
  }

  lemma StepKeepsPhases(w: World, op: Op)
    requires WorldInv(w) && PhasesAgree(w.db) && QuietTurn(w, op)
    ensures PhasesAgree(Next(w, op).db)
  {
    if Enabled(w, op) {
      match op
      case DoTrigger(m, status, error, id, now, env) => TriggerKeeps(w.db, w.cfg, m, status, error, id, now, env);
      case DoRecover(m, now) =>
        if ActiveOf(w.db, m).Some? {
          ResolveKeeps(w.db, ActiveOf(w.db, m).value, now);
        }
      case DoAck(id, user, channel, now) => AcknowledgeKeeps(w.db, id, user, channel, now);
      case DoList =>
      case DoTurn(copy, now, env) =>
        assert CopyOf(w.db, copy);
        TurnKeepsPhasesExactly(w.db, w.cfg, copy, now, env);
      case DoConfigure(_) =>
    }
  }

  lemma PhasesInLanguage(s: State)
    requires PhasesAgree(s)
    ensures InLanguage(s)
  {
    forall id | id in s.alerts ensures WellFormed(Timeline(s.events, id)) {
      PhaseIsLanguage(Timeline(s.events, id));
    }
  }

  lemma {:induction false} BrokenForever(t: seq<EventKind>, u: seq<EventKind>)
    requires PhaseOf(t) == Broken
    ensures PhaseOf(t + u) == Broken
  {
    if u == [] {
      assert t + u == t;
    } else {
      BrokenForever(t, u[..|u| - 1]);
      assert (t + u)[..|t + u| - 1] == t + u[..|u| - 1];
    }
  }

  /** The log only grows. */
  lemma StepAppends(w: World, op: Op)
    ensures w.db.events <= Next(w, op).db.events
  {
    if Enabled(w, op) && op.DoTurn? && !Choose(w.db, w.cfg, op.copy, op.now).Idle? {
      TurnEvents(w.db, w.cfg, op.copy, op.now, op.env);
    }
  }

  /** What has left the language never returns to it. */
  lemma LeftForGood(s: State, s': State, id: string)
    requires s.events <= s'.events && PhaseOf(Timeline(s.events, id)) == Broken
    ensures PhaseOf(Timeline(s'.events, id)) == Broken
  {
    var more := s'.events[|s.events|..];
    assert s'.events == s.events + more;
    TimelineConcat(s.events, more, id);
    BrokenForever(Timeline(s.events, id), Timeline(more, id));
  }

  /** A stored alert's timeline is in the language unless it is broken. */
  lemma StoredIsNotFresh(s: State, id: string)
    requires Inv(s) && id in s.alerts
    ensures WellFormed(Timeline(s.events, id)) <==> PhaseOf(Timeline(s.events, id)) != Broken
  {
    var t := Timeline(s.events, id);
    assert t != [];
    PhaseIsLanguage(t);
  }

  /** If the language holds after a step, it held before. */
  lemma LanguageHeldBefore(w: World, op: Op)
    requires WorldInv(w) && InLanguage(Next(w, op).db)
    ensures InLanguage(w.db)
  {
    StepAppends(w, op);
    StepKeepsRows(w, op);
    StepKeepsDb(w, op);
    var s' := Next(w, op).db;
    forall id | id in w.db.alerts ensures WellFormed(Timeline(w.db.events, id)) {
      StoredIsNotFresh(w.db, id);
      StoredIsNotFresh(s', id);
      if PhaseOf(Timeline(w.db.events, id)) == Broken {
        LeftForGood(w.db, s', id);
      }
    }
  }

  /** A turn that is not quiet takes its alert's timeline out of the language. */
  lemma UnquietLeaves(w: World, op: Op)
    requires WorldInv(w) && PhasesAgree(w.db) && !QuietTurn(w, op)
    ensures !InLanguage(Next(w, op).db)
  {
    var id := op.copy.id;
    assert CopyOf(w.db, op.copy);
    assert id in w.db.escalation ==> Unresolved(w.db, id);
    LoudTurnBreaks(w.db, w.cfg, op.copy, op.now, op.env);
    StepKeepsRows(w, op);
    PhaseIsLanguage(Timeline(Next(w, op).db.events, id));
  }

  /** In a run of quiet turns every stored status is where its timeline stands. */
  lemma {:induction false} QuietRunsKeepPhases(cfg: Config, ops: seq<Op>)
    requires QuietRun(Start(cfg), ops)
    ensures PhasesAgree(Run(Start(cfg), ops).db)
  {
    if ops != [] {
      QuietRunsKeepPhases(cfg, ops[..|ops| - 1]);
      EveryRunIsSafe(cfg, ops[..|ops| - 1]);
      StepKeepsPhases(Run(Start(cfg), ops[..|ops| - 1]), ops[|ops| - 1]);
    }
  }

  /**
   * After a run every alert's timeline reads triggered (escalated|notified)* ack* resolved? if and only if every
   * turn of the run was quiet: its alert's stored row was still firing, or it did nothing or retried without a job.
   */
  lemma {:induction false} LanguageExactly(cfg: Config, ops: seq<Op>)
    ensures InLanguage(Run(Start(cfg), ops).db) <==> QuietRun(Start(cfg), ops)
  {
    if QuietRun(Start(cfg), ops) {
      QuietRunsKeepPhases(cfg, ops);
      PhasesInLanguage(Run(Start(cfg), ops).db);
    }
    if ops != [] && InLanguage(Run(Start(cfg), ops).db) {
      var before := ops[..|ops| - 1];
      var w := Run(Start(cfg), before);
      EveryRunIsSafe(cfg, before);
      LanguageHeldBefore(w, ops[|ops| - 1]);
      LanguageExactly(cfg, before);
      QuietRunsKeepPhases(cfg, before);
      if !QuietTurn(w, ops[|ops| - 1]) {
        UnquietLeaves(w, ops[|ops| - 1]);
      }
    }
  }

  /** An acknowledgement is undone by exactly the turns that move a stale copy to another step. */
  lemma TurnUndoesAckExactly(s: State, cfg: Config, copy: Alert, now: int, env: Surroundings)
    requires Inv(s) && CopyOf(s, copy) && s.alerts[copy.id].status == Acknowledged
    ensures var move := Choose(s, cfg, copy, now);
      Turn(s, cfg, copy, now, env).alerts[copy.id].status == (if move.Advance? || move.Restart? then Firing else Acknowledged)
  {
    TurnAlerts(s, cfg, copy, now, env);
  }

  // A run in which an acknowledged alert fires again: triggered, listed, acknowledged, then its turn.

  const Quiet := Surroundings(true, None)
  const TwoSteps := [Step("s0", 0, 60, 0), Step("s1", 1, 60, 0)]
  const OnePolicy :=
    Config(map["m" := Monitor("o", "", "", "p", false, false)], map["p" := Policy(false, None)], map["p" := TwoSteps])
  const Listed := Alert("a", "m", "o", Firing, "critical", "", 0, None, "", None, "s0")
  const Opening := DoTrigger("m", Down, "", "a", 0, Quiet)
  const Acking := DoAck("a", "u", "slack", 10)
  const StaleTurn := DoTurn(Listed, 60, Quiet)

  lemma ScenarioOpens()
    ensures var db := Next(Start(OnePolicy), Opening).db;
      && db.alerts == map["a" := Listed]
      && db.escalation == map["a" := EscState("s0", 0, 0, None, 0)]
      && db.events == [Event("a", Triggered, "", "")]
  {
    assert forall id :: !ActiveFor(Empty, id, "m");
    assert OnePolicy.monitors["m"].policyID != "";
  }

  lemma ScenarioTurns(s: State)
    requires s.escalation == map["a" := EscState("s0", 0, 0, None, 0)]
    ensures Choose(s, OnePolicy, Listed, 60) == Advance(TwoSteps[1])
  {
    assert OnePolicy.monitors["m"].policyID != "";
    assert FindStep(TwoSteps, "s0") == Some(0);
    assert NextStep(TwoSteps, 0) == Some(TwoSteps[1]);
  }

  lemma ThreeEvents(events: seq<Event>)
    requires |events| == 3 && forall e :: e in events ==> e.alertID == "a"
    ensures Timeline(events, "a") == [events[0].kind, events[1].kind, events[2].kind]
  {
    assert events == [] + [events[0]] + [events[1]] + [events[2]];
    TimelineSnoc([], events[0], "a");
    TimelineSnoc([] + [events[0]], events[1], "a");
    TimelineSnoc([] + [events[0]] + [events[1]], events[2], "a");
  }

  lemma ScenarioAcks(s: State)
    requires s.alerts == map["a" := Listed]
    ensures var s' := Acknowledge(s, "a", "u", "slack", 10);
      && s'.alerts.Keys == {"a"} && s'.alerts["a"].status == Acknowledged
      && s'.escalation == s.escalation
      && s'.events == s.events + [Event("a", Ack, "slack", "u")]
  {
  }

  lemma ScenarioFires(s: State)
    requires s.escalation == map["a" := EscState("s0", 0, 0, None, 0)]
    requires s.alerts.Keys == {"a"} && s.alerts["a"].status == Acknowledged
    ensures var s' := Turn(s, OnePolicy, Listed, 60, Quiet);
      && "a" in s'.alerts && s'.alerts["a"].status == Firing
      && s'.events == s.events + [Event("a", Escalated, "", "")]
  {
    ScenarioTurns(s);
  }

  lemma NotWellFormed(t: seq<EventKind>)
    requires t == [Triggered, Ack, Escalated]
    ensures !WellFormed(t)
  {
    forall i: nat, j: nat ensures !Shape(t, i, j) {
      assert t[2] == Escalated && t[1] == Ack;
    }
  }

  lemma ScenarioEnds(w: World)
    requires w.cfg == OnePolicy && Listed in w.copies
    requires w.db.escalation == map["a" := EscState("s0", 0, 0, None, 0)]
    requires w.db.alerts.Keys == {"a"} && w.db.alerts["a"].status == Acknowledged
    requires w.db.events == [Event("a", Triggered, "", "")] + [Event("a", Ack, "slack", "u")]
    ensures var w' := Next(w, StaleTurn);
      && "a" in w'.db.alerts && w'.db.alerts["a"].status == Firing
      && Timeline(w'.db.events, "a") == [Triggered, Ack, Escalated]
      && !WellFormed(Timeline(w'.db.events, "a"))
  {
    ScenarioFires(w.db);
    var w' := Next(w, StaleTurn);
    assert w'.db == Turn(w.db, OnePolicy, Listed, 60, Quiet);
    ThreeEvents(w'.db.events);
    NotWellFormed(Timeline(w'.db.events, "a"));
  }

  lemma StaleTurnUndoesAck()
    ensures var w := Run(Start(OnePolicy), [Opening, DoList, Acking, StaleTurn]);
      && "a" in w.db.alerts && w.db.alerts["a"].status == Firing
      && Timeline(w.db.events, "a") == [Triggered, Ack, Escalated]
      && !WellFormed(Timeline(w.db.events, "a"))
  {
    RunOfFour(Start(OnePolicy), Opening, DoList, Acking, StaleTurn);
    ScenarioOpens();
    var w1 := Next(Start(OnePolicy), Opening);
    var w2 := Next(w1, DoList);
    assert w1.db.alerts["a"] == Listed;
    assert Listed in w2.copies;
    ScenarioAcks(w2.db);
    ScenarioEnds(Next(w2, Acking));
  }

  lemma RunSnoc(w: World, ops: seq<Op>, op: Op)
    ensures Run(w, ops + [op]) == Next(Run(w, ops), op)
  {
    assert (ops + [op])[..|ops + [op]| - 1] == ops;
  }

  lemma RunOfFour(w: World, a: Op, b: Op, c: Op, d: Op)
    ensures Run(w, [a, b, c, d]) == Next(Next(Next(Next(w, a), b), c), d)
  {
    assert [a, b, c, d] == [] + [a] + [b] + [c] + [d];
    RunSnoc(w, [] + [a] + [b] + [c], d);
    RunSnoc(w, [] + [a] + [b], c);
    RunSnoc(w, [] + [a], b);
    RunSnoc(w, [], a);
  }

  // ---------- Resolution is final ----------

  lemma TriggerElsewhere(s: State, cfg: Config, m: string, status: CheckStatus, error: string, newID: string,
                         now: int, env: Surroundings, id: string)
    requires id != newID
    ensures Timeline(Trigger(s, cfg, m, status, error, newID, now, env).events, id) == Timeline(s.events, id)
  {
    if m in cfg.monitors && ActiveOf(s, m).None? {
      var a := NewAlert(cfg.monitors[m], m, status, error, newID, now);
      LogMoves(s, Event(newID, Triggered, "", ""));
      var steps := cfg.StepsOf(cfg.monitors[m].policyID);
      if steps != [] {
        NotifyElsewhere(Opened(s, a).events, a.(currentStep := steps[0].id), cfg.monitors[m].orgID, steps[0].id, env, id);
      }
    }
  }

  lemma TurnElsewhere(s: State, cfg: Config, copy: Alert, now: int, env: Surroundings, id: string)
    requires id != copy.id
    ensures Timeline(Turn(s, cfg, copy, now, env).events, id) == Timeline(s.events, id)
  {
    var move := Choose(s, cfg, copy, now);
    if !move.Idle? {
      var st := Moved(s.escalation[copy.id], move, now);
      var org := cfg.monitors[copy.monitorID].orgID;
      if move.Retry? {
        NotifyElsewhere(s.events, copy, org, st.currentStepID, env, id);
      } else {
        var e := Event(copy.id, Escalated, "", "");
        LogMoves(s, e);
        NotifyElsewhere(Log(s, e).events, copy.(currentStep := move.step.id), org, st.currentStepID, env, id);
      }
    }
  }

  lemma StepKeepsResolvedTimeline(w: World, op: Op, id: string)
    requires WorldInv(w) && id in w.db.alerts && w.db.alerts[id].status == Resolved
    ensures Timeline(Next(w, op).db.events, id) == Timeline(w.db.events, id)
  {
    var s := w.db;
    if Enabled(w, op) {
      match op
      case DoTrigger(m, status, error, newID, now, env) => TriggerElsewhere(s, w.cfg, m, status, error, newID, now, env, id);
      case DoRecover(m, now) =>
        if ActiveOf(s, m).Some? {
          LogMoves(s, Event(ActiveOf(s, m).value, ResolvedEvent, "", ""));
        }
      case DoAck(other, user, channel, now) => LogMoves(s, Event(other, Ack, channel, user));
      case DoList =>
      case DoTurn(copy, now, env) =>
        if copy.id != id {
          TurnElsewhere(s, w.cfg, copy, now, env, id);
        } else {
          assert id in s.escalation ==> Unresolved(s, id);
        }
      case DoConfigure(_) =>
    }
  }

  lemma TriggerKeepsRow(s: State, cfg: Config, m: string, status: CheckStatus, error: string, newID: string,
                        now: int, env: Surroundings, id: string)
    requires id in s.alerts && newID !in s.alerts
    ensures var s' := Trigger(s, cfg, m, status, error, newID, now, env); id in s'.alerts && s'.alerts[id] == s.alerts[id]
  {
    if m in cfg.monitors && ActiveOf(s, m).None? {
      var a := TriggerAddsRow(s, cfg, m, status, error, newID, now, env);
    }
  }

  lemma StepKeepsResolvedRow(w: World, op: Op, id: string)
    requires WorldInv(w) && id in w.db.alerts && w.db.alerts[id].status == Resolved
    ensures id in Next(w, op).db.alerts && Next(w, op).db.alerts[id] == w.db.alerts[id]
  {
    if Enabled(w, op) {
      match op
      case DoTrigger(m, status, error, newID, now, env) =>
        TriggerKeepsRow(w.db, w.cfg, m, status, error, newID, now, env, id);
      case DoRecover(m, now) =>
      case DoAck(_, _, _, _) =>
      case DoList =>
      case DoTurn(copy, now, env) =>
        assert CopyOf(w.db, copy);
        assert id in w.db.escalation ==> Unresolved(w.db, id);
        TurnStatuses(w.db, w.cfg, copy, now, env);
      case DoConfigure(_) =>
    }
  }

  /** A round of one alert adds nothing to the timeline of another. */
  lemma NotifyElsewhere(before: seq<Event>, a: Alert, org: string, stepID: string, env: Surroundings, id: string)
    requires id != a.id
    ensures Timeline(before + NotifiedEvents(RoundJobs(a, org, stepID, env)), id) == Timeline(before, id)
  {
    RoundJobsBelong(a, org, stepID, env);
    var jobs := RoundJobs(a, org, stepID, env);
    ForeignEvents(NotifiedEvents(jobs), id);
    TimelineConcat(before, NotifiedEvents(jobs), id);
  }

  lemma {:induction false} ForeignEvents(events: seq<Event>, id: string)
    requires forall e :: e in events ==> e.alertID != id
    ensures Timeline(events, id) == []
  {
    if events != [] {
      ForeignEvents(events[..|events| - 1], id);
    }
  }

  lemma {:induction false} RunInv(w: World, ops: seq<Op>)
    requires WorldInv(w)
    ensures WorldInv(Run(w, ops))
  {
    if ops != [] {
      RunInv(w, ops[..|ops| - 1]);
      StepKeepsInv(Run(w, ops[..|ops| - 1]), ops[|ops| - 1]);
    }
  }

  /** Whatever runs afterwards, stale turns included, a resolved alert keeps its row and its timeline. */
  lemma {:induction false} ResolvedIsFinal(w: World, ops: seq<Op>, id: string)
    requires WorldInv(w) && id in w.db.alerts && w.db.alerts[id].status == Resolved
    ensures var db := Run(w, ops).db;
      && id in db.alerts && db.alerts[id] == w.db.alerts[id]
      && Timeline(db.events, id) == Timeline(w.db.events, id)
  {
    if ops != [] {
      var before := ops[..|ops| - 1];
      ResolvedIsFinal(w, before, id);
      RunInv(w, before);
      StepKeepsResolvedRow(Run(w, before), ops[|ops| - 1], id);
      StepKeepsResolvedTimeline(Run(w, before), ops[|ops| - 1], id);
    }
  }
}
