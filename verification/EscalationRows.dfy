/**
 * What is stored of an alert: the columns it is opened with and keeps for good, and what each later write changes.
 */
module EscalationRows {
  import opened Common
  import opened Escalation
  import opened EscalationInvariants
  import opened EscalationSafety

  // ---------- Opening ----------

  /** The columns fixed when the alert is opened. */
  predicate SameOpening(a: Alert, b: Alert) {
    && a.id == b.id && a.monitorID == b.monitorID && a.orgID == b.orgID
    && a.severity == b.severity && a.error == b.error && a.startedAt == b.startedAt
  }

  /**
   * The row is the one this trigger opens under the given configuration: a degraded result has the monitor's
   * degraded severity or else "warning", any other its down severity or else "critical".
   */
  predicate OpenedBy(row: Alert, cfg: Config, op: Op) {
    && op.DoTrigger? && op.monitorID in cfg.monitors
    && row.id == op.id && row.monitorID == op.monitorID && row.orgID == cfg.monitors[op.monitorID].orgID
    && row.error == op.error && row.startedAt == op.now
    && var mon := cfg.monitors[op.monitorID];
       (op.status == Degraded ==> row.severity == if mon.degradedSeverity == "" then "warning" else mon.degradedSeverity)
       && (op.status != Degraded ==> row.severity == if mon.downSeverity == "" then "critical" else mon.downSeverity)
  }

  /** A trigger for a known monitor without an unresolved alert adds this one row; any other changes nothing. */
  lemma OpenedRow(s: State, cfg: Config, m: string, status: CheckStatus, error: string, id: string, now: int, env: Surroundings)
    requires id !in s.alerts
    ensures var s' := Trigger(s, cfg, m, status, error, id, now, env);
      if m !in cfg.monitors || (exists other :: ActiveFor(s, other, m)) then s' == s
      else
        && s'.alerts.Keys == s.alerts.Keys + {id}
        && (forall other :: other in s.alerts ==> s'.alerts[other] == s.alerts[other])
        && OpenedBy(s'.alerts[id], cfg, DoTrigger(m, status, error, id, now, env))
        && s'.alerts[id].status == Firing
        && s'.alerts[id].acknowledgedAt == None && s'.alerts[id].acknowledgedBy == "" && s'.alerts[id].resolvedAt == None
  {
    if m in cfg.monitors && ActiveOf(s, m).None? {
      var a := TriggerAddsRow(s, cfg, m, status, error, id, now, env);
      NewRowOpened(cfg, m, status, error, id, now, env, a.currentStep);
    }
  }

  lemma NewRowOpened(cfg: Config, m: string, status: CheckStatus, error: string, id: string, now: int, env: Surroundings, step: string)
    requires m in cfg.monitors
    ensures var a := NewAlert(cfg.monitors[m], m, status, error, id, now).(currentStep := step);
      && OpenedBy(a, cfg, DoTrigger(m, status, error, id, now, env))
      && a.status == Firing && a.acknowledgedAt == None && a.acknowledgedBy == "" && a.resolvedAt == None
  {
  }

  /** The new alert enters its policy's first step, unless its monitor is muted or has no policy with steps. */
  lemma FirstStepEntered(s: State, cfg: Config, m: string, status: CheckStatus, error: string, id: string, now: int, env: Surroundings)
    requires id !in s.alerts && m in cfg.monitors && forall other :: !ActiveFor(s, other, m)
    ensures var s' := Trigger(s, cfg, m, status, error, id, now, env);
      var mon := cfg.monitors[m]; var steps := cfg.StepsOf(mon.policyID);
      && id in s'.alerts
      && if mon.muted || mon.policyID == "" || steps == [] then s'.alerts[id].currentStep == "" && s'.escalation == s.escalation
         else
           && s'.alerts[id].currentStep == steps[0].id
           && id in s'.escalation && s'.escalation == s.escalation[id := s'.escalation[id]]
           && s'.escalation[id].(lastNotifiedAt := None) == EscState(steps[0].id, now, 0, None, 0)
           && s'.escalation[id].lastNotifiedAt == if env.suppressed || env.targets.None? then None else Some(now)
  {
  }

  // ---------- Later writes ----------

  /** An acknowledgement writes status, time and user of an unresolved alert, and logs channel and user; nothing else. */
  lemma AcknowledgedRow(s: State, id: string, user: string, channel: string, now: int)
    ensures var s' := Acknowledge(s, id, user, channel, now);
      if !Unresolved(s, id) then s' == s
      else
        && s'.alerts.Keys == s.alerts.Keys && (forall other :: other in s.alerts && other != id ==> s'.alerts[other] == s.alerts[other])
        && SameOpening(s'.alerts[id], s.alerts[id])
        && s'.alerts[id].status == Acknowledged && s'.alerts[id].acknowledgedAt == Some(now) && s'.alerts[id].acknowledgedBy == user
        && s'.alerts[id].resolvedAt == s.alerts[id].resolvedAt && s'.alerts[id].currentStep == s.alerts[id].currentStep
        && s'.events == s.events + [Event(id, Ack, channel, user)]
        && s'.escalation == s.escalation && s'.outbox == s.outbox && s'.gauge == s.gauge
  {
  }

  /** A recovery writes status and time of the monitor's unresolved alert, drops its escalation row and logs it; nothing else. */
  lemma RecoveredRow(s: State, m: string, now: int, id: string)
    requires UniqueActive(s) && ActiveFor(s, id, m)
    ensures var s' := Recover(s, m, now);
      && s'.alerts.Keys == s.alerts.Keys && (forall other :: other in s.alerts && other != id ==> s'.alerts[other] == s.alerts[other])
      && SameOpening(s'.alerts[id], s.alerts[id])
      && s'.alerts[id].status == Resolved && s'.alerts[id].resolvedAt == Some(now)
      && s'.alerts[id].acknowledgedAt == s.alerts[id].acknowledgedAt
      && s'.alerts[id].acknowledgedBy == s.alerts[id].acknowledgedBy && s'.alerts[id].currentStep == s.alerts[id].currentStep
      && s'.events == s.events + [Event(id, ResolvedEvent, "", "")]
      && s'.escalation == s.escalation - {id} && s'.outbox == s.outbox
  {
    assert ActiveOf(s, m) == Some(id);
  }

  /** The step an escalation row stands on: the first of the policy with its id. */
  predicate StandsAt(steps: seq<Step>, i: nat, id: string) {
    i < |steps| && steps[i].id == id && forall j :: 0 <= j < i ==> steps[j].id != id
  }

  /** After its wait a row standing on step i has more to do: a repeat, a later step, or another pass. */
  ghost predicate MoreToDo(cfg: Config, policyID: string, i: nat, st: EscState)
    requires i < |cfg.StepsOf(policyID)|
  {
    var steps := cfg.StepsOf(policyID);
    || st.retryCount < steps[i].repeatCount
    || (exists j :: 0 <= j < |steps| && steps[j].position > steps[i].position)
    || (policyID in cfg.policies && cfg.policies[policyID].loops
        && (cfg.policies[policyID].maxLoops.Some? ==> st.loopCount < cfg.policies[policyID].maxLoops.value))
  }

  /**
   * A turn moves exactly when the alert escalates, its monitor is known and still has a policy, the policy still has
   * the step it stands on, that step's wait is over, and there is more to do.
   */
  lemma MovesExactly(s: State, cfg: Config, copy: Alert, now: int)
    ensures !Choose(s, cfg, copy, now).Idle? <==>
      && copy.id in s.escalation && copy.monitorID in cfg.monitors && cfg.monitors[copy.monitorID].policyID != ""
      && var st := s.escalation[copy.id]; var policyID := cfg.monitors[copy.monitorID].policyID;
         exists i: nat :: StandsAt(cfg.StepsOf(policyID), i, st.currentStepID)
           && now - st.stepEnteredAt >= cfg.StepsOf(policyID)[i].waitSeconds && MoreToDo(cfg, policyID, i, st)
  {
    if copy.id in s.escalation && copy.monitorID in cfg.monitors {
      var st := s.escalation[copy.id];
      var steps := cfg.StepsOf(cfg.monitors[copy.monitorID].policyID);
      var found := FindStep(steps, st.currentStepID);
      if found.Some? {
        var i := found.value;
        assert StandsAt(steps, i, st.currentStepID) && forall k: nat :: StandsAt(steps, k, st.currentStepID) ==> k == i;
        var next := NextStep(steps, steps[i].position);
      }
    }
  }

  /** A turn that moves on writes the listed copy's acknowledgement, firing, and the new step; a retry writes no row. */
  lemma TurnedRow(s: State, cfg: Config, copy: Alert, now: int, env: Surroundings)
    requires CopyOf(s, copy) && SameOpening(copy, s.alerts[copy.id])
    ensures var s' := Turn(s, cfg, copy, now, env); var move := Choose(s, cfg, copy, now);
      && s'.alerts.Keys == s.alerts.Keys
      && (forall other :: other in s.alerts && other != copy.id ==> s'.alerts[other] == s.alerts[other])
      && (if move.Idle? || move.Retry? then s'.alerts[copy.id] == s.alerts[copy.id]
          else
            && SameOpening(s'.alerts[copy.id], s.alerts[copy.id])
            && s'.alerts[copy.id].status == Firing && s'.alerts[copy.id].resolvedAt == None
            && s'.alerts[copy.id].acknowledgedAt == copy.acknowledgedAt
            && s'.alerts[copy.id].acknowledgedBy == copy.acknowledgedBy
            && s'.alerts[copy.id].currentStep == move.step.id)
  {
    TurnAlerts(s, cfg, copy, now, env);
  }

  // ---------- Over whole runs ----------

  /** The configuration last edited in. */
  function LatestConfig(cfg: Config, ops: seq<Op>): Config {
    if ops == [] then cfg
    else if ops[|ops| - 1].DoConfigure? then ops[|ops| - 1].cfg
    else LatestConfig(cfg, ops[..|ops| - 1])
  }

  lemma {:induction false} ConfigurationIsLatest(cfg: Config, ops: seq<Op>)
    ensures Run(Start(cfg), ops).cfg == LatestConfig(cfg, ops)
  {
    if ops != [] {
      ConfigurationIsLatest(cfg, ops[..|ops| - 1]);
    }
  }

  /** Listed copies agree with their rows on what the alert was opened with. */
  ghost predicate CopiesTrue(w: World) {
    forall c :: c in w.copies ==> c.id in w.db.alerts && SameOpening(c, w.db.alerts[c.id])
  }

  ghost predicate OpeningsKept(s: State, s': State) {
    forall id :: id in s.alerts ==> id in s'.alerts && SameOpening(s'.alerts[id], s.alerts[id])
  }

  lemma StepKeepsOpenings(w: World, op: Op)
    requires WorldInv(w) && CopiesTrue(w)
    ensures OpeningsKept(w.db, Next(w, op).db)
  {
    if Enabled(w, op) {
      match op
      case DoTrigger(m, status, error, id, now, env) => OpenedRow(w.db, w.cfg, m, status, error, id, now, env);
      case DoRecover(m, now) =>
        if id :| ActiveFor(w.db, id, m) {
          RecoveredRow(w.db, m, now, id);
        }
      case DoAck(id, user, channel, now) => AcknowledgedRow(w.db, id, user, channel, now);
      case DoList =>
      case DoTurn(copy, now, env) =>
        assert CopyOf(w.db, copy);
        TurnedRow(w.db, w.cfg, copy, now, env);
      case DoConfigure(_) =>
    }
  }

  lemma StepKeepsCopies(w: World, op: Op)
    requires WorldInv(w) && CopiesTrue(w)
    ensures CopiesTrue(Next(w, op))
  {
    StepKeepsOpenings(w, op);
  }

  lemma {:induction false} EveryCopyIsTrue(cfg: Config, ops: seq<Op>)
    ensures CopiesTrue(Run(Start(cfg), ops))
  {
    if ops != [] {
      EveryCopyIsTrue(cfg, ops[..|ops| - 1]);
      EveryRunIsSafe(cfg, ops[..|ops| - 1]);
      StepKeepsCopies(Run(Start(cfg), ops[..|ops| - 1]), ops[|ops| - 1]);
    }
  }

  /** A row that a step adds is the one the step opens. */
  lemma StepOpens(w: World, op: Op, id: string)
    requires WorldInv(w) && id !in w.db.alerts && id in Next(w, op).db.alerts
    ensures OpenedBy(Next(w, op).db.alerts[id], w.cfg, op)
  {
    match op
    case DoTrigger(m, status, error, newID, now, env) => OpenedRow(w.db, w.cfg, m, status, error, newID, now, env);
    case DoRecover(m, now) =>
    case DoAck(other, user, channel, now) => AcknowledgedRow(w.db, other, user, channel, now);
    case DoList =>
    case DoTurn(copy, now, env) => TurnAlerts(w.db, w.cfg, copy, now, env);
    case DoConfigure(_) =>
  }

  /**
   * In every run, stale turns and edits of the configuration included, a stored alert's monitor, organisation,
   * severity, error and start are those one trigger opened it with, under the configuration of that time.
   */
  lemma {:induction false} EveryAlertAsOpened(cfg: Config, ops: seq<Op>, id: string) returns (i: nat)
    requires id in Run(Start(cfg), ops).db.alerts
    ensures i < |ops| && OpenedBy(Run(Start(cfg), ops).db.alerts[id], LatestConfig(cfg, ops[..i]), ops[i])
  {
    var before := ops[..|ops| - 1];
    var w := Run(Start(cfg), before);
    EveryRunIsSafe(cfg, before);
    EveryCopyIsTrue(cfg, before);
    if id in w.db.alerts {
      i := EveryAlertAsOpened(cfg, before, id);
      assert before[..i] == ops[..i];
      StepKeepsOpenings(w, ops[|ops| - 1]);
    } else {
      StepOpens(w, ops[|ops| - 1], id);
      ConfigurationIsLatest(cfg, before);
      i := |ops| - 1;
    }
  }

  /** A step leaves an acknowledged row behind only if it acknowledged it, or found and left it so. */
  lemma StepAcknowledges(w: World, op: Op, id: string)
    requires WorldInv(w) && CopiesTrue(w) && id in Next(w, op).db.alerts && Next(w, op).db.alerts[id].status == Acknowledged
    ensures var row := Next(w, op).db.alerts[id];
      || (op.DoAck? && op.id == id && row.acknowledgedAt == Some(op.now) && row.acknowledgedBy == op.user)
      || (id in w.db.alerts && row == w.db.alerts[id])
  {
    if Enabled(w, op) {
      match op
      case DoTrigger(m, status, error, newID, now, env) => OpenedRow(w.db, w.cfg, m, status, error, newID, now, env);
      case DoRecover(m, now) =>
        if other :| ActiveFor(w.db, other, m) {
          RecoveredRow(w.db, m, now, other);
        }
      case DoAck(other, user, channel, now) => AcknowledgedRow(w.db, other, user, channel, now);
      case DoList =>
      case DoTurn(copy, now, env) =>
        assert CopyOf(w.db, copy);
        TurnedRow(w.db, w.cfg, copy, now, env);
      case DoConfigure(_) =>
    }
  }

  /** In every run the time and user of an acknowledged alert are those of one acknowledgement of it. */
  lemma {:induction false} EveryAckHasUser(cfg: Config, ops: seq<Op>, id: string) returns (i: nat)
    requires id in Run(Start(cfg), ops).db.alerts && Run(Start(cfg), ops).db.alerts[id].status == Acknowledged
    ensures i < |ops| && ops[i].DoAck? && ops[i].id == id
    ensures var row := Run(Start(cfg), ops).db.alerts[id];
      row.acknowledgedAt == Some(ops[i].now) && row.acknowledgedBy == ops[i].user
  {
    var before := ops[..|ops| - 1];
    var last := ops[|ops| - 1];
    EveryRunIsSafe(cfg, before);
    EveryCopyIsTrue(cfg, before);
    StepAcknowledges(Run(Start(cfg), before), last, id);
    if last.DoAck? && last.id == id && Run(Start(cfg), ops).db.alerts[id].acknowledgedAt == Some(last.now)
       && Run(Start(cfg), ops).db.alerts[id].acknowledgedBy == last.user {
      i := |ops| - 1;
    } else {
      i := EveryAckHasUser(cfg, before, id);
    }
  }
}
