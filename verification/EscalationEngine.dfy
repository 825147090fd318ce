/**
 * The escalation engine in its own shape: handlers that read rows, overwrite them and append to the
 * timeline, one statement after another, and loops over targets, users and firing alerts.
 * Each is verified against the one-step functions of Escalation.dfy.
 */
module EscalationEngine {
  import opened Common
  import opened Escalation
  import opened EscalationInvariants
  import opened EscalationSafety

  /** The rows after taking the listed copies one by one. */
  function TurnAll(s: State, cfg: Config, list: seq<Alert>, now: int, envs: string -> Surroundings): State {
    if list == [] then s
    else
      var copy := list[|list| - 1];
      Turn(TurnAll(s, cfg, list[..|list| - 1], now, envs), cfg, copy, now, envs(copy.id))
  }

  /** The firing alerts, oldest first, each exactly once. */
  ghost predicate FiringList(alerts: map<string, Alert>, list: seq<Alert>) {
    && (forall a :: a in list <==> a.id in alerts && alerts[a.id] == a && a.status == Firing)
    && (forall i, j :: 0 <= i < j < |list| ==> list[i].startedAt <= list[j].startedAt && list[i].id != list[j].id)
  }

  lemma AppendTwice<T>(a: seq<T>, b: seq<T>, c: seq<T>)
    ensures a + b + c == a + (b + c)
  {
  }

  lemma JobsSnoc(alertID: string, org: string, monitorOrg: string, stepID: string, targets: seq<Target>, t: nat)
    requires 0 < t <= |targets|
    ensures var own := TargetJobs(alertID, org, monitorOrg, stepID, targets[t - 1]);
      var before := Jobs(alertID, org, monitorOrg, stepID, targets[..t - 1]);
      && Jobs(alertID, org, monitorOrg, stepID, targets[..t]) == before + own
      && NotifiedEvents(before + own) == NotifiedEvents(before) + NotifiedEvents(own)
  {
    assert targets[..t][..t - 1] == targets[..t - 1];
  }

  /** Of the monitor's unresolved alerts in s, all but those in `left` have been resolved, and no other alert has changed. */
  ghost predicate SweptAlerts(s: State, s': State, left: set<string>, monitorID: string, now: int) {
    && s'.alerts.Keys == s.alerts.Keys
    && (forall id :: id in left ==> ActiveFor(s, id, monitorID))
    && (forall id :: id in s.alerts && (id in left || !ActiveFor(s, id, monitorID)) ==> s'.alerts[id] == s.alerts[id])
    && (forall id :: ActiveFor(s, id, monitorID) && id !in left ==>
          s'.alerts[id] == s.alerts[id].(status := Resolved, resolvedAt := Some(now)))
  }

  /** The same for the escalation rows, and nothing else has changed. */
  ghost predicate SweptFor(s: State, s': State, left: set<string>, monitorID: string, now: int) {
    && RowsSound(s') && s'.rounds == s.rounds && s'.outbox == s.outbox
    && SweptAlerts(s, s', left, monitorID, now)
    && (forall id :: ActiveFor(s', id, monitorID) <==> id in left)
    && (forall id :: id in s'.escalation <==> id in s.escalation && (ActiveFor(s, id, monitorID) ==> id in left))
  }

  lemma SweepOneAlert(s: State, s': State, left: set<string>, monitorID: string, now: int, id: string)
    requires SweptAlerts(s, s', left, monitorID, now) && id in left
    ensures SweptAlerts(s, Resolve(s', id, now), left - {id}, monitorID, now)
  {
    assert ActiveFor(s, id, monitorID);
    assert Resolve(s', id, now).alerts == s'.alerts[id := s'.alerts[id].(status := Resolved, resolvedAt := Some(now))];
  }

  lemma SweepOne(s: State, s': State, left: set<string>, monitorID: string, now: int, id: string)
    requires SweptFor(s, s', left, monitorID, now) && id in left
    ensures id in s'.alerts
    ensures SweptFor(s, Resolve(s', id, now), left - {id}, monitorID, now)
  {
    assert ActiveFor(s', id, monitorID) && ActiveFor(s, id, monitorID);
    SweepOneAlert(s, s', left, monitorID, now, id);
    var s'' := Resolve(s', id, now);
    forall i ensures ActiveFor(s'', i, monitorID) <==> i in left - {id} {
      assert ActiveFor(s', i, monitorID) <==> i in left;
    }
  }

  class Engine {
    var cfg: Config
    var alerts: map<string, Alert>
    var escalation: map<string, EscState>
    var events: seq<Event>
    var gauge: map<string, int>
    var outbox: seq<Job>
    ghost var rounds: seq<Round>

    ghost function View(): State
      reads this
    {
      State(alerts, escalation, events, gauge, outbox, rounds)
    }

    /** Row keys are row ids, and the store's unique index holds. */
    ghost predicate Valid()
      reads this
    {
      RowsSound(View()) && UniqueActive(View())
    }

    constructor (cfg: Config)
      ensures View() == Empty && this.cfg == cfg && Valid()
    {
      this.cfg := cfg;
      alerts, escalation, events, gauge, outbox, rounds := map[], map[], [], map[], [], [];
    }

    // ---------- Store queries ----------

    /** The unresolved alert of a monitor, the latest one if there were several. */
    method GetActiveByMonitor(monitorID: string) returns (found: Option<Alert>)
      requires RowsSound(View())
      ensures found.None? ==> forall id :: !ActiveFor(View(), id, monitorID)
      ensures found.Some? ==> ActiveFor(View(), found.value.id, monitorID) && alerts[found.value.id] == found.value
      ensures found.Some? ==> forall id :: ActiveFor(View(), id, monitorID) ==> alerts[id].startedAt <= found.value.startedAt
    {
      found := None;
      var ids := set id | id in alerts && alerts[id].status != Resolved && alerts[id].monitorID == monitorID;
      ghost var all := ids;
      assert forall id :: ActiveFor(View(), id, monitorID) <==> id in all;
      while ids != {}
        invariant ids <= all
        invariant found.None? ==> ids == all
        invariant found.Some? ==> found.value.id in all && alerts[found.value.id] == found.value
        invariant found.Some? ==> forall id :: id in all - ids ==> alerts[id].startedAt <= found.value.startedAt
        decreases ids
      {
        var id :| id in ids;
        if found.None? || found.value.startedAt < alerts[id].startedAt {
          found := Some(alerts[id]);
        }
        ids := ids - {id};
      }
    }

    method ListFiring() returns (list: seq<Alert>)
      requires RowsSound(View())
      ensures FiringList(alerts, list)
    {
      list := [];
      var ids := set id | id in alerts && alerts[id].status == Firing;
      while ids != {}
        invariant ids <= alerts.Keys
        invariant forall id :: id in ids ==> alerts[id].status == Firing
        invariant forall a :: a in list <==> a.id in alerts && alerts[a.id] == a && a.status == Firing && a.id !in ids
        invariant forall i, j :: 0 <= i < j < |list| ==> list[i].startedAt <= list[j].startedAt && list[i].id != list[j].id
        invariant forall a, id :: a in list && id in ids ==> a.startedAt <= alerts[id].startedAt
        decreases ids
      {
        var first := Oldest(ids);
        list := list + [alerts[first]];
        ids := ids - {first};
      }
    }

    method Oldest(ids: set<string>) returns (first: string)
      requires ids != {} && ids <= alerts.Keys
      ensures first in ids && forall id :: id in ids ==> alerts[first].startedAt <= alerts[id].startedAt
    {
      first :| first in ids;
      var rest := ids - {first};
      while rest != {}
        invariant rest <= ids && first in ids
        invariant forall id :: id in ids - rest ==> alerts[first].startedAt <= alerts[id].startedAt
        decreases rest
      {
        var id :| id in rest;
        if alerts[id].startedAt < alerts[first].startedAt {
          first := id;
        }
        rest := rest - {id};
      }
    }

    // ---------- Small writes ----------

    method CreateEvent(alertID: string, kind: EventKind, channel: string, user: string)
      modifies `events
      ensures events == old(events) + [Event(alertID, kind, channel, user)]
    {
      events := events + [Event(alertID, kind, channel, user)];
    }

    method AddActiveAlert(org: string, delta: int)
      modifies `gauge
      ensures gauge == old(gauge)[org := GaugeOf(old(gauge), org) + delta]
    {
      gauge := gauge[org := (if org in gauge then gauge[org] else 0) + delta];
    }

    method UpdateAlert(a: Alert)
      modifies `alerts
      ensures View() == UpdateRow(old(View()), a)
    {
      if a.id in alerts {
        var row := alerts[a.id];
        alerts := alerts[a.id := Alert(row.id, row.monitorID, row.orgID, a.status, a.severity, row.error, row.startedAt,
                                       a.acknowledgedAt, a.acknowledgedBy, a.resolvedAt, a.currentStep)];
      }
    }

    // ---------- notifyStep ----------

    /** A job and a timeline entry for every user of one target. */
    method NotifyUsers(alert: Alert, kind: string, stepID: string, users: seq<string>)
      modifies `events, `outbox
      ensures outbox == old(outbox) + UserJobs(alert.id, alert.orgID, kind, stepID, users)
      ensures events == old(events) + NotifiedEvents(UserJobs(alert.id, alert.orgID, kind, stepID, users))
    {
      ghost var all := UserJobs(alert.id, alert.orgID, kind, stepID, users);
      var u := 0;
      while u < |users|
        invariant 0 <= u <= |users|
        invariant outbox == old(outbox) + all[..u]
        invariant events == old(events) + NotifiedEvents(all)[..u]
      {
        var job := Job(alert.id, alert.orgID, kind, users[u], alert.id + "-" + stepID + "-" + users[u]);
        outbox := outbox + [job];
        CreateEvent(alert.id, Notified, kind, users[u]);
        assert all[u] == job;
        assert all[..u + 1] == all[..u] + [job];
        assert NotifiedEvents(all)[..u + 1] == NotifiedEvents(all)[..u] + [Event(alert.id, Notified, kind, users[u])];
        u := u + 1;
      }
      assert all[..u] == all && NotifiedEvents(all)[..u] == NotifiedEvents(all);
    }

    /** One target: skipped if it does not resolve, or its channel is missing, foreign or disabled. */
    method NotifyTarget(alert: Alert, monitorOrg: string, stepID: string, target: Target)
      modifies `events, `outbox
      ensures outbox == old(outbox) + TargetJobs(alert.id, alert.orgID, monitorOrg, stepID, target)
      ensures events == old(events) + NotifiedEvents(TargetJobs(alert.id, alert.orgID, monitorOrg, stepID, target))
    {
      if target.users.None? {
        return;
      }
      if target.channel.None? {
        return;
      }
      var ch := target.channel.value;
      if ch.orgID != monitorOrg {
        return;
      }
      if !ch.enabled {
        return;
      }
      NotifyUsers(alert, ch.kind, stepID, target.users.value);
    }

    method NotifyTargets(alert: Alert, monitorOrg: string, stepID: string, targets: seq<Target>)
      modifies `events, `outbox
      ensures outbox == old(outbox) + Jobs(alert.id, alert.orgID, monitorOrg, stepID, targets)
      ensures events == old(events) + NotifiedEvents(Jobs(alert.id, alert.orgID, monitorOrg, stepID, targets))
    {
      ghost var sent: seq<Job> := [];
      var t := 0;
      while t < |targets|
        invariant 0 <= t <= |targets|
        invariant sent == Jobs(alert.id, alert.orgID, monitorOrg, stepID, targets[..t])
        invariant outbox == old(outbox) + sent
        invariant events == old(events) + NotifiedEvents(sent)
      {
        ghost var own := TargetJobs(alert.id, alert.orgID, monitorOrg, stepID, targets[t]);
        NotifyTarget(alert, monitorOrg, stepID, targets[t]);
        AppendTwice(old(outbox), sent, own);
        AppendTwice(old(events), NotifiedEvents(sent), NotifiedEvents(own));
        t := t + 1;
        JobsSnoc(alert.id, alert.orgID, monitorOrg, stepID, targets, t);
        sent := sent + own;
      }
      assert targets[..t] == targets;
    }

    /** One round: suppression, then the row's last notification, then the targets. */
    method NotifyStep(alert: Alert, monitorOrg: string, stepID: string, st: EscState, now: int, env: Surroundings)
      requires stepID == st.currentStepID
      modifies `escalation, `events, `outbox, `rounds
      ensures View() == Notify(old(View()), alert, monitorOrg, st, now, env)
    {
      rounds := rounds + [Round(alert.id, st.currentStepID, st.loopCount, st.retryCount, st.stepEnteredAt)];
      if env.suppressed {
        return;
      }
      if env.targets.None? {
        return;
      }
      escalation := escalation[alert.id := st.(lastNotifiedAt := Some(now))];
      NotifyTargets(alert, monitorOrg, stepID, env.targets.value);
    }

    // ---------- Handlers ----------

    method HandleTrigger(monitorID: string, status: CheckStatus, error: string, newID: string, now: int, env: Surroundings)
      returns (ok: bool)
      requires Valid() && newID !in alerts
      modifies this
      ensures cfg == old(cfg)
      ensures ok <==> monitorID in cfg.monitors
      ensures View() == Trigger(old(View()), cfg, monitorID, status, error, newID, now, env)
    {
      if monitorID !in cfg.monitors {
        return false;
      }
      ghost var before := View();
      var monitor := cfg.monitors[monitorID];
      var existing := GetActiveByMonitor(monitorID);
      if existing.Some? {
        return true;
      }
      assert before == View() && forall id :: !ActiveFor(View(), id, monitorID);
      var severity := monitor.downSeverity;
      if severity == "" {
        severity := "critical";
      }
      if status == Degraded {
        severity := monitor.degradedSeverity;
        if severity == "" {
          severity := "warning";
        }
      }
      var alert := Alert(newID, monitorID, monitor.orgID, Firing, severity, error, now, None, "", None, "");
      assert alert == NewAlert(monitor, monitorID, status, error, newID, now);
      alerts := alerts[newID := alert];
      AddActiveAlert(alert.orgID, 1);
      CreateEvent(newID, Triggered, "", "");
      assert View() == Opened(before, alert);
      assert monitor == cfg.monitors[monitorID] && ActiveOf(before, monitorID).None?;
      if monitor.muted {
        return true;
      }
      if monitor.policyID == "" {
        return true;
      }
      var steps := cfg.StepsOf(monitor.policyID);
      if |steps| == 0 {
        return true;
      }
      EnterFirstStep(alert, steps[0], monitor.orgID, now, env);
      return true;
    }

    /** The end of a trigger: the alert enters the policy's first step, and its first round goes out. */
    method EnterFirstStep(alert: Alert, first: Step, org: string, now: int, env: Surroundings)
      modifies this
      ensures cfg == old(cfg)
      ensures var a := alert.(currentStep := first.id); var st := EscState(first.id, now, 0, None, 0);
        View() == Notify(Upsert(UpdateRow(old(View()), a), a.id, st), a, org, st, now, env)
    {
      UpdateAlert(alert.(currentStep := first.id));
      var st := EscState(first.id, now, 0, None, 0);
      escalation := escalation[alert.id := st];
      NotifyStep(alert.(currentStep := first.id), org, first.id, st, now, env);
    }

    /** Marks one alert resolved, with everything that goes with it. */
    method ResolveAlert(alert: Alert, now: int)
      requires alert.id in alerts && alerts[alert.id] == alert
      modifies this
      ensures cfg == old(cfg)
      ensures View() == Resolve(old(View()), alert.id, now)
    {
      UpdateAlert(alert.(status := Resolved, resolvedAt := Some(now)));
      AddActiveAlert(alert.orgID, -1);
      escalation := escalation - {alert.id};
      CreateEvent(alert.id, ResolvedEvent, "", "");
    }

    /** Resolves the unresolved alerts of a monitor, one after another, until none is left. */
    method AutoResolveAlerts(monitorID: string, now: int)
      requires RowsSound(View())
      modifies this
      ensures cfg == old(cfg)
      ensures SweptFor(old(View()), View(), {}, monitorID, now)
      ensures GaugeExact(old(View())) ==> GaugeExact(View())
      ensures (forall id :: !ActiveFor(old(View()), id, monitorID)) ==> View() == old(View())
    {
      ghost var start := View();
      ghost var left := set id | id in alerts && alerts[id].status != Resolved && alerts[id].monitorID == monitorID;
      while true
        invariant cfg == old(cfg)
        invariant SweptFor(start, View(), left, monitorID, now)
        invariant GaugeExact(start) ==> GaugeExact(View())
        invariant (forall id :: !ActiveFor(start, id, monitorID)) ==> View() == start
        decreases left
      {
        var active := GetActiveByMonitor(monitorID);
        if active.None? {
          assert forall id :: id in left ==> ActiveFor(View(), id, monitorID);
          assert left == {};
          return;
        }
        assert active.value.id in left;
        SweepOne(start, View(), left, monitorID, now, active.value.id);
        if GaugeExact(start) {
          ResolveGauge(View(), active.value.id, now);
        }
        ResolveAlert(active.value, now);
        left := left - {active.value.id};
      }
    }

    /** With or without auto-resolve, a recovery resolves the monitor's one unresolved alert and nothing else. */
    method HandleRecover(monitorID: string, now: int)
      requires Valid()
      modifies this
      ensures cfg == old(cfg)
      ensures View() == Recover(old(View()), monitorID, now)
    {
      ghost var before := View();
      var active := GetActiveByMonitor(monitorID);
      if active.None? {
        return;
      }
      ResolveAlert(active.value, now);
      assert active.value.id == ActiveOf(before, monitorID).value;
      if monitorID in cfg.monitors && cfg.monitors[monitorID].autoResolve {
        assert forall id :: ActiveFor(View(), id, monitorID) ==> ActiveFor(before, id, monitorID);
        AutoResolveAlerts(monitorID, now);
      }
    }

    method HandleAck(alertID: string, user: string, channel: string, now: int) returns (ok: bool)
      requires RowsSound(View())
      modifies this
      ensures cfg == old(cfg)
      ensures ok <==> alertID in old(alerts)
      ensures View() == Acknowledge(old(View()), alertID, user, channel, now)
    {
      if alertID !in alerts {
        return false;
      }
      var alert := alerts[alertID];
      if alert.status == Resolved {
        return true;
      }
      alert := alert.(status := Acknowledged, acknowledgedAt := Some(now), acknowledgedBy := user);
      UpdateAlert(alert);
      CreateEvent(alertID, Ack, channel, user);
      return true;
    }

    // ---------- The ticker ----------

    /** The body of the tick's loop, for one listed alert. */
    method ProcessTurn(copy: Alert, now: int, env: Surroundings)
      modifies this
      ensures cfg == old(cfg)
      ensures View() == Turn(old(View()), cfg, copy, now, env)
    {
      if copy.id !in escalation {
        return;
      }
      var st := escalation[copy.id];
      if copy.monitorID !in cfg.monitors {
        return;
      }
      var monitor := cfg.monitors[copy.monitorID];
      if monitor.policyID == "" {
        return;
      }
      var steps := cfg.StepsOf(monitor.policyID);
      if |steps| == 0 {
        return;
      }
      var i := 0;
      while i < |steps| && steps[i].id != st.currentStepID
        invariant 0 <= i <= |steps|
        invariant forall j :: 0 <= j < i ==> steps[j].id != st.currentStepID
      {
        i := i + 1;
      }
      assert FindStep(steps, st.currentStepID) == if i < |steps| then Some(i) else None;
      if i == |steps| {
        return;
      }
      var current := steps[i];
      if now - st.stepEnteredAt < current.waitSeconds {
        return;
      }
      if st.retryCount < current.repeatCount {
        st := st.(retryCount := st.retryCount + 1, stepEnteredAt := now);
        escalation := escalation[copy.id := st];
        NotifyStep(copy, monitor.orgID, current.id, st, now, env);
        return;
      }
      var next := NextStep(steps, current.position);
      if next.Some? {
        EnterStep(copy, next.value, st.(currentStepID := next.value.id, stepEnteredAt := now, retryCount := 0),
                  monitor.orgID, now, env);
        return;
      }
      if monitor.policyID !in cfg.policies {
        return;
      }
      var policy := cfg.policies[monitor.policyID];
      if policy.loops {
        if policy.maxLoops.Some? && st.loopCount >= policy.maxLoops.value {
          return;
        }
        var first := steps[0];
        EnterStep(copy, first,
                  st.(currentStepID := first.id, stepEnteredAt := now, retryCount := 0, loopCount := st.loopCount + 1),
                  monitor.orgID, now, env);
      }
    }

    /** The end of a turn that moves on: both rows are written, and the step's first round goes out. */
    method EnterStep(copy: Alert, step: Step, st: EscState, org: string, now: int, env: Surroundings)
      requires st.currentStepID == step.id
      modifies this
      ensures cfg == old(cfg)
      ensures var copy' := copy.(currentStep := step.id);
        View() == Notify(Log(UpdateRow(Upsert(old(View()), copy.id, st), copy'), Event(copy.id, Escalated, "", "")),
                         copy', org, st, now, env)
    {
      escalation := escalation[copy.id := st];
      UpdateAlert(copy.(currentStep := step.id));
      CreateEvent(copy.id, Escalated, "", "");
      NotifyStep(copy.(currentStep := step.id), org, step.id, st, now, env);
    }

    /** One tick without interference: list the firing alerts, then take their turns in order. */
    method ProcessFiringAlerts(now: int, envs: string -> Surroundings) returns (list: seq<Alert>)
      requires RowsSound(View())
      modifies this
      ensures cfg == old(cfg)
      ensures FiringList(old(alerts), list)
      ensures View() == TurnAll(old(View()), cfg, list, now, envs)
    {
      list := ListFiring();
      var i := 0;
      while i < |list|
        invariant 0 <= i <= |list| && cfg == old(cfg)
        invariant View() == TurnAll(old(View()), cfg, list[..i], now, envs)
      {
        assert list[..i + 1][..i] == list[..i];
        ProcessTurn(list[i], now, envs(list[i].id));
        i := i + 1;
      }
      assert list[..i] == list;
    }
  }

  // ---------- A whole tick is a run of listings and fresh turns ----------

  function TurnOps(list: seq<Alert>, now: int, envs: string -> Surroundings): seq<Op> {
    seq(|list|, i requires 0 <= i < |list| => DoTurn(list[i], now, envs(list[i].id)))
  }

  lemma TurnOpsSnoc(list: seq<Alert>, now: int, envs: string -> Surroundings)
    requires list != []
    ensures var n := |list| - 1;
      [DoList] + TurnOps(list, now, envs) == [DoList] + TurnOps(list[..n], now, envs) + [DoTurn(list[n], now, envs(list[n].id))]
  {
  }

  /** The turns of one tick, run after its listing, give the tick's rows. */
  lemma {:induction false} TickIsARun(w: World, list: seq<Alert>, now: int, envs: string -> Surroundings)
    requires forall a :: a in list ==> a in FiringCopies(w.db)
    ensures var w' := Run(w, [DoList] + TurnOps(list, now, envs));
      w'.db == TurnAll(w.db, w.cfg, list, now, envs) && w'.cfg == w.cfg && w'.copies == w.copies + FiringCopies(w.db)
  {
    var ops := [DoList] + TurnOps(list, now, envs);
    if list == [] {
      assert ops == [DoList] && ops[..0] == [];
    } else {
      var n := |list| - 1;
      TickIsARun(w, list[..n], now, envs);
      TurnOpsSnoc(list, now, envs);
      RunSnoc(w, [DoList] + TurnOps(list[..n], now, envs), DoTurn(list[n], now, envs(list[n].id)));
      assert list[n] in FiringCopies(w.db);
    }
  }

  lemma {:induction false} TurnsKeepFiring(s: State, cfg: Config, list: seq<Alert>, now: int, envs: string -> Surroundings, id: string)
    requires RowsSound(s) && id in s.alerts && s.alerts[id].status == Firing
    requires forall a :: a in list ==> a.status == Firing && a.id in s.alerts
    ensures var s' := TurnAll(s, cfg, list, now, envs); id in s'.alerts && s'.alerts[id].status == Firing
  {
    if list != [] {
      var copy := list[|list| - 1];
      var before := TurnAll(s, cfg, list[..|list| - 1], now, envs);
      TurnsKeepFiring(s, cfg, list[..|list| - 1], now, envs, id);
      TurnStatuses(before, cfg, copy, now, envs(copy.id));
    }
  }

  /** A tick nobody interferes with takes only quiet turns, so it keeps every timeline in its language. */
  lemma {:induction false} UndisturbedTickIsQuiet(w: World, list: seq<Alert>, now: int, envs: string -> Surroundings)
    requires RowsSound(w.db)
    requires forall a :: a in list ==> a in FiringCopies(w.db)
    ensures QuietRun(w, [DoList] + TurnOps(list, now, envs))
  {
    var ops := [DoList] + TurnOps(list, now, envs);
    if list == [] {
      assert ops == [DoList] && ops[..0] == [];
      assert QuietRun(w, []);
    } else {
      var n := |list| - 1;
      var before := [DoList] + TurnOps(list[..n], now, envs);
      UndisturbedTickIsQuiet(w, list[..n], now, envs);
      TurnOpsSnoc(list, now, envs);
      assert ops[..|ops| - 1] == before;
      TickIsARun(w, list[..n], now, envs);
      assert list[n] in FiringCopies(w.db);
      TurnsKeepFiring(w.db, w.cfg, list[..n], now, envs, list[n].id);
    }
  }
}
