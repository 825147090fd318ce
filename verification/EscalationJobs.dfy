/**
 * Whom a notification round may reach: the jobs of a round written out by the targets, their users and their
 * channels, and where every job that ever reaches the outbox came from.
 */
module EscalationJobs {
  import opened Common
  import opened Escalation
  import opened EscalationInvariants
  import opened EscalationSafety

  // ---------- The jobs of a list of targets ----------

  /** A round may use the target: it resolves, and its channel exists, is enabled and belongs to the organisation. */
  predicate Usable(t: Target, org: string) {
    t.users.Some? && t.channel.Some? && t.channel.value.enabled && t.channel.value.orgID == org
  }

  /** User number u of target number t. */
  datatype Place = Place(t: nat, u: nat)

  predicate InPlace(targets: seq<Target>, org: string, p: Place) {
    p.t < |targets| && Usable(targets[p.t], org) && p.u < |targets[p.t].users.value|
  }

  predicate Earlier(p: Place, q: Place) {
    p.t < q.t || (p.t == q.t && p.u < q.u)
  }

  /** The job for one user of a usable target. */
  predicate JobAt(job: Job, alertID: string, org: string, stepID: string, target: Target, u: nat)
    requires target.users.Some? && target.channel.Some? && u < |target.users.value|
  {
    && job.alertID == alertID && job.orgID == org
    && job.channel == target.channel.value.kind
    && job.user == target.users.value[u]
    && job.dedupeKey == alertID + "-" + stepID + "-" + target.users.value[u]
  }

  /** One job for every user of every usable target, target by target and user by user. */
  ghost predicate JobsFor(jobs: seq<Job>, places: seq<Place>, alertID: string, org: string, monitorOrg: string,
                          stepID: string, targets: seq<Target>)
  {
    && |jobs| == |places|
    && (forall i :: 0 <= i < |places| ==>
          && InPlace(targets, monitorOrg, places[i])
          && JobAt(jobs[i], alertID, org, stepID, targets[places[i].t], places[i].u))
    && (forall i, j :: 0 <= i < j < |places| ==> Earlier(places[i], places[j]))
    && (forall p :: InPlace(targets, monitorOrg, p) ==> p in places)
  }

  lemma OneTargetPlaces(alertID: string, org: string, monitorOrg: string, stepID: string, targets: seq<Target>)
    returns (places: seq<Place>)
    requires targets != []
    ensures var n := |targets| - 1; var jobs := TargetJobs(alertID, org, monitorOrg, stepID, targets[n]);
      && |jobs| == |places|
      && (forall i :: 0 <= i < |places| ==>
            places[i] == Place(n, i) && InPlace(targets, monitorOrg, places[i])
            && JobAt(jobs[i], alertID, org, stepID, targets[n], i))
      && (forall p :: InPlace(targets, monitorOrg, p) && p.t == n ==> p in places)
  {
    var n := |targets| - 1;
    if Usable(targets[n], monitorOrg) {
      places := seq(|targets[n].users.value|, i requires 0 <= i => Place(n, i));
      forall p | InPlace(targets, monitorOrg, p) && p.t == n ensures p in places {
        assert places[p.u] == p;
      }
    } else {
      places := [];
    }
  }

  lemma PlacesAppend(jobs: seq<Job>, places: seq<Place>, own: seq<Job>, more: seq<Place>, alertID: string, org: string,
                     monitorOrg: string, stepID: string, targets: seq<Target>)
    requires targets != [] && JobsFor(jobs, places, alertID, org, monitorOrg, stepID, targets[..|targets| - 1])
    requires |own| == |more|
    requires forall i :: 0 <= i < |more| ==>
      more[i] == Place(|targets| - 1, i) && InPlace(targets, monitorOrg, more[i])
      && JobAt(own[i], alertID, org, stepID, targets[|targets| - 1], i)
    requires forall p :: InPlace(targets, monitorOrg, p) && p.t == |targets| - 1 ==> p in more
    ensures JobsFor(jobs + own, places + more, alertID, org, monitorOrg, stepID, targets)
  {
    var n := |targets| - 1;
    var all := places + more;
    forall i | 0 <= i < |all|
      ensures InPlace(targets, monitorOrg, all[i]) && JobAt((jobs + own)[i], alertID, org, stepID, targets[all[i].t], all[i].u)
    {
      if i < |places| {
        assert targets[..n][places[i].t] == targets[places[i].t];
      }
    }
    forall p | InPlace(targets, monitorOrg, p) ensures p in all {
      if p.t < n {
        assert InPlace(targets[..n], monitorOrg, p);
      }
    }
  }

  /** The jobs of a round's targets: every usable target's users, in order, and nobody else. */
  lemma {:induction false} JobsAreForTargets(alertID: string, org: string, monitorOrg: string, stepID: string, targets: seq<Target>)
    returns (places: seq<Place>)
    ensures JobsFor(Jobs(alertID, org, monitorOrg, stepID, targets), places, alertID, org, monitorOrg, stepID, targets)
  {
    if targets == [] {
      places := [];
    } else {
      var n := |targets| - 1;
      var before := JobsAreForTargets(alertID, org, monitorOrg, stepID, targets[..n]);
      var more := OneTargetPlaces(alertID, org, monitorOrg, stepID, targets);
      PlacesAppend(Jobs(alertID, org, monitorOrg, stepID, targets[..n]), before,
                   TargetJobs(alertID, org, monitorOrg, stepID, targets[n]), more, alertID, org, monitorOrg, stepID, targets);
      places := before + more;
    }
  }

  /** Some target has the user and a channel of the kind, enabled and of the organisation. */
  ghost predicate HasTarget(targets: seq<Target>, user: string, kind: string, org: string) {
    exists t :: t in targets && t.users.Some? && user in t.users.value
                && t.channel.Some? && t.channel.value.enabled && t.channel.value.orgID == org && t.channel.value.kind == kind
  }

  lemma JobOfTarget(jobs: seq<Job>, places: seq<Place>, alertID: string, org: string, monitorOrg: string, stepID: string,
                    targets: seq<Target>, job: Job)
    requires JobsFor(jobs, places, alertID, org, monitorOrg, stepID, targets)
    requires job.alertID == alertID && job.orgID == org && job.dedupeKey == alertID + "-" + stepID + "-" + job.user
    requires HasTarget(targets, job.user, job.channel, monitorOrg)
    ensures job in jobs
  {
    var t :| t in targets && t.users.Some? && job.user in t.users.value && t.channel.Some? && t.channel.value.enabled
             && t.channel.value.orgID == monitorOrg && t.channel.value.kind == job.channel;
    var k :| 0 <= k < |targets| && targets[k] == t;
    var u :| 0 <= u < |t.users.value| && t.users.value[u] == job.user;
    assert InPlace(targets, monitorOrg, Place(k, u));
    var i :| 0 <= i < |places| && places[i] == Place(k, u);
    assert jobs[i] == job;
  }

  lemma TargetOfJob(jobs: seq<Job>, places: seq<Place>, alertID: string, org: string, monitorOrg: string, stepID: string,
                    targets: seq<Target>, job: Job)
    requires JobsFor(jobs, places, alertID, org, monitorOrg, stepID, targets) && job in jobs
    ensures job.alertID == alertID && job.orgID == org && job.dedupeKey == alertID + "-" + stepID + "-" + job.user
    ensures HasTarget(targets, job.user, job.channel, monitorOrg)
  {
    var i :| 0 <= i < |jobs| && jobs[i] == job;
    assert targets[places[i].t] in targets;
  }

  /**
   * A job is among them if and only if some target resolves to its user and has a channel of its kind that is
   * enabled and belongs to the monitor's organisation; its key names alert, step and user.
   */
  lemma JobExactly(alertID: string, org: string, monitorOrg: string, stepID: string, targets: seq<Target>, job: Job)
    ensures job in Jobs(alertID, org, monitorOrg, stepID, targets) <==>
      && job.alertID == alertID && job.orgID == org && job.dedupeKey == alertID + "-" + stepID + "-" + job.user
      && HasTarget(targets, job.user, job.channel, monitorOrg)
  {
    var jobs := Jobs(alertID, org, monitorOrg, stepID, targets);
    var places := JobsAreForTargets(alertID, org, monitorOrg, stepID, targets);
    if job in jobs {
      TargetOfJob(jobs, places, alertID, org, monitorOrg, stepID, targets, job);
    } else if job.alertID == alertID && job.orgID == org && job.dedupeKey == alertID + "-" + stepID + "-" + job.user
              && HasTarget(targets, job.user, job.channel, monitorOrg) {
      JobOfTarget(jobs, places, alertID, org, monitorOrg, stepID, targets, job);
    }
  }

  // ---------- What a trigger and a turn send ----------

  /** The jobs a round sends: none under suppression or without targets, else one for each user of each usable target. */
  ghost predicate RightJobs(jobs: seq<Job>, alertID: string, org: string, monitorOrg: string, stepID: string, env: Surroundings) {
    if env.suppressed || env.targets.None? then jobs == []
    else exists places :: JobsFor(jobs, places, alertID, org, monitorOrg, stepID, env.targets.value)
  }

  /** One entry in the timeline for every job, with its channel and its user. */
  ghost predicate Noted(events: seq<Event>, jobs: seq<Job>) {
    |events| == |jobs| &&
    forall i :: 0 <= i < |jobs| ==> events[i] == Event(jobs[i].alertID, Notified, jobs[i].channel, jobs[i].user)
  }

  /** From s to s' the outbox got the jobs, and the log the first entries and then one for each job. */
  ghost predicate Sends(s: State, s': State, first: seq<Event>, jobs: seq<Job>) {
    s'.outbox == s.outbox + jobs && exists events :: Noted(events, jobs) && s'.events == s.events + first + events
  }

  lemma RoundSends(s: State, s1: State, first: seq<Event>, a: Alert, monitorOrg: string, st: EscState, now: int,
                   env: Surroundings) returns (jobs: seq<Job>)
    requires s1.outbox == s.outbox && s1.events == s.events + first
    ensures RightJobs(jobs, a.id, a.orgID, monitorOrg, st.currentStepID, env)
    ensures Sends(s, Notify(s1, a, monitorOrg, st, now, env), first, jobs)
    ensures Notify(s1, a, monitorOrg, st, now, env).escalation ==
      if env.suppressed || env.targets.None? then s1.escalation else s1.escalation[a.id := st.(lastNotifiedAt := Some(now))]
  {
    var s' := Notify(s1, a, monitorOrg, st, now, env);
    if env.suppressed || env.targets.None? {
      jobs := [];
      assert Noted([], jobs) && s'.events == s.events + first + [];
    } else {
      jobs := Jobs(a.id, a.orgID, monitorOrg, st.currentStepID, env.targets.value);
      var places := JobsAreForTargets(a.id, a.orgID, monitorOrg, st.currentStepID, env.targets.value);
      assert Noted(NotifiedEvents(jobs), jobs);
      assert s'.events == s.events + first + NotifiedEvents(jobs);
    }
  }

  /**
   * A trigger that opens an alert logs it as triggered and, if the monitor is not muted and has a policy with
   * steps, sends the first step's round; any other trigger sends and logs nothing.
   */
  lemma TriggerSends(s: State, cfg: Config, m: string, status: CheckStatus, error: string, id: string, now: int, env: Surroundings)
    returns (jobs: seq<Job>)
    ensures var s' := Trigger(s, cfg, m, status, error, id, now, env);
      if m !in cfg.monitors || (exists other :: ActiveFor(s, other, m)) then s' == s
      else
        var mon := cfg.monitors[m]; var steps := cfg.StepsOf(mon.policyID);
        && Sends(s, s', [Event(id, Triggered, "", "")], jobs)
        && (if mon.muted || mon.policyID == "" || steps == [] then jobs == []
            else RightJobs(jobs, id, mon.orgID, mon.orgID, steps[0].id, env))
  {
    jobs := [];
    if m in cfg.monitors && ActiveOf(s, m).None? {
      var mon := cfg.monitors[m];
      var a := NewAlert(mon, m, status, error, id, now);
      var s1 := Opened(s, a);
      var steps := cfg.StepsOf(mon.policyID);
      var first := [Event(id, Triggered, "", "")];
      assert s1.outbox == s.outbox && s1.events == s.events + first;
      if mon.muted || mon.policyID == "" || steps == [] {
        assert Noted([], jobs) && s1.events == s.events + first + [];
      } else {
        var st := EscState(steps[0].id, now, 0, None, 0);
        var a' := a.(currentStep := steps[0].id);
        jobs := RoundSends(s, Upsert(UpdateRow(s1, a'), id, st), first, a', mon.orgID, st, now, env);
      }
    }
  }

  /** A turn that moves on logs the escalation first; a turn that stays idle sends and logs nothing. */
  lemma TurnSends(s: State, cfg: Config, copy: Alert, now: int, env: Surroundings) returns (jobs: seq<Job>)
    ensures var s' := Turn(s, cfg, copy, now, env); var move := Choose(s, cfg, copy, now);
      if move.Idle? then s' == s && jobs == []
      else
        && copy.monitorID in cfg.monitors
        && Sends(s, s', if move.Retry? then [] else [Event(copy.id, Escalated, "", "")], jobs)
        && RightJobs(jobs, copy.id, copy.orgID, cfg.monitors[copy.monitorID].orgID, move.step.id, env)
  {
    jobs := [];
    var move := Choose(s, cfg, copy, now);
    if !move.Idle? {
      var st := Moved(s.escalation[copy.id], move, now);
      var org := cfg.monitors[copy.monitorID].orgID;
      var s1 := Upsert(s, copy.id, st);
      if move.Retry? {
        assert s1.events == s.events + [];
        jobs := RoundSends(s, s1, [], copy, org, st, now, env);
      } else {
        var copy' := copy.(currentStep := move.step.id);
        jobs := RoundSends(s, Log(UpdateRow(s1, copy'), Event(copy.id, Escalated, "", "")),
                           [Event(copy.id, Escalated, "", "")], copy', org, st, now, env);
      }
    }
  }

  // ---------- Every job of every run ----------

  /** The operation's round reaches the job's user over a channel of its kind that is enabled and the organisation's own. */
  ghost predicate Reaches(w: World, op: Op, job: Job) {
    && (op.DoTrigger? || op.DoTurn?) && !op.env.suppressed && op.env.targets.Some?
    && var m := if op.DoTrigger? then op.monitorID else op.copy.monitorID;
       m in w.cfg.monitors
       && job.alertID == (if op.DoTrigger? then op.id else op.copy.id)
       && HasTarget(op.env.targets.value, job.user, job.channel, w.cfg.monitors[m].orgID)
  }

  lemma RightJobReaches(jobs: seq<Job>, alertID: string, org: string, monitorOrg: string, stepID: string, env: Surroundings, job: Job)
    requires RightJobs(jobs, alertID, org, monitorOrg, stepID, env) && job in jobs
    ensures !env.suppressed && env.targets.Some? && job.alertID == alertID
    ensures HasTarget(env.targets.value, job.user, job.channel, monitorOrg)
  {
    var places: seq<Place> :| JobsFor(jobs, places, alertID, org, monitorOrg, stepID, env.targets.value);
    TargetOfJob(jobs, places, alertID, org, monitorOrg, stepID, env.targets.value, job);
  }

  lemma SendsOnly(s: State, s': State, first: seq<Event>, jobs: seq<Job>, job: Job)
    requires Sends(s, s', first, jobs) && job in s'.outbox && job !in s.outbox
    ensures job in jobs
  {
  }

  lemma TriggerReaches(s: State, cfg: Config, m: string, status: CheckStatus, error: string, id: string, now: int,
                       env: Surroundings, job: Job)
    requires var s' := Trigger(s, cfg, m, status, error, id, now, env); job in s'.outbox && job !in s.outbox
    ensures m in cfg.monitors && !env.suppressed && env.targets.Some? && job.alertID == id
    ensures HasTarget(env.targets.value, job.user, job.channel, cfg.monitors[m].orgID)
  {
    var jobs := TriggerSends(s, cfg, m, status, error, id, now, env);
    var mon := cfg.monitors[m];
    SendsOnly(s, Trigger(s, cfg, m, status, error, id, now, env), [Event(id, Triggered, "", "")], jobs, job);
    RightJobReaches(jobs, id, mon.orgID, mon.orgID, cfg.StepsOf(mon.policyID)[0].id, env, job);
  }

  lemma TurnReaches(s: State, cfg: Config, copy: Alert, now: int, env: Surroundings, job: Job)
    requires var s' := Turn(s, cfg, copy, now, env); job in s'.outbox && job !in s.outbox
    ensures copy.monitorID in cfg.monitors && !env.suppressed && env.targets.Some? && job.alertID == copy.id
    ensures HasTarget(env.targets.value, job.user, job.channel, cfg.monitors[copy.monitorID].orgID)
  {
    var jobs := TurnSends(s, cfg, copy, now, env);
    var move := Choose(s, cfg, copy, now);
    SendsOnly(s, Turn(s, cfg, copy, now, env), if move.Retry? then [] else [Event(copy.id, Escalated, "", "")], jobs, job);
    RightJobReaches(jobs, copy.id, copy.orgID, cfg.monitors[copy.monitorID].orgID, move.step.id, env, job);
  }

  lemma StepReaches(w: World, op: Op, job: Job)
    requires job in Next(w, op).db.outbox
    ensures job in w.db.outbox || Reaches(w, op, job)
  {
    if Enabled(w, op) && job !in w.db.outbox {
      match op
      case DoTrigger(m, status, error, id, now, env) => TriggerReaches(w.db, w.cfg, m, status, error, id, now, env, job);
      case DoTurn(copy, now, env) => TurnReaches(w.db, w.cfg, copy, now, env, job);
      case _ =>
    }
  }

  /**
   * In every run each job in the outbox was sent by a round, not suppressed at the time, of which some target
   * resolved to its user and had a channel of its kind, enabled and of the monitor's organisation.
   */
  lemma {:induction false} EveryJobHasTarget(cfg: Config, ops: seq<Op>, job: Job) returns (i: nat)
    requires job in Run(Start(cfg), ops).db.outbox
    ensures i < |ops| && Reaches(Run(Start(cfg), ops[..i]), ops[i], job)
  {
    var before := ops[..|ops| - 1];
    if job in Run(Start(cfg), before).db.outbox {
      i := EveryJobHasTarget(cfg, before, job);
      assert before[..i] == ops[..i];
    } else {
      StepReaches(Run(Start(cfg), before), ops[|ops| - 1], job);
      i := |ops| - 1;
    }
  }
}
