/**
 * The rows the escalation engine works on, and what each handler does to them.
 *
 * Every function below is one atomic step of the engine on the stored rows; the
 * imperative engine in EscalationEngine.dfy is verified against them.
 * Times are whole seconds, because the store keeps RFC 3339 seconds.
 */
module Escalation {
  import opened Common

  datatype CheckStatus = Up | Down | Degraded

  datatype AlertStatus = Firing | Acknowledged | Resolved

  datatype Alert = Alert(
    id: string,
    monitorID: string,
    orgID: string,
    status: AlertStatus,
    severity: string,
    error: string,
    startedAt: int,
    acknowledgedAt: Option<int>,
    acknowledgedBy: string,
    resolvedAt: Option<int>,
    currentStep: string)

  datatype EscState = EscState(
    currentStepID: string,
    stepEnteredAt: int,
    retryCount: int,
    lastNotifiedAt: Option<int>,
    loopCount: int)

  datatype EventKind = Triggered | Notified | Ack | Escalated | ResolvedEvent

  datatype Event = Event(alertID: string, kind: EventKind, channel: string, user: string)

  datatype Monitor = Monitor(
    orgID: string,
    downSeverity: string,
    degradedSeverity: string,
    policyID: string,
    muted: bool,
    autoResolve: bool)

  datatype Policy = Policy(loops: bool, maxLoops: Option<int>)

  datatype Step = Step(id: string, position: int, waitSeconds: int, repeatCount: int)

  /** The configuration tables: read by the engine, edited by the API. */
  datatype Config = Config(
    monitors: map<string, Monitor>,
    policies: map<string, Policy>,
    steps: map<string, seq<Step>>)
  {
    /** The steps of a policy, ordered by position; none for an unknown policy. */
    function StepsOf(policyID: string): seq<Step> {
      if policyID in steps then steps[policyID] else []
    }
  }

  datatype Channel = Channel(orgID: string, kind: string, enabled: bool)

  /** One target of a step: the users it resolves to, and its channel row, if any. */
  datatype Target = Target(users: Option<seq<string>>, channel: Option<Channel>)

  /** What one notification round finds outside the engine's own rows. */
  datatype Surroundings = Surroundings(suppressed: bool, targets: Option<seq<Target>>)

  datatype Job = Job(alertID: string, orgID: string, channel: string, user: string, dedupeKey: string)

  /** One call of notifyStep: which step of which alert, on which loop and retry, entered when. */
  datatype Round = Round(alertID: string, stepID: string, loop: int, retry: int, at: int)

  datatype State = State(
    alerts: map<string, Alert>,
    escalation: map<string, EscState>,
    events: seq<Event>,
    gauge: map<string, int>,
    outbox: seq<Job>,
    rounds: seq<Round>)

  const Empty := State(map[], map[], [], map[], [], [])

  // ---------- Queries ----------

  predicate Unresolved(s: State, id: string) {
    id in s.alerts && s.alerts[id].status != Resolved
  }

  predicate ActiveFor(s: State, id: string, monitorID: string) {
    Unresolved(s, id) && s.alerts[id].monitorID == monitorID
  }

  /** The unique index on the alerts table: one unresolved alert per monitor. */
  ghost predicate UniqueActive(s: State) {
    forall i, j :: Unresolved(s, i) && Unresolved(s, j) && s.alerts[i].monitorID == s.alerts[j].monitorID ==> i == j
  }

  ghost function ActiveOf(s: State, monitorID: string): Option<string> {
    if exists id :: ActiveFor(s, id, monitorID) then
      var id :| ActiveFor(s, id, monitorID);
      Some(id)
    else
      None
  }

  function GaugeOf(gauge: map<string, int>, org: string): int {
    if org in gauge then gauge[org] else 0
  }

  /** Index of the step with the given id, if the policy still has one. */
  function FindStep(steps: seq<Step>, id: string): (found: Option<nat>)
    ensures found.None? ==> forall i :: 0 <= i < |steps| ==> steps[i].id != id
    ensures found.Some? ==> found.value < |steps| && steps[found.value].id == id
    ensures found.Some? ==> forall i :: 0 <= i < found.value ==> steps[i].id != id
  {
    if steps == [] then None
    else if steps[0].id == id then Some(0)
    else match FindStep(steps[1..], id)
      case None => None
      case Some(i) => Some(i + 1)
  }

  /** First step, in order of position, beyond the given position. */
  function NextStep(steps: seq<Step>, position: int): (next: Option<Step>)
    ensures next.None? ==> forall i :: 0 <= i < |steps| ==> steps[i].position <= position
    ensures next.Some? ==> exists i :: 0 <= i < |steps| && next.value == steps[i] && steps[i].position > position
                                       && forall j :: 0 <= j < i ==> steps[j].position <= position
  {
    if steps == [] then None
    else if steps[0].position > position then Some(steps[0])
    else NextStep(steps[1..], position)
  }

  // ---------- Row updates ----------

  function AddGauge(s: State, org: string, delta: int): State {
    s.(gauge := s.gauge[org := GaugeOf(s.gauge, org) + delta])
  }

  function Log(s: State, e: Event): State {
    s.(events := s.events + [e])
  }

  /** The UPDATE statement: it leaves monitor, organisation, error and start time as stored. */
  function UpdateRow(s: State, a: Alert): State {
    if a.id in s.alerts then
      var row := s.alerts[a.id];
      s.(alerts := s.alerts[a.id := row.(status := a.status, severity := a.severity,
                                         acknowledgedAt := a.acknowledgedAt, acknowledgedBy := a.acknowledgedBy,
                                         resolvedAt := a.resolvedAt, currentStep := a.currentStep)])
    else s
  }

  function Upsert(s: State, id: string, st: EscState): State {
    s.(escalation := s.escalation[id := st])
  }

  // ---------- Notification rounds ----------

  function UserJobs(alertID: string, org: string, kind: string, stepID: string, users: seq<string>): (jobs: seq<Job>)
    ensures |jobs| == |users|
    ensures forall i :: 0 <= i < |jobs| ==> jobs[i].user == users[i]
  {
    seq(|users|, i requires 0 <= i < |users| =>
      Job(alertID, org, kind, users[i], alertID + "-" + stepID + "-" + users[i]))
  }

  /** Jobs of one target; none if it does not resolve or its channel is missing, foreign or disabled. */
  function TargetJobs(alertID: string, org: string, monitorOrg: string, stepID: string, t: Target): seq<Job> {
    if t.users.None? || t.channel.None? || t.channel.value.orgID != monitorOrg || !t.channel.value.enabled then []
    else UserJobs(alertID, org, t.channel.value.kind, stepID, t.users.value)
  }

  function Jobs(alertID: string, org: string, monitorOrg: string, stepID: string, targets: seq<Target>): seq<Job> {
    if targets == [] then []
    else
      Jobs(alertID, org, monitorOrg, stepID, targets[..|targets| - 1])
      + TargetJobs(alertID, org, monitorOrg, stepID, targets[|targets| - 1])
  }

  function NotifiedEvents(jobs: seq<Job>): (events: seq<Event>)
    ensures |events| == |jobs|
    ensures forall i :: 0 <= i < |jobs| ==> events[i] == Event(jobs[i].alertID, Notified, jobs[i].channel, jobs[i].user)
  {
    seq(|jobs|, i requires 0 <= i < |jobs| => Event(jobs[i].alertID, Notified, jobs[i].channel, jobs[i].user))
  }

  /** The jobs a round sends: none during a suppressing maintenance window. */
  function RoundJobs(a: Alert, monitorOrg: string, stepID: string, env: Surroundings): seq<Job> {
    if env.suppressed || env.targets.None? then []
    else Jobs(a.id, a.orgID, monitorOrg, stepID, env.targets.value)
  }

  function Notify(s: State, a: Alert, monitorOrg: string, st: EscState, now: int, env: Surroundings): State {
    var round := Round(a.id, st.currentStepID, st.loopCount, st.retryCount, st.stepEnteredAt);
    var s1 := s.(rounds := s.rounds + [round]);
    if env.suppressed || env.targets.None? then s1
    else
      var jobs := RoundJobs(a, monitorOrg, st.currentStepID, env);
      Upsert(s1, a.id, st.(lastNotifiedAt := Some(now)))
        .(events := s1.events + NotifiedEvents(jobs), outbox := s1.outbox + jobs)
  }

  // ---------- Handlers ----------

  function SeverityFor(m: Monitor, status: CheckStatus): string {
    if status == Degraded then
      (if m.degradedSeverity == "" then "warning" else m.degradedSeverity)
    else
      (if m.downSeverity == "" then "critical" else m.downSeverity)
  }

  function NewAlert(m: Monitor, monitorID: string, status: CheckStatus, error: string, id: string, now: int): Alert {
    Alert(id, monitorID, m.orgID, Firing, SeverityFor(m, status), error, now, None, "", None, "")
  }

  /** The rows after an alert has been inserted, counted and logged, but before it escalates. */
  function Opened(s: State, a: Alert): State {
    Log(AddGauge(s.(alerts := s.alerts[a.id := a]), a.orgID, 1), Event(a.id, Triggered, "", ""))
  }

  ghost function Trigger(s: State, cfg: Config, monitorID: string, status: CheckStatus, error: string,
                         id: string, now: int, env: Surroundings): State
  {
    if monitorID !in cfg.monitors || ActiveOf(s, monitorID).Some? then s
    else
      var m := cfg.monitors[monitorID];
      var a := NewAlert(m, monitorID, status, error, id, now);
      var s1 := Opened(s, a);
      var steps := cfg.StepsOf(m.policyID);
      if m.muted || m.policyID == "" || steps == [] then s1
      else
        var st := EscState(steps[0].id, now, 0, None, 0);
        var a' := a.(currentStep := steps[0].id);
        Notify(Upsert(UpdateRow(s1, a'), id, st), a', m.orgID, st, now, env)
  }

  /** Resolving an alert: its row, the gauge, its escalation row and its timeline. */
  function Resolve(s: State, id: string, now: int): State
    requires id in s.alerts
  {
    var a := s.alerts[id];
    var s1 := AddGauge(s.(alerts := s.alerts[id := a.(status := Resolved, resolvedAt := Some(now))]), a.orgID, -1);
    Log(s1.(escalation := s1.escalation - {id}), Event(id, ResolvedEvent, "", ""))
  }

  ghost function Recover(s: State, monitorID: string, now: int): State {
    match ActiveOf(s, monitorID)
    case None => s
    case Some(id) => Resolve(s, id, now)
  }

  function Acknowledge(s: State, id: string, user: string, channel: string, now: int): State {
    if id !in s.alerts || s.alerts[id].status == Resolved then s
    else
      var a := s.alerts[id].(status := Acknowledged, acknowledgedAt := Some(now), acknowledgedBy := user);
      Log(s.(alerts := s.alerts[id := a]), Event(id, Ack, channel, user))
  }

  // ---------- One alert's turn in a tick ----------

  datatype Move = Idle | Retry(step: Step) | Advance(step: Step) | Restart(step: Step)

  /** What the tick does with an alert copy, decided from the stored rows and the clock. */
  function Choose(s: State, cfg: Config, copy: Alert, now: int): Move {
    if copy.id !in s.escalation || copy.monitorID !in cfg.monitors then Idle
    else
      var st := s.escalation[copy.id];
      var policyID := cfg.monitors[copy.monitorID].policyID;
      var steps := cfg.StepsOf(policyID);
      if policyID == "" || steps == [] then Idle
      else match FindStep(steps, st.currentStepID)
        case None => Idle
        case Some(i) =>
          if now - st.stepEnteredAt < steps[i].waitSeconds then Idle
          else if st.retryCount < steps[i].repeatCount then Retry(steps[i])
          else match NextStep(steps, steps[i].position)
            case Some(next) => Advance(next)
            case None =>
              if policyID !in cfg.policies || !cfg.policies[policyID].loops then Idle
              else
                var maxLoops := cfg.policies[policyID].maxLoops;
                if maxLoops.Some? && st.loopCount >= maxLoops.value then Idle
                else Restart(steps[0])
  }

  function Moved(st: EscState, move: Move, now: int): EscState {
    match move
    case Idle => st
    case Retry(_) => st.(retryCount := st.retryCount + 1, stepEnteredAt := now)
    case Advance(next) => st.(currentStepID := next.id, stepEnteredAt := now, retryCount := 0)
    case Restart(first) =>
      st.(currentStepID := first.id, stepEnteredAt := now, retryCount := 0, loopCount := st.loopCount + 1)
  }

  /** The turn writes back the copy the tick listed, which may be older than the stored row. */
  function Turn(s: State, cfg: Config, copy: Alert, now: int, env: Surroundings): State {
    var move := Choose(s, cfg, copy, now);
    if move.Idle? then s
    else
      var st := Moved(s.escalation[copy.id], move, now);
      var s1 := Upsert(s, copy.id, st);
      var monitorOrg := cfg.monitors[copy.monitorID].orgID;
      if move.Retry? then Notify(s1, copy, monitorOrg, st, now, env)
      else
        var copy' := copy.(currentStep := move.step.id);
        var s2 := Log(UpdateRow(s1, copy'), Event(copy.id, Escalated, "", ""));
        Notify(s2, copy', monitorOrg, st, now, env)
  }
}
