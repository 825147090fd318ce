/**
 * From check results to alerts: the scheduler's change detection, and the end-to-end theorem about
 * which histories of results leave an unresolved alert behind.
 */
module Detector {
  import opened Common
  import opened Escalation
  import opened EscalationInvariants
  import opened EscalationSafety
  import opened EscalationRows

  datatype Signal = Nothing | RaiseAlert | ClearAlert

  /** The event published for a result, given the previous status if one is known. */
  function SignalFor(previous: Option<CheckStatus>, result: CheckStatus): Signal {
    if previous.None? then Nothing
    else if result != Up && previous.value == Up then RaiseAlert
    else if result == Down && previous.value == Degraded then RaiseAlert
    else if result == Up && previous.value != Up then ClearAlert
    else Nothing
  }

  /** The scheduler's in-memory statuses; the check log is read only for a monitor not seen since the start. */
  class Scheduler {
    var lastStatus: map<string, CheckStatus>

    constructor ()
      ensures lastStatus == map[]
    {
      lastStatus := map[];
    }

    /** `latest` is the newest row of the check log at the time of the look-up. */
    method ExecuteCheck(monitorID: string, result: CheckStatus, latest: Option<CheckStatus>) returns (signal: Signal)
      modifies this
      ensures lastStatus == old(lastStatus)[monitorID := result]
      ensures signal == SignalFor(if monitorID in old(lastStatus) then Some(old(lastStatus)[monitorID]) else latest, result)
    {
      var previous: Option<CheckStatus> := None;
      if monitorID in lastStatus {
        previous := Some(lastStatus[monitorID]);
      } else if latest.Some? {
        previous := latest;
      }
      lastStatus := lastStatus[monitorID := result];
      signal := Nothing;
      if (result == Down || result == Degraded) && previous == Some(Up) {
        signal := RaiseAlert;
      } else if result == Down && previous == Some(Degraded) {
        signal := RaiseAlert;
      } else if result == Up && (previous == Some(Down) || previous == Some(Degraded)) {
        signal := ClearAlert;
      }
    }
  }

  // ---------- The whole site ----------

  /** Rows and engine, the scheduler's memory, and every monitor's results so far, whether or not they were stored. */
  datatype Site = Site(engine: World, last: map<string, CheckStatus>, log: map<string, seq<CheckStatus>>)

  datatype SiteOp =
    | Check(monitorID: string, result: CheckStatus, error: string, newID: string, now: int, env: Surroundings,
            latest: Option<CheckStatus>)
    | RestartScheduler
    | Engine(op: Op)

  function LogOf(site: Site, m: string): seq<CheckStatus> {
    if m in site.log then site.log[m] else []
  }

  function LastOf(log: seq<CheckStatus>): Option<CheckStatus> {
    if log == [] then None else Some(log[|log| - 1])
  }

  /**
   * The status the detector compares with: for a monitor not seen since the start, the newest stored row.
   * Results reach the store through an asynchronous writer that may drop them, so that row may be any: an
   * earlier result, the result itself, or none.
   */
  function PreviousFor(site: Site, m: string, latest: Option<CheckStatus>): Option<CheckStatus> {
    if m in site.last then Some(site.last[m]) else latest
  }

  /** Whether an alert stands once a signal has been handled. */
  function Effect(signal: Signal, standing: bool): bool {
    match signal
    case RaiseAlert => true
    case ClearAlert => false
    case Nothing => standing
  }

  function OpFor(signal: Signal, m: string, result: CheckStatus, error: string, newID: string, now: int, env: Surroundings): Op {
    match signal
    case Nothing => DoList
    case RaiseAlert => DoTrigger(m, result, error, newID, now, env)
    case ClearAlert => DoRecover(m, now)
  }

  /**
   * Alerts are raised and cleared only by checks of known monitors; acknowledgements, listings, turns and edits
   * of the configuration that remove no monitor come from outside.
   */
  predicate Allowed(site: Site, op: SiteOp) {
    match op
    case Check(m, _, _, newID, _, _, _) => newID !in site.engine.db.alerts && m in site.engine.cfg.monitors
    case RestartScheduler => true
    case Engine(op) =>
      match op
      case DoConfigure(cfg) => site.engine.cfg.monitors.Keys <= cfg.monitors.Keys
      case _ => op.DoAck? || op.DoList? || op.DoTurn?
  }

  ghost function NextSite(site: Site, op: SiteOp): Site {
    if !Allowed(site, op) then site
    else match op
      case Check(m, result, error, newID, now, env, latest) =>
        var signal := SignalFor(PreviousFor(site, m, latest), result);
        Site(Next(site.engine, OpFor(signal, m, result, error, newID, now, env)),
             site.last[m := result], site.log[m := LogOf(site, m) + [result]])
      case RestartScheduler => site.(last := map[])
      case Engine(op) => site.(engine := Next(site.engine, op))
  }

  ghost function RunSite(site: Site, ops: seq<SiteOp>): Site {
    if ops == [] then site else NextSite(RunSite(site, ops[..|ops| - 1]), ops[|ops| - 1])
  }

  function NewSite(cfg: Config): Site {
    Site(Start(cfg), map[], map[])
  }

  ghost predicate HasAlert(s: State, m: string) {
    exists id :: ActiveFor(s, id, m)
  }

  /** The latest result is not up, and some earlier result was up or some step went from degraded to down. */
  ghost predicate AlertDue(log: seq<CheckStatus>) {
    && log != [] && log[|log| - 1] != Up
    && ((exists i :: 0 <= i < |log| && log[i] == Up)
        || (exists i {:trigger log[i]} :: 0 <= i < |log| - 1 && log[i] == Degraded && log[i + 1] == Down))
  }

  /** One more result changes what is due exactly as its signal says. */
  lemma AlertDueStep(log: seq<CheckStatus>, result: CheckStatus)
    ensures AlertDue(log + [result]) == Effect(SignalFor(LastOf(log), result), AlertDue(log))
  {
    var log' := log + [result];
    if log != [] {
      var n := |log|;
      assert log'[n - 1] == log[n - 1] && log'[n] == result;
      if AlertDue(log) && result != Up {
        if i :| 0 <= i < |log| && log[i] == Up {
          assert log'[i] == Up;
        } else {
          var i :| 0 <= i < |log| - 1 && log[i] == Degraded && log[i + 1] == Down;
          assert log'[i] == Degraded && log'[i + 1] == Down;
        }
      }
      if AlertDue(log') && SignalFor(LastOf(log), result) == Nothing {
        if i :| 0 <= i < |log'| && log'[i] == Up {
          assert i < n && log[i] == Up;
        } else {
          var i :| 0 <= i < |log'| - 1 && log'[i] == Degraded && log'[i + 1] == Down;
          assert log[i] == Degraded;
          assert i + 1 < n ==> log[i + 1] == Down;
        }
      }
    }
  }

  /** The engine's own operations, taken by the site. */
  function Wrapped(ops: seq<Op>): seq<SiteOp> {
    if ops == [] then [] else Wrapped(ops[..|ops| - 1]) + [SiteOp.Engine(ops[|ops| - 1])]
  }

  /** Whatever acknowledgements, listings and turns the engine can run, and edits that remove no monitor, the site can too. */
  lemma {:induction false} EngineRunsInSite(site: Site, ops: seq<Op>)
    requires forall op :: op in ops ==> op.DoAck? || op.DoList? || op.DoTurn? || op.DoConfigure?
    requires forall op :: op in ops && op.DoConfigure? ==> site.engine.cfg.monitors.Keys == op.cfg.monitors.Keys
    ensures RunSite(site, Wrapped(ops)) == site.(engine := Run(site.engine, ops))
    ensures Run(site.engine, ops).cfg.monitors.Keys == site.engine.cfg.monitors.Keys
  {
    if ops != [] {
      EngineRunsInSite(site, ops[..|ops| - 1]);
      assert Wrapped(ops)[..|Wrapped(ops)| - 1] == Wrapped(ops[..|ops| - 1]);
    }
  }

  // ---------- What the engine does to the presence of an alert ----------

  lemma RaisePresence(s: State, cfg: Config, m: string, status: CheckStatus, error: string, newID: string,
                      now: int, env: Surroundings, other: string)
    requires m in cfg.monitors && newID !in s.alerts
    ensures HasAlert(Trigger(s, cfg, m, status, error, newID, now, env), m)
    ensures other != m ==> (HasAlert(Trigger(s, cfg, m, status, error, newID, now, env), other) <==> HasAlert(s, other))
  {
    if ActiveOf(s, m).None? {
      var a := TriggerAddsRow(s, cfg, m, status, error, newID, now, env);
      RowAddsPresence(s, Trigger(s, cfg, m, status, error, newID, now, env), newID, a, other);
    }
  }

  lemma RowAddsPresence(s: State, s': State, newID: string, a: Alert, other: string)
    requires newID !in s.alerts && s'.alerts == s.alerts[newID := a] && a.status == Firing
    ensures HasAlert(s', a.monitorID)
    ensures other != a.monitorID ==> (HasAlert(s', other) <==> HasAlert(s, other))
  {
    assert ActiveFor(s', newID, a.monitorID);
    if other != a.monitorID {
      assert forall id :: ActiveFor(s', id, other) <==> ActiveFor(s, id, other);
    }
  }

  lemma ClearPresence(s: State, m: string, now: int, other: string)
    requires UniqueActive(s)
    ensures !HasAlert(Recover(s, m, now), m)
    ensures other != m ==> (HasAlert(Recover(s, m, now), other) <==> HasAlert(s, other))
  {
    var s' := Recover(s, m, now);
    assert forall id :: other != m ==> (ActiveFor(s', id, other) <==> ActiveFor(s, id, other));
    assert forall id :: ActiveFor(s', id, m) ==> ActiveFor(s, id, m);
  }

  lemma SameUnresolved(s: State, s': State, other: string)
    requires forall id :: ActiveFor(s', id, other) <==> ActiveFor(s, id, other)
    ensures HasAlert(s', other) <==> HasAlert(s, other)
  {
  }

  lemma AckPresence(s: State, id: string, user: string, channel: string, now: int, other: string)
    ensures HasAlert(Acknowledge(s, id, user, channel, now), other) <==> HasAlert(s, other)
  {
    SameUnresolved(s, Acknowledge(s, id, user, channel, now), other);
  }

  lemma TurnPresence(s: State, cfg: Config, copy: Alert, now: int, env: Surroundings, other: string)
    requires Inv(s) && CopyOf(s, copy)
    ensures HasAlert(Turn(s, cfg, copy, now, env), other) <==> HasAlert(s, other)
  {
    assert copy.id in s.escalation ==> Unresolved(s, copy.id);
    TurnStatuses(s, cfg, copy, now, env);
    SameUnresolved(s, Turn(s, cfg, copy, now, env), other);
  }

  /**
   * From a result to the stored row: a known monitor whose previous status was up and has no unresolved alert gets
   * an alert with the result's severity, its error and its time, and a result of up resolves the one it has.
   */
  lemma CheckWritesRow(site: Site, op: SiteOp, id: string)
    requires WorldInv(site.engine) && op.Check? && Allowed(site, op)
    ensures var before := if op.monitorID in site.last then Some(site.last[op.monitorID]) else op.latest;
      var db, db' := site.engine.db, NextSite(site, op).engine.db; var cfg := site.engine.cfg;
      && (before == Some(Up) && op.result != Up && !HasAlert(db, op.monitorID) ==>
            && op.newID in db'.alerts && db'.alerts[op.newID].status == Firing
            && OpenedBy(db'.alerts[op.newID], cfg, DoTrigger(op.monitorID, op.result, op.error, op.newID, op.now, op.env)))
      && (before.Some? && before.value != Up && op.result == Up && ActiveFor(db, id, op.monitorID) ==>
            id in db'.alerts && db'.alerts[id] == db.alerts[id].(status := Resolved, resolvedAt := Some(op.now)))
      && (before == Some(op.result) || before.None? ==> db' == db)
  {
    var before := if op.monitorID in site.last then Some(site.last[op.monitorID]) else op.latest;
    var db := site.engine.db;
    if before == Some(Up) && op.result != Up && !HasAlert(db, op.monitorID) {
      OpenedRow(db, site.engine.cfg, op.monitorID, op.result, op.error, op.newID, op.now, op.env);
    }
    if ActiveFor(db, id, op.monitorID) {
      assert UniqueActive(db);
    }
  }

  // ---------- The theorem ----------

  /** What holds in every run: the engine's invariant, and a memory that agrees with the results. */
  ghost predicate SiteSound(site: Site) {
    && WorldInv(site.engine)
    && (forall m :: m in site.last ==> LastOf(LogOf(site, m)) == Some(site.last[m]))
  }

  /** Alerts are exactly what is due. */
  ghost predicate Agrees(site: Site) {
    forall m :: HasAlert(site.engine.db, m) <==> AlertDue(LogOf(site, m))
  }

  /** Whatever was looked up, a check's signal sets its monitor's alert, and leaves every other alone. */
  lemma CheckMovesAlert(site: Site, op: SiteOp)
    requires SiteSound(site) && op.Check? && Allowed(site, op)
    ensures var m := op.monitorID; var site' := NextSite(site, op);
      && SiteSound(site')
      && (HasAlert(site'.engine.db, m)
          <==> Effect(SignalFor(PreviousFor(site, m, op.latest), op.result), HasAlert(site.engine.db, m)))
      && forall other :: other != m ==>
           (HasAlert(site'.engine.db, other) <==> HasAlert(site.engine.db, other)) && LogOf(site', other) == LogOf(site, other)
  {
    var m := op.monitorID;
    var signal := SignalFor(PreviousFor(site, m, op.latest), op.result);
    StepKeepsInv(site.engine, OpFor(signal, m, op.result, op.error, op.newID, op.now, op.env));
    SignalPresence(site.engine, signal, op);
  }

  /** A signal sets the presence of its own monitor's alert, and of no other's. */
  lemma SignalPresence(w: World, signal: Signal, op: SiteOp)
    requires WorldInv(w) && op.Check? && op.monitorID in w.cfg.monitors && op.newID !in w.db.alerts
    ensures var db' := Next(w, OpFor(signal, op.monitorID, op.result, op.error, op.newID, op.now, op.env)).db;
      && (signal.RaiseAlert? ==> HasAlert(db', op.monitorID))
      && (signal.ClearAlert? ==> !HasAlert(db', op.monitorID))
      && forall other :: other != op.monitorID || signal.Nothing? ==> (HasAlert(db', other) <==> HasAlert(w.db, other))
  {
    var m := op.monitorID;
    var db' := Next(w, OpFor(signal, m, op.result, op.error, op.newID, op.now, op.env)).db;
    forall other
      ensures signal.RaiseAlert? ==> HasAlert(db', m)
      ensures signal.ClearAlert? ==> !HasAlert(db', m)
      ensures other != m || signal.Nothing? ==> (HasAlert(db', other) <==> HasAlert(w.db, other))
    {
      match signal
      case Nothing =>
      case RaiseAlert => RaisePresence(w.db, w.cfg, m, op.result, op.error, op.newID, op.now, op.env, other);
      case ClearAlert => ClearPresence(w.db, m, op.now, other);
    }
  }

  lemma EngineOpKeepsAlerts(site: Site, op: SiteOp)
    requires SiteSound(site) && op.Engine? && Allowed(site, op)
    ensures SiteSound(NextSite(site, op))
    ensures forall m :: HasAlert(NextSite(site, op).engine.db, m) <==> HasAlert(site.engine.db, m)
  {
    StepKeepsInv(site.engine, op.op);
    forall m ensures HasAlert(Next(site.engine, op.op).db, m) <==> HasAlert(site.engine.db, m) {
      match op.op
      case DoAck(id, user, channel, now) => AckPresence(site.engine.db, id, user, channel, now, m);
      case DoTurn(copy, now, env) =>
        if copy in site.engine.copies {
          TurnPresence(site.engine.db, site.engine.cfg, copy, now, env, m);
        }
      case _ =>
    }
  }

  lemma StepKeepsSound(site: Site, op: SiteOp)
    requires SiteSound(site)
    ensures SiteSound(NextSite(site, op))
  {
    if Allowed(site, op) {
      match op
      case Check(_, _, _, _, _, _, _) => CheckMovesAlert(site, op);
      case RestartScheduler =>
      case Engine(_) => EngineOpKeepsAlerts(site, op);
    }
  }

  lemma {:induction false} EveryRunIsSound(cfg: Config, ops: seq<SiteOp>)
    ensures SiteSound(RunSite(NewSite(cfg), ops))
  {
    if ops == [] {
      EveryRunIsSafe(cfg, []);
    } else {
      EveryRunIsSound(cfg, ops[..|ops| - 1]);
      StepKeepsSound(RunSite(NewSite(cfg), ops[..|ops| - 1]), ops[|ops| - 1]);
    }
  }

  /**
   * A look-up does no harm: the monitor is remembered, or the signal for the row looked up leaves the alert where
   * the signal for the monitor's own last result would.
   */
  ghost predicate Harmless(site: Site, op: SiteOp) {
    op.Check? && Allowed(site, op) && op.monitorID !in site.last ==>
      var log := LogOf(site, op.monitorID);
      Effect(SignalFor(op.latest, op.result), AlertDue(log)) == Effect(SignalFor(LastOf(log), op.result), AlertDue(log))
  }

  /**
   * In terms of the statuses: a look-up does harm exactly when it hides an up result from a standing alert, or
   * when it and the monitor's own last result differ on whether the result raises an alert that is not due yet.
   */
  lemma HarmExactly(site: Site, op: SiteOp)
    requires op.Check? && Allowed(site, op) && op.monitorID !in site.last
    ensures var log := LogOf(site, op.monitorID);
      !Harmless(site, op) <==>
        if op.result == Up then AlertDue(log) && (op.latest == None || op.latest == Some(Up))
        else !AlertDue(log) && SignalFor(op.latest, op.result).RaiseAlert? != SignalFor(LastOf(log), op.result).RaiseAlert?
  {
  }

  /** Exactly when one operation keeps alerts and what is due in agreement. */
  lemma StepAgreesExactly(site: Site, op: SiteOp)
    requires SiteSound(site) && Agrees(site)
    ensures Agrees(NextSite(site, op)) <==> Harmless(site, op)
  {
    if Allowed(site, op) {
      match op
      case Check(m, result, _, _, _, _, _) =>
        CheckMovesAlert(site, op);
        AlertDueStep(LogOf(site, m), result);
        assert LogOf(NextSite(site, op), m) == LogOf(site, m) + [result];
      case RestartScheduler =>
      case Engine(_) => EngineOpKeepsAlerts(site, op);
    }
  }

  /** Every look-up of the run is harmless when it comes. */
  ghost predicate AllHarmless(site: Site, ops: seq<SiteOp>) {
    ops != [] ==>
      var before := ops[..|ops| - 1];
      AllHarmless(site, before) && Harmless(RunSite(site, before), ops[|ops| - 1])
  }

  /** Alerts are exactly what is due at the start and after every operation of the run. */
  ghost predicate AgreesThroughout(site: Site, ops: seq<SiteOp>) {
    Agrees(RunSite(site, ops)) && (ops != [] ==> AgreesThroughout(site, ops[..|ops| - 1]))
  }

  /**
   * End to end: over any run of checks of any monitors, scheduler restarts, acknowledgements, ticks and edits,
   * with any rows looked up, it holds at all times that a monitor has an unresolved alert exactly when its latest
   * result is not up and either some result was up before or the results stepped from degraded to down, if and
   * only if every look-up of the run was harmless.
   */
  lemma {:induction false} AlertExactlyWhenDue(cfg: Config, ops: seq<SiteOp>)
    ensures AgreesThroughout(NewSite(cfg), ops) <==> AllHarmless(NewSite(cfg), ops)
  {
    if ops != [] {
      var before := ops[..|ops| - 1];
      AlertExactlyWhenDue(cfg, before);
      EveryRunIsSound(cfg, before);
      if AgreesThroughout(NewSite(cfg), before) {
        StepAgreesExactly(RunSite(NewSite(cfg), before), ops[|ops| - 1]);
      }
    }
  }

  /** A look-up that finds the monitor's own last result is harmless. */
  lemma OwnResultIsHarmless(site: Site, op: SiteOp)
    requires op.Check? && op.monitorID !in site.last ==> op.latest == LastOf(LogOf(site, op.monitorID))
    ensures Harmless(site, op)
  {
  }

  /** Every look-up of a monitor not remembered finds the monitor's own last result. */
  ghost predicate RowsKept(site: Site, ops: seq<SiteOp>) {
    ops != [] ==>
      var before := ops[..|ops| - 1];
      var s, op := RunSite(site, before), ops[|ops| - 1];
      && RowsKept(site, before)
      && (op.Check? && op.monitorID !in s.last ==> op.latest == LastOf(LogOf(s, op.monitorID)))
  }

  lemma {:induction false} KeptRowsAreHarmless(site: Site, ops: seq<SiteOp>)
    requires RowsKept(site, ops)
    ensures AllHarmless(site, ops)
  {
    if ops != [] {
      KeptRowsAreHarmless(site, ops[..|ops| - 1]);
      OwnResultIsHarmless(RunSite(site, ops[..|ops| - 1]), ops[|ops| - 1]);
    }
  }

  /** With a writer that stores every result in time, and none too early, alerts are what is due throughout. */
  lemma KeptRowsAgreeThroughout(cfg: Config, ops: seq<SiteOp>)
    requires RowsKept(NewSite(cfg), ops)
    ensures AgreesThroughout(NewSite(cfg), ops)
  {
    KeptRowsAreHarmless(NewSite(cfg), ops);
    AlertExactlyWhenDue(cfg, ops);
  }

  // ---------- Two runs that disagree ----------

  lemma RunOfChecks(s: Site, ops: seq<SiteOp>, op: SiteOp)
    ensures RunSite(s, ops + [op]) == NextSite(RunSite(s, ops), op)
  {
    assert (ops + [op])[..|ops|] == ops;
  }

  lemma RunOfTwo(s: Site, a: SiteOp, b: SiteOp)
    ensures RunSite(s, [a, b]) == NextSite(NextSite(s, a), b)
  {
    assert [a] == [] + [a] && [a, b] == [a] + [b];
    RunOfChecks(s, [], a);
    RunOfChecks(s, [a], b);
  }

  lemma RunOfThree(s: Site, a: SiteOp, b: SiteOp, c: SiteOp)
    ensures RunSite(s, [a, b, c]) == NextSite(NextSite(NextSite(s, a), b), c)
  {
    assert [a, b, c] == [a, b] + [c];
    RunOfTwo(s, a, b);
    RunOfChecks(s, [a, b], c);
  }

  lemma RunOfFour(s: Site, a: SiteOp, b: SiteOp, c: SiteOp, d: SiteOp)
    ensures RunSite(s, [a, b, c, d]) == NextSite(NextSite(NextSite(NextSite(s, a), b), c), d)
  {
    assert [a, b, c, d] == [a, b, c] + [d];
    RunOfThree(s, a, b, c);
    RunOfChecks(s, [a, b, c], d);
  }

  /** A first result opens nothing. */
  lemma FirstResult(cfg: Config, a: SiteOp)
    requires a.Check? && a.latest == None && a.monitorID in cfg.monitors
    ensures var site := NextSite(NewSite(cfg), a);
      && SiteSound(site) && site.engine.db.alerts == map[] && site.engine.cfg == cfg
      && LogOf(site, a.monitorID) == [a.result] && site.last == map[a.monitorID := a.result]
  {
    EveryRunIsSafe(cfg, []);
    CheckMovesAlert(NewSite(cfg), a);
  }

  /** A restart, then a check compared with its own row: the results read up, down, and no alert exists. */
  lemma RacedCheckMissesAlert(cfg: Config, env: Surroundings)
    requires "m" in cfg.monitors
    ensures var ops := [Check("m", Up, "", "a", 0, env, None), RestartScheduler, Check("m", Down, "", "b", 60, env, Some(Down))];
      var site := RunSite(NewSite(cfg), ops);
      LogOf(site, "m") == [Up, Down] && AlertDue(LogOf(site, "m")) && !HasAlert(site.engine.db, "m")
  {
    var a, c := Check("m", Up, "", "a", 0, env, None), Check("m", Down, "", "b", 60, env, Some(Down));
    RunOfThree(NewSite(cfg), a, RestartScheduler, c);
    FirstResult(cfg, a);
    OwnRowIsUnheard(NextSite(NextSite(NewSite(cfg), a), RestartScheduler), c);
    assert [Up, Down][0] == Up;
  }

  /** The monitor goes up, then down: an alert is open. */
  lemma UpThenDown(cfg: Config, a: SiteOp, b: SiteOp)
    requires a.Check? && b.Check? && a.monitorID == b.monitorID && a.monitorID in cfg.monitors
    requires a.result == Up && a.latest == None && b.result == Down
    ensures var site := NextSite(NextSite(NewSite(cfg), a), b);
      && LogOf(site, a.monitorID) == [Up, Down] && HasAlert(site.engine.db, a.monitorID)
      && site.engine.db.alerts.Keys <= {b.newID} && site.engine.cfg == cfg
  {
    FirstResult(cfg, a);
    CheckMovesAlert(NextSite(NewSite(cfg), a), b);
    RaisedRow(NextSite(NewSite(cfg), a), b);
  }

  /** The row of a down result dropped, then a restart: the monitor is up again, and its alert is still open. */
  lemma DroppedRowKeepsAlert(cfg: Config, env: Surroundings)
    requires "m" in cfg.monitors
    ensures var ops := [Check("m", Up, "", "a", 0, env, None), Check("m", Down, "", "b", 60, env, None), RestartScheduler,
                        Check("m", Up, "", "c", 120, env, Some(Up))];
      var site := RunSite(NewSite(cfg), ops);
      LogOf(site, "m") == [Up, Down, Up] && !AlertDue(LogOf(site, "m")) && HasAlert(site.engine.db, "m")
  {
    var a, b := Check("m", Up, "", "a", 0, env, None), Check("m", Down, "", "b", 60, env, None);
    var d := Check("m", Up, "", "c", 120, env, Some(Up));
    RunOfFour(NewSite(cfg), a, b, RestartScheduler, d);
    UpThenDown(cfg, a, b);
    OwnRowIsUnheard(NextSite(NextSite(NextSite(NewSite(cfg), a), b), RestartScheduler), d);
  }

  /** A result compared with a row of the same status publishes nothing. */
  lemma OwnRowIsUnheard(site: Site, op: SiteOp)
    requires op.Check? && Allowed(site, op) && op.monitorID !in site.last && op.latest == Some(op.result)
    ensures NextSite(site, op).engine.db == site.engine.db
    ensures LogOf(NextSite(site, op), op.monitorID) == LogOf(site, op.monitorID) + [op.result]
  {
  }

  /** A check that raises an alert adds no row but its own. */
  lemma RaisedRow(site: Site, op: SiteOp)
    requires op.Check? && Allowed(site, op)
    ensures NextSite(site, op).engine.db.alerts.Keys <= site.engine.db.alerts.Keys + {op.newID}
  {
    var w := site.engine;
    if op.monitorID in w.cfg.monitors && ActiveOf(w.db, op.monitorID).None? {
      var a := TriggerAddsRow(w.db, w.cfg, op.monitorID, op.result, op.error, op.newID, op.now, op.env);
    }
  }
}
