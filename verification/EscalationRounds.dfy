/**
 * Under a fixed configuration an alert's notification rounds walk the lexicographic list of
 * (loop, step, retry), in order, without gaps, never too early, and stop only at its end.
 */
module EscalationRounds {
  import opened Common
  import opened Escalation
  import opened EscalationInvariants
  import opened EscalationSafety

  // ---------- The plan ----------

  datatype Slot = Slot(step: nat, retry: nat)

  /** A step runs once, and once more per repeat. */
  function Repeats(step: Step): nat {
    Max(step.repeatCount, 0) + 1
  }

  function CycleFrom(steps: seq<Step>, i: nat): seq<Slot>
    requires i <= |steps|
    decreases |steps| - i
  {
    if i == |steps| then [] else seq(Repeats(steps[i]), r requires 0 <= r => Slot(i, r)) + CycleFrom(steps, i + 1)
  }

  /** One pass over a policy: every step in order, with its retries. */
  function Cycle(steps: seq<Step>): seq<Slot> {
    CycleFrom(steps, 0)
  }

  predicate Before(a: Slot, b: Slot) {
    a.step < b.step || (a.step == b.step && a.retry < b.retry)
  }

  /** A pass lists exactly the (step, retry) pairs of the policy, in strict lexicographic order. */
  lemma {:induction false} CycleIsLexicographic(steps: seq<Step>, i: nat)
    requires i <= |steps|
    ensures forall x :: x in CycleFrom(steps, i) <==> i <= x.step < |steps| && x.retry < Repeats(steps[x.step])
    ensures forall a, b :: 0 <= a < b < |CycleFrom(steps, i)| ==> Before(CycleFrom(steps, i)[a], CycleFrom(steps, i)[b])
    decreases |steps| - i
  {
    if i < |steps| {
      CycleIsLexicographic(steps, i + 1);
      var head := seq(Repeats(steps[i]), r requires 0 <= r => Slot(i, r));
      var tail := CycleFrom(steps, i + 1);
      forall x: Slot ensures x in head + tail <==> i <= x.step < |steps| && x.retry < Repeats(steps[x.step]) {
        if x.step == i && x.retry < Repeats(steps[i]) {
          assert head[x.retry] == x;
        }
      }
      forall a, b | 0 <= a < b < |head + tail| ensures Before((head + tail)[a], (head + tail)[b]) {
        if a < |head| <= b {
          assert (head + tail)[b] in tail;
        }
      }
    }
  }

  /** The slots of a policy, counted: the sum of repeats + 1 over its steps. */
  function TotalSlots(steps: seq<Step>): nat {
    if steps == [] then 0 else Repeats(steps[0]) + TotalSlots(steps[1..])
  }

  lemma {:induction false} PassLength(steps: seq<Step>, i: nat)
    requires i <= |steps|
    ensures |CycleFrom(steps, i)| == TotalSlots(steps[i..])
    decreases |steps| - i
  {
    if i < |steps| {
      PassLength(steps, i + 1);
      assert steps[i..][1..] == steps[i + 1..] && steps[i..][0] == steps[i];
    }
  }

  /** What follows position j of a pass: the next retry, else the next step, else the end. */
  lemma {:induction false} CycleSuccessor(steps: seq<Step>, i: nat, j: nat)
    requires i <= |steps| && j < |CycleFrom(steps, i)|
    ensures CycleFrom(steps, i)[0] == Slot(i, 0)
    ensures var cycle := CycleFrom(steps, i); var x := cycle[j];
      && i <= x.step < |steps| && x.retry < Repeats(steps[x.step])
      && (x.retry + 1 < Repeats(steps[x.step]) ==> j + 1 < |cycle| && cycle[j + 1] == Slot(x.step, x.retry + 1))
      && (x.retry + 1 == Repeats(steps[x.step]) && x.step + 1 < |steps| ==>
            j + 1 < |cycle| && cycle[j + 1] == Slot(x.step + 1, 0))
      && (x.retry + 1 == Repeats(steps[x.step]) && x.step + 1 == |steps| ==> j + 1 == |cycle|)
    decreases |steps| - i
  {
    var head := seq(Repeats(steps[i]), r requires 0 <= r => Slot(i, r));
    var tail := CycleFrom(steps, i + 1);
    if j >= |head| {
      CycleSuccessor(steps, i + 1, j - |head|);
    } else if j + 1 == |head| && i + 1 < |steps| {
      CycleSuccessor(steps, i + 1, 0);
    }
  }

  /** Steps as the API stores them: positions strictly increasing, ids distinct. */
  ghost predicate OrderedSteps(steps: seq<Step>) {
    forall i, j :: 0 <= i < j < |steps| ==> steps[i].position < steps[j].position && steps[i].id != steps[j].id
  }

  ghost predicate OrderedConfig(cfg: Config) {
    forall p :: p in cfg.steps ==> OrderedSteps(cfg.steps[p])
  }

  /** The last loop a policy may run; none when its loops are unbounded. */
  function LastLoop(cfg: Config, policyID: string): Option<nat> {
    if policyID !in cfg.policies || !cfg.policies[policyID].loops then Some(0)
    else match cfg.policies[policyID].maxLoops
      case None => None
      case Some(m) => Some(Max(m, 0))
  }

  /** The plan has a k-th round. */
  predicate Planned(cfg: Config, policyID: string, k: nat) {
    var steps := cfg.StepsOf(policyID);
    steps != [] && match LastLoop(cfg, policyID)
      case None => true
      case Some(last) => k < (last + 1) * |Cycle(steps)|
  }

  /** The k-th round of the plan: loop by loop, and within a loop slot by slot. */
  predicate IsRound(steps: seq<Step>, k: nat, r: Round) {
    var cycle := Cycle(steps);
    && 0 < |cycle|
    && r.loop == k / |cycle|
    && var x := cycle[k % |cycle|];
       x.step < |steps| && r.stepID == steps[x.step].id && r.retry == x.retry
  }

  lemma CycleNonEmpty(steps: seq<Step>)
    requires steps != []
    ensures |Cycle(steps)| > 0 && Cycle(steps)[0] == Slot(0, 0)
  {
  }

  lemma NextInLoop(k: nat, t: nat)
    requires t > 0
    ensures k % t + 1 < t ==> (k + 1) / t == k / t && (k + 1) % t == k % t + 1
    ensures k % t + 1 == t ==> (k + 1) / t == k / t + 1 && (k + 1) % t == 0
  {
    var q := k / t;
    assert k == q * t + k % t;
    if k % t + 1 < t {
      DivUnique(k + 1, t, q, k % t + 1);
    } else {
      assert k + 1 == (q + 1) * t;
      DivUnique(k + 1, t, q + 1, 0);
    }
  }

  lemma DivUnique(n: nat, t: nat, q: nat, r: nat)
    requires t > 0 && r < t && n == q * t + r
    ensures n / t == q && n % t == r
  {
    var q' := n / t;
    assert n == q' * t + n % t;
    if q' < q {
      MulMono(q' + 1, q, t);
      assert false;
    } else if q < q' {
      MulMono(q + 1, q', t);
      assert false;
    }
  }

  lemma MulMono(a: nat, b: nat, t: nat)
    requires a <= b
    ensures a * t <= b * t
  {
    assert (b - a) * t >= 0;
  }

  /** k lies in loop `last` or an earlier one exactly when it is below the product. */
  lemma LoopBound(k: nat, t: nat, last: nat)
    requires t > 0
    ensures k < (last + 1) * t <==> k / t <= last
  {
    var q := k / t;
    assert k == q * t + k % t;
    if q <= last {
      assert (q + 1) * t <= (last + 1) * t;
    } else {
      assert q * t >= (last + 1) * t;
    }
  }

  // ---------- The rounds an alert has had ----------

  function RoundsOf(rounds: seq<Round>, id: string): seq<Round> {
    if rounds == [] then []
    else
      var before := RoundsOf(rounds[..|rounds| - 1], id);
      var r := rounds[|rounds| - 1];
      if r.alertID == id then before + [r] else before
  }

  lemma RoundsSnoc(rounds: seq<Round>, r: Round, id: string)
    ensures RoundsOf(rounds + [r], id) == if r.alertID == id then RoundsOf(rounds, id) + [r] else RoundsOf(rounds, id)
  {
    assert (rounds + [r])[..|rounds + [r]| - 1] == rounds;
  }

  function WaitOf(steps: seq<Step>, r: Round): int {
    match FindStep(steps, r.stepID)
    case None => 0
    case Some(i) => steps[i].waitSeconds
  }

  /** The rounds follow the plan from its start, each no earlier than the wait of the one before. */
  ghost predicate FollowsPlan(cfg: Config, policyID: string, rs: seq<Round>) {
    var steps := cfg.StepsOf(policyID);
    && (forall k: nat :: k < |rs| ==> Planned(cfg, policyID, k) && IsRound(steps, k, rs[k]))
    && (forall k: nat :: k + 1 < |rs| ==> rs[k + 1].at >= rs[k].at + WaitOf(steps, rs[k]))
  }

  /** The escalation row stands on the alert's latest round. */
  predicate StandsOn(st: EscState, r: Round) {
    st.currentStepID == r.stepID && st.loopCount == r.loop && st.retryCount == r.retry && st.stepEnteredAt == r.at
  }

  ghost predicate RoundsSound(s: State, cfg: Config, id: string) {
    var rs := RoundsOf(s.rounds, id);
    && (id !in s.alerts ==> rs == [] && id !in s.escalation)
    && (id in s.alerts && s.alerts[id].monitorID in cfg.monitors ==>
          FollowsPlan(cfg, cfg.monitors[s.alerts[id].monitorID].policyID, rs))
    && (id in s.alerts && s.alerts[id].monitorID !in cfg.monitors ==> rs == [] && id !in s.escalation)
    && (id in s.escalation ==>
          rs != [] && StandsOn(s.escalation[id], rs[|rs| - 1]) && cfg.monitors[s.alerts[id].monitorID].policyID != "")
  }

  // ---------- One turn is one step of the plan ----------

  lemma FindStepAt(steps: seq<Step>, i: nat)
    requires OrderedSteps(steps) && i < |steps|
    ensures FindStep(steps, steps[i].id) == Some(i)
  {
  }

  lemma NextStepAt(steps: seq<Step>, i: nat)
    requires OrderedSteps(steps) && i < |steps|
    ensures NextStep(steps, steps[i].position) == if i + 1 < |steps| then Some(steps[i + 1]) else None
  {
    var next := NextStep(steps, steps[i].position);
    if next.Some? {
      var j :| 0 <= j < |steps| && next.value == steps[j] && steps[j].position > steps[i].position
               && forall l :: 0 <= l < j ==> steps[l].position <= steps[i].position;
    }
  }

  /** The step, slot and successor of round k. */
  lemma RoundFacts(cfg: Config, p: string, k: nat, r: Round)
    requires OrderedSteps(cfg.StepsOf(p)) && Planned(cfg, p, k) && IsRound(cfg.StepsOf(p), k, r)
    ensures var steps := cfg.StepsOf(p); var cycle := Cycle(steps); var j := k % |cycle|; var x := cycle[j];
      && x.step < |steps| && x.retry < Repeats(steps[x.step])
      && FindStep(steps, r.stepID) == Some(x.step)
      && NextStep(steps, steps[x.step].position) == (if x.step + 1 < |steps| then Some(steps[x.step + 1]) else None)
      && (j + 1 == |cycle| <==> x.retry + 1 == Repeats(steps[x.step]) && x.step + 1 == |steps|)
      && (x.retry + 1 < Repeats(steps[x.step]) ==> cycle[j + 1] == Slot(x.step, x.retry + 1))
      && (x.retry + 1 == Repeats(steps[x.step]) && x.step + 1 < |steps| ==> cycle[j + 1] == Slot(x.step + 1, 0))
      && cycle[0] == Slot(0, 0)
  {
    var steps := cfg.StepsOf(p);
    var j := k % |Cycle(steps)|;
    CycleSuccessor(steps, 0, j);
    FindStepAt(steps, Cycle(steps)[j].step);
    NextStepAt(steps, Cycle(steps)[j].step);
  }

  /** Slot j + 1 of the same pass is round k + 1. */
  lemma NextSlotIsRound(steps: seq<Step>, k: nat, r: Round, r': Round)
    requires IsRound(steps, k, r) && k % |Cycle(steps)| + 1 < |Cycle(steps)|
    requires var x := Cycle(steps)[k % |Cycle(steps)| + 1];
      x.step < |steps| && r'.stepID == steps[x.step].id && r'.retry == x.retry && r'.loop == r.loop
    ensures IsRound(steps, k + 1, r')
  {
    NextInLoop(k, |Cycle(steps)|);
  }

  /** The first slot of the next pass is round k + 1. */
  lemma NextPassIsRound(steps: seq<Step>, k: nat, r: Round, r': Round)
    requires IsRound(steps, k, r) && k % |Cycle(steps)| + 1 == |Cycle(steps)| && Cycle(steps)[0] == Slot(0, 0) && steps != []
    requires r'.stepID == steps[0].id && r'.retry == 0 && r'.loop == r.loop + 1
    ensures IsRound(steps, k + 1, r')
  {
    NextInLoop(k, |Cycle(steps)|);
  }

  /** When the tick leaves a row standing on round k alone. */
  lemma IdleExactly(s: State, cfg: Config, copy: Alert, now: int, k: nat, r: Round)
    requires copy.id in s.escalation && copy.monitorID in cfg.monitors
    requires var p := cfg.monitors[copy.monitorID].policyID;
      p != "" && OrderedSteps(cfg.StepsOf(p)) && Planned(cfg, p, k) && IsRound(cfg.StepsOf(p), k, r)
    requires StandsOn(s.escalation[copy.id], r)
    ensures var p := cfg.monitors[copy.monitorID].policyID;
      Choose(s, cfg, copy, now).Idle? <==> now < r.at + WaitOf(cfg.StepsOf(p), r) || !Planned(cfg, p, k + 1)
  {
    var p := cfg.monitors[copy.monitorID].policyID;
    RoundFacts(cfg, p, k, r);
    PlannedNext(cfg, p, k);
  }

  /** A move of a row standing on round k makes round k + 1 of the plan. */
  lemma MoveIsNextRound(s: State, cfg: Config, copy: Alert, now: int, k: nat, r: Round)
    requires copy.id in s.escalation && copy.monitorID in cfg.monitors
    requires var p := cfg.monitors[copy.monitorID].policyID;
      p != "" && OrderedSteps(cfg.StepsOf(p)) && Planned(cfg, p, k) && IsRound(cfg.StepsOf(p), k, r)
    requires StandsOn(s.escalation[copy.id], r) && !Choose(s, cfg, copy, now).Idle?
    ensures var st := Moved(s.escalation[copy.id], Choose(s, cfg, copy, now), now);
      IsRound(cfg.StepsOf(cfg.monitors[copy.monitorID].policyID), k + 1,
              Round(copy.id, st.currentStepID, st.loopCount, st.retryCount, st.stepEnteredAt))
  {
    var p := cfg.monitors[copy.monitorID].policyID;
    var steps := cfg.StepsOf(p);
    RoundFacts(cfg, p, k, r);
    var move := Choose(s, cfg, copy, now);
    var st := Moved(s.escalation[copy.id], move, now);
    var r' := Round(copy.id, st.currentStepID, st.loopCount, st.retryCount, st.stepEnteredAt);
    if move.Restart? {
      NextPassIsRound(steps, k, r, r');
    } else {
      NextSlotIsRound(steps, k, r, r');
    }
  }

  /** The move chosen for a row standing on round k is the plan's round k + 1, or nothing once its wait is over and no round is left. */
  lemma ChooseFollowsPlan(s: State, cfg: Config, copy: Alert, now: int, k: nat, r: Round)
    requires copy.id in s.escalation && copy.monitorID in cfg.monitors
    requires var p := cfg.monitors[copy.monitorID].policyID;
      p != "" && OrderedSteps(cfg.StepsOf(p)) && Planned(cfg, p, k) && IsRound(cfg.StepsOf(p), k, r)
    requires StandsOn(s.escalation[copy.id], r)
    ensures var p := cfg.monitors[copy.monitorID].policyID; var steps := cfg.StepsOf(p);
      var move := Choose(s, cfg, copy, now); var st := Moved(s.escalation[copy.id], move, now);
      && (move.Idle? <==> now < r.at + WaitOf(steps, r) || !Planned(cfg, p, k + 1))
      && (!move.Idle? ==>
            && IsRound(steps, k + 1, Round(copy.id, st.currentStepID, st.loopCount, st.retryCount, st.stepEnteredAt))
            && st.stepEnteredAt == now)
  {
    IdleExactly(s, cfg, copy, now, k, r);
    if !Choose(s, cfg, copy, now).Idle? {
      MoveIsNextRound(s, cfg, copy, now, k, r);
    }
  }

  /** There is a next round within the pass, or in a next loop if one is allowed. */
  lemma PlannedNext(cfg: Config, p: string, k: nat)
    requires Planned(cfg, p, k)
    ensures var t := |Cycle(cfg.StepsOf(p))|; var last := LastLoop(cfg, p);
      && t > 0
      && (last.Some? ==> k / t <= last.value)
      && (Planned(cfg, p, k + 1) <==> k % t + 1 < t || last.None? || k / t < last.value)
  {
    var t := |Cycle(cfg.StepsOf(p))|;
    CycleNonEmpty(cfg.StepsOf(p));
    NextInLoop(k, t);
    if LastLoop(cfg, p).Some? {
      LoopBound(k, t, LastLoop(cfg, p).value);
      LoopBound(k + 1, t, LastLoop(cfg, p).value);
    }
  }

  // ---------- Every step of a run keeps the rounds sound ----------

  lemma NotifyRounds(s: State, a: Alert, org: string, st: EscState, now: int, env: Surroundings, id: string)
    requires a.id in s.escalation && s.escalation[a.id] == st
    ensures var s' := Notify(s, a, org, st, now, env);
      var r := Round(a.id, st.currentStepID, st.loopCount, st.retryCount, st.stepEnteredAt);
      && RoundsOf(s'.rounds, id) == (if id == a.id then RoundsOf(s.rounds, id) + [r] else RoundsOf(s.rounds, id))
      && s'.alerts == s.alerts && s'.escalation.Keys == s.escalation.Keys
      && (forall i :: i in s.escalation && i != a.id ==> s'.escalation[i] == s.escalation[i])
      && StandsOn(s'.escalation[a.id], r)
  {
    RoundsSnoc(s.rounds, Round(a.id, st.currentStepID, st.loopCount, st.retryCount, st.stepEnteredAt), id);
  }

  lemma TurnRounds(s: State, cfg: Config, copy: Alert, now: int, env: Surroundings, id: string)
    requires CopyOf(s, copy)
    ensures var s' := Turn(s, cfg, copy, now, env); var move := Choose(s, cfg, copy, now);
      && s'.alerts.Keys == s.alerts.Keys
      && (forall i :: i in s.alerts ==> s'.alerts[i].monitorID == s.alerts[i].monitorID)
      && s'.escalation.Keys == s.escalation.Keys
      && (id in s.escalation && id != copy.id ==> s'.escalation[id] == s.escalation[id])
      && (id != copy.id || move.Idle? ==> RoundsOf(s'.rounds, id) == RoundsOf(s.rounds, id))
      && (id == copy.id && !move.Idle? ==>
            var st := Moved(s.escalation[id], move, now);
            var r := Round(id, st.currentStepID, st.loopCount, st.retryCount, st.stepEnteredAt);
            RoundsOf(s'.rounds, id) == RoundsOf(s.rounds, id) + [r] && StandsOn(s'.escalation[id], r))
  {
    var move := Choose(s, cfg, copy, now);
    if !move.Idle? {
      var st := Moved(s.escalation[copy.id], move, now);
      var org := cfg.monitors[copy.monitorID].orgID;
      var s1 := Upsert(s, copy.id, st);
      if move.Retry? {
        NotifyRounds(s1, copy, org, st, now, env, id);
      } else {
        var copy' := copy.(currentStep := move.step.id);
        NotifyRounds(Log(UpdateRow(s1, copy'), Event(copy.id, Escalated, "", "")), copy', org, st, now, env, id);
      }
    }
  }

  /** The plan extended by its next round. */
  lemma PlanGrows(cfg: Config, p: string, rs: seq<Round>, r: Round)
    requires FollowsPlan(cfg, p, rs) && rs != []
    requires Planned(cfg, p, |rs|) && IsRound(cfg.StepsOf(p), |rs|, r)
    requires r.at >= rs[|rs| - 1].at + WaitOf(cfg.StepsOf(p), rs[|rs| - 1])
    ensures FollowsPlan(cfg, p, rs + [r])
  {
    var steps := cfg.StepsOf(p);
    var rs' := rs + [r];
    assert forall k: nat :: k < |rs| ==> rs'[k] == rs[k];
    forall k: nat | k + 1 < |rs'| ensures rs'[k + 1].at >= rs'[k].at + WaitOf(steps, rs'[k]) {
      if k + 1 < |rs| {
        assert rs[k + 1].at >= rs[k].at + WaitOf(steps, rs[k]);
      }
    }
  }

  lemma TurnKeepsRounds(s: State, cfg: Config, copy: Alert, now: int, env: Surroundings, id: string)
    requires Inv(s) && CopyOf(s, copy) && OrderedConfig(cfg) && RoundsSound(s, cfg, id)
    ensures RoundsSound(Turn(s, cfg, copy, now, env), cfg, id)
  {
    TurnRounds(s, cfg, copy, now, env, id);
    var move := Choose(s, cfg, copy, now);
    if id == copy.id && !move.Idle? {
      OwnTurnKeepsRounds(s, cfg, copy, now, env);
    }
  }

  lemma OwnTurnKeepsRounds(s: State, cfg: Config, copy: Alert, now: int, env: Surroundings)
    requires Inv(s) && CopyOf(s, copy) && OrderedConfig(cfg) && RoundsSound(s, cfg, copy.id)
    requires !Choose(s, cfg, copy, now).Idle?
    ensures RoundsSound(Turn(s, cfg, copy, now, env), cfg, copy.id)
  {
    var id := copy.id;
    TurnRounds(s, cfg, copy, now, env, id);
    OwnPlanGrows(s, cfg, copy, now);
  }

  /** The rounds of an alert about to move, extended by the round its move makes. */
  lemma OwnPlanGrows(s: State, cfg: Config, copy: Alert, now: int)
    requires Inv(s) && CopyOf(s, copy) && OrderedConfig(cfg) && RoundsSound(s, cfg, copy.id)
    requires !Choose(s, cfg, copy, now).Idle?
    ensures var st := Moved(s.escalation[copy.id], Choose(s, cfg, copy, now), now);
      var r := Round(copy.id, st.currentStepID, st.loopCount, st.retryCount, st.stepEnteredAt);
      FollowsPlan(cfg, cfg.monitors[copy.monitorID].policyID, RoundsOf(s.rounds, copy.id) + [r])
  {
    StandsOnLatest(s, cfg, copy);
    var rs := RoundsOf(s.rounds, copy.id);
    ChooseFollowsPlan(s, cfg, copy, now, |rs| - 1, rs[|rs| - 1]);
    var st := Moved(s.escalation[copy.id], Choose(s, cfg, copy, now), now);
    PlanGrows(cfg, cfg.monitors[copy.monitorID].policyID, rs,
              Round(copy.id, st.currentStepID, st.loopCount, st.retryCount, st.stepEnteredAt));
  }

  lemma TriggerRounds(s: State, cfg: Config, m: string, status: CheckStatus, error: string, newID: string,
                      now: int, env: Surroundings, id: string)
    requires newID !in s.alerts
    ensures var s' := Trigger(s, cfg, m, status, error, newID, now, env);
      && (id != newID ==>
            && RoundsOf(s'.rounds, id) == RoundsOf(s.rounds, id)
            && (id in s'.alerts <==> id in s.alerts) && (id in s.alerts ==> s'.alerts[id] == s.alerts[id])
            && (id in s'.escalation <==> id in s.escalation) && (id in s.escalation ==> s'.escalation[id] == s.escalation[id]))
      && (newID in s'.alerts ==> s'.alerts[newID].monitorID == m && s'.alerts[newID].startedAt == now && m in cfg.monitors)
      && (newID !in s'.alerts ==> s' == s)
      && (id == newID && newID in s'.alerts ==>
            var p := cfg.monitors[m].policyID; var steps := cfg.StepsOf(p);
            if cfg.monitors[m].muted || p == "" || steps == [] then
              RoundsOf(s'.rounds, id) == RoundsOf(s.rounds, id) && s'.escalation == s.escalation
            else
              var r := Round(id, steps[0].id, 0, 0, now);
              RoundsOf(s'.rounds, id) == RoundsOf(s.rounds, id) + [r] && id in s'.escalation && StandsOn(s'.escalation[id], r))
  {
    if m in cfg.monitors && ActiveOf(s, m).None? {
      var a := NewAlert(cfg.monitors[m], m, status, error, newID, now);
      var s1 := Opened(s, a);
      var steps := cfg.StepsOf(cfg.monitors[m].policyID);
      if !cfg.monitors[m].muted && cfg.monitors[m].policyID != "" && steps != [] {
        var st := EscState(steps[0].id, now, 0, None, 0);
        var a' := a.(currentStep := steps[0].id);
        NotifyRounds(Upsert(UpdateRow(s1, a'), newID, st), a', cfg.monitors[m].orgID, st, now, env, id);
      }
    }
  }

  lemma TriggerKeepsRounds(s: State, cfg: Config, m: string, status: CheckStatus, error: string, newID: string,
                           now: int, env: Surroundings, id: string)
    requires newID !in s.alerts && OrderedConfig(cfg) && RoundsSound(s, cfg, id)
    ensures RoundsSound(Trigger(s, cfg, m, status, error, newID, now, env), cfg, id)
  {
    TriggerRounds(s, cfg, m, status, error, newID, now, env, id);
    var s' := Trigger(s, cfg, m, status, error, newID, now, env);
    if id == newID && id in s'.alerts {
      var p := cfg.monitors[m].policyID;
      if cfg.StepsOf(p) != [] {
        FirstRound(cfg, p);
      }
    }
  }

  lemma ResolveKeepsRounds(s: State, cfg: Config, other: string, now: int, id: string)
    requires Unresolved(s, other) && RoundsSound(s, cfg, id)
    ensures RoundsSound(Resolve(s, other, now), cfg, id)
  {
    var s' := Resolve(s, other, now);
    assert s'.rounds == s.rounds && s'.alerts.Keys == s.alerts.Keys;
    assert id in s.alerts ==> s'.alerts[id].monitorID == s.alerts[id].monitorID;
  }

  lemma AckKeepsRounds(s: State, cfg: Config, other: string, user: string, channel: string, now: int, id: string)
    requires RoundsSound(s, cfg, id)
    ensures RoundsSound(Acknowledge(s, other, user, channel, now), cfg, id)
  {
    var s' := Acknowledge(s, other, user, channel, now);
    assert s'.rounds == s.rounds && s'.alerts.Keys == s.alerts.Keys && s'.escalation == s.escalation;
    assert id in s.alerts ==> s'.alerts[id].monitorID == s.alerts[id].monitorID;
  }

  lemma StepKeepsRounds(w: World, op: Op, id: string)
    requires WorldInv(w) && OrderedConfig(w.cfg) && !op.DoConfigure?
    requires RoundsSound(w.db, w.cfg, id)
    ensures RoundsSound(Next(w, op).db, w.cfg, id)
  {
    if Enabled(w, op) {
      match op
      case DoTrigger(m, status, error, newID, now, env) =>
        TriggerKeepsRounds(w.db, w.cfg, m, status, error, newID, now, env, id);
      case DoRecover(m, now) =>
        if ActiveOf(w.db, m).Some? {
          ResolveKeepsRounds(w.db, w.cfg, ActiveOf(w.db, m).value, now, id);
        }
      case DoAck(other, user, channel, now) => AckKeepsRounds(w.db, w.cfg, other, user, channel, now, id);
      case DoList =>
      case DoTurn(copy, now, env) => TurnKeepsRounds(w.db, w.cfg, copy, now, env, id);
    }
  }

  lemma FirstRound(cfg: Config, p: string)
    requires cfg.StepsOf(p) != []
    ensures Planned(cfg, p, 0)
    ensures forall r: Round :: r.stepID == cfg.StepsOf(p)[0].id && r.loop == 0 && r.retry == 0 ==> IsRound(cfg.StepsOf(p), 0, r)
  {
    CycleNonEmpty(cfg.StepsOf(p));
    if LastLoop(cfg, p).Some? {
      LoopBound(0, |Cycle(cfg.StepsOf(p))|, LastLoop(cfg, p).value);
    }
  }

  // ---------- The theorems ----------

  predicate FixedConfig(ops: seq<Op>) {
    forall op :: op in ops ==> !op.DoConfigure?
  }

  lemma {:induction false} EveryRunKeepsRounds(cfg: Config, ops: seq<Op>, id: string)
    requires OrderedConfig(cfg) && FixedConfig(ops)
    ensures RoundsSound(Run(Start(cfg), ops).db, cfg, id)
    ensures Run(Start(cfg), ops).cfg == cfg
  {
    if ops != [] {
      var before := ops[..|ops| - 1];
      EveryRunKeepsRounds(cfg, before, id);
      EveryRunIsSafe(cfg, before);
      StepKeepsRounds(Run(Start(cfg), before), ops[|ops| - 1], id);
    }
  }

  /** A step adds a row only for a monitor of the configuration. */
  lemma StepKeepsMonitors(w: World, op: Op)
    requires RowsSound(w.db) && !op.DoConfigure?
    requires forall id :: id in w.db.alerts ==> w.db.alerts[id].monitorID in w.cfg.monitors
    ensures forall id :: id in Next(w, op).db.alerts ==> Next(w, op).db.alerts[id].monitorID in w.cfg.monitors
  {
    StepKeepsRows(w, op);
    if Enabled(w, op) {
      match op
      case DoTrigger(m, status, error, newID, now, env) =>
        if m in w.cfg.monitors && ActiveOf(w.db, m).None? {
          var a := TriggerAddsRow(w.db, w.cfg, m, status, error, newID, now, env);
        }
      case DoRecover(_, _) =>
      case DoAck(_, _, _, _) =>
      case DoList =>
      case DoTurn(copy, now, env) => TurnAlerts(w.db, w.cfg, copy, now, env);
    }
  }

  lemma {:induction false} EveryAlertHasMonitor(cfg: Config, ops: seq<Op>)
    requires FixedConfig(ops)
    ensures var w := Run(Start(cfg), ops);
      w.cfg == cfg && forall id :: id in w.db.alerts ==> w.db.alerts[id].monitorID in cfg.monitors
  {
    if ops != [] {
      var before := ops[..|ops| - 1];
      EveryAlertHasMonitor(cfg, before);
      EveryRunIsSafe(cfg, before);
      StepKeepsMonitors(Run(Start(cfg), before), ops[|ops| - 1]);
    }
  }

  /**
   * In every interleaving under a fixed configuration, the k-th round of an alert is the k-th entry of
   * the list of (loop, step, retry): loop k / T, and slot k % T of the pass of T slots, T being the sum of
   * (repeat count + 1) over the steps; with bounded loops there are at most (MaxLoops + 1) * T rounds, and one
   * pass when the policy does not loop.
   */
  lemma RoundsWalkThePlan(cfg: Config, ops: seq<Op>, id: string)
    requires OrderedConfig(cfg) && FixedConfig(ops)
    requires id in Run(Start(cfg), ops).db.alerts
    ensures Run(Start(cfg), ops).db.alerts[id].monitorID in cfg.monitors
    ensures var db := Run(Start(cfg), ops).db; var rs := RoundsOf(db.rounds, id);
      var p := cfg.monitors[db.alerts[id].monitorID].policyID; var steps := cfg.StepsOf(p);
      && (forall k: nat :: k < |rs| ==> IsRound(steps, k, rs[k]))
      && |Cycle(steps)| == TotalSlots(steps)
      && (LastLoop(cfg, p).Some? ==> |rs| <= (LastLoop(cfg, p).value + 1) * TotalSlots(steps))
  {
    EveryAlertHasMonitor(cfg, ops);
    EveryRunKeepsRounds(cfg, ops, id);
    var db := Run(Start(cfg), ops).db;
    var p := cfg.monitors[db.alerts[id].monitorID].policyID;
    CycleLength(cfg.StepsOf(p));
    PlanBound(cfg, p, RoundsOf(db.rounds, id));
  }

  lemma CycleLength(steps: seq<Step>)
    ensures |Cycle(steps)| == TotalSlots(steps)
  {
    PassLength(steps, 0);
    assert steps[0..] == steps;
  }

  lemma PlanBound(cfg: Config, p: string, rs: seq<Round>)
    requires FollowsPlan(cfg, p, rs)
    ensures LastLoop(cfg, p).Some? ==> |rs| <= (LastLoop(cfg, p).value + 1) * |Cycle(cfg.StepsOf(p))|
  {
    if rs != [] {
      assert Planned(cfg, p, |rs| - 1);
    } else if LastLoop(cfg, p).Some? {
      MulMono(0, LastLoop(cfg, p).value + 1, |Cycle(cfg.StepsOf(p))|);
    }
  }

  function WaitsBefore(steps: seq<Step>, rs: seq<Round>, k: nat): int
    requires k <= |rs|
  {
    if k == 0 then 0 else WaitsBefore(steps, rs, k - 1) + WaitOf(steps, rs[k - 1])
  }

  lemma {:induction false} SpacedOut(cfg: Config, p: string, rs: seq<Round>, k: nat)
    requires FollowsPlan(cfg, p, rs) && k < |rs|
    ensures rs[k].at >= rs[0].at + WaitsBefore(cfg.StepsOf(p), rs, k)
  {
    if k > 0 {
      SpacedOut(cfg, p, rs, k - 1);
    }
  }

  /** An alert's first round goes out when the alert starts. */
  ghost predicate FirstAtStart(s: State, id: string) {
    var rs := RoundsOf(s.rounds, id);
    rs != [] ==> id in s.alerts && rs[0].at == s.alerts[id].startedAt
  }

  lemma TriggerKeepsFirst(s: State, cfg: Config, m: string, status: CheckStatus, error: string, newID: string,
                          now: int, env: Surroundings, id: string)
    requires newID !in s.alerts && RoundsSound(s, cfg, id) && FirstAtStart(s, id)
    ensures FirstAtStart(Trigger(s, cfg, m, status, error, newID, now, env), id)
  {
    TriggerRounds(s, cfg, m, status, error, newID, now, env, id);
  }

  lemma TurnKeepsFirst(s: State, cfg: Config, copy: Alert, now: int, env: Surroundings, id: string)
    requires Inv(s) && CopyOf(s, copy) && RoundsSound(s, cfg, id) && FirstAtStart(s, id)
    ensures FirstAtStart(Turn(s, cfg, copy, now, env), id)
  {
    TurnRounds(s, cfg, copy, now, env, id);
    TurnRows(s, cfg, copy, now, env);
  }

  lemma StepKeepsFirst(w: World, op: Op, id: string)
    requires WorldInv(w) && RoundsSound(w.db, w.cfg, id) && FirstAtStart(w.db, id)
    ensures FirstAtStart(Next(w, op).db, id)
  {
    if Enabled(w, op) {
      match op
      case DoTrigger(m, status, error, newID, now, env) =>
        TriggerKeepsFirst(w.db, w.cfg, m, status, error, newID, now, env, id);
      case DoRecover(m, now) => RecoverRows(w.db, m, now);
      case DoAck(other, user, channel, now) => AcknowledgeRows(w.db, other, user, channel, now);
      case DoList =>
      case DoTurn(copy, now, env) => TurnKeepsFirst(w.db, w.cfg, copy, now, env, id);
      case DoConfigure(_) =>
    }
  }

  lemma {:induction false} EveryRunStartsOnTime(cfg: Config, ops: seq<Op>, id: string)
    requires OrderedConfig(cfg) && FixedConfig(ops)
    ensures FirstAtStart(Run(Start(cfg), ops).db, id)
  {
    if ops != [] {
      var before := ops[..|ops| - 1];
      EveryRunStartsOnTime(cfg, before, id);
      EveryRunKeepsRounds(cfg, before, id);
      EveryRunIsSafe(cfg, before);
      StepKeepsFirst(Run(Start(cfg), before), ops[|ops| - 1], id);
    }
  }

  /** The first round goes out when the alert starts; each comes no earlier than that plus the waits of all rounds before it. */
  lemma RoundsNeverEarly(cfg: Config, ops: seq<Op>, id: string, k: nat)
    requires OrderedConfig(cfg) && FixedConfig(ops)
    requires id in Run(Start(cfg), ops).db.alerts
    requires k < |RoundsOf(Run(Start(cfg), ops).db.rounds, id)|
    ensures Run(Start(cfg), ops).db.alerts[id].monitorID in cfg.monitors
    ensures var db := Run(Start(cfg), ops).db; var rs := RoundsOf(db.rounds, id);
      var steps := cfg.StepsOf(cfg.monitors[db.alerts[id].monitorID].policyID);
      && rs[0].at == db.alerts[id].startedAt
      && rs[k].at >= db.alerts[id].startedAt + WaitsBefore(steps, rs, k)
  {
    EveryAlertHasMonitor(cfg, ops);
    EveryRunKeepsRounds(cfg, ops, id);
    EveryRunStartsOnTime(cfg, ops, id);
    var db := Run(Start(cfg), ops).db;
    SpacedOut(cfg, cfg.monitors[db.alerts[id].monitorID].policyID, RoundsOf(db.rounds, id), k);
  }

  /** What one turn does to the rounds rs of its alert. */
  ghost predicate AddsNextRound(cfg: Config, p: string, rs: seq<Round>, rs': seq<Round>, now: int)
    requires rs != []
  {
    var steps := cfg.StepsOf(p);
    var n := |rs|;
    if now >= rs[n - 1].at + WaitOf(steps, rs[n - 1]) && Planned(cfg, p, n) then
      |rs'| == n + 1 && rs'[..n] == rs && IsRound(steps, n, rs'[n]) && rs'[n].at == now
    else
      rs' == rs
  }

  lemma NextRoundAdded(cfg: Config, p: string, rs: seq<Round>, rs': seq<Round>, now: int, idle: bool, r: Round)
    requires rs != []
    requires idle <==> now < rs[|rs| - 1].at + WaitOf(cfg.StepsOf(p), rs[|rs| - 1]) || !Planned(cfg, p, |rs|)
    requires idle ==> rs' == rs
    requires !idle ==> rs' == rs + [r] && IsRound(cfg.StepsOf(p), |rs|, r) && r.at == now
    ensures AddsNextRound(cfg, p, rs, rs', now)
  {
  }

  /** The row of an escalating alert stands on its latest round, which is planned. */
  lemma StandsOnLatest(db: State, cfg: Config, copy: Alert)
    requires Inv(db) && CopyOf(db, copy) && OrderedConfig(cfg) && RoundsSound(db, cfg, copy.id) && copy.id in db.escalation
    ensures var rs := RoundsOf(db.rounds, copy.id);
      && copy.monitorID in cfg.monitors && rs != []
      && StandsOn(db.escalation[copy.id], rs[|rs| - 1])
      && var p := cfg.monitors[copy.monitorID].policyID;
         p != "" && OrderedSteps(cfg.StepsOf(p)) && Planned(cfg, p, |rs| - 1) && IsRound(cfg.StepsOf(p), |rs| - 1, rs[|rs| - 1])
  {
  }

  lemma TurnAddsNext(db: State, cfg: Config, copy: Alert, now: int, env: Surroundings)
    requires Inv(db) && CopyOf(db, copy) && OrderedConfig(cfg) && RoundsSound(db, cfg, copy.id)
    requires copy.id in db.escalation
    ensures copy.monitorID in cfg.monitors && RoundsOf(db.rounds, copy.id) != []
    ensures AddsNextRound(cfg, cfg.monitors[copy.monitorID].policyID, RoundsOf(db.rounds, copy.id),
                          RoundsOf(Turn(db, cfg, copy, now, env).rounds, copy.id), now)
  {
    LatestChoice(db, cfg, copy, now);
    TurnRounds(db, cfg, copy, now, env, copy.id);
    var move := Choose(db, cfg, copy, now);
    var st := Moved(db.escalation[copy.id], move, now);
    NextRoundAdded(cfg, cfg.monitors[copy.monitorID].policyID, RoundsOf(db.rounds, copy.id),
                   RoundsOf(Turn(db, cfg, copy, now, env).rounds, copy.id), now,
                   move.Idle?, Round(copy.id, st.currentStepID, st.loopCount, st.retryCount, st.stepEnteredAt));
  }

  /** What the tick chooses for an escalating alert, by the rounds it has had. */
  lemma LatestChoice(db: State, cfg: Config, copy: Alert, now: int)
    requires Inv(db) && CopyOf(db, copy) && OrderedConfig(cfg) && RoundsSound(db, cfg, copy.id)
    requires copy.id in db.escalation
    ensures var rs := RoundsOf(db.rounds, copy.id);
      && copy.monitorID in cfg.monitors && rs != []
      && var p := cfg.monitors[copy.monitorID].policyID;
         var move := Choose(db, cfg, copy, now); var st := Moved(db.escalation[copy.id], move, now);
         && (move.Idle? <==> now < rs[|rs| - 1].at + WaitOf(cfg.StepsOf(p), rs[|rs| - 1]) || !Planned(cfg, p, |rs|))
         && (!move.Idle? ==> st.stepEnteredAt == now && IsRound(cfg.StepsOf(p), |rs|,
               Round(copy.id, st.currentStepID, st.loopCount, st.retryCount, st.stepEnteredAt)))
  {
    StandsOnLatest(db, cfg, copy);
    var rs := RoundsOf(db.rounds, copy.id);
    ChooseFollowsPlan(db, cfg, copy, now, |rs| - 1, rs[|rs| - 1]);
  }

  /**
   * In every reachable state, the turn of an escalating alert adds exactly the next round of the plan
   * once the current wait is over, and adds nothing exactly when it is not or no round is left.
   */
  lemma TurnAddsNextRound(cfg: Config, ops: seq<Op>, copy: Alert, now: int, env: Surroundings)
    requires OrderedConfig(cfg) && FixedConfig(ops)
    requires copy in Run(Start(cfg), ops).copies && copy.id in Run(Start(cfg), ops).db.escalation
    ensures var db := Run(Start(cfg), ops).db;
      && copy.monitorID in cfg.monitors && RoundsOf(db.rounds, copy.id) != []
      && AddsNextRound(cfg, cfg.monitors[copy.monitorID].policyID, RoundsOf(db.rounds, copy.id),
                       RoundsOf(Turn(db, cfg, copy, now, env).rounds, copy.id), now)
  {
    EveryRunKeepsRounds(cfg, ops, copy.id);
    EveryRunIsSafe(cfg, ops);
    TurnAddsNext(Run(Start(cfg), ops).db, cfg, copy, now, env);
  }
}
