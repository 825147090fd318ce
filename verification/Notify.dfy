/**
 * Deduplication in the notification dispatcher, in memory: when a job is handed to its channel's workers,
 * and what becomes of the jobs of the escalation engine's rounds. Times are seconds.
 */
module Notify {
  import opened Common
  import E = Escalation

  const DEDUPE_TTL := 300

  datatype Answer = HandedOver | Duplicate | NoProvider

  /** Expiry of each claimed key, the registered channels, and the jobs handed to workers with their times. */
  datatype State = State(seen: map<string, int>, providers: set<string>, handed: seq<(E.Job, int)>)

  predicate Claimed(seen: map<string, int>, key: string, now: int) {
    key in seen && now < seen[key]
  }

  function AnswerTo(s: State, job: E.Job, now: int): Answer {
    if job.dedupeKey != "" && Claimed(s.seen, job.dedupeKey, now) then Duplicate
    else if job.channel in s.providers then HandedOver else NoProvider
  }

  /** The key is claimed before the provider is looked up. */
  function Dispatch(s: State, job: E.Job, now: int): State {
    if job.dedupeKey != "" && Claimed(s.seen, job.dedupeKey, now) then s
    else
      var s1 := if job.dedupeKey == "" then s else s.(seen := s.seen[job.dedupeKey := now + DEDUPE_TTL]);
      if job.channel in s.providers then s1.(handed := s1.handed + [(job, now)]) else s1
  }

  function CleanUp(s: State, now: int): State {
    s.(seen := map k | k in s.seen && s.seen[k] >= now :: s.seen[k])
  }

  class Dispatcher {
    var seen: map<string, int>
    var providers: set<string>
    ghost var handed: seq<(E.Job, int)>

    ghost function View(): State
      reads this
    {
      State(seen, providers, handed)
    }

    constructor ()
      ensures View() == State(map[], {}, [])
    {
      seen, providers, handed := map[], {}, [];
    }

    method Register(channel: string)
      modifies this
      ensures View() == old(View()).(providers := old(providers) + {channel})
    {
      providers := providers + {channel};
    }

    /** True when the key was free; it is claimed for the time to live. */
    method MarkSeen(key: string, now: int) returns (first: bool)
      modifies `seen
      ensures first <==> !Claimed(old(seen), key, now)
      ensures seen == if first then old(seen)[key := now + DEDUPE_TTL] else old(seen)
    {
      if key in seen && now < seen[key] {
        return false;
      }
      seen := seen[key := now + DEDUPE_TTL];
      return true;
    }

    /** The dispatcher's error is NoProvider; a duplicate is reported as success. */
    method DispatchJob(job: E.Job, now: int) returns (answer: Answer)
      modifies this
      ensures answer == AnswerTo(old(View()), job, now)
      ensures View() == Dispatch(old(View()), job, now)
    {
      if job.dedupeKey != "" {
        var first := MarkSeen(job.dedupeKey, now);
        if !first {
          return Duplicate;
        }
      }
      if job.channel !in providers {
        return NoProvider;
      }
      handed := handed + [(job, now)];
      return HandedOver;
    }

    /** One pass of the cleanup loop: entries past their expiry are deleted, in any order. */
    method CleanUpPass(now: int)
      modifies `seen
      ensures View() == CleanUp(old(View()), now)
    {
      ghost var before := seen;
      var todo := seen.Keys;
      while todo != {}
        invariant todo <= seen.Keys <= before.Keys
        invariant forall k :: k in seen ==> seen[k] == before[k]
        invariant forall k :: k in before && k !in todo ==> (k in seen <==> before[k] >= now)
        decreases todo
      {
        var k :| k in todo;
        if now > seen[k] {
          seen := seen - {k};
        }
        todo := todo - {k};
      }
      assert seen == map k | k in before && before[k] >= now :: before[k];
    }
  }

  // ---------- Runs ----------

  datatype Op = Submit(job: E.Job, now: int) | Sweep(now: int) | AddProvider(channel: string, now: int)

  const Empty := State(map[], {}, [])

  function Step(s: State, op: Op): State {
    match op
    case Submit(job, now) => Dispatch(s, job, now)
    case Sweep(now) => CleanUp(s, now)
    case AddProvider(channel, _) => s.(providers := s.providers + {channel})
  }

  function Run(ops: seq<Op>): State {
    if ops == [] then Empty else Step(Run(ops[..|ops| - 1]), ops[|ops| - 1])
  }

  predicate Timed(ops: seq<Op>) {
    forall i, j :: 0 <= i < j < |ops| ==> ops[i].now <= ops[j].now
  }

  /** The answer to the i-th operation, if it submits a job. */
  function AnswerAt(ops: seq<Op>, i: nat): Answer
    requires i < |ops| && ops[i].Submit?
  {
    AnswerTo(Run(ops[..i]), ops[i].job, ops[i].now)
  }

  /** A key stays claimed exactly since the last submission that claimed it, for the time to live. */
  ghost predicate LastClaim(ops: seq<Op>, key: string, i: nat) {
    && i < |ops| && ops[i].Submit? && ops[i].job.dedupeKey == key && AnswerAt(ops, i) != Duplicate
    && forall j :: i < j < |ops| && ops[j].Submit? && ops[j].job.dedupeKey == key ==> AnswerAt(ops, j) == Duplicate
  }

  lemma AnswersUnder(ops: seq<Op>, more: seq<Op>, i: nat)
    requires i < |ops| && ops[i].Submit?
    ensures AnswerAt(ops + more, i) == AnswerAt(ops, i)
  {
    assert (ops + more)[..i] == ops[..i];
  }

  lemma LastClaimStays(ops: seq<Op>, op: Op, key: string, i: nat)
    requires LastClaim(ops, key, i)
    requires op.Submit? && op.job.dedupeKey == key ==> AnswerTo(Run(ops), op.job, op.now) == Duplicate
    ensures LastClaim(ops + [op], key, i)
  {
    var ops' := ops + [op];
    AnswersUnder(ops, [op], i);
    assert ops'[..|ops|] == ops;
    forall j | i < j < |ops'| && ops'[j].Submit? && ops'[j].job.dedupeKey == key ensures AnswerAt(ops', j) == Duplicate {
      if j < |ops| {
        AnswersUnder(ops, [op], j);
      }
    }
  }

  /** Behind every entry in the map stands the last submission that claimed its key. */
  lemma {:induction false} ClaimHasCause(ops: seq<Op>, key: string) returns (i: nat)
    requires key in Run(ops).seen && key != ""
    ensures LastClaim(ops, key, i) && Run(ops).seen[key] == ops[i].now + DEDUPE_TTL
  {
    var before := ops[..|ops| - 1];
    var last := ops[|ops| - 1];
    assert ops == before + [last];
    if last.Submit? && last.job.dedupeKey == key && AnswerTo(Run(before), last.job, last.now) != Duplicate {
      i := |ops| - 1;
    } else {
      i := ClaimHasCause(before, key);
      LastClaimStays(before, last, key, i);
    }
  }

  /** A claim stays in the map until its time to live has passed, cleanup passes notwithstanding. */
  lemma {:induction false} ClaimIsKept(ops: seq<Op>, key: string, i: nat, now: int)
    requires Timed(ops) && key != "" && LastClaim(ops, key, i) && now <= ops[i].now + 300
    requires forall op :: op in ops ==> op.now <= now
    ensures key in Run(ops).seen && Run(ops).seen[key] == ops[i].now + 300
  {
    var before := ops[..|ops| - 1];
    var last := ops[|ops| - 1];
    if i < |before| {
      assert before[..i] == ops[..i];
      forall j | i < j < |before| && before[j].Submit? && before[j].job.dedupeKey == key ensures AnswerAt(before, j) == Duplicate {
        assert before[..j] == ops[..j];
        assert AnswerAt(ops, j) == Duplicate;
      }
      ClaimIsKept(before, key, i, now);
      if last.Submit? && last.job.dedupeKey == key {
        assert AnswerAt(ops, |ops| - 1) == Duplicate;
      }
    } else {
      assert ops[..i] == before;
    }
  }

  /**
   * A submission is a duplicate exactly when it has a key that some earlier one claimed less than five minutes
   * before, wherever cleanup passes happened; if not, it is handed over exactly when its channel has a provider.
   */
  lemma DuplicateExactly(ops: seq<Op>, job: E.Job, now: int)
    requires Timed(ops) && (forall op :: op in ops ==> op.now <= now)
    ensures var answer := AnswerTo(Run(ops), job, now);
      && (answer == Duplicate <==>
            job.dedupeKey != "" && exists i: nat :: LastClaim(ops, job.dedupeKey, i) && now < ops[i].now + 300)
      && (answer == HandedOver <==> answer != Duplicate && Registered(ops, job.channel))
  {
    RegisteredExactly(ops, job.channel);
    if job.dedupeKey == "" {
      return;
    }
    if AnswerTo(Run(ops), job, now) == Duplicate {
      var i := ClaimHasCause(ops, job.dedupeKey);
    }
    if i: nat :| LastClaim(ops, job.dedupeKey, i) && now < ops[i].now + 300 {
      ClaimIsKept(ops, job.dedupeKey, i, now);
    }
  }

  /** Some operation before registered the channel. */
  predicate Registered(ops: seq<Op>, channel: string) {
    exists op :: op in ops && op.AddProvider? && op.channel == channel
  }

  lemma {:induction false} RegisteredExactly(ops: seq<Op>, channel: string)
    ensures channel in Run(ops).providers <==> Registered(ops, channel)
  {
    if ops != [] {
      var before := ops[..|ops| - 1];
      RegisteredExactly(before, channel);
      assert ops == before + [ops[|ops| - 1]];
    }
  }

  /** No claim is made under the empty key. */
  lemma {:induction false} NoEmptyClaim(ops: seq<Op>)
    ensures "" !in Run(ops).seen
  {
    if ops != [] {
      NoEmptyClaim(ops[..|ops| - 1]);
    }
  }

  /** A cleanup pass leaves exactly the claims of the last five minutes, each with its expiry. */
  lemma CleanUpExactly(ops: seq<Op>, now: int, key: string)
    requires Timed(ops) && (forall op :: op in ops ==> op.now <= now)
    ensures key in Run(ops + [Sweep(now)]).seen <==>
            key != "" && exists i: nat :: LastClaim(ops, key, i) && now <= ops[i].now + 300
    ensures Run(ops + [Sweep(now)]).handed == Run(ops).handed
  {
    assert (ops + [Sweep(now)])[..|ops|] == ops;
    NoEmptyClaim(ops);
    if key != "" && key in Run(ops).seen {
      var i := ClaimHasCause(ops, key);
      assert key in Run(ops + [Sweep(now)]).seen ==> now <= ops[i].now + 300;
    }
    if i: nat :| key != "" && LastClaim(ops, key, i) && now <= ops[i].now + 300 {
      ClaimIsKept(ops, key, i, now);
    }
  }

  /** Two hand-overs of one key are at least the time to live apart. */
  lemma {:induction false} HandOversApart(ops: seq<Op>, i: nat, j: nat)
    requires Timed(ops) && i < j < |ops| && ops[i].Submit? && ops[j].Submit?
    requires ops[i].job.dedupeKey == ops[j].job.dedupeKey != ""
    requires AnswerAt(ops, i) != Duplicate && AnswerAt(ops, j) != Duplicate
    ensures ops[i].now + 300 <= ops[j].now
    decreases j
  {
    var before := ops[..j];
    var key := ops[j].job.dedupeKey;
    if forall l :: i < l < j && ops[l].Submit? && ops[l].job.dedupeKey == key ==> AnswerAt(ops, l) == Duplicate {
      forall l | i <= l < j && ops[l].Submit? ensures AnswerAt(before, l) == AnswerAt(ops, l) {
        assert before[..l] == ops[..l];
      }
      assert LastClaim(before, key, i);
      DuplicateExactly(before, ops[j].job, ops[j].now);
    } else {
      var l :| i < l < j && ops[l].Submit? && ops[l].job.dedupeKey == key && AnswerAt(ops, l) != Duplicate;
      HandOversApart(ops, i, l);
    }
  }

  // ---------- What a duplicate's success is worth ----------

  lemma {:induction false} HandedHasCause(ops: seq<Op>, h: (E.Job, int)) returns (i: nat)
    requires h in Run(ops).handed
    ensures i < |ops| && ops[i].Submit? && ops[i].job == h.0 && ops[i].now == h.1 && AnswerAt(ops, i) == HandedOver
  {
    var before := ops[..|ops| - 1];
    assert ops == before + [ops[|ops| - 1]];
    if h in Run(before).handed {
      i := HandedHasCause(before, h);
      AnswersUnder(before, [ops[|ops| - 1]], i);
    } else {
      i := |ops| - 1;
    }
  }

  lemma {:induction false} HandedStays(ops: seq<Op>, i: nat)
    requires i < |ops| && ops[i].Submit? && AnswerAt(ops, i) == HandedOver
    ensures (ops[i].job, ops[i].now) in Run(ops).handed
  {
    var before := ops[..|ops| - 1];
    if i < |before| {
      assert before[..i] == ops[..i];
      HandedStays(before, i);
    }
  }

  /** The workers have been handed exactly the jobs whose submission was answered so, in order. */
  lemma {:induction false} HandedExactly(ops: seq<Op>)
    ensures Run(ops).handed == HandedIn(ops)
  {
    if ops != [] {
      HandedExactly(ops[..|ops| - 1]);
    }
  }

  /** The jobs whose submission was answered by a hand-over, with its time. */
  function HandedIn(ops: seq<Op>): seq<(E.Job, int)> {
    if ops == [] then []
    else
      var before := ops[..|ops| - 1];
      var last := ops[|ops| - 1];
      if last.Submit? && AnswerTo(Run(before), last.job, last.now) == HandedOver then HandedIn(before) + [(last.job, last.now)]
      else HandedIn(before)
  }

  /** The workers were handed a job of the key less than the time to live ago. */
  ghost predicate RecentlyHanded(s: State, key: string, now: int) {
    exists h :: h in s.handed && h.0.dedupeKey == key && now < h.1 + 300
  }

  /** The last claim of a key is the only one that can have been handed over within the time to live. */
  lemma HandedByLastClaim(ops: seq<Op>, key: string, i: nat, now: int)
    requires Timed(ops) && (forall op :: op in ops ==> op.now <= now) && key != ""
    requires LastClaim(ops, key, i) && now < ops[i].now + 300
    ensures RecentlyHanded(Run(ops), key, now) <==> AnswerAt(ops, i) == HandedOver
  {
    if AnswerAt(ops, i) == HandedOver {
      HandedStays(ops, i);
    }
    if h :| h in Run(ops).handed && h.0.dedupeKey == key && now < h.1 + 300 {
      var l := HandedHasCause(ops, h);
      if l < i {
        HandOversApart(ops, l, i);
      }
    }
  }

  /**
   * A duplicate is reported as success. Within the time to live the workers were handed a job of its key if and
   * only if the claim it ran into, which is the last one, found its channel's provider.
   */
  lemma DuplicateCause(ops: seq<Op>, job: E.Job, now: int) returns (i: nat)
    requires Timed(ops) && (forall op :: op in ops ==> op.now <= now) && job.dedupeKey != ""
    requires AnswerTo(Run(ops), job, now) == Duplicate
    ensures LastClaim(ops, job.dedupeKey, i) && now < ops[i].now + 300
    ensures RecentlyHanded(Run(ops), job.dedupeKey, now) <==> ops[i].job.channel in Run(ops[..i]).providers
  {
    i := ClaimHasCause(ops, job.dedupeKey);
    HandedByLastClaim(ops, job.dedupeKey, i, now);
  }

  /** A claim is the last one as long as it lasts: any other within the time to live would be too close to it. */
  lemma ClaimIsLast(ops: seq<Op>, i: nat)
    requires Timed(ops) && i < |ops| && ops[i].Submit? && ops[i].job.dedupeKey != "" && AnswerAt(ops, i) != Duplicate
    requires forall op :: op in ops ==> op.now < ops[i].now + 300
    ensures LastClaim(ops, ops[i].job.dedupeKey, i)
  {
    forall j | i < j < |ops| && ops[j].Submit? && ops[j].job.dedupeKey == ops[i].job.dedupeKey
      ensures AnswerAt(ops, j) == Duplicate
    {
      assert ops[j] in ops;
      if AnswerAt(ops, j) != Duplicate {
        HandOversApart(ops, i, j);
      }
    }
  }

  /**
   * A job refused for want of a provider and delivered again within the time to live, whatever happens between, is
   * reported as success, although the workers were handed no job of its key.
   */
  lemma RefusedThenLost(ops: seq<Op>, job: E.Job, now: int, more: seq<Op>, later: int)
    requires job.dedupeKey != "" && AnswerTo(Run(ops), job, now) == NoProvider
    requires var all := ops + [Submit(job, now)] + more;
      Timed(all) && (forall op :: op in all ==> op.now <= later) && later < now + 300
    ensures var s := Run(ops + [Submit(job, now)] + more);
      && AnswerTo(s, job, later) == Duplicate && Dispatch(s, job, later) == s
      && !RecentlyHanded(s, job.dedupeKey, later)
  {
    var first := ops + [Submit(job, now)];
    var all := first + more;
    var i := |ops|;
    assert first[..i] == ops && first[i] == Submit(job, now) && all[i] == first[i];
    AnswersUnder(first, more, i);
    ClaimIsLast(all, i);
    DuplicateExactly(all, job, later);
    HandedByLastClaim(all, job.dedupeKey, i, later);
  }

  // ---------- The rounds of the escalation engine ----------

  /** The jobs of one round, submitted at one instant. */
  function SubmitAll(s: State, jobs: seq<E.Job>, now: int): State {
    if jobs == [] then s else Dispatch(SubmitAll(s, jobs[..|jobs| - 1], now), jobs[|jobs| - 1], now)
  }

  predicate HasKey(jobs: seq<E.Job>, key: string) {
    exists j :: j in jobs && j.dedupeKey == key
  }

  lemma HasKeySnoc(jobs: seq<E.Job>, last: E.Job, key: string)
    ensures HasKey(jobs + [last], key) <==> HasKey(jobs, key) || last.dedupeKey == key
  {
    if last.dedupeKey == key {
      assert last in jobs + [last];
    }
    if j :| j in jobs && j.dedupeKey == key {
      assert j in jobs + [last];
    }
  }

  /** The first job of every key. */
  function FirstPerKey(jobs: seq<E.Job>): seq<E.Job> {
    if jobs == [] then []
    else
      var before := jobs[..|jobs| - 1];
      var last := jobs[|jobs| - 1];
      if HasKey(before, last.dedupeKey) then FirstPerKey(before) else FirstPerKey(before) + [last]
  }

  function At(jobs: seq<E.Job>, now: int): seq<(E.Job, int)> {
    seq(|jobs|, i requires 0 <= i < |jobs| => (jobs[i], now))
  }

  /** Jobs of one round: all keys non-empty, all channels served. */
  ghost predicate Served(s: State, jobs: seq<E.Job>) {
    forall j :: j in jobs ==> j.dedupeKey != "" && j.channel in s.providers
  }

  /** State t after a round of jobs submitted at now to state s, none of whose keys was claimed. */
  ghost predicate AfterRound(s: State, t: State, jobs: seq<E.Job>, now: int) {
    && t.handed == s.handed + At(FirstPerKey(jobs), now) && t.providers == s.providers
    && (forall k :: Claimed(t.seen, k, now) <==> Claimed(s.seen, k, now) || HasKey(jobs, k))
    && (forall j :: j in jobs ==> j.dedupeKey in t.seen && t.seen[j.dedupeKey] == now + 300)
  }

  lemma NextOfRound(s: State, t: State, jobs: seq<E.Job>, last: E.Job, now: int)
    requires AfterRound(s, t, jobs, now) && last.dedupeKey != "" && last.channel in s.providers
    requires !Claimed(s.seen, last.dedupeKey, now)
    ensures AfterRound(s, Dispatch(t, last, now), jobs + [last], now)
  {
    if HasKey(jobs, last.dedupeKey) {
      AnotherOfRound(s, t, jobs, last, now);
    } else {
      FirstOfRound(s, t, jobs, last, now);
    }
  }

  lemma AnotherOfRound(s: State, t: State, jobs: seq<E.Job>, last: E.Job, now: int)
    requires AfterRound(s, t, jobs, now) && HasKey(jobs, last.dedupeKey)
    ensures AfterRound(s, t, jobs + [last], now)
  {
    assert (jobs + [last])[..|jobs|] == jobs;
    var j :| j in jobs && j.dedupeKey == last.dedupeKey;
    forall k ensures Claimed(t.seen, k, now) <==> Claimed(s.seen, k, now) || HasKey(jobs + [last], k) {
      HasKeySnoc(jobs, last, k);
    }
  }

  lemma FirstOfRound(s: State, t: State, jobs: seq<E.Job>, last: E.Job, now: int)
    requires AfterRound(s, t, jobs, now) && last.dedupeKey != "" && last.channel in s.providers
    requires !Claimed(s.seen, last.dedupeKey, now) && !HasKey(jobs, last.dedupeKey)
    ensures AfterRound(s, Dispatch(t, last, now), jobs + [last], now)
  {
    var t' := Dispatch(t, last, now);
    assert (jobs + [last])[..|jobs|] == jobs;
    assert At(FirstPerKey(jobs) + [last], now) == At(FirstPerKey(jobs), now) + [(last, now)];
    forall k ensures Claimed(t'.seen, k, now) <==> Claimed(s.seen, k, now) || HasKey(jobs + [last], k) {
      HasKeySnoc(jobs, last, k);
    }
  }

  lemma {:induction false} RoundHandsOverFirst(s: State, jobs: seq<E.Job>, now: int)
    requires Served(s, jobs) && forall j :: j in jobs ==> !Claimed(s.seen, j.dedupeKey, now)
    ensures AfterRound(s, SubmitAll(s, jobs, now), jobs, now)
  {
    if jobs != [] {
      var before := jobs[..|jobs| - 1];
      RoundHandsOverFirst(s, before, now);
      NextOfRound(s, SubmitAll(s, before, now), before, jobs[|jobs| - 1], now);
      assert jobs == before + [jobs[|jobs| - 1]];
    }
  }

  lemma {:induction false} RoundIsSilent(s: State, jobs: seq<E.Job>, now: int)
    requires forall j :: j in jobs ==> j.dedupeKey != "" && Claimed(s.seen, j.dedupeKey, now)
    ensures SubmitAll(s, jobs, now) == s
  {
    if jobs != [] {
      RoundIsSilent(s, jobs[..|jobs| - 1], now);
    }
  }

  /** Within one round keys are equal exactly when users are. */
  lemma {:induction false} RoundKeys(alertID: string, org: string, monitorOrg: string, stepID: string, targets: seq<E.Target>)
    ensures forall j :: j in E.Jobs(alertID, org, monitorOrg, stepID, targets) ==> j.dedupeKey == alertID + "-" + stepID + "-" + j.user
  {
    if targets != [] {
      RoundKeys(alertID, org, monitorOrg, stepID, targets[..|targets| - 1]);
    }
  }

  lemma KeyTellsUser(alertID: string, stepID: string, u: string, v: string)
    requires alertID + "-" + stepID + "-" + u == alertID + "-" + stepID + "-" + v
    ensures u == v
  {
    var prefix := alertID + "-" + stepID + "-";
    assert u == (prefix + u)[|prefix|..] && v == (prefix + v)[|prefix|..];
  }

  lemma {:induction false} AllFirstExactly(jobs: seq<E.Job>)
    ensures FirstPerKey(jobs) == jobs <==> forall i, j :: 0 <= i < j < |jobs| ==> jobs[i].dedupeKey != jobs[j].dedupeKey
    ensures |FirstPerKey(jobs)| <= |jobs|
  {
    if jobs != [] {
      var n := |jobs| - 1;
      AllFirstExactly(jobs[..n]);
      assert jobs == jobs[..n] + [jobs[n]];
      if HasKey(jobs[..n], jobs[n].dedupeKey) {
        var j :| j in jobs[..n] && j.dedupeKey == jobs[n].dedupeKey;
        var i :| 0 <= i < n && jobs[i] == j;
      } else {
        forall i | 0 <= i < n ensures jobs[i].dedupeKey != jobs[n].dedupeKey {
          assert jobs[i] in jobs[..n];
        }
        if FirstPerKey(jobs) == jobs {
          assert FirstPerKey(jobs[..n]) == jobs[..n];
        }
      }
    }
  }

  /**
   * A round whose keys are free hands over one job per user, the first; so every job of the round is handed
   * over exactly when no user, and not the channel broadcast, occurs in two of its targets.
   */
  lemma RoundReachesEveryTargetExactly(s: State, a: E.Alert, org: string, stepID: string, env: E.Surroundings, now: int)
    requires var jobs := E.RoundJobs(a, org, stepID, env);
      Served(s, jobs) && forall j :: j in jobs ==> !Claimed(s.seen, j.dedupeKey, now)
    ensures var jobs := E.RoundJobs(a, org, stepID, env); var s' := SubmitAll(s, jobs, now);
      && s'.handed == s.handed + At(FirstPerKey(jobs), now)
      && (FirstPerKey(jobs) == jobs <==> forall i, j :: 0 <= i < j < |jobs| ==> jobs[i].user != jobs[j].user)
  {
    var jobs := E.RoundJobs(a, org, stepID, env);
    RoundHandsOverFirst(s, jobs, now);
    AllFirstExactly(jobs);
    if env.targets.Some? {
      RoundKeys(a.id, a.orgID, org, stepID, env.targets.value);
    }
    forall i, j | 0 <= i < j < |jobs| ensures jobs[i].dedupeKey == jobs[j].dedupeKey <==> jobs[i].user == jobs[j].user {
      assert jobs[i] in jobs && jobs[j] in jobs;
      if jobs[i].dedupeKey == jobs[j].dedupeKey {
        KeyTellsUser(a.id, stepID, jobs[i].user, jobs[j].user);
      }
    }
  }

  /** A retry of the same round is handed over, user by user, exactly when five minutes have passed. */
  lemma RetryIsHeardExactly(s: State, jobs: seq<E.Job>, now: int, later: int)
    requires Served(s, jobs) && now <= later && forall j :: j in jobs ==> !Claimed(s.seen, j.dedupeKey, now)
    ensures var s1 := SubmitAll(s, jobs, now); var s2 := SubmitAll(s1, jobs, later);
      s2.handed == s1.handed + (if later - now >= 300 then At(FirstPerKey(jobs), later) else [])
  {
    RoundHandsOverFirst(s, jobs, now);
    var s1 := SubmitAll(s, jobs, now);
    if later - now >= 300 {
      RoundHandsOverFirst(s1, jobs, later);
    } else {
      RoundIsSilent(s1, jobs, later);
    }
  }
}
