/**
 * A channel's worker pool: submitters, a bounded queue, workers that send with retries, and Stop. The
 * goroutines are a step machine; a step is one channel operation, one atomic counter or one send of one of
 * them, and steps interleave freely. A job is known by its number in the order of acceptance.
 */
module WorkerPool {
  import opened Common

  /** What became of a job: the worker's verdict, the sends made, and whether one of them succeeded. */
  datatype Outcome = Outcome(id: nat, ok: bool, sends: nat, delivered: bool)

  datatype Phase =
    | Idle                              // about to receive from the queue
    | Received(id: nat)                 // received, not yet counted as in flight
    | Sending(id: nat, attempt: nat)    // inside Send, attempts counted from 0
    | Pausing(id: nat, attempt: nat)    // that attempt failed: waiting for the backoff or the cancellation
    | Settling(outcome: Outcome)        // sending is over, still counted as in flight
    | Booking(outcome: Outcome)         // no longer in flight, not yet counted as sent or failed
    | Exited

  datatype State = State(
    capacity: nat,
    retries: int,
    offering: seq<string>,     // submitters past the stop check, blocked on the queue
    accepted: seq<string>,
    queue: seq<nat>,
    workers: seq<Phase>,
    inflight: int,
    sent: nat,
    failed: nat,
    outcomes: seq<Outcome>,    // booked, in order
    stopped: bool,
    closed: bool,
    cancelled: bool)

  /** What a worker does by itself between receiving a job and booking it, and its leaving. */
  datatype Action = Begin | SendReturns(ok: bool) | Resume | GiveUp | Land | Leave

  datatype Step =
    | Submit(job: string)
    | Enqueue(offer: nat)
    | HandOver(offer: nat, worker: nat)
    | Refuse(offer: nat)
    | Launch
    | Receive(worker: nat)
    | Act(worker: nat, action: Action)
    | Book(worker: nat)
    | MarkStopped
    | Close
    | Cancel

  function Start(capacity: nat, retries: int): State {
    State(capacity, retries, [], [], [], [], 0, 0, 0, [], false, false, false)
  }

  /** `drained` says that the queue is closed and empty. */
  predicate Ready(p: Phase, a: Action, cancelled: bool, drained: bool) {
    match a
    case Begin => p.Received?
    case SendReturns(_) => p.Sending?
    case Resume => p.Pausing?
    case GiveUp => p.Pausing? && cancelled
    case Land => p.Settling?
    case Leave => p.Idle? && drained
  }

  predicate Enabled(s: State, step: Step) {
    match step
    case Submit(_) => true
    case Enqueue(i) => i < |s.offering| && !s.closed && |s.queue| < s.capacity
    case HandOver(i, w) => i < |s.offering| && !s.closed && s.queue == [] && w < |s.workers| && s.workers[w].Idle?
    case Refuse(i) => i < |s.offering| && s.closed
    case Launch => true
    case Receive(w) => w < |s.workers| && s.workers[w].Idle? && s.queue != []
    case Act(w, a) => w < |s.workers| && Ready(s.workers[w], a, s.cancelled, s.closed && s.queue == [])
    case Book(w) => w < |s.workers| && s.workers[w].Booking?
    case MarkStopped => true
    case Close => s.stopped && !s.closed
    case Cancel => true
  }

  function Goto(s: State, w: nat, p: Phase): State
    requires w < |s.workers|
  {
    s.(workers := s.workers[w := p])
  }

  function Withdraw(offering: seq<string>, i: nat): seq<string>
    requires i < |offering|
  {
    offering[..i] + offering[i + 1..]
  }

  /** With no attempts allowed the loop body never runs and the job ends without an error. */
  function FirstAttempt(id: nat, retries: int): Phase {
    if retries <= 0 then Settling(Outcome(id, true, 0, false)) else Sending(id, 0)
  }

  function AfterSend(id: nat, attempt: nat, ok: bool, retries: int): Phase {
    if ok then Settling(Outcome(id, true, attempt + 1, true))
    else if attempt < retries - 1 then Pausing(id, attempt)
    else Settling(Outcome(id, false, attempt + 1, false))
  }

  function PhaseAfter(p: Phase, a: Action, retries: int): Phase
    requires Ready(p, a, true, true)
  {
    match a
    case Begin => FirstAttempt(p.id, retries)
    case SendReturns(ok) => AfterSend(p.id, p.attempt, ok, retries)
    case Resume => Sending(p.id, p.attempt + 1)
    case GiveUp => Settling(Outcome(p.id, false, p.attempt + 1, false))
    case Land => Booking(p.outcome)
    case Leave => Exited
  }

  /** What an action adds to the in-flight gauge. */
  function Delta(a: Action): int {
    if a.Begin? then 1 else if a.Land? then -1 else 0
  }

  function Next(s: State, step: Step): State {
    if !Enabled(s, step) then s
    else match step
      case Submit(job) => if s.stopped then s else s.(offering := s.offering + [job])
      case Enqueue(i) =>
        s.(offering := Withdraw(s.offering, i), accepted := s.accepted + [s.offering[i]], queue := s.queue + [|s.accepted|])
      case HandOver(i, w) =>
        Goto(s.(offering := Withdraw(s.offering, i), accepted := s.accepted + [s.offering[i]]), w, Received(|s.accepted|))
      case Refuse(i) => s.(offering := Withdraw(s.offering, i))
      case Launch => s.(workers := s.workers + [Idle])
      case Receive(w) => Goto(s, w, Received(s.queue[0])).(queue := s.queue[1..])
      case Act(w, a) => Goto(s, w, PhaseAfter(s.workers[w], a, s.retries)).(inflight := s.inflight + Delta(a))
      case Book(w) =>
        var o := s.workers[w].outcome;
        Goto(s, w, Idle).(sent := s.sent + (if o.ok then 1 else 0), failed := s.failed + (if o.ok then 0 else 1),
                          outcomes := s.outcomes + [o])
      case MarkStopped => s.(stopped := true)
      case Close => s.(closed := true)
      case Cancel => s.(cancelled := true)
  }

  function Run(s: State, steps: seq<Step>): State {
    if steps == [] then s else Next(Run(s, steps[..|steps| - 1]), steps[|steps| - 1])
  }

  // ---------- Where the jobs are ----------

  /** The job a worker holds. */
  function JobOf(p: Phase): Option<nat> {
    match p
    case Idle => None
    case Exited => None
    case Received(id) => Some(id)
    case Sending(id, _) => Some(id)
    case Pausing(id, _) => Some(id)
    case Settling(o) => Some(o.id)
    case Booking(o) => Some(o.id)
  }

  function Holds(p: Phase, id: nat): nat {
    if JobOf(p) == Some(id) then 1 else 0
  }

  /** How many workers hold the job. */
  function Holders(workers: seq<Phase>, id: nat): nat {
    if workers == [] then 0 else Holders(workers[..|workers| - 1], id) + Holds(workers[|workers| - 1], id)
  }

  function Busy(p: Phase): nat {
    if JobOf(p).Some? then 1 else 0
  }

  function BusyWorkers(workers: seq<Phase>): nat {
    if workers == [] then 0 else BusyWorkers(workers[..|workers| - 1]) + Busy(workers[|workers| - 1])
  }

  function Flying(p: Phase): nat {
    if p.Sending? || p.Pausing? || p.Settling? then 1 else 0
  }

  function InFlight(workers: seq<Phase>): nat {
    if workers == [] then 0 else InFlight(workers[..|workers| - 1]) + Flying(workers[|workers| - 1])
  }

  function Booked(outcomes: seq<Outcome>, id: nat): nat {
    if outcomes == [] then 0
    else Booked(outcomes[..|outcomes| - 1], id) + if outcomes[|outcomes| - 1].id == id then 1 else 0
  }

  function CountOk(outcomes: seq<Outcome>, ok: bool): nat {
    if outcomes == [] then 0
    else CountOk(outcomes[..|outcomes| - 1], ok) + if outcomes[|outcomes| - 1].ok == ok then 1 else 0
  }

  /** Every accepted job that has left the queue is held by one worker or booked once; no other job is. */
  ghost predicate Conserved(s: State) {
    forall id: nat ::
      Holders(s.workers, id) + Booked(s.outcomes, id) == if id < |s.accepted| - |s.queue| then 1 else 0
  }

  /** The gauge and the counters agree with the places, and the counts add up. */
  ghost predicate Counted(s: State) {
    && s.inflight == InFlight(s.workers)
    && s.sent == CountOk(s.outcomes, true) && s.failed == CountOk(s.outcomes, false)
    && |s.accepted| == |s.queue| + BusyWorkers(s.workers) + s.sent + s.failed
  }

  /** The queue holds the latest accepted jobs, in the order of acceptance. */
  ghost predicate InOrder(s: State) {
    && |s.queue| <= s.capacity && |s.queue| <= |s.accepted|
    && forall i :: 0 <= i < |s.queue| ==> s.queue[i] == |s.accepted| - |s.queue| + i
  }

  /**
   * A verdict is honest: sent means delivered, unless no attempt is allowed at all; failed means that every
   * allowed attempt was made, or the pool was cancelled; and no more attempts were made than allowed.
   */
  predicate Honest(o: Outcome, retries: int, cancelled: bool) {
    && (o.ok <==> o.delivered || retries <= 0)
    && o.sends <= Max(retries, 0)
    && (o.delivered ==> o.sends >= 1)
    && (!o.ok ==> o.sends == retries || (cancelled && 1 <= o.sends))
  }

  predicate PhaseSound(p: Phase, retries: int, cancelled: bool) {
    match p
    case Sending(_, a) => a < retries
    case Pausing(_, a) => a < retries - 1
    case Settling(o) => Honest(o, retries, cancelled)
    case Booking(o) => Honest(o, retries, cancelled)
    case _ => true
  }

  ghost predicate PhasesSound(s: State) {
    && (forall w :: 0 <= w < |s.workers| ==> PhaseSound(s.workers[w], s.retries, s.cancelled))
    && (forall o :: o in s.outcomes ==> Honest(o, s.retries, s.cancelled))
  }

  /** Workers leave only a closed and empty queue; without workers nothing is ever booked. */
  ghost predicate ExitsSound(s: State) {
    && (s.closed ==> s.stopped)
    && (forall w :: 0 <= w < |s.workers| && s.workers[w].Exited? ==> s.closed && s.queue == [])
    && (s.workers == [] ==> s.outcomes == [])
  }

  ghost predicate Inv(s: State) {
    Conserved(s) && Counted(s) && InOrder(s) && PhasesSound(s) && ExitsSound(s)
  }

  // ---------- One worker changes ----------

  /** Worker w goes to another phase: what that does to the counts. */
  lemma {:induction false} CountsUpdate(workers: seq<Phase>, w: nat, p: Phase)
    requires w < |workers|
    ensures BusyWorkers(workers[w := p]) == BusyWorkers(workers) - Busy(workers[w]) + Busy(p)
    ensures InFlight(workers[w := p]) == InFlight(workers) - Flying(workers[w]) + Flying(p)
  {
    var n := |workers| - 1;
    if w == n {
      assert workers[w := p][..n] == workers[..n];
    } else {
      CountsUpdate(workers[..n], w, p);
      assert workers[w := p][..n] == workers[..n][w := p];
    }
  }

  lemma {:induction false} HoldersUpdate(workers: seq<Phase>, w: nat, p: Phase, id: nat)
    requires w < |workers|
    ensures Holders(workers[w := p], id) == Holders(workers, id) - Holds(workers[w], id) + Holds(p, id)
  {
    var n := |workers| - 1;
    if w == n {
      assert workers[w := p][..n] == workers[..n];
    } else {
      HoldersUpdate(workers[..n], w, p, id);
      assert workers[w := p][..n] == workers[..n][w := p];
    }
  }

  lemma AllHoldersUpdate(workers: seq<Phase>, w: nat, p: Phase)
    requires w < |workers|
    ensures forall id: nat :: Holders(workers[w := p], id) == Holders(workers, id) - Holds(workers[w], id) + Holds(p, id)
  {
    forall id: nat ensures Holders(workers[w := p], id) == Holders(workers, id) - Holds(workers[w], id) + Holds(p, id) {
      HoldersUpdate(workers, w, p, id);
    }
  }

  lemma LaunchSums(workers: seq<Phase>)
    ensures forall id: nat :: Holders(workers + [Idle], id) == Holders(workers, id)
    ensures BusyWorkers(workers + [Idle]) == BusyWorkers(workers) && InFlight(workers + [Idle]) == InFlight(workers)
  {
    assert (workers + [Idle])[..|workers|] == workers;
  }

  lemma BookedSnoc(outcomes: seq<Outcome>, o: Outcome)
    ensures forall id: nat :: Booked(outcomes + [o], id) == Booked(outcomes, id) + if o.id == id then 1 else 0
    ensures CountOk(outcomes + [o], true) == CountOk(outcomes, true) + if o.ok then 1 else 0
    ensures CountOk(outcomes + [o], false) == CountOk(outcomes, false) + if o.ok then 0 else 1
  {
    assert (outcomes + [o])[..|outcomes|] == outcomes;
  }

  // ---------- Every step keeps every part ----------

  /** A worker keeps the job it has, and counts as in flight as the gauge says. */
  lemma ActionKeepsJob(p: Phase, a: Action, retries: int)
    requires Ready(p, a, true, true)
    ensures JobOf(PhaseAfter(p, a, retries)) == JobOf(p)
    ensures Flying(PhaseAfter(p, a, retries)) == Flying(p) + Delta(a)
  {
  }

  lemma ActConserves(s: State, w: nat, a: Action)
    requires Conserved(s) && Counted(s) && Enabled(s, Act(w, a))
    ensures Conserved(Next(s, Act(w, a))) && Counted(Next(s, Act(w, a)))
  {
    var p' := PhaseAfter(s.workers[w], a, s.retries);
    ActionKeepsJob(s.workers[w], a, s.retries);
    AllHoldersUpdate(s.workers, w, p');
    CountsUpdate(s.workers, w, p');
  }

  lemma EnqueueConserves(s: State, i: nat)
    requires Conserved(s) && Counted(s) && Enabled(s, Enqueue(i))
    ensures Conserved(Next(s, Enqueue(i))) && Counted(Next(s, Enqueue(i)))
  {
  }

  lemma HandOverConserves(s: State, i: nat, w: nat)
    requires Conserved(s) && Counted(s) && Enabled(s, HandOver(i, w))
    ensures Conserved(Next(s, HandOver(i, w))) && Counted(Next(s, HandOver(i, w)))
  {
    AllHoldersUpdate(s.workers, w, Received(|s.accepted|));
    CountsUpdate(s.workers, w, Received(|s.accepted|));
  }

  lemma ReceiveConserves(s: State, w: nat)
    requires Conserved(s) && Counted(s) && InOrder(s) && Enabled(s, Receive(w))
    ensures Conserved(Next(s, Receive(w))) && Counted(Next(s, Receive(w)))
  {
    AllHoldersUpdate(s.workers, w, Received(s.queue[0]));
    CountsUpdate(s.workers, w, Received(s.queue[0]));
  }

  /** A booked job moves from its worker to the books. */
  lemma BookMoves(workers: seq<Phase>, outcomes: seq<Outcome>, w: nat, o: Outcome)
    requires w < |workers| && JobOf(workers[w]) == Some(o.id)
    ensures forall id: nat ::
      Holders(workers[w := Idle], id) + Booked(outcomes + [o], id) == Holders(workers, id) + Booked(outcomes, id)
  {
    AllHoldersUpdate(workers, w, Idle);
    BookedSnoc(outcomes, o);
  }

  lemma BookConserves(s: State, w: nat)
    requires Conserved(s) && Counted(s) && Enabled(s, Book(w))
    ensures Conserved(Next(s, Book(w))) && Counted(Next(s, Book(w)))
  {
    var o := s.workers[w].outcome;
    BookMoves(s.workers, s.outcomes, w, o);
    CountsUpdate(s.workers, w, Idle);
    BookedSnoc(s.outcomes, o);
    var s' := Next(s, Book(w));
    assert s'.outcomes == s.outcomes + [o] && s'.workers == s.workers[w := Idle];
  }

  lemma StepConserves(s: State, step: Step)
    requires Conserved(s) && Counted(s) && InOrder(s) && Enabled(s, step)
    ensures Conserved(Next(s, step)) && Counted(Next(s, step))
  {
    match step {
      case Act(w, a) => ActConserves(s, w, a);
      case Enqueue(i) => EnqueueConserves(s, i);
      case HandOver(i, w) => HandOverConserves(s, i, w);
      case Receive(w) => ReceiveConserves(s, w);
      case Book(w) => BookConserves(s, w);
      case Launch => LaunchSums(s.workers);
      case _ => SameJobs(s, step);
    }
  }

  /** Submitting, withdrawing and commanding touch no accepted job. */
  lemma SameJobs(s: State, step: Step)
    requires Enabled(s, step)
    requires step.Submit? || step.Refuse? || step.MarkStopped? || step.Close? || step.Cancel?
    ensures var s' := Next(s, step);
      && s'.workers == s.workers && s'.outcomes == s.outcomes && s'.accepted == s.accepted && s'.queue == s.queue
      && s'.inflight == s.inflight && s'.sent == s.sent && s'.failed == s.failed
  {
  }

  lemma StepKeepsOrder(s: State, step: Step)
    requires InOrder(s) && Enabled(s, step)
    ensures InOrder(Next(s, step))
  {
  }

  lemma StepKeepsExits(s: State, step: Step)
    requires ExitsSound(s) && Enabled(s, step)
    ensures ExitsSound(Next(s, step))
  {
  }

  lemma ActionIsSound(p: Phase, a: Action, retries: int, cancelled: bool)
    requires Ready(p, a, cancelled, true) && PhaseSound(p, retries, cancelled)
    ensures PhaseSound(PhaseAfter(p, a, retries), retries, cancelled)
  {
  }

  lemma StepKeepsPhases(s: State, step: Step)
    requires PhasesSound(s) && Enabled(s, step)
    ensures PhasesSound(Next(s, step))
  {
    if step.Act? {
      ActionIsSound(s.workers[step.worker], step.action, s.retries, s.cancelled);
    }
  }

  lemma StepKeeps(s: State, step: Step)
    requires Inv(s)
    ensures Inv(Next(s, step))
  {
    if Enabled(s, step) {
      StepConserves(s, step);
      StepKeepsOrder(s, step);
      StepKeepsExits(s, step);
      StepKeepsPhases(s, step);
    }
  }

  /**
   * In every interleaving each accepted job is in exactly one place, counters agree with the places, jobs leave
   * the queue in the order of acceptance, and verdicts are honest.
   */
  lemma {:induction false} EveryRunConserves(capacity: nat, retries: int, steps: seq<Step>)
    ensures Inv(Run(Start(capacity, retries), steps))
    ensures Run(Start(capacity, retries), steps).retries == retries
  {
    if steps != [] {
      EveryRunConserves(capacity, retries, steps[..|steps| - 1]);
      StepKeeps(Run(Start(capacity, retries), steps[..|steps| - 1]), steps[|steps| - 1]);
    }
  }

  /** accepted = queued + held + sent + failed, in every reachable state. */
  lemma CountsAddUp(capacity: nat, retries: int, steps: seq<Step>)
    ensures var s := Run(Start(capacity, retries), steps);
      |s.accepted| == |s.queue| + BusyWorkers(s.workers) + s.sent + s.failed
  {
    EveryRunConserves(capacity, retries, steps);
  }

  // ---------- Stop ----------

  /** What Stop waits for: the queue closed and every worker gone. */
  predicate StopReturns(s: State) {
    s.closed && forall w :: 0 <= w < |s.workers| ==> s.workers[w].Exited?
  }

  lemma {:induction false} NoneHeld(workers: seq<Phase>, id: nat)
    requires forall w :: 0 <= w < |workers| ==> workers[w].Exited?
    ensures Holders(workers, id) == 0
  {
    if workers != [] {
      NoneHeld(workers[..|workers| - 1], id);
    }
  }

  /** Every accepted job has been booked exactly once. */
  ghost predicate AllSettled(s: State) {
    forall id: nat :: id < |s.accepted| ==> Booked(s.outcomes, id) == 1
  }

  /**
   * When Stop returns, every accepted job has been sent or dead-lettered exactly once if and only if the pool
   * had a worker or never accepted a job: a pool without workers drops its queue.
   */
  lemma StopSettlesExactly(capacity: nat, retries: int, steps: seq<Step>)
    requires StopReturns(Run(Start(capacity, retries), steps))
    ensures var s := Run(Start(capacity, retries), steps);
      AllSettled(s) <==> s.workers != [] || s.accepted == []
  {
    var s := Run(Start(capacity, retries), steps);
    EveryRunConserves(capacity, retries, steps);
    if s.workers != [] {
      assert s.workers[0].Exited?;
      forall id: nat | id < |s.accepted| ensures Booked(s.outcomes, id) == 1 {
        NoneHeld(s.workers, id);
      }
    } else if s.accepted != [] {
      assert Booked(s.outcomes, 0) == 0;
    }
  }

  lemma {:induction false} BookedCounts(outcomes: seq<Outcome>, i: nat, j: nat)
    requires i < j < |outcomes| && outcomes[i].id == outcomes[j].id
    ensures Booked(outcomes, outcomes[i].id) >= 2
  {
    var n := |outcomes| - 1;
    if j == n {
      BookedOne(outcomes[..n], i);
    } else {
      BookedCounts(outcomes[..n], i, j);
    }
  }

  lemma {:induction false} BookedOne(outcomes: seq<Outcome>, i: nat)
    requires i < |outcomes|
    ensures Booked(outcomes, outcomes[i].id) >= 1
  {
    var n := |outcomes| - 1;
    if i < n {
      BookedOne(outcomes[..n], i);
    }
  }

  /**
   * In every reachable state no job is booked twice, a job booked as sent was delivered by its last send when
   * attempts are allowed, and one booked as failed was refused by every allowed send, or the pool was cancelled.
   */
  lemma BookedOnceHonestly(capacity: nat, retries: int, steps: seq<Step>, i: nat)
    requires i < |Run(Start(capacity, retries), steps).outcomes|
    ensures var s := Run(Start(capacity, retries), steps); var o := s.outcomes[i];
      && o.id < |s.accepted| && Honest(o, retries, s.cancelled)
      && forall j :: 0 <= j < |s.outcomes| && s.outcomes[j].id == o.id ==> j == i
  {
    var s := Run(Start(capacity, retries), steps);
    EveryRunConserves(capacity, retries, steps);
    BookedOne(s.outcomes, i);
    forall j | 0 <= j < |s.outcomes| && s.outcomes[j].id == s.outcomes[i].id ensures j == i {
      if i < j {
        BookedCounts(s.outcomes, i, j);
      } else if j < i {
        BookedCounts(s.outcomes, j, i);
      }
    }
    assert s.outcomes[i] in s.outcomes;
  }

  /** A pool allowed no attempts reports every job as sent and sends none. */
  lemma NoAttemptsSendNothing(capacity: nat, retries: int, steps: seq<Step>, i: nat)
    requires retries <= 0 && i < |Run(Start(capacity, retries), steps).outcomes|
    ensures var o := Run(Start(capacity, retries), steps).outcomes[i]; o.ok && o.sends == 0 && !o.delivered
  {
    BookedOnceHonestly(capacity, retries, steps, i);
  }

  // ---------- What becomes of the submitted jobs ----------

  /** The jobs submitted before the pool was stopped. */
  ghost function Submitted(steps: seq<Step>): multiset<string> {
    if steps == [] then multiset{}
    else
      var before := steps[..|steps| - 1];
      match steps[|steps| - 1]
      case Submit(job) => if MarkStopped in before then Submitted(before) else Submitted(before) + multiset{job}
      case _ => Submitted(before)
  }

  /** The waiting jobs that were turned away, each after the queue was closed. */
  ghost function Refused(s: State, steps: seq<Step>): multiset<string> {
    if steps == [] then multiset{}
    else
      var before := steps[..|steps| - 1];
      match steps[|steps| - 1]
      case Refuse(i) =>
        if i < |Run(s, before).offering| && ClosedBy(before) then Refused(s, before) + multiset{Run(s, before).offering[i]}
        else Refused(s, before)
      case _ => Refused(s, before)
  }

  /** The queue was closed: at some time after the stop. */
  ghost predicate ClosedBy(steps: seq<Step>) {
    exists i, j :: 0 <= i < j < |steps| && steps[i] == MarkStopped && steps[j] == Close
  }

  /** The pool is stopped, cancelled or closed by the commands that say so, and by nothing else. */
  lemma {:induction false} CommandsExactly(capacity: nat, retries: int, steps: seq<Step>)
    ensures var s := Run(Start(capacity, retries), steps);
      && (s.stopped <==> MarkStopped in steps) && (s.cancelled <==> Cancel in steps) && (s.closed <==> ClosedBy(steps))
      && s.capacity == capacity && s.retries == retries
  {
    if steps != [] {
      var n := |steps| - 1;
      CommandsExactly(capacity, retries, steps[..n]);
      assert steps == steps[..n] + [steps[n]];
      StepCommands(Run(Start(capacity, retries), steps[..n]), steps[n]);
      ClosedBySnoc(steps);
    }
  }

  /** The pool has one worker for every launch, and no worker disappears. */
  lemma {:induction false} WorkersAreLaunched(capacity: nat, retries: int, steps: seq<Step>)
    ensures |Run(Start(capacity, retries), steps).workers| == multiset(steps)[Launch]
  {
    if steps != [] {
      var before := steps[..|steps| - 1];
      WorkersAreLaunched(capacity, retries, before);
      StepCommands(Run(Start(capacity, retries), before), steps[|steps| - 1]);
      assert steps == before + [steps[|steps| - 1]];
    }
  }

  lemma StepCommands(s: State, step: Step)
    ensures var s' := Next(s, step);
      && (s'.stopped <==> s.stopped || step == MarkStopped) && (s'.cancelled <==> s.cancelled || step == Cancel)
      && (s'.closed <==> s.closed || (step == Close && s.stopped))
      && s'.capacity == s.capacity && s'.retries == s.retries
      && |s'.workers| == |s.workers| + if step == Launch then 1 else 0
  {
  }

  lemma ClosedBySnoc(steps: seq<Step>)
    requires steps != []
    ensures var n := |steps| - 1;
      ClosedBy(steps) <==> ClosedBy(steps[..n]) || (steps[n] == Close && MarkStopped in steps[..n])
  {
    var n := |steps| - 1;
    if i, j :| 0 <= i < j < n && steps[..n][i] == MarkStopped && steps[..n][j] == Close {
      assert steps[i] == MarkStopped && steps[j] == Close;
    }
    if steps[n] == Close && MarkStopped in steps[..n] {
      var i :| 0 <= i < n && steps[..n][i] == MarkStopped;
      assert steps[i] == MarkStopped;
    }
    if i, j :| 0 <= i < j < |steps| && steps[i] == MarkStopped && steps[j] == Close {
      assert steps[..n][i] == MarkStopped;
      assert j < n ==> steps[..n][j] == Close;
    }
  }

  lemma WithdrawTakes(offering: seq<string>, i: nat)
    requires i < |offering|
    ensures multiset(Withdraw(offering, i)) + multiset{offering[i]} == multiset(offering)
  {
    assert offering == offering[..i] + [offering[i]] + offering[i + 1..];
  }

  /** The job a step brings to the pool, and the one it turns away. */
  ghost function Brought(s: State, step: Step): multiset<string> {
    if step.Submit? && !s.stopped then multiset{step.job} else multiset{}
  }

  ghost function TurnedAway(s: State, step: Step): multiset<string> {
    if step.Refuse? && step.offer < |s.offering| && s.closed then multiset{s.offering[step.offer]} else multiset{}
  }

  /** The jobs waiting or accepted. */
  ghost function Taken(s: State): multiset<string> {
    multiset(s.offering) + multiset(s.accepted)
  }

  lemma StepKeepsJobs(s: State, step: Step)
    ensures Taken(Next(s, step)) + TurnedAway(s, step) == Taken(s) + Brought(s, step)
  {
    if Enabled(s, step) && (step.Enqueue? || step.HandOver? || step.Refuse?) {
      WithdrawTakes(s.offering, step.offer);
    }
  }

  lemma Balance(submitted: multiset<string>, taken: multiset<string>, taken': multiset<string>, refused: multiset<string>,
                brought: multiset<string>, away: multiset<string>)
    requires submitted == taken + refused && taken' + away == taken + brought
    ensures submitted + brought == taken' + (refused + away)
  {
    assert submitted + brought == (taken + brought) + refused;
  }

  /**
   * No job is lost, doubled or exchanged on its way into the queue: in every run the jobs submitted before the stop
   * are those still waiting, those accepted and those turned away after the close.
   */
  lemma {:induction false} SubmittedAreKept(capacity: nat, retries: int, steps: seq<Step>)
    ensures var s := Run(Start(capacity, retries), steps);
      Submitted(steps) == (multiset(s.offering) + multiset(s.accepted)) + Refused(Start(capacity, retries), steps)
  {
    if steps != [] {
      var before := steps[..|steps| - 1];
      var last := steps[|steps| - 1];
      SubmittedAreKept(capacity, retries, before);
      var s := Run(Start(capacity, retries), before);
      StepKeepsJobs(s, last);
      StepCounts(capacity, retries, steps);
      Balance(Submitted(before), Taken(s), Taken(Next(s, last)), Refused(Start(capacity, retries), before),
              Brought(s, last), TurnedAway(s, last));
    }
  }

  lemma StepCounts(capacity: nat, retries: int, steps: seq<Step>)
    requires steps != []
    ensures var before, last := steps[..|steps| - 1], steps[|steps| - 1];
      var s := Run(Start(capacity, retries), before);
      && Submitted(steps) == Submitted(before) + Brought(s, last)
      && Refused(Start(capacity, retries), steps) == Refused(Start(capacity, retries), before) + TurnedAway(s, last)
  {
    CommandsExactly(capacity, retries, steps[..|steps| - 1]);
  }

  /** Once the queue is closed nothing more is accepted. */
  lemma {:induction false} ClosedAcceptsNothing(s: State, steps: seq<Step>)
    requires s.closed
    ensures Run(s, steps).closed && Run(s, steps).accepted == s.accepted
  {
    if steps != [] {
      ClosedAcceptsNothing(s, steps[..|steps| - 1]);
    }
  }

  // ---------- Stop does return ----------

  /** The next step of a worker by itself, `ok` being what a send answers. */
  function OwnStep(s: State, w: nat, ok: bool): Step
    requires w < |s.workers|
  {
    match s.workers[w]
    case Idle => if s.queue != [] then Receive(w) else Act(w, Leave)
    case Received(_) => Act(w, Begin)
    case Sending(_, _) => Act(w, SendReturns(ok))
    case Pausing(_, _) => Act(w, Resume)
    case Settling(_) => Act(w, Land)
    case Booking(_) => Book(w)
    case Exited => Act(w, Leave)
  }

  /** Once the queue is closed, a worker that has not left can always take its next step. */
  lemma NoWorkerIsStuck(s: State, w: nat, ok: bool)
    requires s.closed && w < |s.workers|
    ensures !s.workers[w].Exited? ==> Inner(OwnStep(s, w, ok)) && Enabled(s, OwnStep(s, w, ok))
  {
  }

  /** Attempts a job may still need, at least one step's worth. */
  function Tries(retries: int): nat {
    Max(retries, 1)
  }

  function Left(p: Phase, retries: int): int {
    match p
    case Idle => 1
    case Received(_) => 2 * Tries(retries) + 3
    case Sending(_, a) => 2 * (retries - a) + 2
    case Pausing(_, a) => 2 * (retries - a) + 1
    case Settling(_) => 3
    case Booking(_) => 2
    case Exited => 0
  }

  function LeftAll(workers: seq<Phase>, retries: int): int {
    if workers == [] then 0 else LeftAll(workers[..|workers| - 1], retries) + Left(workers[|workers| - 1], retries)
  }

  function PerJob(retries: int): nat {
    2 * Tries(retries) + 3
  }

  /** Nonnegative while attempts stay below the allowed ones. */
  function WorkLeft(s: State): int {
    (PerJob(s.retries) + 1) * |s.offering| + PerJob(s.retries) * |s.queue| + LeftAll(s.workers, s.retries)
  }

  lemma {:induction false} LeftUpdate(workers: seq<Phase>, w: nat, p: Phase, retries: int)
    requires w < |workers|
    ensures LeftAll(workers[w := p], retries) == LeftAll(workers, retries) - Left(workers[w], retries) + Left(p, retries)
  {
    var n := |workers| - 1;
    if w == n {
      assert workers[w := p][..n] == workers[..n];
    } else {
      LeftUpdate(workers[..n], w, p, retries);
      assert workers[w := p][..n] == workers[..n][w := p];
    }
  }

  lemma {:induction false} LeftNonNegative(workers: seq<Phase>, retries: int, cancelled: bool)
    requires forall w :: 0 <= w < |workers| ==> PhaseSound(workers[w], retries, cancelled)
    ensures LeftAll(workers, retries) >= 0
  {
    if workers != [] {
      LeftNonNegative(workers[..|workers| - 1], retries, cancelled);
      assert PhaseSound(workers[|workers| - 1], retries, cancelled);
    }
  }

  lemma ActionFinishes(p: Phase, a: Action, retries: int, cancelled: bool)
    requires Ready(p, a, cancelled, true) && PhaseSound(p, retries, cancelled)
    ensures Left(PhaseAfter(p, a, retries), retries) < Left(p, retries)
  {
  }

  lemma LessPerJob(perJob: nat, n: nat)
    requires n > 0
    ensures perJob * n == perJob * (n - 1) + perJob
  {
  }

  /** The steps of submitters already waiting and of the workers; new submissions and commands are not among them. */
  predicate Inner(step: Step) {
    !step.Submit? && !step.Launch? && !step.MarkStopped? && !step.Close? && !step.Cancel?
  }

  /**
   * Every inner step lowers the work left, which is never negative.
   */
  lemma StepsFinish(s: State, step: Step)
    requires PhasesSound(s) && Enabled(s, step) && Inner(step)
    ensures 0 <= WorkLeft(Next(s, step)) < WorkLeft(s)
  {
    StepKeepsPhases(s, step);
    NeverNegative(Next(s, step));
    match step {
      case Act(w, a) =>
        var p' := PhaseAfter(s.workers[w], a, s.retries);
        ActionFinishes(s.workers[w], a, s.retries, s.cancelled);
        LeftUpdate(s.workers, w, p', s.retries);
      case Book(w) => LeftUpdate(s.workers, w, Idle, s.retries);
      case Enqueue(i) => EnqueueFinishes(s, i);
      case HandOver(i, w) => HandOverFinishes(s, i, w);
      case Refuse(i) => LessPerJob(PerJob(s.retries) + 1, |s.offering|);
      case Receive(w) => ReceiveFinishes(s, w);
    }
  }

  /** A run of inner steps, each of them possible when it is taken. */
  ghost predicate InnerRun(s: State, steps: seq<Step>) {
    steps != [] ==>
      var before := steps[..|steps| - 1];
      InnerRun(s, before) && Inner(steps[|steps| - 1]) && Enabled(Run(s, before), steps[|steps| - 1])
  }

  lemma {:induction false} InnerRunIsShort(s: State, steps: seq<Step>)
    requires PhasesSound(s) && InnerRun(s, steps)
    ensures PhasesSound(Run(s, steps)) && (s.closed ==> Run(s, steps).closed)
    ensures 0 <= WorkLeft(Run(s, steps)) <= WorkLeft(s) - |steps|
  {
    if steps == [] {
      NeverNegative(s);
    } else {
      var before := steps[..|steps| - 1];
      InnerRunIsShort(s, before);
      StepKeepsPhases(Run(s, before), steps[|steps| - 1]);
      StepsFinish(Run(s, before), steps[|steps| - 1]);
    }
  }

  /** Nothing of the pool can move any more. */
  ghost predicate AtRest(s: State) {
    forall step :: Inner(step) ==> !Enabled(s, step)
  }

  /**
   * Stop returns: from any state with the queue closed, the pool makes at most WorkLeft further steps, whatever
   * their order, and when it can make none every worker has left and no submitter waits.
   */
  lemma StopIsReached(s: State, steps: seq<Step>)
    requires PhasesSound(s) && s.closed && InnerRun(s, steps)
    ensures |steps| <= WorkLeft(s)
    ensures AtRest(Run(s, steps)) ==> StopReturns(Run(s, steps)) && Run(s, steps).offering == []
  {
    InnerRunIsShort(s, steps);
    var s' := Run(s, steps);
    if AtRest(s') {
      forall w | 0 <= w < |s'.workers| ensures s'.workers[w].Exited? {
        NoWorkerIsStuck(s', w, true);
      }
      assert Inner(Refuse(0));
    }
  }

  lemma NeverNegative(s: State)
    requires PhasesSound(s)
    ensures WorkLeft(s) >= 0
  {
    LeftNonNegative(s.workers, s.retries, s.cancelled);
    var offers, queued := (PerJob(s.retries) + 1) * |s.offering|, PerJob(s.retries) * |s.queue|;
    assert offers >= 0 && queued >= 0;
  }

  lemma EnqueueFinishes(s: State, i: nat)
    requires Enabled(s, Enqueue(i))
    ensures WorkLeft(Next(s, Enqueue(i))) < WorkLeft(s)
  {
    LessPerJob(PerJob(s.retries) + 1, |s.offering|);
    LessPerJob(PerJob(s.retries), |s.queue| + 1);
  }

  lemma HandOverFinishes(s: State, i: nat, w: nat)
    requires Enabled(s, HandOver(i, w))
    ensures WorkLeft(Next(s, HandOver(i, w))) < WorkLeft(s)
  {
    LessPerJob(PerJob(s.retries) + 1, |s.offering|);
    LeftUpdate(s.workers, w, Received(|s.accepted|), s.retries);
  }

  lemma ReceiveFinishes(s: State, w: nat)
    requires Enabled(s, Receive(w))
    ensures WorkLeft(Next(s, Receive(w))) < WorkLeft(s)
  {
    LessPerJob(PerJob(s.retries), |s.queue|);
    LeftUpdate(s.workers, w, Received(s.queue[0]), s.retries);
  }

  // ---------- The retry loop ----------

  function Power2(k: nat): nat {
    if k == 0 then 1 else 2 * Power2(k - 1)
  }

  /** The pause after attempt k: doubled each time, and capped except for the first. */
  function Backoff(initial: nat, max: nat, k: nat): nat {
    if k == 0 then initial else Min(2 * Backoff(initial, max, k - 1), max)
  }

  /** The pauses are the initial one times powers of two, up to the cap. */
  lemma {:induction false} BackoffClosedForm(initial: nat, max: nat, k: nat)
    requires k > 0
    ensures Backoff(initial, max, k) == Min(initial * Power2(k), max)
  {
    if k > 1 {
      BackoffClosedForm(initial, max, k - 1);
      assert initial * Power2(k) == 2 * (initial * Power2(k - 1));
    } else {
      assert Power2(1) == 2 * Power2(0);
    }
  }

  predicate Doubling(pauses: seq<nat>, initial: nat, max: nat) {
    forall k: nat :: k < |pauses| ==> pauses[k] == Backoff(initial, max, k)
  }

  /** What a worker does next, when send k answers `answers(k)` and the context ends during pause k if `gone(k)`. */
  function ActionFor(p: Phase, answers: nat -> bool, gone: nat -> bool): Action
    requires p.Received? || p.Sending? || p.Pausing?
  {
    match p
    case Received(_) => Begin
    case Sending(_, a) => SendReturns(answers(a))
    case Pausing(_, a) => if gone(a) then GiveUp else Resume
  }

  /** Where the machine's own steps take a worker that is sending. */
  function Ends(p: Phase, retries: int, answers: nat -> bool, gone: nat -> bool): Phase
    requires PhaseSound(p, retries, true) && (p.Received? || p.Sending? || p.Pausing? || p.Settling?)
    decreases Left(p, retries)
  {
    if p.Settling? then p
    else
      var a := ActionFor(p, answers, gone);
      ActionFinishes(p, a, retries, true);
      ActionIsSound(p, a, retries, true);
      Ends(PhaseAfter(p, a, retries), retries, answers, gone)
  }

  lemma OneAttempt(id: nat, attempt: nat, retries: int, answers: nat -> bool, gone: nat -> bool)
    requires attempt < retries
    ensures Ends(Sending(id, attempt), retries, answers, gone) ==
      if answers(attempt) then Settling(Outcome(id, true, attempt + 1, true))
      else if attempt == retries - 1 || gone(attempt) then Settling(Outcome(id, false, attempt + 1, false))
      else Ends(Sending(id, attempt + 1), retries, answers, gone)
  {
    var p := Sending(id, attempt);
    EndsStep(p, retries, answers, gone);
    if !answers(attempt) && attempt < retries - 1 {
      EndsStep(Pausing(id, attempt), retries, answers, gone);
    }
  }

  /** One step of the walk, and its end when that step settles the job. */
  lemma EndsStep(p: Phase, retries: int, answers: nat -> bool, gone: nat -> bool)
    requires PhaseSound(p, retries, true) && (p.Received? || p.Sending? || p.Pausing?)
    ensures var a := ActionFor(p, answers, gone); var p' := PhaseAfter(p, a, retries);
      && PhaseSound(p', retries, true) && (p'.Received? || p'.Sending? || p'.Pausing? || p'.Settling?)
      && Ends(p, retries, answers, gone) == Ends(p', retries, answers, gone)
      && (p'.Settling? ==> Ends(p, retries, answers, gone) == p')
  {
    var p' := PhaseAfter(p, ActionFor(p, answers, gone), retries);
    ActionIsSound(p, ActionFor(p, answers, gone), retries, true);
    if p'.Settling? {
      assert Ends(p', retries, answers, gone) == p';
    }
  }

  /**
   * The loop one worker runs for one job: it does what the machine's steps do.
   */
  method SendWithRetry(id: nat, retries: int, initial: nat, max: nat, answers: nat -> bool, gone: nat -> bool)
    returns (o: Outcome, pauses: seq<nat>)
    ensures Ends(Received(id), retries, answers, gone) == Settling(o)
    ensures o.id == id && Honest(o, retries, o.sends > 0 && gone(o.sends - 1))
    ensures o.delivered <==> o.sends > 0 && answers(o.sends - 1)
    ensures forall k: nat :: k + 1 < o.sends ==> !answers(k) && !gone(k)
    ensures |pauses| == Max(o.sends - 1, 0) && Doubling(pauses, initial, max)
  {
    var backoff := initial;
    pauses := [];
    var attempt: nat := 0;
    EndsStep(Received(id), retries, answers, gone);
    while attempt < retries
      invariant 0 <= attempt <= Max(retries, 0)
      invariant attempt == retries || (backoff == Backoff(initial, max, attempt) && |pauses| == attempt)
      invariant attempt == retries ==> |pauses| == Max(attempt - 1, 0)
      invariant Doubling(pauses, initial, max)
      invariant Ends(Received(id), retries, answers, gone) ==
        if attempt < retries then Ends(Sending(id, attempt), retries, answers, gone)
        else Settling(Outcome(id, retries <= 0, attempt, false))
      invariant forall k: nat :: k < attempt ==> !answers(k) && (k < retries - 1 ==> !gone(k))
    {
      OneAttempt(id, attempt, retries, answers, gone);
      if answers(attempt) {
        return Outcome(id, true, attempt + 1, true), pauses;
      }
      if attempt < retries - 1 {
        if gone(attempt) {
          return Outcome(id, false, attempt + 1, false), pauses;
        }
        pauses := pauses + [backoff];
        backoff := backoff * 2;
        if backoff > max {
          backoff := max;
        }
      }
      attempt := attempt + 1;
    }
    o := Outcome(id, retries <= 0, attempt, false);
  }
}
