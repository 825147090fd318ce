/**
 * The single-flight group as a step machine. Every caller of do() is a thread; a step is what one thread
 * does in one lock section, or one write outside it. Steps of all threads interleave freely.
 */
module SingleFlight {
  import opened Common

  /** An in-flight or finished call: its result once stored, and whether its waiters have been released. */
  datatype Call<V> = Call(key: string, driver: nat, result: Option<V>, released: bool)

  datatype Pc<V> =
    | Running(call: nat)              // driver, inside fn
    | Stored(call: nat)               // driver, result stored, waiters not yet released
    | Clearing(call: nat)             // driver, about to delete the map entry
    | Waiting(call: nat)              // blocked on another thread's call
    | Returned(call: nat, value: V, ran: bool)
    | Crashed(call: nat)              // driver whose fn panicked

  datatype Thread<V> = Thread(key: string, pc: Pc<V>)

  datatype State<V> = State(inflight: map<string, nat>, calls: seq<Call<V>>, threads: seq<Thread<V>>)

  datatype Step<V> =
    | Enter(key: string)
    | FnReturns(thread: nat, value: V)
    | FnPanics(thread: nat)
    | Release(thread: nat)
    | Clear(thread: nat)
    | Wake(thread: nat)

  /** Thread t exists and its call does too. */
  predicate OnCall<V>(s: State<V>, t: nat) {
    t < |s.threads| && s.threads[t].pc.call < |s.calls|
  }

  predicate Enabled<V>(s: State<V>, step: Step<V>) {
    match step
    case Enter(_) => true
    case FnReturns(t, _) => OnCall(s, t) && s.threads[t].pc.Running?
    case FnPanics(t) => OnCall(s, t) && s.threads[t].pc.Running?
    case Release(t) => OnCall(s, t) && s.threads[t].pc.Stored?
    case Clear(t) => OnCall(s, t) && s.threads[t].pc.Clearing? && s.calls[s.threads[t].pc.call].result.Some?
    case Wake(t) =>
      OnCall(s, t) && s.threads[t].pc.Waiting?
      && s.calls[s.threads[t].pc.call].released && s.calls[s.threads[t].pc.call].result.Some?
  }

  function Goto<V>(s: State<V>, t: nat, pc: Pc<V>): State<V>
    requires t < |s.threads|
  {
    s.(threads := s.threads[t := s.threads[t].(pc := pc)])
  }

  function Next<V>(s: State<V>, step: Step<V>): State<V> {
    if !Enabled(s, step) then s
    else match step
      case Enter(key) =>
        if key in s.inflight then
          s.(threads := s.threads + [Thread(key, Waiting(s.inflight[key]))])
        else
          State(s.inflight[key := |s.calls|],
                s.calls + [Call(key, |s.threads|, None, false)],
                s.threads + [Thread(key, Running(|s.calls|))])
      case FnReturns(t, value) =>
        var c := s.threads[t].pc.call;
        Goto(s.(calls := s.calls[c := s.calls[c].(result := Some(value))]), t, Stored(c))
      case FnPanics(t) => Goto(s, t, Crashed(s.threads[t].pc.call))
      case Release(t) =>
        var c := s.threads[t].pc.call;
        Goto(s.(calls := s.calls[c := s.calls[c].(released := true)]), t, Clearing(c))
      case Clear(t) =>
        var c := s.threads[t].pc.call;
        Goto(s.(inflight := s.inflight - {s.threads[t].key}), t, Returned(c, s.calls[c].result.value, true))
      case Wake(t) =>
        var c := s.threads[t].pc.call;
        Goto(s, t, Returned(c, s.calls[c].result.value, false))
  }

  function Run<V>(s: State<V>, steps: seq<Step<V>>): State<V> {
    if steps == [] then s else Next(Run(s, steps[..|steps| - 1]), steps[|steps| - 1])
  }

  function Start<V>(): State<V> {
    State(map[], [], [])
  }

  // ---------- The invariant ----------

  /** The thread is the driver of its call and has not returned. */
  predicate Drives<V>(pc: Pc<V>) {
    pc.Running? || pc.Stored? || pc.Clearing? || pc.Crashed?
  }

  /** A call agrees with where its driver stands. */
  ghost predicate CallSound<V>(s: State<V>, c: nat)
    requires c < |s.calls|
  {
    var call := s.calls[c];
    && call.driver < |s.threads|
    && var th := s.threads[call.driver];
       && th.key == call.key && th.pc.call == c
       && (Drives(th.pc) || (th.pc.Returned? && th.pc.ran))
       && (call.result.Some? <==> !th.pc.Running? && !th.pc.Crashed?)
       && (call.released <==> th.pc.Clearing? || th.pc.Returned?)
       // The map entry of a call is there exactly until its driver has deleted it.
       && (Drives(th.pc) <==> call.key in s.inflight && s.inflight[call.key] == c)
  }

  /** A thread agrees with its call: the driver drives it, everyone else waits for it or returned its result. */
  ghost predicate ThreadSound<V>(s: State<V>, t: nat)
    requires t < |s.threads|
  {
    var th := s.threads[t];
    && th.pc.call < |s.calls|
    && var call := s.calls[th.pc.call];
       && call.key == th.key
       && (Drives(th.pc) || (th.pc.Returned? && th.pc.ran) <==> call.driver == t)
       && (th.pc.Returned? ==> call.result == Some(th.pc.value) && call.released)
  }

  ghost predicate Inv<V>(s: State<V>) {
    && (forall c :: 0 <= c < |s.calls| ==> CallSound(s, c))
    && (forall t :: 0 <= t < |s.threads| ==> ThreadSound(s, t))
    && (forall k :: k in s.inflight ==> s.inflight[k] < |s.calls| && s.calls[s.inflight[k]].key == k)
  }

  lemma JoinKeeps<V>(s: State<V>, key: string)
    requires Inv(s) && key in s.inflight
    ensures Inv(Next(s, Enter(key)))
  {
    var s' := Next(s, Enter(key));
    var c := s.inflight[key];
    assert CallSound(s, c);
    forall i | 0 <= i < |s'.calls| ensures CallSound(s', i) {
      assert CallSound(s, i);
    }
    forall t | 0 <= t < |s'.threads| ensures ThreadSound(s', t) {
      assert t < |s.threads| ==> ThreadSound(s, t);
    }
  }

  lemma OpenKeeps<V>(s: State<V>, key: string)
    requires Inv(s) && key !in s.inflight
    ensures Inv(Next(s, Enter(key)))
  {
    var s' := Next(s, Enter(key));
    forall i | 0 <= i < |s'.calls| ensures CallSound(s', i) {
      if i < |s.calls| {
        assert CallSound(s, i);
      }
    }
    forall t | 0 <= t < |s'.threads| ensures ThreadSound(s', t) {
      if t < |s.threads| {
        assert ThreadSound(s, t);
      }
    }
  }

  /** The driver of a call moves on; other calls and threads keep their standing. */
  lemma DriverKeeps<V>(s: State<V>, step: Step<V>, t: nat)
    requires Inv(s) && Enabled(s, step)
    requires step.FnReturns? || step.FnPanics? || step.Release?
    requires t == step.thread
    ensures Inv(Next(s, step))
  {
    var s' := Next(s, step);
    var c := s.threads[t].pc.call;
    assert ThreadSound(s, t) && CallSound(s, c);
    assert s.calls[c].driver == t;
    forall i | 0 <= i < |s'.calls| ensures CallSound(s', i) {
      assert CallSound(s, i);
      assert ThreadSound(s, s.calls[i].driver);
    }
    forall u | 0 <= u < |s'.threads| ensures ThreadSound(s', u) {
      assert ThreadSound(s, u);
      assert CallSound(s, s.threads[u].pc.call);
    }
  }

  lemma ClearKeeps<V>(s: State<V>, t: nat)
    requires Inv(s) && Enabled(s, Clear(t))
    ensures Inv(Next(s, Clear(t)))
    ensures s.threads[t].key in s.inflight && s.inflight[s.threads[t].key] == s.threads[t].pc.call
  {
    var s' := Next(s, Clear(t));
    var c := s.threads[t].pc.call;
    assert ThreadSound(s, t) && CallSound(s, c);
    assert s.calls[c].driver == t;
    forall i | 0 <= i < |s'.calls| ensures CallSound(s', i) {
      assert CallSound(s, i);
      assert ThreadSound(s, s.calls[i].driver);
    }
    forall u | 0 <= u < |s'.threads| ensures ThreadSound(s', u) {
      assert ThreadSound(s, u);
    }
  }

  lemma WakeKeeps<V>(s: State<V>, t: nat)
    requires Inv(s) && Enabled(s, Wake(t))
    ensures Inv(Next(s, Wake(t)))
  {
    var s' := Next(s, Wake(t));
    assert ThreadSound(s, t);
    forall i | 0 <= i < |s'.calls| ensures CallSound(s', i) {
      assert CallSound(s, i);
      assert ThreadSound(s, s.calls[i].driver);
    }
    forall u | 0 <= u < |s'.threads| ensures ThreadSound(s', u) {
      assert ThreadSound(s, u);
    }
  }

  lemma NextKeepsInv<V>(s: State<V>, step: Step<V>)
    requires Inv(s)
    ensures Inv(Next(s, step))
  {
    if Enabled(s, step) {
      match step
      case Enter(key) =>
        if key in s.inflight {
          JoinKeeps(s, key);
        } else {
          OpenKeeps(s, key);
        }
      case FnReturns(t, _) => DriverKeeps(s, step, t);
      case FnPanics(t) => DriverKeeps(s, step, t);
      case Release(t) => DriverKeeps(s, step, t);
      case Clear(t) => ClearKeeps(s, t);
      case Wake(t) => WakeKeeps(s, t);
    }
  }

  lemma {:induction false} EveryRunIsSound<V>(steps: seq<Step<V>>)
    ensures Inv(Run(Start(), steps))
  {
    if steps != [] {
      EveryRunIsSound(steps[..|steps| - 1]);
      NextKeepsInv(Run(Start(), steps[..|steps| - 1]), steps[|steps| - 1]);
    }
  }

  // ---------- The theorems ----------

  /** In every interleaving, two executions of fn for one key never overlap. */
  lemma ExecutionsNeverOverlap<V>(steps: seq<Step<V>>, t: nat, u: nat)
    requires var s := Run(Start(), steps); t < |s.threads| && u < |s.threads|
    requires var s := Run(Start(), steps); s.threads[t].pc.Running? && s.threads[u].pc.Running? && s.threads[t].key == s.threads[u].key
    ensures t == u
  {
    EveryRunIsSound(steps);
    var s := Run(Start(), steps);
    assert ThreadSound(s, t) && ThreadSound(s, u);
    assert CallSound(s, s.threads[t].pc.call) && CallSound(s, s.threads[u].pc.call);
  }

  /** The call a thread found or created when it entered is its call ever after. */
  lemma {:induction false} CallNeverChanges<V>(s: State<V>, steps: seq<Step<V>>, t: nat)
    requires t < |s.threads|
    ensures var s' := Run(s, steps);
      t < |s'.threads| && s'.threads[t].key == s.threads[t].key && s'.threads[t].pc.call == s.threads[t].pc.call
  {
    if steps != [] {
      CallNeverChanges(s, steps[..|steps| - 1], t);
    }
  }

  /** A stored result is never replaced. */
  lemma {:induction false} ResultNeverChanges<V>(s: State<V>, steps: seq<Step<V>>, c: nat)
    requires Inv(s) && c < |s.calls| && s.calls[c].result.Some?
    ensures var s' := Run(s, steps); c < |s'.calls| && s'.calls[c].result == s.calls[c].result && Inv(s')
  {
    if steps != [] {
      var before := Run(s, steps[..|steps| - 1]);
      var last := steps[|steps| - 1];
      ResultNeverChanges(s, steps[..|steps| - 1], c);
      NextKeepsInv(before, last);
      if Enabled(before, last) && last.FnReturns? {
        assert ThreadSound(before, last.thread) && CallSound(before, before.threads[last.thread].pc.call);
      }
    }
  }

  /**
   * Every caller returns the result of exactly the execution behind the map entry it found or created on
   * entering: the call it was on then, and the one result ever stored for that call; and exactly the thread
   * that created the entry reports having run fn.
   */
  lemma CallersShareOneExecution<V>(s: State<V>, key: string, steps: seq<Step<V>>)
    requires Inv(s)
    requires var s' := Run(Next(s, Enter(key)), steps);
      |s.threads| < |s'.threads| && s'.threads[|s.threads|].pc.Returned?
    ensures var s' := Run(Next(s, Enter(key)), steps); var th := s'.threads[|s.threads|];
      var c := if key in s.inflight then s.inflight[key] else |s.calls|;
      && th.pc.call == c && c < |s'.calls| && s'.calls[c].result == Some(th.pc.value)
      && (th.pc.ran <==> key !in s.inflight)
  {
    var s1 := Next(s, Enter(key));
    var t := |s.threads|;
    NextKeepsInv(s, Enter(key));
    CallNeverChanges(s1, steps, t);
    RunKeepsInv(s1, steps);
    var s' := Run(s1, steps);
    assert ThreadSound(s', t);
    DriverNeverChanges(s1, steps, s1.threads[t].pc.call);
    assert ThreadSound(s1, t);
  }

  lemma {:induction false} RunKeepsInv<V>(s: State<V>, steps: seq<Step<V>>)
    requires Inv(s)
    ensures Inv(Run(s, steps))
  {
    if steps != [] {
      RunKeepsInv(s, steps[..|steps| - 1]);
      NextKeepsInv(Run(s, steps[..|steps| - 1]), steps[|steps| - 1]);
    }
  }

  lemma {:induction false} DriverNeverChanges<V>(s: State<V>, steps: seq<Step<V>>, c: nat)
    requires c < |s.calls|
    ensures var s' := Run(s, steps); c < |s'.calls| && s'.calls[c].driver == s.calls[c].driver
  {
    if steps != [] {
      DriverNeverChanges(s, steps[..|steps| - 1], c);
    }
  }

  /** The driver's delete removes its own map entry. */
  lemma DeleteRemovesOwnEntry<V>(steps: seq<Step<V>>, t: nat)
    requires Enabled(Run(Start(), steps), Clear(t))
    ensures var s := Run(Start(), steps);
      s.threads[t].key in s.inflight && s.inflight[s.threads[t].key] == s.threads[t].pc.call
  {
    EveryRunIsSound(steps);
    ClearKeeps(Run(Start(), steps), t);
  }

  // ---------- Progress ----------

  /** The step that moves a thread on, if it is not blocked; the value is what fn answers. */
  function OwnStep<V>(th: Thread<V>, t: nat, value: V): Step<V> {
    match th.pc
    case Running(_) => FnReturns(t, value)
    case Stored(_) => Release(t)
    case Clearing(_) => Clear(t)
    case _ => Wake(t)
  }

  predicate CanMove<V>(s: State<V>, t: nat, value: V) {
    t < |s.threads| && Enabled(s, OwnStep(s.threads[t], t, value))
  }

  /**
   * No caller is stuck: a thread that has not returned can take its next step, unless it waits for a call
   * whose driver has not released it; then that driver can take its step, or its fn panicked.
   */
  lemma NoCallerIsStuck<V>(steps: seq<Step<V>>, t: nat, value: V)
    requires var s := Run(Start(), steps); t < |s.threads| && !s.threads[t].pc.Returned? && !s.threads[t].pc.Crashed?
    ensures var s := Run(Start(), steps); var c := s.threads[t].pc.call;
      && c < |s.calls| && s.calls[c].driver < |s.threads|
      && (CanMove(s, t, value)
          || (s.threads[t].pc.Waiting? && (CanMove(s, s.calls[c].driver, value) || s.threads[s.calls[c].driver].pc.Crashed?)))
  {
    EveryRunIsSound(steps);
    var s := Run(Start(), steps);
    assert ThreadSound(s, t);
    var c := s.threads[t].pc.call;
    assert CallSound(s, c);
    assert ThreadSound(s, s.calls[c].driver);
  }

  function Left<V>(pc: Pc<V>): nat {
    match pc
    case Running(_) => 3
    case Stored(_) => 2
    case Clearing(_) => 1
    case Waiting(_) => 1
    case _ => 0
  }

  function WorkLeft<V>(threads: seq<Thread<V>>): nat {
    if threads == [] then 0 else WorkLeft(threads[..|threads| - 1]) + Left(threads[|threads| - 1].pc)
  }

  lemma {:induction false} WorkFalls<V>(threads: seq<Thread<V>>, t: nat, th: Thread<V>)
    requires t < |threads| && Left(th.pc) < Left(threads[t].pc)
    ensures WorkLeft(threads[t := th]) < WorkLeft(threads)
  {
    var n := |threads| - 1;
    if t < n {
      WorkFalls(threads[..n], t, th);
      assert threads[t := th][..n] == threads[..n][t := th];
    } else {
      assert threads[t := th][..n] == threads[..n];
    }
  }

  /** Every step but a new caller's entry lowers the work left, so callers already inside finish in that many steps. */
  lemma StepsFinish<V>(s: State<V>, step: Step<V>)
    requires Enabled(s, step) && !step.Enter?
    ensures WorkLeft(Next(s, step).threads) < WorkLeft(s.threads)
  {
    WorkFalls(s.threads, step.thread, Next(s, step).threads[step.thread]);
  }

  lemma StepKeepsResult<V>(s: State<V>, step: Step<V>, c: nat)
    requires Inv(s) && c < |s.calls| && s.calls[c].result.Some?
    ensures var s' := Next(s, step); s'.calls[c].result == s.calls[c].result && s'.calls[c].driver == s.calls[c].driver
  {
    if Enabled(s, step) && step.FnReturns? {
      assert ThreadSound(s, step.thread) && CallSound(s, s.threads[step.thread].pc.call);
    }
  }

  ghost predicate NoneCrashed<V>(s: State<V>) {
    forall t :: 0 <= t < |s.threads| ==> !s.threads[t].pc.Crashed?
  }

  lemma StepKeepsUncrashed<V>(s: State<V>, step: Step<V>)
    requires !step.FnPanics? && NoneCrashed(s)
    ensures NoneCrashed(Next(s, step))
  {
  }

  lemma {:induction false} NoCrashWithoutPanic<V>(steps: seq<Step<V>>)
    requires forall step :: step in steps ==> !step.FnPanics?
    ensures NoneCrashed(Run(Start(), steps))
  {
    if steps != [] {
      var before, last := steps[..|steps| - 1], steps[|steps| - 1];
      assert last in steps;
      NoCrashWithoutPanic(before);
      StepKeepsUncrashed(Run(Start(), before), last);
    }
  }

  /** Without panics a group at rest is done: when no caller can take its next step, every caller has returned. */
  lemma AtRestAllReturned<V>(steps: seq<Step<V>>, value: V, t: nat)
    requires forall step :: step in steps ==> !step.FnPanics?
    requires var s := Run(Start(), steps); t < |s.threads| && forall i: nat :: i < |s.threads| ==> !CanMove(s, i, value)
    ensures Run(Start(), steps).threads[t].pc.Returned?
  {
    NoCrashWithoutPanic(steps);
    if !Run(Start(), steps).threads[t].pc.Returned? {
      NoCallerIsStuck(steps, t, value);
    }
  }

  /** A stored result is what the driver's own execution of the function answered. */
  lemma {:induction false} ResultWasAnswered<V>(steps: seq<Step<V>>, c: nat) returns (i: nat)
    requires var s := Run(Start(), steps); c < |s.calls| && s.calls[c].result.Some?
    ensures var s := Run(Start(), steps); i < |steps| && steps[i] == FnReturns(s.calls[c].driver, s.calls[c].result.value)
    ensures var before := Run(Start(), steps[..i]); c < |before.calls| && before.calls[c].result.None?
  {
    var n := |steps| - 1;
    var s := Run(Start(), steps[..n]);
    EveryRunIsSound(steps[..n]);
    if c < |s.calls| && s.calls[c].result.Some? {
      i := ResultWasAnswered(steps[..n], c);
      assert steps[..n][..i] == steps[..i];
      StepKeepsResult(s, steps[n], c);
    } else {
      i := n;
      assert steps[n].FnReturns? && ThreadSound(s, steps[n].thread);
    }
  }

  // ---------- A panic in fn ----------

  /** A crashed driver's entry is never deleted and its call never released. */
  ghost predicate Dead<V>(s: State<V>, key: string, c: nat) {
    && Inv(s) && c < |s.calls| && s.calls[c].key == key
    && s.calls[c].driver < |s.threads| && s.threads[s.calls[c].driver].pc.Crashed?
  }

  /** A panic in fn leaves its call dead. */
  lemma PanicMakesDead<V>(s: State<V>, t: nat)
    requires Inv(s) && Enabled(s, FnPanics(t))
    ensures Dead(Next(s, FnPanics(t)), s.threads[t].key, s.threads[t].pc.call)
  {
    NextKeepsInv(s, FnPanics(t));
    assert ThreadSound(s, t);
  }

  lemma DeadStays<V>(s: State<V>, step: Step<V>, key: string, c: nat)
    requires Dead(s, key, c)
    ensures Dead(Next(s, step), key, c)
  {
    NextKeepsInv(s, step);
    assert CallSound(s, c);
    if Enabled(s, step) && !step.Enter? {
      assert ThreadSound(s, step.thread);
    }
  }

  /**
   * After a panic in fn the key is blocked for good: in every continuation the map still holds the dead call,
   * and every caller that was or will be waiting on it is still waiting.
   */
  lemma {:induction false} PanicBlocksKey<V>(s: State<V>, steps: seq<Step<V>>, key: string, c: nat)
    requires Dead(s, key, c)
    ensures var s' := Run(s, steps);
      && Dead(s', key, c)
      && key in s'.inflight && s'.inflight[key] == c
      && (forall t :: 0 <= t < |s'.threads| && s'.threads[t].pc.call == c ==>
            s'.threads[t].pc.Waiting? || s'.threads[t].pc.Crashed?)
  {
    if steps != [] {
      PanicBlocksKey(s, steps[..|steps| - 1], key, c);
      DeadStays(Run(s, steps[..|steps| - 1]), steps[|steps| - 1], key, c);
    }
    var s' := Run(s, steps);
    assert CallSound(s', c);
    forall t | 0 <= t < |s'.threads| && s'.threads[t].pc.call == c
      ensures s'.threads[t].pc.Waiting? || s'.threads[t].pc.Crashed?
    {
      assert ThreadSound(s', t);
    }
  }
}
