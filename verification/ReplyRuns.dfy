/**
 * The reply gate over whole runs: which replies reach a handler, how often they can, and that refused
 * replies leave no trace.
 */
module ReplyRuns {
  import opened Common
  import opened Recency
  import opened ReplyGate
  import R = Registry
  import L = RateLimiter
  import LR = LimiterRuns

  datatype Op =
    | Publish(entry: R.Entry, now: nat)
    | Receive(request: Request, now: nat)
    | Register(replyType: string, now: nat)
    | Janitor(now: nat)

  /** A received reply and its verdict. */
  datatype Answer = Answer(request: Request, verdict: Verdict)

  const Start := State(R.Empty, L.Empty, {}, [], [])

  function Step(s: State, op: Op, c: Settings): State {
    match op
    case Publish(e, now) => s.(registry := R.Record(s.registry, e, now, c.limits))
    case Receive(q, now) => Dispatch(s, q, now, c)
    case Register(t, _) => s.(handlers := if t == "" then s.handlers else s.handlers + {t})
    case Janitor(now) => s.(limiter := L.Sweep(s.limiter, now))
  }

  function Run(ops: seq<Op>, c: Settings): State {
    if ops == [] then Start else Step(Run(ops[..|ops| - 1], c), ops[|ops| - 1], c)
  }

  function Answers(ops: seq<Op>, c: Settings): seq<Answer> {
    if ops == [] then []
    else
      var before := ops[..|ops| - 1];
      match ops[|ops| - 1]
      case Receive(q, now) => Answers(before, c) + [Answer(q, VerdictOf(Run(before, c), q, now, c))]
      case _ => Answers(before, c)
  }

  ghost predicate Timed(ops: seq<Op>) {
    && (forall i, j :: 0 <= i < j < |ops| ==> ops[i].now <= ops[j].now)
    && (forall i :: 0 <= i < |ops| && ops[i].Publish? ==> ops[i].entry.emittedAt <= ops[i].now)
    && (forall i, j :: 0 <= i < j < |ops| && ops[i].Publish? && ops[j].Publish? ==>
          ops[i].entry.emittedAt <= ops[j].entry.emittedAt)
  }

  // ---------- The registry inside the gate ----------

  /** What the gate does to its registry. */
  function RegistryOps(ops: seq<Op>): seq<R.Op> {
    if ops == [] then []
    else
      var before := RegistryOps(ops[..|ops| - 1]);
      match ops[|ops| - 1]
      case Publish(e, now) => before + [R.Put(e, now)]
      case Receive(q, now) => before + [R.Get(Alertref(q), now)]
      case _ => before
  }

  lemma {:induction false} RegistryRuns(ops: seq<Op>, c: Settings)
    ensures Run(ops, c).registry == R.Run(RegistryOps(ops), c.limits)
  {
    if ops != [] {
      var before := ops[..|ops| - 1];
      RegistryRuns(before, c);
      var last := ops[|ops| - 1];
      if last.Publish? || last.Receive? {
        assert RegistryOps(ops)[..|RegistryOps(ops)| - 1] == RegistryOps(before);
      }
    }
  }

  lemma {:induction false} RegistryOpsTimed(ops: seq<Op>, clock: int, emitted: int)
    requires Timed(ops)
    requires forall op :: op in ops ==> op.now <= clock
    requires forall op :: op in ops && op.Publish? ==> op.entry.emittedAt <= emitted
    ensures R.Timed(RegistryOps(ops))
    ensures forall op :: op in RegistryOps(ops) ==> op.now <= clock
    ensures forall op :: op in RegistryOps(ops) && op.Put? ==> op.entry.emittedAt <= emitted
  {
    if ops != [] {
      var last := ops[|ops| - 1];
      var before := ops[..|ops| - 1];
      RegistryOpsTimed(before, last.now, if last.Publish? then last.entry.emittedAt else emitted);
      match last {
        case Publish(e, now) => TimedSnoc(RegistryOps(before), R.Put(e, now), clock, emitted);
        case Receive(q, now) => TimedSnoc(RegistryOps(before), R.Get(Alertref(q), now), clock, emitted);
        case _ =>
      }
    }
  }

  lemma TimedSnoc(ops: seq<R.Op>, op: R.Op, clock: int, emitted: int)
    requires R.Timed(ops) && op.now <= clock && (op.Put? ==> op.entry.emittedAt <= op.now && op.entry.emittedAt <= emitted)
    requires forall o :: o in ops ==> o.now <= op.now
    requires forall o :: o in ops && o.Put? ==> o.entry.emittedAt <= if op.Put? then op.entry.emittedAt else emitted
    ensures R.Timed(ops + [op])
    ensures forall o :: o in ops + [op] ==> o.now <= clock
    ensures forall o :: o in ops + [op] && o.Put? ==> o.entry.emittedAt <= emitted
  {
  }

  /** Ids and latest entries published; receiving replies does not change them. */
  function Ids(ops: seq<Op>): seq<string> {
    R.Ids(RegistryOps(ops))
  }

  function Latest(ops: seq<Op>): map<string, R.Entry> {
    R.Latest(RegistryOps(ops))
  }

  /** The entry a reference finds, as a rule about what was published. */
  function Known(ids: seq<string>, latest: map<string, R.Entry>, ref: string, now: int, limits: R.Limits): Option<R.Entry> {
    if ref != "" && ref in latest && (limits.ttl > 0 ==> now - latest[ref].emittedAt <= limits.ttl)
       && (limits.maxEntries > 0 ==> |SinceLast(ids, ref)| < limits.maxEntries)
    then Some(latest[ref]) else None
  }

  lemma EntryIsKnown(ops: seq<Op>, c: Settings, q: Request, now: nat)
    requires Timed(ops) && forall op :: op in ops ==> op.now <= now
    ensures EntryFor(Run(ops, c), q, now, c.limits) == Known(Ids(ops), Latest(ops), Alertref(q), now, c.limits)
  {
    RegistryRuns(ops, c);
    RegistryOpsTimed(ops, now, now);
    if Alertref(q) != "" {
      R.LookupIsExact(RegistryOps(ops), c.limits, Alertref(q), now);
    }
  }

  // ---------- The law of the gate ----------

  /**
   * What a channel must have granted for a reply type: the eight types that act on alerts and the one that
   * disables monitors need the elevated flag, the latter its own flag too, and every other type nothing.
   */
  predicate TrustGranted(replyType: string, cfg: Config) {
    match replyType
    case "run.yipyap.reply.alert.ack_with_context.v1" => cfg.trustElevated
    case "run.yipyap.reply.alert.suppressed.v1" => cfg.trustElevated
    case "run.yipyap.reply.alert.ownership.v1" => cfg.trustElevated
    case "run.yipyap.reply.alert.remediation_started.v1" => cfg.trustElevated
    case "run.yipyap.reply.alert.remediation_result.v1" => cfg.trustElevated
    case "run.yipyap.reply.alert.status_page.v1" => cfg.trustElevated
    case "run.yipyap.reply.alert.escalated.v1" => cfg.trustElevated
    case "run.yipyap.reply.alert.route.v1" => cfg.trustElevated
    case "run.yipyap.reply.monitor.deregister.v1" => cfg.trustElevated && cfg.allowDeregister
    case _ => true
  }

  lemma TrustIsGranted(replyType: string, cfg: Config)
    ensures Trusted(replyType, cfg) <==> TrustGranted(replyType, cfg)
  {
  }

  /** The reference's event is known, and young enough for the dispatcher. */
  predicate Young(known: Option<R.Entry>, c: Settings, now: int) {
    known.Some? && (c.alertrefTTL > 0 ==> now - known.value.emittedAt <= c.alertrefTTL)
  }

  /** The event belongs to the organisation the channel expects, if it expects one. */
  predicate RightOrg(known: Option<R.Entry>, q: Request) {
    known.Some? && (q.expectedOrg == "" || q.expectedOrg == known.value.orgID)
  }

  predicate RightChannel(known: Option<R.Entry>, q: Request) {
    known.Some? && (q.expectedChannel == "" || q.expectedChannel == known.value.channelID)
  }

  /** The checks up to the organisation and channel pass. */
  predicate Placed(known: Option<R.Entry>, q: Request, c: Settings, now: int) {
    Young(known, c, now) && RightOrg(known, q) && RightChannel(known, q)
  }

  /** All checks in front of the limiter pass. */
  predicate Passes(known: Option<R.Entry>, q: Request, c: Settings, handlers: set<string>, now: int) {
    Placed(known, q, c, now) && q.replyType in handlers && q.replyType in q.cfg.accepted && TrustGranted(q.replyType, q.cfg)
  }

  /** Which refusal a reply gets: after any run, the first check it fails decides. */
  lemma RefusalExactly(ops: seq<Op>, c: Settings, q: Request, now: nat)
    requires Timed(ops) && forall op :: op in ops ==> op.now <= now
    ensures var s := Run(ops, c); var known := Known(Ids(ops), Latest(ops), Alertref(q), now, c.limits);
      var v := VerdictOf(s, q, now, c);
      && (v == NoAlertref <==> Alertref(q) == "")
      && (v == UnknownAlertref <==> Alertref(q) != "" && known.None?)
      && (v == AlertrefExpired <==> known.Some? && !Young(known, c, now))
      && (v == OrgMismatch <==> Young(known, c, now) && !RightOrg(known, q))
      && (v == ChannelMismatch <==> Young(known, c, now) && RightOrg(known, q) && !RightChannel(known, q))
      && (v == UnknownType <==> Placed(known, q, c, now) && q.replyType !in s.handlers)
      && (v == OptOut <==> Placed(known, q, c, now) && q.replyType in s.handlers && q.replyType !in q.cfg.accepted)
      && (v == TrustRequired <==> Placed(known, q, c, now) && q.replyType in s.handlers && q.replyType in q.cfg.accepted
                                  && !TrustGranted(q.replyType, q.cfg))
  {
    EntryIsKnown(ops, c, q, now);
    TrustIsGranted(q.replyType, q.cfg);
  }

  /**
   * A reply reaches its handler exactly when: it refers to a published event that is still known and young
   * enough, the event belongs to the expected organisation and channel, its type has a handler, is opted in
   * and granted the trust it needs, and the limiter admits it. The verdict is then the handler's own.
   */
  lemma HandledExactly(ops: seq<Op>, c: Settings, q: Request, now: nat)
    requires Timed(ops) && forall op :: op in ops ==> op.now <= now
    ensures var s := Run(ops, c); var known := Known(Ids(ops), Latest(ops), Alertref(q), now, c.limits);
      var v := VerdictOf(s, q, now, c);
      && (v.Handled() <==>
            && known.Some?
            && (c.alertrefTTL > 0 ==> now - known.value.emittedAt <= c.alertrefTTL)
            && (q.expectedOrg == "" || q.expectedOrg == known.value.orgID)
            && (q.expectedChannel == "" || q.expectedChannel == known.value.channelID)
            && q.replyType in s.handlers && q.replyType in q.cfg.accepted && TrustGranted(q.replyType, q.cfg)
            && L.Verdict(s.limiter.buckets, L.KeyOf(known.value.orgID, q.replyType), now, q.cfg.rateLimit))
      && (v == RateLimited <==>
            && Passes(known, q, c, s.handlers, now)
            && !L.Verdict(s.limiter.buckets, L.KeyOf(known.value.orgID, q.replyType), now, q.cfg.rateLimit))
      && (v.Handled() ==> (v == Accepted <==> q.handlerOk))
  {
    EntryIsKnown(ops, c, q, now);
    TrustIsGranted(q.replyType, q.cfg);
  }

  /** The first of the three attributes that has text is the reference; there is none exactly when none has. */
  lemma ReferenceExactly(q: Request)
    ensures var has := (name: string) => name in q.extensions && q.extensions[name].Text? && q.extensions[name].text != "";
      Alertref(q) ==
        if has("alertref") then q.extensions["alertref"].text
        else if has("ce_alertref") then q.extensions["ce_alertref"].text
        else if has("cealertref") then q.extensions["cealertref"].text
        else ""
  {
    var a, b := ["ce_alertref", "cealertref"], ["cealertref"];
    assert Names[1..] == a && a[1..] == b && b[1..] == [];
    assert FirstText(q.extensions, []) == "";
    assert FirstText(q.extensions, Names) == FirstText(q.extensions, ["alertref"] + a);
    assert FirstText(q.extensions, b) == FirstText(q.extensions, ["cealertref"] + []);
  }

  /** The audit trail a dispatch leaves: at most one row. */
  ghost predicate Audits(audits: seq<Audit>, known: Option<R.Entry>, q: Request, v: Verdict) {
    match v
    case NoAlertref => audits == []
    case OptOut => audits == []
    case Accepted => audits == []
    case HandlerFailed => audits == []
    case UnknownAlertref =>
      audits == if q.expectedOrg == "" then [] else [Audit(q.id, UnknownAlertref, q.expectedOrg, q.expectedChannel, "", "")]
    case _ =>
      known.Some? && |audits| == 1 && audits[0].replyID == q.id && audits[0].outcome == v
      && audits[0].alertID == known.value.alertID && audits[0].monitorID == known.value.monitorID
      && audits[0].orgID == (if v == OrgMismatch then q.expectedOrg else known.value.orgID)
      && audits[0].channelID == (if known.value.channelID != "" then known.value.channelID else q.expectedChannel)
  }

  /**
   * Every refusal but that of a reply without reference or of a type not opted in is recorded once, against the
   * event's alert and monitor and its organisation, a foreign event against the organisation that expected its own.
   */
  lemma AuditExactly(ops: seq<Op>, c: Settings, q: Request, now: nat)
    requires Timed(ops) && forall op :: op in ops ==> op.now <= now
    ensures var s := Run(ops, c); var known := Known(Ids(ops), Latest(ops), Alertref(q), now, c.limits);
      var audits := Dispatch(s, q, now, c).audits;
      && s.audits <= audits
      && Audits(audits[|s.audits|..], known, q, VerdictOf(s, q, now, c))
  {
    EntryIsKnown(ops, c, q, now);
    var s := Run(ops, c);
    var v := VerdictOf(s, q, now, c);
    assert Dispatch(s, q, now, c).audits[|s.audits|..] == AuditFor(q, EntryFor(s, q, now, c.limits), v);
  }

  // ---------- Refused replies leave no trace ----------

  /** The run without the replies that were turned away before the limiter. */
  function WithoutEarly(ops: seq<Op>, c: Settings): seq<Op> {
    if ops == [] then []
    else
      var before := ops[..|ops| - 1];
      var last := ops[|ops| - 1];
      if last.Receive? && VerdictOf(Run(before, c), last.request, last.now, c).Early() then WithoutEarly(before, c)
      else WithoutEarly(before, c) + [last]
  }

  function WithoutEarlyAnswers(answers: seq<Answer>): seq<Answer> {
    if answers == [] then []
    else
      var before := WithoutEarlyAnswers(answers[..|answers| - 1]);
      var last := answers[|answers| - 1];
      if last.verdict.Early() then before else before + [last]
  }

  lemma {:induction false} ErasedSamePublished(ops: seq<Op>, c: Settings)
    ensures Ids(WithoutEarly(ops, c)) == Ids(ops)
    ensures Latest(WithoutEarly(ops, c)) == Latest(ops)
  {
    if ops != [] {
      var before := ops[..|ops| - 1];
      var last := ops[|ops| - 1];
      ErasedSamePublished(before, c);
      PublishedSnoc(before, last);
      PublishedSnoc(WithoutEarly(before, c), last);
      assert ops == before + [last];
    }
  }

  /** One more operation publishes at most its own entry. */
  lemma PublishedSnoc(ops: seq<Op>, op: Op)
    ensures op.Publish? && op.entry.eventID != "" ==>
      Ids(ops + [op]) == Ids(ops) + [op.entry.eventID] && Latest(ops + [op]) == Latest(ops)[op.entry.eventID := op.entry]
    ensures !op.Publish? || op.entry.eventID == "" ==> Ids(ops + [op]) == Ids(ops) && Latest(ops + [op]) == Latest(ops)
  {
    assert (ops + [op])[..|ops|] == ops;
    var rs := RegistryOps(ops + [op]);
    if op.Publish? || op.Receive? {
      assert rs[..|rs| - 1] == RegistryOps(ops);
    }
  }

  lemma {:induction false} ErasedTimed(ops: seq<Op>, c: Settings, clock: nat, emitted: int)
    requires Timed(ops)
    requires forall op :: op in ops ==> op.now <= clock
    requires forall op :: op in ops && op.Publish? ==> op.entry.emittedAt <= emitted
    ensures Timed(WithoutEarly(ops, c))
    ensures forall op :: op in WithoutEarly(ops, c) ==> op.now <= clock
    ensures forall op :: op in WithoutEarly(ops, c) && op.Publish? ==> op.entry.emittedAt <= emitted
  {
    if ops != [] {
      var last := ops[|ops| - 1];
      ErasedTimed(ops[..|ops| - 1], c, last.now, if last.Publish? then last.entry.emittedAt else emitted);
    }
  }

  /** Two gate states that differ only in what their registries still hold of unreachable entries, and in audit rows. */
  ghost predicate SameOutside(s: State, t: State) {
    s.limiter == t.limiter && s.handlers == t.handlers && s.handled == t.handled
  }

  lemma SameEntrySameVerdict(s: State, t: State, q: Request, now: nat, c: Settings)
    requires SameOutside(s, t) && EntryFor(s, q, now, c.limits) == EntryFor(t, q, now, c.limits)
    ensures VerdictOf(s, q, now, c) == VerdictOf(t, q, now, c)
    ensures SameOutside(Dispatch(s, q, now, c), Dispatch(t, q, now, c))
    ensures VerdictOf(s, q, now, c).Early() ==> SameOutside(Dispatch(s, q, now, c), s)
  {
  }

  lemma {:induction false} ErasedSameOutside(ops: seq<Op>, c: Settings)
    requires Timed(ops)
    ensures SameOutside(Run(ops, c), Run(WithoutEarly(ops, c), c))
    ensures Answers(WithoutEarly(ops, c), c) == WithoutEarlyAnswers(Answers(ops, c))
  {
    if ops != [] {
      var before := ops[..|ops| - 1];
      var last := ops[|ops| - 1];
      var kept := WithoutEarly(before, c);
      ErasedSameOutside(before, c);
      assert (kept + [last])[..|kept|] == kept;
      if last.Receive? {
        ErasedTimed(before, c, last.now, last.now);
        ErasedSamePublished(before, c);
        EntryIsKnown(before, c, last.request, last.now);
        EntryIsKnown(kept, c, last.request, last.now);
        SameEntrySameVerdict(Run(before, c), Run(kept, c), last.request, last.now, c);
        var a := Answer(last.request, VerdictOf(Run(before, c), last.request, last.now, c));
        assert (Answers(before, c) + [a])[..|Answers(before, c)|] == Answers(before, c);
      }
    }
  }

  /**
   * Taking out of a run every reply that was refused before the limiter changes neither the verdict of any
   * other reply, nor the replies handled, nor the limiter.
   */
  lemma RefusedLeaveNoTrace(ops: seq<Op>, c: Settings)
    requires Timed(ops)
    ensures Answers(WithoutEarly(ops, c), c) == WithoutEarlyAnswers(Answers(ops, c))
    ensures Run(WithoutEarly(ops, c), c).handled == Run(ops, c).handled
    ensures Run(WithoutEarly(ops, c), c).limiter == Run(ops, c).limiter
  {
    ErasedSameOutside(ops, c);
  }

  // ---------- Handler runs are limiter slots ----------

  /** The calls one operation makes on the limiter. */
  function CallsOf(s: State, op: Op, c: Settings): seq<LR.Op> {
    match op
    case Receive(q, now) =>
      if VerdictOf(s, q, now, c).Early() then []
      else [LR.Call(L.KeyOf(EntryFor(s, q, now, c.limits).value.orgID, q.replyType), now, q.cfg.rateLimit)]
    case Janitor(now) => [LR.Janitor(now)]
    case _ => []
  }

  /** The calls the gate makes on its limiter. */
  function LimiterOps(ops: seq<Op>, c: Settings): seq<LR.Op> {
    if ops == [] then []
    else
      var before := ops[..|ops| - 1];
      LimiterOps(before, c) + CallsOf(Run(before, c), ops[|ops| - 1], c)
  }

  /** Handler runs of a key from time lo to before hi. */
  function HandledIn(handled: seq<Handling>, key: string, lo: int, hi: int): nat {
    if handled == [] then 0
    else
      var r := handled[|handled| - 1];
      HandledIn(handled[..|handled| - 1], key, lo, hi)
      + if L.KeyOf(r.orgID, r.request.replyType) == key && lo <= r.now < hi then 1 else 0
  }

  lemma LimiterSnoc(calls: seq<LR.Op>, op: LR.Op)
    ensures LR.Run(calls + [op]).0 == LR.Step(LR.Run(calls).0, op)
    ensures LR.Run(calls + [op]).1 == LR.Run(calls).1 + LR.Outcomes(LR.Run(calls).0.buckets, op)
  {
    assert (calls + [op])[..|calls|] == calls;
  }

  /** A dispatch that reaches the limiter makes exactly the one call, and runs the handler exactly when it is admitted. */
  lemma DispatchIsCall(s: State, q: Request, now: nat, c: Settings, calls: seq<LR.Op>)
    requires s.limiter == LR.Run(calls).0 && !VerdictOf(s, q, now, c).Early()
    ensures var org := EntryFor(s, q, now, c.limits).value.orgID; var key := L.KeyOf(org, q.replyType);
      var ok := VerdictOf(s, q, now, c).Handled(); var call := LR.Call(key, now, q.cfg.rateLimit);
      && Dispatch(s, q, now, c).limiter == LR.Run(calls + [call]).0
      && LR.Run(calls + [call]).1 == LR.Run(calls).1 + [LR.Outcome(key, now, q.cfg.rateLimit, ok)]
      && Dispatch(s, q, now, c).handled == (if ok then s.handled + [Handling(q, org, now)] else s.handled)
  {
    var key := L.KeyOf(EntryFor(s, q, now, c.limits).value.orgID, q.replyType);
    LimiterSnoc(calls, LR.Call(key, now, q.cfg.rateLimit));
  }

  lemma HandledSnoc(handled: seq<Handling>, r: Handling, key: string, lo: int, hi: int)
    ensures HandledIn(handled + [r], key, lo, hi)
         == HandledIn(handled, key, lo, hi) + if L.KeyOf(r.orgID, r.request.replyType) == key && lo <= r.now < hi then 1 else 0
  {
    assert (handled + [r])[..|handled|] == handled;
  }

  /** The limiter has taken exactly these calls, and handler runs are its admissions. */
  ghost predicate Admits(s: State, calls: seq<LR.Op>, key: string, lo: int, hi: int) {
    && s.limiter == LR.Run(calls).0
    && HandledIn(s.handled, key, lo, hi) == LR.Admitted(LR.Run(calls).1, key, lo, hi)
  }

  lemma ReceiveIsAdmitted(s: State, q: Request, now: nat, c: Settings, calls: seq<LR.Op>, key: string, lo: int, hi: int)
    requires Admits(s, calls, key, lo, hi) && !VerdictOf(s, q, now, c).Early()
    ensures Admits(Dispatch(s, q, now, c), calls + CallsOf(s, Receive(q, now), c), key, lo, hi)
  {
    DispatchIsCall(s, q, now, c, calls);
    var org := EntryFor(s, q, now, c.limits).value.orgID;
    var ok := VerdictOf(s, q, now, c).Handled();
    LR.AdmittedSnoc(LR.Run(calls).1, LR.Outcome(L.KeyOf(org, q.replyType), now, q.cfg.rateLimit, ok), key, lo, hi);
    HandledSnoc(s.handled, Handling(q, org, now), key, lo, hi);
  }

  lemma StepIsAdmitted(s: State, op: Op, c: Settings, calls: seq<LR.Op>, key: string, lo: int, hi: int)
    requires Admits(s, calls, key, lo, hi)
    ensures Admits(Step(s, op, c), calls + CallsOf(s, op, c), key, lo, hi)
  {
    assert calls + [] == calls;
    match op {
      case Publish(_, _) =>
      case Register(_, _) =>
      case Janitor(now) =>
        LimiterSnoc(calls, LR.Janitor(now));
        assert LR.Run(calls).1 + [] == LR.Run(calls).1;
      case Receive(q, now) =>
        if !VerdictOf(s, q, now, c).Early() {
          ReceiveIsAdmitted(s, q, now, c, calls, key, lo, hi);
        }
    }
  }

  lemma {:induction false} HandledAreAdmitted(ops: seq<Op>, c: Settings, key: string, lo: int, hi: int)
    ensures Run(ops, c).limiter == LR.Run(LimiterOps(ops, c)).0
    ensures HandledIn(Run(ops, c).handled, key, lo, hi) == LR.Admitted(LR.Run(LimiterOps(ops, c)).1, key, lo, hi)
  {
    if ops != [] {
      var before := ops[..|ops| - 1];
      HandledAreAdmitted(before, c, key, lo, hi);
      StepIsAdmitted(Run(before, c), ops[|ops| - 1], c, LimiterOps(before, c), key, lo, hi);
    }
  }

  /** The gate's calls on its limiter are in time order. */
  lemma {:induction false} LimiterOpsTimed(ops: seq<Op>, c: Settings, clock: nat)
    requires Timed(ops) && forall op :: op in ops ==> op.now <= clock
    ensures LR.Timed(LimiterOps(ops, c)) && forall op :: op in LimiterOps(ops, c) ==> op.now <= clock
  {
    if ops != [] {
      LimiterOpsTimed(ops[..|ops| - 1], c, ops[|ops| - 1].now);
    }
  }

  predicate LimitedTo(calls: seq<LR.Op>, key: string, N: nat) {
    forall op :: op in calls && op.Call? && op.key == key ==> LR.PerMinute(op.limit) <= N
  }

  /** Calls a burst bound can be stated for: in time order, within the limit N, the key kept in use. */
  ghost predicate Bounded(calls: seq<LR.Op>, key: string, N: nat) {
    LR.Timed(calls) && LR.KeptInUse(calls, key) && LimitedTo(calls, key, N)
  }

  lemma HandledCount(ops: seq<Op>, c: Settings, key: string, lo: int, hi: int)
    ensures HandledIn(Run(ops, c).handled, key, lo, hi) == LR.Admitted(LR.Run(LimiterOps(ops, c)).1, key, lo, hi)
  {
    HandledAreAdmitted(ops, c, key, lo, hi);
  }

  /** A bound on the limiter's admissions bounds the handler runs. */
  lemma BoundCarries(ops: seq<Op>, c: Settings, key: string, lo: int, hi: int, bound: int)
    requires LR.Admitted(LR.Run(LimiterOps(ops, c)).1, key, lo, hi) * 60_000_000_000 <= bound
    ensures HandledIn(Run(ops, c).handled, key, lo, hi) * 60_000_000_000 <= bound
  {
    HandledCount(ops, c, key, lo, hi);
  }

  lemma CallsBurstBound(calls: seq<LR.Op>, key: string, N: nat, s: nat, hi: nat, d: nat)
    requires Bounded(calls, key, N) && hi == s + d + 1 && d <= 60_000_000_000 && N <= 153_722_866
    ensures LR.Admitted(LR.Run(calls).1, key, s, hi) * 60_000_000_000 <= N * (60_000_000_000 + d)
  {
    LR.BurstBound(calls, key, N, s, d);
  }

  lemma KeyBurstBound(ops: seq<Op>, c: Settings, key: string, N: nat, s: nat, hi: nat, d: nat)
    requires Bounded(LimiterOps(ops, c), key, N) && hi == s + d + 1 && d <= 60_000_000_000 && N <= 153_722_866
    ensures HandledIn(Run(ops, c).handled, key, s, hi) * 60_000_000_000 <= N * (60_000_000_000 + d)
  {
    CallsBurstBound(LimiterOps(ops, c), key, N, s, hi, d);
    BoundCarries(ops, c, key, s, hi, N * (60_000_000_000 + d));
  }

  /**
   * Through the whole gate: if the replies of an (organisation, type) that is kept in use have per-minute limits
   * up to N, its handler runs n times in an interval of length d up to a minute only if n * 60s <= N * (60s + d).
   */
  lemma HandlerBurstBound(ops: seq<Op>, c: Settings, orgID: string, replyType: string, N: nat, s: nat, d: nat)
    requires Timed(ops) && d <= 60_000_000_000 && N <= 153_722_866
    requires LR.KeptInUse(LimiterOps(ops, c), L.KeyOf(orgID, replyType))
    requires LimitedTo(LimiterOps(ops, c), L.KeyOf(orgID, replyType), N)
    ensures HandledIn(Run(ops, c).handled, L.KeyOf(orgID, replyType), s, s + d + 1) * 60_000_000_000 <= N * (60_000_000_000 + d)
  {
    LimiterOpsTimed(ops, c, if ops == [] then 0 else ops[|ops| - 1].now);
    KeyBurstBound(ops, c, L.KeyOf(orgID, replyType), N, s, s + d + 1, d);
  }
}
