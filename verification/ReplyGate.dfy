/**
 * The reply dispatcher: the checks an inbound reply passes, in order, in front of the rate limiter and
 * its handler. Registry and limiter are the objects of Registry.dfy and RateLimiter.dfy.
 */
module ReplyGate {
  import opened Common
  import R = Registry
  import L = RateLimiter

  /** An extension attribute: text, anything else as its text, or nil. */
  datatype Ext = Text(text: string) | Nil

  /** The channel's reply configuration; `accepted` are the types its globs match. */
  datatype Config = Config(accepted: set<string>, rateLimit: int, trustElevated: bool, allowDeregister: bool)

  /** One inbound reply with its channel's expectations; `handlerOk` is what its handler will answer. */
  datatype Request = Request(id: string, replyType: string, extensions: map<string, Ext>, cfg: Config,
                             expectedOrg: string, expectedChannel: string, handlerOk: bool)

  datatype Verdict =
    | NoAlertref | UnknownAlertref | AlertrefExpired | OrgMismatch | ChannelMismatch | UnknownType | OptOut
    | TrustRequired | RateLimited | HandlerFailed | Accepted
  {
    /** The reply was turned away before the limiter was asked. */
    predicate Early() {
      !RateLimited? && !HandlerFailed? && !Accepted?
    }

    /** The reply reached its handler. */
    predicate Handled() {
      HandlerFailed? || Accepted?
    }
  }

  datatype Audit = Audit(replyID: string, outcome: Verdict, orgID: string, channelID: string, alertID: string, monitorID: string)

  datatype Handling = Handling(request: Request, orgID: string, now: nat)

  datatype State = State(
    registry: R.State, limiter: L.State, handlers: set<string>, handled: seq<Handling>, audits: seq<Audit>)

  /** Registry bounds and the dispatcher's own age limit for references. */
  datatype Settings = Settings(limits: R.Limits, alertrefTTL: int)

  const Names := ["alertref", "ce_alertref", "cealertref"]

  function FirstText(extensions: map<string, Ext>, names: seq<string>): string {
    if names == [] then ""
    else if names[0] in extensions && extensions[names[0]].Text? && extensions[names[0]].text != "" then extensions[names[0]].text
    else FirstText(extensions, names[1..])
  }

  function Alertref(q: Request): string {
    FirstText(q.extensions, Names)
  }

  /** Reply types that change alert state, and the one that disables monitors. */
  const Elevated := {
    "run.yipyap.reply.alert.ack_with_context.v1",
    "run.yipyap.reply.alert.suppressed.v1",
    "run.yipyap.reply.alert.ownership.v1",
    "run.yipyap.reply.alert.remediation_started.v1",
    "run.yipyap.reply.alert.remediation_result.v1",
    "run.yipyap.reply.alert.status_page.v1",
    "run.yipyap.reply.alert.escalated.v1",
    "run.yipyap.reply.alert.route.v1",
    "run.yipyap.reply.monitor.deregister.v1"
  }
  const Deregister := "run.yipyap.reply.monitor.deregister.v1"

  predicate Trusted(replyType: string, cfg: Config) {
    && (replyType in Elevated ==> cfg.trustElevated)
    && (replyType == Deregister ==> cfg.allowDeregister)
  }

  /** The verdict of every check in front of the limiter; Accepted when all pass. */
  function EarlyVerdict(q: Request, entry: Option<R.Entry>, handlers: set<string>, now: nat, ttl: int): Verdict {
    if Alertref(q) == "" then NoAlertref
    else if entry.None? then UnknownAlertref
    else if ttl > 0 && now - entry.value.emittedAt > ttl then AlertrefExpired
    else if q.expectedOrg != "" && entry.value.orgID != q.expectedOrg then OrgMismatch
    else if q.expectedChannel != "" && entry.value.channelID != q.expectedChannel then ChannelMismatch
    else if q.replyType !in handlers then UnknownType
    else if q.replyType !in q.cfg.accepted then OptOut
    else if !Trusted(q.replyType, q.cfg) then TrustRequired
    else Accepted
  }

  function AuditFor(q: Request, entry: Option<R.Entry>, v: Verdict): seq<Audit> {
    if v.NoAlertref? || v.OptOut? || v.Handled() then []
    else if entry.None? then
      (if q.expectedOrg == "" then [] else [Audit(q.id, v, q.expectedOrg, q.expectedChannel, "", "")])
    else
      var e := entry.value;
      var org := if v.OrgMismatch? && q.expectedOrg != "" then q.expectedOrg else e.orgID;
      var channel := if e.channelID == "" then q.expectedChannel else e.channelID;
      [Audit(q.id, v, org, channel, e.alertID, e.monitorID)]
  }

  function EntryFor(s: State, q: Request, now: nat, limits: R.Limits): Option<R.Entry> {
    R.Found(s.registry, Alertref(q), now, limits)
  }

  function VerdictOf(s: State, q: Request, now: nat, c: Settings): Verdict {
    var entry := EntryFor(s, q, now, c.limits);
    var early := EarlyVerdict(q, entry, s.handlers, now, c.alertrefTTL);
    if early.Early() then early
    else if !L.Verdict(s.limiter.buckets, L.KeyOf(entry.value.orgID, q.replyType), now, q.cfg.rateLimit) then RateLimited
    else if q.handlerOk then Accepted else HandlerFailed
  }

  function Dispatch(s: State, q: Request, now: nat, c: Settings): State {
    var entry := EntryFor(s, q, now, c.limits);
    var v := VerdictOf(s, q, now, c);
    var registry := R.AfterLookup(s.registry, Alertref(q), now, c.limits);
    var audits := s.audits + AuditFor(q, entry, v);
    if v.Early() then s.(registry := registry, audits := audits)
    else
      var limiter := L.Allow(s.limiter, L.KeyOf(entry.value.orgID, q.replyType), now, q.cfg.rateLimit);
      var handled := if v.Handled() then s.handled + [Handling(q, entry.value.orgID, now)] else s.handled;
      s.(registry := registry, limiter := limiter, handled := handled, audits := audits)
  }

  class Dispatcher {
    const registry: R.MemoryRegistry
    const limiter: L.Limiter
    const alertrefTTL: int
    var handlers: set<string>
    var audits: seq<Audit>
    ghost var handled: seq<Handling>

    ghost function View(): State
      reads this, registry, limiter
    {
      State(registry.View(), limiter.View(), handlers, handled, audits)
    }

    ghost predicate Valid()
      reads this, registry, limiter
    {
      registry.Valid() && limiter.Valid()
    }

    function Bounds(): Settings {
      Settings(registry.limits, alertrefTTL)
    }

    constructor (registry: R.MemoryRegistry, limiter: L.Limiter, alertrefTTL: int)
      requires registry.Valid() && limiter.Valid()
      ensures Valid() && this.registry == registry && this.limiter == limiter && this.alertrefTTL == alertrefTTL
      ensures View() == State(registry.View(), limiter.View(), {}, [], [])
    {
      this.registry, this.limiter, this.alertrefTTL := registry, limiter, alertrefTTL;
      handlers, audits, handled := {}, [], [];
    }

    method Register(replyType: string)
      requires Valid()
      modifies this
      ensures Valid()
      ensures View() == old(View()).(handlers := if replyType == "" then old(handlers) else old(handlers) + {replyType})
    {
      if replyType == "" {
        return;
      }
      handlers := handlers + {replyType};
    }

    method ExtractAlertref(q: Request) returns (ref: string)
      ensures ref == Alertref(q)
    {
      var i := 0;
      while i < |Names|
        invariant 0 <= i <= |Names|
        invariant Alertref(q) == FirstText(q.extensions, Names[i..])
      {
        var k := Names[i];
        if k in q.extensions {
          var raw := q.extensions[k];
          if raw.Text? && raw.text != "" {
            return raw.text;
          }
        }
        i := i + 1;
      }
      return "";
    }

    method AuditReject(q: Request, entry: R.Entry, outcome: Verdict)
      requires !outcome.NoAlertref? && !outcome.OptOut? && !outcome.Handled()
      modifies `audits
      ensures audits == old(audits) + AuditFor(q, Some(entry), outcome)
    {
      var org := entry.orgID;
      if outcome == OrgMismatch && q.expectedOrg != "" {
        org := q.expectedOrg;
      }
      var channel := entry.channelID;
      if q.expectedChannel != "" && channel == "" {
        channel := q.expectedChannel;
      }
      audits := audits + [Audit(q.id, outcome, org, channel, entry.alertID, entry.monitorID)];
    }

    /** The checks on a known reference, up to the limiter. */
    method Screen(q: Request, entry: R.Entry, now: nat) returns (v: Verdict)
      requires Alertref(q) != ""
      modifies `audits
      ensures v == EarlyVerdict(q, Some(entry), handlers, now, alertrefTTL)
      ensures audits == old(audits) + AuditFor(q, Some(entry), v)
    {
      if alertrefTTL > 0 && now - entry.emittedAt > alertrefTTL {
        AuditReject(q, entry, AlertrefExpired);
        return AlertrefExpired;
      }
      if q.expectedOrg != "" && entry.orgID != q.expectedOrg {
        AuditReject(q, entry, OrgMismatch);
        return OrgMismatch;
      }
      if q.expectedChannel != "" && entry.channelID != q.expectedChannel {
        AuditReject(q, entry, ChannelMismatch);
        return ChannelMismatch;
      }
      if q.replyType !in handlers {
        AuditReject(q, entry, UnknownType);
        return UnknownType;
      }
      if q.replyType !in q.cfg.accepted {
        return OptOut;
      }
      if q.replyType in Elevated {
        if !q.cfg.trustElevated {
          AuditReject(q, entry, TrustRequired);
          return TrustRequired;
        }
        if q.replyType == Deregister && !q.cfg.allowDeregister {
          AuditReject(q, entry, TrustRequired);
          return TrustRequired;
        }
      }
      return Accepted;
    }

    method DispatchCore(q: Request, now: nat) returns (v: Verdict)
      requires Valid()
      modifies this, registry, limiter
      ensures Valid()
      ensures v == VerdictOf(old(View()), q, now, Bounds())
      ensures View() == Dispatch(old(View()), q, now, Bounds())
    {
      var alertref := ExtractAlertref(q);
      if alertref == "" {
        return NoAlertref;
      }
      var found := registry.Lookup(alertref, now);
      if found.None? {
        if q.expectedOrg != "" {
          audits := audits + [Audit(q.id, UnknownAlertref, q.expectedOrg, q.expectedChannel, "", "")];
        }
        return UnknownAlertref;
      }
      var entry := found.value;
      v := Screen(q, entry, now);
      if v != Accepted {
        return v;
      }
      v := LimitAndHandle(q, entry, now);
    }

    /** The end of a dispatch: the limiter, then the handler. */
    method LimitAndHandle(q: Request, entry: R.Entry, now: nat) returns (v: Verdict)
      requires limiter.Valid()
      modifies `audits, `handled, limiter
      ensures limiter.Valid()
      ensures var key := L.KeyOf(entry.orgID, q.replyType);
        && v == (if !L.Verdict(old(limiter.View()).buckets, key, now, q.cfg.rateLimit) then RateLimited
                 else if q.handlerOk then Accepted else HandlerFailed)
        && limiter.View() == L.Allow(old(limiter.View()), key, now, q.cfg.rateLimit)
      ensures audits == old(audits) + AuditFor(q, Some(entry), v)
      ensures handled == if v.Handled() then old(handled) + [Handling(q, entry.orgID, now)] else old(handled)
    {
      var allowed := limiter.AllowCall(entry.orgID, q.replyType, q.cfg.rateLimit, now);
      if !allowed {
        AuditReject(q, entry, RateLimited);
        return RateLimited;
      }
      handled := handled + [Handling(q, entry.orgID, now)];
      return if q.handlerOk then Accepted else HandlerFailed;
    }
  }
}
