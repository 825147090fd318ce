/**
 * The cache of long-lived event consumers: one per organisation and filter, capped per organisation, swept when
 * idle, each with one queue subscription on the bus. The bus is the object of Bus.dfy.
 */
module Consumers {
  import opened Common
  import opened Bus

  const NAME_PREFIX := "knative-source-"
  const SUBJECT_PREFIX := "events.cloudevents.out."
  const HASH_LENGTH := 12

  /** One consumer: its readers hold on to it, so it is an object, marked when the sweep has dropped it. */
  class Consumer {
    const orgID: string
    const name: string
    const subject: string
    var lastAccess: int
    var evicted: bool

    constructor (orgID: string, name: string, now: int)
      ensures this.orgID == orgID && this.name == name && subject == SubjectFor(orgID, ">")
      ensures lastAccess == now && !evicted
    {
      this.orgID, this.name, subject := orgID, name, SubjectFor(orgID, ">");
      lastAccess, evicted := now, false;
    }
  }

  function SubjectFor(orgID: string, eventType: string): string {
    SUBJECT_PREFIX + orgID + "." + eventType
  }

  function NameFor(orgID: string, hash: string): string {
    NAME_PREFIX + orgID + "-" + hash
  }

  predicate ConsumerName(queue: string) {
    NAME_PREFIX <= queue
  }

  /** A name tells its organisation, whatever characters that contains, because digests have one length. */
  lemma NameTellsOrg(orgA: string, hashA: string, orgB: string, hashB: string)
    requires |hashA| == |hashB| && NameFor(orgA, hashA) == NameFor(orgB, hashB)
    ensures orgA == orgB && hashA == hashB
  {
    var a, b := NameFor(orgA, hashA), NameFor(orgB, hashB);
    var p := |NAME_PREFIX|;
    assert a[p..|a| - |hashA| - 1] == orgA && b[p..|b| - |hashB| - 1] == orgB;
    assert a[|a| - |hashA|..] == hashA && b[|b| - |hashB|..] == hashB;
  }

  function CountOf(perOrg: map<string, int>, orgID: string): int {
    if orgID in perOrg then perOrg[orgID] else 0
  }

  /** The names of an organisation's cached consumers. */
  function Cached(items: map<string, Consumer>, orgID: string): set<string> {
    set n | n in items && items[n].orgID == orgID
  }

  ghost predicate CountsExact(items: map<string, Consumer>, perOrg: map<string, int>) {
    forall o :: CountOf(perOrg, o) == |Cached(items, o)|
  }

  ghost predicate Capped(perOrg: map<string, int>, maxOrg: int) {
    forall o :: CountOf(perOrg, o) <= Max(maxOrg, 0)
  }

  lemma CappedUpdate(perOrg: map<string, int>, maxOrg: int, orgID: string, n: int)
    requires Capped(perOrg, maxOrg) && n <= Max(maxOrg, 0)
    ensures Capped(perOrg[orgID := n], maxOrg)
  {
    var perOrg' := perOrg[orgID := n];
    forall o ensures CountOf(perOrg', o) <= Max(maxOrg, 0) {
      assert CountOf(perOrg, o) <= Max(maxOrg, 0);
    }
  }

  /** A consumer's name and subject are those of its organisation and of some filter. */
  ghost predicate Named(c: Consumer, hash: string -> string) {
    c.subject == SubjectFor(c.orgID, ">") && exists f :: c.name == NameFor(c.orgID, hash(f))
  }

  /** The subject each of the given names is subscribed on. */
  function Owners(items: map<string, Consumer>): map<string, string> {
    map n | n in items :: items[n].subject
  }

  /** The one subscription of a consumer's queue. */
  ghost predicate OnlySub(subs: Table, subject: string, name: string, s: Sub) {
    Listed(subs, subject, s) && s.queue == name && forall p, r :: Listed(subs, p, r) && r.queue == name ==> p == subject && r == s
  }

  /** Every owner has exactly one subscription, on its subject, and no other name has a consumer's subscription. */
  ghost predicate Subscribed(subs: Table, owners: map<string, string>) {
    && (forall n :: n in owners ==> exists s :: OnlySub(subs, owners[n], n, s))
    && (forall p, s :: Listed(subs, p, s) && ConsumerName(s.queue) ==> s.queue in owners && owners[s.queue] == p)
  }

  lemma OwnersAdd(items: map<string, Consumer>, n: string, c: Consumer)
    ensures Owners(items[n := c]) == Owners(items)[n := c.subject]
  {
  }

  lemma OwnersMinus(items: map<string, Consumer>, dropped: set<string>)
    ensures Owners(items - dropped) == Owners(items) - dropped
  {
  }

  datatype Outcome = Ready(consumer: Consumer) | CapExceeded | SubscribeFailed

  // ---------- Counting ----------

  lemma CachedAdd(items: map<string, Consumer>, n: string, c: Consumer, o: string)
    requires n !in items
    ensures |Cached(items[n := c], o)| == |Cached(items, o)| + if o == c.orgID then 1 else 0
  {
    if o == c.orgID {
      assert Cached(items[n := c], o) == Cached(items, o) + {n};
    } else {
      assert Cached(items[n := c], o) == Cached(items, o);
    }
  }

  lemma CountsAdd(items: map<string, Consumer>, perOrg: map<string, int>, n: string, c: Consumer)
    requires CountsExact(items, perOrg) && n !in items
    ensures CountsExact(items[n := c], perOrg[c.orgID := CountOf(perOrg, c.orgID) + 1])
  {
    var perOrg' := perOrg[c.orgID := CountOf(perOrg, c.orgID) + 1];
    forall o ensures CountOf(perOrg', o) == |Cached(items[n := c], o)| {
      CachedAdd(items, n, c, o);
      assert CountOf(perOrg, o) == |Cached(items, o)|;
    }
  }

  lemma CountsRemove(items: map<string, Consumer>, perOrg: map<string, int>, n: string)
    requires CountsExact(items, perOrg) && n in items
    ensures var o := items[n].orgID;
      CountOf(perOrg, o) > 0 && CountsExact(items - {n}, perOrg[o := CountOf(perOrg, o) - 1])
  {
    var org := items[n].orgID;
    assert n in Cached(items, org);
    assert (items - {n})[n := items[n]] == items;
    var perOrg' := perOrg[org := CountOf(perOrg, org) - 1];
    assert CountOf(perOrg, org) == |Cached(items, org)|;
    forall o ensures CountOf(perOrg', o) == |Cached(items - {n}, o)| {
      CachedAdd(items - {n}, n, items[n], o);
      assert CountOf(perOrg, o) == |Cached(items, o)|;
    }
  }

  // ---------- Subscribing ----------

  lemma SubscribeAdds(subs: Table, subs': Table, owners: map<string, string>, name: string, subject: string, s: Sub)
    requires Subscribed(subs, owners) && name !in owners && ConsumerName(name) && s.queue == name
    requires forall p, r :: Listed(subs', p, r) <==> Listed(subs, p, r) || (p == subject && r == s)
    ensures Subscribed(subs', owners[name := subject])
  {
    var owners' := owners[name := subject];
    assert OnlySub(subs', subject, name, s);
    forall n | n in owners' ensures exists r :: OnlySub(subs', owners'[n], n, r) {
      if n != name {
        var r :| OnlySub(subs, owners[n], n, r);
        assert OnlySub(subs', owners'[n], n, r);
      }
    }
  }

  lemma UnsubscribeRemoves(subs: Table, subs': Table, owners: map<string, string>, name: string)
    requires Subscribed(subs, owners) && name in owners
    requires forall p, r :: Listed(subs', p, r) <==> Listed(subs, p, r) && !(p == owners[name] && r.queue == name)
    ensures Subscribed(subs', owners - {name})
  {
    var owners' := owners - {name};
    forall n | n in owners' ensures exists r :: OnlySub(subs', owners'[n], n, r) {
      var r :| OnlySub(subs, owners[n], n, r);
      assert OnlySub(subs', owners'[n], n, r);
    }
    var own :| OnlySub(subs, owners[name], name, own);
  }

  class ConsumerCache {
    const bus: ChannelBus
    const maxOrg: int
    const idleTTL: int
    /** The first digits of a filter's digest. */
    const hash: string -> string
    var items: map<string, Consumer>
    var perOrg: map<string, int>
    /** Every consumer handed out so far. */
    ghost var made: set<Consumer>

    /** Cached consumers are known under their names; exactly the others are marked as evicted. */
    ghost predicate ItemsSound()
      reads this, made
    {
      && (forall n :: n in items ==> items[n] in made && items[n].name == n)
      && (forall c :: c in made ==> Named(c, hash))
      && (forall c :: c in made ==> (c.evicted <==> !(c.name in items && items[c.name] == c)))
    }

    ghost predicate CountsSound()
      reads this
    {
      CountsExact(items, perOrg) && Capped(perOrg, maxOrg)
    }

    ghost predicate Valid()
      reads this, bus, made
    {
      && bus.Valid() && (forall f :: |hash(f)| == HASH_LENGTH)
      && ItemsSound() && CountsSound()
      && Subscribed(bus.subs, Owners(items))
    }

    constructor (bus: ChannelBus, maxOrg: int, idleTTL: int, hash: string -> string)
      requires bus.Valid() && forall f :: |hash(f)| == HASH_LENGTH
      requires forall p, s :: Listed(bus.subs, p, s) ==> !ConsumerName(s.queue)
      ensures Valid() && items == map[] && made == {} && this.bus == bus && this.maxOrg == maxOrg && this.idleTTL == idleTTL
    {
      this.bus, this.maxOrg, this.idleTTL, this.hash := bus, maxOrg, idleTTL, hash;
      items, perOrg, made := map[], map[], {};
      new;
      forall o ensures Cached(items, o) == {} {
      }
    }

    // ---------- Rows and counters ----------

    method Reserve(c: Consumer)
      requires CountsSound() && c.name !in items && CountOf(perOrg, c.orgID) < maxOrg
      modifies `items, `perOrg
      ensures CountsSound() && items == old(items)[c.name := c]
    {
      CountsAdd(items, perOrg, c.name, c);
      CappedUpdate(perOrg, maxOrg, c.orgID, CountOf(perOrg, c.orgID) + 1);
      items := items[c.name := c];
      perOrg := perOrg[c.orgID := CountOf(perOrg, c.orgID) + 1];
    }

    method Release(name: string)
      requires CountsSound() && name in items
      modifies `items, `perOrg
      ensures CountsSound() && items == old(items) - {name}
    {
      CountsRemove(items, perOrg, name);
      var org := items[name].orgID;
      CappedUpdate(perOrg, maxOrg, org, CountOf(perOrg, org) - 1);
      items := items - {name};
      if CountOf(perOrg, org) > 0 {
        perOrg := perOrg[org := CountOf(perOrg, org) - 1];
      }
    }

    method Subscribe(c: Consumer, ghost owners: map<string, string>)
      requires bus.Valid() && Subscribed(bus.subs, owners) && c.name !in owners && ConsumerName(c.name)
      modifies bus
      ensures bus.Valid() && Subscribed(bus.subs, owners[c.name := c.subject])
    {
      ghost var subs := bus.subs;
      ghost var s := Sub(bus.next, c.name, c.name);
      bus.QueueSubscribe(c.subject, c.name, c.name);
      SubscribeAdds(subs, bus.subs, owners, c.name, c.subject, s);
    }

    /** A request finds its consumer cached and marks it as used. */
    method Touch(c: Consumer, orgID: string, filter: string, now: int)
      requires Valid() && NameFor(orgID, hash(filter)) in items && items[NameFor(orgID, hash(filter))] == c
      modifies c`lastAccess
      ensures Valid() && c.lastAccess == now && c.orgID == orgID
    {
      assert Named(c, hash);
      var f :| c.name == NameFor(c.orgID, hash(f));
      NameTellsOrg(orgID, hash(filter), c.orgID, hash(f));
      c.lastAccess := now;
    }

    /** A consumer whose subscription fails is taken out again. */
    method ReserveAndRelease(c: Consumer)
      requires CountsSound() && c.name !in items && CountOf(perOrg, c.orgID) < maxOrg
      modifies `items, `perOrg
      ensures CountsSound() && items == old(items)
    {
      ghost var before := items;
      Reserve(c);
      Release(c.name);
      assert items == before;
    }

    /** A new consumer below the cap. */
    method Make(orgID: string, filter: string, now: int, subscribeFails: bool) returns (r: Outcome)
      requires Valid() && NameFor(orgID, hash(filter)) !in items && CountOf(perOrg, orgID) < maxOrg
      modifies this, bus
      ensures Valid()
      ensures subscribeFails ==>
        r == SubscribeFailed && items == old(items) && made == old(made) && bus.subs == old(bus.subs)
      ensures !subscribeFails ==>
        && r.Ready? && fresh(r.consumer) && made == old(made) + {r.consumer}
        && items == old(items)[NameFor(orgID, hash(filter)) := r.consumer]
        && r.consumer.orgID == orgID && r.consumer.lastAccess == now && !r.consumer.evicted
    {
      var name := NameFor(orgID, hash(filter));
      var c := new Consumer(orgID, name, now);
      if subscribeFails {
        ReserveAndRelease(c);
        return SubscribeFailed;
      }
      ghost var before := items;
      Reserve(c);
      made := made + {c};
      assert Named(c, hash);
      assert ItemsSound();
      OwnersAdd(before, name, c);
      Subscribe(c, Owners(before));
      return Ready(c);
    }

    /** The consumer of an organisation and filter, made and subscribed on first use. */
    method Ensure(orgID: string, filter: string, now: int, subscribeFails: bool) returns (r: Outcome)
      requires Valid()
      modifies this, bus, made
      ensures Valid()
      ensures var name := NameFor(orgID, hash(filter));
        if name in old(items) then
          r == Ready(old(items)[name]) && items == old(items) && made == old(made) && bus.subs == old(bus.subs)
        else if |Cached(old(items), orgID)| >= maxOrg || subscribeFails then
          && r == (if |Cached(old(items), orgID)| >= maxOrg then CapExceeded else SubscribeFailed)
          && items == old(items) && made == old(made) && bus.subs == old(bus.subs)
        else
          r.Ready? && fresh(r.consumer) && items == old(items)[name := r.consumer] && made == old(made) + {r.consumer}
      ensures r.Ready? ==> r.consumer.orgID == orgID && r.consumer.lastAccess == now && !r.consumer.evicted
      ensures forall c :: c in old(made) ==> c.evicted == old(c.evicted) && (r != Ready(c) ==> c.lastAccess == old(c.lastAccess))
    {
      if NameFor(orgID, hash(filter)) in items {
        r := Ready(items[NameFor(orgID, hash(filter))]);
        Touch(r.consumer, orgID, filter, now);
        return;
      }
      if CountOf(perOrg, orgID) >= maxOrg {
        return CapExceeded;
      }
      r := Make(orgID, filter, now, subscribeFails);
    }

    // ---------- The sweep ----------

    method Evict(n: string, c: Consumer)
      requires ItemsSound() && CountsSound() && n in items && items[n] == c
      modifies `items, `perOrg, c`evicted
      ensures ItemsSound() && CountsSound() && items == old(items) - {n}
    {
      c.evicted := true;
      Release(n);
    }

    /** Marks and drops the idle consumers; their subscriptions are still there. */
    method DropIdle(cutoff: int) returns (dropped: set<string>)
      requires ItemsSound() && CountsSound()
      modifies `items, `perOrg, made
      ensures ItemsSound() && CountsSound() && made == old(made)
      ensures dropped == set n | n in old(items) && old(items[n].lastAccess) < cutoff
      ensures items == old(items) - dropped
      ensures forall c :: c in made ==> c.lastAccess == old(c.lastAccess)
    {
      dropped := {};
      var todo := items.Keys;
      while todo != {}
        invariant todo <= items.Keys && dropped !! todo
        invariant forall n :: n in dropped ==> n in old(items) && old(items[n].lastAccess) < cutoff
        invariant forall n :: n in items && n !in todo ==> n in old(items) && old(items[n].lastAccess) >= cutoff
        invariant items == old(items) - dropped && made == old(made)
        invariant ItemsSound() && CountsSound()
        invariant forall c :: c in made ==> c.lastAccess == old(c.lastAccess)
        decreases todo
      {
        var n :| n in todo;
        todo := todo - {n};
        var c := items[n];
        if c.lastAccess < cutoff {
          Evict(n, c);
          dropped := dropped + {n};
        }
      }
    }

    /** Takes the dropped consumers' subscriptions off the bus. */
    method UnsubscribeAll(owners: map<string, string>, dropped: set<string>)
      requires bus.Valid() && Subscribed(bus.subs, owners) && dropped <= owners.Keys
      modifies bus
      ensures bus.Valid() && Subscribed(bus.subs, owners - dropped)
    {
      var todo := dropped;
      ghost var gone: set<string> := {};
      assert owners - gone == owners;
      while todo != {}
        invariant gone + todo == dropped && gone !! todo
        invariant bus.Valid() && Subscribed(bus.subs, owners - gone)
        decreases todo
      {
        var n :| n in todo;
        ghost var subs := bus.subs;
        bus.Unsubscribe(owners[n], n);
        UnsubscribeRemoves(subs, bus.subs, owners - gone, n);
        todo := todo - {n};
        assert owners - gone - {n} == owners - (gone + {n});
        gone := gone + {n};
      }
      assert gone == dropped;
    }

    /** Drops exactly the consumers idle for longer than the limit, with their subscriptions. */
    method SweepOnce(now: int)
      requires Valid()
      modifies this, bus, made
      ensures Valid() && made == old(made)
      ensures forall n :: n in items <==> n in old(items) && old(items[n].lastAccess) >= now - idleTTL
      ensures forall n :: n in items ==> items[n] == old(items)[n]
      ensures forall c :: c in made ==> c.lastAccess == old(c.lastAccess)
    {
      var owners := Owners(items);
      ghost var before := items;
      var dropped := DropIdle(now - idleTTL);
      OwnersMinus(before, dropped);
      UnsubscribeAll(owners, dropped);
    }
  }

  // ---------- Who hears an event ----------

  /** A message's deliveries to one queue. */
  function Copies(delivered: seq<Sub>, queue: string): nat {
    if delivered == [] then 0
    else Copies(delivered[..|delivered| - 1], queue) + if delivered[|delivered| - 1].queue == queue then 1 else 0
  }

  lemma {:induction false} NoCopies(delivered: seq<Sub>, queue: string)
    requires forall i :: 0 <= i < |delivered| ==> delivered[i].queue != queue
    ensures Copies(delivered, queue) == 0
  {
    if delivered != [] {
      NoCopies(delivered[..|delivered| - 1], queue);
    }
  }

  lemma {:induction false} OneCopy(delivered: seq<Sub>, queue: string, i: nat)
    requires i < |delivered| && delivered[i].queue == queue
    requires forall j :: 0 <= j < |delivered| && delivered[j].queue == queue ==> j == i
    ensures Copies(delivered, queue) == 1
  {
    var n := |delivered| - 1;
    if i == n {
      NoCopies(delivered[..n], queue);
    } else {
      OneCopy(delivered[..n], queue, i);
    }
  }

  /** A subscribed consumer gets one copy of what its subject matches, and nothing else. */
  lemma HearsMatchesOnce(subs: Table, owners: map<string, string>, subject: string, delivered: seq<Sub>, name: string)
    requires Subscribed(subs, owners) && DeliveredRight(subs, subject, delivered) && name in owners && name != ""
    ensures Copies(delivered, name) == if SubjectMatches(owners[name], subject) then 1 else 0
  {
    var s :| OnlySub(subs, owners[name], name, s);
    if SubjectMatches(owners[name], subject) {
      assert Reached(subs, subject, s);
      var r :| r in delivered && r.queue == name;
      var i :| 0 <= i < |delivered| && delivered[i] == r;
      OneCopy(delivered, name, i);
    } else {
      forall j | 0 <= j < |delivered| ensures delivered[j].queue != name {
        assert Reached(subs, subject, delivered[j]);
      }
      NoCopies(delivered, name);
    }
  }

  lemma OthersHearNothing(subs: Table, owners: map<string, string>, subject: string, delivered: seq<Sub>, name: string)
    requires Subscribed(subs, owners) && DeliveredRight(subs, subject, delivered) && name !in owners && ConsumerName(name)
    ensures Copies(delivered, name) == 0
  {
    forall j | 0 <= j < |delivered| ensures delivered[j].queue != name {
      assert Reached(subs, subject, delivered[j]);
    }
    NoCopies(delivered, name);
  }

  predicate PlainOrg(orgID: string) {
    '.' !in orgID && '*' !in orgID && '>' !in orgID
  }

  lemma FirstToken(a: string, rest: string)
    requires '.' !in a
    ensures Split(a + "." + rest) == [a] + Split(rest)
  {
    SplitJoined(a, rest);
    SplitPlain(a);
  }

  lemma ThreeTokens(a: string, b: string, c: string, rest: string)
    requires '.' !in a && '.' !in b && '.' !in c
    ensures Split(a + "." + b + "." + c + "." + rest) == [a, b, c] + Split(rest)
  {
    FirstToken(c, rest);
    FirstToken(b, c + "." + rest);
    FirstToken(a, b + "." + (c + "." + rest));
    assert a + "." + b + "." + c + "." + rest == a + "." + (b + "." + (c + "." + rest));
    assert [a] + ([b] + ([c] + Split(rest))) == [a, b, c] + Split(rest);
  }

  lemma PrefixTokens(rest: string)
    ensures Split(SUBJECT_PREFIX + rest) == ["events", "cloudevents", "out"] + Split(rest)
  {
    ThreeTokens("events", "cloudevents", "out", rest);
    assert SUBJECT_PREFIX == "events" + "." + "cloudevents" + "." + "out" + ".";
  }

  lemma SubjectTokens(orgID: string, eventType: string)
    requires '.' !in orgID
    ensures Split(SubjectFor(orgID, eventType)) == ["events", "cloudevents", "out", orgID] + Split(eventType)
  {
    PrefixTokens(orgID + "." + eventType);
    SplitJoined(orgID, eventType);
    SplitPlain(orgID);
    assert SubjectFor(orgID, eventType) == SUBJECT_PREFIX + (orgID + "." + eventType);
  }

  /** A consumer's subject matches exactly the events of its own organisation. */
  lemma MatchesOwnOrgOnly(orgA: string, orgB: string, eventType: string)
    requires PlainOrg(orgA) && PlainOrg(orgB)
    ensures SubjectMatches(SubjectFor(orgA, ">"), SubjectFor(orgB, eventType)) <==> orgA == orgB
  {
    SubjectTokens(orgA, ">");
    SubjectTokens(orgB, eventType);
    SplitPlain(">");
    var prefix := ["events", "cloudevents", "out"];
    assert "*"[0] == '*' && ">"[0] == '>';
    MatchesPrefix(prefix, [orgA, ">"], [orgB] + Split(eventType));
    assert prefix + [orgA, ">"] == ["events", "cloudevents", "out", orgA] + [">"];
    assert prefix + ([orgB] + Split(eventType)) == ["events", "cloudevents", "out", orgB] + Split(eventType);
    assert ([orgB] + Split(eventType))[1..] == Split(eventType) && [orgA, ">"][1..] == [">"];
  }

  lemma {:induction false} MatchesPrefix(prefix: seq<string>, pattern: seq<string>, subject: seq<string>)
    requires forall t :: t in prefix ==> t != ">" && t != "*"
    ensures Matches(prefix + pattern, prefix + subject) <==> Matches(pattern, subject)
  {
    if prefix == [] {
      assert prefix + pattern == pattern && prefix + subject == subject;
    } else {
      assert prefix[0] in prefix && forall t :: t in prefix[1..] ==> t in prefix;
      MatchesPrefix(prefix[1..], pattern, subject);
      assert (prefix + pattern)[1..] == prefix[1..] + pattern && (prefix + subject)[1..] == prefix[1..] + subject;
    }
  }

  /**
   * Whatever the bus delivers for an event of an organisation, each cached consumer of that organisation gets
   * exactly one copy, and every other consumer, of another organisation or evicted, none.
   */
  lemma EventsReachOwnConsumersOnce(cache: ConsumerCache, orgID: string, eventType: string, delivered: seq<Sub>, name: string)
    requires cache.Valid() && PlainOrg(orgID) && ConsumerName(name)
    requires name in cache.items ==> PlainOrg(cache.items[name].orgID)
    requires DeliveredRight(cache.bus.subs, SubjectFor(orgID, eventType), delivered)
    ensures Copies(delivered, name) == if name in cache.items && cache.items[name].orgID == orgID then 1 else 0
  {
    var subject := SubjectFor(orgID, eventType);
    var owners := Owners(cache.items);
    if name in cache.items {
      assert Named(cache.items[name], cache.hash);
      HearsMatchesOnce(cache.bus.subs, owners, subject, delivered, name);
      MatchesOwnOrgOnly(cache.items[name].orgID, orgID, eventType);
    } else {
      OthersHearNothing(cache.bus.subs, owners, subject, delivered, name);
    }
  }
}
