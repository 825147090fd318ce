/**
 * The registry of outbound events: an index and a recency list with a capacity and a time to live,
 * changed in place, and the exact rule for which look-ups succeed.
 */
module Registry {
  import opened Common
  import opened Recency

  datatype Entry = Entry(eventID: string, orgID: string, channelID: string, alertID: string, monitorID: string, emittedAt: int)

  /** Index by event id, and the ids, most recently recorded first. */
  datatype State = State(index: map<string, Entry>, order: seq<string>)

  /** Capacity and time to live; zero or less disables either bound. */
  datatype Limits = Limits(maxEntries: int, ttl: int)

  const Empty := State(map[], [])

  predicate Expired(e: Entry, now: int, ttl: int) {
    ttl > 0 && now - e.emittedAt > ttl
  }

  ghost predicate Sound(s: State) {
    Distinct(s.order) && Elements(s.order) == s.index.Keys
  }

  function Insert(s: State, e: Entry): State {
    State(s.index[e.eventID := e], Touch(s.order, e.eventID))
  }

  function DropLast(s: State): State
    requires s.order != []
  {
    State(s.index - {s.order[|s.order| - 1]}, s.order[..|s.order| - 1])
  }

  /** From the back, drop entries as long as they are expired. */
  function DropExpired(s: State, now: int, ttl: int): State
    decreases |s.order|
  {
    if s.order == [] then s
    else
      var last := s.order[|s.order| - 1];
      if last in s.index && Expired(s.index[last], now, ttl) then DropExpired(DropLast(s), now, ttl) else s
  }

  function DropExcess(s: State, maxEntries: int): State
    decreases |s.order|
  {
    if 0 < maxEntries < |s.order| then DropExcess(DropLast(s), maxEntries) else s
  }

  /** The entry carries its own time; the eviction reads the clock again. */
  function Record(s: State, e: Entry, now: int, limits: Limits): State {
    if e.eventID == "" then s
    else DropExcess(DropExpired(Insert(s, e), now, limits.ttl), limits.maxEntries)
  }

  function Found(s: State, id: string, now: int, limits: Limits): Option<Entry> {
    if id != "" && id in s.index && !Expired(s.index[id], now, limits.ttl) then Some(s.index[id]) else None
  }

  /** A look-up removes the entry it finds expired. */
  function AfterLookup(s: State, id: string, now: int, limits: Limits): State {
    if id != "" && id in s.index && Expired(s.index[id], now, limits.ttl) then
      State(s.index - {id}, Without(s.order, id))
    else s
  }

  // ---------- The registry itself ----------

  lemma DropLastSound(s: State)
    requires Sound(s) && s.order != []
    ensures Sound(DropLast(s)) && s.order[|s.order| - 1] in s.index
  {
    var n := |s.order| - 1;
    assert s.order == s.order[..n] + [s.order[n]];
    assert s.order[n] in Elements(s.order);
    assert Elements(s.order[..n]) == Elements(s.order) - {s.order[n]};
  }

  lemma InsertSound(s: State, e: Entry)
    requires Sound(s)
    ensures Sound(Insert(s, e))
  {
    WithoutDistinct(s.order, e.eventID);
    WithoutMembers(s.order, e.eventID);
    assert Elements(Touch(s.order, e.eventID)) == Elements(s.order) + {e.eventID};
  }

  lemma RemoveSound(s: State, id: string)
    requires Sound(s)
    ensures Sound(State(s.index - {id}, Without(s.order, id)))
  {
    WithoutDistinct(s.order, id);
    WithoutMembers(s.order, id);
    assert Elements(Without(s.order, id)) == Elements(s.order) - {id};
  }

  class MemoryRegistry {
    const limits: Limits
    var index: map<string, Entry>
    var order: seq<string>

    function View(): State
      reads this
    {
      State(index, order)
    }

    /** Index and list hold the same ids, the list each once. */
    ghost predicate Valid()
      reads this
    {
      Sound(View())
    }

    constructor (limits: Limits)
      ensures View() == Empty && Valid() && this.limits == limits
    {
      this.limits := limits;
      index, order := map[], [];
    }

    method Remove(id: string)
      requires Valid()
      modifies this
      ensures Valid()
      ensures View() == State(old(index) - {id}, Without(old(order), id))
    {
      RemoveSound(View(), id);
      index := index - {id};
      order := Without(order, id);
    }

    /** Removes the entry at the back of the list. */
    method RemoveBack()
      requires Valid() && order != []
      modifies this
      ensures Valid()
      ensures View() == DropLast(old(View()))
    {
      DropLastSound(View());
      var id := order[|order| - 1];
      index := index - {id};
      order := order[..|order| - 1];
    }

    method EvictAll(now: int)
      requires Valid()
      modifies this
      ensures Valid()
      ensures View() == DropExcess(DropExpired(old(View()), now, limits.ttl), limits.maxEntries)
    {
      ghost var before := View();
      if limits.ttl > 0 {
        while |order| > 0
          invariant Valid()
          invariant DropExpired(View(), now, limits.ttl) == DropExpired(before, now, limits.ttl)
          decreases |order|
        {
          DropLastSound(View());
          var id := order[|order| - 1];
          if !Expired(index[id], now, limits.ttl) {
            break;
          }
          RemoveBack();
        }
        assert View() == DropExpired(before, now, limits.ttl);
      }
      ghost var live := View();
      if limits.maxEntries > 0 {
        while |order| > limits.maxEntries
          invariant Valid()
          invariant DropExcess(View(), limits.maxEntries) == DropExcess(live, limits.maxEntries)
          decreases |order|
        {
          RemoveBack();
        }
      }
    }

    method RecordEvent(eventID: string, orgID: string, channelID: string, alertID: string, monitorID: string,
                       emittedAt: int, now: int) returns (ok: bool)
      requires Valid()
      modifies this
      ensures Valid()
      ensures ok <==> eventID != ""
      ensures View() == Record(old(View()), Entry(eventID, orgID, channelID, alertID, monitorID, emittedAt), now, limits)
    {
      if eventID == "" {
        return false;
      }
      var entry := Entry(eventID, orgID, channelID, alertID, monitorID, emittedAt);
      InsertSound(View(), entry);
      if eventID in index {
        order := [eventID] + Without(order, eventID);
        index := index[eventID := entry];
      } else {
        assert eventID !in Elements(order);
        WithoutAbsent(order, eventID);
        order := [eventID] + order;
        index := index[eventID := entry];
      }
      EvictAll(now);
      return true;
    }

    method Lookup(id: string, now: int) returns (found: Option<Entry>)
      requires Valid()
      modifies this
      ensures Valid()
      ensures found == Found(old(View()), id, now, limits)
      ensures View() == AfterLookup(old(View()), id, now, limits)
    {
      if id == "" {
        return None;
      }
      if id !in index {
        return None;
      }
      var entry := index[id];
      if Expired(entry, now, limits.ttl) {
        Remove(id);
        return None;
      }
      return Some(entry);
    }
  }

  // ---------- Histories ----------

  datatype Op = Put(entry: Entry, now: int) | Get(id: string, now: int)

  function Step(s: State, op: Op, limits: Limits): State {
    match op
    case Put(e, now) => Record(s, e, now, limits)
    case Get(id, now) => AfterLookup(s, id, now, limits)
  }

  function Run(ops: seq<Op>, limits: Limits): State {
    if ops == [] then Empty else Step(Run(ops[..|ops| - 1], limits), ops[|ops| - 1], limits)
  }

  /** Ids recorded, in order; an event without an id is refused. */
  function Ids(ops: seq<Op>): seq<string> {
    if ops == [] then []
    else
      var before := Ids(ops[..|ops| - 1]);
      match ops[|ops| - 1]
      case Put(e, _) => if e.eventID == "" then before else before + [e.eventID]
      case Get(_, _) => before
  }

  /** The latest entry recorded under each id. */
  function Latest(ops: seq<Op>): map<string, Entry> {
    if ops == [] then map[]
    else
      var before := Latest(ops[..|ops| - 1]);
      match ops[|ops| - 1]
      case Put(e, _) => if e.eventID == "" then before else before[e.eventID := e]
      case Get(_, _) => before
  }

  /** Clocks never run backwards in lock order, and an entry is timed before its eviction pass. */
  ghost predicate Timed(ops: seq<Op>) {
    && (forall i, j :: 0 <= i < j < |ops| ==> ops[i].now <= ops[j].now)
    && (forall i :: 0 <= i < |ops| && ops[i].Put? ==> ops[i].entry.emittedAt <= ops[i].now)
    && (forall i, j :: 0 <= i < j < |ops| && ops[i].Put? && ops[j].Put? ==> ops[i].entry.emittedAt <= ops[j].entry.emittedAt)
  }

  // ---------- Live prefixes ----------

  predicate Live(latest: map<string, Entry>, id: string, now: int, ttl: int) {
    id in latest && !Expired(latest[id], now, ttl)
  }

  /** The leading ids that are not expired. */
  function LivePart(order: seq<string>, latest: map<string, Entry>, now: int, ttl: int): seq<string> {
    if order == [] || !Live(latest, order[0], now, ttl) then []
    else [order[0]] + LivePart(order[1..], latest, now, ttl)
  }

  function Cap(order: seq<string>, maxEntries: int): seq<string> {
    if maxEntries > 0 then Take(order, maxEntries) else order
  }

  ghost predicate SortedByTime(order: seq<string>, latest: map<string, Entry>) {
    && (forall id :: id in order ==> id in latest)
    && (forall i, j :: 0 <= i < j < |order| ==> latest[order[i]].emittedAt >= latest[order[j]].emittedAt)
  }

  lemma {:induction false} LivePartIsPrefix(order: seq<string>, latest: map<string, Entry>, now: int, ttl: int)
    ensures LivePart(order, latest, now, ttl) <= order
    ensures forall id :: id in LivePart(order, latest, now, ttl) ==> Live(latest, id, now, ttl)
  {
    if order != [] && Live(latest, order[0], now, ttl) {
      LivePartIsPrefix(order[1..], latest, now, ttl);
    }
  }

  /** In a list sorted by time the leading unexpired ids are all the unexpired ids. */
  lemma {:induction false} LivePartIsAllLive(order: seq<string>, latest: map<string, Entry>, now: int, ttl: int)
    requires SortedByTime(order, latest)
    ensures forall id :: id in LivePart(order, latest, now, ttl) <==> id in order && Live(latest, id, now, ttl)
  {
    if order != [] {
      if Live(latest, order[0], now, ttl) {
        LivePartIsAllLive(order[1..], latest, now, ttl);
      } else {
        forall id | id in order ensures !Live(latest, id, now, ttl) {
          var i :| 0 <= i < |order| && order[i] == id;
          if i > 0 {
            assert latest[order[0]].emittedAt >= latest[order[i]].emittedAt;
          }
        }
      }
    }
  }

  lemma {:induction false} LivePartLater(order: seq<string>, latest: map<string, Entry>, now: int, later: int, ttl: int)
    requires now <= later
    ensures LivePart(LivePart(order, latest, now, ttl), latest, later, ttl) == LivePart(order, latest, later, ttl)
  {
    if order != [] && Live(latest, order[0], now, ttl) {
      LivePartLater(order[1..], latest, now, later, ttl);
      assert ([order[0]] + LivePart(order[1..], latest, now, ttl))[1..] == LivePart(order[1..], latest, now, ttl);
    }
  }

  lemma {:induction false} LivePartTake(order: seq<string>, latest: map<string, Entry>, now: int, ttl: int, cap: nat)
    ensures LivePart(Take(order, cap), latest, now, ttl) == Take(LivePart(order, latest, now, ttl), cap)
  {
    if order != [] && cap > 0 && Live(latest, order[0], now, ttl) {
      LivePartTake(order[1..], latest, now, ttl, cap - 1);
      assert Take(order, cap)[1..] == Take(order[1..], cap - 1);
      var rest := LivePart(order[1..], latest, now, ttl);
      assert Take([order[0]] + rest, cap) == [order[0]] + Take(rest, cap - 1);
    }
  }

  lemma LivePartCap(order: seq<string>, latest: map<string, Entry>, now: int, ttl: int, maxEntries: int)
    ensures LivePart(Cap(order, maxEntries), latest, now, ttl) == Cap(LivePart(order, latest, now, ttl), maxEntries)
  {
    if maxEntries > 0 {
      LivePartTake(order, latest, now, ttl, maxEntries);
    }
  }

  /** Removing an id from a sorted list removes it from its live part and changes nothing else there. */
  lemma {:induction false} LivePartWithout(order: seq<string>, latest: map<string, Entry>, now: int, ttl: int, id: string)
    requires SortedByTime(order, latest)
    ensures LivePart(Without(order, id), latest, now, ttl) == Without(LivePart(order, latest, now, ttl), id)
  {
    if order != [] {
      if Live(latest, order[0], now, ttl) {
        LivePartWithout(order[1..], latest, now, ttl, id);
        var rest := LivePart(order[1..], latest, now, ttl);
        assert ([order[0]] + rest)[1..] == rest;
        assert order[0] != id ==> ([order[0]] + Without(order[1..], id))[1..] == Without(order[1..], id);
      } else {
        WithoutMembers(order, id);
        var w := Without(order, id);
        if w != [] {
          assert w[0] in w;
          LivePartIsAllLive(order, latest, now, ttl);
          assert !Live(latest, w[0], now, ttl);
        }
      }
    }
  }

  /** A new entry under an id changes the live part of a list without that id in nothing. */
  lemma {:induction false} LivePartUpdate(order: seq<string>, latest: map<string, Entry>, e: Entry, now: int, ttl: int)
    requires e.eventID !in order
    ensures LivePart(order, latest[e.eventID := e], now, ttl) == LivePart(order, latest, now, ttl)
  {
    if order != [] && Live(latest, order[0], now, ttl) {
      LivePartUpdate(order[1..], latest, e, now, ttl);
    }
  }

  // ---------- The eviction loops compute live prefixes and truncations ----------

  lemma {:induction false} DropExpiredIsLivePart(s: State, latest: map<string, Entry>, now: int, ttl: int)
    requires Sound(s) && SortedByTime(s.order, latest)
    requires forall id :: id in s.index ==> s.index[id] == latest[id]
    ensures var s' := DropExpired(s, now, ttl);
      Sound(s') && s'.order == LivePart(s.order, latest, now, ttl)
      && forall id :: id in s'.index ==> id in s.index && s'.index[id] == s.index[id]
    decreases |s.order|
  {
    if s.order != [] {
      DropLastSound(s);
      if Expired(s.index[s.order[|s.order| - 1]], now, ttl) {
        DropExpiredIsLivePart(DropLast(s), latest, now, ttl);
        LivePartDropLast(s.order, latest, now, ttl);
      } else {
        LiveLastIsAllLive(s.order, latest, now, ttl);
      }
    }
  }

  /** A sorted list whose last id is not expired is its own live part. */
  lemma LiveLastIsAllLive(order: seq<string>, latest: map<string, Entry>, now: int, ttl: int)
    requires order != [] && Distinct(order) && SortedByTime(order, latest) && Live(latest, order[|order| - 1], now, ttl)
    ensures LivePart(order, latest, now, ttl) == order
  {
    var n := |order| - 1;
    var live := LivePart(order, latest, now, ttl);
    LivePartIsAllLive(order, latest, now, ttl);
    LivePartIsPrefix(order, latest, now, ttl);
    assert order[n] in live;
    var i :| 0 <= i < |live| && live[i] == order[n];
    assert order[i] == order[n];
    assert i == n;
  }

  lemma {:induction false} LivePartDropLast(order: seq<string>, latest: map<string, Entry>, now: int, ttl: int)
    requires order != [] && !Live(latest, order[|order| - 1], now, ttl)
    ensures LivePart(order[..|order| - 1], latest, now, ttl) == LivePart(order, latest, now, ttl)
  {
    if |order| > 1 && Live(latest, order[0], now, ttl) {
      LivePartDropLast(order[1..], latest, now, ttl);
      assert order[1..][..|order| - 2] == order[..|order| - 1][1..];
    }
  }

  lemma {:induction false} DropExcessIsCap(s: State, maxEntries: int)
    requires Sound(s)
    ensures var s' := DropExcess(s, maxEntries);
      Sound(s') && s'.order == Cap(s.order, maxEntries)
      && forall id :: id in s'.index ==> id in s.index && s'.index[id] == s.index[id]
    decreases |s.order|
  {
    if 0 < maxEntries < |s.order| {
      DropLastSound(s);
      DropExcessIsCap(DropLast(s), maxEntries);
    }
  }

  // ---------- The invariant of every run ----------

  /** The registry's unexpired ids are the most recently recorded unexpired ids, up to the capacity. */
  ghost predicate Tracks(s: State, recent: seq<string>, latest: map<string, Entry>, now: int, limits: Limits) {
    && Sound(s)
    && (forall id :: id in s.index ==> id in latest && s.index[id] == latest[id])
    && Distinct(recent) && SortedByTime(recent, latest) && SortedByTime(s.order, latest)
    && LivePart(s.order, latest, now, limits.ttl) == Cap(LivePart(recent, latest, now, limits.ttl), limits.maxEntries)
  }

  lemma TracksLater(s: State, recent: seq<string>, latest: map<string, Entry>, now: int, later: int, limits: Limits)
    requires Tracks(s, recent, latest, now, limits) && now <= later
    ensures Tracks(s, recent, latest, later, limits)
  {
    var ttl := limits.ttl;
    LivePartLater(s.order, latest, now, later, ttl);
    LivePartLater(recent, latest, now, later, ttl);
    LivePartCap(LivePart(recent, latest, now, ttl), latest, later, ttl, limits.maxEntries);
  }

  lemma GetTracks(s: State, recent: seq<string>, latest: map<string, Entry>, id: string, now: int, limits: Limits)
    requires Tracks(s, recent, latest, now, limits)
    ensures Tracks(AfterLookup(s, id, now, limits), recent, latest, now, limits)
  {
    if id != "" && id in s.index && Expired(s.index[id], now, limits.ttl) {
      RemoveSound(s, id);
      LivePartWithout(s.order, latest, now, limits.ttl, id);
      LivePartIsPrefix(s.order, latest, now, limits.ttl);
      WithoutAbsent(LivePart(s.order, latest, now, limits.ttl), id);
      WithoutSorted(s.order, latest, id);
    }
  }

  lemma WithoutSorted(order: seq<string>, latest: map<string, Entry>, id: string)
    requires SortedByTime(order, latest) && Distinct(order)
    ensures SortedByTime(Without(order, id), latest)
  {
    WithoutMembers(order, id);
    if id in order {
      var i :| 0 <= i < |order| && order[i] == id;
      WithoutAt(order, i);
    } else {
      WithoutAbsent(order, id);
    }
  }

  /** Moving an id with a new, latest entry to the front keeps a list sorted. */
  lemma TouchSorted(order: seq<string>, latest: map<string, Entry>, e: Entry)
    requires SortedByTime(order, latest) && Distinct(order)
    requires forall id :: id in order ==> latest[id].emittedAt <= e.emittedAt
    ensures SortedByTime(Touch(order, e.eventID), latest[e.eventID := e])
  {
    WithoutSorted(order, latest, e.eventID);
    WithoutMembers(order, e.eventID);
  }

  /** The live part of a list after a new entry has been put in front. */
  lemma LivePartTouch(order: seq<string>, latest: map<string, Entry>, e: Entry, now: int, ttl: int)
    requires SortedByTime(order, latest)
    ensures LivePart(Touch(order, e.eventID), latest[e.eventID := e], now, ttl) ==
            if Expired(e, now, ttl) then [] else Touch(LivePart(order, latest, now, ttl), e.eventID)
  {
    var w := Without(order, e.eventID);
    WithoutMembers(order, e.eventID);
    LivePartUpdate(w, latest, e, now, ttl);
    LivePartWithout(order, latest, now, ttl, e.eventID);
    assert ([e.eventID] + w)[1..] == w;
  }

  lemma CapTouch(order: seq<string>, id: string, maxEntries: int)
    requires Distinct(order)
    ensures Cap(Touch(Cap(order, maxEntries), id), maxEntries) == Cap(Touch(order, id), maxEntries)
  {
    if maxEntries > 0 {
      TouchTruncated(order, id, maxEntries);
    }
  }

  /** What a record leaves, as lists: everything expired is gone, and the rest is truncated. */
  lemma RecordLists(s: State, latest: map<string, Entry>, e: Entry, now: int, limits: Limits)
    requires Sound(s) && SortedByTime(s.order, latest) && e.eventID != ""
    requires forall id :: id in s.index ==> id in latest && s.index[id] == latest[id]
    requires forall id :: id in latest ==> latest[id].emittedAt <= e.emittedAt
    ensures var s' := Record(s, e, now, limits); var latest' := latest[e.eventID := e];
      && Sound(s')
      && s'.order == Cap(LivePart(Touch(s.order, e.eventID), latest', now, limits.ttl), limits.maxEntries)
      && (forall id :: id in s'.index ==> id in latest' && s'.index[id] == latest'[id])
  {
    var latest' := latest[e.eventID := e];
    var s1 := Insert(s, e);
    InsertSound(s, e);
    TouchSorted(s.order, latest, e);
    DropExpiredIsLivePart(s1, latest', now, limits.ttl);
    DropExcessIsCap(DropExpired(s1, now, limits.ttl), limits.maxEntries);
  }

  lemma PrefixSorted(order: seq<string>, prefix: seq<string>, latest: map<string, Entry>)
    requires SortedByTime(order, latest) && prefix <= order
    ensures SortedByTime(prefix, latest)
  {
  }

  /** Lists with the same truncated live part keep having one when an entry is put in front of both. */
  lemma PutLive(order: seq<string>, recent: seq<string>, latest: map<string, Entry>, e: Entry, now: int, limits: Limits)
    requires Distinct(recent) && SortedByTime(recent, latest) && SortedByTime(order, latest)
    requires LivePart(order, latest, now, limits.ttl) == Cap(LivePart(recent, latest, now, limits.ttl), limits.maxEntries)
    ensures var latest' := latest[e.eventID := e];
      Cap(LivePart(Touch(order, e.eventID), latest', now, limits.ttl), limits.maxEntries)
      == Cap(LivePart(Touch(recent, e.eventID), latest', now, limits.ttl), limits.maxEntries)
  {
    LivePartTouch(order, latest, e, now, limits.ttl);
    LivePartTouch(recent, latest, e, now, limits.ttl);
    LivePartIsPrefix(recent, latest, now, limits.ttl);
    CapTouch(LivePart(recent, latest, now, limits.ttl), e.eventID, limits.maxEntries);
  }

  /** A truncated live part is its own live part. */
  lemma CappedLiveIsLive(order: seq<string>, latest: map<string, Entry>, now: int, limits: Limits)
    ensures var capped := Cap(LivePart(order, latest, now, limits.ttl), limits.maxEntries);
      LivePart(capped, latest, now, limits.ttl) == capped
  {
    LivePartCap(LivePart(order, latest, now, limits.ttl), latest, now, limits.ttl, limits.maxEntries);
    LivePartLater(order, latest, now, now, limits.ttl);
  }

  lemma PutTracks(s: State, recent: seq<string>, latest: map<string, Entry>, e: Entry, now: int, limits: Limits)
    requires Tracks(s, recent, latest, now, limits) && e.eventID != ""
    requires forall id :: id in latest ==> latest[id].emittedAt <= e.emittedAt
    ensures Tracks(Record(s, e, now, limits), Touch(recent, e.eventID), latest[e.eventID := e], now, limits)
  {
    RecordLists(s, latest, e, now, limits);
    WithoutDistinct(recent, e.eventID);
    TouchSorted(recent, latest, e);
    TouchSorted(s.order, latest, e);
    CappedStaysSorted(Touch(s.order, e.eventID), latest[e.eventID := e], now, limits);
    CappedLiveIsLive(Touch(s.order, e.eventID), latest[e.eventID := e], now, limits);
    PutLive(s.order, recent, latest, e, now, limits);
  }

  lemma CappedStaysSorted(order: seq<string>, latest: map<string, Entry>, now: int, limits: Limits)
    requires SortedByTime(order, latest)
    ensures SortedByTime(Cap(LivePart(order, latest, now, limits.ttl), limits.maxEntries), latest)
  {
    LivePartIsPrefix(order, latest, now, limits.ttl);
    PrefixSorted(order, Cap(LivePart(order, latest, now, limits.ttl), limits.maxEntries), latest);
  }

  lemma {:induction false} LatestTimes(ops: seq<Op>, bound: int)
    requires forall op :: op in ops && op.Put? ==> op.entry.emittedAt <= bound
    ensures forall id :: id in Latest(ops) ==> Latest(ops)[id].emittedAt <= bound
  {
    if ops != [] {
      LatestTimes(ops[..|ops| - 1], bound);
    }
  }

  lemma {:induction false} EveryRunTracks(ops: seq<Op>, limits: Limits, now: int)
    requires Timed(ops) && forall op :: op in ops ==> op.now <= now
    ensures Tracks(Run(ops, limits), Recent(Ids(ops)), Latest(ops), now, limits)
  {
    if ops == [] {
      assert Elements<string>([]) == {};
    } else {
      var before := ops[..|ops| - 1];
      var last := ops[|ops| - 1];
      EveryRunTracks(before, limits, last.now);
      var s := Run(before, limits);
      match last {
        case Put(e, t) =>
          if e.eventID != "" {
            LatestTimes(before, e.emittedAt);
            PutTracks(s, Recent(Ids(before)), Latest(before), e, t, limits);
            assert Ids(ops)[..|Ids(ops)| - 1] == Ids(before);
          }
        case Get(id, t) => GetTracks(s, Recent(Ids(before)), Latest(before), id, t, limits);
      }
      TracksLater(Run(ops, limits), Recent(Ids(ops)), Latest(ops), last.now, now, limits);
    }
  }

  lemma {:induction false} LatestKeys(ops: seq<Op>, id: string)
    ensures id in Latest(ops) <==> id in Ids(ops)
  {
    if ops != [] {
      LatestKeys(ops[..|ops| - 1], id);
    }
  }

  /**
   * After any run of records and look-ups, a look-up returns the latest entry recorded under its id exactly
   * when that entry is no older than the time to live and fewer than maxEntries other ids were recorded since.
   */
  lemma LookupIsExact(ops: seq<Op>, limits: Limits, id: string, now: int)
    requires Timed(ops) && (forall op :: op in ops ==> op.now <= now) && id != ""
    ensures Found(Run(ops, limits), id, now, limits) ==
      if id in Latest(ops) && (limits.ttl > 0 ==> now - Latest(ops)[id].emittedAt <= limits.ttl)
         && (limits.maxEntries > 0 ==> |SinceLast(Ids(ops), id)| < limits.maxEntries)
      then Some(Latest(ops)[id]) else None
  {
    EveryRunTracks(ops, limits, now);
    LatestKeys(ops, id);
    var s, recent, latest := Run(ops, limits), Recent(Ids(ops)), Latest(ops);
    LivePartIsAllLive(s.order, latest, now, limits.ttl);
    LivePartIsAllLive(recent, latest, now, limits.ttl);
    LivePartIsPrefix(recent, latest, now, limits.ttl);
    RecentSound(Ids(ops));
    assert id in s.index <==> id in Elements(s.order);
    assert id in Elements(s.order) <==> id in s.order;
    if limits.maxEntries > 0 {
      KeptExactlyWhenRecent(Ids(ops), id, limits.maxEntries);
      TakeLive(recent, LivePart(recent, latest, now, limits.ttl), limits.maxEntries, id);
    }
  }

  /** An index and a list that lost the ids outside `kept`, and nothing else. */
  ghost predicate Reduced(s: State, s': State, kept: set<string>) {
    && (forall k :: k in s'.index <==> k in s.index && k in kept)
    && (forall k :: k in s'.index ==> s'.index[k] == s.index[k])
    && s'.order == Keep(s.order, kept)
  }

  /** A look-up removes its own entry exactly when that is older than the time to live, and never anything else. */
  lemma LookupRemovesExactly(s: State, limits: Limits, id: string, now: int)
    requires Sound(s) && "" !in s.index
    ensures var tooOld := id in s.index && limits.ttl > 0 && now - s.index[id].emittedAt > limits.ttl;
      Reduced(s, AfterLookup(s, id, now, limits), if tooOld then s.index.Keys - {id} else s.index.Keys)
  {
    assert Elements(s.order) == s.index.Keys;
    KeepAll(s.order, s.index.Keys);
    KeepLess(s.order, s.index.Keys, id);
  }

  lemma {:induction false} ExpiredDropsOnly(s: State, now: int, ttl: int)
    ensures DropExpired(s, now, ttl).index.Keys <= s.index.Keys
    decreases |s.order|
  {
    if DropExpired(s, now, ttl) != s {
      ExpiredDropsOnly(DropLast(s), now, ttl);
    }
  }

  lemma {:induction false} ExcessDropsOnly(s: State, maxEntries: int)
    ensures DropExcess(s, maxEntries).index.Keys <= s.index.Keys
    decreases |s.order|
  {
    if DropExcess(s, maxEntries) != s {
      ExcessDropsOnly(DropLast(s), maxEntries);
    }
  }

  /** Nothing is ever recorded under the empty id. */
  lemma {:induction false} NoEmptyId(ops: seq<Op>, limits: Limits)
    ensures "" !in Run(ops, limits).index
  {
    if ops != [] {
      var s := Run(ops[..|ops| - 1], limits);
      NoEmptyId(ops[..|ops| - 1], limits);
      match ops[|ops| - 1]
      case Put(e, now) =>
        if e.eventID != "" {
          ExpiredDropsOnly(Insert(s, e), now, limits.ttl);
          ExcessDropsOnly(DropExpired(Insert(s, e), now, limits.ttl), limits.maxEntries);
        }
      case Get(id, now) =>
    }
  }

  /** Truncating a prefix: an id of the prefix survives exactly when it survives truncating the whole list. */
  lemma TakeLive(order: seq<string>, prefix: seq<string>, cap: nat, id: string)
    requires Distinct(order) && prefix <= order
    ensures id in Take(prefix, cap) <==> id in prefix && id in Take(order, cap)
  {
    if id in prefix && id in Take(order, cap) {
      var i :| 0 <= i < |Take(order, cap)| && order[i] == id;
      var j :| 0 <= j < |prefix| && prefix[j] == id;
      assert order[j] == id;
      assert i == j;
      assert Take(prefix, cap)[i] == id;
    }
    if id in Take(prefix, cap) {
      var i :| 0 <= i < |Take(prefix, cap)| && prefix[i] == id;
      assert Take(order, cap)[i] == id;
    }
  }
}
