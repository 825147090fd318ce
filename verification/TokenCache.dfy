/**
 * The token cache: items and a recency array with the least recently used key at its head, changed in place,
 * and what its bound promises about the tokens it still holds.
 */
module TokenCache {
  import opened Common
  import opened Recency

  const DEFAULT_MAX := 1024

  /** A token and its expiry; zero stands for no expiry. */
  datatype Item = Item(token: string, expiresAt: int)

  /** The keys here run from the most to the least recently used: the array backwards. */
  datatype State = State(items: map<string, Item>, recent: seq<string>)

  const Empty := State(map[], [])

  predicate Expired(item: Item, now: int) {
    item.expiresAt != 0 && now > item.expiresAt
  }

  function Found(s: State, key: string): Option<Item> {
    if key in s.items then Some(s.items[key]) else None
  }

  function AfterGet(s: State, key: string): State {
    if key in s.items then s.(recent := Touch(s.recent, key)) else s
  }

  function Drop(s: State, key: string): State {
    State(s.items - {key}, Without(s.recent, key))
  }

  /** Room for one more key: at the bound the least recently used one goes. */
  function MakeRoom(s: State, max: int): State {
    if |s.items| >= max && s.recent != [] then Drop(s, s.recent[|s.recent| - 1]) else s
  }

  function Store(s: State, key: string, item: Item, max: int): State {
    if key in s.items then State(s.items[key := item], Touch(s.recent, key))
    else
      var s1 := MakeRoom(s, max);
      State(s1.items[key := item], [key] + s1.recent)
  }

  function DropExpired(s: State, now: int): State {
    var kept := map k | k in s.items && !Expired(s.items[k], now) :: s.items[k];
    State(kept, Keep(s.recent, kept.Keys))
  }

  /** Items and recency list hold the same keys, the list each once. */
  ghost predicate Sound(s: State) {
    Distinct(s.recent) && Elements(s.recent) == s.items.Keys
  }

  // ---------- The array, head least recently used ----------

  function Reverse(s: seq<string>): seq<string> {
    if s == [] then [] else Reverse(s[1..]) + [s[0]]
  }

  lemma {:induction false} ReverseSnoc(s: seq<string>, k: string)
    ensures Reverse(s + [k]) == [k] + Reverse(s)
  {
    if s == [] {
      assert [] + [k] == [k];
    } else {
      ReverseSnoc(s[1..], k);
      assert (s + [k])[1..] == s[1..] + [k];
    }
  }

  lemma {:induction false} ReverseMembers(s: seq<string>)
    ensures |Reverse(s)| == |s|
    ensures forall i :: 0 <= i < |s| ==> Reverse(s)[i] == s[|s| - 1 - i]
    ensures forall k :: k in Reverse(s) <==> k in s
  {
    if s != [] {
      ReverseMembers(s[1..]);
    }
  }

  lemma ReverseDistinct(s: seq<string>)
    ensures Distinct(Reverse(s)) <==> Distinct(s)
  {
    ReverseMembers(s);
    if Distinct(Reverse(s)) {
      forall i, j | 0 <= i < j < |s| ensures s[i] != s[j] {
        assert Reverse(s)[|s| - 1 - j] == s[j] && Reverse(s)[|s| - 1 - i] == s[i];
      }
    }
  }

  lemma {:induction false} ReverseConcat(a: seq<string>, b: seq<string>)
    ensures Reverse(a + b) == Reverse(b) + Reverse(a)
  {
    if a == [] {
      assert a + b == b;
    } else {
      ReverseConcat(a[1..], b);
      assert (a + b)[1..] == a[1..] + b;
    }
  }

  lemma ReverseMiddle(a: seq<string>, k: string, b: seq<string>)
    ensures Reverse(a + [k] + b) == Reverse(b) + [k] + Reverse(a)
  {
    ReverseConcat(a + [k], b);
    ReverseSnoc(a, k);
  }

  lemma ReverseRemoved(a: seq<string>, k: string, b: seq<string>)
    requires Distinct(a + [k] + b)
    ensures Reverse(a + b) == Without(Reverse(a + [k] + b), k)
  {
    ReverseConcat(a, b);
    ReverseMiddle(a, k, b);
    ReverseDistinct(a + [k] + b);
    RemoveMiddle(Reverse(a + [k] + b), Reverse(b), k, Reverse(a));
  }

  lemma ReverseWithout(s: seq<string>, i: nat)
    requires Distinct(s) && i < |s|
    ensures Reverse(s[..i] + s[i + 1..]) == Without(Reverse(s), s[i])
  {
    var a, k, b := s[..i], s[i], s[i + 1..];
    Around(s, i);
    ReverseRemoved(a, k, b);
  }

  lemma Around(s: seq<string>, i: nat)
    requires i < |s|
    ensures s[..i] + [s[i]] + s[i + 1..] == s
  {
  }

  lemma RemoveMiddle(s: seq<string>, front: seq<string>, k: string, back: seq<string>)
    requires Distinct(s) && s == front + [k] + back
    ensures Without(s, k) == front + back
  {
    assert s[|front|] == k && s[..|front|] == front && s[|front| + 1..] == back;
    WithoutAt(s, |front|);
  }

  class MemoryTokenCache {
    var items: map<string, Item>
    var order: seq<string>
    const maxEntries: int

    function View(): State
      reads this
    {
      State(items, Reverse(order))
    }

    ghost predicate Valid()
      reads this
    {
      Sound(View()) && maxEntries > 0 && |order| <= maxEntries
    }

    constructor (max: int)
      ensures View() == Empty && Valid()
      ensures maxEntries == if max <= 0 then 1024 else max
    {
      items, order := map[], [];
      maxEntries := if max <= 0 then DEFAULT_MAX else max;
    }

    /** Removes a key from the items, and from the array by a scan. */
    method DeleteLocked(key: string)
      requires Sound(View())
      modifies this
      ensures View() == Drop(old(View()), key)
    {
      ReverseMembers(order);
      ReverseDistinct(order);
      items := items - {key};
      for i := 0 to |order|
        invariant key !in order[..i] && order == old(order) && items == old(items) - {key}
      {
        if order[i] == key {
          ReverseWithout(order, i);
          order := order[..i] + order[i + 1..];
          return;
        }
      }
      WithoutAbsent(Reverse(order), key);
    }

    /** Moves a key to the array's end, found by a scan. */
    method TouchLocked(key: string)
      requires Sound(View()) && key in items
      modifies `order
      ensures View() == State(items, Touch(Reverse(old(order)), key))
    {
      ReverseMembers(order);
      ReverseDistinct(order);
      assert key in Elements(Reverse(order));
      for i := 0 to |order|
        invariant key !in order[..i] && order == old(order)
      {
        if order[i] == key {
          ReverseWithout(order, i);
          ReverseSnoc(order[..i] + order[i + 1..], key);
          order := order[..i] + order[i + 1..] + [key];
          return;
        }
      }
      assert false;
    }

    method Get(key: string) returns (found: Option<Item>)
      requires Valid()
      modifies this
      ensures Valid()
      ensures found == Found(old(View()), key) && View() == AfterGet(old(View()), key)
    {
      AfterGetSound(View(), key);
      ReverseMembers(order);
      if key !in items {
        return None;
      }
      TouchLocked(key);
      ReverseMembers(order);
      return Some(items[key]);
    }

    method Delete(key: string)
      requires Valid()
      modifies this
      ensures Valid()
      ensures View() == Drop(old(View()), key)
    {
      DropSound(View(), key);
      ReverseMembers(order);
      DeleteLocked(key);
      ReverseMembers(order);
    }

    /** Walks the items in any order and deletes the expired ones. */
    method DeleteExpired(now: int) returns (evicted: nat)
      requires Valid()
      modifies this
      ensures Valid()
      ensures View() == DropExpired(old(View()), now)
      ensures evicted == |set k | k in old(items) && Expired(old(items)[k], now)|
    {
      ghost var start := View();
      ghost var gone: set<string> := {};
      evicted := 0;
      var todo := items.Keys;
      WalkBegins(start, now);
      while todo != {}
        invariant Valid() && Walked(start, View(), todo, gone, now) && evicted == |gone|
        decreases todo
      {
        var k :| k in todo;
        if Expired(items[k], now) {
          WalkDrops(start, View(), todo, gone, now, k);
          Delete(k);
          evicted := evicted + 1;
          gone := gone + {k};
        }
        todo := todo - {k};
      }
      WalkEnds(start, View(), gone, now);
    }

    method Put(key: string, token: string, expiresAt: int)
      requires Valid()
      modifies this
      ensures Valid()
      ensures View() == Store(old(View()), key, Item(token, expiresAt), maxEntries)
    {
      ReverseMembers(order);
      StoreSound(View(), key, Item(token, expiresAt), maxEntries);
      if key in items {
        items := items[key := Item(token, expiresAt)];
        TouchLocked(key);
        ReverseMembers(order);
        return;
      }
      if |items| >= maxEntries {
        if |order| > 0 {
          DeleteLocked(order[0]);
        }
      }
      items := items[key := Item(token, expiresAt)];
      ReverseSnoc(order, key);
      order := order + [key];
      ReverseMembers(order);
    }
  }

  // ---------- The janitor's walk ----------

  /** Of the items at the start those in `gone` have been deleted: of those no longer to do, exactly the expired ones. */
  ghost predicate Walked(start: State, s: State, todo: set<string>, gone: set<string>, now: int) {
    && gone <= start.items.Keys && gone !! todo && todo <= s.items.Keys
    && s.items == start.items - gone
    && s.recent == Keep(start.recent, start.items.Keys - gone)
    && (forall k :: k in start.items && k !in todo ==> (k in gone <==> Expired(start.items[k], now)))
  }

  lemma WalkBegins(start: State, now: int)
    requires Sound(start)
    ensures Walked(start, start, start.items.Keys, {}, now)
  {
    assert forall k :: k in start.recent ==> k in Elements(start.recent);
    KeepAll(start.recent, start.items.Keys);
    assert start.items.Keys - {} == start.items.Keys && start.items - {} == start.items;
  }

  lemma WalkDrops(start: State, s: State, todo: set<string>, gone: set<string>, now: int, k: string)
    requires Walked(start, s, todo, gone, now) && k in todo && Expired(s.items[k], now)
    ensures Walked(start, Drop(s, k), todo - {k}, gone + {k}, now)
  {
    KeepLess(start.recent, start.items.Keys - gone, k);
    assert start.items.Keys - gone - {k} == start.items.Keys - (gone + {k});
  }

  lemma WalkEnds(start: State, s: State, gone: set<string>, now: int)
    requires Walked(start, s, {}, gone, now)
    ensures s == DropExpired(start, now)
    ensures gone == set k | k in start.items && Expired(start.items[k], now)
  {
    var kept := DropExpired(start, now).items;
    assert kept == start.items - gone;
    assert kept.Keys == start.items.Keys - gone;
  }

  // ---------- Each operation keeps items and list together ----------

  lemma AfterGetSound(s: State, key: string)
    requires Sound(s)
    ensures Sound(AfterGet(s, key)) && |AfterGet(s, key).recent| == |s.recent|
  {
    if key in s.items {
      WithoutDistinct(s.recent, key);
      WithoutMembers(s.recent, key);
      assert Elements(Touch(s.recent, key)) == s.items.Keys;
      DistinctSize(s.recent);
      DistinctSize(Touch(s.recent, key));
    }
  }

  lemma DropSound(s: State, key: string)
    requires Sound(s)
    ensures Sound(Drop(s, key)) && |Drop(s, key).recent| <= |s.recent|
    ensures key in s.items ==> |Drop(s, key).recent| == |s.recent| - 1
  {
    WithoutDistinct(s.recent, key);
    WithoutMembers(s.recent, key);
    assert Elements(Without(s.recent, key)) == s.items.Keys - {key};
    DistinctSize(s.recent);
    DistinctSize(Without(s.recent, key));
  }

  lemma MakeRoomSound(s: State, max: int)
    requires Sound(s) && max > 0 && |s.recent| <= max
    ensures Sound(MakeRoom(s, max)) && |MakeRoom(s, max).recent| < max
    ensures MakeRoom(s, max).items.Keys <= s.items.Keys
    ensures MakeRoom(s, max).recent == Take(s.recent, max - 1)
  {
    DistinctSize(s.recent);
    if |s.items| >= max && s.recent != [] {
      var last := s.recent[|s.recent| - 1];
      assert last in Elements(s.recent);
      DropSound(s, last);
      WithoutAt(s.recent, |s.recent| - 1);
    }
  }

  lemma StoreSound(s: State, key: string, item: Item, max: int)
    requires Sound(s) && max > 0 && |s.recent| <= max
    ensures Sound(Store(s, key, item, max)) && |Store(s, key, item, max).recent| <= max
  {
    if key in s.items {
      AfterGetSound(s, key);
    } else {
      MakeRoomSound(s, max);
      InsertSound(MakeRoom(s, max), key, item);
    }
  }

  lemma InsertSound(s: State, key: string, item: Item)
    requires Sound(s) && key !in s.items
    ensures Sound(State(s.items[key := item], [key] + s.recent))
  {
    assert key !in Elements(s.recent);
    assert Elements([key] + s.recent) == Elements(s.recent) + {key};
  }

  lemma DropExpiredSound(s: State, now: int)
    requires Sound(s)
    ensures Sound(DropExpired(s, now)) && |DropExpired(s, now).recent| <= |s.recent|
  {
    var kept := DropExpired(s, now).items;
    KeepMembers(s.recent, kept.Keys);
    KeepShorter(s.recent, kept.Keys);
    assert Elements(Keep(s.recent, kept.Keys)) == kept.Keys;
  }

  // ---------- Runs ----------

  datatype Op = Get(key: string) | Put(key: string, item: Item) | Delete(key: string) | Expire(now: int)

  function Step(s: State, op: Op, max: int): State {
    match op
    case Get(k) => AfterGet(s, k)
    case Put(k, item) => Store(s, k, item, max)
    case Delete(k) => Drop(s, k)
    case Expire(now) => DropExpired(s, now)
  }

  function Run(ops: seq<Op>, max: int): State {
    if ops == [] then Empty else Step(Run(ops[..|ops| - 1], max), ops[|ops| - 1], max)
  }

  /** The keys put, and those a Get hit, in order. */
  function Uses(ops: seq<Op>, max: int): seq<string> {
    if ops == [] then []
    else
      var before := ops[..|ops| - 1];
      var last := ops[|ops| - 1];
      if last.Put? || (last.Get? && last.key in Run(before, max).items) then Uses(before, max) + [last.key]
      else Uses(before, max)
  }

  /** The latest token put under a key, unless it has been deleted or has expired under a janitor since. */
  function Latest(ops: seq<Op>, key: string): Option<Item> {
    if ops == [] then None
    else
      var before := Latest(ops[..|ops| - 1], key);
      match ops[|ops| - 1]
      case Get(_) => before
      case Put(k, item) => if k == key then Some(item) else before
      case Delete(k) => if k == key then None else before
      case Expire(now) =>
        if before.Some? && before.value.expiresAt != 0 && now > before.value.expiresAt then None else before
  }

  lemma StepSound(s: State, op: Op, max: int)
    requires Sound(s) && max > 0 && |s.recent| <= max
    ensures Sound(Step(s, op, max)) && |Step(s, op, max).recent| <= max
  {
    match op
    case Get(k) => AfterGetSound(s, k);
    case Put(k, item) => StoreSound(s, k, item, max);
    case Delete(k) => DropSound(s, k);
    case Expire(now) => DropExpiredSound(s, now);
  }

  /** In every run the recency list is a duplicate-free listing of the cached keys, no longer than the bound. */
  lemma {:induction false} EveryRunIsSound(ops: seq<Op>, max: int)
    requires max > 0
    ensures Sound(Run(ops, max)) && |Run(ops, max).recent| <= max && |Run(ops, max).items| <= max
  {
    if ops == [] {
      assert Elements<string>([]) == {};
    } else {
      EveryRunIsSound(ops[..|ops| - 1], max);
      StepSound(Run(ops[..|ops| - 1], max), ops[|ops| - 1], max);
    }
    DistinctSize(Run(ops, max).recent);
  }

  // ---------- What the cache may hold: nothing old, nothing deleted ----------

  /** A cached token is the latest one put under its key, and has not been deleted since. */
  lemma {:induction false} HitIsLatest(ops: seq<Op>, max: int, key: string)
    requires key in Run(ops, max).items
    ensures Latest(ops, key) == Some(Run(ops, max).items[key])
  {
    if ops != [] {
      var before := ops[..|ops| - 1];
      if key in Run(before, max).items {
        HitIsLatest(before, max, key);
      }
    }
  }

  // ---------- What the cache must hold ----------

  lemma StoreUsedSince(s: State, uses: seq<string>, key: string, item: Item, max: int)
    requires Sound(s) && max > 0 && |s.recent| <= max && UsedSince(s.recent, uses)
    ensures UsedSince(Store(s, key, item, max).recent, uses + [key])
  {
    if key in s.items {
      UsedSinceTouch(s.recent, uses, key);
    } else {
      MakeRoomSound(s, max);
      assert key !in Elements(s.recent);
      UsedSinceCons(MakeRoom(s, max).recent, uses, key);
    }
  }

  lemma {:induction false} EveryRunUsedSince(ops: seq<Op>, max: int)
    requires max > 0
    ensures UsedSince(Run(ops, max).recent, Uses(ops, max))
  {
    if ops != [] {
      var before := ops[..|ops| - 1];
      var s := Run(before, max);
      EveryRunUsedSince(before, max);
      EveryRunIsSound(before, max);
      match ops[|ops| - 1] {
        case Get(k) =>
          if k in s.items {
            UsedSinceTouch(s.recent, Uses(before, max), k);
          }
        case Put(k, item) => StoreUsedSince(s, Uses(before, max), k, item, max);
        case Delete(k) => UsedSinceWithout(s.recent, Uses(before, max), k);
        case Expire(now) => UsedSinceKeep(s.recent, Uses(before, max), DropExpired(s, now).items.Keys);
      }
    }
  }

  /** The key evicted at the bound had at least max - 1 other keys used since its own last use. */
  lemma EvictedHadEnough(s: State, uses: seq<string>, max: int, key: string)
    requires Sound(s) && max > 0 && |s.recent| <= max && UsedSince(s.recent, uses)
    requires key in s.items && key !in MakeRoom(s, max).items
    ensures SinceLast(uses, key) >= s.items.Keys - {key} && |s.items| == max
  {
    var n := |s.recent| - 1;
    DistinctSize(s.recent);
    assert key == s.recent[n];
    forall k | k in s.items.Keys - {key} ensures k in SinceLast(uses, key) {
      assert k in Elements(s.recent);
      var i :| 0 <= i < |s.recent| && s.recent[i] == k;
    }
  }

  lemma PutKeepsOthers(s: State, uses: seq<string>, max: int, key: string, item: Item, other: string)
    requires Sound(s) && max > 0 && |s.recent| <= max && UsedSince(s.recent, uses)
    requires other in s.items && other != key && |SinceLast(uses + [key], other)| < max
    ensures other in Store(s, key, item, max).items && Store(s, key, item, max).items[other] == s.items[other]
  {
    if key !in s.items && other !in MakeRoom(s, max).items {
      EvictedHadEnough(s, uses, max, other);
      SinceSnoc(uses, key);
      var others := s.items.Keys - {other} + {key};
      assert |others| == max;
      SubsetSize(others, SinceLast(uses + [key], other));
    }
  }

  lemma SinceGrows(uses: seq<string>, k: string, x: string)
    requires k != x
    ensures |SinceLast(uses, x)| <= |SinceLast(uses + [k], x)|
  {
    SinceSnoc(uses, k);
    SubsetSize(SinceLast(uses, x), SinceLast(uses + [k], x));
  }

  /**
   * No token is lost early: in every run, deletions and expiries included, a token that was put and not
   * deleted since is still cached as long as fewer than max other keys were put or hit since its own last use.
   */
  lemma {:induction false} NoTokenIsLostEarly(ops: seq<Op>, max: int, key: string)
    requires max > 0 && Latest(ops, key).Some? && |SinceLast(Uses(ops, max), key)| < max
    ensures Found(Run(ops, max), key) == Latest(ops, key)
  {
    var before := ops[..|ops| - 1];
    var last := ops[|ops| - 1];
    var s := Run(before, max);
    EveryRunIsSound(before, max);
    EveryRunUsedSince(before, max);
    if !(last.Put? && last.key == key) {
      if key in s.items {
        HitIsLatest(before, max, key);
      } else {
        if Uses(ops, max) != Uses(before, max) {
          SinceGrows(Uses(before, max), last.key, key);
        }
        NoTokenIsLostEarly(before, max, key);
      }
      if last.Put? {
        PutKeepsOthers(s, Uses(before, max), max, last.key, last.item, key);
      }
    }
  }

  // ---------- Without deletions, exactly ----------

  predicate NoDeletes(ops: seq<Op>) {
    forall op :: op in ops ==> op.Get? || op.Put?
  }

  lemma StoreIsTouch(s: State, key: string, item: Item, max: int)
    requires Sound(s) && max > 0 && |s.recent| <= max
    ensures Store(s, key, item, max).recent == Take(Touch(s.recent, key), max)
  {
    if key in s.items {
      AfterGetSound(s, key);
    } else {
      MakeRoomSound(s, max);
      assert key !in Elements(s.recent);
      WithoutAbsent(s.recent, key);
      ConsTake(s.recent, key, max);
    }
  }

  lemma ConsTake(s: seq<string>, k: string, cap: nat)
    requires cap > 0
    ensures [k] + Take(s, cap - 1) == Take([k] + s, cap)
  {
  }

  lemma UseTruncated(s: State, uses: seq<string>, key: string, max: int)
    requires max > 0 && s.recent == Take(Recent(uses), max)
    ensures Take(Touch(s.recent, key), max) == Take(Recent(uses + [key]), max)
  {
    RecentSound(uses);
    TouchTruncated(Recent(uses), key, max);
    assert (uses + [key])[..|uses|] == uses;
  }

  lemma {:induction false} ListIsRecentUses(ops: seq<Op>, max: int)
    requires max > 0 && NoDeletes(ops)
    ensures Run(ops, max).recent == Take(Recent(Uses(ops, max)), max)
  {
    if ops != [] {
      var before := ops[..|ops| - 1];
      var last := ops[|ops| - 1];
      var s := Run(before, max);
      ListIsRecentUses(before, max);
      EveryRunIsSound(before, max);
      UseTruncated(s, Uses(before, max), last.key, max);
      if last.Put? {
        StoreIsTouch(s, last.key, last.item, max);
      } else if last.key in s.items {
        AfterGetSound(s, last.key);
      }
    }
  }

  /** The keys used are the ones put. */
  lemma {:induction false} UsedWerePut(ops: seq<Op>, max: int)
    requires max > 0 && NoDeletes(ops)
    ensures forall k :: k in Uses(ops, max) <==> Latest(ops, k).Some?
  {
    if ops != [] {
      var before := ops[..|ops| - 1];
      UsedWerePut(before, max);
      if ops[|ops| - 1].Get? && ops[|ops| - 1].key in Run(before, max).items {
        HitIsLatest(before, max, ops[|ops| - 1].key);
      }
    }
  }

  /**
   * Without deletions the cache is an exact LRU: a Get hits exactly when the key was put and fewer than max
   * other keys were put or hit since its own last use, and it returns the token put last.
   */
  lemma GetHitsExactly(ops: seq<Op>, max: int, key: string)
    requires max > 0 && NoDeletes(ops)
    ensures Found(Run(ops, max), key) ==
            if |SinceLast(Uses(ops, max), key)| < max then Latest(ops, key) else None
  {
    ListIsRecentUses(ops, max);
    UsedWerePut(ops, max);
    EveryRunIsSound(ops, max);
    KeptExactlyWhenRecent(Uses(ops, max), key, max);
    assert key in Elements(Run(ops, max).recent) <==> key in Run(ops, max).items;
    if key in Run(ops, max).items {
      HitIsLatest(ops, max, key);
    }
  }
}
