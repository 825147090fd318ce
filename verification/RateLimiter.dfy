/**
 * The sliding-window limiter of the reply gate: its map of buckets and its recency list,
 * changed in place, and the one-step functions they are verified against.
 * Times are nanoseconds since the zero time.
 */
module RateLimiter {
  import opened Common
  import opened Recency

  const WINDOW := 60_000_000_000
  const GRACE := 2 * WINDOW
  const MAX_BUCKETS := 10_000
  const DEFAULT_LIMIT := 60

  datatype Bucket = Bucket(windowStart: int, count: int, prev: int)

  datatype State = State(buckets: map<string, Bucket>, lru: seq<string>)

  const Empty := State(map[], [])

  /** Signed 64-bit wrap-around, the width the decision is computed in. */
  function Wrap64(x: int): int {
    (x + 0x8000_0000_0000_0000) % 0x1_0000_0000_0000_0000 - 0x8000_0000_0000_0000
  }

  /** Start of the window a time falls in. */
  function Aligned(now: nat): nat {
    now - now % WINDOW
  }

  function Effective(limit: int): int {
    if limit <= 0 then DEFAULT_LIMIT else limit
  }

  /** The bucket moved to the window starting at `start`. */
  function Rolled(b: Bucket, start: int): Bucket {
    if start == b.windowStart then b
    else if start - b.windowStart == WINDOW then Bucket(start, 0, b.count)
    else Bucket(start, 0, 0)
  }

  function Elapsed(b: Bucket, now: int): int {
    Max(0, Min(now - b.windowStart, WINDOW))
  }

  /** What the bucket already weighs: its own window in full, the one before by the part still inside the last minute. */
  function Load(b: Bucket, now: int): int {
    b.count * WINDOW + b.prev * (WINDOW - Elapsed(b, now))
  }

  predicate Admits(b: Bucket, now: int, limit: int) {
    Wrap64(Load(b, now) + WINDOW) <= Wrap64(limit * WINDOW)
  }

  function Counted(b: Bucket, ok: bool): Bucket {
    if ok then b.(count := b.count + 1) else b
  }

  function Evict(s: State): State {
    if s.lru == [] then s
    else State(s.buckets - {s.lru[|s.lru| - 1]}, s.lru[..|s.lru| - 1])
  }

  /** The bucket a call decides on: the key's own, rolled, or a new one. */
  function BucketFor(buckets: map<string, Bucket>, key: string, now: nat): Bucket {
    if key in buckets then Rolled(buckets[key], Aligned(now)) else Bucket(Aligned(now), 0, 0)
  }

  function Verdict(buckets: map<string, Bucket>, key: string, now: nat, limit: int): bool {
    Admits(BucketFor(buckets, key, now), now, Effective(limit))
  }

  /** The key's bucket rolled, or made after dropping the least recently used one at the cap, and moved to the front. */
  function Placed(s: State, key: string, now: nat): State {
    var b := BucketFor(s.buckets, key, now);
    if key in s.buckets then State(s.buckets[key := b], Touch(s.lru, key))
    else
      var s1 := if |s.lru| >= MAX_BUCKETS then Evict(s) else s;
      State(s1.buckets[key := b], [key] + s1.lru)
  }

  function Allow(s: State, key: string, now: nat, limit: int): State {
    var b := Counted(BucketFor(s.buckets, key, now), Verdict(s.buckets, key, now, limit));
    var s1 := Placed(s, key, now);
    State(s1.buckets[key := b], s1.lru)
  }

  predicate Stale(b: Bucket, now: nat) {
    now - b.windowStart >= GRACE
  }

  /** The janitor's pass: stale buckets go, in the map and in the list. */
  function Sweep(s: State, now: nat): State {
    var kept := map k | k in s.buckets && !Stale(s.buckets[k], now) :: s.buckets[k];
    State(kept, Keep(s.lru, kept.Keys))
  }

  /** Map and list hold the same keys, the list each once. */
  ghost predicate Sound(s: State) {
    Distinct(s.lru) && Elements(s.lru) == s.buckets.Keys
  }

  function KeyOf(orgID: string, replyType: string): string {
    orgID + "|" + replyType
  }

  /** As long as organisation ids contain no bar, each (organisation, type) pair has its own bucket. */
  lemma {:induction false} KeysAreInjective(orgA: string, typeA: string, orgB: string, typeB: string)
    requires '|' !in orgA && '|' !in orgB
    requires KeyOf(orgA, typeA) == KeyOf(orgB, typeB)
    ensures orgA == orgB && typeA == typeB
  {
    var a, b := KeyOf(orgA, typeA), KeyOf(orgB, typeB);
    assert a[0] == (if orgA == "" then '|' else orgA[0]);
    assert b[0] == (if orgB == "" then '|' else orgB[0]);
    if orgA == "" {
      assert orgB == "";
      assert typeA == a[1..] && typeB == b[1..];
    } else {
      assert orgB != "";
      assert a[1..] == KeyOf(orgA[1..], typeA) && b[1..] == KeyOf(orgB[1..], typeB);
      KeysAreInjective(orgA[1..], typeA, orgB[1..], typeB);
    }
  }

  // ---------- Each operation keeps map and list together ----------

  lemma TouchSound(s: State, key: string, b: Bucket)
    requires Sound(s) && key in s.buckets
    ensures Sound(State(s.buckets[key := b], Touch(s.lru, key))) && |Touch(s.lru, key)| == |s.lru|
  {
    WithoutDistinct(s.lru, key);
    WithoutMembers(s.lru, key);
    assert key in Elements(s.lru);
    var i :| 0 <= i < |s.lru| && s.lru[i] == key;
    WithoutAt(s.lru, i);
    assert Elements(Touch(s.lru, key)) == Elements(s.lru);
  }

  lemma InsertSound(s: State, key: string, b: Bucket)
    requires Sound(s) && key !in s.buckets
    ensures Sound(State(s.buckets[key := b], [key] + s.lru))
  {
    assert key !in Elements(s.lru);
    assert Elements([key] + s.lru) == {key} + Elements(s.lru);
  }

  lemma PlacedSound(s: State, key: string, now: nat)
    requires Sound(s)
    ensures Sound(Placed(s, key, now)) && key in Placed(s, key, now).buckets
    ensures |s.lru| <= MAX_BUCKETS ==> |Placed(s, key, now).lru| <= MAX_BUCKETS
  {
    var b := BucketFor(s.buckets, key, now);
    if key in s.buckets {
      TouchSound(s, key, b);
    } else {
      EvictSound(s);
      InsertSound(if |s.lru| >= MAX_BUCKETS then Evict(s) else s, key, b);
    }
  }

  lemma AllowSound(s: State, key: string, now: nat, limit: int)
    requires Sound(s)
    ensures Sound(Allow(s, key, now, limit))
    ensures |s.lru| <= MAX_BUCKETS ==> |Allow(s, key, now, limit).lru| <= MAX_BUCKETS
  {
    PlacedSound(s, key, now);
    assert Allow(s, key, now, limit).buckets.Keys == Placed(s, key, now).buckets.Keys;
  }

  /** Eviction drops the least recently used bucket, and only it. */
  lemma EvictSound(s: State)
    requires Sound(s)
    ensures Sound(Evict(s))
    ensures s.lru != [] ==> var k := s.lru[|s.lru| - 1]; k in s.buckets && Evict(s).buckets == s.buckets - {k}
    ensures s.lru == [] ==> Evict(s) == s
  {
    if s.lru != [] {
      var n := |s.lru| - 1;
      assert s.lru == s.lru[..n] + [s.lru[n]];
      assert s.lru[n] in Elements(s.lru);
      assert Elements(s.lru[..n]) == Elements(s.lru) - {s.lru[n]};
    }
  }

  lemma SweepSound(s: State, now: nat)
    requires Sound(s)
    ensures Sound(Sweep(s, now)) && |Sweep(s, now).lru| <= |s.lru|
  {
    var kept := Sweep(s, now).buckets;
    KeepMembers(s.lru, kept.Keys);
    assert Elements(Keep(s.lru, kept.Keys)) == kept.Keys;
    KeepShorter(s.lru, kept.Keys);
  }

  /**
   * The janitor drops exactly the buckets whose window began two minutes ago or earlier; the others keep their
   * counts and their order.
   */
  lemma SweepExactly(s: State, now: nat, key: string)
    requires Sound(s)
    ensures var s' := Sweep(s, now);
      && (key in s'.buckets <==> key in s.buckets && now - s.buckets[key].windowStart < 120_000_000_000)
      && (key in s'.buckets ==> s'.buckets[key] == s.buckets[key])
      && (key in s'.lru <==> key in s'.buckets) && s'.lru == Keep(s.lru, Elements(s'.lru))
  {
    KeepMembers(s.lru, Sweep(s, now).buckets.Keys);
    SweepSound(s, now);
    assert key in Elements(Sweep(s, now).lru) <==> key in Sweep(s, now).lru;
  }

  // ---------- The janitor's walk ----------

  /** Of the buckets no longer to do, exactly the stale ones are gone. */
  ghost predicate Swept(before: State, s: State, todo: set<string>, now: nat) {
    && s.buckets.Keys <= before.buckets.Keys && (forall k :: k in s.buckets ==> s.buckets[k] == before.buckets[k])
    && (forall k :: k in before.buckets && k !in todo ==> (k in s.buckets <==> !Stale(before.buckets[k], now)))
    && s.lru == Keep(before.lru, s.buckets.Keys)
  }

  lemma SweptOne(before: State, s: State, todo: set<string>, now: nat, k: string)
    requires Swept(before, s, todo + {k}, now) && k in s.buckets && Stale(s.buckets[k], now)
    ensures Swept(before, State(s.buckets - {k}, Without(s.lru, k)), todo, now)
  {
    KeepLess(before.lru, s.buckets.Keys, k);
    assert (s.buckets - {k}).Keys == s.buckets.Keys - {k};
  }

  // ---------- The limiter itself ----------

  class Limiter {
    var buckets: map<string, Bucket>
    var lru: seq<string>

    function View(): State
      reads this
    {
      State(buckets, lru)
    }

    ghost predicate Valid()
      reads this
    {
      Sound(View()) && |lru| <= MAX_BUCKETS
    }

    constructor ()
      ensures View() == Empty && Valid()
    {
      buckets, lru := map[], [];
    }

    /** Drops the tail of the list, and its bucket. */
    method EvictOldest()
      requires Sound(View())
      modifies this
      ensures View() == Evict(old(View()))
    {
      if |lru| == 0 {
        return;
      }
      var tail := lru[|lru| - 1];
      buckets := buckets - {tail};
      lru := lru[..|lru| - 1];
    }

    /** Moves a listed key to the front, found by walking the list. */
    method MoveToFront(key: string)
      requires Distinct(lru) && key in lru
      modifies `lru
      ensures lru == Touch(old(lru), key)
    {
      var i := 0;
      while lru[i] != key
        invariant 0 <= i < |lru|
        invariant key in lru[i..]
        invariant lru == old(lru)
        decreases |lru| - i
      {
        assert lru[i..] == [lru[i]] + lru[i + 1..];
        i := i + 1;
      }
      WithoutAt(lru, i);
      lru := [key] + lru[..i] + lru[i + 1..];
    }

    /** Rolls a bucket's window forward if needed. */
    method Roll(b: Bucket, start: int) returns (b': Bucket)
      ensures b' == Rolled(b, start)
    {
      b' := b;
      if start == b.windowStart {
      } else if start - b.windowStart == WINDOW {
        b' := b'.(prev := b'.count);
        b' := b'.(count := 0);
        b' := b'.(windowStart := start);
      } else {
        b' := b'.(prev := 0);
        b' := b'.(count := 0);
        b' := b'.(windowStart := start);
      }
    }

    method Decide(b: Bucket, now: int, limit: int) returns (ok: bool)
      ensures ok == Admits(b, now, limit)
    {
      var elapsed := now - b.windowStart;
      if elapsed < 0 {
        elapsed := 0;
      } else if elapsed > WINDOW {
        elapsed := WINDOW;
      }
      var scaledEffective := b.count * WINDOW + b.prev * (WINDOW - elapsed);
      var scaledLimit := limit * WINDOW;
      ok := !(Wrap64(scaledEffective + WINDOW) > Wrap64(scaledLimit));
    }

    /** Finds or makes the bucket of a key, rolls it to the current window and marks it most recently used. */
    method Place(key: string, now: nat) returns (b: Bucket)
      requires Valid()
      modifies this
      ensures View() == Placed(old(View()), key, now)
      ensures b == BucketFor(old(buckets), key, now)
    {
      var start := Aligned(now);
      if key in buckets {
        assert key in Elements(lru);
        MoveToFront(key);
        b := Roll(buckets[key], start);
      } else {
        if |lru| >= MAX_BUCKETS {
          EvictOldest();
        }
        b := Bucket(start, 0, 0);
        lru := [key] + lru;
      }
      buckets := buckets[key := b];
    }

    method AllowCall(orgID: string, replyType: string, limit: int, now: nat) returns (ok: bool)
      requires Valid()
      modifies this
      ensures Valid()
      ensures ok == Verdict(old(buckets), KeyOf(orgID, replyType), now, limit)
      ensures View() == Allow(old(View()), KeyOf(orgID, replyType), now, limit)
    {
      var limit' := limit;
      if limit' <= 0 {
        limit' := DEFAULT_LIMIT;
      }
      var key := KeyOf(orgID, replyType);
      AllowSound(View(), key, now, limit);
      var b := Place(key, now);
      ok := Decide(b, now, limit');
      if ok {
        buckets := buckets[key := b.(count := b.count + 1)];
      }
    }

    /** Walks the buckets in any order and drops the stale ones. */
    method SweepOnce(now: nat)
      requires Valid()
      modifies this
      ensures Valid()
      ensures View() == Sweep(old(View()), now)
    {
      ghost var before := View();
      SweepSound(before, now);
      KeepAll(lru, buckets.Keys);
      var todo := buckets.Keys;
      while todo != {}
        invariant todo <= buckets.Keys && Swept(before, View(), todo, now)
        decreases todo
      {
        var k :| k in todo;
        var b := buckets[k];
        todo := todo - {k};
        if now - b.windowStart >= GRACE {
          SweptOne(before, View(), todo, now, k);
          buckets := buckets - {k};
          lru := Without(lru, k);
        }
      }
      assert buckets == Sweep(before, now).buckets;
    }
  }
}
