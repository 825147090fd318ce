/**
 * The limiter over whole runs: the swept and capped limiter gives the verdicts of one that never drops
 * a bucket; those verdicts are a closed form over the calls admitted so far; and no interval of up to
 * a window admits more than the advertised burst.
 */
module LimiterRuns {
  import opened Common
  import opened Recency
  import opened RateLimiter

  datatype Op = Call(key: string, now: nat, limit: int) | Janitor(now: nat)

  /** A call and its verdict. */
  datatype Outcome = Outcome(key: string, now: nat, limit: int, ok: bool)

  /** The clock read under the lock never runs backwards. */
  predicate Timed(ops: seq<Op>) {
    forall i, j :: 0 <= i < j < |ops| ==> ops[i].now <= ops[j].now
  }

  function Keys(ops: seq<Op>): set<string> {
    set i | 0 <= i < |ops| && ops[i].Call? :: ops[i].key
  }

  /** The calls a minute a limit stands for: sixty unless it is set. */
  function PerMinute(limit: int): int {
    if limit <= 0 then 60 else limit
  }

  // ---------- The real limiter and the one that never drops a bucket ----------

  function Step(s: State, op: Op): State {
    match op
    case Call(key, now, limit) => Allow(s, key, now, limit)
    case Janitor(now) => Sweep(s, now)
  }

  /** The outcome an operation adds to the history, decided on the given buckets. */
  function Outcomes(buckets: map<string, Bucket>, op: Op): seq<Outcome> {
    match op
    case Call(key, now, limit) => [Outcome(key, now, limit, Verdict(buckets, key, now, limit))]
    case Janitor(_) => []
  }

  function PlainStep(p: map<string, Bucket>, op: Op): map<string, Bucket> {
    match op
    case Call(key, now, limit) => p[key := Counted(BucketFor(p, key, now), Verdict(p, key, now, limit))]
    case Janitor(_) => p
  }

  function Run(ops: seq<Op>): (State, seq<Outcome>) {
    if ops == [] then (Empty, [])
    else
      var (s, h) := Run(ops[..|ops| - 1]);
      (Step(s, ops[|ops| - 1]), h + Outcomes(s.buckets, ops[|ops| - 1]))
  }

  function PlainRun(ops: seq<Op>): (map<string, Bucket>, seq<Outcome>) {
    if ops == [] then (map[], [])
    else
      var (p, h) := PlainRun(ops[..|ops| - 1]);
      (PlainStep(p, ops[|ops| - 1]), h + Outcomes(p, ops[|ops| - 1]))
  }

  ghost predicate AlignedBucket(b: Bucket, clock: nat) {
    0 <= b.windowStart <= clock && b.windowStart % WINDOW == 0
  }

  /** The keys called, in order. */
  function Uses(ops: seq<Op>): seq<string> {
    if ops == [] then []
    else if ops[|ops| - 1].Call? then Uses(ops[..|ops| - 1]) + [ops[|ops| - 1].key]
    else Uses(ops[..|ops| - 1])
  }

  /** Between two uses of the key fewer other keys are used than the cap. */
  ghost predicate KeptInUse(ops: seq<Op>, key: string) {
    forall i: nat :: i < |ops| && ops[i].Call? && ops[i].key == key && key in Uses(ops[..i]) ==>
      |SinceLast(Uses(ops[..i]), key)| < 10_000
  }

  /** At no time have as many other keys as the cap been used since the key's own last use. */
  ghost predicate AlwaysInUse(ops: seq<Op>, key: string) {
    forall i: nat :: i <= |ops| && key in Uses(ops[..i]) ==> |SinceLast(Uses(ops[..i]), key)| < MAX_BUCKETS
  }

  /** As far as one key goes, the real limiter holds the plain bucket, or none while that is stale by now. */
  ghost predicate Simulates(s: State, p: map<string, Bucket>, clock: nat, key: string) {
    && Sound(s) && |s.lru| <= MAX_BUCKETS
    && (key in p ==> AlignedBucket(p[key], clock))
    && (key in s.buckets ==> key in p && s.buckets[key] == p[key])
    && (key in p && key !in s.buckets ==> Stale(p[key], clock))
  }

  /** Two histories of the same calls, with the same verdicts for one key. */
  ghost predicate AgreeOn(h: seq<Outcome>, h': seq<Outcome>, key: string) {
    && |h| == |h'|
    && forall i :: 0 <= i < |h| ==>
         && h[i].key == h'[i].key && h[i].now == h'[i].now && h[i].limit == h'[i].limit
         && (h[i].key == key ==> h[i].ok == h'[i].ok)
  }

  lemma AlignedFacts(now: nat)
    ensures 0 <= Aligned(now) <= now < Aligned(now) + WINDOW && Aligned(now) % WINDOW == 0
  {
  }

  /** A stale bucket rolls to an empty one. */
  lemma StaleRollsEmpty(b: Bucket, now: nat)
    requires Stale(b, now)
    ensures Rolled(b, Aligned(now)) == Bucket(Aligned(now), 0, 0)
  {
    AlignedFacts(now);
  }

  lemma SameBucket(s: State, p: map<string, Bucket>, clock: nat, key: string, now: nat)
    requires Simulates(s, p, clock, key) && clock <= now
    ensures BucketFor(s.buckets, key, now) == BucketFor(p, key, now)
    ensures AlignedBucket(BucketFor(p, key, now), now)
  {
    AlignedFacts(now);
    if key in p && key !in s.buckets {
      StaleRollsEmpty(p[key], now);
    }
  }

  /** A call of another key leaves the key's bucket alone, unless it evicts it. */
  lemma OtherCall(s: State, key: string, other: string, now: nat, limit: int)
    requires Sound(s) && |s.lru| <= MAX_BUCKETS && other != key
    requires key in s.buckets && other !in s.buckets ==> key in (if |s.lru| >= MAX_BUCKETS then Evict(s) else s).buckets
    ensures var s' := Allow(s, other, now, limit);
      (key in s'.buckets <==> key in s.buckets) && (key in s.buckets ==> s'.buckets[key] == s.buckets[key])
  {
    EvictSound(s);
  }

  lemma CallSimulates(s: State, p: map<string, Bucket>, clock: nat, op: Op, key: string)
    requires Simulates(s, p, clock, key) && clock <= op.now && op.Call?
    requires key in s.buckets && op.key !in s.buckets ==> key in (if |s.lru| >= MAX_BUCKETS then Evict(s) else s).buckets
    ensures Simulates(Step(s, op), PlainStep(p, op), op.now, key)
  {
    AllowSound(s, op.key, op.now, op.limit);
    if op.key == key {
      SameBucket(s, p, clock, key, op.now);
    } else {
      OtherCall(s, key, op.key, op.now, op.limit);
    }
  }

  lemma SweepSimulates(s: State, p: map<string, Bucket>, clock: nat, now: nat, key: string)
    requires Simulates(s, p, clock, key) && clock <= now
    ensures Simulates(Sweep(s, now), p, now, key)
  {
    SweepSound(s, now);
  }

  // ---------- A key in use is never evicted ----------

  lemma {:induction false} EveryRunUsedSince(ops: seq<Op>)
    ensures Sound(Run(ops).0) && |Run(ops).0.lru| <= MAX_BUCKETS
    ensures UsedSince(Run(ops).0.lru, Uses(ops))
    ensures forall k :: k in Run(ops).0.buckets ==> k in Uses(ops)
  {
    if ops == [] {
      assert Elements<string>([]) == {};
    } else {
      var before := ops[..|ops| - 1];
      var last := ops[|ops| - 1];
      var s := Run(before).0;
      EveryRunUsedSince(before);
      match last {
        case Call(key, now, limit) =>
          AllowSound(s, key, now, limit);
          AllowIsTouch(s, key, now, limit);
          UsedSinceTouch(s.lru, Uses(before), key);
          assert Allow(s, key, now, limit).buckets.Keys <= s.buckets.Keys + {key} by {
            EvictSound(s);
          }
        case Janitor(now) =>
          SweepSound(s, now);
          UsedSinceKeep(s.lru, Uses(before), Sweep(s, now).buckets.Keys);
      }
    }
  }

  /** The key an eviction drops has had as many other keys used since as the cap allows, the new one included. */
  lemma EvictedHadEnough(s: State, uses: seq<string>, key: string, other: string)
    requires Sound(s) && |s.lru| == MAX_BUCKETS && UsedSince(s.lru, uses)
    requires other !in s.buckets && key in s.buckets && key !in Evict(s).buckets
    ensures |SinceLast(uses + [other], key)| >= MAX_BUCKETS
  {
    var n := |s.lru| - 1;
    EvictSound(s);
    DistinctSize(s.lru);
    assert key == s.lru[n];
    var others := s.buckets.Keys - {key} + {other};
    SinceSnoc(uses, other);
    forall k | k in s.buckets.Keys - {key} ensures k in SinceLast(uses, key) {
      assert k in Elements(s.lru);
      var i :| 0 <= i < |s.lru| && s.lru[i] == k;
    }
    assert |others| == MAX_BUCKETS;
    SubsetSize(others, SinceLast(uses + [other], key));
  }

  lemma InUseStays(ops: seq<Op>, key: string)
    requires ops != [] && AlwaysInUse(ops, key) && ops[|ops| - 1].Call?
    ensures var s := Run(ops[..|ops| - 1]).0;
      key in s.buckets && ops[|ops| - 1].key !in s.buckets ==>
        key in (if |s.lru| >= MAX_BUCKETS then Evict(s) else s).buckets
  {
    var before := ops[..|ops| - 1];
    var other := ops[|ops| - 1].key;
    var s := Run(before).0;
    EveryRunUsedSince(before);
    assert ops[..|ops|] == ops && Uses(ops) == Uses(before) + [other];
    assert key in s.buckets ==> key in Uses(ops);
    if key in s.buckets && other !in s.buckets && |s.lru| >= MAX_BUCKETS && key !in Evict(s).buckets {
      EvictedHadEnough(s, Uses(before), key, other);
    }
  }

  lemma InUsePrefix(ops: seq<Op>, key: string)
    requires ops != []
    ensures AlwaysInUse(ops, key) ==> AlwaysInUse(ops[..|ops| - 1], key)
    ensures KeptInUse(ops, key) ==> KeptInUse(ops[..|ops| - 1], key)
  {
    var before := ops[..|ops| - 1];
    forall i: nat | i <= |before| ensures before[..i] == ops[..i] {
    }
  }

  /** While the key has a use still to come, fewer other keys than the cap have been used since its last one. */
  lemma {:induction false} InUseUntilCalled(ops: seq<Op>, key: string, i: nat)
    requires ops != [] && ops[|ops| - 1].Call? && ops[|ops| - 1].key == key && KeptInUse(ops, key)
    requires i < |ops| && key in Uses(ops[..i])
    ensures |SinceLast(Uses(ops[..i]), key)| < MAX_BUCKETS
    decreases |ops| - i
  {
    if !(ops[i].Call? && ops[i].key == key) {
      assert ops[..i + 1][..i] == ops[..i];
      InUseUntilCalled(ops, key, i + 1);
      if ops[i].Call? {
        SinceSnocAny(Uses(ops[..i]), ops[i].key, key);
        SubsetSize(SinceLast(Uses(ops[..i]), key), SinceLast(Uses(ops[..i + 1]), key));
      }
    }
  }

  lemma InUseBeforeCall(ops: seq<Op>, key: string)
    requires ops != [] && ops[|ops| - 1].Call? && ops[|ops| - 1].key == key && KeptInUse(ops, key)
    ensures AlwaysInUse(ops[..|ops| - 1], key)
  {
    var before := ops[..|ops| - 1];
    forall i: nat | i <= |before| && key in Uses(before[..i]) ensures |SinceLast(Uses(before[..i]), key)| < MAX_BUCKETS {
      assert before[..i] == ops[..i];
      InUseUntilCalled(ops, key, i);
    }
  }

  lemma SinceSnocAny(uses: seq<string>, k: string, x: string)
    ensures SinceLast(uses + [k], x) == if k == x then {} else SinceLast(uses, x) + {k}
  {
    assert (uses + [k])[..|uses|] == uses;
  }

  lemma AgreeConcat(h: seq<Outcome>, h': seq<Outcome>, t: seq<Outcome>, t': seq<Outcome>, key: string)
    requires AgreeOn(h, h', key) && AgreeOn(t, t', key)
    ensures AgreeOn(h + t, h' + t', key)
  {
  }

  lemma {:induction false} RunSimulates(ops: seq<Op>, clock: nat, key: string)
    requires Timed(ops) && AlwaysInUse(ops, key)
    requires forall op :: op in ops ==> op.now <= clock
    ensures Simulates(Run(ops).0, PlainRun(ops).0, clock, key)
  {
    if ops == [] {
      assert Elements<string>([]) == {};
    } else {
      var before := ops[..|ops| - 1];
      var last := ops[|ops| - 1];
      InUsePrefix(ops, key);
      RunSimulates(before, last.now, key);
      var s, p := Run(before).0, PlainRun(before).0;
      match last {
        case Call(_, _, _) =>
          InUseStays(ops, key);
          CallSimulates(s, p, last.now, last, key);
        case Janitor(now) => SweepSimulates(s, p, now, now, key);
      }
      LaterSimulates(Run(ops).0, PlainRun(ops).0, last.now, clock, key);
    }
  }

  lemma LaterSimulates(s: State, p: map<string, Bucket>, clock: nat, later: nat, key: string)
    requires Simulates(s, p, clock, key) && clock <= later
    ensures Simulates(s, p, later, key)
  {
  }

  /** One more call has the same verdict on both sides, if it is of the key; other keys' verdicts do not matter. */
  lemma OutcomesAgree(ops: seq<Op>, key: string)
    requires ops != [] && Timed(ops) && KeptInUse(ops, key)
    ensures AgreeOn(Outcomes(Run(ops[..|ops| - 1]).0.buckets, ops[|ops| - 1]),
                    Outcomes(PlainRun(ops[..|ops| - 1]).0, ops[|ops| - 1]), key)
  {
    var before := ops[..|ops| - 1];
    var last := ops[|ops| - 1];
    if last.Call? && last.key == key {
      InUseBeforeCall(ops, key);
      RunSimulates(before, last.now, key);
      SameBucket(Run(before).0, PlainRun(before).0, last.now, key, last.now);
    }
  }

  /**
   * In any run, with janitor passes anywhere, the verdicts of a key that is kept in use are those of a limiter
   * that never drops a bucket: only calls of 10,000 other keys between two of its own can change them.
   */
  lemma {:induction false} SweepsAndCapAreInvisible(ops: seq<Op>, key: string)
    requires Timed(ops) && KeptInUse(ops, key)
    ensures AgreeOn(Run(ops).1, PlainRun(ops).1, key)
  {
    if ops != [] {
      var before := ops[..|ops| - 1];
      InUsePrefix(ops, key);
      SweepsAndCapAreInvisible(before, key);
      OutcomesAgree(ops, key);
      AgreeConcat(Run(before).1, PlainRun(before).1, Outcomes(Run(before).0.buckets, ops[|ops| - 1]),
                  Outcomes(PlainRun(before).0, ops[|ops| - 1]), key);
    }
  }

  lemma KeysSnoc(ops: seq<Op>)
    requires ops != []
    ensures var last := ops[|ops| - 1];
      Keys(ops) == Keys(ops[..|ops| - 1]) + if last.Call? then {last.key} else {}
  {
    var n := |ops| - 1;
    assert forall i :: 0 <= i < n ==> ops[..n][i] == ops[i];
    if ops[n].Call? {
      assert ops[n].key in Keys(ops);
    }
  }

  lemma PrefixKeys(ops: seq<Op>, i: nat)
    requires i <= |ops|
    ensures Keys(ops[..i]) <= Keys(ops)
  {
    assert forall j :: 0 <= j < i ==> ops[..i][j] == ops[j];
  }

  lemma {:induction false} UsesAreKeys(ops: seq<Op>, key: string)
    ensures SinceLast(Uses(ops), key) <= Keys(ops) - {key}
    ensures key in Uses(ops) ==> key in Keys(ops)
  {
    if ops != [] {
      KeysSnoc(ops);
      UsesAreKeys(ops[..|ops| - 1], key);
      if ops[|ops| - 1].Call? {
        SinceSnocAny(Uses(ops[..|ops| - 1]), ops[|ops| - 1].key, key);
      }
    }
  }

  /** Over at most 10,000 distinct keys every key is kept in use, so every verdict is that of the other limiter. */
  lemma FewKeysAreExact(ops: seq<Op>)
    requires Timed(ops) && |Keys(ops)| <= 10_000
    ensures forall key :: KeptInUse(ops, key)
    ensures Run(ops).1 == PlainRun(ops).1
  {
    forall key ensures KeptInUse(ops, key) {
      forall i: nat | i < |ops| && key in Uses(ops[..i]) ensures |SinceLast(Uses(ops[..i]), key)| < MAX_BUCKETS {
        UsesAreKeys(ops[..i], key);
        PrefixKeys(ops, i);
        SubsetSize(SinceLast(Uses(ops[..i]), key), Keys(ops) - {key});
      }
    }
    var h, h' := Run(ops).1, PlainRun(ops).1;
    SweepsAndCapAreInvisible(ops, "");
    forall i | 0 <= i < |h| ensures h[i] == h'[i] {
      SweepsAndCapAreInvisible(ops, h[i].key);
    }
  }

  // ---------- Verdicts as a closed form over the admitted calls ----------

  /** Calls of a key admitted at times from lo to before hi. */
  function Admitted(h: seq<Outcome>, key: string, lo: int, hi: int): nat {
    if h == [] then 0
    else
      var o := h[|h| - 1];
      Admitted(h[..|h| - 1], key, lo, hi) + if o.key == key && o.ok && lo <= o.now < hi then 1 else 0
  }

  lemma AdmittedSnoc(h: seq<Outcome>, o: Outcome, key: string, lo: int, hi: int)
    ensures Admitted(h + [o], key, lo, hi) ==
            Admitted(h, key, lo, hi) + if o.key == key && o.ok && lo <= o.now < hi then 1 else 0
  {
    assert (h + [o])[..|h|] == h;
  }

  lemma {:induction false} AdmittedAgree(h: seq<Outcome>, h': seq<Outcome>, key: string, lo: int, hi: int)
    requires AgreeOn(h, h', key)
    ensures Admitted(h, key, lo, hi) == Admitted(h', key, lo, hi)
  {
    if h != [] {
      AdmittedAgree(h[..|h| - 1], h'[..|h| - 1], key, lo, hi);
    }
  }

  /** Every admitted call of the key so far lies before `end`. */
  ghost predicate AllBefore(h: seq<Outcome>, key: string, end: int) {
    forall i :: 0 <= i < |h| && h[i].key == key && h[i].ok ==> h[i].now < end
  }

  lemma {:induction false} NoneAdmitted(h: seq<Outcome>, key: string, lo: int, hi: int)
    requires forall i :: 0 <= i < |h| ==> !(h[i].key == key && h[i].ok && lo <= h[i].now < hi)
    ensures Admitted(h, key, lo, hi) == 0
  {
    if h != [] {
      NoneAdmitted(h[..|h| - 1], key, lo, hi);
    }
  }

  /** A bucket is the count of its window and of the window before. */
  ghost predicate BucketCounts(h: seq<Outcome>, key: string, b: Bucket) {
    && AllBefore(h, key, b.windowStart + WINDOW)
    && b.count == Admitted(h, key, b.windowStart, b.windowStart + WINDOW)
    && b.prev == Admitted(h, key, b.windowStart - WINDOW, b.windowStart)
  }

  lemma RolledCounts(h: seq<Outcome>, key: string, b: Bucket, start: int)
    requires BucketCounts(h, key, b) && b.windowStart <= start
    requires b.windowStart % WINDOW == 0 && start % WINDOW == 0
    ensures BucketCounts(h, key, Rolled(b, start))
  {
    if start > b.windowStart {
      assert start >= b.windowStart + WINDOW;
      NoneAdmitted(h, key, start, start + WINDOW);
      if start > b.windowStart + WINDOW {
        NoneAdmitted(h, key, start - WINDOW, start);
      }
    }
  }

  lemma EmptyCounts(h: seq<Outcome>, key: string, start: int)
    requires forall i :: 0 <= i < |h| ==> !(h[i].key == key && h[i].ok)
    ensures BucketCounts(h, key, Bucket(start, 0, 0))
  {
    NoneAdmitted(h, key, start, start + WINDOW);
    NoneAdmitted(h, key, start - WINDOW, start);
  }

  ghost predicate Counts(p: map<string, Bucket>, h: seq<Outcome>, clock: nat) {
    && (forall k :: k in p ==> AlignedBucket(p[k], clock) && BucketCounts(h, k, p[k]))
    && (forall i :: 0 <= i < |h| ==> h[i].key in p)
    && (forall i :: 0 <= i < |h| ==> h[i].now <= clock)
  }

  /** The bucket a call decides on counts the admitted calls of the current window and the one before. */
  lemma DecidingBucket(p: map<string, Bucket>, h: seq<Outcome>, clock: nat, key: string, now: nat)
    requires Counts(p, h, clock) && clock <= now
    ensures BucketCounts(h, key, BucketFor(p, key, now))
    ensures BucketFor(p, key, now).windowStart == Aligned(now)
  {
    AlignedFacts(now);
    if key in p {
      assert AlignedBucket(p[key], clock);
      assert p[key].windowStart <= Aligned(now) by {
        AlignedMonotone(p[key].windowStart, now);
      }
      RolledCounts(h, key, p[key], Aligned(now));
    } else {
      EmptyCounts(h, key, Aligned(now));
    }
  }

  lemma AlignedMonotone(start: int, now: nat)
    requires 0 <= start <= now && start % WINDOW == 0
    ensures start <= Aligned(now)
  {
  }

  lemma CountedCounts(h: seq<Outcome>, key: string, b: Bucket, o: Outcome)
    requires BucketCounts(h, key, b)
    requires o.key == key ==> b.windowStart <= o.now < b.windowStart + WINDOW
    ensures BucketCounts(h + [o], key, if o.key == key then Counted(b, o.ok) else b)
  {
    AdmittedSnoc(h, o, key, b.windowStart, b.windowStart + WINDOW);
    AdmittedSnoc(h, o, key, b.windowStart - WINDOW, b.windowStart);
  }

  lemma ChargeCounts(p: map<string, Bucket>, h: seq<Outcome>, clock: nat, o: Outcome)
    requires Counts(p, h, clock) && clock <= o.now
    ensures Counts(p[o.key := Counted(BucketFor(p, o.key, o.now), o.ok)], h + [o], o.now)
  {
    var b := BucketFor(p, o.key, o.now);
    DecidingBucket(p, h, clock, o.key, o.now);
    AlignedFacts(o.now);
    var p' := p[o.key := Counted(b, o.ok)];
    forall k | k in p' ensures AlignedBucket(p'[k], o.now) && BucketCounts(h + [o], k, p'[k]) {
      if k == o.key {
        CountedCounts(h, k, b, o);
      } else {
        CountedCounts(h, k, p[k], o);
      }
    }
  }

  lemma PlainStepCounts(p: map<string, Bucket>, h: seq<Outcome>, clock: nat, op: Op, later: nat)
    requires Counts(p, h, clock) && clock <= op.now <= later
    ensures Counts(PlainStep(p, op), h + Outcomes(p, op), later)
  {
    if op.Call? {
      ChargeCounts(p, h, clock, Outcome(op.key, op.now, op.limit, Verdict(p, op.key, op.now, op.limit)));
    } else {
      assert h + Outcomes(p, op) == h;
    }
  }

  lemma {:induction false} PlainCounts(ops: seq<Op>, clock: nat)
    requires Timed(ops) && forall op :: op in ops ==> op.now <= clock
    ensures Counts(PlainRun(ops).0, PlainRun(ops).1, clock)
  {
    if ops != [] {
      var before := ops[..|ops| - 1];
      var last := ops[|ops| - 1];
      PlainCounts(before, last.now);
      PlainStepCounts(PlainRun(before).0, PlainRun(before).1, last.now, last, clock);
    }
  }

  /** What the calls admitted before weigh at time now. */
  function LoadOf(h: seq<Outcome>, key: string, now: nat): int {
    var start := now - now % 60_000_000_000;
    Admitted(h, key, start, start + 60_000_000_000) * 60_000_000_000
    + Admitted(h, key, start - 60_000_000_000, start) * (60_000_000_000 - (now - start))
  }

  /** The verdict on the last call, from the calls before it. */
  predicate ClosedForm(h: seq<Outcome>)
    requires h != []
  {
    var o := h[|h| - 1];
    o.ok == (Wrap64(LoadOf(h[..|h| - 1], o.key, o.now) + 60_000_000_000) <= Wrap64(PerMinute(o.limit) * 60_000_000_000))
  }

  lemma CallIsClosedForm(p: map<string, Bucket>, h: seq<Outcome>, clock: nat, key: string, now: nat, limit: int)
    requires Counts(p, h, clock) && clock <= now
    ensures ClosedForm(h + [Outcome(key, now, limit, Verdict(p, key, now, limit))])
  {
    DecidingBucket(p, h, clock, key, now);
    AlignedFacts(now);
    var o := Outcome(key, now, limit, Verdict(p, key, now, limit));
    assert (h + [o])[..|h|] == h;
  }

  lemma {:induction false} PlainIsClosedForm(ops: seq<Op>, i: nat)
    requires Timed(ops) && i < |PlainRun(ops).1|
    ensures ClosedForm(PlainRun(ops).1[..i + 1])
  {
    var before := ops[..|ops| - 1];
    var last := ops[|ops| - 1];
    var h := PlainRun(before).1;
    if i < |h| {
      PlainIsClosedForm(before, i);
      assert PlainRun(ops).1[..i + 1] == h[..i + 1];
    } else {
      PlainCounts(before, last.now);
      CallIsClosedForm(PlainRun(before).0, h, last.now, last.key, last.now, last.limit);
      assert PlainRun(ops).1[..i + 1] == PlainRun(ops).1;
    }
  }

  /**
   * Every verdict on a key kept in use is a closed form over the calls of that key admitted before: those of
   * the current window in full, those of the window before by the share still inside the last minute.
   * Refused calls, janitor passes and other keys do not enter it.
   */
  lemma VerdictsAreClosedForm(ops: seq<Op>, i: nat)
    requires Timed(ops) && i < |Run(ops).1| && KeptInUse(ops, Run(ops).1[i].key)
    ensures ClosedForm(Run(ops).1[..i + 1])
  {
    SweepsAndCapAreInvisible(ops, Run(ops).1[i].key);
    PlainIsClosedForm(ops, i);
    SameClosedForm(Run(ops).1[..i + 1], PlainRun(ops).1[..i + 1]);
  }

  lemma SameClosedForm(h: seq<Outcome>, h': seq<Outcome>)
    requires h != [] && AgreeOn(h, h', h[|h| - 1].key) && ClosedForm(h')
    ensures ClosedForm(h)
  {
    var n := |h| - 1;
    var o := h[n];
    var start := Aligned(o.now);
    AdmittedAgree(h[..n], h'[..n], o.key, start, start + WINDOW);
    AdmittedAgree(h[..n], h'[..n], o.key, start - WINDOW, start);
    assert LoadOf(h[..n], o.key, o.now) == LoadOf(h'[..n], o.key, o.now);
  }

  // ---------- The burst bound ----------

  /** The largest per-minute limit whose decision never leaves 64 bits. */
  const MAX_EXACT_LIMIT := 153_722_866

  lemma NoWrap(x: int)
    requires -0x8000_0000_0000_0000 <= x < 0x8000_0000_0000_0000
    ensures Wrap64(x) == x
  {
  }

  /** A history in time order with lawful verdicts, and with limits of the key up to L. */
  ghost predicate Lawful(h: seq<Outcome>, key: string, L: nat) {
    h != [] ==>
      var n := |h| - 1;
      && Lawful(h[..n], key, L)
      && (forall i :: 0 <= i < n ==> h[i].now <= h[n].now)
      && ClosedForm(h)
      && (h[n].key == key ==> PerMinute(h[n].limit) <= L)
  }

  /** The weight of the last call's window and the one before, at the moment it was decided. */
  function WeightBefore(h: seq<Outcome>): int
    requires h != []
  {
    LoadOf(h[..|h| - 1], h[|h| - 1].key, h[|h| - 1].now)
  }

  lemma LawfulAdmission(h: seq<Outcome>, L: nat)
    requires h != [] && ClosedForm(h) && h[|h| - 1].ok && PerMinute(h[|h| - 1].limit) <= L <= MAX_EXACT_LIMIT
    requires 0 <= WeightBefore(h) <= L * WINDOW
    ensures WeightBefore(h) + WINDOW <= L * WINDOW
  {
    NoWrap(WeightBefore(h) + WINDOW);
    NoWrap(PerMinute(h[|h| - 1].limit) * WINDOW);
  }

  /** An admitted call leaves the load, itself included, within the limit. */
  lemma {:induction false} AdmissionBound(h: seq<Outcome>, key: string, L: nat)
    requires Lawful(h, key, L) && L <= MAX_EXACT_LIMIT
    requires h != [] && h[|h| - 1].key == key && h[|h| - 1].ok
    ensures WeightBefore(h) + WINDOW <= L * WINDOW
    decreases |h|, 0
  {
    LoadBound(h[..|h| - 1], key, L, h[|h| - 1].now);
    LoadNonNegative(h[..|h| - 1], key, h[|h| - 1].now);
    LawfulAdmission(h, L);
  }

  lemma LoadNonNegative(h: seq<Outcome>, key: string, now: nat)
    ensures LoadOf(h, key, now) >= 0
  {
    AlignedFacts(now);
  }

  lemma Weighed(p: nat, e: int, L: nat)
    requires p <= L && 0 <= e <= WINDOW
    ensures p * e <= L * WINDOW && p * e <= L * e
  {
    assert (L - p) * e >= 0;
    assert L * (WINDOW - e) >= 0;
  }

  lemma SlidesDown(p: nat, from: int, to: int)
    requires from <= to
    ensures p * (WINDOW - to) <= p * (WINDOW - from)
  {
    assert p * (to - from) >= 0;
  }

  lemma SameWindow(t: nat, now: nat)
    requires Aligned(now) <= t <= now
    ensures Aligned(t) == Aligned(now)
  {
  }

  /** A call admitted in the current window: the load was bounded then, and has only decayed since. */
  lemma LoadAfterAdmission(h: seq<Outcome>, key: string, L: nat, now: nat)
    requires h != [] && h[|h| - 1].key == key && h[|h| - 1].ok && Aligned(now) <= h[|h| - 1].now <= now
    requires WeightBefore(h) + WINDOW <= L * WINDOW
    ensures LoadOf(h, key, now) <= L * WINDOW
  {
    var o := h[|h| - 1];
    var before := h[..|h| - 1];
    var start := Aligned(now);
    SameWindow(o.now, now);
    AlignedFacts(now);
    var c, p := Admitted(before, key, start, start + WINDOW), Admitted(before, key, start - WINDOW, start);
    assert Admitted(h, key, start, start + WINDOW) == c + 1;
    assert Admitted(h, key, start - WINDOW, start) == p;
    SlidesDown(p, o.now - start, now - start);
  }

  /** At no later time do the admitted calls weigh more than the limit. */
  lemma {:induction false} LoadBound(h: seq<Outcome>, key: string, L: nat, now: nat)
    requires Lawful(h, key, L) && L <= MAX_EXACT_LIMIT
    requires forall i :: 0 <= i < |h| ==> h[i].now <= now
    ensures LoadOf(h, key, now) <= L * WINDOW
    decreases |h|, 3
  {
    if h != [] {
      var o := h[|h| - 1];
      var start := Aligned(now);
      AlignedFacts(now);
      if o.key != key || !o.ok {
        LoadBound(h[..|h| - 1], key, L, now);
        LoadSkips(h, key, now);
      } else if o.now >= start {
        AdmissionBound(h, key, L);
        LoadAfterAdmission(h, key, L, now);
      } else {
        NoneAdmitted(h, key, start, start + WINDOW);
        PrecedingWindowBound(h, key, L, now);
        OldLoad(h, key, L, now);
      }
    } else {
      assert LoadOf(h, key, now) == 0;
    }
  }

  /** A refused call, or one of another key, weighs nothing. */
  lemma LoadSkips(h: seq<Outcome>, key: string, now: nat)
    requires h != [] && (h[|h| - 1].key != key || !h[|h| - 1].ok)
    ensures LoadOf(h, key, now) == LoadOf(h[..|h| - 1], key, now)
  {
  }

  /** Nothing admitted in the current window: the one before has partly decayed. */
  lemma OldLoad(h: seq<Outcome>, key: string, L: nat, now: nat)
    requires Admitted(h, key, Aligned(now), Aligned(now) + WINDOW) == 0
    requires Admitted(h, key, Aligned(now) - WINDOW, Aligned(now)) <= L
    ensures LoadOf(h, key, now) <= L * WINDOW
  {
    AlignedFacts(now);
    Weighed(Admitted(h, key, Aligned(now) - WINDOW, Aligned(now)), WINDOW - (now - Aligned(now)), L);
  }

  lemma WindowAfterAdmission(h: seq<Outcome>, key: string, L: nat, start: int)
    requires h != [] && h[|h| - 1].key == key && h[|h| - 1].ok
    requires Aligned(h[|h| - 1].now) == start
    requires WeightBefore(h) + WINDOW <= L * WINDOW
    ensures Admitted(h, key, start, start + WINDOW) <= L
  {
    var o := h[|h| - 1];
    var before := h[..|h| - 1];
    AlignedFacts(o.now);
    WindowArithmetic(Admitted(before, key, start, start + WINDOW), Admitted(before, key, start - WINDOW, start), o.now - start, L);
  }

  lemma WindowArithmetic(c: nat, p: nat, e: nat, L: nat)
    requires e <= WINDOW && c * WINDOW + p * (WINDOW - e) + WINDOW <= L * WINDOW
    ensures c + 1 <= L
  {
    assert p * (WINDOW - e) >= 0;
  }

  /** No window admits more calls than the limit. */
  lemma {:induction false} WindowBound(h: seq<Outcome>, key: string, L: nat, start: int)
    requires Lawful(h, key, L) && L <= MAX_EXACT_LIMIT && start % WINDOW == 0
    ensures Admitted(h, key, start, start + WINDOW) <= L
    decreases |h|, 1
  {
    if h != [] {
      var o := h[|h| - 1];
      if o.key == key && o.ok && start <= o.now < start + WINDOW {
        AlignedIs(o.now, start);
        AdmissionBound(h, key, L);
        WindowAfterAdmission(h, key, L, start);
      } else {
        WindowBound(h[..|h| - 1], key, L, start);
      }
    }
  }

  lemma AlignedIs(t: nat, start: int)
    requires start <= t < start + WINDOW && start % WINDOW == 0
    ensures Aligned(t) == start
  {
  }

  lemma {:induction false} AdmittedSplit(h: seq<Outcome>, key: string, lo: int, mid: int, hi: int)
    requires lo <= mid <= hi
    ensures Admitted(h, key, lo, hi) == Admitted(h, key, lo, mid) + Admitted(h, key, mid, hi)
  {
    if h != [] {
      AdmittedSplit(h[..|h| - 1], key, lo, mid, hi);
    }
  }

  lemma {:induction false} AdmittedWithin(h: seq<Outcome>, key: string, lo: int, hi: int, lo': int, hi': int)
    requires forall i :: 0 <= i < |h| && lo <= h[i].now < hi ==> lo' <= h[i].now < hi'
    ensures Admitted(h, key, lo, hi) <= Admitted(h, key, lo', hi')
  {
    if h != [] {
      AdmittedWithin(h[..|h| - 1], key, lo, hi, lo', hi');
    }
  }

  /** n calls within an interval of length d keep to the limit L, up to the part d of a further window. */
  predicate WithinBurst(n: nat, L: nat, d: nat) {
    n * WINDOW <= L * (WINDOW + d)
  }

  /** The load of c calls in the current window and p in the one before, e into the window, leaves room for one more call. */
  predicate HasRoom(c: nat, p: nat, e: nat, L: nat) {
    c * WINDOW + p * (WINDOW - e) + WINDOW <= L * WINDOW
  }

  /** Counts c of the current window, p of the one before, e into the window, in an interval of length d reaching back past its start. */
  lemma BurstArithmetic(n: nat, c: nat, p: nat, e: nat, d: nat, L: nat)
    requires n <= c + p + 1 && p <= L && e <= d && e <= WINDOW
    requires HasRoom(c, p, e, L)
    ensures WithinBurst(n, L, d)
  {
    Weighed(p, e, L);
    assert p * (WINDOW - e) == p * WINDOW - p * e;
    assert L * (d - e) >= 0;
    assert L * (WINDOW + d) == L * WINDOW + L * e + L * (d - e);
  }

  lemma ScaledUp(n: nat, L: nat, d: nat)
    requires n <= L
    ensures WithinBurst(n, L, d)
  {
    assert L * d >= 0;
  }

  lemma BurstCases(n: nat, c: nat, p: nat, e: nat, d: nat, L: nat, inside: bool)
    requires e <= WINDOW && HasRoom(c, p, e, L)
    requires if inside then n <= c + 1 else n <= c + p + 1 && p <= L && e <= d
    ensures WithinBurst(n, L, d)
  {
    if inside {
      WindowArithmetic(c, p, e, L);
      ScaledUp(n, L, d);
    } else {
      BurstArithmetic(n, c, p, e, d, L);
    }
  }

  lemma PrecedingWindowBound(h: seq<Outcome>, key: string, L: nat, now: nat)
    requires Lawful(h, key, L) && L <= MAX_EXACT_LIMIT
    ensures Admitted(h, key, Aligned(now) - WINDOW, Aligned(now)) <= L
    decreases |h|, 2
  {
    AlignedFacts(now);
    WindowBound(h, key, L, Aligned(now) - WINDOW);
  }

  lemma AdmissionLeavesRoom(h: seq<Outcome>, key: string, L: nat)
    requires Lawful(h, key, L) && L <= MAX_EXACT_LIMIT
    requires h != [] && h[|h| - 1].key == key && h[|h| - 1].ok
    ensures var o := h[|h| - 1]; var before := h[..|h| - 1]; var start := Aligned(o.now);
      && start <= o.now
      && HasRoom(Admitted(before, key, start, start + WINDOW), Admitted(before, key, start - WINDOW, start), o.now - start, L)
  {
    AlignedFacts(h[|h| - 1].now);
    AdmissionBound(h, key, L);
  }

  /** The interval ends with an admitted call: its window and the one before bound it. */
  lemma BurstAtAdmission(h: seq<Outcome>, key: string, L: nat, s: nat, d: nat)
    requires Lawful(h, key, L) && L <= MAX_EXACT_LIMIT && d <= WINDOW
    requires h != [] && h[|h| - 1].key == key && h[|h| - 1].ok && s <= h[|h| - 1].now <= s + d
    ensures WithinBurst(Admitted(h, key, s, s + d + 1), L, d)
  {
    var o := h[|h| - 1];
    var before := h[..|h| - 1];
    var start := Aligned(o.now);
    AlignedFacts(o.now);
    AdmissionLeavesRoom(h, key, L);
    var c := Admitted(before, key, start, start + WINDOW);
    var p := Admitted(before, key, start - WINDOW, start);
    PrecedingWindowBound(before, key, L, o.now);
    BurstCounts(before, key, s, d, o.now);
    BurstCases(Admitted(h, key, s, s + d + 1), c, p, o.now - start, d, L, s >= start);
  }

  /** The calls of an interval that ends in now's window, by the two windows it touches. */
  lemma BurstCounts(h: seq<Outcome>, key: string, s: nat, d: nat, now: nat)
    requires d <= WINDOW && s <= now <= s + d
    requires forall i :: 0 <= i < |h| ==> h[i].now <= now
    ensures var start := Aligned(now); var n := Admitted(h, key, s, s + d + 1);
      && (s >= start ==> n <= Admitted(h, key, start, start + WINDOW))
      && (s < start ==> n <= Admitted(h, key, start - WINDOW, start) + Admitted(h, key, start, start + WINDOW))
  {
    var start := Aligned(now);
    AlignedFacts(now);
    if s >= start {
      AdmittedWithin(h, key, s, s + d + 1, start, start + WINDOW);
    } else {
      AdmittedSplit(h, key, s, start, s + d + 1);
      AdmittedWithin(h, key, s, start, start - WINDOW, start);
      AdmittedWithin(h, key, start, s + d + 1, start, start + WINDOW);
    }
  }

  lemma {:induction false} BurstOfHistory(h: seq<Outcome>, key: string, L: nat, s: nat, d: nat)
    requires Lawful(h, key, L) && L <= MAX_EXACT_LIMIT && d <= WINDOW
    ensures WithinBurst(Admitted(h, key, s, s + d + 1), L, d)
  {
    if h == [] {
      assert L * d >= 0;
    } else {
      var o := h[|h| - 1];
      if o.key == key && o.ok && s <= o.now <= s + d {
        BurstAtAdmission(h, key, L, s, d);
      } else {
        BurstOfHistory(h[..|h| - 1], key, L, s, d);
      }
    }
  }

  lemma LawfulSnoc(h: seq<Outcome>, o: Outcome, key: string, L: nat)
    requires Lawful(h, key, L) && ClosedForm(h + [o])
    requires forall i :: 0 <= i < |h| ==> h[i].now <= o.now
    requires o.key == key ==> PerMinute(o.limit) <= L
    ensures Lawful(h + [o], key, L)
  {
    assert (h + [o])[..|h|] == h;
  }

  lemma {:induction false} PlainIsLawful(ops: seq<Op>, clock: nat, key: string, L: nat)
    requires Timed(ops) && forall op :: op in ops ==> op.now <= clock
    requires forall op :: op in ops && op.Call? && op.key == key ==> PerMinute(op.limit) <= L
    ensures Lawful(PlainRun(ops).1, key, L)
    ensures forall i :: 0 <= i < |PlainRun(ops).1| ==> PlainRun(ops).1[i].now <= clock
  {
    if ops != [] {
      var before := ops[..|ops| - 1];
      var last := ops[|ops| - 1];
      PlainIsLawful(before, last.now, key, L);
      if last.Call? {
        CallIsLawful(before, last, key, L);
      } else {
        assert PlainRun(ops).1 == PlainRun(before).1;
      }
    }
  }

  lemma CallIsLawful(ops: seq<Op>, call: Op, key: string, L: nat)
    requires Timed(ops) && (forall op :: op in ops ==> op.now <= call.now)
    requires call.Call? && (call.key == key ==> PerMinute(call.limit) <= L)
    requires Lawful(PlainRun(ops).1, key, L)
    requires forall i :: 0 <= i < |PlainRun(ops).1| ==> PlainRun(ops).1[i].now <= call.now
    ensures var h := PlainRun(ops).1; var o := Outcomes(PlainRun(ops).0, call)[0];
      Lawful(h + [o], key, L) && o.now == call.now
  {
    var p, h := PlainRun(ops).0, PlainRun(ops).1;
    PlainCounts(ops, call.now);
    CallIsClosedForm(p, h, call.now, call.key, call.now, call.limit);
    LawfulSnoc(h, Outcomes(p, call)[0], key, L);
  }

  /**
   * The burst bound: with limits up to L for a key kept in use, every interval of length d up to a window admits n of
   * its calls with n * 60s <= L * (60s + d), wherever the window boundaries fall.
   */
  lemma BurstBound(ops: seq<Op>, key: string, L: nat, s: nat, d: nat)
    requires Timed(ops) && KeptInUse(ops, key) && d <= 60_000_000_000 && L <= 153_722_866
    requires forall op :: op in ops && op.Call? && op.key == key ==> PerMinute(op.limit) <= L
    ensures Admitted(Run(ops).1, key, s, s + d + 1) * 60_000_000_000 <= L * (60_000_000_000 + d)
  {
    SweepsAndCapAreInvisible(ops, key);
    PlainIsLawful(ops, if ops == [] then 0 else ops[|ops| - 1].now, key, L);
    BurstOfHistory(PlainRun(ops).1, key, L, s, d);
    AdmittedAgree(Run(ops).1, PlainRun(ops).1, key, s, s + d + 1);
  }

  // ---------- Eviction is least recently used ----------

  lemma AllowIsTouch(s: State, key: string, now: nat, limit: int)
    requires Sound(s) && |s.lru| <= MAX_BUCKETS
    ensures Allow(s, key, now, limit).lru == Take(Touch(s.lru, key), MAX_BUCKETS)
  {
    if key in s.buckets {
      PlacedSound(s, key, now);
    } else {
      assert key !in Elements(s.lru);
      WithoutAbsent(s.lru, key);
    }
  }

  lemma {:induction false} ListIsRecentUses(ops: seq<Op>)
    requires forall op :: op in ops ==> op.Call?
    ensures Run(ops).0.lru == Take(Recent(Uses(ops)), 10_000)
    ensures Sound(Run(ops).0)
  {
    if ops == [] {
      assert Elements<string>([]) == {};
    } else {
      var before := ops[..|ops| - 1];
      var last := ops[|ops| - 1];
      ListIsRecentUses(before);
      var s := Run(before).0;
      AllowIsTouch(s, last.key, last.now, last.limit);
      AllowSound(s, last.key, last.now, last.limit);
      RecentSound(Uses(before));
      TouchTruncated(Recent(Uses(before)), last.key, MAX_BUCKETS);
      assert Uses(ops)[..|Uses(ops)| - 1] == Uses(before);
    }
  }

  /** Between janitor passes a bucket survives exactly while fewer than 10,000 other keys have been used since. */
  lemma BucketSurvivesExactly(ops: seq<Op>, key: string)
    requires forall op :: op in ops ==> op.Call?
    ensures key in Run(ops).0.buckets <==> key in Uses(ops) && |SinceLast(Uses(ops), key)| < 10_000
  {
    ListIsRecentUses(ops);
    KeptExactlyWhenRecent(Uses(ops), key, MAX_BUCKETS);
    assert key in Elements(Run(ops).0.lru) <==> key in Run(ops).0.lru;
  }
}
