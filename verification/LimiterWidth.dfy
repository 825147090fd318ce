/**
 * The width of the limiter's decision: for which limits 64 bits are enough, on single buckets and over whole runs.
 */
module LimiterWidth {
  import opened Recency
  import opened RateLimiter
  import opened LimiterRuns

  /** The decision on c calls in the current window and none before it. */
  predicate Fits(c: nat, L: nat) {
    Wrap64(c * WINDOW + WINDOW) <= Wrap64(L * WINDOW)
  }

  lemma WrapIs(x: int, k: int)
    requires -0x8000_0000_0000_0000 <= x - k * 0x1_0000_0000_0000_0000 < 0x8000_0000_0000_0000
    ensures Wrap64(x) == x - k * 0x1_0000_0000_0000_0000
  {
    var y := x + 0x8000_0000_0000_0000;
    var r := y - k * 0x1_0000_0000_0000_0000;
    assert y == k * 0x1_0000_0000_0000_0000 + r && 0 <= r < 0x1_0000_0000_0000_0000;
    assert y % 0x1_0000_0000_0000_0000 == r;
  }

  /** Up to the largest exact limit nothing wraps. */
  lemma ExactBelow(b: Bucket, now: int, L: nat)
    requires L <= MAX_EXACT_LIMIT && 0 <= Load(b, now) <= L * WINDOW
    ensures Admits(b, now, L) <==> Load(b, now) + WINDOW <= L * WINDOW
  {
    NoWrap(Load(b, now) + WINDOW);
    NoWrap(L * WINDOW);
  }

  /**
   * Above it some count up to the limit is decided wrongly: an empty bucket if the limit wraps to less than one
   * call, else the bucket that fills the wrapped limit, or the full one if that would wrap as well.
   */
  lemma SomeCountIsWrong(L: nat) returns (c: nat)
    requires L > MAX_EXACT_LIMIT
    ensures c <= L && (Fits(c, L) <==> c + 1 > L)
  {
    var t := Wrap64(L * WINDOW);
    var k := (L * WINDOW + 0x8000_0000_0000_0000) / 0x1_0000_0000_0000_0000;
    assert t == L * WINDOW - k * 0x1_0000_0000_0000_0000;
    if t < 0 {
      c := 0;
      NoWrap(WINDOW);
    } else if t + WINDOW >= 0x8000_0000_0000_0000 {
      c := L;
      WrapIs(L * WINDOW + WINDOW, k + 1);
    } else {
      c := t / WINDOW;
      assert c * WINDOW <= t < c * WINDOW + WINDOW;
      NoWrap(c * WINDOW + WINDOW);
      assert c < L by {
        assert k >= 1;
      }
    }
  }

  /**
   * The decision on one bucket is right, for every bucket that weighs no more than the limit and at every time,
   * if and only if the limit is at most 153,722,866.
   */
  lemma DecisionIsRightExactly(L: nat)
    requires L > 0
    ensures (forall b, now :: 0 <= Load(b, now) <= L * WINDOW ==> (Admits(b, now, L) <==> Load(b, now) + WINDOW <= L * WINDOW))
            <==> L <= 153_722_866
  {
    if L <= MAX_EXACT_LIMIT {
      forall b, now | 0 <= Load(b, now) <= L * WINDOW ensures Admits(b, now, L) <==> Load(b, now) + WINDOW <= L * WINDOW {
        ExactBelow(b, now, L);
      }
    } else {
      var c := SomeCountIsWrong(L);
      var b := Bucket(0, c, 0);
      assert Load(b, 0) == c * WINDOW;
      assert c * WINDOW <= L * WINDOW && (c * WINDOW + WINDOW <= L * WINDOW <==> c + 1 <= L);
    }
  }

  // ---------- Over whole runs ----------

  /** The last verdict is the one the load calls for. */
  predicate Right(h: seq<Outcome>)
    requires h != []
  {
    var o := h[|h| - 1];
    o.ok <==> LoadOf(h[..|h| - 1], o.key, o.now) + 60_000_000_000 <= PerMinute(o.limit) * 60_000_000_000
  }

  /** The i-th verdict of a run, on a key kept in use and with limits up to L. */
  ghost predicate Within(ops: seq<Op>, i: nat, L: nat) {
    && i < |Run(ops).1| && Timed(ops) && KeptInUse(ops, Run(ops).1[i].key)
    && forall op :: op in ops && op.Call? && op.key == Run(ops).1[i].key ==> PerMinute(op.limit) <= L
  }

  lemma {:induction false} LawfulPrefix(h: seq<Outcome>, key: string, L: nat, i: nat)
    requires Lawful(h, key, L) && i <= |h|
    ensures Lawful(h[..i], key, L)
    ensures i < |h| ==> (forall j :: 0 <= j < i ==> h[j].now <= h[i].now) && (h[i].key == key ==> PerMinute(h[i].limit) <= L)
  {
    if i == |h| {
      assert h[..i] == h;
    } else if i == |h| - 1 {
    } else {
      LawfulPrefix(h[..|h| - 1], key, L, i);
      assert h[..|h| - 1][..i] == h[..i];
    }
  }

  lemma LoadAgrees(h: seq<Outcome>, h': seq<Outcome>, key: string, now: nat)
    requires AgreeOn(h, h', key)
    ensures LoadOf(h, key, now) == LoadOf(h', key, now)
  {
    AdmittedAgree(h, h', key, Aligned(now), Aligned(now) + WINDOW);
    AdmittedAgree(h, h', key, Aligned(now) - WINDOW, Aligned(now));
  }

  /** The load in front of any verdict is within the limit. */
  lemma LoadWithin(ops: seq<Op>, i: nat, L: nat)
    requires Within(ops, i, L) && L <= MAX_EXACT_LIMIT
    ensures var o := Run(ops).1[i]; 0 <= LoadOf(Run(ops).1[..i], o.key, o.now) <= L * WINDOW && PerMinute(o.limit) <= L
  {
    var h, h' := Run(ops).1, PlainRun(ops).1;
    var o := h[i];
    SweepsAndCapAreInvisible(ops, o.key);
    PlainIsLawful(ops, if ops == [] then 0 else ops[|ops| - 1].now, o.key, L);
    LawfulPrefix(h', o.key, L, i);
    LoadBound(h'[..i], o.key, L, o.now);
    LoadNonNegative(h'[..i], o.key, o.now);
    LoadAgrees(h[..i], h'[..i], o.key, o.now);
  }

  lemma VerdictIsRight(ops: seq<Op>, i: nat, L: nat)
    requires Within(ops, i, L) && L <= MAX_EXACT_LIMIT
    ensures Right(Run(ops).1[..i + 1])
  {
    var h := Run(ops).1;
    var o := h[i];
    LoadWithin(ops, i, L);
    VerdictsAreClosedForm(ops, i);
    assert h[..i + 1][..i] == h[..i];
    NoWrap(LoadOf(h[..i], o.key, o.now) + WINDOW);
    NoWrap(PerMinute(o.limit) * WINDOW);
  }

  /** n calls of one key at one time. */
  function Repeat(n: nat, key: string, L: nat): seq<Op> {
    seq(n, _ => Call(key, 0, L))
  }

  function AllAdmitted(n: nat, key: string, L: nat): seq<Outcome> {
    seq(n, _ => Outcome(key, 0, L, true))
  }

  lemma {:induction false} RepeatUses(n: nat, key: string, L: nat)
    ensures SinceLast(Uses(Repeat(n, key, L)), key) == {}
  {
    if n > 0 {
      assert Repeat(n, key, L)[..n - 1] == Repeat(n - 1, key, L);
    }
  }

  lemma RepeatKept(n: nat, key: string, L: nat)
    ensures Timed(Repeat(n, key, L)) && KeptInUse(Repeat(n, key, L), key)
  {
    var ops := Repeat(n, key, L);
    forall i: nat | i < n ensures |SinceLast(Uses(ops[..i]), key)| < MAX_BUCKETS {
      assert ops[..i] == Repeat(i, key, L);
      RepeatUses(i, key, L);
    }
  }

  lemma {:induction false} AdmittedCount(n: nat, key: string, L: nat)
    ensures Admitted(AllAdmitted(n, key, L), key, 0, WINDOW) == n
    ensures Admitted(AllAdmitted(n, key, L), key, -WINDOW, 0) == 0
  {
    if n > 0 {
      AdmittedCount(n - 1, key, L);
      assert AllAdmitted(n, key, L)[..n - 1] == AllAdmitted(n - 1, key, L);
    }
  }

  function OneMore(n: nat, key: string, L: nat, ok: bool): seq<Outcome> {
    AllAdmitted(n, key, L) + [Outcome(key, 0, L, ok)]
  }

  lemma OneMoreLoad(n: nat, key: string, L: nat, ok: bool)
    ensures var h := OneMore(n, key, L, ok);
      |h| == n + 1 && h[n] == Outcome(key, 0, L, ok) && LoadOf(h[..n], key, 0) == n * WINDOW
  {
    AdmittedCount(n, key, L);
    assert OneMore(n, key, L, ok)[..n] == AllAdmitted(n, key, L);
    assert Aligned(0) == 0;
  }

  /** What the closed form, and what the limit, say of one more call. */
  lemma OneMoreVerdict(n: nat, key: string, L: nat, ok: bool)
    requires L > 0
    ensures ClosedForm(OneMore(n, key, L, ok)) <==> (ok <==> Fits(n, L))
    ensures Right(OneMore(n, key, L, ok)) <==> (ok <==> n + 1 <= L)
  {
    OneMoreLoad(n, key, L, ok);
    assert n * WINDOW + WINDOW <= L * WINDOW <==> n + 1 <= L;
  }

  lemma RunAppends(ops: seq<Op>, op: Op)
    ensures Run(ops + [op]).1 == Run(ops).1 + Outcomes(Run(ops).0.buckets, op)
  {
    assert (ops + [op])[..|ops|] == ops;
  }

  lemma RepeatAppends(n: nat, key: string, L: nat)
    ensures Run(Repeat(n + 1, key, L)).1
         == Run(Repeat(n, key, L)).1 + [Outcome(key, 0, L, Verdict(Run(Repeat(n, key, L)).0.buckets, key, 0, L))]
  {
    assert Repeat(n + 1, key, L) == Repeat(n, key, L) + [Call(key, 0, L)];
    RunAppends(Repeat(n, key, L), Call(key, 0, L));
  }

  lemma LastIsClosedForm(n: nat, key: string, L: nat)
    requires |Run(Repeat(n + 1, key, L)).1| == n + 1
    ensures ClosedForm(Run(Repeat(n + 1, key, L)).1)
  {
    var ops := Repeat(n + 1, key, L);
    var h := Run(ops).1;
    RepeatKept(n + 1, key, L);
    OneKey(ops, n, key);
    VerdictsAreClosedForm(ops, n);
    assert h[..n + 1] == h;
  }

  /** In a run of one key every outcome is of that key. */
  lemma {:induction false} OneKey(ops: seq<Op>, i: nat, key: string)
    requires forall op :: op in ops ==> op.Call? && op.key == key
    requires i < |Run(ops).1|
    ensures Run(ops).1[i].key == key
  {
    var before := ops[..|ops| - 1];
    if i < |Run(before).1| {
      OneKey(before, i, key);
    }
  }

  /** After n admitted calls the next verdict is the decision on the count n. */
  lemma NextVerdict(n: nat, key: string, L: nat)
    requires L > 0 && Run(Repeat(n, key, L)).1 == AllAdmitted(n, key, L)
    ensures Run(Repeat(n + 1, key, L)).1 == OneMore(n, key, L, Fits(n, L))
  {
    var ok := Verdict(Run(Repeat(n, key, L)).0.buckets, key, 0, L);
    RepeatAppends(n, key, L);
    LastIsClosedForm(n, key, L);
    OneMoreVerdict(n, key, L, ok);
  }

  lemma {:induction false} CountsReached(n: nat, key: string, L: nat)
    requires L > 0 && forall c: nat :: c < n ==> Fits(c, L)
    ensures Run(Repeat(n, key, L)).1 == AllAdmitted(n, key, L)
  {
    if n > 0 {
      CountsReached(n - 1, key, L);
      NextVerdict(n - 1, key, L);
    }
  }

  /** The first count decided wrongly is reached by a run. */
  lemma {:induction false} FirstWrong(L: nat, c: nat) returns (first: nat)
    requires c <= L && (Fits(c, L) <==> c + 1 > L)
    ensures first <= L && (Fits(first, L) <==> first + 1 > L)
    ensures forall k: nat :: k < first ==> Fits(k, L)
    decreases c
  {
    if k: nat :| k < c && !Fits(k, L) {
      first := FirstWrong(L, k);
    } else {
      first := c;
    }
  }

  lemma RepeatWithin(n: nat, key: string, L: nat)
    requires L > 0 && |Run(Repeat(n + 1, key, L)).1| == n + 1
    ensures Within(Repeat(n + 1, key, L), n, L)
  {
    RepeatKept(n + 1, key, L);
    OneKey(Repeat(n + 1, key, L), n, key);
  }

  lemma WrongRun(L: nat) returns (ops: seq<Op>, i: nat)
    requires L > MAX_EXACT_LIMIT
    ensures Within(ops, i, L) && !Right(Run(ops).1[..i + 1])
  {
    var c := SomeCountIsWrong(L);
    i := FirstWrong(L, c);
    ops := Repeat(i + 1, "k", L);
    CountsReached(i, "k", L);
    NextVerdict(i, "k", L);
    OneMoreLoad(i, "k", L, Fits(i, L));
    RepeatWithin(i, "k", L);
    OneMoreVerdict(i, "k", L, Fits(i, L));
    WholeHistory(OneMore(i, "k", L, Fits(i, L)), i);
  }

  lemma WholeHistory(h: seq<Outcome>, n: nat)
    requires |h| == n + 1
    ensures h[..n + 1] == h
  {
  }

  /**
   * Over all runs: every verdict on a key that is kept in use and has limits up to L is the one its admitted
   * calls call for, if and only if L is at most 153,722,866.
   */
  lemma VerdictsAreRightExactly(L: nat)
    ensures (forall ops: seq<Op>, i: nat :: Within(ops, i, L) ==> Right(Run(ops).1[..i + 1])) <==> L <= 153_722_866
  {
    if L <= MAX_EXACT_LIMIT {
      forall ops: seq<Op>, i: nat | Within(ops, i, L) ensures Right(Run(ops).1[..i + 1]) {
        VerdictIsRight(ops, i, L);
      }
    } else {
      var ops, i := WrongRun(L);
    }
  }

  // ---------- The two limits just above ----------

  /** One above it a run admits one call more than the limit. */
  lemma WrapAdmitsBeyondLimit(key: string)
    ensures var L := MAX_EXACT_LIMIT + 1; Run(Repeat(L + 1, key, L)).1 == AllAdmitted(L + 1, key, L)
  {
    var L := MAX_EXACT_LIMIT + 1;
    forall c: nat | c < L + 1 ensures Fits(c, L) {
      NoWrap(L * WINDOW);
      if c < L {
        NoWrap(c * WINDOW + WINDOW);
      } else {
        WrapIs(c * WINDOW + WINDOW, 1);
      }
    }
    CountsReached(L + 1, key, L);
  }

  /** Two above it the first call of all is refused. */
  lemma WrapRefusesFirstCall(key: string)
    ensures var L := MAX_EXACT_LIMIT + 2; Run([Call(key, 0, L)]).1 == [Outcome(key, 0, L, false)]
  {
    var L := MAX_EXACT_LIMIT + 2;
    assert Run(Repeat(0, key, L)).1 == AllAdmitted(0, key, L);
    NextVerdict(0, key, L);
    assert Repeat(1, key, L) == [Call(key, 0, L)];
    assert AllAdmitted(0, key, L) == [];
    WrapIs(L * WINDOW, 1);
    NoWrap(WINDOW);
  }
}
