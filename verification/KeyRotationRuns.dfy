/**
 * Guarantees of key rotation over every run of boots and rotations, and what one interrupted rotation costs.
 */
module KeyRotationRuns {
  import opened Common
  import opened KeyRotation

  ghost function Current(t: Table): Option<string> {
    if exists k :: IsLatest(t, k) then
      var k :| IsLatest(t, k);
      Some(k)
    else
      None
  }

  /** A rotation may fail at any of its calls. */
  datatype Op = Boot(now: int, kid: string) | Rotate(now: int, kid: string, failure: Failure)

  /** An interrupted minting is one whose store refused to retire the previous key. */
  predicate Interrupts(t: Table, current: Option<string>, op: Op) {
    op.Rotate? && op.failure.AtRetire? && current.Some? && Mints(t, current, op.now)
  }

  ghost function Step(t: Table, op: Op): Table {
    if op.kid in t then t
    else if op.Boot? then (if exists k :: Advertised(t, k) then t else Saved(t, op.kid, op.now))
    else RotatedTo(t, Current(t), op.kid, op.now, op.failure)
  }

  ghost function Run(t: Table, ops: seq<Op>): Table {
    if ops == [] then t else Step(Run(t, ops[..|ops| - 1]), ops[|ops| - 1])
  }

  /** The clock never runs backwards, and key ids are never reused. */
  predicate Timed(ops: seq<Op>) {
    && (forall i, j :: 0 <= i < j < |ops| ==> ops[i].now <= ops[j].now && ops[i].kid != ops[j].kid)
  }

  /** No rotation fails to retire the previous key. */
  predicate Uninterrupted(ops: seq<Op>) {
    forall op :: op in ops && op.Rotate? ==> !op.failure.AtRetire?
  }

  /** No rotation fails between minting and the end of the demotion. */
  predicate Demoting(ops: seq<Op>) {
    forall op :: op in ops && op.Rotate? ==> !op.failure.AtRelist? && !op.failure.AtExpire?
  }

  // ---------- What a rotation leaves, in general ----------

  /** The rotation stopped before it changed anything. */
  predicate Stops(t: Table, active: Option<string>, now: int, f: Failure) {
    f.AtStart? || (f.AtMint? && Mints(t, active, now))
  }

  /** Some overdue keys have been expired and some long-expired ones deleted; nothing else has changed. */
  ghost predicate Cleans(m: Table, t: Table, now: int) {
    && (forall k :: k in t ==> k in m && (t[k] == m[k] || (Overdue(m[k], now) && t[k] == m[k].(status := Expired))))
    && (forall k :: k in m && k !in t ==>
          m[k].status != Active && m[k].retiredAt.Some? && m[k].retiredAt.value < now - PRUNE_AGE)
  }

  /** No retiring key's overlap is over. */
  ghost predicate NoneOverdue(t: Table, now: int) {
    forall k :: k in t ==> !Overdue(t[k], now)
  }

  lemma PrunedCleans(m: Table, now: int)
    ensures Cleans(m, Pruned(Demoted(m, now), now), now) && NoneOverdue(Pruned(Demoted(m, now), now), now)
    ensures Cleans(m, Demoted(m, now), now) && NoneOverdue(Demoted(m, now), now)
    ensures Cleans(m, m, now) && forall done :: Cleans(m, DemotedSome(m, now, done), now)
  {
  }

  /** A rotation stops before any change, or is interrupted with the new key saved, or cleans the minted table. */
  lemma RotationShapes(t: Table, active: Option<string>, kid: string, now: int, f: Failure)
    ensures var t' := RotatedTo(t, active, kid, now, f);
      if Stops(t, active, now, f) then t' == t
      else if f.AtRetire? && active.Some? && Mints(t, active, now) then t' == Saved(t, kid, now)
      else Cleans(MintedTable(t, active, kid, now), t', now) && (!f.AtRelist? && !f.AtExpire? ==> NoneOverdue(t', now))
  {
    PrunedCleans(MintedTable(t, active, kid, now), now);
  }

  /** Every key in the table was minted by some operation. */
  lemma {:induction false} KidsComeFromOps(ops: seq<Op>)
    ensures forall k :: k in Run(map[], ops) ==> exists i :: 0 <= i < |ops| && ops[i].kid == k
  {
    if ops != [] {
      var before := ops[..|ops| - 1];
      KidsComeFromOps(before);
      forall k | k in Run(map[], ops) ensures exists i :: 0 <= i < |ops| && ops[i].kid == k {
        if k in Run(map[], before) {
          var i :| 0 <= i < |before| && before[i].kid == k;
          assert ops[i].kid == k;
        } else {
          StepAddsOwnKid(Run(map[], before), ops[|ops| - 1], k);
          assert ops[|ops| - 1].kid == k;
        }
      }
    }
  }

  lemma StepAddsOwnKid(t: Table, op: Op, k: string)
    requires k in Step(t, op) && k !in t
    ensures k == op.kid
  {
  }

  // ---------- The invariant of completed runs ----------

  /** The one active key, if the table is not empty; every retirement lies before its creation. */
  ghost predicate Lifecycle(t: Table, clock: int, active: Option<string>) {
    && Named(t)
    && (forall k :: k in t ==> (t[k].status == Active <==> t[k].retiredAt.None?))
    && (active.None? ==> t == map[])
    && (active.Some? ==>
          && active.value in t && t[active.value].createdAt <= clock
          && (forall k :: k in t ==> (t[k].status == Active <==> k == active.value))
          && (forall k :: k in t && t[k].retiredAt.Some? ==> t[k].retiredAt.value <= t[active.value].createdAt))
  }

  /** Retirements are at least a week apart. */
  ghost predicate Spaced(t: Table) {
    forall i, j :: i in t && j in t && i != j && t[i].retiredAt.Some? && t[j].retiredAt.Some? ==>
      t[i].retiredAt.value + ACTIVE_MAX_AGE <= t[j].retiredAt.value || t[j].retiredAt.value + ACTIVE_MAX_AGE <= t[i].retiredAt.value
  }

  /** Retiring keys retired at most at `mark`, and less than the overlap before it. */
  ghost predicate InOverlap(t: Table, mark: int) {
    forall k :: k in t && t[k].status == Retiring ==>
      t[k].retiredAt.Some? && t[k].retiredAt.value <= mark && mark < t[k].retiredAt.value + RETIRING_OVERLAP
  }

  lemma CurrentIs(t: Table, clock: int, active: Option<string>)
    requires Lifecycle(t, clock, active)
    ensures Current(t) == active
  {
    if active.Some? {
      assert IsLatest(t, active.value);
    }
  }

  /** The key active after a rotation. */
  function Successor(t: Table, active: Option<string>, kid: string, now: int): string {
    if Mints(t, active, now) || active.None? then kid else active.value
  }

  lemma MintKeepsLifecycle(t: Table, clock: int, active: Option<string>, kid: string, now: int)
    requires Lifecycle(t, clock, active) && clock <= now && kid !in t
    ensures var t' := MintedTable(t, active, kid, now); var next := Successor(t, active, kid, now);
      Lifecycle(t', now, Some(next)) && now - t'[next].createdAt < ACTIVE_MAX_AGE
  {
  }

  /** One more retirement, at least a week after all others. */
  lemma SpacedWithOne(t: Table, t': Table, retired: string, now: int)
    requires Spaced(t)
    requires forall k :: k in t && t[k].retiredAt.Some? ==> t[k].retiredAt.value + ACTIVE_MAX_AGE <= now
    requires forall k :: k in t' && t'[k].retiredAt.Some? ==>
      (k in t && t'[k].retiredAt == t[k].retiredAt) || (k == retired && t'[k].retiredAt == Some(now))
    ensures Spaced(t')
  {
    forall i, j | i in t' && j in t' && i != j && t'[i].retiredAt.Some? && t'[j].retiredAt.Some?
      ensures t'[i].retiredAt.value + ACTIVE_MAX_AGE <= t'[j].retiredAt.value
              || t'[j].retiredAt.value + ACTIVE_MAX_AGE <= t'[i].retiredAt.value
    {
      if i != retired && j != retired {
        assert i in t && j in t;
      }
    }
  }

  lemma MintKeepsSpaced(t: Table, clock: int, active: Option<string>, kid: string, now: int)
    requires Lifecycle(t, clock, active) && Spaced(t) && clock <= now && kid !in t
    ensures Spaced(MintedTable(t, active, kid, now))
  {
    if Mints(t, active, now) && active.Some? {
      SpacedWithOne(t, MintedTable(t, active, kid, now), active.value, now);
    }
  }

  lemma CleanKeepsLifecycle(m: Table, t: Table, now: int, active: string)
    requires Lifecycle(m, now, Some(active)) && Cleans(m, t, now)
    ensures Lifecycle(t, now, Some(active)) && t[active] == m[active]
  {
  }

  lemma CleanKeepsSpaced(m: Table, t: Table, now: int)
    requires Spaced(m) && Cleans(m, t, now)
    ensures Spaced(t)
  {
    assert forall k :: k in t ==> k in m && t[k].retiredAt == m[k].retiredAt;
  }

  lemma RotateKeeps(t: Table, clock: int, active: Option<string>, kid: string, now: int, f: Failure)
    requires Lifecycle(t, clock, active) && Spaced(t) && clock <= now && kid !in t
    requires !f.AtRetire? && !Stops(t, active, now, f)
    ensures var t' := RotatedTo(t, active, kid, now, f); var next := Successor(t, active, kid, now);
      && Lifecycle(t', now, Some(next)) && Spaced(t')
      && now - t'[next].createdAt < ACTIVE_MAX_AGE
  {
    var m := MintedTable(t, active, kid, now);
    var t' := RotatedTo(t, active, kid, now, f);
    var next := Successor(t, active, kid, now);
    RotationShapes(t, active, kid, now, f);
    MintKeepsLifecycle(t, clock, active, kid, now);
    MintKeepsSpaced(t, clock, active, kid, now);
    CleanKeepsLifecycle(m, t', now, next);
    CleanKeepsSpaced(m, t', now);
  }

  lemma BootKeeps(t: Table, clock: int, active: Option<string>, op: Op) returns (next: Option<string>)
    requires Lifecycle(t, clock, active) && clock <= op.now && op.Boot? && op.kid !in t
    ensures Lifecycle(Step(t, op), op.now, next)
    ensures active.Some? ==> Step(t, op) == t
    ensures active.None? ==> Step(t, op) == Saved(t, op.kid, op.now)
  {
    if active.Some? {
      assert Advertised(t, active.value);
      next := active;
    } else {
      assert forall k :: !Advertised(t, k);
      next := Some(op.kid);
    }
  }

  lemma StoppedKeeps(t: Table, clock: int, active: Option<string>, now: int)
    requires Lifecycle(t, clock, active) && clock <= now
    ensures Lifecycle(t, now, active)
  {
  }

  /** The active key in every uninterrupted run. */
  lemma {:induction false} EveryRunKeeps(ops: seq<Op>, clock: int) returns (active: Option<string>)
    requires Timed(ops) && Uninterrupted(ops) && forall op :: op in ops ==> op.now <= clock
    ensures Lifecycle(Run(map[], ops), clock, active) && Spaced(Run(map[], ops))
  {
    if ops == [] {
      active := None;
    } else {
      var before := ops[..|ops| - 1];
      var last := ops[|ops| - 1];
      var t := Run(map[], before);
      active := EveryRunKeeps(before, last.now);
      NewKid(ops);
      if last.Boot? {
        active := BootKeeps(t, last.now, active, last);
      } else {
        CurrentIs(t, last.now, active);
        if Stops(t, active, last.now, last.failure) {
          RotationShapes(t, active, last.kid, last.now, last.failure);
        } else {
          RotateKeeps(t, last.now, active, last.kid, last.now, last.failure);
          active := Some(Successor(t, active, last.kid, last.now));
        }
      }
      StoppedKeeps(Run(map[], ops), last.now, active, clock);
    }
  }

  /** The id an operation brings is not in the table yet. */
  lemma NewKid(ops: seq<Op>)
    requires Timed(ops) && ops != []
    ensures ops[|ops| - 1].kid !in Run(map[], ops[..|ops| - 1])
  {
    KidsComeFromOps(ops[..|ops| - 1]);
  }

  // ---------- The theorems ----------

  /**
   * In a run without refused retirements exactly one key is active after each rotation that got past the minting,
   * whatever it or earlier ones failed at, and that key is younger than a week.
   */
  lemma OneYoungActiveKey(ops: seq<Op>) returns (kid: string)
    requires Timed(ops) && Uninterrupted(ops) && ops != [] && ops[|ops| - 1].Rotate?
    requires !ops[|ops| - 1].failure.AtStart? && !ops[|ops| - 1].failure.AtMint?
    ensures var t := Run(map[], ops);
      && kid in t && 0 <= ops[|ops| - 1].now - t[kid].createdAt < 604_800
      && forall j :: j in t ==> (t[j].status == Active <==> j == kid)
  {
    var last := ops[|ops| - 1];
    var t := Run(map[], ops[..|ops| - 1]);
    var active := EveryRunKeeps(ops[..|ops| - 1], last.now);
    NewKid(ops);
    CurrentIs(t, last.now, active);
    RotateKeeps(t, last.now, active, last.kid, last.now, last.failure);
    kid := Successor(t, active, last.kid, last.now);
  }

  /** A set without three different members has at most two. */
  lemma AtMostTwo<T>(s: set<T>)
    requires forall x, y, z :: x in s && y in s && z in s ==> x == y || y == z || x == z
    ensures |s| <= 2
  {
    if x :| x in s {
      if y :| y in s && y != x {
        forall z | z in s ensures z in {x, y} {
          assert x == y || y == z || x == z;
        }
        assert s == {x, y};
      } else {
        assert s == {x};
      }
    } else {
      assert s == {};
    }
  }

  lemma RetiringAtMostTwo(t: Table, mark: int)
    requires Spaced(t) && InOverlap(t, mark)
    ensures |set k | k in t && t[k].status == Retiring| <= 2
  {
    var retiring := set k | k in t && t[k].status == Retiring;
    forall x, y, z | x in retiring && y in retiring && z in retiring ensures x == y || y == z || x == z {
      var a, b, c := t[x].retiredAt.value, t[y].retiredAt.value, t[z].retiredAt.value;
      assert mark - RETIRING_OVERLAP < a <= mark && mark - RETIRING_OVERLAP < b <= mark && mark - RETIRING_OVERLAP < c <= mark;
    }
    AtMostTwo(retiring);
  }

  function Rank(s: Status): nat {
    match s case Active => 0 case Retiring => 1 case Expired => 2
  }

  /** One operation moves a key's status forward by at most one step, and deletes only keys expired a month ago. */
  lemma StatusMovesForward(t: Table, op: Op, k: string)
    requires k in t && (t[k].status == Active <==> t[k].retiredAt.None?)
    ensures k in Step(t, op) ==> Rank(t[k].status) <= Rank(Step(t, op)[k].status) <= Rank(t[k].status) + 1
    ensures k in Step(t, op) ==> Step(t, op)[k].createdAt == t[k].createdAt
    ensures k !in Step(t, op) ==> t[k].retiredAt.Some? && t[k].retiredAt.value < op.now - 2_592_000
  {
    if op.Rotate? && op.kid !in t {
      RotationShapes(t, Current(t), op.kid, op.now, op.failure);
    }
  }

  /** The key is advertised, and if it is retiring it retired at t0 or later. */
  ghost predicate StillTrusted(t: Table, kid: string, t0: int) {
    && kid in t
    && (t[kid].status == Active || (t[kid].status == Retiring && t[kid].retiredAt.Some? && t[kid].retiredAt.value >= t0))
  }

  lemma StepKeepsTrusted(t: Table, op: Op, kid: string, t0: int)
    requires StillTrusted(t, kid, t0) && t0 <= op.now < t0 + RETIRING_OVERLAP
    ensures StillTrusted(Step(t, op), kid, t0)
  {
    if op.Rotate? && op.kid !in t {
      RotationShapes(t, Current(t), op.kid, op.now, op.failure);
    }
  }

  /**
   * A key that could sign at time t0 stays advertised throughout the fourteen days after, whatever boots
   * and rotations happen in them, failed ones included.
   */
  lemma {:induction false} SignerStaysAdvertised(t: Table, ops: seq<Op>, kid: string, t0: int)
    requires kid in t && t[kid].status == Active
    requires forall op :: op in ops ==> t0 <= op.now < t0 + 1_209_600
    ensures Advertised(Run(t, ops), kid) && StillTrusted(Run(t, ops), kid, t0)
  {
    if ops != [] {
      SignerStaysAdvertised(t, ops[..|ops| - 1], kid, t0);
      StepKeepsTrusted(Run(t, ops[..|ops| - 1]), ops[|ops| - 1], kid, t0);
    }
  }

  // ---------- Interrupted rotations ----------

  ghost predicate Orphan(t: Table, kid: string) {
    kid in t && t[kid].status == Active && exists k :: k in t && t[k].status == Active && t[k].createdAt > t[kid].createdAt
  }

  lemma StepKeepsOrphan(t: Table, op: Op, kid: string, clock: int)
    requires Orphan(t, kid) && (forall k :: k in t ==> t[k].createdAt <= clock) && clock <= op.now
    ensures Orphan(Step(t, op), kid) && forall k :: k in Step(t, op) ==> Step(t, op)[k].createdAt <= op.now
  {
    var younger :| younger in t && t[younger].status == Active && t[younger].createdAt > t[kid].createdAt;
    assert Current(t) != Some(kid);
    if op.kid !in t && op.Rotate? {
      RotationShapes(t, Current(t), op.kid, op.now, op.failure);
      RotationKeepsOrphan(t, op, kid, younger, clock);
    } else {
      assert Advertised(t, kid);
      assert younger in Step(t, op) && Step(t, op)[younger] == t[younger];
    }
  }

  /** A rotation touches no active row but the current one. */
  lemma OtherActiveStays(t: Table, op: Op, k: string)
    requires op.Rotate? && op.kid !in t && k in t && t[k].status == Active && Current(t) != Some(k)
    ensures k in Step(t, op) && Step(t, op)[k] == t[k]
  {
    RotationShapes(t, Current(t), op.kid, op.now, op.failure);
  }

  /** The current row stays as it is, or the new key is there. */
  lemma CurrentStaysOrSucceeded(t: Table, op: Op, k: string)
    requires op.Rotate? && op.kid !in t && k in t && t[k].status == Active && Current(t) == Some(k)
    ensures var t' := Step(t, op);
      (k in t' && t'[k] == t[k]) || (Mints(t, Some(k), op.now) && op.kid in t' && t'[op.kid] == NewKey(op.kid, op.now))
  {
    RotationShapes(t, Current(t), op.kid, op.now, op.failure);
  }

  lemma RotationClock(t: Table, op: Op, clock: int)
    requires op.Rotate? && op.kid !in t && clock <= op.now && forall k :: k in t ==> t[k].createdAt <= clock
    ensures forall k :: k in Step(t, op) ==> Step(t, op)[k].createdAt <= op.now
  {
    RotationShapes(t, Current(t), op.kid, op.now, op.failure);
  }

  lemma RotationKeepsOrphan(t: Table, op: Op, kid: string, younger: string, clock: int)
    requires op.Rotate? && op.kid !in t && Current(t) != Some(kid) && clock <= op.now
    requires kid in t && younger in t && t[kid].status == Active && t[younger].status == Active
    requires t[younger].createdAt > t[kid].createdAt && forall k :: k in t ==> t[k].createdAt <= clock
    ensures Orphan(Step(t, op), kid) && forall k :: k in Step(t, op) ==> Step(t, op)[k].createdAt <= op.now
  {
    RotationClock(t, op, clock);
    OtherActiveStays(t, op, kid);
    if Current(t) == Some(younger) {
      CurrentStaysOrSucceeded(t, op, younger);
    } else {
      OtherActiveStays(t, op, younger);
    }
  }

  /** An active key that a younger active key has joined is never retired again: it stays active for good. */
  lemma {:induction false} OrphanNeverRetires(t: Table, ops: seq<Op>, kid: string, clock: int)
    requires Orphan(t, kid) && (forall k :: k in t ==> t[k].createdAt <= clock)
    requires Timed(ops) && forall op :: op in ops ==> clock <= op.now
    ensures Orphan(Run(t, ops), kid)
    ensures forall k :: k in Run(t, ops) ==> Run(t, ops)[k].createdAt <= if ops == [] then clock else ops[|ops| - 1].now
  {
    if ops != [] {
      var before := ops[..|ops| - 1];
      OrphanNeverRetires(t, before, kid, clock);
      StepKeepsOrphan(Run(t, before), ops[|ops| - 1], kid, if before == [] then clock else before[|before| - 1].now);
    }
  }

  /** An interrupted rotation leaves such an orphan: the key it could not retire. */
  lemma InterruptionMakesOrphan(t: Table, op: Op)
    requires Interrupts(t, Current(t), op) && op.kid !in t
    ensures Orphan(Step(t, op), Current(t).value)
  {
    var old' := Current(t).value;
    assert IsLatest(t, old');
    RotationShapes(t, Current(t), op.kid, op.now, op.failure);
    var t' := Step(t, op);
    assert t'[op.kid] == NewKey(op.kid, op.now) && t'[old'] == t[old'];
  }

  function Actives(t: Table): set<string> {
    set k | k in t && t[k].status == Active
  }

  ghost function Interruptions(ops: seq<Op>): nat {
    if ops == [] then 0
    else
      var t := Run(map[], ops[..|ops| - 1]);
      Interruptions(ops[..|ops| - 1]) + if Interrupts(t, Current(t), ops[|ops| - 1]) then 1 else 0
  }

  /** The latest active key was created strictly after every other active key. */
  ghost predicate Newest(t: Table, clock: int, latest: Option<string>) {
    && (latest.None? ==> t == map[])
    && (latest.Some? ==>
          && latest.value in t && t[latest.value].status == Active && t[latest.value].createdAt <= clock
          && forall k :: k in t && t[k].status == Active && k != latest.value ==> t[k].createdAt < t[latest.value].createdAt)
  }

  lemma NewestIsCurrent(t: Table, clock: int, latest: Option<string>)
    requires Newest(t, clock, latest)
    ensures Current(t) == latest
  {
    if latest.Some? {
      assert IsLatest(t, latest.value);
    }
  }

  lemma MintNewest(t: Table, clock: int, latest: Option<string>, kid: string, now: int)
    requires Newest(t, clock, latest) && clock <= now && kid !in t
    ensures var t' := MintedTable(t, latest, kid, now); var next := Successor(t, latest, kid, now);
      && Newest(t', now, Some(next))
      && Actives(t') == (if latest.None? then {kid} else Actives(t) - {latest.value} + {next})
  {
  }

  lemma CleanNewest(m: Table, t: Table, now: int, latest: string)
    requires Newest(m, now, Some(latest)) && Cleans(m, t, now)
    ensures Newest(t, now, Some(latest)) && Actives(t) == Actives(m)
  {
    assert forall k :: k in m && m[k].status == Active ==> k in t && t[k] == m[k];
    assert forall k :: k in t && t[k].status == Active ==> m[k].status == Active;
  }

  lemma SwapSize<T>(s: set<T>, x: T, y: T)
    requires x in s && (y == x || y !in s)
    ensures |s - {x} + {y}| == |s|
  {
    assert |s - {x}| == |s| - 1;
  }

  lemma BootNewest(t: Table, clock: int, latest: Option<string>, op: Op) returns (next: Option<string>)
    requires Newest(t, clock, latest) && clock <= op.now && op.kid !in t && op.Boot?
    ensures next.Some? && Newest(Step(t, op), op.now, next)
    ensures |Actives(Step(t, op))| == if latest.None? then 1 else |Actives(t)|
  {
    if latest.Some? {
      assert Advertised(t, latest.value);
      next := latest;
    } else {
      assert forall k :: !Advertised(t, k);
      next := Some(op.kid);
      assert Actives(Step(t, op)) == {op.kid};
    }
  }

  /** A rotation that neither stops nor is interrupted. */
  lemma RotateNewest(t: Table, clock: int, latest: Option<string>, op: Op)
    requires Newest(t, clock, latest) && clock <= op.now && op.kid !in t && op.Rotate?
    requires !Stops(t, latest, op.now, op.failure) && !Interrupts(t, latest, op)
    ensures var t' := RotatedTo(t, latest, op.kid, op.now, op.failure);
      && Newest(t', op.now, Some(Successor(t, latest, op.kid, op.now)))
      && |Actives(t')| == if latest.None? then 1 else |Actives(t)|
  {
    var m := MintedTable(t, latest, op.kid, op.now);
    var next := Successor(t, latest, op.kid, op.now);
    RotationShapes(t, latest, op.kid, op.now, op.failure);
    MintNewest(t, clock, latest, op.kid, op.now);
    CleanNewest(m, RotatedTo(t, latest, op.kid, op.now, op.failure), op.now, next);
    if latest.Some? {
      SwapSize(Actives(t), latest.value, next);
    }
  }

  /** The rotation stopped before it saved a first key. */
  predicate StopsEmpty(latest: Option<string>, t: Table, op: Op) {
    latest.None? && op.Rotate? && Stops(t, latest, op.now, op.failure)
  }

  lemma StepNewest(t: Table, clock: int, latest: Option<string>, op: Op) returns (next: Option<string>)
    requires Newest(t, clock, latest) && clock <= op.now && op.kid !in t
    ensures Newest(Step(t, op), op.now, next) && (next.None? <==> StopsEmpty(latest, t, op))
    ensures latest.None? ==> !Interrupts(t, Current(t), op) && |Actives(Step(t, op))| == if next.None? then 0 else 1
    ensures latest.Some? ==> |Actives(Step(t, op))| == |Actives(t)| + if Interrupts(t, Current(t), op) then 1 else 0
  {
    NewestIsCurrent(t, clock, latest);
    if op.Boot? {
      next := BootNewest(t, clock, latest, op);
    } else {
      RotationShapes(t, latest, op.kid, op.now, op.failure);
      if Interrupts(t, latest, op) {
        next := Some(op.kid);
        assert Actives(Step(t, op)) == Actives(t) + {op.kid};
      } else if Stops(t, latest, op.now, op.failure) {
        next := latest;
        if latest.None? {
          assert Actives(map[]) == {};
        }
      } else {
        next := Some(Successor(t, latest, op.kid, op.now));
        RotateNewest(t, clock, latest, op);
      }
    }
  }

  lemma {:induction false} RunNewest(ops: seq<Op>, clock: int) returns (latest: Option<string>)
    requires Timed(ops) && forall op :: op in ops ==> op.now <= clock
    ensures Newest(Run(map[], ops), clock, latest) && (latest.None? <==> Run(map[], ops) == map[])
    ensures latest.None? ==> Interruptions(ops) == 0
    ensures |Actives(Run(map[], ops))| == if latest.None? then 0 else 1 + Interruptions(ops)
  {
    if ops == [] {
      latest := None;
      assert Actives(map[]) == {};
    } else {
      var last := ops[|ops| - 1];
      latest := RunNewest(ops[..|ops| - 1], last.now);
      NewKid(ops);
      latest := StepNewest(Run(map[], ops[..|ops| - 1]), last.now, latest, last);
    }
  }

  /**
   * Over every run, whatever its rotations fail at, the active keys number one more than the refused retirements
   * once a key has been saved: exactly one is active if and only if no retirement was refused.
   */
  lemma OneActiveExactlyWithoutInterruption(ops: seq<Op>)
    requires Timed(ops) && Run(map[], ops) != map[]
    ensures |Actives(Run(map[], ops))| == 1 + Interruptions(ops)
    ensures |Actives(Run(map[], ops))| == 1 <==> Interruptions(ops) == 0
  {
    var _ := RunNewest(ops, if ops == [] then 0 else ops[|ops| - 1].now);
  }

  // ---------- How many keys are advertised ----------

  /** The latest active key, and every retirement no later than its creation. */
  ghost predicate Paced(t: Table, clock: int, latest: Option<string>) {
    && Newest(t, clock, latest) && Spaced(t)
    && (forall k :: k in t ==> (t[k].status == Active <==> t[k].retiredAt.None?))
    && (latest.Some? ==> forall k :: k in t && t[k].retiredAt.Some? ==> t[k].retiredAt.value <= t[latest.value].createdAt)
  }

  lemma PacedSpaced(t: Table, clock: int, latest: Option<string>, kid: string, now: int)
    requires Paced(t, clock, latest) && clock <= now && kid !in t
    ensures Spaced(MintedTable(t, latest, kid, now)) && Spaced(Saved(t, kid, now))
  {
    if Mints(t, latest, now) && latest.Some? {
      SpacedWithOne(t, MintedTable(t, latest, kid, now), latest.value, now);
    }
  }

  lemma MintPaced(t: Table, clock: int, latest: Option<string>, kid: string, now: int)
    requires Paced(t, clock, latest) && clock <= now && kid !in t
    ensures Paced(MintedTable(t, latest, kid, now), now, Some(Successor(t, latest, kid, now)))
    ensures latest.None? || Mints(t, latest, now) ==> Paced(Saved(t, kid, now), now, Some(kid))
  {
    PacedSpaced(t, clock, latest, kid, now);
    MintNewest(t, clock, latest, kid, now);
  }

  lemma CleanPaced(m: Table, t: Table, now: int, latest: string)
    requires Paced(m, now, Some(latest)) && Cleans(m, t, now)
    ensures Paced(t, now, Some(latest))
    ensures NoneOverdue(t, now) ==> InOverlap(t, now)
  {
    CleanNewest(m, t, now, latest);
    CleanKeepsSpaced(m, t, now);
  }

  /** A rotation keeps the pace; unless it fails in the demotion, or before it reaches it, no overlap is over. */
  lemma RotatePaced(t: Table, clock: int, latest: Option<string>, op: Op) returns (next: Option<string>)
    requires Paced(t, clock, latest) && clock <= op.now && op.kid !in t && op.Rotate?
    ensures Paced(Step(t, op), op.now, next)
    ensures !Stops(t, latest, op.now, op.failure) && !Interrupts(t, latest, op) && !op.failure.AtRelist? && !op.failure.AtExpire?
      ==> InOverlap(Step(t, op), op.now)
    ensures Stops(t, latest, op.now, op.failure) ==> Step(t, op) == t
    ensures Interrupts(t, latest, op) ==> Step(t, op) == Saved(t, op.kid, op.now)
  {
    NewestIsCurrent(t, clock, latest);
    RotationShapes(t, latest, op.kid, op.now, op.failure);
    MintPaced(t, clock, latest, op.kid, op.now);
    if Stops(t, latest, op.now, op.failure) {
      next := latest;
    } else if Interrupts(t, latest, op) {
      next := Some(op.kid);
    } else {
      next := Some(Successor(t, latest, op.kid, op.now));
      CleanPaced(MintedTable(t, latest, op.kid, op.now), Step(t, op), op.now, next.value);
    }
  }

  lemma BootPaced(t: Table, clock: int, latest: Option<string>, op: Op) returns (next: Option<string>)
    requires Paced(t, clock, latest) && clock <= op.now && op.kid !in t && op.Boot?
    ensures Paced(Step(t, op), op.now, next)
    ensures Step(t, op) == t || Step(t, op) == Saved(t, op.kid, op.now)
  {
    if latest.Some? {
      assert Advertised(t, latest.value);
      next := latest;
    } else {
      next := Some(op.kid);
    }
  }

  /** A new active key leaves the overlaps alone. */
  lemma SavedKeepsOverlap(t: Table, kid: string, now: int, mark: int)
    requires InOverlap(t, mark) && kid !in t
    ensures InOverlap(Saved(t, kid, now), mark)
  {
  }

  /** Every run keeps the pace; the mark is the time of its last demotion. */
  lemma {:induction false} EveryRunPaces(ops: seq<Op>, clock: int) returns (latest: Option<string>, mark: int)
    requires Timed(ops) && forall op :: op in ops ==> op.now <= clock
    ensures Paced(Run(map[], ops), clock, latest)
    ensures Demoting(ops) ==> InOverlap(Run(map[], ops), mark)
  {
    if ops == [] {
      latest, mark := None, clock;
    } else {
      var before := ops[..|ops| - 1];
      var last := ops[|ops| - 1];
      var t := Run(map[], before);
      latest, mark := EveryRunPaces(before, last.now);
      NewKid(ops);
      if Demoting(ops) {
        SavedKeepsOverlap(t, last.kid, last.now, mark);
      }
      if last.Boot? {
        latest := BootPaced(t, last.now, latest, last);
      } else {
        if !Stops(t, latest, last.now, last.failure) && !Interrupts(t, latest, last) {
          mark := last.now;
        }
        latest := RotatePaced(t, last.now, latest, last);
      }
    }
  }

  function AdvertisedKids(t: Table): set<string> {
    set k | k in t && Advertised(t, k)
  }

  lemma AdvertisedAre(t: Table)
    ensures |AdvertisedKids(t)| == |Actives(t)| + |set k | k in t && t[k].status == Retiring|
  {
    var retiring := set k | k in t && t[k].status == Retiring;
    assert AdvertisedKids(t) == Actives(t) + retiring && Actives(t) !! retiring;
  }

  /**
   * In every run without failed demotions, whatever else fails, at no time are more than three keys advertised
   * beyond one for each refused retirement.
   */
  lemma AdvertisedBound(ops: seq<Op>)
    requires Timed(ops) && Demoting(ops)
    ensures |AdvertisedKids(Run(map[], ops))| <= 3 + Interruptions(ops)
  {
    var clock := if ops == [] then 0 else ops[|ops| - 1].now;
    var _, mark := EveryRunPaces(ops, clock);
    var _ := RunNewest(ops, clock);
    RetiringAtMostTwo(Run(map[], ops), mark);
    AdvertisedAre(Run(map[], ops));
  }

  /** Failed demotions are made good: the bound holds after each rotation whose demotion completes, whatever failed before. */
  lemma AdvertisedBoundAfterDemotion(ops: seq<Op>)
    requires Timed(ops) && ops != [] && ops[|ops| - 1].Rotate?
    requires ops[|ops| - 1].failure.Completes? || ops[|ops| - 1].failure.AtPrune?
    ensures |AdvertisedKids(Run(map[], ops))| <= 3 + Interruptions(ops)
  {
    InOverlapAfterDemotion(ops);
    var _ := RunNewest(ops, ops[|ops| - 1].now);
    RetiringAtMostTwo(Run(map[], ops), ops[|ops| - 1].now);
    AdvertisedAre(Run(map[], ops));
  }

  lemma InOverlapAfterDemotion(ops: seq<Op>)
    requires Timed(ops) && ops != [] && ops[|ops| - 1].Rotate?
    requires ops[|ops| - 1].failure.Completes? || ops[|ops| - 1].failure.AtPrune?
    ensures Spaced(Run(map[], ops)) && InOverlap(Run(map[], ops), ops[|ops| - 1].now)
  {
    var last := ops[|ops| - 1];
    var before := ops[..|ops| - 1];
    var latest, _ := EveryRunPaces(before, last.now);
    NewKid(ops);
    var _ := RotatePaced(Run(map[], before), last.now, latest, last);
  }

  lemma {:induction false} NoInterruptions(ops: seq<Op>)
    requires Uninterrupted(ops)
    ensures Interruptions(ops) == 0
  {
    if ops != [] {
      NoInterruptions(ops[..|ops| - 1]);
    }
  }

  /** At no time are more than three keys advertised, if no retirement was refused and no demotion failed. */
  lemma AtMostThreeAdvertised(ops: seq<Op>)
    requires Timed(ops) && Uninterrupted(ops) && Demoting(ops)
    ensures |AdvertisedKids(Run(map[], ops))| <= 3
  {
    AdvertisedBound(ops);
    NoInterruptions(ops);
  }

  /** Whatever demotions failed before, three is the bound after each rotation whose demotion completes. */
  lemma AtMostThreeAfterDemotion(ops: seq<Op>)
    requires Timed(ops) && Uninterrupted(ops) && ops != [] && ops[|ops| - 1].Rotate?
    requires ops[|ops| - 1].failure.Completes? || ops[|ops| - 1].failure.AtPrune?
    ensures |AdvertisedKids(Run(map[], ops))| <= 3
  {
    AdvertisedBoundAfterDemotion(ops);
    NoInterruptions(ops);
  }

  // ---------- Row by row, and what is deleted ----------

  /** It is time for a new key: none is active, or the active one is a week old. */
  predicate Due(t: Table, active: Option<string>, now: int) {
    active.Some? && active.value in t ==> now - t[active.value].createdAt >= 604_800
  }

  /** The rotation makes all its calls: none of those it needs fails. */
  predicate Through(t: Table, active: Option<string>, now: int, f: Failure) {
    || f.Completes?
    || (f.AtMint? && !Due(t, active, now))
    || (f.AtRetire? && !(Due(t, active, now) && active.Some?))
  }

  /**
   * A rotation that goes through, row by row, in seconds: if it is time it saves a new active key and the previous
   * one retires; a retiring key expires fourteen days after its retirement; an expired one goes after thirty days.
   */
  lemma RotationByRow(t: Table, active: Option<string>, kid: string, now: int, f: Failure)
    requires kid !in t && (active.Some? ==> active.value in t && t[active.value].status == Active) && Through(t, active, now, f)
    ensures var t' := RotatedTo(t, active, kid, now, f); var due := Due(t, active, now);
      && (kid in t' <==> due) && (due ==> t'[kid] == Key(kid, Active, now, Some(now), None))
      && t'.Keys <= t.Keys + {kid}
      && forall k :: k in t ==>
           var row := t[k];
           var age := if row.retiredAt.None? then 0 else now - row.retiredAt.value;
           if due && active == Some(k) then k in t' && t'[k] == row.(status := Retiring, retiredAt := Some(now))
           else if row.retiredAt.Some? && row.status != Active && age > 2_592_000 then k !in t'
           else if row.retiredAt.Some? && row.status == Retiring && age >= 1_209_600 then
             k in t' && t'[k] == row.(status := Expired)
           else k in t' && t'[k] == row
  {
    assert Mints(t, active, now) <==> Due(t, active, now);
  }

  /**
   * A rotation that fails, row by row: it deletes nothing; a new key that is due is saved unless it failed before,
   * and the previous one retires unless that was what failed; overdue keys expire if the demotion got to them.
   */
  lemma FailureByRow(t: Table, active: Option<string>, kid: string, now: int, f: Failure)
    requires kid !in t && (active.Some? ==> active.value in t && t[active.value].status == Active) && !Through(t, active, now, f)
    ensures var t' := RotatedTo(t, active, kid, now, f); var minted := Due(t, active, now) && !f.AtStart? && !f.AtMint?;
      && (kid in t' <==> minted) && (minted ==> t'[kid] == Key(kid, Active, now, Some(now), None))
      && t'.Keys == (if minted then t.Keys + {kid} else t.Keys)
      && forall k :: k in t ==>
           var reached := f.AtPrune? || (f.AtExpire? && k in f.done);
           if minted && !f.AtRetire? && active == Some(k) then t'[k] == t[k].(status := Retiring, retiredAt := Some(now))
           else if reached && t[k].status == Retiring && t[k].retiredAt.Some? && now - t[k].retiredAt.value >= 1_209_600 then
             t'[k] == t[k].(status := Expired)
           else t'[k] == t[k]
  {
    assert Mints(t, active, now) <==> Due(t, active, now);
  }

  /** Current is an active key, so it is never one to delete. */
  lemma CurrentIsActive(t: Table)
    ensures Current(t).Some? ==> Current(t).value in t && t[Current(t).value].status == Active
  {
  }

  /**
   * In every run an operation deletes a key if and only if it is a rotation that goes through and the key, expired
   * before or expired by this rotation, retired more than thirty days before.
   */
  lemma DeletedExactly(ops: seq<Op>, k: string)
    requires Timed(ops) && ops != [] && k in Run(map[], ops[..|ops| - 1])
    ensures var t := Run(map[], ops[..|ops| - 1]); var op := ops[|ops| - 1];
      k !in Run(map[], ops) <==>
        && op.Rotate? && Through(t, Current(t), op.now, op.failure)
        && t[k].status != Active && t[k].retiredAt.Some? && t[k].retiredAt.value < op.now - 2_592_000
  {
    var t := Run(map[], ops[..|ops| - 1]);
    var op := ops[|ops| - 1];
    NewKid(ops);
    if op.Rotate? {
      CurrentIsActive(t);
      if Through(t, Current(t), op.now, op.failure) {
        RotationByRow(t, Current(t), op.kid, op.now, op.failure);
      } else {
        FailureByRow(t, Current(t), op.kid, op.now, op.failure);
      }
    }
  }

  /** After a rotation that goes through no stored key retired more than thirty days before. */
  lemma NothingOldIsKept(ops: seq<Op>, k: string)
    requires Timed(ops) && ops != [] && k in Run(map[], ops)
    requires var t := Run(map[], ops[..|ops| - 1]); var op := ops[|ops| - 1];
      op.Rotate? && Through(t, Current(t), op.now, op.failure)
    ensures var row := Run(map[], ops)[k]; row.retiredAt.Some? ==> row.retiredAt.value >= ops[|ops| - 1].now - 2_592_000
  {
    NewKid(ops);
    RetiredAreNotActive(ops[..|ops| - 1], ops[|ops| - 1].now);
    NoOldRow(Run(map[], ops[..|ops| - 1]), ops[|ops| - 1], k);
  }

  lemma RetiredAreNotActive(ops: seq<Op>, clock: int)
    requires Timed(ops) && forall op :: op in ops ==> op.now <= clock
    ensures forall k :: k in Run(map[], ops) ==> (Run(map[], ops)[k].status == Active <==> Run(map[], ops)[k].retiredAt.None?)
  {
    var _, _ := EveryRunPaces(ops, clock);
  }

  lemma NoOldRow(t: Table, op: Op, k: string)
    requires op.Rotate? && op.kid !in t && Through(t, Current(t), op.now, op.failure) && k in Step(t, op)
    requires forall j :: j in t ==> (t[j].status == Active <==> t[j].retiredAt.None?)
    ensures Step(t, op)[k].retiredAt.Some? ==> Step(t, op)[k].retiredAt.value >= op.now - 2_592_000
  {
    CurrentIsActive(t);
    RotationByRow(t, Current(t), op.kid, op.now, op.failure);
  }
}
