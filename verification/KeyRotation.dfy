/**
 * Weekly rotation of the signing keys, with overlapping retirement: the stored rows, the rotation as it
 * saves and changes them row by row, and its guarantees over whole runs. Times are seconds.
 */
module KeyRotation {
  import opened Common

  const DAY := 86_400
  const ACTIVE_MAX_AGE := 7 * DAY
  const RETIRING_OVERLAP := 14 * DAY
  const PRUNE_AGE := 30 * DAY

  datatype Status = Active | Retiring | Expired

  datatype Key = Key(kid: string, status: Status, createdAt: int, activatedAt: Option<int>, retiredAt: Option<int>)

  type Table = map<string, Key>

  /** An active key no other active key was created after. */
  ghost predicate IsLatest(t: Table, kid: string) {
    && kid in t && t[kid].status == Active
    && forall k :: k in t && t[k].status == Active ==> t[k].createdAt <= t[kid].createdAt
  }

  ghost predicate LatestOf(t: Table, active: Option<string>) {
    match active
    case None => forall k :: k in t ==> t[k].status != Active
    case Some(kid) => IsLatest(t, kid)
  }

  function NewKey(kid: string, now: int): Key {
    Key(kid, Active, now, Some(now), None)
  }

  predicate Mints(t: Table, active: Option<string>, now: int) {
    active.None? || active.value !in t || now - t[active.value].createdAt >= ACTIVE_MAX_AGE
  }

  function Saved(t: Table, kid: string, now: int): Table {
    t[kid := NewKey(kid, now)]
  }

  function Retired(t: Table, kid: string, now: int): Table {
    if kid in t then t[kid := t[kid].(status := Retiring, retiredAt := Some(now))] else t
  }

  predicate Overdue(k: Key, now: int) {
    k.status == Retiring && k.retiredAt.Some? && now - k.retiredAt.value >= RETIRING_OVERLAP
  }

  function Demoted(t: Table, now: int): Table {
    map k | k in t :: if Overdue(t[k], now) then t[k].(status := Expired) else t[k]
  }

  predicate Prunable(k: Key, now: int) {
    k.status == Expired && k.retiredAt.Some? && k.retiredAt.value < now - PRUNE_AGE
  }

  function Pruned(t: Table, now: int): Table {
    map k | k in t && !Prunable(t[k], now) :: t[k]
  }

  function MintedTable(t: Table, active: Option<string>, kid: string, now: int): Table {
    if !Mints(t, active, now) then t
    else if active.None? then Saved(t, kid, now)
    else Retired(Saved(t, kid, now), active.value, now)
  }

  /** A rotation that completes. */
  function Rotated(t: Table, active: Option<string>, kid: string, now: int): Table {
    Pruned(Demoted(MintedTable(t, active, kid, now), now), now)
  }

  /** A demotion that got as far as the keys in `done`. */
  function DemotedSome(t: Table, now: int, done: set<string>): Table {
    map k | k in t :: if k in done && Overdue(t[k], now) then t[k].(status := Expired) else t[k]
  }

  /** The store call a rotation fails at; for the demotion, the keys expired before. */
  datatype Failure = Completes | AtStart | AtMint | AtRetire | AtRelist | AtExpire(done: set<string>) | AtPrune

  /** What a rotation leaves, whether it completes or fails; a failure at a call it does not make does not count. */
  function RotatedTo(t: Table, active: Option<string>, kid: string, now: int, f: Failure): Table {
    match f
    case Completes => Rotated(t, active, kid, now)
    case AtStart => t
    case AtMint => if Mints(t, active, now) then t else Rotated(t, active, kid, now)
    case AtRetire => if Mints(t, active, now) && active.Some? then Saved(t, kid, now) else Rotated(t, active, kid, now)
    case AtRelist => MintedTable(t, active, kid, now)
    case AtExpire(done) => DemotedSome(MintedTable(t, active, kid, now), now, done)
    case AtPrune => Demoted(MintedTable(t, active, kid, now), now)
  }

  /** Which call of the store, or of the key generator, errs; of the demotion's updates, the one after so many. */
  datatype Fault = NoFault | ListFails | GenerateFails | SaveFails | RetireFails | RelistFails | ExpireFails(after: nat) | PruneFails

  /** Where a rotation with a fault fails, if it makes the call at all. */
  ghost predicate FailsAt(t: Table, active: Option<string>, kid: string, now: int, fault: Fault, f: Failure) {
    match fault
    case NoFault => f == Completes
    case ListFails => f == AtStart
    case GenerateFails => f == if Mints(t, active, now) then AtMint else Completes
    case SaveFails => f == if Mints(t, active, now) then AtMint else Completes
    case RetireFails => f == if Mints(t, active, now) && active.Some? then AtRetire else Completes
    case RelistFails => f == AtRelist
    case ExpireFails(n) =>
      var overdue := OverdueKids(MintedTable(t, active, kid, now), now);
      if |overdue| > n then f.AtExpire? && f.done <= overdue && |f.done| == n else f == Completes
    case PruneFails => f == AtPrune
  }

  function OverdueKids(t: Table, now: int): set<string> {
    set k | k in t && Overdue(t[k], now)
  }

  predicate Advertised(t: Table, kid: string) {
    kid in t && t[kid].status != Expired
  }

  /** The rows in order of creation, each once. */
  ghost predicate Listing(t: Table, all: seq<Key>) {
    && (forall k :: k in all <==> k.kid in t && t[k.kid] == k)
    && (forall i, j :: 0 <= i < j < |all| ==> all[i].createdAt <= all[j].createdAt && all[i].kid != all[j].kid)
  }

  ghost predicate Named(t: Table) {
    forall k :: k in t ==> t[k].kid == k
  }

  class Manager {
    var keys: Table

    constructor ()
      ensures keys == map[]
    {
      keys := map[];
    }

    // ---------- The key store ----------

    method ListAll() returns (all: seq<Key>)
      requires Named(keys)
      ensures Listing(keys, all)
    {
      all := [];
      var kids := keys.Keys;
      while kids != {}
        invariant kids <= keys.Keys
        invariant forall k :: k in all <==> k.kid in keys && keys[k.kid] == k && k.kid !in kids
        invariant forall i, j :: 0 <= i < j < |all| ==> all[i].createdAt <= all[j].createdAt && all[i].kid != all[j].kid
        invariant forall k, kid :: k in all && kid in kids ==> k.createdAt <= keys[kid].createdAt
        decreases kids
      {
        var first := Oldest(kids);
        all := all + [keys[first]];
        kids := kids - {first};
      }
    }

    method Oldest(kids: set<string>) returns (first: string)
      requires kids != {} && kids <= keys.Keys
      ensures first in kids && forall k :: k in kids ==> keys[first].createdAt <= keys[k].createdAt
    {
      first :| first in kids;
      var rest := kids - {first};
      while rest != {}
        invariant rest <= kids && first in kids
        invariant forall k :: k in kids - rest ==> keys[first].createdAt <= keys[k].createdAt
        decreases rest
      {
        var k :| k in rest;
        if keys[k].createdAt < keys[first].createdAt {
          first := k;
        }
        rest := rest - {k};
      }
    }

    method UpdateStatus(kid: string, status: Status, retiredAt: Option<int>)
      requires kid in keys
      modifies this
      ensures keys == old(keys)[kid := old(keys)[kid].(status := status, retiredAt := retiredAt)]
    {
      keys := keys[kid := keys[kid].(status := status, retiredAt := retiredAt)];
    }

    method Prune(cutoff: int)
      modifies this
      ensures keys == map k | k in old(keys) &&
        !(old(keys)[k].status == Expired && old(keys)[k].retiredAt.Some? && old(keys)[k].retiredAt.value < cutoff) :: old(keys)[k]
    {
      keys := map k | k in keys &&
        !(keys[k].status == Expired && keys[k].retiredAt.Some? && keys[k].retiredAt.value < cutoff) :: keys[k];
    }

    // ---------- Rotation ----------

    /** The most recently created active key of a listing, by a scan with a running best. */
    method LatestActive(all: seq<Key>) returns (best: Option<Key>)
      ensures best.None? ==> forall k :: k in all ==> k.status != Active
      ensures best.Some? ==> best.value in all && best.value.status == Active
      ensures best.Some? ==> forall k :: k in all && k.status == Active ==> k.createdAt <= best.value.createdAt
    {
      best := None;
      for i := 0 to |all|
        invariant best.None? ==> forall j :: 0 <= j < i ==> all[j].status != Active
        invariant best.Some? ==> best.value in all && best.value.status == Active
        invariant best.Some? ==> forall j :: 0 <= j < i && all[j].status == Active ==> all[j].createdAt <= best.value.createdAt
      {
        if all[i].status != Active {
          continue;
        }
        if best.None? || best.value.createdAt < all[i].createdAt {
          best := Some(all[i]);
        }
      }
    }

    /** One row of the demotion; the update errs if it is made and `errs` is set. */
    method ExpireIfDue(key: Key, now: int, errs: bool) returns (expired: bool, failed: bool)
      requires key.kid in keys && keys[key.kid] == key
      modifies this
      ensures expired <==> Overdue(key, now) && !errs
      ensures failed <==> Overdue(key, now) && errs
      ensures keys == if expired then old(keys)[key.kid := key.(status := Expired)] else old(keys)
    {
      if key.status != Retiring {
        return false, false;
      }
      if key.retiredAt.None? {
        return false, false;
      }
      if now - key.retiredAt.value >= RETIRING_OVERLAP {
        if errs {
          return false, true;
        }
        UpdateStatus(key.kid, Expired, key.retiredAt);
        return true, false;
      }
      return false, false;
    }

    /** Expires the retiring keys whose overlap is over, row by row, until an update fails. */
    method DemoteOverdue(now: int, failAfter: Option<nat>) returns (ok: bool, ghost done: set<string>)
      requires Named(keys)
      modifies this
      ensures done <= OverdueKids(old(keys), now) && keys == DemotedSome(old(keys), now, done)
      ensures ok <==> failAfter.None? || |OverdueKids(old(keys), now)| <= failAfter.value
      ensures ok ==> done == OverdueKids(old(keys), now)
      ensures !ok ==> |done| == failAfter.value
    {
      var all := ListAll();
      ghost var start := keys;
      var updates := 0;
      for i := 0 to |all|
        invariant keys == DemotedRows(start, all[..i], now) && updates == DueCount(all[..i], now)
        invariant failAfter.Some? ==> updates <= failAfter.value
      {
        assert all[..i + 1][..i] == all[..i];
        RowIsUntouched(start, all, i, now);
        var expired, failed := ExpireIfDue(all[i], now, failAfter.Some? && updates == failAfter.value);
        if failed {
          done := DueAmong(start, all[..i], now);
          PartlyDemoted(start, all, i, now);
          return false, done;
        }
        if expired {
          updates := updates + 1;
        }
      }
      done := OverdueKids(start, now);
      AllDemoted(start, all, now);
      return true, done;
    }

    /** One rotation, with at most one call that errs. */
    method Rotate(now: int, newKid: string, fault: Fault)
      returns (ok: bool, ghost active: Option<string>, ghost failure: Failure)
      requires Named(keys) && newKid !in keys
      modifies this
      ensures Named(keys) && LatestOf(old(keys), active)
      ensures FailsAt(old(keys), active, newKid, now, fault, failure)
      ensures ok <==> failure.Completes?
      ensures keys == RotatedTo(old(keys), active, newKid, now, failure)
    {
      var all := ListAll();
      var latest := LatestActive(all);
      active := if latest.None? then None else Some(latest.value.kid);
      assert LatestOf(keys, active) by {
        assert forall k :: k in keys ==> keys[k] in all;
      }
      if fault.ListFails? {
        return false, active, AtStart;
      }
      ok, failure := MintIfDue(latest, now, newKid, fault);
      if !ok {
        return false, active, failure;
      }
      if fault.RelistFails? {
        return false, active, AtRelist;
      }
      ok, failure := Clean(now, fault);
      return ok, active, failure;
    }

    /** The first half of a rotation: save a new key if it is time, then retire the previous one. */
    method MintIfDue(latest: Option<Key>, now: int, newKid: string, fault: Fault) returns (ok: bool, ghost failure: Failure)
      requires Named(keys) && newKid !in keys && (latest.Some? ==> latest.value.kid in keys && keys[latest.value.kid] == latest.value)
      modifies this
      ensures Named(keys)
      ensures var t := old(keys); var active := if latest.None? then None else Some(latest.value.kid);
        if (fault.GenerateFails? || fault.SaveFails?) && Mints(t, active, now) then !ok && failure == AtMint && keys == t
        else if fault.RetireFails? && active.Some? && Mints(t, active, now) then
          !ok && failure == AtRetire && keys == Saved(t, newKid, now)
        else ok && keys == MintedTable(t, active, newKid, now)
    {
      failure := Completes;
      if latest.None? || now - latest.value.createdAt >= ACTIVE_MAX_AGE {
        if fault.GenerateFails? || fault.SaveFails? {
          return false, AtMint;
        }
        keys := keys[newKid := Key(newKid, Active, now, Some(now), None)];
        if latest.Some? {
          if fault.RetireFails? {
            return false, AtRetire;
          }
          UpdateStatus(latest.value.kid, Retiring, Some(now));
        }
      }
      return true, failure;
    }

    /** The second half of a rotation: demote, then prune. */
    method Clean(now: int, fault: Fault) returns (ok: bool, ghost failure: Failure)
      requires Named(keys)
      modifies this
      ensures Named(keys) && ok <==> failure.Completes?
      ensures fault.ExpireFails? && |OverdueKids(old(keys), now)| > fault.after ==>
        failure.AtExpire? && failure.done <= OverdueKids(old(keys), now) && |failure.done| == fault.after
        && keys == DemotedSome(old(keys), now, failure.done)
      ensures fault.PruneFails? ==> failure.AtPrune? && keys == Demoted(old(keys), now)
      ensures !fault.PruneFails? && !(fault.ExpireFails? && |OverdueKids(old(keys), now)| > fault.after) ==>
        failure.Completes? && keys == Pruned(Demoted(old(keys), now), now)
    {
      ghost var start := keys;
      ghost var done: set<string>;
      ok, done := DemoteOverdue(now, if fault.ExpireFails? then Some(fault.after) else None);
      if !ok {
        return false, AtExpire(done);
      }
      DemotedAll(start, now);
      if fault.PruneFails? {
        return false, AtPrune;
      }
      Prune(now - PRUNE_AGE);
      return true, Completes;
    }

    /** First boot: a key is generated only when nothing is advertised. */
    method EnsureInitialKey(now: int, newKid: string)
      requires Named(keys) && newKid !in keys
      modifies this
      ensures Named(keys)
      ensures keys == if exists k :: Advertised(old(keys), k) then old(keys) else Saved(old(keys), newKid, now)
    {
      var public := set k | k in keys && keys[k].status != Expired;
      if public != {} {
        var k :| k in public;
        assert Advertised(keys, k);
        return;
      }
      assert forall k :: Advertised(keys, k) ==> k in public;
      keys := keys[newKid := Key(newKid, Active, now, Some(now), None)];
    }

    /** The key new tokens are signed with: the most recently created active one. */
    method GetActiveSigner() returns (signer: Option<Key>)
      requires Named(keys)
      ensures LatestOf(keys, if signer.None? then None else Some(signer.value.kid))
      ensures signer.Some? ==> keys[signer.value.kid] == signer.value
    {
      var all := ListAll();
      signer := LatestActive(all);
      assert forall k :: k in keys ==> keys[k] in all;
    }
  }

  // ---------- The rows the demotion has passed ----------

  /** The overdue keys among the rows passed. */
  ghost function DueAmong(t: Table, rows: seq<Key>, now: int): set<string> {
    set k | k in t && t[k] in rows && Overdue(t[k], now)
  }

  lemma DueNext(t: Table, all: seq<Key>, i: nat, now: int)
    requires Named(t) && Listing(t, all) && i < |all|
    ensures var due := DueAmong(t, all[..i], now); var kid := all[i].kid;
      && kid in t && t[kid] == all[i] && kid !in due
      && DueAmong(t, all[..i + 1], now) == if Overdue(all[i], now) then due + {kid} else due
  {
    assert all[i] in all && all[..i + 1] == all[..i] + [all[i]];
    assert forall j :: 0 <= j < i ==> all[..i][j].kid != all[i].kid;
  }

  lemma DemotedAll(t: Table, now: int)
    ensures DemotedSome(t, now, OverdueKids(t, now)) == Demoted(t, now)
  {
  }

  /** The table once the rows have been passed, one by one. */
  function DemotedRows(t: Table, rows: seq<Key>, now: int): Table {
    if rows == [] then t
    else
      var key := rows[|rows| - 1];
      var before := DemotedRows(t, rows[..|rows| - 1], now);
      if Overdue(key, now) then before[key.kid := key.(status := Expired)] else before
  }

  function DueCount(rows: seq<Key>, now: int): nat {
    if rows == [] then 0 else DueCount(rows[..|rows| - 1], now) + if Overdue(rows[|rows| - 1], now) then 1 else 0
  }

  lemma {:induction false} DemotedRowsAre(t: Table, all: seq<Key>, i: nat, now: int)
    requires Named(t) && Listing(t, all) && i <= |all|
    ensures var due := DueAmong(t, all[..i], now);
      DemotedRows(t, all[..i], now) == DemotedSome(t, now, due) && DueCount(all[..i], now) == |due|
  {
    if i == 0 {
      NothingDue(t, now);
    } else {
      DemotedRowsAre(t, all, i - 1, now);
      DueNext(t, all, i - 1, now);
      DemotedRowsNext(t, all[..i - 1], all[i - 1], DueAmong(t, all[..i - 1], now), now);
      assert all[..i] == all[..i - 1] + [all[i - 1]];
    }
  }

  lemma DemotedRowsNext(t: Table, rows: seq<Key>, key: Key, due: set<string>, now: int)
    requires DemotedRows(t, rows, now) == DemotedSome(t, now, due) && DueCount(rows, now) == |due|
    requires key.kid in t && t[key.kid] == key && key.kid !in due
    ensures var due' := if Overdue(key, now) then due + {key.kid} else due;
      DemotedRows(t, rows + [key], now) == DemotedSome(t, now, due') && DueCount(rows + [key], now) == |due'|
  {
    assert (rows + [key])[..|rows|] == rows;
    if Overdue(key, now) {
      DemoteOneMore(t, now, due, key.kid);
    }
  }

  lemma NothingDue(t: Table, now: int)
    ensures DueAmong(t, [], now) == {} && DemotedSome(t, now, {}) == t
  {
  }

  lemma DemoteOneMore(t: Table, now: int, due: set<string>, kid: string)
    requires kid in t && Overdue(t[kid], now)
    ensures DemotedSome(t, now, due)[kid := t[kid].(status := Expired)] == DemotedSome(t, now, due + {kid})
  {
    var next := DemotedSome(t, now, due + {kid});
    assert next.Keys == DemotedSome(t, now, due).Keys;
    forall k | k in t && k != kid ensures next[k] == DemotedSome(t, now, due)[k] {
    }
  }

  lemma RowIsUntouched(t: Table, all: seq<Key>, i: nat, now: int)
    requires Named(t) && Listing(t, all) && i < |all|
    ensures var key := all[i]; var before := DemotedRows(t, all[..i], now); key.kid in before && before[key.kid] == key
  {
    DemotedRowsAre(t, all, i, now);
    DueNext(t, all, i, now);
  }

  lemma PartlyDemoted(t: Table, all: seq<Key>, i: nat, now: int)
    requires Named(t) && Listing(t, all) && i < |all| && Overdue(all[i], now)
    ensures var due := DueAmong(t, all[..i], now);
      && due <= OverdueKids(t, now) && DueCount(all[..i], now) == |due| < |OverdueKids(t, now)|
      && DemotedRows(t, all[..i], now) == DemotedSome(t, now, due)
  {
    DemotedRowsAre(t, all, i, now);
    DueNext(t, all, i, now);
    SubsetSize(DueAmong(t, all[..i], now) + {all[i].kid}, OverdueKids(t, now));
  }

  lemma AllDemoted(t: Table, all: seq<Key>, now: int)
    requires Named(t) && Listing(t, all)
    ensures var due := OverdueKids(t, now);
      DueCount(all[..|all|], now) == |due| && DemotedRows(t, all[..|all|], now) == DemotedSome(t, now, due)
  {
    DemotedRowsAre(t, all, |all|, now);
    assert all[..|all|] == all;
    assert forall k :: k in t ==> t[k] in all;
    assert DueAmong(t, all[..|all|], now) == OverdueKids(t, now);
  }
}
