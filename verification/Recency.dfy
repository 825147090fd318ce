/**
 * Least-recently-used lists, most recent first, and what they say about the history of uses.
 * The rate limiter's bucket list, the outbound registry and the token cache all follow this order.
 */
module Recency {
  import opened Common

  function Without<K(==)>(s: seq<K>, k: K): seq<K> {
    if s == [] then []
    else if s[0] == k then Without(s[1..], k)
    else [s[0]] + Without(s[1..], k)
  }

  /** Using a key moves it to the front. */
  function Touch<K(==)>(s: seq<K>, k: K): seq<K> {
    [k] + Without(s, k)
  }

  /** The distinct keys of a history, most recently used first. */
  function Recent<K(==)>(uses: seq<K>): seq<K> {
    if uses == [] then [] else Touch(Recent(uses[..|uses| - 1]), uses[|uses| - 1])
  }

  /** The other keys used since the last use of k. */
  function SinceLast<K(==)>(uses: seq<K>, k: K): set<K> {
    if uses == [] || uses[|uses| - 1] == k then {}
    else SinceLast(uses[..|uses| - 1], k) + {uses[|uses| - 1]}
  }

  ghost predicate Distinct<K>(s: seq<K>) {
    forall i, j :: 0 <= i < j < |s| ==> s[i] != s[j]
  }

  /** The first cap elements, or all if there are fewer. */
  function Take<K>(s: seq<K>, cap: nat): seq<K> {
    s[..Min(cap, |s|)]
  }

  function Elements<K>(s: seq<K>): set<K> {
    set x | x in s
  }

  lemma {:induction false} WithoutMembers<K>(s: seq<K>, k: K)
    ensures forall x :: x in Without(s, k) <==> x in s && x != k
    ensures |Without(s, k)| <= |s|
  {
    if s != [] {
      WithoutMembers(s[1..], k);
    }
  }

  lemma {:induction false} WithoutAbsent<K>(s: seq<K>, k: K)
    requires k !in s
    ensures Without(s, k) == s
  {
    if s != [] {
      WithoutAbsent(s[1..], k);
    }
  }

  /** Removing the key at position i of a duplicate-free list. */
  lemma {:induction false} WithoutAt<K>(s: seq<K>, i: nat)
    requires Distinct(s) && i < |s|
    ensures Without(s, s[i]) == s[..i] + s[i + 1..]
  {
    if i == 0 {
      assert s[0] !in s[1..];
      WithoutAbsent(s[1..], s[0]);
    } else {
      WithoutAt(s[1..], i - 1);
      assert s[1..][..i - 1] == s[1..i];
      assert s[1..][i..] == s[i + 1..];
    }
  }

  lemma WithoutDistinct<K>(s: seq<K>, k: K)
    requires Distinct(s)
    ensures Distinct(Without(s, k)) && Distinct(Touch(s, k))
  {
    WithoutMembers(s, k);
    if k in s {
      var i :| 0 <= i < |s| && s[i] == k;
      WithoutAt(s, i);
    } else {
      WithoutAbsent(s, k);
    }
  }

  lemma {:induction false} RecentSound<K>(uses: seq<K>)
    ensures Distinct(Recent(uses))
    ensures forall k :: k in Recent(uses) <==> k in uses
  {
    if uses != [] {
      var before := uses[..|uses| - 1];
      RecentSound(before);
      WithoutDistinct(Recent(before), uses[|uses| - 1]);
      WithoutMembers(Recent(before), uses[|uses| - 1]);
      assert uses == before + [uses[|uses| - 1]];
    }
  }

  lemma {:induction false} DistinctSize<K>(s: seq<K>)
    requires Distinct(s)
    ensures |Elements(s)| == |s|
  {
    if s == [] {
      assert Elements(s) == {};
    } else {
      DistinctSize(s[1..]);
      assert s[0] !in s[1..];
      assert Elements(s) == {s[0]} + Elements(s[1..]);
    }
  }

  /** Using another key puts that key, and nothing else, in front of the key at position i. */
  lemma TouchOther<K>(s: seq<K>, i: nat, other: K) returns (i': nat)
    requires Distinct(s) && i < |s| && s[i] != other
    ensures i' < |Touch(s, other)| && Touch(s, other)[i'] == s[i]
    ensures forall x :: x in Touch(s, other)[..i'] <==> x == other || x in s[..i]
  {
    if other in s {
      var j :| 0 <= j < |s| && s[j] == other;
      WithoutAt(s, j);
      if j < i {
        i' := i;
        assert Touch(s, other)[..i] == [other] + s[..j] + s[j + 1..i];
        assert s[..i] == s[..j] + [other] + s[j + 1..i];
      } else {
        i' := i + 1;
        assert Touch(s, other)[..i + 1] == [other] + s[..i];
      }
    } else {
      WithoutAbsent(s, other);
      i' := i + 1;
      assert Touch(s, other)[..i + 1] == [other] + s[..i];
    }
  }

  /** The keys in front of k are exactly those used since, and their number is its position. */
  lemma {:induction false} RankIsDistinctSince<K>(uses: seq<K>, k: K) returns (i: nat)
    requires k in uses
    ensures i < |Recent(uses)| && Recent(uses)[i] == k
    ensures Elements(Recent(uses)[..i]) == SinceLast(uses, k)
    ensures i == |SinceLast(uses, k)|
  {
    var n := |uses| - 1;
    var last := uses[n];
    var before := uses[..n];
    RecentSound(uses);
    if last == k {
      i := 0;
      assert Elements(Recent(uses)[..0]) == {};
    } else {
      assert uses == before + [last];
      RecentSound(before);
      var i0 := RankIsDistinctSince(before, k);
      i := TouchOther(Recent(before), i0, last);
      assert Elements(Recent(uses)[..i]) == Elements(Recent(before)[..i0]) + {last};
    }
    DistinctSize(Recent(uses)[..i]);
  }

  /** Truncating to a capacity keeps k exactly when fewer than that many other keys were used since. */
  lemma KeptExactlyWhenRecent<K>(uses: seq<K>, k: K, cap: nat)
    ensures k in Take(Recent(uses), cap) <==> k in uses && |SinceLast(uses, k)| < cap
  {
    RecentSound(uses);
    if k in uses {
      var i := RankIsDistinctSince(uses, k);
      if i < cap {
        assert Take(Recent(uses), cap)[i] == k;
      }
    }
  }

  lemma TouchAt<K>(s: seq<K>, i: nat)
    requires Distinct(s) && i < |s|
    ensures Touch(s, s[i]) == [s[i]] + s[..i] + s[i + 1..]
  {
    WithoutAt(s, i);
  }

  lemma MovedPrefix<K>(s: seq<K>, i: nat, c: nat)
    requires i < c <= |s|
    ensures ([s[i]] + s[..i] + s[i + 1..])[..c] == [s[i]] + s[..c][..i] + s[..c][i + 1..]
  {
  }

  /** Truncating before using a key makes no difference to the truncated result. */
  lemma TouchTruncated<K>(s: seq<K>, k: K, cap: nat)
    requires Distinct(s) && cap > 0
    ensures Take(Touch(Take(s, cap), k), cap) == Take(Touch(s, k), cap)
  {
    var t := Take(s, cap);
    if k in t {
      var i :| 0 <= i < |t| && t[i] == k;
      TouchAt(s, i);
      TouchAt(t, i);
      MovedPrefix(s, i, |t|);
    } else {
      WithoutAbsent(t, k);
      if k in s {
        var i :| 0 <= i < |s| && s[i] == k;
        assert i >= |t|;
        TouchAt(s, i);
      } else {
        WithoutAbsent(s, k);
      }
    }
  }

  // ---------- Keeping only the keys of a set ----------

  /** The keys of a set, in the order of the list. */
  function Keep<K(==)>(s: seq<K>, keys: set<K>): seq<K> {
    if s == [] then []
    else if s[0] in keys then [s[0]] + Keep(s[1..], keys)
    else Keep(s[1..], keys)
  }

  lemma {:induction false} KeepMembers<K>(s: seq<K>, keys: set<K>)
    ensures forall x :: x in Keep(s, keys) <==> x in s && x in keys
    ensures Distinct(s) ==> Distinct(Keep(s, keys))
  {
    if s != [] {
      KeepMembers(s[1..], keys);
    }
  }

  lemma {:induction false} KeepAll<K>(s: seq<K>, keys: set<K>)
    requires forall x :: x in s ==> x in keys
    ensures Keep(s, keys) == s
  {
    if s != [] {
      KeepAll(s[1..], keys);
    }
  }

  /** Dropping one key from the kept set drops that key from the kept list. */
  lemma {:induction false} KeepLess<K>(s: seq<K>, keys: set<K>, k: K)
    ensures Keep(s, keys - {k}) == Without(Keep(s, keys), k)
  {
    if s != [] {
      KeepLess(s[1..], keys, k);
    }
  }

  lemma {:induction false} KeepShorter<K>(s: seq<K>, keys: set<K>)
    ensures |Keep(s, keys)| <= |s|
  {
    if s != [] {
      KeepShorter(s[1..], keys);
    }
  }

  // ---------- Lists that have lost keys ----------

  /** Every key in front of another has been used since that other's last use. */
  ghost predicate UsedSince(recent: seq<string>, uses: seq<string>) {
    forall i, j :: 0 <= i < j < |recent| ==> recent[i] in SinceLast(uses, recent[j])
  }

  lemma {:induction false} UsedSinceWithout(recent: seq<string>, uses: seq<string>, k: string)
    requires UsedSince(recent, uses)
    ensures UsedSince(Without(recent, k), uses)
  {
    if recent != [] {
      UsedSinceWithout(recent[1..], uses, k);
      WithoutMembers(recent[1..], k);
      assert forall x :: x in recent[1..] ==> recent[0] in SinceLast(uses, x);
    }
  }

  lemma {:induction false} UsedSinceKeep(recent: seq<string>, uses: seq<string>, keys: set<string>)
    requires UsedSince(recent, uses)
    ensures UsedSince(Keep(recent, keys), uses)
  {
    if recent != [] {
      UsedSinceKeep(recent[1..], uses, keys);
      KeepMembers(recent[1..], keys);
      assert forall x :: x in recent[1..] ==> recent[0] in SinceLast(uses, x);
    }
  }

  lemma SinceSnoc(uses: seq<string>, k: string)
    ensures forall x :: x != k ==> SinceLast(uses + [k], x) == SinceLast(uses, x) + {k}
  {
    assert (uses + [k])[..|uses|] == uses;
  }

  /** Putting k in front of a list without k. */
  lemma UsedSinceCons(recent: seq<string>, uses: seq<string>, k: string)
    requires UsedSince(recent, uses) && k !in recent
    ensures UsedSince([k] + recent, uses + [k])
  {
    SinceSnoc(uses, k);
  }

  lemma UsedSinceTouch(recent: seq<string>, uses: seq<string>, k: string)
    requires UsedSince(recent, uses)
    ensures UsedSince(Touch(recent, k), uses + [k])
  {
    UsedSinceWithout(recent, uses, k);
    WithoutMembers(recent, k);
    UsedSinceCons(Without(recent, k), uses, k);
  }
}
