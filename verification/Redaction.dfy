/**
 * Secrets in channel configurations: redaction at dotted paths on the way out, and the merge that puts the
 * stored secrets back when the client echoes the sentinel. Configurations are parsed JSON objects.
 */
module Redaction {
  import opened Common

  datatype Json = Obj(fields: Object) | Str(text: string) | Other(literal: string)

  type Object = map<string, Json>

  /** Eight bullets, as the API shows in place of a secret. */
  const SENTINEL := Str("\U{2022}\U{2022}\U{2022}\U{2022}\U{2022}\U{2022}\U{2022}\U{2022}")

  /** A secret's position: the parts of its dotted path. */
  type Path = p: seq<string> | p != [] witness [""]

  predicate Descends(m: Object, key: string) {
    key in m && m[key].Obj?
  }

  function Redact(m: Object, path: Path): Object
    decreases |path|
  {
    var key := path[0];
    if |path| == 1 then (if key in m then m[key := SENTINEL] else m)
    else if Descends(m, key) then m[key := Obj(Redact(m[key].fields, path[1..]))]
    else m
  }

  function Merge(edited: Object, stored: Object, path: Path): Object
    decreases |path|
  {
    var key := path[0];
    if |path| == 1 then
      (if key in edited && edited[key] == SENTINEL && key in stored then edited[key := stored[key]] else edited)
    else if Descends(edited, key) && Descends(stored, key) then
      edited[key := Obj(Merge(edited[key].fields, stored[key].fields, path[1..]))]
    else edited
  }

  function RedactAll(m: Object, paths: seq<Path>): Object {
    if paths == [] then m else RedactAll(Redact(m, paths[0]), paths[1..])
  }

  function MergeAll(edited: Object, stored: Object, paths: seq<Path>): Object {
    if paths == [] then edited else MergeAll(Merge(edited, stored, paths[0]), stored, paths[1..])
  }

  /** The value at a position, if the path reaches one. */
  function Get(m: Object, path: Path): Option<Json>
    decreases |path|
  {
    var key := path[0];
    if |path| == 1 then (if key in m then Some(m[key]) else None)
    else if Descends(m, key) then Get(m[key].fields, path[1..])
    else None
  }

  // ---------- What one redaction and one merge change ----------

  /** Neither position lies on the way to the other. */
  predicate Apart(p: Path, q: Path) {
    !(p <= q) && !(q <= p)
  }

  lemma ApartTails(p: Path, q: Path)
    requires Apart(p, q) && p[0] == q[0]
    ensures |p| > 1 && |q| > 1 && Apart(p[1..], q[1..])
  {
    assert p == [p[0]] + p[1..] && q == [q[0]] + q[1..];
  }

  lemma {:induction false} RedactAt(m: Object, p: Path)
    ensures Get(Redact(m, p), p) == if Get(m, p).Some? then Some(SENTINEL) else None
    ensures Get(m, p).None? ==> Redact(m, p) == m
    decreases |p|
  {
    if |p| > 1 && Descends(m, p[0]) {
      RedactAt(m[p[0]].fields, p[1..]);
      assert m[p[0] := m[p[0]]] == m;
    }
  }

  lemma {:induction false} RedactElsewhere(m: Object, p: Path, q: Path)
    requires Apart(p, q)
    ensures Get(Redact(m, p), q) == Get(m, q)
    decreases |p|
  {
    if p[0] == q[0] {
      ApartTails(p, q);
      if Descends(m, p[0]) {
        RedactElsewhere(m[p[0]].fields, p[1..], q[1..]);
      }
    }
  }

  /** A merge puts back the stored value at its position exactly when the edit shows the sentinel there. */
  lemma {:induction false} MergeAt(edited: Object, stored: Object, p: Path)
    ensures Get(Merge(edited, stored, p), p) ==
            if Get(edited, p) == Some(SENTINEL) && Get(stored, p).Some? then Get(stored, p) else Get(edited, p)
    ensures Get(edited, p) != Some(SENTINEL) || Get(stored, p).None? ==> Merge(edited, stored, p) == edited
    decreases |p|
  {
    if |p| > 1 && Descends(edited, p[0]) && Descends(stored, p[0]) {
      MergeAt(edited[p[0]].fields, stored[p[0]].fields, p[1..]);
      assert edited[p[0] := edited[p[0]]] == edited;
    }
  }

  lemma {:induction false} MergeElsewhere(edited: Object, stored: Object, p: Path, q: Path)
    requires Apart(p, q)
    ensures Get(Merge(edited, stored, p), q) == Get(edited, q)
    decreases |p|
  {
    if p[0] == q[0] {
      ApartTails(p, q);
      if Descends(edited, p[0]) && Descends(stored, p[0]) {
        MergeElsewhere(edited[p[0]].fields, stored[p[0]].fields, p[1..], q[1..]);
      }
    }
  }

  /** Edits that show the sentinel at no secret position are stored as they are. */
  lemma {:induction false} MergeKeepsEdits(edited: Object, stored: Object, paths: seq<Path>)
    requires forall p :: p in paths ==> Get(edited, p) != Some(SENTINEL)
    ensures MergeAll(edited, stored, paths) == edited
  {
    if paths != [] {
      MergeAt(edited, stored, paths[0]);
      MergeKeepsEdits(edited, stored, paths[1..]);
    }
  }

  /** A position apart from every secret path keeps its edited value. */
  lemma {:induction false} MergeAllElsewhere(edited: Object, stored: Object, paths: seq<Path>, q: Path)
    requires forall p :: p in paths ==> Apart(p, q)
    ensures Get(MergeAll(edited, stored, paths), q) == Get(edited, q)
  {
    if paths != [] {
      MergeElsewhere(edited, stored, paths[0], q);
      MergeAllElsewhere(Merge(edited, stored, paths[0]), stored, paths[1..], q);
    }
  }

  /** A merge of this path changes something: the edit shows the sentinel, and something else is stored. */
  predicate Restores(edited: Object, stored: Object, p: Path) {
    Get(edited, p) == Some(SENTINEL) && Get(stored, p).Some? && Get(stored, p) != Some(SENTINEL)
  }

  /** Where both sides agree a merge changes nothing. */
  lemma {:induction false} MergeSame(edited: Object, stored: Object, p: Path)
    requires Get(edited, p) == Get(stored, p)
    ensures Merge(edited, stored, p) == edited
    decreases |p|
  {
    if |p| == 1 {
      if p[0] in edited {
        assert edited[p[0] := edited[p[0]]] == edited;
      }
    } else if Descends(edited, p[0]) && Descends(stored, p[0]) {
      MergeSame(edited[p[0]].fields, stored[p[0]].fields, p[1..]);
      assert edited[p[0] := edited[p[0]]] == edited;
    }
  }

  lemma MergeIdle(edited: Object, stored: Object, p: Path)
    requires !Restores(edited, stored, p)
    ensures Merge(edited, stored, p) == edited
  {
    MergeAt(edited, stored, p);
    if Get(edited, p) == Some(SENTINEL) && Get(stored, p).Some? {
      MergeSame(edited, stored, p);
    }
  }

  lemma PrefixTails(p: Path, q: Path)
    requires p <= q && |p| > 1
    ensures |q| > 1 && q[0] == p[0] && p[1..] <= q[1..]
  {
  }

  /** What a merge restores it restores with everything below. */
  lemma {:induction false} MergeBelow(edited: Object, stored: Object, p: Path, q: Path)
    requires p <= q && Restores(edited, stored, p)
    ensures Get(Merge(edited, stored, p), q) == Get(stored, q)
    decreases |p|
  {
    if |p| > 1 {
      PrefixTails(p, q);
      MergeBelow(edited[p[0]].fields, stored[p[0]].fields, p[1..], q[1..]);
    }
  }

  /** On the way to a value there are objects. */
  lemma {:induction false} ObjectAbove(m: Object, p: Path, q: Path)
    requires p <= q && p != q && Get(m, q).Some?
    ensures Get(m, p).Some? && Get(m, p).value.Obj?
    decreases |p|
  {
    if |p| > 1 {
      PrefixTails(p, q);
      ObjectAbove(m[p[0]].fields, p[1..], q[1..]);
    }
  }

  /** Restoring p neither adds nor removes restorable positions on the way to, or below, a position apart from it. */
  lemma SameRestores(edited: Object, stored: Object, p: Path, q: Path, r: Path)
    requires Restores(edited, stored, p) && Apart(p, q) && (r <= q || q <= r)
    ensures Restores(Merge(edited, stored, p), stored, r) <==> Restores(edited, stored, r)
  {
    if Apart(p, r) {
      MergeElsewhere(edited, stored, p, r);
    } else {
      assert r <= p && r != p;
      ObjectAbove(edited, r, p);
      MergeBelow(edited, stored, p, p);
      ObjectAbove(Merge(edited, stored, p), r, p);
    }
  }

  /** Some secret position at or above q is restored. */
  ghost predicate Restored(edited: Object, stored: Object, paths: seq<Path>, q: Path) {
    exists p :: p in paths && p <= q && Restores(edited, stored, p)
  }

  ghost predicate IdleBelow(edited: Object, stored: Object, paths: seq<Path>, q: Path) {
    forall p :: p in paths && q <= p && q != p ==> !Restores(edited, stored, p)
  }

  /** The first path of a list restored: what that means for the rest of the list. */
  lemma RestoredFirst(edited: Object, stored: Object, p: Path, rest: seq<Path>, q: Path)
    requires Restores(edited, stored, p) && IdleBelow(edited, stored, [p] + rest, q)
    ensures var edited' := Merge(edited, stored, p);
      && IdleBelow(edited', stored, rest, q)
      && (p <= q ==> Get(edited', q) == Get(stored, q))
      && (!(p <= q) ==> Get(edited', q) == Get(edited, q)
                        && (Restored(edited', stored, rest, q) <==> Restored(edited, stored, rest, q)))
  {
    var edited' := Merge(edited, stored, p);
    assert p in [p] + rest && forall r :: r in rest ==> r in [p] + rest;
    if p <= q {
      MergeBelow(edited, stored, p, q);
      forall r | r in rest && q <= r && q != r ensures !Restores(edited', stored, r) {
        MergeBelow(edited, stored, p, r);
      }
    } else {
      assert Apart(p, q);
      MergeElsewhere(edited, stored, p, q);
      forall r | r in rest && (r <= q || q <= r)
        ensures Restores(edited', stored, r) <==> Restores(edited, stored, r)
      {
        SameRestores(edited, stored, p, q, r);
      }
    }
  }

  /**
   * For every list of secret paths, overlapping ones included: at any position without a restored secret below
   * it, a merge leaves the stored value if a secret position at or above it is restored, and else the edited one.
   * A restored secret below changes the position in that part: ParentChanges.
   */
  lemma {:induction false} MergeAllExactly(edited: Object, stored: Object, paths: seq<Path>, q: Path)
    requires IdleBelow(edited, stored, paths, q)
    ensures Get(MergeAll(edited, stored, paths), q) ==
            if Restored(edited, stored, paths, q) then Get(stored, q) else Get(edited, q)
  {
    if paths != [] {
      var p, rest := paths[0], paths[1..];
      var edited' := Merge(edited, stored, p);
      assert paths == [p] + rest;
      if Restores(edited, stored, p) {
        RestoredFirst(edited, stored, p, rest, q);
        MergeAllExactly(edited', stored, rest, q);
        assert p <= q ==> Restored(edited, stored, paths, q);
      } else {
        MergeIdle(edited, stored, p);
        MergeAllExactly(edited, stored, rest, q);
      }
      assert !(p <= q && Restores(edited, stored, p)) ==>
        (Restored(edited, stored, paths, q) <==> Restored(edited, stored, rest, q));
    }
  }

  /** A merge changes a position only at, above or below a secret path at which the edit shows the sentinel. */
  lemma MergeChangesOnlySentinels(edited: Object, stored: Object, paths: seq<Path>, q: Path)
    requires Get(MergeAll(edited, stored, paths), q) != Get(edited, q)
    ensures exists p :: p in paths && !Apart(p, q) && Get(edited, p) == Some(SENTINEL)
  {
    if forall p :: p in paths && !Apart(p, q) ==> Get(edited, p) != Some(SENTINEL) {
      MergeAllExactly(edited, stored, paths, q);
    }
  }

  /** A parent of a restored secret changes too, although it lies at or below no secret path. */
  lemma ParentChanges()
    ensures var edited: Object := map["a" := Obj(map["b" := SENTINEL])];
      var stored: Object := map["a" := Obj(map["b" := Str("secret")])];
      Get(MergeAll(edited, stored, [["a", "b"]]), ["a"]) == Some(Obj(map["b" := Str("secret")])) != Get(edited, ["a"])
  {
    var edited: Object := map["a" := Obj(map["b" := SENTINEL])];
    var stored: Object := map["a" := Obj(map["b" := Str("secret")])];
    var path: Path := ["a", "b"];
    assert path[1..] == ["b"] && [path][1..] == [];
    assert Merge(edited["a"].fields, stored["a"].fields, ["b"]) == map["b" := Str("secret")];
    assert Merge(edited, stored, path) == edited["a" := Obj(Merge(edited["a"].fields, stored["a"].fields, path[1..]))];
    assert SENTINEL.text[0] == '\U{2022}' && "secret"[0] == 's';
  }

  // ---------- No secret is shown ----------

  predicate Hidden(m: Object, p: Path) {
    Get(m, p) == None || Get(m, p) == Some(SENTINEL)
  }

  lemma {:induction false} RedactKeepsHidden(m: Object, p: Path, q: Path)
    requires Hidden(m, q)
    ensures Hidden(Redact(m, p), q)
    decreases |p|
  {
    if p[0] == q[0] && |p| > 1 && |q| > 1 && Descends(m, p[0]) {
      RedactKeepsHidden(m[p[0]].fields, p[1..], q[1..]);
    }
  }

  lemma {:induction false} RedactAllKeepsHidden(m: Object, paths: seq<Path>, q: Path)
    requires Hidden(m, q)
    ensures Hidden(RedactAll(m, paths), q)
  {
    if paths != [] {
      RedactKeepsHidden(m, paths[0], q);
      RedactAllKeepsHidden(Redact(m, paths[0]), paths[1..], q);
    }
  }

  /** After redaction every secret position is missing or shows the sentinel, overlapping paths included. */
  lemma {:induction false} NoSecretIsShown(m: Object, paths: seq<Path>, q: Path)
    requires q in paths
    ensures Hidden(RedactAll(m, paths), q)
  {
    if paths[0] == q {
      RedactAt(m, q);
      RedactAllKeepsHidden(Redact(m, q), paths[1..], q);
    } else {
      NoSecretIsShown(Redact(m, paths[0]), paths[1..], q);
    }
  }

  // ---------- The round trip ----------

  /** The secret paths below a key. */
  function Below(paths: seq<Path>, key: string): seq<Path> {
    if paths == [] then []
    else
      var rest := Below(paths[1..], key);
      if paths[0][0] == key && |paths[0]| > 1 then [paths[0][1..]] + rest else rest
  }

  function Total(paths: seq<Path>): nat {
    if paths == [] then 0 else |paths[0]| + Total(paths[1..])
  }

  lemma {:induction false} BelowIsSmaller(paths: seq<Path>, key: string)
    ensures Total(Below(paths, key)) + |Below(paths, key)| <= Total(paths)
  {
    if paths != [] {
      BelowIsSmaller(paths[1..], key);
    }
  }

  /** n is m with the sentinel at some of the secret positions. */
  ghost predicate Masks(n: Object, m: Object, paths: seq<Path>)
    decreases Total(paths)
  {
    && n.Keys == m.Keys
    && forall key :: key in m ==> MaskedAt(n, m, paths, key)
  }

  ghost predicate MaskedAt(n: Object, m: Object, paths: seq<Path>, key: string)
    requires key in n && key in m
    decreases Total(paths), 0
  {
    BelowIsSmaller(paths, key);
    || n[key] == m[key]
    || (n[key] == SENTINEL && [key] in paths)
    || (n[key].Obj? && m[key].Obj? && Below(paths, key) != [] && Masks(n[key].fields, m[key].fields, Below(paths, key)))
  }

  lemma MasksSelf(m: Object, paths: seq<Path>)
    ensures Masks(m, m, paths)
  {
  }

  lemma {:induction false} BelowHas(paths: seq<Path>, p: Path)
    requires p in paths && |p| > 1
    ensures p[1..] in Below(paths, p[0])
  {
    if paths[0] != p {
      BelowHas(paths[1..], p);
    }
  }

  /** Redacting one of the paths of a masked object. */
  lemma {:induction false} RedactMasks(n: Object, m: Object, paths: seq<Path>, p: Path)
    requires Masks(n, m, paths) && p in paths
    ensures Masks(Redact(n, p), m, paths)
    decreases |p|
  {
    var key := p[0];
    var n' := Redact(n, p);
    if |p| == 1 {
      assert p == [key];
      forall k | k in m ensures MaskedAt(n', m, paths, k) {
        assert MaskedAt(n, m, paths, k);
      }
    } else if Descends(n, key) {
      BelowHas(paths, p);
      assert MaskedAt(n, m, paths, key);
      if n[key] == m[key] {
        MasksSelf(m[key].fields, Below(paths, key));
      }
      RedactMasks(n[key].fields, m[key].fields, Below(paths, key), p[1..]);
      forall k | k in m ensures MaskedAt(n', m, paths, k) {
        assert MaskedAt(n, m, paths, k);
      }
    }
  }

  lemma {:induction false} RedactAllMasks(n: Object, m: Object, all: seq<Path>, paths: seq<Path>)
    requires Masks(n, m, all) && forall p :: p in paths ==> p in all
    ensures Masks(RedactAll(n, paths), m, all)
  {
    if paths != [] {
      RedactMasks(n, m, all, paths[0]);
      RedactAllMasks(Redact(n, paths[0]), m, all, paths[1..]);
    }
  }

  lemma {:induction false} MergeSelf(m: Object, p: Path)
    ensures Merge(m, m, p) == m
    decreases |p|
  {
    if |p| > 1 && Descends(m, p[0]) {
      MergeSelf(m[p[0]].fields, p[1..]);
      assert m[p[0] := m[p[0]]] == m;
    }
  }

  /** Merging the first path over the stored object leaves only the other paths masked. */
  lemma {:induction false} MergeUnmasks(n: Object, m: Object, p: Path, paths: seq<Path>)
    requires Masks(n, m, [p] + paths)
    ensures Masks(Merge(n, m, p), m, paths)
    decreases |p|
  {
    var key := p[0];
    var n' := Merge(n, m, p);
    assert ([p] + paths)[1..] == paths;
    assert n'.Keys == n.Keys;
    forall k | k in m ensures MaskedAt(n', m, paths, k) {
      assert MaskedAt(n, m, [p] + paths, k);
      if |p| == 1 {
        assert p == [key];
        if k == key && n[k] == SENTINEL {
          assert n'[k] == m[k];
        }
      } else if k == key && n[k] != m[k] && n[k].Obj? {
        assert n[k] != SENTINEL;
        assert Below([p] + paths, k) == [p[1..]] + Below(paths, k);
        MergeUnmasks(n[k].fields, m[k].fields, p[1..], Below(paths, k));
        assert n'[k] == Obj(Merge(n[k].fields, m[k].fields, p[1..]));
        if Below(paths, k) == [] {
          NothingMasked(n'[k].fields, m[k].fields);
        }
      } else if k == key && n[k] == m[k] && n[k].Obj? {
        MergeSelf(m[k].fields, p[1..]);
      }
    }
  }

  lemma NothingMasked(n: Object, m: Object)
    requires Masks(n, m, [])
    ensures n == m
  {
    forall k | k in m ensures n[k] == m[k] {
      assert MaskedAt(n, m, [], k);
    }
  }

  lemma {:induction false} MergeAllUnmasks(n: Object, m: Object, paths: seq<Path>)
    requires Masks(n, m, paths)
    ensures MergeAll(n, m, paths) == m
  {
    if paths == [] {
      NothingMasked(n, m);
    } else {
      assert paths == [paths[0]] + paths[1..];
      MergeUnmasks(n, m, paths[0], paths[1..]);
      MergeAllUnmasks(Merge(n, m, paths[0]), m, paths[1..]);
    }
  }

  /** Merging a redacted configuration over its original gives the original, for every object and every list of paths. */
  lemma RoundTrip(m: Object, paths: seq<Path>)
    ensures MergeAll(RedactAll(m, paths), m, paths) == m
  {
    MasksSelf(m, paths);
    RedactAllMasks(m, m, paths, paths);
    MergeAllUnmasks(RedactAll(m, paths), m, paths);
  }
}
