/**
 * The in-process bus: subject patterns with `*` and `>`, subscriptions kept per pattern, and delivery to
 * every broadcast subscriber and to one member of each queue group.
 */
module Bus {
  // ---------- Subjects ----------

  /** The tokens between dots; a subject has one more token than dots. */
  function Split(s: string): (tokens: seq<string>)
    ensures tokens != []
  {
    if s == "" then [""] else Prepend(s[0], Split(s[1..]))
  }

  /** One more character in front: a dot opens a token, any other character extends the first. */
  function Prepend(c: char, tokens: seq<string>): (r: seq<string>)
    requires tokens != []
    ensures r != []
  {
    if c == '.' then [""] + tokens else [[c] + tokens[0]] + tokens[1..]
  }

  function Join(tokens: seq<string>): string
    requires tokens != []
  {
    if |tokens| == 1 then tokens[0] else tokens[0] + "." + Join(tokens[1..])
  }

  lemma {:induction false} JoinSplit(s: string)
    ensures Join(Split(s)) == s
  {
    if s != "" {
      JoinSplit(s[1..]);
      var rest := Split(s[1..]);
      if s[0] == '.' {
        assert ([""] + rest)[1..] == rest;
      } else {
        assert Split(s)[1..] == rest[1..];
      }
    }
  }

  /** No token holds a dot: with the round trip above this fixes the tokens of every subject. */
  lemma {:induction false} TokensHaveNoDots(s: string)
    ensures forall t :: t in Split(s) ==> '.' !in t
  {
    if s != "" {
      var rest := Split(s[1..]);
      TokensHaveNoDots(s[1..]);
      assert rest[0] in rest && forall t :: t in rest[1..] ==> t in rest;
    }
  }

  /** Different subjects have different tokens. */
  lemma SplitIsInjective(a: string, b: string)
    requires Split(a) == Split(b)
    ensures a == b
  {
    JoinSplit(a);
    JoinSplit(b);
  }

  /** Tokens of two subjects put together with a dot. */
  lemma {:induction false} SplitJoined(a: string, b: string)
    ensures Split(a + "." + b) == Split(a) + Split(b)
  {
    var s := a + "." + b;
    if a == "" {
      assert s[1..] == b;
    } else {
      SplitJoined(a[1..], b);
      assert s[0] == a[0] && s[1..] == a[1..] + "." + b;
      PrependConcat(a[0], Split(a[1..]), Split(b));
    }
  }

  lemma PrependConcat(c: char, x: seq<string>, y: seq<string>)
    requires x != []
    ensures Prepend(c, x + y) == Prepend(c, x) + y
  {
    assert (x + y)[1..] == x[1..] + y;
  }

  /** Text without a dot is one token. */
  lemma {:induction false} SplitPlain(s: string)
    requires '.' !in s
    ensures Split(s) == [s]
  {
    if s != "" {
      assert s[0] in s;
      SplitPlain(s[1..]);
      assert [s[0]] + s[1..] == s;
    }
  }

  /** Token-wise matching: `*` takes one token, `>` takes one or more to the end. */
  predicate Matches(pattern: seq<string>, subject: seq<string>) {
    if pattern == [] then subject == []
    else if pattern[0] == ">" then subject != []
    else subject != [] && (pattern[0] == "*" || pattern[0] == subject[0]) && Matches(pattern[1..], subject[1..])
  }

  predicate SubjectMatches(pattern: string, subject: string) {
    Matches(Split(pattern), Split(subject))
  }

  /**
   * Matching by positions: in front of the first `>` every token is `*` or the subject's own, and the subject has
   * just as many tokens, or more if there is such a `>`.
   */
  lemma {:induction false} MatchesExactly(pattern: seq<string>, subject: seq<string>) returns (n: nat)
    ensures n <= |pattern| && ">" !in pattern[..n] && (n < |pattern| ==> pattern[n] == ">")
    ensures Matches(pattern, subject) <==>
            && (if n < |pattern| then |subject| > n else |subject| == n)
            && forall i :: 0 <= i < n ==> pattern[i] == "*" || pattern[i] == subject[i]
  {
    n := 0;
    if pattern != [] && pattern[0] != ">" {
      var m := MatchesExactly(pattern[1..], if subject == [] then [] else subject[1..]);
      n := m + 1;
      assert pattern[..n] == [pattern[0]] + pattern[1..][..m];
      assert forall i :: 0 < i < n ==> pattern[i] == pattern[1..][i - 1];
      if |subject| > 0 {
        assert forall i :: 0 < i < n && i < |subject| ==> subject[i] == subject[1..][i - 1];
      }
    }
  }

  lemma {:induction false} MatchesSelf(tokens: seq<string>)
    ensures Matches(tokens, tokens)
  {
    if tokens != [] {
      MatchesSelf(tokens[1..]);
    }
  }

  lemma {:induction false} PlainTokens(s: string)
    requires '*' !in s && '>' !in s
    ensures forall t :: t in Split(s) ==> '*' !in t && '>' !in t
  {
    if s != "" {
      PlainTokens(s[1..]);
      var rest := Split(s[1..]);
      assert forall t :: t in rest[1..] ==> t in rest;
    }
  }

  lemma {:induction false} PlainMatchesOnlyItself(pattern: seq<string>, subject: seq<string>)
    requires forall t :: t in pattern ==> '*' !in t && '>' !in t
    ensures Matches(pattern, subject) <==> pattern == subject
  {
    if pattern != [] {
      assert pattern[0] in pattern;
      assert "*"[0] == '*' && ">"[0] == '>';
      if subject != [] {
        PlainMatchesOnlyItself(pattern[1..], subject[1..]);
        assert pattern == [pattern[0]] + pattern[1..] && subject == [subject[0]] + subject[1..];
      }
    }
  }

  // ---------- Subscriptions ----------

  /** The serial number keeps equal subscriptions apart; an empty queue name means broadcast. */
  datatype Sub = Sub(serial: nat, handler: string, queue: string)

  type Table = map<string, seq<Sub>>

  ghost predicate Listed(t: Table, pattern: string, s: Sub) {
    pattern in t && s in t[pattern]
  }

  /** A subscription whose pattern matches the subject. */
  ghost predicate Reached(t: Table, subject: string, s: Sub) {
    exists pattern :: Listed(t, pattern, s) && SubjectMatches(pattern, subject)
  }

  ghost predicate DistinctSubs(subs: seq<Sub>) {
    forall i, j :: 0 <= i < j < |subs| ==> subs[i].serial != subs[j].serial
  }

  /** Each serial number is used by one subscription, in one place. */
  ghost predicate Numbered(t: Table, next: nat) {
    && (forall p :: p in t ==> DistinctSubs(t[p]) && t[p] != [])
    && (forall p, s :: Listed(t, p, s) ==> s.serial < next)
    && (forall p, q, s, r :: Listed(t, p, s) && Listed(t, q, r) && s.serial == r.serial ==> p == q && s == r)
  }

  /** Who gets a message: every reached broadcast subscription once, and of each reached queue exactly one member. */
  ghost predicate DeliveredRight(t: Table, subject: string, delivered: seq<Sub>) {
    && DistinctSubs(delivered)
    && (forall s :: s in delivered ==> Reached(t, subject, s))
    && (forall s :: Reached(t, subject, s) && s.queue == "" ==> s in delivered)
    && (forall s :: Reached(t, subject, s) && s.queue != "" ==> exists r :: r in delivered && r.queue == s.queue)
    && (forall s, r :: s in delivered && r in delivered && s.queue == r.queue && s.queue != "" ==> s == r)
  }

  class ChannelBus {
    var subs: Table
    var next: nat

    ghost predicate Valid()
      reads this
    {
      Numbered(subs, next)
    }

    constructor ()
      ensures Valid() && subs == map[]
    {
      subs, next := map[], 0;
    }

    /** The empty queue name subscribes for broadcast. */
    method QueueSubscribe(pattern: string, queue: string, handler: string)
      requires Valid()
      modifies this
      ensures Valid()
      ensures subs == old(subs)[pattern := (if pattern in old(subs) then old(subs)[pattern] else []) + [Sub(old(next), handler, queue)]]
    {
      ghost var before := subs;
      var s := Sub(next, handler, queue);
      assert [] + [s] == [s];
      if pattern in subs {
        assert forall i :: 0 <= i < |subs[pattern]| ==> Listed(before, pattern, subs[pattern][i]);
        subs := subs[pattern := subs[pattern] + [s]];
      } else {
        subs := subs[pattern := [s]];
      }
      next := next + 1;
      forall p, r | Listed(subs, p, r) ensures Listed(before, p, r) || (p == pattern && r == s) {
      }
    }

    /** Drops every subscription of the pattern with that queue name, and the pattern when none is left. */
    method Unsubscribe(pattern: string, queue: string)
      requires Valid()
      modifies this
      ensures Valid()
      ensures forall p, s :: Listed(subs, p, s) <==> Listed(old(subs), p, s) && !(p == pattern && s.queue == queue)
    {
      ghost var before := subs;
      if pattern !in subs {
        return;
      }
      var list := subs[pattern];
      var kept := [];
      for i := 0 to |list|
        invariant forall s :: s in kept <==> s in list[..i] && s.queue != queue
        invariant DistinctSubs(kept)
      {
        assert list[..i + 1] == list[..i] + [list[i]];
        if list[i].queue == queue {
          continue;
        }
        kept := kept + [list[i]];
      }
      assert list[..|list|] == list;
      if |kept| == 0 {
        subs := subs - {pattern};
      } else {
        subs := subs[pattern := kept];
      }
      forall p, s ensures Listed(subs, p, s) <==> Listed(before, p, s) && !(p == pattern && s.queue == queue) {
      }
    }

    /** The token loop, behind its two shortcuts. */
    static method SubjectMatchesLoop(pattern: string, subject: string) returns (ok: bool)
      ensures ok == SubjectMatches(pattern, subject)
    {
      if pattern == subject {
        MatchesSelf(Split(pattern));
        return true;
      }
      if '*' !in pattern && '>' !in pattern {
        PlainTokens(pattern);
        PlainMatchesOnlyItself(Split(pattern), Split(subject));
        if Split(pattern) == Split(subject) {
          SplitIsInjective(pattern, subject);
        }
        return false;
      }
      var pt := Split(pattern);
      var st := Split(subject);
      var i := 0;
      while i < |pt|
        invariant 0 <= i <= |pt| && i <= |st|
        invariant Matches(pt, st) == Matches(pt[i..], st[i..])
      {
        var tok := pt[i];
        if tok == ">" {
          return i <= |st| - 1;
        }
        if i >= |st| {
          return false;
        }
        if tok != "*" && tok != st[i] {
          return false;
        }
        i := i + 1;
      }
      return |pt| == |st|;
    }

    /** The subscriptions of all matching patterns. */
    method Snapshot(subject: string) returns (snapshot: seq<Sub>)
      requires Valid()
      ensures DistinctSubs(snapshot)
      ensures forall s :: s in snapshot <==> Reached(subs, subject, s)
    {
      snapshot := [];
      var todo := subs.Keys;
      while todo != {}
        invariant todo <= subs.Keys
        invariant DistinctSubs(snapshot)
        invariant forall s :: s in snapshot <==> exists p :: p !in todo && Listed(subs, p, s) && SubjectMatches(p, subject)
        decreases todo
      {
        var pattern :| pattern in todo;
        ghost var before := snapshot;
        todo := todo - {pattern};
        var ok := SubjectMatchesLoop(pattern, subject);
        if ok {
          forall s | s in snapshot ensures forall r :: r in subs[pattern] ==> r.serial != s.serial {
            var p :| p != pattern && p !in todo && Listed(subs, p, s) && SubjectMatches(p, subject);
            forall r | r in subs[pattern] ensures r.serial != s.serial {
              assert Listed(subs, pattern, r);
            }
          }
          snapshot := snapshot + subs[pattern];
        }
        forall s ensures s in snapshot <==> exists p :: p !in todo && Listed(subs, p, s) && SubjectMatches(p, subject) {
          if s in snapshot && s !in before {
            assert Listed(subs, pattern, s);
          }
          if p :| p !in todo && Listed(subs, p, s) && SubjectMatches(p, subject) {
            assert p == pattern || s in before;
          }
        }
      }
    }

    /** Splits a snapshot into broadcast subscriptions and queue members. */
    static method Partition(snapshot: seq<Sub>) returns (broadcast: seq<Sub>, queues: map<string, seq<Sub>>)
      requires DistinctSubs(snapshot)
      ensures DistinctSubs(broadcast)
      ensures forall s :: s in broadcast <==> s in snapshot && s.queue == ""
      ensures forall q :: q in queues ==> q != "" && queues[q] != []
      ensures forall q, s :: q in queues && s in queues[q] ==> s in snapshot && s.queue == q
      ensures forall s :: s in snapshot && s.queue != "" ==> s.queue in queues
    {
      broadcast, queues := [], map[];
      for i := 0 to |snapshot|
        invariant DistinctSubs(broadcast)
        invariant forall s :: s in broadcast <==> s in snapshot[..i] && s.queue == ""
        invariant forall q :: q in queues ==> q != "" && queues[q] != []
        invariant forall q, s :: q in queues && s in queues[q] ==> s in snapshot[..i] && s.queue == q
        invariant forall s :: s in snapshot[..i] && s.queue != "" ==> s.queue in queues
      {
        var s := snapshot[i];
        assert snapshot[..i + 1] == snapshot[..i] + [s];
        if s.queue == "" {
          broadcast := broadcast + [s];
        } else if s.queue in queues {
          queues := queues[s.queue := queues[s.queue] + [s]];
        } else {
          queues := queues[s.queue := [s]];
        }
      }
      assert snapshot[..|snapshot|] == snapshot;
    }

    /** Partition, deliver to all broadcast subscribers, and to a random member of each queue. */
    method Publish(subject: string) returns (delivered: seq<Sub>)
      requires Valid()
      ensures DeliveredRight(subs, subject, delivered)
    {
      var snapshot := Snapshot(subject);
      var queues: map<string, seq<Sub>>;
      delivered, queues := Partition(snapshot);
      var todo := queues.Keys;
      SerialsTell(subs, next, subject, snapshot);
      while todo != {}
        invariant todo <= queues.Keys && Picking(snapshot, queues, todo, delivered)
        decreases todo
      {
        var q :| q in todo;
        var members := queues[q];
        var pick :| 0 <= pick < |members|;
        assert members[pick] in members;
        PickOne(snapshot, queues, todo, delivered, q, members[pick]);
        delivered := delivered + [members[pick]];
        todo := todo - {q};
      }
    }
  }

  /** Broadcast subscriptions and one member of every queue no longer to do have been picked. */
  ghost predicate Picking(snapshot: seq<Sub>, queues: map<string, seq<Sub>>, todo: set<string>, delivered: seq<Sub>) {
    && DistinctSubs(delivered)
    && (forall s :: s in delivered ==> s in snapshot)
    && (forall s :: s in snapshot && s.queue == "" ==> s in delivered)
    && (forall s :: s in delivered && s.queue != "" ==> s.queue in queues && s.queue !in todo)
    && (forall q :: q in queues && q !in todo ==> exists r :: r in delivered && r.queue == q)
    && (forall s, r :: s in delivered && r in delivered && s.queue == r.queue && s.queue != "" ==> s == r)
  }

  lemma PickOne(snapshot: seq<Sub>, queues: map<string, seq<Sub>>, todo: set<string>, delivered: seq<Sub>, q: string, chosen: Sub)
    requires Picking(snapshot, queues, todo, delivered) && q in todo && q in queues && q != ""
    requires chosen in snapshot && chosen.queue == q
    requires forall s, r :: s in snapshot && r in snapshot && s.serial == r.serial ==> s == r
    ensures Picking(snapshot, queues, todo - {q}, delivered + [chosen])
  {
    var delivered' := delivered + [chosen];
    assert chosen in delivered' && forall s :: s in delivered ==> s in delivered';
    forall i, j | 0 <= i < j < |delivered'| ensures delivered'[i].serial != delivered'[j].serial {
      assert delivered'[i] in delivered;
    }
    forall p | p in queues && p !in todo - {q} ensures exists r :: r in delivered' && r.queue == p {
      if p != q {
        var r :| r in delivered && r.queue == p;
        assert r in delivered';
      }
    }
  }

  /** Among reached subscriptions the serial number identifies the subscription. */
  lemma SerialsTell(t: Table, next: nat, subject: string, snapshot: seq<Sub>)
    requires Numbered(t, next) && forall s :: s in snapshot ==> Reached(t, subject, s)
    ensures forall s, r :: s in snapshot && r in snapshot && s.serial == r.serial ==> s == r
  {
  }
}
