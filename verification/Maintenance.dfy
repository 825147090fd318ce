/**
 * Maintenance windows: when a recurring window is active, and the ticker that turns polls into started and
 * ended events. Times are seconds in UTC since 1970-01-01, a Thursday.
 */
module Maintenance {
  import opened Common

  const DAY := 86_400

  datatype Recurrence = Once | Daily | Weekly | Unknown

  datatype Window = Window(
    id: string, orgID: string, startAt: int, endAt: int,
    recurrence: Recurrence, recurrenceEnd: Option<int>, days: seq<int>)

  function DayOf(t: int): int {
    t / DAY
  }

  function TimeOfDay(t: int): int {
    t % DAY
  }

  /** 0 is Sunday. */
  function Weekday(t: int): int {
    (DayOf(t) + 4) % 7
  }

  /** Today's occurrence starts at the window's time of day and lasts as long as the window. */
  predicate InToday(w: Window, t: int) {
    var todayStart := DayOf(t) * DAY + TimeOfDay(w.startAt);
    todayStart <= t <= todayStart + (w.endAt - w.startAt)
  }

  predicate IsActiveAt(w: Window, t: int) {
    if w.recurrence.Once? then w.startAt <= t <= w.endAt
    else if w.recurrenceEnd.Some? && t > w.recurrenceEnd.value then false
    else if t < w.startAt then false
    else match w.recurrence
      case Daily => InToday(w, t)
      case Weekly => Weekday(t) in w.days && InToday(w, t)
      case _ => false
  }

  // ---------- What recurrence means ----------

  /** Days are 86,400 seconds; 1970-01-01 is a Thursday, and each weekday is the one after the day before's. */
  lemma CalendarIs(t: int)
    ensures t == DayOf(t) * 86_400 + TimeOfDay(t) && 0 <= TimeOfDay(t) < 86_400
    ensures Weekday(0) == 4 && 0 <= Weekday(t) < 7
    ensures Weekday(t + 86_400) == if Weekday(t) == 6 then 0 else Weekday(t) + 1
    ensures DayOf(t) == DayOf(t + 1) ==> Weekday(t) == Weekday(t + 1)
  {
    assert DayOf(t + DAY) == DayOf(t) + 1;
  }

  /** t lies in the first window shifted by k whole days. */
  predicate InShifted(w: Window, k: nat, t: int) {
    w.startAt + k * 86_400 <= t <= w.endAt + k * 86_400
  }

  predicate NotPastEnd(w: Window, t: int) {
    w.recurrenceEnd.Some? ==> t <= w.recurrenceEnd.value
  }

  /** The occurrence k days after the first starts on a selected weekday. */
  predicate Selected(w: Window, k: nat) {
    Weekday(w.startAt + k * DAY) in w.days
  }

  ghost predicate OccursDaily(w: Window, t: int) {
    NotPastEnd(w, t) && exists k: nat :: InShifted(w, k, t)
  }

  ghost predicate OccursWeekly(w: Window, t: int) {
    NotPastEnd(w, t) && exists k: nat :: InShifted(w, k, t) && Selected(w, k)
  }

  /** The midnight after the window's start. */
  function NextMidnight(w: Window): int {
    (DayOf(w.startAt) + 1) * DAY
  }

  /** Today's occurrence is the window shifted by the days between. */
  lemma TodayIsShift(w: Window, t: int)
    requires w.startAt <= t
    ensures DayOf(t) >= DayOf(w.startAt)
    ensures InToday(w, t) <==> InShifted(w, DayOf(t) - DayOf(w.startAt), t)
  {
  }

  /** A shift by k days starts k days later, at the same time of day. */
  lemma ShiftedStart(w: Window, k: nat)
    ensures DayOf(w.startAt + k * DAY) == DayOf(w.startAt) + k
    ensures TimeOfDay(w.startAt + k * DAY) == TimeOfDay(w.startAt)
  {
  }

  /** In a window that ends before midnight, or starts at midnight, or whose recurrence stops before midnight, t lies in today's occurrence if in any. */
  lemma AnyShiftIsToday(w: Window, k: nat, t: int)
    requires InShifted(w, k, t) && NotPastEnd(w, t)
    requires w.endAt < NextMidnight(w) || TimeOfDay(w.startAt) == 0
             || (w.recurrenceEnd.Some? && w.recurrenceEnd.value < NextMidnight(w))
    ensures t >= w.startAt && InToday(w, t)
  {
    ShiftedStart(w, k);
    TodayIsShift(w, t);
  }

  /** A one-off window is active exactly in its one occurrence, whatever its recurrence end. */
  lemma OnceExactly(w: Window, t: int)
    requires w.recurrence.Once?
    ensures IsActiveAt(w, t) <==> InShifted(w, 0, t)
  {
  }

  /** A recurrence of any other kind is never active. */
  lemma UnknownNever(w: Window, t: int)
    requires w.recurrence.Unknown?
    ensures !IsActiveAt(w, t)
  {
  }

  lemma DailySound(w: Window, t: int)
    requires w.recurrence.Daily? && IsActiveAt(w, t)
    ensures OccursDaily(w, t)
  {
    TodayIsShift(w, t);
    var k: nat := DayOf(t) - DayOf(w.startAt);
    assert InShifted(w, k, t);
  }

  /** The window reaches past midnight, and its recurrence does too. */
  predicate Spills(w: Window) {
    && NextMidnight(w) <= w.endAt && TimeOfDay(w.startAt) != 0
    && (w.recurrenceEnd.Some? ==> NextMidnight(w) <= w.recurrenceEnd.value)
  }

  /**
   * A daily window is active exactly during its occurrences if and only if it does not spill: otherwise the
   * part after midnight is never recognised, because only today's start is tried.
   */
  lemma DailyExactly(w: Window)
    requires w.recurrence.Daily?
    ensures (forall t :: IsActiveAt(w, t) <==> OccursDaily(w, t)) <==> !Spills(w)
  {
    if Spills(w) {
      var t := NextMidnight(w);
      assert InShifted(w, 0, t);
      assert OccursDaily(w, t);
      assert !IsActiveAt(w, t) by {
        assert TimeOfDay(t) == 0 && DayOf(t) * DAY == t;
      }
    } else {
      forall t ensures IsActiveAt(w, t) <==> OccursDaily(w, t) {
        if IsActiveAt(w, t) {
          DailySound(w, t);
        }
        if OccursDaily(w, t) {
          var k: nat :| InShifted(w, k, t);
          AnyShiftIsToday(w, k, t);
        }
      }
    }
  }

  /**
   * A weekly occurrence k days after the first is cut off at midnight: it reaches that far, the recurrence
   * does too, and the next day does not take it on, because the window's time of day has not come or the
   * weekday is not selected.
   */
  predicate CutAt(w: Window, k: nat) {
    && Selected(w, k) && NextMidnight(w) <= w.endAt
    && (w.recurrenceEnd.Some? ==> NextMidnight(w) + k * DAY <= w.recurrenceEnd.value)
    && (TimeOfDay(w.startAt) != 0 || !Selected(w, k + 1))
  }

  /** Weekdays repeat, so the first week tells. */
  predicate WeeklySpills(w: Window) {
    exists k: nat :: k < 7 && CutAt(w, k)
  }

  lemma SelectedWeekly(w: Window, k: nat)
    ensures Selected(w, k + 7) <==> Selected(w, k)
  {
    ShiftedStart(w, k);
    ShiftedStart(w, k + 7);
  }

  lemma {:induction false} CutInFirstWeek(w: Window, k: nat)
    requires CutAt(w, k)
    ensures WeeklySpills(w)
  {
    if k >= 7 {
      SelectedWeekly(w, k - 7);
      SelectedWeekly(w, k - 6);
      assert CutAt(w, k - 7);
      CutInFirstWeek(w, k - 7);
    }
  }

  /** From a selected day up to one that is not, some day is the last selected one. */
  lemma {:induction false} LastSelected(w: Window, k: nat, j: nat) returns (l: nat)
    requires k < j && Selected(w, k) && !Selected(w, j)
    ensures k <= l < j && Selected(w, l) && !Selected(w, l + 1)
    decreases j
  {
    l := j - 1;
    if !Selected(w, l) {
      l := LastSelected(w, k, j - 1);
    }
  }

  lemma WeeklySound(w: Window, t: int)
    requires w.recurrence.Weekly? && IsActiveAt(w, t)
    ensures OccursWeekly(w, t)
  {
    TodayIsShift(w, t);
    var k: nat := DayOf(t) - DayOf(w.startAt);
    ShiftedStart(w, k);
    assert InShifted(w, k, t) && Selected(w, k);
  }

  /** A time in an occurrence at which the window is not active lies behind a cut. */
  lemma MissedIsCut(w: Window, k: nat, t: int)
    requires w.recurrence.Weekly? && InShifted(w, k, t) && Selected(w, k) && NotPastEnd(w, t) && !IsActiveAt(w, t)
    ensures WeeklySpills(w)
  {
    ShiftedStart(w, k);
    TodayIsShift(w, t);
    var j: nat := DayOf(t) - DayOf(w.startAt);
    ShiftedStart(w, j);
    assert Weekday(t) == Weekday(w.startAt + j * DAY);
    assert j > k;
    if TimeOfDay(w.startAt) != 0 {
      assert CutAt(w, k);
      CutInFirstWeek(w, k);
    } else {
      assert InToday(w, t);
      var l := LastSelected(w, k, j);
      assert CutAt(w, l);
      CutInFirstWeek(w, l);
    }
  }

  lemma CutIsMissed(w: Window, k: nat)
    requires w.recurrence.Weekly? && CutAt(w, k)
    ensures var t := NextMidnight(w) + k * DAY; OccursWeekly(w, t) && !IsActiveAt(w, t)
  {
    var t := NextMidnight(w) + k * DAY;
    assert InShifted(w, k, t);
    assert DayOf(t) == DayOf(w.startAt) + 1 + k && DayOf(t) * DAY == t;
    ShiftedStart(w, k + 1);
    assert Weekday(t) == Weekday(w.startAt + (k + 1) * DAY);
  }

  /**
   * A weekly window is active exactly during its occurrences on selected weekdays if and only if no occurrence
   * of the first week is cut off at midnight.
   */
  lemma WeeklyExactly(w: Window)
    requires w.recurrence.Weekly?
    ensures (forall t :: IsActiveAt(w, t) <==> OccursWeekly(w, t)) <==> !WeeklySpills(w)
  {
    if WeeklySpills(w) {
      var k: nat :| k < 7 && CutAt(w, k);
      CutIsMissed(w, k);
    } else {
      forall t ensures IsActiveAt(w, t) <==> OccursWeekly(w, t) {
        if IsActiveAt(w, t) {
          WeeklySound(w, t);
        } else if OccursWeekly(w, t) {
          var k: nat :| InShifted(w, k, t) && Selected(w, k);
          MissedIsCut(w, k, t);
        }
      }
    }
  }

  // ---------- The ticker ----------

  datatype Kind = Started | Ended(early: bool)

  datatype Event = Event(id: string, orgID: string, kind: Kind)

  datatype Seen = Seen(active: bool, orgID: string)

  ghost predicate DistinctIds(windows: seq<Window>) {
    forall i, j :: 0 <= i < j < |windows| ==> windows[i].id != windows[j].id
  }

  function Find(windows: seq<Window>, id: string): Option<Window> {
    if windows == [] then None
    else if windows[|windows| - 1].id == id then Some(windows[|windows| - 1])
    else Find(windows[..|windows| - 1], id)
  }

  /** The events of one window. */
  function EventsOf(events: seq<Event>, id: string): seq<Event> {
    if events == [] then []
    else
      var before := EventsOf(events[..|events| - 1], id);
      if events[|events| - 1].id == id then before + [events[|events| - 1]] else before
  }

  lemma EventsSnoc(events: seq<Event>, e: Event, id: string)
    ensures EventsOf(events + [e], id) == if e.id == id then EventsOf(events, id) + [e] else EventsOf(events, id)
  {
    assert (events + [e])[..|events|] == events;
  }

  function SeenIn(seen: map<string, Seen>, id: string): Option<Seen> {
    if id in seen then Some(seen[id]) else None
  }

  predicate Open(seen: Option<Seen>) {
    seen.Some? && seen.value.active
  }

  /** The events a poll owes a window, given what was remembered of it and its row now. */
  function Change(id: string, seen: Option<Seen>, row: Option<Window>, now: int): seq<Event> {
    if row.None? then (if Open(seen) then [Event(id, seen.value.orgID, Ended(true))] else [])
    else
      var active := IsActiveAt(row.value, now);
      if !Open(seen) && active then [Event(id, row.value.orgID, Started)]
      else if Open(seen) && !active then [Event(id, row.value.orgID, Ended(false))]
      else []
  }

  function Remembered(row: Window, now: int): Seen {
    Seen(IsActiveAt(row, now), row.orgID)
  }

  class Ticker {
    var active: map<string, Seen>
    var events: seq<Event>

    constructor ()
      ensures active == map[] && events == []
    {
      active, events := map[], [];
    }

    method Emit(id: string, orgID: string, kind: Kind)
      modifies `events
      ensures events == old(events) + [Event(id, orgID, kind)]
      ensures forall i :: EventsOf(events, i) == EventsOf(old(events), i) + (if i == id then [Event(id, orgID, kind)] else [])
    {
      forall i ensures EventsOf(events + [Event(id, orgID, kind)], i)
                       == EventsOf(events, i) + (if i == id then [Event(id, orgID, kind)] else [])
      {
        EventsSnoc(events, Event(id, orgID, kind), i);
      }
      events := events + [Event(id, orgID, kind)];
    }

    /** What is remembered and emitted once the given rows have been taken. */
    ghost predicate Taken(active0: map<string, Seen>, events0: seq<Event>, rows: seq<Window>, now: int)
      reads this
    {
      && (forall id :: SeenIn(active, id) ==
            (if Find(rows, id).Some? then Some(Remembered(Find(rows, id).value, now)) else SeenIn(active0, id)))
      && (forall id :: EventsOf(events, id) == EventsOf(events0, id) +
            (if Find(rows, id).Some? then Change(id, SeenIn(active0, id), Find(rows, id), now) else []))
    }

    /** One stored window: its transition against the remembered activity. */
    method PollRow(w: Window, now: int)
      modifies this
      ensures active == old(active)[w.id := Remembered(w, now)]
      ensures forall i :: (EventsOf(events, i) ==
        EventsOf(old(events), i) + (if i == w.id then Change(i, SeenIn(old(active), i), Some(w), now) else []))
    {
      var isActive := IsActiveAt(w, now);
      if w.id !in active {
        if isActive {
          Emit(w.id, w.orgID, Started);
        }
      } else {
        var prev := active[w.id];
        if !prev.active && isActive {
          Emit(w.id, w.orgID, Started);
        } else if prev.active && !isActive {
          Emit(w.id, w.orgID, Ended(false));
        }
      }
      active := active[w.id := Seen(isActive, w.orgID)];
    }

    /** The stored windows, in order. */
    method PollRows(windows: seq<Window>, now: int)
      requires DistinctIds(windows)
      modifies this
      ensures Taken(old(active), old(events), windows, now)
    {
      for i := 0 to |windows|
        invariant Taken(old(active), old(events), windows[..i], now)
      {
        NotFoundBefore(windows, i);
        FindSnoc(windows[..i], windows[i]);
        assert windows[..i + 1] == windows[..i] + [windows[i]];
        PollRow(windows[i], now);
      }
      assert windows[..|windows|] == windows;
    }

    /** Remembered windows without a row were deleted: an open one ends early, and all are forgotten. */
    method PollDeleted(windows: seq<Window>, now: int)
      modifies this
      ensures forall id :: SeenIn(active, id) == (if Find(windows, id).Some? then SeenIn(old(active), id) else None)
      ensures forall id :: (EventsOf(events, id) == EventsOf(old(events), id) +
        (if Find(windows, id).None? then Change(id, SeenIn(old(active), id), None, now) else []))
    {
      var todo := active.Keys;
      while todo != {}
        invariant todo <= active.Keys <= old(active).Keys
        invariant forall id :: id in active ==> active[id] == old(active)[id]
        invariant forall id :: id in old(active) && id !in todo ==> (id in active <==> Find(windows, id).Some?)
        invariant forall id :: (EventsOf(events, id) == EventsOf(old(events), id) +
          (if id !in todo && Find(windows, id).None? then Change(id, SeenIn(old(active), id), None, now) else []))
        decreases todo
      {
        var id :| id in todo;
        todo := todo - {id};
        if Find(windows, id).Some? {
          continue;
        }
        if active[id].active {
          Emit(id, active[id].orgID, Ended(true));
        }
        active := active - {id};
      }
    }

    /** One poll: afterwards exactly the stored windows are remembered, and each window got exactly the events it was owed. */
    method Poll(windows: seq<Window>, now: int)
      requires DistinctIds(windows)
      modifies this
      ensures forall id :: (SeenIn(active, id) ==
        (if Find(windows, id).Some? then Some(Remembered(Find(windows, id).value, now)) else None))
      ensures forall id :: (EventsOf(events, id) ==
        EventsOf(old(events), id) + Change(id, SeenIn(old(active), id), Find(windows, id), now))
    {
      PollRows(windows, now);
      PollDeleted(windows, now);
    }
  }

  lemma FindSnoc(windows: seq<Window>, w: Window)
    ensures forall id :: Find(windows + [w], id) == if w.id == id then Some(w) else Find(windows, id)
  {
    assert (windows + [w])[..|windows|] == windows;
  }

  lemma NotFoundBefore(windows: seq<Window>, i: nat)
    requires DistinctIds(windows) && i < |windows|
    ensures Find(windows[..i], windows[i].id).None?
  {
    NotFound(windows[..i], windows[i].id);
  }

  lemma {:induction false} NotFound(windows: seq<Window>, id: string)
    requires forall j :: 0 <= j < |windows| ==> windows[j].id != id
    ensures Find(windows, id).None?
  {
    if windows != [] {
      NotFound(windows[..|windows| - 1], id);
    }
  }

  // ---------- Runs of polls ----------

  /** One poll: the rows stored at that time. Rows may be created, edited, deleted and created again in between. */
  datatype PollAt = PollAt(windows: seq<Window>, now: int)

  /** What the last poll saw of a window. */
  function LastSeen(polls: seq<PollAt>, id: string): Option<Seen> {
    if polls == [] then None
    else
      var last := polls[|polls| - 1];
      match Find(last.windows, id)
      case None => None
      case Some(row) => Some(Remembered(row, last.now))
  }

  /** The events of one window over a run of polls. */
  function History(polls: seq<PollAt>, id: string): seq<Event> {
    if polls == [] then []
    else
      var before := polls[..|polls| - 1];
      var last := polls[|polls| - 1];
      History(before, id) + Change(id, LastSeen(before, id), Find(last.windows, id), last.now)
  }

  /** started, ended, started, ended, ... */
  predicate Alternates(events: seq<Event>) {
    forall i :: 0 <= i < |events| ==> (events[i].kind.Started? <==> i % 2 == 0)
  }

  /** A poll's events carry an alternating history on. */
  lemma ChangeAlternates(events: seq<Event>, id: string, seen: Option<Seen>, row: Option<Window>, now: int)
    requires Alternates(events) && (Open(seen) <==> |events| % 2 == 1)
    ensures var events' := events + Change(id, seen, row, now);
      && Alternates(events')
      && (row.Some? && IsActiveAt(row.value, now) <==> |events'| % 2 == 1)
  {
    var owed := Change(id, seen, row, now);
    if owed != [] {
      AlternatesSnoc(events, owed[0]);
    } else {
      assert events + owed == events;
    }
  }

  lemma AlternatesSnoc(events: seq<Event>, e: Event)
    requires Alternates(events) && (e.kind.Started? <==> |events| % 2 == 0)
    ensures Alternates(events + [e])
  {
  }

  /**
   * Over any run of polls a window's events alternate, beginning with started; one is open exactly while the
   * last poll saw the window stored and active.
   */
  lemma {:induction false} EventsAlternate(polls: seq<PollAt>, id: string)
    ensures Alternates(History(polls, id))
    ensures Open(LastSeen(polls, id)) <==> |History(polls, id)| % 2 == 1
  {
    if polls != [] {
      var before := polls[..|polls| - 1];
      var last := polls[|polls| - 1];
      EventsAlternate(before, id);
      ChangeAlternates(History(before, id), id, LastSeen(before, id), Find(last.windows, id), last.now);
    }
  }

  // ---------- The life of one row ----------

  /** The row is stored unchanged at every poll, and polls come in time order. */
  ghost predicate Kept(polls: seq<PollAt>, w: Window) {
    && (forall i :: 0 <= i < |polls| ==> Find(polls[i].windows, w.id) == Some(w))
    && (forall i, j :: 0 <= i < j < |polls| ==> polls[i].now <= polls[j].now)
  }

  /** Some poll falls within the times. */
  ghost predicate PolledWithin(polls: seq<PollAt>, lo: int, hi: int) {
    exists i :: 0 <= i < |polls| && lo <= polls[i].now <= hi
  }

  ghost predicate PolledAfter(polls: seq<PollAt>, t: int) {
    exists i :: 0 <= i < |polls| && polls[i].now > t
  }

  /** One started event once the window has been found active, then one ended event once it has been found over. */
  function Life(w: Window, within: bool, past: bool): seq<Event> {
    if !within then []
    else if !past then [Event(w.id, w.orgID, Started)]
    else [Event(w.id, w.orgID, Started), Event(w.id, w.orgID, Ended(false))]
  }

  /** One more poll of the row; `last` is the time of the one before. */
  lemma LifeNext(w: Window, within: bool, past: bool, last: Option<int>, now: int)
    requires w.recurrence.Once? && (last.None? ==> !within && !past)
    requires last.Some? ==>
      && last.value <= now && (past <==> last.value > w.endAt)
      && (last.value < w.startAt ==> !within) && (w.startAt <= last.value <= w.endAt ==> within)
    ensures var seen := if last.None? then None else Some(Remembered(w, last.value));
      Life(w, within, past) + Change(w.id, seen, Some(w), now)
      == Life(w, within || w.startAt <= now <= w.endAt, past || now > w.endAt)
  {
    assert [Event(w.id, w.orgID, Started)] + [Event(w.id, w.orgID, Ended(false))]
        == [Event(w.id, w.orgID, Started), Event(w.id, w.orgID, Ended(false))];
  }

  /**
   * A one-off row kept unchanged gets one started event once a poll falls between its start and its end, after
   * that one ended event, not early, once a poll falls after its end, and no other event. The same holds after each
   * of the polls, so each event comes at the first such poll.
   */
  lemma {:induction false} OnceStartsAndEnds(polls: seq<PollAt>, w: Window)
    requires w.recurrence.Once? && Kept(polls, w)
    ensures History(polls, w.id) ==
      if !PolledWithin(polls, w.startAt, w.endAt) then []
      else if !PolledAfter(polls, w.endAt) then [Event(w.id, w.orgID, Started)]
      else [Event(w.id, w.orgID, Started), Event(w.id, w.orgID, Ended(false))]
  {
    if polls != [] {
      var n := |polls| - 1;
      var before := polls[..n];
      OnceStartsAndEnds(before, w);
      PolledSnoc(polls, w.startAt, w.endAt);
      if n > 0 {
        assert before[n - 1] == polls[n - 1];
        LastPollTells(before, w.startAt, w.endAt);
      }
      LifeNext(w, PolledWithin(before, w.startAt, w.endAt), PolledAfter(before, w.endAt),
               if n == 0 then None else Some(polls[n - 1].now), polls[n].now);
    }
  }

  lemma PolledSnoc(polls: seq<PollAt>, lo: int, hi: int)
    requires polls != []
    ensures var n := |polls| - 1;
      && (PolledWithin(polls, lo, hi) <==> PolledWithin(polls[..n], lo, hi) || lo <= polls[n].now <= hi)
      && (PolledAfter(polls, hi) <==> PolledAfter(polls[..n], hi) || polls[n].now > hi)
  {
    var n := |polls| - 1;
    assert forall i :: 0 <= i < n ==> polls[..n][i] == polls[i];
  }

  /** In time order the last poll is within the times, or after them exactly if some poll is. */
  lemma LastPollTells(polls: seq<PollAt>, lo: int, hi: int)
    requires polls != [] && forall i, j :: 0 <= i < j < |polls| ==> polls[i].now <= polls[j].now
    ensures var last := polls[|polls| - 1].now;
      && (PolledAfter(polls, hi) <==> last > hi)
      && (last < lo ==> !PolledWithin(polls, lo, hi))
      && (lo <= last <= hi ==> PolledWithin(polls, lo, hi))
  {
  }

  /** The events one poll owes a window, by whether it was open, is stored and is active now. */
  lemma ChangeExactly(id: string, seen: Option<Seen>, row: Option<Window>, now: int)
    ensures var was := seen.Some? && seen.value.active; var nowActive := row.Some? && IsActiveAt(row.value, now);
      Change(id, seen, row, now) ==
        if was == nowActive then []
        else if nowActive then [Event(id, row.value.orgID, Started)]
        else if row.Some? then [Event(id, row.value.orgID, Ended(false))]
        else [Event(id, seen.value.orgID, Ended(true))]
  {
  }

  /** A ticker polled over and over has emitted exactly each window's history. */
  method PollAll(polls: seq<PollAt>) returns (ticker: Ticker)
    requires forall p :: p in polls ==> DistinctIds(p.windows)
    ensures forall id :: EventsOf(ticker.events, id) == History(polls, id)
    ensures forall id :: SeenIn(ticker.active, id) == LastSeen(polls, id)
  {
    ticker := new Ticker();
    for i := 0 to |polls|
      invariant fresh(ticker)
      invariant forall id :: EventsOf(ticker.events, id) == History(polls[..i], id)
      invariant forall id :: SeenIn(ticker.active, id) == LastSeen(polls[..i], id)
    {
      assert polls[..i + 1][..i] == polls[..i];
      assert polls[i] in polls;
      ticker.Poll(polls[i].windows, polls[i].now);
    }
    assert polls[..|polls|] == polls;
  }
}
