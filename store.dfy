/**
 * The live, in-memory feature store: for every user, the timestamps of that
 * user's recent transactions, kept to compute the transaction velocity at
 * serving time.
 */
module Store {
  import opened Velocity

  /** One transaction reaching the store: the user and the purchase time. */
  datatype Event = Event(userId: int, time: int)

  /** The window length in seconds. */
  function Span(windowHours: int): int
  {
    windowHours * SecondsPerHour
  }

  /** Timestamps at or before this instant expire when `now` is recorded. */
  function Cutoff(now: int, windowHours: int): int
  {
    now - Span(windowHours)
  }

  /** A user's list, or the empty list the store creates on first sight. */
  function HistoryOf(history: map<int, seq<int>>, userId: int): seq<int>
  {
    if userId in history then history[userId] else []
  }

  /** The store's map after `userId` transacts at `now` with a window of
    * `windowHours` hours: the user's list gets `now` appended and is then
    * expired against `now` minus the window. */
  function Record(history: map<int, seq<int>>, userId: int, now: int, windowHours: int): map<int, seq<int>>
  {
    history[userId := Arrive(HistoryOf(history, userId), now, Span(windowHours))]
  }

  /** The store's map after the events arrive one at a time, in order. */
  function Replay(history: map<int, seq<int>>, events: seq<Event>, windowHours: int): map<int, seq<int>>
  {
    if |events| == 0 then history
    else
      var e := events[|events| - 1];
      Record(Replay(history, events[..|events| - 1], windowHours), e.userId, e.time, windowHours)
  }

  /** What a freshly constructed store returns for each of `events`: the
    * length of the user's list right after that event. */
  function Counts(events: seq<Event>, windowHours: int): (r: seq<int>)
    ensures |r| == |events|
  {
    seq(|events|, i requires 0 <= i < |events| =>
      |HistoryOf(Replay(map[], events[..i + 1], windowHours), events[i].userId)|)
  }

  /** The timestamps of `userId`'s events, in arrival order. */
  function UserTimes(events: seq<Event>, userId: int): seq<int>
  {
    if |events| == 0 then []
    else
      var e := events[|events| - 1];
      UserTimes(events[..|events| - 1], userId) + (if e.userId == userId then [e.time] else [])
  }

  /** A prefix one event longer adds that event's time when it is the user's. */
  lemma UserTimesSnoc(events: seq<Event>, n: nat, userId: int)
    requires 0 < n <= |events|
    ensures UserTimes(events[..n], userId)
         == UserTimes(events[..n - 1], userId) + (if events[n - 1].userId == userId then [events[n - 1].time] else [])
  {
    assert events[..n][..n - 1] == events[..n - 1];
  }

  /** Users do not interfere: a user's list after any sequence of events
    * depends only on that user's own timestamps. */
  lemma {:induction false} ReplayPerUser(events: seq<Event>, userId: int, windowHours: int)
    ensures HistoryOf(Replay(map[], events, windowHours), userId)
         == Window(UserTimes(events, userId), Span(windowHours))
  {
    if |events| > 0 {
      var p := events[..|events| - 1];
      var e := events[|events| - 1];
      ReplayPerUser(p, userId, windowHours);
      RecordStep(Replay(map[], p, windowHours), e, userId, windowHours, UserTimes(p, userId));
    }
  }

  /** One more event extends the user's timestamps, or leaves the user alone. */
  lemma RecordStep(before: map<int, seq<int>>, e: Event, userId: int, windowHours: int, ts: seq<int>)
    requires HistoryOf(before, userId) == Window(ts, Span(windowHours))
    ensures HistoryOf(Record(before, e.userId, e.time, windowHours), userId)
         == Window(ts + (if e.userId == userId then [e.time] else []), Span(windowHours))
  {
    if e.userId == userId {
      RecordOwn(before, userId, e.time, windowHours);
      WindowSnoc(ts, e.time, Span(windowHours));
    } else {
      RecordOther(before, e.userId, e.time, windowHours, userId);
      assert ts + [] == ts;
    }
  }

  /** The map after one more event is the store's update applied to the map
    * before it. */
  lemma ReplayLast(p: seq<Event>, e: Event, windowHours: int)
    ensures Replay(map[], p + [e], windowHours) == Record(Replay(map[], p, windowHours), e.userId, e.time, windowHours)
  {
    assert (p + [e])[..|p|] == p;
  }

  /** The calling user's list is appended to and expired. */
  lemma RecordOwn(history: map<int, seq<int>>, userId: int, now: int, windowHours: int)
    ensures HistoryOf(Record(history, userId, now, windowHours), userId)
         == Arrive(HistoryOf(history, userId), now, Span(windowHours))
  {
  }

  /** Every other user's list is left alone. */
  lemma RecordOther(history: map<int, seq<int>>, userId: int, now: int, windowHours: int, other: int)
    requires other != userId
    ensures HistoryOf(Record(history, userId, now, windowHours), other) == HistoryOf(history, other)
  {
  }

  /** After a call the user's list holds exactly the old list's timestamps
    * and the new one that are strictly after the cutoff: nothing later than
    * the call's own time is removed, since the window has no upper bound.
    * With a positive window the new timestamp survives, so the count is at
    * least 1. Other users' lists are left as they were. */
  lemma RecordKeeps(history: map<int, seq<int>>, userId: int, now: int, windowHours: int)
    ensures Record(history, userId, now, windowHours).Keys == history.Keys + {userId}
    ensures forall u :: u in history && u != userId ==> Record(history, userId, now, windowHours)[u] == history[u]
    ensures var kept := Record(history, userId, now, windowHours)[userId];
      forall t :: t in kept <==>
        (t in HistoryOf(history, userId) || t == now) && t > Cutoff(now, windowHours)
    ensures windowHours > 0 ==>
      now in Record(history, userId, now, windowHours)[userId] &&
      |Record(history, userId, now, windowHours)[userId]| >= 1
  {
    var appended := HistoryOf(history, userId) + [now];
    assert forall t :: t in appended <==> t in HistoryOf(history, userId) || t == now;
    KeepAfterMembers(appended, Cutoff(now, windowHours));
  }

  /** The first event a fresh store sees leaves only that timestamp, when
    * the window is positive. */
  lemma FirstEvent(e: Event, windowHours: int)
    requires windowHours > 0
    ensures Replay(map[], [e], windowHours) == map[e.userId := [e.time]]
  {
    assert [] + [e] == [e];
    ReplayLast([], e, windowHours);
    RecordOwn(map[], e.userId, e.time, windowHours);
    ArriveEmpty(e.time, Span(windowHours));
  }

  /** The user's list after the `n`-th event is the list before it, with the
    * event's time appended and then expired. */
  lemma HistoryStep(events: seq<Event>, n: nat, windowHours: int)
    requires 0 < n <= |events|
    ensures var e := events[n - 1];
      HistoryOf(Replay(map[], events[..n], windowHours), e.userId)
      == Arrive(HistoryOf(Replay(map[], events[..n - 1], windowHours), e.userId), e.time, Span(windowHours))
  {
    assert events[..n][..n - 1] == events[..n - 1];
  }

  /** The first event a fresh store sees is the only timestamp in its user's
    * list, when the window is positive. */
  lemma FirstHistory(events: seq<Event>, windowHours: int)
    requires |events| > 0 && windowHours > 0
    ensures HistoryOf(Replay(map[], events[..1], windowHours), events[0].userId) == [events[0].time]
  {
    HistoryStep(events, 1, windowHours);
    assert events[..0] == [];
    ArriveEmpty(events[0].time, Span(windowHours));
  }

  /** Out-of-order arrival: a purchase at `later`, then one of the same user
    * at an earlier time `earlier`. The store keeps the timestamp lying in the
    * future of the second purchase, and reports that purchase as the second
    * in the window. */
  lemma OutOfOrderKeepsFuture(userId: int, later: int, earlier: int, windowHours: int)
    requires windowHours > 0 && earlier < later
    ensures var events := [Event(userId, later), Event(userId, earlier)];
      Counts(events, windowHours) == [1, 2] &&
      HistoryOf(Replay(map[], events, windowHours), userId) == [later, earlier]
  {
    var events := [Event(userId, later), Event(userId, earlier)];
    FirstHistory(events, windowHours);
    SecondHistory(events, windowHours);
    assert events[..2] == events;
    var c := Counts(events, windowHours);
    assert c[0] == 1 && c[1] == 2;
  }

  /** Three purchases of one user: the second within the window of the
    * first, the third at least a window after the second. The store answers
    * 1, 2, 1. */
  lemma ThreeEventTrace(userId: int, t1: int, t2: int, t3: int, windowHours: int)
    requires windowHours > 0 && t1 <= t2 && t2 - Span(windowHours) < t1 && t2 <= t3 - Span(windowHours)
    ensures Counts([Event(userId, t1), Event(userId, t2), Event(userId, t3)], windowHours) == [1, 2, 1]
  {
    var events := [Event(userId, t1), Event(userId, t2), Event(userId, t3)];
    FirstHistory(events, windowHours);
    SecondHistory(events, windowHours);
    ThirdHistory(events, windowHours);
    var c := Counts(events, windowHours);
    assert c[0] == 1 && c[1] == 2 && c[2] == 1;
  }

  /** A second event of the same user inside the first one's window leaves
    * both timestamps. */
  lemma SecondHistory(events: seq<Event>, windowHours: int)
    requires |events| >= 2 && windowHours > 0 && events[0].userId == events[1].userId
    requires events[1].time - Span(windowHours) < events[0].time
    ensures HistoryOf(Replay(map[], events[..2], windowHours), events[0].userId) == [events[0].time, events[1].time]
  {
    FirstHistory(events, windowHours);
    HistoryStep(events, 2, windowHours);
    KeepBoth(events[0].time, events[1].time, Span(windowHours));
  }

  /** A third event of the same user a full window after the first two
    * leaves only its own timestamp. */
  lemma ThirdHistory(events: seq<Event>, windowHours: int)
    requires |events| >= 3 && windowHours > 0
    requires events[0].userId == events[1].userId == events[2].userId
    requires events[0].time <= events[1].time && events[1].time - Span(windowHours) < events[0].time
    requires events[1].time <= events[2].time - Span(windowHours)
    ensures HistoryOf(Replay(map[], events[..3], windowHours), events[0].userId) == [events[2].time]
  {
    SecondHistory(events, windowHours);
    HistoryStep(events, 3, windowHours);
    DropBoth(events[0].time, events[1].time, events[2].time, Span(windowHours));
  }

  lemma KeepBoth(t1: int, t2: int, span: int)
    requires t1 > t2 - span && span > 0
    ensures Arrive([t1], t2, span) == [t1, t2]
  {
    assert [t1] + [t2] == [t1, t2];
    KeepAfterAppend([t1], [t2], t2 - span);
    KeepAfterSingleton(t1, t2 - span);
    KeepAfterSingleton(t2, t2 - span);
  }

  lemma DropBoth(t1: int, t2: int, t3: int, span: int)
    requires t1 <= t3 - span && t2 <= t3 - span && span > 0
    ensures Arrive([t1, t2], t3, span) == [t3]
  {
    var cutoff := t3 - span;
    assert [t1, t2] + [t3] == ([t1] + [t2]) + [t3];
    KeepAfterAppend([t1] + [t2], [t3], cutoff);
    KeepAfterAppend([t1], [t2], cutoff);
    KeepAfterSingleton(t1, cutoff);
    KeepAfterSingleton(t2, cutoff);
    KeepAfterSingleton(t3, cutoff);
  }

  /** The velocity test: with a 24-hour window, purchases on 2023-01-01 at
    * 10:00 and 11:00 and on 2023-01-03 at 10:00 (UTC seconds) yield 1, 2, 1. */
  lemma VelocityTrace()
    ensures Counts([Event(123, 1672567200), Event(123, 1672570800), Event(123, 1672740000)], 24) == [1, 2, 1]
  {
    ThreeEventTrace(123, 1672567200, 1672570800, 1672740000, 24);
  }

  /** The store object: a map from user id to that user's recent timestamps. */
  class FeatureStore {
    const windowHours: int
    var userTxHistory: map<int, seq<int>>

    constructor (windowHours: int := 24)
      ensures this.windowHours == windowHours && userTxHistory == map[]
    {
      this.windowHours := windowHours;
      userTxHistory := map[];
    }

    /** Records a transaction and returns the number of the user's
      * transactions now in the window. */
    method UpdateAndGetVelocity(userId: int, currentTime: int) returns (velocity: int)
      modifies this
      ensures userTxHistory == Record(old(userTxHistory), userId, currentTime, windowHours)
      ensures velocity == |userTxHistory[userId]|
    {
      ghost var before := userTxHistory;
      if userId !in userTxHistory {
        userTxHistory := userTxHistory[userId := []];
      }
      userTxHistory := userTxHistory[userId := userTxHistory[userId] + [currentTime]];
      assert userTxHistory[userId] == HistoryOf(before, userId) + [currentTime];

      var cutoff := Cutoff(currentTime, windowHours);
      var appended := userTxHistory[userId];
      var kept := [];
      var i := 0;
      while i < |appended|
        invariant 0 <= i <= |appended|
        invariant kept == KeepAfter(appended[..i], cutoff)
        invariant userTxHistory == before[userId := appended]
      {
        KeepAfterPrefix(appended, i, cutoff);
        if appended[i] > cutoff {
          kept := kept + [appended[i]];
        }
        i := i + 1;
      }
      assert appended[..i] == appended;
      userTxHistory := userTxHistory[userId := kept];
      assert userTxHistory == before[userId := kept];
      velocity := |kept|;
    }

    /** Forgets every user. */
    method Reset()
      modifies this
      ensures userTxHistory == map[]
    {
      userTxHistory := map[];
    }
  }

  /** After `Reset`, a store answers exactly as a freshly constructed store
    * with the same window would. */
  method ResetMatchesFresh(store: FeatureStore, userId: int, time: int) returns (afterReset: int, fromFresh: int)
    modifies store
    ensures afterReset == fromFresh
    ensures store.userTxHistory == Replay(map[], [Event(userId, time)], store.windowHours)
  {
    store.Reset();
    afterReset := store.UpdateAndGetVelocity(userId, time);
    var newStore := new FeatureStore(store.windowHours);
    fromFresh := newStore.UpdateAndGetVelocity(userId, time);
  }

  /** A freshly constructed store, called once per event in order, answers
    * exactly `Counts` of the events. */
  method ServeEvents(events: seq<Event>, windowHours: int) returns (answers: seq<int>)
    ensures answers == Counts(events, windowHours)
  {
    var store := new FeatureStore(windowHours);
    answers := [];
    var i := 0;
    while i < |events|
      invariant 0 <= i <= |events|
      invariant store.windowHours == windowHours
      invariant store.userTxHistory == Replay(map[], events[..i], windowHours)
      invariant answers == Counts(events, windowHours)[..i]
    {
      var e := events[i];
      ReplayNext(events, i, windowHours);
      var velocity := store.UpdateAndGetVelocity(e.userId, e.time);
      SliceSnoc(Counts(events, windowHours), i);
      answers := answers + [velocity];
      i := i + 1;
    }
    assert Counts(events, windowHours)[..i] == Counts(events, windowHours);
  }

  lemma SliceSnoc(s: seq<int>, i: nat)
    requires i < |s|
    ensures s[..i + 1] == s[..i] + [s[i]]
  {
  }

  /** The `i`-th answer is read off the map after the `i`-th call. */
  lemma ReplayNext(events: seq<Event>, i: nat, windowHours: int)
    requires i < |events|
    ensures var after := Record(Replay(map[], events[..i], windowHours), events[i].userId, events[i].time, windowHours);
      Replay(map[], events[..i + 1], windowHours) == after &&
      Counts(events, windowHours)[i] == |after[events[i].userId]|
  {
    assert events[..i + 1][..i] == events[..i];
  }
}
