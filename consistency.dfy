/**
 * Training computes each row's velocity in batch, with pandas' closed
 * 24-hour rolling window; serving asks the live store, which keeps only
 * timestamps strictly inside its window. This module relates the two counts
 * for the same events and states when a served row matches its training row.
 */
module Consistency {
  import opened Outcomes
  import opened Velocity
  import opened Store
  import opened Engineering

  /** The events a live store receives when fed the rows of a table in order. */
  function EventsOf(s: seq<Enriched>): (events: seq<Event>)
    ensures |events| == |s|
    ensures forall i :: 0 <= i < |s| ==> events[i] == Event(s[i].tx.userId, s[i].tx.purchaseTime)
  {
    seq(|s|, i requires 0 <= i < |s| => Event(s[i].tx.userId, s[i].tx.purchaseTime))
  }

  /** How many of the first `n` rows of `s` belong to row `i`'s user and lie
    * exactly one day before it: counted in batch, expired live. */
  function BoundaryTies(s: seq<Enriched>, i: nat, n: nat): nat
    requires i < |s| && n <= |s|
  {
    if n == 0 then 0
    else
      BoundaryTies(s, i, n - 1) +
      (if s[n - 1].tx.userId == s[i].tx.userId && s[n - 1].tx.purchaseTime == s[i].tx.purchaseTime - DayWindow
       then 1 else 0)
  }

  /** Within one user, the rows of a sorted table are in time order. */
  predicate UserTimeOrdered(events: seq<Event>)
  {
    forall j, k :: 0 <= j < k < |events| && events[j].userId == events[k].userId ==>
      events[j].time <= events[k].time
  }

  lemma SortedIsUserTimeOrdered(s: seq<Enriched>)
    requires SortedByUserTime(s)
    ensures UserTimeOrdered(EventsOf(s))
  {
    var events := EventsOf(s);
    forall j, k | 0 <= j < k < |events| && events[j].userId == events[k].userId
      ensures events[j].time <= events[k].time
    {
      assert RowBefore(s[j], s[k]);
    }
  }

  /** Every timestamp in a user's list came from one of that user's events. */
  lemma {:induction false} UserTimesFrom(events: seq<Event>, userId: int)
    ensures forall x :: x in UserTimes(events, userId) ==>
      exists j :: 0 <= j < |events| && events[j].userId == userId && events[j].time == x
  {
    if |events| > 0 {
      var p := events[..|events| - 1];
      UserTimesFrom(p, userId);
      forall x | x in UserTimes(events, userId)
        ensures exists j :: 0 <= j < |events| && events[j].userId == userId && events[j].time == x
      {
        if x in UserTimes(p, userId) {
          var j :| 0 <= j < |p| && p[j].userId == userId && p[j].time == x;
          assert events[j] == p[j];
        } else {
          assert events[|events| - 1].time == x;
        }
      }
    }
  }

  /** Fed in per-user time order, each user's timestamps arrive in order. */
  lemma {:induction false} UserTimesInOrder(events: seq<Event>, userId: int)
    requires UserTimeOrdered(events)
    ensures NonDecreasing(UserTimes(events, userId))
  {
    if |events| > 0 {
      var p := events[..|events| - 1];
      var e := events[|events| - 1];
      assert UserTimeOrdered(p) by {
        forall j, k | 0 <= j < k < |p| && p[j].userId == p[k].userId ensures p[j].time <= p[k].time {
          assert p[j] == events[j] && p[k] == events[k];
        }
      }
      UserTimesInOrder(p, userId);
      if e.userId == userId {
        var ts := UserTimes(p, userId);
        UserTimesFrom(p, userId);
        forall x | x in ts ensures x <= e.time {
          var j :| 0 <= j < |p| && p[j].userId == userId && p[j].time == x;
          assert events[j] == p[j];
        }
        assert UserTimes(events, userId) == ts + [e.time];
        var r := ts + [e.time];
        forall a, b | 0 <= a < b < |r| ensures r[a] <= r[b] {
          if b == |ts| {
            assert r[a] == ts[a] && ts[a] in ts;
          } else {
            assert r[a] == ts[a] && r[b] == ts[b];
          }
        }
      }
    }
  }

  /** The batch window of row `i` over the first `n` rows is the user's
    * timestamps at or after the day-earlier bound. */
  lemma {:induction false} WindowCountAsFilter(s: seq<Enriched>, i: nat, n: nat)
    requires SortedByUserTime(s) && i < |s| && n <= i + 1
    ensures CountInWindow(s, i, n)
         == |KeepAfter(UserTimes(EventsOf(s)[..n], s[i].tx.userId), s[i].tx.purchaseTime - DayWindow - 1)|
  {
    if n > 0 {
      WindowCountAsFilter(s, i, n - 1);
      assert RowBefore(s[n - 1], s[i]);
      WindowCountStep(s, i, n);
    }
  }

  /** One more row extends the batch window and the user's filtered
    * timestamps alike. */
  lemma WindowCountStep(s: seq<Enriched>, i: nat, n: nat)
    requires i < |s| && 0 < n <= |s| && RowBefore(s[n - 1], s[i])
    requires CountInWindow(s, i, n - 1)
          == |KeepAfter(UserTimes(EventsOf(s)[..n - 1], s[i].tx.userId), s[i].tx.purchaseTime - DayWindow - 1)|
    ensures CountInWindow(s, i, n)
         == |KeepAfter(UserTimes(EventsOf(s)[..n], s[i].tx.userId), s[i].tx.purchaseTime - DayWindow - 1)|
  {
    var events := EventsOf(s);
    var u := s[i].tx.userId;
    var cutoff := s[i].tx.purchaseTime - DayWindow - 1;
    var added := if events[n - 1].userId == u then [events[n - 1].time] else [];
    UserTimesSnoc(events, n, u);
    KeepAfterAppend(UserTimes(events[..n - 1], u), added, cutoff);
    if events[n - 1].userId == u {
      KeepAfterSingleton(events[n - 1].time, cutoff);
    } else {
      assert KeepAfter(added, cutoff) == [];
    }
  }

  /** The boundary ties are the occurrences of the day-earlier instant among
    * the user's timestamps. */
  lemma {:induction false} BoundaryTiesAsOccurrences(s: seq<Enriched>, i: nat, n: nat)
    requires i < |s| && n <= |s|
    ensures BoundaryTies(s, i, n)
         == multiset(UserTimes(EventsOf(s)[..n], s[i].tx.userId))[s[i].tx.purchaseTime - DayWindow]
  {
    if n > 0 {
      BoundaryTiesAsOccurrences(s, i, n - 1);
      BoundaryTiesStep(s, i, n);
    }
  }

  /** One more row adds a tie exactly when it adds an occurrence. */
  lemma BoundaryTiesStep(s: seq<Enriched>, i: nat, n: nat)
    requires i < |s| && 0 < n <= |s|
    requires BoundaryTies(s, i, n - 1)
          == multiset(UserTimes(EventsOf(s)[..n - 1], s[i].tx.userId))[s[i].tx.purchaseTime - DayWindow]
    ensures BoundaryTies(s, i, n)
         == multiset(UserTimes(EventsOf(s)[..n], s[i].tx.userId))[s[i].tx.purchaseTime - DayWindow]
  {
    var events := EventsOf(s);
    var u := s[i].tx.userId;
    var prev := UserTimes(events[..n - 1], u);
    var added := if events[n - 1].userId == u then [events[n - 1].time] else [];
    UserTimesSnoc(events, n, u);
    assert multiset(prev + added) == multiset(prev) + multiset(added);
  }

  lemma PrefixOrdered(events: seq<Event>, n: nat)
    requires UserTimeOrdered(events) && n <= |events|
    ensures UserTimeOrdered(events[..n])
  {
    var prefix := events[..n];
    forall j, k | 0 <= j < k < |prefix| && prefix[j].userId == prefix[k].userId
      ensures prefix[j].time <= prefix[k].time
    {
      assert prefix[j] == events[j] && prefix[k] == events[k];
    }
  }

  /** For a sorted table the live count of row `i` is the number of the
    * user's timestamps so far strictly after a day before row `i`. */
  lemma LiveCountAsFilter(s: seq<Enriched>, i: nat)
    requires SortedByUserTime(s) && i < |s|
    ensures Counts(EventsOf(s), 24)[i]
         == |KeepAfter(UserTimes(EventsOf(s)[..i + 1], s[i].tx.userId), s[i].tx.purchaseTime - DayWindow)|
  {
    var ts := UserTimes(EventsOf(s)[..i + 1], s[i].tx.userId);
    LiveCountIsWindow(s, i);
    LastUserTime(s, i);
    SortedUserTimesInOrder(s, i + 1, s[i].tx.userId);
    WindowInOrder(ts, Span(24));
  }

  /** The live count of row `i` is the length of its user's window. */
  lemma LiveCountIsWindow(s: seq<Enriched>, i: nat)
    requires i < |s|
    ensures Counts(EventsOf(s), 24)[i]
         == |Window(UserTimes(EventsOf(s)[..i + 1], s[i].tx.userId), Span(24))|
  {
    ReplayPerUser(EventsOf(s)[..i + 1], s[i].tx.userId, 24);
  }

  /** Row `i` is the latest of its user's timestamps so far. */
  lemma LastUserTime(s: seq<Enriched>, i: nat)
    requires i < |s|
    ensures var ts := UserTimes(EventsOf(s)[..i + 1], s[i].tx.userId);
      |ts| > 0 && ts[|ts| - 1] == s[i].tx.purchaseTime
  {
    UserTimesSnoc(EventsOf(s), i + 1, s[i].tx.userId);
  }

  /** In a sorted table every user's timestamps come in time order. */
  lemma SortedUserTimesInOrder(s: seq<Enriched>, n: nat, userId: int)
    requires SortedByUserTime(s) && n <= |s|
    ensures NonDecreasing(UserTimes(EventsOf(s)[..n], userId))
  {
    SortedIsUserTimeOrdered(s);
    PrefixOrdered(EventsOf(s), n);
    UserTimesInOrder(EventsOf(s)[..n], userId);
  }

  /** The batch velocity of a row equals what a fresh live store reports for
    * the same events fed in table order, plus the user's earlier rows lying
    * exactly 24 hours before it: pandas' window is closed at its lower end,
    * the store's cutoff is strict. */
  lemma BatchCountIsLiveCountPlusBoundaryTies(s: seq<Enriched>, i: nat)
    requires SortedByUserTime(s) && i < |s|
    ensures RollingCount(s, i) == Counts(EventsOf(s), 24)[i] + BoundaryTies(s, i, i + 1)
  {
    var ts := UserTimes(EventsOf(s)[..i + 1], s[i].tx.userId);
    var bound := s[i].tx.purchaseTime - DayWindow;
    LiveCountAsFilter(s, i);
    WindowCountAsFilter(s, i, i + 1);
    KeepAtLeastSplit(ts, bound);
    BoundaryTiesAsOccurrences(s, i, i + 1);
  }

  /** Away from the exact 24-hour boundary the two counts agree. */
  lemma BatchMatchesLiveWithoutBoundaryTies(s: seq<Enriched>, i: nat)
    requires SortedByUserTime(s) && i < |s|
    requires BoundaryTies(s, i, i + 1) == 0
    ensures Counts(EventsOf(s), 24)[i] == RollingCount(s, i)
  {
    BatchCountIsLiveCountPlusBoundaryTies(s, i);
  }

  /** Two purchases of one user exactly 24 hours apart: the batch counts the
    * second as 2, the live store as 1. */
  lemma BoundaryExample(tx: Transaction)
    ensures var first := Enriched(tx.(purchaseTime := 0), DeriveTimeFeatures(tx.signupTime, 0));
      var second := Enriched(tx.(purchaseTime := DayWindow), DeriveTimeFeatures(tx.signupTime, DayWindow));
      var s := [first, second];
      RollingCount(s, 1) == 2 && Counts(EventsOf(s), 24)[1] == 1
  {
    var first := Enriched(tx.(purchaseTime := 0), DeriveTimeFeatures(tx.signupTime, 0));
    var second := Enriched(tx.(purchaseTime := DayWindow), DeriveTimeFeatures(tx.signupTime, DayWindow));
    var s := [first, second];
    BatchCountIsLiveCountPlusBoundaryTies(s, 1);
    assert BoundaryTies(s, 1, 0) == 0 && BoundaryTies(s, 1, 1) == 1 && BoundaryTies(s, 1, 2) == 1;
    assert CountInWindow(s, 1, 0) == 0 && CountInWindow(s, 1, 1) == 1 && CountInWindow(s, 1, 2) == 2;
  }

  /** The serving path end to end: a fresh live store fed the training table
    * in user and time order, then `transform` of one of its transactions with
    * the store's count as override, reproduces that transaction's training
    * row (up to the label, which a request does not carry), provided no
    * earlier purchase of the user lies exactly 24 hours before it. */
  lemma LiveServingMatchesTraining<S, E>(est: Estimators<S, E>, ipMap: Option<seq<IpRange>>, scaler: Option<S>,
                                         encoder: Option<E>, frame: Frame, k: nat, request: Transaction)
    requires ipMap.Some? && !frame.hasCountry
    requires Pipeline(est, ipMap, scaler, encoder, frame, true, None).result.Ok?
    requires k < |frame.rows|
    requires var sorted := RowsOf(CountedRows(frame, ipMap, None));
      request.(country := sorted[k].tx.country, classLabel := sorted[k].tx.classLabel) == sorted[k].tx &&
      BoundaryTies(sorted, k, k + 1) == 0
    ensures var sorted := RowsOf(CountedRows(frame, ipMap, None));
      var trained := Pipeline(est, ipMap, scaler, encoder, frame, true, None);
      var live := Counts(EventsOf(sorted), 24)[k];
      Pipeline(est, ipMap, trained.scaler, trained.encoder, Frame([request], false), false, Some(live)).result
        == Ok([trained.result.value[k].(classLabel := request.classLabel)])
  {
    var counted := CountedRows(frame, ipMap, None);
    var sorted := RowsOf(counted);
    BatchMatchesLiveWithoutBoundaryTies(sorted, k);
    ServingReproducesTraining(est, ipMap, scaler, encoder, frame, k, request, Counts(EventsOf(sorted), 24)[k]);
  }
}
