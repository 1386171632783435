/**
 * The per-user velocity window of the live feature store: one user's
 * transaction timestamps, in arrival order, expired against a cutoff.
 * Timestamps are integer seconds.
 */
module Velocity {

  const SecondsPerHour: int := 3600

  /** The elements of `s` strictly after `cutoff`, in their original order
    * (the list comprehension `[ts for ts in history if ts > cutoff]`). */
  function KeepAfter(s: seq<int>, cutoff: int): seq<int>
  {
    if |s| == 0 then []
    else
      var last := s[|s| - 1];
      KeepAfter(s[..|s| - 1], cutoff) + (if last > cutoff then [last] else [])
  }

  /** A timestamp is kept exactly when it was in the list and is strictly
    * after the cutoff. */
  lemma {:induction false} KeepAfterMembers(s: seq<int>, cutoff: int)
    ensures forall x :: x in KeepAfter(s, cutoff) <==> x in s && x > cutoff
  {
    if |s| > 0 {
      var last := s[|s| - 1];
      assert s == s[..|s| - 1] + [last];
      KeepAfterMembers(s[..|s| - 1], cutoff);
    }
  }

  /** Filtering one element further into a list. */
  lemma KeepAfterPrefix(s: seq<int>, i: nat, cutoff: int)
    requires i < |s|
    ensures KeepAfter(s[..i + 1], cutoff) == KeepAfter(s[..i], cutoff) + (if s[i] > cutoff then [s[i]] else [])
  {
    assert s[..i + 1][..i] == s[..i];
  }

  /** Filtering distributes over concatenation: the relative order of the
    * kept timestamps is the order they arrived in. */
  lemma {:induction false} KeepAfterAppend(a: seq<int>, b: seq<int>, cutoff: int)
    ensures KeepAfter(a + b, cutoff) == KeepAfter(a, cutoff) + KeepAfter(b, cutoff)
  {
    if |b| == 0 {
      assert a + b == a;
    } else {
      var b' := b[..|b| - 1];
      var last := b[|b| - 1];
      assert (a + b)[..|a + b| - 1] == a + b';
      assert (a + b)[|a + b| - 1] == last;
      KeepAfterAppend(a, b', cutoff);
    }
  }

  /** A single timestamp survives exactly when it is after the cutoff. */
  lemma KeepAfterSingleton(x: int, cutoff: int)
    ensures KeepAfter([x], cutoff) == if x > cutoff then [x] else []
  {
    assert [x][..0] == [];
  }

  /** Expiring against a cutoff and then against a later one is expiring
    * against the later one alone. */
  lemma {:induction false} KeepAfterTwice(s: seq<int>, earlier: int, later: int)
    requires earlier <= later
    ensures KeepAfter(KeepAfter(s, earlier), later) == KeepAfter(s, later)
  {
    if |s| > 0 {
      var s' := s[..|s| - 1];
      var last := s[|s| - 1];
      KeepAfterTwice(s', earlier, later);
      KeepAfterAppend(KeepAfter(s', earlier), if last > earlier then [last] else [], later);
    }
  }

  /** With integer timestamps, the elements at or after `c` are those strictly
    * after `c` plus the occurrences of `c` itself. */
  lemma {:induction false} KeepAtLeastSplit(s: seq<int>, c: int)
    ensures |KeepAfter(s, c - 1)| == |KeepAfter(s, c)| + multiset(s)[c]
  {
    if |s| > 0 {
      var s' := s[..|s| - 1];
      assert s == s' + [s[|s| - 1]];
      KeepAtLeastSplit(s', c);
    }
  }

  /** The history the store holds for one user after receiving the timestamps
    * `ts` in arrival order: every arrival is appended and the whole list is
    * then expired against that arrival's time minus `span` seconds. */
  function Window(ts: seq<int>, span: int): seq<int>
  {
    if |ts| == 0 then [] else Arrive(Window(ts[..|ts| - 1], span), ts[|ts| - 1], span)
  }

  /** One arrival at `now`: appended, then everything expired against it. */
  function Arrive(history: seq<int>, now: int, span: int): seq<int>
  {
    KeepAfter(history + [now], now - span)
  }

  /** The first arrival into an empty history stays, for a positive span. */
  lemma ArriveEmpty(now: int, span: int)
    requires span > 0
    ensures Arrive([], now, span) == [now]
  {
    assert [] + [now] == [now];
    KeepAfterSingleton(now, now - span);
  }

  /** One more arrival extends the window by `Arrive`. */
  lemma WindowSnoc(ts: seq<int>, now: int, span: int)
    ensures Window(ts + [now], span) == Arrive(Window(ts, span), now, span)
  {
    var s := ts + [now];
    assert s[..|s| - 1] == ts;
  }

  predicate NonDecreasing(ts: seq<int>)
  {
    forall i, j :: 0 <= i < j < |ts| ==> ts[i] <= ts[j]
  }

  /** When the timestamps arrive in time order, the earlier expiry passes are
    * subsumed by the last one: the window is the arrivals strictly after the
    * latest arrival minus `span`. */
  lemma {:induction false} WindowInOrder(ts: seq<int>, span: int)
    requires |ts| > 0 && NonDecreasing(ts)
    ensures Window(ts, span) == KeepAfter(ts, ts[|ts| - 1] - span)
  {
    if |ts| == 1 {
      WindowFirst(ts, span);
    } else {
      NonDecreasingPrefix(ts);
      WindowInOrder(ts[..|ts| - 1], span);
      WindowInOrderStep(ts, span);
    }
  }

  /** A single arrival is expired against itself only. */
  lemma WindowFirst(ts: seq<int>, span: int)
    requires |ts| == 1
    ensures Window(ts, span) == KeepAfter(ts, ts[0] - span)
  {
    assert ts[..0] == [];
    assert [] + [ts[0]] == ts;
  }

  /** One in-order arrival after a window that already has the in-order form. */
  lemma WindowInOrderStep(ts: seq<int>, span: int)
    requires |ts| > 1 && ts[|ts| - 2] <= ts[|ts| - 1]
    requires var p := ts[..|ts| - 1]; Window(p, span) == KeepAfter(p, p[|p| - 1] - span)
    ensures Window(ts, span) == KeepAfter(ts, ts[|ts| - 1] - span)
  {
    var p := ts[..|ts| - 1];
    var now := ts[|ts| - 1];
    assert ts == p + [now];
    WindowSnoc(p, now, span);
    WindowStep(p, p[|p| - 1], now, span);
  }

  /** Dropping the last arrival keeps the rest in order, and the last of the
    * rest is no later than the dropped one. */
  lemma NonDecreasingPrefix(ts: seq<int>)
    requires |ts| > 1 && NonDecreasing(ts)
    ensures NonDecreasing(ts[..|ts| - 1]) && ts[|ts| - 2] <= ts[|ts| - 1]
  {
    var p := ts[..|ts| - 1];
    forall i, j | 0 <= i < j < |p| ensures p[i] <= p[j] {
      assert p[i] == ts[i] && p[j] == ts[j];
    }
  }

  /** Expiring an already expired list again, after one more arrival,
    * against a later cutoff, is expiring the whole list once. */
  lemma WindowStep(p: seq<int>, prev: int, now: int, span: int)
    requires prev <= now
    ensures KeepAfter(KeepAfter(p, prev - span) + [now], now - span) == KeepAfter(p + [now], now - span)
  {
    calc {
      KeepAfter(KeepAfter(p, prev - span) + [now], now - span);
    == { KeepAfterAppend(KeepAfter(p, prev - span), [now], now - span); }
      KeepAfter(KeepAfter(p, prev - span), now - span) + KeepAfter([now], now - span);
    == { KeepAfterTwice(p, prev - span, now - span); }
      KeepAfter(p, now - span) + KeepAfter([now], now - span);
    == { KeepAfterAppend(p, [now], now - span); }
      KeepAfter(p + [now], now - span);
    }
  }
}
