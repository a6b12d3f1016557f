/** Login lockout: too many failures within a sliding window. Instants are nanoseconds. */
module Lockout {
  import opened Common

  const MAX_FAILS: nat := 5
  const WINDOW: int := 15 * 60 * NANOS_PER_SECOND

  function CountSince(failures: seq<int>, from: int): nat {
    if failures == [] then 0
    else CountSince(failures[..|failures| - 1], from) + if failures[|failures| - 1] >= from then 1 else 0
  }

  predicate IsLockedOut(failures: seq<int>, now: int) {
    CountSince(failures, now - WINDOW) >= MAX_FAILS
  }

  function OldestSince(failures: seq<int>, from: int): Option<int> {
    if failures == [] then None
    else
      var before := OldestSince(failures[..|failures| - 1], from);
      var t := failures[|failures| - 1];
      if t >= from && (before.None? || t < before.value) then Some(t) else before
  }

  function RetryAfterSeconds(failures: seq<int>, now: int): (s: int)
    ensures s >= 0
  {
    match OldestSince(failures, now - WINDOW)
    case None => 0
    case Some(t) =>
      var left := TruncDiv(t + WINDOW - now, NANOS_PER_SECOND);
      if left > 0 then left else 0
  }

  // The whole seconds until the oldest failure within the last quarter of an hour is that old; none without one.
  lemma RetryMeaning(failures: seq<int>, now: int)
    ensures (forall i | 0 <= i < |failures| :: failures[i] < now - 900_000_000_000) ==> RetryAfterSeconds(failures, now) == 0
    ensures forall i | IsOldest(failures, now - 900_000_000_000, i) ::
              var s := RetryAfterSeconds(failures, now);
              s * 1_000_000_000 <= failures[i] + 900_000_000_000 - now < (s + 1) * 1_000_000_000
  {
    OldestIsLeast(failures, now - WINDOW);
  }

  ghost predicate IsOldest(failures: seq<int>, from: int, i: int) {
    0 <= i < |failures| && failures[i] >= from && forall j | 0 <= j < |failures| && failures[j] >= from :: failures[i] <= failures[j]
  }

  lemma {:induction false} OldestIsLeast(failures: seq<int>, from: int)
    ensures OldestSince(failures, from).None? <==> forall i | 0 <= i < |failures| :: failures[i] < from
    ensures forall i | IsOldest(failures, from, i) :: OldestSince(failures, from) == Some(failures[i])
  {
    if failures != [] {
      var (init, t) := (failures[..|failures| - 1], failures[|failures| - 1]);
      OldestIsLeast(init, from);
      assert forall i | 0 <= i < |init| :: init[i] == failures[i];
      forall i | IsOldest(failures, from, i)
        ensures OldestSince(failures, from) == Some(failures[i])
      {
        OldestNext(init, t, from, i);
      }
    }
  }

  lemma OldestNext(init: seq<int>, t: int, from: int, i: int)
    requires OldestSince(init, from).None? <==> forall j | 0 <= j < |init| :: init[j] < from
    requires forall j | IsOldest(init, from, j) :: OldestSince(init, from) == Some(init[j])
    requires IsOldest(init + [t], from, i)
    ensures OldestSince(init + [t], from) == Some((init + [t])[i])
  {
    var all := init + [t];
    assert all[..|init|] == init && all[|init|] == t && forall j | 0 <= j < |init| :: all[j] == init[j];
    OldestMeaning(init, from);
    OldestAmong(init, from);
    if i < |init| {
      assert IsOldest(init, from, i);
    }
  }

  // The oldest failure is one of the list.
  lemma {:induction false} OldestAmong(failures: seq<int>, from: int)
    ensures OldestSince(failures, from).Some? ==>
              exists i :: 0 <= i < |failures| && failures[i] == OldestSince(failures, from).value && failures[i] >= from
  {
    if failures != [] {
      var init := failures[..|failures| - 1];
      OldestAmong(init, from);
      assert forall i | 0 <= i < |init| :: init[i] == failures[i];
    }
  }

  lemma {:induction false} CountMonotone(failures: seq<int>, a: int, b: int)
    requires a <= b
    ensures CountSince(failures, b) <= CountSince(failures, a)
  {
    if failures != [] {
      CountMonotone(failures[..|failures| - 1], a, b);
    }
  }

  // The oldest failure in the window is the first bound at which the count starts to fall.
  lemma {:induction false} OldestMeaning(failures: seq<int>, from: int)
    ensures OldestSince(failures, from).None? <==> CountSince(failures, from) == 0
    ensures OldestSince(failures, from).Some? ==>
              var t := OldestSince(failures, from).value;
              && t >= from
              && CountSince(failures, t) == CountSince(failures, from)
              && CountSince(failures, t + 1) < CountSince(failures, from)
  {
    if failures != [] {
      var init := failures[..|failures| - 1];
      OldestMeaning(init, from);
      var t := OldestSince(failures, from);
      if t.Some? {
        CountMonotone(init, from, t.value);
        CountMonotone(init, t.value, t.value + 1);
        if OldestSince(init, from).Some? {
          CountMonotone(init, t.value, OldestSince(init, from).value);
        }
      }
    }
  }

  function FailuresSince(failures: seq<int>, from: int): set<nat> {
    set i | 0 <= i < |failures| && failures[i] >= from
  }

  lemma {:induction false} CountIsCard(failures: seq<int>, from: int)
    ensures CountSince(failures, from) == |FailuresSince(failures, from)|
  {
    if failures != [] {
      var n := |failures| - 1;
      CountIsCard(failures[..n], from);
      var init := FailuresSince(failures[..n], from);
      assert FailuresSince(failures, from) == if failures[n] >= from then init + {n} else init;
    }
  }

  // Five failures within the last quarter of an hour lock, four do not.
  lemma LockedMeaning(failures: seq<int>, now: int)
    ensures IsLockedOut(failures, now) <==> |FailuresSince(failures, now - 900_000_000_000)| >= 5
  {
    CountIsCard(failures, now - WINDOW);
  }

  // For a fixed list of failures locked at `now`: the lock holds at every instant through the oldest
  // failure plus the window, hence for all of the advertised retry time; it is over at every instant
  // after that exactly when fewer than five failures are newer than the oldest, as when there are just
  // five in the window.
  lemma LockoutTiming(failures: seq<int>, now: int)
    requires IsLockedOut(failures, now)
    ensures OldestSince(failures, now - WINDOW).Some?
    ensures var oldest := OldestSince(failures, now - WINDOW).value;
            && (forall t | now <= t <= oldest + WINDOW :: IsLockedOut(failures, t))
            && (forall t | now <= t <= now + RetryAfterSeconds(failures, now) * NANOS_PER_SECOND :: IsLockedOut(failures, t))
            && ((forall t | t > oldest + WINDOW :: !IsLockedOut(failures, t)) <==> CountSince(failures, oldest + 1) < MAX_FAILS)
            && (CountSince(failures, now - WINDOW) == MAX_FAILS ==> CountSince(failures, oldest + 1) < MAX_FAILS)
  {
    OldestMeaning(failures, now - WINDOW);
    var oldest := OldestSince(failures, now - WINDOW).value;
    forall t | now <= t <= oldest + WINDOW
      ensures IsLockedOut(failures, t)
    {
      CountMonotone(failures, t - WINDOW, oldest);
    }
    forall t | t > oldest + WINDOW
      ensures IsLockedOut(failures, t) ==> CountSince(failures, oldest + 1) >= MAX_FAILS
    {
      CountMonotone(failures, oldest + 1, t - WINDOW);
    }
    var after := oldest + WINDOW + 1;
    assert after - WINDOW == oldest + 1;
    assert IsLockedOut(failures, after) <==> CountSince(failures, oldest + 1) >= MAX_FAILS;
  }

  // The advertised retry time, rounded down to whole seconds, tells when the lock ends exactly when fewer
  // than five failures are newer than the oldest and the lock has a whole number of seconds left.
  lemma AdvertisedTimeExact(failures: seq<int>, now: int)
    requires IsLockedOut(failures, now)
    ensures OldestSince(failures, now - WINDOW).Some?
    ensures var oldest := OldestSince(failures, now - WINDOW).value;
            (forall t | t > now + RetryAfterSeconds(failures, now) * NANOS_PER_SECOND :: !IsLockedOut(failures, t)) <==>
              CountSince(failures, oldest + 1) < MAX_FAILS && (oldest + WINDOW - now) % NANOS_PER_SECOND == 0
  {
    LockoutTiming(failures, now);
    OldestMeaning(failures, now - WINDOW);
    hide IsLockedOut, CountSince, OldestSince;
    var oldest := OldestSince(failures, now - WINDOW).value;
    var advertised := now + RetryAfterSeconds(failures, now) * NANOS_PER_SECOND;
    assert advertised == oldest + WINDOW - (oldest + WINDOW - now) % NANOS_PER_SECOND;
    if advertised < oldest + WINDOW {
      assert IsLockedOut(failures, oldest + WINDOW);
    }
  }

  // Five failures at once, asked a nanosecond later: the advertised 899 seconds end almost a second before
  // the lock does.
  lemma LockOutlastsBySecond()
    ensures var failures := [0, 0, 0, 0, 0];
            && RetryAfterSeconds(failures, 1) == 899
            && CountSince(failures, 1) < MAX_FAILS
            && (forall t | 1 <= t <= WINDOW :: IsLockedOut(failures, t))
            && 1 + 899 * NANOS_PER_SECOND < WINDOW && !IsLockedOut(failures, WINDOW + 1)
  {
    var failures := [0, 0, 0, 0, 0];
    FiveFailures(0, 1 - WINDOW);
    FiveFailures(0, 0);
    FiveFailures(0, 1);
    OldestMeaning(failures, 1 - WINDOW);
    var t := OldestSince(failures, 1 - WINDOW).value;
    if t > 0 {
      CountMonotone(failures, 1, t);
    } else if t < 0 {
      CountMonotone(failures, t + 1, 0);
    }
    assert t == 0;
    LockoutTiming(failures, 1);
  }

  lemma FiveFailures(a: int, from: int)
    ensures CountSince([a, a, a, a, a], from) == if a >= from then 5 else 0
  {
    CountNext([], a, from);
    CountNext([a], a, from);
    CountNext([a, a], a, from);
    CountNext([a, a, a], a, from);
    CountNext([a, a, a, a], a, from);
    hide CountSince;
    assert [] + [a] == [a] && [a] + [a] == [a, a] && [a, a] + [a] == [a, a, a] && [a, a, a] + [a] == [a, a, a, a];
    assert [a, a, a, a] + [a] == [a, a, a, a, a];
  }

  // One failure at 0 and five at 100 seconds, asked at 200 seconds: the advertised retry time ends at 900
  // seconds, the lock at 1000.
  lemma LockOutlastsRetry()
    ensures var s := NANOS_PER_SECOND;
            var failures := [0, 100 * s, 100 * s, 100 * s, 100 * s, 100 * s];
            && RetryAfterSeconds(failures, 200 * s) == 700
            && (forall t | 200 * s <= t <= 1000 * s :: IsLockedOut(failures, t))
            && !IsLockedOut(failures, 1000 * s + 1)
  {
    var s := NANOS_PER_SECOND;
    var failures := [0, 100 * s, 100 * s, 100 * s, 100 * s, 100 * s];
    OldestMeaning(failures, 200 * s - WINDOW);
    SixFailures(0, 100 * s, 200 * s - WINDOW);
    SixFailures(0, 100 * s, 0);
    SixFailures(0, 100 * s, 1);
    SixFailures(0, 100 * s, 100 * s);
    SixFailures(0, 100 * s, 100 * s + 1);
    var t := OldestSince(failures, 200 * s - WINDOW).value;
    if t > 0 {
      CountMonotone(failures, 1, t);
    } else if t < 0 {
      CountMonotone(failures, t + 1, 0);
    }
    assert t == 0;
    forall t | 200 * s <= t <= 1000 * s
      ensures IsLockedOut(failures, t)
    {
      CountMonotone(failures, t - WINDOW, 100 * s);
    }
  }

  lemma SixFailures(a: int, b: int, from: int)
    ensures CountSince([a, b, b, b, b, b], from) == (if a >= from then 1 else 0) + if b >= from then 5 else 0
  {
    CountNext([], a, from);
    CountNext([a], b, from);
    CountNext([a, b], b, from);
    CountNext([a, b, b], b, from);
    CountNext([a, b, b, b], b, from);
    CountNext([a, b, b, b, b], b, from);
    hide CountSince;
    assert [] + [a] == [a] && [a] + [b] == [a, b] && [a, b] + [b] == [a, b, b] && [a, b, b] + [b] == [a, b, b, b];
    assert [a, b, b, b] + [b] == [a, b, b, b, b] && [a, b, b, b, b] + [b] == [a, b, b, b, b, b];
  }

  lemma CountNext(failures: seq<int>, t: int, from: int)
    ensures CountSince(failures + [t], from) == CountSince(failures, from) + if t >= from then 1 else 0
    ensures CountSince([], from) == 0
  {
    assert (failures + [t])[..|failures|] == failures;
  }
}
