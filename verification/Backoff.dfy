/** How long a poller waits between ticks. Durations are whole nanoseconds. */
module Backoff {

  const MAX_BACKOFF := 60_000_000_000
  const BACKOFF_EXPONENT := 2

  /** How a tick ends; a cancelled context ends the loop. */
  datatype Tick = Succeeds | Fails | Cancelled

  function NextBackoff(current: int, floor: int): int {
    var next := current * BACKOFF_EXPONENT;
    if next > MAX_BACKOFF then MAX_BACKOFF
    else if next < floor then floor
    else next
  }

  /** The wait after the given number of failures in a row. */
  function WaitAfter(interval: int, failures: nat): int
    requires 0 < failures
  {
    if failures == 1 then interval else NextBackoff(WaitAfter(interval, failures - 1), interval)
  }

  /** The failures in a row that end with the last of some ticks. */
  function Streak(ticks: seq<Tick>): nat {
    if ticks == [] || ticks[|ticks| - 1] != Fails then 0 else 1 + Streak(ticks[..|ticks| - 1])
  }

  predicate Uncancelled(ticks: seq<Tick>) {
    forall i | 0 <= i < |ticks| :: ticks[i] != Cancelled
  }

  lemma StreakExtends(ticks: seq<Tick>, k: nat)
    requires k < |ticks|
    ensures Streak(ticks[..k + 1]) == if ticks[k] == Fails then 1 + Streak(ticks[..k]) else 0
    ensures Uncancelled(ticks[..k + 1]) <==> Uncancelled(ticks[..k]) && ticks[k] != Cancelled
  {
    assert ticks[..k + 1][..k] == ticks[..k];
  }

  lemma NoStreak(ticks: seq<Tick>)
    ensures Streak(ticks[..0]) == 0 && Uncancelled(ticks[..0])
  {
  }

  lemma WaitBacksOff(interval: int, failures: nat)
    requires 0 < failures
    ensures WaitAfter(interval, 1) == interval
    ensures WaitAfter(interval, failures + 1) == NextBackoff(WaitAfter(interval, failures), interval)
  {
  }

  /** The loop: every tick that is not cancelled is followed by one wait, the plain
      interval after a success and the backed-off one after a failure. */
  method Run(interval: int, ticks: seq<Tick>) returns (waits: seq<int>)
    ensures |waits| <= |ticks| && Uncancelled(ticks[..|waits|])
    ensures |waits| < |ticks| ==> ticks[|waits|] == Cancelled
    ensures forall k | 0 <= k < |waits| ::
              waits[k] == if ticks[k] == Succeeds then interval else WaitAfter(interval, Streak(ticks[..k + 1]))
  {
    hide Streak, Uncancelled, WaitAfter, NextBackoff;
    NoStreak(ticks);
    WaitBacksOff(interval, 1);
    var backoff := interval;
    waits := [];
    for k := 0 to |ticks|
      invariant |waits| == k && Uncancelled(ticks[..k])
      invariant backoff == WaitAfter(interval, Streak(ticks[..k]) + 1)
      invariant forall j | 0 <= j < k && ticks[j] != Succeeds :: 0 < Streak(ticks[..j + 1])
      invariant forall j | 0 <= j < k ::
                  waits[j] == if ticks[j] == Succeeds then interval else WaitAfter(interval, Streak(ticks[..j + 1]))
    {
      StreakExtends(ticks, k);
      WaitBacksOff(interval, Streak(ticks[..k]) + 1);
      var wait := interval;
      match ticks[k] {
        case Cancelled => return;
        case Fails =>
          wait := backoff;
          backoff := NextBackoff(backoff, interval);
        case Succeeds =>
          backoff := interval;
      }
      waits := waits + [wait];
    }
  }

  function Power(n: nat): nat {
    if n == 0 then 1 else 2 * Power(n - 1)
  }

  lemma DoubleProduct(i: int, p: int)
    ensures i * (2 * p) == 2 * (i * p)
  {
  }

  /** Below the ceiling the wait doubles with every failure; it never passes the ceiling. */
  lemma {:induction false} WaitDoubles(interval: int, failures: nat)
    requires 0 <= interval <= 60_000_000_000 && 0 < failures
    ensures var doubled := interval * Power(failures - 1);
            WaitAfter(interval, failures) == if doubled < 60_000_000_000 then doubled else 60_000_000_000
    ensures interval <= interval * Power(failures - 1)
  {
    if failures > 1 {
      WaitDoubles(interval, failures - 1);
      DoubleProduct(interval, Power(failures - 2));
    }
  }

  lemma {:induction false} WaitKeepsFloor(interval: int, failures: nat)
    requires interval <= MAX_BACKOFF && 0 < failures
    ensures interval <= WaitAfter(interval, failures) <= MAX_BACKOFF
  {
    if failures > 1 {
      WaitKeepsFloor(interval, failures - 1);
    }
  }

  /** No wait is shorter than the poll interval exactly when the interval is at most the ceiling. */
  lemma {:induction false} FloorIsKeptBelowCeiling(interval: int)
    ensures (forall failures: nat | 0 < failures :: interval <= WaitAfter(interval, failures)) <==>
              interval <= 60_000_000_000
  {
    if interval <= MAX_BACKOFF {
      forall failures: nat | 0 < failures
        ensures interval <= WaitAfter(interval, failures)
      {
        WaitKeepsFloor(interval, failures);
      }
    } else {
      assert WaitAfter(interval, 2) == NextBackoff(WaitAfter(interval, 1), interval);
      assert WaitAfter(interval, 2) == MAX_BACKOFF;
    }
  }
}
