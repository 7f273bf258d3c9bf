/** When to search for the next GPS position: prediction of the time to a lock, and 32-bit clock arithmetic.

    The smoothing weight 0.2 is taken as the exact fraction 1/5. */
module GpsUpdateScheduling {

  import opened Common

  /** The low 32 bits of a time or a difference of times. */
  function Wrap(n: int): Uint32 {
    n % TWO32
  }

  /** An unsigned 32-bit number read as a signed one. */
  function ToInt32(n: Uint32): int {
    if n < TWO31 then n else n - TWO32
  }

  /** A lock time as it is measured on the wrapping clock; what looks negative counts as zero. */
  function LockTime(ended: Uint32, started: Uint32): (r: nat)
    ensures r < TWO31
  {
    Max(0, ToInt32(Wrap(ended - started)))
  }

  /** The smoothed prediction after one more lock time; the first one is ignored, the second one starts the filter. */
  function Smoothed(count: nat, predicted: nat, lockTime: nat): nat {
    if count == 0 then predicted else if count == 1 then lockTime else (lockTime + 4 * predicted) / 5
  }

  class Scheduler {
    var searchStartedMs: Uint32
    var searchEndedMs: Uint32
    var searchCount: nat
    var predictedMsToGetLock: Uint32

    constructor ()
      ensures searchStartedMs == searchEndedMs == searchCount == predictedMsToGetLock == 0
    {
      searchStartedMs, searchEndedMs, searchCount, predictedMsToGetLock := 0, 0, 0, 0;
    }

    method InformSearching(millis: Uint32)
      modifies this`searchStartedMs
      ensures searchStartedMs == millis
    {
      searchStartedMs := millis;
    }

    method InformGotLock(millis: Uint32)
      requires predictedMsToGetLock < TWO31
      modifies this`searchEndedMs, this`predictedMsToGetLock, this`searchCount
      ensures searchEndedMs == millis && searchCount == old(searchCount) + 1
      ensures predictedMsToGetLock
           == Smoothed(old(searchCount), old(predictedMsToGetLock), LockTime(millis, searchStartedMs)) < TWO31
    {
      searchEndedMs := millis;
      UpdateLockTimePrediction();
    }

    method UpdateLockTimePrediction()
      requires predictedMsToGetLock < TWO31
      modifies this`predictedMsToGetLock, this`searchCount
      ensures searchCount == old(searchCount) + 1
      ensures predictedMsToGetLock
           == Smoothed(old(searchCount), old(predictedMsToGetLock), LockTime(searchEndedMs, searchStartedMs)) < TWO31
    {
      hide Wrap;
      var lockTime := ToInt32(Wrap(searchEndedMs - searchStartedMs));
      if lockTime < 0 {
        lockTime := 0;
      }
      if searchCount == 1 {
        predictedMsToGetLock := lockTime;
      } else if searchCount > 1 {
        predictedMsToGetLock := (lockTime + 4 * predictedMsToGetLock) / 5;
      }
      searchCount := searchCount + 1;
    }

    method ResetPrediction()
      modifies this
      ensures searchStartedMs == searchEndedMs == searchCount == predictedMsToGetLock == 0
    {
      searchStartedMs, searchEndedMs, searchCount, predictedMsToGetLock := 0, 0, 0, 0;
    }

    /** With the last search ended at the true time `ended` and the clock at the true time `now`, the wait is the true one,
        or nothing if it is over, exactly if it is below 2^31 ms, or over by a time whose low 32 bits are at most 2^31. */
    method MsUntilNextSearch(millis: Uint32, updateInterval: Uint32, ghost ended: nat, ghost now: nat) returns (wait: Uint32)
      requires searchEndedMs == Wrap(ended) && millis == Wrap(now)
      ensures var remaining := ended + updateInterval - predictedMsToGetLock - now;
              wait == Max(0, remaining) <==> ReadsAsWait(remaining)
    {
      hide Wrap;
      var dueAtMs := Wrap(searchEndedMs + updateInterval);
      var compensatedStart := Wrap(dueAtMs - predictedMsToGetLock);
      var remainingMs := ToInt32(Wrap(compensatedStart - millis));
      WrapTwice(ended, updateInterval);
      WrapTwice(ended + updateInterval, 0 - predictedMsToGetLock);
      WrapDifference(ended + updateInterval - predictedMsToGetLock, now);
      ReadsSigned(ended + updateInterval - predictedMsToGetLock - now);
      if remainingMs < 0 {
        remainingMs := 0;
      }
      wait := remainingMs;
    }

    /** The search started at the true time `started`, the last one to end ended at `ended`, and it is `now`. During a
        search the result is the true time since its start exactly if the low 32 bits of the start exceed those of the end,
        or no time has passed; after a search it is 0 exactly if they do not, or no time has passed. */
    method ElapsedSearchMs(millis: Uint32, ghost started: nat, ghost ended: nat, ghost now: nat) returns (elapsed: Uint32)
      requires searchStartedMs == Wrap(started) && searchEndedMs == Wrap(ended) && millis == Wrap(now)
      requires started <= now < started + TWO32
      ensures elapsed == if Wrap(started) > Wrap(ended) then now - started else 0
      ensures ended < started ==> (elapsed == now - started <==> now == started || Wrap(started) > Wrap(ended))
      ensures started <= ended ==> (elapsed == 0 <==> now == started || Wrap(started) <= Wrap(ended))
    {
      hide Wrap;
      WrapDifference(now, started);
      WrapSmall(now - started);
      if searchStartedMs > searchEndedMs {
        elapsed := Wrap(millis - searchStartedMs);
      } else {
        elapsed := 0;
      }
    }
  }

  /** A lock less than 2^31 ms after the search began is measured right, whatever the clock wrapped around; a later one,
      for as long again, as 0. */
  lemma LockTimeMeasured(started: nat, ended: nat)
    requires started <= ended < started + 0x1_0000_0000
    ensures LockTime(Wrap(ended), Wrap(started)) == if ended - started < 0x8000_0000 then ended - started else 0
  {
    hide Wrap;
    WrapDifference(ended, started);
    WrapSmall(ended - started);
  }

  lemma WrapTwice(a: int, b: int)
    ensures Wrap(Wrap(a) + b) == Wrap(a + b)
  {
    var q := a / TWO32;
    assert a == q * TWO32 + Wrap(a);
    WrapShift(Wrap(a) + b, q);
  }

  lemma WrapShift(a: int, q: int)
    ensures Wrap(a + q * TWO32) == Wrap(a)
  {
  }

  lemma WrapDifference(a: int, b: int)
    ensures Wrap(Wrap(a) - Wrap(b)) == Wrap(a - b)
  {
    WrapTwice(a, 0 - Wrap(b));
    var q := b / TWO32;
    assert a - b == a - Wrap(b) + (-q) * TWO32;
    WrapShift(a - Wrap(b), -q);
  }

  lemma WrapSmall(d: int)
    requires 0 <= d < TWO32
    ensures Wrap(d) == d
  {
  }

  /** Whether a remaining time, negative if it is over, comes out right. */
  predicate ReadsAsWait(remaining: int) {
    remaining < 0x8000_0000 && (remaining < 0 ==> -remaining % 0x1_0000_0000 <= 0x8000_0000)
  }

  /** A difference comes through the 32-bit subtraction and the signed reading exactly if it is in the signed range. Where
      negative ones count as zero, it suffices that it looks negative. */
  lemma ReadsSigned(d: int)
    ensures ToInt32(Wrap(d)) == d <==> -0x8000_0000 <= d < 0x8000_0000
    ensures Max(0, ToInt32(Wrap(d))) == Max(0, d) <==> ReadsAsWait(d)
  {
    if d < 0 {
      Negated(d);
    }
  }

  lemma Negated(d: int)
    requires d < 0
    ensures Wrap(d) == if -d % TWO32 == 0 then 0 else TWO32 - -d % TWO32
  {
    var q, r := -d / TWO32, -d % TWO32;
    assert -d == q * TWO32 + r;
    WrapShift(d, q + 1);
    assert d + (q + 1) * TWO32 == TWO32 - r;
  }

  /** A lock just before the clock wraps around and a search just after it: after `passed` ms the search time reads 0. */
  method SearchTimeLost(passed: Uint32) returns (elapsed: Uint32)
    requires 0x10 + passed < TWO32
    ensures elapsed == 0
  {
    var scheduler := new Scheduler();
    scheduler.InformGotLock(0xffff_ff00);
    scheduler.InformSearching(0x10);
    elapsed := scheduler.ElapsedSearchMs(0x10 + passed, 0x1_0000_0010, 0xffff_ff00, 0x1_0000_0010 + passed);
  }

  // ---------- The prediction over a run of lock times

  function Predicted(lockTimes: seq<nat>): nat {
    if lockTimes == [] then 0
    else Smoothed(|lockTimes| - 1, Predicted(lockTimes[..|lockTimes| - 1]), lockTimes[|lockTimes| - 1])
  }

  /** The first lock time never counts; the second one is the prediction. */
  lemma {:induction false} FirstLockIgnored(first: nat, other: nat, rest: seq<nat>)
    ensures Predicted([first] + rest) == Predicted([other] + rest)
    ensures |rest| == 0 ==> Predicted([first] + rest) == 0
    ensures |rest| == 1 ==> Predicted([first] + rest) == rest[0]
  {
    if rest == [] {
      assert ([first] + rest)[..0] == [] && ([other] + rest)[..0] == [];
    } else {
      FirstLockIgnored(first, other, rest[..|rest| - 1]);
      assert ([first] + rest)[..|rest|] == [first] + rest[..|rest| - 1];
      assert ([other] + rest)[..|rest|] == [other] + rest[..|rest| - 1];
    }
  }

  /** From the third one on the prediction is four parts the old one and one part the new lock time, rounded down. */
  lemma MovesAFifth(lockTimes: seq<nat>, lockTime: nat)
    requires |lockTimes| >= 2
    ensures 5 * Predicted(lockTimes + [lockTime]) <= lockTime + 4 * Predicted(lockTimes)
          < 5 * Predicted(lockTimes + [lockTime]) + 5
  {
    assert (lockTimes + [lockTime])[..|lockTimes|] == lockTimes;
  }

  /** From the second lock on, the prediction stays within the range of the lock times observed since. */
  lemma {:induction false} PredictionWithinRange(lockTimes: seq<nat>, lo: nat, hi: nat)
    requires |lockTimes| >= 2 && forall i :: 1 <= i < |lockTimes| ==> lo <= lockTimes[i] <= hi
    ensures lo <= Predicted(lockTimes) <= hi
  {
    if |lockTimes| > 2 {
      PredictionWithinRange(lockTimes[..|lockTimes| - 1], lo, hi);
    }
  }

  /** How far a prediction is from the band [l - 4, l] in which it comes to rest. */
  function Distance(predicted: nat, l: nat): nat {
    if predicted > l then predicted - l else if predicted < l - 4 then l - 4 - predicted else 0
  }

  function AfterConstant(predicted: nat, l: nat, n: nat): nat {
    if n == 0 then predicted else Smoothed(2, AfterConstant(predicted, l, n - 1), l)
  }

  /** Under a constant lock time the distance falls with every lock until it is zero; in the band nothing moves. */
  lemma OneLockCloser(predicted: nat, l: nat)
    ensures Distance(predicted, l) > 0 ==> Distance(Smoothed(2, predicted, l), l) < Distance(predicted, l)
    ensures Distance(predicted, l) == 0 ==> Smoothed(2, predicted, l) == predicted
  {
  }

  /** So it settles in [l - 4, l], after no more locks than it was milliseconds away. */
  lemma {:induction false} PredictionSettles(predicted: nat, l: nat, n: nat)
    ensures Distance(AfterConstant(predicted, l, n), l) <= Max(0, Distance(predicted, l) - n)
    ensures n >= Distance(predicted, l) ==> l - 4 <= AfterConstant(predicted, l, n) <= l
  {
    if n > 0 {
      PredictionSettles(predicted, l, n - 1);
      OneLockCloser(AfterConstant(predicted, l, n - 1), l);
    }
  }
}
