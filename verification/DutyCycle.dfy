/** The duty-cycle gate bounds what is really sent. */
module DutyCycle {
  import opened AirTime
  import opened Common

  /** The airtime sent in the 60 consecutive clock minutes that end with minute m. */
  function SentInHour(log: seq<Entry>, m: int): nat {
    Window(log, {TX_LOG}, Minute, m - 59, m)
  }

  /** Half of a duty cycle given in percent, as milliseconds in an hour. */
  function Allowance(dutyCycle: real): real {
    18000.0 * dutyCycle
  }

  /** Entry i, if it was a transmission, lasted at most p milliseconds and came after a gate that opened: at some second
      c between everything logged before it and itself. */
  ghost predicate EntryGated(log: seq<Entry>, i: nat, dutyCycle: real, p: nat)
    requires i < |log|
  {
    log[i].kind == TX_LOG ==>
      log[i].ms <= p && exists c: nat :: UpTo(log[..i], c) && c <= log[i].sec && AirUtilAllows(log[..i], c, dutyCycle)
  }

  ghost predicate Gated(log: seq<Entry>, dutyCycle: real, p: nat) {
    forall i :: 0 <= i < |log| ==> EntryGated(log, i, dutyCycle, p)
  }

  lemma GatedPrefix(log: seq<Entry>, dutyCycle: real, p: nat)
    requires log != [] && Gated(log, dutyCycle, p)
    ensures Gated(log[..|log| - 1], dutyCycle, p)
  {
    var front := log[..|log| - 1];
    forall i | 0 <= i < |front|
      ensures EntryGated(front, i, dutyCycle, p)
    {
      assert front[..i] == log[..i] && EntryGated(log, i, dutyCycle, p);
    }
  }

  /** If nothing was logged after minute m, a window that ends later holds no more than the one that ends with m. */
  lemma {:induction false} LaterWindowHoldsLess(log: seq<Entry>, c: nat, hi: int)
    requires UpTo(log, c) && hi >= SlotOf(c, Minute)
    ensures SentInHour(log, hi) <= SentInHour(log, SlotOf(c, Minute))
  {
    if log != [] {
      LaterWindowHoldsLess(log[..|log| - 1], c, hi);
      assert log[|log| - 1].sec <= c;
    }
  }

  /** The greatest whole number of milliseconds below the allowance. */
  function BelowAllowance(dutyCycle: real): (n: int)
    ensures n as real < Allowance(dutyCycle) <= n as real + 1.0
  {
    -(0.0 - Allowance(dutyCycle)).Floor - 1
  }

  /** A window in 32 bits is the window while it fits. */
  lemma SmallWindow(log: seq<Entry>, c: nat, dutyCycle: real)
    requires SentInHour(log, SlotOf(c, Minute)) < TWO32
    ensures AirUtilAllows(log, c, dutyCycle) <==> SentInHour(log, SlotOf(c, Minute)) <= BelowAllowance(dutyCycle)
  {
    var w := SentInHour(log, SlotOf(c, Minute));
    assert Mod32(w) == w;
    assert w as real / MS_IN_HOUR * 100.0 < dutyCycle * 50.0 / 100.0 <==> w as real < Allowance(dutyCycle);
  }

  /** If every transmission is let through by the gate and lasts at most p, any 60 consecutive clock minutes carry less
      than half the duty cycle plus p. */
  lemma {:induction false} GateBoundsAirtime(log: seq<Entry>, dutyCycle: real, p: Uint32, m: int)
    requires dutyCycle > 0.0 && BelowAllowance(dutyCycle) + p < TWO32
    requires Gated(log, dutyCycle, p)
    ensures SentInHour(log, m) <= BelowAllowance(dutyCycle) + p
  {
    hide AirUtilAllows;
    if log != [] {
      var front, e := log[..|log| - 1], log[|log| - 1];
      GatedPrefix(log, dutyCycle, p);
      GateBoundsAirtime(front, dutyCycle, p, m);
      if e.kind == TX_LOG && m - 59 <= SlotOf(e.sec, Minute) <= m {
        assert EntryGated(log, |log| - 1, dutyCycle, p);
        var c: nat :| UpTo(front, c) && c <= e.sec && AirUtilAllows(front, c, dutyCycle);
        GateBoundsAirtime(front, dutyCycle, p, SlotOf(c, Minute));
        SmallWindow(front, c, dutyCycle);
        LaterWindowHoldsLess(front, c, m);
      }
    }
  }

  ghost predicate WithinBound(log: seq<Entry>, m: int, dutyCycle: real, p: Uint32) {
    SentInHour(log, m) as real < Allowance(dutyCycle) + p as real
  }

  /** Three transmissions in the first second, of a, b and c milliseconds. */
  function Three(a: Uint32, b: Uint32, c: Uint32): seq<Entry> {
    [Entry(TX_LOG, 0, a), Entry(TX_LOG, 0, b), Entry(TX_LOG, 0, c)]
  }

  lemma ThreeWindows(a: Uint32, b: Uint32, c: Uint32)
    ensures var log := Three(a, b, c);
            SentInHour(log[..0], 0) == 0 && SentInHour(log[..1], 0) == a && SentInHour(log[..2], 0) == a + b
            && SentInHour(log, 0) == a + b + c
  {
    var log := Three(a, b, c);
    assert log[..3] == log && log[..3][..2] == log[..2] && log[..2][..1] == log[..1] && log[..1][..0] == [];
  }

  /** With transmissions long enough to fill 32 bits, the sum wraps around to zero and the gate opens again. */
  lemma WrappedSumOpensGate(dutyCycle: real, p: Uint32)
    requires 0.0 < dutyCycle < 100.0 && BelowAllowance(dutyCycle) + p >= TWO32
    ensures var a := BelowAllowance(dutyCycle);
            && 0 < a <= p && Gated(Three(a, TWO32 - a, p), dutyCycle, p)
            && !WithinBound(Three(a, TWO32 - a, p), 0, dutyCycle, p)
  {
    var a := BelowAllowance(dutyCycle);
    var log := Three(a, TWO32 - a, p);
    ThreeWindows(a, TWO32 - a, p);
    SmallWindow(log[..0], 0, dutyCycle);
    SmallWindow(log[..1], 0, dutyCycle);
    assert AirUtilAllows(log[..2], 0, dutyCycle) by {
      assert Mod32(TWO32) == 0;
    }
    forall i | 0 <= i < 3
      ensures EntryGated(log, i, dutyCycle, p)
    {
      assert UpTo(log[..i], 0) && AirUtilAllows(log[..i], 0, dutyCycle);
    }
  }

  /** The gate keeps its bound over every run exactly if the bound itself fits the 32 bits in which the sum is taken. */
  lemma GateBoundsAirtimeIff(dutyCycle: real, p: Uint32)
    requires 0.0 < dutyCycle < 100.0
    ensures (forall log, m :: Gated(log, dutyCycle, p) ==> WithinBound(log, m, dutyCycle, p))
       <==> BelowAllowance(dutyCycle) + p < TWO32
  {
    hide Gated;
    if BelowAllowance(dutyCycle) + p < TWO32 {
      forall log, m | Gated(log, dutyCycle, p)
        ensures WithinBound(log, m, dutyCycle, p)
      {
        GateBoundsAirtime(log, dutyCycle, p, m);
      }
    } else {
      WrappedSumOpensGate(dutyCycle, p);
    }
  }

  /** Sending through the gate: the program's pattern of asking first and reporting afterwards keeps the log gated. */
  method SendIfAllowed(a: AirTime, dutyCycle: real, ms: Uint32, ghost p: nat) returns (sent: bool)
    requires a.Valid() && dutyCycle < 100.0 && ms <= p
    requires Gated(a.log, dutyCycle, p)
    modifies a`log, a.channelUtilization, a.utilizationTX, a.periodTX, a.periodRX, a.periodRX_ALL
    ensures a.Valid() && Gated(a.log, dutyCycle, p)
    ensures sent <==> AirUtilAllows(old(a.log), a.secSinceBoot, dutyCycle)
    ensures a.log == if sent then old(a.log) + [Entry(TX_LOG, a.secSinceBoot, ms)] else old(a.log)
  {
    hide AirUtilAllows;
    sent := a.IsTxAllowedAirUtil(dutyCycle, false);
    if sent {
      GatedMore(a.log, Entry(TX_LOG, a.secSinceBoot, ms), dutyCycle, p, a.secSinceBoot);
      a.LogAirtime(TX_LOG, ms);
    }
  }

  lemma GatedMore(log: seq<Entry>, e: Entry, dutyCycle: real, p: nat, c: nat)
    requires Gated(log, dutyCycle, p) && e.ms <= p && UpTo(log, c) && c <= e.sec && AirUtilAllows(log, c, dutyCycle)
    ensures Gated(log + [e], dutyCycle, p)
  {
    hide AirUtilAllows;
    var more := log + [e];
    forall i | 0 <= i < |more|
      ensures EntryGated(more, i, dutyCycle, p)
    {
      if i < |log| {
        assert more[..i] == log[..i] && EntryGated(log, i, dutyCycle, p);
      } else {
        assert more[..i] == log;
      }
    }
  }
}
