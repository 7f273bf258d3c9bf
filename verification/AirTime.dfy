/** Airtime accounting: ring buffers and shift registers against a plain log of what was sent and received. */
module AirTime {

  import opened Common

  datatype ReportType = TX_LOG | RX_LOG | RX_ALL_LOG

  /** One report: what, in which second since boot, and for how many milliseconds. */
  datatype Entry = Entry(kind: ReportType, sec: nat, ms: Uint32)

  // ---------- The log

  /** The three granularities: slots of 10 seconds, minutes, hours. */
  datatype Unit = TenSeconds | Minute | Hour

  function SlotOf(sec: nat, u: Unit): nat {
    match u
    case TenSeconds => sec / 10
    case Minute => sec / 60
    case Hour => sec / 3600
  }

  /** The milliseconds logged for the given kinds in one slot. */
  function Total(log: seq<Entry>, kinds: set<ReportType>, u: Unit, slot: int): nat {
    if log == [] then 0
    else
      var e := log[|log| - 1];
      Total(log[..|log| - 1], kinds, u, slot) + if e.kind in kinds && SlotOf(e.sec, u) == slot then e.ms else 0
  }

  const ANY: set<ReportType> := {TX_LOG, RX_LOG, RX_ALL_LOG}

  predicate UpTo(log: seq<Entry>, now: nat) {
    forall i :: 0 <= i < |log| ==> log[i].sec <= now
  }

  lemma {:induction false} NothingInFuture(log: seq<Entry>, kinds: set<ReportType>, u: Unit, now: nat, slot: int)
    requires UpTo(log, now) && slot > SlotOf(now, u)
    ensures Total(log, kinds, u, slot) == 0
  {
    if log != [] {
      NothingInFuture(log[..|log| - 1], kinds, u, now, slot);
      assert log[|log| - 1].sec <= now;
    }
  }

  lemma TotalMore(log: seq<Entry>, e: Entry, kinds: set<ReportType>, u: Unit, slot: int)
    ensures Total(log + [e], kinds, u, slot)
         == Total(log, kinds, u, slot) + if e.kind in kinds && SlotOf(e.sec, u) == slot then e.ms else 0
  {
    assert (log + [e])[..|log|] == log;
  }

  // ---------- Rings

  predicate RingSize(n: nat) {
    n == 6 || n == 60
  }

  function Index(q: nat, n: nat): (k: nat)
    requires RingSize(n)
    ensures k < n
  {
    if n == 6 then q % 6 else q % 60
  }

  /** The slot that cell j of a ring of n cells stands for when slot q is current: the latest one up to q whose index is j.
      Negative before the ring has come round to j for the first time. */
  function CellSlot(q: nat, j: nat, n: nat): int
    requires RingSize(n) && j < n
  {
    var k := Index(q, n);
    if j <= k then q - (k - j) else q - (k + n - j)
  }

  lemma IndexStep6(q: nat)
    ensures Index(q + 1, 6) == if Index(q, 6) == 5 then 0 else Index(q, 6) + 1
  {
  }

  lemma IndexStep60(q: nat)
    ensures Index(q + 1, 60) == if Index(q, 60) == 59 then 0 else Index(q, 60) + 1
  {
    var k, r := q / 60, q % 60;
    if r == 59 {
      assert q + 1 == 60 * (k + 1);
    } else {
      assert q + 1 == 60 * k + (r + 1);
    }
  }

  lemma IndexStep(q: nat, n: nat)
    requires RingSize(n)
    ensures Index(q + 1, n) == if Index(q, n) == n - 1 then 0 else Index(q, n) + 1
  {
    hide Index;
    IndexStep6(q);
    IndexStep60(q);
  }

  lemma CellSlots(q: nat, j: nat, n: nat)
    requires RingSize(n) && j < n
    ensures q - n < CellSlot(q, j, n) <= q
    ensures CellSlot(q, j, n) == q <==> j == Index(q, n)
    ensures CellSlot(q + 1, j, n) == if j == Index(q + 1, n) then q + 1 else CellSlot(q, j, n)
    ensures Index(q + 1, n) != Index(q, n)
  {
    hide Index;
    IndexStep(q, n);
  }

  /** What is kept of a number in a 32-bit cell. */
  function Mod32(n: nat): Uint32 {
    n % TWO32
  }

  function Add32(a: Uint32, b: Uint32): Uint32 {
    (a + b) % TWO32
  }

  lemma Add32Mod32(n: nat, b: Uint32)
    ensures Add32(Mod32(n), b) == Mod32(n + b)
    ensures Mod32(0) == 0
  {
  }

  /** Every cell is the 32-bit total of its slot. */
  predicate RingHolds(cells: seq<Uint32>, log: seq<Entry>, kinds: set<ReportType>, u: Unit, q: nat)
    requires RingSize(|cells|)
  {
    forall j :: 0 <= j < |cells| ==> cells[j] == Mod32(Total(log, kinds, u, CellSlot(q, j, |cells|)))
  }

  lemma SlotStep(now: nat, u: Unit)
    ensures SlotOf(now + 1, u) == SlotOf(now, u) || SlotOf(now + 1, u) == SlotOf(now, u) + 1
  {
  }

  /** The slot moves on: the cell of the new slot is cleared. */
  lemma RingTick(cells: seq<Uint32>, log: seq<Entry>, kinds: set<ReportType>, u: Unit, now: nat)
    requires RingSize(|cells|) && UpTo(log, now) && RingHolds(cells, log, kinds, u, SlotOf(now, u))
    requires SlotOf(now + 1, u) == SlotOf(now, u) + 1
    ensures RingHolds(cells[Index(SlotOf(now + 1, u), |cells|) := 0], log, kinds, u, SlotOf(now + 1, u))
  {
    hide Total, CellSlot, Index, Mod32, SlotOf;
    var q, n := SlotOf(now, u), |cells|;
    var after := cells[Index(q + 1, n) := 0];
    NothingInFuture(log, kinds, u, now, q + 1);
    Add32Mod32(0, 0);
    forall j | 0 <= j < n
      ensures after[j] == Mod32(Total(log, kinds, u, CellSlot(q + 1, j, n)))
    {
      CellSlots(q, j, n);
    }
  }

  /** A report goes into the current cell, if the ring counts it at all. */
  lemma RingLog(cells: seq<Uint32>, log: seq<Entry>, kinds: set<ReportType>, u: Unit, e: Entry)
    requires RingSize(|cells|) && RingHolds(cells, log, kinds, u, SlotOf(e.sec, u))
    ensures var k := Index(SlotOf(e.sec, u), |cells|);
            RingHolds(if e.kind in kinds then cells[k := Add32(cells[k], e.ms)] else cells,
                      log + [e], kinds, u, SlotOf(e.sec, u))
  {
    hide Total, CellSlot, Index, Mod32, Add32, SlotOf;
    var q, n := SlotOf(e.sec, u), |cells|;
    var k := Index(q, n);
    var after := if e.kind in kinds then cells[k := Add32(cells[k], e.ms)] else cells;
    forall j | 0 <= j < n
      ensures after[j] == Mod32(Total(log + [e], kinds, u, CellSlot(q, j, n)))
    {
      CellSlots(q, j, n);
      TotalMore(log, e, kinds, u, CellSlot(q, j, n));
      Add32Mod32(Total(log, kinds, u, CellSlot(q, j, n)), e.ms);
    }
  }

  // ---------- Shift registers

  /** Cell i is the total of the i-th hour back. */
  predicate ShiftHolds(cells: seq<Uint32>, log: seq<Entry>, kind: ReportType, hour: int) {
    |cells| == 8 && forall i :: 0 <= i < 8 ==> cells[i] == Mod32(Total(log, {kind}, Hour, hour - i))
  }

  function Shifted(cells: seq<Uint32>): (r: seq<Uint32>)
    requires |cells| == 8
    ensures |r| == 8
  {
    [0] + cells[..7]
  }

  lemma ShiftTick(cells: seq<Uint32>, log: seq<Entry>, kind: ReportType, now: nat)
    requires UpTo(log, now) && ShiftHolds(cells, log, kind, SlotOf(now, Hour))
    requires SlotOf(now + 1, Hour) == SlotOf(now, Hour) + 1
    ensures ShiftHolds(Shifted(cells), log, kind, SlotOf(now + 1, Hour))
  {
    hide Total, Mod32, SlotOf;
    var q: int := SlotOf(now, Hour);
    NothingInFuture(log, {kind}, Hour, now, q + 1);
    Add32Mod32(0, 0);
    forall i | 0 <= i < 8
      ensures Shifted(cells)[i] == Mod32(Total(log, {kind}, Hour, q + 1 - i))
    {
      if i > 0 {
        assert Shifted(cells)[i] == cells[i - 1];
        assert q + 1 - i == q - (i - 1);
      }
    }
  }

  lemma ShiftLog(cells: seq<Uint32>, log: seq<Entry>, kind: ReportType, e: Entry)
    requires ShiftHolds(cells, log, kind, SlotOf(e.sec, Hour))
    ensures var after := if e.kind == kind then cells[0 := Add32(cells[0], e.ms)] else cells;
            ShiftHolds(after, log + [e], kind, SlotOf(e.sec, Hour))
  {
    hide Total, Mod32, Add32, SlotOf;
    var after := if e.kind == kind then cells[0 := Add32(cells[0], e.ms)] else cells;
    var q: int := SlotOf(e.sec, Hour);
    forall i | 0 <= i < 8
      ensures after[i] == Mod32(Total(log + [e], {kind}, Hour, q - i))
    {
      TotalMore(log, e, {kind}, Hour, q - i);
      Add32Mod32(Total(log, {kind}, Hour, q - i), e.ms);
    }
  }

  function PeriodIndex(sec: nat): nat {
    sec / 3600 % 8
  }

  lemma PeriodIndexChanges(sec: nat)
    ensures PeriodIndex(sec + 1) != PeriodIndex(sec) <==> SlotOf(sec + 1, Hour) != SlotOf(sec, Hour)
  {
  }

  // ---------- Sums over a ring

  /** The milliseconds logged for the given kinds in the slots from lo to hi. */
  function Window(log: seq<Entry>, kinds: set<ReportType>, u: Unit, lo: int, hi: int): nat {
    if log == [] then 0
    else
      var e := log[|log| - 1];
      Window(log[..|log| - 1], kinds, u, lo, hi) + if e.kind in kinds && lo <= SlotOf(e.sec, u) <= hi then e.ms else 0
  }

  function CellsUpTo(log: seq<Entry>, kinds: set<ReportType>, u: Unit, q: nat, n: nat, m: nat): nat
    requires RingSize(n) && m <= n
  {
    if m == 0 then 0 else CellsUpTo(log, kinds, u, q, n, m - 1) + Total(log, kinds, u, CellSlot(q, m - 1, n))
  }

  /** The 32-bit sum of the cells, as the program's loops add them up. */
  function Sum32(cells: seq<Uint32>): Uint32 {
    if cells == [] then 0 else Add32(Sum32(cells[..|cells| - 1]), cells[|cells| - 1])
  }

  lemma Add32Mods(a: nat, b: nat)
    ensures Add32(Mod32(a), Mod32(b)) == Mod32(a + b)
  {
  }

  /** Each slot of the window has exactly one cell. */
  lemma CellOfSlot(q: nat, s: nat, j: nat, n: nat)
    requires RingSize(n) && j < n
    ensures CellSlot(q, j, n) == s <==> q - n < s <= q && Index(s, n) == j
  {
    if n == 6 {
      CellOfSlot6(q, s, j);
    } else {
      CellOfSlot60(q, s, j);
    }
  }

  lemma CellOfSlot6(q: nat, s: nat, j: nat)
    requires j < 6
    ensures CellSlot(q, j, 6) == s <==> q - 6 < s <= q && s % 6 == j
  {
  }

  lemma CellOfSlot60(q: nat, s: nat, j: nat)
    requires j < 60
    ensures CellSlot(q, j, 60) == s <==> q - 60 < s <= q && s % 60 == j
  {
  }

  lemma {:induction false} CellsUpToMore(log: seq<Entry>, e: Entry, kinds: set<ReportType>, u: Unit, q: nat, n: nat, m: nat)
    requires RingSize(n) && m <= n
    ensures var s := SlotOf(e.sec, u);
            CellsUpTo(log + [e], kinds, u, q, n, m) == CellsUpTo(log, kinds, u, q, n, m) +
              (if e.kind in kinds && q - n < s <= q && Index(s, n) < m then e.ms else 0)
  {
    hide Total, CellSlot, Index, SlotOf;
    if m > 0 {
      CellsUpToMore(log, e, kinds, u, q, n, m - 1);
      TotalMore(log, e, kinds, u, CellSlot(q, m - 1, n));
      CellOfSlot(q, SlotOf(e.sec, u), m - 1, n);
    }
  }

  lemma {:induction false} CellsAreWindow(log: seq<Entry>, kinds: set<ReportType>, u: Unit, q: nat, n: nat)
    requires RingSize(n)
    ensures CellsUpTo(log, kinds, u, q, n, n) == Window(log, kinds, u, q - n + 1, q)
  {
    hide CellSlot, Index, SlotOf;
    if log == [] {
      CellsOfNothing(kinds, u, q, n, n);
    } else {
      var front, e := log[..|log| - 1], log[|log| - 1];
      assert log == front + [e];
      CellsAreWindow(front, kinds, u, q, n);
      CellsUpToMore(front, e, kinds, u, q, n, n);
    }
  }

  lemma {:induction false} CellsOfNothing(kinds: set<ReportType>, u: Unit, q: nat, n: nat, m: nat)
    requires RingSize(n) && m <= n
    ensures CellsUpTo([], kinds, u, q, n, m) == 0
  {
    if m > 0 {
      CellsOfNothing(kinds, u, q, n, m - 1);
    }
  }

  lemma {:induction false} SumOfCells(cells: seq<Uint32>, log: seq<Entry>, kinds: set<ReportType>, u: Unit, q: nat, m: nat)
    requires RingSize(|cells|) && RingHolds(cells, log, kinds, u, q) && m <= |cells|
    ensures Sum32(cells[..m]) == Mod32(CellsUpTo(log, kinds, u, q, |cells|, m))
  {
    hide Total, CellSlot, Mod32, Add32;
    Add32Mod32(0, 0);
    if m > 0 {
      SumOfCells(cells, log, kinds, u, q, m - 1);
      assert cells[..m][..m - 1] == cells[..m - 1];
      Add32Mods(CellsUpTo(log, kinds, u, q, |cells|, m - 1), Total(log, kinds, u, CellSlot(q, m - 1, |cells|)));
    }
  }

  /** The sum of a ring is the airtime logged in exactly its window, in 32 bits. */
  lemma RingSumIsWindow(cells: seq<Uint32>, log: seq<Entry>, kinds: set<ReportType>, u: Unit, q: nat)
    requires RingSize(|cells|) && RingHolds(cells, log, kinds, u, q)
    ensures Sum32(cells) == Mod32(Window(log, kinds, u, q - |cells| + 1, q))
  {
    hide RingHolds, Window, CellsUpTo, Mod32;
    assert cells[..|cells|] == cells;
    SumOfCells(cells, log, kinds, u, q, |cells|);
    CellsAreWindow(log, kinds, u, q, |cells|);
  }

  // ---------- The gates

  const MS_IN_HOUR: real := 3600000.0

  /** Less than half the duty cycle (in percent of an hour) was sent in the 60 clock minutes up to this one. */
  ghost predicate AirUtilAllows(log: seq<Entry>, now: nat, dutyCycle: real) {
    var sum := Mod32(Window(log, {TX_LOG}, Minute, SlotOf(now, Minute) - 59, SlotOf(now, Minute)));
    sum as real / MS_IN_HOUR * 100.0 < dutyCycle * 50.0 / 100.0
  }

  /** The airtime of the last six 10-second slots is below the limit (in percent of a minute). */
  ghost predicate ChannelUtilAllows(log: seq<Entry>, now: nat, polite: bool) {
    var sum := Mod32(Window(log, ANY, TenSeconds, SlotOf(now, TenSeconds) - 5, SlotOf(now, TenSeconds)));
    sum as real / 60000.0 * 100.0 < if polite then 25.0 else 40.0
  }

  // ---------- What they look at, in seconds

  /** The airtime logged for the given kinds from the second lo up to, but not including, the second hi. */
  function Airtime(log: seq<Entry>, kinds: set<ReportType>, lo: int, hi: int): nat {
    if log == [] then 0
    else
      var e := log[|log| - 1];
      Airtime(log[..|log| - 1], kinds, lo, hi) + if e.kind in kinds && lo <= e.sec < hi then e.ms else 0
  }

  /** A slot is 10 seconds, 60 seconds or 3600 seconds. */
  lemma SlotMeaning(sec: nat, q: int)
    ensures SlotOf(sec, TenSeconds) == q <==> 10 * q <= sec < 10 * q + 10
    ensures SlotOf(sec, Minute) == q <==> 60 * q <= sec < 60 * q + 60
    ensures SlotOf(sec, Hour) == q <==> 3600 * q <= sec < 3600 * q + 3600
  {
  }

  lemma {:induction false} WindowInSeconds(log: seq<Entry>, kinds: set<ReportType>, lo: int, hi: int)
    ensures Window(log, kinds, TenSeconds, lo, hi) == Airtime(log, kinds, 10 * lo, 10 * hi + 10)
    ensures Window(log, kinds, Minute, lo, hi) == Airtime(log, kinds, 60 * lo, 60 * hi + 60)
    ensures Window(log, kinds, Hour, lo, hi) == Airtime(log, kinds, 3600 * lo, 3600 * hi + 3600)
  {
    if log != [] {
      WindowInSeconds(log[..|log| - 1], kinds, lo, hi);
    }
  }

  /** The gates by the clock: 40 % of a minute in which less than ten seconds are still to come, or 25 % if polite, and half
      the duty cycle of an hour in which less than a minute is. */
  lemma GatesInSeconds(log: seq<Entry>, now: nat, polite: bool, dutyCycle: real)
    ensures var next := now - now % 10 + 10;
            ChannelUtilAllows(log, now, polite) <==>
              Airtime(log, {TX_LOG, RX_LOG, RX_ALL_LOG}, next - 60, next) % 0x1_0000_0000 < if polite then 15000 else 24000
    ensures var next := now - now % 60 + 60;
            AirUtilAllows(log, now, dutyCycle) <==>
              (Airtime(log, {TX_LOG}, next - 3600, next) % 0x1_0000_0000) as real < dutyCycle * 18000.0
  {
    WindowInSeconds(log, ANY, now / 10 - 5, now / 10);
    WindowInSeconds(log, {TX_LOG}, now / 60 - 59, now / 60);
    assert now == 10 * (now / 10) + now % 10 && now == 60 * (now / 60) + now % 60;
  }

  // ---------- The class

  class AirTime {
    const channelUtilization: array<Uint32>
    const utilizationTX: array<Uint32>
    const periodTX: array<Uint32>
    const periodRX: array<Uint32>
    const periodRX_ALL: array<Uint32>
    var lastPeriodIndex: nat
    var firstTime: bool
    var lastUtilPeriod: nat
    var lastUtilPeriodTX: nat
    var secSinceBoot: Uint32
    ghost var log: seq<Entry>   // everything reported since the first tick, or, before it, since the start

    ghost predicate Shape() {
      && channelUtilization.Length == 6 && utilizationTX.Length == 60
      && periodTX.Length == 8 && periodRX.Length == 8 && periodRX_ALL.Length == 8
      && periodTX != periodRX && periodTX != periodRX_ALL && periodRX != periodRX_ALL
    }

    ghost predicate Valid()
      reads this, channelUtilization, utilizationTX, periodTX, periodRX, periodRX_ALL
    {
      Shape() && Holds() && (firstTime ==> secSinceBoot == 0)
    }

    /** Every cell equals the sum over the log of exactly its slot, and the indices of the last tick are current. */
    ghost predicate Holds()
      requires Shape()
      reads this, channelUtilization, utilizationTX, periodTX, periodRX, periodRX_ALL
    {
      && UpTo(log, secSinceBoot)
      && RingHolds(channelUtilization[..], log, ANY, TenSeconds, SlotOf(secSinceBoot, TenSeconds))
      && RingHolds(utilizationTX[..], log, {TX_LOG}, Minute, SlotOf(secSinceBoot, Minute))
      && ShiftHolds(periodTX[..], log, TX_LOG, SlotOf(secSinceBoot, Hour))
      && ShiftHolds(periodRX[..], log, RX_LOG, SlotOf(secSinceBoot, Hour))
      && ShiftHolds(periodRX_ALL[..], log, RX_ALL_LOG, SlotOf(secSinceBoot, Hour))
      && lastUtilPeriod == Index(SlotOf(secSinceBoot, TenSeconds), 6)
      && lastUtilPeriodTX == Index(SlotOf(secSinceBoot, Minute), 60)
      && lastPeriodIndex == PeriodIndex(secSinceBoot)
    }

    constructor ()
      ensures Valid() && firstTime && log == []
      ensures fresh(channelUtilization) && fresh(utilizationTX) && fresh(periodTX) && fresh(periodRX) && fresh(periodRX_ALL)
    {
      channelUtilization := new Uint32[6](_ => 0);
      utilizationTX := new Uint32[60](_ => 0);
      periodTX := new Uint32[8](_ => 0);
      periodRX := new Uint32[8](_ => 0);
      periodRX_ALL := new Uint32[8](_ => 0);
      lastPeriodIndex, lastUtilPeriod, lastUtilPeriodTX := 0, 0, 0;
      firstTime, secSinceBoot, log := true, 0, [];
    }

    method LogAirtime(kind: ReportType, ms: Uint32)
      requires Valid()
      modifies this`log, channelUtilization, utilizationTX, periodTX, periodRX, periodRX_ALL
      ensures Valid() && log == old(log) + [Entry(kind, secSinceBoot, ms)]
    {
      hide RingHolds, ShiftHolds, SlotOf, Index, Add32;
      ghost var e := Entry(kind, secSinceBoot, ms);
      RingLog(channelUtilization[..], log, ANY, TenSeconds, e);
      RingLog(utilizationTX[..], log, {TX_LOG}, Minute, e);
      ShiftLog(periodTX[..], log, TX_LOG, e);
      ShiftLog(periodRX[..], log, RX_LOG, e);
      ShiftLog(periodRX_ALL[..], log, RX_ALL_LOG, e);
      ghost var c0, u0 := channelUtilization[..], utilizationTX[..];
      ghost var t0, r0, a0 := periodTX[..], periodRX[..], periodRX_ALL[..];
      if kind == TX_LOG {
        periodTX[0] := Add32(periodTX[0], ms);
        var h := Index(SlotOf(secSinceBoot, Minute), 60);
        utilizationTX[h] := Add32(utilizationTX[h], ms);
        assert utilizationTX[..] == u0[h := Add32(u0[h], ms)];
        assert periodTX[..] == t0[0 := Add32(t0[0], ms)];
      } else if kind == RX_LOG {
        periodRX[0] := Add32(periodRX[0], ms);
        assert periodRX[..] == r0[0 := Add32(r0[0], ms)];
      } else if kind == RX_ALL_LOG {
        periodRX_ALL[0] := Add32(periodRX_ALL[0], ms);
        assert periodRX_ALL[..] == a0[0 := Add32(a0[0], ms)];
      }
      var m := Index(SlotOf(secSinceBoot, TenSeconds), 6);
      channelUtilization[m] := Add32(channelUtilization[m], ms);
      assert channelUtilization[..] == c0[m := Add32(c0[m], ms)];
      log := log + [e];
    }

    method AirtimeRotatePeriod(ghost before: nat)
      requires Shape() && !firstTime && before + 1 == secSinceBoot && UpTo(log, before)
      requires ShiftHolds(periodTX[..], log, TX_LOG, SlotOf(before, Hour))
      requires ShiftHolds(periodRX[..], log, RX_LOG, SlotOf(before, Hour))
      requires ShiftHolds(periodRX_ALL[..], log, RX_ALL_LOG, SlotOf(before, Hour))
      requires lastPeriodIndex == PeriodIndex(before)
      modifies this`lastPeriodIndex, periodTX, periodRX, periodRX_ALL
      ensures ShiftHolds(periodTX[..], log, TX_LOG, SlotOf(secSinceBoot, Hour))
      ensures ShiftHolds(periodRX[..], log, RX_LOG, SlotOf(secSinceBoot, Hour))
      ensures ShiftHolds(periodRX_ALL[..], log, RX_ALL_LOG, SlotOf(secSinceBoot, Hour))
      ensures lastPeriodIndex == PeriodIndex(secSinceBoot)
    {
      hide ShiftHolds, SlotOf, PeriodIndex;
      PeriodIndexChanges(before);
      SlotStep(before, Hour);
      ghost var t0, r0, a0 := periodTX[..], periodRX[..], periodRX_ALL[..];
      if lastPeriodIndex != PeriodIndex(secSinceBoot) {
        ShiftTick(t0, log, TX_LOG, before);
        ShiftTick(r0, log, RX_LOG, before);
        ShiftTick(a0, log, RX_ALL_LOG, before);
        var i := 6;
        while i >= 0
          invariant -1 <= i <= 6
          invariant forall k :: 0 <= k <= i + 1 ==> periodTX[k] == t0[k] && periodRX[k] == r0[k] && periodRX_ALL[k] == a0[k]
          invariant forall k :: i + 1 < k < 8 ==>
                      periodTX[k] == t0[k - 1] && periodRX[k] == r0[k - 1] && periodRX_ALL[k] == a0[k - 1]
        {
          periodTX[i + 1] := periodTX[i];
          periodRX[i + 1] := periodRX[i];
          periodRX_ALL[i + 1] := periodRX_ALL[i];
          i := i - 1;
        }
        periodTX[0] := 0;
        periodRX[0] := 0;
        periodRX_ALL[0] := 0;
        assert periodTX[..] == Shifted(t0);
        assert periodRX[..] == Shifted(r0);
        assert periodRX_ALL[..] == Shifted(a0);
        lastPeriodIndex := PeriodIndex(secSinceBoot);
      }
    }

    /** The tick of each second. The first one clears the cells, and the log starts again. */
    method RunOnce()
      requires Valid() && secSinceBoot + 1 < TWO32
      modifies this, channelUtilization, utilizationTX, periodTX, periodRX, periodRX_ALL
      ensures Valid() && !firstTime && secSinceBoot == old(secSinceBoot) + 1
      ensures log == if old(firstTime) then [] else old(log)
    {
      secSinceBoot := secSinceBoot + 1;
      if firstTime {
        Initialise();
      } else {
        Advance(secSinceBoot - 1);
      }
    }

    method Initialise()
      requires Shape() && firstTime && secSinceBoot == 1
      requires lastPeriodIndex == 0 && lastUtilPeriod == 0 && lastUtilPeriodTX == 0
      modifies this`firstTime, this`lastUtilPeriod, this`log
      modifies channelUtilization, utilizationTX, periodTX, periodRX, periodRX_ALL
      ensures Valid() && !firstTime && log == []
    {
      for i := 0 to 60
        invariant forall k :: 0 <= k < i ==> utilizationTX[k] == 0
      {
        utilizationTX[i] := 0;
      }
      for i := 0 to 6
        invariant forall k :: 0 <= k < i ==> channelUtilization[k] == 0
        invariant forall k :: 0 <= k < 60 ==> utilizationTX[k] == 0
      {
        channelUtilization[i] := 0;
      }
      for i := 0 to 8
        invariant forall k :: 0 <= k < i ==> periodTX[k] == 0 && periodRX[k] == 0 && periodRX_ALL[k] == 0
        invariant forall k :: 0 <= k < 60 ==> utilizationTX[k] == 0
        invariant forall k :: 0 <= k < 6 ==> channelUtilization[k] == 0
      {
        periodTX[i] := 0;
        periodRX[i] := 0;
        periodRX_ALL[i] := 0;
      }
      firstTime := false;
      lastUtilPeriod := Index(SlotOf(secSinceBoot, TenSeconds), 6);
      log := [];
    }

    method Advance(ghost before: nat)
      requires Shape() && !firstTime && before + 1 == secSinceBoot && UpTo(log, before)
      requires RingHolds(channelUtilization[..], log, ANY, TenSeconds, SlotOf(before, TenSeconds))
      requires RingHolds(utilizationTX[..], log, {TX_LOG}, Minute, SlotOf(before, Minute))
      requires ShiftHolds(periodTX[..], log, TX_LOG, SlotOf(before, Hour))
      requires ShiftHolds(periodRX[..], log, RX_LOG, SlotOf(before, Hour))
      requires ShiftHolds(periodRX_ALL[..], log, RX_ALL_LOG, SlotOf(before, Hour))
      requires lastUtilPeriod == Index(SlotOf(before, TenSeconds), 6)
      requires lastUtilPeriodTX == Index(SlotOf(before, Minute), 60)
      requires lastPeriodIndex == PeriodIndex(before)
      modifies this`lastPeriodIndex, this`lastUtilPeriod, this`lastUtilPeriodTX
      modifies channelUtilization, utilizationTX, periodTX, periodRX, periodRX_ALL
      ensures Valid()
    {
      hide ShiftHolds, RingHolds, SlotOf, Index, PeriodIndex;
      ghost var c0, u0 := channelUtilization[..], utilizationTX[..];
      SlotStep(before, TenSeconds);
      SlotStep(before, Minute);
      CellSlots(SlotOf(before, TenSeconds), 0, 6);
      CellSlots(SlotOf(before, Minute), 0, 60);
      var utilPeriod := Index(SlotOf(secSinceBoot, TenSeconds), 6);
      var utilPeriodTX := Index(SlotOf(secSinceBoot, Minute), 60);
      AirtimeRotatePeriod(before);
      assert channelUtilization[..] == c0 && utilizationTX[..] == u0;
      if lastUtilPeriod != utilPeriod {
        RingTick(c0, log, ANY, TenSeconds, before);
        lastUtilPeriod := utilPeriod;
        channelUtilization[utilPeriod] := 0;
        assert channelUtilization[..] == c0[utilPeriod := 0];
      }
      if lastUtilPeriodTX != utilPeriodTX {
        RingTick(u0, log, {TX_LOG}, Minute, before);
        lastUtilPeriodTX := utilPeriodTX;
        utilizationTX[utilPeriodTX] := 0;
        assert utilizationTX[..] == u0[utilPeriodTX := 0];
      }
    }

    method Sum(cells: array<Uint32>) returns (sum: Uint32)
      ensures sum == Sum32(cells[..])
    {
      sum := 0;
      for i := 0 to cells.Length
        invariant sum == Sum32(cells[..i])
      {
        assert cells[..i + 1][..i] == cells[..i];
        sum := Add32(sum, cells[i]);
      }
      assert cells[..cells.Length] == cells[..];
    }

    method IsTxAllowedChannelUtil(polite: bool) returns (ok: bool)
      requires Valid()
      ensures ok <==> ChannelUtilAllows(log, secSinceBoot, polite)
    {
      hide Window, Mod32, SlotOf, RingHolds, ShiftHolds;
      RingSumIsWindow(channelUtilization[..], log, ANY, TenSeconds, SlotOf(secSinceBoot, TenSeconds));
      var percentage := if polite then 25.0 else 40.0;
      var sum := Sum(channelUtilization);
      ok := sum as real / 60000.0 * 100.0 < percentage;
    }

    method IsTxAllowedAirUtil(dutyCycle: real, overrideDutyCycle: bool) returns (ok: bool)
      requires Valid()
      ensures ok <==> overrideDutyCycle || dutyCycle >= 100.0 || AirUtilAllows(log, secSinceBoot, dutyCycle)
    {
      hide Window, Mod32, SlotOf, RingHolds, ShiftHolds;
      if !overrideDutyCycle && dutyCycle < 100.0 {
        RingSumIsWindow(utilizationTX[..], log, {TX_LOG}, Minute, SlotOf(secSinceBoot, Minute));
        var sum := Sum(utilizationTX);
        return sum as real / MS_IN_HOUR * 100.0 < dutyCycle * 50.0 / 100.0;
      }
      return true;
    }
  }
}
