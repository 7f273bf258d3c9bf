/** The E-Ink display's decision machine and its asynchronous full refresh, for builds with HAS_EINK_ASYNCFULL.

    The state is kept as a record so that whole runs can be reasoned about. Two fields are not the program's: `busyReads`
    is the hardware (how many more reads of the busy line will say busy), and `trace` is the history of what reached the
    panel. Each public operation is one atomic step. */
module EInkDynamicDisplay {

  import opened Common

  datatype Flags = Flags(background: bool, responsive: bool, cosmetic: bool, demandFast: bool, blocking: bool,
                         unlimitedFast: bool)

  const BACKGROUND := Flags(true, false, false, false, false, false)
  const RESPONSIVE := Flags(false, true, false, false, false, false)
  const COSMETIC := Flags(false, false, true, false, false, false)
  const DEMAND_FAST := Flags(false, false, false, true, false, false)
  const NO_FLAGS := Flags(false, false, false, false, false, false)

  function Or(f: Flags, g: Flags): Flags {
    Flags(f.background || g.background, f.responsive || g.responsive, f.cosmetic || g.cosmetic, f.demandFast || g.demandFast,
          f.blocking || g.blocking, f.unlimitedFast || g.unlimitedFast)
  }

  datatype Refresh = UNSPECIFIED | FULL | FAST | SKIPPED

  datatype Reason =
    | NO_OBJECTIONS
    | ASYNC_REFRESH_BLOCKED_DEMANDFAST
    | ASYNC_REFRESH_BLOCKED_COSMETIC
    | ASYNC_REFRESH_BLOCKED_RESPONSIVE
    | ASYNC_REFRESH_BLOCKED_BACKGROUND
    | EXCEEDED_RATELIMIT_FAST
    | EXCEEDED_RATELIMIT_FULL
    | FLAGGED_COSMETIC
    | FLAGGED_DEMAND_FAST
    | EXCEEDED_LIMIT_FASTREFRESH
    | EXCEEDED_GHOSTINGLIMIT
    | FRAME_MATCHED_PREVIOUS
    | BACKGROUND_USES_FAST
    | FLAGGED_BACKGROUND
    | REDRAW_WITH_FULL

  datatype Event =
    | ClearScreen
    | Draw(kind: Refresh)   // nextPage() with the panel configured for FULL or FAST
    | EndFast               // endUpdate() after a fast refresh
    | EndAsyncFull          // endAsyncFull() and endUpdate() after a full refresh

  /** Build options. */
  datatype Config = Config(limitFastRefresh: nat, backgroundUsesFast: bool)

  /** What the outside contributes to one update: the clock, whether the frame equals the previous one, whether too many
      ghost pixels are counted, and how long the panel will be busy if a full refresh starts. */
  datatype Input = Input(now: Uint32, matchesPrevious: bool, ghosting: bool, fullRefreshReads: nat)

  const DUE_POLL_ASYNCREFRESH: nat := 1
  const INTERVAL_POLL_ASYNC_REFRESH: nat := 100

  datatype State = State(
    frameFlags: Flags,
    refresh: Refresh,
    reason: Reason,
    previousFrameFlags: Flags,
    previousRefresh: Refresh,
    previousReason: Reason,
    initialized: bool,
    previousRunMs: Uint32,
    fastRefreshCount: Uint32,
    currentConfig: Refresh,
    asyncRefreshRunning: bool,
    lastDrawMsec: Uint32,
    notification: nat,
    enabled: bool,
    interval: nat,
    busyReads: nat,
    trace: seq<Event>)

  const INITIAL := State(BACKGROUND, UNSPECIFIED, NO_OBJECTIONS, BACKGROUND, UNSPECIFIED, NO_OBJECTIONS,
                         false, 0xffff_ffff, 0, FULL, false, 0, 0, true, 0, 0, [])

  // ---------- What an update decides

  /** Milliseconds from `earlier` to `now` on the wrapping 32-bit clock. */
  function Since(now: Uint32, earlier: Uint32): Uint32 {
    (now - earlier) % TWO32
  }

  datatype RateLimit = NotLimited | Limited(reason: Reason)

  function RateLimited(flags: Flags, now: Uint32, previousRunMs: Uint32): RateLimit {
    if previousRunMs > now then NotLimited
    else if flags == BACKGROUND && Since(now, previousRunMs) < 30000 then Limited(EXCEEDED_RATELIMIT_FULL)
    else if flags.responsive && !flags.cosmetic && !flags.demandFast && Since(now, previousRunMs) < 1000 then
      Limited(EXCEEDED_RATELIMIT_FAST)
    else NotLimited
  }

  /** What was skipped because the display was busy: the strongest request in the frame. */
  function BlockedReason(flags: Flags): Reason {
    if flags.demandFast then ASYNC_REFRESH_BLOCKED_DEMANDFAST
    else if flags.cosmetic then ASYNC_REFRESH_BLOCKED_COSMETIC
    else if flags.responsive then ASYNC_REFRESH_BLOCKED_RESPONSIVE
    else ASYNC_REFRESH_BLOCKED_BACKGROUND
  }

  datatype Decision = Decision(refresh: Refresh, reason: Reason)

  /** The outcome of the checks on a frame that is due, as a priority list. `stale` is the reason left from earlier. */
  function Decide(flags: Flags, count: nat, stale: Reason, cfg: Config, env: Input): Decision {
    if flags.cosmetic then Decision(FULL, FLAGGED_COSMETIC)
    else if flags.demandFast then Decision(FAST, FLAGGED_DEMAND_FAST)
    else if env.matchesPrevious then
      if !cfg.backgroundUsesFast && flags == BACKGROUND && count > 0 then Decision(FULL, REDRAW_WITH_FULL)
      else Decision(SKIPPED, FRAME_MATCHED_PREVIOUS)
    else if flags.unlimitedFast then Decision(FAST, NO_OBJECTIONS)
    else if count >= cfg.limitFastRefresh then Decision(FULL, EXCEEDED_LIMIT_FASTREFRESH)
    else if env.ghosting then Decision(FULL, EXCEEDED_GHOSTINGLIMIT)
    else if flags.responsive then Decision(FAST, NO_OBJECTIONS)
    else if flags == BACKGROUND then
      if cfg.backgroundUsesFast then Decision(FAST, BACKGROUND_USES_FAST) else Decision(FULL, FLAGGED_BACKGROUND)
    else Decision(UNSPECIFIED, stale)
  }

  /** The request a skipped frame leaves for the next one. */
  function Promoted(reason: Reason): Flags {
    match reason
    case ASYNC_REFRESH_BLOCKED_DEMANDFAST => DEMAND_FAST
    case ASYNC_REFRESH_BLOCKED_COSMETIC => COSMETIC
    case ASYNC_REFRESH_BLOCKED_RESPONSIVE | EXCEEDED_RATELIMIT_FAST => RESPONSIVE
    case _ => NO_FLAGS
  }

  // ---------- The steps

  function Notified(s: State, delay: nat, v: nat): State {
    s.(enabled := true, notification := v, interval := delay)
  }

  /** The end of a full refresh. */
  function EndRefresh(s: State): State {
    s.(asyncRefreshRunning := false, trace := s.trace + [EndAsyncFull])
  }

  function Poll(s: State): State {
    if !s.asyncRefreshRunning then s
    else if s.busyReads > 0 then
      Notified(s.(busyReads := s.busyReads - 1), INTERVAL_POLL_ASYNC_REFRESH, DUE_POLL_ASYNCREFRESH)
    else EndRefresh(s)
  }

  function Join(s: State): State {
    if s.asyncRefreshRunning then EndRefresh(s.(busyReads := 0)) else s
  }

  /** The worker thread's turn. */
  function ThreadTurn(s: State): State {
    var t := s.(enabled := false, notification := 0);
    if s.notification == DUE_POLL_ASYNCREFRESH then Poll(t) else t
  }

  /** The first frame clears the panel and demands a fast refresh; earlier skipped requests come back. */
  function Prepare(s: State): State {
    var t := if s.initialized then s
             else s.(trace := s.trace + [ClearScreen], initialized := true, frameFlags := Or(s.frameFlags, DEMAND_FAST));
    t.(frameFlags := Or(t.frameFlags, Promoted(s.previousReason)))
  }

  /** The check of a refresh in flight: a busy display blocks the frame, a display that has become idle is tidied up. */
  predicate Blocked(s: State) {
    s.asyncRefreshRunning && s.busyReads > 0
  }

  function CheckBusy(s: State): State {
    if !s.asyncRefreshRunning then s
    else if s.busyReads > 0 then s.(busyReads := s.busyReads - 1)
    else EndRefresh(s)
  }

  lemma CheckBusyLeaves(s: State)
    ensures CheckBusy(s).frameFlags == s.frameFlags && CheckBusy(s).previousRunMs == s.previousRunMs
    ensures CheckBusy(s).refresh == s.refresh && CheckBusy(s).reason == s.reason
    ensures CheckBusy(s).currentConfig == s.currentConfig
  {
  }

  /** The frame is turned away early if the display is busy or it is too soon; a frame that is too soon says so even if
      the display is busy too. */
  function ScreenedOut(s: State, env: Input): State {
    var p := Prepare(s);
    var t := CheckBusy(p);
    var rate := RateLimited(p.frameFlags, env.now, p.previousRunMs);
    if rate.Limited? then t.(refresh := SKIPPED, reason := rate.reason)
    else if Blocked(p) then t.(refresh := SKIPPED, reason := BlockedReason(p.frameFlags))
    else t
  }

  lemma ScreenedOutKeepsConfig(s: State, env: Input)
    ensures ScreenedOut(s, env).currentConfig == s.currentConfig
    ensures ScreenedOut(s, env).refresh == SKIPPED || ScreenedOut(s, env).refresh == s.refresh
  {
  }

  /** A frame that is due resets the rate-limiting clock and is decided. */
  function Due(s: State, cfg: Config, env: Input): State {
    var d := Decide(s.frameFlags, s.fastRefreshCount, s.reason, cfg, env);
    s.(refresh := d.refresh, reason := d.reason,
       previousRunMs := env.now,
       currentConfig := if d.refresh == FAST || d.refresh == FULL then d.refresh else s.currentConfig,
       fastRefreshCount := if d.refresh == FAST then (s.fastRefreshCount + 1) % TWO32
                           else if d.refresh == FULL then 0 else s.fastRefreshCount)
  }

  function Determine(s: State, cfg: Config, env: Input): State {
    var t := ScreenedOut(s, env);
    if t.refresh == SKIPPED then t else Due(t, cfg, env)
  }

  /** The base class draws unless the clock still reads the millisecond of the last drawing. */
  predicate WillDraw(s: State, now: Uint32) {
    Since(now, s.lastDrawMsec) > 0 || s.lastDrawMsec == 0
  }

  function Drawn(s: State, env: Input): State {
    if WillDraw(s, env.now) then
      s.(lastDrawMsec := env.now, trace := s.trace + [Draw(s.currentConfig)],
         busyReads := if s.currentConfig == FULL then env.fullRefreshReads else 0)
    else s
  }

  function Stored(s: State): State {
    s.(previousFrameFlags := s.frameFlags, previousRefresh := s.refresh, previousReason := s.reason,
       frameFlags := BACKGROUND, refresh := UNSPECIFIED)
  }

  function Ended(s: State): State {
    if s.previousRefresh == FULL then
      if s.previousFrameFlags.blocking then EndRefresh(s.(busyReads := 0))
      else Notified(s.(asyncRefreshRunning := true), INTERVAL_POLL_ASYNC_REFRESH, DUE_POLL_ASYNCREFRESH)
    else if s.previousRefresh == FAST then s.(trace := s.trace + [EndFast])
    else s
  }

  lemma DrawnAndEndedKeep(s: State, env: Input)
    ensures Drawn(s, env).refresh == s.refresh && Ended(s).previousRefresh == s.previousRefresh
  {
  }

  function Updated(s: State, cfg: Config, env: Input): State {
    var t := Determine(s, cfg, env);
    if t.refresh == SKIPPED then Stored(t) else Ended(Stored(Drawn(t, env)))
  }

  datatype Op =
    | AddFrameFlag(flags: Flags)
    | DisableUnlimitedFastMode
    | Display(env: Input)        // Screen requests a BACKGROUND frame
    | ForceDisplay(env: Input)   // Screen requests a RESPONSIVE frame
    | RunThread
    | JoinAsyncRefresh

  /** Before an update runs, display() and forceDisplay() add their flag. */
  function Requested(s: State, op: Op): State {
    match op
    case Display(_) => s.(frameFlags := Or(s.frameFlags, BACKGROUND))
    case ForceDisplay(_) => s.(frameFlags := Or(s.frameFlags, RESPONSIVE))
    case _ => s
  }

  /** One operation. The scheduler runs the thread only while it is enabled. */
  function Step(s: State, cfg: Config, op: Op): State {
    match op
    case AddFrameFlag(f) => s.(frameFlags := Or(s.frameFlags, f))
    case DisableUnlimitedFastMode => s.(frameFlags := s.frameFlags.(unlimitedFast := false))
    case Display(env) => Updated(Requested(s, op), cfg, env)
    case ForceDisplay(env) => Updated(Requested(s, op), cfg, env)
    case RunThread => if s.enabled then ThreadTurn(s) else s
    case JoinAsyncRefresh => Join(s)
  }

  function Run(s: State, cfg: Config, ops: seq<Op>): State {
    if ops == [] then s else Step(Run(s, cfg, ops[..|ops| - 1]), cfg, ops[|ops| - 1])
  }

  // ---------- The class

  class Panel {
    const cfg: Config
    var frameFlags: Flags
    var refresh: Refresh
    var reason: Reason
    var previousFrameFlags: Flags
    var previousRefresh: Refresh
    var previousReason: Reason
    var initialized: bool
    var previousRunMs: Uint32
    var fastRefreshCount: Uint32
    var currentConfig: Refresh
    var asyncRefreshRunning: bool
    var lastDrawMsec: Uint32
    var notification: nat
    var enabled: bool
    var interval: nat
    var busyReads: nat
    var trace: seq<Event>

    function View(): State
      reads this
    {
      State(frameFlags, refresh, reason, previousFrameFlags, previousRefresh, previousReason, initialized, previousRunMs,
            fastRefreshCount, currentConfig, asyncRefreshRunning, lastDrawMsec, notification, enabled, interval, busyReads,
            trace)
    }

    constructor (cfg: Config)
      ensures View() == INITIAL && this.cfg == cfg
    {
      this.cfg := cfg;
      frameFlags, refresh, reason := BACKGROUND, UNSPECIFIED, NO_OBJECTIONS;
      previousFrameFlags, previousRefresh, previousReason := BACKGROUND, UNSPECIFIED, NO_OBJECTIONS;
      initialized, previousRunMs, fastRefreshCount := false, 0xffff_ffff, 0;
      currentConfig, asyncRefreshRunning, lastDrawMsec := FULL, false, 0;
      notification, enabled, interval := 0, true, 0;
      busyReads, trace := 0, [];
    }

    method AddFlag(flags: Flags)
      modifies this
      ensures View() == old(View()).(frameFlags := Or(old(frameFlags), flags))
    {
      frameFlags := Or(frameFlags, flags);
    }

    /** Reads the busy line. Once it has read idle it stays idle until the next full refresh. */
    method IsBusy() returns (busy: bool)
      modifies this`busyReads
      ensures busy == (old(busyReads) > 0)
      ensures busyReads == if busy then old(busyReads) - 1 else 0
    {
      busy := busyReads > 0;
      if busy {
        busyReads := busyReads - 1;
      }
    }

    // NotifiedWorkerThread

    method NotifyCommon(v: nat, overwrite: bool) returns (didIt: bool)
      modifies this
      ensures didIt == (overwrite || old(notification) == 0)
      ensures View() == if didIt then old(View()).(enabled := true, interval := 0, notification := v) else old(View())
    {
      if overwrite || notification == 0 {
        enabled := true;
        interval := 0;
        notification := v;
        didIt := true;
      } else {
        didIt := false;
      }
    }

    method NotifyLater(delay: nat, v: nat, overwrite: bool) returns (didIt: bool)
      modifies this
      ensures didIt == (overwrite || old(notification) == 0)
      ensures View() == if didIt then Notified(old(View()), delay, v) else old(View())
    {
      didIt := NotifyCommon(v, overwrite);
      if didIt {
        interval := delay;
      }
    }

    method RunOnce()
      modifies this
      ensures View() == ThreadTurn(old(View()))
    {
      enabled := false;
      var n := notification;
      notification := 0;
      if n != 0 {
        OnNotify(n);
      }
    }

    method OnNotify(n: nat)
      modifies this
      ensures View() == if n == DUE_POLL_ASYNCREFRESH then Poll(old(View())) else old(View())
    {
      if n == DUE_POLL_ASYNCREFRESH {
        PollAsyncRefresh();
      }
    }

    // Asynchronous full refresh

    method PollAsyncRefresh()
      modifies this
      ensures View() == Poll(old(View()))
    {
      if !asyncRefreshRunning {
        return;
      }
      var busy := IsBusy();
      if busy {
        var didIt := NotifyLater(INTERVAL_POLL_ASYNC_REFRESH, DUE_POLL_ASYNCREFRESH, true);
        return;
      }
      trace := trace + [EndAsyncFull];
      asyncRefreshRunning := false;
    }

    method AwaitRefresh()
      modifies this
      ensures View() == EndRefresh(old(View()).(busyReads := 0))
    {
      var busy := IsBusy();
      while busy
        invariant View() == old(View()).(busyReads := busyReads)
        invariant !busy ==> busyReads == 0
        decreases busy, busyReads
      {
        busy := IsBusy();
      }
      trace := trace + [EndAsyncFull];
      asyncRefreshRunning := false;
    }

    method JoinAsyncRefresh()
      modifies this
      ensures View() == Join(old(View()))
    {
      if !asyncRefreshRunning {
        return;
      }
      var busy := IsBusy();
      while busy
        invariant View() == old(View()).(busyReads := busyReads)
        invariant !busy ==> busyReads == 0
        decreases busy, busyReads
      {
        busy := IsBusy();
      }
      trace := trace + [EndAsyncFull];
      asyncRefreshRunning := false;
    }

    // Choosing a refresh: each check may set `refresh` and `reason`; later checks leave a decision alone.

    method CheckInitialized()
      modifies this
      ensures View() == if old(initialized) then old(View())
                        else old(View()).(trace := old(trace) + [ClearScreen], initialized := true,
                                          frameFlags := Or(old(frameFlags), DEMAND_FAST))
    {
      if !initialized {
        trace := trace + [ClearScreen];
        initialized := true;
        AddFlag(DEMAND_FAST);
      }
    }

    method CheckForPromotion()
      modifies this
      ensures View() == old(View()).(frameFlags := Or(old(frameFlags), Promoted(old(previousReason))))
    {
      match previousReason
      case ASYNC_REFRESH_BLOCKED_DEMANDFAST => AddFlag(DEMAND_FAST);
      case ASYNC_REFRESH_BLOCKED_COSMETIC => AddFlag(COSMETIC);
      case ASYNC_REFRESH_BLOCKED_RESPONSIVE | EXCEEDED_RATELIMIT_FAST => AddFlag(RESPONSIVE);
      case _ =>
    }

    method CheckBusyAsyncRefresh()
      modifies this
      ensures View() == if Blocked(old(View()))
                        then CheckBusy(old(View())).(refresh := SKIPPED, reason := BlockedReason(old(frameFlags)))
                        else CheckBusy(old(View()))
    {
      if !asyncRefreshRunning {
        return;
      }
      var busy := IsBusy();
      if busy {
        refresh := SKIPPED;
        if frameFlags.demandFast {
          reason := ASYNC_REFRESH_BLOCKED_DEMANDFAST;
        } else if frameFlags.cosmetic {
          reason := ASYNC_REFRESH_BLOCKED_COSMETIC;
        } else if frameFlags.responsive {
          reason := ASYNC_REFRESH_BLOCKED_RESPONSIVE;
        } else {
          reason := ASYNC_REFRESH_BLOCKED_BACKGROUND;
        }
      } else {
        PollAsyncRefresh();
      }
    }

    method CheckRateLimiting(now: Uint32)
      modifies this`refresh, this`reason
      ensures var rate := RateLimited(frameFlags, now, previousRunMs);
              View() == if rate.Limited? then old(View()).(refresh := SKIPPED, reason := rate.reason) else old(View())
    {
      if previousRunMs > now {
        return;
      }
      if frameFlags == BACKGROUND {
        if Since(now, previousRunMs) < 30000 {
          refresh := SKIPPED;
          reason := EXCEEDED_RATELIMIT_FULL;
          return;
        }
      }
      if frameFlags.cosmetic || frameFlags.demandFast {
        return;
      }
      if frameFlags.responsive {
        if Since(now, previousRunMs) < 1000 {
          refresh := SKIPPED;
          reason := EXCEEDED_RATELIMIT_FAST;
          return;
        }
      }
    }

    /** The checks after the early exit, in the program's order, on a frame that is due. */
    method CheckDueFrame(env: Input)
      requires refresh == UNSPECIFIED
      modifies this`refresh, this`reason
      ensures Decision(refresh, reason) == Decide(frameFlags, fastRefreshCount, old(reason), cfg, env)
    {
      // checkCosmetic
      if frameFlags.cosmetic {
        refresh, reason := FULL, FLAGGED_COSMETIC;
      }
      // checkDemandingFast
      if refresh == UNSPECIFIED && frameFlags.demandFast {
        refresh, reason := FAST, FLAGGED_DEMAND_FAST;
      }
      // checkFrameMatchesPrevious
      if refresh == UNSPECIFIED && env.matchesPrevious {
        if !cfg.backgroundUsesFast && frameFlags == BACKGROUND && fastRefreshCount > 0 {
          refresh, reason := FULL, REDRAW_WITH_FULL;
        } else {
          refresh, reason := SKIPPED, FRAME_MATCHED_PREVIOUS;
        }
      }
      // checkConsecutiveFastRefreshes
      if refresh == UNSPECIFIED {
        if frameFlags.unlimitedFast {
          refresh, reason := FAST, NO_OBJECTIONS;
        } else if fastRefreshCount >= cfg.limitFastRefresh {
          refresh, reason := FULL, EXCEEDED_LIMIT_FASTREFRESH;
        }
      }
      // checkExcessiveGhosting
      if refresh == UNSPECIFIED && env.ghosting {
        refresh, reason := FULL, EXCEEDED_GHOSTINGLIMIT;
      }
      // checkFastRequested
      if refresh == UNSPECIFIED {
        if frameFlags == BACKGROUND {
          if cfg.backgroundUsesFast {
            refresh, reason := FAST, BACKGROUND_USES_FAST;
          } else {
            refresh, reason := FULL, FLAGGED_BACKGROUND;
          }
        }
        if frameFlags.responsive {
          refresh, reason := FAST, NO_OBJECTIONS;
        }
      }
    }

    method ApplyRefreshMode()
      requires currentConfig == FULL || currentConfig == FAST
      modifies this`currentConfig
      ensures currentConfig == if refresh == FAST || refresh == FULL then refresh else old(currentConfig)
    {
      if currentConfig == FULL && refresh == FAST {
        currentConfig := FAST;
      } else if currentConfig == FAST && refresh == FULL {
        currentConfig := FULL;
      }
    }

    method AdjustRefreshCounters()
      modifies this`fastRefreshCount
      ensures fastRefreshCount == if refresh == FAST then (old(fastRefreshCount) + 1) % TWO32
                                  else if refresh == FULL then 0 else old(fastRefreshCount)
    {
      if refresh == FAST {
        fastRefreshCount := (fastRefreshCount + 1) % TWO32;
      } else if refresh == FULL {
        fastRefreshCount := 0;
      }
    }

    /** The checks up to the early exit. */
    method CheckTurnedAway(env: Input)
      requires refresh == UNSPECIFIED
      modifies this
      ensures View() == ScreenedOut(old(View()), env)
    {
      hide Or, Promoted, RateLimited, BlockedReason, CheckBusy, Blocked;
      CheckInitialized();
      CheckForPromotion();
      assert View() == Prepare(old(View()));
      CheckBusyAsyncRefresh();
      CheckBusyLeaves(Prepare(old(View())));
      CheckRateLimiting(env.now);
    }

    /** The checks on a frame that is due, and what follows from the decision. */
    method DecideDueFrame(env: Input)
      requires refresh == UNSPECIFIED && (currentConfig == FULL || currentConfig == FAST)
      modifies this
      ensures View() == Due(old(View()), cfg, env)
    {
      hide Decide;
      previousRunMs := env.now;
      CheckDueFrame(env);
      ApplyRefreshMode();
      AdjustRefreshCounters();
    }

    method DetermineMode(env: Input) returns (approved: bool)
      requires refresh == UNSPECIFIED && (currentConfig == FULL || currentConfig == FAST)
      modifies this
      ensures View() == Determine(old(View()), cfg, env)
      ensures approved == (refresh != SKIPPED)
    {
      hide ScreenedOut, Due;
      ScreenedOutKeepsConfig(View(), env);
      CheckTurnedAway(env);
      if refresh == SKIPPED {
        return false;
      }
      DecideDueFrame(env);
      return refresh != SKIPPED;
    }

    // Running an update

    method StoreAndReset()
      modifies this`previousFrameFlags, this`previousRefresh, this`previousReason, this`frameFlags, this`refresh
      ensures View() == Stored(old(View()))
    {
      previousFrameFlags := frameFlags;
      previousRefresh := refresh;
      previousReason := reason;
      frameFlags := BACKGROUND;
      refresh := UNSPECIFIED;
    }

    method BaseForceDisplay(env: Input)
      modifies this
      ensures View() == Drawn(old(View()), env)
    {
      var sinceLast := Since(env.now, lastDrawMsec);
      if sinceLast > 0 || lastDrawMsec == 0 {
        lastDrawMsec := env.now;
      } else {
        return;
      }
      trace := trace + [Draw(currentConfig)];
      busyReads := if currentConfig == FULL then env.fullRefreshReads else 0;
    }

    method EndOrDetach()
      modifies this
      ensures View() == Ended(old(View()))
    {
      if previousRefresh == FULL {
        asyncRefreshRunning := true;
        if previousFrameFlags.blocking {
          AwaitRefresh();
        } else {
          var didIt := NotifyLater(INTERVAL_POLL_ASYNC_REFRESH, DUE_POLL_ASYNCREFRESH, true);
        }
      } else if previousRefresh == FAST {
        trace := trace + [EndFast];
      }
    }

    method Update(env: Input) returns (approved: bool)
      requires refresh == UNSPECIFIED && (currentConfig == FULL || currentConfig == FAST)
      modifies this
      ensures View() == Updated(old(View()), cfg, env)
      ensures approved == (previousRefresh != SKIPPED)
    {
      hide Determine, Drawn, Ended;
      approved := DetermineMode(env);
      DrawnAndEndedKeep(View(), env);
      if approved {
        BaseForceDisplay(env);
        StoreAndReset();
        DrawnAndEndedKeep(View(), env);
        EndOrDetach();
      } else {
        StoreAndReset();
      }
    }

    /** Any public operation keeps step with the specification. */
    method Perform(op: Op)
      requires refresh == UNSPECIFIED && (currentConfig == FULL || currentConfig == FAST)
      modifies this
      ensures View() == Step(old(View()), cfg, op)
    {
      match op
      case AddFrameFlag(f) => AddFlag(f);
      case DisableUnlimitedFastMode => frameFlags := frameFlags.(unlimitedFast := false);
      case Display(env) =>
        AddFlag(BACKGROUND);
        var approved := Update(env);
      case ForceDisplay(env) =>
        AddFlag(RESPONSIVE);
        var approved := Update(env);
      case RunThread =>
        if enabled {
          RunOnce();
        }
      case JoinAsyncRefresh => JoinAsyncRefresh();
    }
  }
}
