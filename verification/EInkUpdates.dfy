/** What one operation of the E-Ink display does, said field by field without the functions that mirror the program's
    checks: which frames are turned away, drawn with which refresh, or skipped, and what reaches the panel. */
module EInkUpdates {
  import opened Common
  import opened EInkDynamicDisplay

  // ---------- What an update is asked for

  /** The flags an update works on: those of the frame, FAST demanded for the first one, and the request that the last
      frame turned away has left. */
  function Asking(s: State): Flags {
    var f, why := s.frameFlags, s.previousReason;
    f.(demandFast := f.demandFast || !s.initialized || why == ASYNC_REFRESH_BLOCKED_DEMANDFAST,
       cosmetic := f.cosmetic || why == ASYNC_REFRESH_BLOCKED_COSMETIC,
       responsive := f.responsive || why == ASYNC_REFRESH_BLOCKED_RESPONSIVE || why == EXCEEDED_RATELIMIT_FAST)
  }

  /** A frame flagged BACKGROUND and nothing else. */
  predicate OnlyBackground(f: Flags) {
    f.background && !f.responsive && !f.cosmetic && !f.demandFast && !f.blocking && !f.unlimitedFast
  }

  predicate StillBusy(s: State) {
    s.asyncRefreshRunning && s.busyReads > 0
  }

  /** Less than 30 s after the last frame that was due for a background frame, less than 1 s for a responsive one. */
  predicate TooSoon(f: Flags, now: Uint32, last: Uint32) {
    last <= now && ((OnlyBackground(f) && now - last < 30000)
                    || (f.responsive && !f.cosmetic && !f.demandFast && now - last < 1000))
  }

  /** The frame is turned away before it is decided. */
  predicate AwayEarly(s: State, env: Input) {
    StillBusy(s) || TooSoon(Asking(s), env.now, s.previousRunMs)
  }

  // ---------- The four outcomes of a frame that is due

  predicate WantsFull(f: Flags, count: nat, cfg: Config, env: Input) {
    || f.cosmetic
    || (!f.demandFast &&
        if env.matchesPrevious then OnlyBackground(f) && count > 0 && !cfg.backgroundUsesFast
        else !f.unlimitedFast
             && (count >= cfg.limitFastRefresh || env.ghosting || (OnlyBackground(f) && !cfg.backgroundUsesFast)))
  }

  predicate WantsFast(f: Flags, count: nat, cfg: Config, env: Input) {
    !f.cosmetic &&
    (|| f.demandFast
     || (!env.matchesPrevious &&
         (|| f.unlimitedFast
          || (count < cfg.limitFastRefresh && !env.ghosting
              && (f.responsive || (OnlyBackground(f) && cfg.backgroundUsesFast))))))
  }

  /** The panel shows this frame already, and it is not one to redraw in full. */
  predicate WantsSkip(f: Flags, count: nat, cfg: Config, env: Input) {
    env.matchesPrevious && !f.cosmetic && !f.demandFast && !(OnlyBackground(f) && count > 0 && !cfg.backgroundUsesFast)
  }

  /** The one kind of frame that the checks leave undecided: flagged BACKGROUND and BLOCKING and nothing else. */
  predicate WantsNothing(f: Flags, count: nat, cfg: Config, env: Input) {
    && f.background && f.blocking && !f.responsive && !f.cosmetic && !f.demandFast && !f.unlimitedFast
    && !env.matchesPrevious && count < cfg.limitFastRefresh && !env.ghosting
  }

  lemma OnlyBackgroundIs(f: Flags)
    ensures OnlyBackground(f) <==> f == BACKGROUND
  {
  }

  /** Exactly one of the four holds, and it says how the frame is refreshed. */
  lemma ModeOfFlags(f: Flags, count: nat, stale: Reason, cfg: Config, env: Input)
    requires f.background
    ensures var Decision(mode, why) := Decide(f, count, stale, cfg, env);
            && (mode == SKIPPED ==> why == FRAME_MATCHED_PREVIOUS) && (mode == UNSPECIFIED ==> why == stale)
            && (mode == FULL <==> WantsFull(f, count, cfg, env))
            && (mode == FAST <==> WantsFast(f, count, cfg, env))
            && (mode == SKIPPED <==> WantsSkip(f, count, cfg, env))
            && (mode == UNSPECIFIED <==> WantsNothing(f, count, cfg, env))
  {
    OnlyBackgroundIs(f);
  }

  // ---------- Determining the mode

  lemma Prepared(s: State)
    ensures Prepare(s) == s.(initialized := true, frameFlags := Asking(s),
                             trace := s.trace + if s.initialized then [] else [ClearScreen])
  {
  }

  lemma RateLimitIs(f: Flags, now: Uint32, last: Uint32)
    ensures RateLimited(f, now, last) == if !TooSoon(f, now, last) then NotLimited
                                         else Limited(if OnlyBackground(f) then EXCEEDED_RATELIMIT_FULL
                                                      else EXCEEDED_RATELIMIT_FAST)
  {
    OnlyBackgroundIs(f);
  }

  /** Why a frame was turned away. */
  function AwayReason(f: Flags, now: Uint32, last: Uint32): Reason {
    if TooSoon(f, now, last) then if f.responsive then EXCEEDED_RATELIMIT_FAST else EXCEEDED_RATELIMIT_FULL
    else if f.demandFast then ASYNC_REFRESH_BLOCKED_DEMANDFAST
    else if f.cosmetic then ASYNC_REFRESH_BLOCKED_COSMETIC
    else if f.responsive then ASYNC_REFRESH_BLOCKED_RESPONSIVE
    else ASYNC_REFRESH_BLOCKED_BACKGROUND
  }

  /** What has reached the panel before a frame is decided: the first one clears the screen, and a refresh that has become
      idle is ended. */
  function Before(s: State): seq<Event> {
    (if s.initialized then [] else [ClearScreen])
    + (if s.asyncRefreshRunning && s.busyReads == 0 then [EndAsyncFull] else [])
  }

  lemma ScreenedOutIs(s: State, env: Input)
    requires s.refresh == UNSPECIFIED
    ensures var t := ScreenedOut(s, env);
            t == s.(initialized := true, frameFlags := Asking(s), trace := s.trace + Before(s),
                    asyncRefreshRunning := StillBusy(s),
                    busyReads := if StillBusy(s) then s.busyReads - 1 else s.busyReads,
                    refresh := if AwayEarly(s, env) then SKIPPED else UNSPECIFIED,
                    reason := if AwayEarly(s, env) then AwayReason(Asking(s), env.now, s.previousRunMs) else s.reason)
  {
    hide Prepare, RateLimited, Asking, TooSoon;
    Prepared(s);
    RateLimitIs(Asking(s), env.now, s.previousRunMs);
    LimitedReason(Asking(s), env.now, s.previousRunMs);
  }

  lemma LimitedReason(f: Flags, now: Uint32, last: Uint32)
    ensures TooSoon(f, now, last) ==> (OnlyBackground(f) <==> !f.responsive)
  {
  }

  lemma AskingBackground(s: State)
    ensures Asking(s).background == s.frameFlags.background
    ensures Asking(s).blocking == s.frameFlags.blocking && Asking(s).unlimitedFast == s.frameFlags.unlimitedFast
  {
  }

  // ---------- One update

  /** The base class draws unless the clock still reads the millisecond of the last drawing. */
  predicate Draws(s: State, now: Uint32) {
    now != s.lastDrawMsec || s.lastDrawMsec == 0
  }

  /** The refresh that an update gives its frame. */
  function Mode(s: State, cfg: Config, env: Input): Refresh {
    var f, count := Asking(s), s.fastRefreshCount;
    if AwayEarly(s, env) || WantsSkip(f, count, cfg, env) then SKIPPED
    else if WantsFull(f, count, cfg, env) then FULL
    else if WantsFast(f, count, cfg, env) then FAST
    else UNSPECIFIED
  }

  /** The refresh the panel is set up for while the update draws. */
  function Setup(s: State, cfg: Config, env: Input): Refresh {
    var mode := Mode(s, cfg, env);
    if mode == FULL || mode == FAST then mode else s.currentConfig
  }

  /** The state in which the drawing starts, if the frame is not skipped. */
  lemma DeterminedIs(s: State, cfg: Config, env: Input)
    requires s.refresh == UNSPECIFIED && s.frameFlags.background
    ensures var t, mode := Determine(s, cfg, env), Mode(s, cfg, env);
            t == s.(initialized := true, frameFlags := Asking(s), trace := s.trace + Before(s),
                    asyncRefreshRunning := StillBusy(s),
                    busyReads := if StillBusy(s) then s.busyReads - 1 else s.busyReads,
                    refresh := mode, currentConfig := Setup(s, cfg, env),
                    previousRunMs := if AwayEarly(s, env) then s.previousRunMs else env.now,
                    fastRefreshCount := if mode == FULL then 0
                                        else if mode == FAST && s.fastRefreshCount < 0xffff_ffff then s.fastRefreshCount + 1
                                        else if mode == FAST then 0 else s.fastRefreshCount,
                    reason := if AwayEarly(s, env) then AwayReason(Asking(s), env.now, s.previousRunMs) else t.reason)
            && (mode == UNSPECIFIED ==> t.reason == s.reason)
  {
    hide Decide, AwayEarly, AwayReason, WantsFull, WantsFast, WantsSkip, WantsNothing, ScreenedOut, Asking, Before;
    ScreenedOutIs(s, env);
    AskingBackground(s);
    ModeOfFlags(Asking(s), s.fastRefreshCount, s.reason, cfg, env);
  }

  /** Exactly one of the four outcomes is right for a frame that is not turned away. */
  lemma ModeIff(s: State, cfg: Config, env: Input)
    requires s.frameFlags.background
    ensures var mode, away := Mode(s, cfg, env), AwayEarly(s, env);
            var f, count := Asking(s), s.fastRefreshCount;
            && (mode == FULL <==> !away && WantsFull(f, count, cfg, env))
            && (mode == FAST <==> !away && WantsFast(f, count, cfg, env))
            && (mode == SKIPPED <==> away || WantsSkip(f, count, cfg, env))
            && (mode == UNSPECIFIED <==> !away && WantsNothing(f, count, cfg, env))
  {
    hide AwayEarly, WantsFull, WantsFast, WantsSkip, WantsNothing, Asking;
    AskingBackground(s);
    ModeOfFlags(Asking(s), s.fastRefreshCount, NO_OBJECTIONS, cfg, env);
  }

  /** The checks together: turned away, or decided on the flags asked for. */
  lemma DeterminedMode(s: State, cfg: Config, env: Input)
    requires s.refresh == UNSPECIFIED && s.frameFlags.background
    ensures var mode := Determine(s, cfg, env).refresh;
            var f, count := Asking(s), s.fastRefreshCount;
            && (mode == FULL <==> !AwayEarly(s, env) && WantsFull(f, count, cfg, env))
            && (mode == FAST <==> !AwayEarly(s, env) && WantsFast(f, count, cfg, env))
            && (mode == SKIPPED <==> AwayEarly(s, env) || WantsSkip(f, count, cfg, env))
            && (mode == UNSPECIFIED <==> !AwayEarly(s, env) && WantsNothing(f, count, cfg, env))
            && Determine(s, cfg, env).frameFlags == f
  {
    hide Determine, Mode, AwayEarly, WantsFull, WantsFast, WantsSkip, WantsNothing, Asking, Before;
    DeterminedIs(s, cfg, env);
    ModeIff(s, cfg, env);
  }

  predicate IsDrawn(s: State, cfg: Config, env: Input) {
    Mode(s, cfg, env) != SKIPPED && Draws(s, env.now)
  }

  /** What an update adds to the history of the panel. */
  function Added(s: State, cfg: Config, env: Input): seq<Event> {
    var mode := Mode(s, cfg, env);
    Before(s)
    + (if IsDrawn(s, cfg, env) then [Draw(Setup(s, cfg, env))] else [])
    + (if mode == FAST then [EndFast] else if mode == FULL && s.frameFlags.blocking then [EndAsyncFull] else [])
  }

  /** The whole new state after an update: it is drawn, and with which refresh, exactly as the frame asks. */
  lemma UpdateIs(s: State, cfg: Config, env: Input)
    requires s.refresh == UNSPECIFIED && s.frameFlags.background
    ensures var t, mode, away := Updated(s, cfg, env), Mode(s, cfg, env), AwayEarly(s, env);
            var detached := mode == FULL && !s.frameFlags.blocking;
            && t.trace == s.trace + Added(s, cfg, env)
            && t.frameFlags == BACKGROUND && t.refresh == UNSPECIFIED && t.initialized
            && t.previousFrameFlags == Asking(s) && t.previousRefresh == mode && t.previousReason == t.reason
            && (away ==> t.reason == AwayReason(Asking(s), env.now, s.previousRunMs))
            && (mode == UNSPECIFIED ==> t.reason == s.reason)
            && t.previousRunMs == (if away then s.previousRunMs else env.now)
            && t.fastRefreshCount == (if mode == FULL then 0
                                      else if mode == FAST && s.fastRefreshCount < 0xffff_ffff then s.fastRefreshCount + 1
                                      else if mode == FAST then 0 else s.fastRefreshCount)
            && t.currentConfig == Setup(s, cfg, env)
            && t.lastDrawMsec == (if IsDrawn(s, cfg, env) then env.now else s.lastDrawMsec)
            && t.asyncRefreshRunning == (if away then StillBusy(s) else detached)
            && t.notification == (if detached then 1 else s.notification)
            && t.interval == (if detached then 100 else s.interval)
            && t.enabled == (detached || s.enabled)
            && t.busyReads == (if StillBusy(s) then s.busyReads - 1
                               else if mode == FULL && s.frameFlags.blocking then 0
                               else if !IsDrawn(s, cfg, env) then s.busyReads
                               else if Setup(s, cfg, env) == FULL then env.fullRefreshReads else 0)
  {
    hide Mode, Determine, Updated, Asking, Before, AwayEarly;
    DeterminedIs(s, cfg, env);
    AskingBackground(s);
    BusyIsAway(s, cfg, env);
    SinceZero(env.now, s.lastDrawMsec);
    var t := Determine(s, cfg, env);
    assert WillDraw(t, env.now) <==> Draws(s, env.now);
    if Mode(s, cfg, env) == SKIPPED {
      assert Updated(s, cfg, env) == Stored(t) by {
        UpdatedUnfolds(s, cfg, env);
      }
    } else {
      assert Updated(s, cfg, env) == Ended(Stored(Drawn(t, env))) by {
        UpdatedUnfolds(s, cfg, env);
      }
    }
  }

  lemma UpdatedUnfolds(s: State, cfg: Config, env: Input)
    ensures var t := Determine(s, cfg, env);
            Updated(s, cfg, env) == if t.refresh == SKIPPED then Stored(t) else Ended(Stored(Drawn(t, env)))
  {
    hide Determine, Drawn, Stored, Ended;
  }

  lemma BusyIsAway(s: State, cfg: Config, env: Input)
    ensures StillBusy(s) ==> AwayEarly(s, env)
    ensures AwayEarly(s, env) ==> Mode(s, cfg, env) == SKIPPED
  {
  }

  lemma SinceZero(now: Uint32, earlier: Uint32)
    ensures Since(now, earlier) == 0 <==> now == earlier
  {
  }

  // ---------- The other operations

  /** The flags of the next frame: added ones are there besides those before. */
  lemma FlagsAsked(s: State, cfg: Config, f: Flags)
    ensures var g := Step(s, cfg, AddFrameFlag(f)).frameFlags;
            && (g.background <==> s.frameFlags.background || f.background)
            && (g.responsive <==> s.frameFlags.responsive || f.responsive)
            && (g.cosmetic <==> s.frameFlags.cosmetic || f.cosmetic)
            && (g.demandFast <==> s.frameFlags.demandFast || f.demandFast)
            && (g.blocking <==> s.frameFlags.blocking || f.blocking)
            && (g.unlimitedFast <==> s.frameFlags.unlimitedFast || f.unlimitedFast)
            && Step(s, cfg, AddFrameFlag(f)) == s.(frameFlags := g)
  {
  }

  /** A display is an update with BACKGROUND, a forced display one with RESPONSIVE. */
  lemma FramesAsked(s: State, cfg: Config, env: Input)
    ensures Step(s, cfg, DisableUnlimitedFastMode) == s.(frameFlags := s.frameFlags.(unlimitedFast := false))
    ensures Step(s, cfg, Display(env)) == Updated(s.(frameFlags := s.frameFlags.(background := true)), cfg, env)
    ensures Step(s, cfg, ForceDisplay(env)) == Updated(s.(frameFlags := s.frameFlags.(responsive := true)), cfg, env)
  {
    hide Updated, Or;
    OneMoreFlag(s.frameFlags);
  }

  lemma OneMoreFlag(f: Flags)
    ensures Or(f, BACKGROUND) == f.(background := true) && Or(f, RESPONSIVE) == f.(responsive := true)
  {
  }

  /** A turn of the worker thread: a refresh that is still busy is looked at again after 100 ms, one that is idle is
      ended. A join waits for the end. */
  lemma RefreshEnds(s: State, cfg: Config)
    ensures var t := Step(s, cfg, RunThread);
            if !s.enabled then t == s
            else if s.notification != 1 || !s.asyncRefreshRunning then t == s.(enabled := false, notification := 0)
            else if s.busyReads > 0 then
              t == s.(busyReads := s.busyReads - 1, interval := 100, enabled := true, notification := 1)
            else
              t == s.(enabled := false, notification := 0, asyncRefreshRunning := false, trace := s.trace + [EndAsyncFull])
    ensures Step(s, cfg, JoinAsyncRefresh)
         == if !s.asyncRefreshRunning then s
            else s.(asyncRefreshRunning := false, busyReads := 0, trace := s.trace + [EndAsyncFull])
  {
  }
}
