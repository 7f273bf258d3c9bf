/** Properties of whole runs of the E-Ink display: every interleaving of requests, thread turns and joins. */
module EInkRuns {
  import opened Common
  import opened EInkDynamicDisplay
  import opened EInkUpdates

  // ---------- Each full refresh is ended exactly once, and nothing is drawn before that

  /** The last thing that happened is the start of a full refresh. */
  predicate InFlight(trace: seq<Event>) {
    trace != [] && trace[|trace| - 1] == Draw(FULL)
  }

  /** The start of a full refresh is always followed by its end, and an end by nothing but a start. */
  predicate WellBracketed(trace: seq<Event>) {
    && (forall i :: 0 <= i < |trace| - 1 && trace[i] == Draw(FULL) ==> trace[i + 1] == EndAsyncFull)
    && (forall i :: 0 <= i < |trace| && trace[i] == EndAsyncFull ==> i > 0 && trace[i - 1] == Draw(FULL))
  }

  lemma Extend(trace: seq<Event>, e: Event)
    requires WellBracketed(trace)
    ensures WellBracketed(trace + [e]) <==> (InFlight(trace) <==> e == EndAsyncFull)
    ensures InFlight(trace + [e]) <==> e == Draw(FULL)
  {
    var t := trace + [e];
    assert t[|trace|] == e;
    if trace != [] {
      assert t[|trace| - 1] == trace[|trace| - 1];
    }
    if InFlight(trace) <==> e == EndAsyncFull {
      forall i | 0 <= i < |t| - 1 && t[i] == Draw(FULL)
        ensures t[i + 1] == EndAsyncFull
      {
        assert trace[i] == Draw(FULL);
      }
      forall i | 0 <= i < |t| && t[i] == EndAsyncFull
        ensures i > 0 && t[i - 1] == Draw(FULL)
      {
        if i < |trace| {
          assert trace[i] == EndAsyncFull;
        }
      }
    }
  }

  /** What holds between operations. */
  predicate Sound(s: State) {
    && s.refresh == UNSPECIFIED && (s.currentConfig == FULL || s.currentConfig == FAST)
    && s.frameFlags.background
    && WellBracketed(s.trace)
    && (s.asyncRefreshRunning <==> InFlight(s.trace))
    && (s.asyncRefreshRunning ==> s.notification == DUE_POLL_ASYNCREFRESH && s.enabled)
    && (!s.initialized ==> s.trace == [])
  }

  /** Before a frame is decided, all that can be in flight is a refresh that is still busy. */
  lemma BeforeSound(s: State)
    requires Sound(s)
    ensures WellBracketed(s.trace + Before(s)) && (InFlight(s.trace + Before(s)) <==> StillBusy(s))
  {
    hide WellBracketed;
    Extend(s.trace, ClearScreen);
    Extend(s.trace, EndAsyncFull);
    var before := s.trace + Before(s);
    if s.initialized {
      assert before == if s.asyncRefreshRunning && s.busyReads == 0 then s.trace + [EndAsyncFull] else s.trace;
    } else {
      assert before == s.trace + [ClearScreen];
    }
  }

  lemma PollSound(s: State)
    requires Sound(s.(notification := DUE_POLL_ASYNCREFRESH, enabled := true))
    ensures Sound(Poll(s))
  {
    hide WellBracketed;
    Extend(s.trace, EndAsyncFull);
  }

  // ---------- Exactly when an update keeps that

  const LONE_BLOCKING := Flags(true, false, false, false, true, false)

  /** Decision and drawing go together: a full refresh is drawn, and nothing full is drawn for an undecided frame. */
  predicate HarmlessUpdate(s: State, cfg: Config, env: Input) {
    var f, count := Asking(s), s.fastRefreshCount;
    || AwayEarly(s, env)
    || (&& (WantsFull(f, count, cfg, env) ==> Draws(s, env.now))
        && (WantsNothing(f, count, cfg, env) && Draws(s, env.now) ==> s.currentConfig == FAST))
  }

  /** The state after an update is sound again exactly if the update is harmless. */
  lemma UpdateSoundIff(s: State, cfg: Config, env: Input)
    requires Sound(s)
    ensures Sound(Updated(s, cfg, env)) <==> HarmlessUpdate(s, cfg, env)
  {
    hide WellBracketed, Updated, Mode, AwayEarly, WantsFull, WantsFast, WantsSkip, WantsNothing, Asking, Before;
    UpdateIs(s, cfg, env);
    ModeIff(s, cfg, env);
    BusyIsAway(s, cfg, env);
    BeforeSound(s);
    var before := s.trace + Before(s);
    AddedIs(s, cfg, env);
    if Mode(s, cfg, env) != SKIPPED {
      Extend(before, Draw(Setup(s, cfg, env)));
      var drawn := DrawnTrace(s, cfg, env);
      if WellBracketed(drawn) {
        Extend(drawn, EndAsyncFull);
        Extend(drawn, EndFast);
      }
    }
  }

  /** The history of the panel once the frame has been drawn. */
  function DrawnTrace(s: State, cfg: Config, env: Input): seq<Event> {
    s.trace + Before(s) + if IsDrawn(s, cfg, env) then [Draw(Setup(s, cfg, env))] else []
  }

  lemma AddedIs(s: State, cfg: Config, env: Input)
    ensures s.trace + Added(s, cfg, env)
         == if Mode(s, cfg, env) == FAST then DrawnTrace(s, cfg, env) + [EndFast]
            else if Mode(s, cfg, env) == FULL && s.frameFlags.blocking then DrawnTrace(s, cfg, env) + [EndAsyncFull]
            else DrawnTrace(s, cfg, env)
    ensures !IsDrawn(s, cfg, env) ==> DrawnTrace(s, cfg, env) == s.trace + Before(s)
  {
  }

  predicate IsUpdate(op: Op) {
    op.Display? || op.ForceDisplay?
  }

  predicate Harmless(s: State, cfg: Config, op: Op) {
    IsUpdate(op) ==> HarmlessUpdate(Requested(s, op), cfg, op.env)
  }

  /** Every operation but an update keeps the state sound, and an update does exactly if it is harmless. */
  lemma StepSoundIff(s: State, cfg: Config, op: Op)
    requires Sound(s)
    ensures Sound(Step(s, cfg, op)) <==> Harmless(s, cfg, op)
  {
    hide WellBracketed, Determine, Updated, HarmlessUpdate;
    match op
    case Display(env) =>
      UpdateSoundIff(Requested(s, op), cfg, env);
    case ForceDisplay(env) =>
      UpdateSoundIff(Requested(s, op), cfg, env);
    case RunThread =>
      PollSound(s.(enabled := false, notification := 0));
    case JoinAsyncRefresh =>
      Extend(s.trace, EndAsyncFull);
    case _ =>
  }

  ghost predicate HarmlessRun(cfg: Config, ops: seq<Op>) {
    forall i :: 0 <= i < |ops| ==> Harmless(Run(INITIAL, cfg, ops[..i]), cfg, ops[i])
  }

  ghost predicate SoundThroughout(cfg: Config, ops: seq<Op>) {
    forall i :: 0 <= i <= |ops| ==> Sound(Run(INITIAL, cfg, ops[..i]))
  }

  /** Over every interleaving: at all its points each full refresh has been ended exactly once, nothing was drawn while one
      was in flight, and a running refresh has its next poll pending on an enabled thread, exactly if every update of the
      run is harmless. */
  lemma {:induction false} RunSoundIff(cfg: Config, ops: seq<Op>)
    ensures SoundThroughout(cfg, ops) <==> HarmlessRun(cfg, ops)
  {
    hide Step, Sound, Harmless, SoundThroughout, HarmlessRun;
    if ops == [] {
      NothingHappened(cfg);
    } else {
      var n := |ops| - 1;
      RunSoundIff(cfg, ops[..n]);
      LastSound(cfg, ops);
      LastHarmless(cfg, ops);
      if Sound(Run(INITIAL, cfg, ops[..n])) {
        StepSoundIff(Run(INITIAL, cfg, ops[..n]), cfg, ops[n]);
      }
    }
  }

  lemma NothingHappened(cfg: Config)
    ensures SoundThroughout(cfg, []) && HarmlessRun(cfg, [])
  {
    var none: seq<Op> := [];
    assert none[..0] == [];
  }

  lemma LastSound(cfg: Config, ops: seq<Op>)
    requires ops != []
    ensures var n := |ops| - 1;
            && (SoundThroughout(cfg, ops) <==> SoundThroughout(cfg, ops[..n]) && Sound(Run(INITIAL, cfg, ops)))
            && (SoundThroughout(cfg, ops[..n]) ==> Sound(Run(INITIAL, cfg, ops[..n])))
  {
    hide Run, Sound;
    var n := |ops| - 1;
    var front := ops[..n];
    assert front[..n] == front && ops[..n + 1] == ops;
    if SoundThroughout(cfg, front) && Sound(Run(INITIAL, cfg, ops)) {
      forall i | 0 <= i <= |ops|
        ensures Sound(Run(INITIAL, cfg, ops[..i]))
      {
        if i <= n {
          assert ops[..i] == front[..i];
        }
      }
    }
    if SoundThroughout(cfg, ops) {
      forall i | 0 <= i <= n
        ensures Sound(Run(INITIAL, cfg, front[..i]))
      {
        assert ops[..i] == front[..i];
      }
    }
  }

  lemma LastHarmless(cfg: Config, ops: seq<Op>)
    requires ops != []
    ensures var n := |ops| - 1;
            HarmlessRun(cfg, ops) <==> HarmlessRun(cfg, ops[..n]) && Harmless(Run(INITIAL, cfg, ops[..n]), cfg, ops[n])
  {
    hide Run, Harmless;
    var n := |ops| - 1;
    assert forall i :: 0 <= i < n ==> ops[..n][..i] == ops[..i] && ops[..n][i] == ops[i];
    if HarmlessRun(cfg, ops[..n]) && Harmless(Run(INITIAL, cfg, ops[..n]), cfg, ops[n]) {
      forall i | 0 <= i < |ops|
        ensures Harmless(Run(INITIAL, cfg, ops[..i]), cfg, ops[i])
      {
        if i < n {
          assert Harmless(Run(INITIAL, cfg, ops[..n][..i]), cfg, ops[..n][i]);
        }
      }
    }
    if HarmlessRun(cfg, ops) {
      forall i | 0 <= i < n
        ensures Harmless(Run(INITIAL, cfg, ops[..n][..i]), cfg, ops[..n][i])
      {
        assert Harmless(Run(INITIAL, cfg, ops[..i]), cfg, ops[i]);
      }
    }
  }

  const AT_5 := Input(5, false, false, 0)

  /** The display after its first frame, drawn at 5 ms. */
  const FIRST_DRAWN := State(BACKGROUND, UNSPECIFIED, FLAGGED_DEMAND_FAST,
                             Or(Or(BACKGROUND, RESPONSIVE), DEMAND_FAST), FAST, FLAGGED_DEMAND_FAST,
                             true, 5, 1, FAST, false, 5, 0, true, 0, 0, [ClearScreen, Draw(FAST), EndFast])

  lemma FirstFrame(cfg: Config)
    ensures Step(INITIAL, cfg, ForceDisplay(AT_5)) == FIRST_DRAWN
  {
  }

  lemma CosmeticInSameMillisecond(cfg: Config)
    ensures var s := Step(Step(FIRST_DRAWN, cfg, AddFrameFlag(COSMETIC)), cfg, Display(AT_5));
            s.trace == FIRST_DRAWN.trace && s.asyncRefreshRunning && s.busyReads == 0 && s.enabled && s.notification == 1
  {
    var s := FIRST_DRAWN.(frameFlags := Or(BACKGROUND, COSMETIC));
    assert Step(FIRST_DRAWN, cfg, AddFrameFlag(COSMETIC)) == s;
    assert Determine(s, cfg, AT_5).refresh == FULL;
  }

  /** An update in the millisecond of the last drawing: the full refresh is decided but not drawn, and the worker thread
      ends what never began. */
  lemma SameMillisecondBreaks(cfg: Config)
    ensures var t := Run(INITIAL, cfg, [ForceDisplay(AT_5), AddFrameFlag(COSMETIC), Display(AT_5), RunThread]);
            t.trace == [ClearScreen, Draw(FAST), EndFast, EndAsyncFull] && !WellBracketed(t.trace)
  {
    hide Step, Run;
    RunOfFour(INITIAL, cfg, ForceDisplay(AT_5), AddFrameFlag(COSMETIC), Display(AT_5), RunThread);
    FirstFrame(cfg);
    CosmeticInSameMillisecond(cfg);
    ThreadEndsAtOnce(Step(Step(FIRST_DRAWN, cfg, AddFrameFlag(COSMETIC)), cfg, Display(AT_5)), cfg);
    var trace := Run(INITIAL, cfg, [ForceDisplay(AT_5), AddFrameFlag(COSMETIC), Display(AT_5), RunThread]).trace;
    assert trace[3] == EndAsyncFull && trace[2] == EndFast;
  }

  /** A frame that asks for nothing but BLOCKING, while the panel is still set up for full refreshes: one is drawn, and
      nobody will end it. */
  lemma LoneBlockingBreaks(cfg: Config)
    requires cfg.limitFastRefresh > 0
    ensures var full := Run(FIRST_DRAWN, cfg, [AddFrameFlag(COSMETIC), Display(AT_5.(now := 10)), RunThread,
                                               AddFrameFlag(Flags(false, false, false, false, true, false))]);
            var t := Step(full, cfg, Display(AT_5.(now := 20)));
            InFlight(t.trace) && !t.asyncRefreshRunning
  {
    var flag := Flags(false, false, false, false, true, false);
    RunOfFour(FIRST_DRAWN, cfg, AddFrameFlag(COSMETIC), Display(AT_5.(now := 10)), RunThread, AddFrameFlag(flag));
    CosmeticLater(cfg);
    BlockingLater(Step(Step(FIRST_DRAWN, cfg, AddFrameFlag(COSMETIC)), cfg, Display(AT_5.(now := 10))), cfg, flag);
  }

  lemma CosmeticLater(cfg: Config)
    ensures var s := Step(Step(FIRST_DRAWN, cfg, AddFrameFlag(COSMETIC)), cfg, Display(AT_5.(now := 10)));
            && s.asyncRefreshRunning && s.busyReads == 0 && s.enabled && s.notification == 1 && s.initialized
            && s.previousReason == FLAGGED_COSMETIC && s.frameFlags == BACKGROUND && s.refresh == UNSPECIFIED
            && s.fastRefreshCount == 0 && s.currentConfig == FULL && s.lastDrawMsec == 10
  {
    var s := FIRST_DRAWN.(frameFlags := Or(BACKGROUND, COSMETIC));
    assert Step(FIRST_DRAWN, cfg, AddFrameFlag(COSMETIC)) == s;
    assert Determine(s, cfg, AT_5.(now := 10)).refresh == FULL;
  }

  lemma BlockingLater(s: State, cfg: Config, flag: Flags)
    requires s.asyncRefreshRunning && s.busyReads == 0 && s.enabled && s.notification == 1 && s.initialized
    requires s.previousReason == FLAGGED_COSMETIC && s.frameFlags == BACKGROUND && s.refresh == UNSPECIFIED
    requires s.fastRefreshCount == 0 < cfg.limitFastRefresh && s.currentConfig == FULL && s.lastDrawMsec == 10
    requires flag == Flags(false, false, false, false, true, false)
    ensures var t := Step(Step(Step(s, cfg, RunThread), cfg, AddFrameFlag(flag)), cfg, Display(AT_5.(now := 20)));
            InFlight(t.trace) && !t.asyncRefreshRunning
  {
    var u := Step(Step(s, cfg, RunThread), cfg, AddFrameFlag(flag));
    assert u.frameFlags == LONE_BLOCKING && !u.asyncRefreshRunning;
    assert Requested(u, Display(AT_5.(now := 20))) == u;
    var d := Determine(u, cfg, AT_5.(now := 20));
    assert d.refresh == UNSPECIFIED && d.currentConfig == FULL;
  }

  lemma ThreadEndsAtOnce(s: State, cfg: Config)
    requires s.asyncRefreshRunning && s.busyReads == 0 && s.enabled && s.notification == 1
    ensures Step(s, cfg, RunThread).trace == s.trace + [EndAsyncFull]
  {
  }

  lemma RunOfFour(s: State, cfg: Config, a: Op, b: Op, c: Op, d: Op)
    ensures Run(s, cfg, [a, b, c, d]) == Step(Step(Step(Step(s, cfg, a), cfg, b), cfg, c), cfg, d)
  {
    hide Step;
    assert [a, b, c, d][..3] == [a, b, c] && [a, b, c][..2] == [a, b] && [a, b][..1] == [a] && [a][..0] == [];
    assert Run(s, cfg, [a]) == Step(s, cfg, a);
    assert Run(s, cfg, [a, b]) == Step(Step(s, cfg, a), cfg, b);
    assert Run(s, cfg, [a, b, c]) == Step(Step(Step(s, cfg, a), cfg, b), cfg, c);
  }

  /** A refresh in flight is ended by the worker thread alone, as soon as the busy line has gone idle. */
  lemma {:induction false} ThreadEndsRefresh(s: State, cfg: Config)
    requires s.asyncRefreshRunning && s.enabled && s.notification == DUE_POLL_ASYNCREFRESH
    ensures var t := Run(s, cfg, seq(s.busyReads + 1, _ => RunThread));
            !t.asyncRefreshRunning && t.trace == s.trace + [EndAsyncFull]
    decreases s.busyReads
  {
    var n := s.busyReads + 1;
    var ops := seq(n, _ => RunThread);
    var t := Step(s, cfg, RunThread);
    if s.busyReads > 0 {
      ThreadEndsRefresh(t, cfg);
      RunFirst(s, cfg, RunThread, seq(n - 1, _ => RunThread));
      assert [RunThread] + seq(n - 1, _ => RunThread) == ops;
    } else {
      assert ops[..0] == [];
    }
  }

  lemma {:induction false} RunFirst(s: State, cfg: Config, op: Op, rest: seq<Op>)
    ensures Run(s, cfg, [op] + rest) == Run(Step(s, cfg, op), cfg, rest)
  {
    hide Step;
    if rest == [] {
      assert ([op] + rest)[..0] == [];
    } else {
      RunFirst(s, cfg, op, rest[..|rest| - 1]);
      assert ([op] + rest)[..|rest|] == [op] + rest[..|rest| - 1];
    }
  }

  /** A harmful update shows: some continuation of the run ends a refresh that never began, or draws over one that was
      never ended. */
  lemma HarmShows(s: State, cfg: Config, env: Input) returns (rest: seq<Op>)
    requires Sound(s) && !HarmlessUpdate(s, cfg, env)
    ensures !WellBracketed(Run(Updated(s, cfg, env), cfg, rest).trace)
  {
    hide WellBracketed, Updated, Mode, AwayEarly, WantsFull, WantsFast, WantsSkip, WantsNothing, Asking, Before, Run;
    UpdateIs(s, cfg, env);
    ModeIff(s, cfg, env);
    BusyIsAway(s, cfg, env);
    BeforeSound(s);
    AddedIs(s, cfg, env);
    var before, v := s.trace + Before(s), Updated(s, cfg, env);
    Extend(before, EndAsyncFull);
    Extend(before, Draw(FULL));
    RunOfNone(v, cfg);
    if Mode(s, cfg, env) == FULL {
      if s.frameFlags.blocking {
        rest := [];
      } else {
        rest := seq(v.busyReads + 1, _ => RunThread);
        ThreadEndsRefresh(v, cfg);
      }
    } else {
      var later := Input((env.now + 1) % TWO32, false, false, 0);
      rest := [AddFrameFlag(DEMAND_FAST), Display(later)];
      UnendedShows(v, cfg, later);
    }
  }

  lemma UnendedShows(v: State, cfg: Config, later: Input)
    requires v.refresh == UNSPECIFIED && v.initialized && !v.asyncRefreshRunning && InFlight(v.trace)
    requires Draws(v, later.now) && v.frameFlags.background
    ensures !WellBracketed(Run(v, cfg, [AddFrameFlag(DEMAND_FAST), Display(later)]).trace)
  {
    hide WellBracketed, Updated, Run;
    RunOfTwo(v, cfg, AddFrameFlag(DEMAND_FAST), Display(later));
    var w := Requested(Step(v, cfg, AddFrameFlag(DEMAND_FAST)), Display(later));
    DemandDraws(w, cfg, later);
    DrawnOver(v.trace, Updated(w, cfg, later).trace);
  }

  lemma DrawnOver(before: seq<Event>, after: seq<Event>)
    requires InFlight(before) && |before| < |after| && after[..|before|] == before && after[|before|] != EndAsyncFull
    ensures !WellBracketed(after)
  {
    assert after[|before| - 1] == after[..|before|][|before| - 1];
  }

  /** A frame that demands FAST and finds no refresh running is drawn at once. */
  lemma DemandDraws(s: State, cfg: Config, env: Input)
    requires s.refresh == UNSPECIFIED && s.initialized && !s.asyncRefreshRunning && s.frameFlags.demandFast
    requires Draws(s, env.now) && s.frameFlags.background
    ensures var t := Updated(s, cfg, env).trace;
            |t| > |s.trace| && t[..|s.trace|] == s.trace && t[|s.trace|].Draw?
  {
    var d := Determine(s, cfg, env);
    assert d.refresh != SKIPPED && d.trace == s.trace && d.lastDrawMsec == s.lastDrawMsec;
  }

  lemma RunOfNone(s: State, cfg: Config)
    ensures Run(s, cfg, []) == s
  {
  }

  lemma RunOfTwo(s: State, cfg: Config, a: Op, b: Op)
    ensures Run(s, cfg, [a, b]) == Step(Step(s, cfg, a), cfg, b)
  {
    hide Step;
    assert [a, b][..1] == [a] && [a][..0] == [];
    assert Run(s, cfg, [a]) == Step(s, cfg, a);
  }

  // ---------- A request that is turned away comes back

  /** DEMAND_FAST before COSMETIC before RESPONSIVE. */
  function Rank(f: Flags): nat {
    if f.demandFast then 3 else if f.cosmetic then 2 else if f.responsive then 1 else 0
  }

  /** The frame was turned away because the display was busy or it was too soon. */
  predicate TurnedAway(s: State) {
    s.previousRefresh == SKIPPED && s.previousReason != FRAME_MATCHED_PREVIOUS
  }

  /** The strongest request made since the last frame for which a mode was decided. The first frame demands FAST. */
  function Owed(s: State, cfg: Config, ops: seq<Op>): nat
    decreases |ops|, 0
  {
    if ops == [] then 0
    else
      var front, op := ops[..|ops| - 1], ops[|ops| - 1];
      if !IsUpdate(op) then Owed(s, cfg, front)
      else if TurnedAway(Run(s, cfg, ops)) then Asked(s, cfg, front, op)
      else 0
  }

  /** The strongest request an update has to answer: its own flags or what is owed from before. */
  function Asked(s: State, cfg: Config, front: seq<Op>, op: Op): nat
    decreases |front|, 1
  {
    var before := Run(s, cfg, front);
    Max(if before.initialized then Rank(Requested(before, op).frameFlags) else 3, Owed(s, cfg, front))
  }

  lemma PreparedRank(s: State)
    ensures Rank(Prepare(s).frameFlags)
         == Max(if s.initialized then Rank(s.frameFlags) else 3, Rank(Promoted(s.previousReason)))
  {
  }

  lemma NoFlagsRank()
    ensures Rank(NO_FLAGS) == 0
  {
  }

  /** A frame turned away leaves a reason that promotes exactly its strongest request. */
  lemma ScreenedOutReason(s: State, env: Input)
    requires s.refresh == UNSPECIFIED
    ensures var t := ScreenedOut(s, env);
            && t.frameFlags == Prepare(s).frameFlags
            && (t.refresh == SKIPPED ==>
                  t.reason != FRAME_MATCHED_PREVIOUS && Rank(Promoted(t.reason)) == Rank(t.frameFlags))
            && (t.refresh != SKIPPED ==> t.refresh == UNSPECIFIED && t.reason == s.reason)
  {
    hide Prepare, CheckBusy, Blocked, RateLimited, BlockedReason, Rank, Promoted;
    PrepareKeepsRefresh(s);
    CheckBusyLeaves(Prepare(s));
    TurnedAwayReasons(Prepare(s).frameFlags, env.now, Prepare(s).previousRunMs);
  }

  lemma PrepareKeepsRefresh(s: State)
    ensures Prepare(s).refresh == s.refresh && Prepare(s).reason == s.reason
    ensures s.frameFlags.background ==> Prepare(s).frameFlags.background
  {
  }

  lemma TurnedAwayReasons(flags: Flags, now: Uint32, previousRunMs: Uint32)
    ensures BlockedReason(flags) != FRAME_MATCHED_PREVIOUS && Rank(Promoted(BlockedReason(flags))) == Rank(flags)
    ensures var rate := RateLimited(flags, now, previousRunMs);
            rate.Limited? ==> rate.reason != FRAME_MATCHED_PREVIOUS && Rank(Promoted(rate.reason)) == Rank(flags)
  {
  }

  lemma DecidedReason(flags: Flags, count: nat, stale: Reason, cfg: Config, env: Input)
    ensures var d := Decide(flags, count, stale, cfg, env);
            && (d.refresh == SKIPPED ==> d.reason == FRAME_MATCHED_PREVIOUS)
            && (d.refresh != UNSPECIFIED ==> Promoted(d.reason) == NO_FLAGS)
            && (d.refresh == UNSPECIFIED ==> d.reason == stale && Rank(flags) == 0)
  {
  }

  lemma DeterminedReason(s: State, cfg: Config, env: Input)
    requires s.refresh == UNSPECIFIED
    ensures var d := Determine(s, cfg, env);
            && d.frameFlags == Prepare(s).frameFlags
            && (d.refresh == SKIPPED && d.reason != FRAME_MATCHED_PREVIOUS ==>
                  Rank(Promoted(d.reason)) == Rank(d.frameFlags))
            && (d.refresh != UNSPECIFIED && !(d.refresh == SKIPPED && d.reason != FRAME_MATCHED_PREVIOUS)
                ==> Promoted(d.reason) == NO_FLAGS)
            && (d.refresh == UNSPECIFIED ==> d.reason == s.reason && Rank(d.frameFlags) == 0)
  {
    hide ScreenedOut, Decide, Promoted, Rank, Prepare;
    ScreenedOutReason(s, env);
    var t := ScreenedOut(s, env);
    DecidedReason(t.frameFlags, t.fastRefreshCount, t.reason, cfg, env);
  }

  /** What holds between operations of every run, harmless or not. */
  predicate Steady(s: State) {
    s.refresh == UNSPECIFIED && s.reason == s.previousReason && s.frameFlags.background
  }

  lemma StepKeepsSteady(s: State, cfg: Config, op: Op)
    requires Steady(s)
    ensures Steady(Step(s, cfg, op)) && Steady(Requested(s, op))
  {
    hide Updated, Promoted, Prepare, CheckBusy;
    if IsUpdate(op) {
      UpdatedSteady(Requested(s, op), cfg, op.env);
    }
  }

  lemma UpdatedSteady(s: State, cfg: Config, env: Input)
    ensures Steady(Updated(s, cfg, env))
  {
    hide Determine;
  }

  lemma {:induction false} RunKeepsSteady(cfg: Config, ops: seq<Op>)
    ensures Steady(Run(INITIAL, cfg, ops))
  {
    hide Step;
    if ops != [] {
      RunKeepsSteady(cfg, ops[..|ops| - 1]);
      StepKeepsSteady(Run(INITIAL, cfg, ops[..|ops| - 1]), cfg, ops[|ops| - 1]);
    }
  }

  /** What one update remembers: the strongest request it saw, if the frame was turned away. An undecided frame had no
      request to remember. */
  lemma UpdateRemembers(s: State, cfg: Config, env: Input)
    requires Steady(s)
    ensures var t := Updated(s, cfg, env);
            && Rank(t.previousFrameFlags)
               == Max(if s.initialized then Rank(s.frameFlags) else 3, Rank(Promoted(s.previousReason)))
            && Rank(Promoted(t.previousReason)) == (if TurnedAway(t) then Rank(t.previousFrameFlags) else 0)
  {
    hide Determine, Updated, Promoted, Prepare, Rank;
    assert Rank(NO_FLAGS) == 0 by {
      NoFlagsRank();
    }
    PreparedRank(s);
    DeterminedReason(s, cfg, env);
    UpdatedStores(s, cfg, env);
  }

  lemma UpdatedStores(s: State, cfg: Config, env: Input)
    ensures var d, t := Determine(s, cfg, env), Updated(s, cfg, env);
            t.previousFrameFlags == d.frameFlags && t.previousReason == d.reason && t.previousRefresh == d.refresh
            && t.fastRefreshCount == d.fastRefreshCount && t.initialized == d.initialized
  {
    hide Determine, Ended, Drawn;
    var d := Determine(s, cfg, env);
    EndedKeeps(Stored(Drawn(d, env)));
    DrawnKeeps(d, env);
  }

  lemma EndedKeeps(s: State)
    ensures var t := Ended(s);
            t.previousFrameFlags == s.previousFrameFlags && t.previousReason == s.previousReason
            && t.previousRefresh == s.previousRefresh && t.fastRefreshCount == s.fastRefreshCount
            && t.initialized == s.initialized
  {
  }

  lemma DrawnKeeps(s: State, env: Input)
    ensures var t := Drawn(s, env);
            t.frameFlags == s.frameFlags && t.reason == s.reason && t.refresh == s.refresh
            && t.fastRefreshCount == s.fastRefreshCount && t.initialized == s.initialized
  {
  }

  lemma OtherStepsRemember(s: State, cfg: Config, op: Op)
    requires !IsUpdate(op)
    ensures var t := Step(s, cfg, op);
            && t.previousReason == s.previousReason && t.previousRefresh == s.previousRefresh
            && t.previousFrameFlags == s.previousFrameFlags && t.fastRefreshCount == s.fastRefreshCount
  {
  }

  /** What is remembered is exactly what is owed: the strongest request turned away since a mode was last decided. So every
      later update works on flags at least that strong, until a mode is decided. */
  lemma {:induction false} OwedIsRemembered(cfg: Config, ops: seq<Op>)
    ensures Rank(Promoted(Run(INITIAL, cfg, ops).previousReason)) == Owed(INITIAL, cfg, ops)
    ensures ops != [] && IsUpdate(ops[|ops| - 1]) ==>
              Rank(Run(INITIAL, cfg, ops).previousFrameFlags) == Asked(INITIAL, cfg, ops[..|ops| - 1], ops[|ops| - 1])
  {
    assert Rank(Promoted(INITIAL.previousReason)) == 0;
    hide Updated, Promoted, Rank;
    if ops != [] {
      var front, op := ops[..|ops| - 1], ops[|ops| - 1];
      OwedIsRemembered(cfg, front);
      RunKeepsSteady(cfg, front);
      var before := Run(INITIAL, cfg, front);
      if IsUpdate(op) {
        StepKeepsSteady(before, cfg, op);
        UpdateRemembers(Requested(before, op), cfg, op.env);
      } else {
        OtherStepsRemember(before, cfg, op);
      }
    }
  }

  // ---------- The limit on consecutive fast refreshes

  /** Fast refreshes since the last full one that the limit does not govern. */
  function Forced(s: State, cfg: Config, ops: seq<Op>): nat {
    if ops == [] then 0
    else
      var front, op := ops[..|ops| - 1], ops[|ops| - 1];
      var after := Run(s, cfg, ops);
      if !IsUpdate(op) then Forced(s, cfg, front)
      else if after.previousRefresh == FULL then 0
      else if after.previousRefresh == FAST
              && (after.previousFrameFlags.demandFast || after.previousFrameFlags.unlimitedFast) then
        Forced(s, cfg, front) + 1
      else Forced(s, cfg, front)
  }

  lemma DecideCounts(flags: Flags, count: nat, stale: Reason, cfg: Config, env: Input)
    ensures Decide(flags, count, stale, cfg, env).refresh == FAST ==>
              flags.demandFast || flags.unlimitedFast || count < cfg.limitFastRefresh
  {
  }

  lemma ScreenedOutCounts(s: State, env: Input)
    requires s.refresh == UNSPECIFIED
    ensures ScreenedOut(s, env).fastRefreshCount == s.fastRefreshCount
    ensures ScreenedOut(s, env).refresh == SKIPPED || ScreenedOut(s, env).refresh == UNSPECIFIED
  {
  }

  /** One update: back to zero with a full refresh, otherwise at most one more, and below the limit unless forced. */
  lemma UpdateCounts(s: State, cfg: Config, env: Input)
    requires s.refresh == UNSPECIFIED
    ensures var t := Updated(s, cfg, env);
            && (t.previousRefresh == FULL ==> t.fastRefreshCount == 0)
            && (t.previousRefresh != FAST && t.previousRefresh != FULL ==> t.fastRefreshCount == s.fastRefreshCount)
            && (t.previousRefresh == FAST ==> t.fastRefreshCount <= s.fastRefreshCount + 1)
            && (t.previousRefresh == FAST && !t.previousFrameFlags.demandFast && !t.previousFrameFlags.unlimitedFast ==>
                  t.fastRefreshCount <= cfg.limitFastRefresh)
  {
    hide ScreenedOut, Decide, Updated;
    UpdatedStores(s, cfg, env);
    ScreenedOutCounts(s, env);
    var t := ScreenedOut(s, env);
    DecideCounts(t.frameFlags, t.fastRefreshCount, t.reason, cfg, env);
  }

  /** The count of fast refreshes never exceeds the limit plus those that were forced since the last full refresh. */
  lemma {:induction false} FastRefreshLimit(cfg: Config, ops: seq<Op>)
    ensures Run(INITIAL, cfg, ops).fastRefreshCount <= cfg.limitFastRefresh + Forced(INITIAL, cfg, ops)
  {
    hide Updated;
    if ops != [] {
      var front, op := ops[..|ops| - 1], ops[|ops| - 1];
      FastRefreshLimit(cfg, front);
      RunKeepsSteady(cfg, front);
      var before := Run(INITIAL, cfg, front);
      if IsUpdate(op) {
        UpdateCounts(Requested(before, op), cfg, op.env);
      } else {
        OtherStepsRemember(before, cfg, op);
      }
    }
  }
}
