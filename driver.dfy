/**
 * One polling cycle of the bridge: the body of the loop in `main`
 * (src/main.rs). A cycle takes the fetched session list (or the failure to
 * fetch it), selects the user's session, and then shows, holds, rewinds or
 * clears the displayed activity, updating the per-session state and the
 * instant of the last ordinary presence update.
 *
 * `Cycle` is the specification, a function of the state snapshot; `Step`
 * runs the cycle on a `State` object and is proved to compute `Cycle`. The
 * lemmas after them state the behaviour of one cycle and of consecutive ones.
 *
 * Instants are whole seconds on the monotonic clock; `now` is the instant of
 * the cycle. The HTTP request, the presence transport, logging and the sleep
 * between cycles are outside the model.
 */
module Driver {
  import opened Wrappers
  import opened Sessions
  import opened BridgeState
  import opened Jellyfin

  /** The configuration the loop reads. */
  datatype Config = Config(
    user: string,
    updateIntervalSecs: nat,
    rewindSecs: I64,
    maxGapSecs: nat)

  /** The values used when the environment does not set them. */
  function DefaultConfig(user: string): Config {
    Config(user, 5, 40, 40)
  }

  /** Why the display is cleared; each reason is a distinct branch of the loop. */
  datatype ClearReason = Paused | NoCachedItem | NoSession | GapExpired | ItemFinished

  /** What the cycle sends: `set_activity(item, elapsedSecs, runtimeSecs)` or `clear_discord`. */
  datatype Action =
    | Emit(item: NowPlayingItem, elapsedSecs: int, runtimeSecs: I64)
    | Clear(reason: ClearReason)

  /** An action that waits for the update interval: every emit, and every clear but the two that end a gap. */
  predicate Ordinary(a: Action) {
    a.Emit? || a.reason == Paused || a.reason == NoCachedItem || a.reason == NoSession
  }

  /** The state, the instant of the last presence update and the actions after one cycle. */
  datatype Outcome = Outcome(state: Snapshot, lastUpdate: int, actions: seq<Action>)

  /** `Instant::elapsed().as_secs()`: whole seconds since `since`, and 0 for an instant not yet reached. */
  function ElapsedSecs(since: int, now: int): (r: nat)
    ensures since <= now ==> r == now - since
    ensures now < since ==> r == 0
  {
    if since <= now then now - since else 0
  }

  /** Whether the update interval has passed since the last presence update. */
  predicate Due(lastUpdate: int, now: int, cfg: Config) {
    ElapsedSecs(lastUpdate, now) >= cfg.updateIntervalSecs
  }

  /** `i64::saturating_sub`. */
  function SaturatingSub(a: I64, b: I64): (r: I64)
    ensures I64_MIN <= a - b <= I64_MAX ==> r == a - b
    ensures a - b < I64_MIN ==> r == I64_MIN
    ensures I64_MAX < a - b ==> r == I64_MAX
  {
    var d := a - b;
    if d < I64_MIN then I64_MIN else if d > I64_MAX then I64_MAX else d
  }

  // ---------------------------------------------------------------------------
  // The specification of one cycle, branch by branch.
  // ---------------------------------------------------------------------------

  /** The chosen session for this poll, from the cache as it stands before the poll. */
  function Chosen(s: Snapshot, sessions: seq<Session>, cfg: Config): Option<Pick> {
    Select(sessions, cfg.user, s.lastItem, s.lastPos).best
  }

  /** Elapsed seconds of the last real position cached for `sid` (0 when none). */
  function LastElapsed(s: Snapshot, sid: string): I64 {
    TicksToSecs(Get(s.lastPos, sid).GetOr(0))
  }

  /** Runtime in seconds of the item cached for `sid`. */
  function CachedRuntime(s: Snapshot, sid: string): I64
    requires sid in s.lastItem
  {
    TicksToSecs(RuntimeTicks(s.lastItem[sid]))
  }

  /** The start of the current gap of `sid`: the recorded one, or `now` for a new gap. */
  function GapSince(s: Snapshot, sid: string, now: int): int {
    if sid in s.nullSince then s.nullSince[sid] else now
  }

  /** The base a Case-3 rewind uses: the recorded one while the rewind flag is set, else a fresh one. */
  function RewindBase(s: Snapshot, sid: string, lastElapsed: I64, cfg: Config): I64 {
    var rewound := SaturatingSub(lastElapsed, cfg.rewindSecs);
    var done := Get(s.rewindDone, sid).GetOr(false);
    if done then Get(s.nullBase, sid).GetOr(rewound) else rewound
  }

  /** A clear that waits for the update interval; it forgets the active session. */
  function OrdinaryClear(s: Snapshot, now: int, lastUpdate: int, cfg: Config, reason: ClearReason): Outcome {
    if Due(lastUpdate, now, cfg) then Outcome(s.(active := None), now, [Clear(reason)])
    else Outcome(s, lastUpdate, [])
  }

  /** The chosen session reports a real item: its gap ends, and the item is shown or, at position 0, cleared. */
  function RealItem(s: Snapshot, p: Pick, now: int, lastUpdate: int, cfg: Config): Outcome {
    var sid := p.sid;
    var s1 := s.(nullSince := s.nullSince - {sid}, nullBase := s.nullBase - {sid},
                 rewindDone := s.rewindDone - {sid});
    var runtimeSecs := TicksToSecs(match p.item case Some(it) => RuntimeTicks(it) case None => 0);
    var elapsedSecs := TicksToSecs(p.pos);
    if !Due(lastUpdate, now, cfg) then Outcome(s1, lastUpdate, [])
    else if elapsedSecs == 0 then Outcome(s1.(active := None), now, [Clear(Paused)])
    else match p.item
      case Some(item) => Outcome(s1.(active := Some(sid)), now, [Emit(item, elapsedSecs, runtimeSecs)])
      case None => Outcome(s1, now, [])
  }

  /** Case 3: the rewind base is fixed once per gap and the display advances from it with the gap. */
  function Rewind(s: Snapshot, sid: string, item: NowPlayingItem, lastElapsed: I64, rt: I64,
                  gap: nat, now: int, lastUpdate: int, cfg: Config): Outcome {
    var base := RewindBase(s, sid, lastElapsed, cfg);
    var s1 := s.(nullBase := s.nullBase[sid := base], rewindDone := s.rewindDone[sid := true]);
    if Due(lastUpdate, now, cfg) then Outcome(s1.(active := Some(sid)), now, [Emit(item, base + gap, rt)])
    else Outcome(s1, lastUpdate, [])
  }

  /** Cases 1 and 2 hold the display as it is; Case 3 rewinds. */
  function Held(s: Snapshot, sid: string, item: NowPlayingItem, lastElapsed: I64, rt: I64,
                gap: nat, now: int, lastUpdate: int, cfg: Config): Outcome {
    if rt < cfg.rewindSecs then Outcome(s, lastUpdate, [])                  // Case 1: short item
    else if lastElapsed < cfg.rewindSecs then Outcome(s, lastUpdate, [])    // Case 2: early stop
    else Rewind(s, sid, item, lastElapsed, rt, gap, now, lastUpdate, cfg)   // Case 3
  }

  /**
   * After the case logic: a gap longer than the maximum clears at once and
   * restarts the update interval; otherwise an item already played to its end
   * clears at once and leaves the update instant alone. Both forget `sid`.
   */
  function CloseGap(o: Outcome, sid: string, gap: nat, lastElapsed: I64, rt: I64, now: int, cfg: Config): Outcome {
    if gap > cfg.maxGapSecs then
      Outcome(Forget(o.state, sid).(active := None), now, o.actions + [Clear(GapExpired)])
    else if lastElapsed >= rt && rt > 0 then
      Outcome(Forget(o.state, sid).(active := None), o.lastUpdate, o.actions + [Clear(ItemFinished)])
    else o
  }

  /** The chosen session reports no item but one is cached for it: the gap logic. */
  function Gap(s: Snapshot, sid: string, now: int, lastUpdate: int, cfg: Config): Outcome
    requires sid in s.lastItem
  {
    var lastElapsed := LastElapsed(s, sid);
    var rt := CachedRuntime(s, sid);
    var since := GapSince(s, sid, now);
    var gap := ElapsedSecs(since, now);
    var held := Held(s.(nullSince := s.nullSince[sid := since]), sid, s.lastItem[sid],
                     lastElapsed, rt, gap, now, lastUpdate, cfg);
    CloseGap(held, sid, gap, lastElapsed, rt, now, cfg)
  }

  /** One cycle: `fetched` is the parsed session list, or `None` when the request or its parsing failed. */
  function Cycle(s: Snapshot, fetched: Option<seq<Session>>, now: int, lastUpdate: int, cfg: Config): Outcome {
    match fetched
    case None => Outcome(s, lastUpdate, [])
    case Some(sessions) =>
      var sel := Select(sessions, cfg.user, s.lastItem, s.lastPos);
      var s1 := s.(lastItem := sel.items, lastPos := sel.positions);
      match sel.best
      case None => OrdinaryClear(s1, now, lastUpdate, cfg, NoSession)
      case Some(p) =>
        if p.hasReal then RealItem(s1, p, now, lastUpdate, cfg)
        else if p.sid in s1.lastItem then Gap(s1, p.sid, now, lastUpdate, cfg)
        else OrdinaryClear(s1, now, lastUpdate, cfg, NoCachedItem)
  }

  // ---------------------------------------------------------------------------
  // The cycle on the mutable state.
  // ---------------------------------------------------------------------------

  /**
   * One pass of the loop in `main`: returns the new instant of the last
   * presence update and the presence commands sent, in order.
   */
  method Step(state: State, fetched: Option<seq<Session>>, now: int, lastUpdate: int, cfg: Config)
    returns (newLastUpdate: int, actions: seq<Action>)
    modifies state
    ensures var o := Cycle(old(state.Model()), fetched, now, lastUpdate, cfg);
            state.Model() == o.state && newLastUpdate == o.lastUpdate && actions == o.actions
  {
    if fetched.None? {
      newLastUpdate, actions := lastUpdate, [];
      return;
    }
    var picked := PickSessionForUser(state, fetched.value, cfg.user);
    match picked {
      case None =>
        newLastUpdate, actions := ClearIfDue(state, now, lastUpdate, cfg, NoSession);
      case Some(p) =>
        if p.hasReal {
          newLastUpdate, actions := ShowRealItem(state, p, now, lastUpdate, cfg);
        } else if p.sid in state.lastItemBySession {
          newLastUpdate, actions := FollowGap(state, p.sid, now, lastUpdate, cfg);
        } else {
          newLastUpdate, actions := ClearIfDue(state, now, lastUpdate, cfg, NoCachedItem);
        }
    }
  }

  /** A clear that waits for the update interval. */
  method ClearIfDue(state: State, now: int, lastUpdate: int, cfg: Config, reason: ClearReason)
    returns (newLastUpdate: int, actions: seq<Action>)
    modifies state
    ensures var o := OrdinaryClear(old(state.Model()), now, lastUpdate, cfg, reason);
            state.Model() == o.state && newLastUpdate == o.lastUpdate && actions == o.actions
  {
    newLastUpdate, actions := lastUpdate, [];
    if ElapsedSecs(lastUpdate, now) >= cfg.updateIntervalSecs {
      actions := [Clear(reason)];
      state.activeSessionId := None;
      newLastUpdate := now;
    }
  }

  /** The chosen session reports a real item. */
  method ShowRealItem(state: State, p: Pick, now: int, lastUpdate: int, cfg: Config)
    returns (newLastUpdate: int, actions: seq<Action>)
    modifies state
    ensures var o := RealItem(old(state.Model()), p, now, lastUpdate, cfg);
            state.Model() == o.state && newLastUpdate == o.lastUpdate && actions == o.actions
  {
    newLastUpdate, actions := lastUpdate, [];
    var sid := p.sid;
    state.nullSinceBySession := state.nullSinceBySession - {sid};
    state.nullBaseElapsedBySession := state.nullBaseElapsedBySession - {sid};
    state.rewindDoneBySession := state.rewindDoneBySession - {sid};
    var runtimeSecs := TicksToSecs(match p.item case Some(it) => RuntimeTicks(it) case None => 0);
    var elapsedSecs := TicksToSecs(p.pos);
    if ElapsedSecs(lastUpdate, now) >= cfg.updateIntervalSecs {
      if elapsedSecs == 0 {
        actions := [Clear(Paused)];
        state.activeSessionId := None;
      } else if p.item.Some? {
        actions := [Emit(p.item.value, elapsedSecs, runtimeSecs)];
        state.activeSessionId := Some(sid);
      }
      newLastUpdate := now;
    }
  }

  /** The chosen session reports no item but one is cached for it. */
  method FollowGap(state: State, sid: string, now: int, lastUpdate: int, cfg: Config)
    returns (newLastUpdate: int, actions: seq<Action>)
    requires sid in state.lastItemBySession
    modifies state
    ensures var o := Gap(old(state.Model()), sid, now, lastUpdate, cfg);
            state.Model() == o.state && newLastUpdate == o.lastUpdate && actions == o.actions
  {
    var lastItem := state.lastItemBySession[sid];
    var lastTicks := Get(state.lastPosBySession, sid).GetOr(0);
    var lastElapsed := TicksToSecs(lastTicks);
    var rtSecs := TicksToSecs(RuntimeTicks(lastItem));
    if sid !in state.nullSinceBySession {
      state.nullSinceBySession := state.nullSinceBySession[sid := now];
    }
    var since := state.nullSinceBySession[sid];
    var gapSecs := ElapsedSecs(since, now);
    assert state.Model() == old(state.Model()).(nullSince := old(state.nullSinceBySession)[sid := since]);
    newLastUpdate, actions := HoldOrRewind(state, sid, lastItem, lastElapsed, rtSecs, gapSecs, now, lastUpdate, cfg);
    newLastUpdate, actions := EndGap(state, sid, gapSecs, lastElapsed, rtSecs, now, newLastUpdate, actions, cfg);
  }

  /** The three cases of a gap. */
  method HoldOrRewind(state: State, sid: string, item: NowPlayingItem, lastElapsed: I64, rt: I64,
                      gap: nat, now: int, lastUpdate: int, cfg: Config)
    returns (newLastUpdate: int, actions: seq<Action>)
    modifies state
    ensures var o := Held(old(state.Model()), sid, item, lastElapsed, rt, gap, now, lastUpdate, cfg);
            state.Model() == o.state && newLastUpdate == o.lastUpdate && actions == o.actions
  {
    newLastUpdate, actions := lastUpdate, [];
    if rt < cfg.rewindSecs {
      // Case 1: short item; hold until the gap expires.
    } else if lastElapsed < cfg.rewindSecs {
      // Case 2: stopped early; hold until the gap expires.
    } else {
      // Case 3: long item played past the threshold.
      newLastUpdate, actions := ApplyRewind(state, sid, item, lastElapsed, rt, gap, now, lastUpdate, cfg);
    }
  }

  /** The expiry and completion clears that end a gap. */
  method EndGap(state: State, sid: string, gap: nat, lastElapsed: I64, rt: I64, now: int,
                lastUpdate: int, sent: seq<Action>, cfg: Config)
    returns (newLastUpdate: int, actions: seq<Action>)
    modifies state
    ensures var o := CloseGap(Outcome(old(state.Model()), lastUpdate, sent), sid, gap, lastElapsed, rt, now, cfg);
            state.Model() == o.state && newLastUpdate == o.lastUpdate && actions == o.actions
  {
    newLastUpdate, actions := lastUpdate, sent;
    if gap > cfg.maxGapSecs {
      actions := actions + [Clear(GapExpired)];
      state.activeSessionId := None;
      ForgetSession(state, sid);
      newLastUpdate := now;
    } else if lastElapsed >= rt && rt > 0 {
      actions := actions + [Clear(ItemFinished)];
      state.activeSessionId := None;
      ForgetSession(state, sid);
    }
  }

  /** Case 3: rewind once per gap, then show the display advancing with the gap. */
  method ApplyRewind(state: State, sid: string, item: NowPlayingItem, lastElapsed: I64, rt: I64,
                     gap: nat, now: int, lastUpdate: int, cfg: Config)
    returns (newLastUpdate: int, actions: seq<Action>)
    modifies state
    ensures var o := Rewind(old(state.Model()), sid, item, lastElapsed, rt, gap, now, lastUpdate, cfg);
            state.Model() == o.state && newLastUpdate == o.lastUpdate && actions == o.actions
  {
    newLastUpdate, actions := lastUpdate, [];
    var rewound := SaturatingSub(lastElapsed, cfg.rewindSecs);
    // The entries are created if absent, then written through.
    var base := Get(state.nullBaseElapsedBySession, sid).GetOr(rewound);
    var done := Get(state.rewindDoneBySession, sid).GetOr(false);
    if !done {
      base := rewound;
      done := true;
    }
    state.nullBaseElapsedBySession := state.nullBaseElapsedBySession[sid := base];
    state.rewindDoneBySession := state.rewindDoneBySession[sid := done];
    var displayElapsed := base + gap;
    if ElapsedSecs(lastUpdate, now) >= cfg.updateIntervalSecs {
      actions := [Emit(item, displayElapsed, rt)];
      state.activeSessionId := Some(sid);
      newLastUpdate := now;
    }
  }

  /** Removes `sid` from the five per-session maps. */
  method ForgetSession(state: State, sid: string)
    modifies state
    ensures state.Model() == Forget(old(state.Model()), sid)
  {
    state.nullSinceBySession := state.nullSinceBySession - {sid};
    state.nullBaseElapsedBySession := state.nullBaseElapsedBySession - {sid};
    state.rewindDoneBySession := state.rewindDoneBySession - {sid};
    state.lastItemBySession := state.lastItemBySession - {sid};
    state.lastPosBySession := state.lastPosBySession - {sid};
  }
}
