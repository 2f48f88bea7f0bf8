/**
 * What one polling cycle (`Driver.Cycle`, the loop body in src/main.rs) does,
 * branch by branch, and what holds across cycles: the rate limit, the gap
 * bookkeeping, the state invariant, and the displayed elapsed time during a
 * gap.
 */
module CycleProperties {
  import opened Wrappers
  import opened Sessions
  import opened BridgeState
  import opened Jellyfin
  import opened Driver

  // ---------------------------------------------------------------------------
  // Dispatch
  // ---------------------------------------------------------------------------

  /** A failed request or an unparsable answer changes nothing and sends nothing. */
  lemma CycleFetchFailed(s: Snapshot, now: int, lastUpdate: int, cfg: Config)
    ensures Cycle(s, None, now, lastUpdate, cfg) == Outcome(s, lastUpdate, [])
  {
  }

  /** No session of the user: a clear, once the update interval has passed. */
  lemma CycleNoSession(s: Snapshot, sessions: seq<Session>, now: int, lastUpdate: int, cfg: Config)
    requires forall k :: 0 <= k < |sessions| ==> !Matches(sessions[k], cfg.user)
    ensures var o := Cycle(s, Some(sessions), now, lastUpdate, cfg);
            && o.state == s.(active := o.state.active)
            && (Due(lastUpdate, now, cfg) ==> o.actions == [Clear(NoSession)] && o.state.active == None
                                              && o.lastUpdate == now)
            && (!Due(lastUpdate, now, cfg) ==> o == Outcome(s, lastUpdate, []))
  {
    SelectNoneIff(sessions, cfg.user, s.lastItem, s.lastPos);
    SelectStale(sessions, cfg.user, s.lastItem, s.lastPos);
  }

  /**
   * When the chosen session is stale, the poll left the cache as it was, and
   * the cycle is the gap logic on the cached item, or a rate-limited clear
   * when nothing is cached for the session.
   */
  lemma StaleCycle(s: Snapshot, sessions: seq<Session>, now: int, lastUpdate: int, cfg: Config)
    requires Chosen(s, sessions, cfg).Some? && !Chosen(s, sessions, cfg).value.hasReal
    ensures var sid := Chosen(s, sessions, cfg).value.sid;
            && Chosen(s, sessions, cfg).value.item == Get(s.lastItem, sid)
            && Cycle(s, Some(sessions), now, lastUpdate, cfg)
               == if sid in s.lastItem then Gap(s, sid, now, lastUpdate, cfg)
                  else OrdinaryClear(s, now, lastUpdate, cfg, NoCachedItem)
  {
    var _ := SelectWinner(sessions, cfg.user, s.lastItem, s.lastPos);
    SelectStale(sessions, cfg.user, s.lastItem, s.lastPos);
    var sel := Select(sessions, cfg.user, s.lastItem, s.lastPos);
    assert s.(lastItem := sel.items, lastPos := sel.positions) == s;
  }

  // ---------------------------------------------------------------------------
  // A real item
  // ---------------------------------------------------------------------------

  /**
   * A real item ends any gap of the chosen session. Once the update interval
   * has passed, a position under one second clears the display and forgets the
   * active session; any other position shows the item with its elapsed and
   * runtime seconds and makes the session active; either way the update instant
   * becomes `now`. Before that, nothing is sent and the instant is kept. The
   * cache stays as the poll left it, and no other session's entry changes.
   */
  lemma CycleRealItem(s: Snapshot, sessions: seq<Session>, now: int, lastUpdate: int, cfg: Config)
    requires Chosen(s, sessions, cfg).Some? && Chosen(s, sessions, cfg).value.hasReal
    ensures var p := Chosen(s, sessions, cfg).value;
            var o := Cycle(s, Some(sessions), now, lastUpdate, cfg);
            var sel := Select(sessions, cfg.user, s.lastItem, s.lastPos);
            && p.item.Some?
            && o.state == s.(lastItem := sel.items, lastPos := sel.positions,
                             nullSince := s.nullSince - {p.sid}, nullBase := s.nullBase - {p.sid},
                             rewindDone := s.rewindDone - {p.sid}, active := o.state.active)
            && p.sid !in o.state.nullSince && p.sid !in o.state.nullBase && p.sid !in o.state.rewindDone
            && (!Due(lastUpdate, now, cfg) ==>
                  o.actions == [] && o.lastUpdate == lastUpdate && o.state.active == s.active)
            && (Due(lastUpdate, now, cfg) && TicksToSecs(p.pos) == 0 ==>
                  o.actions == [Clear(Paused)] && o.state.active == None && o.lastUpdate == now)
            && (Due(lastUpdate, now, cfg) && TicksToSecs(p.pos) != 0 ==>
                  && o.actions == [Emit(p.item.value, TicksToSecs(p.pos), TicksToSecs(RuntimeTicks(p.item.value)))]
                  && o.state.active == Some(p.sid) && o.lastUpdate == now)
  {
    var _ := SelectWinner(sessions, cfg.user, s.lastItem, s.lastPos);
  }

  /**
   * The cache after a cycle is the cache the poll left, except that a stale
   * chosen session whose gap ends with an expiry or completion clear is
   * dropped from both maps.
   */
  lemma CycleCache(s: Snapshot, sessions: seq<Session>, now: int, lastUpdate: int, cfg: Config)
    ensures var sel := Select(sessions, cfg.user, s.lastItem, s.lastPos);
            var o := Cycle(s, Some(sessions), now, lastUpdate, cfg);
            || (o.state.lastItem == sel.items && o.state.lastPos == sel.positions)
            || (&& sel.best.Some? && !sel.best.value.hasReal
                && |o.actions| >= 1 && o.actions[|o.actions| - 1] in [Clear(GapExpired), Clear(ItemFinished)]
                && o.state.lastItem == sel.items - {sel.best.value.sid}
                && o.state.lastPos == sel.positions - {sel.best.value.sid})
  {
    var sel := Select(sessions, cfg.user, s.lastItem, s.lastPos);
    var s1 := s.(lastItem := sel.items, lastPos := sel.positions);
    if sel.best.Some? && !sel.best.value.hasReal && sel.best.value.sid in s1.lastItem {
      GapCache(s1, sel.best.value.sid, now, lastUpdate, cfg);
    }
  }

  /** The gap logic keeps the cache, or drops `sid` from it when the gap ends. */
  lemma GapCache(s: Snapshot, sid: string, now: int, lastUpdate: int, cfg: Config)
    requires sid in s.lastItem
    ensures var o := Gap(s, sid, now, lastUpdate, cfg);
            || (o.state.lastItem == s.lastItem && o.state.lastPos == s.lastPos)
            || (&& |o.actions| >= 1 && o.actions[|o.actions| - 1] in [Clear(GapExpired), Clear(ItemFinished)]
                && o.state.lastItem == s.lastItem - {sid} && o.state.lastPos == s.lastPos - {sid})
  {
    if ElapsedSecs(GapSince(s, sid, now), now) > cfg.maxGapSecs {
      GapExpires(s, sid, now, lastUpdate, cfg);
    } else if LastElapsed(s, sid) >= CachedRuntime(s, sid) > 0 {
      GapCompletes(s, sid, now, lastUpdate, cfg);
    } else {
      GapContinues(s, sid, now, lastUpdate, cfg);
    }
  }

  /**
   * Cache population: a real observation of a session is cached with its item
   * and position after its cycle, and stays cached through a later cycle whose
   * poll does not report that session.
   */
  lemma CacheOutlivesAbsence(s: Snapshot, sessions1: seq<Session>, sessions2: seq<Session>, j: nat,
                             t1: int, t2: int, lastUpdate1: int, lastUpdate2: int, cfg: Config)
    requires j < |sessions1| && Observes(sessions1[j], cfg.user)
    requires forall k :: j < k < |sessions1| && Observes(sessions1[k], cfg.user) ==> sessions1[k].id != sessions1[j].id
    requires forall k :: 0 <= k < |sessions2| ==> sessions2[k].id != sessions1[j].id
    ensures var sid := sessions1[j].id;
            var o1 := Cycle(s, Some(sessions1), t1, lastUpdate1, cfg);
            var o2 := Cycle(o1.state, Some(sessions2), t2, lastUpdate2, cfg);
            && Get(o1.state.lastItem, sid) == sessions1[j].nowPlayingItem
            && Get(o1.state.lastPos, sid) == Some(Position(sessions1[j]))
            && Get(o2.state.lastItem, sid) == sessions1[j].nowPlayingItem
            && Get(o2.state.lastPos, sid) == Some(Position(sessions1[j]))
  {
    var sid := sessions1[j].id;
    SelectCacheRecords(sessions1, cfg.user, s.lastItem, s.lastPos, j);
    SelectNoneIff(sessions1, cfg.user, s.lastItem, s.lastPos);
    var _ := SelectWinner(sessions1, cfg.user, s.lastItem, s.lastPos);
    CycleRealItem(s, sessions1, t1, lastUpdate1, cfg);
    var o1 := Cycle(s, Some(sessions1), t1, lastUpdate1, cfg);
    SelectCacheUnchanged(sessions2, cfg.user, o1.state.lastItem, o1.state.lastPos, sid);
    CycleCache(o1.state, sessions2, t2, lastUpdate2, cfg);
    var sel2 := Select(sessions2, cfg.user, o1.state.lastItem, o1.state.lastPos);
    if sel2.best.Some? {
      var j2 := SelectWinner(sessions2, cfg.user, o1.state.lastItem, o1.state.lastPos);
      assert sel2.best.value.sid != sid;
    }
  }

  // ---------------------------------------------------------------------------
  // A gap: the chosen session reports no item, and one is cached for it
  // ---------------------------------------------------------------------------

  /** The gap start is recorded at the first cycle of the gap and kept while the gap lasts. */
  lemma GapStartFixed(s: Snapshot, sid: string, now: int, lastUpdate: int, cfg: Config)
    requires sid in s.lastItem
    ensures var o := Gap(s, sid, now, lastUpdate, cfg);
            sid in o.state.nullSince ==>
              o.state.nullSince[sid] == if sid in s.nullSince then s.nullSince[sid] else now
  {
  }

  /**
   * Cases 1 and 2 (an item shorter than the rewind threshold, or one stopped
   * before it): nothing is shown, and the rewind base and flag are not written
   * (they are at most removed by an expiry or completion clear).
   */
  lemma GapHolds(s: Snapshot, sid: string, now: int, lastUpdate: int, cfg: Config)
    requires sid in s.lastItem
    requires CachedRuntime(s, sid) < cfg.rewindSecs || LastElapsed(s, sid) < cfg.rewindSecs
    ensures var o := Gap(s, sid, now, lastUpdate, cfg);
            && (forall a :: a in o.actions ==> !a.Emit?)
            && (o.state.nullBase == s.nullBase || o.state.nullBase == s.nullBase - {sid})
            && (o.state.rewindDone == s.rewindDone || o.state.rewindDone == s.rewindDone - {sid})
  {
  }

  /**
   * Case 3 (a long item played past the threshold): the base is the recorded
   * one when the gap already has one, else the last elapsed time minus the
   * threshold; it is never negative, and a fresh base for a non-negative
   * threshold lies that threshold below the last elapsed time. Once the update interval has passed, the
   * first action shows the cached item at base plus the gap's length; unless
   * the gap then ends, the base and its flag stay recorded.
   */
  lemma GapRewinds(s: Snapshot, sid: string, now: int, lastUpdate: int, cfg: Config)
    requires Inv(s) && sid in s.lastItem
    requires CachedRuntime(s, sid) >= cfg.rewindSecs && LastElapsed(s, sid) >= cfg.rewindSecs
    ensures var o := Gap(s, sid, now, lastUpdate, cfg);
            var lastElapsed := LastElapsed(s, sid);
            var base := if sid in s.nullBase then s.nullBase[sid] else SaturatingSub(lastElapsed, cfg.rewindSecs);
            var gap := ElapsedSecs(GapSince(s, sid, now), now);
            && 0 <= base
            && (sid !in s.nullBase && 0 <= cfg.rewindSecs ==>
                  base == lastElapsed - cfg.rewindSecs && base <= lastElapsed)
            && (Due(lastUpdate, now, cfg) ==>
                  o.actions[0] == Emit(s.lastItem[sid], base + gap, CachedRuntime(s, sid)))
            && (!Due(lastUpdate, now, cfg) ==> forall a :: a in o.actions ==> !a.Emit?)
            && (sid in o.state.lastItem ==>
                  sid in o.state.nullBase && o.state.nullBase[sid] == base
                  && sid in o.state.rewindDone && o.state.rewindDone[sid])
  {
  }

  /**
   * A gap longer than the maximum clears at once, whatever the rate limit:
   * every entry of the session is forgotten, every other entry is as before
   * the cycle, no session is active, and the update instant becomes `now`.
   * It takes precedence over completion.
   */
  lemma GapExpires(s: Snapshot, sid: string, now: int, lastUpdate: int, cfg: Config)
    requires sid in s.lastItem
    requires ElapsedSecs(GapSince(s, sid, now), now) > cfg.maxGapSecs
    ensures var o := Gap(s, sid, now, lastUpdate, cfg);
            && |o.actions| >= 1 && o.actions[|o.actions| - 1] == Clear(GapExpired)
            && o.state == Forget(s, sid).(active := None)
            && o.lastUpdate == now
  {
    GapWritesOnlyGapEntries(s, sid, now, lastUpdate, cfg);
  }

  /**
   * An item already played to its known end clears at once, whatever the rate
   * limit, and forgets the session and nothing else; unlike expiry it leaves the update instant
   * as the cycle had it (`now` only if this cycle also showed a Case-3 update).
   */
  lemma GapCompletes(s: Snapshot, sid: string, now: int, lastUpdate: int, cfg: Config)
    requires sid in s.lastItem
    requires ElapsedSecs(GapSince(s, sid, now), now) <= cfg.maxGapSecs
    requires LastElapsed(s, sid) >= CachedRuntime(s, sid) > 0
    ensures var o := Gap(s, sid, now, lastUpdate, cfg);
            && |o.actions| >= 1 && o.actions[|o.actions| - 1] == Clear(ItemFinished)
            && o.state == Forget(s, sid).(active := None)
            && o.lastUpdate == (if o.actions[0].Emit? then now else lastUpdate)
  {
    GapWritesOnlyGapEntries(s, sid, now, lastUpdate, cfg);
  }

  /**
   * Before its closing clears, the gap logic writes only the gap start, rewind
   * base and rewind flag of `sid`, and the active session; so forgetting `sid`
   * afterwards leaves what forgetting it beforehand leaves.
   */
  lemma ForgetOverwritesSince(s: Snapshot, sid: string, since: int)
    ensures Forget(s.(nullSince := s.nullSince[sid := since]), sid) == Forget(s, sid)
  {
    assert (s.nullSince[sid := since]) - {sid} == s.nullSince - {sid};
  }

  lemma ForgetOverwritesRewind(s: Snapshot, sid: string, base: I64)
    ensures Forget(s.(nullBase := s.nullBase[sid := base], rewindDone := s.rewindDone[sid := true]), sid)
            == Forget(s, sid)
  {
    assert (s.nullBase[sid := base]) - {sid} == s.nullBase - {sid};
    assert (s.rewindDone[sid := true]) - {sid} == s.rewindDone - {sid};
  }

  lemma GapWritesOnlyGapEntries(s: Snapshot, sid: string, now: int, lastUpdate: int, cfg: Config)
    requires sid in s.lastItem
    ensures var lastElapsed := LastElapsed(s, sid);
            var since := GapSince(s, sid, now);
            var held := Held(s.(nullSince := s.nullSince[sid := since]), sid, s.lastItem[sid], lastElapsed,
                             CachedRuntime(s, sid), ElapsedSecs(since, now), now, lastUpdate, cfg);
            Forget(held.state, sid).(active := None) == Forget(s, sid).(active := None)
  {
    var lastElapsed := LastElapsed(s, sid);
    var rt := CachedRuntime(s, sid);
    var since := GapSince(s, sid, now);
    var s1 := s.(nullSince := s.nullSince[sid := since]);
    ForgetOverwritesSince(s, sid, since);
    if rt >= cfg.rewindSecs && lastElapsed >= cfg.rewindSecs {
      var base := RewindBase(s1, sid, lastElapsed, cfg);
      ForgetOverwritesRewind(s1, sid, base);
    }
  }

  /** A gap that neither expires nor completes keeps every cached entry of the session and sends at most one update. */
  lemma GapContinues(s: Snapshot, sid: string, now: int, lastUpdate: int, cfg: Config)
    requires sid in s.lastItem
    requires ElapsedSecs(GapSince(s, sid, now), now) <= cfg.maxGapSecs
    requires !(LastElapsed(s, sid) >= CachedRuntime(s, sid) > 0)
    ensures var o := Gap(s, sid, now, lastUpdate, cfg);
            && |o.actions| <= 1 && (forall a :: a in o.actions ==> a.Emit?)
            && o.state.lastItem == s.lastItem && o.state.lastPos == s.lastPos
            && sid in o.state.nullSince
  {
  }

  // ---------------------------------------------------------------------------
  // The whole cycle
  // ---------------------------------------------------------------------------

  /**
   * The rate limit on an outcome: every emit and every ordinary clear happens
   * only once the update interval has passed, and then the update instant
   * becomes `now`. Only the expiry clear moves the instant otherwise. At most
   * two commands are sent, and two only as an emit followed by a gap-ending
   * clear.
   */
  predicate RateLimited(o: Outcome, now: int, lastUpdate: int, cfg: Config) {
    && (forall a :: a in o.actions && Ordinary(a) ==> Due(lastUpdate, now, cfg))
    && ((exists a :: a in o.actions && Ordinary(a)) ==> o.lastUpdate == now)
    && (o.lastUpdate == lastUpdate || o.lastUpdate == now)
    && (o.lastUpdate != lastUpdate ==> Due(lastUpdate, now, cfg) || Clear(GapExpired) in o.actions)
    && |o.actions| <= 2
    && (|o.actions| == 2 ==> o.actions[0].Emit? && !Ordinary(o.actions[1]))
  }

  /** Every cycle keeps the rate limit. */
  lemma CycleRateLimit(s: Snapshot, fetched: Option<seq<Session>>, now: int, lastUpdate: int, cfg: Config)
    ensures RateLimited(Cycle(s, fetched, now, lastUpdate, cfg), now, lastUpdate, cfg)
  {
    match fetched
    case None =>
    case Some(sessions) =>
      var sel := Select(sessions, cfg.user, s.lastItem, s.lastPos);
      var s1 := s.(lastItem := sel.items, lastPos := sel.positions);
      if sel.best.Some? && !sel.best.value.hasReal && sel.best.value.sid in s1.lastItem {
        GapRateLimit(s1, sel.best.value.sid, now, lastUpdate, cfg);
      }
  }

  /** The gap logic keeps the rate limit: its only emit waits for the interval, and its clears end the gap. */
  lemma GapRateLimit(s: Snapshot, sid: string, now: int, lastUpdate: int, cfg: Config)
    requires sid in s.lastItem
    ensures RateLimited(Gap(s, sid, now, lastUpdate, cfg), now, lastUpdate, cfg)
  {
  }

  /**
   * A cycle writes gap bookkeeping for the chosen session only: every other
   * session's gap start, rewind base and rewind flag are as they were. The
   * active session becomes the chosen one, none, or stays.
   */
  lemma CycleTouchesOnlyChosen(s: Snapshot, fetched: Option<seq<Session>>, now: int, lastUpdate: int,
                               cfg: Config, key: string)
    requires fetched.Some? && Chosen(s, fetched.value, cfg).Some? ==> Chosen(s, fetched.value, cfg).value.sid != key
    ensures var o := Cycle(s, fetched, now, lastUpdate, cfg);
            && Get(o.state.nullSince, key) == Get(s.nullSince, key)
            && Get(o.state.nullBase, key) == Get(s.nullBase, key)
            && Get(o.state.rewindDone, key) == Get(s.rewindDone, key)
            && (o.state.active == s.active || o.state.active == None
                || (fetched.Some? && Chosen(s, fetched.value, cfg).Some?
                    && o.state.active == Some(Chosen(s, fetched.value, cfg).value.sid)))
  {
    match fetched
    case None =>
    case Some(sessions) =>
      var sel := Select(sessions, cfg.user, s.lastItem, s.lastPos);
      var s1 := s.(lastItem := sel.items, lastPos := sel.positions);
      match sel.best
      case None =>
      case Some(p) =>
        if !p.hasReal && p.sid in s1.lastItem {
          GapTouchesOnlyChosen(s1, p.sid, now, lastUpdate, cfg, key);
        }
  }

  /** The gap logic of `sid` leaves every other session's cache and gap entries alone. */
  lemma GapTouchesOnlyChosen(s: Snapshot, sid: string, now: int, lastUpdate: int, cfg: Config, key: string)
    requires sid in s.lastItem && sid != key
    ensures var o := Gap(s, sid, now, lastUpdate, cfg);
            && Get(o.state.lastItem, key) == Get(s.lastItem, key)
            && Get(o.state.lastPos, key) == Get(s.lastPos, key)
            && Get(o.state.nullSince, key) == Get(s.nullSince, key)
            && Get(o.state.nullBase, key) == Get(s.nullBase, key)
            && Get(o.state.rewindDone, key) == Get(s.rewindDone, key)
            && (o.state.active == s.active || o.state.active == None || o.state.active == Some(sid))
  {
    var lastElapsed := LastElapsed(s, sid);
    var rt := CachedRuntime(s, sid);
    var since := GapSince(s, sid, now);
    var gap := ElapsedSecs(since, now);
    var s1 := s.(nullSince := s.nullSince[sid := since]);
    HeldTouchesOnlyChosen(s1, sid, s.lastItem[sid], lastElapsed, rt, gap, now, lastUpdate, cfg, key);
  }

  /** The three cases of a gap write only the rewind entries of `sid` and the active session. */
  lemma HeldTouchesOnlyChosen(s: Snapshot, sid: string, item: NowPlayingItem, lastElapsed: I64, rt: I64,
                              gap: nat, now: int, lastUpdate: int, cfg: Config, key: string)
    requires sid != key
    ensures var h := Held(s, sid, item, lastElapsed, rt, gap, now, lastUpdate, cfg);
            && h.state.lastItem == s.lastItem && h.state.lastPos == s.lastPos && h.state.nullSince == s.nullSince
            && Get(h.state.nullBase, key) == Get(s.nullBase, key)
            && Get(h.state.rewindDone, key) == Get(s.rewindDone, key)
            && (h.state.active == s.active || h.state.active == Some(sid))
  {
  }

  /** Every cycle keeps the state invariant `Inv`. */
  lemma CycleKeepsInv(s: Snapshot, fetched: Option<seq<Session>>, now: int, lastUpdate: int, cfg: Config)
    requires Inv(s)
    ensures Inv(Cycle(s, fetched, now, lastUpdate, cfg).state)
  {
    match fetched
    case None =>
    case Some(sessions) =>
      SelectCacheKeys(sessions, cfg.user, s.lastItem, s.lastPos);
      var sel := Select(sessions, cfg.user, s.lastItem, s.lastPos);
      var s1 := s.(lastItem := sel.items, lastPos := sel.positions);
      assert Inv(s1);
      match sel.best
      case None =>
      case Some(p) =>
        if p.hasReal {
          RealItemKeepsInv(s1, p, now, lastUpdate, cfg);
        } else if p.sid in s1.lastItem {
          GapKeepsInv(s1, p.sid, now, lastUpdate, cfg);
        }
  }

  /** The real-item branch keeps `Inv`: it only removes gap entries. */
  lemma RealItemKeepsInv(s: Snapshot, p: Pick, now: int, lastUpdate: int, cfg: Config)
    requires Inv(s)
    ensures Inv(RealItem(s, p, now, lastUpdate, cfg).state)
  {
  }

  /** The gap logic keeps `Inv`: a rewind base is only recorded, non-negative and flagged, inside a recorded gap. */
  lemma GapKeepsInv(s: Snapshot, sid: string, now: int, lastUpdate: int, cfg: Config)
    requires Inv(s) && sid in s.lastItem
    ensures Inv(Gap(s, sid, now, lastUpdate, cfg).state)
  {
    var lastElapsed := LastElapsed(s, sid);
    var rt := CachedRuntime(s, sid);
    var since := GapSince(s, sid, now);
    var gap := ElapsedSecs(since, now);
    var s1 := s.(nullSince := s.nullSince[sid := since]);
    assert Inv(s1);
    var held := Held(s1, sid, s.lastItem[sid], lastElapsed, rt, gap, now, lastUpdate, cfg);
    if rt >= cfg.rewindSecs && lastElapsed >= cfg.rewindSecs {
      var base := RewindBase(s1, sid, lastElapsed, cfg);
      assert 0 <= base;
      var s2 := s1.(nullBase := s1.nullBase[sid := base], rewindDone := s1.rewindDone[sid := true]);
      assert Inv(s2);
      assert held.state == s2 || held.state == s2.(active := Some(sid));
    }
    assert Inv(held.state);
  }

  /**
   * The update instant starts at program start, so no command at all is sent
   * before a full update interval has passed: the fresh state caches nothing,
   * so no gap can end and every other command waits for the interval.
   */
  lemma FirstCycleWaits(fetched: Option<seq<Session>>, now: int, start: int, cfg: Config)
    requires !Due(start, now, cfg)
    ensures var o := Cycle(Initial(), fetched, now, start, cfg);
            o.actions == [] && o.lastUpdate == start && o.state.active == None
  {
    if fetched.Some? {
      var c := Chosen(Initial(), fetched.value, cfg);
      if c.Some? && !c.value.hasReal {
        StaleCycle(Initial(), fetched.value, now, start, cfg);
      }
    }
  }

  /**
   * Without a real item from the user, a cycle that shows an update is the gap
   * logic of the chosen session, on the unchanged cache.
   */
  lemma StaleEmitIsGap(s: Snapshot, sessions: seq<Session>, now: int, lastUpdate: int, cfg: Config)
    returns (sid: string)
    requires forall k :: 0 <= k < |sessions| ==> !Observes(sessions[k], cfg.user)
    requires var o := Cycle(s, Some(sessions), now, lastUpdate, cfg);
             o.actions != [] && o.actions[0].Emit?
    ensures Chosen(s, sessions, cfg).Some? && Chosen(s, sessions, cfg).value.sid == sid
    ensures sid in s.lastItem && Cycle(s, Some(sessions), now, lastUpdate, cfg) == Gap(s, sid, now, lastUpdate, cfg)
  {
    SelectStale(sessions, cfg.user, s.lastItem, s.lastPos);
    var sel := Select(sessions, cfg.user, s.lastItem, s.lastPos);
    assert s.(lastItem := sel.items, lastPos := sel.positions) == s;
    sid := sel.best.value.sid;
  }

  /**
   * Two consecutive gap cycles of `sid` that both show an update, the first
   * one keeping the session: the same item and runtime, shown from the same
   * rewind base, advanced by the gap's length at each cycle.
   */
  lemma GapTwice(s: Snapshot, sid: string, t1: int, t2: int, lastUpdate1: int, lastUpdate2: int, cfg: Config)
    requires sid in s.lastItem && t1 <= t2
    requires var o1 := Gap(s, sid, t1, lastUpdate1, cfg);
             && sid in o1.state.lastItem && o1.actions != [] && o1.actions[0].Emit?
             && var o2 := Gap(o1.state, sid, t2, lastUpdate2, cfg);
                o2.actions != [] && o2.actions[0].Emit?
    ensures var o1 := Gap(s, sid, t1, lastUpdate1, cfg);
            var o2 := Gap(o1.state, sid, t2, lastUpdate2, cfg);
            var e1 := o1.actions[0];
            var e2 := o2.actions[0];
            && e1.item == e2.item && e1.runtimeSecs == e2.runtimeSecs
            && e1.elapsedSecs <= e2.elapsedSecs <= e1.elapsedSecs + (t2 - t1)
  {
    var s1 := Gap(s, sid, t1, lastUpdate1, cfg).state;
    GapEmit(s, sid, t1, lastUpdate1, cfg);
    GapContinuesOnSameEntries(s, sid, t1, lastUpdate1, cfg);
    GapEmit(s1, sid, t2, lastUpdate2, cfg);
  }

  /**
   * A gap cycle that shows an update is in Case 3 and due: it shows the cached
   * item and runtime at the rewind base plus the gap's length, and, unless the
   * gap then ends, leaves that base recorded and flagged.
   */
  lemma GapEmit(s: Snapshot, sid: string, now: int, lastUpdate: int, cfg: Config)
    requires sid in s.lastItem
    requires var o := Gap(s, sid, now, lastUpdate, cfg);
             o.actions != [] && o.actions[0].Emit?
    ensures var o := Gap(s, sid, now, lastUpdate, cfg);
            var lastElapsed := LastElapsed(s, sid);
            var since := GapSince(s, sid, now);
            var base := RewindBase(s.(nullSince := s.nullSince[sid := since]), sid, lastElapsed, cfg);
            && CachedRuntime(s, sid) >= cfg.rewindSecs && lastElapsed >= cfg.rewindSecs
            && Due(lastUpdate, now, cfg)
            && o.actions[0] == Emit(s.lastItem[sid], base + ElapsedSecs(since, now), CachedRuntime(s, sid))
            && (sid in o.state.lastItem ==>
                  sid in o.state.nullBase && o.state.nullBase[sid] == base
                  && Get(o.state.rewindDone, sid) == Some(true))
  {
  }

  /**
   * Across two consecutive cycles of one gap, on any two poll answers without a
   * real item from the user that choose the same session: whenever both show an
   * update, they show the same item, and the displayed elapsed time does not go
   * down and grows by at most the time between the cycles.
   */
  lemma GapDisplayAdvancesAcrossPolls(s: Snapshot, sessions1: seq<Session>, sessions2: seq<Session>,
                                      t1: int, t2: int, lastUpdate1: int, lastUpdate2: int, cfg: Config)
    requires t1 <= t2
    requires forall k :: 0 <= k < |sessions1| ==> !Observes(sessions1[k], cfg.user)
    requires forall k :: 0 <= k < |sessions2| ==> !Observes(sessions2[k], cfg.user)
    requires var o1 := Cycle(s, Some(sessions1), t1, lastUpdate1, cfg);
             var o2 := Cycle(o1.state, Some(sessions2), t2, lastUpdate2, cfg);
             && o1.actions != [] && o1.actions[0].Emit?
             && o2.actions != [] && o2.actions[0].Emit?
             && Chosen(s, sessions1, cfg).Some? && Chosen(o1.state, sessions2, cfg).Some?
             && Chosen(s, sessions1, cfg).value.sid == Chosen(o1.state, sessions2, cfg).value.sid
    ensures var o1 := Cycle(s, Some(sessions1), t1, lastUpdate1, cfg);
            var o2 := Cycle(o1.state, Some(sessions2), t2, lastUpdate2, cfg);
            var e1 := o1.actions[0];
            var e2 := o2.actions[0];
            && e1.item == e2.item && e1.runtimeSecs == e2.runtimeSecs
            && e1.elapsedSecs <= e2.elapsedSecs <= e1.elapsedSecs + (t2 - t1)
  {
    var sid := StaleEmitIsGap(s, sessions1, t1, lastUpdate1, cfg);
    var s1 := Cycle(s, Some(sessions1), t1, lastUpdate1, cfg).state;
    var _ := StaleEmitIsGap(s1, sessions2, t2, lastUpdate2, cfg);
    GapTwice(s, sid, t1, t2, lastUpdate1, lastUpdate2, cfg);
  }

  /**
   * Across two consecutive cycles of one gap on the same poll answer, with no
   * real item from the user, the same session is chosen; so whenever both show
   * an update, they show the same item, and the displayed elapsed time does not
   * go down and grows by at most the time between the cycles.
   */
  lemma GapDisplayAdvances(s: Snapshot, sessions: seq<Session>, t1: int, t2: int,
                           lastUpdate1: int, lastUpdate2: int, cfg: Config)
    requires t1 <= t2
    requires forall k :: 0 <= k < |sessions| ==> !Observes(sessions[k], cfg.user)
    requires var o1 := Cycle(s, Some(sessions), t1, lastUpdate1, cfg);
             var o2 := Cycle(o1.state, Some(sessions), t2, lastUpdate2, cfg);
             && o1.actions != [] && o1.actions[0].Emit?
             && o2.actions != [] && o2.actions[0].Emit?
    ensures var o1 := Cycle(s, Some(sessions), t1, lastUpdate1, cfg);
            var o2 := Cycle(o1.state, Some(sessions), t2, lastUpdate2, cfg);
            var e1 := o1.actions[0];
            var e2 := o2.actions[0];
            && e1.item == e2.item && e1.runtimeSecs == e2.runtimeSecs
            && e1.elapsedSecs <= e2.elapsedSecs <= e1.elapsedSecs + (t2 - t1)
  {
    var s1 := Cycle(s, Some(sessions), t1, lastUpdate1, cfg).state;
    var _ := StaleEmitIsGap(s, sessions, t1, lastUpdate1, cfg);
    var _ := StaleEmitIsGap(s1, sessions, t2, lastUpdate2, cfg);
    SelectChoiceIgnoresCache(sessions, cfg.user, s.lastItem, s.lastPos, s1.lastItem, s1.lastPos);
    GapDisplayAdvancesAcrossPolls(s, sessions, sessions, t1, t2, lastUpdate1, lastUpdate2, cfg);
  }

  /**
   * After a gap cycle that does not forget the session, a further gap cycle
   * finds the same cached item and position and the same gap start.
   */
  lemma GapContinuesOnSameEntries(s: Snapshot, sid: string, now: int, lastUpdate: int, cfg: Config)
    requires sid in s.lastItem
    ensures var o := Gap(s, sid, now, lastUpdate, cfg);
            sid in o.state.lastItem ==>
              && o.state.lastItem == s.lastItem && o.state.lastPos == s.lastPos
              && sid in o.state.nullSince && o.state.nullSince[sid] == GapSince(s, sid, now)
  {
  }
}
