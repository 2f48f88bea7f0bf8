/**
 * Choosing the session that stands for the configured user in one poll
 * (`pick_session_for_user`, src/jellyfin.rs), together with its side effect
 * on the per-session cache of the last real item and position.
 *
 * `Select` is the specification: the loop of the source written as a left
 * fold over the poll's sessions, one `Visit` per session. The method
 * `PickSessionForUser` runs the loop on a `State` object and is proved to
 * compute `Select`; the lemmas below say what `Select` chooses and caches.
 */
module Jellyfin {
  import opened Wrappers
  import opened Sessions
  import opened BridgeState

  /** The chosen session: its id, its effective item, its position in ticks, and whether the item is real. */
  datatype Pick = Pick(sid: string, item: Option<NowPlayingItem>, pos: I64, hasReal: bool)

  /** The running best candidate and the two cache maps, as they stand after some prefix of the poll. */
  datatype Selection = Selection(
    best: Option<Pick>,
    items: map<string, NowPlayingItem>,
    positions: map<string, I64>)

  /** One turn of the selection loop for session `s`. */
  function Visit(acc: Selection, s: Session, user: string): Selection {
    if !Matches(s, user) then acc
    else
      var sid := s.id;
      var pos := Position(s);
      var hasReal := s.nowPlayingItem.Some?;
      var itemOpt := if hasReal then s.nowPlayingItem else Get(acc.items, sid);
      var items := if hasReal then acc.items[sid := s.nowPlayingItem.value] else acc.items;
      var positions := if hasReal then acc.positions[sid := pos] else acc.positions;
      var candidate := Pick(sid, itemOpt, pos, hasReal);
      var best :=
        match acc.best
        case None => Some(candidate)
        case Some(b) =>
          if hasReal && !b.hasReal then Some(candidate)
          else if hasReal == b.hasReal && pos > b.pos then Some(candidate)
          else acc.best;
      Selection(best, items, positions)
  }

  /** The selection loop over all of `ss`, starting from the cache maps `items` and `positions`. */
  function Select(ss: seq<Session>, user: string,
                  items: map<string, NowPlayingItem>, positions: map<string, I64>): Selection
    decreases |ss|
  {
    if |ss| == 0 then Selection(None, items, positions)
    else Visit(Select(ss[..|ss| - 1], user, items, positions), ss[|ss| - 1], user)
  }

  /** Nothing is chosen exactly when no session belongs to the user. */
  lemma {:induction false} SelectNoneIff(ss: seq<Session>, user: string,
                                         items: map<string, NowPlayingItem>, positions: map<string, I64>)
    ensures Select(ss, user, items, positions).best.None?
            <==> forall k :: 0 <= k < |ss| ==> !Matches(ss[k], user)
  {
    if |ss| > 0 {
      var n := |ss| - 1;
      SelectNoneIff(ss[..n], user, items, positions);
      assert forall k :: 0 <= k < n ==> ss[..n][k] == ss[k];
    }
  }

  /**
   * The chosen session is the `j`-th one: it belongs to the user; its item is
   * real exactly when some session of the user reports a real item (a real
   * candidate always beats a stale one); its position is the greatest among the
   * user's sessions of the same realness, and no earlier session of that
   * realness reaches it (ties keep the first session seen).
   */
  lemma {:induction false} SelectWinner(ss: seq<Session>, user: string,
                                        items: map<string, NowPlayingItem>, positions: map<string, I64>)
    returns (j: nat)
    requires Select(ss, user, items, positions).best.Some?
    ensures j < |ss| && Matches(ss[j], user)
    ensures var p := Select(ss, user, items, positions).best.value;
            && p.sid == ss[j].id && p.pos == Position(ss[j])
            && p.hasReal == ss[j].nowPlayingItem.Some?
            && (p.hasReal ==> p.item == ss[j].nowPlayingItem)
            && (p.hasReal <==> exists k :: 0 <= k < |ss| && Observes(ss[k], user))
            && (forall k :: 0 <= k < |ss| && Matches(ss[k], user) && ss[k].nowPlayingItem.Some? == p.hasReal
                  ==> Position(ss[k]) <= p.pos)
            && (forall k :: 0 <= k < j && Matches(ss[k], user) && ss[k].nowPlayingItem.Some? == p.hasReal
                  ==> Position(ss[k]) < p.pos)
  {
    var n := |ss| - 1;
    var pre := ss[..n];
    var acc := Select(pre, user, items, positions);
    var s := ss[n];
    assert forall k :: 0 <= k < n ==> pre[k] == ss[k];
    if !Matches(s, user) {
      j := SelectWinner(pre, user, items, positions);
    } else if acc.best.None? {
      SelectNoneIff(pre, user, items, positions);
      j := n;
    } else {
      var j0 := SelectWinner(pre, user, items, positions);
      var b := acc.best.value;
      var hasReal := s.nowPlayingItem.Some?;
      if hasReal && !b.hasReal {
        j := n;
      } else if hasReal == b.hasReal && Position(s) > b.pos {
        j := n;
      } else {
        j := j0;
      }
    }
  }

  /**
   * Which session wins does not depend on the cache: only the effective item
   * of a stale winner is read from it.
   */
  lemma {:induction false} SelectChoiceIgnoresCache(ss: seq<Session>, user: string,
                                                    items1: map<string, NowPlayingItem>, positions1: map<string, I64>,
                                                    items2: map<string, NowPlayingItem>, positions2: map<string, I64>)
    ensures var b1 := Select(ss, user, items1, positions1).best;
            var b2 := Select(ss, user, items2, positions2).best;
            && b1.None? == b2.None?
            && (b1.Some? ==> b1.value.sid == b2.value.sid && b1.value.pos == b2.value.pos
                             && b1.value.hasReal == b2.value.hasReal)
  {
    SelectNoneIff(ss, user, items1, positions1);
    SelectNoneIff(ss, user, items2, positions2);
    if Select(ss, user, items1, positions1).best.Some? {
      var j1 := SelectWinner(ss, user, items1, positions1);
      var j2 := SelectWinner(ss, user, items2, positions2);
      assert j1 == j2;
    }
  }

  /** A key that no real observation of the user carries keeps its cache entries. */
  lemma {:induction false} SelectCacheUnchanged(ss: seq<Session>, user: string,
                                                items: map<string, NowPlayingItem>, positions: map<string, I64>,
                                                key: string)
    requires forall k :: 0 <= k < |ss| && Observes(ss[k], user) ==> ss[k].id != key
    ensures var r := Select(ss, user, items, positions);
            Get(r.items, key) == Get(items, key) && Get(r.positions, key) == Get(positions, key)
  {
    if |ss| > 0 {
      var n := |ss| - 1;
      assert forall k :: 0 <= k < n ==> ss[..n][k] == ss[k];
      SelectCacheUnchanged(ss[..n], user, items, positions, key);
    }
  }

  /**
   * Every real observation of the user is cached, whether or not it is chosen:
   * after the loop, its session id maps to its item and its position, unless a
   * later real observation with the same id overwrote them.
   */
  lemma {:induction false} SelectCacheRecords(ss: seq<Session>, user: string,
                                              items: map<string, NowPlayingItem>, positions: map<string, I64>,
                                              j: nat)
    requires j < |ss| && Observes(ss[j], user)
    requires forall k :: j < k < |ss| && Observes(ss[k], user) ==> ss[k].id != ss[j].id
    ensures var r := Select(ss, user, items, positions);
            Get(r.items, ss[j].id) == ss[j].nowPlayingItem
            && Get(r.positions, ss[j].id) == Some(Position(ss[j]))
  {
    var n := |ss| - 1;
    if j < n {
      assert forall k :: 0 <= k < n ==> ss[..n][k] == ss[k];
      SelectCacheRecords(ss[..n], user, items, positions, j);
    }
  }

  /**
   * The cache only gains the ids of real observations of the user, and keeps
   * its two maps on the same keys when they started so.
   */
  lemma {:induction false} SelectCacheKeys(ss: seq<Session>, user: string,
                                           items: map<string, NowPlayingItem>, positions: map<string, I64>)
    ensures var r := Select(ss, user, items, positions);
            && r.items.Keys == items.Keys + (set k | 0 <= k < |ss| && Observes(ss[k], user) :: ss[k].id)
            && (items.Keys == positions.Keys ==> r.positions.Keys == r.items.Keys)
  {
    if |ss| > 0 {
      var n := |ss| - 1;
      assert forall k :: 0 <= k < n ==> ss[..n][k] == ss[k];
      SelectCacheKeys(ss[..n], user, items, positions);
      var before := set k | 0 <= k < n && Observes(ss[..n][k], user) :: ss[..n][k].id;
      var after := set k | 0 <= k < |ss| && Observes(ss[k], user) :: ss[k].id;
      if Observes(ss[n], user) {
        assert after == before + {ss[n].id};
      } else {
        assert after == before;
      }
    }
  }

  /**
   * Without any real observation of the user the cache is untouched, and a
   * chosen (stale) session carries the cached item for its id, or none.
   */
  lemma {:induction false} SelectStale(ss: seq<Session>, user: string,
                                       items: map<string, NowPlayingItem>, positions: map<string, I64>)
    requires forall k :: 0 <= k < |ss| ==> !Observes(ss[k], user)
    ensures var r := Select(ss, user, items, positions);
            && r.items == items && r.positions == positions
            && (r.best.Some? ==> !r.best.value.hasReal && r.best.value.item == Get(items, r.best.value.sid))
  {
    if |ss| > 0 {
      var n := |ss| - 1;
      assert forall k :: 0 <= k < n ==> ss[..n][k] == ss[k];
      SelectStale(ss[..n], user, items, positions);
    }
  }

  /**
   * `pick_session_for_user`: chooses the user's session for this poll and
   * records every real observation of the user in the state's cache maps,
   * leaving every other field of the state as it was.
   */
  method PickSessionForUser(state: State, sessions: seq<Session>, user: string) returns (best: Option<Pick>)
    modifies state
    ensures var r := Select(sessions, user, old(state.lastItemBySession), old(state.lastPosBySession));
            && best == r.best
            && state.Model() == old(state.Model()).(lastItem := r.items, lastPos := r.positions)
  {
    best := None;
    for i := 0 to |sessions|
      invariant Selection(best, state.lastItemBySession, state.lastPosBySession)
                == Select(sessions[..i], user, old(state.lastItemBySession), old(state.lastPosBySession))
      invariant state.Model() == old(state.Model()).(lastItem := state.lastItemBySession,
                                                     lastPos := state.lastPosBySession)
    {
      assert sessions[..i + 1][..i] == sessions[..i];
      var s := sessions[i];
      if Lower(s.username) != Lower(user) {
        continue;
      }
      var sid := s.id;
      var pos := Position(s);
      var hasRealItem := s.nowPlayingItem.Some?;
      var itemOpt := if hasRealItem then s.nowPlayingItem else Get(state.lastItemBySession, sid);
      if s.nowPlayingItem.Some? {
        state.lastItemBySession := state.lastItemBySession[sid := s.nowPlayingItem.value];
        state.lastPosBySession := state.lastPosBySession[sid := pos];
      }
      match best {
        case None =>
          best := Some(Pick(sid, itemOpt, pos, hasRealItem));
        case Some(b) =>
          if hasRealItem && !b.hasReal {
            best := Some(Pick(sid, itemOpt, pos, true));
          } else if hasRealItem == b.hasReal && pos > b.pos {
            best := Some(Pick(sid, itemOpt, pos, hasRealItem));
          }
      }
    }
    assert sessions[..|sessions|] == sessions;
  }
}
