/**
 * The bridge's mutable state (src/main.rs): a per-session cache of the last
 * real item and position, the per-session gap bookkeeping, and the session
 * currently shown. Instants are whole seconds on one monotonic clock.
 */
module BridgeState {
  import opened Wrappers
  import opened Sessions

  /** A value snapshot of every field of `State`. */
  datatype Snapshot = Snapshot(
    lastPos: map<string, I64>,
    lastItem: map<string, NowPlayingItem>,
    active: Option<string>,
    nullSince: map<string, int>,
    nullBase: map<string, I64>,
    rewindDone: map<string, bool>)

  function Initial(): Snapshot {
    Snapshot(map[], map[], None, map[], map[], map[])
  }

  /**
   * What the bridge keeps true of its maps between cycles: the two cache maps
   * share their keys; gap bookkeeping exists only for cached sessions; a rewind
   * base exists exactly when its rewind flag does, and then the flag is set;
   * every rewind base is non-negative.
   */
  predicate Inv(s: Snapshot) {
    && s.lastPos.Keys == s.lastItem.Keys
    && s.nullSince.Keys <= s.lastItem.Keys
    && s.nullBase.Keys <= s.nullSince.Keys
    && s.rewindDone.Keys == s.nullBase.Keys
    && (forall sid :: sid in s.rewindDone ==> s.rewindDone[sid])
    && (forall sid :: sid in s.nullBase ==> 0 <= s.nullBase[sid])
  }

  /** Forgetting every per-session entry of `sid`, and only those, as the two clears of a gap do. */
  function Forget(s: Snapshot, sid: string): (r: Snapshot)
    ensures sid !in r.lastPos && sid !in r.lastItem && sid !in r.nullSince
    ensures sid !in r.nullBase && sid !in r.rewindDone
    ensures forall k :: k != sid ==>
              && Get(r.lastPos, k) == Get(s.lastPos, k) && Get(r.lastItem, k) == Get(s.lastItem, k)
              && Get(r.nullSince, k) == Get(s.nullSince, k) && Get(r.nullBase, k) == Get(s.nullBase, k)
              && Get(r.rewindDone, k) == Get(s.rewindDone, k)
    ensures r.active == s.active
    ensures Inv(s) ==> Inv(r)
  {
    s.(lastPos := s.lastPos - {sid}, lastItem := s.lastItem - {sid},
       nullSince := s.nullSince - {sid}, nullBase := s.nullBase - {sid},
       rewindDone := s.rewindDone - {sid})
  }

  class State {
    var lastPosBySession: map<string, I64>
    var lastItemBySession: map<string, NowPlayingItem>
    var activeSessionId: Option<string>
    var nullSinceBySession: map<string, int>
    var nullBaseElapsedBySession: map<string, I64>
    var rewindDoneBySession: map<string, bool>

    constructor ()
      ensures Model() == Initial() && Inv(Model())
    {
      lastPosBySession := map[];
      lastItemBySession := map[];
      activeSessionId := None;
      nullSinceBySession := map[];
      nullBaseElapsedBySession := map[];
      rewindDoneBySession := map[];
    }

    function Model(): Snapshot
      reads this
    {
      Snapshot(lastPosBySession, lastItemBySession, activeSessionId,
               nullSinceBySession, nullBaseElapsedBySession, rewindDoneBySession)
    }
  }
}
