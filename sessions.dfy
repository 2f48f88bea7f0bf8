/**
 * The records the media server reports for each poll of its session list
 * (src/jellyfin.rs), already deserialised, and the small conversions the
 * bridge applies to them: case-insensitive user names and ticks to seconds.
 */
module Sessions {
  import opened Wrappers

  const I64_MIN: int := -0x8000_0000_0000_0000
  const I64_MAX: int := 0x7FFF_FFFF_FFFF_FFFF

  /** Rust's `i64`. */
  type I64 = x: int | I64_MIN <= x <= I64_MAX

  /** Rust's `i32`. */
  type I32 = x: int | -0x8000_0000 <= x <= 0x7FFF_FFFF

  /** The server's time unit: 10,000,000 ticks are one second. */
  const TICKS_PER_SECOND: int := 10_000_000

  /** What a session reports as playing; every display field may be missing. */
  datatype NowPlayingItem = NowPlayingItem(
    id: string,
    name: string,
    artists: Option<seq<string>>,
    runtimeTicks: Option<I64>,
    albumId: Option<string>,
    parentId: Option<string>,
    itemType: Option<string>,
    seriesId: Option<string>,
    seasonId: Option<string>,
    seriesName: Option<string>,
    seasonNumber: Option<I32>,
    episodeNumber: Option<I32>,
    productionYear: Option<I32>,
    imageTags: Option<map<string, string>>)

  datatype PlayState = PlayState(positionTicks: Option<I64>)

  /** One upstream client's playback context in one poll. */
  datatype Session = Session(
    id: string,
    username: string,
    nowPlayingItem: Option<NowPlayingItem>,
    playState: Option<PlayState>)

  /** ASCII lower-casing of one character. */
  function LowerChar(c: char): (r: char)
    ensures 'A' <= c <= 'Z' ==> 'a' <= r <= 'z' && r as int - 'a' as int == c as int - 'A' as int
    ensures !('A' <= c <= 'Z') ==> r == c
  {
    if 'A' <= c <= 'Z' then (c as int - 'A' as int + 'a' as int) as char else c
  }

  /** ASCII lower-casing of a string, character by character. */
  function Lower(s: string): (r: string)
    ensures |r| == |s| && forall i :: 0 <= i < |s| ==> r[i] == LowerChar(s[i])
  {
    seq(|s|, i requires 0 <= i < |s| => LowerChar(s[i]))
  }

  /** Whether session `s` belongs to `user`, compared case-insensitively. */
  predicate Matches(s: Session, user: string) {
    Lower(s.username) == Lower(user)
  }

  /** `a` and `b` are the same character, or the same ASCII letter in the two cases. */
  predicate SameUpToCase(a: char, b: char) {
    || a == b
    || ('A' <= a <= 'Z' && b as int - a as int == 'a' as int - 'A' as int)
    || ('A' <= b <= 'Z' && a as int - b as int == 'a' as int - 'A' as int)
  }

  /** Two characters lower-case to the same character exactly when they differ at most in ASCII case. */
  lemma LowerCharSameIff(a: char, b: char)
    ensures LowerChar(a) == LowerChar(b) <==> SameUpToCase(a, b)
  {
  }

  /**
   * A session belongs to `user` exactly when its user name has the same length
   * and differs from `user` at most in the ASCII case of each letter.
   */
  lemma MatchesIffSameUpToCase(s: Session, user: string)
    ensures Matches(s, user) <==>
            |s.username| == |user| && forall i :: 0 <= i < |user| ==> SameUpToCase(s.username[i], user[i])
  {
    var a, b := s.username, user;
    forall i | 0 <= i < |a| && i < |b|
      ensures LowerChar(a[i]) == LowerChar(b[i]) <==> SameUpToCase(a[i], b[i])
    {
      LowerCharSameIff(a[i], b[i]);
    }
    if |a| == |b| && forall i :: 0 <= i < |b| ==> SameUpToCase(a[i], b[i]) {
      assert forall i :: 0 <= i < |a| ==> Lower(a)[i] == Lower(b)[i];
      assert Lower(a) == Lower(b);
    }
    if Matches(s, user) {
      assert |a| == |Lower(a)| == |Lower(b)| == |b|;
      assert forall i :: 0 <= i < |b| ==> Lower(a)[i] == Lower(b)[i];
    }
  }

  /** A real observation: the session belongs to `user` and reports an item in this poll. */
  predicate Observes(s: Session, user: string) {
    Matches(s, user) && s.nowPlayingItem.Some?
  }

  /** The reported position in ticks; 0 when the play state or its position is absent. */
  function Position(s: Session): (r: I64)
    ensures s.playState.None? ==> r == 0
    ensures s.playState.Some? && s.playState.value.positionTicks.None? ==> r == 0
    ensures s.playState.Some? && s.playState.value.positionTicks.Some? ==> r == s.playState.value.positionTicks.value
  {
    match s.playState
    case None => 0
    case Some(ps) => ps.positionTicks.GetOr(0)
  }

  /** The item's runtime in ticks, 0 when unknown. */
  function RuntimeTicks(item: NowPlayingItem): I64 {
    item.runtimeTicks.GetOr(0)
  }

  /**
   * Rust's `t / 10_000_000` on `i64`, which truncates toward zero
   * (Dafny's own `/` is Euclidean and rounds negative quotients down).
   */
  function TicksToSecs(t: I64): (r: I64)
    ensures 0 <= t ==> 0 <= r * TICKS_PER_SECOND <= t < r * TICKS_PER_SECOND + TICKS_PER_SECOND
    ensures t < 0 ==> r * TICKS_PER_SECOND - TICKS_PER_SECOND < t <= r * TICKS_PER_SECOND <= 0
    ensures r == 0 <==> -TICKS_PER_SECOND < t < TICKS_PER_SECOND
  {
    var magnitude: int := if t >= 0 then t else -(t as int);
    if t >= 0 then magnitude / TICKS_PER_SECOND else -(magnitude / TICKS_PER_SECOND)
  }
}
