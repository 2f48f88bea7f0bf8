/**
 * Choosing the artwork URL for an item (src/covers.rs): a precedence table
 * over the item's kind and the identifiers it carries. The server's base URL
 * and API key are parameters.
 */
module Covers {
  import opened Wrappers
  import opened Sessions

  /** The query string every cover URL ends with. */
  function Query(apiKey: string): string {
    "maxWidth=512&quality=90&api_key=" + apiKey
  }

  /** The part of every cover URL that precedes the chosen id. */
  function UrlPrefix(url: string): string {
    url + "/Items/"
  }

  /** The part of every cover URL that follows the chosen id. */
  function UrlSuffix(apiKey: string): string {
    "/Images/Primary?" + Query(apiKey)
  }

  /** The primary image of item `id`. */
  function ImageUrl(url: string, id: string, apiKey: string): (r: string)
    ensures r == UrlPrefix(url) + id + UrlSuffix(apiKey)
  {
    url + "/Items" + "/" + id + "/Images/Primary?" + Query(apiKey)
  }

  /** Reading the id back out of a cover URL. */
  function IdOfUrl(u: string, url: string, apiKey: string): string
    requires |UrlPrefix(url)| + |UrlSuffix(apiKey)| <= |u|
  {
    u[|UrlPrefix(url)|..|u| - |UrlSuffix(apiKey)|]
  }

  /** A cover URL names the id it was built from. */
  lemma ImageUrlNamesId(url: string, id: string, apiKey: string)
    ensures var u := ImageUrl(url, id, apiKey);
            |UrlPrefix(url)| + |UrlSuffix(apiKey)| <= |u| && IdOfUrl(u, url, apiKey) == id
  {
  }

  /** Whether the item's image tags are present and include a "Primary" image. */
  predicate HasPrimary(item: NowPlayingItem): (r: bool)
    ensures r <==> item.imageTags.Some? && Get(item.imageTags.value, "Primary").Some?
  {
    match item.imageTags
    case None => false
    case Some(tags) => "Primary" in tags
  }

  /** The item's own id when it has a primary image. */
  function OwnIdIfPrimary(item: NowPlayingItem): Option<string> {
    if HasPrimary(item) then Some(item.id) else None
  }

  /** The first present entry of `candidates`. */
  function FirstPresent(candidates: seq<Option<string>>): Option<string> {
    if |candidates| == 0 then None
    else if candidates[0].Some? then candidates[0]
    else FirstPresent(candidates[1..])
  }

  /** The ids to try, best first, for each kind of item; no list at all when the kind is missing. */
  function Precedence(item: NowPlayingItem): Option<seq<Option<string>>> {
    match item.itemType
    case None => None
    case Some(kind) =>
      if kind == "Audio" then Some([OwnIdIfPrimary(item), item.albumId, item.parentId])
      else if kind == "Episode" then Some([item.seasonId, item.seriesId, OwnIdIfPrimary(item)])
      else if kind == "Movie" then Some([OwnIdIfPrimary(item), item.parentId, Some(item.id)])
      else Some([Some(item.id)])
  }

  /** The id whose image is used: the first present entry of the kind's precedence list. */
  function CoverId(item: NowPlayingItem): Option<string> {
    match Precedence(item)
    case None => None
    case Some(candidates) => FirstPresent(candidates)
  }

  /** The first present of three candidates. */
  lemma FirstPresentOfThree(a: Option<string>, b: Option<string>, c: Option<string>)
    ensures FirstPresent([a, b, c]) == if a.Some? then a else if b.Some? then b else c
  {
    assert [a, b, c][1..] == [b, c];
    assert [b, c][1..] == [c];
    assert [c][1..] == [];
    assert FirstPresent([c]) == c;
    assert FirstPresent([b, c]) == if b.Some? then b else c;
  }

  /**
   * `get_cover_url`: the image of the first id of the kind's precedence list
   * that is present. Audio: its own primary image, the album, the parent.
   * Episode: the season, the series, its own primary image. Movie: its own
   * primary image, the parent, and otherwise its own id regardless. Any other
   * kind: its own id. A missing kind gives no URL.
   */
  function CoverUrl(item: NowPlayingItem, url: string, apiKey: string): Option<string> {
    match item.itemType
    case None => None
    case Some(kind) =>
      if kind == "Audio" then
        if HasPrimary(item) then Some(ImageUrl(url, item.id, apiKey))
        else if item.albumId.Some? then Some(ImageUrl(url, item.albumId.value, apiKey))
        else if item.parentId.Some? then Some(ImageUrl(url, item.parentId.value, apiKey))
        else None
      else if kind == "Episode" then
        if item.seasonId.Some? then Some(ImageUrl(url, item.seasonId.value, apiKey))
        else if item.seriesId.Some? then Some(ImageUrl(url, item.seriesId.value, apiKey))
        else if HasPrimary(item) then Some(ImageUrl(url, item.id, apiKey))
        else None
      else if kind == "Movie" then
        if HasPrimary(item) then Some(ImageUrl(url, item.id, apiKey))
        else if item.parentId.Some? then Some(ImageUrl(url, item.parentId.value, apiKey))
        else Some(ImageUrl(url, item.id, apiKey))
      else Some(ImageUrl(url, item.id, apiKey))
  }

  /** `CoverUrl` is the image of `CoverId`, the first present id of the kind's precedence list. */
  lemma CoverUrlFollowsPrecedence(item: NowPlayingItem, url: string, apiKey: string)
    ensures CoverUrl(item, url, apiKey) == match CoverId(item)
                                           case None => None
                                           case Some(id) => Some(ImageUrl(url, id, apiKey))
  {
    match item.itemType
    case None =>
    case Some(kind) =>
      if kind == "Audio" {
        FirstPresentOfThree(OwnIdIfPrimary(item), item.albumId, item.parentId);
      } else if kind == "Episode" {
        FirstPresentOfThree(item.seasonId, item.seriesId, OwnIdIfPrimary(item));
      } else if kind == "Movie" {
        FirstPresentOfThree(OwnIdIfPrimary(item), item.parentId, Some(item.id));
      } else {
        assert [Some(item.id)][1..] == [];
      }
  }

  /**
   * There is no cover exactly when the kind is missing, or an Audio item has
   * neither its own primary image nor an album or parent id, or an Episode has
   * neither a season nor a series id nor its own primary image.
   */
  lemma CoverUrlAbsentIff(item: NowPlayingItem, url: string, apiKey: string)
    ensures CoverUrl(item, url, apiKey).None? <==>
            || item.itemType.None?
            || (item.itemType == Some("Audio") && !HasPrimary(item)
                && item.albumId.None? && item.parentId.None?)
            || (item.itemType == Some("Episode") && item.seasonId.None?
                && item.seriesId.None? && !HasPrimary(item))
  {
  }

  /** Every cover URL is the primary image of one of the item's own, album, parent, season or series ids. */
  lemma CoverUrlNamesKnownId(item: NowPlayingItem, url: string, apiKey: string)
    requires CoverUrl(item, url, apiKey).Some?
    ensures exists id :: id in [Some(item.id), item.albumId, item.parentId, item.seasonId, item.seriesId]
                         && id.Some? && CoverUrl(item, url, apiKey) == Some(ImageUrl(url, id.value, apiKey))
  {
  }
}
