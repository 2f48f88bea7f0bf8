/**
 * The presence payloads the bridge sends (src/discord.rs): what `set_activity`
 * derives from an item, its elapsed and runtime seconds and the current Unix
 * time, and the payload of `clear_discord`. Sending them is not modelled.
 */
module Discord {
  import opened Wrappers
  import opened Sessions
  import Covers

  /** The "activity" object of a SET_ACTIVITY command. */
  datatype Activity = Activity(
    details: string,
    state: string,
    largeImage: string,
    start: int,
    end: int,
    activityType: int)

  /** A SET_ACTIVITY command: an activity to show, or none to clear the display. */
  datatype Payload = Payload(cmd: string, activity: Option<Activity>)

  // Decimal formatting of integers, as Rust's `Display` for `i32` writes them.

  predicate IsDigit(c: char) {
    '0' <= c <= '9'
  }

  predicate AllDigits(s: string) {
    forall i :: 0 <= i < |s| ==> IsDigit(s[i])
  }

  function DigitChar(d: nat): (c: char)
    requires d < 10
    ensures IsDigit(c) && c as int - '0' as int == d
  {
    ('0' as int + d) as char
  }

  /** The decimal digits of `n`, most significant first, without leading zeros. */
  function NatToString(n: nat): (r: string)
    ensures 1 <= |r| && AllDigits(r)
    ensures r[0] == '0' ==> n == 0
    ensures n < 10 <==> |r| == 1
    ensures 10 <= n < 100 ==> |r| == 2
    decreases n
  {
    if n < 10 then [DigitChar(n)] else NatToString(n / 10) + [DigitChar(n % 10)]
  }

  /** The value of a string of decimal digits. */
  function DigitsValue(s: string): nat
    requires AllDigits(s)
    decreases |s|
  {
    if |s| == 0 then 0
    else DigitsValue(s[..|s| - 1]) * 10 + (s[|s| - 1] as int - '0' as int)
  }

  /** Reading back the digits of `n` gives `n`. */
  lemma {:induction false} NatToStringRoundTrip(n: nat)
    ensures DigitsValue(NatToString(n)) == n
    decreases n
  {
    if n >= 10 {
      NatToStringRoundTrip(n / 10);
      var r := NatToString(n);
      assert r[..|r| - 1] == NatToString(n / 10);
    }
  }

  /** `i32::to_string`: an optional minus sign, then the digits. */
  function IntToString(n: int): string {
    if n < 0 then "-" + NatToString(-n) else NatToString(n)
  }

  predicate IsIntLiteral(s: string) {
    if 1 <= |s| && s[0] == '-' then 1 < |s| && AllDigits(s[1..]) else 1 <= |s| && AllDigits(s)
  }

  function ParseInt(s: string): int
    requires IsIntLiteral(s)
  {
    if s[0] == '-' then 0 - DigitsValue(s[1..]) as int else DigitsValue(s)
  }

  /** Every formatted integer reads back as itself. */
  lemma IntToStringRoundTrip(n: int)
    ensures IsIntLiteral(IntToString(n)) && ParseInt(IntToString(n)) == n
  {
    if n < 0 {
      NatToStringRoundTrip(-n);
      assert IntToString(n)[1..] == NatToString(-n);
    } else {
      NatToStringRoundTrip(n);
    }
  }

  /** Rust's `{:02}`: at least two characters, zero-padded after any sign. */
  function Pad2(n: int): string {
    if 0 <= n < 10 then "0" + NatToString(n) else IntToString(n)
  }

  /** A non-negative number padded to two places is all digits, reads back as itself, and is exactly two wide below 100. */
  lemma Pad2RoundTrip(n: nat)
    ensures var r := Pad2(n);
            && 2 <= |r| && AllDigits(r) && DigitsValue(r) == n
            && (n < 100 ==> |r| == 2)
  {
    NatToStringRoundTrip(n);
    if n < 10 {
      var r := Pad2(n);
      assert r[..1] == "0";
    }
  }

  /** `Vec::join`: the parts with `sep` between neighbours. */
  function Join(parts: seq<string>, sep: string): string
    decreases |parts|
  {
    if |parts| == 0 then ""
    else if |parts| == 1 then parts[0]
    else parts[0] + sep + Join(parts[1..], sep)
  }

  /**
   * Join is determined by its first two cases and this one: appending a part
   * appends the separator and the part.
   */
  lemma {:induction false} JoinSnoc(parts: seq<string>, sep: string, last: string)
    requires 1 <= |parts|
    ensures Join([], sep) == "" && Join([last], sep) == last
    ensures Join(parts + [last], sep) == Join(parts, sep) + sep + last
    decreases |parts|
  {
    if |parts| == 1 {
      assert (parts + [last])[1..] == [last];
    } else {
      assert (parts + [last])[1..] == parts[1..] + [last];
      JoinSnoc(parts[1..], sep, last);
    }
  }

  function TotalLength(parts: seq<string>): nat
    decreases |parts|
  {
    if |parts| == 0 then 0 else |parts[0]| + TotalLength(parts[1..])
  }

  /** Joining adds one separator between each pair of neighbours and nothing else. */
  lemma {:induction false} JoinLength(parts: seq<string>, sep: string)
    requires 1 <= |parts|
    ensures |Join(parts, sep)| == TotalLength(parts) + (|parts| - 1) * |sep|
    decreases |parts|
  {
    if |parts| > 1 {
      JoinLength(parts[1..], sep);
    }
  }

  /** The two lines of text shown, and the activity kind: 2 is "Listening", 3 is "Watching". */
  datatype Presentation = Presentation(details: string, state: string, activityType: int)

  const EN_DASH: char := '\U{2013}'

  /** An episode's second line: "SxxEyy – series" when all three are known, else the series, else "TV Show". */
  function EpisodeState(item: NowPlayingItem): string {
    if item.seasonNumber.Some? && item.episodeNumber.Some? && item.seriesName.Some? then
      "S" + Pad2(item.seasonNumber.value) + "E" + Pad2(item.episodeNumber.value)
        + [' ', EN_DASH, ' '] + item.seriesName.value
    else item.seriesName.GetOr("TV Show")
  }

  /** The per-kind text of `set_activity`. */
  function Present(item: NowPlayingItem): Presentation {
    if item.itemType == Some("Audio") then
      Presentation(item.name, Join(item.artists.GetOr([]), ", "), 2)
    else if item.itemType == Some("Movie") then
      Presentation(item.name,
                   match item.productionYear
                   case Some(year) => IntToString(year)
                   case None => "Movie",
                   3)
    else if item.itemType == Some("Episode") then
      Presentation(item.name, EpisodeState(item), 3)
    else
      Presentation(item.name, "", 3)
  }

  /**
   * The first line is always the item's name; only Audio is shown as
   * "Listening" (2), everything else as "Watching" (3). An audio track's second
   * line is its artists joined by ", ", empty without artists; a movie's second
   * line is its production year, read back exactly, or "Movie"; an episode's is
   * `EpisodeState`; an item of any other or missing kind has an empty second line.
   */
  lemma PresentByKind(item: NowPlayingItem)
    ensures var p := Present(item);
            && p.details == item.name
            && (p.activityType == 2 <==> item.itemType == Some("Audio"))
            && (p.activityType == 2 || p.activityType == 3)
            && (item.itemType == Some("Movie") && item.productionYear.Some? ==>
                  IsIntLiteral(p.state) && ParseInt(p.state) == item.productionYear.value)
            && (item.itemType == Some("Movie") && item.productionYear.None? ==> p.state == "Movie")
            && (item.itemType == Some("Audio") ==> p.state == Join(item.artists.GetOr([]), ", "))
            && (item.itemType == Some("Audio") && item.artists.GetOr([]) == [] ==> p.state == "")
            && (item.itemType == Some("Episode") ==> p.state == EpisodeState(item))
            && (item.itemType.None? || item.itemType.value !in {"Audio", "Movie", "Episode"} ==> p.state == "")
  {
    if item.itemType == Some("Movie") && item.productionYear.Some? {
      IntToStringRoundTrip(item.productionYear.value);
    }
  }

  /**
   * An episode's second line is "TV Show" without a series name, and the series
   * name alone when the season or episode number is missing. With all three it
   * ends with the series name and, for numbers in 0..99, it is "S", two digits
   * that read back as the season, "E", two digits that read back as the episode,
   * a space, an en dash, a space, and the series name.
   */
  lemma EpisodeStateShape(item: NowPlayingItem)
    ensures var st := EpisodeState(item);
            && (item.seriesName.None? ==> st == "TV Show")
            && (item.seriesName.Some? && (item.seasonNumber.None? || item.episodeNumber.None?) ==>
                  st == item.seriesName.value)
            && (item.seriesName.Some? ==>
                  var series := item.seriesName.value;
                  |series| <= |st| && st[|st| - |series|..] == series)
            && (item.seriesName.Some? && item.seasonNumber.Some? && item.episodeNumber.Some?
                && 0 <= item.seasonNumber.value < 100 && 0 <= item.episodeNumber.value < 100 ==>
                  var series := item.seriesName.value;
                  && |st| == 9 + |series| && st[0] == 'S' && st[3] == 'E'
                  && AllDigits(st[1..3]) && DigitsValue(st[1..3]) == item.seasonNumber.value
                  && AllDigits(st[4..6]) && DigitsValue(st[4..6]) == item.episodeNumber.value
                  && st[6..9] == [' ', EN_DASH, ' '] && st[9..] == series)
  {
    var st := EpisodeState(item);
    if item.seriesName.Some? && item.seasonNumber.Some? && item.episodeNumber.Some? {
      var series := item.seriesName.value;
      var season := item.seasonNumber.value;
      var episode := item.episodeNumber.value;
      var head := "S" + Pad2(season) + "E" + Pad2(episode) + [' ', EN_DASH, ' '];
      assert st == head + series;
      assert st[|st| - |series|..] == series;
      if 0 <= season < 100 && 0 <= episode < 100 {
        Pad2RoundTrip(season);
        Pad2RoundTrip(episode);
        assert st[1..3] == Pad2(season);
        assert st[4..6] == Pad2(episode);
        assert st[6..9] == [' ', EN_DASH, ' '];
      }
    }
  }

  /** `min(elapsed, runtime)` when the runtime is known (positive), else the elapsed time unchanged. */
  function ClampElapsed(elapsed: int, runtime: int): (r: int)
    ensures runtime > 0 ==> r <= elapsed && r <= runtime && (r == elapsed || r == runtime)
    ensures runtime <= 0 ==> r == elapsed
  {
    if runtime > 0 then (if elapsed <= runtime then elapsed else runtime) else elapsed
  }

  /**
   * `set_activity`: the payload shown for `item`, `elapsed` seconds into it, of
   * `runtime` seconds, at Unix time `now`. It starts `ClampElapsed` seconds
   * before `now` and lasts the runtime, or one second when that is unknown; its
   * image is the item's cover, or "default" when there is none.
   */
  function SetActivity(item: NowPlayingItem, elapsed: int, runtime: int, now: int,
                       url: string, apiKey: string): (p: Payload)
    ensures p.cmd == "SET_ACTIVITY" && p.activity.Some?
    ensures var a := p.activity.value;
            && a.start == now - ClampElapsed(elapsed, runtime)
            && a.end - a.start == (if runtime > 0 then runtime else 1)
            && a.largeImage == Covers.CoverUrl(item, url, apiKey).GetOr("default")
            && Presentation(a.details, a.state, a.activityType) == Present(item)
  {
    var text := Present(item);
    var coverUrl := match Covers.CoverUrl(item, url, apiKey)
                    case Some(u) => u
                    case None => "default";
    var elapsedClamped := ClampElapsed(elapsed, runtime);
    var start := now - elapsedClamped;
    var end := if runtime > 0 then now - elapsedClamped + runtime else now - elapsedClamped + 1;
    Payload("SET_ACTIVITY", Some(Activity(text.details, text.state, coverUrl, start, end, text.activityType)))
  }

  /**
   * The shown window always ends after it starts; with a non-negative elapsed
   * time it starts no later than `now`, and with a known runtime `now` also lies
   * inside it (the progress bar never overruns).
   */
  lemma SetActivityWindow(item: NowPlayingItem, elapsed: int, runtime: int, now: int,
                          url: string, apiKey: string)
    ensures var a := SetActivity(item, elapsed, runtime, now, url, apiKey).activity.value;
            && a.start < a.end
            && (0 <= elapsed ==> a.start <= now)
            && (0 <= elapsed && runtime > 0 ==> a.start <= now <= a.end)
  {
  }

  /** `clear_discord`: a SET_ACTIVITY command with no activity. */
  function ClearDiscord(): (p: Payload)
    ensures p.cmd == "SET_ACTIVITY" && p.activity.None?
  {
    Payload("SET_ACTIVITY", None)
  }
}
