# jellyfin-rpc presence bridge, modelled in Dafny

The bridge polls a Jellyfin server's session list and mirrors what the
configured user is playing as a Discord Rich Presence activity. This project
models the decision core of one polling cycle and proves what it does:

- **Session selection** (`Jellyfin`): the loop of `pick_session_for_user`.
  It keeps the user's sessions, matched case-insensitively. It records every
  real now-playing item and position in two per-session caches. A session that
  reports no item falls back to its cached item. It then chooses one session:
  a real item beats a stale one, a strictly greater position wins, and ties keep
  the first session seen. `Select` is the specification, a left fold over the
  poll. The method `PickSessionForUser` runs the loop on the `State` object and
  is proved to compute it.
- **The cycle state machine** (`Driver`, with `BridgeState` for the five maps
  and the active session of `State`). This is the body of `main`'s loop:
  - real item: clear the session's gap, then show the item or clear at
    position 0;
  - gap with a cached item: Case 1 (short item) and Case 2 (early stop) hold;
    Case 3 rewinds once per gap and advances the display with the gap;
  - after the cases: the expiry clear, or else the completion clear;
  - no cached item, or no session: a rate-limited clear.

  `Cycle` is the specification, a function of a state snapshot. The method
  `Step` mutates the `State` object and is proved equal to it, branch method
  by branch function. `CycleProperties` proves the branches' promises, the
  rate limit, the state invariant, and how the displayed elapsed time moves
  across consecutive cycles of a gap.
- **Cover artwork** (`Covers`): `has_primary` and the precedence table of
  `get_cover_url`. The server URL and API key are parameters.
- **Presence payloads** (`Discord`): what `set_activity` derives from an item,
  its elapsed and runtime seconds and the current Unix time: the two text
  lines, the activity type, the clamp and the timestamp window, and the cover
  or "default". It also gives the shape of the `clear_discord` payload.

Instants are whole seconds, and `now` is a parameter of each cycle.
`Instant::elapsed().as_secs()` is `ElapsedSecs`, which saturates at 0. Ticks
become seconds by Rust's `i64` division, which truncates toward zero; this is
written out in `TicksToSecs`. `i64::saturating_sub` is written out in
`SaturatingSub`. Each clear carries the reason its branch logs, so the
branches can be told apart.

The model follows the code in these points:

- Only the selected session's gap entries are cleared when a real item is
  seen. Another session of the user that reports a real item keeps any stale
  gap entries (src/main.rs:85-88).
- The completion clear does not restart the update interval; only the expiry
  clear does (src/main.rs:155-165).
- A Case-3 update and an expiry or completion clear can both be sent in the
  same cycle (src/main.rs:137-165).
- The rewind base uses `i64::saturating_sub`, not a clamp at 0. In Case 3 the
  last elapsed time is at least the threshold, so the base is never negative
  (src/main.rs:128-131).

## Model

| member | source | states |
|---|---|---|
| Sessions.Position | src/jellyfin.rs:85 | The position is the reported ticks, and 0 when the play state or its position is missing |
| Sessions.TicksToSecs | src/main.rs:93-94 | Seconds from ticks, truncated toward zero for both signs; 0 exactly for less than one second either way |
| Sessions.LowerChar | src/jellyfin.rs:80 | Each ASCII upper-case letter maps to its own lower-case letter; everything else is unchanged |
| Sessions.LowerCharSameIff | src/jellyfin.rs:80 | Two characters lower-case alike exactly when they are equal or the same ASCII letter in the two cases |
| Sessions.MatchesIffSameUpToCase | src/jellyfin.rs:80 | A session belongs to the user exactly when its user name has the same length and differs at most in the ASCII case of each letter |
| BridgeState.State.constructor | src/main.rs:48-58 | A fresh state has every map empty and no active session, and satisfies the invariant |
| BridgeState.Forget | src/main.rs:149-153 | Removes the session from all five per-session maps, keeps every other session's entries and the active session, and keeps the invariant |
| Jellyfin.SelectNoneIff | src/jellyfin.rs:79-82 | Nothing is chosen exactly when no session's lower-cased user name equals the lower-cased target |
| Jellyfin.SelectWinner | src/jellyfin.rs:84-104 | The winner is one of the user's sessions with its own id and position. It is real iff some session of the user has a real item, and then carries that item. Its position is the maximum of its realness class, and every earlier session of the class is strictly lower |
| Jellyfin.SelectChoiceIgnoresCache | src/jellyfin.rs:95-104 | Which session wins, its position and its realness do not depend on the cache contents |
| Jellyfin.SelectCacheRecords | src/jellyfin.rs:90-93 | Every real observation of the user is cached with its item and position, selected or not, unless a later one with the same id overwrites it |
| Jellyfin.SelectCacheUnchanged | src/jellyfin.rs:80-82 | An id that no real observation of the user carries keeps both cache entries |
| Jellyfin.SelectCacheKeys | src/jellyfin.rs:90-93 | The cache gains exactly the ids of the user's real observations, and its two maps keep equal key sets |
| Jellyfin.SelectStale | src/jellyfin.rs:87-88 | Without real observations the cache is untouched, and a chosen stale session carries the cached item for its id, or none |
| Jellyfin.PickSessionForUser | src/jellyfin.rs:72-108 | The loop returns the chosen session of `Select` and leaves the caches as `Select` does; no other field of the state changes |
| Covers.HasPrimary | src/covers.rs:4-9 | True exactly when the image tags are present and looking up the key "Primary" in them finds a tag |
| Covers.ImageUrl | src/covers.rs:12-13 | Every cover URL is the server's `/Items/` prefix, the chosen id and the fixed image suffix with the API key |
| Covers.ImageUrlNamesId | src/covers.rs:19 | The id can be read back out of a cover URL |
| Covers.CoverUrlFollowsPrecedence | src/covers.rs:11-63 | The URL is the image of the first present id in the kind's list: Audio (own primary image, album, parent); Episode (season, series, own primary image); Movie (own primary image, parent, own id); other kinds (own id); no kind gives no URL |
| Covers.CoverUrlAbsentIff | src/covers.rs:15-47 | No URL exactly when the kind is missing, or an Audio item or an Episode has none of its candidates |
| Covers.CoverUrlNamesKnownId | src/covers.rs:16-61 | Every URL names the item's own, album, parent, season or series id |
| Discord.NatToString | src/discord.rs:26 | Decimal digits, with a leading zero only for 0 itself; one digit below 10 and two below 100 |
| Discord.NatToStringRoundTrip | src/discord.rs:26 | The decimal digits of a number read back as that number |
| Discord.IntToStringRoundTrip | src/discord.rs:26 | A formatted `i32`, with its optional sign, reads back as itself |
| Discord.Pad2RoundTrip | src/discord.rs:35 | `{:02}` of a non-negative number is all digits, reads back as the number, and is exactly two wide below 100 |
| Discord.JoinSnoc | src/discord.rs:21 | `join` of no parts is empty, of one part is that part, and appending a part appends the separator and the part |
| Discord.JoinLength | src/discord.rs:21 | Joining adds exactly one separator between neighbours |
| Discord.PresentByKind | src/discord.rs:18-42 | The first line is the name. Only Audio is "Listening" (2), all else "Watching" (3). Audio shows its artists joined by ", " (empty without artists). A movie shows its year, read back exactly, or "Movie". An episode shows its episode line. Any other or missing kind has an empty second line |
| Discord.EpisodeStateShape | src/discord.rs:30-39 | "TV Show" without a series name; the series name alone when a number is missing. Otherwise it ends with the series name, and with both numbers in 0..99 it is "S", two digits of the season, "E", two digits of the episode, space, en dash, space, and the series |
| Discord.ClampElapsed | src/discord.rs:45 | With a known runtime, the minimum of elapsed and runtime; otherwise elapsed |
| Discord.SetActivity | src/discord.rs:10-63 | A SET_ACTIVITY command that starts the clamped elapsed time before now and lasts the runtime (or 1 s). Its image is the cover URL or "default", and its text is the kind's presentation |
| Discord.SetActivityWindow | src/discord.rs:55-56 | The window ends after it starts; with a known runtime and non-negative elapsed time, now lies inside it |
| Discord.ClearDiscord | src/discord.rs:69-74 | A SET_ACTIVITY command with no activity |
| Driver.ElapsedSecs | src/main.rs:96 | Whole seconds since an instant, and 0 for an instant not yet reached |
| Driver.SaturatingSub | src/main.rs:128 | `i64::saturating_sub`: the difference, or the bound it overflows |
| Driver.Step | src/main.rs:80-178 | One pass of the loop changes the state, the update instant and the commands sent exactly as `Cycle` |
| Driver.ClearIfDue | src/main.rs:166-178 | The rate-limited clear, as `OrdinaryClear` |
| Driver.ShowRealItem | src/main.rs:85-106 | The real-item branch, as `RealItem` |
| Driver.FollowGap | src/main.rs:108-165 | The gap branch, as `Gap` |
| Driver.HoldOrRewind | src/main.rs:116-143 | The three cases, as `Held` |
| Driver.ApplyRewind | src/main.rs:125-142 | Case 3, as `Rewind`: the base is created if absent and written through while the flag is unset |
| Driver.EndGap | src/main.rs:145-165 | The expiry and completion clears, as `CloseGap` |
| Driver.ForgetSession | src/main.rs:149-153 | Removes the session from the five maps, as `Forget` |
| CycleProperties.CycleFetchFailed | src/main.rs:80-81 | A failed request or parse changes nothing and sends nothing |
| CycleProperties.CycleNoSession | src/main.rs:173-178 | Without a session of the user, a clear that waits for the interval, forgets the active session and restarts the interval |
| CycleProperties.StaleCycle | src/main.rs:107-171 | A stale choice leaves the cache alone; the cycle is the gap logic on the cached item, or the clear for no cached item |
| CycleProperties.CycleRealItem | src/main.rs:85-106 | A real item ends the chosen session's gap. When due: a clear at position 0, else the item with its elapsed and runtime seconds, and the active session set accordingly. When not due: nothing is sent and the instant is kept. The whole new state is the poll's cache with the session's three gap entries removed and every other entry kept |
| CycleProperties.CycleCache | src/main.rs:80-165 | After a cycle the cache is what the poll left, or that minus the chosen stale session when its gap ends with the expiry or completion clear |
| CycleProperties.GapCache | src/main.rs:107-165 | The gap logic keeps the cache, or drops the session from both cache maps exactly alongside a gap-ending clear |
| CycleProperties.CacheOutlivesAbsence | src/jellyfin.rs:90-93 | A real observation of a session is cached with its item and position after its cycle, and still after a later cycle whose poll does not report that session |
| CycleProperties.GapStartFixed | src/main.rs:113-114 | The gap start is set at the gap's first cycle and kept afterwards |
| CycleProperties.GapHolds | src/main.rs:117-124 | Cases 1 and 2 send no update and never write the rewind base or flag |
| CycleProperties.GapRewinds | src/main.rs:125-142 | Case 3 takes the recorded base, or a fresh one the threshold below the last elapsed time; it is never negative. When due, the update shows base plus gap; the base stays recorded and flagged |
| CycleProperties.GapExpires | src/main.rs:146-155 | A gap over the maximum ends in an unconditional clear. The new state is the old one with the session forgotten and no active session, and the interval restarts |
| CycleProperties.GapCompletes | src/main.rs:156-165 | An item played to its known end ends in an unconditional clear. The new state is the old one with the session forgotten and no active session; the interval restarts only if a Case-3 update was sent in the same cycle |
| CycleProperties.GapWritesOnlyGapEntries | src/main.rs:113-153 | Before the closing clears, the gap logic writes only the session's gap entries and the active session, so forgetting the session afterwards equals forgetting it beforehand |
| CycleProperties.GapContinues | src/main.rs:145-165 | A gap that neither expires nor completes keeps the session's cache and sends at most one update |
| CycleProperties.GapContinuesOnSameEntries | src/main.rs:108-114 | A gap cycle that keeps the session leaves its cached item, position and gap start for the next cycle |
| CycleProperties.CycleRateLimit | src/main.rs:96-106 | Every update and ordinary clear waits for the interval and restarts it. Only the expiry clear moves the instant otherwise. At most two commands per cycle, and then an update followed by a gap-ending clear |
| CycleProperties.GapRateLimit | src/main.rs:137-165 | The gap logic meets the same rate limit: its update waits for the interval and restarts it, only the expiry clear otherwise moves the instant, and at most an update followed by a gap-ending clear is sent |
| CycleProperties.CycleTouchesOnlyChosen | src/main.rs:86-88 | Gap start, rewind base and rewind flag of every session other than the chosen one are unchanged |
| CycleProperties.GapTouchesOnlyChosen | src/main.rs:113-153 | The gap logic leaves every other session's cached item and position, gap start, rewind base and flag as they were |
| CycleProperties.HeldTouchesOnlyChosen | src/main.rs:116-143 | The three cases write only the session's rewind base and flag and the active session |
| CycleProperties.CycleKeepsInv | src/main.rs:39-46 | Every cycle keeps the state invariant: equal cache key sets, gap entries only for cached sessions, a non-negative and flagged base only inside a gap |
| CycleProperties.RealItemKeepsInv | src/main.rs:85-106 | The real-item branch keeps the state invariant |
| CycleProperties.GapKeepsInv | src/main.rs:113-153 | The gap logic keeps the state invariant |
| CycleProperties.FirstCycleWaits | src/main.rs:71-72 | Starting from a fresh state, nothing at all is sent before the first full update interval |
| CycleProperties.StaleEmitIsGap | src/main.rs:107-143 | Without real items, a cycle that sends an update is the gap logic of the chosen session on the unchanged cache |
| CycleProperties.GapEmit | src/main.rs:125-142 | A gap cycle that sends an update is in Case 3 and due, shows the cached item and runtime at the rewind base plus the gap, and leaves the base recorded and flagged unless the gap ends |
| CycleProperties.GapTwice | src/main.rs:127-138 | Two consecutive updates of one gap show the same item and runtime from the same base, and the elapsed time grows by at most the time between them |
| CycleProperties.GapDisplayAdvancesAcrossPolls | src/main.rs:127-138 | For any two poll answers without real items that choose the same session, two consecutive updates show the same item, and the elapsed time never goes down and grows by at most the time between the cycles |
| CycleProperties.GapDisplayAdvances | src/main.rs:127-138 | On the same poll answer without real items the same session is chosen, so across consecutive cycles of one gap the displayed elapsed time never goes down and grows by at most the time between the cycles |

## Left out

- HTTP transport and JSON deserialisation (src/main.rs:75-81): a cycle takes the already-parsed session list, or `None` when the request or the parse failed.
- The Discord IPC client, its connection and `send` (src/main.rs:66-69, src/discord.rs:65, 75), the per-command nonce and process id (src/discord.rs:60-62, 72-73), and the log lines. The payloads are values; a cycle returns the commands it sends, in order.
- `Utc::now` and `Instant::now` (src/discord.rs:16, src/main.rs:72, 105, 113, 141, 155, 170, 177) are parameters. One `now` stands for every clock reading of a cycle.
- The infinite loop and the poll sleep (src/main.rs:74, 182): the model is one cycle, with lemmas over two consecutive cycles.
- Reading the configuration from the environment and its panics (src/main.rs:19-36): `Config` holds the values, and `DefaultConfig` the defaults 5, 40 and 40 (the poll interval of 1 is not used by a cycle). The server URL and API key are parameters of the cover functions.
- src/env_utils.rs is not part of this model.
- Sessions.Lower: uses ASCII lower-casing, not Rust's full Unicode `to_lowercase`.
- Overflow of the displayed elapsed time and of the timestamps: `base + gap` in `Driver.Rewind`, and `now - elapsed_clamped` and `now - elapsed_clamped + runtime` in `Discord.SetActivity` (src/discord.rs:55-56), are unbounded integers, so the `i64` wrap or panic of those additions, and of the `u64`-to-`i64` cast of the gap, near the `i64` bounds is not modelled.
- The `u64` interval and gap limits of the configuration are unbounded `nat`s.
