# Last.fm → Slack status sync, modelled in Dafny

The program polls Last.fm's `user.getrecenttracks` for one user's most recent track. It mirrors the track that is playing into the user's Slack status text and clears the status when playback stops. This project models the parts of `index.js` that make decisions:

- `LastFm` (`lastfm.dfy`): the decoded recent-tracks answer as a tagged union (unreadable, API error, no tracks, one track object, track array). `Normalize` maps it to an optional `NowPlaying`. It uses the first array element and the exact `"true"` now-playing marker. The artist is either nested `#text` or a plain string. The image is the first `"medium"` variant.
- `StatusText` (`status_text.dfy`): `"<track> - <artist>"`. It is cut to Slack's 100-character limit by keeping 97 characters and appending three ASCII dots.
- `Settings` (`settings.dfy`): the status-emoji and clear-when-idle defaults, and the start-up check that names the missing credentials.
- `SyncLoop` (`sync_loop.dfy`): one poll as a pure step function `Tick(cfg, state, nowPlaying, writeOk)`. It returns the next state and the status write it issues, if any. The state is `lastStatus`, which is `None` at process start. The Last.fm result and the write's success are inputs.
- `SyncRuns` (`sync_runs.dfy`): runs of many ticks. It proves deduplication, implicit retry until a write succeeds, and that the state always records the last successful write.

The truncation marker is three ASCII dots (`'...'`, index.js:119), not an ellipsis character.

## Model

| member | source | states |
|---|---|---|
| LastFm.FirstMedium | index.js:70 | the index found is the first image variant whose size is exactly "medium"; none is found exactly when no variant has that size |
| LastFm.MediumImage | index.js:70 | the image URL is that of the first "medium" variant (absent if that variant has none), and it is absent when no variant is "medium" |
| LastFm.Describe | index.js:59-71 | a track yields a record iff its `@attr.nowplaying` is exactly "true"; the record carries the track name, the album text, the nested or plain artist, and the first medium image |
| LastFm.Normalize | index.js:43-75 | read failures, API errors, a missing track field and an empty array yield none; a single object is used as-is; an array contributes only its first element; the result is present iff that entry is playing |
| LastFm.ArrayUsesFirstEntry | index.js:57 | an array whose first element is t normalises exactly like t sent as a single object, whatever follows it |
| LastFm.NotPlayingYieldsNone | index.js:60-64 | a selected entry without the exact "true" marker yields nothing playing |
| StatusText.Truncate | index.js:117-120 | the result is at most 100 characters; a text within the limit is unchanged; a longer one becomes exactly 100 characters: its own first 97 followed by "..." |
| StatusText.Format | index.js:111-123 | nothing playing gives ""; a playing track gives a non-empty text of at most 100 characters, equal to "track - artist" when that fits and to its first 97 characters plus "..." otherwise |
| StatusText.TruncateIdempotent | index.js:118-120 | truncating an already truncated text changes nothing |
| StatusText.PlayingNeverClears | index.js:112-115 | a playing track's status text is never the empty "cleared" text |
| StatusText.TruncationCollides | index.js:118-119 | two tracks with different renderings can share a status text after truncation, so the dedup comparison of index.js:133 cannot tell them apart |
| Settings.FromEnv | index.js:15-16 | the emoji is the variable when it is set and non-empty, else ":musical_note:"; clearing is off iff the flag is exactly "false" |
| Settings.MissingNames | index.js:21-24 | each required name is listed iff its variable is unset or empty, only required names appear, and they appear in declaration order without repetition |
| Settings.Validate | index.js:20-31 | validation succeeds iff all three credentials are present; otherwise it fails with exit code 1 and the non-empty list of missing names |
| SyncLoop.Intended | index.js:137-146 | the write a tick aims for: the formatted non-empty text with the configured emoji while playing, the ("", "") clear otherwise |
| SyncLoop.Tick | index.js:128-152 | no write iff the text equals lastStatus or nothing plays with clearing disabled; an issued write is the intended one; lastStatus becomes the written text iff the write succeeded and is otherwise unchanged |
| SyncLoop.CheckAndUpdate | index.js:128-152 | a failed, erroneous or idle fetch is handled exactly like an idle tick, so it can only ever issue the clear; a playing fetch whose text differs from lastStatus issues exactly the write (formatted text, configured emoji) and records the text iff it succeeded; a playing fetch whose text equals lastStatus issues nothing and keeps the state |
| SyncLoop.PlayingNeverClearsCall | index.js:137-146 | a tick with a playing track never issues the clear call |
| SyncLoop.TickPreservesValid | index.js:140-149 | a tick keeps lastStatus null or a text of at most 100 characters |
| SyncLoop.FirstIdleTickClears | index.js:126 | from the initial null state with clearing enabled, the first idle tick issues exactly one clear, and lastStatus becomes "" iff it succeeded |
| SyncRuns.Run | index.js:128-152 | a run of n polls issues at most n writes, and every write carries either the configured emoji or the empty clear text |
| SyncRuns.RunWritesIntended | index.js:137-150 | every write of a run is the intended write of one of its polls: that poll's formatted text with the configured emoji, or the clear |
| SyncRuns.SettledStaysQuiet | index.js:133-135 | once the state matches what is playing, any number of further polls with the same input issue no write and leave the state unchanged |
| SyncRuns.AtMostOneWrite | index.js:139-143 | across polls with the same input whose first write succeeds, at most one write is issued |
| SyncRuns.RetryUntilSuccess | index.js:139-150 | with unchanged input and an unsettled state, the identical write is issued on every poll up to and including the first successful one, and on no later poll |
| SyncRuns.StateIsLastSuccess | index.js:140-149 | after any run, lastStatus is the text of the last successful write, or its starting value when no write succeeded |
| SyncRuns.LastSuccessIsVisible | index.js:140-149 | the last successful write's text is what a sink that only changes on success shows |
| SyncRuns.StateMatchesPlatform | index.js:140-149 | starting in agreement with the platform, whenever lastStatus is set it equals the status the platform shows |
| SyncRuns.LastSuccessIsAttempt | index.js:140-149 | the recorded text is either the starting value or the text of one of the successful attempts |
| SyncRuns.StateIsObservedText | index.js:126-152 | from process start, whenever lastStatus is set it is the status text formatted from one of the polls seen, "" for an idle one |
| SyncRuns.RunPreservesValid | index.js:140-149 | over any run, lastStatus stays null or a text of at most 100 characters |
| SyncRuns.Scenario | index.js:128-152 | playing "Song A" by "Band X" twice, then nothing twice, issues one write of "Song A - Band X" with the default emoji and one clear, and ends cleared |

## Left out

- Fetching, JSON decoding, URL and query construction (index.js:35-45). The fetch outcome is the `Payload` input instead.
- The Slack `users.profile.set` request, its headers and body (index.js:79-108). Its success is the `writeOk` input of a tick.
- `setInterval` scheduling and possibly overlapping asynchronous ticks (index.js:187). Ticks are modelled as strictly sequential.
- Signal handlers, `shutdown` and `process.exit` (index.js:155-168). This is process lifecycle: one best-effort clear whose result is ignored.
- `dotenv` loading and the `parseInt` of `POLL_INTERVAL` (index.js:1, 14). The poll interval only sets the cadence, which is not modelled.
- Console logging throughout. It is informational output only.
- LastFm.Describe: a nested artist whose `#text` is empty makes JavaScript's `||` fall back to the artist object itself. A missing artist or track name renders as `"undefined"`. The model treats these fields as strings and takes the nested text as is.
- StatusText.Format: lengths count characters, not UTF-16 code units. A cut that would split a surrogate pair is therefore not modelled.
- LastFm.Normalize: `data.error` is treated as always truthy when present. The service's error codes are non-zero.
