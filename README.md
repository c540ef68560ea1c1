# solowitluv.com: playback coordination and data shaping, in Dafny

This project models the core of the artist website solowitluv.com.

The playback pair:

- **`PlaybackService`** is the site-wide store of what is playing. It holds one record `{release, section, videoId, isPlaying}`, which `play`, `pause`, `stop` and `toggle` replace whole.
- **`MiniPlayerComponent`** follows that store through a synchronous subscription. It keeps its own fields: current state, load failure, retry count, cached embed URL and video id, and the iframe handle. It builds the YouTube embed URL, forwards `playVideo`/`pauseVideo` commands to the iframe, and offers a retry of a failed embed. The retry counter is capped at three, but `retry()` calls `stop()`, whose synchronous notification resets the counter whenever a video was loaded. A loaded video can therefore be retried any number of times; the cap only applies to retries pressed with nothing loaded.

Four data-shaping routines sit around them:

- `ContentService` normalises the releases API response into release cards, with a fallback and null-guard policy.
- `ColorExtractor` samples, filters, quantises, counts and ranks pixel colours into a gradient palette.
- The `get_releases` Lambda pages through a table scan and adds image URLs to each item with `build_url`.
- The home page picks the featured album and the eight latest releases.

Modules follow the source files:

| module | file | models |
|---|---|---|
| `Records` | records.dfy | the release record; JavaScript truthiness, logical-or and nullish defaults on optional strings |
| `Text` | text.dfy | substring tests, ASCII lower-casing, string order, `join` |
| `YouTube` | youtube.dfy | `extractYouTubeId` as a leftmost-prefix search; the embed URL |
| `Playback` | playback.dfy | the store record, its operations as functions, and the class `PlaybackService` |
| `MiniPlayer` | miniplayer.dfy | the mini player as a pure event-step model `Step`, and the class `MiniPlayerComponent` whose methods are proved to perform those steps |
| `Content` | content.dfy | release-card normalisation, `getReleases` |
| `Sorting` | sorting.dfy | the stable `Array.prototype.sort`, as a function and as an in-place array method |
| `Colors` | colors.dfy | the histogram loop over the RGBA array, ranking, darkening, palette, gradient string |
| `ReleasesLambda` | releases.dfy | `build_url`, the scan loop, the item-mapping loop, the handler's response |
| `Home` | home.dfy | the featured pick and the latest-eight selection; the class `HomeComponent` |

### How state and events are modelled

- **Store notification.** A store method returns what it passes to `BehaviorSubject.next`. That is `None` when `play` returns early without emitting. The mini player's subscription callback is `OnState`, run at once on that value.
- **Iframe.** The iframe is an optional handle (`Iframe(src, hasContentWindow)`). The commands posted to it are an appended log (`sent`).
- **Retry timer.** The 100 ms `setTimeout` of `retry` is a FIFO list of pending replays. The `TimerFires` event runs the oldest one.
- **Other surfaces.** Play buttons elsewhere on the site reach the store through `Intent(op)` events, or the `Dispatch` method.
- **Colour map keys.** The string key `"r,g,b"` of the colour map is modelled by the triple it is built from and parsed back into.
- **`Math.round`.** `Math.round(c / 32)` is `(c + 16) / 32` exactly. `Math.round(q * 0.7)` for the quantised `q` is `(7q + 5) / 10`. No product `q * 0.7` lies at a half.
- **Sorting.** `localeCompare` on ISO release dates is modelled as code-point string order. `Array.prototype.sort` is stable, so both sorts (by date, and by count) are the same generic stable insertion sort.

### Behaviour of the source worth noting

- **`colorCount` of 0 or less.** The ranked entries are cut with `slice(0, colorCount)` (site/src/app/utils/color-extractor.ts:64), and `'#000'` is appended only when that slice is non-empty (site/src/app/utils/color-extractor.ts:72-77). A `colorCount` of 0 therefore gives the fallback palette `['#1f0e04', '#030b23', '#000']`. A negative `colorCount` counts from the end of the ranking, as `Array.prototype.slice` does. `Colors.ExtractPalette` and `Colors.SliceEnd` state both cases.
- **Retry counter reset.** `retry()` increments `retryCount` and then calls `stop()` (site/src/app/components/mini-player/mini-player.component.ts:122, 132). `stop()` notifies the subscription synchronously with no video, and the callback resets `retryCount` to 0 whenever the video id changed (site/src/app/components/mini-player/mini-player.component.ts:35-36). So whenever a video was loaded the counter is 0 after `retry()` returns. `MiniPlayer.RetryNeverExhaustedWhileLoaded` states this.

## Model

| member | source | states |
|---|---|---|
| Records.Or | site/src/app/services/playback.service.ts:25-26 | JavaScript's logical-or on optional strings: the result is `a` when `a` is truthy and `b` otherwise, and it is truthy iff either is |
| Records.OrElse | site/src/app/components/mini-player/mini-player.component.ts:142-144 | JavaScript's logical-or with a string default: `a` when truthy, else the default; this row defines the primitive rather than proving a property of it |
| Records.Lookup | site/src/app/components/mini-player/mini-player.component.ts:154-158 | a dictionary read is present exactly when the key is there, and then gives its value; this row defines Python's `dict.get` and JavaScript property access on a links object rather than proving a property of them |
| Playback.YouTubeLink | site/src/app/services/playback.service.ts:25-26 | the link is `links.youtubeMusic` when truthy, else `preSaveLinks.youtubeMusic`; no release gives no link; the ensures spell out the source's fallback chain, and the properties built on it are in `Playback.VideoIdOf` and the lemmas below |
| Playback.VideoIdOf | site/src/app/services/playback.service.ts:25-27 | a resolved video id is non-empty and free of `&`, `?` and whitespace; no release resolves to nothing |
| Playback.PlayUnresolvedIsNoOp | site/src/app/services/playback.service.ts:24-27 | `play` with no resolvable id emits nothing and leaves the state unchanged |
| Playback.PlayThenIsPlaying | site/src/app/services/playback.service.ts:28-33 | after a resolvable `play(r, s)` the state is `{r, s, id, true}`; `isPlaying(r, s)` holds and `isPlaying(r, s2)` fails for every other section |
| Playback.PauseKeepsTarget | site/src/app/services/playback.service.ts:36-42 | `pause` keeps release, section and video and clears `isPlaying`, so no `isPlaying` query holds after it |
| Playback.StopIdempotent | site/src/app/services/playback.service.ts:44-51 | `stop` gives `{null, 'main', null, false}` from any state, and a second `stop` changes nothing |
| Playback.ToggleIsPauseOrPlay | site/src/app/services/playback.service.ts:53-62 | `toggle` is `pause` exactly when the release's id is the current video and it is playing (the section is ignored), and is `play` otherwise |
| Playback.ThreeToggles | site/src/app/services/playback.service.ts:53-62 | from the stopped state three toggles of a resolvable release give playing, paused on the same video, then playing |
| Playback.ApplyPreservesInv | site/src/app/services/playback.service.ts:15-62 | every operation keeps the record consistent: its video is its release's, a release implies a video, playing implies a video; so does every emitted value |
| Playback.ReachableInv | site/src/app/services/playback.service.ts:15-62 | from a consistent state, every sequence of operations ends in a consistent state, where `isPlaying` implies a video and there is a video iff there is a release |
| Playback.IsPlayingNeedsVideo | site/src/app/services/playback.service.ts:64-68 | in a consistent state, `isPlaying(r, s)` can only hold for a release with a resolvable video |
| Playback.Emission | site/src/app/services/playback.service.ts:24-62 | the value each operation passes to `next`, or nothing when `play` returns early; nothing is emitted only by a `play` or `toggle` whose release resolves to no video, and a record emitted as playing plays the video of its own release |
| Playback.Apply | site/src/app/services/playback.service.ts:24-62 | definition, with no contract of its own: the record after an operation is the emitted value, or the old record when nothing is emitted; its properties are stated by `Playback.ApplyPreservesInv`, `Playback.ReachableInv` and the per-operation lemmas above |
| Playback.PlaybackService.constructor | site/src/app/services/playback.service.ts:15-20 | the initial record is `{null, 'main', null, false}` and consistent |
| Playback.PlaybackService.Play | site/src/app/services/playback.service.ts:24-34 | the method emits and stores what `Emission`/`Apply` give for `play`, and keeps the record consistent |
| Playback.PlaybackService.Pause | site/src/app/services/playback.service.ts:36-42 | emits and stores the `pause` record, keeping consistency |
| Playback.PlaybackService.Stop | site/src/app/services/playback.service.ts:44-51 | emits and stores the stopped record |
| Playback.PlaybackService.Toggle | site/src/app/services/playback.service.ts:53-62 | emits and stores the `toggle` record: the pause record or the play record |
| Playback.PlaybackService.IsPlaying | site/src/app/services/playback.service.ts:64-68 | `isPlaying(release, section)` holds only when the record is playing in that section, and on a consistent record only for a present release that resolves to a video |
| Playback.PlaybackService.GetCurrentState | site/src/app/services/playback.service.ts:70-72 | the snapshot is the stored record; playing implies a video, a video iff a release, and the video id is well formed |
| YouTube.IdRun | site/src/app/services/playback.service.ts:76 | the captured run `[^&?\s]+` is maximal: every character in it is allowed and the next one, if any, is not |
| YouTube.FindMatch | site/src/app/services/playback.service.ts:76 | a match found is at the leftmost position where any alternative starts, with the first alternative there; none found means no alternative matches anywhere |
| YouTube.Capture | site/src/app/services/playback.service.ts:76-77 | the captured group is the maximal well-formed id right after the matched prefix |
| YouTube.ExtractYouTubeId | site/src/app/services/playback.service.ts:74-78 | an empty or missing URL gives null; any result is a well-formed id |
| YouTube.ExtractIsLeftmostMatch | site/src/app/services/playback.service.ts:74-78 | for a non-empty URL the result is null iff no leftmost match followed by an id character exists, and otherwise is the capture at that unique leftmost match |
| YouTube.LeftmostMatchUnique | site/src/app/services/playback.service.ts:76 | the regular expression's leftmost match is unique |
| YouTube.ExtractFromCanonical | site/src/app/services/playback.service.ts:74-78 | a URL made of a head free of `y`/`m`, a prefix, a well-formed id and a tail that does not start with an id character yields that id |
| YouTube.EmbedUrlRoundTrip | site/src/app/components/mini-player/mini-player.component.ts:65 | extracting from the mini player's embed URL returns the id it was built from |
| YouTube.MusicUrlRoundTrip | site/src/app/services/playback.service.ts:76-77 | extracting from `https://music.youtube.com/watch?v=<id>` returns `id` |
| MiniPlayer.OnStateResets | site/src/app/components/mini-player/mini-player.component.ts:27-39 | each notification stores the new state and clears `failedToLoad`; a changed video id resets the retry count and clears the cache, and an unchanged one keeps both |
| MiniPlayer.OnStateCommand | site/src/app/components/mini-player/mini-player.component.ts:40-47 | a command is sent exactly when the video id is unchanged, `isPlaying` flipped and an iframe with a window is recorded; it is `playVideo` or `pauseVideo` by the new flag |
| MiniPlayer.OnState | site/src/app/components/mini-player/mini-player.component.ts:27-47 | definition, with no contract of its own: the subscription callback; its behaviour is stated by `MiniPlayer.OnStateResets` and `MiniPlayer.OnStateCommand` |
| MiniPlayer.Control | site/src/app/components/mini-player/mini-player.component.ts:106-118 | definition, with no contract of its own: `controlPlayback` appends one command when an iframe with a content window is recorded; used by `MiniPlayer.OnStateCommand` and `MiniPlayer.IframeLoadEffect` |
| MiniPlayer.TogglePlayStep | site/src/app/components/mini-player/mini-player.component.ts:76-82 | definition, with no contract of its own: `togglePlay`; its behaviour is stated by `MiniPlayer.TogglePlayAndClose` |
| MiniPlayer.IframeLoadStep | site/src/app/components/mini-player/mini-player.component.ts:84-98 | definition, with no contract of its own: `onIframeLoad`; its behaviour is stated by `MiniPlayer.IframeLoadEffect` |
| MiniPlayer.IframeErrorStep | site/src/app/components/mini-player/mini-player.component.ts:100-104 | definition, with no contract of its own: `onIframeError`; its consequence is stated by `MiniPlayer.ErrorSilencesCommands` |
| MiniPlayer.RetryStep | site/src/app/components/mini-player/mini-player.component.ts:120-140 | definition, with no contract of its own: `retry`, including the notification `stop` triggers; its behaviour is stated by `MiniPlayer.RetryEffect` and `MiniPlayer.RetryNeverExhaustedWhileLoaded` |
| MiniPlayer.TimerStep | site/src/app/components/mini-player/mini-player.component.ts:135-138 | definition, with no contract of its own: the oldest pending replay fires; its behaviour is stated by `MiniPlayer.RetryThenReplay` and `MiniPlayer.StaleReplayWins` |
| MiniPlayer.ReadUrlStep | site/src/app/components/mini-player/mini-player.component.ts:54-70 | definition, with no contract of its own: the `safeYouTubeUrl` getter and its cache write; its behaviour is stated by `MiniPlayer.ReadUrlEffect` and `MiniPlayer.ReadUrlRoundTrip` |
| MiniPlayer.Step | site/src/app/components/mini-player/mini-player.component.ts:27-140 | definition, with no contract of its own: dispatches each event to its handler; the invariant every event keeps is stated by `MiniPlayer.StepPreservesInv` |
| MiniPlayer.StepPreservesInv | site/src/app/components/mini-player/mini-player.component.ts:27-140 | every event keeps the player invariant: the store is consistent, the retry count is at most 3, and the cache holds only the current video's embed URL |
| MiniPlayer.ReachableInvariant | site/src/app/components/mini-player/mini-player.component.ts:120-140 | from a valid player, every event sequence keeps the invariant, so the retry count never exceeds 3 |
| MiniPlayer.InitialInv | site/src/app/components/mini-player/mini-player.component.ts:19-24 | the player built on a consistent store satisfies the invariant |
| MiniPlayer.RetryEffect | site/src/app/components/mini-player/mini-player.component.ts:120-140 | at 3 retries `retry` does nothing; otherwise it stops the store, clears the failure and the cache, queues a replay of the saved release and section, and leaves the count at 0 if a video was loaded and one higher if not |
| MiniPlayer.RetryNeverExhaustedWhileLoaded | site/src/app/components/mini-player/mini-player.component.ts:35-36 | while a video is loaded the count is below 3, and a retry leaves it at 0 |
| MiniPlayer.RetryThenReplay | site/src/app/components/mini-player/mini-player.component.ts:132-138 | a retry followed by its timer brings the store back to the same record playing, with nothing left pending |
| MiniPlayer.StaleReplayWins | site/src/app/components/mini-player/mini-player.component.ts:135-138 | a play issued between a retry and its timer is overridden by the replay of the earlier release |
| MiniPlayer.IframeLoadEffect | site/src/app/components/mini-player/mini-player.component.ts:84-98 | a load records the iframe; for a `youtube.com` source it clears the failure and sends `playVideo` iff playing; for any other source nothing else changes |
| MiniPlayer.ErrorSilencesCommands | site/src/app/components/mini-player/mini-player.component.ts:100-118 | after an iframe error no command is sent and no iframe is recorded until the next load |
| MiniPlayer.TogglePlayAndClose | site/src/app/components/mini-player/mini-player.component.ts:72-82 | `togglePlay` pauses when playing, plays the current release in its section when paused with a release, and does nothing otherwise; `close` stops the store |
| MiniPlayer.ReadUrlEffect | site/src/app/components/mini-player/mini-player.component.ts:54-70 | `safeYouTubeUrl` is null without a video and otherwise exactly the fixed embed URL; a repeated read returns the cached value without changing anything |
| MiniPlayer.ReadUrlRoundTrip | site/src/app/components/mini-player/mini-player.component.ts:54-70 | the URL the mini player embeds resolves back to the video being played |
| MiniPlayer.MiniPlayerComponent.constructor | site/src/app/components/mini-player/mini-player.component.ts:19-27 | the fields start from the store's current record with no failure, no retry, no cache and no iframe |
| MiniPlayer.MiniPlayerComponent.OnStoreEmit | site/src/app/components/mini-player/mini-player.component.ts:27-47 | the subscription callback updates the fields as `OnState` does |
| MiniPlayer.MiniPlayerComponent.Deliver | site/src/app/components/mini-player/mini-player.component.ts:27-47 | a store call that emits runs the callback on the emitted record; one that does not leaves the player unchanged |
| MiniPlayer.MiniPlayerComponent.IsVisible | site/src/app/components/mini-player/mini-player.component.ts:50-52 | the player is visible iff a video id is set |
| MiniPlayer.MiniPlayerComponent.SafeYouTubeUrl | site/src/app/components/mini-player/mini-player.component.ts:54-70 | the getter returns the URL and writes the cache as `ReadUrlStep` does |
| MiniPlayer.MiniPlayerComponent.Close | site/src/app/components/mini-player/mini-player.component.ts:72-74 | performs the close step on the store and the fields |
| MiniPlayer.MiniPlayerComponent.TogglePlay | site/src/app/components/mini-player/mini-player.component.ts:76-82 | performs the toggle-play step |
| MiniPlayer.MiniPlayerComponent.OnIframeLoad | site/src/app/components/mini-player/mini-player.component.ts:84-98 | performs the iframe-load step |
| MiniPlayer.MiniPlayerComponent.OnIframeError | site/src/app/components/mini-player/mini-player.component.ts:100-104 | performs the iframe-error step |
| MiniPlayer.MiniPlayerComponent.ControlPlayback | site/src/app/components/mini-player/mini-player.component.ts:106-118 | appends the play or pause command exactly when an iframe with a window is recorded |
| MiniPlayer.MiniPlayerComponent.Retry | site/src/app/components/mini-player/mini-player.component.ts:120-140 | performs the retry step, including the callback that `stop` triggers synchronously |
| MiniPlayer.MiniPlayerComponent.TimerFires | site/src/app/components/mini-player/mini-player.component.ts:135-138 | runs the oldest pending replay `play(release, section)` |
| MiniPlayer.MiniPlayerComponent.ReleaseTitle | site/src/app/components/mini-player/mini-player.component.ts:142-144 | the release's title when truthy, else `'Unknown Track'` |
| MiniPlayer.MiniPlayerComponent.ArtistName | site/src/app/components/mini-player/mini-player.component.ts:146-148 | the artist when truthy, else `''` |
| MiniPlayer.MiniPlayerComponent.CoverImage | site/src/app/components/mini-player/mini-player.component.ts:150-152 | `coverArt`, else `heroImage`, else `''`, by truthiness |
| MiniPlayer.MiniPlayerComponent.GetStreamingLink | site/src/app/components/mini-player/mini-player.component.ts:154-158 | `links[p]`, else `preSaveLinks[p]`, else null, by truthiness; a link returned is never empty |
| MiniPlayer.Dispatch | site/src/app/services/playback.service.ts:24-62 | a store call from another surface performs the store operation and the mini player's callback on what it emits |
| Content.FindFrom | site/src/app/services/content.service.ts:52-55 | `find` returns the first platform whose name matches the rule; a null platform before any match throws |
| Content.Link | site/src/app/services/content.service.ts:52-55 | a missing platform list gives no link; otherwise the link is the `url` of the first match, none when nothing matches, and a failure when a null entry is reached first; the ensures spell out `find(...)?.url`, and the substantive properties are in `Content.FindFrom` and `Content.LinkNeedsMatch` |
| Content.Card | site/src/app/services/content.service.ts:45-57 | `id` and `title` copied; `artist` defaulted to `'Solo Wit Luv'` only when missing; `featuredArtists` defaulted to `[]`; `coverArt` is the first truthy of thumb URL, image URL, image key, else `''`; the four links from their rules; a null item fails |
| Content.Cards | site/src/app/services/content.service.ts:45 | `items.map` keeps length and order, with each card made from the item at the same position; it fails iff some item fails |
| Content.Normalise | site/src/app/services/content.service.ts:39-61 | a null body or missing `items` gives `{singles: []}`; otherwise the singles are the mapped cards; a normalised document never has `releases` |
| Content.NullGuard | site/src/app/services/content.service.ts:72 | a null document becomes `{singles: []}`; errors and documents pass through; the ensures spell out the `map` default, and what it means for callers is in `Content.GetReleases` |
| Content.GetReleases | site/src/app/services/content.service.ts:64-74 | with the flag off the legacy source is returned unchanged; with it on, an API document is returned, an API error falls back to the legacy source, and no result is ever null |
| Content.CardsPreserveOrder | site/src/app/services/content.service.ts:45-47 | the `i`-th card comes from the `i`-th item, with its `id` and `title` |
| Content.CardLinkNeedsMatch | site/src/app/services/content.service.ts:52-55 | a card link is present only if some named platform matches its rule |
| Content.LinkNeedsMatch | site/src/app/services/content.service.ts:52-55 | a link found comes from a platform whose lower-cased name matches the rule |
| Content.AppleMusicRecognised | site/src/app/services/content.service.ts:53-54 | a platform named "Apple Music" matches the Apple rule and not the Spotify rule |
| Content.Matches | site/src/app/services/content.service.ts:52-55 | definition, with no contract of its own: a named platform matches the rule when its lower-cased name equals `spotify` or contains `apple`, `youtube` or `all`; an unnamed platform never matches; used by `Content.FindFrom` and `Content.AppleMusicRecognised` |
| Sorting.SortPermutes | site/src/app/pages/home/home.component.ts:21-22 | the sorted list is a permutation of the input |
| Sorting.SortSorted | site/src/app/pages/home/home.component.ts:21-22 | for a strict weak order, no element of the sorted list is ahead of an earlier one |
| Sorting.SortStable | site/src/app/pages/home/home.component.ts:21-22 | the elements tied with any value keep their input order |
| Sorting.SortInPlace | site/src/app/pages/home/home.component.ts:21-22 | the array is rearranged in place into the stable sorted order |
| Colors.Quantize | site/src/app/utils/color-extractor.ts:53-55 | `round(c/32)*32` is a multiple of 32 in 0..256 within 16 of `c` |
| Colors.QuantizeReaches256 | site/src/app/utils/color-extractor.ts:53-55 | 240 and 255 quantise to 256, and 239 to 224 |
| Colors.SampleEnd | site/src/app/utils/color-extractor.ts:41 | the loop index stops at the first multiple of 16 at or beyond the length |
| Colors.KeysQuantised | site/src/app/utils/color-extractor.ts:47-57 | every key counted is a quantised colour |
| Colors.KeysReadOnlySamples | site/src/app/utils/color-extractor.ts:39-45 | the keys depend only on the bytes at indices 0..3 of each 16-byte step: only every 4th pixel is sampled |
| Colors.TallyIsHistogram | site/src/app/utils/color-extractor.ts:57-58 | the map the loop builds is the reference histogram: each distinct key once, in first-seen order, with its number of occurrences |
| Colors.HistogramEntries | site/src/app/utils/color-extractor.ts:57-58 | the histogram's keys are distinct and are exactly the sampled keys, each with a positive count equal to its multiplicity; it is empty iff nothing was kept |
| Colors.TallyTotal | site/src/app/utils/color-extractor.ts:58 | the counts sum to the number of kept samples |
| Colors.Tally | site/src/app/utils/color-extractor.ts:57-58 | definition, with no contract of its own: the colour map as the loop builds it, one `set(key, (get(key) or 0) + 1)` per kept sample; `Colors.TallyIsHistogram` proves it equal to `Colors.Histogram` |
| Colors.Histogram | site/src/app/utils/color-extractor.ts:57-58 | definition, with no contract of its own: the reference histogram, each distinct key in first-seen order with its multiplicity; its properties are stated by `Colors.HistogramEntries` |
| Colors.CountIsSamples | site/src/app/utils/color-extractor.ts:41-58 | a key's count is the number of non-excluded samples that quantise to it |
| Colors.ColorHistogram | site/src/app/utils/color-extractor.ts:38-59 | the sampling loop over the pixel array builds exactly the histogram of the kept, quantised samples |
| Colors.MoreFrequentOrder | site/src/app/utils/color-extractor.ts:63 | the comparator `b[1] - a[1]` describes a strict weak order |
| Colors.RankingOrder | site/src/app/utils/color-extractor.ts:62-63 | the ranked entries are in non-increasing count order, are a permutation of the map's entries, and keep first-seen order among equal counts |
| Colors.TieIsEqualCount | site/src/app/utils/color-extractor.ts:63 | two entries tie exactly when their counts are equal |
| Colors.SliceEnd | site/src/app/utils/color-extractor.ts:64 | `slice(0, n)` takes `min(n, length)` for `n >= 0`, and measures from the end for negative `n`; the ensures define the primitive, and the minimum property is stated by `Colors.SliceIsMin` |
| Colors.SliceIsMin | site/src/app/utils/color-extractor.ts:64 | for a non-negative count the slice length is the minimum, and 0 for a count of 0 |
| Colors.Darken | site/src/app/utils/color-extractor.ts:66-69 | `round(q * 0.7)` is the nearest integer to `0.7q`, one of 0, 22, 45, 67, 90, 112, 134, 157, 179 |
| Colors.TopColors | site/src/app/utils/color-extractor.ts:62-70 | the slice has the slice length, and its `i`-th colour is the `rgb(...)` string of the `i`-th ranked entry |
| Colors.ExtractPalette | site/src/app/utils/color-extractor.ts:38-79 | an empty slice gives exactly `['#1f0e04', '#030b23', '#000']`; otherwise the ranked colours in order, followed by `'#000'` |
| Colors.PaletteIsNotFallback | site/src/app/utils/color-extractor.ts:73-78 | a non-empty palette is never mistaken for the fallback |
| Colors.CreateGradientString | site/src/app/utils/color-extractor.ts:98-100 | definition, with no contract of its own: `radial-gradient(circle, ` + the colours joined by `, ` + `)`; its properties are stated by `Colors.GradientLength` and `Colors.GradientLastStop` |
| Colors.GradientLength | site/src/app/utils/color-extractor.ts:98-100 | the gradient string's length is the head, the colours, the separators and the closing parenthesis |
| Colors.GradientLastStop | site/src/app/utils/color-extractor.ts:98-100 | appending a colour appends `", " + colour` before the closing parenthesis |
| Text.JoinSnoc | site/src/app/utils/color-extractor.ts:99 | `join` of a longer list is the shorter join, the separator and the new element |
| Text.StrLeTotal | site/src/app/pages/home/home.component.ts:22 | string order is total |
| Text.StrLeTransitive | site/src/app/pages/home/home.component.ts:22 | string order is transitive |
| Text.StrLeAntisymmetric | site/src/app/pages/home/home.component.ts:22 | string order is antisymmetric |
| ReleasesLambda.LstripSuffix | infra/lambda/get_releases/app.py:11 | `lstrip(chars)` removes the longest prefix drawn from the character set: the result is a suffix whose first character is outside the set |
| ReleasesLambda.StripSchemeOnce | infra/lambda/get_releases/app.py:11 | the two chained `lstrip`s equal the first one alone, whose result is a suffix not starting with any of `h t p s : /` |
| ReleasesLambda.ShopExample | infra/lambda/get_releases/app.py:11 | `https://shop.example.com` becomes `op.example.com` |
| ReleasesLambda.StripEatsHost | infra/lambda/get_releases/app.py:11 | the leading `sh` of a host after `https://` is eaten with the scheme |
| ReleasesLambda.StripKeepsHost | infra/lambda/get_releases/app.py:11 | a host starting outside the set survives, with or without `https://` in front |
| ReleasesLambda.StripScheme | infra/lambda/get_releases/app.py:11 | definition, with no contract of its own: the two chained `lstrip` calls; its properties are stated by `ReleasesLambda.StripSchemeOnce` and the examples above |
| ReleasesLambda.TrimSlash | infra/lambda/get_releases/app.py:12-13 | at most one leading `/` is removed from the key |
| ReleasesLambda.TrimSlashOnce | infra/lambda/get_releases/app.py:12-13 | `//k` keeps one slash and `/k` loses its slash |
| ReleasesLambda.BuildUrlShape | infra/lambda/get_releases/app.py:10-14 | the URL is `proto + "://" + stripped domain + "/" + trimmed key` |
| ReleasesLambda.BuildUrl | infra/lambda/get_releases/app.py:10-14 | definition, with no contract of its own: `build_url`; its shape is stated by `ReleasesLambda.BuildUrlShape` |
| ReleasesLambda.ConcatAppend | infra/lambda/get_releases/app.py:46 | concatenating page items distributes over appending pages |
| ReleasesLambda.FirstFinal | infra/lambda/get_releases/app.py:47-49 | the first page without a truthy `LastEvaluatedKey` |
| ReleasesLambda.ScanAll | infra/lambda/get_releases/app.py:40-49 | the loop returns the items of all pages up to the first final page, in order; the first request has no start key and each later one starts at the previous page's key |
| ReleasesLambda.EnrichKeys | infra/lambda/get_releases/app.py:54-61 | the mapping adds at most `image_url` and `thumb_url` |
| ReleasesLambda.EnrichKeepsFields | infra/lambda/get_releases/app.py:54-61 | every other field of an item is unchanged |
| ReleasesLambda.EnrichUrls | infra/lambda/get_releases/app.py:57-60 | `image_url` is set to `build_url(domain, image_key, proto)` exactly when the domain is non-empty and `image_key` truthy, and left as it was otherwise; `thumb_url` likewise with `thumb_key` |
| ReleasesLambda.NoDomainNoChange | infra/lambda/get_releases/app.py:57-60 | with an empty domain items are unchanged |
| ReleasesLambda.Enrich | infra/lambda/get_releases/app.py:54-61 | definition, with no contract of its own: the body of the mapping loop for one item; its properties are stated by `ReleasesLambda.EnrichKeys`, `ReleasesLambda.EnrichKeepsFields` and `ReleasesLambda.EnrichUrls` |
| ReleasesLambda.MapItems | infra/lambda/get_releases/app.py:52-61 | each item dictionary is updated in place, and `out` is the updated items in their order |
| ReleasesLambda.EnvGet | infra/lambda/get_releases/app.py:18-20 | `os.environ.get(name, default)`; this row defines the primitive rather than proving a property of it |
| ReleasesLambda.Handler | infra/lambda/get_releases/app.py:17-75 | status 200 with the CORS headers; `count` equals the number of items and of scanned items, and item `k` is scanned item `k` enriched |
| Home.NotNewerIsLe | site/src/app/pages/home/home.component.ts:22 | a release is not put ahead of another exactly when its date sorts at or before the other's |
| Home.Newer | site/src/app/pages/home/home.component.ts:22 | definition, with no contract of its own: the comparator puts `a` first exactly when `b`'s date sorts strictly before `a`'s; its properties are stated by `Home.NotNewerIsLe`, `Home.NewerOrder` and `Home.TieIsSameDate` |
| Home.NewerOrder | site/src/app/pages/home/home.component.ts:22 | the date comparator is a strict weak order |
| Home.FeaturedFrom | site/src/app/pages/home/home.component.ts:19 | the index search behind `find`: the first featured album from a position on |
| Home.FirstFeatured | site/src/app/pages/home/home.component.ts:19 | the first release that is an album and featured, or undefined iff there is none |
| Home.TakeCount | site/src/app/pages/home/home.component.ts:23 | `slice(0, 8)` keeps `min(8, n)` entries |
| Home.Latest | site/src/app/pages/home/home.component.ts:21-23 | at most 8 singles, exactly `min(8, n)` |
| Home.LatestNewestFirst | site/src/app/pages/home/home.component.ts:22 | the singles are in non-increasing date order, a missing date reading as `''` |
| Home.LatestFromReleases | site/src/app/pages/home/home.component.ts:21-23 | the singles are a sub-multiset of the releases |
| Home.LatestAreNewest | site/src/app/pages/home/home.component.ts:21-23 | no release left out is newer than any single |
| Home.SameDateKeepsOrder | site/src/app/pages/home/home.component.ts:22 | releases with the same date keep their document order |
| Home.TieIsSameDate | site/src/app/pages/home/home.component.ts:22 | two releases tie exactly when their dates are equal |
| Home.HomeComponent.constructor | site/src/app/pages/home/home.component.ts:15 | no featured album and no singles before the data arrives |
| Home.HomeComponent.OnReleases | site/src/app/pages/home/home.component.ts:17-26 | a document without `releases` gives undefined and `[]`; otherwise the featured album is picked in the original order, the document's array is sorted in place, and the singles are its first eight; a null document throws and changes nothing |
| Home.ApiDocShowsNothing | site/src/app/services/content.service.ts:58 | a document from the API path yields no featured album and no singles |

## Left out

- Angular, RxJS and browser plumbing are not modelled: `BehaviorSubject`/`asObservable`, `ChangeDetectorRef.markForCheck`, `HttpClient`, and the try/catch logging around `postMessage`. The store notification is a direct call, and `postMessage` is an appended command log.
- `DomSanitizer.bypassSecurityTrustResourceUrl` is the identity on strings.
- `isMobile` (site/src/app/services/playback.service.ts:80-88) is never called, and it only sniffs `navigator` and `window`.
- Canvas and image loading (site/src/app/utils/color-extractor.ts:13-35, 80-90) are not modelled: the `Image` element, `getContext`, the floating-point down-scaling, `getImageData`, the promise and its rejections. The model starts from the RGBA byte array.
- The pixel array is required to have a length that is a multiple of 4, as `ImageData.data` always has.
- Colors.ExtractPalette: `colorCount` is an integer. Non-integer values of the JavaScript `number` are not modelled.
- The near-white and near-black thresholds and the darkening are exact integer arithmetic. No floating-point behaviour other than `Math.round` at the points named above enters.
- The DynamoDB side of the Lambda is not modelled: the `boto3` table, the `scan` call itself, `json.dumps` and the `print` logging. The scan is a given sequence of result pages, each with its items and optional `LastEvaluatedKey`.
- ReleasesLambda.ScanAll: its precondition `Ends` requires that some page is final. A table that never ends paging would make the source loop forever.
- `TABLE_NAME` selects the table that is scanned (infra/lambda/get_releases/app.py:18, 27). The model abstracts the table into the given sequence of pages.
- `ALLOWED_STATUS` is read and only logged (infra/lambda/get_releases/app.py:21, 25), because the status filter is commented out in the source.
- Item attributes are strings. DynamoDB numbers, lists and maps inside items are not modelled, so truthiness of an attribute is "present and non-empty".
- The `proto` default parameter of `build_url` is not modelled separately: the handler always passes `proto`.
- The default `section = 'main'` of `play`, `toggle` and `isPlaying` (site/src/app/services/playback.service.ts:24, 53, 64) is not modelled: `section` is always an explicit argument.
- The default `colorCount = 5` of `extractColors` (site/src/app/utils/color-extractor.ts:12) is not modelled: `colorCount` is always an explicit argument.
- `Lower` folds ASCII letters only. JavaScript's full Unicode `toLowerCase` is not modelled.
- `localeCompare` is modelled as code-point order, which agrees with it on the ISO date strings the site stores.
- The other files are thin wiring or presentation and are not part of this model: the shows Lambda, the populate-releases script, the releases and latest-releases components, routes, the `main` entry point and the in-view directive.
- A `null` entry inside the releases array would make `r.type` throw in the home page. Releases are non-null records in the model.
- `GetReleases` takes the environment's `useApi` flag as a parameter, and the two HTTP responses as already-fetched results.
