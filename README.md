# Streamer.bot custom overlay pipeline, modelled in Dafny

The browser overlay in `overlays/script.js` receives `SquidCustomOverlay`
events from Streamer.bot and shows one overlay at a time: a video, an
animated GIF, an HTML page or a static image, with an optional caption. This
project models what the overlay decides for each request and how its queue
moves:

- `gif.dfy` (`Gif`): the frame-delay scan of `getGifDuration` over bytes
  already fetched, as written (it jumps to offset 13 and ignores colour
  tables, unlike section 18 onwards of GIF89a), both as a spec function and
  as the source's nested `while` loops proved equal to it.
- `dimensions.dfy` (`Dimensions`): `getMaxDimensions`, `validateDimensions`,
  `applySingleDimension`, the branch choice of `applyMediaDimensions`, the
  natural-size path and the HTML fallback size, over `real`.
- `ingress.dfy` (`Ingress`): source rewriting under `http://absolute/`,
  media-kind classification by suffix, the element built for each kind, the
  permissive `source_muted` parser (with `String.prototype.trim`'s white
  space set) and the event name the dispatcher routes.
- `timing.dfy` (`Timing`): the hide trigger and progress-indicator choice of
  `setupMediaTiming` / `setupProgressBar`.
- `presenter.dfy` (`Presenter`): the request payload and the overlay
  `showCustomOverlay` builds from it.
- `overlay.dfy` (`Overlay`): `AppState`'s queue and flag as a class whose
  methods are `queueOverlayEvent`, `processNextOverlay`, `showCustomOverlay`,
  `hideCustomOverlay`, `clearQueue` and `handleStreamerBotEvent`; timer and
  DOM callbacks are methods the environment calls.
- `settings.dfy` (`Settings`), `wrappers.dfy` (`Wrappers`): the viewport and
  configuration passed as parameters, and `Option`.

Payload values are typed: a dimension is `Option<real>`, a duration
`Option<int>`, the source, caption and mute flag `Option<string>` (the mute
flag in its `String(...)` form). JavaScript truthiness of those values is
"present and not 0 / not empty".

Two promises made by the code's own comments hold only in part, and the
model states what the code does:

- The comment on `getMaxDimensions`'s scale (`overlays/script.js:94`, "only
  down") says sizing never upscales. `validateDimensions` then raises each
  axis to at least `min(100, innerSize - 2·padding)`
  (`overlays/script.js:115-120`), so a 50×50 natural image is shown at
  100×100 (`NaturalSizing` and `BothGivenIsSafe` promise no upscaling only
  from that minimum up).
- The comment on `maxScreenPercentage` (`overlays/script.js:55`) calls it the
  maximum size of media as a share of the screen. `getMaxDimensions` fits
  into `max(share, 100)` and then cuts only to the padded viewport, and
  `validateDimensions` cuts only to the padded viewport, so on a viewport
  whose share is below 100 pixels the result can exceed the share.

## Model

| member | source | states |
|---|---|---|
| Gif.At | overlays/script.js:647-666 | a byte read is the byte in range and 0 past the end, as `undefined` behaves in the scan's tests and bit operations |
| Gif.FrameDelay | overlays/script.js:658 | the little-endian delay of a Graphic Control Extension is below 65536 |
| Gif.Gain | overlays/script.js:656-659 | a visit adds a non-negative multiple of 10 milliseconds, and nothing unless it is at a `0x21 0xF9` pair |
| Gif.SkipSubBlocks | overlays/script.js:665-668 | the sub-block hop never moves back and stops at a zero byte or past the end |
| Gif.Next | overlays/script.js:656-675 | the cursor strictly increases on every non-trailer branch, so the scan terminates |
| Gif.ScanFrom | overlays/script.js:655-677 | the accumulated duration is a non-negative multiple of 10 |
| Gif.GifDuration | overlays/script.js:647-677 | a signed GIF's duration is the sum of 10 × delay over the positions the scan visits from offset 13; without the signature it is 0 |
| Gif.GetGifDuration | overlays/script.js:637-683 | the source's nested loops compute exactly the scan's duration |
| Gif.NoSignatureNoDuration | overlays/script.js:647-649 | without the `G I F` signature, including inputs under three bytes, the result is 0 |
| Gif.DurationIsCentiseconds | overlays/script.js:679-682 | every input yields a duration, non-negative and a multiple of 10; the scan never fails outward |
| Gif.VisitsShape | overlays/script.js:655-676 | the visited positions increase strictly and lie in the bytes, only the last may be a trailer, and a last non-trailer visit leaves the bytes |
| Gif.ScanIsSumOverVisits | overlays/script.js:655-677 | the duration from any cursor is the sum of 10 × delay over exactly the positions visited |
| Gif.TwoFramesLast300ms | overlays/script.js:652-677 | two GCEs with delays 10 and 20 centiseconds give 300 ms |
| Gif.BadSignatureGivesZero | overlays/script.js:647-649 | the same bytes with a broken signature give 0 |
| Dimensions.FitScale | overlays/script.js:88-94 | the common scale is at most 1, positive, fits both axes into the fit space, and is 1 or tight on one axis |
| Dimensions.MaxDimensions | overlays/script.js:79-107 | the result never exceeds the padded viewport on either axis |
| Dimensions.MaxDimensionsScalesBoth | overlays/script.js:92-103 | for positive natural sizes: no upscaling, both axes scaled by the same factor, within one pixel of it unless cut to the padded viewport |
| Dimensions.ScaledAxis | overlays/script.js:97-103 | one axis is at most the padded size, at most the natural size times the scale, and at most one pixel below it unless cut |
| Dimensions.MaxDimensionsWholePixels | overlays/script.js:97-103 | both results are whole pixels |
| Dimensions.Clamp | overlays/script.js:119-120 | `Math.max(lo, Math.min(x, hi))` lands in [lo, hi], is `x` inside, `lo` below and `hi` above |
| Dimensions.ValidateDimensions | overlays/script.js:110-131 | each axis lands in [min(100, maxSafe), maxSafe], is unchanged when already there, and is the bound it crossed otherwise |
| Dimensions.ValidateIdempotent | overlays/script.js:110-131 | validating twice equals validating once |
| Dimensions.ValidateKeeps | overlays/script.js:110-131 | a size of at least 100 pixels per axis inside the padded viewport passes validation unchanged |
| Dimensions.ValidatedIsSafe | overlays/script.js:110-131 | with a non-empty padded viewport, a validated size is positive and inside it |
| Dimensions.ApplySingleDimension | overlays/script.js:163-186 | the given axis becomes min(given, share of the padded viewport), the other axis is `auto` with the padded viewport as its maximum |
| Dimensions.InitialSizing | overlays/script.js:134-146 | two truthy axes give the validated fit of `getMaxDimensions`, exactly one gives `applySingleDimension`'s box, none waits for the natural size except for HTML, which gets the fallback size; every fixed size is a fixpoint of validation |
| Dimensions.HtmlFallback | overlays/script.js:598-604 | the HTML fallback size is a fixpoint of validation |
| Dimensions.HtmlFallbackUnclamped | overlays/script.js:598-604 | with a share of at most 100% and at least 100 pixels per axis, the fallback is exactly the share of the padded viewport |
| Dimensions.NaturalSizing | overlays/script.js:189-195 | a size is applied iff both natural values are non-zero; it stays in the padded viewport and does not upscale from the minimum viable size up |
| Dimensions.BothGivenIsSafe | overlays/script.js:135-138 | explicit width and height give a fixed size inside the padded viewport, not above the request from the minimum viable size up |
| Dimensions.FitExampleKeepsSize | overlays/script.js:79-107 | 800×600 on a 1000×800 viewport with the defaults stays 800×600 |
| Dimensions.FitExampleShrinks | overlays/script.js:79-107 | 1920×1080 on the same viewport becomes 816×459 |
| Ingress.IsUrl | overlays/script.js:555 | a source has a URL scheme iff it starts, in any case, with `http:`, `https:`, `ftp:`, `file:`, `data:` or `blob:` |
| Ingress.RewriteSource | overlays/script.js:555-561 | a source with an `http(s)`, `ftp`, `file`, `data` or `blob` scheme in any case is kept, any other gets the `http://absolute/` prefix, and the result always has a scheme |
| Ingress.RewriteIdempotent | overlays/script.js:555-561 | rewriting a rewritten source changes nothing |
| Ingress.IsVideo | overlays/script.js:567 | a source is a video iff it ends, in any case, with `.mp4`, `.webm`, `.ogg`, `.avi` or `.mov` |
| Ingress.IsGif | overlays/script.js:568 | a source is a GIF iff it ends, in any case, with `.gif` |
| Ingress.IsHtml | overlays/script.js:569 | a source is HTML iff it ends, in any case, with `.html` or `.htm` |
| Ingress.Classify | overlays/script.js:567-569 | one kind per source: video, GIF, HTML or static image; the code's dispatch tests video, then HTML, then GIF (lines 201-218, 267-286), and the orders agree because the three tests are exclusive (`Ingress.KindsExclusive`) |
| Ingress.KindsExclusive | overlays/script.js:567-569 | the video, GIF and HTML tests never hold together |
| Ingress.ClassifyExact | overlays/script.js:567-569 | each kind is chosen iff its own test holds, and static image iff none does |
| Ingress.PrefixKeepsSuffix | overlays/script.js:557 | prefixing the virtual origin keeps every slash-free suffix test |
| Ingress.RewriteKeepsKind | overlays/script.js:555-569 | rewriting never changes the video, GIF or HTML test, so never the kind |
| Ingress.CreateMediaElement | overlays/script.js:198-218 | the element shows the source; it is a video iff `isVideo`, an iframe iff not video and `isHtml`, an image otherwise; only a video carries the mute flag |
| Ingress.ElementFollowsKind | overlays/script.js:567-572 | video gets `<video>`, HTML gets `<iframe>`, GIF and static image get `<img>` |
| Ingress.TrimStart | overlays/script.js:537 | the result is a suffix of the input, only white space was removed, and it does not start with white space |
| Ingress.TrimEnd | overlays/script.js:537 | the result is a prefix of the input, only white space was removed, and it does not end with white space |
| Ingress.Trim | overlays/script.js:537 | the trimmed string has white space at neither end, is the slice of the input that starts after its leading white space, and only white space follows it |
| Ingress.TrimPadded | overlays/script.js:537 | trimming a word padded by white space gives back the word |
| Ingress.ParseMuted | overlays/script.js:535-539 | an absent flag is not muted; a present flag is muted iff its text is `true`, `yes` or `1`, in any case, with only white space around |
| Ingress.PaddedWordIsMuted | overlays/script.js:537-538 | `true`, `yes` or `1` in any case with any white space around passes the lower-case, trim and compare test |
| Ingress.PaddedWordAtIsMuted | overlays/script.js:537-538 | a text holding an accepted spelling between two runs of white space passes the test |
| Ingress.MutedIsPaddedWord | overlays/script.js:537-538 | a text that passes the test is one of the accepted spellings in some case with only white space around |
| Ingress.MutedIffPaddedWord | overlays/script.js:537-538 | a text passes the test iff it is an accepted spelling, in any case, padded by white space |
| Ingress.AbsentNotMuted | overlays/script.js:535-536 | an absent flag is not muted |
| Ingress.PaddedYesMuted | overlays/script.js:537-538 | `" Yes "` is muted |
| Ingress.UpperTrueMuted | overlays/script.js:537-538 | `"TRUE"` is muted |
| Ingress.NoNotMuted | overlays/script.js:537-538 | `"no"` is not muted |
| Ingress.IsOverlayEvent | overlays/script.js:484 | the only event type routed to the queue is `SquidCustomOverlay` |
| Timing.MediaTiming | overlays/script.js:266-302 | only videos show progress, by playback unless overridden; only an un-overridden video hides on `ended`, everything else on a timer |
| Timing.OverrideWins | overlays/script.js:238-285 | a truthy override is the hide delay for every kind |
| Timing.DefaultHidePerKind | overlays/script.js:261-299 | without an override, absent or 0: video on `ended`, HTML after the HTML default, GIF after its probed duration or the image default when that is 0, static image after the image default |
| Timing.ProbeOnlyForGif | overlays/script.js:284-296 | the probed GIF duration matters only for a GIF without an override |
| Timing.DefaultsHideAfterPositiveDelay | overlays/script.js:266-302 | with the shipped defaults, a non-video without an override (absent or 0) hides after a positive delay |
| Presenter.HasSource | overlays/script.js:547 | a request can be shown iff its `overlay_source` is present and not empty |
| Presenter.ProbedDuration | overlays/script.js:637-683 | the probe is never negative, an unreachable URL gives 0, and a served URL gives the scan's duration of its bytes |
| Presenter.Present | overlays/script.js:527-609 | the mounted overlay shows the rewritten source in the element of its kind, with the parsed mute flag; fixed sizes are validated; an override decides the hide delay; an un-overridden GIF waits for its probe; the caption is the text or empty; the sizing is `InitialSizing` and the timing `PlanFor` of the rewritten source, with the probe of that source |
| Presenter.PresentHidesPerKind | overlays/script.js:261-299 | without a truthy `source_duration`, the mounted overlay hides at a video's end, after the HTML default, after a GIF's probed duration (the image default when 0) or after the image default |
| Overlay.OverlayScheduler.constructor | overlays/script.js:374-379 | the page starts with an empty queue, the flag clear and nothing mounted |
| Overlay.OverlayScheduler.Enqueued | overlays/script.js:489-498 | the event joins the tail; while an overlay is active nothing else changes, and when idle the head is removed and shown at once |
| Overlay.OverlayScheduler.QueueOverlayEvent | overlays/script.js:489-498 | the state change is `Enqueued`: the event joins the tail; when busy nothing else changes, when idle the head is removed and shown at once |
| Overlay.OverlayScheduler.ProcessNextOverlay | overlays/script.js:500-514 | nothing changes when the queue is empty or the flag is set; otherwise exactly the head is removed and shown |
| Overlay.OverlayScheduler.ShowCustomOverlay | overlays/script.js:516-620 | a non-object clears the flag and schedules a retry; a missing source leaves the flag set, mounts nothing and schedules nothing; a valid request sets the flag and mounts its overlay; the queue is untouched |
| Overlay.OverlayScheduler.ShowCustomOverlayIntended | overlays/script.js:547-552 | with the flag cleared on a missing source, the next request is shown at once, or the scheduler goes idle on an empty queue |
| Overlay.OverlayScheduler.HideCustomOverlay | overlays/script.js:622-634 | the overlay is unmounted, the flag cleared and one advance scheduled; the queue is untouched |
| Overlay.OverlayScheduler.SettleDelayElapsed | overlays/script.js:616-628 | a due advance runs `processNextOverlay` with the same outcomes |
| Overlay.OverlayScheduler.ClearQueue | overlays/script.js:391 | the queue becomes empty and nothing else changes |
| Overlay.OverlayScheduler.HandleStreamerBotEvent | overlays/script.js:483-487 | a `SquidCustomOverlay` event is queued exactly as `queueOverlayEvent` does (`Enqueued`); any other leaves every field unchanged |
| Overlay.DispatchedEventsAreQueued | overlays/script.js:483-498 | through the dispatcher, a first request is shown at once, an event of another type is ignored and a second request waits |
| Overlay.SecondWaitsForFirst | overlays/script.js:489-514 | a second request waits while the first is shown, and is shown after the first hides and the settle delay passes |
| Overlay.MissingSourceStallsQueue | overlays/script.js:547-551 | after a request without a source, a valid request stays queued: the flag is set, nothing is mounted and nothing is scheduled |
| Overlay.MissingSourceIntendedRecovers | overlays/script.js:547-552 | a sourceless request handed to the corrected operation releases the flag, so a valid request queued after it is shown |

The scheduler's `Valid()` invariant, kept by every method, says the queue is
FIFO (the items removed so far followed by the queue are exactly the items
queued, in order), that the items shown are the removed ones that were not
cleared, in the order they were removed (`Overlay.Kept`), and that an
overlay is mounted only while the flag is set.

## Left out

- The WebSocket client, reconnection and status badge (lines 426-481): network plumbing over a library that is not part of this model.
- DOM work: element caching, style writes, caption layout, fade-in and `cleanupOverlay` (lines 149-160, 305-366, 396-424); the model records which element, size and timing an overlay gets instead.
- The `fetch` in `getGifDuration`: `Presenter.ProbedDuration` takes a map from URL to bytes as a parameter; an absent URL stands for a failed fetch.
- Timers and clocks (`setTimeout`, `setInterval`, `Date.now`) and the progress-bar percentage (lines 241-249, 254-259): timer callbacks are methods the environment calls, and the percentage is display arithmetic on floating point.
- `setTimeout`'s delay coercion (negative or non-numeric delays, and delays above 2^31 − 1 ms, which wrap, run at once; a GIF's summed delays exceed that from 3277 frames at the 65535-centisecond maximum): `Timing.After(ms)` keeps the value as given.
- Exactly-once hiding: timers are never cancelled, so `HideCustomOverlay` may be called at any time and more often than once; the model claims nothing about how often it runs.
- The GIF hide timer starts when the probe resolves; `Timing.MediaTiming` records the delay, not when the timer starts.
- The resize handler (lines 686-702), which reads the undeclared global `isOverlayActive` and throws until line 549 has run.
- `getUrlParams`, the config object's WebSocket fields and the `window.streamerBot` console helpers (lines 21-64, 729-746); the helpers' `clearQueue` is `Overlay.OverlayScheduler.ClearQueue`.
- Exceptions thrown by DOM calls inside `showCustomOverlay` and `hideCustomOverlay`: only the non-object payload (line 521) reaches the `catch` in the model, and `hideCustomOverlay`'s own `catch` (lines 629-633) is not modelled.
- Payload values of other JavaScript types (a width sent as a string, a duration of `"0"`, `NaN`): payload fields are typed as above.
- Ingress.ParseMuted: lower-cases only ASCII letters; JavaScript's full Unicode lower-casing is not modelled, but no other character lower-cases to a letter, digit or white space of the accepted spellings, so the flag is the same.
- Dimensions.MaxDimensions: sizes are exact `real` numbers, so IEEE double rounding is not modelled; where `naturalSize * (fit / naturalSize)` rounds just below a whole number the browser floors one pixel lower (2186×100 on a 1920×1080 viewport with the defaults: 1597 wide in the browser, 1598 here). The same holds for `Dimensions.FitScale`, `Dimensions.ScaledAxis`, `Dimensions.ApplySingleDimension`, `Dimensions.HtmlFallback`, `Dimensions.ValidateDimensions` and `Dimensions.NaturalSizing`.
- Dimensions.MaxDimensionsScalesBoth: aspect ratio is preserved only up to the flooring and the cut to the padded viewport, as in the code; exact ratio preservation is not claimed.
- `config.queue.processingDelay` is carried in `Settings.Config` but the settle delay is not timed; `pendingAdvances` counts the scheduled calls.

## Findings

| source | as written | input that shows it | evidently intended | confidence | as-written member | corrected member |
|---|---|---|---|---|---|---|
| overlays/script.js:549 | assigns the undeclared global `isOverlayActive = false`, so `AppState.isOverlayActive` set at line 525 stays true; the call at line 550 returns at once and no hide is ever scheduled | an event whose `args` has no `overlay_source`, followed by any valid event: the valid event stays queued until some hide timer left over from an earlier overlay fires (for instance the display timer of an image whose load failed and that was hidden early by its `onerror`, lines 330-333); with no such timer it stays queued for good. This reads `overlays/script.js` as a classic, non-strict script, as it has no `"use strict"`: in strict mode line 549 throws a `ReferenceError` and the `catch` at lines 611-618 clears the flag and retries | `AppState.setOverlayActive(false)` before trying the next item | high; not executed | Overlay.MissingSourceStallsQueue | Overlay.OverlayScheduler.ShowCustomOverlayIntended |

`Overlay.OverlayScheduler.ShowCustomOverlay` and the rest of the scheduler
keep the code's behaviour: `ProcessNextOverlay` still calls the as-written
operation, so a sourceless item taken from the queue still stalls it.
`ShowCustomOverlayIntended` is the corrected operation on its own;
`Overlay.MissingSourceIntendedRecovers` hands the sourceless request straight
to it, without queueing it, and then queues the valid request, which is shown
at once.
