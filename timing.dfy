/** When an overlay hides, and what progress indicator it shows:
    `setupMediaTiming` (overlays/script.js:266-302) and the trigger choice of
    `setupProgressBar` (225-262). Timers and playback events are not run here:
    the plan says which callback will call `hideCustomOverlay`. */
module Timing {
  import opened Wrappers
  import opened Settings
  import opened Ingress

  /** What calls `hideCustomOverlay`. */
  datatype HideTrigger =
    | After(ms: int)   // a `setTimeout` of `ms` milliseconds
    | OnVideoEnded     // the video's `ended` event

  /** The progress indicator (`progressContainer`). */
  datatype Progress =
    | ProgressHidden          // `display = 'none'`
    | ProgressByElapsed(ms: int)  // an interval filling the bar over `ms`
    | ProgressByPlayback      // `timeupdate` events from the video

  datatype TimingPlan = TimingPlan(hide: HideTrigger, progress: Progress)

  /** A `source_duration` is used only when truthy: present and not 0. */
  predicate HasOverride(d: Option<int>) { d.Some? && d.value != 0 }

  /** The flags are those of lines 567-569; `probed` is what `getGifDuration`
      resolved to, and matters only for a GIF without an override. For a GIF
      the timer starts once the probe has resolved. */
  function MediaTiming(isVideo: bool, isGif: bool, isHtml: bool, durationOverride: Option<int>,
                       probed: int, cfg: Config): (p: TimingPlan)
    // only videos show progress; it follows playback unless there is an override
    ensures p.progress.ProgressHidden? <==> !isVideo
    ensures isVideo ==> (p.progress.ProgressByPlayback? <==> !HasOverride(durationOverride))
    // playback end hides only an un-overridden video; everything else hides on a timer
    ensures p.hide.OnVideoEnded? <==> isVideo && !HasOverride(durationOverride)
  {
    if isVideo then
      if HasOverride(durationOverride) then
        TimingPlan(After(durationOverride.value), ProgressByElapsed(durationOverride.value))
      else
        TimingPlan(OnVideoEnded, ProgressByPlayback)
    else if isHtml then
      TimingPlan(After(if HasOverride(durationOverride) then durationOverride.value
                       else cfg.defaultHtmlDuration), ProgressHidden)
    else if HasOverride(durationOverride) then
      TimingPlan(After(durationOverride.value), ProgressHidden)
    else if isGif then
      TimingPlan(After(if probed == 0 then cfg.defaultImageDuration else probed), ProgressHidden)
    else
      TimingPlan(After(cfg.defaultImageDuration), ProgressHidden)
  }

  /** The plan for a source, with the flags its classification gives. */
  function PlanFor(src: string, durationOverride: Option<int>, probed: int, cfg: Config): TimingPlan {
    MediaTiming(IsVideo(src), IsGif(src), IsHtml(src), durationOverride, probed, cfg)
  }

  /** A truthy override is the hide delay for every kind. */
  lemma OverrideWins(src: string, d: Option<int>, probed: int, cfg: Config)
    requires HasOverride(d)
    ensures PlanFor(src, d, probed, cfg).hide == After(d.value)
  {
  }

  /** Without an override (absent or 0): video waits for its end, HTML for the
      HTML default, a GIF for its probed duration (the image default when that
      is 0), a static image for the image default. */
  lemma DefaultHidePerKind(src: string, d: Option<int>, probed: int, cfg: Config)
    requires !HasOverride(d)
    ensures var h := PlanFor(src, d, probed, cfg).hide;
      && (Classify(src) == Video ==> h == OnVideoEnded)
      && (Classify(src) == Html ==> h == After(cfg.defaultHtmlDuration))
      && (Classify(src) == AnimatedGif ==> h == After(if probed == 0 then cfg.defaultImageDuration else probed))
      && (Classify(src) == StaticImage ==> h == After(cfg.defaultImageDuration))
  {
    ClassifyExact(src);
  }

  /** The probed duration is read only for a GIF without an override. */
  lemma ProbeOnlyForGif(src: string, d: Option<int>, p1: int, p2: int, cfg: Config)
    requires Classify(src) != AnimatedGif || HasOverride(d)
    ensures PlanFor(src, d, p1, cfg) == PlanFor(src, d, p2, cfg)
  {
    ClassifyExact(src);
  }

  /** With the shipped defaults, a non-video overlay without an override (absent
      or 0) always hides after a positive delay, given a non-negative probe result. */
  lemma DefaultsHideAfterPositiveDelay(src: string, d: Option<int>, probed: int)
    requires !HasOverride(d) && probed >= 0 && Classify(src) != Video
    ensures var h := PlanFor(src, d, probed, Defaults).hide;
      h.After? && h.ms > 0
  {
    ClassifyExact(src);
  }
}
