/** The request payload and what `showCustomOverlay` puts on screen for it
    (overlays/script.js:527-609), composed from the ingress, sizing and
    timing functions. DOM writes are not modelled; the record says which
    element is mounted, how it is sized and what will hide it. */
module Presenter {
  import opened Wrappers
  import opened Settings
  import opened Gif
  import opened Dimensions
  import opened Ingress
  import opened Timing

  /** `eventData.args`, each key optional (a missing `args` object reads as all
      keys absent). `sourceMuted` holds the `String(...)` form of the value. */
  datatype Args = Args(
    overlaySource: Option<string>,
    overlayText: Option<string>,
    sourceWidth: Option<real>,
    sourceHeight: Option<real>,
    sourceDuration: Option<int>,
    sourceMuted: Option<string>
  )

  /** What the queue holds: the event data as received. A value that is not
      an object (null, a number, a string) fails the check at line 521. */
  datatype OverlayEvent = NotAnObject | Payload(args: Args)

  /** `overlay_source` is truthy. */
  predicate HasSource(a: Args) { a.overlaySource.Some? && a.overlaySource.value != "" }

  /** One mounted overlay. */
  datatype Presentation = Presentation(
    source: string,      // after rewriting
    element: Element,
    sizing: Sizing,
    timing: TimingPlan,
    text: string         // caption; empty hides the caption element
  )

  /** `fetch(url)` then `getGifDuration`'s scan; a URL the network does not
      serve makes the fetch reject, which the `catch` turns into 0. */
  function ProbedDuration(network: map<string, seq<Byte>>, url: string): (ms: int)
    ensures ms >= 0
    ensures url !in network ==> ms == 0
    ensures url in network ==> ms == GifDuration(network[url])
  {
    DurationIsCentiseconds(if url in network then network[url] else []);
    if url in network then GifDuration(network[url]) else 0
  }

  /** The overlay built for a request that has a source. */
  function Present(a: Args, vp: Viewport, cfg: Config, network: map<string, seq<Byte>>): (p: Presentation)
    requires HasSource(a)
    // the source is made absolute without changing its kind
    ensures p.source == RewriteSource(a.overlaySource.value) && IsUrl(p.source)
    ensures Classify(p.source) == Classify(a.overlaySource.value)
    // one element, of the kind's variant, showing the source
    ensures p.element.src == p.source
    ensures p.element.VideoElement? <==> Classify(a.overlaySource.value) == Video
    ensures p.element.Iframe? <==> Classify(a.overlaySource.value) == Html
    ensures p.element.VideoElement? ==> p.element.muted == ParseMuted(a.sourceMuted)
    // a fixed size is always one the safety clamp leaves alone
    ensures p.sizing.Fixed? ==> ValidateDimensions(p.sizing.size.width, p.sizing.size.height, vp, cfg) == p.sizing.size
    // an override decides the hide delay; otherwise a GIF waits for its probed duration
    ensures HasOverride(a.sourceDuration) ==> p.timing.hide == After(a.sourceDuration.value)
    ensures !HasOverride(a.sourceDuration) && Classify(a.overlaySource.value) == AnimatedGif ==>
      var d := ProbedDuration(network, p.source);
      p.timing.hide == After(if d == 0 then cfg.defaultImageDuration else d)
    ensures p.text == (if a.overlayText.Some? then a.overlayText.value else "")
    // the sizing and the timing are the decisions made for the rewritten source
    ensures p.sizing == InitialSizing(a.sourceWidth, a.sourceHeight, IsVideo(p.source), IsHtml(p.source), vp, cfg)
    ensures p.timing == PlanFor(p.source, a.sourceDuration, ProbedDuration(network, p.source), cfg)
  {
    var src := RewriteSource(a.overlaySource.value);
    RewriteKeepsKind(a.overlaySource.value);
    ElementFollowsKind(src, ParseMuted(a.sourceMuted));
    ClassifyExact(src);
    var isVideo, isGif, isHtml := IsVideo(src), IsGif(src), IsHtml(src);
    Presentation(
      src,
      CreateMediaElement(src, isVideo, isHtml, ParseMuted(a.sourceMuted)),
      InitialSizing(a.sourceWidth, a.sourceHeight, isVideo, isHtml, vp, cfg),
      MediaTiming(isVideo, isGif, isHtml, a.sourceDuration, ProbedDuration(network, src), cfg),
      if a.overlayText.Some? then a.overlayText.value else "")
  }

  /** Without a truthy `source_duration`, the mounted overlay hides on its
      kind's default: a video at its end, HTML after the HTML default, a GIF
      after the duration probed from its bytes (the image default when 0),
      a static image after the image default. */
  lemma PresentHidesPerKind(a: Args, vp: Viewport, cfg: Config, network: map<string, seq<Byte>>)
    requires HasSource(a) && !HasOverride(a.sourceDuration)
    ensures var p := Present(a, vp, cfg, network); var k := Classify(a.overlaySource.value);
      && (k == Video ==> p.timing.hide == OnVideoEnded)
      && (k == Html ==> p.timing.hide == After(cfg.defaultHtmlDuration))
      && (k == AnimatedGif ==>
            var d := ProbedDuration(network, p.source);
            p.timing.hide == After(if d == 0 then cfg.defaultImageDuration else d))
      && (k == StaticImage ==> p.timing.hide == After(cfg.defaultImageDuration))
  {
    var p := Present(a, vp, cfg, network);
    DefaultHidePerKind(p.source, a.sourceDuration, ProbedDuration(network, p.source), cfg);
  }
}
