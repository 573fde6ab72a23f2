/** Screen-safe sizing of overlay media (overlays/script.js:79-195 and the
    HTML fallback at 598-604). Sizes are `real`, so `85 / 100` is exact and
    `Math.floor` is `.Floor`. */
module Dimensions {
  import opened Wrappers
  import opened Settings

  /** A width and height in CSS pixels. */
  datatype Size = Size(width: real, height: real)

  /** A CSS length: a pixel value or `'auto'`. */
  datatype Length = Px(px: real) | Auto

  /** The four style properties `applySingleDimension` writes. */
  datatype Box = Box(width: Length, height: Length, maxWidth: real, maxHeight: real)

  function Min(a: real, b: real): real { if a <= b then a else b }
  function Max(a: real, b: real): real { if a >= b then a else b }

  /** A payload dimension is used only when it is truthy: present and not 0. */
  predicate Given(d: Option<real>) { d.Some? && d.value != 0.0 }

  /** `(window.innerWidth - padding) * maxScreenPercent`. */
  function AvailableWidth(vp: Viewport, cfg: Config): real { SafeWidth(vp, cfg) * ScreenFraction(cfg) }
  /** `(window.innerHeight - padding) * maxScreenPercent`. */
  function AvailableHeight(vp: Viewport, cfg: Config): real { SafeHeight(vp, cfg) * ScreenFraction(cfg) }

  /** The space `getMaxDimensions` fits into per axis: the available space,
      but never less than 100 (the locals named `minWidth`/`minHeight`). */
  function FitWidth(vp: Viewport, cfg: Config): real { Max(AvailableWidth(vp, cfg), 100.0) }
  function FitHeight(vp: Viewport, cfg: Config): real { Max(AvailableHeight(vp, cfg), 100.0) }

  /** The common scale factor of `getMaxDimensions`: for positive natural
      sizes, the largest factor of at most 1 that fits both axes into the fit space. */
  function FitScale(nw: real, nh: real, vp: Viewport, cfg: Config): (s: real)
    requires nw != 0.0 && nh != 0.0
    ensures s <= 1.0
    ensures nw > 0.0 && nh > 0.0 ==>
      && 0.0 < s
      && nw * s <= FitWidth(vp, cfg)
      && nh * s <= FitHeight(vp, cfg)
      && (s == 1.0 || nw * s == FitWidth(vp, cfg) || nh * s == FitHeight(vp, cfg))
  {
    var sw := FitWidth(vp, cfg) / nw;
    var sh := FitHeight(vp, cfg) / nh;
    Min(Min(sw, sh), 1.0)
  }

  /** `getMaxDimensions(naturalWidth, naturalHeight)`. Its callers reach it only
      with both values truthy, so neither is 0. The result never leaves the
      padded viewport; the lemmas below give the rest of its contract. */
  function MaxDimensions(nw: real, nh: real, vp: Viewport, cfg: Config): (r: Size)
    requires nw != 0.0 && nh != 0.0
    ensures r.width <= SafeWidth(vp, cfg) && r.height <= SafeHeight(vp, cfg)
  {
    Size(ScaledAxis(nw, FitScale(nw, nh, vp, cfg), SafeWidth(vp, cfg)),
         ScaledAxis(nh, FitScale(nw, nh, vp, cfg), SafeHeight(vp, cfg)))
  }

  /** For positive natural sizes: no upscaling, and both axes are the natural
      size times the same scale, floored (unless cut to the padded viewport). */
  lemma MaxDimensionsScalesBoth(nw: real, nh: real, vp: Viewport, cfg: Config)
    requires nw > 0.0 && nh > 0.0
    ensures var r, s := MaxDimensions(nw, nh, vp, cfg), FitScale(nw, nh, vp, cfg);
      && r.width <= nw && r.height <= nh
      && r.width <= nw * s && r.height <= nh * s
      && (r.width == SafeWidth(vp, cfg) || nw * s - 1.0 < r.width)
      && (r.height == SafeHeight(vp, cfg) || nh * s - 1.0 < r.height)
  {
  }

  /** One axis of `getMaxDimensions`: `Math.min(Math.floor(n * scale), safe)`. */
  function ScaledAxis(n: real, s: real, safe: real): (w: real)
    ensures w <= safe
    ensures n > 0.0 && 0.0 < s <= 1.0 ==> w <= n && w <= n * s && (w == safe || n * s - 1.0 < w)
  {
    FloorOfScaled(n, s);
    Min((n * s).Floor as real, safe)
  }

  /** The result is in whole pixels whenever the viewport is. */
  lemma MaxDimensionsWholePixels(nw: real, nh: real, vp: Viewport, cfg: Config)
    requires nw != 0.0 && nh != 0.0
    ensures var r := MaxDimensions(nw, nh, vp, cfg);
      r.width == r.width.Floor as real && r.height == r.height.Floor as real
  {
  }

  /** Flooring a length scaled by a factor in (0, 1] loses less than one pixel
      and never grows it. */
  lemma FloorOfScaled(n: real, s: real)
    ensures n > 0.0 && 0.0 < s <= 1.0 ==>
      n * s - 1.0 < (n * s).Floor as real <= n * s <= n
  {
    if n > 0.0 && 0.0 < s <= 1.0 {
      assert n * s <= n * 1.0;
    }
  }

  /** A share `f` in [0, 1] of `x` that reaches 100 lies between 100 and `x`. */
  lemma ShareWithin(x: real, f: real, share: real)
    requires 0.0 <= f <= 1.0 && share == x * f && share >= 100.0
    ensures 100.0 <= share <= x
  {
    assert x * f <= x * 1.0;
  }

  /** `Math.max(min, Math.min(x, max))`: a clamp into [lo, hi]. */
  function Clamp(x: real, lo: real, hi: real): (r: real)
    requires lo <= hi
    ensures lo <= r <= hi
    ensures lo <= x <= hi ==> r == x
    ensures x < lo ==> r == lo
    ensures hi < x ==> r == hi
  {
    Max(lo, Min(x, hi))
  }

  /** The smallest size `validateDimensions` lets through on an axis whose
      safe maximum is `safe`: 100, or less when the viewport itself is smaller. */
  function MinViable(safe: real): real { Min(100.0, safe) }

  /** `validateDimensions(width, height)`: each axis clamped into
      [min(100, maxSafe), maxSafe]. */
  function ValidateDimensions(w: real, h: real, vp: Viewport, cfg: Config): (r: Size)
    ensures MinViable(SafeWidth(vp, cfg)) <= r.width <= SafeWidth(vp, cfg)
    ensures MinViable(SafeHeight(vp, cfg)) <= r.height <= SafeHeight(vp, cfg)
    ensures MinViable(SafeWidth(vp, cfg)) <= w <= SafeWidth(vp, cfg) ==> r.width == w
    ensures MinViable(SafeHeight(vp, cfg)) <= h <= SafeHeight(vp, cfg) ==> r.height == h
    ensures w > SafeWidth(vp, cfg) ==> r.width == SafeWidth(vp, cfg)
    ensures h > SafeHeight(vp, cfg) ==> r.height == SafeHeight(vp, cfg)
    ensures w < MinViable(SafeWidth(vp, cfg)) ==> r.width == MinViable(SafeWidth(vp, cfg))
    ensures h < MinViable(SafeHeight(vp, cfg)) ==> r.height == MinViable(SafeHeight(vp, cfg))
  {
    var safeW := SafeWidth(vp, cfg);
    var safeH := SafeHeight(vp, cfg);
    Size(Clamp(w, MinViable(safeW), safeW), Clamp(h, MinViable(safeH), safeH))
  }

  /** Validating twice is validating once. */
  lemma ValidateIdempotent(w: real, h: real, vp: Viewport, cfg: Config)
    ensures var r := ValidateDimensions(w, h, vp, cfg);
      ValidateDimensions(r.width, r.height, vp, cfg) == r
  {
  }

  /** Whenever the padded viewport is non-empty, a validated size is within
      the "safe screen boundaries" `validateDimensions` is named for: strictly
      positive and inside the padded viewport. */
  lemma ValidatedIsSafe(w: real, h: real, vp: Viewport, cfg: Config)
    requires SafeWidth(vp, cfg) > 0.0 && SafeHeight(vp, cfg) > 0.0
    ensures var r := ValidateDimensions(w, h, vp, cfg);
      0.0 < r.width <= SafeWidth(vp, cfg) && 0.0 < r.height <= SafeHeight(vp, cfg)
  {
  }

  /** `applySingleDimension`: the given axis is capped at the available
      share of the padded viewport, the other axis is `auto` with the padded
      viewport as its ceiling. The caller passes exactly one truthy axis. */
  function ApplySingleDimension(sw: Option<real>, sh: Option<real>, vp: Viewport, cfg: Config): (r: Box)
    requires Given(sw) || Given(sh)
    ensures Given(sw) ==>
      && r.width.Px? && r.height.Auto?
      && r.width.px <= sw.value && r.width.px <= AvailableWidth(vp, cfg)
      && (r.width.px == sw.value || r.width.px == AvailableWidth(vp, cfg))
      && r.maxWidth == r.width.px && r.maxHeight == SafeHeight(vp, cfg)
    ensures !Given(sw) ==>
      && r.height.Px? && r.width.Auto?
      && r.height.px <= sh.value && r.height.px <= AvailableHeight(vp, cfg)
      && (r.height.px == sh.value || r.height.px == AvailableHeight(vp, cfg))
      && r.maxHeight == r.height.px && r.maxWidth == SafeWidth(vp, cfg)
  {
    if Given(sw) then
      var maxWidth := Min(sw.value, AvailableWidth(vp, cfg));
      Box(Px(maxWidth), Auto, maxWidth, SafeHeight(vp, cfg))
    else
      var maxHeight := Min(sh.value, AvailableHeight(vp, cfg));
      Box(Auto, Px(maxHeight), SafeWidth(vp, cfg), maxHeight)
  }

  /** How the element is sized when it is built. */
  datatype Sizing =
    | Fixed(size: Size)   // setElementDimensions with a validated size
    | OneAxis(box: Box)   // applySingleDimension
    | AwaitNatural        // sized later from the media's natural size, once loaded

  /** The sizing decision of `showCustomOverlay`: `applyMediaDimensions`
      without natural dimensions (line 575), then the no-dimension branches. */
  function InitialSizing(sw: Option<real>, sh: Option<real>, isVideo: bool, isHtml: bool,
                         vp: Viewport, cfg: Config): (r: Sizing)
    ensures r.Fixed? ==> ValidateDimensions(r.size.width, r.size.height, vp, cfg) == r.size
    ensures r.OneAxis? <==> (Given(sw) != Given(sh))
    ensures r.AwaitNatural? <==> (!Given(sw) && !Given(sh) && (isVideo || !isHtml))
    // which size each branch applies
    ensures Given(sw) && Given(sh) ==>
      var m := MaxDimensions(sw.value, sh.value, vp, cfg);
      r == Fixed(ValidateDimensions(m.width, m.height, vp, cfg))
    ensures r.OneAxis? ==> r.box == ApplySingleDimension(sw, sh, vp, cfg)
    ensures !Given(sw) && !Given(sh) && !isVideo && isHtml ==> r == Fixed(HtmlFallback(vp, cfg))
  {
    if Given(sw) && Given(sh) then
      var m := MaxDimensions(sw.value, sh.value, vp, cfg);
      Fixed(ValidateDimensions(m.width, m.height, vp, cfg))
    else if Given(sw) || Given(sh) then
      OneAxis(ApplySingleDimension(sw, sh, vp, cfg))
    else if isVideo || !isHtml then
      AwaitNatural
    else
      Fixed(HtmlFallback(vp, cfg))
  }

  /** Lines 598-604: HTML with no size gets the available share of the padded
      viewport, through the safety clamp. */
  function HtmlFallback(vp: Viewport, cfg: Config): (r: Size)
    ensures ValidateDimensions(r.width, r.height, vp, cfg) == r
  {
    ValidateDimensions(AvailableWidth(vp, cfg), AvailableHeight(vp, cfg), vp, cfg)
  }

  /** With a share of at most 100%, an HTML fallback of at least 100 pixels
      per axis passes the safety clamp unchanged. */
  lemma HtmlFallbackUnclamped(vp: Viewport, cfg: Config)
    requires 0.0 <= ScreenFraction(cfg) <= 1.0
    requires AvailableWidth(vp, cfg) >= 100.0 && AvailableHeight(vp, cfg) >= 100.0
    ensures HtmlFallback(vp, cfg) == Size(AvailableWidth(vp, cfg), AvailableHeight(vp, cfg))
  {
    ShareWithin(SafeWidth(vp, cfg), ScreenFraction(cfg), AvailableWidth(vp, cfg));
    ShareWithin(SafeHeight(vp, cfg), ScreenFraction(cfg), AvailableHeight(vp, cfg));
    ValidateKeeps(AvailableWidth(vp, cfg), AvailableHeight(vp, cfg), vp, cfg);
  }

  /** A size of at least 100 pixels per axis inside the padded viewport is
      left alone by validation. */
  lemma ValidateKeeps(w: real, h: real, vp: Viewport, cfg: Config)
    requires 100.0 <= w <= SafeWidth(vp, cfg) && 100.0 <= h <= SafeHeight(vp, cfg)
    ensures ValidateDimensions(w, h, vp, cfg) == Size(w, h)
  {
  }

  /** `applyNaturalDimensions`: once the media reports its natural size,
      it is fitted and validated if both values are non-zero; otherwise
      the element keeps its intrinsic size (`None`). */
  function NaturalSizing(nw: nat, nh: nat, vp: Viewport, cfg: Config): (r: Option<Size>)
    ensures r.Some? <==> nw != 0 && nh != 0
    ensures r.Some? ==>
      && r.value.width <= SafeWidth(vp, cfg) && r.value.height <= SafeHeight(vp, cfg)
      && (MinViable(SafeWidth(vp, cfg)) <= nw as real ==> r.value.width <= nw as real)
      && (MinViable(SafeHeight(vp, cfg)) <= nh as real ==> r.value.height <= nh as real)
  {
    if nw != 0 && nh != 0 then
      var m := MaxDimensions(nw as real, nh as real, vp, cfg);
      MaxDimensionsScalesBoth(nw as real, nh as real, vp, cfg);
      Some(ValidateDimensions(m.width, m.height, vp, cfg))
    else None
  }

  /** When both explicit dimensions are given, the element is fitted into the
      padded viewport, and it is never enlarged beyond the requested size
      unless that size is below the minimum viable size. */
  lemma BothGivenIsSafe(w: real, h: real, vp: Viewport, cfg: Config)
    requires w > 0.0 && h > 0.0
    ensures var r := InitialSizing(Some(w), Some(h), false, false, vp, cfg);
      && r.Fixed?
      && r.size.width <= SafeWidth(vp, cfg) && r.size.height <= SafeHeight(vp, cfg)
      && (MinViable(SafeWidth(vp, cfg)) <= w ==> r.size.width <= w)
      && (MinViable(SafeHeight(vp, cfg)) <= h ==> r.size.height <= h)
  {
    MaxDimensionsScalesBoth(w, h, vp, cfg);
  }

  /** 800×600 on a 1000×800 viewport with the defaults (85%, 20 px) has room
      816×646, so it keeps its size. */
  lemma FitExampleKeepsSize()
    ensures MaxDimensions(800.0, 600.0, Viewport(1000, 800), Defaults) == Size(800.0, 600.0)
  {
    var vp, cfg := Viewport(1000, 800), Defaults;
    assert AvailableWidth(vp, cfg) == 816.0;
    assert AvailableHeight(vp, cfg) == 646.0;
    assert FitScale(800.0, 600.0, vp, cfg) == 1.0;
  }

  /** A 1920×1080 source on the same viewport is scaled by 816/1920 on both axes. */
  lemma FitExampleShrinks()
    ensures MaxDimensions(1920.0, 1080.0, Viewport(1000, 800), Defaults) == Size(816.0, 459.0)
  {
    var vp, cfg := Viewport(1000, 800), Defaults;
    assert AvailableWidth(vp, cfg) == 816.0;
    assert AvailableHeight(vp, cfg) == 646.0;
    assert FitScale(1920.0, 1080.0, vp, cfg) == 0.425;
    assert (1080.0 * 0.425).Floor == 459;
  }
}
