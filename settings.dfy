/** The browser viewport and the configuration block at the top of
    overlays/script.js (lines 35-64), passed as parameters instead of being
    read from globals. */
module Settings {

  /** `window.innerWidth` and `window.innerHeight`, in CSS pixels. */
  datatype Viewport = Viewport(innerWidth: int, innerHeight: int)

  /** The part of `config` the overlay pipeline reads. */
  datatype Config = Config(
    maxScreenPercentage: int,   // config.display.maxScreenPercentage
    viewportPadding: int,       // config.display.viewportPadding
    defaultImageDuration: int,  // config.timing.defaultImageDuration (ms)
    defaultHtmlDuration: int,   // config.timing.defaultHtmlDuration (ms)
    processingDelay: int        // config.queue.processingDelay (ms)
  )

  /** The shipped defaults. */
  const Defaults: Config := Config(85, 20, 5000, 10000, 500)

  /** `config.display.maxScreenPercentage / 100`. */
  function ScreenFraction(cfg: Config): real {
    cfg.maxScreenPercentage as real / 100.0
  }

  /** `window.innerWidth - padding`, where padding is twice the viewport padding. */
  function SafeWidth(vp: Viewport, cfg: Config): real {
    (vp.innerWidth - 2 * cfg.viewportPadding) as real
  }

  /** `window.innerHeight - padding`. */
  function SafeHeight(vp: Viewport, cfg: Config): real {
    (vp.innerHeight - 2 * cfg.viewportPadding) as real
  }
}
