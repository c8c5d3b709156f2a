/**
 * DisplayMode (display_mode.h, and the parallel dataclass in display_mode_gen.py):
 * video mode resolution and timings, like an XFree86 modeline.
 */
module DisplayModes {
  import opened XYs

  datatype DisplayMode = DisplayMode(
    size: XY<int>,          // displayable pixel size
    scanSize: XY<int>,      // overall timing size
    syncStart: XY<int>,     // horizontal / vertical sync start
    syncEnd: XY<int>,       // horizontal / vertical sync pulse end
    syncPolarity: XY<int>,  // +1 / -1 per axis
    doubling: XY<int>,      // clock doubling / doublescan / interlace (+1 / -1)
    aspect: XY<int>,        // picture aspect ratio, (0, 0) if unspecified
    pixelKhz: int,          // pixel clock
    nominalHz: int          // approximate refresh rate
  )

  const Zero := XY(0, 0)

  /** A default-constructed DisplayMode (DisplayMode() in the generator): every field zero. */
  const Blank := DisplayMode(Zero, Zero, Zero, Zero, Zero, Zero, Zero, 0, 0)
}
