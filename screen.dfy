/**
 * The per-invocation screen context of the tiler: the values that the
 * Python program keeps in module globals, gathered in one immutable record.
 */
module Screen {

  /** A window rectangle `(x, y, width, height)` in screen pixels. */
  datatype Rect = Rect(x: int, y: int, width: int, height: int)

  /** The four configured screen paddings, in pixels. */
  datatype Padding = Padding(top: int, bottom: int, left: int, right: int)

  /** A desktop box: origin and size, as reported by the window manager. */
  datatype Desk = Desk(origX: int, origY: int, width: int, height: int)

  /**
   * Everything the layout and placement formulas read: the usable desktop
   * area, the window decoration (title bar and border), the master factor,
   * the number of side-by-side monitors, the paddings and the two width
   * tables.
   */
  datatype Context = Context(
    maxWidth: int, maxHeight: int, origX: int, origY: int,
    winTitle: int, winBorder: int,
    mwFactor: real, monitors: int,
    padding: Padding,
    cornerWidths: seq<real>, centerWidths: seq<real>)

  /**
   * The usable area: the raw desktop box shrunk by each padding on its own
   * side.
   */
  function UsableArea(raw: Desk, pad: Padding): (area: Desk)
    ensures area.origX == raw.origX + pad.left
    ensures area.origY == raw.origY + pad.top
    ensures area.origX + area.width == raw.origX + raw.width - pad.right
    ensures area.origY + area.height == raw.origY + raw.height - pad.bottom
  {
    Desk(raw.origX + pad.left, raw.origY + pad.top,
         raw.width - pad.left - pad.right, raw.height - pad.top - pad.bottom)
  }

  /** The context built from the raw desktop box, the decoration and the configuration values. */
  function MakeContext(raw: Desk, pad: Padding, winTitle: int, winBorder: int, mwFactor: real,
                       monitors: int, cornerWidths: seq<real>, centerWidths: seq<real>): (ctx: Context)
    ensures ctx.origX == raw.origX + pad.left && ctx.origY == raw.origY + pad.top
    ensures ctx.origX + ctx.maxWidth == raw.origX + raw.width - pad.right
    ensures ctx.origY + ctx.maxHeight == raw.origY + raw.height - pad.bottom
    ensures ctx.winTitle == winTitle && ctx.winBorder == winBorder && ctx.mwFactor == mwFactor
    ensures ctx.monitors == monitors && ctx.padding == pad
    ensures ctx.cornerWidths == cornerWidths && ctx.centerWidths == centerWidths
  {
    var area := UsableArea(raw, pad);
    Context(area.width, area.height, area.origX, area.origY, winTitle, winBorder,
            mwFactor, monitors, pad, cornerWidths, centerWidths)
  }
}
