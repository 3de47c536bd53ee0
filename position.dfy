/**
 * Origins and heights for single-window placements (corners, sides, top,
 * middle, bottom). The screen is split into `monitors` equal segments side
 * by side; the X origin is chosen inside the segment that holds the window
 * (only the first two segments are told apart), the Y origin and the height
 * depend only on the screen and the decoration.
 *
 * These formulas use Python 3 `/`, so their results are reals; the final
 * conversion before a window is moved is `ActuatedCoordinate`.
 */
module Position {
  import opened Numeric
  import opened Screen

  /** The width of one monitor segment. */
  function SegmentWidth(ctx: Context): real
    requires ctx.monitors != 0
  {
    ctx.maxWidth as real / ctx.monitors as real
  }

  /** The left edge of the segment the window at `currentX` is on: the first one, or else the second. */
  function SegmentStart(ctx: Context, currentX: int): real
    requires ctx.monitors != 0
  {
    if (currentX as real) < SegmentWidth(ctx) then ctx.origX as real
    else ctx.origX as real + SegmentWidth(ctx)
  }

  /**
   * The X origin for a window now at `currentX`: `offset` to the right of
   * the start of its segment, or the segment start itself when the offset
   * is not less than a segment less one border.
   */
  function NextPosX(ctx: Context, currentX: int, offset: real): (posX: real)
    requires ctx.monitors != 0
    ensures posX == SegmentStart(ctx, currentX) + (if offset < SegmentWidth(ctx) - ctx.winBorder as real then offset else 0.0)
    ensures ctx.maxWidth > 0 && ctx.monitors > 0 && ctx.winBorder >= 0 && offset >= 0.0 ==>
              SegmentStart(ctx, currentX) <= posX < SegmentStart(ctx, currentX) + SegmentWidth(ctx)
  {
    var seg := ctx.maxWidth as real / ctx.monitors as real;
    if (currentX as real) < seg then
      if offset < seg - ctx.winBorder as real then ctx.origX as real + offset
      else ctx.origX as real
    else
      if offset < seg - ctx.winBorder as real then seg + ctx.origX as real + offset
      else ctx.origX as real + seg
  }

  /** A left placement docks the window at the left edge of its segment. */
  function LeftPosX(ctx: Context, currentX: int): (posX: real)
    requires ctx.monitors != 0
    ensures posX == SegmentStart(ctx, currentX)
  {
    NextPosX(ctx, currentX, 0.0)
  }

  /**
   * A right placement of a window `width` wide: when the window is wider
   * than one border its right edge meets the right edge of its segment,
   * less the padding correction `(right + left) / border`; otherwise it
   * docks at the segment start, less the same correction.
   */
  function RightPosX(ctx: Context, currentX: int, width: int): (posX: real)
    requires ctx.monitors != 0 && ctx.winBorder != 0
    ensures var correction := (ctx.padding.right + ctx.padding.left) as real / ctx.winBorder as real;
            if width > ctx.winBorder
            then posX + width as real + correction == SegmentStart(ctx, currentX) + SegmentWidth(ctx)
            else posX + correction == SegmentStart(ctx, currentX)
  {
    NextPosX(ctx, currentX, ctx.maxWidth as real / ctx.monitors as real - width as real)
      - (ctx.padding.right + ctx.padding.left) as real / ctx.winBorder as real
  }

  /**
   * A top, middle or bottom placement of a window `width` wide: when its
   * centring offset is less than a segment less one border, the window's
   * centre is the centre of its segment, shifted right by a quarter border.
   */
  function MiddlePosX(ctx: Context, currentX: int, width: int): (posX: real)
    requires ctx.monitors != 0
    ensures (SegmentWidth(ctx) - width as real) / 2.0 < SegmentWidth(ctx) - ctx.winBorder as real ==>
              posX + width as real / 2.0 == SegmentStart(ctx, currentX) + SegmentWidth(ctx) / 2.0 + ctx.winBorder as real / 4.0
    ensures (SegmentWidth(ctx) - width as real) / 2.0 >= SegmentWidth(ctx) - ctx.winBorder as real ==>
              posX == SegmentStart(ctx, currentX) + ctx.winBorder as real / 4.0
  {
    NextPosX(ctx, currentX, (ctx.maxWidth as real / ctx.monitors as real - width as real) / 2.0)
      + ctx.winBorder as real / 4.0
  }

  /** Height of a top or bottom placement: half the usable height less the decoration. */
  function BottomHeight(ctx: Context): (h: real)
    ensures 2.0 * (h + (ctx.winTitle + ctx.winBorder) as real) == ctx.maxHeight as real
  {
    ctx.maxHeight as real / 2.0 - ctx.winTitle as real - ctx.winBorder as real
  }

  /** Height of a top placement: like a bottom one, half the usable height less the decoration. */
  function TopHeight(ctx: Context): (h: real)
    ensures 2.0 * (h + (ctx.winTitle + ctx.winBorder) as real) == ctx.maxHeight as real
  {
    BottomHeight(ctx)
  }

  /** Height of a full-height side or middle placement: two half heights plus one decoration. */
  function MiddleHeight(ctx: Context): (h: int)
    ensures h as real == 2.0 * BottomHeight(ctx) + (ctx.winTitle + ctx.winBorder) as real
  {
    ctx.maxHeight - ctx.winTitle - ctx.winBorder
  }

  /**
   * Y origin of a top (and of a middle) placement: the top of the usable
   * area, raised by the top padding divided by the border width.
   */
  function TopPosY(ctx: Context): (y: real)
    requires ctx.winBorder != 0
    ensures y * ctx.winBorder as real == (ctx.origY * ctx.winBorder - ctx.padding.top) as real
    ensures ctx.padding.top == 0 ==> y == ctx.origY as real
  {
    ctx.origY as real - ctx.padding.top as real / ctx.winBorder as real
  }

  /** Y origin of a middle placement: the same as a top one. */
  function MiddlePosY(ctx: Context): (y: real)
    requires ctx.winBorder != 0
    ensures y * ctx.winBorder as real == (ctx.origY * ctx.winBorder - ctx.padding.top) as real
    ensures ctx.padding.top == 0 ==> y == ctx.origY as real
  {
    TopPosY(ctx)
  }

  /**
   * Y origin of a bottom placement: half a border below the vertical middle
   * of the usable area, raised by the bottom padding divided by the border
   * width.
   */
  function BottomPosY(ctx: Context): (y: real)
    requires ctx.winBorder != 0
    ensures ctx.padding.bottom == 0 ==>
              2.0 * y == (2 * ctx.origY + ctx.maxHeight + ctx.winBorder) as real
  {
    ctx.maxHeight as real / 2.0 + ctx.origY as real + ctx.winBorder as real / 2.0
      - ctx.padding.bottom as real / ctx.winBorder as real
  }

  /**
   * A top window with its decoration ends exactly where the bottom window
   * starts, less half a border and the difference of the padding
   * corrections; with equal top and bottom paddings and a positive border
   * the two never overlap.
   */
  lemma TopAboveBottom(ctx: Context)
    requires ctx.winBorder != 0
    ensures BottomPosY(ctx) - (TopPosY(ctx) + TopHeight(ctx) + (ctx.winTitle + ctx.winBorder) as real)
            == ctx.winBorder as real / 2.0 + (ctx.padding.top - ctx.padding.bottom) as real / ctx.winBorder as real
    ensures ctx.padding.top == ctx.padding.bottom && ctx.winBorder > 0 ==>
              TopPosY(ctx) + TopHeight(ctx) + (ctx.winTitle + ctx.winBorder) as real <= BottomPosY(ctx)
  {
    var b := ctx.winBorder as real;
    assert ctx.padding.top as real / b - ctx.padding.bottom as real / b
           == (ctx.padding.top - ctx.padding.bottom) as real / b;
  }

  /** The coordinate actually passed on when a window is moved: truncated, and never negative. */
  function ActuatedCoordinate(p: real): (c: int)
    ensures c >= 0
    ensures p >= 0.0 ==> c as real <= p < c as real + 1.0
    ensures p < 1.0 ==> c == 0
  {
    var t := Trunc(p);
    if t > 0 then t else 0
  }
}
