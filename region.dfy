/**
 * Extraction of the centred scan rectangle out of the mapped staging surface
 * (`DesktopDuplicator::captureFrame`, src/graphics/desktop_duplicator.cpp:302-341).
 * The mapped surface is a BGRA byte buffer with a row pitch; the GPU copy that
 * produces it is not modelled.
 */
module Region {
  import opened Pixels
  import opened Arithmetic

  /** `D3D11_MAPPED_SUBRESOURCE`: the bytes behind `pData` and the `RowPitch`. */
  datatype MappedSurface = MappedSurface(data: seq<Byte>, rowPitch: nat)

  /** The surface holds `height` rows of `width` 4-byte pixels, `rowPitch` bytes apart. */
  predicate Covers(s: MappedSurface, width: int, height: int)
  {
    0 <= width && 0 <= height && 4 * width <= s.rowPitch && s.rowPitch * height <= |s.data|
  }

  /**
   * One axis of the scan rectangle as lines 303-314 compute it: centre minus half
   * the area, raised to 0, then pulled back so that it ends at the screen edge.
   * C++ division truncates; for the non-negative operands here that is `/`.
   */
  function ScanOrigin(screen: int, area: int): int
    requires 0 <= screen && 0 <= area
  {
    var start := screen / 2 - area / 2;
    var raised := if start < 0 then 0 else start;
    if raised + area > screen then screen - area else raised
  }

  /** For an area no larger than the screen, the rectangle is centred and inside the screen. */
  lemma ScanOriginInside(screen: int, area: int)
    requires 0 <= area <= screen
    ensures ScanOrigin(screen, area) == screen / 2 - area / 2
    ensures 0 <= ScanOrigin(screen, area) && ScanOrigin(screen, area) + area <= screen
  {
  }

  /** An area wider than the screen is not clamped to 0: line 313 makes its origin negative. */
  lemma OversizedAreaStartsBeforeScreen(screen: int, area: int)
    requires 0 <= screen < area
    ensures ScanOrigin(screen, area) < 0
    ensures ScanOrigin(screen, area) == screen - area
  {
  }

  lemma OffsetInside(s: MappedSurface, width: int, height: int, x: int, y: int)
    requires Covers(s, width, height)
    requires 0 <= x < width && 0 <= y < height
    ensures 0 <= y * s.rowPitch + x * 4 && y * s.rowPitch + x * 4 + 3 < |s.data|
  {
    assert y * s.rowPitch + s.rowPitch == (y + 1) * s.rowPitch;
    assert (y + 1) * s.rowPitch <= height * s.rowPitch by {
      MulMonotone(y + 1, height, s.rowPitch);
    }
  }

  /** The pixel at screen position (x, y): bytes B, G, R at offset `y * RowPitch + x * 4`. */
  function PixelAt(s: MappedSurface, width: int, height: int, x: int, y: int): Color
    requires Covers(s, width, height)
    requires 0 <= x < width && 0 <= y < height
  {
    OffsetInside(s, width, height, x, y);
    var at := y * s.rowPitch + x * 4;
    Color(s.data[at + 2], s.data[at + 1], s.data[at])
  }

  /** Row `y` of the rectangle, columns `left` .. `left + w - 1`. */
  function RowPixels(s: MappedSurface, width: int, height: int, left: int, y: int, w: nat): seq<Color>
    requires Covers(s, width, height)
    requires 0 <= left && left + w <= width && 0 <= y < height
  {
    seq(w, x requires 0 <= x < w => PixelAt(s, width, height, left + x, y))
  }

  /** The first `h` rows of the rectangle at (`left`, `top`), in row-major order. */
  function RegionPixels(s: MappedSurface, width: int, height: int, left: int, top: int, w: nat, h: nat): seq<Color>
    requires Covers(s, width, height)
    requires 0 <= left && left + w <= width && 0 <= top && top + h <= height
  {
    if h == 0 then []
    else RegionPixels(s, width, height, left, top, w, h - 1) + RowPixels(s, width, height, left, top + h - 1, w)
  }

  lemma {:induction false} RegionLength(s: MappedSurface, width: int, height: int, left: int, top: int, w: nat, h: nat)
    requires Covers(s, width, height)
    requires 0 <= left && left + w <= width && 0 <= top && top + h <= height
    ensures |RegionPixels(s, width, height, left, top, w, h)| == w * h
  {
    if h > 0 {
      RegionLength(s, width, height, left, top, w, h - 1);
      assert (h - 1) * w + w == w * h;
    }
  }

  /**
   * The extracted frame has exactly w*h pixels, and its pixel y*w + x holds the bytes
   * at offset (top + y) * RowPitch + (left + x) * 4: blue at +0, green at +1, red at +2.
   */
  lemma {:induction false} RegionPixelAt(s: MappedSurface, width: int, height: int, left: int, top: int, w: nat, h: nat, x: nat, y: nat)
    requires Covers(s, width, height)
    requires 0 <= left && left + w <= width && 0 <= top && top + h <= height
    requires x < w && y < h
    ensures |RegionPixels(s, width, height, left, top, w, h)| == w * h
    ensures y * w + x < w * h
    ensures 0 <= (top + y) * s.rowPitch + (left + x) * 4
    ensures (top + y) * s.rowPitch + (left + x) * 4 + 2 < |s.data|
    ensures var at := (top + y) * s.rowPitch + (left + x) * 4;
      RegionPixels(s, width, height, left, top, w, h)[y * w + x] == Color(s.data[at + 2], s.data[at + 1], s.data[at])
  {
    RegionLength(s, width, height, left, top, w, h);
    RegionLength(s, width, height, left, top, w, h - 1);
    OffsetInside(s, width, height, left + x, top + y);
    MulMonotone(y + 1, h, w);
    assert (y + 1) * w == y * w + w;
    if y < h - 1 {
      RegionPixelAt(s, width, height, left, top, w, h - 1, x, y);
    } else {
      var prev := RegionPixels(s, width, height, left, top, w, h - 1);
      var row := RowPixels(s, width, height, left, top + h - 1, w);
      assert y * w + x == |prev| + x;
      assert RegionPixels(s, width, height, left, top, w, h)[|prev| + x] == row[x];
      assert row[x] == PixelAt(s, width, height, left + x, top + y);
    }
  }

  /** The frame `captureFrame` fills for a w-by-h scan area: the centred rectangle, row by row. */
  function ScanFrame(s: MappedSurface, screenWidth: int, screenHeight: int, w: int, h: int): (frame: seq<Color>)
    requires Covers(s, screenWidth, screenHeight)
    requires 0 <= w <= screenWidth && 0 <= h <= screenHeight
    ensures |frame| == w * h
  {
    ScanOriginInside(screenWidth, w);
    ScanOriginInside(screenHeight, h);
    RegionLength(s, screenWidth, screenHeight, ScanOrigin(screenWidth, w), ScanOrigin(screenHeight, h), w, h);
    RegionPixels(s, screenWidth, screenHeight, ScanOrigin(screenWidth, w), ScanOrigin(screenHeight, h), w, h)
  }

  /**
   * The inner loop of lines 326-340: copy one row of the rectangle into `buffer`
   * from `pixelIndex` on, leaving what lies before it untouched.
   */
  method CopyRow(s: MappedSurface, screenWidth: int, screenHeight: int, buffer: array<Color>,
                 pixelIndex: nat, scanLeft: int, y: int, w: nat)
    returns (next: nat)
    requires Covers(s, screenWidth, screenHeight)
    requires 0 <= scanLeft && scanLeft + w <= screenWidth && 0 <= y < screenHeight
    requires pixelIndex + w <= buffer.Length
    modifies buffer
    ensures next == pixelIndex + w
    ensures buffer[..next] == old(buffer[..pixelIndex]) + RowPixels(s, screenWidth, screenHeight, scanLeft, y, w)
  {
    ghost var done := buffer[..pixelIndex];
    ghost var row := RowPixels(s, screenWidth, screenHeight, scanLeft, y, w);
    next := pixelIndex;
    var x := scanLeft;
    while x < scanLeft + w
      invariant scanLeft <= x <= scanLeft + w
      invariant next == pixelIndex + (x - scanLeft)
      invariant buffer[..next] == done + row[..x - scanLeft]
    {
      OffsetInside(s, screenWidth, screenHeight, x, y);
      var srcIndex := y * s.rowPitch + x * 4;
      var pixel := Color(s.data[srcIndex + 2], s.data[srcIndex + 1], s.data[srcIndex + 0]);
      assert row[x - scanLeft] == PixelAt(s, screenWidth, screenHeight, x, y);
      assert pixel == row[x - scanLeft];
      buffer[next] := pixel;
      assert row[..x - scanLeft + 1] == row[..x - scanLeft] + [pixel];
      assert buffer[..next + 1] == buffer[..next] + [pixel];
      next := next + 1;
      x := x + 1;
    }
    assert row[..w] == row;
  }

  /** The outer loop of lines 324-341: copy the rectangle row by row into `buffer`. */
  method CopyRows(s: MappedSurface, screenWidth: int, screenHeight: int, buffer: array<Color>,
                  scanLeft: int, scanTop: int, w: nat, h: nat)
    requires Covers(s, screenWidth, screenHeight)
    requires 0 <= scanLeft && scanLeft + w <= screenWidth && 0 <= scanTop && scanTop + h <= screenHeight
    requires buffer.Length == w * h
    modifies buffer
    ensures buffer[..] == RegionPixels(s, screenWidth, screenHeight, scanLeft, scanTop, w, h)
  {
    var scanBottom := scanTop + h;
    var pixelIndex := 0;
    var y := scanTop;
    while y < scanBottom
      invariant scanTop <= y <= scanBottom
      invariant pixelIndex == (y - scanTop) * w
      invariant buffer[..pixelIndex] == RegionPixels(s, screenWidth, screenHeight, scanLeft, scanTop, w, y - scanTop)
    {
      ghost var rows := y - scanTop;
      ghost var done := RegionPixels(s, screenWidth, screenHeight, scanLeft, scanTop, w, rows);
      MulMonotone(rows + 1, h, w);
      MulSucc(rows, w);
      assert pixelIndex + w <= buffer.Length;
      pixelIndex := CopyRow(s, screenWidth, screenHeight, buffer, pixelIndex, scanLeft, y, w);
      assert buffer[..pixelIndex] == done + RowPixels(s, screenWidth, screenHeight, scanLeft, y, w);
      assert pixelIndex == (rows + 1) * w;
      y := y + 1;
    }
    assert pixelIndex == buffer.Length;
    assert buffer[..] == buffer[..pixelIndex];
  }

  /**
   * The pixel copy of lines 303-341: compute the clamped origin, then walk the
   * rectangle row by row, filling a w*h buffer through a running `pixelIndex`.
   */
  method ExtractRegion(s: MappedSurface, screenWidth: int, screenHeight: int, w: int, h: int)
    returns (frame: seq<Color>)
    requires Covers(s, screenWidth, screenHeight)
    requires 0 <= w <= screenWidth && 0 <= h <= screenHeight
    ensures ScanOrigin(screenWidth, w) + w <= screenWidth && ScanOrigin(screenHeight, h) + h <= screenHeight
    ensures 0 <= ScanOrigin(screenWidth, w) && 0 <= ScanOrigin(screenHeight, h)
    ensures frame == ScanFrame(s, screenWidth, screenHeight, w, h)
  {
    ScanOriginInside(screenWidth, w);
    ScanOriginInside(screenHeight, h);
    var scanLeft := ScanOrigin(screenWidth, w);
    var scanTop := ScanOrigin(screenHeight, h);
    var buffer := new Color[w * h];
    CopyRows(s, screenWidth, screenHeight, buffer, scanLeft, scanTop, w, h);
    frame := buffer[..];
  }
}
