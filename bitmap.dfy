/**
 * The byte image that `DesktopDuplicator::saveFrameToBMP` writes
 * (src/graphics/desktop_duplicator.cpp:373-473): a 14-byte BITMAPFILEHEADER, a
 * 40-byte BITMAPINFOHEADER declaring a negative (top-down) height, then 24-bit
 * BGR rows padded to a multiple of 4 bytes. Creating the directory and the file
 * is not modelled; the method returns the bytes the file receives.
 */
module Bitmap {
  import opened Pixels
  import opened Wrappers
  import opened Arithmetic

  const FileHeaderSize: nat := 0x0E
  const DibHeaderSize: nat := 0x28
  const ColorPaletteSize: nat := 0x00
  const PixelDataOffset: nat := FileHeaderSize + DibHeaderSize + ColorPaletteSize

  predicate IsInt32(v: int)
  {
    -0x8000_0000 <= v < 0x8000_0000
  }

  /** `n` rounded up to the next multiple of 4. */
  function RoundUp4(n: nat): (r: nat)
    decreases n
  {
    if n == 0 then 0 else if n <= 4 then 4 else 4 + RoundUp4(n - 4)
  }

  lemma {:induction false} RoundUp4Bounds(n: nat)
    ensures RoundUp4(n) % 4 == 0
    ensures n <= RoundUp4(n) <= n + 3
    ensures RoundUp4(n) == (n + 3) / 4 * 4
    decreases n
  {
    if n == 0 {
    } else if n <= 4 {
      assert (n + 3) / 4 == 1;
    } else {
      RoundUp4Bounds(n - 4);
      assert (n + 3) / 4 == (n - 1) / 4 + 1;
    }
  }

  /**
   * Bytes per stored row, `((width * 3) + 3) & ~3`: three bytes per pixel, rounded
   * up to a multiple of 4 (for the non-negative operand, `& ~3` clears the two low bits).
   */
  function RowSize(width: nat): nat
  {
    RoundUp4(3 * width)
  }

  lemma RowSizeBounds(width: nat)
    ensures RowSize(width) % 4 == 0
    ensures 3 * width <= RowSize(width) <= 3 * width + 3
    ensures RowSize(width) == (width * 3 + 3) / 4 * 4
  {
    RoundUp4Bounds(3 * width);
  }

  /** Where stored row `y` starts in the pixel array; `RowOffset(width, height)` is the array's size. */
  function RowOffset(width: nat, y: nat): nat
  {
    y * RowSize(width)
  }

  function FileSize(width: nat, height: nat): nat
  {
    PixelDataOffset + RowOffset(width, height)
  }

  /** Sizes whose header fields and row arithmetic fit the 32-bit `int`s the writer computes them in. */
  predicate BmpFits(width: int, height: int)
  {
    0 <= width && 0 <= height
    && IsInt32(height) && width * 3 + 3 < 0x8000_0000 && FileSize(width, height) < 0x8000_0000
  }

  /** What the writer needs: sizes that fit, and a frame of width*height pixels. */
  predicate Encodable(frame: seq<Color>, width: int, height: int)
  {
    BmpFits(width, height) && |frame| == width * height
  }

  /** The low `n` bytes of `v`, least significant first: byte k is `(v >> 8k) & 0xFF` (arithmetic shift). */
  function LittleEndian(v: int, n: nat): (bytes: seq<Byte>)
    ensures |bytes| == n
    decreases n
  {
    if n == 0 then [] else [v % 0x100] + LittleEndian(v / 0x100, n - 1)
  }

  /** The four bytes a 32-bit field is stored as (lines 399-402 and their like). */
  function LittleEndian32(v: int): (bytes: seq<Byte>)
    ensures |bytes| == 4
  {
    LittleEndian(v, 4)
  }

  /** The four stored bytes are `(v >> 8k) & 0xFF`, k = 0 .. 3, for negative `v` too. */
  lemma LittleEndian32Bytes(v: int)
    ensures LittleEndian32(v) == [v % 0x100, v / 0x100 % 0x100, v / 0x100 / 0x100 % 0x100, v / 0x100 / 0x100 / 0x100 % 0x100]
  {
    var q1 := v / 0x100;
    var q2 := q1 / 0x100;
    var q3 := q2 / 0x100;
    assert LittleEndian(q3, 1) == [q3 % 0x100];
    assert LittleEndian(q2, 2) == [q2 % 0x100, q3 % 0x100];
    assert LittleEndian(q1, 3) == [q1 % 0x100, q2 % 0x100, q3 % 0x100];
  }

  /** The 32-bit two's-complement integer whose little-endian bytes are `b`. */
  function Int32Of(b: seq<Byte>): int
    requires |b| == 4
  {
    var b0, b1, b2, b3: int := b[0], b[1], b[2], b[3];
    var u := b0 + 0x100 * b1 + 0x1_0000 * b2 + 0x100_0000 * b3;
    if u < 0x8000_0000 then u else u - 0x1_0000_0000
  }

  /** Reads the 32-bit little-endian field stored at `at`. */
  function ReadInt32(bytes: seq<Byte>, at: nat): int
    requires at + 4 <= |bytes|
  {
    Int32Of(bytes[at..at + 4])
  }

  /** Every 32-bit `int`, negative ones included, reads back from its four stored bytes. */
  lemma ReadLittleEndian32(v: int)
    requires IsInt32(v)
    ensures Int32Of(LittleEndian32(v)) == v
  {
    LittleEndian32Bytes(v);
    var q1 := v / 0x100;
    var q2 := q1 / 0x100;
    var q3 := q2 / 0x100;
    var q4 := q3 / 0x100;
    assert v == 0x100 * q1 + v % 0x100;
    assert q1 == 0x100 * q2 + q1 % 0x100;
    assert q2 == 0x100 * q3 + q2 % 0x100;
    assert q3 == 0x100 * q4 + q3 % 0x100;
    assert v == 0x1_0000_0000 * q4 + v % 0x100 + 0x100 * (q1 % 0x100) + 0x1_0000 * (q2 % 0x100) + 0x100_0000 * (q3 % 0x100);
    assert q4 == 0 || q4 == -1;
  }

  function FileHeader(fileSize: int): (header: seq<Byte>)
    ensures |header| == FileHeaderSize
  {
    [0x42, 0x4D] + LittleEndian32(fileSize) + [0, 0, 0, 0] + LittleEndian32(PixelDataOffset)
  }

  function InfoHeader(width: int, height: int): (header: seq<Byte>)
    ensures |header| == DibHeaderSize
  {
    LittleEndian32(DibHeaderSize) + LittleEndian32(width) + LittleEndian32(-height)
    + [0x01, 0x00, 0x18, 0x00] + seq(24, _ => 0)
  }

  /** Byte k (0, 1, 2) of a stored pixel: blue, green, red. */
  function StoredChannel(c: Color, k: nat): Byte
  {
    if k == 0 then c.b else if k == 1 then c.g else c.r
  }

  /** Stored row `y`: the BGR bytes of its `width` pixels, then zero padding up to `RowSize(width)`. */
  function PixelRow(frame: seq<Color>, width: nat, height: nat, y: nat): (row: seq<Byte>)
    requires |frame| == width * height && y < height
    ensures |row| == RowSize(width)
  {
    seq(RowSize(width), i requires 0 <= i < RowSize(width) =>
      if i < 3 * width then
        FlatIndexInside(y, i / 3, width, height);
        StoredChannel(frame[y * width + i / 3], i % 3)
      else 0)
  }

  /** The first `rows` stored rows, top row first. */
  function PixelData(frame: seq<Color>, width: nat, height: nat, rows: nat): seq<Byte>
    requires |frame| == width * height && rows <= height
  {
    if rows == 0 then []
    else PixelData(frame, width, height, rows - 1) + PixelRow(frame, width, height, rows - 1)
  }

  /** The whole file as `saveFrameToBMP` writes it. */
  function BmpFile(frame: seq<Color>, width: nat, height: nat): seq<Byte>
    requires |frame| == width * height
  {
    FileHeader(FileSize(width, height)) + InfoHeader(width, height) + PixelData(frame, width, height, height)
  }

  lemma {:induction false} PixelDataLength(frame: seq<Color>, width: nat, height: nat, rows: nat)
    requires |frame| == width * height && rows <= height
    ensures |PixelData(frame, width, height, rows)| == RowOffset(width, rows)
  {
    if rows > 0 {
      PixelDataLength(frame, width, height, rows - 1);
      assert RowOffset(width, rows - 1) + RowSize(width) == RowOffset(width, rows);
    }
  }

  lemma {:induction false} PixelDataAt(frame: seq<Color>, width: nat, height: nat, rows: nat, y: nat, i: nat)
    requires |frame| == width * height && rows <= height
    requires y < rows && i < RowSize(width)
    ensures |PixelData(frame, width, height, rows)| == RowOffset(width, rows)
    ensures RowOffset(width, y) + i < RowOffset(width, rows)
    ensures PixelData(frame, width, height, rows)[RowOffset(width, y) + i] == PixelRow(frame, width, height, y)[i]
  {
    var rs := RowSize(width);
    PixelDataLength(frame, width, height, rows);
    PixelDataLength(frame, width, height, rows - 1);
    FlatIndexInside(y, i, rs, rows);
    if y < rows - 1 {
      PixelDataAt(frame, width, height, rows - 1, y, i);
    } else {
      var prev := PixelData(frame, width, height, rows - 1);
      assert RowOffset(width, y) + i == |prev| + i;
    }
  }

  /** Pixel x of row y is stored as blue, green, red at row offset 3x. */
  lemma PixelRowAt(frame: seq<Color>, width: nat, height: nat, y: nat, x: nat)
    requires |frame| == width * height && y < height && x < width
    ensures y * width + x < |frame| && 3 * x + 2 < RowSize(width)
    ensures var row := PixelRow(frame, width, height, y); var c := frame[y * width + x];
      row[3 * x] == c.b && row[3 * x + 1] == c.g && row[3 * x + 2] == c.r
  {
    RowSizeBounds(width);
    FlatIndexInside(y, x, width, height);
    assert (3 * x) / 3 == x && (3 * x) % 3 == 0;
    assert (3 * x + 1) / 3 == x && (3 * x + 1) % 3 == 1;
    assert (3 * x + 2) / 3 == x && (3 * x + 2) % 3 == 2;
  }

  /** The bytes after the 3*width pixel bytes of a stored row are zero. */
  lemma PixelRowPadding(frame: seq<Color>, width: nat, height: nat, y: nat)
    requires |frame| == width * height && y < height
    ensures 3 * width <= RowSize(width)
    ensures PixelRow(frame, width, height, y)[3 * width..] == seq(RowSize(width) - 3 * width, _ => 0)
  {
    RowSizeBounds(width);
  }

  lemma BmpFileLength(frame: seq<Color>, width: nat, height: nat)
    requires |frame| == width * height
    ensures |BmpFile(frame, width, height)| == FileSize(width, height)
  {
    PixelDataLength(frame, width, height, height);
  }

  /** The written file is the 54 header bytes followed by the pixel array. */
  lemma BmpFileParts(frame: seq<Color>, width: nat, height: nat)
    requires |frame| == width * height
    ensures |BmpFile(frame, width, height)| == FileSize(width, height) >= PixelDataOffset
    ensures BmpFile(frame, width, height)[..PixelDataOffset] == FileHeader(FileSize(width, height)) + InfoHeader(width, height)
    ensures BmpFile(frame, width, height)[PixelDataOffset..] == PixelData(frame, width, height, height)
  {
    BmpFileLength(frame, width, height);
  }

  lemma SliceOfPrefix(a: seq<Byte>, b: seq<Byte>, i: nat, j: nat)
    requires i <= j <= |a|
    ensures (a + b)[i..j] == a[i..j]
  {
  }

  lemma SliceOfSuffix(a: seq<Byte>, b: seq<Byte>, i: nat, j: nat)
    requires i <= j <= |b|
    ensures (a + b)[|a| + i..|a| + j] == b[i..j]
  {
  }

  /** The file header holds the signature, the file size at 2, zero at 6 and the data offset at 10. */
  lemma FileHeaderFields(fileSize: int)
    requires IsInt32(fileSize)
    ensures var fh := FileHeader(fileSize);
      fh[0] == 'B' as int && fh[1] == 'M' as int
      && ReadInt32(fh, 2) == fileSize && ReadInt32(fh, 6) == 0 && ReadInt32(fh, 10) == PixelDataOffset
  {
    var fh := FileHeader(fileSize);
    LittleEndian32Bytes(0);
    assert fh[2..6] == LittleEndian32(fileSize);
    assert fh[6..10] == [0, 0, 0, 0] == LittleEndian32(0);
    var front: seq<Byte> := [0x42, 0x4D] + LittleEndian32(fileSize) + [0, 0, 0, 0];
    SliceOfSuffix(front, LittleEndian32(PixelDataOffset), 0, 4);
    assert fh[10..14] == LittleEndian32(PixelDataOffset);
    ReadLittleEndian32(fileSize);
    ReadLittleEndian32(0);
    ReadLittleEndian32(PixelDataOffset);
  }

  /** The info header holds its own size, the width, the negated height, 1 plane, 24 bits, no compression. */
  lemma InfoHeaderFields(width: int, height: int)
    requires IsInt32(width) && IsInt32(-height)
    ensures var ih := InfoHeader(width, height);
      ReadInt32(ih, 0) == DibHeaderSize && ReadInt32(ih, 4) == width && ReadInt32(ih, 8) == -height
      && ih[12] == 1 && ih[13] == 0 && ih[14] == 24 && ih[15] == 0 && ReadInt32(ih, 16) == 0
  {
    var ih := InfoHeader(width, height);
    LittleEndian32Bytes(0);
    assert ih[0..4] == LittleEndian32(DibHeaderSize);
    assert ih[4..8] == LittleEndian32(width);
    assert ih[8..12] == LittleEndian32(-height);
    assert ih[16..20] == LittleEndian32(0);
    ReadLittleEndian32(DibHeaderSize);
    ReadLittleEndian32(width);
    ReadLittleEndian32(-height);
    ReadLittleEndian32(0);
  }

  lemma ReadInPrefix(prefix: seq<Byte>, rest: seq<Byte>, at: nat)
    requires at + 4 <= |prefix|
    ensures ReadInt32(prefix + rest, at) == ReadInt32(prefix, at)
  {
    SliceOfPrefix(prefix, rest, at, at + 4);
  }

  lemma ReadInSuffix(prefix: seq<Byte>, rest: seq<Byte>, at: nat)
    requires at + 4 <= |rest|
    ensures ReadInt32(prefix + rest, |prefix| + at) == ReadInt32(rest, at)
  {
    SliceOfSuffix(prefix, rest, at, at + 4);
  }

  lemma ReadInTruncated(bytes: seq<Byte>, n: nat, at: nat)
    requires at + 4 <= n <= |bytes|
    ensures ReadInt32(bytes[..n], at) == ReadInt32(bytes, at)
  {
    assert bytes[..n][at..at + 4] == bytes[at..at + 4];
  }

  /**
   * Any byte string that starts with the two headers carries their fields at the
   * BMP offsets: the "BM" signature, the file size at 2, zero at 6, the data offset
   * at 10, header size 40 at 14, the width at 18, the negated height at 22, one
   * plane and 24 bits per pixel at 26-29, no compression at 30.
   */
  lemma HeaderFields(bytes: seq<Byte>, fileSize: int, width: int, height: int)
    requires IsInt32(fileSize) && IsInt32(width) && IsInt32(-height)
    requires PixelDataOffset <= |bytes| && bytes[..PixelDataOffset] == FileHeader(fileSize) + InfoHeader(width, height)
    ensures bytes[0] == 'B' as int && bytes[1] == 'M' as int
    ensures ReadInt32(bytes, 2) == fileSize && ReadInt32(bytes, 6) == 0 && ReadInt32(bytes, 10) == PixelDataOffset
    ensures ReadInt32(bytes, 14) == DibHeaderSize && ReadInt32(bytes, 18) == width && ReadInt32(bytes, 22) == -height
    ensures bytes[26] == 1 && bytes[27] == 0 && bytes[28] == 24 && bytes[29] == 0
    ensures ReadInt32(bytes, 30) == 0
  {
    var fh := FileHeader(fileSize);
    var ih := InfoHeader(width, height);
    var hd := fh + ih;
    FileHeaderFields(fileSize);
    InfoHeaderFields(width, height);
    ReadInPrefix(fh, ih, 2);
    ReadInPrefix(fh, ih, 6);
    ReadInPrefix(fh, ih, 10);
    ReadInSuffix(fh, ih, 0);
    ReadInSuffix(fh, ih, 4);
    ReadInSuffix(fh, ih, 8);
    ReadInSuffix(fh, ih, 16);
    assert bytes[0] == hd[0] && bytes[1] == hd[1];
    assert bytes[26] == hd[26] && bytes[27] == hd[27] && bytes[28] == hd[28] && bytes[29] == hd[29];
    ReadInTruncated(bytes, PixelDataOffset, 2);
    ReadInTruncated(bytes, PixelDataOffset, 6);
    ReadInTruncated(bytes, PixelDataOffset, 10);
    ReadInTruncated(bytes, PixelDataOffset, 14);
    ReadInTruncated(bytes, PixelDataOffset, 18);
    ReadInTruncated(bytes, PixelDataOffset, 22);
    ReadInTruncated(bytes, PixelDataOffset, 30);
  }

  /** The header fields of the file `saveFrameToBMP` writes. */
  lemma BmpHeaderFields(frame: seq<Color>, width: nat, height: nat)
    requires Encodable(frame, width, height)
    ensures |BmpFile(frame, width, height)| == FileSize(width, height) >= PixelDataOffset
    ensures var file := BmpFile(frame, width, height);
      file[0] == 'B' as int && file[1] == 'M' as int
      && ReadInt32(file, 2) == FileSize(width, height) && ReadInt32(file, 6) == 0
      && ReadInt32(file, 10) == PixelDataOffset && ReadInt32(file, 14) == DibHeaderSize
      && ReadInt32(file, 18) == width && ReadInt32(file, 22) == -(height as int)
      && file[26] == 1 && file[27] == 0 && file[28] == 24 && file[29] == 0
      && ReadInt32(file, 30) == 0
  {
    BmpFileParts(frame, width, height);
    HeaderFields(BmpFile(frame, width, height), FileSize(width, height), width, height);
  }

  /**
   * Any byte string whose pixel array is that of `frame` stores pixel (x, y) as
   * blue, green, red at byte 54 + RowOffset(width, y) + 3x.
   */
  lemma StoredPixelAt(bytes: seq<Byte>, frame: seq<Color>, width: nat, height: nat, x: nat, y: nat)
    requires |frame| == width * height && x < width && y < height
    requires PixelDataOffset <= |bytes| && bytes[PixelDataOffset..] == PixelData(frame, width, height, height)
    ensures y * width + x < |frame|
    ensures PixelDataOffset + RowOffset(width, y) + 3 * x + 2 < |bytes|
    ensures var at := PixelDataOffset + RowOffset(width, y) + 3 * x;
      var c := frame[y * width + x];
      bytes[at] == c.b && bytes[at + 1] == c.g && bytes[at + 2] == c.r
  {
    var pd := PixelData(frame, width, height, height);
    var k := RowOffset(width, y) + 3 * x;
    PixelRowAt(frame, width, height, y, x);
    PixelDataAt(frame, width, height, height, y, 3 * x);
    PixelDataAt(frame, width, height, height, y, 3 * x + 1);
    PixelDataAt(frame, width, height, height, y, 3 * x + 2);
    assert bytes[PixelDataOffset + k] == pd[k];
    assert bytes[PixelDataOffset + k + 1] == pd[k + 1];
    assert bytes[PixelDataOffset + k + 2] == pd[k + 2];
  }

  /** Pixel (x, y) of a row-major frame. */
  function FramePixel(frame: seq<Color>, width: nat, height: nat, x: nat, y: nat): (c: Color)
    requires |frame| == width * height && x < width && y < height
    ensures y * width + x < |frame|
  {
    FlatIndexInside(y, x, width, height);
    frame[y * width + x]
  }

  /** Bytes `at`, `at + 1` and `at + 2` of `file` exist and are the blue, green and red of `c`. */
  predicate HoldsPixel(file: seq<Byte>, at: int, c: Color)
  {
    0 <= at && at + 2 < |file| && file[at] == c.b && file[at + 1] == c.g && file[at + 2] == c.r
  }

  /** Pixel (x, y) of the written file is blue, green, red at byte 54 + y * RowSize + 3x. */
  lemma BmpPixelAt(frame: seq<Color>, width: nat, height: nat, x: nat, y: nat)
    requires |frame| == width * height
    requires x < width && y < height
    ensures HoldsPixel(BmpFile(frame, width, height), PixelDataOffset + RowOffset(width, y) + 3 * x, FramePixel(frame, width, height, x, y))
  {
    BmpFileParts(frame, width, height);
    StoredPixelAt(BmpFile(frame, width, height), frame, width, height, x, y);
  }

  /** The padding bytes after the 3 * width pixel bytes of every row of the written file are 0. */
  lemma BmpPaddingZero(frame: seq<Color>, width: nat, height: nat, y: nat, i: nat)
    requires |frame| == width * height
    requires y < height && 3 * width <= i < RowSize(width)
    ensures PixelDataOffset + RowOffset(width, y) + i < |BmpFile(frame, width, height)|
    ensures BmpFile(frame, width, height)[PixelDataOffset + RowOffset(width, y) + i] == 0
  {
    var pd := PixelData(frame, width, height, height);
    var k := RowOffset(width, y) + i;
    BmpFileParts(frame, width, height);
    PixelDataAt(frame, width, height, height, y, i);
    assert PixelRow(frame, width, height, y)[i] == 0;
    assert BmpFile(frame, width, height)[PixelDataOffset + k] == pd[k];
  }

  /** A decoded image: width, height and the pixels in row-major order. */
  datatype Image = Image(width: nat, height: nat, pixels: seq<Color>)

  /** Row `y` of a top-down 24-bit pixel array that starts at `offset`. */
  function DecodeRow(bytes: seq<Byte>, offset: nat, width: nat, y: nat): seq<Color>
    requires offset + RowOffset(width, y + 1) <= |bytes|
  {
    RowSizeBounds(width);
    MulSucc(y, RowSize(width));
    seq(width, x requires 0 <= x < width =>
      var at := offset + RowOffset(width, y) + 3 * x;
      Color(bytes[at + 2], bytes[at + 1], bytes[at]))
  }

  function DecodeRows(bytes: seq<Byte>, offset: nat, width: nat, rows: nat): seq<Color>
    requires offset + RowOffset(width, rows) <= |bytes|
  {
    if rows == 0 then []
    else
      MulMonotone(rows - 1, rows, RowSize(width));
      DecodeRows(bytes, offset, width, rows - 1) + DecodeRow(bytes, offset, width, rows - 1)
  }

  /** Reads a top-down 24-bit uncompressed bitmap, rejecting anything else. */
  function DecodeBmp(bytes: seq<Byte>): Option<Image>
  {
    if |bytes| < PixelDataOffset || bytes[0] != 'B' as int || bytes[1] != 'M' as int then None
    else
      var offset := ReadInt32(bytes, 10);
      var width := ReadInt32(bytes, 18);
      var height := -ReadInt32(bytes, 22);
      if ReadInt32(bytes, 14) != DibHeaderSize || bytes[28] != 24 || bytes[29] != 0 || ReadInt32(bytes, 30) != 0
         || offset < PixelDataOffset || width < 0 || height < 0
         || offset + RowOffset(width, height) > |bytes|
      then None
      else Some(Image(width, height, DecodeRows(bytes, offset, width, height)))
  }

  lemma RowsInside(width: nat, height: nat, rows: nat)
    requires rows <= height
    ensures RowOffset(width, rows) <= RowOffset(width, height)
    ensures rows * width <= height * width
  {
    MulMonotone(rows, height, RowSize(width));
    MulMonotone(rows, height, width);
  }

  lemma PrefixStep(frame: seq<Color>, lo: nat, n: nat)
    requires lo + n <= |frame|
    ensures frame[..lo + n] == frame[..lo] + frame[lo..lo + n]
  {
  }

  lemma DecodeStoredPixel(bytes: seq<Byte>, frame: seq<Color>, width: nat, height: nat, x: nat, y: nat)
    requires |frame| == width * height && x < width && y < height
    requires PixelDataOffset <= |bytes| && bytes[PixelDataOffset..] == PixelData(frame, width, height, height)
    requires PixelDataOffset + RowOffset(width, y + 1) <= |bytes|
    ensures y * width + x < |frame|
    ensures DecodeRow(bytes, PixelDataOffset, width, y)[x] == frame[y * width + x]
  {
    StoredPixelAt(bytes, frame, width, height, x, y);
  }

  /** Row y of a pixel array laid out as `saveFrameToBMP` lays out `frame` decodes to row y of `frame`. */
  lemma DecodeStoredRow(bytes: seq<Byte>, frame: seq<Color>, width: nat, height: nat, y: nat)
    requires |frame| == width * height && y < height
    requires PixelDataOffset <= |bytes| && bytes[PixelDataOffset..] == PixelData(frame, width, height, height)
    ensures PixelDataOffset + RowOffset(width, y + 1) <= |bytes|
    ensures y * width + width <= |frame|
    ensures DecodeRow(bytes, PixelDataOffset, width, y) == frame[y * width..y * width + width]
  {
    PixelDataLength(frame, width, height, height);
    RowsInside(width, height, y + 1);
    MulSucc(y, width);
    var lo: nat := y * width;
    var row := DecodeRow(bytes, PixelDataOffset, width, y);
    forall x | 0 <= x < width
      ensures row[x] == frame[lo..lo + width][x]
    {
      DecodeStoredPixel(bytes, frame, width, height, x, y);
    }
  }

  lemma {:induction false} DecodeStoredRows(bytes: seq<Byte>, frame: seq<Color>, width: nat, height: nat, rows: nat)
    requires |frame| == width * height && rows <= height
    requires PixelDataOffset <= |bytes| && bytes[PixelDataOffset..] == PixelData(frame, width, height, height)
    ensures PixelDataOffset + RowOffset(width, rows) <= |bytes|
    ensures rows * width <= |frame|
    ensures DecodeRows(bytes, PixelDataOffset, width, rows) == frame[..rows * width]
  {
    PixelDataLength(frame, width, height, height);
    RowsInside(width, height, rows);
    if rows > 0 {
      var y := rows - 1;
      DecodeStoredRows(bytes, frame, width, height, y);
      DecodeStoredRow(bytes, frame, width, height, y);
      var lo := y * width;
      MulSucc(y, width);
      PrefixStep(frame, lo, width);
    }
  }

  /** Any byte string laid out as `saveFrameToBMP` lays out `frame` decodes to `frame`. */
  lemma DecodeWritten(bytes: seq<Byte>, frame: seq<Color>, width: nat, height: nat)
    requires Encodable(frame, width, height)
    requires |bytes| == FileSize(width, height) >= PixelDataOffset
    requires bytes[..PixelDataOffset] == FileHeader(FileSize(width, height)) + InfoHeader(width, height)
    requires bytes[PixelDataOffset..] == PixelData(frame, width, height, height)
    ensures DecodeBmp(bytes) == Some(Image(width, height, frame))
  {
    HeaderFields(bytes, FileSize(width, height), width, height);
    DecodeStoredRows(bytes, frame, width, height, height);
    assert frame[..height * width] == frame;
  }

  /** Decoding what `saveFrameToBMP` writes gives back the frame exactly. */
  lemma BmpRoundTrip(frame: seq<Color>, width: nat, height: nat)
    requires Encodable(frame, width, height)
    ensures DecodeBmp(BmpFile(frame, width, height)) == Some(Image(width, height, frame))
  {
    BmpFileParts(frame, width, height);
    DecodeWritten(BmpFile(frame, width, height), frame, width, height);
  }

  /** Stores `v` at `at` .. `at + 3` as the source does: byte k is `(v >> 8k) & 0xFF`. */
  method StoreInt32(buf: array<Byte>, at: nat, v: int)
    requires at + 4 <= buf.Length
    modifies buf
    ensures forall k | 0 <= k < 4 :: buf[at + k] == LittleEndian32(v)[k]
    ensures forall i | 0 <= i < buf.Length && (i < at || at + 4 <= i) :: buf[i] == old(buf[i])
  {
    LittleEndian32Bytes(v);
    buf[at] := v % 0x100;
    buf[at + 1] := v / 0x100 % 0x100;
    buf[at + 2] := v / 0x100 / 0x100 % 0x100;
    buf[at + 3] := v / 0x100 / 0x100 / 0x100 % 0x100;
  }

  /** Byte i of the file header, field by field. */
  function FileHeaderByte(fileSize: int, pixelDataOffset: int, i: nat): Byte
    requires i < FileHeaderSize
  {
    if i == 0 then 0x42
    else if i == 1 then 0x4D
    else if i < 6 then LittleEndian32(fileSize)[i - 2]
    else if i < 10 then 0
    else LittleEndian32(pixelDataOffset)[i - 10]
  }

  /** 14 bytes that hold the file header's fields byte by byte are that header. */
  lemma FileHeaderFromBytes(header: seq<Byte>, fileSize: int, pixelDataOffset: int)
    requires |header| == FileHeaderSize
    requires forall i | 0 <= i < FileHeaderSize :: header[i] == FileHeaderByte(fileSize, pixelDataOffset, i)
    ensures header == [0x42, 0x4D] + LittleEndian32(fileSize) + [0, 0, 0, 0] + LittleEndian32(pixelDataOffset)
  {
    var expected := [0x42, 0x4D] + LittleEndian32(fileSize) + [0, 0, 0, 0] + LittleEndian32(pixelDataOffset);
    forall i | 0 <= i < FileHeaderSize
      ensures header[i] == expected[i]
    {
    }
  }

  method StoreFileHeader(fileHeader: array<Byte>, fileSize: int, pixelDataOffset: int)
    requires fileHeader.Length == FileHeaderSize
    requires forall i | 0 <= i < FileHeaderSize :: fileHeader[i] == 0
    modifies fileHeader
    ensures forall i | 0 <= i < FileHeaderSize :: fileHeader[i] == FileHeaderByte(fileSize, pixelDataOffset, i)
  {
    fileHeader[0], fileHeader[1] := 'B' as int, 'M' as int;
    StoreInt32(fileHeader, 2, fileSize);
    StoreInt32(fileHeader, 10, pixelDataOffset);
  }

  /**
   * Lines 391-408: the file header array, zero-initialised, then each 32-bit field
   * stored one byte at a time, `(v >> 8k) & 0xFF` into byte k.
   */
  method FillFileHeader(fileSize: int, pixelDataOffset: int) returns (header: seq<Byte>)
    ensures header == [0x42, 0x4D] + LittleEndian32(fileSize) + [0, 0, 0, 0] + LittleEndian32(pixelDataOffset)
  {
    var fileHeader := new Byte[FileHeaderSize](_ => 0);
    StoreFileHeader(fileHeader, fileSize, pixelDataOffset);
    header := fileHeader[..];
    FileHeaderFromBytes(header, fileSize, pixelDataOffset);
  }

  /** Byte i of the info header, field by field. */
  function InfoHeaderByte(width: int, height: int, i: nat): Byte
    requires i < DibHeaderSize
  {
    if i < 4 then LittleEndian32(DibHeaderSize)[i]
    else if i < 8 then LittleEndian32(width)[i - 4]
    else if i < 12 then LittleEndian32(-height)[i - 8]
    else if i == 12 then 0x01
    else if i == 14 then 0x18
    else 0
  }

  /** 40 bytes that hold the info header's fields byte by byte are that header. */
  lemma InfoHeaderFromBytes(header: seq<Byte>, width: int, height: int)
    requires |header| == DibHeaderSize
    requires forall i | 0 <= i < DibHeaderSize :: header[i] == InfoHeaderByte(width, height, i)
    ensures header == InfoHeader(width, height)
  {
    forall i | 0 <= i < DibHeaderSize
      ensures header[i] == InfoHeader(width, height)[i]
    {
    }
  }

  method StoreInfoHeader(dibHeader: array<Byte>, width: int, height: int)
    requires dibHeader.Length == DibHeaderSize
    requires forall i | 0 <= i < DibHeaderSize :: dibHeader[i] == 0
    modifies dibHeader
    ensures forall i | 0 <= i < DibHeaderSize :: dibHeader[i] == InfoHeaderByte(width, height, i)
  {
    StoreInt32(dibHeader, 0, DibHeaderSize);
    StoreInt32(dibHeader, 4, width);
    StoreInt32(dibHeader, 8, -height);
    dibHeader[12] := 0x01;
    dibHeader[14] := 0x18;
  }

  /**
   * Lines 411-448: the info header array, zero-initialised, then the header size, the
   * width and the negated height stored byte by byte, then the planes and the bit count.
   */
  method FillInfoHeader(width: int, height: int) returns (header: seq<Byte>)
    ensures header == InfoHeader(width, height)
  {
    var dibHeader := new Byte[DibHeaderSize](_ => 0);
    StoreInfoHeader(dibHeader, width, height);
    header := dibHeader[..];
    InfoHeaderFromBytes(header, width, height);
  }

  /**
   * Lines 460-469: overwrite the first 3*width bytes of the reused row buffer with
   * row `y`'s BGR bytes; the padding bytes, zero since allocation, are never written.
   */
  method FillRow(frame: seq<Color>, width: nat, height: nat, y: nat, rowBuffer: array<Byte>)
    requires |frame| == width * height && y < height
    requires rowBuffer.Length == RowSize(width)
    requires forall i | 3 * width <= i < rowBuffer.Length :: rowBuffer[i] == 0
    modifies rowBuffer
    ensures rowBuffer[..] == PixelRow(frame, width, height, y)
  {
    ghost var row := PixelRow(frame, width, height, y);
    RowSizeBounds(width);
    var rowPos := 0;
    var x := 0;
    while x < width
      invariant 0 <= x <= width && rowPos == 3 * x
      invariant forall i | 3 * width <= i < rowBuffer.Length :: rowBuffer[i] == 0
      invariant forall i | 0 <= i < rowPos :: rowBuffer[i] == row[i]
    {
      PixelRowAt(frame, width, height, y, x);
      var pixel := frame[y * width + x];
      rowBuffer[rowPos] := pixel.b;
      rowBuffer[rowPos + 1] := pixel.g;
      rowBuffer[rowPos + 2] := pixel.r;
      rowPos := rowPos + 3;
      x := x + 1;
    }
    PixelRowPadding(frame, width, height, y);
    forall i | 3 * width <= i < |row|
      ensures row[i] == 0
    {
      assert row[i] == row[3 * width..][i - 3 * width];
    }
    assert rowBuffer[..] == row;
  }

  /**
   * Lines 458-473: one zero-initialised row buffer of `RowSize(width)` bytes, refilled
   * for each row and appended to what was written so far.
   */
  method WritePixelRows(frame: seq<Color>, width: nat, height: nat, written: seq<Byte>) returns (file: seq<Byte>)
    requires Encodable(frame, width, height)
    ensures file == written + PixelData(frame, width, height, height)
  {
    RowSizeBounds(width);
    var rowSize := (width * 3 + 3) / 4 * 4;
    file := written;
    var rowBuffer := new Byte[rowSize](_ => 0);
    var y := 0;
    while y < height
      invariant 0 <= y <= height
      invariant rowBuffer.Length == RowSize(width)
      invariant forall i | 3 * width <= i < rowBuffer.Length :: rowBuffer[i] == 0
      invariant file == written + PixelData(frame, width, height, y)
    {
      FillRow(frame, width, height, y, rowBuffer);
      assert written + PixelData(frame, width, height, y + 1) == written + PixelData(frame, width, height, y) + rowBuffer[..];
      file := file + rowBuffer[..];
      y := y + 1;
    }
  }

  /**
   * `saveFrameToBMP` after the file is open (lines 373-473): the two headers, then
   * the padded pixel rows.
   */
  method EncodeBmp(frame: seq<Color>, width: int, height: int) returns (file: seq<Byte>)
    requires Encodable(frame, width, height)
    ensures file == BmpFile(frame, width, height)
  {
    RowSizeBounds(width);
    var rowSize := (width * 3 + 3) / 4 * 4;
    var dataSize := rowSize * height;
    var fileSize := FileHeaderSize + DibHeaderSize + ColorPaletteSize + dataSize;
    var pixelDataOffset := FileHeaderSize + DibHeaderSize + ColorPaletteSize;
    assert rowSize == RowSize(width);
    assert dataSize == RowOffset(width, height);
    assert fileSize == FileSize(width, height);
    var fileHeader := FillFileHeader(fileSize, pixelDataOffset);
    assert fileHeader == FileHeader(FileSize(width, height));
    var dibHeader := FillInfoHeader(width, height);
    file := WritePixelRows(frame, width, height, fileHeader + dibHeader);
  }
}
