/**
 * A loaded font face (src/crispy/text/Font.cpp): strike selection for bitmap
 * (colour) fonts, glyph loading with the U+FFFD retry, the conversion of
 * FreeType's bitmaps into the renderer's bottom-up bitmaps, and the
 * area-average downscaler used for oversized colour glyphs.
 *
 * FreeType is an oracle here: a `Face` value says, once and for all, what
 * `FT_Get_Char_Index`, `FT_Load_Glyph`, `FT_Render_Glyph` and
 * `FT_Bitmap_Convert` produce for this face.
 */
module Fonts {
  import opened Wrappers

  /** An unsigned 8-bit value (`uint8_t`, `unsigned char`). */
  type byte = b: int | 0 <= b < 256

  /** A `char32_t` value. */
  type char32 = c: int | 0 <= c < 0x1_0000_0000

  /** U+FFFD REPLACEMENT CHARACTER, drawn in place of glyphs a font cannot provide. */
  const MissingGlyphId: char32 := 0xFFFD

  /** `std::numeric_limits<int>::max()`, the initial "best distance" of strike selection. */
  const IntMax: int := 0x7FFF_FFFF

  // ---------------------------------------------------------------------------
  // What FreeType reports about a face
  // ---------------------------------------------------------------------------

  /** `FT_Bitmap::pixel_mode`. */
  datatype PixelMode = MonoPixels | GrayPixels | LcdPixels | BgraPixels | OtherPixels(code: nat)

  /** An `FT_Bitmap`: `rows` rows of `pitch` bytes each, top row first. */
  datatype FtBitmap = FtBitmap(pixelMode: PixelMode, rows: nat, width: nat, pitch: int, buffer: seq<byte>)

  /**
   * The glyph slot after a successful `FT_Load_Glyph`: the bitmap's left and
   * top bearing, the bitmap once it is ready to copy (`None` when
   * `FT_Render_Glyph` fails; colour faces are not rendered and always carry
   * their bitmap) and, for a monochrome bitmap, the 8-bit copy
   * `FT_Bitmap_Convert` makes of it (`None` when the conversion fails).
   */
  datatype GlyphSlot = GlyphSlot(left: int, top: int, bitmap: Option<FtBitmap>, monoAsGray: Option<FtBitmap>)

  /**
   * An `FT_Face`: the font's maximum advance (computed by `computeMaxAdvance`),
   * its character map, the widths of its fixed-size strikes, whether it is a
   * colour font, and the slot `FT_Load_Glyph` yields for each glyph index it
   * can load (an index that is not a key fails to load).
   */
  datatype Face = Face(
    maxAdvance: int,
    charMap: map<char32, nat>,
    fixedWidths: seq<int>,
    hasColor: bool,
    glyphs: map<nat, GlyphSlot>)

  /** `FT_Get_Char_Index`: the glyph index of a character, 0 when the face has none. */
  function CharIndex(face: Face, c: char32): nat
  {
    if c in face.charMap then face.charMap[c] else 0
  }

  // ---------------------------------------------------------------------------
  // The renderer's bitmaps
  // ---------------------------------------------------------------------------

  datatype BitmapFormat = Gray | LCD | RGBA

  /** A bitmap in row-major order, `width * height` pixels; bottom row first once converted. */
  datatype Bitmap = Bitmap(format: BitmapFormat, width: nat, height: nat, data: seq<byte>)

  datatype GlyphMetrics = GlyphMetrics(bitmapWidth: int, bitmapHeight: int, bearingX: int, bearingY: int)

  datatype Glyph = Glyph(metrics: GlyphMetrics, bitmap: Bitmap)

  /** Byte `k` of a buffer; the preconditions below keep every read inside the buffer, outside it reads 0. */
  function At(buffer: seq<byte>, k: int): byte
  {
    if 0 <= k < |buffer| then buffer[k] else 0
  }

  /** The byte of pixel (row `i`, column `j`) of a one-byte-per-pixel image `width` pixels wide. */
  function Pixel(data: seq<byte>, width: nat, i: nat, j: nat): byte
  {
    At(data, i * width + j)
  }

  /** Channel `c` of pixel (row `i`, column `j`) of a four-bytes-per-pixel image `width` pixels wide. */
  function Channel(data: seq<byte>, width: nat, i: nat, j: nat, c: nat): byte
  {
    At(data, (i * width + j) * 4 + c)
  }

  function Abs(x: int): nat
  {
    if x < 0 then -x else x
  }

  function Min(a: int, b: int): int
  {
    if a < b then a else b
  }

  // ---------------------------------------------------------------------------
  // Index arithmetic
  // ---------------------------------------------------------------------------

  lemma MulMonotone(a: int, b: int, c: int)
    requires 0 <= a <= b && 0 <= c
    ensures 0 <= a * c <= b * c
  {
  }

  lemma MulNext(a: int, b: int)
    ensures (a + 1) * b == a * b + b
  {
  }

  lemma Interleaved(i: int, j: int, c: int, w: int)
    ensures (i * w + j) * 4 + c == i * (4 * w) + (j * 4 + c)
  {
  }

  /** Pixel (i, j) of a `width` x `height` image lies inside it. */
  lemma RowIndex(i: nat, j: nat, width: nat, height: nat)
    requires i < height && j < width
    ensures 0 <= i * width + j < height * width
  {
    MulMonotone(0, i, width);
    MulNext(i, width);
    MulMonotone(i + 1, height, width);
  }

  /** A buffer of `rows` rows `pitch` bytes apart holds `rowBytes` bytes in every row. */
  predicate RowsFit(buffer: seq<byte>, rows: nat, rowBytes: nat, pitch: int)
  {
    rows > 0 ==> rowBytes <= pitch && (rows - 1) * pitch + rowBytes <= |buffer|
  }

  /**
   * Output row i of a flip copies source row rows-(i+1): it ends inside the
   * output, and (when it is not empty) its source bytes are inside the buffer.
   */
  lemma RowStep(buffer: seq<byte>, rows: nat, rowBytes: nat, pitch: int, i: nat)
    requires RowsFit(buffer, rows, rowBytes, pitch) && i < rows
    ensures (i + 1) * rowBytes == i * rowBytes + rowBytes <= rows * rowBytes
    ensures rowBytes > 0 ==> 0 <= (rows - (i + 1)) * pitch && (rows - (i + 1)) * pitch + rowBytes <= |buffer|
  {
    MulNext(i, rowBytes);
    MulMonotone(i + 1, rows, rowBytes);
    if rowBytes > 0 {
      MulMonotone(rows - (i + 1), rows - 1, pitch);
    }
  }

  // ---------------------------------------------------------------------------
  // Bitmap conversions (the branches of Font::loadGlyphByIndex)
  // ---------------------------------------------------------------------------

  /** A source byte as the gray branches store it: unchanged, or (monochrome) times 255 truncated to eight bits. */
  function Expand(v: byte, mono: bool): byte
  {
    if mono then (v as int * 255) % 256 else v
  }

  /**
   * `data` is the `width` x `height` image whose row i is the first `width`
   * bytes of source row height-1-i, each passed through `Expand`.
   */
  predicate Flipped(data: seq<byte>, buffer: seq<byte>, width: nat, height: nat, pitch: int, mono: bool)
  {
    |data| == width * height &&
    forall i, j :: 0 <= i < height && 0 <= j < width ==>
      Pixel(data, width, i, j) == Expand(At(buffer, (height - 1 - i) * pitch + j), mono)
  }

  /** Source byte order (B, G, R, A) read for output channel c (R, G, B, A). */
  function BgraSource(c: nat): nat
  {
    if c == 0 then 2 else if c == 2 then 0 else c
  }

  /** `data` is the RGBA image whose pixel (i, j) is source pixel (height-1-i, j) with bytes (2, 1, 0, 3). */
  predicate Swizzled(data: seq<byte>, buffer: seq<byte>, width: nat, height: nat, pitch: int)
  {
    |data| == width * height * 4 &&
    forall i, j, c :: 0 <= i < height && 0 <= j < width && 0 <= c < 4 ==>
      Channel(data, width, i, j, c) == At(buffer, (height - 1 - i) * pitch + j * 4 + BgraSource(c))
  }

  /** One output row of the gray branches: `width` source bytes from offset `s`, expanded. */
  ghost function GrayRow(buffer: seq<byte>, s: int, width: nat, mono: bool): seq<byte>
  {
    seq<byte>(width, k => Expand(At(buffer, s + k), mono))
  }

  /** The first n output rows of the gray branches: source rows height-1, height-2, ..., height-n. */
  ghost function GrayRows(buffer: seq<byte>, width: nat, height: nat, pitch: int, mono: bool, n: nat): seq<byte>
  {
    if n == 0 then []
    else GrayRows(buffer, width, height, pitch, mono, n - 1) + GrayRow(buffer, (height - n) * pitch, width, mono)
  }

  /** One output row of the BGRA branch: `width` source pixels from offset `s`, bytes reordered. */
  ghost function BgraRow(buffer: seq<byte>, s: int, width: nat): seq<byte>
  {
    seq<byte>(4 * width, k => At(buffer, s + (k / 4) * 4 + BgraSource(k % 4)))
  }

  /** The first n output rows of the BGRA branch: source rows height-1, height-2, ..., height-n. */
  ghost function BgraRows(buffer: seq<byte>, width: nat, height: nat, pitch: int, n: nat): seq<byte>
  {
    if n == 0 then []
    else BgraRows(buffer, width, height, pitch, n - 1) + BgraRow(buffer, (height - n) * pitch, width)
  }

  lemma {:induction false} GrayRowsLength(buffer: seq<byte>, width: nat, height: nat, pitch: int, mono: bool, n: nat)
    ensures |GrayRows(buffer, width, height, pitch, mono, n)| == n * width
  {
    if n > 0 {
      GrayRowsLength(buffer, width, height, pitch, mono, n - 1);
      MulNext(n - 1, width);
    }
  }

  lemma {:induction false} BgraRowsLength(buffer: seq<byte>, width: nat, height: nat, pitch: int, n: nat)
    ensures |BgraRows(buffer, width, height, pitch, n)| == n * (4 * width)
  {
    if n > 0 {
      BgraRowsLength(buffer, width, height, pitch, n - 1);
      MulNext(n - 1, 4 * width);
    }
  }

  /** Channel c of pixel (i, j) of a `width`-pixel-wide RGBA image lies in row i's 4 * width bytes. */
  lemma FlatIndex4(i: nat, j: nat, c: nat, width: nat, rows: nat)
    requires i < rows && j < width && c < 4
    ensures (i * width + j) * 4 + c == i * (4 * width) + (j * 4 + c)
    ensures 0 <= (i * width + j) * 4 + c < rows * (4 * width)
  {
    MulMonotone(0, i, 4 * width);
    Interleaved(i, j, c, width);
    MulNext(i, 4 * width);
    MulMonotone(i + 1, rows, 4 * width);
  }

  lemma AppendLeft(prev: seq<byte>, row: seq<byte>, t: int)
    requires 0 <= t < |prev|
    ensures (prev + row)[t] == prev[t]
  {
  }

  lemma AppendRight(prev: seq<byte>, row: seq<byte>, k: int)
    requires 0 <= k < |row|
    ensures (prev + row)[|prev| + k] == row[k]
  {
  }

  /** Pixel (i, j) of the first n gray rows is byte j of source row height-1-i. */
  lemma {:induction false} GrayPixel(buffer: seq<byte>, width: nat, height: nat, pitch: int, mono: bool, n: nat, i: nat, j: nat)
    requires i < n && j < width
    ensures Pixel(GrayRows(buffer, width, height, pitch, mono, n), width, i, j) ==
      Expand(At(buffer, (height - 1 - i) * pitch + j), mono)
    decreases n
  {
    GrayRowsLength(buffer, width, height, pitch, mono, n - 1);
    var prev := GrayRows(buffer, width, height, pitch, mono, n - 1);
    var row := GrayRow(buffer, (height - n) * pitch, width, mono);
    if i < n - 1 {
      GrayPixel(buffer, width, height, pitch, mono, n - 1, i, j);
      RowIndex(i, j, width, n - 1);
      AppendLeft(prev, row, i * width + j);
    } else {
      assert i * width + j == |prev| + j;
      assert (height - n) * pitch == (height - 1 - i) * pitch;
      AppendRight(prev, row, j);
    }
  }

  /** Channel c of pixel (i, j) of the first n BGRA rows is byte BgraSource(c) of source pixel (height-1-i, j). */
  lemma {:induction false} BgraPixel(buffer: seq<byte>, width: nat, height: nat, pitch: int, n: nat, i: nat, j: nat, c: nat)
    requires i < n && j < width && c < 4
    ensures Channel(BgraRows(buffer, width, height, pitch, n), width, i, j, c) ==
      At(buffer, (height - 1 - i) * pitch + j * 4 + BgraSource(c))
    decreases n
  {
    BgraRowsLength(buffer, width, height, pitch, n - 1);
    var prev := BgraRows(buffer, width, height, pitch, n - 1);
    var row := BgraRow(buffer, (height - n) * pitch, width);
    var k := j * 4 + c;
    var t := (i * width + j) * 4 + c;
    if i < n - 1 {
      BgraPixel(buffer, width, height, pitch, n - 1, i, j, c);
      FlatIndex4(i, j, c, width, n - 1);
      AppendLeft(prev, row, t);
    } else {
      FlatIndex4(i, j, c, width, n);
      assert t == |prev| + k;
      assert k / 4 == j && k % 4 == c;
      assert (height - n) * pitch == (height - 1 - i) * pitch;
      AppendRight(prev, row, k);
    }
  }

  /** The gray rows of a whole bitmap are its vertically flipped copy. */
  lemma GrayRowsFlipped(buffer: seq<byte>, width: nat, height: nat, pitch: int, mono: bool)
    ensures Flipped(GrayRows(buffer, width, height, pitch, mono, height), buffer, width, height, pitch, mono)
  {
    GrayRowsLength(buffer, width, height, pitch, mono, height);
    forall i, j | 0 <= i < height && 0 <= j < width
      ensures Pixel(GrayRows(buffer, width, height, pitch, mono, height), width, i, j) ==
        Expand(At(buffer, (height - 1 - i) * pitch + j), mono)
    {
      GrayPixel(buffer, width, height, pitch, mono, height, i, j);
    }
  }

  /** The BGRA rows of a whole bitmap are its flipped copy with red and blue exchanged. */
  lemma BgraRowsSwizzled(buffer: seq<byte>, width: nat, height: nat, pitch: int)
    ensures Swizzled(BgraRows(buffer, width, height, pitch, height), buffer, width, height, pitch)
  {
    BgraRowsLength(buffer, width, height, pitch, height);
    forall i, j, c | 0 <= i < height && 0 <= j < width && 0 <= c < 4
      ensures Channel(BgraRows(buffer, width, height, pitch, height), width, i, j, c) ==
        At(buffer, (height - 1 - i) * pitch + j * 4 + BgraSource(c))
    {
      BgraPixel(buffer, width, height, pitch, height, i, j, c);
    }
  }

  lemma AppendAssoc<T>(a: seq<T>, b: seq<T>, c: seq<T>)
    ensures (a + b) + c == a + (b + c)
  {
  }

  lemma GrayRowNext(buffer: seq<byte>, s: int, j: nat, mono: bool)
    ensures GrayRow(buffer, s, j + 1, mono) == GrayRow(buffer, s, j, mono) + [Expand(At(buffer, s + j), mono)]
  {
  }

  /** The inner loop of the gray branches: source bytes s .. s+width-1, expanded, appended to dest[..d]. */
  method CopyRow(dest: array<byte>, d: nat, buffer: seq<byte>, s: int, width: nat, mono: bool)
    requires d + width <= dest.Length
    requires width > 0 ==> 0 <= s && s + width <= |buffer|
    modifies dest
    ensures dest[..d + width] == old(dest[..d]) + GrayRow(buffer, s, width, mono)
  {
    var j := 0;
    while j < width
      invariant 0 <= j <= width
      invariant dest[..d + j] == old(dest[..d]) + GrayRow(buffer, s, j, mono)
    {
      var v := buffer[s + j];
      ghost var done := dest[..d + j];
      dest[d + j] := if mono then (v as int * 255) % 256 else v;
      assert dest[..d + j + 1] == done + [dest[d + j]];
      GrayRowNext(buffer, s, j, mono);
      AppendAssoc(old(dest[..d]), GrayRow(buffer, s, j, mono), [dest[d + j]]);
      j := j + 1;
    }
  }

  lemma BgraRowNext(buffer: seq<byte>, s: int, j: nat)
    ensures BgraRow(buffer, s, j + 1) == BgraRow(buffer, s, j) +
      [At(buffer, s + j * 4 + 2), At(buffer, s + j * 4 + 1), At(buffer, s + j * 4), At(buffer, s + j * 4 + 3)]
  {
  }

  /** Four bytes stored at dest[t .. t+3], after the bytes before them; the bytes after them are kept. */
  method Store4(dest: array<byte>, t: nat, v0: byte, v1: byte, v2: byte, v3: byte)
    requires t + 4 <= dest.Length
    modifies dest
    ensures dest[..t + 4] == old(dest[..t]) + [v0, v1, v2, v3]
    ensures forall k :: t + 4 <= k < dest.Length ==> dest[k] == old(dest[k])
  {
    dest[t] := v0;
    dest[t + 1] := v1;
    dest[t + 2] := v2;
    dest[t + 3] := v3;
  }

  /** The inner loop of the BGRA branch: `width` pixels from source offset s, reordered, appended to dest[..d]. */
  method SwizzleRow(dest: array<byte>, d: nat, buffer: seq<byte>, s: int, width: nat)
    requires d + 4 * width <= dest.Length
    requires width > 0 ==> 0 <= s && s + 4 * width <= |buffer|
    modifies dest
    ensures dest[..d + 4 * width] == old(dest[..d]) + BgraRow(buffer, s, width)
  {
    var j := 0;
    while j < width
      invariant 0 <= j <= width
      invariant dest[..d + 4 * j] == old(dest[..d]) + BgraRow(buffer, s, j)
    {
      var t, p := d + 4 * j, s + j * 4;
      Store4(dest, t, buffer[p + 2], buffer[p + 1], buffer[p], buffer[p + 3]);
      BgraRowNext(buffer, s, j);
      AppendAssoc(old(dest[..d]), BgraRow(buffer, s, j),
        [buffer[p + 2], buffer[p + 1], buffer[p], buffer[p + 3]]);
      j := j + 1;
    }
  }

  /**
   * The gray, LCD and mono branches: copy `height` rows of `width` bytes out
   * of a FreeType buffer, bottom row first; `mono` selects the monochrome
   * branch's `* 255`.
   */
  method FlipRows(buffer: seq<byte>, width: nat, height: nat, pitch: int, mono: bool) returns (data: seq<byte>)
    requires RowsFit(buffer, height, width, pitch)
    ensures data == GrayRows(buffer, width, height, pitch, mono, height)
  {
    var dest := new byte[height * width];
    var i, d := 0, 0;
    while i < height
      invariant 0 <= i <= height && d == i * width && d <= dest.Length
      invariant dest[..d] == GrayRows(buffer, width, height, pitch, mono, i)
    {
      var s := (height - (i + 1)) * pitch;
      RowStep(buffer, height, width, pitch, i);
      CopyRow(dest, d, buffer, s, width, mono);
      i, d := i + 1, d + width;
    }
    data := dest[..];
    assert data == dest[..d];
  }

  /** The BGRA branch: colour pixels copied bottom row first, B and R exchanged. */
  method SwizzleBgra(buffer: seq<byte>, width: nat, height: nat, pitch: int) returns (data: seq<byte>)
    requires RowsFit(buffer, height, 4 * width, pitch)
    ensures data == BgraRows(buffer, width, height, pitch, height)
  {
    var dest := new byte[height * (4 * width)];
    var i, d := 0, 0;
    while i < height
      invariant 0 <= i <= height && d == i * (4 * width) && d <= dest.Length
      invariant dest[..d] == BgraRows(buffer, width, height, pitch, i)
    {
      var s := (height - (i + 1)) * pitch;
      RowStep(buffer, height, 4 * width, pitch, i);
      SwizzleRow(dest, d, buffer, s, width);
      i, d := i + 1, d + 4 * width;
    }
    data := dest[..];
    assert data == dest[..d];
  }

  // ---------------------------------------------------------------------------
  // Glyph loading
  // ---------------------------------------------------------------------------

  /** Every slot's buffers are large enough for the branch that copies them. */
  predicate SlotFits(slot: GlyphSlot)
  {
    slot.bitmap.Some? ==>
      var bm := slot.bitmap.value;
      match bm.pixelMode
      case MonoPixels =>
        slot.monoAsGray.Some? ==>
          var gray := slot.monoAsGray.value;
          gray.rows == bm.rows && gray.width == bm.width &&
          RowsFit(gray.buffer, gray.rows, gray.width, Abs(gray.pitch))
      case GrayPixels => RowsFit(bm.buffer, bm.rows, bm.width, bm.pitch)
      case LcdPixels => RowsFit(bm.buffer, bm.rows, bm.width, bm.pitch)
      case BgraPixels => RowsFit(bm.buffer, bm.rows, 4 * bm.width, bm.pitch)
      case OtherPixels(_) => true
  }

  predicate FaceFits(face: Face)
  {
    forall g :: g in face.glyphs ==>
      SlotFits(face.glyphs[g]) && (face.hasColor ==> face.glyphs[g].bitmap.Some?)
  }

  /** The slot `FT_Load_Glyph` leaves behind: the glyph's own, else the U+FFFD glyph's, else none. */
  function LoadedSlot(face: Face, glyphIndex: nat): Option<GlyphSlot>
  {
    if glyphIndex in face.glyphs then Some(face.glyphs[glyphIndex])
    else
      var missing := CharIndex(face, MissingGlyphId);
      if missing != 0 && missing in face.glyphs then Some(face.glyphs[missing]) else None
  }

  /** A slot the conversion can turn into a glyph: rendered, convertible, of a supported pixel mode. */
  predicate Convertible(slot: GlyphSlot)
  {
    slot.bitmap.Some? &&
    match slot.bitmap.value.pixelMode
    case MonoPixels => slot.monoAsGray.Some?
    case OtherPixels(_) => false
    case _ => true
  }

  /** `g` is what the pixel-mode branch makes of the slot. */
  predicate ConvertedFrom(slot: GlyphSlot, g: Glyph)
  {
    slot.bitmap.Some? &&
    var bm := slot.bitmap.value;
    var metrics := GlyphMetrics(bm.width, bm.rows, slot.left, slot.top);
    match bm.pixelMode
    case MonoPixels =>
      slot.monoAsGray.Some? &&
      g.metrics == metrics &&
      g.bitmap.format == Gray && g.bitmap.width == bm.width && g.bitmap.height == bm.rows &&
      Flipped(g.bitmap.data, slot.monoAsGray.value.buffer, bm.width, bm.rows, Abs(slot.monoAsGray.value.pitch), true)
    case GrayPixels =>
      g.metrics == metrics &&
      g.bitmap.format == Gray && g.bitmap.width == bm.width && g.bitmap.height == bm.rows &&
      Flipped(g.bitmap.data, bm.buffer, bm.width, bm.rows, bm.pitch, false)
    case LcdPixels =>
      g.metrics == metrics.(bitmapWidth := bm.width / 3) &&
      g.bitmap.format == LCD && g.bitmap.width == bm.width / 3 && g.bitmap.height == bm.rows &&
      Flipped(g.bitmap.data, bm.buffer, bm.width, bm.rows, bm.pitch, false)
    case BgraPixels =>
      g.metrics == metrics &&
      g.bitmap.format == RGBA && g.bitmap.width == bm.width && g.bitmap.height == bm.rows &&
      Swizzled(g.bitmap.data, bm.buffer, bm.width, bm.rows, bm.pitch)
    case OtherPixels(_) => false
  }

  // ---------------------------------------------------------------------------
  // Strike selection
  // ---------------------------------------------------------------------------

  function Distance(width: int, target: int): nat
  {
    if width > target then width - target else target - width
  }

  /**
   * `best` is the lowest index among the strikes closest to `target`, or 0
   * when there are none; distances that do not beat the initial `IntMax`
   * are never chosen.
   */
  predicate IsBestStrike(widths: seq<int>, target: int, best: nat)
  {
    if exists i :: 0 <= i < |widths| && Distance(widths[i], target) < IntMax then
      best < |widths| &&
      (forall i :: 0 <= i < |widths| ==> Distance(widths[best], target) <= Distance(widths[i], target)) &&
      (forall i :: 0 <= i < best ==> Distance(widths[best], target) < Distance(widths[i], target))
    else
      best == 0
  }

  /** The search loop of Font::selectSizeForWidth. */
  method BestStrike(widths: seq<int>, target: int) returns (best: nat)
    ensures IsBestStrike(widths, target, best)
  {
    best := 0;
    var diff := IntMax;
    for i := 0 to |widths|
      invariant diff <= IntMax
      invariant diff < IntMax ==> best < i && diff == Distance(widths[best], target)
      invariant diff == IntMax ==> best == 0
      invariant forall k :: 0 <= k < i ==> diff <= Distance(widths[k], target)
      invariant forall k :: 0 <= k < best ==> diff < Distance(widths[k], target)
      invariant diff == IntMax ==> forall k :: 0 <= k < i ==> Distance(widths[k], target) >= IntMax
    {
      var width := widths[i];
      var d := if width > target then width - target else target - width;
      if d < diff {
        diff := d;
        best := i;
      }
    }
  }

  /** `int(x)`: conversion of a floating-point value to `int`, truncating toward zero. */
  function TruncateToInt(x: real): int
  {
    if x >= 0.0 then x.Floor else -((-x).Floor)
  }

  // ---------------------------------------------------------------------------
  // Area-average downscaling (scale)
  // ---------------------------------------------------------------------------

  /** Sum of channel c over source pixels x0 .. x1-1 of row y. */
  ghost function RowSum(bm: Bitmap, y: nat, x0: nat, x1: int, c: nat): nat
    decreases x1 - x0
  {
    if x1 <= x0 then 0 else RowSum(bm, y, x0, x1 - 1, c) + Channel(bm.data, bm.width, y, x1 - 1, c)
  }

  /** Sum of channel c over the source block rows y0 .. y1-1, columns x0 .. x1-1. */
  ghost function BlockSum(bm: Bitmap, y0: nat, y1: int, x0: nat, x1: int, c: nat): nat
    decreases y1 - y0
  {
    if y1 <= y0 then 0 else BlockSum(bm, y0, y1 - 1, x0, x1, c) + RowSum(bm, y1 - 1, x0, x1, c)
  }

  /** Number of pixels visited in that block. */
  ghost function BlockCount(y0: nat, y1: int, x0: nat, x1: int): nat
    decreases y1 - y0
  {
    if y1 <= y0 then 0 else BlockCount(y0, y1 - 1, x0, x1) + (if x1 <= x0 then 0 else x1 - x0)
  }

  lemma {:induction false} RowSumBound(bm: Bitmap, y: nat, x0: nat, x1: int, c: nat)
    ensures RowSum(bm, y, x0, x1, c) <= 255 * (if x1 <= x0 then 0 else x1 - x0)
    decreases x1 - x0
  {
    if x1 > x0 {
      RowSumBound(bm, y, x0, x1 - 1, c);
    }
  }

  lemma {:induction false} BlockSumBound(bm: Bitmap, y0: nat, y1: int, x0: nat, x1: int, c: nat)
    ensures BlockSum(bm, y0, y1, x0, x1, c) <= 255 * BlockCount(y0, y1, x0, x1)
    decreases y1 - y0
  {
    if y1 > y0 {
      BlockSumBound(bm, y0, y1 - 1, x0, x1, c);
      RowSumBound(bm, y1 - 1, x0, x1, c);
    }
  }

  /** The number of pixels averaged is the area of the block clipped to the source bitmap. */
  lemma {:induction false} BlockCountIsArea(y0: nat, y1: int, x0: nat, x1: int)
    ensures BlockCount(y0, y1, x0, x1) == (if y1 <= y0 then 0 else y1 - y0) * (if x1 <= x0 then 0 else x1 - x0)
    decreases y1 - y0
  {
    if y1 > y0 {
      BlockCountIsArea(y0, y1 - 1, x0, x1);
    }
  }

  /** The floor average of `count` values summing to `sum`, 0 when there are none. */
  ghost function Mean(sum: nat, count: nat): nat
  {
    if count == 0 then 0 else sum / count
  }

  lemma MeanBound(sum: nat, count: nat)
    requires sum <= 255 * count
    ensures Mean(sum, count) <= 255
  {
  }

  /**
   * Output channel c of pixel (i, j): the floor average of that channel over
   * source rows i*f .. min((i+1)*f, height)-1 and columns
   * j*f .. min((j+1)*f, width)-1, or 0 when that block is empty.
   */
  ghost function BlockAverage(bm: Bitmap, factor: nat, i: nat, j: nat, c: nat): byte
  {
    var y0, x0 := i * factor, j * factor;
    var y1, x1 := Min(y0 + factor, bm.height), Min(x0 + factor, bm.width);
    BlockSumBound(bm, y0, y1, x0, x1, c);
    MeanBound(BlockSum(bm, y0, y1, x0, x1, c), BlockCount(y0, y1, x0, x1));
    Mean(BlockSum(bm, y0, y1, x0, x1, c), BlockCount(y0, y1, x0, x1))
  }

  /** The inner two loops of scale: the channel sums and the pixel count of one source block. */
  method SumBlock(bm: Bitmap, sr: nat, sc: nat, factor: nat) returns (b: nat, g: nat, r: nat, a: nat, count: nat)
    requires |bm.data| == bm.width * bm.height * 4
    ensures var ye, xe := Min(sr + factor, bm.height), Min(sc + factor, bm.width);
      b == BlockSum(bm, sr, ye, sc, xe, 0) && g == BlockSum(bm, sr, ye, sc, xe, 1) &&
      r == BlockSum(bm, sr, ye, sc, xe, 2) && a == BlockSum(bm, sr, ye, sc, xe, 3) &&
      count == BlockCount(sr, ye, sc, xe)
  {
    b, g, r, a, count := 0, 0, 0, 0, 0;
    var ye, xe := Min(sr + factor, bm.height), Min(sc + factor, bm.width);
    var y := sr;
    while y < ye
      invariant sr <= y && (y == sr || y <= ye)
      invariant b == BlockSum(bm, sr, y, sc, xe, 0) && g == BlockSum(bm, sr, y, sc, xe, 1)
      invariant r == BlockSum(bm, sr, y, sc, xe, 2) && a == BlockSum(bm, sr, y, sc, xe, 3)
      invariant count == BlockCount(sr, y, sc, xe)
    {
      var x := sc;
      var b0, g0, r0, a0, count0 := b, g, r, a, count;
      while x < xe
        invariant sc <= x && (x == sc || x <= xe)
        invariant b == b0 + RowSum(bm, y, sc, x, 0) && g == g0 + RowSum(bm, y, sc, x, 1)
        invariant r == r0 + RowSum(bm, y, sc, x, 2) && a == a0 + RowSum(bm, y, sc, x, 3)
        invariant count == count0 + (x - sc)
      {
        b := b + Channel(bm.data, bm.width, y, x, 0);
        g := g + Channel(bm.data, bm.width, y, x, 1);
        r := r + Channel(bm.data, bm.width, y, x, 2);
        a := a + Channel(bm.data, bm.width, y, x, 3);
        count := count + 1;
        x := x + 1;
      }
      y := y + 1;
    }
  }

  /** Output row i of the downscaled image: the block averages of its `width` pixels. */
  ghost function ScaledRow(bm: Bitmap, factor: nat, i: nat, width: nat): seq<byte>
  {
    seq<byte>(4 * width, k => if k < 0 then 0 else BlockAverage(bm, factor, i, k / 4, k % 4))
  }

  /** The first n output rows of the downscaled image. */
  ghost function ScaledRows(bm: Bitmap, factor: nat, width: nat, n: nat): seq<byte>
  {
    if n == 0 then [] else ScaledRows(bm, factor, width, n - 1) + ScaledRow(bm, factor, n - 1, width)
  }

  lemma {:induction false} ScaledRowsLength(bm: Bitmap, factor: nat, width: nat, n: nat)
    ensures |ScaledRows(bm, factor, width, n)| == n * (4 * width)
  {
    if n > 0 {
      ScaledRowsLength(bm, factor, width, n - 1);
      MulNext(n - 1, 4 * width);
    }
  }

  lemma {:induction false} ScaledPixel(bm: Bitmap, factor: nat, width: nat, n: nat, i: nat, j: nat, c: nat)
    requires i < n && j < width && c < 4
    ensures Channel(ScaledRows(bm, factor, width, n), width, i, j, c) == BlockAverage(bm, factor, i, j, c)
    decreases n
  {
    ScaledRowsLength(bm, factor, width, n - 1);
    var prev := ScaledRows(bm, factor, width, n - 1);
    var row := ScaledRow(bm, factor, n - 1, width);
    var k := j * 4 + c;
    var t := (i * width + j) * 4 + c;
    if i < n - 1 {
      ScaledPixel(bm, factor, width, n - 1, i, j, c);
      FlatIndex4(i, j, c, width, n - 1);
      AppendLeft(prev, row, t);
    } else {
      FlatIndex4(i, j, c, width, n);
      assert t == |prev| + k;
      assert k / 4 == j && k % 4 == c;
      AppendRight(prev, row, k);
    }
  }

  /** Every channel of the downscaled image is the average of its source block. */
  lemma ScaledRowsAverage(bm: Bitmap, factor: nat, width: nat, height: nat)
    ensures |ScaledRows(bm, factor, width, height)| == width * height * 4
    ensures forall i, j, c :: 0 <= i < height && 0 <= j < width && 0 <= c < 4 ==>
      Channel(ScaledRows(bm, factor, width, height), width, i, j, c) == BlockAverage(bm, factor, i, j, c)
  {
    ScaledRowsLength(bm, factor, width, height);
    Interleaved(height, 0, 0, width);
    forall i, j, c | 0 <= i < height && 0 <= j < width && 0 <= c < 4
      ensures Channel(ScaledRows(bm, factor, width, height), width, i, j, c) == BlockAverage(bm, factor, i, j, c)
    {
      ScaledPixel(bm, factor, width, height, i, j, c);
    }
  }

  /** What the accumulators of one block yield is that block's average. */
  lemma AverageOfBlock(bm: Bitmap, factor: nat, i: nat, j: nat, c: nat, sum: nat, count: nat)
    requires var y0, x0 := i * factor, j * factor;
      var y1, x1 := Min(y0 + factor, bm.height), Min(x0 + factor, bm.width);
      sum == BlockSum(bm, y0, y1, x0, x1, c) && count == BlockCount(y0, y1, x0, x1)
    ensures BlockAverage(bm, factor, i, j, c) == Mean(sum, count)
  {
  }

  lemma ScaledRowNext(bm: Bitmap, factor: nat, i: nat, j: nat)
    ensures ScaledRow(bm, factor, i, j + 1) == ScaledRow(bm, factor, i, j) +
      [BlockAverage(bm, factor, i, j, 0), BlockAverage(bm, factor, i, j, 1),
       BlockAverage(bm, factor, i, j, 2), BlockAverage(bm, factor, i, j, 3)]
  {
  }

  /** The body of the inner loop of scale: sum one block and store its average after dest[..t]. */
  method StoreBlockAverage(dest: array<byte>, t: nat, bm: Bitmap, i: nat, j: nat, sr: nat, sc: nat, factor: nat)
    requires |bm.data| == bm.width * bm.height * 4
    requires sr == i * factor && sc == j * factor
    requires t + 4 <= dest.Length
    requires dest[t] == 0 && dest[t + 1] == 0 && dest[t + 2] == 0 && dest[t + 3] == 0
    modifies dest
    ensures dest[..t + 4] == old(dest[..t]) +
      [BlockAverage(bm, factor, i, j, 0), BlockAverage(bm, factor, i, j, 1),
       BlockAverage(bm, factor, i, j, 2), BlockAverage(bm, factor, i, j, 3)]
    ensures forall k :: t + 4 <= k < dest.Length ==> dest[k] == old(dest[k])
  {
    var b, g, r, a, count := SumBlock(bm, sr, sc, factor);
    AverageOfBlock(bm, factor, i, j, 0, b, count);
    AverageOfBlock(bm, factor, i, j, 1, g, count);
    AverageOfBlock(bm, factor, i, j, 2, r, count);
    AverageOfBlock(bm, factor, i, j, 3, a, count);
    if count != 0 {
      Store4(dest, t, b / count, g / count, r / count, a / count);
    } else {
      assert dest[..t + 4] == dest[..t] + [dest[t], dest[t + 1], dest[t + 2], dest[t + 3]];
    }
  }

  /** The middle loop of scale: output row i, whose source rows start at sr = i * factor, after dest[..d]. */
  method ScaleRow(dest: array<byte>, d: nat, bm: Bitmap, i: nat, sr: nat, width: nat, factor: nat)
    requires |bm.data| == bm.width * bm.height * 4
    requires sr == i * factor
    requires d + 4 * width <= dest.Length
    requires forall k :: d <= k < d + 4 * width ==> dest[k] == 0
    modifies dest
    ensures dest[..d + 4 * width] == old(dest[..d]) + ScaledRow(bm, factor, i, width)
    ensures forall k :: d + 4 * width <= k < dest.Length ==> dest[k] == old(dest[k])
  {
    var j, sc := 0, 0;
    while j < width
      invariant 0 <= j <= width && sc == j * factor
      invariant dest[..d + 4 * j] == old(dest[..d]) + ScaledRow(bm, factor, i, j)
      invariant forall k :: d + 4 * j <= k < dest.Length ==> dest[k] == old(dest[k])
    {
      var t := d + 4 * j;
      StoreBlockAverage(dest, t, bm, i, j, sr, sc, factor);
      ScaledRowNext(bm, factor, i, j);
      AppendAssoc(old(dest[..d]), ScaledRow(bm, factor, i, j),
        [BlockAverage(bm, factor, i, j, 0), BlockAverage(bm, factor, i, j, 1),
         BlockAverage(bm, factor, i, j, 2), BlockAverage(bm, factor, i, j, 3)]);
      MulNext(j, factor);
      j, sc := j + 1, sc + factor;
    }
  }

  /**
   * scale (Font.cpp:71-135) with the integer `factor` given: a `width` x
   * `height` RGBA bitmap whose channels are block averages of the source.
   */
  method Scale(bm: Bitmap, width: nat, height: nat, factor: nat) returns (out: Bitmap)
    requires bm.format == RGBA
    requires |bm.data| == bm.width * bm.height * 4
    ensures out.format == RGBA && out.width == width && out.height == height
    ensures out.data == ScaledRows(bm, factor, width, height)
  {
    var dest := new byte[height * (4 * width)](_ => 0);
    var i, sr, d := 0, 0, 0;
    while i < height
      invariant 0 <= i <= height && sr == i * factor
      invariant d == i * (4 * width) && d <= dest.Length
      invariant dest[..d] == ScaledRows(bm, factor, width, i)
      invariant forall k :: d <= k < dest.Length ==> dest[k] == 0
    {
      MulNext(i, 4 * width);
      MulMonotone(i + 1, height, 4 * width);
      ScaleRow(dest, d, bm, i, sr, width, factor);
      MulNext(i, factor);
      i, sr, d := i + 1, sr + factor, d + 4 * width;
    }
    out := Bitmap(RGBA, width, height, dest[..]);
    assert dest[..] == dest[..d];
  }

  // ---------------------------------------------------------------------------
  // The font object
  // ---------------------------------------------------------------------------

  /** A font: the face loaded from `filePath`, at `fontSize`, showing fixed-size strike `strikeIndex`. */
  class Font {
    const filePath: string
    const face: Face
    var fontSize: real
    var strikeIndex: nat

    constructor (path: string, face: Face, size: real)
      ensures filePath == path && this.face == face
      ensures fontSize == size && strikeIndex == 0
    {
      filePath := path;
      this.face := face;
      fontSize := size;
      strikeIndex := 0;
    }

    /** Font::selectSizeForWidth: show the strike whose width is closest to `width`. */
    method SelectSizeForWidth(width: int)
      modifies this`strikeIndex
      ensures IsBestStrike(face.fixedWidths, width, strikeIndex)
    {
      strikeIndex := BestStrike(face.fixedWidths, width);
    }

    /** Font::setFontSize: colour fonts pick a strike for the size, every font records it. */
    method SetFontSize(size: real)
      modifies this
      ensures fontSize == size
      ensures face.hasColor ==> IsBestStrike(face.fixedWidths, TruncateToInt(size), strikeIndex)
      ensures !face.hasColor ==> strikeIndex == old(strikeIndex)
    {
      if face.hasColor {
        SelectSizeForWidth(TruncateToInt(size));
      }
      fontSize := size;
    }

    /**
     * Font::loadGlyphByIndex: load the glyph, or the U+FFFD glyph when that
     * fails, and convert its bitmap according to its pixel mode.
     */
    method LoadGlyphByIndex(glyphIndex: nat) returns (r: Option<Glyph>)
      requires FaceFits(face)
      ensures (glyphIndex !in face.glyphs &&
               (CharIndex(face, MissingGlyphId) == 0 || CharIndex(face, MissingGlyphId) !in face.glyphs)) ==> r.None?
      ensures r.Some? <==> LoadedSlot(face, glyphIndex).Some? && Convertible(LoadedSlot(face, glyphIndex).value)
      ensures r.Some? ==> ConvertedFrom(LoadedSlot(face, glyphIndex).value, r.value)
    {
      var slot: GlyphSlot;
      if glyphIndex in face.glyphs {
        slot := face.glyphs[glyphIndex];
      } else {
        var missingGlyph := CharIndex(face, MissingGlyphId);
        if missingGlyph != 0 && missingGlyph in face.glyphs {
          slot := face.glyphs[missingGlyph];
        } else {
          return None;
        }
      }
      if slot.bitmap.None? {
        return None;
      }
      var bm := slot.bitmap.value;
      var metrics := GlyphMetrics(bm.width, bm.rows, slot.left, slot.top);
      match bm.pixelMode {
        case MonoPixels =>
          if slot.monoAsGray.None? {
            return None;
          }
          var gray := slot.monoAsGray.value;
          var data := FlipRows(gray.buffer, gray.width, gray.rows, Abs(gray.pitch), true);
          GrayRowsFlipped(gray.buffer, gray.width, gray.rows, Abs(gray.pitch), true);
          r := Some(Glyph(metrics, Bitmap(Gray, bm.width, bm.rows, data)));
        case GrayPixels =>
          var data := FlipRows(bm.buffer, bm.width, bm.rows, bm.pitch, false);
          GrayRowsFlipped(bm.buffer, bm.width, bm.rows, bm.pitch, false);
          r := Some(Glyph(metrics, Bitmap(Gray, bm.width, bm.rows, data)));
        case LcdPixels =>
          var data := FlipRows(bm.buffer, bm.width, bm.rows, bm.pitch, false);
          GrayRowsFlipped(bm.buffer, bm.width, bm.rows, bm.pitch, false);
          r := Some(Glyph(metrics.(bitmapWidth := bm.width / 3), Bitmap(LCD, bm.width / 3, bm.rows, data)));
        case BgraPixels =>
          var data := SwizzleBgra(bm.buffer, bm.width, bm.rows, bm.pitch);
          BgraRowsSwizzled(bm.buffer, bm.width, bm.rows, bm.pitch);
          r := Some(Glyph(metrics, Bitmap(RGBA, bm.width, bm.rows, data)));
        case OtherPixels(_) =>
          r := None;
      }
    }
  }
}
