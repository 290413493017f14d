# Text shaping, glyph caching and font fallback in the contour terminal

This project models, in Dafny, the part of the contour terminal emulator that turns
the characters of the screen grid into positioned glyphs:

- **Font** (`Fonts.dfy`, after `src/crispy/text/Font.cpp`): a loaded font face.
  It picks the fixed-size strike closest to a requested width and records the font
  size. It loads a glyph, retrying with the replacement character U+FFFD when the
  index is unknown, and converts the rasterised bitmap:
  - mono and gray bitmaps are flipped vertically, and mono is expanded to 0/255;
  - LCD bitmaps become RGB with a third of the width;
  - BGRA bitmaps become RGBA, flipped.
  `scale` box-filters an RGBA bitmap by an integer factor, averaging each
  factor × factor block.
- **TextShaper** (`TextShaping.dfy`, after `src/crispy/text/TextShaper.cpp`):
  - shapes a run of codepoints with the primary font, then each fallback in order,
    and takes the first font that leaves no glyph missing (glyph index 0);
  - when every font fails, it shapes with the primary font and replaces missing
    glyphs with the primary font's glyph for U+FFFD;
  - it lays glyphs out in grid cells of the font's maximum advance;
  - it memoises results per codepoint sequence and keeps one shaping handle per font.
- **TextRenderer** (`TextRendering.dfy`, after `src/terminal_view/TextRenderer.cpp`):
  - collects consecutive cells of one row with the same style and colour into a
    pending run, with one cluster number per cell;
  - flushes that run as a segment;
  - splits it into script/presentation segments and chooses the font list by style
    (emoji, bold, italic, bold italic, regular);
  - caches the shaped glyph list per (text, style) key, keeping an owned copy of
    every key text;
  - computes where each glyph's texture is drawn.
- **FontLoader** (`FontLoading.dfy`, after `src/crispy/text/FontLoader.cpp`):
  - resolves a font pattern to font file paths: the pattern itself for a `.ttf`/`.otf`
    name (case-insensitive), else the font matcher's list, else a fixed Consolas
    table on Windows;
  - loads each path at most once, keyed by path, re-sizing a font that is already
    loaded;
  - returns the primary font and the fallbacks that opened.

The external libraries are parameters of the model:
- HarfBuzz shaping is the `Engine` function held by the shaper.
- FreeType's `FT_New_Face` is the `openFace` function of the loader.
- A FreeType face is a value (`Face`) with its character map, fixed strike widths,
  colour flag, maximum advance and rendered glyph slots.
- The fontconfig sort is the `FontMatcher` function.
- The Unicode run segmenter is a `Segmenter`: any function returning an ordered
  partition of the text.
- The call into the shaper made by `shapeRun` is a `RunShaper` function.

Objects that the source updates in place are classes (`Font`, `TextShaper`,
`TextRenderer`, `FontLoader`). Each method's `ensures` ties the fields it changes
(the handle map and handle count, the caches, the pending run, the loaded fonts) to
value-level functions of the old state, and the properties are proved about those
functions. A font's only changing state is its size and its strike index. The loader
reads both, for every cached font, as two maps by path (`Sizes`, `Strikes`). `Load`
relates these maps after the call to the maps before it:
- the fonts of the pattern's paths end at the requested size;
- each has the strike that `loadFromFilePath` gives it (`StrikeAfterLoad`), or strike 0 when new;
- every other font keeps its size and strike.
A font's strike selection changes only its strike index.
Bitmap conversion and scaling work on arrays, row by row, as the source's loops do.

## Model

| member | source | states |
|---|---|---|
| Fonts.GrayRowsLength | src/crispy/text/Font.cpp:279-282 | the converted mono or gray image has exactly width × height bytes |
| Fonts.BgraRowsLength | src/crispy/text/Font.cpp:368-371 | the converted colour image has exactly width × height × 4 bytes |
| Fonts.GrayPixel | src/crispy/text/Font.cpp:285-306 | output pixel (i, j) is source byte (height − 1 − i) · pitch + j: the image is flipped vertically; mono bits are expanded to 0 or 255 (8-bit wrap of v · 255) |
| Fonts.BgraPixel | src/crispy/text/Font.cpp:375-387 | output channel c of pixel (i, j) is the source pixel of the mirrored row with blue and red swapped |
| Fonts.GrayRowsFlipped | src/crispy/text/Font.cpp:264-307 | the whole mono or gray conversion is a vertical flip of the FreeType buffer, every pixel included |
| Fonts.BgraRowsSwizzled | src/crispy/text/Font.cpp:361-389 | the whole BGRA conversion is a vertical flip with a BGRA to RGBA channel swap, every channel included |
| Fonts.CopyRow | src/crispy/text/Font.cpp:305-306 | writing one output row appends that row's flipped bytes after the bytes already written |
| Fonts.SwizzleRow | src/crispy/text/Font.cpp:377-387 | writing one colour row appends its swapped pixels after the bytes already written |
| Fonts.FlipRows | src/crispy/text/Font.cpp:282-306 | the row-by-row loop produces exactly the flipped image (the partner of GrayRowsFlipped) |
| Fonts.SwizzleBgra | src/crispy/text/Font.cpp:368-389 | the row-by-row loop produces exactly the swapped, flipped image (the partner of BgraRowsSwizzled) |
| Fonts.BestStrike | src/crispy/text/Font.cpp:404-417 | the chosen strike has the smallest distance to the requested width and is the first such strike; it is 0 when there are no strikes or none is closer than INT_MAX |
| Fonts.Font.constructor | src/crispy/text/FontLoader.cpp:185 | a font made from an opened face records its path, face and size, with strike 0 |
| Fonts.Font.SelectSizeForWidth | src/crispy/text/Font.cpp:399-426 | the font's strike index becomes the best strike for the width |
| Fonts.Font.SetFontSize | src/crispy/text/Font.cpp:428-444 | the size is recorded; a colour font selects the strike closest to the size truncated to an integer; any other font keeps its strike |
| Fonts.Font.LoadGlyphByIndex | src/crispy/text/Font.cpp:185-396 | a known index loads its own slot, an unknown one the slot of U+FFFD; no glyph when neither loads or the pixel format is unsupported; otherwise the bitmap is the flipped, expanded, width/3 or swapped conversion of that slot |
| Fonts.RowSumBound | src/crispy/text/Font.cpp:106-112 | a channel sum over one row of a block is at most 255 per pixel |
| Fonts.BlockSumBound | src/crispy/text/Font.cpp:103-113 | a channel sum over a block is at most 255 × the pixel count, so the average fits a byte |
| Fonts.BlockCountIsArea | src/crispy/text/Font.cpp:103-106 | the pixel count of a block is the area of the block clipped to the source bitmap |
| Fonts.MeanBound | src/crispy/text/Font.cpp:117-120 | the integer average of such a sum is at most 255 |
| Fonts.SumBlock | src/crispy/text/Font.cpp:102-113 | returns the four channel sums and the pixel count of the factor × factor block at (sr, sc), clipped to the bitmap |
| Fonts.AverageOfBlock | src/crispy/text/Font.cpp:115-121 | the stored channel equals the floor of sum / count, and 0 for an empty block |
| Fonts.StoreBlockAverage | src/crispy/text/Font.cpp:115-121 | one output pixel gets the block average of each channel; the pixel stays zero when the block is empty |
| Fonts.ScaleRow | src/crispy/text/Font.cpp:99-122 | one output row is the averages of the blocks along source rows sr .. sr + factor − 1 |
| Fonts.ScaledRowsLength | src/crispy/text/Font.cpp:82-83 | the scaled image has width × height × 4 bytes |
| Fonts.ScaledPixel | src/crispy/text/Font.cpp:96-123 | channel c of output pixel (i, j) is the average of the block starting at row i · factor, column j · factor |
| Fonts.ScaledRowsAverage | src/crispy/text/Font.cpp:96-123 | every channel of every output pixel is its block average; the image has the requested size |
| Fonts.Scale | src/crispy/text/Font.cpp:71-135 | the result is an RGBA bitmap of the requested width and height whose data is the block-averaged image |
| TextShaping.AnyMissingIff | src/crispy/text/TextShaper.cpp:33-36 | a glyph list has a missing glyph exactly when some glyph has index 0 |
| TextShaping.LayoutCopiesGlyphs | src/crispy/text/TextShaper.cpp:145-151 | each laid-out glyph keeps the font, glyph index and cluster of the shaped glyph; it is missing exactly when the shaped index was 0 |
| TextShaping.AdvancingGlyphsBound | src/crispy/text/TextShaper.cpp:153-154 | the pen advances at most once per glyph, and once per glyph exactly when every glyph has an advance |
| TextShaping.ToPositions | src/crispy/text/TextShaper.cpp:137-157 | the loop over the shaped glyphs produces the cell-grid layout: x = advancing glyphs so far × the maximum advance + x offset / 64, y = vertical pen + y offset / 64 |
| TextShaping.ReplacedMissingProperties | src/crispy/text/TextShaper.cpp:162-173 | replacement keeps the length and every present glyph; each missing glyph gets the replacement index; with a non-zero replacement nothing is missing; with 0 the list is unchanged |
| TextShaping.ReplaceMissingGlyphs | src/crispy/text/TextShaper.cpp:162-173 | the in-place loop gives the replaced list with the font's index for U+FFFD |
| TextShaping.FirstFoundSpec | src/crispy/text/TextShaper.cpp:63-70 | the search stops at the first font that shapes with nothing missing; all fonts before it fail |
| TextShaping.FirstFoundUnique | src/crispy/text/TextShaper.cpp:63-70 | any index with all earlier fonts failing and itself succeeding (or at the end) is the search result |
| TextShaping.ResolveFirstSuccess | src/crispy/text/TextShaper.cpp:63-70 | when candidate k is the first to succeed, its glyphs are the result, nothing is missing, and exactly candidates 0..k were tried |
| TextShaping.ResolveAllFail | src/crispy/text/TextShaper.cpp:83-86 | when every candidate fails, the result is the primary font's glyphs with missing ones replaced, after trying all candidates and then the primary once more |
| TextShaping.TextShaper.constructor | src/crispy/text/TextShaper.cpp:39-42 | a new shaper has no handles and an empty cache |
| TextShaping.TextShaper.HandleFor | src/crispy/text/TextShaper.cpp:120-127 | an existing handle for the font is reused; otherwise exactly one new handle is created and remembered; the cache is untouched |
| TextShaping.OpenedAppend | src/crispy/text/TextShaper.cpp:120-127 | opening handles for two batches of fonts in turn is the same as for the batches together |
| TextShaping.OpenedKeys | src/crispy/text/TextShaper.cpp:120-127 | after a series of attempts the handle map holds exactly the old fonts and the fonts tried, and every old handle is kept |
| TextShaping.OpenedSerials | src/crispy/text/TextShaper.cpp:120-127 | the handle count never decreases, and each new handle is numbered between the old and the new count |
| TextShaping.OpenedDistinct | src/crispy/text/TextShaper.cpp:120-127 | two different fonts that got new handles got different handles |
| TextShaping.OpenedCount | src/crispy/text/TextShaper.cpp:120-127 | the handle count grows by exactly the number of fonts that got a new handle |
| TextShaping.TextShaper.Attempt | src/crispy/text/TextShaper.cpp:103-160 | shaping with one font yields the engine's glyphs laid out, reports success exactly when none is missing, logs the attempt, and creates a handle for the font exactly when it had none |
| TextShaping.TextShaper.Store | src/crispy/text/TextShaper.cpp:89-93 | the result is cached under its codepoints with an owned key; handles are untouched |
| TextShaping.TextShaper.TryFallbacks | src/crispy/text/TextShaper.cpp:67-70 | the fallbacks are tried in order up to and including the first that succeeds, whose glyphs are returned; handles are created for exactly the fallbacks tried |
| TextShaping.TextShaper.ShapeWithReplacement | src/crispy/text/TextShaper.cpp:83-86 | shapes once more with the primary font and replaces missing glyphs; the primary font keeps or gets its handle |
| TextShaping.TextShaper.ShapeUncached | src/crispy/text/TextShaper.cpp:61-86 | the result is the first successful candidate's glyphs, else the replaced primary glyphs; it is cached; the attempts made are exactly the tried list, and handles are created for exactly the tried fonts that had none |
| TextShaping.TextShaper.Shape | src/crispy/text/TextShaper.cpp:50-87 | a cached text returns its cached glyphs and changes nothing; any other text is resolved, cached and returned, and the handle map then holds the old fonts plus the fonts tried |
| TextShaping.TextShaper.ClearCache | src/crispy/text/TextShaper.cpp:95-101 | all shaping handles are dropped; the glyph cache is kept |
| TextRendering.ExtendedWellFormed | src/terminal_view/TextRenderer.cpp:121-129 | extending the pending run keeps earlier codepoints and clusters, gives every new codepoint the current cluster, keeps clusters non-decreasing and one per codepoint, and advances the cluster counter |
| TextRendering.StartedWellFormed | src/terminal_view/TextRenderer.cpp:139-146 | a run started at a cell holds exactly that cell's codepoints, all in cluster 0, with the next cluster 1 |
| TextRendering.FontSelection | src/terminal_view/TextRenderer.cpp:245-278 | the two-bit font style and its switch select the emoji fonts for emoji presentation; otherwise bold and italic select bold italic, bold alone bold, italic alone italic, and anything else regular |
| TextRendering.ShapeRun | src/terminal_view/TextRenderer.cpp:240-295 | hidden text shapes to nothing; other text is shaped with the font list its style selects, the regular font's maximum advance, the run's codepoints and clusters, and the negated first cluster as gap |
| TextRendering.ShapeSegments | src/terminal_view/TextRenderer.cpp:229-235 | the loop over the segments concatenates each segment's glyphs in segment order |
| TextRendering.HiddenShapesNothing | src/terminal_view/TextRenderer.cpp:242-243 | hidden text yields no glyphs, whatever its segments |
| TextRendering.PartitionFits | src/terminal_view/TextRenderer.cpp:225-235 | every segment of a partition of the pending text lies within the codepoint and cluster buffers |
| TextRendering.GlyphOnGrid | src/terminal_view/TextRenderer.cpp:510-545 | with the texture position of renderTexture (y growing upwards from the bottom left), glyph k of a shaped run is drawn at x = run x + (earlier advancing glyphs) × maximum advance + its x offset / 64 + bearing, i.e. in the k-th cell when every earlier glyph advances; a non-colour glyph rises with the earlier vertical advances and its own y offset / 64 |
| TextRendering.TextRenderer.constructor | src/terminal_view/TextRenderer.cpp:57-82 | a new renderer is idle with an empty run and an empty cache; a colour emoji font selects the strike closest to the cell width, any other emoji font is untouched; only the strike index of the emoji font may change |
| TextRendering.TextRenderer.UpdateFontMetrics | src/terminal_view/TextRenderer.cpp:99-106 | every emoji font selects the strike closest to the cell width, and the glyph cache and its key texts are emptied; the pending run stays, and nothing of the fonts but their strike index changes |
| TextRendering.TextRenderer.Reset | src/terminal_view/TextRenderer.cpp:108-119 | the pending run restarts at the cell position with the given style and colour, no codepoints and cluster 0 |
| TextRendering.TextRenderer.Extend | src/terminal_view/TextRenderer.cpp:121-129 | the pending run becomes its extension by the cell |
| TextRendering.TextRenderer.RequestGlyphPositions | src/terminal_view/TextRenderer.cpp:223-238 | returns the glyphs of the pending text's segments, in order |
| TextRendering.TextRenderer.Remember | src/terminal_view/TextRenderer.cpp:206-220 | an owned copy of the key text is stored, and the glyphs are cached under it |
| TextRendering.TextRenderer.CachedGlyphPositions | src/terminal_view/TextRenderer.cpp:195-221 | returns the cached glyphs for (text, style), else the shaped ones, which are then cached with their key text stored; a hit changes nothing |
| TextRendering.TextRenderer.FlushPendingSegments | src/terminal_view/TextRenderer.cpp:178-193 | an empty run renders nothing; otherwise one segment is rendered at the run's start with its colour and its (cached) glyphs, and on a cache miss an owned copy of the text is added to the stored keys |
| TextRendering.TextRenderer.Schedule | src/terminal_view/TextRenderer.cpp:131-176 | an empty cell is skipped while idle; a non-empty one starts a run; a cell in the same row, style and colour joins the run; any other cell flushes the run (caching its glyphs and storing its key text on a miss) and starts a new one (or goes idle on an empty cell) |
| TextRendering.TextRenderer.StartRun | src/terminal_view/TextRenderer.cpp:140-145 | the renderer starts filling with a run made of just this cell |
| TextRendering.TextRenderer.JoinRun | src/terminal_view/TextRenderer.cpp:160-161 | the cell's codepoints are appended to the pending run |
| TextRendering.TextRenderer.Finish | src/terminal_view/TextRenderer.cpp:330-334 | the renderer goes idle with no pending codepoints; the rest stays |
| TextRendering.TextRenderer.ClearCache | src/terminal_view/TextRenderer.cpp:84-97 | the glyph cache and the stored key texts are emptied; the pending run stays |
| FontLoading.EndsWithIgnoreCase | src/crispy/text/FontLoader.cpp:51-62 | true exactly when the text ends with the suffix, letters compared case-insensitively |
| FontLoading.LoweredIdempotent | src/crispy/text/FontLoader.cpp:58 | lower-casing twice is lower-casing once |
| FontLoading.SuffixIgnoresCase | src/crispy/text/FontLoader.cpp:51-62 | any text ends with its own suffix, and with that suffix in lower case |
| FontLoading.ShortTextNoSuffix | src/crispy/text/FontLoader.cpp:53-54 | a text shorter than the suffix never ends with it |
| FontLoading.WindowsTable | src/crispy/text/FontLoader.cpp:108-115 | the Windows table picks Consolas bold italic, italic, bold or regular exactly when the pattern contains "bold italic"; "italic" but not "bold italic"; "bold" and neither; or none of these |
| FontLoading.FontFileIsItsOwnPath | src/crispy/text/FontLoader.cpp:66-67 | a name ending in .ttf or .otf, in any case, resolves to itself alone |
| FontLoading.GetFontFilePaths | src/crispy/text/FontLoader.cpp:64-117 | returns the pattern for a font file name, else the matcher's list, else the Windows table |
| FontLoading.FallbackFonts | src/crispy/text/FontLoader.cpp:151-154 | the fallbacks are fonts loaded from paths after the first, at most one per path, and one per path when all loaded |
| FontLoading.FontLoader.constructor | src/crispy/text/FontLoader.cpp:120-130 | a new loader has no fonts |
| FontLoading.FontLoader.LoadFromFilePath | src/crispy/text/FontLoader.cpp:167-187 | a loaded path returns its font at the new size, untouched when the size is equal; at a new size a colour font selects the strike closest to the truncated size and any other font keeps its strike; a path that does not open returns null; any other gives a new font for the path, which is added to the fonts |
| FontLoading.StepStruck | src/crispy/text/FontLoader.cpp:147-153 | after one more path is loaded, every path loaded so far has the strike its load gives it: the best strike for the truncated size when a cached colour font was resized, its old strike when the cached font kept its size or has no colour, 0 when the font is new |
| FontLoading.LoadStep | src/crispy/text/FontLoader.cpp:147-153 | loading path i carries the progress of paths 0 .. i−1 to paths 0 .. i: new fonts come only from those paths, fonts of other paths keep their size and strike, and every font of those paths is at the size with the strike its load gives it |
| FontLoading.FontLoader.LoadOne | src/crispy/text/FontLoader.cpp:147-153 | loading path i adds at most that path to the fonts and leaves the font of every other path unchanged; the path's font ends at the requested size, with the strike a resize gives it when it was cached and strike 0 when it is new; when no font results nothing changes |
| FontLoading.FontLoader.LoadNext | src/crispy/text/FontLoader.cpp:147-153 | one path of load, with the load's progress extended to that path; the returned font is the path's font, at the requested size; other fonts are unchanged; when no font results nothing changes |
| FontLoading.FontLoader.LoadFallback | src/crispy/text/FontLoader.cpp:152-154 | one fallback path is loaded at the requested size, and its font is appended when it opens; the load's progress extends to the path, every fallback is at the size, and the font of every other path is unchanged |
| FontLoading.FontLoader.LoadFallbacks | src/crispy/text/FontLoader.cpp:151-154 | once the primary font has loaded, every path after the first is loaded in order at the requested size; the fallback list holds the fonts that opened, in path order and all at that size; the load's progress covers every path |
| FontLoading.FontLoader.FallbacksLoaded | src/crispy/text/FontLoader.cpp:151-164 | when the fallback loop has covered every path, the fonts and the result are those LoadedFonts describes: the first path's font as primary and the fonts that opened as fallbacks, all cached and at the size |
| FontLoading.FontLoader.LoadPaths | src/crispy/text/FontLoader.cpp:147-164 | the body of load for given paths: the same outcome as Load |
| FontLoading.FontLoader.Load | src/crispy/text/FontLoader.cpp:143-165 | fails with "Failed to load primary font" exactly when the first path is neither loaded nor opens, and then no font, size or strike changes. Otherwise it returns that font as primary and, in path order, the fonts of the other paths that opened. Every loaded path keeps its font, and a newly loaded path holds the face opening it gave. Every font of the paths is at the requested size, with the strike StrikeAfterLoad gives it (0 when new). Every other font keeps its size and strike |

## Left out

- HarfBuzz, FreeType and fontconfig themselves are functions given to the model. The
  shaping engine depends only on the font's identity, and `hb_font_destroy` and the
  buffer lifetime are not modelled.
- FreeType render-mode flags: a face's glyph slots are given already rendered, with no
  bitmap where `FT_Render_Glyph` fails (then no glyph is loaded). An LCD slot's width is assumed to equal its metrics width, as
  the source asserts.
- `Fonts.Font.SetFontSize`: the `FT_Set_Char_Size` call (with the 26.6 size and the dpi)
  and the metric updates that follow are not modelled. Only the recorded size and the
  strike choice are stated.
- `Fonts.Font.SelectSizeForWidth`: the boolean result of `FT_Select_Size` is not
  returned, because face operations are not modelled.
- `Fonts.Font.constructor`: the loader constructs a font from (library, face, size, dpi,
  path), which the `Font` constructor in Font.cpp (library, dpi, path) does not match.
  The model follows the loader's call and leaves the dpi out; `setDpi` is not modelled.
- `Fonts.Scale`: the integer factor is a parameter. The float ratio that computes it
  (`ceilf` of the larger of width/target width and height/target height) is not
  modelled, because floating point is out of scope.
- `computeMaxAdvance` and the other font metrics are fields of the face, not computed.
- Texture atlases, `getTextureInfo`, `render`, colour normalisation and the OpenGL
  commands are not modelled. A flushed segment records its row, column, colour and
  glyphs instead of drawing them.
- `gridMetrics.map`, which turns the grid position into pixels, is not modelled.
- `TextRendering.TextRenderer.ClearCache`: it also clears the atlases and the text
  shaper's cache in the source. Neither is part of this renderer model, which holds no
  shaper object.
- The renderer's pressure setter is declared in TextRenderer.h, which is not part of this
  model. `TextRendering.TextRenderer.SetPressure` stands for it and has no row above.
- The text renderer's debug counters and logging are not modelled.
- `TextRendering.TextRenderer.constructor`, `TextRendering.TextRenderer.UpdateFontMetrics`:
  every font of the model is loaded, so the lazy `loaded()`/`load()` step is not
  modelled. An emoji font list always has a primary font, so the empty-list guard of
  the constructor has no counterpart. The cell width is a parameter, because the grid
  metrics are not modelled.
- A font list of the renderer is the same primary-and-fallbacks pair the shaper takes;
  the source's container type and the conversion between the two are not modelled.
- The internal shaper call of `shapeRun` is kept abstract (`RunShaper`). How it reaches
  `TextShaper::shape` is covered by the TextShaping module separately.
- `TextRendering.ShapeRun`: the cluster gap is the first cluster converted to a signed
  int and negated. The model negates the unbounded cluster number; the 32-bit `int`
  conversion of clusters above `INT_MAX` is not modelled.
- A cell counts as empty when it has no codepoints or starts with a space; the cell
  type is not part of this model.
- The four font-style values are assumed to be 0 to 3.
- The list's first font, `fonts_.regular.front()`, is the `primary` of the regular font
  list.
- `FontLoading.FontLoader.Load` requires at least one path, because the source takes
  the first element of the list unconditionally.
- `FontLoading.FontLoader.LoadFallbacks` requires the primary font to be loaded, because
  load enters its fallback loop only after that check (FontLoader.cpp:147-152).
- `FontLoading.FontLoader.Load` states that the fonts of other paths are untouched as
  "same font, same size, same strike" rather than as a heap frame: size and strike
  index are the only fields of a font that change.
- The `FT_Init_FreeType` and LCD filter setup of the loader constructor, and the
  destructor, are not modelled.
- Whether fontconfig or the Windows table is used is a build choice in the source. Here
  it is a `Platform` parameter.
- In TextShaper.cpp `clearCache` only drops the shaping handles: the glyph cache is
  kept, and the model follows the code.
- `Fonts.Font.LoadGlyphByIndex`: the glyph metrics (bitmap size and bearing) are read
  from the glyph slot before `FT_Render_Glyph` runs (Font.cpp:236-239 against 257). The
  model has one slot per glyph, already rendered, so the metrics read before and after
  rendering are the same. Whether FreeType changes them when rendering an outline glyph
  is not modelled; this may be a defect in the source; unconfirmed.
- `Fonts.Font.LoadGlyphByIndex`: the `advance` field of the glyph metrics, scaled by
  `scaleHorizontal` (Font.cpp:240), is dropped, because the layout uses the shaping
  engine's advances and the font's maximum advance instead.
- `TextShaping.TextShaper.Store`: the key of `cacheKeys_` (TextShaper.cpp:91) is a
  string view into the caller's buffer, while the cache is keyed by the owned copy. The
  model keys both maps by the codepoint value, so the aliasing between the view and the
  caller's buffer is not captured.
- `Fonts.SumBlock`: the channel sums and the count are unsigned 32-bit variables in the
  source (Font.cpp:102). The model sums unbounded integers; a block is at most
  factor × factor pixels of at most 255, which stays below 2^32 for any factor below
  4096.
- `FontLoading.EndsWithIgnoreCase`: `tolower` works on the bytes of the `char` string in
  the C locale. The model lower-cases the Dafny characters 'A'..'Z' only, which is the
  same for ASCII text; multi-byte UTF-8 sequences are compared as whole characters
  instead of bytes.
- `Fonts.BestStrike`: the width distance is an `int` in the source (Font.cpp:409-410)
  and would overflow for widths more than `INT_MAX` apart. The model computes it on
  unbounded integers.
- `TextRendering.TextRenderer.Remember`: the cache key is a `u32string_view` into the
  copy just stored in `cacheKeyStorage_` (TextRenderer.cpp:198-199, 208-213). The model
  keys the cache by the codepoint value and keeps the stored copies as a sequence of
  values. So the aliasing between a key and its stored copy, and what a reallocation of
  the storage would do to the views, are not captured. The storage's container type is
  declared in TextRenderer.h, which is not part of this model.
