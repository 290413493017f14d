/**
 * The text run accumulator of the renderer (src/terminal_view/TextRenderer.cpp):
 * cells scheduled one by one are grouped into runs of equally styled text
 * on one row; each run is shaped once per (text, style) and handed to the
 * glyph renderer.
 *
 * The script/presentation segmenter and the seven-argument shaper call
 * made for each segment are oracles; texture atlases and GPU commands are
 * not part of this model, so a flushed run is recorded in `rendered`.
 */
module TextRendering {
  import opened Fonts
  import opened TextShaping

  /** One flag of a `CharacterStyleMask`; the mask is the set of its flags. */
  datatype StyleFlag = Bold | Faint | Italic | Underline | Blinking | Inverse | Hidden | CrossedOut | OtherStyle(bit: nat)

  type StyleMask = set<StyleFlag>

  datatype RGBColor = RGBColor(red: byte, green: byte, blue: byte)

  datatype Coordinate = Coordinate(row: int, column: int)

  /** A grid cell: its codepoints (none when the cell is empty) and its style mask. */
  datatype Cell = Cell(codepoints: seq<char32>, styles: StyleMask)

  /** The two states of the accumulator. */
  datatype State = Empty | Filling

  /** The font lists of a font configuration, one per style, plus the emoji fonts. */
  datatype FontConfig = FontConfig(regular: FontList, bold: FontList, italic: FontList, boldItalic: FontList, emoji: FontList)

  /** `FontStyle`, a two-bit flag set. */
  type FontStyle = bv2

  const RegularStyle: FontStyle := 0
  const BoldStyle: FontStyle := 1
  const ItalicStyle: FontStyle := 2
  const BoldItalicStyle: FontStyle := 3

  /** A segment of the pending text: codepoints start .. end-1, one script, one presentation. */
  datatype Run = Run(start: nat, end: nat, script: nat, emojiPresentation: bool)

  /** The segments cover 0 .. n-1 in order, each non-empty. */
  predicate Partitions(runs: seq<Run>, n: nat)
  {
    (|runs| == 0 <==> n == 0) &&
    (|runs| > 0 ==> runs[0].start == 0 && runs[|runs| - 1].end == n) &&
    (forall i :: 0 <= i < |runs| ==> runs[i].start < runs[i].end <= n) &&
    (forall i :: 0 < i < |runs| ==> runs[i - 1].end == runs[i].start)
  }

  /** `unicode::run_segmenter`: an ordered partition of the codepoints into segments. */
  type Segmenter = f: seq<char32> -> seq<Run> | forall cps :: Partitions(f(cps), |cps|)
    witness (cps: seq<char32>) => if |cps| == 0 then [] else [Run(0, |cps|, 0, false)]

  /** The shaper call of shapeRun: script, fonts, advance, codepoints, clusters and cluster gap to glyphs. */
  type RunShaper = (nat, FontList, int, seq<char32>, seq<nat>, int) -> seq<GlyphPosition>

  /** What flushPendingSegments hands to `render`: the run's grid position, colour and glyphs. */
  datatype Segment = Segment(row: int, startColumn: int, color: RGBColor, glyphs: seq<GlyphPosition>)

  /** The key of the segment cache: text and style mask. */
  datatype CacheKey = CacheKey(text: seq<char32>, styles: StyleMask)

  /** The pending run: where it starts, its style and colour, codepoints, clusters and next cluster. */
  datatype PendingRun = PendingRun(
    row: int,
    startColumn: int,
    styles: StyleMask,
    color: RGBColor,
    codepoints: seq<char32>,
    clusters: seq<nat>,
    clusterOffset: nat)

  // ---------------------------------------------------------------------------
  // The pending run, as a value
  // ---------------------------------------------------------------------------

  /** Cluster numbers never decrease and are all below the next cluster number. */
  predicate ClustersOrdered(clusters: seq<nat>, clusterOffset: nat)
  {
    (forall i, j :: 0 <= i <= j < |clusters| ==> clusters[i] <= clusters[j]) &&
    (forall i :: 0 <= i < |clusters| ==> clusters[i] < clusterOffset)
  }

  predicate WellFormed(p: PendingRun)
  {
    |p.codepoints| == |p.clusters| && ClustersOrdered(p.clusters, p.clusterOffset)
  }

  /** reset: a run at `pos` with the given style and colour and nothing in it. */
  function ResetRun(pos: Coordinate, styles: StyleMask, color: RGBColor): PendingRun
  {
    PendingRun(pos.row, pos.column, styles, color, [], [], 0)
  }

  /** extend: the cell's codepoints appended, all in cluster `clusterOffset`, which then advances. */
  function Extended(p: PendingRun, cell: Cell): PendingRun
  {
    p.(codepoints := p.codepoints + cell.codepoints,
       clusters := p.clusters + seq(|cell.codepoints|, _ => p.clusterOffset),
       clusterOffset := p.clusterOffset + 1)
  }

  /**
   * Extending keeps codepoints and clusters equally long and cluster numbers
   * ordered; the new codepoints form one cluster after all earlier ones.
   */
  lemma ExtendedWellFormed(p: PendingRun, cell: Cell)
    requires WellFormed(p)
    ensures WellFormed(Extended(p, cell))
    ensures Extended(p, cell).codepoints[..|p.codepoints|] == p.codepoints
    ensures Extended(p, cell).clusters[..|p.clusters|] == p.clusters
    ensures forall i :: |p.clusters| <= i < |Extended(p, cell).clusters| ==>
      Extended(p, cell).clusters[i] == p.clusterOffset
  {
    var q := Extended(p, cell);
    forall i, j | 0 <= i <= j < |q.clusters|
      ensures q.clusters[i] <= q.clusters[j]
    {
      if j >= |p.clusters| && i < |p.clusters| {
        assert q.clusters[i] == p.clusters[i];
      }
    }
  }

  /** A reset run with one cell: what schedule starts when a new run begins. */
  lemma StartedWellFormed(pos: Coordinate, cell: Cell, color: RGBColor)
    ensures WellFormed(Extended(ResetRun(pos, cell.styles, color), cell))
    ensures Extended(ResetRun(pos, cell.styles, color), cell).codepoints == cell.codepoints
    ensures Extended(ResetRun(pos, cell.styles, color), cell).clusterOffset == 1
  {
    ExtendedWellFormed(ResetRun(pos, cell.styles, color), cell);
  }

  /** A cell is blank when it has no codepoint or starts with U+0020 SPACE. */
  predicate EmptyCell(cell: Cell)
  {
    |cell.codepoints| == 0 || cell.codepoints[0] == 0x20
  }

  // ---------------------------------------------------------------------------
  // Font selection and run shaping
  // ---------------------------------------------------------------------------

  /** The text style of shapeRun: Regular, with Bold and Italic or-ed in for the mask's flags. */
  function TextStyle(styles: StyleMask): FontStyle
  {
    RegularStyle
      | (if StyleFlag.Bold in styles then BoldStyle else RegularStyle)
      | (if StyleFlag.Italic in styles then ItalicStyle else RegularStyle)
  }

  /** The font list of shapeRun: the emoji fonts for emoji presentation, else the list of the style. */
  function FontListFor(fonts: FontConfig, style: FontStyle, isEmoji: bool): FontList
  {
    if isEmoji then fonts.emoji
    else if style == BoldStyle then fonts.bold
    else if style == ItalicStyle then fonts.italic
    else if style == BoldItalicStyle then fonts.boldItalic
    else fonts.regular
  }

  /**
   * The font list a run is drawn with: the emoji fonts for emoji
   * presentation; otherwise bold and italic pick among the four style lists.
   */
  function StyleFonts(fonts: FontConfig, styles: StyleMask, isEmoji: bool): FontList
  {
    var bold, italic := StyleFlag.Bold in styles, StyleFlag.Italic in styles;
    if isEmoji then fonts.emoji
    else if bold && italic then fonts.boldItalic
    else if bold then fonts.bold
    else if italic then fonts.italic
    else fonts.regular
  }

  /** The two-bit text style and its switch select the list StyleFonts describes, for every style mask. */
  lemma FontSelection(fonts: FontConfig, styles: StyleMask, isEmoji: bool)
    ensures FontListFor(fonts, TextStyle(styles), isEmoji) == StyleFonts(fonts, styles, isEmoji)
  {
  }

  /** The arguments of shapeRun are inside the pending buffers. */
  predicate RunFits(codepoints: seq<char32>, clusters: seq<nat>, run: Run)
  {
    run.start <= run.end <= |codepoints| <= |clusters| && 0 < |clusters|
  }

  /**
   * shapeRun: nothing for hidden text; otherwise the shaper's glyphs for the
   * segment's codepoints and clusters, with the font list of the style, the
   * regular font's maximum advance and the negated first cluster as gap.
   */
  function ShapeRun(fonts: FontConfig, shaper: RunShaper, styles: StyleMask,
                    codepoints: seq<char32>, clusters: seq<nat>, run: Run): (r: seq<GlyphPosition>)
    requires RunFits(codepoints, clusters, run)
    ensures StyleFlag.Hidden in styles ==> r == []
    ensures StyleFlag.Hidden !in styles ==>
      r == shaper(run.script, StyleFonts(fonts, styles, run.emojiPresentation),
                  fonts.regular.primary.face.maxAdvance,
                  codepoints[run.start..run.end], clusters[run.start..run.end], 0 - (clusters[0] as int))
  {
    if StyleFlag.Hidden in styles then []
    else
      FontSelection(fonts, styles, run.emojiPresentation);
      shaper(run.script,
             FontListFor(fonts, TextStyle(styles), run.emojiPresentation),
             fonts.regular.primary.face.maxAdvance,
             codepoints[run.start..run.end],
             clusters[run.start..run.end],
             0 - (clusters[0] as int))
  }

  /** The glyphs of the segments, concatenated in order. */
  function ShapeRuns(fonts: FontConfig, shaper: RunShaper, styles: StyleMask,
                     codepoints: seq<char32>, clusters: seq<nat>, runs: seq<Run>): seq<GlyphPosition>
    requires forall i :: 0 <= i < |runs| ==> RunFits(codepoints, clusters, runs[i])
  {
    if |runs| == 0 then []
    else ShapeRuns(fonts, shaper, styles, codepoints, clusters, runs[..|runs| - 1]) +
         ShapeRun(fonts, shaper, styles, codepoints, clusters, runs[|runs| - 1])
  }

  /** The loop of requestGlyphPositions: append each segment's glyphs in segment order. */
  method ShapeSegments(fonts: FontConfig, shaper: RunShaper, styles: StyleMask,
                       codepoints: seq<char32>, clusters: seq<nat>, runs: seq<Run>)
    returns (glyphs: seq<GlyphPosition>)
    requires forall i :: 0 <= i < |runs| ==> RunFits(codepoints, clusters, runs[i])
    ensures glyphs == ShapeRuns(fonts, shaper, styles, codepoints, clusters, runs)
  {
    glyphs := [];
    for i := 0 to |runs|
      invariant glyphs == ShapeRuns(fonts, shaper, styles, codepoints, clusters, runs[..i])
    {
      assert runs[..i + 1][..i] == runs[..i];
      glyphs := glyphs + ShapeRun(fonts, shaper, styles, codepoints, clusters, runs[i]);
    }
    assert runs[..|runs|] == runs;
  }

  /** Hidden text shapes to no glyphs at all, whatever its segments. */
  lemma {:induction false} HiddenShapesNothing(fonts: FontConfig, shaper: RunShaper, styles: StyleMask,
                                               codepoints: seq<char32>, clusters: seq<nat>, runs: seq<Run>)
    requires forall i :: 0 <= i < |runs| ==> RunFits(codepoints, clusters, runs[i])
    requires StyleFlag.Hidden in styles
    ensures ShapeRuns(fonts, shaper, styles, codepoints, clusters, runs) == []
  {
    if |runs| > 0 {
      HiddenShapesNothing(fonts, shaper, styles, codepoints, clusters, runs[..|runs| - 1]);
    }
  }

  /** The segments of a partition of the pending codepoints fit the pending buffers. */
  lemma PartitionFits(codepoints: seq<char32>, clusters: seq<nat>, runs: seq<Run>)
    requires Partitions(runs, |codepoints|) && |codepoints| <= |clusters|
    ensures forall i :: 0 <= i < |runs| ==> RunFits(codepoints, clusters, runs[i])
  {
  }

  // ---------------------------------------------------------------------------
  // Glyph placement (renderTexture)
  // ---------------------------------------------------------------------------

  datatype Point = Point(x: int, y: int)

  /**
   * renderTexture: the screen position of a glyph's texture, y growing
   * upwards from the bottom left. A glyph of a colour font sits at the run
   * position shifted right by its bearing and shaping offset; any other
   * glyph is also moved by the vertical shaping offset, lifted to the
   * baseline and to its bitmap's top, and lowered by its bitmap height.
   */
  function TexturePosition(pos: Point, metrics: GlyphMetrics, gp: GlyphPosition, baseline: int): Point
  {
    if gp.font.face.hasColor then Point(pos.x + metrics.bearingX + gp.x, pos.y)
    else Point(pos.x + gp.x + metrics.bearingX,
               pos.y + gp.y + baseline + metrics.bearingY - metrics.bitmapHeight)
  }

  /**
   * Glyph k of a shaped run is drawn in its grid cell: one maximum advance
   * of the font per earlier glyph that advances, plus its own offset and
   * bearing; a glyph that is not from a colour font also rises with the
   * earlier vertical advances. When every earlier glyph advances, the cell
   * is the k-th one from the run position.
   */
  lemma GlyphOnGrid(pos: Point, metrics: GlyphMetrics, font: Font, gs: seq<EngineGlyph>, k: nat, baseline: int)
    requires k < |gs|
    ensures var t := TexturePosition(pos, metrics, Layout(font, gs)[k], baseline);
      t.x == pos.x + AdvancingGlyphs(gs[..k]) * font.face.maxAdvance + Pixels(gs[k].xOffset) + metrics.bearingX &&
      (font.face.hasColor ==> t.y == pos.y) &&
      (!font.face.hasColor ==>
        t.y == pos.y + VerticalAdvance(gs[..k]) + Pixels(gs[k].yOffset) + baseline + metrics.bearingY - metrics.bitmapHeight)
    ensures (forall i :: 0 <= i < k ==> gs[i].xAdvance != 0) ==>
      TexturePosition(pos, metrics, Layout(font, gs)[k], baseline).x ==
        pos.x + k * font.face.maxAdvance + Pixels(gs[k].xOffset) + metrics.bearingX
  {
    LayoutCopiesGlyphs(font, gs, k);
    if forall i :: 0 <= i < k ==> gs[i].xAdvance != 0 {
      AdvancingGlyphsBound(gs[..k]);
    }
  }

  /** Every cached text is one of the stored keys. */
  ghost predicate KeysStored(cache: map<CacheKey, seq<GlyphPosition>>, storage: seq<seq<char32>>)
  {
    forall k :: k in cache ==> k.text in storage
  }

  // ---------------------------------------------------------------------------
  // The renderer object
  // ---------------------------------------------------------------------------

  class TextRenderer {
    const fonts: FontConfig
    const segmenter: Segmenter
    const shaper: RunShaper
    var pressure: bool
    var state: State
    var row: int
    var startColumn: int
    var styles: StyleMask
    var color: RGBColor
    var codepoints: seq<char32>
    var clusters: seq<nat>
    var clusterOffset: nat
    var cache: map<CacheKey, seq<GlyphPosition>>
    var cacheKeyStorage: seq<seq<char32>>
    /** The runs handed to `render`, in order. */
    var rendered: seq<Segment>

    /** The fields of the pending run. */
    ghost function Pending(): PendingRun
      reads this
    {
      PendingRun(row, startColumn, styles, color, codepoints, clusters, clusterOffset)
    }

    /**
     * While text is pending its clusters match it; a filling run is never
     * empty; cluster numbers are ordered; every cached text is in the key
     * storage.
     */
    ghost predicate Valid()
      reads this
    {
      (codepoints != [] ==> |codepoints| == |clusters|) &&
      (state == Filling ==> codepoints != []) &&
      ClustersOrdered(clusters, clusterOffset) &&
      KeysStored(cache, cacheKeyStorage)
    }

    /**
     * A new renderer is idle with an empty cache; a colour emoji font shows
     * the strike closest to the cell width.
     */
    constructor (fonts: FontConfig, segmenter: Segmenter, shaper: RunShaper, cellWidth: int)
      modifies fonts.emoji.primary`strikeIndex
      ensures Valid()
      ensures this.fonts == fonts && this.segmenter == segmenter && this.shaper == shaper
      ensures state == Empty && codepoints == [] && clusters == [] && clusterOffset == 0
      ensures cache == map[] && cacheKeyStorage == [] && rendered == [] && !pressure
      ensures fonts.emoji.primary.face.hasColor ==>
        IsBestStrike(fonts.emoji.primary.face.fixedWidths, cellWidth, fonts.emoji.primary.strikeIndex)
      ensures !fonts.emoji.primary.face.hasColor ==> unchanged(fonts.emoji.primary)
    {
      this.fonts := fonts;
      this.segmenter := segmenter;
      this.shaper := shaper;
      pressure := false;
      state := Empty;
      row, startColumn := 0, 0;
      styles := {};
      color := RGBColor(0, 0, 0);
      codepoints, clusters, clusterOffset := [], [], 0;
      cache, cacheKeyStorage, rendered := map[], [], [];
      new;
      var emoji := fonts.emoji.primary;
      if emoji.face.hasColor {
        emoji.SelectSizeForWidth(cellWidth);
      }
    }

    /** The cache key of the pending run. */
    ghost function Key(): CacheKey
      reads this
    {
      CacheKey(codepoints, styles)
    }

    /** The stored key texts after cachedGlyphPositions: a miss adds an owned copy of the pending text. */
    ghost function StoredKeys(): seq<seq<char32>>
      reads this
    {
      if Key() in cache then cacheKeyStorage else cacheKeyStorage + [codepoints]
    }

    /** What cachedGlyphPositions yields for the pending run: the cached list, else the shaped one. */
    ghost function Lookup(): seq<GlyphPosition>
      requires Valid()
      reads this
    {
      if Key() in cache then cache[Key()] else Shaped()
    }

    /** The glyphs of the pending text, segment by segment. */
    ghost function Shaped(): seq<GlyphPosition>
      requires Valid()
      reads this
    {
      var runs := segmenter(codepoints);
      PartitionFits(codepoints, clusters, runs);
      ShapeRuns(fonts, shaper, styles, codepoints, clusters, runs)
    }

    /** TextRenderer::reset. */
    method Reset(pos: Coordinate, styles: StyleMask, color: RGBColor)
      modifies this
      ensures Pending() == ResetRun(pos, styles, color)
      ensures state == old(state) && pressure == old(pressure) && rendered == old(rendered)
      ensures cache == old(cache) && cacheKeyStorage == old(cacheKeyStorage)
    {
      row := pos.row;
      startColumn := pos.column;
      this.styles := styles;
      this.color := color;
      codepoints := [];
      clusters := [];
      clusterOffset := 0;
    }

    /** TextRenderer::extend: the loop over the cell's codepoints. */
    method Extend(cell: Cell)
      modifies this
      ensures Pending() == Extended(old(Pending()), cell)
      ensures state == old(state) && pressure == old(pressure) && rendered == old(rendered)
      ensures cache == old(cache) && cacheKeyStorage == old(cacheKeyStorage)
    {
      ghost var p := Pending();
      for i := 0 to |cell.codepoints|
        invariant codepoints == p.codepoints + cell.codepoints[..i]
        invariant clusters == p.clusters + seq(i, _ => p.clusterOffset)
        invariant clusterOffset == p.clusterOffset
        invariant row == p.row && startColumn == p.startColumn && styles == p.styles && color == p.color
        invariant state == old(state) && pressure == old(pressure) && rendered == old(rendered)
        invariant cache == old(cache) && cacheKeyStorage == old(cacheKeyStorage)
      {
        codepoints := codepoints + [cell.codepoints[i]];
        clusters := clusters + [clusterOffset];
        assert cell.codepoints[..i + 1] == cell.codepoints[..i] + [cell.codepoints[i]];
        assert seq(i + 1, _ => p.clusterOffset) == seq(i, _ => p.clusterOffset) + [p.clusterOffset];
      }
      assert cell.codepoints[..|cell.codepoints|] == cell.codepoints;
      clusterOffset := clusterOffset + 1;
    }

    /** TextRenderer::requestGlyphPositions: shape every segment of the pending text, in order. */
    method RequestGlyphPositions() returns (glyphs: seq<GlyphPosition>)
      requires Valid()
      ensures glyphs == Shaped()
    {
      var runs := segmenter(codepoints);
      PartitionFits(codepoints, clusters, runs);
      glyphs := ShapeSegments(fonts, shaper, styles, codepoints, clusters, runs);
    }

    /** The miss branch of cachedGlyphPositions: keep an owned copy of the text and cache the glyphs under it. */
    method Remember(glyphs: seq<GlyphPosition>)
      requires Valid()
      modifies this
      ensures Valid()
      ensures cacheKeyStorage == old(cacheKeyStorage) + [codepoints]
      ensures cache == old(cache)[Key() := glyphs]
      ensures Pending() == old(Pending()) && state == old(state) && pressure == old(pressure)
      ensures rendered == old(rendered)
    {
      cacheKeyStorage := cacheKeyStorage + [codepoints];
      var owned := cacheKeyStorage[|cacheKeyStorage| - 1];
      cache := cache[CacheKey(owned, styles) := glyphs];
    }

    /**
     * TextRenderer::cachedGlyphPositions: the list cached for (text, style);
     * on a miss an owned copy of the text is kept and the shaped list cached.
     */
    method CachedGlyphPositions() returns (glyphs: seq<GlyphPosition>)
      requires Valid()
      modifies this
      ensures Valid()
      ensures glyphs == old(Lookup())
      ensures cache == old(cache)[old(Key()) := glyphs]
      ensures old(Key()) in old(cache) ==> cache == old(cache)
      ensures cacheKeyStorage == old(StoredKeys())
      ensures Pending() == old(Pending()) && state == old(state) && pressure == old(pressure)
      ensures rendered == old(rendered)
    {
      var key := CacheKey(codepoints, styles);
      if key in cache {
        glyphs := cache[key];
      } else {
        glyphs := RequestGlyphPositions();
        Remember(glyphs);
      }
    }

    /** TextRenderer::flushPendingSegments: hand the pending run, if any, to `render`. */
    method FlushPendingSegments()
      requires Valid()
      modifies this
      ensures Valid()
      ensures Pending() == old(Pending()) && state == old(state) && pressure == old(pressure)
      ensures old(codepoints) == [] ==>
        rendered == old(rendered) && cache == old(cache) && cacheKeyStorage == old(cacheKeyStorage)
      ensures old(codepoints) != [] ==>
        rendered == old(rendered) + [Segment(old(row), old(startColumn), old(color), old(Lookup()))] &&
        cache == old(cache)[old(Key()) := old(Lookup())] &&
        cacheKeyStorage == old(StoredKeys())
    {
      if codepoints == [] {
        return;
      }
      var glyphs := CachedGlyphPositions();
      rendered := rendered + [Segment(row, startColumn, color, glyphs)];
    }

    /** The cell joins the pending run: no pressure, not blank, same row, same style mask and colour. */
    ghost predicate Joins(pos: Coordinate, cell: Cell, color: RGBColor)
      reads this
    {
      !pressure && !EmptyCell(cell) && pos.row == row && cell.styles == styles && color == this.color
    }

    /**
     * TextRenderer::schedule: the two-state machine. A blank cell in state
     * Empty changes nothing; a visible one starts a run. In state Filling a
     * joining cell extends the run; any other cell flushes it, then either
     * empties the state (blank cell) or starts a new run with the cell.
     */
    method Schedule(pos: Coordinate, cell: Cell, color: RGBColor)
      requires Valid()
      modifies this
      ensures Valid() && pressure == old(pressure)
      ensures old(state) == Empty && EmptyCell(cell) ==>
        state == Empty && Pending() == old(Pending()) && rendered == old(rendered) &&
        cache == old(cache) && cacheKeyStorage == old(cacheKeyStorage)
      ensures old(state) == Empty && !EmptyCell(cell) ==>
        state == Filling && Pending() == Extended(ResetRun(pos, cell.styles, color), cell) &&
        rendered == old(rendered) && cache == old(cache) && cacheKeyStorage == old(cacheKeyStorage)
      ensures old(state) == Filling && old(Joins(pos, cell, color)) ==>
        state == Filling && Pending() == Extended(old(Pending()), cell) &&
        rendered == old(rendered) && cache == old(cache) && cacheKeyStorage == old(cacheKeyStorage)
      ensures old(state) == Filling && !old(Joins(pos, cell, color)) ==>
        rendered == old(rendered) + [Segment(old(row), old(startColumn), old(this.color), old(Lookup()))] &&
        cache == old(cache)[old(Key()) := old(Lookup())] &&
        cacheKeyStorage == old(StoredKeys()) &&
        (EmptyCell(cell) ==> state == Empty && Pending() == old(Pending())) &&
        (!EmptyCell(cell) ==> state == Filling && Pending() == Extended(ResetRun(pos, cell.styles, color), cell))
    {
      var emptyCell := |cell.codepoints| == 0 || cell.codepoints[0] == 0x20;
      match state {
        case Empty =>
          if !emptyCell {
            StartRun(pos, cell, color);
          }
        case Filling =>
          var sameLine := pos.row == row;
          var sameSGR := cell.styles == styles && color == this.color;
          if !pressure && !emptyCell && sameLine && sameSGR {
            JoinRun(cell);
          } else {
            FlushPendingSegments();
            if emptyCell {
              state := Empty;
            } else {
              StartRun(pos, cell, color);
            }
          }
      }
    }

    /** Filling, reset and extend: how schedule begins a run with a visible cell. */
    method StartRun(pos: Coordinate, cell: Cell, color: RGBColor)
      requires Valid() && !EmptyCell(cell)
      modifies this
      ensures Pending() == Extended(ResetRun(pos, cell.styles, color), cell)
      ensures state == Filling && pressure == old(pressure) && rendered == old(rendered)
      ensures cache == old(cache) && cacheKeyStorage == old(cacheKeyStorage)
      ensures Valid()
    {
      state := Filling;
      Reset(pos, cell.styles, color);
      Extend(cell);
      StartedWellFormed(pos, cell, color);
    }

    /** extend of a cell that joins a non-empty run. */
    method JoinRun(cell: Cell)
      requires Valid() && codepoints != []
      modifies this
      ensures Pending() == Extended(old(Pending()), cell) && codepoints != []
      ensures state == old(state) && pressure == old(pressure) && rendered == old(rendered)
      ensures cache == old(cache) && cacheKeyStorage == old(cacheKeyStorage)
      ensures Valid()
    {
      ExtendedWellFormed(Pending(), cell);
      Extend(cell);
    }

    /** TextRenderer::finish: back to Empty; only the codepoints are cleared, the clusters stay. */
    method Finish()
      requires Valid()
      modifies this
      ensures Valid()
      ensures state == Empty && codepoints == []
      ensures clusters == old(clusters) && clusterOffset == old(clusterOffset)
      ensures row == old(row) && startColumn == old(startColumn) && styles == old(styles) && color == old(color)
      ensures cache == old(cache) && cacheKeyStorage == old(cacheKeyStorage) && rendered == old(rendered)
      ensures pressure == old(pressure)
    {
      state := Empty;
      codepoints := [];
    }

    /**
     * TextRenderer::updateFontMetrics: every emoji font shows the strike
     * closest to the cell width, and the glyph cache is dropped.
     */
    method UpdateFontMetrics(cellWidth: int)
      requires Valid()
      modifies this, (set f: Font | f in Candidates(fonts.emoji))`strikeIndex
      ensures Valid()
      ensures forall f :: f in Candidates(fonts.emoji) ==> IsBestStrike(f.face.fixedWidths, cellWidth, f.strikeIndex)
      ensures cache == map[] && cacheKeyStorage == []
      ensures Pending() == old(Pending()) && state == old(state) && pressure == old(pressure)
      ensures rendered == old(rendered)
    {
      var emoji := Candidates(fonts.emoji);
      for i := 0 to |emoji|
        invariant unchanged(this)
        invariant forall j :: 0 <= j < i ==> IsBestStrike(emoji[j].face.fixedWidths, cellWidth, emoji[j].strikeIndex)
      {
        emoji[i].SelectSizeForWidth(cellWidth);
      }
      ClearCache();
    }

    /** The renderer's pressure flag: while it is set, schedule shapes cell by cell. */
    method SetPressure(pressure: bool)
      requires Valid()
      modifies this
      ensures Valid() && this.pressure == pressure
      ensures Pending() == old(Pending()) && state == old(state) && rendered == old(rendered)
      ensures cache == old(cache) && cacheKeyStorage == old(cacheKeyStorage)
    {
      this.pressure := pressure;
    }

    /** TextRenderer::clearCache: drop the segment cache and its key storage. */
    method ClearCache()
      requires Valid()
      modifies this
      ensures Valid()
      ensures cache == map[] && cacheKeyStorage == []
      ensures Pending() == old(Pending()) && state == old(state) && pressure == old(pressure)
      ensures rendered == old(rendered)
    {
      cacheKeyStorage := [];
      cache := map[];
    }
  }
}
