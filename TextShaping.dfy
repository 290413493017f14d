/**
 * The fallback text shaper (src/crispy/text/TextShaper.cpp): shape a run of
 * codepoints against the primary font, then against each fallback font in
 * turn, until one of them yields no missing glyph; cache the outcome by the
 * run's codepoints.
 *
 * HarfBuzz is an oracle here: `Engine` is what `hb_shape` followed by
 * `hb_buffer_normalize_glyphs` yields for a font, the codepoints and their
 * clusters.
 */
module TextShaping {
  import opened Wrappers
  import opened Fonts

  /** One glyph of HarfBuzz's output: `hb_glyph_info_t` and `hb_glyph_position_t` (26.6 fixed point). */
  datatype EngineGlyph = EngineGlyph(
    glyphIndex: nat,
    cluster: nat,
    xOffset: int,
    yOffset: int,
    xAdvance: int,
    yAdvance: int)

  /** HarfBuzz shaping: font, codepoints and clusters to glyphs. */
  type Engine = (Font, seq<char32>, seq<nat>) -> seq<EngineGlyph>

  /** A shaped glyph: its font, pen position in pixels, glyph index and cluster. */
  datatype GlyphPosition = GlyphPosition(font: Font, x: int, y: int, glyphIndex: nat, cluster: nat)

  /** The primary font and the fallback fonts, in the order they are tried. */
  datatype FontList = FontList(primary: Font, fallbacks: seq<Font>)

  /** An `hb_font_t` handle; `serial` tells the handles created by one shaper apart. */
  datatype HbFont = HbFont(serial: nat)

  /** `>> 6` on a signed 26.6 value: the floor of the division by 64 (Dafny's `/` floors for a positive divisor). */
  function Pixels(v: int): int
  {
    v / 64
  }

  // ---------------------------------------------------------------------------
  // Missing glyphs
  // ---------------------------------------------------------------------------

  /** glyphMissing: glyph index 0 is the font's "no glyph" sentinel. */
  predicate GlyphMissing(gp: GlyphPosition)
  {
    gp.glyphIndex == 0
  }

  /** `any_of(result, glyphMissing)`. */
  function AnyMissing(ps: seq<GlyphPosition>): bool
  {
    |ps| > 0 && (GlyphMissing(ps[0]) || AnyMissing(ps[1..]))
  }

  lemma {:induction false} AnyMissingIff(ps: seq<GlyphPosition>)
    ensures AnyMissing(ps) <==> exists i :: 0 <= i < |ps| && GlyphMissing(ps[i])
  {
    if |ps| > 0 {
      AnyMissingIff(ps[1..]);
      if AnyMissing(ps[1..]) {
        var i :| 0 <= i < |ps[1..]| && GlyphMissing(ps[1..][i]);
        assert GlyphMissing(ps[i + 1]);
      }
      if exists i :: 0 <= i < |ps| && GlyphMissing(ps[i]) {
        var i :| 0 <= i < |ps| && GlyphMissing(ps[i]);
        if i > 0 {
          assert GlyphMissing(ps[1..][i - 1]);
        }
      }
    }
  }

  // ---------------------------------------------------------------------------
  // One shaping attempt: HarfBuzz's glyphs to pen positions
  // ---------------------------------------------------------------------------

  /** Number of glyphs with a nonzero horizontal advance. */
  function AdvancingGlyphs(gs: seq<EngineGlyph>): nat
  {
    if |gs| == 0 then 0
    else AdvancingGlyphs(gs[..|gs| - 1]) + (if gs[|gs| - 1].xAdvance != 0 then 1 else 0)
  }

  /** Sum of the vertical advances, each in whole pixels. */
  function VerticalAdvance(gs: seq<EngineGlyph>): int
  {
    if |gs| == 0 then 0 else VerticalAdvance(gs[..|gs| - 1]) + Pixels(gs[|gs| - 1].yAdvance)
  }

  /**
   * Glyph i of the attempt: the pen moves one maximum advance of the font
   * per earlier glyph that advances horizontally, and by the earlier
   * vertical advances; the glyph's own offsets are added.
   */
  function Placed(font: Font, gs: seq<EngineGlyph>, i: nat): GlyphPosition
    requires i < |gs|
  {
    GlyphPosition(
      font,
      AdvancingGlyphs(gs[..i]) * font.face.maxAdvance + Pixels(gs[i].xOffset),
      VerticalAdvance(gs[..i]) + Pixels(gs[i].yOffset),
      gs[i].glyphIndex,
      gs[i].cluster)
  }

  /** The glyph positions an attempt produces: one per engine glyph. */
  function Layout(font: Font, gs: seq<EngineGlyph>): seq<GlyphPosition>
  {
    seq(|gs|, i requires 0 <= i < |gs| => Placed(font, gs, i))
  }

  /** Every record of a layout carries its engine glyph's index and cluster and the font shaped with. */
  lemma LayoutCopiesGlyphs(font: Font, gs: seq<EngineGlyph>, i: nat)
    requires i < |gs|
    ensures Layout(font, gs)[i].font == font
    ensures Layout(font, gs)[i].glyphIndex == gs[i].glyphIndex && Layout(font, gs)[i].cluster == gs[i].cluster
    ensures GlyphMissing(Layout(font, gs)[i]) <==> gs[i].glyphIndex == 0
  {
  }

  /** At most one pen step per glyph, and one per glyph exactly when every glyph advances horizontally. */
  lemma {:induction false} AdvancingGlyphsBound(gs: seq<EngineGlyph>)
    ensures AdvancingGlyphs(gs) <= |gs|
    ensures AdvancingGlyphs(gs) == |gs| <==> forall i :: 0 <= i < |gs| ==> gs[i].xAdvance != 0
  {
    if |gs| > 0 {
      var front := gs[..|gs| - 1];
      AdvancingGlyphsBound(front);
      assert forall i :: 0 <= i < |front| ==> front[i] == gs[i];
    }
  }

  /**
   * The loop of TextShaper::shape(size, codepoints, clusters, font, result):
   * the cursors cx and cy, advanced glyph by glyph.
   */
  method ToPositions(font: Font, glyphs: seq<EngineGlyph>) returns (result: seq<GlyphPosition>)
    ensures result == Layout(font, glyphs)
  {
    result := [];
    var cx, cy := 0, 0;
    for i := 0 to |glyphs|
      invariant |result| == i
      invariant forall k :: 0 <= k < i ==> result[k] == Placed(font, glyphs, k)
      invariant cx == AdvancingGlyphs(glyphs[..i]) * font.face.maxAdvance
      invariant cy == VerticalAdvance(glyphs[..i])
    {
      var g := glyphs[i];
      result := result + [GlyphPosition(font, cx + Pixels(g.xOffset), cy + Pixels(g.yOffset), g.glyphIndex, g.cluster)];
      assert glyphs[..i + 1][..i] == glyphs[..i];
      MulNext(AdvancingGlyphs(glyphs[..i]), font.face.maxAdvance);
      if g.xAdvance != 0 {
        cx := cx + font.face.maxAdvance;
      }
      cy := cy + Pixels(g.yAdvance);
    }
  }

  // ---------------------------------------------------------------------------
  // Replacing missing glyphs
  // ---------------------------------------------------------------------------

  /** The attempt's records with every missing glyph set to `missing`, when `missing` is nonzero. */
  function ReplacedMissing(ps: seq<GlyphPosition>, missing: nat): seq<GlyphPosition>
  {
    if missing == 0 then ps
    else seq(|ps|, i requires 0 <= i < |ps| => if GlyphMissing(ps[i]) then ps[i].(glyphIndex := missing) else ps[i])
  }

  /**
   * Replacing keeps every record that has a glyph, changes only the glyph
   * index of the others, and leaves no glyph missing when the font has a
   * U+FFFD glyph.
   */
  lemma ReplacedMissingProperties(ps: seq<GlyphPosition>, missing: nat)
    ensures |ReplacedMissing(ps, missing)| == |ps|
    ensures missing == 0 ==> ReplacedMissing(ps, missing) == ps
    ensures forall i :: 0 <= i < |ps| && !GlyphMissing(ps[i]) ==> ReplacedMissing(ps, missing)[i] == ps[i]
    ensures forall i :: 0 <= i < |ps| && GlyphMissing(ps[i]) ==>
      ReplacedMissing(ps, missing)[i] == ps[i].(glyphIndex := missing)
    ensures missing != 0 ==> !AnyMissing(ReplacedMissing(ps, missing))
  {
    AnyMissingIff(ReplacedMissing(ps, missing));
  }

  /** TextShaper::replaceMissingGlyphs with the font's U+FFFD glyph index `missing`. */
  method ReplaceMissingGlyphs(font: Font, ps: seq<GlyphPosition>) returns (result: seq<GlyphPosition>)
    ensures result == ReplacedMissing(ps, CharIndex(font.face, MissingGlyphId))
  {
    var missingGlyph := CharIndex(font.face, MissingGlyphId);
    result := ps;
    if missingGlyph != 0 {
      for i := 0 to |result|
        invariant |result| == |ps|
        invariant forall k :: 0 <= k < i ==> result[k] == ReplacedMissing(ps, missingGlyph)[k]
        invariant forall k :: i <= k < |ps| ==> result[k] == ps[k]
      {
        if GlyphMissing(result[i]) {
          result := result[i := result[i].(glyphIndex := missingGlyph)];
        }
      }
    }
  }

  // ---------------------------------------------------------------------------
  // The fallback resolver, as a function of the engine
  // ---------------------------------------------------------------------------

  /** The glyph positions an attempt with `font` produces. */
  function Attempted(engine: Engine, font: Font, codepoints: seq<char32>, clusters: seq<nat>): seq<GlyphPosition>
  {
    Layout(font, engine(font, codepoints, clusters))
  }

  /** An attempt with `font` succeeds: no glyph of its layout is missing. */
  predicate Succeeds(engine: Engine, font: Font, codepoints: seq<char32>, clusters: seq<nat>)
  {
    !AnyMissing(Attempted(engine, font, codepoints, clusters))
  }

  /** The fonts in the order they are tried: the primary font, then the fallbacks. */
  function Candidates(fonts: FontList): seq<Font>
  {
    [fonts.primary] + fonts.fallbacks
  }

  /** Index of the first font whose attempt succeeds, |fonts| when none does. */
  function FirstFound(engine: Engine, fonts: seq<Font>, codepoints: seq<char32>, clusters: seq<nat>): nat
  {
    if |fonts| == 0 then 0
    else if Succeeds(engine, fonts[0], codepoints, clusters) then 0
    else 1 + FirstFound(engine, fonts[1..], codepoints, clusters)
  }

  /** FirstFound is the first success: every earlier font fails, and the font at it succeeds. */
  lemma {:induction false} FirstFoundSpec(engine: Engine, fonts: seq<Font>, codepoints: seq<char32>, clusters: seq<nat>)
    ensures FirstFound(engine, fonts, codepoints, clusters) <= |fonts|
    ensures forall j :: 0 <= j < FirstFound(engine, fonts, codepoints, clusters) ==>
      !Succeeds(engine, fonts[j], codepoints, clusters)
    ensures FirstFound(engine, fonts, codepoints, clusters) < |fonts| ==>
      Succeeds(engine, fonts[FirstFound(engine, fonts, codepoints, clusters)], codepoints, clusters)
  {
    if |fonts| > 0 && !Succeeds(engine, fonts[0], codepoints, clusters) {
      FirstFoundSpec(engine, fonts[1..], codepoints, clusters);
      forall j | 1 <= j < FirstFound(engine, fonts, codepoints, clusters)
        ensures !Succeeds(engine, fonts[j], codepoints, clusters)
      {
        assert fonts[j] == fonts[1..][j - 1];
      }
    }
  }

  /** The only index the specification of FirstFound allows. */
  lemma FirstFoundUnique(engine: Engine, fonts: seq<Font>, codepoints: seq<char32>, clusters: seq<nat>, k: nat)
    requires k <= |fonts|
    requires forall j :: 0 <= j < k ==> !Succeeds(engine, fonts[j], codepoints, clusters)
    requires k < |fonts| ==> Succeeds(engine, fonts[k], codepoints, clusters)
    ensures FirstFound(engine, fonts, codepoints, clusters) == k
  {
    FirstFoundSpec(engine, fonts, codepoints, clusters);
  }

  /**
   * What TextShaper::shape(fonts, ...) returns on a cache miss: the layout of
   * the first font that has every glyph, else the primary font's layout with
   * its missing glyphs replaced by its U+FFFD glyph.
   */
  function Resolve(engine: Engine, fonts: FontList, codepoints: seq<char32>, clusters: seq<nat>): seq<GlyphPosition>
  {
    var candidates := Candidates(fonts);
    var k := FirstFound(engine, candidates, codepoints, clusters);
    if k < |candidates| then Attempted(engine, candidates[k], codepoints, clusters)
    else ReplacedMissing(Attempted(engine, fonts.primary, codepoints, clusters),
                         CharIndex(fonts.primary.face, MissingGlyphId))
  }

  /** The fonts TextShaper::shape(fonts, ...) shapes with on a cache miss, in order. */
  function Tried(engine: Engine, fonts: FontList, codepoints: seq<char32>, clusters: seq<nat>): seq<Font>
  {
    var candidates := Candidates(fonts);
    var k := FirstFound(engine, candidates, codepoints, clusters);
    if k < |candidates| then candidates[..k + 1] else candidates + [fonts.primary]
  }

  /**
   * When some font succeeds, the result is the layout of the first such font
   * in list order, it has no missing glyph, and the attempts stop there;
   * earlier fonts all had a missing glyph.
   */
  lemma ResolveFirstSuccess(engine: Engine, fonts: FontList, codepoints: seq<char32>, clusters: seq<nat>, k: nat)
    requires k < |Candidates(fonts)| && Succeeds(engine, Candidates(fonts)[k], codepoints, clusters)
    requires forall j :: 0 <= j < k ==> !Succeeds(engine, Candidates(fonts)[j], codepoints, clusters)
    ensures Resolve(engine, fonts, codepoints, clusters) == Attempted(engine, Candidates(fonts)[k], codepoints, clusters)
    ensures !AnyMissing(Resolve(engine, fonts, codepoints, clusters))
    ensures Tried(engine, fonts, codepoints, clusters) == Candidates(fonts)[..k + 1]
  {
    FirstFoundUnique(engine, Candidates(fonts), codepoints, clusters, k);
  }

  /**
   * When every font fails, the result is the primary font's layout: same
   * length, glyphs that were found untouched, missing ones set to the U+FFFD
   * glyph (none left missing when the primary font has one); the primary font
   * is shaped twice.
   */
  lemma ResolveAllFail(engine: Engine, fonts: FontList, codepoints: seq<char32>, clusters: seq<nat>)
    requires forall j :: 0 <= j < |Candidates(fonts)| ==> !Succeeds(engine, Candidates(fonts)[j], codepoints, clusters)
    ensures var primary := Attempted(engine, fonts.primary, codepoints, clusters);
      var missing := CharIndex(fonts.primary.face, MissingGlyphId);
      var r := Resolve(engine, fonts, codepoints, clusters);
      |r| == |primary| &&
      (forall i :: 0 <= i < |r| && !GlyphMissing(primary[i]) ==> r[i] == primary[i]) &&
      (forall i :: 0 <= i < |r| && GlyphMissing(primary[i]) ==> r[i] == primary[i].(glyphIndex := missing)) &&
      (missing != 0 ==> !AnyMissing(r))
    ensures Tried(engine, fonts, codepoints, clusters) == Candidates(fonts) + [fonts.primary]
  {
    FirstFoundUnique(engine, Candidates(fonts), codepoints, clusters, |Candidates(fonts)|);
    ReplacedMissingProperties(Attempted(engine, fonts.primary, codepoints, clusters),
      CharIndex(fonts.primary.face, MissingGlyphId));
  }

  // ---------------------------------------------------------------------------
  // The shaper object
  // ---------------------------------------------------------------------------

  /** Every handle of `older` is still in `newer`, unchanged. */
  ghost predicate Keeps(older: map<Font, HbFont>, newer: map<Font, HbFont>)
  {
    forall f :: f in older ==> f in newer && newer[f] == older[f]
  }

  /**
   * The handle map and the handle count after the attempts with `fonts`, in
   * order: a font without a handle gets a new one, numbered by the count.
   */
  function Opened(handles: map<Font, HbFont>, created: nat, fonts: seq<Font>): (map<Font, HbFont>, nat)
  {
    if |fonts| == 0 then (handles, created)
    else
      var before := Opened(handles, created, fonts[..|fonts| - 1]);
      var f := fonts[|fonts| - 1];
      if f in before.0 then before else (before.0[f := HbFont(before.1)], before.1 + 1)
  }

  /** Attempts in two batches open the same handles as the batches together. */
  lemma {:induction false} OpenedAppend(handles: map<Font, HbFont>, created: nat, a: seq<Font>, b: seq<Font>)
    ensures Opened(handles, created, a + b) ==
      Opened(Opened(handles, created, a).0, Opened(handles, created, a).1, b)
  {
    if |b| == 0 {
      assert a + b == a;
    } else {
      OpenedAppend(handles, created, a, b[..|b| - 1]);
      assert (a + b)[..|a + b| - 1] == a + b[..|b| - 1];
    }
  }

  /** After the attempts, exactly the fonts tried have been added to the handle map, and existing handles are kept. */
  lemma {:induction false} OpenedKeys(handles: map<Font, HbFont>, created: nat, fonts: seq<Font>)
    ensures Opened(handles, created, fonts).0.Keys == handles.Keys + (set f: Font | f in fonts)
    ensures Keeps(handles, Opened(handles, created, fonts).0)
  {
    if |fonts| > 0 {
      var front := fonts[..|fonts| - 1];
      OpenedKeys(handles, created, front);
      assert fonts == front + [fonts[|fonts| - 1]];
      assert (set g: Font | g in fonts) == (set g: Font | g in front) + {fonts[|fonts| - 1]};
    }
  }

  /** A new handle is numbered from the old count up to the new one. */
  lemma {:induction false} OpenedSerials(handles: map<Font, HbFont>, created: nat, fonts: seq<Font>)
    ensures created <= Opened(handles, created, fonts).1
    ensures forall f :: f in Opened(handles, created, fonts).0 && f !in handles ==>
      created <= Opened(handles, created, fonts).0[f].serial < Opened(handles, created, fonts).1
  {
    if |fonts| > 0 {
      OpenedSerials(handles, created, fonts[..|fonts| - 1]);
    }
  }

  /** Two fonts that got new handles got different ones. */
  lemma {:induction false} OpenedDistinct(handles: map<Font, HbFont>, created: nat, fonts: seq<Font>)
    ensures var hs := Opened(handles, created, fonts).0;
      forall f, g :: f in hs && g in hs && f !in handles && g !in handles && f != g ==> hs[f] != hs[g]
  {
    if |fonts| > 0 {
      var front := fonts[..|fonts| - 1];
      OpenedDistinct(handles, created, front);
      OpenedSerials(handles, created, front);
    }
  }

  /** A font absent after the attempts was absent before them. */
  lemma {:induction false} OpenedFresh(handles: map<Font, HbFont>, created: nat, fonts: seq<Font>, f: Font)
    requires f !in Opened(handles, created, fonts).0
    ensures f !in handles
  {
    if |fonts| > 0 {
      OpenedFresh(handles, created, fonts[..|fonts| - 1], f);
    }
  }

  /** Adding a key that is new to both maps adds one to the keys `newer` has beyond `older`. */
  lemma OneMoreKey(older: map<Font, HbFont>, newer: map<Font, HbFont>, f: Font, h: HbFont)
    requires f !in older && f !in newer
    ensures |newer[f := h].Keys - older.Keys| == |newer.Keys - older.Keys| + 1
  {
    assert newer[f := h].Keys - older.Keys == (newer.Keys - older.Keys) + {f};
  }

  /** The count grows by exactly the number of fonts that got a new handle. */
  lemma {:induction false} OpenedCount(handles: map<Font, HbFont>, created: nat, fonts: seq<Font>)
    ensures Opened(handles, created, fonts).1 ==
      created + |Opened(handles, created, fonts).0.Keys - handles.Keys|
  {
    if |fonts| > 0 {
      var front := fonts[..|fonts| - 1];
      var f := fonts[|fonts| - 1];
      OpenedCount(handles, created, front);
      var before := Opened(handles, created, front);
      if f !in before.0 {
        OpenedFresh(handles, created, front, f);
        OneMoreKey(handles, before.0, f, HbFont(before.1));
      }
    }
  }

  /**
   * A TextShaper: the HarfBuzz font handle of each font shaped with
   * (`hb_fonts_`), the shape cache keyed by codepoints (`cache_`) and the
   * owned copies of its keys (`cacheKeys_`).
   */
  class TextShaper {
    const engine: Engine
    var handles: map<Font, HbFont>
    /** Number of `hb_font_t` handles created so far; a new handle's serial is this count. */
    var handlesCreated: nat
    var cache: map<seq<char32>, seq<GlyphPosition>>
    var cacheKeys: map<seq<char32>, seq<char32>>
    /** The fonts shaped with, in order: one entry per shaping attempt. */
    ghost var attempts: seq<Font>

    /** Every cached run has an owned key, and every owned key equals the content it is stored under. */
    ghost predicate Valid()
      reads this
    {
      cacheKeys.Keys == cache.Keys && forall k :: k in cacheKeys ==> cacheKeys[k] == k
    }

    constructor (engine: Engine)
      ensures Valid() && this.engine == engine
      ensures handles == map[] && handlesCreated == 0 && cache == map[] && cacheKeys == map[] && attempts == []
    {
      this.engine := engine;
      handles := map[];
      handlesCreated := 0;
      cache := map[];
      cacheKeys := map[];
      attempts := [];
    }

    /** The handle lookup of the attempt: reuse the font's handle, or create and record a new one. */
    method HandleFor(font: Font) returns (h: HbFont)
      modifies this
      ensures cache == old(cache) && cacheKeys == old(cacheKeys) && attempts == old(attempts)
      ensures font in old(handles) ==>
        (h == old(handles)[font] && handles == old(handles) && handlesCreated == old(handlesCreated))
      ensures font !in old(handles) ==>
        (h == HbFont(old(handlesCreated)) && handles == old(handles)[font := h] &&
         handlesCreated == old(handlesCreated) + 1)
    {
      if font in handles {
        h := handles[font];
      } else {
        h := HbFont(handlesCreated);
        handles := handles[font := h];
        handlesCreated := handlesCreated + 1;
      }
    }

    /**
     * TextShaper::shape(size, codepoints, clusters, font, result): one
     * attempt; `found` tells whether no glyph is missing.
     */
    method Attempt(font: Font, codepoints: seq<char32>, clusters: seq<nat>) returns (found: bool, positions: seq<GlyphPosition>)
      requires |clusters| == |codepoints|
      modifies this
      ensures cache == old(cache) && cacheKeys == old(cacheKeys)
      ensures positions == Attempted(engine, font, codepoints, clusters)
      ensures found <==> Succeeds(engine, font, codepoints, clusters)
      ensures attempts == old(attempts) + [font]
      ensures (handles, handlesCreated) == Opened(old(handles), old(handlesCreated), [font])
    {
      assert [font][..0] == [];
      var _ := HandleFor(font);
      attempts := attempts + [font];
      positions := ToPositions(font, engine(font, codepoints, clusters));
      found := !AnyMissing(positions);
    }

    /** TextShaper::cache: store the list under an owned copy of the key. */
    method Store(key: seq<char32>, positions: seq<GlyphPosition>)
      requires Valid()
      modifies this
      ensures Valid()
      ensures handles == old(handles) && handlesCreated == old(handlesCreated) && attempts == old(attempts)
      ensures cacheKeys == old(cacheKeys)[key := key]
      ensures cache == old(cache)[key := positions]
    {
      cacheKeys := cacheKeys[key := key];
      cache := cache[cacheKeys[key] := positions];
    }

    /**
     * The fallback loop of TextShaper::shape(fonts, ...), entered after the
     * primary font failed: `k` is the position in the candidate list of the
     * first fallback that succeeds, or the list's length when none does.
     */
    method TryFallbacks(fonts: FontList, codepoints: seq<char32>, clusters: seq<nat>) returns (k: nat, positions: seq<GlyphPosition>)
      requires |clusters| == |codepoints|
      requires !Succeeds(engine, fonts.primary, codepoints, clusters)
      modifies this
      ensures cache == old(cache) && cacheKeys == old(cacheKeys)
      ensures k == FirstFound(engine, Candidates(fonts), codepoints, clusters) && 1 <= k <= |Candidates(fonts)|
      ensures k < |Candidates(fonts)| ==> positions == Attempted(engine, Candidates(fonts)[k], codepoints, clusters)
      ensures k < |Candidates(fonts)| ==> attempts == old(attempts) + fonts.fallbacks[..k]
      ensures k < |Candidates(fonts)| ==>
        (handles, handlesCreated) == Opened(old(handles), old(handlesCreated), fonts.fallbacks[..k])
      ensures k == |Candidates(fonts)| ==> attempts == old(attempts) + fonts.fallbacks
      ensures k == |Candidates(fonts)| ==>
        (handles, handlesCreated) == Opened(old(handles), old(handlesCreated), fonts.fallbacks)
    {
      var candidates := Candidates(fonts);
      positions := [];
      for j := 0 to |fonts.fallbacks|
        invariant cache == old(cache) && cacheKeys == old(cacheKeys)
        invariant attempts == old(attempts) + fonts.fallbacks[..j]
        invariant forall i :: 0 <= i <= j ==> !Succeeds(engine, candidates[i], codepoints, clusters)
        invariant (handles, handlesCreated) == Opened(old(handles), old(handlesCreated), fonts.fallbacks[..j])
      {
        var found;
        found, positions := Attempt(fonts.fallbacks[j], codepoints, clusters);
        assert fonts.fallbacks[..j + 1] == fonts.fallbacks[..j] + [fonts.fallbacks[j]];
        OpenedAppend(old(handles), old(handlesCreated), fonts.fallbacks[..j], [fonts.fallbacks[j]]);
        assert candidates[j + 1] == fonts.fallbacks[j];
        if found {
          FirstFoundUnique(engine, candidates, codepoints, clusters, j + 1);
          return j + 1, positions;
        }
      }
      FirstFoundUnique(engine, candidates, codepoints, clusters, |candidates|);
      assert fonts.fallbacks[..|fonts.fallbacks|] == fonts.fallbacks;
      k := |candidates|;
    }

    /**
     * The last resort of TextShaper::shape(fonts, ...), entered when every
     * font failed: shape with the primary font again and replace its missing
     * glyphs by its U+FFFD glyph.
     */
    method ShapeWithReplacement(fonts: FontList, codepoints: seq<char32>, clusters: seq<nat>) returns (r: seq<GlyphPosition>)
      requires |clusters| == |codepoints|
      modifies this
      ensures cache == old(cache) && cacheKeys == old(cacheKeys)
      ensures r == ReplacedMissing(Attempted(engine, fonts.primary, codepoints, clusters),
                                   CharIndex(fonts.primary.face, MissingGlyphId))
      ensures attempts == old(attempts) + [fonts.primary]
      ensures (handles, handlesCreated) == Opened(old(handles), old(handlesCreated), [fonts.primary])
    {
      var _, positions := Attempt(fonts.primary, codepoints, clusters);
      r := ReplaceMissingGlyphs(fonts.primary, positions);
    }

    /** The cache-miss path of TextShaper::shape(fonts, ...): resolve, then cache. */
    method ShapeUncached(fonts: FontList, codepoints: seq<char32>, clusters: seq<nat>) returns (r: seq<GlyphPosition>)
      requires Valid() && |clusters| == |codepoints|
      modifies this
      ensures Valid()
      ensures r == Resolve(engine, fonts, codepoints, clusters)
      ensures cache == old(cache)[codepoints := r] && cacheKeys == old(cacheKeys)[codepoints := codepoints]
      ensures attempts == old(attempts) + Tried(engine, fonts, codepoints, clusters)
      ensures (handles, handlesCreated) == Opened(old(handles), old(handlesCreated), Tried(engine, fonts, codepoints, clusters))
    {
      var candidates := Candidates(fonts);
      var found, positions := Attempt(fonts.primary, codepoints, clusters);
      if found {
        FirstFoundUnique(engine, candidates, codepoints, clusters, 0);
        assert Tried(engine, fonts, codepoints, clusters) == [fonts.primary] by {
          assert candidates[..1] == [fonts.primary];
        }
        Store(codepoints, positions);
        return positions;
      }
      var k;
      k, positions := TryFallbacks(fonts, codepoints, clusters);
      if k == |candidates| {
        AppendAssoc(old(attempts), [fonts.primary], fonts.fallbacks);
        OpenedAppend(old(handles), old(handlesCreated), [fonts.primary], fonts.fallbacks);
        positions := ShapeWithReplacement(fonts, codepoints, clusters);
        AppendAssoc(old(attempts), candidates, [fonts.primary]);
        OpenedAppend(old(handles), old(handlesCreated), candidates, [fonts.primary]);
      } else {
        AppendAssoc(old(attempts), [fonts.primary], fonts.fallbacks[..k]);
        OpenedAppend(old(handles), old(handlesCreated), [fonts.primary], fonts.fallbacks[..k]);
        assert Tried(engine, fonts, codepoints, clusters) == [fonts.primary] + fonts.fallbacks[..k] by {
          assert candidates[..k + 1] == [fonts.primary] + fonts.fallbacks[..k];
        }
      }
      Store(codepoints, positions);
      r := positions;
    }

    /**
     * TextShaper::shape(fonts, size, codepoints, clusters): a cached run is
     * returned as stored, without shaping; otherwise the fonts are tried in
     * order and the resolved list is cached and returned.
     */
    method Shape(fonts: FontList, codepoints: seq<char32>, clusters: seq<nat>) returns (r: seq<GlyphPosition>)
      requires Valid() && |clusters| == |codepoints|
      modifies this
      ensures Valid()
      ensures codepoints in old(cache) ==>
        (r == old(cache)[codepoints] && cache == old(cache) && cacheKeys == old(cacheKeys) &&
         handles == old(handles) && handlesCreated == old(handlesCreated) && attempts == old(attempts))
      ensures codepoints !in old(cache) ==>
        (r == Resolve(engine, fonts, codepoints, clusters) &&
         cache == old(cache)[codepoints := r] && cacheKeys == old(cacheKeys)[codepoints := codepoints] &&
         attempts == old(attempts) + Tried(engine, fonts, codepoints, clusters) &&
         (handles, handlesCreated) == Opened(old(handles), old(handlesCreated), Tried(engine, fonts, codepoints, clusters)) &&
         handles.Keys == old(handles).Keys + (set f: Font | f in Tried(engine, fonts, codepoints, clusters)))
      ensures Keeps(old(handles), handles)
    {
      if codepoints in cache {
        r := cache[codepoints];
      } else {
        r := ShapeUncached(fonts, codepoints, clusters);
        OpenedKeys(old(handles), old(handlesCreated), Tried(engine, fonts, codepoints, clusters));
      }
    }

    /** TextShaper::clearCache: release the font handles; the shape cache and its keys stay. */
    method ClearCache()
      modifies this
      ensures handles == map[]
      ensures cache == old(cache) && cacheKeys == old(cacheKeys)
      ensures handlesCreated == old(handlesCreated) && attempts == old(attempts)
    {
      handles := map[];
    }
  }
}
