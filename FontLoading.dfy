/**
 * Font lookup (src/crispy/text/FontLoader.cpp): turning a font pattern into
 * file paths, and loading those files into a path-keyed cache of fonts,
 * assembled into a primary font with an ordered fallback list.
 *
 * FreeType's `FT_New_Face` and fontconfig's sorted font set are oracles.
 */
module FontLoading {
  import opened Wrappers
  import opened Fonts
  import opened TextShaping

  // ---------------------------------------------------------------------------
  // Case-insensitive suffix test
  // ---------------------------------------------------------------------------

  /** `tolower` in the "C" locale: A-Z become a-z, every other character is kept. */
  function ToLower(c: char): char
  {
    if 'A' <= c <= 'Z' then (c as int - 'A' as int + 'a' as int) as char else c
  }

  /** A string with every character lower-cased. */
  function Lowered(s: string): string
  {
    seq(|s|, i requires 0 <= i < |s| => ToLower(s[i]))
  }

  /** The text ends in the suffix, ignoring ASCII case: its last |suffix| characters lower-case to the same string. */
  predicate HasSuffixIgnoringCase(text: string, suffix: string)
  {
    |suffix| <= |text| && Lowered(text[|text| - |suffix|..]) == Lowered(suffix)
  }

  /** endsWithIgnoreCase: false for a short text, else a character-by-character comparison. */
  method EndsWithIgnoreCase(text: string, suffix: string) returns (r: bool)
    ensures r <==> HasSuffixIgnoringCase(text, suffix)
  {
    if |text| < |suffix| {
      return false;
    }
    var start := |text| - |suffix|;
    for i := 0 to |suffix|
      invariant forall j :: 0 <= j < i ==> ToLower(text[start + j]) == ToLower(suffix[j])
    {
      if ToLower(text[start + i]) != ToLower(suffix[i]) {
        assert Lowered(text[start..])[i] != Lowered(suffix)[i];
        return false;
      }
    }
    assert Lowered(text[start..]) == Lowered(suffix);
    return true;
  }

  /** Lower-casing twice is lower-casing once. */
  lemma LoweredIdempotent(s: string)
    ensures Lowered(Lowered(s)) == Lowered(s)
  {
  }

  /** A text ends in a suffix whether the suffix is appended as written or lower-cased. */
  lemma {:induction false} SuffixIgnoresCase(prefix: string, suffix: string)
    ensures HasSuffixIgnoringCase(prefix + suffix, suffix)
    ensures HasSuffixIgnoringCase(prefix + Lowered(suffix), suffix)
  {
    assert (prefix + suffix)[|prefix|..] == suffix;
    assert (prefix + Lowered(suffix))[|prefix|..] == Lowered(suffix);
    LoweredIdempotent(suffix);
  }

  /** A text shorter than the suffix never ends in it. */
  lemma ShortTextNoSuffix(text: string, suffix: string)
    requires |text| < |suffix|
    ensures !HasSuffixIgnoringCase(text, suffix)
  {
  }

  // ---------------------------------------------------------------------------
  // Font file paths of a pattern
  // ---------------------------------------------------------------------------

  /** `std::string::find(part) != npos`: the part occurs somewhere in the text. */
  predicate Contains(text: string, part: string)
    decreases |text|
  {
    |part| <= |text| && (text[..|part|] == part || Contains(text[1..], part))
  }

  /** A text that starts with `big` contains everything `big` contains. */
  lemma {:induction false} StartContains(text: string, big: string, small: string)
    requires |big| <= |text| && text[..|big|] == big && Contains(big, small)
    ensures Contains(text, small)
    decreases |big|
  {
    if big[..|small|] == small {
      assert text[..|small|] == small;
    } else {
      assert text[1..][..|big| - 1] == big[1..];
      StartContains(text[1..], big[1..], small);
    }
  }

  /** Containment is transitive. */
  lemma {:induction false} ContainsTransitive(text: string, big: string, small: string)
    requires Contains(text, big) && Contains(big, small)
    ensures Contains(text, small)
    decreases |text|
  {
    if text[..|big|] == big {
      StartContains(text, big, small);
    } else {
      ContainsTransitive(text[1..], big, small);
    }
  }

  /** Where the font file paths come from: fontconfig (Linux, macOS) or the fixed Windows table. */
  datatype Platform = Fontconfig | Windows

  /** fontconfig's sorted font set for a pattern: the files of the best match and its fallbacks. */
  type FontMatcher = string -> seq<string>

  const ConsolasBoldItalic: string := "C:\\Windows\\Fonts\\consolaz.ttf"
  const ConsolasItalic: string := "C:\\Windows\\Fonts\\consolai.ttf"
  const ConsolasBold: string := "C:\\Windows\\Fonts\\consolab.ttf"
  const Consolas: string := "C:\\Windows\\Fonts\\consola.ttf"

  /** The Windows table: the Consolas file named by the first of "bold italic", "italic", "bold" in the pattern. */
  function WindowsFontPaths(pattern: string): seq<string>
  {
    if Contains(pattern, "bold italic") then [ConsolasBoldItalic]
    else if Contains(pattern, "italic") then [ConsolasItalic]
    else if Contains(pattern, "bold") then [ConsolasBold]
    else [Consolas]
  }

  /**
   * The Windows table by the words the pattern contains: a bold and italic
   * pattern (one containing "bold italic") gets the bold italic face, any
   * other italic one the italic face, a bold one the bold face, the rest
   * the regular face. Only "bold italic" spelled out gives the bold italic face.
   */
  lemma WindowsTable(pattern: string)
    ensures WindowsFontPaths(pattern) == [ConsolasBoldItalic] <==> Contains(pattern, "bold italic")
    ensures WindowsFontPaths(pattern) == [ConsolasItalic] <==>
      Contains(pattern, "italic") && !Contains(pattern, "bold italic")
    ensures WindowsFontPaths(pattern) == [ConsolasBold] <==>
      Contains(pattern, "bold") && !Contains(pattern, "italic")
    ensures WindowsFontPaths(pattern) == [Consolas] <==>
      !Contains(pattern, "bold") && !Contains(pattern, "italic")
  {
    if Contains(pattern, "bold italic") {
      assert "bold italic"[..4] == "bold";
      assert Contains("bold italic", "bold");
      assert "bold italic"[5..][..6] == "italic";
      assert Contains("bold italic"[5..], "italic");
      assert Contains("bold italic", "italic");
      ContainsTransitive(pattern, "bold italic", "bold");
      ContainsTransitive(pattern, "bold italic", "italic");
    }
  }

  /** getFontFilePaths: a .ttf or .otf file name (any case) as is, else the platform's lookup. */
  function FontFilePaths(pattern: string, platform: Platform, matcher: FontMatcher): seq<string>
  {
    if HasSuffixIgnoringCase(pattern, ".ttf") || HasSuffixIgnoringCase(pattern, ".otf") then [pattern]
    else match platform
      case Fontconfig => matcher(pattern)
      case Windows => WindowsFontPaths(pattern)
  }

  /** A font file name, in whatever case its extension is written, is its own and only path. */
  lemma FontFileIsItsOwnPath(name: string, extension: string, platform: Platform, matcher: FontMatcher)
    requires Lowered(extension) == ".ttf" || Lowered(extension) == ".otf"
    ensures FontFilePaths(name + extension, platform, matcher) == [name + extension]
  {
    SuffixIgnoresCase(name, extension);
    assert |extension| == 4;
  }

  /** getFontFilePaths, with the suffix tests made by endsWithIgnoreCase. */
  method GetFontFilePaths(pattern: string, platform: Platform, matcher: FontMatcher) returns (paths: seq<string>)
    ensures paths == FontFilePaths(pattern, platform, matcher)
  {
    var ttf := EndsWithIgnoreCase(pattern, ".ttf");
    var otf := EndsWithIgnoreCase(pattern, ".otf");
    if ttf || otf {
      return [pattern];
    }
    match platform {
      case Fontconfig => paths := matcher(pattern);
      case Windows => paths := WindowsFontPaths(pattern);
    }
  }

  // ---------------------------------------------------------------------------
  // The font cache
  // ---------------------------------------------------------------------------

  /** The fallbacks of load after paths 1 .. n-1: their cached fonts in path order, skipping paths with none. */
  function Fallbacks(fonts: map<string, Font>, paths: seq<string>, n: nat): seq<Font>
    requires n <= |paths|
  {
    if n <= 1 then []
    else Fallbacks(fonts, paths, n - 1) + (if paths[n - 1] in fonts then [fonts[paths[n - 1]]] else [])
  }

  /** The fallbacks depend only on the entries of the paths looked at. */
  lemma {:induction false} FallbacksAgree(a: map<string, Font>, b: map<string, Font>, paths: seq<string>, n: nat)
    requires n <= |paths|
    requires forall j :: 1 <= j < n ==> (paths[j] in a <==> paths[j] in b) && (paths[j] in a ==> a[paths[j]] == b[paths[j]])
    ensures Fallbacks(a, paths, n) == Fallbacks(b, paths, n)
  {
    if n > 1 {
      FallbacksAgree(a, b, paths, n - 1);
    }
  }

  /**
   * Every fallback is the font of one of the paths after the first, there
   * are at most as many as paths, and none is skipped when every path has a font.
   */
  lemma {:induction false} FallbackFonts(fonts: map<string, Font>, paths: seq<string>, n: nat)
    requires n <= |paths|
    ensures |Fallbacks(fonts, paths, n)| <= if n == 0 then 0 else n - 1
    ensures forall f :: f in Fallbacks(fonts, paths, n) ==>
      exists j :: 1 <= j < n && paths[j] in fonts && fonts[paths[j]] == f
    ensures (forall j :: 1 <= j < n ==> paths[j] in fonts) ==> |Fallbacks(fonts, paths, n)| == if n == 0 then 0 else n - 1
  {
    if n > 1 {
      FallbackFonts(fonts, paths, n - 1);
      forall f | f in Fallbacks(fonts, paths, n)
        ensures exists j :: 1 <= j < n && paths[j] in fonts && fonts[paths[j]] == f
      {
        if f !in Fallbacks(fonts, paths, n - 1) {
          assert paths[n - 1] in fonts && fonts[paths[n - 1]] == f;
        }
      }
    }
  }

  /** The entries of `older` are kept, and new ones are only under the given paths. */
  ghost predicate Extends(older: map<string, Font>, newer: map<string, Font>, paths: seq<string>)
  {
    (forall p :: p in older ==> p in newer && newer[p] == older[p]) &&
    (forall p :: p in newer && p !in older ==> p in paths)
  }

  /**
   * The strike a font has after loadFromFilePath at `size`, given its size
   * and strike before: at a new size a colour face takes the strike closest
   * to the truncated size; otherwise the strike is kept.
   */
  ghost predicate StrikeAfterLoad(face: Face, wasSize: real, wasStrike: nat, size: real, strike: nat)
  {
    if wasSize != size && face.hasColor then IsBestStrike(face.fixedWidths, TruncateToInt(size), strike)
    else strike == wasStrike
  }

  /** Every path cached in `fonts` but not in `older` is one of paths 0 .. n-1. */
  ghost predicate NewOnlyFrom(older: map<string, Font>, fonts: map<string, Font>, paths: seq<string>, n: nat)
    requires n <= |paths|
  {
    forall p :: p in fonts && p !in older ==> p in paths[..n]
  }

  /** The fonts of `older` under paths other than 0 .. n-1 keep their size and strike. */
  ghost predicate OthersKept(older: map<string, Font>, sizes0: map<string, real>, strikes0: map<string, nat>,
                             sizes: map<string, real>, strikes: map<string, nat>, paths: seq<string>, n: nat)
    requires n <= |paths|
  {
    forall p :: p in older && p in sizes0 && p in strikes0 && p in sizes && p in strikes && p !in paths[..n] ==>
      sizes[p] == sizes0[p] && strikes[p] == strikes0[p]
  }

  /** The fonts of paths 0 .. n-1 are at `size`. */
  ghost predicate AllSized(sizes: map<string, real>, paths: seq<string>, n: nat, size: real)
    requires n <= |paths|
  {
    forall j :: 0 <= j < n && paths[j] in sizes ==> sizes[paths[j]] == size
  }

  /** The font of each of paths 0 .. n-1 has the strike StrikeAfterLoad gives when it was in `older`, else strike 0. */
  ghost predicate Struck(older: map<string, Font>, sizes0: map<string, real>, strikes0: map<string, nat>,
                         fonts: map<string, Font>, strikes: map<string, nat>, paths: seq<string>, n: nat, size: real)
    requires n <= |paths|
  {
    forall j :: 0 <= j < n && paths[j] in fonts && paths[j] in strikes ==>
      if paths[j] in older then
        paths[j] in sizes0 && paths[j] in strikes0 &&
        StrikeAfterLoad(fonts[paths[j]].face, sizes0[paths[j]], strikes0[paths[j]], size, strikes[paths[j]])
      else strikes[paths[j]] == 0
  }

  /**
   * The cache after loading paths 0 .. n-1 at `size`, against the cache
   * `older` whose sizes and strikes were `sizes0` and `strikes0`: new fonts
   * come only from those paths; the fonts of other paths keep their size
   * and strike; every font of those paths is at `size`, and has the strike
   * StrikeAfterLoad gives when it was cached, strike 0 when it is new.
   */
  ghost predicate LoadProgress(older: map<string, Font>, sizes0: map<string, real>, strikes0: map<string, nat>,
                               fonts: map<string, Font>, sizes: map<string, real>, strikes: map<string, nat>,
                               paths: seq<string>, n: nat, size: real)
    requires n <= |paths|
  {
    sizes0.Keys == older.Keys && strikes0.Keys == older.Keys &&
    sizes.Keys == fonts.Keys && strikes.Keys == fonts.Keys &&
    NewOnlyFrom(older, fonts, paths, n) &&
    OthersKept(older, sizes0, strikes0, sizes, strikes, paths, n) &&
    AllSized(sizes, paths, n, size) &&
    Struck(older, sizes0, strikes0, fonts, strikes, paths, n, size)
  }

  /**
   * One load step from `before` to `after` for path q: the cached fonts
   * stay under their paths, only q may be added (with strike 0), every
   * other font keeps its size and strike, and the font of q ends at `size`
   * with the strike StrikeAfterLoad gives.
   */
  ghost predicate LoadedOne(before: map<string, Font>, bSizes: map<string, real>, bStrikes: map<string, nat>,
                            after: map<string, Font>, aSizes: map<string, real>, aStrikes: map<string, nat>,
                            q: string, size: real)
  {
    bSizes.Keys == before.Keys && bStrikes.Keys == before.Keys &&
    aSizes.Keys == after.Keys && aStrikes.Keys == after.Keys &&
    (forall p :: p in before ==> p in after && after[p] == before[p]) &&
    (forall p :: p in after && p !in before ==> p == q && aStrikes[p] == 0) &&
    (forall p :: p in before && p != q ==> aSizes[p] == bSizes[p] && aStrikes[p] == bStrikes[p]) &&
    (q in after ==> aSizes[q] == size) &&
    (q in before ==> StrikeAfterLoad(before[q].face, bSizes[q], bStrikes[q], size, aStrikes[q]))
  }

  /** A load step adds at most path i to the new paths. */
  lemma StepNewOnly(older: map<string, Font>, before: map<string, Font>, bSizes: map<string, real>, bStrikes: map<string, nat>,
                    after: map<string, Font>, aSizes: map<string, real>, aStrikes: map<string, nat>,
                    paths: seq<string>, i: nat, size: real)
    requires i < |paths| && NewOnlyFrom(older, before, paths, i)
    requires LoadedOne(before, bSizes, bStrikes, after, aSizes, aStrikes, paths[i], size)
    ensures NewOnlyFrom(older, after, paths, i + 1)
  {
    assert paths[..i + 1] == paths[..i] + [paths[i]];
  }

  /** A load step of path i keeps the size and strike of the fonts of the paths not yet loaded. */
  lemma StepOthersKept(older: map<string, Font>, sizes0: map<string, real>, strikes0: map<string, nat>,
                       before: map<string, Font>, bSizes: map<string, real>, bStrikes: map<string, nat>,
                       after: map<string, Font>, aSizes: map<string, real>, aStrikes: map<string, nat>,
                       paths: seq<string>, i: nat, size: real)
    requires i < |paths| && (forall p :: p in older ==> p in before)
    requires OthersKept(older, sizes0, strikes0, bSizes, bStrikes, paths, i)
    requires LoadedOne(before, bSizes, bStrikes, after, aSizes, aStrikes, paths[i], size)
    ensures OthersKept(older, sizes0, strikes0, aSizes, aStrikes, paths, i + 1)
  {
    assert paths[..i + 1] == paths[..i] + [paths[i]];
  }

  /** After a load step of path i, the fonts of paths 0 .. i are at `size`. */
  lemma StepSized(before: map<string, Font>, bSizes: map<string, real>, bStrikes: map<string, nat>,
                  after: map<string, Font>, aSizes: map<string, real>, aStrikes: map<string, nat>,
                  paths: seq<string>, i: nat, size: real)
    requires i < |paths| && AllSized(bSizes, paths, i, size)
    requires LoadedOne(before, bSizes, bStrikes, after, aSizes, aStrikes, paths[i], size)
    ensures AllSized(aSizes, paths, i + 1, size)
  {
  }

  /** After a load step of path i, the fonts of paths 0 .. i have the strike Struck describes. */
  lemma StepStruck(older: map<string, Font>, sizes0: map<string, real>, strikes0: map<string, nat>,
                   before: map<string, Font>, bSizes: map<string, real>, bStrikes: map<string, nat>,
                   after: map<string, Font>, aSizes: map<string, real>, aStrikes: map<string, nat>,
                   paths: seq<string>, i: nat, size: real)
    requires i < |paths| && (forall p :: p in older ==> p in before)
    requires sizes0.Keys == older.Keys && strikes0.Keys == older.Keys
    requires NewOnlyFrom(older, before, paths, i) && AllSized(bSizes, paths, i, size)
    requires OthersKept(older, sizes0, strikes0, bSizes, bStrikes, paths, i)
    requires Struck(older, sizes0, strikes0, before, bStrikes, paths, i, size)
    requires LoadedOne(before, bSizes, bStrikes, after, aSizes, aStrikes, paths[i], size)
    ensures Struck(older, sizes0, strikes0, after, aStrikes, paths, i + 1, size)
  {
    var q := paths[i];
    if q in before {
      if q in paths[..i] {
        var k :| 0 <= k < i && paths[k] == q;
        assert bSizes[q] == size;
      }
    }
  }

  /** A load step of path i carries the progress of paths 0 .. i-1 to paths 0 .. i. */
  lemma LoadStep(older: map<string, Font>, sizes0: map<string, real>, strikes0: map<string, nat>,
                 before: map<string, Font>, bSizes: map<string, real>, bStrikes: map<string, nat>,
                 after: map<string, Font>, aSizes: map<string, real>, aStrikes: map<string, nat>,
                 paths: seq<string>, i: nat, size: real)
    requires i < |paths| && (forall p :: p in older ==> p in before)
    requires LoadProgress(older, sizes0, strikes0, before, bSizes, bStrikes, paths, i, size)
    requires LoadedOne(before, bSizes, bStrikes, after, aSizes, aStrikes, paths[i], size)
    ensures LoadProgress(older, sizes0, strikes0, after, aSizes, aStrikes, paths, i + 1, size)
  {
    StepNewOnly(older, before, bSizes, bStrikes, after, aSizes, aStrikes, paths, i, size);
    StepOthersKept(older, sizes0, strikes0, before, bSizes, bStrikes, after, aSizes, aStrikes, paths, i, size);
    StepSized(before, bSizes, bStrikes, after, aSizes, aStrikes, paths, i, size);
    StepStruck(older, sizes0, strikes0, before, bSizes, bStrikes, after, aSizes, aStrikes, paths, i, size);
  }

  class FontLoader {
    const platform: Platform
    const matcher: FontMatcher
    /** `FT_New_Face`: the face in a file, or nothing when it cannot be opened. */
    const openFace: string -> Option<Face>
    var fonts: map<string, Font>

    /** Every cached font was loaded from the path it is cached under. */
    ghost predicate Valid()
      reads this
    {
      forall p :: p in fonts ==> fonts[p].filePath == p
    }

    constructor (platform: Platform, matcher: FontMatcher, openFace: string -> Option<Face>)
      ensures Valid() && fonts == map[]
      ensures this.platform == platform && this.matcher == matcher && this.openFace == openFace
    {
      this.platform := platform;
      this.matcher := matcher;
      this.openFace := openFace;
      fonts := map[];
    }

    /**
     * FontLoader::loadFromFilePath: the cached font, resized when its size
     * differs; else a new font from the opened face, cached under the path;
     * else nothing, the cache untouched.
     */
    method LoadFromFilePath(path: string, size: real) returns (font: Font?)
      requires Valid()
      modifies this, if path in fonts then {fonts[path]} else {}
      ensures Valid()
      ensures path in old(fonts) ==>
        font == old(fonts)[path] && fonts == old(fonts) && font.fontSize == size
      ensures path in old(fonts) && old(fonts[path].fontSize) == size ==> unchanged(font)
      ensures path in old(fonts) && old(fonts[path].fontSize) != size ==>
        (font.face.hasColor ==> IsBestStrike(font.face.fixedWidths, TruncateToInt(size), font.strikeIndex)) &&
        (!font.face.hasColor ==> font.strikeIndex == old(fonts[path].strikeIndex))
      ensures path !in old(fonts) && openFace(path).None? ==> font == null && fonts == old(fonts)
      ensures path !in old(fonts) && openFace(path).Some? ==>
        font != null && fresh(font) && fonts == old(fonts)[path := font] &&
        font.filePath == path && font.face == openFace(path).value &&
        font.fontSize == size && font.strikeIndex == 0
    {
      if path in fonts {
        font := fonts[path];
        if font.fontSize != size {
          font.SetFontSize(size);
        }
        return;
      }
      match openFace(path) {
        case None =>
          font := null;
        case Some(face) =>
          font := new Font(path, face, size);
          fonts := fonts[path := font];
      }
    }

    /**
     * The cache after loading paths 0 .. n-1, starting from `older`: old
     * entries kept, new ones only for paths whose file opens, holding the
     * opened face, and each of those paths has a font iff it had one or its
     * file opens.
     */
    ghost predicate LoadedAll(older: map<string, Font>, paths: seq<string>, n: nat)
      requires n <= |paths|
      reads this
    {
      Extends(older, fonts, paths) &&
      (forall p :: p in fonts && p !in older ==> openFace(p) == Some(fonts[p].face)) &&
      (forall j :: 0 <= j < n ==> (paths[j] in fonts <==> paths[j] in older || openFace(paths[j]).Some?))
    }

    /** The size of every cached font, by path. */
    ghost function Sizes(): map<string, real>
      reads this, fonts.Values
    {
      map p | p in fonts :: fonts[p].fontSize
    }

    /** The strike index of every cached font, by path. */
    ghost function Strikes(): map<string, nat>
      reads this, fonts.Values
    {
      map p | p in fonts :: fonts[p].strikeIndex
    }

    /**
     * Load has handled paths 0 .. n-1 at `size`, starting from the cache
     * `older` with sizes `sizes0` and strikes `strikes0`.
     */
    ghost predicate Loading(older: map<string, Font>, sizes0: map<string, real>, strikes0: map<string, nat>,
                            paths: seq<string>, n: nat, size: real)
      requires n <= |paths|
      reads this, fonts.Values
    {
      Valid() && LoadedAll(older, paths, n) &&
      LoadProgress(older, sizes0, strikes0, fonts, Sizes(), Strikes(), paths, n, size)
    }

    /**
     * loadFromFilePath of path i, as load calls it: the cache grows by at
     * most that path, the font of every other path is untouched, and the
     * font of the path ends at `size` with the strike StrikeAfterLoad gives.
     */
    method LoadOne(ghost older: map<string, Font>, paths: seq<string>, i: nat, size: real) returns (font: Font?)
      requires i < |paths| && Valid() && LoadedAll(older, paths, i)
      modifies this, if paths[i] in fonts then {fonts[paths[i]]} else {}
      ensures Valid() && LoadedAll(older, paths, i + 1)
      ensures Extends(old(fonts), fonts, [paths[i]])
      ensures (font != null <==> paths[i] in fonts) && (font != null ==> fonts[paths[i]] == font)
      ensures Fallbacks(fonts, paths, i) == Fallbacks(old(fonts), paths, i)
      ensures forall p :: p in fonts ==> p in old(fonts) || fresh(fonts[p])
      ensures forall p :: p in old(fonts) && p != paths[i] ==> unchanged(old(fonts)[p])
      ensures paths[i] in fonts ==> fonts[paths[i]].fontSize == size
      ensures paths[i] in old(fonts) ==>
        StrikeAfterLoad(fonts[paths[i]].face, old(fonts[paths[i]].fontSize), old(fonts[paths[i]].strikeIndex),
                        size, fonts[paths[i]].strikeIndex)
      ensures paths[i] in fonts && paths[i] !in old(fonts) ==> fonts[paths[i]].strikeIndex == 0
      ensures font == null ==> fonts == old(fonts) && Sizes() == old(Sizes()) && Strikes() == old(Strikes())
    {
      ghost var before := fonts;
      font := LoadFromFilePath(paths[i], size);
      forall j | 0 <= j < i && paths[j] == paths[i]
        ensures paths[j] in fonts <==> paths[j] in before
      {
      }
      assert paths[i] in paths;
      FallbacksAgree(before, fonts, paths, i);
      forall p | p in before && p != paths[i]
        ensures unchanged(before[p])
      {
        assert before[p].filePath == p;
      }
    }

    /**
     * The facts LoadOne ensures for path `q`, given the cache `before` and its
     * sizes `bSizes` and strikes `bStrikes` before the call, as snapshots of
     * the cache's sizes and strikes after it.
     */
    lemma LoadedOneSnapshots(before: map<string, Font>, bSizes: map<string, real>, bStrikes: map<string, nat>,
                             q: string, size: real)
      requires bSizes.Keys == before.Keys && bStrikes.Keys == before.Keys
      requires Extends(before, fonts, [q])
      requires forall p :: p in before && p != q ==> before[p].fontSize == bSizes[p] && before[p].strikeIndex == bStrikes[p]
      requires q in fonts ==> fonts[q].fontSize == size
      requires q in before ==> StrikeAfterLoad(fonts[q].face, bSizes[q], bStrikes[q], size, fonts[q].strikeIndex)
      requires q in fonts && q !in before ==> fonts[q].strikeIndex == 0
      ensures LoadedOne(before, bSizes, bStrikes, fonts, Sizes(), Strikes(), q, size)
    {
    }

    /** One path of load, with the progress of the load carried from paths 0 .. i-1 to paths 0 .. i. */
    method LoadNext(ghost older: map<string, Font>, ghost sizes0: map<string, real>, ghost strikes0: map<string, nat>,
                    paths: seq<string>, i: nat, size: real) returns (font: Font?)
      requires i < |paths| && Loading(older, sizes0, strikes0, paths, i, size)
      modifies this, if paths[i] in fonts then {fonts[paths[i]]} else {}
      ensures Loading(older, sizes0, strikes0, paths, i + 1, size)
      ensures Extends(old(fonts), fonts, [paths[i]])
      ensures (font != null <==> paths[i] in fonts) && (font != null ==> fonts[paths[i]] == font)
      ensures Fallbacks(fonts, paths, i) == Fallbacks(old(fonts), paths, i)
      ensures forall p :: p in fonts ==> p in old(fonts) || fresh(fonts[p])
      ensures forall p :: p in old(fonts) && p != paths[i] ==> unchanged(old(fonts)[p])
      ensures font != null ==> font.fontSize == size
      ensures font == null ==> fonts == old(fonts) && Sizes() == old(Sizes()) && Strikes() == old(Strikes())
    {
      ghost var before, bSizes, bStrikes := fonts, Sizes(), Strikes();
      font := LoadOne(older, paths, i, size);
      LoadedOneSnapshots(before, bSizes, bStrikes, paths[i], size);
      LoadStep(older, sizes0, strikes0, before, bSizes, bStrikes, fonts, Sizes(), Strikes(), paths, i, size);
    }

    /** One pass of load's fallback loop: load path i and push its font, if any, onto the fallbacks. */
    method LoadFallback(ghost older: map<string, Font>, ghost sizes0: map<string, real>, ghost strikes0: map<string, nat>,
                        paths: seq<string>, i: nat, size: real, fallbacks: seq<Font>)
      returns (fallbacks': seq<Font>)
      requires 1 <= i < |paths| && Loading(older, sizes0, strikes0, paths, i, size)
      requires fallbacks == Fallbacks(fonts, paths, i)
      requires forall f :: f in fallbacks ==> f.fontSize == size
      modifies this, fonts.Values
      ensures Loading(older, sizes0, strikes0, paths, i + 1, size)
      ensures fallbacks' == Fallbacks(fonts, paths, i + 1)
      ensures forall f :: f in fallbacks' ==> f.fontSize == size
      ensures Extends(old(fonts), fonts, [paths[i]])
      ensures forall p :: p in fonts ==> p in old(fonts) || fresh(fonts[p])
      ensures forall p :: p in old(fonts) && p != paths[i] ==> unchanged(old(fonts)[p])
    {
      ghost var reloaded := if paths[i] in fonts then fonts[paths[i]] else null;
      var font := LoadNext(older, sizes0, strikes0, paths, i, size);
      forall f | f in fallbacks
        ensures f.fontSize == size
      {
        if f == reloaded {
          assert f == font;
        }
      }
      fallbacks' := fallbacks;
      if font != null {
        fallbacks' := fallbacks + [font];
      }
    }

    /**
     * The fallback loop of load, entered once the primary font (path 0) has
     * loaded: paths 1 .. |paths|-1 loaded in order, their fonts collected.
     */
    method LoadFallbacks(ghost older: map<string, Font>, ghost sizes0: map<string, real>, ghost strikes0: map<string, nat>,
                         paths: seq<string>, size: real) returns (fallbacks: seq<Font>)
      requires 1 <= |paths| && paths[0] in fonts && Loading(older, sizes0, strikes0, paths, 1, size)
      modifies this, fonts.Values
      ensures paths[0] in fonts && Loading(older, sizes0, strikes0, paths, |paths|, size)
      ensures fallbacks == Fallbacks(fonts, paths, |paths|)
      ensures forall f :: f in fallbacks ==> f.fontSize == size
      ensures forall p :: p in old(fonts) ==> p in fonts && fonts[p] == old(fonts)[p]
      ensures forall p :: p in fonts ==> p in old(fonts) || fresh(fonts[p])
    {
      fallbacks := [];
      var i := 1;
      while i < |paths|
        invariant 1 <= i <= |paths| && Loading(older, sizes0, strikes0, paths, i, size)
        invariant fallbacks == Fallbacks(fonts, paths, i)
        invariant forall f :: f in fallbacks ==> f.fontSize == size
        invariant forall p :: p in old(fonts) ==> p in fonts && fonts[p] == old(fonts)[p]
        invariant forall p :: p in fonts ==> p in old(fonts) || fresh(fonts[p])
      {
        fallbacks := LoadFallback(older, sizes0, strikes0, paths, i, size, fallbacks);
        i := i + 1;
      }
    }

    /** At the end of the fallback loop the cache is the one LoadedFonts describes. */
    lemma FallbacksLoaded(older: map<string, Font>, sizes0: map<string, real>, strikes0: map<string, nat>,
                          paths: seq<string>, size: real, fallbacks: seq<Font>)
      requires 1 <= |paths| && paths[0] in fonts && Loading(older, sizes0, strikes0, paths, |paths|, size)
      requires fallbacks == Fallbacks(fonts, paths, |paths|)
      requires forall f :: f in fallbacks ==> f.fontSize == size
      ensures LoadedFonts(older, sizes0, strikes0, paths, size, fonts[paths[0]], fallbacks)
    {
      assert Sizes()[paths[0]] == size;
      FallbackFonts(fonts, paths, |paths|);
    }

    /**
     * The cache after load of `paths` at `size` succeeded with `primary` and
     * `fallbacks`, against the cache `older` with sizes `sizes0` and strikes
     * `strikes0`: the first path's font is the primary, the fonts of the
     * other paths that loaded are the fallbacks in path order, all cached
     * and at `size`, and every path has made the progress LoadProgress
     * describes, which keeps the size and strike, the only state of a font
     * that changes, of the fonts of all other paths.
     */
    ghost predicate LoadedFonts(older: map<string, Font>, sizes0: map<string, real>, strikes0: map<string, nat>,
                                paths: seq<string>, size: real, primary: Font, fallbacks: seq<Font>)
      requires paths != []
      reads this, fonts.Values
    {
      paths[0] in fonts && primary == fonts[paths[0]] && fonts[paths[0]].fontSize == size &&
      fallbacks == Fallbacks(fonts, paths, |paths|) &&
      (forall f :: f in fallbacks ==> f in fonts.Values && f.fontSize == size) &&
      LoadedAll(older, paths, |paths|) &&
      LoadProgress(older, sizes0, strikes0, fonts, Sizes(), Strikes(), paths, |paths|, size)
    }

    /**
     * What load of `paths` (the paths of `pattern`) at `size` leaves, against
     * the cache `older` with sizes `sizes0` and strikes `strikes0`: failure
     * exactly when the first path was not cached and does not open, with the
     * cache and every size and strike unchanged; otherwise the fonts
     * LoadedFonts describes.
     */
    ghost predicate LoadOutcome(older: map<string, Font>, sizes0: map<string, real>, strikes0: map<string, nat>,
                                pattern: string, paths: seq<string>, size: real, r: Result<FontList>)
      requires paths != []
      reads this, fonts.Values
    {
      (r.Failure? <==> paths[0] !in older && openFace(paths[0]).None?) &&
      (r.Failure? ==>
        fonts == older && Sizes() == sizes0 && Strikes() == strikes0 &&
        r.error == "Failed to load primary font \"" + pattern + "\".") &&
      (r.Success? ==> LoadedFonts(older, sizes0, strikes0, paths, size, r.value.primary, r.value.fallbacks))
    }

    /** The body of load once the font file paths are known. */
    method LoadPaths(pattern: string, paths: seq<string>, size: real) returns (r: Result<FontList>)
      requires Valid() && paths != []
      modifies this, fonts.Values
      ensures Valid()
      ensures LoadOutcome(old(fonts), old(Sizes()), old(Strikes()), pattern, paths, size, r)
      ensures forall p :: p in fonts ==> p in old(fonts) || fresh(fonts[p])
    {
      ghost var sizes0, strikes0 := Sizes(), Strikes();
      var primary := LoadNext(old(fonts), sizes0, strikes0, paths, 0, size);
      if primary == null {
        return Failure("Failed to load primary font \"" + pattern + "\".");
      }
      var fallbacks := LoadFallbacks(old(fonts), sizes0, strikes0, paths, size);
      FallbacksLoaded(old(fonts), sizes0, strikes0, paths, size, fallbacks);
      return Success(FontList(primary, fallbacks));
    }

    /**
     * FontLoader::load: the first path is the primary font, and failing to
     * load it is an error; the fonts of the other paths follow as fallbacks
     * in path order, those that fail to load skipped. Every font of the
     * paths ends at the requested size with the strike loadFromFilePath
     * gives it; the fonts of other paths are untouched.
     */
    method Load(pattern: string, size: real) returns (r: Result<FontList>)
      requires Valid() && FontFilePaths(pattern, platform, matcher) != []
      modifies this, fonts.Values
      ensures Valid()
      ensures LoadOutcome(old(fonts), old(Sizes()), old(Strikes()), pattern, FontFilePaths(pattern, platform, matcher), size, r)
      ensures forall p :: p in fonts ==> p in old(fonts) || fresh(fonts[p])
    {
      var paths := GetFontFilePaths(pattern, platform, matcher);
      r := LoadPaths(pattern, paths, size);
    }
  }
}
