/**
 * The editing panel: the partly typed colour and font inputs it keeps, and
 * the records it hands to `onChange`. Every record it emits is a copy of the
 * `data` it was rendered with, with one collection changed.
 */
module InputPanel {
  import opened Wrappers
  import opened Text
  import opened ColorMath
  import opened Ids
  import opened BrandStore
  import opened LinkCodec
  import opened Collections

  // ----- the records emitted -----

  /** `{ ...data, colors: [...data.colors, c] }`: after it there is something to share. */
  function WithColor(d: BrandData, c: BrandColor): (r: BrandData)
    ensures r.colors == d.colors + [c]
    ensures r.brandName == d.brandName && r.fonts == d.fonts && r.logos == d.logos
    ensures ShareGate(r) && HasContent(r)
  {
    d.(colors := d.colors + [c])
  }

  /** `removeColor(id)`: no colour with that id is left, and nothing else changes. */
  function WithoutColor(d: BrandData, id: string): (r: BrandData)
    ensures forall k :: 0 <= k < |r.colors| ==> r.colors[k].id != id
    ensures |r.colors| <= |d.colors|
    ensures r.brandName == d.brandName && r.fonts == d.fonts && r.logos == d.logos
  {
    d.(colors := Without(d.colors, ColorId, id))
  }

  /** `{ ...data, fonts: [...data.fonts, f] }`: after it there is something to share. */
  function WithFont(d: BrandData, f: BrandFont): (r: BrandData)
    ensures r.fonts == d.fonts + [f]
    ensures r.brandName == d.brandName && r.colors == d.colors && r.logos == d.logos
    ensures ShareGate(r) && HasContent(r)
  {
    d.(fonts := d.fonts + [f])
  }

  /** `removeFont(id)`: no font with that id is left, and nothing else changes. */
  function WithoutFont(d: BrandData, id: string): (r: BrandData)
    ensures forall k :: 0 <= k < |r.fonts| ==> r.fonts[k].id != id
    ensures |r.fonts| <= |d.fonts|
    ensures r.brandName == d.brandName && r.colors == d.colors && r.logos == d.logos
  {
    d.(fonts := Without(d.fonts, FontId, id))
  }

  /** `{ ...data, logos: [...data.logos, l] }`: the button is enabled, the share gate unmoved. */
  function WithLogo(d: BrandData, l: BrandLogo): (r: BrandData)
    ensures r.logos == d.logos + [l]
    ensures r.brandName == d.brandName && r.colors == d.colors && r.fonts == d.fonts
    ensures HasContent(r) && HasUnsharableAssets(r).hasLogos && ShareGate(r) == ShareGate(d)
  {
    d.(logos := d.logos + [l])
  }

  /** `removeLogo(id)`: no logo with that id is left, and nothing else changes. */
  function WithoutLogo(d: BrandData, id: string): (r: BrandData)
    ensures forall k :: 0 <= k < |r.logos| ==> r.logos[k].id != id
    ensures |r.logos| <= |d.logos|
    ensures r.brandName == d.brandName && r.colors == d.colors && r.fonts == d.fonts
  {
    d.(logos := Without(d.logos, LogoId, id))
  }

  /** The brand-name input's `onChange`: the name alone never decides what can be shared. */
  function WithBrandName(d: BrandData, name: string): (r: BrandData)
    ensures r.brandName == name && r.colors == d.colors && r.fonts == d.fonts && r.logos == d.logos
    ensures ShareGate(r) == ShareGate(d) && HasContent(r) == HasContent(d)
  {
    d.(brandName := name)
  }

  /** Removing a colour keeps the other colours in order and leaves the rest of the record alone. */
  lemma RemoveColorEffect(d: BrandData, id: string, extra: seq<BrandColor>)
    ensures var r := WithoutColor(d, id);
      && r.brandName == d.brandName && r.fonts == d.fonts && r.logos == d.logos
      && (forall c :: c in r.colors <==> c in d.colors && c.id != id)
      && WithoutColor(d.(colors := d.colors + extra), id).colors == r.colors + Without(extra, ColorId, id)
  {
    forall c { WithoutMembers(d.colors, ColorId, id, c); }
    WithoutConcat(d.colors, extra, ColorId, id);
  }

  /** Removing a font keeps the other fonts in order and leaves the rest of the record alone. */
  lemma RemoveFontEffect(d: BrandData, id: string, extra: seq<BrandFont>)
    ensures var r := WithoutFont(d, id);
      && r.brandName == d.brandName && r.colors == d.colors && r.logos == d.logos
      && (forall f :: f in r.fonts <==> f in d.fonts && f.id != id)
      && WithoutFont(d.(fonts := d.fonts + extra), id).fonts == r.fonts + Without(extra, FontId, id)
  {
    forall f { WithoutMembers(d.fonts, FontId, id, f); }
    WithoutConcat(d.fonts, extra, FontId, id);
  }

  /** Removing a logo keeps the other logos in order and leaves the rest of the record alone. */
  lemma RemoveLogoEffect(d: BrandData, id: string, extra: seq<BrandLogo>)
    ensures var r := WithoutLogo(d, id);
      && r.brandName == d.brandName && r.colors == d.colors && r.fonts == d.fonts
      && (forall l :: l in r.logos <==> l in d.logos && l.id != id)
      && WithoutLogo(d.(logos := d.logos + extra), id).logos == r.logos + Without(extra, LogoId, id)
  {
    forall l { WithoutMembers(d.logos, LogoId, id, l); }
    WithoutConcat(d.logos, extra, LogoId, id);
  }

  /** Removing an id no item has leaves the record as it was. */
  lemma RemoveAbsentId(d: BrandData, id: string)
    requires forall k :: 0 <= k < |d.colors| ==> d.colors[k].id != id
    requires forall k :: 0 <= k < |d.fonts| ==> d.fonts[k].id != id
    requires forall k :: 0 <= k < |d.logos| ==> d.logos[k].id != id
    ensures WithoutColor(d, id) == d && WithoutFont(d, id) == d && WithoutLogo(d, id) == d
  {
    WithoutAbsent(d.colors, ColorId, id);
    WithoutAbsent(d.fonts, FontId, id);
    WithoutAbsent(d.logos, LogoId, id);
  }

  /** Removing what was just added, under an id nothing else has, undoes the addition. */
  lemma RemoveUndoesAdd(d: BrandData, c: BrandColor, f: BrandFont, l: BrandLogo)
    requires forall k :: 0 <= k < |d.colors| ==> d.colors[k].id != c.id
    requires forall k :: 0 <= k < |d.fonts| ==> d.fonts[k].id != f.id
    requires forall k :: 0 <= k < |d.logos| ==> d.logos[k].id != l.id
    ensures WithoutColor(WithColor(d, c), c.id) == d
    ensures WithoutFont(WithFont(d, f), f.id) == d
    ensures WithoutLogo(WithLogo(d, l), l.id) == d
  {
    WithoutAppended(d.colors, c, ColorId);
    WithoutAppended(d.fonts, f, FontId);
    WithoutAppended(d.logos, l, LogoId);
  }

  /** Renaming the brand leaves every parameter of the share link other than `name` as it was. */
  lemma RenameKeepsOtherParams(d: BrandData, name: string)
    ensures forall key :: key != "name" ==> Get(EncodedParams(WithBrandName(d, name)), key) == Get(EncodedParams(d), key)
  {
    EncodedFields(WithBrandName(d, name));
    EncodedFields(d);
  }

  /** Renaming the brand changes the name the share link carries (none for an empty name) and nothing else. */
  lemma RenameReachesLink(d: BrandData, name: string)
    ensures Get(EncodedParams(WithBrandName(d, name)), "name") == if name == [] then None else Some(name)
    ensures forall key :: key != "name" ==> Get(EncodedParams(WithBrandName(d, name)), key) == Get(EncodedParams(d), key)
  {
    EncodedFields(WithBrandName(d, name));
    RenameKeepsOtherParams(d, name);
  }

  // ----- the colour input -----

  /** The colour input with a `#` put in front when it has none. */
  function NormalizeHex(s: string): (h: string)
    ensures |h| > 0 && h[0] == '#'
  {
    if |s| > 0 && s[0] == '#' then s else "#" + s
  }

  /** The input is accepted exactly when it is six hex digits, with or without one `#` in front. */
  lemma NormalizeHexAccepts(s: string)
    ensures IsHexColor(NormalizeHex(s)) <==> IsHex6(s) || IsHexColor(s)
  {
    if !(|s| > 0 && s[0] == '#') {
      assert NormalizeHex(s)[1..] == s;
      if IsHex6(s) {
        assert s[0] != '#';
      }
    }
  }

  /** Putting the `#` in front twice is the same as once. */
  lemma NormalizeHexIdempotent(s: string)
    ensures NormalizeHex(NormalizeHex(s)) == NormalizeHex(s)
  {
  }

  /** `colorName || hex`: the typed name, or the hex when none was typed. */
  function ColorName(typed: string, hex: string): (name: string)
    ensures typed != [] ==> name == typed
    ensures typed == [] ==> name == hex
    ensures IsHexColor(hex) ==> name != []
  {
    if typed != [] then typed else hex
  }

  // ----- the font input -----

  /** The characters `String.prototype.trim` removes: ECMAScript white space and line terminators. */
  predicate IsJsWhitespace(c: char) {
    || ('\U{9}' <= c <= '\U{D}') || c == ' ' || c == '\U{A0}' || c == '\U{1680}'
    || ('\U{2000}' <= c <= '\U{200A}') || c == '\U{2028}' || c == '\U{2029}'
    || c == '\U{202F}' || c == '\U{205F}' || c == '\U{3000}' || c == '\U{FEFF}'
  }

  /** `!s.trim()`: nothing is left once the white space at both ends is gone. */
  predicate IsBlank(s: string) {
    forall i :: 0 <= i < |s| ==> IsJsWhitespace(s[i])
  }

  /**
   * The name `addGoogleFont` would use: `None` for a blank input, and for a
   * URL that gives no name or an empty one.
   */
  function FontNameToAdd(lookup: FamilyLookup, url: string): (name: Option<string>)
    ensures name.Some? <==> !IsBlank(url) && ExtractGoogleFontName(lookup, url).Some? && ExtractGoogleFontName(lookup, url).value != []
    ensures name.Some? ==> name == ExtractGoogleFontName(lookup, url)
  {
    if IsBlank(url) then None
    else match ExtractGoogleFontName(lookup, url)
      case None => None
      case Some(n) => if n == [] then None else Some(n)
  }

  /** An URL of white space alone never reaches the parser. */
  lemma BlankUrlAddsNothing(lookup: FamilyLookup)
    ensures FontNameToAdd(lookup, " \t\n") == None
    ensures FontNameToAdd(lookup, "") == None
  {
    assert IsBlank(" \t\n") by {
      assert forall i :: 0 <= i < 3 ==> IsJsWhitespace(" \t\n"[i]);
    }
  }

  // ----- the logo name -----

  /** The last position of `c` in `s`, or -1. */
  function LastIndexOf(s: string, c: char): (i: int)
    ensures -1 <= i < |s|
    ensures i >= 0 ==> s[i] == c
    ensures forall j :: i < j < |s| ==> s[j] != c
  {
    if |s| == 0 then -1
    else if s[|s| - 1] == c then |s| - 1
    else LastIndexOf(s[..|s| - 1], c)
  }

  /** `/\.[^.]+$/` matches `name` at `p`: a dot there, then one or more non-dots to the end. */
  predicate ExtensionAt(name: string, p: int) {
    && 0 <= p < |name| - 1 && name[p] == '.'
    && forall j :: p < j < |name| ==> name[j] != '.'
  }

  /** `name.replace(/\.[^.]+$/, '')`: the extension cut off, when there is one. */
  function StripExtension(name: string): (r: string)
    ensures forall p :: ExtensionAt(name, p) ==> r == name[..p]
    ensures (forall p :: !ExtensionAt(name, p)) ==> r == name
  {
    var p := LastIndexOf(name, '.');
    if 0 <= p < |name| - 1 then assert ExtensionAt(name, p); name[..p] else name
  }

  /** `logo.png` becomes `logo`, `a.b.svg` becomes `a.b`, and only the last extension goes. */
  lemma StripLastExtension(base: string, ext: string)
    requires ext != [] && '.' !in ext
    ensures StripExtension(base + "." + ext) == base
  {
    var name := base + "." + ext;
    assert ExtensionAt(name, |base|) by {
      forall j | |base| < j < |name| ensures name[j] != '.' {
        assert name[j] == ext[j - |base| - 1];
      }
    }
    assert name[..|base|] == base;
  }

  /** A name without a dot, or ending in one, is kept whole. */
  lemma StripKeeps(name: string)
    requires '.' !in name || (|name| > 0 && name[|name| - 1] == '.')
    ensures StripExtension(name) == name
  {
    forall p ensures !ExtensionAt(name, p) {
      if 0 <= p < |name| {
        assert name[p] in name;
      }
    }
  }

  // ----- sharing -----

  /** `handleShare` goes on only with a colour or a font. */
  predicate ShareGate(d: BrandData) {
    |d.colors| > 0 || |d.fonts| > 0
  }

  /** The panel's `hasContent`, which enables the share button, also counts logos. */
  predicate HasContent(d: BrandData): (b: bool)
    ensures b <==> ShareGate(d) || HasUnsharableAssets(d).hasLogos
  {
    |d.colors| > 0 || |d.fonts| > 0 || |d.logos| > 0
  }

  /** The parameters `handleShare` puts in the link, or `None` when it does nothing. */
  function ShareParams(d: BrandData): (p: Option<Params>)
    ensures p.Some? <==> ShareGate(d)
    ensures p.Some? ==> p.value == EncodedParams(d)
  {
    if ShareGate(d) then Some(EncodedParams(d)) else None
  }

  /** A record with only logos enables the button, yet sharing it does nothing. */
  lemma LogosOnlyShareNothing(d: BrandData)
    requires d.colors == [] && d.fonts == [] && d.logos != []
    ensures HasContent(d) && ShareParams(d) == None && HasUnsharableAssets(d).hasLogos
  {
  }

  /** The empty record the store starts from enables nothing and shares nothing. */
  lemma DefaultHasNothing()
    ensures !HasContent(DefaultBrandData) && !HasUnsharableAssets(DefaultBrandData).hasLogos
    ensures ShareParams(DefaultBrandData) == None
  {
  }

  /**
   * For a record whose colours are stored ones and whose font URLs hold no
   * `|`, sharing goes on exactly when its link brings back a colour or a font.
   */
  lemma ShareIffLinkCarries(d: BrandData, lookup: FamilyLookup)
    requires ShareableColors(d.colors) && ShareableFonts(d.fonts, lookup)
    ensures DecodedView(EncodedParams(d), lookup).Shared?
    ensures ShareParams(d).Some? <==>
      DecodedView(EncodedParams(d), lookup).value.colors != [] || DecodedView(EncodedParams(d), lookup).value.fonts != []
  {
    RoundTrip(d, lookup);
  }

  /**
   * For a record whose colours are stored ones and whose font URLs hold no
   * `|`, `hasUnsharableAssets` reports logos exactly when its link brings
   * back fewer items than the record holds.
   */
  lemma LinkDropsExactlyLogos(d: BrandData, lookup: FamilyLookup)
    requires ShareableColors(d.colors) && ShareableFonts(d.fonts, lookup)
    ensures DecodedView(EncodedParams(d), lookup).Shared?
    ensures var v := DecodedView(EncodedParams(d), lookup).value;
      HasUnsharableAssets(d).hasLogos <==> |v.colors| + |v.fonts| < |d.colors| + |d.fonts| + |d.logos|
  {
    RoundTrip(d, lookup);
  }

  /**
   * What is shared comes back from its link as it was, logos aside, when
   * the font URLs hold no `|`.
   */
  lemma ShareRoundTrip(d: BrandData, lookup: FamilyLookup)
    requires ShareGate(d) && ShareableColors(d.colors) && ShareableFonts(d.fonts, lookup)
    ensures DecodedView(ShareParams(d).value, lookup) == Shared(ViewOf(d))
  {
    RoundTrip(d, lookup);
  }

  /** The colour `addColor` adds has a valid hex and a non-empty name, so stored colours stay shareable. */
  lemma AddedColorShareable(d: BrandData, id: string, typed: string, input: string)
    requires ShareableColors(d.colors) && IsHexColor(NormalizeHex(input))
    ensures var hex := NormalizeHex(input);
      ShareableColors(WithColor(d, BrandColor(id, hex, ColorName(typed, hex))).colors)
  {
  }

  /**
   * The font `addGoogleFont` adds keeps the fonts shareable when its URL
   * holds no `|`: the URL is not blank and names the font.
   */
  lemma AddedFontShareable(d: BrandData, lookup: FamilyLookup, id: string, url: string)
    requires ShareableFonts(d.fonts, lookup) && FontNameToAdd(lookup, url).Some? && '|' !in url
    ensures var name := FontNameToAdd(lookup, url).value;
      ShareableFonts(WithFont(d, BrandFont(id, name, Google, url, name)).fonts, lookup)
  {
  }

  // ----- uploads -----

  /** The logo made for a picked file under id `id`. */
  function LogoOf(file: SelectedFile, id: string): (l: BrandLogo)
    ensures l.url == file.objectUrl && l.file == Some(file)
  {
    BrandLogo(id, StripExtension(file.name), file.objectUrl, Some(file))
  }

  /** The records an upload of `files` emits: each is `data` with that one file's logo added. */
  ghost predicate UploadRecords(emitted: seq<BrandData>, data: BrandData, files: seq<SelectedFile>,
                                clock: nat -> int, start: nat): (b: bool)
    ensures b ==> forall k :: 0 <= k < |emitted| ==>
      |emitted[k].logos| == |data.logos| + 1 && emitted[k].colors == data.colors && emitted[k].fonts == data.fonts
  {
    |emitted| == |files| && EachFrom(emitted, data, files, IdRange(clock, start, |files|))
  }

  /** Each record is `data` with the logo of the file at its place, under the id at its place. */
  ghost predicate EachFrom(emitted: seq<BrandData>, data: BrandData, files: seq<SelectedFile>, ids: seq<string>)
    requires |emitted| == |ids| == |files|
  {
    forall k :: 0 <= k < |files| ==> emitted[k] == WithLogo(data, LogoOf(files[k], ids[k]))
  }

  /** Emitting the record for the next file, built from `data` under the next id, keeps every record built from `data`. */
  lemma EachFromStep(emitted: seq<BrandData>, data: BrandData, files: seq<SelectedFile>,
                     clock: nat -> int, start: nat, i: nat, counter: nat, id: string)
    requires i < |files| && |emitted| == i && EachFrom(emitted, data, files[..i], IdRange(clock, start, i))
    requires counter == start + i + 1 && id == FormatId(clock(counter), counter)
    ensures EachFrom(emitted + [WithLogo(data, LogoOf(files[i], id))], data, files[..i + 1], IdRange(clock, start, i + 1))
  {
    assert files[..i + 1] == files[..i] + [files[i]];
    IdRangeSnoc(clock, start, i, id);
  }

  /**
   * `onChange` replaces the record, so what remains after an upload is the
   * record emitted last: the old logos and the last file's, and no other.
   */
  lemma UploadKeepsOnlyLast(emitted: seq<BrandData>, data: BrandData, files: seq<SelectedFile>,
                            clock: nat -> int, start: nat)
    requires UploadRecords(emitted, data, files, clock, start) && |files| > 0
    ensures emitted[|emitted| - 1].logos == data.logos + [LogoOf(files[|files| - 1], IdRange(clock, start, |files|)[|files| - 1])]
    ensures |files| >= 2 ==> |emitted[|emitted| - 1].logos| < |data.logos| + |files|
  {
  }

  /**
   * The upload as evidently intended: each record is the one before it
   * (the first: `data`) with one more file's logo.
   */
  ghost predicate Threaded(emitted: seq<BrandData>, data: BrandData, files: seq<SelectedFile>, ids: seq<string>)
    requires |emitted| == |ids| == |files|
  {
    && (|files| > 0 ==> emitted[0] == WithLogo(data, LogoOf(files[0], ids[0])))
    && forall k :: 0 < k < |files| ==> emitted[k] == WithLogo(emitted[k - 1], LogoOf(files[k], ids[k]))
  }

  /** The record the next upload builds on: the last one emitted, or `data` before the first. */
  function Latest(emitted: seq<BrandData>, data: BrandData): BrandData {
    if emitted == [] then data else emitted[|emitted| - 1]
  }

  /** Emitting the record for the next file, built on the latest under the next id, keeps the records threaded. */
  lemma ThreadedStep(emitted: seq<BrandData>, data: BrandData, files: seq<SelectedFile>,
                     clock: nat -> int, start: nat, i: nat, counter: nat, id: string)
    requires i < |files| && |emitted| == i && Threaded(emitted, data, files[..i], IdRange(clock, start, i))
    requires counter == start + i + 1 && id == FormatId(clock(counter), counter)
    ensures Threaded(emitted + [WithLogo(Latest(emitted, data), LogoOf(files[i], id))], data,
                     files[..i + 1], IdRange(clock, start, i + 1))
  {
    assert files[..i + 1] == files[..i] + [files[i]];
    IdRangeSnoc(clock, start, i, id);
  }

  ghost predicate AccumulatedRecords(emitted: seq<BrandData>, data: BrandData, files: seq<SelectedFile>,
                                     clock: nat -> int, start: nat)
  {
    |emitted| == |files| && Threaded(emitted, data, files, IdRange(clock, start, |files|))
  }

  /** The logos of the files, under the ids given, in order. */
  function LogosOf(files: seq<SelectedFile>, ids: seq<string>): (ls: seq<BrandLogo>)
    requires |ids| == |files|
    ensures |ls| == |files|
    ensures forall k :: 0 <= k < |files| ==> ls[k] == LogoOf(files[k], ids[k])
  {
    if files == [] then []
    else LogosOf(files[..|files| - 1], ids[..|ids| - 1]) + [LogoOf(files[|files| - 1], ids[|ids| - 1])]
  }

  /** The `n`-th threaded record is `data` with the logos of the first `n + 1` files. */
  lemma {:induction false} ThreadedPrefix(emitted: seq<BrandData>, data: BrandData, files: seq<SelectedFile>,
                                          ids: seq<string>, n: nat)
    requires |emitted| == |ids| == |files| && Threaded(emitted, data, files, ids) && n < |files|
    ensures emitted[n] == data.(logos := data.logos + LogosOf(files[..n + 1], ids[..n + 1]))
    decreases n
  {
    var fs, ns := files[..n + 1], ids[..n + 1];
    assert fs[..n] == files[..n] && ns[..n] == ids[..n];
    assert LogosOf(fs, ns) == LogosOf(files[..n], ids[..n]) + [LogoOf(files[n], ids[n])];
    if n > 0 {
      ThreadedPrefix(emitted, data, files, ids, n - 1);
      var prev, l := emitted[n - 1], LogoOf(files[n], ids[n]);
      assert emitted[n] == WithLogo(prev, l);
      assert prev.logos == data.logos + LogosOf(files[..n], ids[..n]);
      assert emitted[n].logos == data.logos + LogosOf(fs, ns) by {
        assert emitted[n].logos == prev.logos + [l];
        assert data.logos + LogosOf(files[..n], ids[..n]) + [l] == data.logos + LogosOf(fs, ns);
      }
    } else {
      assert LogosOf(files[..0], ids[..0]) == [];
      assert LogosOf(fs, ns) == [LogoOf(files[0], ids[0])];
    }
  }

  /** With the record threaded through, every file's logo survives, in order. */
  lemma AccumulatedKeepsAll(emitted: seq<BrandData>, data: BrandData, files: seq<SelectedFile>, ids: seq<string>)
    requires |emitted| == |ids| == |files| > 0 && Threaded(emitted, data, files, ids)
    ensures emitted[|emitted| - 1] == data.(logos := data.logos + LogosOf(files, ids))
  {
    ThreadedPrefix(emitted, data, files, ids, |files| - 1);
    assert files[..|files|] == files && ids[..|ids|] == ids;
  }

  /**
   * The panel's own state: what has been typed into the colour, colour-name
   * and font-URL inputs. The brand record is not kept here; every handler
   * takes the record it was rendered with and says what it emits.
   */
  class BrandInputPanel {
    var colorHex: string
    var colorName: string
    var fontUrl: string

    constructor ()
      ensures colorHex == "#" && colorName == "" && fontUrl == ""
    {
      colorHex, colorName, fontUrl := "#", "", "";
    }

    /** Typing in, or picking with, the colour input replaces its text and nothing else. */
    method SetColorHex(s: string)
      modifies this
      ensures colorHex == s && colorName == old(colorName) && fontUrl == old(fontUrl)
    {
      colorHex := s;
    }

    /** Typing in the colour-name input. */
    method SetColorName(s: string)
      modifies this
      ensures colorName == s && colorHex == old(colorHex) && fontUrl == old(fontUrl)
    {
      colorName := s;
    }

    /** Typing in the font-URL input. */
    method SetFontUrl(s: string)
      modifies this
      ensures fontUrl == s && colorHex == old(colorHex) && colorName == old(colorName)
    {
      fontUrl := s;
    }

    /**
     * `addColor`: a valid hex adds one colour under the next id and clears
     * both colour inputs; anything else emits nothing and changes nothing.
     */
    method AddColor(data: BrandData, gen: IdGenerator) returns (emitted: Option<BrandData>)
      modifies this, gen
      ensures var hex := NormalizeHex(old(colorHex));
        if IsHexColor(hex) then
          && emitted == Some(WithColor(data, BrandColor(FormatId(gen.clock(gen.counter), gen.counter), hex, ColorName(old(colorName), hex))))
          && gen.counter == old(gen.counter) + 1
          && colorHex == "#" && colorName == "" && fontUrl == old(fontUrl)
        else
          && emitted == None && gen.counter == old(gen.counter)
          && colorHex == old(colorHex) && colorName == old(colorName) && fontUrl == old(fontUrl)
    {
      var hex := NormalizeHex(colorHex);
      if !IsHexColor(hex) {
        emitted := None;
      } else {
        var id := gen.Next();
        emitted := Some(WithColor(data, BrandColor(id, hex, ColorName(colorName, hex))));
        colorHex, colorName := "#", "";
      }
    }

    /**
     * `addGoogleFont`: a non-blank URL that names a family adds one Google
     * font under the next id, keeping the URL as typed, and clears the input.
     */
    method AddGoogleFont(data: BrandData, lookup: FamilyLookup, gen: IdGenerator) returns (emitted: Option<BrandData>)
      modifies this, gen
      ensures match FontNameToAdd(lookup, old(fontUrl))
        case Some(name) =>
          && emitted == Some(WithFont(data, BrandFont(FormatId(gen.clock(gen.counter), gen.counter), name, Google, old(fontUrl), name)))
          && gen.counter == old(gen.counter) + 1
          && fontUrl == "" && colorHex == old(colorHex) && colorName == old(colorName)
        case None =>
          && emitted == None && gen.counter == old(gen.counter)
          && fontUrl == old(fontUrl) && colorHex == old(colorHex) && colorName == old(colorName)
    {
      var name := FontNameToAdd(lookup, fontUrl);
      if name.None? {
        emitted := None;
      } else {
        var id := gen.Next();
        emitted := Some(WithFont(data, BrandFont(id, name.value, Google, fontUrl, name.value)));
        fontUrl := "";
      }
    }

    /**
     * `handleLogoUpload`: one record per picked file, each built from the
     * same `data`; no file list at all emits nothing.
     */
    method HandleLogoUpload(data: BrandData, files: Option<seq<SelectedFile>>, gen: IdGenerator)
      returns (emitted: seq<BrandData>)
      modifies gen
      ensures files.None? ==> emitted == [] && gen.counter == old(gen.counter)
      ensures files.Some? ==> UploadRecords(emitted, data, files.value, gen.clock, old(gen.counter))
      ensures files.Some? ==> gen.counter == old(gen.counter) + |files.value|
    {
      emitted := [];
      if files.Some? {
        ghost var start := gen.counter;
        var fs := files.value;
        var i := 0;
        while i < |fs|
          invariant 0 <= i <= |fs| && gen.counter == start + i && |emitted| == i
          invariant EachFrom(emitted, data, fs[..i], IdRange(gen.clock, start, i))
        {
          var id := gen.Next();
          EachFromStep(emitted, data, fs, gen.clock, start, i, gen.counter, id);
          emitted := emitted + [WithLogo(data, LogoOf(fs[i], id))];
          i := i + 1;
        }
        assert fs[..i] == fs;
      }
    }

    /** The upload as evidently intended: each record builds on the one before. */
    method HandleLogoUploadAccumulating(data: BrandData, files: Option<seq<SelectedFile>>, gen: IdGenerator)
      returns (emitted: seq<BrandData>)
      modifies gen
      ensures files.None? ==> emitted == [] && gen.counter == old(gen.counter)
      ensures files.Some? ==> AccumulatedRecords(emitted, data, files.value, gen.clock, old(gen.counter))
      ensures files.Some? ==> gen.counter == old(gen.counter) + |files.value|
    {
      emitted := [];
      if files.Some? {
        ghost var start := gen.counter;
        var fs := files.value;
        var i, current := 0, data;
        while i < |fs|
          invariant 0 <= i <= |fs| && gen.counter == start + i && |emitted| == i
          invariant current == Latest(emitted, data)
          invariant Threaded(emitted, data, fs[..i], IdRange(gen.clock, start, i))
        {
          var id := gen.Next();
          ThreadedStep(emitted, data, fs, gen.clock, start, i, gen.counter, id);
          current := WithLogo(current, LogoOf(fs[i], id));
          emitted := emitted + [current];
          i := i + 1;
        }
        assert fs[..i] == fs;
      }
    }
  }
}
