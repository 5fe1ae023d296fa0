/**
 * The share link: a brand record as query parameters and back. The link
 * carries the brand name, the colours (`c`, entries `hex:name` joined by
 * commas) and the font URLs (`gf`, joined by `|`), behind the gate
 * `shared=1`. Logos are never carried. Decoding gives every colour and font
 * a fresh id.
 */
module LinkCodec {
  import opened Wrappers
  import opened Text
  import opened UriComponent
  import opened ColorMath
  import opened BrandStore
  import opened Ids
  import opened Collections

  /** The parsed query string: a parameter's value, for each name present. */
  type Params = map<string, string>

  /** `searchParams.get(key)`. */
  function Get(params: Params, key: string): (v: Option<string>)
    ensures v.Some? <==> key in params
    ensures v.Some? ==> v.value == params[key]
  {
    if key in params then Some(params[key]) else None
  }

  // ----- encoding -----

  /** One colour entry: the hex without its first `#`, a `:`, the encoded name. */
  function EncodeColor(c: BrandColor): string {
    RemoveFirst(c.hex, '#') + ":" + Encode(c.name)
  }

  /** For a stored `#rrggbb` the entry starts with the six digits: the `#` removed is the leading one. */
  lemma EncodeStoredColor(c: BrandColor)
    requires IsHexColor(c.hex)
    ensures EncodeColor(c) == c.hex[1..] + ":" + Encode(c.name)
  {
    assert c.hex[0] in c.hex;
  }

  /** `colors.map(encodeColor)`. */
  function EncodedColors(colors: seq<BrandColor>): (entries: seq<string>)
    ensures |entries| == |colors|
    ensures forall k :: 0 <= k < |colors| ==> entries[k] == EncodeColor(colors[k])
  {
    if colors == [] then []
    else EncodedColors(colors[..|colors| - 1]) + [EncodeColor(colors[|colors| - 1])]
  }

  /** `fonts.map(f => f.url)`. */
  function FontUrls(fonts: seq<BrandFont>): (urls: seq<string>)
    ensures |urls| == |fonts|
    ensures forall k :: 0 <= k < |fonts| ==> urls[k] == fonts[k].url
  {
    if fonts == [] then []
    else FontUrls(fonts[..|fonts| - 1]) + [fonts[|fonts| - 1].url]
  }

  /** The `c` parameter. Stored colours split back into their entries, one per colour. */
  function ColorsParam(colors: seq<BrandColor>): (p: string)
    ensures ShareableColors(colors) && colors != [] ==> Split(p, ',') == EncodedColors(colors)
  {
    if ShareableColors(colors) && colors != [] then
      EncodedColorsCommaFree(colors);
      SplitJoin(EncodedColors(colors), ',');
      Join(EncodedColors(colors), ',')
    else Join(EncodedColors(colors), ',')
  }

  /** The `gf` parameter. URLs without a `|` split back into themselves. */
  function FontsParam(fonts: seq<BrandFont>): (p: string)
    ensures fonts != [] && (forall k :: 0 <= k < |fonts| ==> '|' !in fonts[k].url) ==> Split(p, '|') == FontUrls(fonts)
  {
    if fonts != [] && (forall k :: 0 <= k < |fonts| ==> '|' !in fonts[k].url) then
      SplitJoin(FontUrls(fonts), '|');
      Join(FontUrls(fonts), '|')
    else Join(FontUrls(fonts), '|')
  }

  /** The parameters a record is shared as. */
  function EncodedParams(d: BrandData): (params: Params)
    ensures params.Keys <= {"shared", "name", "c", "gf"}
  {
    var withGate := map["shared" := "1"];
    var withName := if d.brandName != [] then withGate["name" := d.brandName] else withGate;
    var withColors := if |d.colors| > 0 then withName["c" := ColorsParam(d.colors)] else withName;
    if |d.fonts| > 0 then withColors["gf" := FontsParam(d.fonts)] else withColors
  }

  /** The gate is always set, and `name`, `c`, `gf` exactly when there is something to put in them. */
  lemma EncodedFields(d: BrandData)
    ensures Get(EncodedParams(d), "shared") == Some("1")
    ensures Get(EncodedParams(d), "name") == if d.brandName == [] then None else Some(d.brandName)
    ensures Get(EncodedParams(d), "c") == if d.colors == [] then None else Some(ColorsParam(d.colors))
    ensures Get(EncodedParams(d), "gf") == if d.fonts == [] then None else Some(FontsParam(d.fonts))
  {
  }

  /** `encodeBrandDataToParams`: fills a fresh parameter set one `set` at a time. */
  method EncodeBrandDataToParams(d: BrandData) returns (params: Params)
    ensures params == EncodedParams(d)
  {
    params := map[];
    params := params["shared" := "1"];
    if d.brandName != [] {
      params := params["name" := d.brandName];
    }
    if |d.colors| > 0 {
      params := params["c" := ColorsParam(d.colors)];
    }
    if |d.fonts| > 0 {
      params := params["gf" := FontsParam(d.fonts)];
    }
  }

  /** Logos never reach the link: two records that differ only in logos share as the same link. */
  lemma EncodeIgnoresLogos(d: BrandData, logos: seq<BrandLogo>)
    ensures EncodedParams(d.(logos := logos)) == EncodedParams(d)
  {
  }

  // ----- decoding -----

  /** What one colour entry decodes to: a colour, nothing (bad hex), or a thrown `URIError`. */
  datatype ColorEntry = Keep(hex: string, name: string) | Skip | Throws

  /**
   * A colour entry: `#` and the text before the first `:` as the hex, the
   * text after it, decoded, as the name (the hex when that is empty).
   */
  function DecodeColorEntry(part: string): (e: ColorEntry)
    ensures e.Keep? ==> IsHexColor(e.hex) && e.name != []
  {
    var fields := Split(part, ':');
    var hex := "#" + fields[0];
    match Decode(Join(fields[1..], ':'))
    case None => Throws
    case Some(n) => if IsHexColor(hex) then Keep(hex, if n == [] then hex else n) else Skip
  }

  /**
   * An entry `h:t`, with no `:` in `h`, has hex `#h` and the decoded `t` as
   * its name. The name is decoded before the hex is checked, so a bad escape
   * throws even in an entry that would be skipped.
   */
  lemma DecodeColorEntryAtColon(h: string, t: string)
    requires ':' !in h
    ensures DecodeColorEntry(h + ":" + t) == match Decode(t)
      case None => Throws
      case Some(n) => if IsHexColor("#" + h) then Keep("#" + h, if n == [] then "#" + h else n) else Skip
  {
    assert h + ":" + t == h + [':'] + t;
    SplitNoSeparator(h, ':');
    SplitConcat(h, ':', t);
    JoinSplit(t, ':');
  }

  /** A decoded colour or font, without the id it is given. */
  datatype ColorView = ColorView(hex: string, name: string)
  datatype FontView = FontView(name: string, url: string)
  datatype SharedView = SharedView(brandName: string, colors: seq<ColorView>, fonts: seq<FontView>)

  /** What decoding a link gives: not a share link, a thrown `URIError`, or a record. */
  datatype Decoded<T> = NotShared | Threw | Shared(value: T)

  function ViewOfColors(cs: seq<BrandColor>): (v: seq<ColorView>)
    ensures |v| == |cs|
  {
    if cs == [] then []
    else ViewOfColors(cs[..|cs| - 1]) + [ColorView(cs[|cs| - 1].hex, cs[|cs| - 1].name)]
  }

  function ViewOfFonts(fs: seq<BrandFont>): (v: seq<FontView>)
    ensures |v| == |fs|
  {
    if fs == [] then []
    else ViewOfFonts(fs[..|fs| - 1]) + [FontView(fs[|fs| - 1].name, fs[|fs| - 1].url)]
  }

  function ViewOf(d: BrandData): SharedView {
    SharedView(d.brandName, ViewOfColors(d.colors), ViewOfFonts(d.fonts))
  }

  /** Each colour entry of `c`, read. */
  function ColorEntries(parts: seq<string>): (entries: seq<ColorEntry>)
    ensures |entries| == |parts|
  {
    if parts == [] then []
    else ColorEntries(parts[..|parts| - 1]) + [DecodeColorEntry(parts[|parts| - 1])]
  }

  lemma {:induction false} ColorEntriesAt(parts: seq<string>, k: nat)
    requires k < |parts|
    ensures ColorEntries(parts)[k] == DecodeColorEntry(parts[k])
    decreases |parts|
  {
    if k < |parts| - 1 {
      ColorEntriesAt(parts[..|parts| - 1], k);
    }
  }

  /**
   * The colours of the entries, in order, up to the first that throws, and
   * whether one threw.
   */
  function KeptColors(entries: seq<ColorEntry>): (r: (seq<ColorView>, bool))
    ensures |r.0| <= |entries|
  {
    if entries == [] then ([], false)
    else
      var prev := KeptColors(entries[..|entries| - 1]);
      if prev.1 then prev
      else match entries[|entries| - 1]
        case Throws => (prev.0, true)
        case Skip => prev
        case Keep(hex, name) => (prev.0 + [ColorView(hex, name)], false)
  }

  /** Every colour has a `#rrggbb` hex and a non-empty name. */
  predicate ValidViews(views: seq<ColorView>) {
    forall k :: 0 <= k < |views| ==> IsHexColor(views[k].hex) && views[k].name != []
  }

  /** Only valid entries are kept. */
  lemma {:induction false} KeptColorsValid(entries: seq<ColorEntry>)
    requires forall k :: 0 <= k < |entries| && entries[k].Keep? ==> IsHexColor(entries[k].hex) && entries[k].name != []
    ensures ValidViews(KeptColors(entries).0)
    decreases |entries|
  {
    if entries != [] {
      var init := entries[..|entries| - 1];
      assert forall k :: 0 <= k < |init| ==> init[k] == entries[k];
      KeptColorsValid(init);
      var last := entries[|entries| - 1];
      var prev := KeptColors(init);
      if !prev.1 && last.Keep? {
        var views := prev.0 + [ColorView(last.hex, last.name)];
        assert forall k :: 0 <= k < |prev.0| ==> views[k] == prev.0[k];
        assert views[|prev.0|] == ColorView(last.hex, last.name);
      }
    }
  }

  /** Every colour a link gives has a valid hex and a name. */
  lemma KeptColorsAreValid(parts: seq<string>)
    ensures ValidViews(KeptColors(ColorEntries(parts)).0)
  {
    var entries := ColorEntries(parts);
    forall k | 0 <= k < |entries| && entries[k].Keep?
      ensures IsHexColor(entries[k].hex) && entries[k].name != []
    {
      ColorEntriesAt(parts, k);
    }
    KeptColorsValid(entries);
  }

  /** Once an entry has thrown, the entries after it change nothing. */
  lemma {:induction false} ThrowPersists(entries: seq<ColorEntry>, n: nat)
    requires 0 < n <= |entries|
    requires KeptColors(entries[..n]).1
    ensures KeptColors(entries) == KeptColors(entries[..n])
    decreases |entries| - n
  {
    if n < |entries| {
      var init := entries[..|entries| - 1];
      assert init[..n] == entries[..n];
      ThrowPersists(init, n);
    } else {
      assert entries[..n] == entries;
    }
  }

  /** A single entry: a kept colour, nothing, or the throw. */
  lemma KeptColorsOne(e: ColorEntry)
    ensures KeptColors([e]) == match e
      case Keep(hex, name) => ([ColorView(hex, name)], false)
      case Skip => ([], false)
      case Throws => ([], true)
  {
    assert [e][..0] == [];
    assert KeptColors([]) == ([], false);
    if e.Keep? {
      assert [] + [ColorView(e.hex, e.name)] == [ColorView(e.hex, e.name)];
    }
  }

  /**
   * Entries are read one after another: the entries of `b` add their
   * colours after those of `a`, unless `a` already threw.
   */
  lemma {:induction false} KeptColorsConcat(a: seq<ColorEntry>, b: seq<ColorEntry>)
    ensures KeptColors(a + b) ==
      if KeptColors(a).1 then KeptColors(a) else (KeptColors(a).0 + KeptColors(b).0, KeptColors(b).1)
    decreases |b|
  {
    if b == [] {
      assert a + b == a;
      assert KeptColors(b) == ([], false);
      assert KeptColors(a).0 + [] == KeptColors(a).0;
    } else {
      var init, last := b[..|b| - 1], b[|b| - 1];
      assert (a + b)[..|a + b| - 1] == a + init;
      assert (a + b)[|a + b| - 1] == last;
      KeptColorsConcat(a, init);
      var ka, ki := KeptColors(a), KeptColors(init);
      if !ka.1 && !ki.1 && last.Keep? {
        assert ka.0 + ki.0 + [ColorView(last.hex, last.name)] == ka.0 + (ki.0 + [ColorView(last.hex, last.name)]);
      }
    }
  }

  /** An entry `h:t` with escape-free `t` and an invalid `#h` is skipped. */
  lemma SkipsBadHex(h: string, t: string)
    requires ':' !in h && '%' !in t && !IsHexColor("#" + h)
    ensures DecodeColorEntry(h + ":" + t) == Skip
  {
    DecodeColorEntryAtColon(h, t);
  }

  /** An entry `h:t` with escape-free `t` and a valid `#h` is kept, named `t` (or `#h` when `t` is empty). */
  lemma KeepsGoodHex(h: string, t: string)
    requires ':' !in h && '%' !in t && IsHexColor("#" + h)
    ensures DecodeColorEntry(h + ":" + t) == Keep("#" + h, if t == [] then "#" + h else t)
  {
    DecodeColorEntryAtColon(h, t);
  }

  /** Two entries are read in turn. */
  lemma ColorEntriesTwo(p1: string, p2: string)
    ensures ColorEntries([p1, p2]) == [DecodeColorEntry(p1)] + [DecodeColorEntry(p2)]
  {
    assert [p1, p2][..1] == [p1];
    assert [p1][..0] == [];
  }

  /** Two entries, the first with an invalid hex: only the second is kept. */
  lemma SkipsFirstOfTwo(c: string, h1: string, t1: string, h2: string, t2: string)
    requires c == h1 + ":" + t1 + "," + h2 + ":" + t2
    requires ':' !in h1 && ',' !in h1 && '%' !in t1 && ',' !in t1 && !IsHexColor("#" + h1)
    requires ':' !in h2 && ',' !in h2 && '%' !in t2 && ',' !in t2 && IsHexColor("#" + h2) && t2 != []
    ensures ColorsOf(map["c" := c]) == ([ColorView("#" + h2, t2)], false)
  {
    var e1, e2 := h1 + ":" + t1, h2 + ":" + t2;
    assert c == e1 + [','] + e2;
    SplitConcat(e1, ',', e2);
    SplitNoSeparator(e1, ',');
    SplitNoSeparator(e2, ',');
    var parts := [e1, e2];
    assert Split(c, ',') == parts;
    SkipsBadHex(h1, t1);
    KeepsGoodHex(h2, t2);
    ColorEntriesTwo(e1, e2);
    var entries := ColorEntries(parts);
    assert entries == [Skip] + [Keep("#" + h2, t2)];
    KeptColorsConcat([Skip], [Keep("#" + h2, t2)]);
    KeptColorsOne(Skip);
    KeptColorsOne(Keep("#" + h2, t2));
    assert KeptColors(entries) == ([ColorView("#" + h2, t2)], false);
    var params := map["c" := c];
    assert Get(params, "c") == Some(c) && c != [];
    assert ColorsOf(params) == KeptColors(ColorEntries(Split(c, ',')));
  }

  /** `c=gg0000:Red,00ff00:Green` gives the one colour `#00ff00`, named `Green`. */
  lemma SkipsInvalidColor(c: string)
    requires c == "gg0000:Red,00ff00:Green"
    ensures ColorsOf(map["c" := c]) == ([ColorView("#00ff00", "Green")], false)
  {
    assert "#" + "00ff00" == "#00ff00";
    assert c == "gg0000" + ":" + "Red" + "," + "00ff00" + ":" + "Green";
    assert !IsHexDigit("#gg0000"[1..][0]);
    assert forall i :: 0 <= i < 6 ==> IsHexDigit("#00ff00"[1..][i]);
    SkipsFirstOfTwo(c, "gg0000", "Red", "00ff00", "Green");
  }

  /** One font URL: the font named by its `family`, when that name is not empty. */
  function DecodeFontEntry(lookup: FamilyLookup, url: string): (v: Option<FontView>)
    ensures v.Some? <==> ExtractGoogleFontName(lookup, url).Some? && ExtractGoogleFontName(lookup, url).value != []
    ensures v.Some? ==> v.value.url == url && v.value.name != []
  {
    match ExtractGoogleFontName(lookup, url)
    case None => None
    case Some(name) => if name != [] then Some(FontView(name, url)) else None
  }

  /** Each font URL of `gf`, read. */
  function FontEntries(lookup: FamilyLookup, urls: seq<string>): (entries: seq<Option<FontView>>)
    ensures |entries| == |urls|
  {
    if urls == [] then []
    else FontEntries(lookup, urls[..|urls| - 1]) + [DecodeFontEntry(lookup, urls[|urls| - 1])]
  }

  /** The fonts of the entries, in order, skipping those without a usable name. */
  function KeptFonts(entries: seq<Option<FontView>>): (r: seq<FontView>)
    ensures |r| <= |entries|
  {
    if entries == [] then []
    else
      var prev := KeptFonts(entries[..|entries| - 1]);
      match entries[|entries| - 1]
      case None => prev
      case Some(v) => prev + [v]
  }

  /** A single segment: its font, or nothing. */
  lemma KeptFontsOne(e: Option<FontView>)
    ensures KeptFonts([e]) == match e
      case Some(v) => [v]
      case None => []
  {
    assert [e][..0] == [];
    assert KeptFonts([]) == [];
  }

  /** Segments are read one after another: the fonts of `b` follow those of `a`. */
  lemma {:induction false} KeptFontsConcat(a: seq<Option<FontView>>, b: seq<Option<FontView>>)
    ensures KeptFonts(a + b) == KeptFonts(a) + KeptFonts(b)
    decreases |b|
  {
    if b == [] {
      assert a + b == a;
    } else {
      var init := b[..|b| - 1];
      assert (a + b)[..|a + b| - 1] == a + init;
      assert (a + b)[|a + b| - 1] == b[|b| - 1];
      KeptFontsConcat(a, init);
    }
  }

  /** `gf=u1|u2` where `u1` names no font: only the font of `u2` is kept. */
  lemma SkipsUnnamedFont(lookup: FamilyLookup, u1: string, u2: string, name: string)
    requires '|' !in u1 && '|' !in u2
    requires lookup(u1).None? && ExtractGoogleFontName(lookup, u2) == Some(name) && name != []
    ensures FontsOf(map["gf" := u1 + "|" + u2], lookup) == [FontView(name, u2)]
  {
    var gf := u1 + "|" + u2;
    assert gf == u1 + ['|'] + u2;
    SplitConcat(u1, '|', u2);
    SplitNoSeparator(u1, '|');
    SplitNoSeparator(u2, '|');
    var urls := [u1, u2];
    assert Split(gf, '|') == urls;
    assert urls[..1] == [u1];
    assert FontEntries(lookup, urls) == [None] + [Some(FontView(name, u2))];
    KeptFontsConcat([None], [Some(FontView(name, u2))]);
    KeptFontsOne(None);
    KeptFontsOne(Some(FontView(name, u2)));
  }

  /** The colours a link gives, and whether decoding them threw. Each has a valid hex and a name. */
  function ColorsOf(params: Params): (r: (seq<ColorView>, bool))
    ensures ValidViews(r.0)
    ensures Get(params, "c").GetOr("") == [] ==> r == ([], false)
  {
    var c := Get(params, "c").GetOr("");
    if c == [] then ([], false)
    else
      var parts := Split(c, ',');
      KeptColorsAreValid(parts);
      KeptColors(ColorEntries(parts))
  }

  /** A font a link gives always has a name. */
  lemma {:induction false} KeptFontsNamed(lookup: FamilyLookup, urls: seq<string>)
    ensures forall k :: 0 <= k < |KeptFonts(FontEntries(lookup, urls))| ==> KeptFonts(FontEntries(lookup, urls))[k].name != []
    decreases |urls|
  {
    if urls != [] {
      var init := urls[..|urls| - 1];
      var es := FontEntries(lookup, urls);
      assert es == FontEntries(lookup, init) + [DecodeFontEntry(lookup, urls[|urls| - 1])];
      assert es[..|es| - 1] == FontEntries(lookup, init);
      KeptFontsNamed(lookup, init);
    }
  }

  /** The fonts a link gives, each with a name. */
  function FontsOf(params: Params, lookup: FamilyLookup): (r: seq<FontView>)
    ensures forall k :: 0 <= k < |r| ==> r[k].name != []
    ensures Get(params, "gf").GetOr("") == [] ==> r == []
  {
    var gf := Get(params, "gf").GetOr("");
    if gf == [] then []
    else
      var urls := Split(gf, '|');
      KeptFontsNamed(lookup, urls);
      KeptFonts(FontEntries(lookup, urls))
  }

  /** What decoding a link gives, ids aside. */
  function DecodedView(params: Params, lookup: FamilyLookup): (r: Decoded<SharedView>)
    ensures r.NotShared? <==> Get(params, "shared") != Some("1")
    ensures r.Threw? <==> Get(params, "shared") == Some("1") && ColorsOf(params).1
  {
    if Get(params, "shared") != Some("1") then NotShared
    else
      var colors := ColorsOf(params);
      if colors.1 then Threw
      else Shared(SharedView(Get(params, "name").GetOr(""), colors.0, FontsOf(params, lookup)))
  }

  // ----- ids -----

  /** The ids decoding hands out: the colours' first, then the fonts', one counter value each. */
  ghost predicate FreshIds(d: BrandData, clock: nat -> int, start: nat) {
    && IdsOf(d.colors, ColorId) == IdRange(clock, start, |d.colors|)
    && IdsOf(d.fonts, FontId) == IdRange(clock, start + |d.colors|, |d.fonts|)
  }

  lemma FreshIdsIntro(d: BrandData, clock: nat -> int, start: nat, mid: nat)
    requires mid == start + |d.colors|
    requires IdsOf(d.colors, ColorId) == IdRange(clock, start, |d.colors|)
    requires IdsOf(d.fonts, FontId) == IdRange(clock, mid, |d.fonts|)
    ensures FreshIds(d, clock, start)
  {
  }

  /** Every decoded font is a Google font whose CSS family is its name. */
  predicate GoogleFonts(fonts: seq<BrandFont>) {
    forall k :: 0 <= k < |fonts| ==> fonts[k].source == Google && fonts[k].cssFamily == fonts[k].name
  }

  /** No two items of a decoded record share an id. */
  lemma FreshIdsDistinct(d: BrandData, clock: nat -> int, start: nat)
    requires FreshIds(d, clock, start)
    ensures forall i, j :: 0 <= i < j < |d.colors| ==> d.colors[i].id != d.colors[j].id
    ensures forall i, j :: 0 <= i < j < |d.fonts| ==> d.fonts[i].id != d.fonts[j].id
    ensures forall i, j :: 0 <= i < |d.colors| && 0 <= j < |d.fonts| ==> d.colors[i].id != d.fonts[j].id
  {
    forall i, j | 0 <= i < j < |d.colors|
      ensures d.colors[i].id != d.colors[j].id
    {
      IdsOfAt(d.colors, ColorId, i);
      IdsOfAt(d.colors, ColorId, j);
      IdRangeDistinct(clock, start, |d.colors|, i, j);
    }
    forall i, j | 0 <= i < j < |d.fonts|
      ensures d.fonts[i].id != d.fonts[j].id
    {
      IdsOfAt(d.fonts, FontId, i);
      IdsOfAt(d.fonts, FontId, j);
      IdRangeDistinct(clock, start + |d.colors|, |d.fonts|, i, j);
    }
    forall i, j | 0 <= i < |d.colors| && 0 <= j < |d.fonts|
      ensures d.colors[i].id != d.fonts[j].id
    {
      IdsOfAt(d.colors, ColorId, i);
      IdsOfAt(d.fonts, FontId, j);
      IdRangesDisjoint(clock, start, |d.colors|, |d.fonts|, i, j);
    }
  }

  // ----- the decoding loops -----

  /** The first colours of the loop: their views and their ids. */
  ghost predicate ColorsDecoded(entries: seq<ColorEntry>, colors: seq<BrandColor>, clock: nat -> int, start: nat) {
    KeptColors(entries) == (ViewOfColors(colors), false) && IdsOf(colors, ColorId) == IdRange(clock, start, |colors|)
  }

  lemma ViewOfColorsSnoc(colors: seq<BrandColor>, c: BrandColor)
    ensures ViewOfColors(colors + [c]) == ViewOfColors(colors) + [ColorView(c.hex, c.name)]
  {
    assert (colors + [c])[..|colors|] == colors;
  }

  /** A kept entry adds its colour, with the next id. */
  lemma ColorsDecodedKeep(entries: seq<ColorEntry>, i: nat, colors: seq<BrandColor>, c: BrandColor,
                          clock: nat -> int, start: nat, n: nat)
    requires i < |entries| && ColorsDecoded(entries[..i], colors, clock, start)
    requires entries[i] == Keep(c.hex, c.name)
    requires n == start + 1 + |colors| && c.id == FormatId(clock(n), n)
    ensures ColorsDecoded(entries[..i + 1], colors + [c], clock, start)
  {
    assert entries[..i + 1][..i] == entries[..i];
    ViewOfColorsSnoc(colors, c);
    assert (colors + [c])[..|colors|] == colors;
  }

  /** A skipped entry adds nothing. */
  lemma ColorsDecodedSkip(entries: seq<ColorEntry>, i: nat, colors: seq<BrandColor>, clock: nat -> int, start: nat)
    requires i < |entries| && ColorsDecoded(entries[..i], colors, clock, start)
    requires entries[i].Skip?
    ensures ColorsDecoded(entries[..i + 1], colors, clock, start)
  {
    assert entries[..i + 1][..i] == entries[..i];
  }

  /** An entry that throws ends the loop with the colours before it. */
  lemma ColorsDecodedThrow(entries: seq<ColorEntry>, i: nat, colors: seq<BrandColor>, clock: nat -> int, start: nat)
    requires i < |entries| && ColorsDecoded(entries[..i], colors, clock, start)
    requires entries[i].Throws?
    ensures KeptColors(entries) == (ViewOfColors(colors), true)
  {
    assert entries[..i + 1][..i] == entries[..i];
    ThrowPersists(entries, i + 1);
  }

  /**
   * The colour loop of `decodeBrandDataFromParams`, over the entries of `c`
   * as read: a fresh id for every entry kept, stopping at the first entry
   * that throws.
   */
  method DecodeColors(entries: seq<ColorEntry>, gen: IdGenerator) returns (colors: seq<BrandColor>, threw: bool)
    modifies gen
    ensures KeptColors(entries) == (ViewOfColors(colors), threw)
    ensures gen.counter == old(gen.counter) + |colors|
    ensures IdsOf(colors, ColorId) == IdRange(gen.clock, old(gen.counter), |colors|)
  {
    ghost var start := gen.counter;
    colors := [];
    var i := 0;
    assert entries[..0] == [];
    while i < |entries|
      invariant 0 <= i <= |entries|
      invariant ColorsDecoded(entries[..i], colors, gen.clock, start)
      invariant gen.counter == start + |colors|
    {
      match entries[i] {
        case Throws =>
          ColorsDecodedThrow(entries, i, colors, gen.clock, start);
          return colors, true;
        case Skip =>
          ColorsDecodedSkip(entries, i, colors, gen.clock, start);
        case Keep(hex, name) =>
          var id := gen.Next();
          var color := BrandColor(id, hex, name);
          ColorsDecodedKeep(entries, i, colors, color, gen.clock, start, gen.counter);
          colors := colors + [color];
      }
      i := i + 1;
    }
    assert entries[..i] == entries;
    threw := false;
  }

  /** The first fonts of the loop: their views, their ids, their source. */
  ghost predicate FontsDecoded(entries: seq<Option<FontView>>, fonts: seq<BrandFont>, clock: nat -> int, start: nat) {
    KeptFonts(entries) == ViewOfFonts(fonts) && IdsOf(fonts, FontId) == IdRange(clock, start, |fonts|) && GoogleFonts(fonts)
  }

  lemma ViewOfFontsSnoc(fonts: seq<BrandFont>, f: BrandFont)
    ensures ViewOfFonts(fonts + [f]) == ViewOfFonts(fonts) + [FontView(f.name, f.url)]
  {
    assert (fonts + [f])[..|fonts|] == fonts;
  }

  /** A URL with a usable name adds its Google font, with the next id. */
  lemma FontsDecodedKeep(entries: seq<Option<FontView>>, j: nat, fonts: seq<BrandFont>, f: BrandFont,
                         clock: nat -> int, start: nat, n: nat)
    requires j < |entries| && FontsDecoded(entries[..j], fonts, clock, start)
    requires entries[j] == Some(FontView(f.name, f.url))
    requires f.source == Google && f.cssFamily == f.name
    requires n == start + 1 + |fonts| && f.id == FormatId(clock(n), n)
    ensures FontsDecoded(entries[..j + 1], fonts + [f], clock, start)
  {
    assert entries[..j + 1][..j] == entries[..j];
    ViewOfFontsSnoc(fonts, f);
    assert (fonts + [f])[..|fonts|] == fonts;
  }

  /** A URL without one adds nothing. */
  lemma FontsDecodedSkip(entries: seq<Option<FontView>>, j: nat, fonts: seq<BrandFont>, clock: nat -> int, start: nat)
    requires j < |entries| && FontsDecoded(entries[..j], fonts, clock, start)
    requires entries[j].None?
    ensures FontsDecoded(entries[..j + 1], fonts, clock, start)
  {
    assert entries[..j + 1][..j] == entries[..j];
  }

  /** The font loop of `decodeBrandDataFromParams`: a fresh id for every font with a name. */
  method DecodeFonts(entries: seq<Option<FontView>>, gen: IdGenerator) returns (fonts: seq<BrandFont>)
    modifies gen
    ensures KeptFonts(entries) == ViewOfFonts(fonts)
    ensures gen.counter == old(gen.counter) + |fonts|
    ensures IdsOf(fonts, FontId) == IdRange(gen.clock, old(gen.counter), |fonts|)
    ensures GoogleFonts(fonts)
  {
    ghost var start := gen.counter;
    fonts := [];
    var j := 0;
    assert entries[..0] == [];
    while j < |entries|
      invariant 0 <= j <= |entries|
      invariant FontsDecoded(entries[..j], fonts, gen.clock, start)
      invariant gen.counter == start + |fonts|
    {
      match entries[j] {
        case None =>
          FontsDecodedSkip(entries, j, fonts, gen.clock, start);
        case Some(v) =>
          var id := gen.Next();
          var font := BrandFont(id, v.name, Google, v.url, v.name);
          FontsDecodedKeep(entries, j, fonts, font, gen.clock, start, gen.counter);
          fonts := fonts + [font];
      }
      j := j + 1;
    }
    assert entries[..j] == entries;
  }

  /**
   * `decodeBrandDataFromParams`: `NotShared` without the gate; `Threw` when a
   * colour name's escape is malformed, after ids were handed out to the
   * colours before it; otherwise the record, with fresh ids and no logos.
   */
  method DecodeBrandDataFromParams(params: Params, lookup: FamilyLookup, gen: IdGenerator)
    returns (r: Decoded<BrandData>)
    modifies gen
    ensures r.NotShared? <==> DecodedView(params, lookup).NotShared?
    ensures r.Threw? <==> DecodedView(params, lookup).Threw?
    ensures r.Shared? ==> DecodedView(params, lookup) == Shared(ViewOf(r.value))
    ensures r.Shared? ==> r.value.logos == [] && GoogleFonts(r.value.fonts)
    ensures r.Shared? ==> FreshIds(r.value, gen.clock, old(gen.counter))
    ensures gen.counter == old(gen.counter) + match r
      case NotShared => 0
      case Threw => |ColorsOf(params).0|
      case Shared(d) => |d.colors| + |d.fonts|
  {
    ghost var start := gen.counter;
    if Get(params, "shared") != Some("1") {
      r := NotShared;
    } else {
      var brandName := Get(params, "name").GetOr("");
      var colors: seq<BrandColor> := [];
      var threw := false;
      var colorStr := Get(params, "c").GetOr("");
      if colorStr != [] {
        colors, threw := DecodeColors(ColorEntries(Split(colorStr, ',')), gen);
      }
      assert IdsOf(colors, ColorId) == IdRange(gen.clock, start, |colors|);
      if threw {
        r := Threw;
      } else {
        ghost var mid := gen.counter;
        assert mid == start + |colors|;
        var fonts: seq<BrandFont> := [];
        var fontStr := Get(params, "gf").GetOr("");
        if fontStr != [] {
          fonts := DecodeFonts(FontEntries(lookup, Split(fontStr, '|')), gen);
        }
        r := Shared(BrandData(brandName, colors, fonts, []));
        FreshIdsIntro(r.value, gen.clock, start, mid);
      }
    }
  }

  // ----- the round trip -----

  /** The hex digits of a stored colour are none of the link's separators. */
  lemma HexDigitsSeparatorFree(s: string)
    requires IsHex6(s)
    ensures ':' !in s && ',' !in s
  {
    assert forall k :: 0 <= k < |s| ==> s[k] != ':' && s[k] != ',';
  }

  /** No entry of stored colours holds a comma. */
  lemma EncodedColorsCommaFree(colors: seq<BrandColor>)
    requires ShareableColors(colors)
    ensures forall k :: 0 <= k < |colors| ==> ',' !in EncodedColors(colors)[k]
  {
    forall k | 0 <= k < |colors| ensures ',' !in EncodedColors(colors)[k] {
      DecodeEncodedColor(colors[k]);
    }
  }

  /** A stored colour with a name comes back as itself, and its entry holds no comma. */
  lemma DecodeEncodedColor(c: BrandColor)
    requires IsHexColor(c.hex) && c.name != []
    ensures ',' !in EncodeColor(c)
    ensures DecodeColorEntry(EncodeColor(c)) == Keep(c.hex, c.name)
  {
    var digits := c.hex[1..];
    var enc := Encode(c.name);
    EncodeStoredColor(c);
    HexDigitsSeparatorFree(digits);
    assert "#" + digits == c.hex;
    DecodeEncode(c.name);
    DecodeColorEntryAtColon(digits, enc);
  }

  /** Every stored colour has a valid hex and a name. */
  predicate ShareableColors(colors: seq<BrandColor>) {
    forall k :: 0 <= k < |colors| ==> IsHexColor(colors[k].hex) && colors[k].name != []
  }

  lemma {:induction false} ColorsOfEncoded(cs: seq<BrandColor>)
    requires ShareableColors(cs)
    ensures KeptColors(ColorEntries(EncodedColors(cs))) == (ViewOfColors(cs), false)
    decreases |cs|
  {
    if cs != [] {
      var init := cs[..|cs| - 1];
      var parts := EncodedColors(cs);
      assert parts[..|cs| - 1] == EncodedColors(init);
      assert ColorEntries(parts)[..|cs| - 1] == ColorEntries(EncodedColors(init));
      ColorsOfEncoded(init);
      DecodeEncodedColor(cs[|cs| - 1]);
    }
  }

  /** Every font's URL is non-empty, holds no `|`, and names the font by a non-empty `family`. */
  predicate ShareableFonts(fonts: seq<BrandFont>, lookup: FamilyLookup) {
    forall k :: 0 <= k < |fonts| ==>
      && fonts[k].url != [] && '|' !in fonts[k].url && fonts[k].name != []
      && ExtractGoogleFontName(lookup, fonts[k].url) == Some(fonts[k].name)
  }

  lemma {:induction false} FontsOfUrls(fs: seq<BrandFont>, lookup: FamilyLookup)
    requires ShareableFonts(fs, lookup)
    ensures KeptFonts(FontEntries(lookup, FontUrls(fs))) == ViewOfFonts(fs)
    decreases |fs|
  {
    if fs != [] {
      var init := fs[..|fs| - 1];
      var urls := FontUrls(fs);
      assert urls[..|fs| - 1] == FontUrls(init);
      assert FontEntries(lookup, urls)[..|fs| - 1] == FontEntries(lookup, FontUrls(init));
      FontsOfUrls(init, lookup);
    }
  }

  /** A joined list is at least as long as its first part. */
  lemma JoinHead(parts: seq<string>, d: char)
    requires |parts| >= 1
    ensures |Join(parts, d)| >= |parts[0]|
  {
  }

  lemma ColorsRoundTrip(d: BrandData)
    requires ShareableColors(d.colors)
    ensures ColorsOf(EncodedParams(d)) == (ViewOfColors(d.colors), false)
  {
    EncodedFields(d);
    if d.colors != [] {
      var entries := EncodedColors(d.colors);
      forall k | 0 <= k < |entries| ensures ',' !in entries[k] {
        DecodeEncodedColor(d.colors[k]);
      }
      SplitJoin(entries, ',');
      ColorsOfEncoded(d.colors);
      DecodeEncodedColor(d.colors[0]);
      JoinHead(entries, ',');
    }
  }

  lemma FontsRoundTrip(d: BrandData, lookup: FamilyLookup)
    requires ShareableFonts(d.fonts, lookup)
    ensures FontsOf(EncodedParams(d), lookup) == ViewOfFonts(d.fonts)
  {
    EncodedFields(d);
    if d.fonts != [] {
      var urls := FontUrls(d.fonts);
      SplitJoin(urls, '|');
      FontsOfUrls(d.fonts, lookup);
      JoinHead(urls, '|');
    }
  }

  /**
   * The share link gives back the brand name, every colour and every font,
   * in order, for a record whose colours are stored ones (a valid hex and a
   * name) and whose font URLs hold no `|`.
   */
  lemma RoundTrip(d: BrandData, lookup: FamilyLookup)
    requires ShareableColors(d.colors) && ShareableFonts(d.fonts, lookup)
    ensures DecodedView(EncodedParams(d), lookup) == Shared(ViewOf(d))
  {
    EncodedFields(d);
    ColorsRoundTrip(d);
    FontsRoundTrip(d, lookup);
  }
}
