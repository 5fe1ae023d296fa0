/**
 * The brand record: a name and ordered collections of colours, web fonts and
 * uploaded logos, replaced wholesale on every change. Also the font-name
 * parser and the unsharable-assets query.
 */
module BrandStore {
  import opened Wrappers
  import opened Text

  datatype BrandColor = BrandColor(id: string, hex: string, name: string)

  datatype FontSource = Google

  datatype BrandFont = BrandFont(id: string, name: string, source: FontSource, url: string, cssFamily: string)

  /** A file the user picked, with the displayable reference the browser made for it. */
  datatype SelectedFile = SelectedFile(name: string, objectUrl: string)

  /** `file` is present only for logos uploaded in this session. */
  datatype BrandLogo = BrandLogo(id: string, name: string, url: string, file: Option<SelectedFile>)

  datatype BrandData = BrandData(
    brandName: string,
    colors: seq<BrandColor>,
    fonts: seq<BrandFont>,
    logos: seq<BrandLogo>)

  /** The ids the components filter on. */
  function ColorId(c: BrandColor): string { c.id }
  function FontId(f: BrandFont): string { f.id }
  function LogoId(l: BrandLogo): string { l.id }

  /** `defaultBrandData`: no name and nothing collected. */
  const DefaultBrandData := BrandData("", [], [], [])

  /**
   * `new URL(url).searchParams.get('family')`: the already form-decoded
   * `family` parameter, or `None` when the URL does not parse or has none.
   */
  type FamilyLookup = string -> Option<string>

  /**
   * `name` is read off `family`: the text before its first `:`, with every
   * `+` turned into a space.
   */
  predicate IsFamilyName(family: string, name: string) {
    && |name| <= |family|
    && (|name| == |family| || family[|name|] == ':')
    && forall i :: 0 <= i < |name| ==>
         family[i] != ':' && name[i] == (if family[i] == '+' then ' ' else family[i])
  }

  /** `extractGoogleFontName`: `None` when `family` is missing or empty. */
  function ExtractGoogleFontName(lookup: FamilyLookup, url: string): (name: Option<string>)
    ensures name.None? <==> lookup(url).None? || lookup(url) == Some("")
    ensures name.Some? ==> IsFamilyName(lookup(url).value, name.value)
    ensures name.Some? ==> ':' !in name.value && '+' !in name.value
  {
    match lookup(url)
    case None => None
    case Some(family) =>
      if family == "" then None
      else
        SplitHead(family, ':');
        Some(ReplaceAll(Split(family, ':')[0], '+', ' '))
  }

  /** A family `x:y` with no `:` in `x` names the font `x`, pluses read as spaces. */
  lemma ExtractBeforeColon(lookup: FamilyLookup, url: string, x: string, y: string)
    requires lookup(url) == Some(x + ":" + y)
    requires ':' !in x
    ensures ExtractGoogleFontName(lookup, url) == Some(ReplaceAll(x, '+', ' '))
  {
    var family := x + ":" + y;
    assert family == x + [':'] + y;
    SplitNoSeparator(x, ':');
    SplitConcat(x, ':', y);
  }

  /**
   * A `family` of `Open+Sans:wght@400;700` with its `+` left in by the
   * lookup gives `Open Sans`: the name reads pluses as spaces itself.
   */
  lemma ExtractOpenSans(lookup: FamilyLookup, url: string)
    requires lookup(url) == Some("Open+Sans" + ":" + "wght@400;700")
    ensures ExtractGoogleFontName(lookup, url) == Some("Open Sans")
  {
    var x := "Open+Sans";
    assert ':' !in x by {
      assert forall i :: 0 <= i < |x| ==> x[i] != ':';
    }
    ExtractBeforeColon(lookup, url, x, "wght@400;700");
    var r := ReplaceAll(x, '+', ' ');
    assert r == "Open Sans" by {
      assert forall i :: 0 <= i < |r| ==> r[i] == "Open Sans"[i];
    }
  }

  /**
   * The same URL through `searchParams`, which has already turned the `+`
   * into a space, gives the same name.
   */
  lemma ExtractOpenSansDecoded(lookup: FamilyLookup, url: string)
    requires lookup(url) == Some("Open Sans" + ":" + "wght@400;700")
    ensures ExtractGoogleFontName(lookup, url) == Some("Open Sans")
  {
    var x := "Open Sans";
    assert ':' !in x && '+' !in x by {
      assert forall i :: 0 <= i < |x| ==> x[i] != ':' && x[i] != '+';
    }
    ExtractBeforeColon(lookup, url, x, "wght@400;700");
  }

  /** The input panel's help text, `family=Inter`: a family without a `:` is the name itself. */
  lemma ExtractInter(lookup: FamilyLookup, url: string)
    requires lookup(url) == Some("Inter")
    ensures ExtractGoogleFontName(lookup, url) == Some("Inter")
  {
    var x := "Inter";
    assert ':' !in x && '+' !in x by {
      assert forall i :: 0 <= i < |x| ==> x[i] != ':' && x[i] != '+';
    }
    SplitNoSeparator(x, ':');
  }

  datatype UnsharableAssets = UnsharableAssets(hasLogos: bool)

  /** `hasUnsharableAssets`: logos are what a share link cannot carry. */
  function HasUnsharableAssets(d: BrandData): (u: UnsharableAssets)
    ensures u.hasLogos <==> d.logos != []
  {
    UnsharableAssets(|d.logos| > 0)
  }
}
