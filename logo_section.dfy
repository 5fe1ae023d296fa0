/**
 * The logo preview: every logo on a row of backgrounds (four fixed ones,
 * then up to three brand colours) and at five heights. The brand-colour
 * backgrounds pick their text colour with the section's own `luminance`.
 */
module LogoSection {
  import opened Wrappers
  import opened ColorMath
  import opened BrandStore
  import opened Collections

  /** A background tile's colour scheme: a caption, the background and the text colour. */
  datatype Background = Background(caption: string, bg: string, text: string)

  /** One logo's previews: its name as heading, the image source, one tile per background and the sizes. */
  datatype LogoPreview = LogoPreview(heading: string, src: string, tiles: seq<Background>, sizes: seq<nat>)

  datatype LogoSectionView = NoLogos | Logos(previews: seq<LogoPreview>)

  const Dark := "#111111"

  /** `luminance`: the weighted luma of a parsable hex, and 0 for anything else. */
  function Luminance(hex: string): (y: real)
    ensures 0.0 <= y <= 1.0
    ensures HexToRgb(hex).None? ==> y == 0.0
  {
    match HexToRgb(hex)
    case None => 0.0
    case Some(c) => Luma(c)
  }

  /** `luminance(hex) > 0.5 ? '#111111' : '#ffffff'`. */
  function TextOn(hex: string): (text: string)
    ensures text == Dark || text == White
  {
    if Luminance(hex) > 0.5 then Dark else White
  }

  /** Dark text exactly on a parsable colour whose integer luma passes `299 r + 587 g + 114 b > 127500`. */
  lemma TextOnDarkIff(hex: string)
    ensures TextOn(hex) == Dark <==>
      HexToRgb(hex).Some? &&
      299 * HexToRgb(hex).value.r + 587 * HexToRgb(hex).value.g + 114 * HexToRgb(hex).value.b > 127500
  {
    if HexToRgb(hex).Some? {
      LumaAboveHalf(HexToRgb(hex).value);
    }
  }

  /**
   * On parsable input the section agrees with `getContrastColor` up to the
   * shade (`#111111` for black); on unparsable input it picks white where
   * `getContrastColor` picks black.
   */
  lemma TextOnAgainstContrast(hex: string)
    ensures HexToRgb(hex).Some? ==> (TextOn(hex) == Dark <==> GetContrastColor(hex) == Black)
    ensures HexToRgb(hex).None? ==> TextOn(hex) == White && GetContrastColor(hex) == Black
  {
    TextOnDarkIff(hex);
  }

  /** White, Light Gray, Dark and Black, each with its own text colour. */
  const FixedBackgrounds: seq<Background> := [
    Background("White", "#ffffff", "#111111"),
    Background("Light Gray", "#f4f4f5", "#111111"),
    Background("Dark", "#18181b", "#fafafa"),
    Background("Black", "#000000", "#ffffff")
  ]

  /**
   * A brand colour as a tile: its name on its hex, in the text colour
   * `luminance` picks, which agrees with `getContrastColor` on a parsable hex.
   */
  function ColorBackground(c: BrandColor): (b: Background)
    ensures b.caption == c.name && b.bg == c.hex
    ensures b.text == Dark || b.text == White
    ensures HexToRgb(c.hex).Some? ==> (b.text == Dark <==> GetContrastColor(c.hex) == Black)
  {
    TextOnAgainstContrast(c.hex);
    Background(c.name, c.hex, TextOn(c.hex))
  }

  function ColorBackgrounds(colors: seq<BrandColor>): (bs: seq<Background>)
    ensures |bs| == |colors|
    ensures forall k :: 0 <= k < |colors| ==> bs[k] == ColorBackground(colors[k])
  {
    if colors == [] then [] else ColorBackgrounds(colors[..|colors| - 1]) + [ColorBackground(colors[|colors| - 1])]
  }

  /** `backgrounds`: the four fixed ones, then the first up to three colours. */
  function Backgrounds(colors: seq<BrandColor>): (bs: seq<Background>)
    ensures 4 <= |bs| <= 7
    ensures |bs| - 4 <= |colors|
  {
    FixedBackgrounds + ColorBackgrounds(Take(colors, 3))
  }

  /** There are `4 + min(3, n)` backgrounds; after the fixed four come the colours, in order. */
  lemma BackgroundsShape(colors: seq<BrandColor>)
    ensures |Backgrounds(colors)| == 4 + (if |colors| >= 3 then 3 else |colors|)
    ensures Backgrounds(colors)[..4] == FixedBackgrounds
    ensures forall k :: 0 <= k < |Backgrounds(colors)| - 4 ==>
      Backgrounds(colors)[4 + k] == Background(colors[k].name, colors[k].hex, TextOn(colors[k].hex))
  {
    var bs := Backgrounds(colors);
    assert bs[..4] == FixedBackgrounds;
  }

  /** `[80, 56, 40, 28, 20]`. */
  const Sizes: seq<nat> := [80, 56, 40, 28, 20]

  /** `logo.url || '/placeholder.svg'`. */
  function ImageSource(logo: BrandLogo): (src: string)
    ensures src != []
    ensures logo.url != [] ==> src == logo.url
  {
    if logo.url != [] then logo.url else "/placeholder.svg"
  }

  /** One logo's row: its name, an image source that is never empty, four to seven tiles and the five sizes. */
  function PreviewOf(logo: BrandLogo, colors: seq<BrandColor>): (p: LogoPreview)
    ensures p.heading == logo.name && p.src != [] && (logo.url != [] ==> p.src == logo.url)
    ensures 4 <= |p.tiles| <= 7 && |p.sizes| == 5
  {
    LogoPreview(logo.name, ImageSource(logo), Backgrounds(colors), Sizes)
  }

  function Previews(logos: seq<BrandLogo>, colors: seq<BrandColor>): (ps: seq<LogoPreview>)
    ensures |ps| == |logos|
    ensures forall k :: 0 <= k < |logos| ==> ps[k] == PreviewOf(logos[k], colors)
  {
    if logos == [] then [] else Previews(logos[..|logos| - 1], colors) + [PreviewOf(logos[|logos| - 1], colors)]
  }

  /** The section: a placeholder without logos, otherwise one preview per logo. */
  function View(logos: seq<BrandLogo>, colors: seq<BrandColor>): (v: LogoSectionView)
    ensures v.NoLogos? <==> logos == []
    ensures v.Logos? ==> |v.previews| == |logos|
  {
    if logos == [] then NoLogos else Logos(Previews(logos, colors))
  }
}
