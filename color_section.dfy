/**
 * The colour preview: a strip of swatches, one card per colour, and the
 * accessibility pairings of backgrounds with foreground text colours.
 */
module ColorSection {
  import opened Wrappers
  import opened Text
  import opened ColorMath
  import opened BrandStore
  import opened Collections

  /** A strip swatch: the colour as background, the contrast colour as text, the hex upper-cased. */
  datatype Swatch = Swatch(background: string, text: string, caption: string)

  /** A detail card: name, upper-cased hex, and the RGB and HSL rows when the hex parses. */
  datatype Card = Card(name: string, hexLabel: string, rgb: Option<Rgb>, hsl: Option<Hsl>)

  /** A pairing tile: text in `fg`'s colour on `bg`'s. */
  datatype Pairing = Pairing(bg: BrandColor, fg: BrandColor)

  /** What the section shows: a placeholder, or the strip, the cards and (from two colours) the pairings. */
  datatype ColorSectionView =
    | NoColors
    | Colors(strip: seq<Swatch>, cards: seq<Card>, pairings: Option<seq<Pairing>>)

  function SwatchOf(c: BrandColor): (s: Swatch)
    ensures s.text == Black || s.text == White
  {
    Swatch(c.hex, GetContrastColor(c.hex), ToUpper(c.hex))
  }

  function CardOf(c: BrandColor): (card: Card)
    ensures card.rgb.Some? <==> card.hsl.Some?
    ensures card.rgb.Some? <==> MatchesHexPattern(c.hex)
  {
    Card(c.name, ToUpper(c.hex), HexToRgb(c.hex), HexToHsl(c.hex))
  }

  function Strip(colors: seq<BrandColor>): (s: seq<Swatch>)
    ensures |s| == |colors|
    ensures forall k :: 0 <= k < |colors| ==> s[k] == SwatchOf(colors[k])
  {
    if colors == [] then [] else Strip(colors[..|colors| - 1]) + [SwatchOf(colors[|colors| - 1])]
  }

  function Cards(colors: seq<BrandColor>): (cs: seq<Card>)
    ensures |cs| == |colors|
    ensures forall k :: 0 <= k < |colors| ==> cs[k] == CardOf(colors[k])
  {
    if colors == [] then [] else Cards(colors[..|colors| - 1]) + [CardOf(colors[|colors| - 1])]
  }

  /** `colors.filter(fg => fg.id !== bg.id).slice(0, 2)`. */
  function Foregrounds(colors: seq<BrandColor>, bg: BrandColor): (fgs: seq<BrandColor>)
    ensures |fgs| <= 2
    ensures forall k :: 0 <= k < |fgs| ==> fgs[k].id != bg.id
  {
    Take(Without(colors, ColorId, bg.id), 2)
  }

  /** The tiles of one background, one per foreground, in order. */
  function PairsWith(bg: BrandColor, fgs: seq<BrandColor>): (ps: seq<Pairing>)
    ensures |ps| == |fgs|
    ensures forall k :: 0 <= k < |fgs| ==> ps[k] == Pairing(bg, fgs[k])
  {
    if fgs == [] then [] else PairsWith(bg, fgs[..|fgs| - 1]) + [Pairing(bg, fgs[|fgs| - 1])]
  }

  /** The tiles of the backgrounds `bgs`, background by background. */
  function PairingsOver(bgs: seq<BrandColor>, colors: seq<BrandColor>): (ps: seq<Pairing>)
    ensures |ps| <= 2 * |bgs|
  {
    if bgs == [] then []
    else PairingsOver(bgs[..|bgs| - 1], colors) + PairsWith(bgs[|bgs| - 1], Foregrounds(colors, bgs[|bgs| - 1]))
  }

  /** `colors.slice(0, 4).map(bg => …)`, flattened. */
  function Pairings(colors: seq<BrandColor>): (ps: seq<Pairing>)
    ensures |ps| <= 8
  {
    PairingsOver(Take(colors, 4), colors)
  }

  /** The section for a list of colours. */
  function View(colors: seq<BrandColor>): (v: ColorSectionView)
    ensures v.NoColors? <==> colors == []
    ensures v.Colors? ==> (v.pairings.Some? <==> |colors| >= 2)
  {
    if colors == [] then NoColors
    else Colors(Strip(colors), Cards(colors), if |colors| >= 2 then Some(Pairings(colors)) else None)
  }

  /** No tile pairs a colour with itself, every background is among the first four, and every foreground is a colour. */
  lemma {:induction false} PairingsOverSound(bgs: seq<BrandColor>, colors: seq<BrandColor>)
    ensures forall p :: p in PairingsOver(bgs, colors) ==> p.bg.id != p.fg.id && p.bg in bgs && p.fg in colors
    decreases |bgs|
  {
    if bgs != [] {
      var init, bg := bgs[..|bgs| - 1], bgs[|bgs| - 1];
      PairingsOverSound(init, colors);
      var fgs := Foregrounds(colors, bg);
      forall p | p in PairsWith(bg, fgs)
        ensures p.bg.id != p.fg.id && p.bg in bgs && p.fg in colors
      {
        var k :| 0 <= k < |fgs| && PairsWith(bg, fgs)[k] == p;
        WithoutMembers(colors, ColorId, bg.id, fgs[k]);
      }
      forall p | p in init ensures p in bgs { }
    }
  }

  lemma PairingsSound(colors: seq<BrandColor>)
    ensures forall p :: p in Pairings(colors) ==>
      p.bg.id != p.fg.id && p.bg in Take(colors, 4) && p.fg in colors
  {
    PairingsOverSound(Take(colors, 4), colors);
  }

  /** Every colour has its own id, as those `generateId` hands out do. */
  predicate DistinctIds(colors: seq<BrandColor>) {
    DistinctBy(colors, ColorId)
  }

  /** The colours other than the `i`-th, in order. */
  function Others(colors: seq<BrandColor>, i: nat): (os: seq<BrandColor>)
    requires i < |colors|
    ensures |os| == |colors| - 1
  {
    colors[..i] + colors[i + 1..]
  }

  /** With distinct ids, the foregrounds of the `i`-th colour are the first two of the others. */
  lemma ForegroundsOfDistinct(colors: seq<BrandColor>, i: nat)
    requires i < |colors| && DistinctIds(colors)
    ensures Foregrounds(colors, colors[i]) == Take(Others(colors, i), 2)
  {
    WithoutUnique(colors, ColorId, i);
  }

  /**
   * With distinct ids, every background gets `m = min(2, n - 1)` tiles, so
   * tile `m * i + j` shows, on background `i`, the `j`-th of the other colours.
   */
  lemma {:induction false} PairingsOverAt(bgs: seq<BrandColor>, colors: seq<BrandColor>, m: nat)
    requires DistinctIds(colors) && |colors| >= 1 && m == if |colors| >= 3 then 2 else |colors| - 1
    requires |bgs| <= |colors| && forall i :: 0 <= i < |bgs| ==> bgs[i] == colors[i]
    ensures |PairingsOver(bgs, colors)| == m * |bgs|
    ensures forall i, j :: 0 <= i < |bgs| && 0 <= j < m ==>
      PairingsOver(bgs, colors)[m * i + j] == Pairing(colors[i], Others(colors, i)[j])
    decreases |bgs|
  {
    if bgs != [] {
      var n := |bgs| - 1;
      var init, bg := bgs[..n], bgs[n];
      PairingsOverAt(init, colors, m);
      ForegroundsOfDistinct(colors, n);
      var fgs := Foregrounds(colors, bg);
      assert |fgs| == m;
      var ps := PairingsOver(bgs, colors);
      assert ps == PairingsOver(init, colors) + PairsWith(bg, fgs);
      assert |ps| == m * |bgs| by {
        BlockEnd(m, n);
      }
      var head := PairingsOver(init, colors);
      forall i, j | 0 <= i < |bgs| && 0 <= j < m
        ensures ps[m * i + j] == Pairing(colors[i], Others(colors, i)[j])
      {
        if i < n {
          BlockIndex(m, i, j, n);
          assert ps[m * i + j] == head[m * i + j];
        } else {
          assert i == n && |head| == m * n;
          assert ps[m * i + j] == PairsWith(bg, fgs)[j];
        }
      }
    }
  }

  /** Tile `j` of block `i` lies before block `n`, for `i < n`. */
  lemma BlockIndex(m: nat, i: nat, j: nat, n: nat)
    requires m <= 2 && i < n && j < m
    ensures m * i + j < m * n
  {
    if m == 1 {
      assert m * i + j == i + j && m * n == n;
    } else {
      assert m * i + j == 2 * i + j && m * n == 2 * n;
    }
  }

  lemma BlockEnd(m: nat, n: nat)
    requires m <= 2
    ensures m * (n + 1) == m * n + m
  {
    if m == 0 {
    } else if m == 1 {
    } else {
      assert m * (n + 1) == 2 * n + 2;
    }
  }

  /** With distinct ids there are `min(4, n) * min(2, n - 1)` tiles, in background order. */
  lemma PairingsCount(colors: seq<BrandColor>)
    requires DistinctIds(colors) && |colors| >= 2
    ensures var m := if |colors| >= 3 then 2 else 1;
      && |Pairings(colors)| == (if |colors| >= 4 then 4 else |colors|) * m
      && forall i, j :: 0 <= i < |Take(colors, 4)| && 0 <= j < m ==>
           Pairings(colors)[m * i + j] == Pairing(colors[i], Others(colors, i)[j])
  {
    var m := if |colors| >= 3 then 2 else 1;
    PairingsOverAt(Take(colors, 4), colors, m);
  }
}
