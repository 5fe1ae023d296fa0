# brandguide, modelled in Dafny

brandguide lets a user put together a brand kit: a brand name, named colours, Google
font references and uploaded logos. It shows previews of the kit. It can also share
the kit as a link: the colours, fonts and name go into query parameters, logos never
do, and the shared view is rebuilt from that link.

This project models the core of that system and proves properties of the model:

- `lib/brand-store.ts`:
  - the brand record;
  - the id generator;
  - hex parsing, HSL conversion and the contrast colour;
  - the Google font name taken from a stylesheet URL;
  - the share-link encoder and decoder.
- `components/brand-input-panel.tsx`:
  - the records the editing panel emits when colours, fonts and logos are added or removed;
  - the brand name edit;
  - the share gate.
- `components/preview-sections/color-section.tsx`:
  - the colour strip, the colour cards and the accessibility pairings.
- `components/preview-sections/logo-section.tsx`:
  - the backgrounds each logo is shown on, and the text colour used on them.

Modules, in dependency order:

| module | file | contents |
|---|---|---|
| `Wrappers` | `wrappers.dfy` | `Option` |
| `Text` | `text.dfy` | The JavaScript string operations the core uses: `split` and `join` on one character, `replace`, decimal text of integers, hex digits, `toUpperCase`. |
| `UriComponent` | `uri_component.dfy` | `encodeURIComponent` and `decodeURIComponent` over UTF-8 escapes, with the decoder's failure made explicit. |
| `ColorMath` | `color_math.dfy` | `hexToRgb`, `hexToHsl`, `getContrastColor` |
| `Ids` | `ids.dfy` | `generateId`, as a class holding the module-level counter; the clock is a function supplied by the caller. |
| `BrandStore` | `brand_store.dfy` | The record types, `defaultBrandData`, `extractGoogleFontName` and `hasUnsharableAssets`. |
| `LinkCodec` | `link_codec.dfy` | `encodeBrandDataToParams` and `decodeBrandDataFromParams`. Each is a method with a loop, proved against specification functions, plus the round-trip lemmas. |
| `Collections` | `collections.dfy` | `filter` by id, and `slice(0, n)` |
| `InputPanel` | `input_panel.dfy` | The panel's input state as a class, and the records its handlers emit. |
| `ColorSection` | `color_section.dfy` | Swatches, cards and pairings. |
| `LogoSection` | `logo_section.dfy` | `luminance`, the background list and the logo previews. |

Where the written description of the system and the code differ, the model follows the code:

- `hexToHsl` can return a hue of 360, not only hues in [0, 360). See Findings.
- Decoding a shared link can fail after the `shared=1` gate. `decodeURIComponent` throws on a malformed escape in a colour name, and nothing in `decodeBrandDataFromParams` catches it. The model gives this outcome its own value, `Threw`.
- The colour name is decoded before the hex is validated. So a bad escape throws even in an entry that would have been skipped.
- Every `|`-separated segment of `gf` is handed to the font-name parser, including an empty one.
- `addColor` does not trim the typed name. Only an empty name falls back to the hex.
- Uploading several logos at once keeps only the last one. The page passes `setBrandData` as `onChange` (`app/page.tsx:103`), so it keeps only the last record the panel emits. See Findings.

## Model

| member | source | states |
|---|---|---|
| BrandStore.ExtractGoogleFontName | lib/brand-store.ts:97-108 | The result is `None` exactly when the URL gives no `family` or an empty one. Otherwise the name is the text of `family` before its first `:`, with every `+` turned into a space, so it holds no `:` and no `+`. |
| BrandStore.ExtractBeforeColon | lib/brand-store.ts:101-103 | For a `family` of the form `x:y`, where `x` has no `:`, the name is `x` with `+` turned into spaces. |
| BrandStore.ExtractOpenSans | lib/brand-store.ts:101-103 | A lookup that leaves the `+` of `Open+Sans:wght@400;700` in place gives `Open Sans`, since the name reads `+` as a space. |
| BrandStore.ExtractOpenSansDecoded | lib/brand-store.ts:100-103 | The same family as `searchParams` returns it, `Open Sans:wght@400;700` with the `+` already a space, also gives `Open Sans`. |
| BrandStore.ExtractInter | lib/brand-store.ts:100-103 | A `family` of `Inter`, as in the input panel's help text, has no `:` and gives `Inter`. |
| BrandStore.HasUnsharableAssets | lib/brand-store.ts:110-116 | `hasLogos` holds exactly when the record has a logo. |
| ColorMath.PairValue | lib/brand-store.ts:46-48 | A pair of hex digits parses to a value in [0, 255]. |
| ColorMath.HexToRgb | lib/brand-store.ts:42-51 | The result is a colour exactly when the input is six hex digits, in either case, optionally after one `#`. Every channel is a byte. |
| ColorMath.HexToRgbRoundTrip | lib/brand-store.ts:42-51 | Writing a parsed colour back as hex gives the input's six digits in upper case. |
| ColorMath.RgbToHex | lib/brand-store.ts:42-51 | Every byte colour is written as six hex digits, in the shape `hexToRgb` accepts. |
| ColorMath.MatchesHexPattern | lib/brand-store.ts:43 | The pattern of `hexToRgb`: six hex digits, optionally after one `#`. A predicate; `HexToRgb` states its meaning. |
| ColorMath.IsHexColor | lib/brand-store.ts:152 | The pattern `/^#[0-9A-F]{6}$/i`. A predicate; `DecodeColorEntry` and `NormalizeHexAccepts` state its meaning. |
| ColorMath.RgbToHexRoundTrip | lib/brand-store.ts:42-51 | Every byte triple written as six hex digits parses back to itself. |
| ColorMath.Max3 | lib/brand-store.ts:60 | `Math.max` of three values: one of them, and at least each of them. |
| ColorMath.Min3 | lib/brand-store.ts:61 | `Math.min` of three values: one of them, and at most each of them. |
| ColorMath.Round | lib/brand-store.ts:83-85 | `Math.round` gives the integer nearest its argument, with halves going up. |
| ColorMath.Hue | lib/brand-store.ts:69-79 | For a colour that is not grey, the unscaled hue from the branch on the largest channel lies in [0, 1]. |
| ColorMath.Saturation | lib/brand-store.ts:68 | The saturation from the two-branch formula on lightness lies in [0, 1]. |
| ColorMath.RgbToHsl | lib/brand-store.ts:57-86 | The hue lies in [0, 360]. Saturation and lightness lie in [0, 100]. A grey has hue 0 and saturation 0. |
| ColorMath.HexToHsl | lib/brand-store.ts:53-87 | The result is `None` exactly when `hexToRgb` fails. Otherwise the same bounds hold, and a grey has hue 0 and saturation 0. |
| ColorMath.HueReaches360 | lib/brand-store.ts:83 | As written, `#ff0002` gives the HSL triple (360, 100, 50). |
| ColorMath.WrapHue | lib/brand-store.ts:83 | The hue `h % 360` lies in [0, 360). It is unchanged below 360, and 360 becomes 0. Saturation and lightness are kept. |
| ColorMath.HexToHslWrapped | lib/brand-store.ts:53-87 | The hue as evidently intended: defined exactly when `hexToRgb` succeeds, with hue in [0, 360). It agrees with `HexToHsl`, except that hue 360 becomes 0. |
| ColorMath.Luma | lib/brand-store.ts:93 | The weighted luminance of a byte colour lies in [0, 1]. |
| ColorMath.LumaAboveHalf | lib/brand-store.ts:93-94 | The luminance exceeds 0.5 exactly when `299 r + 587 g + 114 b > 127500`. |
| ColorMath.GetContrastColor | lib/brand-store.ts:89-95 | The result is black or white. It is black for an unparsable hex. For a parsable hex it is black exactly when the luminance exceeds 0.5. |
| Ids.FormatIdText | lib/brand-store.ts:39 | An id is `id-`, then the time in decimal, then `-`, then the counter in decimal. |
| Ids.FormatId | lib/brand-store.ts:39 | The id text. A function; `FormatIdText`, `CounterPartOfId` and `FormatIdInjective` state its meaning. |
| Ids.CounterPartOfId | lib/brand-store.ts:39 | The text after an id's last `-` is its counter in decimal. |
| Ids.FormatIdInjective | lib/brand-store.ts:36-40 | Two equal ids carry equal counters, whatever the clock said. |
| Ids.IdRange | lib/brand-store.ts:36-40 | `n` calls in a row hand out `n` ids. |
| Ids.IdRangeAt | lib/brand-store.ts:36-40 | The `k`-th of those ids carries counter `start + 1 + k`. |
| Ids.CounterIdsDiffer | lib/brand-store.ts:36-40 | Ids made under different counters differ. |
| Ids.IdRangeDistinct | lib/brand-store.ts:36-40 | The ids of one run of calls are pairwise distinct. |
| Ids.IdRangesDisjoint | lib/brand-store.ts:36-40 | A run of calls and the run after it share no id. |
| Ids.IdGenerator.constructor | lib/brand-store.ts:36 | The counter starts at 0. |
| Ids.IdGenerator.Next | lib/brand-store.ts:37-40 | The counter goes up by one first, and the id is made from the clock's time and the new counter. |
| Ids.NextTwiceDiffers | lib/brand-store.ts:37-40 | Two calls on one generator never return the same id. |
| Text.IndexOf | lib/brand-store.ts:149 | The first position of the separator, or the length when it is absent. No earlier position holds it. |
| Text.Split | lib/brand-store.ts:148-149 | `split` on one character gives at least one part, and no part contains the separator. |
| Text.SplitNoSeparator | lib/brand-store.ts:148-149 | Text without the separator splits into itself alone. |
| Text.SplitConcat | lib/brand-store.ts:148-149 | Splitting `x + d + y` gives the parts of `x` followed by the parts of `y`. |
| Text.SplitJoin | lib/brand-store.ts:127 | Joining separator-free parts with `d` and splitting on `d` gives the parts back. |
| Text.JoinSplit | lib/brand-store.ts:149-151 | Splitting on `d` and joining with `d` gives the text back. |
| Text.SplitHead | lib/brand-store.ts:102 | `split(d)[0]` is the prefix before the first `d`, or the whole text. |
| Text.SplitTail | lib/brand-store.ts:149-151 | `nameParts.join(':')` is the text after the first `:`, or empty when there is none. |
| Text.ReplaceAll | lib/brand-store.ts:102 | `replace(/\+/g, ' ')` changes every `+` to a space and leaves every other character. So no `+` is left, and text without a `+` is unchanged. |
| Text.RemoveFirst | lib/brand-store.ts:127 | `replace('#', '')` with a string pattern leaves text without a `#` unchanged. Otherwise it removes the first `#` only: the text before it and everything after it are kept. |
| Text.NatToStringInjective | lib/brand-store.ts:39 | Different counters have different decimal texts. |
| Text.ToUpper | components/preview-sections/color-section.tsx:25 | `toUpperCase` keeps the length and maps each character on its own. A hex digit stays a hex digit of the same value. |
| Text.ToUpperIdempotent | components/preview-sections/color-section.tsx:25 | Upper-casing twice is upper-casing once. |
| UriComponent.Encode | lib/brand-store.ts:127 | `encodeURIComponent` gives escape-only text. It contains no `,`, `:` or `|`, so an encoded name cannot break a colour entry. |
| UriComponent.DecodeEscapes | lib/brand-store.ts:151 | A decoded escape sequence consumes between 3 characters and the rest of the input. |
| UriComponent.Decode | lib/brand-store.ts:151 | When `decodeURIComponent` succeeds, its result is no longer than its input. Text without a `%` decodes to itself. |
| UriComponent.DecodeUnreservedHead | lib/brand-store.ts:151 | An unreserved character in front of decodable text decodes as itself. |
| UriComponent.DecodeEscapedHead | lib/brand-store.ts:151 | The escapes of any other character in front of decodable text decode as that character. |
| UriComponent.DecodeEncode | lib/brand-store.ts:127 | `decodeURIComponent(encodeURIComponent(s)) == s` for every string of code points. |
| LinkCodec.EncodedColors | lib/brand-store.ts:127 | One entry per colour, in order: the hex less its first `#`, a `:`, the encoded name. |
| LinkCodec.FontUrls | lib/brand-store.ts:132 | One URL per font, in order. |
| LinkCodec.Get | lib/brand-store.ts:140-159 | `searchParams.get`: a present parameter gives its value, an absent one gives nothing. |
| LinkCodec.EncodeColor | lib/brand-store.ts:127 | One colour entry. A function; `EncodeStoredColor` and `DecodeEncodedColor` state its meaning. |
| LinkCodec.EncodeStoredColor | lib/brand-store.ts:127 | For a stored `#rrggbb`, the `#` removed is the leading one: the entry is the six digits, a `:`, and the encoded name. |
| LinkCodec.ColorsParam | lib/brand-store.ts:127 | For a non-empty list of shareable colours, the `c` text splits on `,` back into exactly one entry per colour. |
| LinkCodec.FontsParam | lib/brand-store.ts:132 | For a non-empty list of fonts whose URLs hold no `\|`, the `gf` text splits on `\|` back into exactly those URLs. |
| LinkCodec.EncodedParams | lib/brand-store.ts:118-137 | The link holds no parameter other than `shared`, `name`, `c` and `gf`. |
| LinkCodec.EncodedFields | lib/brand-store.ts:120-134 | `shared` is `1`. `name` is present exactly when the brand name is non-empty. `c` is present exactly when there is a colour, and `gf` exactly when there is a font. |
| LinkCodec.EncodeBrandDataToParams | lib/brand-store.ts:118-137 | The method that sets the parameters one by one builds exactly `EncodedParams`. |
| LinkCodec.EncodeIgnoresLogos | lib/brand-store.ts:118-137 | The logos never change the link. |
| LinkCodec.DecodeColorEntry | lib/brand-store.ts:149-154 | A kept entry has a valid `#rrggbb` hex and a non-empty name. |
| LinkCodec.DecodeColorEntryAtColon | lib/brand-store.ts:149-154 | For an entry `h:t`, the outcome is decided as follows. A bad escape in `t` throws, whatever `h` is. Otherwise an invalid `#h` is skipped, and a valid one is kept with the decoded `t` as its name, or the hex when `t` decodes to empty. |
| LinkCodec.ColorEntries | lib/brand-store.ts:148 | One outcome per comma-separated entry. |
| LinkCodec.KeptColors | lib/brand-store.ts:145-156 | No more colours are kept than there are entries. `KeptColorsOne` and `KeptColorsConcat` state what is kept. |
| LinkCodec.KeptColorsOne | lib/brand-store.ts:148-155 | One entry alone: a valid one gives its colour, an invalid hex gives nothing, and a bad escape gives nothing and reports the throw. |
| LinkCodec.KeptColorsConcat | lib/brand-store.ts:148-155 | Over the entries `a` then `b`: when `a` throws, `b` changes nothing. Otherwise the colours of `a` come first, then those of `b` with nothing of `b` dropped or reordered, and the throw is `b`'s. |
| LinkCodec.SkipsBadHex | lib/brand-store.ts:149-154 | An entry `h:t` whose `t` decodes and whose `#h` is not a valid hex is skipped. |
| LinkCodec.KeepsGoodHex | lib/brand-store.ts:149-154 | An entry `h:t` with a valid `#h` and a `t` without `%` is kept, named `t`, or the hex when `t` is empty. |
| LinkCodec.ColorEntriesTwo | lib/brand-store.ts:148 | Two entries give two outcomes, in order. |
| LinkCodec.SkipsFirstOfTwo | lib/brand-store.ts:146-156 | A `c` of an invalid entry then a valid one gives exactly the second colour, and nothing throws. |
| LinkCodec.SkipsInvalidColor | lib/brand-store.ts:146-156 | `c=gg0000:Red,00ff00:Green` gives the one colour `#00ff00`, named `Green`. |
| LinkCodec.KeptColorsAreValid | lib/brand-store.ts:152-153 | Every decoded colour has a valid hex and a non-empty name. |
| LinkCodec.ThrowPersists | lib/brand-store.ts:151 | Once an entry throws, the entries after it change nothing. |
| LinkCodec.DecodeFontEntry | lib/brand-store.ts:162-163 | A segment gives a font exactly when a non-empty name comes out of its URL. The font keeps the URL as written. |
| LinkCodec.FontEntries | lib/brand-store.ts:161 | One outcome per `|`-separated segment. |
| LinkCodec.KeptFonts | lib/brand-store.ts:158-173 | No more fonts are kept than there are segments. `KeptFontsOne` and `KeptFontsConcat` state what is kept. |
| LinkCodec.KeptFontsOne | lib/brand-store.ts:161-172 | One segment alone gives its font, or nothing when no usable name came out of it. |
| LinkCodec.KeptFontsConcat | lib/brand-store.ts:161-172 | Over the segments `a` then `b`: the fonts of `a`, then those of `b`. A skipped segment never hides the ones after it. |
| LinkCodec.SkipsUnnamedFont | lib/brand-store.ts:159-173 | A `gf` of a URL that gives no family, then a URL naming a font, gives exactly the second font. |
| LinkCodec.KeptFontsNamed | lib/brand-store.ts:162-163 | Every font kept from the segments has a non-empty name. |
| LinkCodec.ColorsOf | lib/brand-store.ts:146-156 | Every colour from the link has a valid hex and a non-empty name. Without a `c`, or with an empty one, there are none and nothing throws. |
| LinkCodec.FontsOf | lib/brand-store.ts:159-173 | Every font from the link has a non-empty name. Without a `gf`, or with an empty one, there are none. |
| LinkCodec.DecodedView | lib/brand-store.ts:139-181 | The result is not-shared exactly when `shared` is not `1`. It throws exactly when the gate passes and some colour entry throws. |
| LinkCodec.FreshIdsDistinct | lib/brand-store.ts:153-165 | The colours and fonts of a decoded record have pairwise distinct ids, none of them shared between a colour and a font. |
| LinkCodec.DecodeColors | lib/brand-store.ts:145-156 | The loop keeps exactly the colours `KeptColors` describes and reports the throw. It draws one id per kept colour, in order. |
| LinkCodec.DecodeFonts | lib/brand-store.ts:158-173 | The loop keeps exactly the fonts `KeptFonts` describes, all with source Google and `cssFamily` equal to the name. It draws one id per kept font, in order. |
| LinkCodec.DecodeBrandDataFromParams | lib/brand-store.ts:139-181 | The outcome (not shared, thrown, or record) agrees with `DecodedView`. A record matches it apart from ids, has no logos and has fresh distinct ids. The generator advances by exactly the ids drawn. |
| LinkCodec.DecodeEncodedColor | lib/brand-store.ts:127-153 | A colour with a valid hex and a non-empty name encodes to one comma-free entry that decodes back to the same hex and name. |
| LinkCodec.EncodedColorsCommaFree | lib/brand-store.ts:127 | No entry of stored colours with names holds a `,`. |
| LinkCodec.ColorsOfEncoded | lib/brand-store.ts:127-153 | The encoded entries of shareable colours decode to those colours, in order, without a throw. |
| LinkCodec.FontsOfUrls | lib/brand-store.ts:132-172 | The URLs of shareable fonts decode to those fonts, in order. |
| LinkCodec.ColorsRoundTrip | lib/brand-store.ts:126-156 | Shareable colours survive the `c` parameter. |
| LinkCodec.FontsRoundTrip | lib/brand-store.ts:131-173 | Shareable fonts survive the `gf` parameter. |
| LinkCodec.RoundTrip | lib/brand-store.ts:118-181 | Decoding the link of a record with shareable colours and fonts (font URLs without a `\|`) gives back its name, colours and fonts, ids aside. |
| InputPanel.WithColor | components/brand-input-panel.tsx:36 | The colour is appended and nothing else changes. Afterwards there is something to share. |
| InputPanel.WithoutColor | components/brand-input-panel.tsx:42 | No colour with the id is left, none is added, and nothing else changes. |
| InputPanel.WithFont | components/brand-input-panel.tsx:58 | The font is appended and nothing else changes. Afterwards there is something to share. |
| InputPanel.WithoutFont | components/brand-input-panel.tsx:67 | No font with the id is left, none is added, and nothing else changes. |
| InputPanel.WithLogo | components/brand-input-panel.tsx:82 | The logo is appended and nothing else changes. The share button is enabled and the unsharable notice shown, while the share gate stays as it was. |
| InputPanel.WithoutLogo | components/brand-input-panel.tsx:89 | No logo with the id is left, none is added, and nothing else changes. |
| InputPanel.WithBrandName | components/brand-input-panel.tsx:131 | Only the name changes, and it never decides whether there is content or what can be shared. |
| InputPanel.RemoveColorEffect | components/brand-input-panel.tsx:41-43 | `removeColor` keeps exactly the colours with another id, in order, and leaves every other field alone. It also distributes over appended colours. |
| InputPanel.RemoveFontEffect | components/brand-input-panel.tsx:66-68 | The same, for `removeFont`. |
| InputPanel.RemoveLogoEffect | components/brand-input-panel.tsx:88-90 | The same, for `removeLogo`. |
| InputPanel.RemoveAbsentId | components/brand-input-panel.tsx:41-90 | Removing an id that nothing has leaves the record unchanged. |
| InputPanel.RemoveUndoesAdd | components/brand-input-panel.tsx:36-89 | Removing a just-added colour, font or logo under its new id gives back the record from before. |
| InputPanel.RenameKeepsOtherParams | components/brand-input-panel.tsx:131 | Editing the brand name leaves every link parameter other than `name` as it was. |
| InputPanel.RenameReachesLink | components/brand-input-panel.tsx:131 | Editing the brand name changes only the link's `name` parameter, which is absent for an empty name. |
| InputPanel.NormalizeHex | components/brand-input-panel.tsx:28 | The normalised input starts with `#`. |
| InputPanel.NormalizeHexAccepts | components/brand-input-panel.tsx:28-30 | The input is accepted exactly when it is six hex digits, with or without one leading `#`. |
| InputPanel.NormalizeHexIdempotent | components/brand-input-panel.tsx:28 | Normalising twice is normalising once. |
| InputPanel.ColorName | components/brand-input-panel.tsx:34 | The typed name, or the hex when none was typed. A valid hex never gets an empty name. |
| InputPanel.FontNameToAdd | components/brand-input-panel.tsx:46-50 | A font is added exactly when the URL is not blank after `trim` and a non-empty name comes out of it. That name is the one used. |
| InputPanel.BlankUrlAddsNothing | components/brand-input-panel.tsx:46-47 | An empty or white-space-only URL adds nothing. |
| InputPanel.LastIndexOf | components/brand-input-panel.tsx:78 | The last position of the character, or -1. No later position holds it. |
| InputPanel.StripExtension | components/brand-input-panel.tsx:78 | `replace(/\.[^.]+$/, '')` cuts the name at its last `.` when that `.` is followed by at least one character; otherwise the name is unchanged. |
| InputPanel.StripLastExtension | components/brand-input-panel.tsx:78 | `base.ext`, with a non-empty `ext` that has no `.`, loses exactly `.ext`. |
| InputPanel.StripKeeps | components/brand-input-panel.tsx:78 | A name without a `.`, or ending in one, is kept whole. |
| InputPanel.ShareGate | components/brand-input-panel.tsx:93-95 | The gate of `handleShare`, a colour or a font. A predicate; `ShareParams` and `ShareIffLinkCarries` state its meaning. |
| InputPanel.HasContent | components/brand-input-panel.tsx:111-112 | The button is enabled exactly when the share gate passes or there are logos. |
| InputPanel.DefaultHasNothing | lib/brand-store.ts:29-34 | The starting record enables nothing, shows no notice and shares nothing. |
| InputPanel.ShareParams | components/brand-input-panel.tsx:92-98 | Sharing produces parameters exactly when there is a colour or a font. The parameters are those of the encoder. |
| InputPanel.LogosOnlyShareNothing | components/brand-input-panel.tsx:93-112 | A record with only logos enables the share button (`hasContent`), yet sharing it does nothing, and the unsharable notice is shown. |
| InputPanel.ShareIffLinkCarries | components/brand-input-panel.tsx:92-98 | For a record with stored colours and font URLs without a `\|`, sharing goes on exactly when its link brings back a colour or a font. |
| InputPanel.LinkDropsExactlyLogos | lib/brand-store.ts:110-116 | For a record with stored colours and font URLs without a `\|`, `hasLogos` holds exactly when its link brings back fewer items than the record holds. |
| InputPanel.ShareRoundTrip | components/brand-input-panel.tsx:92-98 | What the panel shares comes back from its link, logos aside, when no font URL holds a `\|`. |
| InputPanel.AddedColorShareable | components/brand-input-panel.tsx:27-36 | The colour `addColor` adds has a valid hex and a non-empty name, so the record's colours stay shareable. |
| InputPanel.AddedFontShareable | components/brand-input-panel.tsx:45-58 | The font `addGoogleFont` adds keeps the record's fonts shareable when its URL holds no `\|`. |
| InputPanel.LogoOf | components/brand-input-panel.tsx:75-81 | A logo keeps the file's object URL and the file itself. |
| InputPanel.LogosOf | components/brand-input-panel.tsx:74-81 | One logo per file, in order, under the ids given. |
| InputPanel.UploadRecords | components/brand-input-panel.tsx:74-83 | Every record emitted has one logo more than `data`, and `data`'s colours and fonts. |
| InputPanel.UploadKeepsOnlyLast | components/brand-input-panel.tsx:74-83 | As written, the last record emitted holds only the old logos and the last file's logo. With two or more files, some are lost. |
| InputPanel.ThreadedPrefix | components/brand-input-panel.tsx:74-83 | With each record built on the one before, record `n` holds the old logos and those of the first `n + 1` files. |
| InputPanel.AccumulatedKeepsAll | components/brand-input-panel.tsx:74-83 | With each record built on the one before, the last record emitted holds the old logos followed by one logo per file, in order. |
| InputPanel.BrandInputPanel.constructor | components/brand-input-panel.tsx:21-23 | The inputs start as `#`, empty and empty. |
| InputPanel.BrandInputPanel.SetColorHex | components/brand-input-panel.tsx:143-149 | Typing a hex replaces that input and nothing else. |
| InputPanel.BrandInputPanel.SetColorName | components/brand-input-panel.tsx:156 | Typing a name replaces that input and nothing else. |
| InputPanel.BrandInputPanel.SetFontUrl | components/brand-input-panel.tsx:195 | Typing a URL replaces that input and nothing else. |
| InputPanel.BrandInputPanel.AddColor | components/brand-input-panel.tsx:27-39 | With a valid hex, one colour is added under the next id, with its name or the hex, and both colour inputs are cleared. Otherwise nothing is emitted and nothing changes, not even the counter. |
| InputPanel.BrandInputPanel.AddGoogleFont | components/brand-input-panel.tsx:45-59 | With a usable URL, one Google font is added under the next id, keeping the URL as typed, and the input is cleared. Otherwise nothing is emitted and nothing changes. |
| InputPanel.BrandInputPanel.HandleLogoUpload | components/brand-input-panel.tsx:70-86 | No file list emits nothing. Otherwise there is one record per file, each `data` plus that file's logo, under consecutive ids. |
| InputPanel.BrandInputPanel.HandleLogoUploadAccumulating | components/brand-input-panel.tsx:70-86 | The corrected upload: each record builds on the one before, and the generator advances once per file. |
| ColorSection.SwatchOf | components/preview-sections/color-section.tsx:19-27 | A strip swatch's text colour is black or white. |
| ColorSection.CardOf | components/preview-sections/color-section.tsx:32-56 | A card shows RGB exactly when it shows HSL, and both exactly when the hex parses. |
| ColorSection.Strip | components/preview-sections/color-section.tsx:19-27 | One swatch per colour, in order. |
| ColorSection.Cards | components/preview-sections/color-section.tsx:32-76 | One card per colour, in order. |
| ColorSection.Foregrounds | components/preview-sections/color-section.tsx:85 | At most two foregrounds, none with the background's id. |
| ColorSection.PairsWith | components/preview-sections/color-section.tsx:85 | One tile per foreground, in order, all on the one background. |
| ColorSection.View | components/preview-sections/color-section.tsx:11-13 | The empty message is shown exactly when there are no colours. Pairings are shown exactly when there are at least two. |
| ColorSection.PairingsOver | components/preview-sections/color-section.tsx:84-85 | At most two tiles per background. |
| ColorSection.Pairings | components/preview-sections/color-section.tsx:84-85 | At most eight tiles. `PairingsCount` and `PairingsSound` state which. |
| ColorSection.PairingsOverSound | components/preview-sections/color-section.tsx:84-85 | Every tile pairs two different ids, its background drawn from the backgrounds and its foreground from the colours. |
| ColorSection.PairingsSound | components/preview-sections/color-section.tsx:84-85 | Every tile's background is one of the first four colours, and its foreground is another colour. |
| ColorSection.Others | components/preview-sections/color-section.tsx:85 | All colours but one. |
| ColorSection.ForegroundsOfDistinct | components/preview-sections/color-section.tsx:85 | With distinct ids, a colour's foregrounds are the first two of the other colours. |
| ColorSection.PairingsOverAt | components/preview-sections/color-section.tsx:84-85 | With distinct ids, the tiles come in one block per background, each block that background with its first `m` other colours. |
| ColorSection.PairingsCount | components/preview-sections/color-section.tsx:80-85 | With distinct ids and at least two colours, there are `min(4, n) * min(2, n - 1)` tiles. Tile `m i + j` pairs colour `i` with its `j`-th other colour. |
| Collections.Without | components/brand-input-panel.tsx:42 | `filter(x => x.id !== id)`: no item with the id is left, and the list does not grow. |
| Collections.WithoutConcat | components/brand-input-panel.tsx:42 | Filtering `xs + ys` is filtering each and joining. |
| Collections.WithoutSingle | components/brand-input-panel.tsx:42 | One item is kept exactly when its id differs. |
| Collections.WithoutMembers | components/brand-input-panel.tsx:42 | An item is in the result exactly when it is in the list and has another id. |
| Collections.WithoutAbsent | components/brand-input-panel.tsx:42 | A list without the id is unchanged. |
| Collections.WithoutAppended | components/brand-input-panel.tsx:36-42 | Filtering out the id of an item just appended to a list without it gives the list back. |
| Collections.WithoutOthersAbsent | components/preview-sections/color-section.tsx:85 | With distinct ids, the items before and after one item do not carry its id. |
| Collections.WithoutUnique | components/preview-sections/color-section.tsx:85 | With distinct ids, filtering out one item's id removes exactly that item. |
| Collections.IdsOfAt | lib/brand-store.ts:153-165 | The `k`-th id of a list is its `k`-th item's. |
| Collections.Take | components/preview-sections/color-section.tsx:84 | `slice(0, n)`: the first `min(n, length)` items, in order. |
| LogoSection.Luminance | components/preview-sections/logo-section.tsx:98-106 | The luminance lies in [0, 1], and is 0 for an unparsable hex. |
| LogoSection.TextOn | components/preview-sections/logo-section.tsx:23 | The caption colour is `#111111` or `#ffffff`. |
| LogoSection.TextOnDarkIff | components/preview-sections/logo-section.tsx:23 | The caption is dark exactly when the hex parses and `299 r + 587 g + 114 b > 127500`. |
| LogoSection.TextOnAgainstContrast | components/preview-sections/logo-section.tsx:23 | The two luminance tests agree: on a parsable hex the caption is dark exactly when `getContrastColor` says black. They part only on an unparsable hex, where the caption is white and the contrast colour black. |
| LogoSection.ColorBackground | components/preview-sections/logo-section.tsx:20-24 | A colour background carries the colour's name and hex. Its text is `#111111` or `#ffffff`, and on a parsable hex it is dark exactly when `getContrastColor` says black. |
| LogoSection.ColorBackgrounds | components/preview-sections/logo-section.tsx:20-24 | One background per colour, in order. |
| LogoSection.Backgrounds | components/preview-sections/logo-section.tsx:15-25 | Between four and seven backgrounds, with no more colour backgrounds than colours. |
| LogoSection.BackgroundsShape | components/preview-sections/logo-section.tsx:15-25 | There are `4 + min(3, n)` backgrounds: the four fixed ones, then the first colours, in order, each with its caption colour. |
| LogoSection.ImageSource | components/preview-sections/logo-section.tsx:42 | The image source is never empty, and is the logo's own URL whenever it has one. |
| LogoSection.PreviewOf | components/preview-sections/logo-section.tsx:29-56 | A logo's preview has its name as heading, an image source that is never empty (its URL when it has one), four to seven tiles and five sizes. |
| LogoSection.Previews | components/preview-sections/logo-section.tsx:29-56 | One preview per logo, in order. |
| LogoSection.View | components/preview-sections/logo-section.tsx:11-13 | The empty message is shown exactly when there are no logos. Otherwise there is one preview per logo. |

## Left out

- Query strings: `URLSearchParams` serialisation and parsing are not modelled, and the parameters are a map from name to value. So `name` is carried as it is, and the form-encoding of `+` and `%` by `URLSearchParams.toString` is outside the model.
- URL parsing: `new URL(url).searchParams.get('family')` is a function supplied by the caller (`FamilyLookup`), returning the already-decoded `family` or nothing. The `catch` of an unparsable URL is that function returning nothing.
- `Date.now()`: the clock is a function from the counter value to a time, so ids can be stated for every possible clock.
- Floating point: colour arithmetic is exact real arithmetic. `Math.round` is floor of `x + 1/2`. A hue or luminance that IEEE 754 rounding puts on the other side of a boundary is not captured.
- `URL.createObjectURL`: the object URL is part of the picked file (`SelectedFile`), not a call.
- Lone surrogates: `encodeURIComponent`'s `URIError` on a lone surrogate is not modelled, since a Dafny `char` is a Unicode scalar value.
- `toUpperCase` maps ASCII letters only, which is all a valid hex holds.
- The DOM and browser side effects are not modelled: the stylesheet `<link>` `addGoogleFont` appends, the clipboard write and `window.location` in `handleShare`, the `shareState` timers, and the reset of `logoFileRef`.
- React rendering is not modelled: keys, `alt` texts, class names, the minimum-size images and the clear-space box (beyond the list of sizes a preview carries), and the other preview sections.
- `hasContent` and the share gate are predicates. The markup that disables the share button and shows the notices is not modelled.

- A `|` inside a font URL: `addGoogleFont` accepts one (for instance the older `css?family=Roboto|Open+Sans` form), but the share link splits `gf` at every `|`, so such a font comes back truncated, or not at all. The round-trip lemmas below hold only for font URLs without a `|`.
- LinkCodec.RoundTrip: promised only for records whose font URLs hold no `|` (`ShareableFonts`), for the reason above.
- InputPanel.ShareRoundTrip: promised only for font URLs without a `|`, for the reason above.
- InputPanel.ShareIffLinkCarries: promised only for font URLs without a `|`, for the reason above; with one, the gate can pass while the link brings back no font.
- InputPanel.LinkDropsExactlyLogos: promised only for font URLs without a `|`, for the reason above.

## Findings

| source | as written | input that shows it | evidently intended | confidence | as-written member | corrected member |
|---|---|---|---|---|---|---|
| lib/brand-store.ts:83 | `Math.round(h * 360)` rounds a hue just below 360 up to 360 | `#ff0002` gives hue 360 (exactly 360 − 120/255 before rounding) | a hue in [0, 360), with 360 read as 0 | not executed | ColorMath.HueReaches360 | ColorMath.HexToHslWrapped |
| components/brand-input-panel.tsx:82 | every file's record spreads the same stale `data`, and the page keeps only the last record | uploading two files leaves only the second file's logo | every picked file becomes a logo | not executed | InputPanel.UploadKeepsOnlyLast | InputPanel.AccumulatedKeepsAll |
