# brand-kit-gen in Dafny

brand-kit-gen takes a website URL and works out the site's brand identity. It
finds the colours, name, tagline and initials. It then renders a logo, favicons
and an Open Graph image in that style, from the command line (`brand_kit_gen.py`)
or from a small web application (`app.py`).

This project models the decision-making core of that program and proves what
it promises:

- **Colour arithmetic and normalisation** (`ColorUtils`). Covers hex and RGB
  conversion, shorthand expansion, `rgb()`/`rgba()` parsing, canonical
  lower-case `#rrggbb`, grayscale, saturation and distance.
- **Colour collection and classification** (`ColorExtractor`). Collection
  takes the colours matched in the page's CSS, normalises them and counts them
  in first-seen order, and reads the semantic custom properties.
  Classification picks the theme, background, primary, accent and text
  colours, and semantic properties then override some of them. This is the
  substantive logic of the program.
- **Brand-name heuristics** (`BrandExtractor`). Covers cleaning a page title,
  deriving a name from a domain, the priority between name sources, and the
  tagline.
- **Brand identity model** (`BrandIdentity`). Covers the `StyleConfig`
  record, the background effects and mood presets, and the initials of a
  text logo.
- **Command-line pipeline** (`BrandKitGen`). Covers the brand identity
  assembled from the extractions and the override arguments, the style
  configuration built from the arguments and a mood, and the choice of
  generation method.
- **Web front end** (`App`). Covers the bounded least-recently-used image
  cache, how a route consults it, the boolean query parameter parser, and
  the download file name.
- **Small HTML-generator helpers** (`HtmlGenerator`). Covers the `"r, g, b"`
  text of a colour, colour blending, the tagline font size, the blob and
  glow flags, background-effect dispatch and logo geometry.

`Strings`, `Selection` and `Wrappers` are supporting modules:
- `Strings` models the ASCII Python `str` operations the source uses.
- `Selection` models `max`/`min` with a key (first extremum wins),
  comprehension filters and the "keep what parses" loop shape.
- `Wrappers` defines `Option`.

How the Python maps onto the model:
- Code that works step by step keeps that form. The three append loops of
  `_extract_colors`, the loop of `_extract_semantic_vars`, the separator loop
  of `_clean_title`, the field-by-field assignments of `build_style_config`,
  the reassignments of the method choice in `main`, and the LRU cache are
  methods.
- Each of those methods is proved against a function that states its
  result, or, for the cache, against its invariant and exact new state.
- The LRU cache is a class holding the key order (`seq`) and the store
  (`map`).
- `StyleConfig` is a class whose fields `build_style_config` assigns.
- Expression-only code is functions with lemmas about them.

WCAG relative luminance is a parameter, `lum: RGB -> Unit`, a function into
[0, 1]. Regular-expression matching and HTML parsing are replaced by their
results: the lists of matched substrings and the optional meta and text
values.

Three behaviours of the code worth knowing; the model follows the code in
all of them:
- **Fallback background.** When a page has neither very dark nor very light
  colours, `extractors/color_extractor.py:219` takes the lightest colour in a
  dark theme and the darkest in a light theme, not the other way round. Only
  the light-theme case can happen, because a dark theme always has a very
  dark colour. `ColorExtractor.BackgroundOf` models the line as written, and
  `ColorExtractor.BackgroundCases` proves the reachable behaviour.
- **Failed colour fetch.** This does not lead to the classifier's empty-input
  palette. `extract_from_url` returns an error dictionary with no colours
  and the light theme (`extractors/color_extractor.py:56`).
  `extract_brand_identity` then fills in its own defaults. That defect is
  listed under Findings.
- **Run-together domain names.** The docstring of `_domain_to_name`
  (`extractors/brand_extractor.py:127`) gives `fairprice.work` -> `FairPrice`,
  but the code capitalises a stem without hyphens or inner capitals
  (`extractors/brand_extractor.py:147`), so it gives `Fairprice`; the code's
  own comment says word segmentation is not attempted. The docstring is
  stale. `BrandExtractor.DomainNamePlain` proves the code's behaviour.

## Model

| member | source | states |
|---|---|---|
| ColorUtils.HexToRgb | utils/color_utils.py:6-31 | every result is a triple of channels in 0..255 |
| ColorUtils.HexToRgbIgnoresHash | utils/color_utils.py:15 | a leading `#` does not change the colour read |
| ColorUtils.HexToRgbShorthand | utils/color_utils.py:17-22 | three digits are read as each digit doubled; any length other than 3 or 6 gives black (0, 0, 0) |
| ColorUtils.RgbToHex | utils/color_utils.py:34-36 | the result is `#` followed by at least six lower-case hex digits |
| ColorUtils.Hex02Length | utils/color_utils.py:36 | `{n:02x}` has at least two digits, and exactly two iff n < 256 |
| ColorUtils.Hex02RoundTrip | utils/color_utils.py:26-36 | for n < 256, parsing the two digits `{n:02x}` prints gives back n |
| ColorUtils.RgbToHexCanonicalIff | utils/color_utils.py:34-36 | rgb_to_hex gives a canonical 7-character `#rrggbb` iff every channel is in 0..255 |
| ColorUtils.RgbHexRoundTrip | utils/color_utils.py:6-36 | hex_to_rgb(rgb_to_hex(c)) == c for every channel triple in 0..255 |
| ColorUtils.CanonicalRoundTrip | utils/color_utils.py:6-36 | rgb_to_hex(hex_to_rgb(s)) == s for every canonical `#rrggbb` |
| ColorUtils.ParseRgbCss | utils/color_utils.py:88-105 | `rgb(r, g, b)` and `rgba(r, g, b, ...)` give the hex of the three channels as printed, unclamped |
| ColorUtils.RgbMatchCss | utils/color_utils.py:98-99 | the pattern matches CSS `rgb(`/`rgba(` text at its start and reads the three digit runs as decimal channels |
| ColorUtils.NormalizeColor | utils/color_utils.py:108-124 | a result is `#` plus lower-case hex digits, and is canonical whenever the stripped lower-cased input starts with `#` |
| ColorUtils.NormalizeHexDigits | utils/color_utils.py:115-120 | `#` plus hex digits is accepted iff there are 3 or 6 digits; six digits are lower-cased, and the result is canonical |
| ColorUtils.NormalizeShorthand | utils/color_utils.py:117-118 | `#abc` normalises to each lower-cased digit doubled (`#ABC` gives `#aabbcc`) |
| ColorUtils.NormalizeIgnoresPadding | utils/color_utils.py:113 | surrounding whitespace does not change the result |
| ColorUtils.NormalizeIgnoresCase | utils/color_utils.py:113 | inputs equal up to case normalise alike |
| ColorUtils.NormalizeCanonical | utils/color_utils.py:113-120 | a canonical `#rrggbb` normalises to itself |
| ColorUtils.NormalizeIdempotent | utils/color_utils.py:108-124 | a 7-character result is canonical and normalises to itself; a longer one (from an unclamped rgb()) is rejected if fed back |
| ColorUtils.NormalizeRgbCss | utils/color_utils.py:121-122 | `rgb(r, g, b)` with channels below 256 normalises to the canonical hex that reads back as (r, g, b) |
| ColorUtils.NormalizeRgbUnclamped | utils/color_utils.py:121-122 | a channel of 256 or more gives a result longer than 7 characters, which normalize_color then rejects |
| ColorUtils.CssRgbNormalizesAsParsed | utils/color_utils.py:121-122 | normalising `rgb(...)` is parsing it |
| ColorUtils.GrayscaleOfRgb | utils/color_utils.py:135-138 | a colour is grayscale iff its largest and smallest channels differ by at most 10 |
| ColorUtils.GrayscaleExamples | utils/color_utils.py:135-138 | every gray (v, v, v) is grayscale; pure red is not |
| ColorUtils.Saturation | utils/color_utils.py:141-150 | saturation lies in [0, 1] and is 0 exactly when max channel = min channel (black included) |
| ColorUtils.DistanceSq | utils/color_utils.py:127-132 | the squared distance of a colour to itself is 0 |
| ColorUtils.DistanceSymmetric | utils/color_utils.py:127-132 | distance is symmetric |
| ColorUtils.DistanceThreshold | utils/color_utils.py:132 | for a distance d with d*d == sq, `d > k` iff `sq > k*k`; this is why the thresholds 50 and 30 become 2500 and 900 |
| ColorUtils.TextColorContrasts | utils/color_utils.py:78-85 | under a luminance that is 0 on black and 1 on white, the text colour is white or black and its luminance differs from the background's by at least one half, so it always contrasts with the background |
| ColorUtils.TextOnBlackAndWhite | utils/color_utils.py:78-85 | with a luminance that is 0 on black and 1 on white, black takes white text and white takes black text |
| ColorExtractor.ExtractColors | extractors/color_extractor.py:148-171 | the three append loops collect exactly the normalised hex, then rgb(), then custom-property matches, dropping failures |
| ColorExtractor.NormalizedMembers | extractors/color_extractor.py:153-169 | a colour is collected iff some match normalises to it |
| ColorExtractor.CollectedAreNormal | extractors/color_extractor.py:153-169 | every collected colour is `#` plus lower-case hex digits |
| ColorExtractor.HexVariableCountedTwice | extractors/color_extractor.py:153-169 | a hex literal that is also a custom-property value is collected, and counted, twice |
| ColorExtractor.MetaThemeColor | extractors/color_extractor.py:173-178 | the meta theme colour is present exactly when the content normalises, and is its normal form |
| ColorExtractor.Dedup | extractors/color_extractor.py:75-76 | the unique colours are exactly the collected ones, each once |
| ColorExtractor.DedupFirstSeen | extractors/color_extractor.py:75-76 | the unique colours are in the order of their first occurrence |
| ColorExtractor.CountsAreOccurrences | extractors/color_extractor.py:75 | each count is the number of occurrences of the colour |
| ColorExtractor.CountsPositive | extractors/color_extractor.py:75 | every collected colour has a count of at least 1 |
| ColorExtractor.CountsSum | extractors/color_extractor.py:75-76 | the counts of the unique colours sum to the number of collected colours |
| ColorExtractor.ExtractSemanticVars | extractors/color_extractor.py:126-146 | the loop keeps, per role, the normal form of the first match, and the role only when that normalises |
| ColorExtractor.SemanticHintsIff | extractors/color_extractor.py:137-144 | a role is present iff its first match normalises, and then holds its normal form |
| ColorExtractor.SemanticRoleKept | extractors/color_extractor.py:137-144 | a first match of 3 to 6 hex digits keeps its role iff it has 3 or 6 digits; a 4- or 5-digit match drops the role |
| ColorExtractor.BackgroundOf | extractors/color_extractor.py:213-219 | the background is one of the colours: the first darkest very dark colour in a dark theme, else the first lightest very light colour, else the first darkest colour in a light theme |
| ColorExtractor.BackgroundCases | extractors/color_extractor.py:204-219 | for the theme the counts decide, the background is one of the three cases above, with its luminance below 0.1 or above 0.9 where the case requires |
| ColorExtractor.PrimaryOf | extractors/color_extractor.py:221-233 | primary is the first most-counted chromatic colour, else the first most-counted colour other than the background, else `#333333` |
| ColorExtractor.PrimaryNotBackground | extractors/color_extractor.py:221-233 | whenever some colour differs from the background, primary is a colour of the page other than the background |
| ColorExtractor.PrimaryChromatic | extractors/color_extractor.py:222-229 | when chromatic colours exist, primary is one: not grayscale, squared distance to the background above 2500 |
| ColorExtractor.AccentCandidates | extractors/color_extractor.py:236-239 | the candidates are exactly the chromatic colours other than primary at squared distance above 900 from it |
| ColorExtractor.AccentOf | extractors/color_extractor.py:240-243 | accent is the first most saturated candidate, or primary when there is none |
| ColorExtractor.AccentCases | extractors/color_extractor.py:235-243 | accent equals primary, or is a chromatic page colour other than primary, far enough from primary and from the background |
| ColorExtractor.Classify | extractors/color_extractor.py:180-254 | no colours give exactly the default palette; otherwise the background is a page colour, the theme is dark iff the dark test holds, and the text is the theme's text colour |
| ColorExtractor.ThemeByCounts | extractors/color_extractor.py:207-211 | when every colour is counted at least once, the theme is dark iff the dark count exceeds the light count; the second disjunct adds nothing |
| ColorExtractor.UniqueColorsCounted | extractors/color_extractor.py:75-76 | every unique colour of a Counter is counted at least once |
| ColorExtractor.WithSemantic | extractors/color_extractor.py:81-90 | primary and accent hints replace only those fields; a background hint also sets the theme from its luminance and the text to match; no hint changes nothing; text keeps matching theme |
| ColorExtractor.ExtractFromUrl | extractors/color_extractor.py:39-97 | the extraction of a fetched page or a failed fetch, step by step, equals its specification `ExtractionOf` |
| ColorExtractor.ExtractedFacts | extractors/color_extractor.py:67-97 | for a fetched page: the unique colours are the collected ones, each counted, counts summing to the number collected; text matches theme; without a background hint the theme is decided by the counts |
| BrandExtractor.FirstSeparatorFrom | extractors/brand_extractor.py:102-108 | the separator chosen is the first in list order that occurs in the title |
| BrandExtractor.CleanTitle | extractors/brand_extractor.py:91-122 | the loop implementation returns exactly the cleaned title `CleanTitleOf` specifies |
| BrandExtractor.CandidatesMembers | extractors/brand_extractor.py:111 | the candidates are exactly the stripped parts longer than one character |
| BrandExtractor.CleanTitleResult | extractors/brand_extractor.py:99-122 | the result is the stripped title or one of its stripped parts |
| BrandExtractor.CleanTitleEmptyIff | extractors/brand_extractor.py:99-122 | the cleaned title is empty iff the title is blank |
| BrandExtractor.CleanTitlePrefersNonGeneric | extractors/brand_extractor.py:116-122 | the result is the first candidate not starting with a generic word, or the first candidate when all are generic |
| BrandExtractor.GenericWhateverFollows | extractors/brand_extractor.py:117-119 | the generic test is a case-insensitive prefix test: a generic starter in any case followed by any text is generic |
| BrandExtractor.TheoryIsGeneric | extractors/brand_extractor.py:117-119 | so "Theory" counts as generic, since it starts with "the" |
| BrandExtractor.FirstNonGenericFrom | extractors/brand_extractor.py:118-120 | the index found is of the first non-generic candidate, or none when all are generic |
| BrandExtractor.Capitalize | extractors/brand_extractor.py:136-147 | `str.capitalize` keeps the length |
| BrandExtractor.DomainNameHyphenated | extractors/brand_extractor.py:131-136 | with a hyphen, the name is the stem title-cased at its hyphens, character by character: each hyphen becomes a space, the first character of each piece is upper-cased and every other character lower-cased |
| BrandExtractor.HyphenJoinTitled | extractors/brand_extractor.py:135-136 | capitalising each hyphen-separated piece and joining the pieces with spaces is exactly that title-casing, for every text |
| BrandExtractor.MyCoolSite | extractors/brand_extractor.py:128 | `my-cool-site.com` gives `My Cool Site`, as the docstring promises |
| BrandExtractor.DomainNameOnlyRecases | extractors/brand_extractor.py:131-147 | without a hyphen, the name is the stem with only its letter case changed and the first character upper-cased; a stem with a capital after its first character keeps every later character unchanged (lines 143-145) |
| BrandExtractor.DomainNamePlain | extractors/brand_extractor.py:143-147 | without a hyphen or inner capital the stem is capitalised, so no later character is upper case (`fairprice` gives `Fairprice`) |
| BrandExtractor.DomainStemAt | extractors/brand_extractor.py:131 | the stem is the text before the first dot |
| BrandExtractor.NamePriority | extractors/brand_extractor.py:61-89 | a given site name wins (stripped); then a non-blank title's cleaned form; then a non-empty `h1` under 50 characters; and when none applies, the name derived from the domain |
| BrandExtractor.ExtractTagline | extractors/brand_extractor.py:149-165 | the tagline is the stripped og:description if under 200 characters, else the stripped description if under 200, else none; an empty or missing og:description falls through to the description exactly |
| BrandIdentity.StyleConfig.constructor | models/brand_identity.py:7-19 | a StyleConfig holds exactly the values it is built with |
| BrandIdentity.PresetsConsistent | models/brand_identity.py:23-44 | every mood preset names a BG_EFFECTS effect and differs from the defaults only in intensities and effect |
| BrandIdentity.LowerRun | models/brand_identity.py:76 | the `[a-z]*` run is within the text and all lower case |
| BrandIdentity.CamelWords | models/brand_identity.py:76 | every `[A-Z][a-z]*` match is non-empty and starts with a capital |
| BrandIdentity.CamelHeads | models/brand_identity.py:76 | the camel-case words start exactly at the capitals, in order |
| BrandIdentity.Initials | models/brand_identity.py:62-84 | initials are never empty |
| BrandIdentity.InitialsOfClean | models/brand_identity.py:70-84 | the cascade over the cleaned name never gives an empty string |
| BrandIdentity.InitialsShape | models/brand_identity.py:68-84 | initials have two characters, or one when the cleaned name has exactly one, and no lower-case letter |
| BrandIdentity.InitialsOfWords | models/brand_identity.py:71-73 | with two or more words, the initials are the upper-cased first letters of the first and last words |
| BrandIdentity.InitialsOfCapitals | models/brand_identity.py:75-78 | with fewer than two words and two or more capitals, the initials are the first and last capitals (`FairPrice` gives `FP`) |
| BrandIdentity.Heads | models/brand_identity.py:73-78 | the first letters of the words, one per word |
| BrandKitGen.OverridePrecedence | brand_kit_gen.py:208-219 | a non-empty override wins for name and the three colours; otherwise the extracted value, then `#333333`/`#666666`/`#ffffff`; domain, colours, font and tagline come from the extractions |
| BrandKitGen.TextAndThemeNotOverridable | brand_kit_gen.py:215-216 | no argument changes the text colour or the theme |
| BrandKitGen.WhiteOnWhiteAsWritten | brand_kit_gen.py:214-216 | as written, a failed colour fetch without `--background` gives white text on a white background under the light theme |
| BrandKitGen.BrandTextMatchesTheme | brand_kit_gen.py:208-219 | with the light theme's text default, the brand's text colour is its theme's for every extraction |
| BrandKitGen.BuildStyleConfig | brand_kit_gen.py:229-269 | a fresh StyleConfig whose values are the style specified by `StyleFor` |
| BrandKitGen.StyleWithoutMood | brand_kit_gen.py:248-255 | without a mood, glow, depth, decoration, angle and effect are the arguments' |
| BrandKitGen.StyleWithMood | brand_kit_gen.py:232-267 | with a mood, intensities and angle are the preset's; the effect is the argument's unless it is `aurora`, then the preset's |
| BrandKitGen.StyleToggles | brand_kit_gen.py:257-263 | font and weight are the arguments', and each `show_x` is `not no_x` |
| BrandKitGen.StyleEffectKnown | brand_kit_gen.py:265-267 | a known effect argument gives a known effect in the style |
| BrandKitGen.CliStyleHasEffectBranch | brand_kit_gen.py:169 | a style built from parser-checked arguments always selects an effect branch of its own |
| BrandKitGen.SelectMethod | brand_kit_gen.py:546-555 | the method is `ai` iff `--ai` or requested; `pil` iff requested or `html` without the browser renderer; `html` only with it |
| App.Without | app.py:37-45 | removing a key leaves exactly the other keys, and nothing changes when it is absent |
| App.WithoutDistinct | app.py:37-45 | removing a key keeps the keys distinct, and removes exactly one when present |
| App.WithoutAt | app.py:37-45 | removing a key cuts it out at its position; all other keys keep their relative order |
| App.Recent | app.py:46-47 | what eviction leaves holds at most 50 keys |
| App.TouchedDistinct | app.py:37-45 | moving a key to the end keeps keys distinct, and adds one exactly when it was absent |
| App.ImageCache.constructor | app.py:25 | the cache starts empty and valid |
| App.ImageCache.Get | app.py:34-39 | a hit returns the stored image and moves the key to the end; a miss returns none and changes nothing |
| App.ImageCache.Set | app.py:42-47 | the new order is the old with the key moved to the end, trimmed to the 50 most recent; the key maps to the value; kept keys keep their values; at most 50 distinct keys, in step with the store |
| App.DropOldest | app.py:46-47 | evicting the least recent key keeps the keys distinct and in step with the store |
| App.StoredKeyIsMostRecent | app.py:44-47 | the key just stored is the most recent and never evicted |
| App.UpdateEvictsNothing | app.py:44-47 | storing an existing key keeps the same keys and size |
| App.InsertIntoFullEvictsOldest | app.py:44-47 | a new key in a full cache evicts exactly the least recent key |
| App.ServeCached | app.py:306-329 | a cached non-empty image is served, the store is unchanged and its key becomes the most recent; otherwise the rendered image is served and stored, the key order is the old one with the key moved to the end and trimmed to the 50 most recent, and every surviving key keeps its old image |
| App.TouchedTwice | app.py:34-46 | reading a key and then storing it leaves it in the same place as storing it alone, since moving a key to the end twice is moving it once |
| App.ParseBoolCaseInsensitive | app.py:115-121 | strings are read regardless of case |
| App.ParseBoolRoundTrip | app.py:115-121 | a bool is returned unchanged, and the strings `true`/`false` give back their bool |
| App.SafeNameShape | app.py:522 | the safe name has the name's length, and each character is the lower-cased letter or digit there, or `-` |
| App.SafeNameIdempotent | app.py:522 | sanitising a safe name changes nothing |
| HtmlGenerator.Trunc | generators/html_generator.py:642-644 | `int(x)` truncates toward zero: the floor for x ≥ 0, the ceiling below 0 |
| HtmlGenerator.Chunk | generators/html_generator.py:574 | a slice `h[i:i+2]` has at most two characters |
| HtmlGenerator.HexChannels | generators/html_generator.py:571-574 | channels that are read are in 0..255 |
| HtmlGenerator.HexChannelsAgree | generators/html_generator.py:569-575 | on six hex digits after expansion, the helper reads the channels hex_to_rgb reads and prints them as `r, g, b` |
| HtmlGenerator.HexChannelsOtherLengths | generators/html_generator.py:569-575 | fewer than five digits after expansion raise; more than six read the first six, where hex_to_rgb gives black |
| HtmlGenerator.BlendChannelBetween | generators/html_generator.py:642-644 | with a factor in [0, 1], each blended channel lies between the two input channels |
| HtmlGenerator.BlendChannelEnds | generators/html_generator.py:642-644 | factor 0 keeps the first channel, factor 1 takes the second |
| HtmlGenerator.BlendedRgb | generators/html_generator.py:642-644 | blending channels in 0..255 gives channels in 0..255 |
| HtmlGenerator.BlendCanonical | generators/html_generator.py:622-646 | with a factor in [0, 1], the blend is the canonical lower-case `#rrggbb` of the blended channels |
| HtmlGenerator.BlendEnds | generators/html_generator.py:622-646 | factor 0 gives the first colour and 1 the second, as `#rrggbb`; a canonical colour comes back unchanged |
| HtmlGenerator.TaglineFontSizeSteps | generators/html_generator.py:400-409 | the size is 20, 22, 24 or 26; a longer tagline never gets a larger font; no tagline gives 26 |
| HtmlGenerator.GlowLayers | generators/html_generator.py:469-470 | with the glow off both glow alphas are 0; otherwise the outer is twice the inner |
| HtmlGenerator.DispatchCoversEffects | generators/html_generator.py:182-298 | every BG_EFFECTS name has its own branch, selected exactly by that name; no other name selects a branch |
| HtmlGenerator.ExtraHtmlEffects | generators/html_generator.py:180-294 | a branch adds HTML over the background exactly for noise, waves, glass, dots and geometric |
| HtmlGenerator.CornerBlobsOnlyWithAurora | generators/html_generator.py:423 | corner blobs are drawn exactly when blobs are on and the effect is aurora by name; never with an effect's extra HTML, never for an unknown effect name |
| HtmlGenerator.UnknownEffectRaisesAsWritten | generators/html_generator.py:296-298 | as written, an unknown effect name such as `sunset` selects no branch and raises |
| HtmlGenerator.EffectBranchTotal | generators/html_generator.py:296-298 | with the fallback the comment announces, a known name draws its own effect and any other draws aurora |
| HtmlGenerator.LogoProportions | generators/html_generator.py:63-65 | the radius is a fifth of the size and the font 42 percent, each rounded down; the radius never exceeds the font size; the inner size is 20 less |
| HtmlGenerator.DefaultLogo | generators/html_generator.py:49-65 | the default 512 size gives radius 102, font 215 and inner size 492 |
| Strings.Split | extractors/brand_extractor.py:107-135 | `split(sep)` gives at least one part |
| Strings.SplitJoin | extractors/brand_extractor.py:131-136 | joining the parts of a split with its separator gives back the text |
| Strings.Words | models/brand_identity.py:71 | `split()` gives at most one word per character, each non-empty and starting with a non-space |
| Strings.FindFrom | extractors/brand_extractor.py:105-108 | the position found is the first occurrence at or after the start, and none means no occurrence |
| Strings.DecimalRoundTrip | generators/html_generator.py:575 | the decimal text of a number reads back as that number |
| Selection.FirstMaxIndex | extractors/color_extractor.py:217-241 | `max` with a key picks the first element with the largest key |
| Selection.FirstMinIndex | extractors/color_extractor.py:201-219 | `min` with a key, or the head of a stable ascending sort, is the first element with the smallest key |
| Selection.Filter | extractors/color_extractor.py:204-232 | a comprehension filter keeps exactly the elements satisfying its condition, in order |

## Left out

- Fetching pages (`requests`), collecting stylesheets and BeautifulSoup traversal: the model takes what they produce (match lists, optional meta and text values, or a fetch error) as inputs.
- The regular-expression engines (`HEX_PATTERN`, `RGB_PATTERN`, `CSS_VAR_PATTERN`, the semantic patterns, the font patterns): their match lists are inputs. The `rgb()` pattern of parse_rgb_string is modelled, because normalize_color depends on it.
- The WCAG luminance formula (`** 2.4` gamma over floats) and `contrast_ratio`: luminance is a parameter with values in [0, 1].
- Font extraction (`_extract_font`) and the `www.` removal in the brand extractor's `extract_from_url`: the brand data's domain and font are inputs.
- Python's Unicode string methods: `isalnum`, `isspace`, `lower`, `upper` and `capitalize` are modelled on ASCII.
- `int(x, 16)` accepting a sign, surrounding whitespace or underscores: only hex digits are read. A chunk such as `-f` is a ValueError in the model, but Python reads it as -15.
- Floats: blending and the logo's `size * 0.42` are computed over exact reals. Python's binary floating point may differ by one in a blended channel.
- HtmlGenerator.BlendCanonical: states the blend only for factors in [0, 1]. Outside that range the model still computes `#` and `{n:02x}` of negative or large channels (HexFormat), with no lemma about it.
- Rendering (Playwright, `is_playwright_available`), PIL drawing, favicon resizing, ICO and manifest files, and the AI image providers: library calls and file I/O. Playwright availability is a parameter of SelectMethod.
- The HTML/CSS/JS templates and viewport scaling: only the values they interpolate are modelled.
- FastAPI routing, `asyncio.to_thread`, zip building, md5 cache keys, argparse and console output. ServeCached stands for the cached image routes, and the cache key is an opaque string.
- BrandKitGen.BuildStyleConfig: requires that a given mood names a preset, which the parser's `--mood` choices guarantee. `hasattr(args, 'bg_effect')` is always true for the parsed arguments, so it is not modelled.
- BrandKitGen.BrandFor: the brand data always holds a name and a domain, so the `'Brand'` and `''` defaults are not modelled.
- The `extract_from_url` error text and `semantic_vars_found` are carried in the extraction but have no lemma.

## Findings

| source | as written | input that shows it | evidently intended | confidence | as-written member | corrected member |
|---|---|---|---|---|---|---|
| brand_kit_gen.py:215 | `text_color=color_data.get('text', '#ffffff')`: when the colour fetch fails the extraction has no text colour, so the text is white, while the background defaults to `#ffffff` and the theme to light | a URL whose fetch fails, with no `--background` override | the light theme's text colour `#000000`, the BrandIdentity default (models/brand_identity.py:57) | not executed | BrandKitGen.WhiteOnWhiteAsWritten | BrandKitGen.BrandTextMatchesTheme |
| generators/html_generator.py:296-298 | the fallback branch calls `_get_bg_effect_css_aurora`, which the class does not define, so any effect name outside BG_EFFECTS raises AttributeError; the web routes pass `bgEffect` through unchecked (app.py:227, 253) | effect name `sunset` | fall back to the aurora background, as the comment says | not executed | HtmlGenerator.UnknownEffectRaisesAsWritten | HtmlGenerator.EffectBranchTotal |
