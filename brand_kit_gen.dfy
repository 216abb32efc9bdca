/**
 * The command-line pipeline around the extractors: how the brand identity is
 * assembled from the two extractions and the override arguments, how the
 * style configuration is built from the arguments and a mood preset, and how
 * the generation method is chosen.
 */
module BrandKitGen {
  import opened Wrappers
  import opened ColorUtils
  import opened ColorExtractor
  import opened BrandIdentity
  import HtmlGenerator

  // ---------------------------------------------------------------- arguments

  /** The `--method` choices. */
  datatype Method = Html | Pil | Ai

  /** The parsed command-line arguments this part of the program reads. An
      argument that was not given is None; `mood` is None or a preset name, as
      the parser's choices guarantee. */
  datatype Args = Args(
    requested: Method,
    ai: bool,
    name: Option<string>,
    primary: Option<string>,
    accent: Option<string>,
    background: Option<string>,
    glow: real,
    depth: real,
    decoration: real,
    gradientAngle: int,
    mood: Option<string>,
    noAccentLine: bool,
    noBottomBar: bool,
    noBlobs: bool,
    noGlow: bool,
    font: string,
    fontWeight: int,
    bgEffect: string)

  /** `arg or fallback` for an optional string argument: an absent or empty
      argument gives the fallback. */
  function OrElse(arg: Option<string>, fallback: string): string {
    if arg.Some? && arg.value != "" then arg.value else fallback
  }

  // ---------------------------------------------------------------- extract_brand_identity

  /** The dictionary the brand extractor returns; name and domain are always present. */
  datatype BrandData = BrandData(name: string, domain: string, tagline: Option<string>, fontFamily: Option<string>)

  /** The fields of the BrandIdentity record. */
  datatype Brand = Brand(
    name: string,
    domain: string,
    colors: seq<string>,
    primary: string,
    accent: string,
    background: string,
    text: string,
    theme: Theme,
    fontFamily: Option<string>,
    tagline: Option<string>)

  /** `color_data.get(key)` for the four colour keys: present only when the page was fetched. */
  function ColorGet(colorData: Extraction, role: Role): Option<string> {
    if colorData.Errored? then None
    else match role
      case Primary => Some(colorData.palette.primary)
      case Accent => Some(colorData.palette.accent)
      case Background => Some(colorData.palette.background)
  }

  /** The text colour the extraction reports, or `textDefault` when it reports none. */
  function TextOf(colorData: Extraction, textDefault: string): string {
    if colorData.Errored? then textDefault else colorData.palette.text
  }

  /** The theme the extraction reports; a failed fetch reports its own. */
  function ThemeOf(colorData: Extraction): Theme {
    if colorData.Errored? then colorData.theme else colorData.palette.theme
  }

  /** The brand identity built from the extractions and the overrides, with
      `textDefault` as the text colour when the colour extraction gives none. */
  function BrandWith(textDefault: string, args: Args, brandData: BrandData, colorData: Extraction): Brand {
    Brand(
      OrElse(args.name, brandData.name),
      brandData.domain,
      colorData.colors,
      OrElse(args.primary, ColorGet(colorData, Primary).GetOr("#333333")),
      OrElse(args.accent, ColorGet(colorData, Accent).GetOr("#666666")),
      OrElse(args.background, ColorGet(colorData, Background).GetOr("#ffffff")),
      TextOf(colorData, textDefault),
      ThemeOf(colorData),
      brandData.fontFamily,
      brandData.tagline)
  }

  /** The text colour used when the colour extraction reports none, as written. */
  const WrittenTextDefault: string := "#ffffff"

  /** The text colour of the light theme, which a failed fetch reports. */
  const LightTextDefault: string := "#000000"

  /** extract_brand_identity as written. */
  function BrandAsWritten(args: Args, brandData: BrandData, colorData: Extraction): Brand {
    BrandWith(WrittenTextDefault, args, brandData, colorData)
  }

  /** extract_brand_identity with the text default of the light theme. */
  function BrandFor(args: Args, brandData: BrandData, colorData: Extraction): Brand {
    BrandWith(LightTextDefault, args, brandData, colorData)
  }

  /** A non-empty override wins; otherwise the extracted colour, and the
      fixed default when the fetch failed. The name override falls back to the
      extracted name, and domain, colours, font and tagline are never overridden. */
  lemma OverridePrecedence(args: Args, brandData: BrandData, colorData: Extraction)
    ensures var b := BrandFor(args, brandData, colorData);
      (b.name == if args.name.Some? && args.name.value != "" then args.name.value else brandData.name) &&
      (b.primary == if args.primary.Some? && args.primary.value != "" then args.primary.value
                    else if colorData.Extracted? then colorData.palette.primary else "#333333") &&
      (b.accent == if args.accent.Some? && args.accent.value != "" then args.accent.value
                   else if colorData.Extracted? then colorData.palette.accent else "#666666") &&
      (b.background == if args.background.Some? && args.background.value != "" then args.background.value
                       else if colorData.Extracted? then colorData.palette.background else "#ffffff") &&
      b.domain == brandData.domain && b.colors == colorData.colors &&
      b.fontFamily == brandData.fontFamily && b.tagline == brandData.tagline
  {
  }

  /** No argument changes the text colour or the theme: they are the
      extraction's, even when `--background` replaces the background. */
  lemma TextAndThemeNotOverridable(args: Args, args': Args, brandData: BrandData, colorData: Extraction)
    ensures BrandFor(args, brandData, colorData).text == BrandFor(args', brandData, colorData).text
    ensures BrandFor(args, brandData, colorData).theme == BrandFor(args', brandData, colorData).theme
  {
  }

  /** As written, a failed colour fetch without a background override gives
      white text on a white background under the light theme. */
  lemma WhiteOnWhiteAsWritten(args: Args, brandData: BrandData, error: string)
    requires args.background.None?
    ensures var b := BrandAsWritten(args, brandData, Errored(error, [], Light));
      b.text == b.background == "#ffffff" && b.theme == Light && b.text != ThemeText(b.theme)
  {
  }

  /** With the light theme's text default, the brand's text colour is the
      text colour of its theme for every extraction extract_from_url returns. */
  lemma BrandTextMatchesTheme(lum: LumFn, fetch: Fetch, args: Args, brandData: BrandData)
    ensures var b := BrandFor(args, brandData, ExtractionOf(lum, fetch));
      b.text == ThemeText(b.theme)
  {
    if fetch.Fetched? {
      ExtractedFacts(lum, fetch.page);
    }
  }

  // ---------------------------------------------------------------- build_style_config

  /** The mood, when one is given, names a preset. */
  predicate MoodKnown(args: Args) {
    args.mood.Some? ==> args.mood.value in MoodPresets
  }

  /** The style build_style_config starts from: a copy of the mood's preset,
      or the defaults with the intensities, angle and effect of the arguments. */
  function BaseStyle(args: Args): Style
    requires MoodKnown(args)
  {
    if args.mood.Some? then MoodPresets[args.mood.value]
    else DefaultStyle.(glow := args.glow, depth := args.depth, decoration := args.decoration,
                       gradientAngle := args.gradientAngle, bgEffect := args.bgEffect)
  }

  /** The style build_style_config produces for `args`. */
  function StyleFor(args: Args): Style
    requires MoodKnown(args)
  {
    var s := BaseStyle(args).(font := args.font, fontWeight := args.fontWeight,
                              showAccentLine := !args.noAccentLine, showBottomBar := !args.noBottomBar,
                              showBlobs := !args.noBlobs, showGlow := !args.noGlow);
    if args.bgEffect != "aurora" then s.(bgEffect := args.bgEffect) else s
  }

  /** build_style_config: start from a fresh copy of the preset, or from the
      intensity arguments, then assign the font, weight, toggles and, unless it
      is the default, the background effect. */
  method BuildStyleConfig(args: Args) returns (style: StyleConfig)
    requires MoodKnown(args)
    ensures fresh(style)
    ensures style.Values() == StyleFor(args)
  {
    if args.mood.Some? {
      var preset := MoodPresets[args.mood.value];
      style := new StyleConfig(preset);
    } else {
      style := new StyleConfig(DefaultStyle.(glow := args.glow, depth := args.depth,
                                             decoration := args.decoration,
                                             gradientAngle := args.gradientAngle,
                                             bgEffect := args.bgEffect));
    }
    ghost var base := BaseStyle(args);
    assert style.Values() == base;
    style.font := args.font;
    style.fontWeight := args.fontWeight;
    style.showAccentLine := !args.noAccentLine;
    style.showBottomBar := !args.noBottomBar;
    style.showBlobs := !args.noBlobs;
    style.showGlow := !args.noGlow;
    assert style.Values() == base.(font := args.font, fontWeight := args.fontWeight,
                                   showAccentLine := !args.noAccentLine, showBottomBar := !args.noBottomBar,
                                   showBlobs := !args.noBlobs, showGlow := !args.noGlow);
    if args.bgEffect != "aurora" {
      style.bgEffect := args.bgEffect;
    }
  }

  /** Without a mood the intensities, angle and effect are the arguments'. */
  lemma StyleWithoutMood(args: Args)
    requires args.mood.None?
    ensures var s := StyleFor(args);
      s.glow == args.glow && s.depth == args.depth && s.decoration == args.decoration &&
      s.gradientAngle == args.gradientAngle && s.bgEffect == args.bgEffect
  {
  }

  /** With a mood the intensities and angle are the preset's, whatever the
      arguments say, and the effect is the argument's unless that is the
      default `aurora`, when it is the preset's. */
  lemma StyleWithMood(args: Args)
    requires MoodKnown(args) && args.mood.Some?
    ensures var s, p := StyleFor(args), MoodPresets[args.mood.value];
      s.glow == p.glow && s.depth == p.depth && s.decoration == p.decoration &&
      s.gradientAngle == p.gradientAngle &&
      s.bgEffect == (if args.bgEffect != "aurora" then args.bgEffect else p.bgEffect)
  {
  }

  /** The font, weight and toggles always come from the arguments. */
  lemma StyleToggles(args: Args)
    requires MoodKnown(args)
    ensures var s := StyleFor(args);
      s.font == args.font && s.fontWeight == args.fontWeight &&
      s.showAccentLine == !args.noAccentLine && s.showBottomBar == !args.noBottomBar &&
      s.showBlobs == !args.noBlobs && s.showGlow == !args.noGlow
  {
  }

  /** When the effect argument is a known effect, so is the style's. */
  lemma StyleEffectKnown(args: Args)
    requires MoodKnown(args) && args.bgEffect in BgEffects
    ensures StyleFor(args).bgEffect in BgEffects
  {
    PresetsConsistent();
  }

  /** The parser admits only BG_EFFECTS names, so a style built from the
      command line always selects an effect branch of its own. */
  lemma CliStyleHasEffectBranch(args: Args)
    requires MoodKnown(args) && args.bgEffect in BgEffects
    ensures HtmlGenerator.EffectBranchAsWritten(StyleFor(args).bgEffect).Some?
  {
    StyleEffectKnown(args);
    HtmlGenerator.DispatchCoversEffects(StyleFor(args).bgEffect);
  }

  // ---------------------------------------------------------------- method selection in main

  /** The generation method main uses: `--ai` forces the AI method, and the
      HTML method falls back to PIL when the browser renderer is unavailable. */
  method SelectMethod(requested: Method, ai: bool, playwrightAvailable: bool) returns (m: Method)
    ensures m == Ai <==> ai || requested == Ai
    ensures m == Pil <==> !ai && (requested == Pil || (requested == Html && !playwrightAvailable))
    ensures m == Html <==> !ai && requested == Html && playwrightAvailable
  {
    m := requested;
    if ai {
      m := Ai;
    }
    if m == Html && !playwrightAvailable {
      m := Pil;
    }
  }
}
