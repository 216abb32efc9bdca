/**
 * The deterministic helpers of the HTML image generator: hex colours as CSS
 * `r, g, b` text, colour blending, the tagline font size, the OG-image
 * visibility flags, the background-effect dispatch and the logo geometry.
 */
module HtmlGenerator {
  import opened Wrappers
  import opened Strings
  import opened ColorUtils
  import opened BrandIdentity

  // ---------------------------------------------------------------- number conversions

  /** Python's `int(x)` on a float: truncation toward zero. */
  function Trunc(x: real): (n: int)
    ensures x >= 0.0 ==> n >= 0 && n as real <= x < n as real + 1.0
    ensures x < 0.0 ==> n <= 0 && n as real - 1.0 < x <= n as real
  {
    if x >= 0.0 then x.Floor else -((-x).Floor)
  }

  /** Python's `f"{n:02x}"` on any integer: at least two lower-case hex
      digits, or a minus sign and the digits of the magnitude. */
  function HexFormat(n: int): string {
    if n >= 0 then Hex02(n) else "-" + HexDigits(-n)
  }

  // ---------------------------------------------------------------- _hex_to_rgb_str

  /** `h[i:i+2]`, clipped to the string as Python slices are. */
  function Chunk(h: string, i: nat): (p: string)
    ensures |p| <= 2
  {
    var lo := if i <= |h| then i else |h|;
    var hi := if i + 2 <= |h| then i + 2 else |h|;
    h[lo..hi]
  }

  /** `int(p, 16)` for a chunk of at most two characters; None where Python
      raises ValueError (an empty chunk or a character that is not a hex digit). */
  function ParseHexChunk(p: string): (v: Option<nat>)
    requires |p| <= 2
    ensures v.Some? ==> v.value < 256
  {
    if |p| == 0 then None
    else if |p| == 1 then (if IsHexDigit(p[0]) then Some(HexDigitValue(p[0])) else None)
    else ParseHexPair(p)
  }

  /** The channels both `_hex_to_rgb_str` and the `hex_to_rgb` inside
      `_blend_colors` read: leading `#`s dropped, a three-character value
      doubled, then the chunks at 0, 2 and 4 read in base 16. None where
      Python raises. */
  function HexChannels(hex: string): (c: Option<RGB>)
    ensures c.Some? ==> InByteRange(c.value)
  {
    var h := ExpandShorthand(hex);
    var r, g, b := ParseHexChunk(Chunk(h, 0)), ParseHexChunk(Chunk(h, 2)), ParseHexChunk(Chunk(h, 4));
    if r.Some? && g.Some? && b.Some? then Some(RGB(r.value, g.value, b.value)) else None
  }

  /** `f"{r}, {g}, {b}"`. */
  function RgbText(c: RGB): string {
    DecimalString(c.r) + ", " + DecimalString(c.g) + ", " + DecimalString(c.b)
  }

  /** _hex_to_rgb_str; None where Python raises ValueError. */
  function HexToRgbStr(hex: string): Option<string> {
    var c := HexChannels(hex);
    if c.Some? then Some(RgbText(c.value)) else None
  }

  /** On six hex digits after expansion (so on `#rrggbb` and on `#rgb`, which
      is doubled), these helpers read the same channels as hex_to_rgb. */
  lemma HexChannelsAgree(hex: string)
    requires |ExpandShorthand(hex)| == 6 && HexTriple(ExpandShorthand(hex)).Some?
    ensures HexChannels(hex) == Some(HexToRgb(hex))
    ensures HexToRgbStr(hex) == Some(RgbText(HexToRgb(hex)))
  {
    var h := ExpandShorthand(hex);
    assert Chunk(h, 0) == h[0..2] && Chunk(h, 2) == h[2..4] && Chunk(h, 4) == h[4..6];
  }

  /** Unlike hex_to_rgb, which reads a value of any other length than six as
      black, these helpers raise on fewer than five characters and read only
      the first six of a longer value. */
  lemma HexChannelsOtherLengths(hex: string)
    ensures |ExpandShorthand(hex)| < 5 ==> HexChannels(hex) == None
    ensures |ExpandShorthand(hex)| > 6 ==>
      HexToRgb(hex) == RGB(0, 0, 0) &&
      HexChannels(hex) == HexTriple(ExpandShorthand(hex)[..6])
  {
    var h := ExpandShorthand(hex);
    if |h| > 6 {
      assert Chunk(h, 0) == h[..6][0..2] && Chunk(h, 2) == h[..6][2..4] && Chunk(h, 4) == h[..6][4..6];
    }
  }

  // ---------------------------------------------------------------- _blend_colors

  /** `int(a * (1 - factor) + b * factor)`, in exact arithmetic. */
  function BlendChannel(a: nat, b: nat, factor: real): int {
    Trunc(a as real * (1.0 - factor) + b as real * factor)
  }

  /** _blend_colors; None where reading either colour raises. */
  function BlendColors(color1: string, color2: string, factor: real): Option<string> {
    var c1, c2 := HexChannels(color1), HexChannels(color2);
    if c1.None? || c2.None? then None
    else
      var r := BlendChannel(c1.value.r, c2.value.r, factor);
      var g := BlendChannel(c1.value.g, c2.value.g, factor);
      var b := BlendChannel(c1.value.b, c2.value.b, factor);
      Some("#" + HexFormat(r) + HexFormat(g) + HexFormat(b))
  }

  /** With a factor in [0, 1] a blended channel lies between the two channels:
      the weighted sum does, and truncating a non-negative value is its floor. */
  lemma BlendChannelBetween(a: nat, b: nat, factor: real)
    requires 0.0 <= factor <= 1.0
    ensures var m := BlendChannel(a, b, factor);
      (if a <= b then a else b) <= m <= (if a <= b then b else a)
  {
    var x := a as real * (1.0 - factor) + b as real * factor;
    var d := b as real - a as real;
    assert x == a as real + d * factor;
    assert b as real - x == d * (1.0 - factor);
    if a <= b {
      ProductNonNegative(d, factor);
      ProductNonNegative(d, 1.0 - factor);
    } else {
      ProductNonNegative(-d, factor);
      ProductNonNegative(-d, 1.0 - factor);
    }
  }

  /** Factor 0 gives the first channel and factor 1 the second. */
  lemma BlendChannelEnds(a: nat, b: nat)
    ensures BlendChannel(a, b, 0.0) == a
    ensures BlendChannel(a, b, 1.0) == b
  {
  }

  lemma ProductNonNegative(x: real, y: real)
    requires x >= 0.0 && y >= 0.0
    ensures x * y >= 0.0
  {
  }

  /** The channels of the blend with a factor in [0, 1]. */
  function BlendedRgb(c1: RGB, c2: RGB, factor: real): (c: RGB)
    requires 0.0 <= factor <= 1.0
    ensures InByteRange(c1) && InByteRange(c2) ==> InByteRange(c)
  {
    BlendChannelBetween(c1.r, c2.r, factor);
    BlendChannelBetween(c1.g, c2.g, factor);
    BlendChannelBetween(c1.b, c2.b, factor);
    RGB(BlendChannel(c1.r, c2.r, factor), BlendChannel(c1.g, c2.g, factor), BlendChannel(c1.b, c2.b, factor))
  }

  /** With a factor in [0, 1] the blend is a canonical `#rrggbb` colour: the
      rgb_to_hex of the blended channels. */
  lemma BlendCanonical(color1: string, color2: string, factor: real)
    requires 0.0 <= factor <= 1.0
    requires HexChannels(color1).Some? && HexChannels(color2).Some?
    ensures var c := BlendedRgb(HexChannels(color1).value, HexChannels(color2).value, factor);
      BlendColors(color1, color2, factor) == Some(RgbToHex(c)) && IsCanonical(RgbToHex(c))
  {
    var c := BlendedRgb(HexChannels(color1).value, HexChannels(color2).value, factor);
    RgbToHexCanonicalIff(c);
  }

  /** Factor 0 returns the first colour and factor 1 the second, each as
      lower-case `#rrggbb`; a canonical colour comes back unchanged. */
  lemma BlendEnds(color1: string, color2: string)
    requires HexChannels(color1).Some? && HexChannels(color2).Some?
    ensures BlendColors(color1, color2, 0.0) == Some(RgbToHex(HexChannels(color1).value))
    ensures BlendColors(color1, color2, 1.0) == Some(RgbToHex(HexChannels(color2).value))
    ensures IsCanonical(color1) ==> BlendColors(color1, color2, 0.0) == Some(color1)
    ensures IsCanonical(color2) ==> BlendColors(color1, color2, 1.0) == Some(color2)
  {
    var c1, c2 := HexChannels(color1).value, HexChannels(color2).value;
    BlendCanonical(color1, color2, 0.0);
    BlendCanonical(color1, color2, 1.0);
    BlendChannelEnds(c1.r, c2.r);
    BlendChannelEnds(c1.g, c2.g);
    BlendChannelEnds(c1.b, c2.b);
    if IsCanonical(color1) {
      CanonicalExpands(color1);
      HexChannelsAgree(color1);
      CanonicalRoundTrip(color1);
    }
    if IsCanonical(color2) {
      CanonicalExpands(color2);
      HexChannelsAgree(color2);
      CanonicalRoundTrip(color2);
    }
  }

  /** A canonical colour expands to its six digits, which all parse. */
  lemma CanonicalExpands(c: string)
    requires IsCanonical(c)
    ensures ExpandShorthand(c) == c[1..] && HexTriple(c[1..]).Some?
  {
    CanonicalUnhashed(c);
    CanonicalDigitsParse(c);
  }

  /** Stripping the `#` of a canonical colour leaves its six digits. */
  lemma CanonicalUnhashed(c: string)
    requires IsCanonical(c)
    ensures LStripChar(c, '#') == c[1..]
  {
    assert c[1..][0] == c[1];
    assert LStripChar(c[1..], '#') == c[1..];
  }

  /** The six digits of a canonical colour parse as three channels. */
  lemma CanonicalDigitsParse(c: string)
    requires IsCanonical(c)
    ensures HexTriple(c[1..]).Some?
  {
    var h := c[1..];
    forall i | 0 <= i < 6 ensures IsLowerHexDigit(h[i]) {
      assert h[i] == c[i + 1];
    }
    SixDigitsParse(h);
  }

  /** Six lower-case hex digits parse as three channels. */
  lemma SixDigitsParse(h: string)
    requires |h| == 6 && forall i :: 0 <= i < 6 ==> IsLowerHexDigit(h[i])
    ensures HexTriple(h).Some?
  {
    PairValue(h, 0);
    PairValue(h, 2);
    PairValue(h, 4);
  }

  // ---------------------------------------------------------------- _build_og_html

  /** The tagline font size: smaller for longer taglines, 26 without one. */
  function TaglineFontSize(tagline: Option<string>): nat {
    if tagline.Some? && tagline.value != [] then
      var n := |tagline.value|;
      if n > 150 then 20 else if n > 100 then 22 else if n > 70 then 24 else 26
    else 26
  }

  /** The size is one of the four steps, and a longer tagline never gets a
      larger font. */
  lemma TaglineFontSizeSteps(t1: string, t2: string)
    requires |t1| <= |t2|
    ensures TaglineFontSize(Some(t1)) in {20, 22, 24, 26}
    ensures t1 != [] ==> TaglineFontSize(Some(t2)) <= TaglineFontSize(Some(t1))
    ensures TaglineFontSize(None) == TaglineFontSize(Some([])) == 26
  {
  }

  /** Corner blobs are drawn only for the aurora effect with blobs on. */
  function ShowCornerBlobs(style: Style): bool {
    style.showBlobs && style.bgEffect == "aurora"
  }

  /** The alpha of a glow layer: `weight * glow`, or 0 with the glow off. */
  function GlowAlpha(style: Style, weight: real): real {
    if style.showGlow then weight * style.glow else 0.0
  }

  /** Turning the glow off zeroes both glow layers; otherwise the outer layer
      (weight 0.4) is twice as opaque as the inner one (weight 0.2). */
  lemma GlowLayers(style: Style)
    ensures !style.showGlow ==> GlowAlpha(style, 0.4) == 0.0 && GlowAlpha(style, 0.2) == 0.0
    ensures style.showGlow ==> GlowAlpha(style, 0.4) == 2.0 * GlowAlpha(style, 0.2)
  {
  }

  // ---------------------------------------------------------------- _get_bg_effect_css

  /** The branches of the effect dispatch. */
  datatype Effect = Aurora | Mesh | Noise | Waves | Spotlight | Minimal | Glass | Dots | Diagonal | Geometric

  /** The branches in the order of BG_EFFECTS. */
  const Effects: seq<Effect> := [Aurora, Mesh, Noise, Waves, Spotlight, Minimal, Glass, Dots, Diagonal, Geometric]

  /** The name each branch tests for. */
  function EffectName(e: Effect): string {
    match e
    case Aurora => "aurora"
    case Mesh => "mesh"
    case Noise => "noise"
    case Waves => "waves"
    case Spotlight => "spotlight"
    case Minimal => "minimal"
    case Glass => "glass"
    case Dots => "dots"
    case Diagonal => "diagonal"
    case Geometric => "geometric"
  }

  /** The dispatch as written: the branch an effect name selects, or None for
      the final `else`, whose call to a method the class does not define raises
      AttributeError. */
  function EffectBranchAsWritten(name: string): Option<Effect> {
    if name == "aurora" then Some(Aurora)
    else if name == "mesh" then Some(Mesh)
    else if name == "noise" then Some(Noise)
    else if name == "waves" then Some(Waves)
    else if name == "spotlight" then Some(Spotlight)
    else if name == "minimal" then Some(Minimal)
    else if name == "glass" then Some(Glass)
    else if name == "dots" then Some(Dots)
    else if name == "diagonal" then Some(Diagonal)
    else if name == "geometric" then Some(Geometric)
    else None
  }

  /** The dispatch with the fallback its comment announces: any other name
      draws the aurora background. */
  function EffectBranch(name: string): Effect {
    EffectBranchAsWritten(name).GetOr(Aurora)
  }

  /** Whether a branch adds HTML elements over the background. */
  function HasExtraHtml(e: Effect): bool {
    e in {Noise, Waves, Glass, Dots, Geometric}
  }

  /** Every BG_EFFECTS name has a branch of its own, and a branch is selected
      exactly by its own name. */
  lemma DispatchCoversEffects(name: string)
    ensures |Effects| == |BgEffects|
    ensures forall i :: 0 <= i < |Effects| ==>
      EffectName(Effects[i]) == BgEffects[i] && EffectBranchAsWritten(BgEffects[i]) == Some(Effects[i])
    ensures EffectBranchAsWritten(name).Some? <==> name in BgEffects
    ensures EffectBranchAsWritten(name).Some? ==> EffectName(EffectBranchAsWritten(name).value) == name
  {
  }

  /** As written, a name outside BG_EFFECTS (one the web routes pass through
      unchecked, say `sunset`) selects no branch and the call raises. */
  /** The effects whose branch adds HTML over the background are exactly
      noise, waves, glass, dots and geometric; the others add none. */
  lemma ExtraHtmlEffects(name: string)
    ensures (EffectBranchAsWritten(name).Some? && HasExtraHtml(EffectBranchAsWritten(name).value)) <==>
      name in ["noise", "waves", "glass", "dots", "geometric"]
  {
  }

  /** The corner blobs are drawn exactly when blobs are on and the dispatch
      takes the aurora branch by name, so they never join an effect's extra
      HTML, and an unknown name (aurora only through the fallback) gets none. */
  lemma CornerBlobsOnlyWithAurora(style: Style)
    ensures ShowCornerBlobs(style) <==> style.showBlobs && EffectBranchAsWritten(style.bgEffect) == Some(Aurora)
    ensures ShowCornerBlobs(style) ==> !HasExtraHtml(EffectBranch(style.bgEffect))
    ensures style.bgEffect !in BgEffects ==> !ShowCornerBlobs(style)
  {
  }

  lemma UnknownEffectRaisesAsWritten()
    ensures EffectBranchAsWritten("sunset") == None
  {
  }

  /** With the fallback, every name selects a branch: its own, or aurora. */
  lemma EffectBranchTotal(name: string)
    ensures EffectName(EffectBranch(name)) == if name in BgEffects then name else "aurora"
  {
    DispatchCoversEffects(name);
  }

  // ---------------------------------------------------------------- _build_logo_html

  /** The proportional sizes of the logo. */
  datatype LogoGeometry = LogoGeometry(borderRadius: int, fontSize: int, innerSize: int)

  /** `size // 5`, `int(size * 0.42)` and `size - 20`; the factor is exact here. */
  function LogoGeometryOf(size: int): LogoGeometry {
    LogoGeometry(size / 5, Trunc(size as real * 0.42), size - 20)
  }

  /** For a non-negative size the radius is a fifth and the font 42 percent
      of it, each rounded down, so the radius never exceeds the font size. */
  lemma LogoProportions(size: int)
    requires size >= 0
    ensures var g := LogoGeometryOf(size);
      5 * g.borderRadius <= size < 5 * g.borderRadius + 5 &&
      100 * g.fontSize <= 42 * size < 100 * g.fontSize + 100 &&
      g.borderRadius <= g.fontSize &&
      g.innerSize + 20 == size
  {
  }

  /** The default 512-pixel logo. */
  lemma DefaultLogo()
    ensures LogoGeometryOf(512) == LogoGeometry(102, 215, 492)
  {
  }
}
