/**
 * The brand identity model: the OG-image style configuration with its
 * defaults, the background effects and mood presets, and the initials shown
 * in a text logo.
 */
module BrandIdentity {
  import opened Strings
  import opened Selection

  // ---------------------------------------------------------------- StyleConfig

  /** The values of a StyleConfig. Intensities are exact reals here. */
  datatype Style = Style(
    glow: real,
    depth: real,
    decoration: real,
    gradientAngle: int,
    font: string,
    fontWeight: int,
    showAccentLine: bool,
    showBottomBar: bool,
    showBlobs: bool,
    showGlow: bool,
    bgEffect: string)

  /** `StyleConfig()` with every field at its default. */
  const DefaultStyle: Style := Style(1.0, 1.0, 1.0, 160, "Inter", 800, true, true, true, true, "aurora")

  /** A StyleConfig object: a record whose fields its users assign one by one. */
  class StyleConfig {
    var glow: real
    var depth: real
    var decoration: real
    var gradientAngle: int
    var font: string
    var fontWeight: int
    var showAccentLine: bool
    var showBottomBar: bool
    var showBlobs: bool
    var showGlow: bool
    var bgEffect: string

    /** The current field values. */
    function Values(): Style
      reads this
    {
      Style(glow, depth, decoration, gradientAngle, font, fontWeight,
            showAccentLine, showBottomBar, showBlobs, showGlow, bgEffect)
    }

    /** `StyleConfig(...)` with the given field values. */
    constructor (s: Style)
      ensures Values() == s
    {
      glow, depth, decoration, gradientAngle := s.glow, s.depth, s.decoration, s.gradientAngle;
      font, fontWeight := s.font, s.fontWeight;
      showAccentLine, showBottomBar, showBlobs, showGlow := s.showAccentLine, s.showBottomBar, s.showBlobs, s.showGlow;
      bgEffect := s.bgEffect;
    }
  }

  // ---------------------------------------------------------------- BG_EFFECTS, MOOD_PRESETS

  /** The names of the background effects, in their order in BG_EFFECTS. */
  const BgEffects: seq<string> :=
    ["aurora", "mesh", "noise", "waves", "spotlight", "minimal", "glass", "dots", "diagonal", "geometric"]

  /** The mood presets: the default style with some intensities and the effect changed. */
  const MoodPresets: map<string, Style> := map[
    "default" := DefaultStyle,
    "minimal" := DefaultStyle.(glow := 0.2, depth := 0.3, decoration := 0.3, bgEffect := "minimal"),
    "bold" := DefaultStyle.(glow := 1.5, depth := 1.3, decoration := 1.2, bgEffect := "spotlight"),
    "elegant" := DefaultStyle.(glow := 0.6, depth := 0.5, decoration := 0.8, bgEffect := "mesh"),
    "neon" := DefaultStyle.(glow := 2.0, depth := 0.8, decoration := 1.5, bgEffect := "aurora")]

  /** Every preset names a known background effect and keeps the default
      angle, font, weight and toggles. */
  lemma PresetsConsistent()
    ensures forall m :: m in MoodPresets ==> MoodPresets[m].bgEffect in BgEffects
    ensures forall m :: m in MoodPresets ==>
      MoodPresets[m] == DefaultStyle.(glow := MoodPresets[m].glow, depth := MoodPresets[m].depth,
                                      decoration := MoodPresets[m].decoration, bgEffect := MoodPresets[m].bgEffect)
  {
  }

  // ---------------------------------------------------------------- initials

  /** The name with only its letters, digits and whitespace kept. */
  function CleanName(name: string): string {
    Filter(name, c => IsAlnum(c) || IsSpace(c))
  }

  /** The length of the run of lower-case letters that starts `s`. */
  function LowerRun(s: string): (n: nat)
    ensures n <= |s|
    ensures forall i :: 0 <= i < n ==> IsLower(s[i])
  {
    if s != [] && IsLower(s[0]) then 1 + LowerRun(s[1..]) else 0
  }

  /** `re.findall(r'[A-Z][a-z]*', s)`. */
  function CamelWords(s: string): (ws: seq<string>)
    ensures |ws| <= |s|
    ensures forall i :: 0 <= i < |ws| ==> ws[i] != [] && IsUpper(ws[i][0])
    decreases |s|
  {
    if s == [] then []
    else if IsUpper(s[0]) then
      var n := 1 + LowerRun(s[1..]);
      [s[..n]] + CamelWords(s[n..])
    else CamelWords(s[1..])
  }

  /** BrandIdentity.initials for a brand name. */
  function Initials(name: string): (r: string)
    ensures r != []
  {
    InitialsOfClean(CleanName(name))
  }

  /** The initials of an already cleaned name: the first letters of the first
      and last words, else of the first and last camel-case words, else the
      first two characters, else the whole name, upper-cased; `??` when
      nothing is left. */
  function InitialsOfClean(clean: string): (r: string)
    ensures r != []
  {
    var words := Words(clean);
    if |words| >= 2 then
      Upper([words[0][0], words[|words| - 1][0]])
    else
      var camel := CamelWords(clean);
      if |camel| >= 2 then Upper([camel[0][0], camel[|camel| - 1][0]])
      else if |clean| >= 2 then Upper(clean[..2])
      else if Upper(clean) != [] then Upper(clean)
      else "??"
  }

  /** The first character of each of a list of non-empty words. */
  function Heads(ws: seq<string>): (h: string)
    requires forall i :: 0 <= i < |ws| ==> ws[i] != []
    ensures |h| == |ws|
    ensures forall i :: 0 <= i < |ws| ==> h[i] == ws[i][0]
  {
    if ws == [] then [] else [ws[0][0]] + Heads(ws[1..])
  }

  /** The camel-case words start exactly at the upper-case letters. */
  lemma {:induction false} CamelHeads(s: string)
    ensures Heads(CamelWords(s)) == Filter(s, IsUpper)
    decreases |s|
  {
    if s != [] {
      if IsUpper(s[0]) {
        var n := 1 + LowerRun(s[1..]);
        CamelHeads(s[n..]);
        FilterNoUpper(s, n);
        var ws := CamelWords(s);
        assert ws == [s[..n]] + CamelWords(s[n..]);
        assert ws[1..] == CamelWords(s[n..]);
      } else {
        CamelHeads(s[1..]);
        FilterFront(s, 1);
      }
    }
  }

  lemma FilterNoUpper(s: string, n: nat)
    requires 1 <= n <= |s| && IsUpper(s[0]) && forall i :: 1 <= i < n ==> IsLower(s[i])
    ensures Filter(s, IsUpper) == [s[0]] + Filter(s[n..], IsUpper)
  {
    assert s == s[..n] + s[n..];
    FilterAppend(s[..n], s[n..], IsUpper);
    FilterOneCapital(s[..n]);
  }

  /** A capital followed by lower-case letters holds one capital. */
  lemma {:induction false} FilterOneCapital(t: string)
    requires t != [] && IsUpper(t[0]) && forall i :: 1 <= i < |t| ==> IsLower(t[i])
    ensures Filter(t, IsUpper) == [t[0]]
    decreases |t|
  {
    if |t| > 1 {
      FilterOneCapital(t[..|t| - 1]);
    } else {
      assert t[..0] == [];
    }
  }

  lemma FilterFront(s: string, n: nat)
    requires n == 1 <= |s| && !IsUpper(s[0])
    ensures Filter(s, IsUpper) == Filter(s[n..], IsUpper)
  {
    assert s == s[..1] + s[1..];
    FilterAppend(s[..1], s[1..], IsUpper);
    assert s[..1][..0] == [];
  }

  /** Initials have two characters, or one when the cleaned name has exactly
      one character, and no lower-case letter. */
  lemma InitialsShape(clean: string)
    ensures |InitialsOfClean(clean)| == if |clean| == 1 then 1 else 2
    ensures forall i :: 0 <= i < |InitialsOfClean(clean)| ==> !IsLower(InitialsOfClean(clean)[i])
  {
    var words, camel := Words(clean), CamelWords(clean);
    var r := InitialsOfClean(clean);
    if |words| >= 2 {
      var src := [words[0][0], words[|words| - 1][0]];
      assert r == Upper(src);
      UpperHasNoLower(src);
    } else if |camel| >= 2 {
      var src := [camel[0][0], camel[|camel| - 1][0]];
      assert r == Upper(src);
      UpperHasNoLower(src);
    } else if |clean| >= 2 {
      assert r == Upper(clean[..2]);
      UpperHasNoLower(clean[..2]);
    } else if clean != [] {
      assert r == Upper(clean);
      UpperHasNoLower(clean);
    } else {
      assert r == "??";
    }
  }

  lemma UpperHasNoLower(s: string)
    ensures forall i :: 0 <= i < |Upper(s)| ==> !IsLower(Upper(s)[i])
  {
  }

  /** With two or more words, the initials are those of the first and last words. */
  lemma InitialsOfWords(clean: string)
    requires |Words(clean)| >= 2
    ensures var ws := Words(clean);
      InitialsOfClean(clean) == [ToUpper(ws[0][0]), ToUpper(ws[|ws| - 1][0])]
  {
  }

  /** With fewer than two words but two or more capitals, the initials are
      the first and last capital letters: `FairPrice` gives `FP`. */
  lemma InitialsOfCapitals(clean: string)
    requires |Words(clean)| < 2
    requires |Filter(clean, IsUpper)| >= 2
    ensures var caps := Filter(clean, IsUpper);
      InitialsOfClean(clean) == [caps[0], caps[|caps| - 1]]
  {
    var ws := CamelWords(clean);
    CamelHeads(clean);
    assert Upper([ws[0][0], ws[|ws| - 1][0]]) == [ws[0][0], ws[|ws| - 1][0]];
  }
}
