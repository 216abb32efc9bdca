/**
 * The colour extractor: from what the regular expressions and the HTML parser
 * found in a fetched page to a brand palette.
 *
 * Collection normalises the hex-literal, `rgb()` and custom-property matches
 * (in that order) and appends the meta theme colour; `Counter` then gives the
 * unique colours in first-seen order with their counts. Classification picks
 * the theme, background, primary, accent and text colours. Colours found in
 * semantic custom properties (`--primary`, `--accent`, `--background`, ...)
 * override the classification afterwards.
 *
 * WCAG relative luminance is the parameter `lum`; the regular-expression
 * engines and the HTTP fetch are replaced by their results.
 */
module ColorExtractor {
  import opened Wrappers
  import opened Strings
  import opened ColorUtils
  import opened Selection

  // ---------------------------------------------------------------- data

  /** The keys of SEMANTIC_VAR_PATTERNS, in their iteration order. */
  datatype Role = Primary | Accent | Background

  const Roles: seq<Role> := [Primary, Accent, Background]

  datatype Theme = Light | Dark

  /** The classified colours, the five keys of `_classify_colors`' result. */
  datatype Palette = Palette(primary: string, accent: string, background: string, text: string, theme: Theme)

  /** The classification of a page without colours. */
  const DefaultPalette: Palette := Palette("#333333", "#666666", "#ffffff", "#000000", Light)

  /** What the pattern matching found in the collected CSS and the page. */
  datatype Page = Page(
    hexMatches: seq<string>,        // HEX_PATTERN.findall: the digits after each `#`
    rgbMatches: seq<string>,        // RGB_PATTERN.findall: each whole `rgb(...)`/`rgba(...)` match
    varValues: seq<string>,         // CSS_VAR_PATTERN.findall: each custom-property value
    semantic: map<Role, string>,    // per role, the last group of its pattern's FIRST match
    metaThemeColor: Option<string>) // the `content` of `<meta name="theme-color">`, if any

  /** The outcome of fetching the page. */
  datatype Fetch = Failed(error: string) | Fetched(page: Page)

  /** The dictionary extract_from_url returns. */
  datatype Extraction =
    | Errored(error: string, colors: seq<string>, theme: Theme)
    | Extracted(colors: seq<string>, counts: map<string, nat>, semanticFound: bool, palette: Palette)

  // ---------------------------------------------------------------- _extract_colors

  /** The normalised forms of `values`, in order, with failures dropped. */
  function Normalized(values: seq<string>): seq<string> {
    KeepSome(values, NormalizeColor)
  }

  /** `f'#{match}'` for every hex-literal match. */
  function Hashed(matches: seq<string>): (r: seq<string>)
    ensures |r| == |matches| && forall i :: 0 <= i < |r| ==> r[i] == "#" + matches[i]
  {
    seq(|matches|, i requires 0 <= i < |matches| => "#" + matches[i])
  }

  /** `match.strip()` for every custom-property value. */
  function StrippedAll(values: seq<string>): (r: seq<string>)
    ensures |r| == |values| && forall i :: 0 <= i < |r| ==> r[i] == Strip(values[i])
  {
    seq(|values|, i requires 0 <= i < |values| => Strip(values[i]))
  }

  /** The colours _extract_colors collects. */
  function CollectedColors(hexMatches: seq<string>, rgbMatches: seq<string>, varValues: seq<string>): seq<string> {
    Normalized(Hashed(hexMatches)) + Normalized(rgbMatches) + Normalized(StrippedAll(varValues))
  }

  /** _extract_colors, with its three append loops. */
  method ExtractColors(hexMatches: seq<string>, rgbMatches: seq<string>, varValues: seq<string>)
    returns (colors: seq<string>)
    ensures colors == CollectedColors(hexMatches, rgbMatches, varValues)
  {
    colors := [];
    var hashed := Hashed(hexMatches);
    for i := 0 to |hexMatches|
      invariant colors == [] + Normalized(hashed[..i])
    {
      assert hashed[i] == "#" + hexMatches[i];
      var normalized := NormalizeColor("#" + hexMatches[i]);
      KeepSomeStep([], hashed, NormalizeColor, i, colors);
      if normalized.Some? {
        colors := colors + [normalized.value];
      }
    }
    assert hashed[..|hexMatches|] == hashed;
    var fromHex := colors;
    for i := 0 to |rgbMatches|
      invariant colors == fromHex + Normalized(rgbMatches[..i])
    {
      var normalized := NormalizeColor(rgbMatches[i]);
      KeepSomeStep(fromHex, rgbMatches, NormalizeColor, i, colors);
      if normalized.Some? {
        colors := colors + [normalized.value];
      }
    }
    assert rgbMatches[..|rgbMatches|] == rgbMatches;
    var fromRgb := colors;
    var stripped := StrippedAll(varValues);
    for i := 0 to |varValues|
      invariant colors == fromRgb + Normalized(stripped[..i])
    {
      var value := Strip(varValues[i]);
      assert stripped[i] == value;
      var normalized := NormalizeColor(value);
      KeepSomeStep(fromRgb, stripped, NormalizeColor, i, colors);
      if normalized.Some? {
        colors := colors + [normalized.value];
      }
    }
    assert stripped[..|varValues|] == stripped;
    JoinParts(fromHex, fromRgb, colors, Normalized(hashed), Normalized(rgbMatches), Normalized(stripped));
  }

  lemma JoinParts(fromHex: seq<string>, fromRgb: seq<string>, colors: seq<string>,
                  a: seq<string>, b: seq<string>, c: seq<string>)
    requires fromHex == [] + a && fromRgb == fromHex + b && colors == fromRgb + c
    ensures colors == a + b + c
  {
    assert [] + a == a;
  }

  /** A colour is collected iff some match normalises to it. */
  lemma NormalizedMembers(values: seq<string>, x: string)
    ensures x in Normalized(values) <==> exists i :: 0 <= i < |values| && NormalizeColor(values[i]) == Some(x)
  {
    KeepSomeMembers(values, NormalizeColor, x);
  }

  /** Every collected colour is `#` followed by lower-case hex digits. */
  lemma CollectedAreNormal(values: seq<string>, x: string)
    requires x in Normalized(values)
    ensures |x| >= 7 && x[0] == '#'
    ensures forall k :: 1 <= k < |x| ==> IsLowerHexDigit(x[k])
  {
    NormalizedMembers(values, x);
    var i :| 0 <= i < |values| && NormalizeColor(values[i]) == Some(x);
  }

  /** A hex literal written as a custom-property value is collected twice:
      once by the hex pattern and once by the custom-property pattern. */
  lemma HexVariableCountedTwice(h: string)
    requires |h| == 3 || |h| == 6
    requires forall i :: 0 <= i < |h| ==> IsHexDigit(h[i])
    ensures NormalizeColor("#" + h).Some?
    ensures var n := NormalizeColor("#" + h).value;
      CollectedColors([h], [], ["#" + h]) == [n, n] && CountOf(Counts([n, n]), n) == 2
  {
    NormalizeHexDigits(h);
    var v := "#" + h;
    VariableStripped(h, v);
    var n := NormalizeColor(v).value;
    HexAndVariableCollected(h, v, n);
    CountsTwice(n);
  }

  /** The hex match and the custom-property value both normalise to `n`. */
  lemma HexAndVariableCollected(h: string, v: string, n: string)
    requires v == "#" + h && NormalizeColor(v) == Some(n) && StrippedAll([v]) == [v]
    ensures CollectedColors([h], [], [v]) == [n, n]
  {
    assert Hashed([h]) == [v];
    NormalizedOne(v);
    assert Normalized([]) == [];
  }

  /** A hex literal is its own stripped form. */
  lemma VariableStripped(h: string, v: string)
    requires v == "#" + h && h != [] && forall i :: 0 <= i < |h| ==> IsHexDigit(h[i])
    ensures StrippedAll([v]) == [v]
  {
    assert v[|v| - 1] == h[|h| - 1];
    StripUnpadded(v);
  }

  lemma CountsTwice(n: string)
    ensures CountOf(Counts([n, n]), n) == 2
  {
    assert [n, n][..1] == [n];
    assert [n][..0] == [];
    assert Counts([n]) == map[n := 1];
  }

  lemma NormalizedOne(v: string)
    requires NormalizeColor(v).Some?
    ensures Normalized([v]) == [NormalizeColor(v).value]
  {
    assert [v][..0] == [];
  }

  // ---------------------------------------------------------------- _get_meta_theme_color

  /** The meta theme colour: a present, non-empty `content`, normalised. */
  function MetaThemeColor(content: Option<string>): (r: Option<string>)
    ensures r.Some? ==> content.Some? && NormalizeColor(content.value) == r
    ensures content.Some? && NormalizeColor(content.value).Some? ==> r == NormalizeColor(content.value)
  {
    if content.Some? && content.value != [] then NormalizeColor(content.value) else None
  }

  /** Everything extract_from_url counts: the collected colours, then the
      meta theme colour when there is one. */
  function AllColors(page: Page): seq<string> {
    CollectedColors(page.hexMatches, page.rgbMatches, page.varValues) +
    OptList(MetaThemeColor(page.metaThemeColor))
  }

  // ---------------------------------------------------------------- Counter

  /** `list(Counter(s).keys())`: each distinct element once, in first-seen order. */
  function Dedup(s: seq<string>): (u: seq<string>)
    ensures forall x :: x in u <==> x in s
    ensures Distinct(u)
  {
    if s == [] then []
    else
      var p := Dedup(s[..|s| - 1]);
      var x := s[|s| - 1];
      assert forall y :: y in s <==> y in s[..|s| - 1] || y == x;
      if x in p then p else p + [x]
  }

  predicate Distinct(u: seq<string>) {
    forall i, j :: 0 <= i < j < |u| ==> u[i] != u[j]
  }

  /** `counts.get(c, 0)`. */
  function CountOf(counts: map<string, nat>, c: string): nat {
    if c in counts then counts[c] else 0
  }

  /** `Counter(s)`: the number of occurrences of each element. */
  function Counts(s: seq<string>): map<string, nat> {
    if s == [] then map[]
    else
      var m := Counts(s[..|s| - 1]);
      var x := s[|s| - 1];
      m[x := CountOf(m, x) + 1]
  }

  /** `sum(counts.get(c, 0) for c in u)`. */
  function SumCounts(u: seq<string>, counts: map<string, nat>): nat {
    if u == [] then 0 else SumCounts(u[..|u| - 1], counts) + CountOf(counts, u[|u| - 1])
  }

  /** The position of the first occurrence of `x`, or `|s|` if there is none. */
  function FirstIndex(s: seq<string>, x: string): (i: nat)
    ensures i <= |s| && (i < |s| <==> x in s)
    ensures i < |s| ==> s[i] == x
    ensures forall j :: 0 <= j < i ==> s[j] != x
  {
    if s == [] then 0 else if s[0] == x then 0 else 1 + FirstIndex(s[1..], x)
  }

  /** Counter counts exactly the occurrences. */
  lemma {:induction false} CountsAreOccurrences(s: seq<string>, x: string)
    ensures CountOf(Counts(s), x) == multiset(s)[x]
    decreases |s|
  {
    if s != [] {
      var init := s[..|s| - 1];
      CountsAreOccurrences(init, x);
      assert s == init + [s[|s| - 1]];
    }
  }

  /** A colour never seen has no count. */
  lemma {:induction false} CountsAbsent(s: seq<string>, x: string)
    requires x !in s
    ensures CountOf(Counts(s), x) == 0
    decreases |s|
  {
    if s != [] {
      CountsAbsent(s[..|s| - 1], x);
    }
  }

  /** Every counted colour was seen at least once. */
  lemma CountsPositive(s: seq<string>, x: string)
    requires x in s
    ensures CountOf(Counts(s), x) >= 1
  {
    CountsAreOccurrences(s, x);
  }

  /** The unique colours keep the order of their first occurrences. */
  lemma {:induction false} DedupFirstSeen(s: seq<string>)
    ensures var u := Dedup(s);
      forall i, j :: 0 <= i < j < |u| ==> FirstIndex(s, u[i]) < FirstIndex(s, u[j])
    decreases |s|
  {
    if s != [] {
      var init, x := s[..|s| - 1], s[|s| - 1];
      DedupFirstSeen(init);
      assert s == init + [x];
      FirstSeenSnoc(init, x);
    }
  }

  lemma FirstSeenSnoc(init: seq<string>, x: string)
    requires var p := Dedup(init);
      forall i, j :: 0 <= i < j < |p| ==> FirstIndex(init, p[i]) < FirstIndex(init, p[j])
    ensures var u := Dedup(init + [x]);
      forall i, j :: 0 <= i < j < |u| ==> FirstIndex(init + [x], u[i]) < FirstIndex(init + [x], u[j])
  {
    var p, s := Dedup(init), init + [x];
    DedupSnoc(init, x);
    forall k | 0 <= k < |p| ensures FirstIndex(s, p[k]) == FirstIndex(init, p[k]) < |init| {
      FirstIndexSnoc(init, x, p[k]);
    }
    if x !in p {
      FirstIndexSnoc(init, x, x);
      assert FirstIndex(s, x) == |init|;
    }
  }

  /** Appending `x` leaves every earlier first occurrence where it was. */
  lemma {:induction false} FirstIndexSnoc(init: seq<string>, x: string, y: string)
    ensures FirstIndex(init + [x], y) ==
      if FirstIndex(init, y) < |init| || y == x then FirstIndex(init, y) else |init| + 1
    decreases |init|
  {
    if init != [] && init[0] != y {
      assert (init + [x])[1..] == init[1..] + [x];
      FirstIndexSnoc(init[1..], x, y);
    }
  }

  lemma DedupSnoc(init: seq<string>, x: string)
    ensures Dedup(init + [x]) == if x in Dedup(init) then Dedup(init) else Dedup(init) + [x]
  {
    assert (init + [x])[..|init|] == init;
  }

  lemma CountsSnoc(init: seq<string>, x: string)
    ensures Counts(init + [x]) == Counts(init)[x := CountOf(Counts(init), x) + 1]
  {
    assert (init + [x])[..|init|] == init;
  }

  /** The counts of the unique colours add up to the number of colours seen. */
  lemma {:induction false} CountsSum(s: seq<string>)
    ensures SumCounts(Dedup(s), Counts(s)) == |s|
    decreases |s|
  {
    if s != [] {
      var init, x := s[..|s| - 1], s[|s| - 1];
      assert s == init + [x];
      CountsSum(init);
      CountsSnoc(init, x);
      CountsSumSnoc(init, x, Dedup(init), Counts(init));
    }
  }

  /** The sum after one more colour, stated over the previous unique colours
      `p` and counts `m`. */
  lemma CountsSumSnoc(init: seq<string>, x: string, p: seq<string>, m: map<string, nat>)
    requires p == Dedup(init) && m == Counts(init)
    requires SumCounts(p, m) == |init|
    ensures SumCounts(Dedup(init + [x]), m[x := CountOf(m, x) + 1]) == |init| + 1
  {
    DedupSnoc(init, x);
    if x !in p {
      CountsAbsent(init, x);
    }
    SumStep(p, Dedup(init + [x]), m, x, |init|);
  }

  /** Seeing `x` once more adds one to the sum, whether or not it was new. */
  lemma SumStep(p: seq<string>, p': seq<string>, m: map<string, nat>, x: string, n: nat)
    requires Distinct(p) && SumCounts(p, m) == n
    requires p' == if x in p then p else p + [x]
    requires x !in p ==> CountOf(m, x) == 0
    ensures SumCounts(p', m[x := CountOf(m, x) + 1]) == n + 1
  {
    var v := CountOf(m, x) + 1;
    SumUpdate(p, m, x, v);
    if x !in p {
      SumSnoc(p, x, m[x := v]);
    }
  }

  lemma SumSnoc(u: seq<string>, x: string, m: map<string, nat>)
    ensures SumCounts(u + [x], m) == SumCounts(u, m) + CountOf(m, x)
  {
    assert (u + [x])[..|u|] == u;
  }

  /** Changing the count of one colour changes the sum over distinct colours
      by the difference, if that colour is among them, and not at all otherwise. */
  lemma {:induction false} SumUpdate(u: seq<string>, m: map<string, nat>, x: string, v: nat)
    requires Distinct(u)
    ensures x in u ==> SumCounts(u, m[x := v]) + CountOf(m, x) == SumCounts(u, m) + v
    ensures x !in u ==> SumCounts(u, m[x := v]) == SumCounts(u, m)
    decreases |u|
  {
    if u != [] {
      var init := u[..|u| - 1];
      assert forall y :: y in u <==> y in init || y == u[|u| - 1];
      SumUpdate(init, m, x, v);
    }
  }

  // ---------------------------------------------------------------- _extract_semantic_vars

  /** The semantic colours: each role whose first match normalises, with
      its normalised value. */
  function SemanticHints(captures: map<Role, string>): map<Role, string> {
    SomeValues(captures, Roles, NormalizeColor)
  }

  /** _extract_semantic_vars, filling the result role by role. */
  method ExtractSemanticVars(captures: map<Role, string>) returns (result: map<Role, string>)
    ensures result == SemanticHints(captures)
  {
    result := map[];
    for i := 0 to |Roles|
      invariant result == SomeValues(captures, Roles[..i], NormalizeColor)
    {
      var key := Roles[i];
      SomeValuesStep(captures, Roles, NormalizeColor, i, result);
      if key in captures {
        var normalized := NormalizeColor(captures[key]);
        if normalized.Some? {
          result := result[key := normalized.value];
        }
      }
    }
    assert Roles[..|Roles|] == Roles;
  }

  /** A role is present iff its first match normalises, and then it holds
      the normalised value. */
  lemma SemanticHintsIff(captures: map<Role, string>, r: Role)
    ensures r in SemanticHints(captures) <==> r in captures && NormalizeColor(captures[r]).Some?
    ensures r in SemanticHints(captures) ==> SemanticHints(captures)[r] == NormalizeColor(captures[r]).value
  {
    SomeValuesIff(captures, Roles, NormalizeColor, r);
  }

  /** The semantic patterns capture `#` and three to six hex digits: the role
      is kept iff there are exactly three or six, so a four- or five-digit
      first match drops the role even when a later match would normalise. */
  lemma SemanticRoleKept(captures: map<Role, string>, r: Role, h: string)
    requires r in captures && captures[r] == "#" + h
    requires 3 <= |h| <= 6 && forall i :: 0 <= i < |h| ==> IsHexDigit(h[i])
    ensures r in SemanticHints(captures) <==> |h| == 3 || |h| == 6
    ensures r in SemanticHints(captures) ==> IsCanonical(SemanticHints(captures)[r])
  {
    SemanticHintsIff(captures, r);
    NormalizeHexDigits(h);
  }

  // ---------------------------------------------------------------- _classify_colors

  /** Luminance as a sort key. */
  function LumKey(lum: LumFn): string -> real {
    c => Luminance(lum, c) as real
  }

  /** `counts.get(c, 0)` as a sort key. */
  function CountKey(counts: map<string, nat>): string -> real {
    c => CountOf(counts, c) as real
  }

  /** Very dark colours, the candidates for a dark background. */
  function DarkColors(lum: LumFn, colors: seq<string>): seq<string> {
    Filter(colors, c => Luminance(lum, c) < 0.1)
  }

  /** Very light colours, the candidates for a light background. */
  function LightColors(lum: LumFn, colors: seq<string>): seq<string> {
    Filter(colors, c => Luminance(lum, c) > 0.9)
  }

  /** `is_dark_theme` in _classify_colors: more dark than light occurrences,
      or dark colours and no light ones. */
  predicate DarkTheme(lum: LumFn, colors: seq<string>, counts: map<string, nat>) {
    var dark, light := DarkColors(lum, colors), LightColors(lum, colors);
    SumCounts(dark, counts) > SumCounts(light, counts) || (dark != [] && light == [])
  }

  /** The background: the darkest dark colour in a dark theme, else the
      lightest light colour, else an end of the luminance order. */
  function BackgroundOf(lum: LumFn, colors: seq<string>, dark: bool): (bg: string)
    requires colors != []
    ensures bg in colors
    ensures dark && DarkColors(lum, colors) != [] ==> IsFirstMin(DarkColors(lum, colors), LumKey(lum), bg)
    ensures !(dark && DarkColors(lum, colors) != []) && LightColors(lum, colors) != [] ==>
      IsFirstMax(LightColors(lum, colors), LumKey(lum), bg)
    ensures !dark && LightColors(lum, colors) == [] ==> IsFirstMin(colors, LumKey(lum), bg)
  {
    var darkColors, lightColors := DarkColors(lum, colors), LightColors(lum, colors);
    if dark && darkColors != [] then
      var i := FirstMinIndex(darkColors, LumKey(lum));
      assert darkColors[i] in darkColors;
      darkColors[i]
    else if lightColors != [] then
      var i := FirstMaxIndex(lightColors, LumKey(lum));
      assert lightColors[i] in lightColors;
      lightColors[i]
    else if dark then
      colors[LastMaxIndex(colors, LumKey(lum))]
    else
      colors[FirstMinIndex(colors, LumKey(lum))]
  }

  /** Non-grayscale colours further than 50 from the background. */
  function Chromatic(colors: seq<string>, background: string): seq<string> {
    Filter(colors, c => !IsGrayscale(c) && DistanceSq(c, background) > 2500)
  }

  /** The colours other than the background. */
  function NonBackground(colors: seq<string>, background: string): seq<string> {
    Filter(colors, c => c != background)
  }

  /** The primary colour: the most counted chromatic colour, else the most
      counted colour other than the background, else `#333333`; the first
      one wins a tie. */
  function PrimaryOf(colors: seq<string>, counts: map<string, nat>, background: string): (primary: string)
    ensures Chromatic(colors, background) != [] ==>
      IsFirstMax(Chromatic(colors, background), CountKey(counts), primary)
    ensures Chromatic(colors, background) == [] && NonBackground(colors, background) != [] ==>
      IsFirstMax(NonBackground(colors, background), CountKey(counts), primary)
    ensures Chromatic(colors, background) == [] && NonBackground(colors, background) == [] ==>
      primary == "#333333"
  {
    var chromatic := Chromatic(colors, background);
    var nonBg := NonBackground(colors, background);
    if chromatic != [] then
      chromatic[FirstMaxIndex(chromatic, CountKey(counts))]
    else if nonBg != [] then
      nonBg[FirstMaxIndex(nonBg, CountKey(counts))]
    else
      "#333333"
  }

  /** Chromatic colours other than the primary and further than 30 from it. */
  function AccentCandidates(chromatic: seq<string>, primary: string): (r: seq<string>)
    ensures forall c :: c in r <==> c in chromatic && c != primary && DistanceSq(c, primary) > 900
  {
    Filter(chromatic, c => c != primary && DistanceSq(c, primary) > 900)
  }

  /** The accent colour: the most saturated candidate, the first one winning
      a tie, or the primary colour when there is none. */
  function AccentOf(chromatic: seq<string>, primary: string): (accent: string)
    ensures AccentCandidates(chromatic, primary) == [] ==> accent == primary
    ensures AccentCandidates(chromatic, primary) != [] ==>
      IsFirstMax(AccentCandidates(chromatic, primary), Saturation, accent)
  {
    var candidates := AccentCandidates(chromatic, primary);
    if candidates != [] then candidates[FirstMaxIndex(candidates, Saturation)] else primary
  }

  /** The text colour of a theme. */
  function ThemeText(theme: Theme): string {
    if theme == Dark then "#ffffff" else "#000000"
  }

  /** _classify_colors over the unique colours and their counts. */
  function Classify(lum: LumFn, colors: seq<string>, counts: map<string, nat>): (p: Palette)
    ensures colors == [] ==> p == DefaultPalette
    ensures colors != [] ==> p.background in colors
    ensures p.theme == Dark <==> colors != [] && DarkTheme(lum, colors, counts)
    ensures p.text == ThemeText(p.theme)
  {
    if colors == [] then DefaultPalette
    else
      var dark := DarkTheme(lum, colors, counts);
      var background := BackgroundOf(lum, colors, dark);
      var primary := PrimaryOf(colors, counts, background);
      var accent := AccentOf(Chromatic(colors, background), primary);
      var theme := if dark then Dark else Light;
      Palette(primary, accent, background, ThemeText(theme), theme)
  }

  /** Every listed colour was counted at least once, as for the keys of a Counter. */
  predicate CountedAtLeastOnce(colors: seq<string>, counts: map<string, nat>) {
    forall c :: c in colors ==> CountOf(counts, c) >= 1
  }

  /** The unique colours of a Counter are each counted at least once. */
  lemma UniqueColorsCounted(all: seq<string>)
    ensures CountedAtLeastOnce(Dedup(all), Counts(all))
  {
    forall c | c in Dedup(all) ensures CountOf(Counts(all), c) >= 1 {
      CountsPositive(all, c);
    }
  }

  /** A non-empty list of colours counted at least once has a positive sum. */
  lemma SumPositive(u: seq<string>, colors: seq<string>, counts: map<string, nat>)
    requires u != [] && (forall c :: c in u ==> c in colors) && CountedAtLeastOnce(colors, counts)
    ensures SumCounts(u, counts) >= 1
  {
    assert u[|u| - 1] in u;
  }

  /** With Counter counts, the theme is dark exactly when the very dark
      colours occur more often than the very light ones: the second disjunct
      of `is_dark_theme` adds nothing. */
  lemma ThemeByCounts(lum: LumFn, colors: seq<string>, counts: map<string, nat>)
    requires CountedAtLeastOnce(colors, counts)
    ensures DarkTheme(lum, colors, counts) <==>
      SumCounts(DarkColors(lum, colors), counts) > SumCounts(LightColors(lum, colors), counts)
  {
    var dark := DarkColors(lum, colors);
    if dark != [] && LightColors(lum, colors) == [] {
      SumPositive(dark, colors, counts);
    }
  }

  /** The background as _classify_colors chooses it: in a dark theme the first
      darkest very dark colour; otherwise the first lightest very light colour;
      with neither, the first darkest colour of all, since the `sorted(...)[-1]`
      branch needs a dark theme without dark colours. */
  lemma BackgroundCases(lum: LumFn, colors: seq<string>, counts: map<string, nat>)
    requires colors != []
    ensures var dark, bg := DarkTheme(lum, colors, counts), BackgroundOf(lum, colors, DarkTheme(lum, colors, counts));
      bg in colors &&
      (dark ==> Luminance(lum, bg) < 0.1 && IsFirstMin(DarkColors(lum, colors), LumKey(lum), bg)) &&
      (!dark && LightColors(lum, colors) != [] ==>
        Luminance(lum, bg) > 0.9 && IsFirstMax(LightColors(lum, colors), LumKey(lum), bg)) &&
      (!dark && LightColors(lum, colors) == [] ==> IsFirstMin(colors, LumKey(lum), bg))
  {
    var dark, bg := DarkTheme(lum, colors, counts), BackgroundOf(lum, colors, DarkTheme(lum, colors, counts));
    if dark {
      var i :| 0 <= i < |DarkColors(lum, colors)| && DarkColors(lum, colors)[i] == bg &&
        IsFirstMinAt(DarkColors(lum, colors), LumKey(lum), i);
      assert bg in DarkColors(lum, colors);
    } else if LightColors(lum, colors) != [] {
      var i :| 0 <= i < |LightColors(lum, colors)| && LightColors(lum, colors)[i] == bg &&
        IsFirstMaxAt(LightColors(lum, colors), LumKey(lum), i);
      assert bg in LightColors(lum, colors);
    }
  }

  /** The primary colour differs from the background whenever some colour
      does, and is then one of the colours. */
  lemma PrimaryNotBackground(colors: seq<string>, counts: map<string, nat>, background: string, other: string)
    requires other in colors && other != background
    ensures PrimaryOf(colors, counts, background) != background
    ensures PrimaryOf(colors, counts, background) in colors
  {
    var primary := PrimaryOf(colors, counts, background);
    var chromatic := Chromatic(colors, background);
    if chromatic != [] {
      var i :| 0 <= i < |chromatic| && chromatic[i] == primary && IsFirstMaxAt(chromatic, CountKey(counts), i);
      assert primary in chromatic;
    } else {
      var nonBg := NonBackground(colors, background);
      assert other in nonBg;
      var i :| 0 <= i < |nonBg| && nonBg[i] == primary && IsFirstMaxAt(nonBg, CountKey(counts), i);
      assert primary in nonBg;
    }
  }

  /** A chromatic primary is not grayscale and lies further than 50 from the background. */
  lemma PrimaryChromatic(colors: seq<string>, counts: map<string, nat>, background: string)
    requires Chromatic(colors, background) != []
    ensures var primary := PrimaryOf(colors, counts, background);
      primary in colors && !IsGrayscale(primary) && DistanceSq(primary, background) > 2500
  {
    var primary, chromatic := PrimaryOf(colors, counts, background), Chromatic(colors, background);
    var i :| 0 <= i < |chromatic| && chromatic[i] == primary && IsFirstMaxAt(chromatic, CountKey(counts), i);
    assert primary in chromatic;
  }

  /** The accent is the primary colour, or a chromatic colour other than the
      primary and further than 30 from it. */
  lemma AccentCases(colors: seq<string>, background: string, primary: string)
    ensures var accent := AccentOf(Chromatic(colors, background), primary);
      accent == primary ||
      (accent in colors && !IsGrayscale(accent) && DistanceSq(accent, background) > 2500 &&
       accent != primary && DistanceSq(accent, primary) > 900)
  {
    var chromatic := Chromatic(colors, background);
    var accent, candidates := AccentOf(chromatic, primary), AccentCandidates(chromatic, primary);
    if candidates != [] {
      var i :| 0 <= i < |candidates| && candidates[i] == accent && IsFirstMaxAt(candidates, Saturation, i);
      assert accent in candidates;
      assert accent in chromatic;
    }
  }

  // ---------------------------------------------------------------- extract_from_url

  /** The semantic overrides applied to a classification: a semantic primary
      or accent replaces that colour alone; a semantic background also decides
      the theme by its own luminance and the text colour by the theme. */
  function WithSemantic(lum: LumFn, p: Palette, hints: map<Role, string>): (q: Palette)
    ensures q.primary == if Primary in hints then hints[Primary] else p.primary
    ensures q.accent == if Accent in hints then hints[Accent] else p.accent
    ensures Background !in hints ==> q.background == p.background && q.theme == p.theme && q.text == p.text
    ensures Background in hints ==>
      q.background == hints[Background] &&
      (q.theme == Dark <==> IsDarkTheme(lum, hints[Background])) &&
      q.text == TextColorFor(lum, hints[Background])
    ensures hints == map[] ==> q == p
    ensures p.text == ThemeText(p.theme) ==> q.text == ThemeText(q.theme)
  {
    var p1 := if Primary in hints then p.(primary := hints[Primary]) else p;
    var p2 := if Accent in hints then p1.(accent := hints[Accent]) else p1;
    if Background in hints then
      var bg := hints[Background];
      var theme := if Luminance(lum, bg) < 0.5 then Dark else Light;
      p2.(background := bg, theme := theme, text := ThemeText(theme))
    else p2
  }

  /** What extract_from_url returns: the error alone on a failed fetch, else
      the unique colours, their counts, whether a semantic colour was found,
      and the classification with the semantic overrides applied. */
  function ExtractionOf(lum: LumFn, fetch: Fetch): Extraction {
    if fetch.Failed? then Errored(fetch.error, [], Light)
    else
      var all := AllColors(fetch.page);
      var hints := SemanticHints(fetch.page.semantic);
      Extracted(Dedup(all), Counts(all), hints != map[],
                WithSemantic(lum, Classify(lum, Dedup(all), Counts(all)), hints))
  }

  /** extract_from_url on a fetched page or a failed fetch. */
  method ExtractFromUrl(lum: LumFn, fetch: Fetch) returns (r: Extraction)
    ensures r == ExtractionOf(lum, fetch)
  {
    if fetch.Failed? {
      return Errored(fetch.error, [], Light);
    }
    var page := fetch.page;
    var semantic := ExtractSemanticVars(page.semantic);
    var colors := ExtractColors(page.hexMatches, page.rgbMatches, page.varValues);
    var themeColor := MetaThemeColor(page.metaThemeColor);
    if themeColor.Some? {
      colors := colors + [themeColor.value];
    }
    assert colors == AllColors(page);
    var counts := Counts(colors);
    var unique := Dedup(colors);
    var classified := Classify(lum, unique, counts);
    if Primary in semantic {
      classified := classified.(primary := semantic[Primary]);
    }
    if Accent in semantic {
      classified := classified.(accent := semantic[Accent]);
    }
    if Background in semantic {
      var background := semantic[Background];
      var theme := if Luminance(lum, background) < 0.5 then Dark else Light;
      classified := classified.(background := background, theme := theme, text := ThemeText(theme));
    }
    assert classified == WithSemantic(lum, Classify(lum, unique, counts), semantic);
    r := Extracted(unique, counts, semantic != map[], classified);
  }

  /** On a fetched page the unique colours are exactly the colours seen, each
      counted at least once, the counts add up to the number of colours seen,
      and the theme follows the counts unless a semantic background decides it. */
  lemma ExtractedFacts(lum: LumFn, page: Page)
    ensures var all := AllColors(page);
      var colors, counts := Dedup(all), Counts(all);
      var p := WithSemantic(lum, Classify(lum, colors, counts), SemanticHints(page.semantic));
      (forall c :: c in colors <==> c in all) &&
      CountedAtLeastOnce(colors, counts) &&
      SumCounts(colors, counts) == |all| &&
      p.text == ThemeText(p.theme) &&
      (Background !in SemanticHints(page.semantic) ==>
        (p.theme == Dark <==>
          SumCounts(DarkColors(lum, colors), counts) > SumCounts(LightColors(lum, colors), counts)))
  {
    var all := AllColors(page);
    UniqueColorsCounted(all);
    CountsSum(all);
    ThemeByCounts(lum, Dedup(all), Counts(all));
  }
}
