/**
 * Colour arithmetic and normalisation (utils/color_utils.py).
 *
 * Colours travel as strings; `HexToRgb` reads them as channel triples.
 * WCAG relative luminance is not transcribed: callers pass it in as a
 * function `lum` from channel triples to [0, 1].
 */
module ColorUtils {
  import opened Wrappers
  import opened Strings

  /** A channel triple. Channels parsed from `rgb()` are not clamped, so they are `nat`s. */
  datatype RGB = RGB(r: nat, g: nat, b: nat)

  predicate InByteRange(c: RGB) {
    c.r < 256 && c.g < 256 && c.b < 256
  }

  /** A real number in [0, 1]. */
  type Unit = x: real | 0.0 <= x <= 1.0

  /** Relative luminance as a function of channels (WCAG 2.x); kept abstract. */
  type LumFn = RGB -> Unit

  const GrayTolerance: nat := 10

  // ---------------------------------------------------------------- hex digits

  predicate IsHexDigit(c: char) {
    IsDigit(c) || 'a' <= c <= 'f' || 'A' <= c <= 'F'
  }

  /** Membership in "0123456789abcdef". */
  predicate IsLowerHexDigit(c: char) {
    IsDigit(c) || 'a' <= c <= 'f'
  }

  function HexDigitValue(c: char): (v: nat)
    requires IsHexDigit(c)
    ensures v < 16
  {
    if IsDigit(c) then c as int - '0' as int
    else if 'a' <= c <= 'f' then c as int - 'a' as int + 10
    else c as int - 'A' as int + 10
  }

  function LowerHexDigit(d: nat): (c: char)
    requires d < 16
    ensures IsLowerHexDigit(c) && HexDigitValue(c) == d
  {
    "0123456789abcdef"[d]
  }

  /** `#` followed by exactly six lower-case hex digits. */
  predicate IsCanonical(c: string) {
    |c| == 7 && c[0] == '#' && forall i :: 1 <= i < 7 ==> IsLowerHexDigit(c[i])
  }

  // ---------------------------------------------------------------- hex_to_rgb

  /** `''.join(c * 2 for c in h)`. */
  function DoubleEach(h: string): (r: string)
    ensures |r| == 2 * |h|
    ensures forall i :: 0 <= i < |h| ==> r[2 * i] == h[i] && r[2 * i + 1] == h[i]
  {
    if h == [] then [] else [h[0], h[0]] + DoubleEach(h[1..])
  }

  /** Drop every leading `#`, then expand a three-character shorthand. */
  function ExpandShorthand(s: string): string {
    var h := LStripChar(s, '#');
    if |h| == 3 then DoubleEach(h) else h
  }

  /** `int(p, 16)` for a two-character chunk (digits only). */
  function ParseHexPair(p: string): (v: Option<nat>)
    requires |p| == 2
    ensures v.Some? ==> v.value < 256
  {
    if IsHexDigit(p[0]) && IsHexDigit(p[1])
    then Some(16 * HexDigitValue(p[0]) + HexDigitValue(p[1]))
    else None
  }

  /** The three two-digit chunks of a six-character value, if all parse. */
  function HexTriple(h: string): (c: Option<RGB>)
    requires |h| == 6
    ensures c.Some? ==> InByteRange(c.value)
  {
    var r, g, b := ParseHexPair(h[0..2]), ParseHexPair(h[2..4]), ParseHexPair(h[4..6]);
    if r.Some? && g.Some? && b.Some? then Some(RGB(r.value, g.value, b.value)) else None
  }

  /** hex_to_rgb: six hex digits after expansion, else black. */
  function HexToRgb(s: string): (c: RGB)
    ensures InByteRange(c)
  {
    var h := ExpandShorthand(s);
    if |h| != 6 then RGB(0, 0, 0) else HexTriple(h).GetOr(RGB(0, 0, 0))
  }

  /** Leading `#`s never matter to hex_to_rgb: any number of them is stripped. */
  lemma HexToRgbIgnoresHash(s: string)
    ensures HexToRgb("#" + s) == HexToRgb(s)
  {
    assert ("#" + s)[1..] == s;
  }

  /** A three-digit value reads as its doubled six-digit form, and a value of
      any other length than six after expansion reads as black. */
  lemma HexToRgbShorthand(h: string)
    requires h == [] || h[0] != '#'
    ensures |h| == 3 ==> HexToRgb(h) == HexToRgb(DoubleEach(h))
    ensures |h| != 3 && |h| != 6 ==> HexToRgb(h) == RGB(0, 0, 0)
  {
    if |h| == 3 {
      var d := DoubleEach(h);
      assert d[0] == h[0];
      assert LStripChar(d, '#') == d;
    }
  }

  // ---------------------------------------------------------------- rgb_to_hex

  /** The lower-case hex digits of `n`, without padding. */
  function HexDigits(n: nat): (s: string)
    ensures s != []
    ensures forall i :: 0 <= i < |s| ==> IsLowerHexDigit(s[i])
  {
    if n < 16 then [LowerHexDigit(n)] else HexDigits(n / 16) + [LowerHexDigit(n % 16)]
  }

  /** Python's `f"{n:02x}"`: at least two lower-case hex digits. */
  function Hex02(n: nat): (s: string)
    ensures forall i :: 0 <= i < |s| ==> IsLowerHexDigit(s[i])
  {
    if n < 16 then ['0', LowerHexDigit(n)] else HexDigits(n)
  }

  /** rgb_to_hex. */
  function RgbToHex(c: RGB): (s: string)
    ensures |s| >= 7 && s[0] == '#'
    ensures forall i :: 1 <= i < |s| ==> IsLowerHexDigit(s[i])
  {
    Hex02Length(c.r);
    Hex02Length(c.g);
    Hex02Length(c.b);
    "#" + Hex02(c.r) + Hex02(c.g) + Hex02(c.b)
  }

  /** A channel prints as exactly two digits iff it fits in a byte; wider
      channels print as three or more. */
  lemma Hex02Length(n: nat)
    ensures |Hex02(n)| >= 2
    ensures |Hex02(n)| == 2 <==> n < 256
  {
    if n >= 256 {
      HexDigitsLong(n);
    } else if n >= 16 {
      assert n / 16 < 16;
      assert |HexDigits(n)| == |HexDigits(n / 16)| + 1;
    }
  }

  lemma {:induction false} HexDigitsLong(n: nat)
    requires n >= 256
    ensures |HexDigits(n)| >= 3
  {
    assert n / 16 >= 16;
    assert |HexDigits(n / 16)| >= 2;
  }

  /** A byte printed as two digits parses back to itself. */
  lemma Hex02RoundTrip(n: nat)
    requires n < 256
    ensures |Hex02(n)| == 2 && ParseHexPair(Hex02(n)) == Some(n)
  {
    if n >= 16 {
      assert n / 16 < 16;
      assert HexDigits(n) == [LowerHexDigit(n / 16)] + [LowerHexDigit(n % 16)];
    }
  }

  /** rgb_to_hex yields exactly seven characters, i.e. canonical, iff every
      channel fits in a byte. */
  lemma RgbToHexCanonicalIff(c: RGB)
    ensures IsCanonical(RgbToHex(c)) <==> InByteRange(c)
    ensures |RgbToHex(c)| == 7 <==> InByteRange(c)
  {
    Hex02Length(c.r);
    Hex02Length(c.g);
    Hex02Length(c.b);
  }

  /** hex_to_rgb inverts rgb_to_hex on byte channels. */
  lemma RgbHexRoundTrip(c: RGB)
    requires InByteRange(c)
    ensures HexToRgb(RgbToHex(c)) == c
  {
    Hex02RoundTrip(c.r);
    Hex02RoundTrip(c.g);
    Hex02RoundTrip(c.b);
    var x := Hex02(c.r) + Hex02(c.g) + Hex02(c.b);
    assert RgbToHex(c) == "#" + x;
    assert LStripChar("#" + x, '#') == LStripChar(x, '#');
    assert LStripChar(x, '#') == x;
    assert x[0..2] == Hex02(c.r) && x[2..4] == Hex02(c.g) && x[4..6] == Hex02(c.b);
  }

  /** rgb_to_hex inverts hex_to_rgb on canonical colours. */
  lemma CanonicalRoundTrip(s: string)
    requires IsCanonical(s)
    ensures RgbToHex(HexToRgb(s)) == s
  {
    var c := HexToRgb(s);
    CanonicalPrints(s);
    RgbToHexPieces(c);
    SevenPieces(s);
  }

  lemma RgbToHexPieces(c: RGB)
    ensures RgbToHex(c) == "#" + Hex02(c.r) + Hex02(c.g) + Hex02(c.b)
  {
  }

  lemma SevenPieces(s: string)
    requires |s| == 7 && s[0] == '#'
    ensures "#" + s[1..3] + s[3..5] + s[5..7] == s
  {
  }

  /** Each channel of a canonical colour prints back as its own digit pair. */
  lemma CanonicalPrints(s: string)
    requires IsCanonical(s)
    ensures var c := HexToRgb(s);
      Hex02(c.r) == s[1..3] && Hex02(c.g) == s[3..5] && Hex02(c.b) == s[5..7]
  {
    CanonicalChannels(s);
    PairPrintsAt(s, 1, HexToRgb(s).r);
    PairPrintsAt(s, 3, HexToRgb(s).g);
    PairPrintsAt(s, 5, HexToRgb(s).b);
  }

  lemma PairPrintsAt(s: string, i: nat, n: nat)
    requires IsCanonical(s) && 1 <= i < 6
    requires n == 16 * HexDigitValue(s[i]) + HexDigitValue(s[i + 1])
    ensures Hex02(n) == s[i..i + 2]
  {
    assert s[i..i + 2] == [s[i], s[i + 1]];
    PairPrints(s[i], s[i + 1], n);
  }

  /** The channels of a canonical colour are its three digit pairs. */
  lemma CanonicalChannels(s: string)
    requires IsCanonical(s)
    ensures var h := s[1..];
      HexToRgb(s) == RGB(16 * HexDigitValue(h[0]) + HexDigitValue(h[1]),
                         16 * HexDigitValue(h[2]) + HexDigitValue(h[3]),
                         16 * HexDigitValue(h[4]) + HexDigitValue(h[5]))
  {
    var h := s[1..];
    assert s[1] == h[0];
    assert LStripChar(h, '#') == h;
    assert LStripChar(s, '#') == h;
    assert ExpandShorthand(s) == h;
    PairValue(h, 0);
    PairValue(h, 2);
    PairValue(h, 4);
  }

  lemma PairValue(h: string, i: nat)
    requires |h| == 6 && i <= 4
    requires IsLowerHexDigit(h[i]) && IsLowerHexDigit(h[i + 1])
    ensures ParseHexPair(h[i..i + 2]) == Some(16 * HexDigitValue(h[i]) + HexDigitValue(h[i + 1]))
  {
    assert h[i..i + 2][0] == h[i] && h[i..i + 2][1] == h[i + 1];
  }

  lemma PairPrints(a: char, b: char, n: nat)
    requires IsLowerHexDigit(a) && IsLowerHexDigit(b)
    requires n == 16 * HexDigitValue(a) + HexDigitValue(b)
    ensures Hex02(n) == [a, b]
  {
    LowerHexDigitInverse(a);
    LowerHexDigitInverse(b);
    if n >= 16 {
      assert n / 16 == HexDigitValue(a) && n % 16 == HexDigitValue(b);
      assert HexDigits(n) == HexDigits(n / 16) + [LowerHexDigit(n % 16)];
    }
  }

  lemma LowerHexDigitInverse(c: char)
    requires IsLowerHexDigit(c)
    ensures LowerHexDigit(HexDigitValue(c)) == c
  {
  }

  // ---------------------------------------------------------------- parse_rgb_string

  // The pattern is matched on the remaining text: each stage consumes a prefix
  // and hands on what follows. `\s*` is greedy, which is exactly LStrip.

  /** The number of leading ASCII digits (`\d*`, greedy). */
  function DigitRun(s: string): (n: nat)
    ensures n <= |s| && AllDigits(s[..n])
    ensures n == |s| || !IsDigit(s[n])
  {
    if s != [] && IsDigit(s[0]) then
      var m := DigitRun(s[1..]);
      assert s[..m + 1] == [s[0]] + s[1..][..m];
      m + 1
    else 0
  }

  /** `\s*(\d+)`: the channel's value and the text after its digits. */
  function ChannelAt(s: string): (m: Option<(nat, string)>)
    ensures m.Some? ==> |m.value.1| < |s|
  {
    var t := LStrip(s);
    var n := DigitRun(t);
    if n == 0 then None else Some((DecimalValue(t[..n]), t[n..]))
  }

  /** `\s*` followed by the character `p`: the text after `p`. */
  function PunctAt(s: string, p: char): (m: Option<string>)
    ensures m.Some? ==> |m.value| < |s|
  {
    var t := LStrip(s);
    if t != [] && t[0] == p then Some(t[1..]) else None
  }

  /** `rgba?\s*\(`: the text after the parenthesis. */
  function OpenAt(s: string): Option<string> {
    if !StartsWith(s, "rgb") then None
    else
      var u := s[3..];
      PunctAt(if u != [] && u[0] == 'a' then u[1..] else u, '(')
  }

  /** `\s*(\d+)\s*,`: the channel's value and the text after the comma. */
  function ChannelCommaAt(s: string): Option<(nat, string)> {
    match ChannelAt(s)
    case None => None
    case Some((v, rest)) =>
      match PunctAt(rest, ',')
      case None => None
      case Some(after) => Some((v, after))
  }

  /** The pattern `rgba?\s*\(\s*(\d+)\s*,\s*(\d+)\s*,\s*(\d+)` anchored at the
      start of `s`. Its quantifiers never need to backtrack, so one greedy pass
      decides it. */
  function RgbMatchAt(s: string): Option<RGB> {
    match OpenAt(s)
    case None => None
    case Some(s0) =>
      match ChannelCommaAt(s0)
      case None => None
      case Some((r, s1)) =>
        match ChannelCommaAt(s1)
        case None => None
        case Some((g, s2)) =>
          match ChannelAt(s2)
          case None => None
          case Some((b, _)) => Some(RGB(r, g, b))
  }

  /** `re.search`: the match at the leftmost position where there is one. */
  function RgbSearch(s: string): Option<RGB>
    decreases |s|
  {
    match RgbMatchAt(s)
    case Some(c) => Some(c)
    case None => if s == [] then None else RgbSearch(s[1..])
  }

  /** parse_rgb_string. */
  function ParseRgbString(s: string): Option<string> {
    match RgbSearch(s)
    case None => None
    case Some(c) => Some(RgbToHex(c))
  }

  /** `rgb(r, g, b)` and `rgba(r, g, b...` as CSS writes them, with any digit
      runs as channels, are matched at their start. */
  lemma RgbMatchCss(pre: string, dr: string, dg: string, db: string, tail: string)
    requires pre == "rgb(" || pre == "rgba("
    requires dr != [] && dg != [] && db != [] && AllDigits(dr) && AllDigits(dg) && AllDigits(db)
    requires tail == [] || !IsDigit(tail[0])
    ensures RgbMatchAt(CssText(pre, dr, dg, db, tail)) == Some(RGB(DecimalValue(dr), DecimalValue(dg), DecimalValue(db)))
  {
    var x := ChannelText(dg, db + tail);
    var s0 := ChannelText(dr, x);
    OpenCss(pre, s0);
    ChannelCommaCss(dr, x);
    SpaceBeforeChannel(x);
    ChannelCommaCss(dg, db + tail);
    SpaceBeforeChannel(db + tail);
    ChannelAtDigits(db, tail);
    RgbMatchFromParts(pre + s0, s0, " " + x, " " + (db + tail), DecimalValue(dr), DecimalValue(dg), DecimalValue(db));
  }

  lemma RgbMatchFromParts(s: string, s0: string, s1: string, s2: string, r: nat, g: nat, b: nat)
    requires OpenAt(s) == Some(s0)
    requires ChannelCommaAt(s0) == Some((r, s1))
    requires ChannelCommaAt(s1) == Some((g, s2))
    requires ChannelAt(s2).Some? && ChannelAt(s2).value.0 == b
    ensures RgbMatchAt(s) == Some(RGB(r, g, b))
  {
  }

  /** A channel's digits followed by `", "` and the rest of the text. */
  function ChannelText(d: string, rest: string): string {
    d + (", " + rest)
  }

  /** The text `pre` + `dr, dg, db` + `tail`. */
  function CssText(pre: string, dr: string, dg: string, db: string, tail: string): string {
    pre + ChannelText(dr, ChannelText(dg, db + tail))
  }

  lemma OpenCss(pre: string, rest: string)
    requires pre == "rgb(" || pre == "rgba("
    ensures OpenAt(pre + rest) == Some(rest)
  {
    var s := pre + rest;
    var u := s[3..];
    assert s[..3] == "rgb";
    ParenThen(rest);
    if pre == "rgb(" {
      assert u == ['('] + rest;
    } else {
      assert u == ['a'] + (['('] + rest);
      assert u[1..] == ['('] + rest;
    }
  }

  lemma ParenThen(rest: string)
    ensures PunctAt(['('] + rest, '(') == Some(rest)
  {
    var t := ['('] + rest;
    assert LStrip(t) == t;
  }

  /** Digits followed by a non-digit are read as their decimal value. */
  lemma ChannelAtDigits(d: string, tail: string)
    requires d != [] && AllDigits(d)
    requires tail == [] || !IsDigit(tail[0])
    ensures ChannelAt(d + tail) == Some((DecimalValue(d), tail))
  {
    var s := d + tail;
    assert s[0] == d[0];
    assert LStrip(s) == s;
    DigitRunOf(d, tail);
    assert s[..|d|] == d;
    assert s[|d|..] == tail;
  }

  lemma {:induction false} DigitRunOf(d: string, tail: string)
    requires AllDigits(d)
    requires tail == [] || !IsDigit(tail[0])
    ensures DigitRun(d + tail) == |d|
  {
    if d == [] {
      assert d + tail == tail;
    } else {
      assert (d + tail)[0] == d[0];
      assert (d + tail)[1..] == d[1..] + tail;
      DigitRunOf(d[1..], tail);
    }
  }

  /** Digits and `", "`: the value, then the text after the comma. */
  lemma ChannelCommaCss(d: string, rest: string)
    requires d != [] && AllDigits(d)
    ensures ChannelCommaAt(ChannelText(d, rest)) == Some((DecimalValue(d), " " + rest))
  {
    CommaThen(rest);
    ChannelAtDigits(d, ", " + rest);
    ChannelCommaFromParts(d + (", " + rest), DecimalValue(d), ", " + rest, " " + rest);
  }

  lemma CommaThen(rest: string)
    ensures (", " + rest)[0] == ','
    ensures PunctAt(", " + rest, ',') == Some(" " + rest)
  {
    var t := ", " + rest;
    assert t == [','] + ([' '] + rest);
    assert LStrip(t) == t;
  }

  lemma ChannelCommaFromParts(s: string, v: nat, rest: string, after: string)
    requires ChannelAt(s) == Some((v, rest))
    requires PunctAt(rest, ',') == Some(after)
    ensures ChannelCommaAt(s) == Some((v, after))
  {
  }

  /** One leading space does not change how a channel is read. */
  lemma SpaceBeforeChannel(x: string)
    ensures ChannelAt(" " + x) == ChannelAt(x)
    ensures ChannelCommaAt(" " + x) == ChannelCommaAt(x)
  {
    SpaceLStrip(x);
  }

  lemma SpaceLStrip(x: string)
    ensures LStrip(" " + x) == LStrip(x)
  {
    assert AllSpace(" ");
    LStripSpacePrefix(" ", x);
  }

  /** `rgb(r, g, b)`-style text with the channels in decimal. */
  function CssRgb(pre: string, r: nat, g: nat, b: nat, tail: string): string {
    CssText(pre, DecimalString(r), DecimalString(g), DecimalString(b), tail)
  }

  /** parse_rgb_string reads `rgb(r, g, b)` / `rgba(r, g, b, ...` back as the
      hex colour of the channels printed, with no clamping. */
  lemma ParseRgbCss(pre: string, r: nat, g: nat, b: nat, tail: string)
    requires pre == "rgb(" || pre == "rgba("
    requires tail == [] || !IsDigit(tail[0])
    ensures ParseRgbString(CssRgb(pre, r, g, b, tail)) == Some(RgbToHex(RGB(r, g, b)))
  {
    RgbMatchCss(pre, DecimalString(r), DecimalString(g), DecimalString(b), tail);
    assert RgbSearch(CssRgb(pre, r, g, b, tail)) == Some(RGB(r, g, b)) by {
      DecimalRoundTrip(r);
      DecimalRoundTrip(g);
      DecimalRoundTrip(b);
    }
  }

  // ---------------------------------------------------------------- normalize_color

  /** The branches of normalize_color, taken on the stripped, lower-cased text:
      `#` forms become `#` plus six lower-case hex digits or are dropped, `rgb`
      forms go through parse_rgb_string, anything else is dropped. */
  function NormalizeCleaned(c: string): (r: Option<string>)
    ensures r.Some? ==> |r.value| >= 7 && r.value[0] == '#'
    ensures r.Some? ==> forall i :: 1 <= i < |r.value| ==> IsLowerHexDigit(r.value[i])
    ensures r.Some? && StartsWith(c, "#") ==> IsCanonical(r.value)
  {
    if StartsWith(c, "#") then
      var h := ExpandShorthand(c);
      if |h| == 6 && forall i :: 0 <= i < 6 ==> IsLowerHexDigit(h[i]) then Some("#" + h) else None
    else if StartsWith(c, "rgb") then ParseRgbString(c)
    else None
  }

  /** normalize_color. Every result is `#` followed by lower-case hex digits,
      at least six of them, and exactly six for any `#` input. */
  function NormalizeColor(color: string): (r: Option<string>)
    ensures r.Some? ==> |r.value| >= 7 && r.value[0] == '#'
    ensures r.Some? ==> forall i :: 1 <= i < |r.value| ==> IsLowerHexDigit(r.value[i])
    ensures r.Some? && StartsWith(Lower(Strip(color)), "#") ==> IsCanonical(r.value)
  {
    NormalizeCleaned(Lower(Strip(color)))
  }

  /** Text with no surrounding whitespace and no upper-case letter. */
  predicate IsClean(c: string) {
    c != [] && !IsSpace(c[0]) && !IsSpace(c[|c| - 1]) && NoUpper(c)
  }

  predicate NoUpper(s: string) {
    forall i :: 0 <= i < |s| ==> !IsUpper(s[i])
  }

  /** Clean text is its own stripped, lower-cased form. */
  lemma CleanFixed(c: string)
    requires IsClean(c)
    ensures Lower(Strip(c)) == c
  {
    assert LStrip(c) == c;
    assert RStrip(c) == c;
  }

  /** So normalize_color goes straight to its branches. */
  lemma NormalizeClean(c: string)
    requires IsClean(c)
    ensures NormalizeColor(c) == NormalizeCleaned(c)
  {
    CleanFixed(c);
  }

  /** `#` followed by lower-case hex digits is clean. */
  lemma HexTextClean(r: string)
    requires |r| >= 2 && r[0] == '#'
    requires forall i :: 1 <= i < |r| ==> IsLowerHexDigit(r[i])
    ensures IsClean(r)
  {
    assert IsLowerHexDigit(r[|r| - 1]);
  }

  /** A canonical colour normalises to itself. */
  lemma NormalizeCanonical(c: string)
    requires IsCanonical(c)
    ensures NormalizeColor(c) == Some(c)
  {
    HexTextClean(c);
    NormalizeClean(c);
    CleanedCanonical(c);
  }

  lemma CleanedCanonical(c: string)
    requires IsCanonical(c)
    ensures NormalizeCleaned(c) == Some(c)
  {
    assert LStripChar(c[1..], '#') == c[1..];
    assert ExpandShorthand(c) == c[1..];
    assert "#" + c[1..] == c;
  }

  /** Every seven-character result of normalize_color is canonical and a fixed
      point; every longer one (from an `rgb()` channel above 255) is rejected
      when fed back in. */
  lemma NormalizeIdempotent(s: string)
    requires NormalizeColor(s).Some?
    ensures var r := NormalizeColor(s).value;
      (|r| == 7 ==> IsCanonical(r) && NormalizeColor(r) == Some(r)) &&
      (|r| > 7 ==> NormalizeColor(r) == None)
  {
    var r := NormalizeColor(s).value;
    if |r| == 7 {
      NormalizeCanonical(r);
    } else {
      NormalizeRejectsLong(r);
    }
  }

  lemma NormalizeRejectsLong(r: string)
    requires |r| > 7 && r[0] == '#'
    requires forall i :: 1 <= i < |r| ==> IsLowerHexDigit(r[i])
    ensures NormalizeColor(r) == None
  {
    HexTextClean(r);
    NormalizeClean(r);
    CleanedLong(r);
  }

  lemma CleanedLong(r: string)
    requires |r| > 7 && r[0] == '#'
    requires forall i :: 1 <= i < |r| ==> IsLowerHexDigit(r[i])
    ensures NormalizeCleaned(r) == None
  {
    assert LStripChar(r[1..], '#') == r[1..];
    assert ExpandShorthand(r) == r[1..];
  }

  /** A three-digit shorthand `#rgb`, in either case, normalises to the
      lower-case six-digit form with every digit doubled. */
  lemma NormalizeShorthand(h: string)
    requires |h| == 3 && forall i :: 0 <= i < 3 ==> IsHexDigit(h[i])
    ensures NormalizeColor("#" + h) == Some("#" + DoubleEach(Lower(h)))
  {
    var l := Lower(h);
    var c := "#" + l;
    forall i | 0 <= i < 3 ensures IsLowerHexDigit(l[i]) {
      LowerHexDigitOf(h[i]);
    }
    assert c[0] == '#' && c[1..] == l;
    forall i | 0 <= i < |c| ensures !IsUpper(c[i]) {
      if i > 0 { assert c[i] == l[i - 1]; }
    }
    assert c[|c| - 1] == l[2];
    NormalizeClean(c);
    CleanedShorthand(l);
    assert NormalizeColor(c) == Some("#" + DoubleEach(l));
    LowerAppend("#", h);
    assert Lower("#") == "#";
    LowerIdempotent(h);
    NormalizeIgnoresCase("#" + h, c);
  }

  /** `#` followed by hex digits in either case normalises iff there are
      exactly three or six digits; six digits come back lower-cased. */
  lemma NormalizeHexDigits(h: string)
    requires |h| >= 1 && forall i :: 0 <= i < |h| ==> IsHexDigit(h[i])
    ensures NormalizeColor("#" + h).Some? <==> |h| == 3 || |h| == 6
    ensures |h| == 6 ==> NormalizeColor("#" + h) == Some("#" + Lower(h))
    ensures NormalizeColor("#" + h).Some? ==> IsCanonical(NormalizeColor("#" + h).value)
  {
    if |h| == 3 {
      NormalizeShorthand(h);
    } else {
      var l := Lower(h);
      var c := "#" + l;
      forall i | 0 <= i < |h| ensures IsLowerHexDigit(l[i]) {
        LowerHexDigitOf(h[i]);
      }
      HashLower(h);
      forall i | 1 <= i < |c| ensures IsLowerHexDigit(c[i]) {
        assert c[i] == l[i - 1];
      }
      HexTextClean(c);
      NormalizeClean(c);
      CleanedHexDigits(l);
      NormalizeIgnoresCase("#" + h, c);
    }
  }

  lemma HashLower(h: string)
    ensures Lower("#" + h) == "#" + Lower(h)
  {
    LowerAppend("#", h);
    assert Lower("#") == "#";
  }

  lemma CleanedHexDigits(l: string)
    requires |l| >= 1 && |l| != 3 && forall i :: 0 <= i < |l| ==> IsLowerHexDigit(l[i])
    ensures NormalizeCleaned("#" + l) == if |l| == 6 then Some("#" + l) else None
  {
    HashedExpands(l);
    assert StartsWith("#" + l, "#");
  }

  lemma LowerHexDigitOf(c: char)
    requires IsHexDigit(c)
    ensures IsLowerHexDigit(ToLower(c))
  {
  }

  lemma CleanedShorthand(l: string)
    requires |l| == 3 && forall i :: 0 <= i < 3 ==> IsLowerHexDigit(l[i])
    ensures NormalizeCleaned("#" + l) == Some("#" + DoubleEach(l))
  {
    HashedExpands(l);
    DoubledDigits(l);
    assert StartsWith("#" + l, "#");
  }

  /** After a single `#` and a hex digit, expansion sees exactly the digits. */
  lemma HashedExpands(l: string)
    requires l != [] && IsLowerHexDigit(l[0])
    ensures ExpandShorthand("#" + l) == if |l| == 3 then DoubleEach(l) else l
  {
    var c := "#" + l;
    assert c[1..] == l;
    assert LStripChar(c, '#') == l;
  }

  /** Doubling each of three hex digits gives six hex digits. */
  lemma DoubledDigits(l: string)
    requires |l| == 3 && forall i :: 0 <= i < 3 ==> IsLowerHexDigit(l[i])
    ensures forall i :: 0 <= i < 6 ==> IsLowerHexDigit(DoubleEach(l)[i])
  {
    var h := DoubleEach(l);
    forall i | 0 <= i < 6 ensures IsLowerHexDigit(h[i]) {
      if i % 2 == 0 { assert h[2 * (i / 2)] == l[i / 2]; }
      else { assert h[2 * (i / 2) + 1] == l[i / 2]; }
    }
  }

  /** normalize_color reads `rgb(r, g, b)` as the hex of its channels. */
  lemma NormalizeCss(r: nat, g: nat, b: nat)
    ensures NormalizeColor(CssRgb("rgb(", r, g, b, ")")) == Some(RgbToHex(RGB(r, g, b)))
  {
    CssRgbNormalizesAsParsed(r, g, b);
    ParseRgbCss("rgb(", r, g, b, ")");
  }

  lemma CssRgbNormalizesAsParsed(r: nat, g: nat, b: nat)
    ensures NormalizeColor(CssRgb("rgb(", r, g, b, ")")) == ParseRgbString(CssRgb("rgb(", r, g, b, ")"))
  {
    var s := CssRgb("rgb(", r, g, b, ")");
    CssTextClean(DecimalString(r), DecimalString(g), DecimalString(b));
    NormalizeClean(s);
    CleanedRgb(s);
  }

  /** normalize_color turns `rgb(r, g, b)` with byte channels into the
      canonical colour that hex_to_rgb reads back as those channels. */
  lemma NormalizeRgbCss(r: nat, g: nat, b: nat)
    requires r < 256 && g < 256 && b < 256
    ensures var n := NormalizeColor(CssRgb("rgb(", r, g, b, ")"));
      n.Some? && IsCanonical(n.value) && HexToRgb(n.value) == RGB(r, g, b)
  {
    NormalizeCss(r, g, b);
    RgbToHexCanonicalIff(RGB(r, g, b));
    RgbHexRoundTrip(RGB(r, g, b));
  }

  /** A channel above 255 is not clamped: normalize_color yields more than six
      hex digits, a value it then rejects itself. */
  lemma NormalizeRgbUnclamped(r: nat, g: nat, b: nat)
    requires r >= 256 || g >= 256 || b >= 256
    ensures var n := NormalizeColor(CssRgb("rgb(", r, g, b, ")"));
      n.Some? && |n.value| > 7 && NormalizeColor(n.value) == None
  {
    NormalizeCss(r, g, b);
    RgbToHexCanonicalIff(RGB(r, g, b));
    NormalizeRejectsLong(RgbToHex(RGB(r, g, b)));
  }

  lemma CleanedRgb(c: string)
    requires StartsWith(c, "rgb")
    ensures NormalizeCleaned(c) == ParseRgbString(c)
  {
    assert c[0] == 'r';
    assert !StartsWith(c, "#");
  }

  /** `rgb(r, g, b)` with any digit runs is already stripped and lower-case. */
  lemma CssTextClean(dr: string, dg: string, db: string)
    requires AllDigits(dr) && AllDigits(dg) && AllDigits(db)
    ensures IsClean(CssText("rgb(", dr, dg, db, ")"))
    ensures StartsWith(CssText("rgb(", dr, dg, db, ")"), "rgb")
  {
    var t := db + ")";
    var x := ChannelText(dg, t);
    var y := ChannelText(dr, x);
    var s := "rgb(" + y;
    DigitsNoUpper(db);
    NoUpperAppend(db, ")");
    ChannelTextNoUpper(dg, t);
    ChannelTextNoUpper(dr, x);
    NoUpperAppend("rgb(", y);
    EndsWithParen(db);
    LastOfAppend(dg + ", ", t);
    assert x == (dg + ", ") + t;
    LastOfAppend(dr + ", ", x);
    assert y == (dr + ", ") + x;
    LastOfAppend("rgb(", y);
    assert s[0] == 'r';
    assert s[..3] == "rgb";
  }

  lemma DigitsNoUpper(d: string)
    requires AllDigits(d)
    ensures NoUpper(d)
  {
  }

  lemma NoUpperAppend(a: string, b: string)
    requires NoUpper(a) && NoUpper(b)
    ensures NoUpper(a + b)
  {
    forall i | 0 <= i < |a + b| ensures !IsUpper((a + b)[i]) {
      if i < |a| { assert (a + b)[i] == a[i]; } else { assert (a + b)[i] == b[i - |a|]; }
    }
  }

  lemma ChannelTextNoUpper(d: string, rest: string)
    requires AllDigits(d) && NoUpper(rest)
    ensures NoUpper(ChannelText(d, rest))
  {
    DigitsNoUpper(d);
    NoUpperAppend(", ", rest);
    NoUpperAppend(d, ", " + rest);
  }

  lemma EndsWithParen(d: string)
    ensures (d + ")")[|d + ")"| - 1] == ')'
  {
  }

  lemma LastOfAppend(a: string, b: string)
    requires b != []
    ensures (a + b)[|a + b| - 1] == b[|b| - 1]
  {
  }

  /** Surrounding whitespace never changes the result. */
  lemma NormalizeIgnoresPadding(s: string, p: string, q: string)
    requires AllSpace(p) && AllSpace(q)
    ensures NormalizeColor(p + s + q) == NormalizeColor(s)
  {
    StripPadding(s, p, q);
  }

  /** Strings equal up to ASCII case normalise alike. */
  lemma NormalizeIgnoresCase(s: string, t: string)
    requires Lower(s) == Lower(t)
    ensures NormalizeColor(s) == NormalizeColor(t)
  {
    StripLowerCommute(s);
    StripLowerCommute(t);
  }

  lemma StripPadding(s: string, p: string, q: string)
    requires AllSpace(p) && AllSpace(q)
    ensures Strip(p + s + q) == Strip(s)
  {
    var sq := s + q;
    assert p + s + q == p + sq;
    LStripSpacePrefix(p, sq);
    assert LStrip(p + s + q) == LStrip(sq);
    LStripSpaceSuffix(s, q);
    var t := LStrip(s);
    if t != [] {
      RStripSpaceSuffix(t, q);
      assert LStrip(sq) == t + q;
    } else {
      assert LStrip(sq) == [];
    }
  }

  lemma {:induction false} LStripSpacePrefix(p: string, x: string)
    requires AllSpace(p)
    ensures LStrip(p + x) == LStrip(x)
  {
    if p != [] {
      assert (p + x)[0] == p[0];
      assert (p + x)[1..] == p[1..] + x;
      LStripSpacePrefix(p[1..], x);
    } else {
      assert p + x == x;
    }
  }

  lemma {:induction false} LStripSpaceSuffix(x: string, q: string)
    requires AllSpace(q)
    ensures LStrip(x) == [] ==> LStrip(x + q) == []
    ensures LStrip(x) != [] ==> LStrip(x + q) == LStrip(x) + q
  {
    if x == [] {
      assert x + q == q + [];
      LStripSpacePrefix(q, []);
    } else if IsSpace(x[0]) {
      assert (x + q)[0] == x[0];
      assert (x + q)[1..] == x[1..] + q;
      LStripSpaceSuffix(x[1..], q);
    } else {
      assert (x + q)[0] == x[0];
    }
  }

  lemma {:induction false} RStripSpaceSuffix(x: string, q: string)
    requires AllSpace(q)
    ensures RStrip(x + q) == RStrip(x)
    decreases |q|
  {
    if q == [] {
      assert x + q == x;
    } else {
      assert (x + q)[..|x + q| - 1] == x + q[..|q| - 1];
      RStripSpaceSuffix(x, q[..|q| - 1]);
    }
  }

  lemma StripLowerCommute(s: string)
    ensures Strip(Lower(s)) == Lower(Strip(s))
    ensures Lower(Strip(Lower(s))) == Lower(Strip(s))
  {
    LStripLowerCommute(s);
    RStripLowerCommute(LStrip(s));
    LowerIdempotent(Strip(s));
  }

  lemma {:induction false} LStripLowerCommute(s: string)
    ensures LStrip(Lower(s)) == Lower(LStrip(s))
  {
    if s != [] {
      assert Lower(s)[1..] == Lower(s[1..]);
      LStripLowerCommute(s[1..]);
    }
  }

  lemma {:induction false} RStripLowerCommute(s: string)
    ensures RStrip(Lower(s)) == Lower(RStrip(s))
  {
    if s != [] {
      assert Lower(s)[..|s| - 1] == Lower(s[..|s| - 1]);
      RStripLowerCommute(s[..|s| - 1]);
    }
  }

  // ---------------------------------------------------------------- is_grayscale, saturation, color_distance

  function MaxChannel(c: RGB): nat {
    if c.r >= c.g && c.r >= c.b then c.r else if c.g >= c.b then c.g else c.b
  }

  function MinChannel(c: RGB): nat {
    if c.r <= c.g && c.r <= c.b then c.r else if c.g <= c.b then c.g else c.b
  }

  /** is_grayscale with its default tolerance of 10. */
  predicate IsGrayscale(hex: string) {
    var c := HexToRgb(hex);
    MaxChannel(c) - MinChannel(c) <= GrayTolerance
  }

  lemma MinLeMax(c: RGB)
    ensures MinChannel(c) <= MaxChannel(c)
  {
  }

  /** saturation: (max - min) / max, or 0 for black. */
  function Saturation(hex: string): (s: real)
    ensures 0.0 <= s <= 1.0
    ensures s == 0.0 <==> MaxChannel(HexToRgb(hex)) == MinChannel(HexToRgb(hex))
  {
    var c := HexToRgb(hex);
    var hi, lo := MaxChannel(c), MinChannel(c);
    MinLeMax(c);
    if hi == 0 then 0.0 else RatioBounds(hi, lo); (hi - lo) as real / hi as real
  }

  lemma RatioBounds(hi: nat, lo: nat)
    requires lo <= hi && hi > 0
    ensures 0.0 <= (hi - lo) as real / hi as real <= 1.0
    ensures (hi - lo) as real / hi as real == 0.0 <==> hi == lo
  {
    var q := (hi - lo) as real / hi as real;
    assert q * hi as real == (hi - lo) as real;
  }

  function Sq(x: int): nat {
    if x >= 0 then x * x else (-x) * (-x)
  }

  /** color_distance squared; the source's `distance > k` tests are `DistanceSq > k * k`. */
  function DistanceSq(a: string, b: string): (d: nat)
    ensures a == b ==> d == 0
  {
    var x, y := HexToRgb(a), HexToRgb(b);
    Sq(x.r - y.r) + Sq(x.g - y.g) + Sq(x.b - y.b)
  }

  /** Distance does not depend on argument order. */
  lemma DistanceSymmetric(a: string, b: string)
    ensures DistanceSq(a, b) == DistanceSq(b, a)
  {
    var x, y := HexToRgb(a), HexToRgb(b);
    SqNeg(x.r - y.r);
    SqNeg(x.g - y.g);
    SqNeg(x.b - y.b);
  }

  lemma SqNeg(x: int)
    ensures Sq(x) == Sq(-x)
  {
  }

  /** For a non-negative threshold `k` and the Euclidean distance `d` (the
      non-negative root of the squared distance), `d > k` iff the squared
      distance exceeds `k * k`. */
  lemma DistanceThreshold(d: real, k: real, sq: nat)
    requires d >= 0.0 && k >= 0.0 && d * d == sq as real
    ensures d > k <==> sq as real > k * k
  {
    if d > k {
      assert d * d >= d * k >= k * k;
      assert d * d > k * k by {
        assert d * d - k * k == (d - k) * (d + k);
        assert d - k > 0.0 && d + k > 0.0;
      }
    } else {
      assert d * d <= d * k <= k * k;
    }
  }

  /** A colour printed by rgb_to_hex is grayscale iff its channels spread by
      at most the tolerance. */
  lemma GrayscaleOfRgb(c: RGB)
    requires InByteRange(c)
    ensures IsGrayscale(RgbToHex(c)) <==> MaxChannel(c) - MinChannel(c) <= 10
  {
    RgbHexRoundTrip(c);
  }

  /** Grey levels are grayscale and a full-strength primary is not. */
  lemma GrayscaleExamples(v: nat)
    requires v < 256
    ensures IsGrayscale(RgbToHex(RGB(v, v, v)))
    ensures !IsGrayscale(RgbToHex(RGB(255, 0, 0)))
  {
    GrayscaleOfRgb(RGB(v, v, v));
    GrayscaleOfRgb(RGB(255, 0, 0));
  }

  // ---------------------------------------------------------------- is_dark_theme / get_text_color

  function Luminance(lum: LumFn, hex: string): Unit {
    lum(HexToRgb(hex))
  }

  /** is_dark_theme: luminance below one half. */
  predicate IsDarkTheme(lum: LumFn, background: string) {
    Luminance(lum, background) < 0.5
  }

  /** get_text_color: white on a dark background, black otherwise. */
  function TextColorFor(lum: LumFn, background: string): (t: string)
    ensures t == "#ffffff" <==> IsDarkTheme(lum, background)
    ensures t == "#000000" <==> !IsDarkTheme(lum, background)
  {
    if IsDarkTheme(lum, background) then "#ffffff" else "#000000"
  }

  /** The WCAG relative luminance gives black 0 and white 1. */
  predicate FixesBlackAndWhite(lum: LumFn) {
    lum(RGB(0, 0, 0)) == 0.0 && lum(RGB(255, 255, 255)) == 1.0
  }

  /** With such a luminance, black takes white text and white takes black text. */
  lemma TextOnBlackAndWhite(lum: LumFn)
    requires FixesBlackAndWhite(lum)
    ensures TextColorFor(lum, RgbToHex(RGB(0, 0, 0))) == "#ffffff"
    ensures TextColorFor(lum, RgbToHex(RGB(255, 255, 255))) == "#000000"
  {
    RgbHexRoundTrip(RGB(0, 0, 0));
    RgbHexRoundTrip(RGB(255, 255, 255));
  }

  /** Under a luminance that fixes black and white, get_text_color's choice
      is always the one of the two that contrasts with the background: their
      luminances are at least one half apart. */
  lemma TextColorContrasts(lum: LumFn, background: string)
    requires FixesBlackAndWhite(lum)
    ensures var t := TextColorFor(lum, background);
      (t == "#ffffff" || t == "#000000") &&
      (Luminance(lum, t) - Luminance(lum, background) >= 0.5 ||
       Luminance(lum, background) - Luminance(lum, t) >= 0.5)
  {
    WhiteAndBlackRead();
  }

  /** `#ffffff` and `#000000` read back as white and black. */
  lemma WhiteAndBlackRead()
    ensures HexToRgb("#ffffff") == RGB(255, 255, 255)
    ensures HexToRgb("#000000") == RGB(0, 0, 0)
  {
    RgbHexRoundTrip(RGB(0, 0, 0));
    RgbHexRoundTrip(RGB(255, 255, 255));
    BlackWhitePrint();
  }

  lemma BlackWhitePrint()
    ensures RgbToHex(RGB(255, 255, 255)) == "#ffffff"
    ensures RgbToHex(RGB(0, 0, 0)) == "#000000"
  {
    assert Hex02(255) == "ff";
    assert Hex02(0) == "00";
  }
}
