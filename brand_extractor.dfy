/**
 * The brand-name heuristics of the brand extractor: cleaning a page title,
 * deriving a name from a domain, the priority between the page's name
 * sources, and the choice of tagline.
 *
 * The HTML parser is replaced by what it finds: the `content` of the
 * `og:site_name`, `og:description` and `description` meta tags, the title
 * text and the stripped text of the first `h1`, each absent or present.
 */
module BrandExtractor {
  import opened Wrappers
  import opened Strings
  import opened Selection

  // ---------------------------------------------------------------- _clean_title

  /** The title separators, tried in this order. */
  const Separators: seq<string> := [" | ", " - ", " \U{2014} ", " :: ", " : "]

  /** Words that make a title part look generic rather than a name. */
  const GenericStarters: seq<string> := ["home", "welcome", "the", "official", "my"]

  /** The first separator at or after position `k` of the list that occurs in `t`. */
  function FirstSeparatorFrom(t: string, k: nat): (r: Option<nat>)
    requires k <= |Separators|
    ensures r.Some? ==> k <= r.value < |Separators| && Contains(t, Separators[r.value])
    ensures r.Some? ==> forall j :: k <= j < r.value ==> !Contains(t, Separators[j])
    ensures r.None? ==> forall j :: k <= j < |Separators| ==> !Contains(t, Separators[j])
    decreases |Separators| - k
  {
    if k == |Separators| then None
    else if Contains(t, Separators[k]) then Some(k)
    else FirstSeparatorFrom(t, k + 1)
  }

  /** The parts of the stripped title: cut at the first separator that occurs. */
  function TitleParts(t: string): seq<string> {
    match FirstSeparatorFrom(t, 0)
    case None => [t]
    case Some(k) => Split(t, Separators[k])
  }

  /** A part, stripped, if it is longer than one character. */
  function Candidate(part: string): Option<string> {
    var p := Strip(part);
    if |p| > 1 then Some(p) else None
  }

  /** `[p.strip() for p in parts if len(p.strip()) > 1]`. */
  function Candidates(parts: seq<string>): seq<string> {
    KeepSome(parts, Candidate)
  }

  /** The candidate starts, ignoring case, with one of the generic words. */
  predicate IsGeneric(part: string) {
    exists g :: 0 <= g < |GenericStarters| && StartsWith(Lower(part), GenericStarters[g])
  }

  /** The index of the first candidate at or after `i` that is not generic. */
  function FirstNonGenericFrom(candidates: seq<string>, i: nat): (r: Option<nat>)
    requires i <= |candidates|
    ensures r.Some? ==> i <= r.value < |candidates| && !IsGeneric(candidates[r.value])
    ensures r.Some? ==> forall j :: i <= j < r.value ==> IsGeneric(candidates[j])
    ensures r.None? ==> forall j :: i <= j < |candidates| ==> IsGeneric(candidates[j])
    decreases |candidates| - i
  {
    if i == |candidates| then None
    else if !IsGeneric(candidates[i]) then Some(i)
    else FirstNonGenericFrom(candidates, i + 1)
  }

  /** What _clean_title returns for `title`. */
  function CleanTitleOf(title: string): string {
    var t := Strip(title);
    var candidates := Candidates(TitleParts(t));
    if candidates == [] then t
    else match FirstNonGenericFrom(candidates, 0)
      case Some(i) => candidates[i]
      case None => candidates[0]
  }

  /** _clean_title: strip, split at the first separator found, keep the
      stripped parts longer than one character, and return the first one that
      does not start with a generic word (else the first one, else the
      stripped title). */
  method CleanTitle(title: string) returns (name: string)
    ensures name == CleanTitleOf(title)
  {
    var t := Strip(title);
    var parts := [t];
    var k := 0;
    while k < |Separators|
      invariant k <= |Separators|
      invariant FirstSeparatorFrom(t, 0) == FirstSeparatorFrom(t, k)
      invariant parts == [t]
    {
      var sep := Separators[k];
      if Contains(t, sep) {
        parts := Split(t, sep);
        break;
      }
      k := k + 1;
    }
    assert parts == TitleParts(t);
    var candidates := Candidates(parts);
    if candidates == [] {
      return t;
    }
    for i := 0 to |candidates|
      invariant FirstNonGenericFrom(candidates, 0) == FirstNonGenericFrom(candidates, i)
    {
      if !IsGeneric(candidates[i]) {
        return candidates[i];
      }
    }
    return candidates[0];
  }

  /** The candidates are exactly the stripped parts longer than one character. */
  lemma CandidatesMembers(parts: seq<string>, c: string)
    ensures c in Candidates(parts) <==> |c| > 1 && exists i :: 0 <= i < |parts| && Strip(parts[i]) == c
  {
    KeepSomeMembers(parts, Candidate, c);
  }

  /** The cleaned title is the stripped title or one of its stripped parts,
      */
  lemma CleanTitleResult(title: string)
    ensures var t, name := Strip(title), CleanTitleOf(title);
      name == t || exists i :: 0 <= i < |TitleParts(t)| && Strip(TitleParts(t)[i]) == name
  {
    var t, name := Strip(title), CleanTitleOf(title);
    var candidates := Candidates(TitleParts(t));
    if candidates != [] {
      assert name in candidates;
      CandidatesMembers(TitleParts(t), name);
    }
  }

  /** The cleaned title is empty only when the title is blank. */
  lemma CleanTitleEmptyIff(title: string)
    ensures CleanTitleOf(title) == [] <==> Strip(title) == []
  {
    var t := Strip(title);
    var candidates := Candidates(TitleParts(t));
    if candidates != [] {
      assert CleanTitleOf(title) in candidates;
      CandidatesMembers(TitleParts(t), CleanTitleOf(title));
    } else if t == [] {
      BlankTitleParts(t);
    }
  }

  /** A blank title has one, blank, part and so no candidates. */
  lemma BlankTitleParts(t: string)
    requires t == []
    ensures TitleParts(t) == [[]] && Candidates(TitleParts(t)) == []
  {
    assert Candidates([[]]) == KeepSome([[]][..0], Candidate) + OptList(Candidate([]));
  }

  /** A non-generic candidate is returned only when every candidate before it
      is generic, and a generic one only when all of them are. */
  lemma CleanTitlePrefersNonGeneric(title: string)
    requires Candidates(TitleParts(Strip(title))) != []
    ensures var candidates, name := Candidates(TitleParts(Strip(title))), CleanTitleOf(title);
      (!IsGeneric(name) &&
       exists i :: (0 <= i < |candidates| && candidates[i] == name &&
                    forall j :: 0 <= j < i ==> IsGeneric(candidates[j]))) ||
      (name == candidates[0] && forall j :: 0 <= j < |candidates| ==> IsGeneric(candidates[j]))
  {
  }

  /** The test is a case-insensitive prefix test: a generic word in any case,
      followed by anything at all, is generic. */
  lemma GenericWhateverFollows(p: string, x: string)
    requires Lower(p) in GenericStarters
    ensures IsGeneric(p + x)
  {
    LowerAppend(p, x);
    var g :| 0 <= g < |GenericStarters| && GenericStarters[g] == Lower(p);
    assert Lower(p + x)[..|p|] == Lower(p);
    assert StartsWith(Lower(p + x), GenericStarters[g]);
  }

  /** So "Theory" counts as generic: it starts with "the". */
  lemma TheoryIsGeneric()
    ensures IsGeneric("Theory")
  {
    assert Lower("The") == GenericStarters[2];
    GenericWhateverFollows("The", "ory");
    assert "The" + "ory" == "Theory";
  }

  // ---------------------------------------------------------------- _domain_to_name

  /** Python's `str.capitalize()` on ASCII: the first character upper case,
      the rest lower case. */
  function Capitalize(w: string): (r: string)
    ensures |r| == |w|
  {
    if w == [] then [] else [ToUpper(w[0])] + Lower(w[1..])
  }

  /** `w.capitalize() for w in words`. */
  function CapitalizeAll(words: seq<string>): (r: seq<string>)
    ensures |r| == |words|
  {
    if words == [] then [] else [Capitalize(words[0])] + CapitalizeAll(words[1..])
  }

  predicate HasUpperAfterFirst(name: string) {
    exists i :: 1 <= i < |name| && IsUpper(name[i])
  }

  /** The text before the first dot. */
  function DomainStem(domain: string): string {
    Split(domain, ".")[0]
  }

  /** _domain_to_name: hyphen-separated words are capitalised and joined by
      spaces; otherwise the first letter is upper-cased, and the rest lower-cased
      unless it already holds an upper-case letter. */
  function DomainToName(domain: string): string {
    var name := DomainStem(domain);
    if Contains(name, "-") then
      var words := Split(name, "-");
      Join(" ", CapitalizeAll(words))
    else if HasUpperAfterFirst(name) then
      [ToUpper(name[0])] + name[1..]
    else
      Capitalize(name)
  }

  lemma ToLowerToUpper(c: char)
    ensures ToLower(ToUpper(c)) == ToLower(c)
  {
  }

  /** Without a hyphen the name is the domain's stem with only its letter case
      changed, and its first character upper-cased; a stem that already has a
      capital after its first character keeps every later character as it is. */
  lemma DomainNameOnlyRecases(domain: string)
    requires !Contains(DomainStem(domain), "-")
    ensures var name, r := DomainStem(domain), DomainToName(domain);
      |r| == |name| && Lower(r) == Lower(name) && (name != [] ==> r[0] == ToUpper(name[0])) &&
      (HasUpperAfterFirst(name) ==> forall i :: 1 <= i < |name| ==> r[i] == name[i])
  {
    var name, r := DomainStem(domain), DomainToName(domain);
    if name != [] {
      ToLowerToUpper(name[0]);
      if !HasUpperAfterFirst(name) {
        LowerIdempotent(name[1..]);
        assert Lower(r)[1..] == Lower(name)[1..];
      } else {
        assert Lower(r)[1..] == Lower(name)[1..];
      }
      assert Lower(r) == [Lower(r)[0]] + Lower(r)[1..];
      assert Lower(name) == [Lower(name)[0]] + Lower(name)[1..];
    }
  }

  // ---------------------------------------------------------------- _extract_name, _extract_tagline

  /** What the parser found for the name: `og:site_name` content, the title
      text, and the stripped text of the first `h1`. */
  datatype NameSources = NameSources(ogSiteName: Option<string>, title: Option<string>, h1Text: Option<string>)

  /** _extract_name: the site name if given, else the cleaned title if not
      empty, else a short `h1` text, else the name derived from the domain. */
  function ExtractName(src: NameSources, domain: string): string {
    if src.ogSiteName.Some? && src.ogSiteName.value != [] then Strip(src.ogSiteName.value)
    else if src.title.Some? && src.title.value != [] && CleanTitleOf(src.title.value) != [] then
      CleanTitleOf(src.title.value)
    else if src.h1Text.Some? && src.h1Text.value != [] && |src.h1Text.value| < 50 then src.h1Text.value
    else DomainToName(domain)
  }

  /** The name priority: a present site name wins even when it strips to
      nothing; a title wins over the `h1` exactly when it is not blank; a
      short `h1` comes next; and when none of them applies the name is the
      one derived from the domain. */
  lemma NamePriority(src: NameSources, domain: string)
    ensures src.ogSiteName.Some? && src.ogSiteName.value != [] ==>
      ExtractName(src, domain) == Strip(src.ogSiteName.value)
    ensures (src.ogSiteName.None? || src.ogSiteName.value == []) && src.title.Some? && Strip(src.title.value) != [] ==>
      ExtractName(src, domain) == CleanTitleOf(src.title.value)
    ensures ((src.ogSiteName.None? || src.ogSiteName.value == []) &&
             (src.title.None? || Strip(src.title.value) == []) &&
             src.h1Text.Some? && 0 < |src.h1Text.value| < 50) ==>
      ExtractName(src, domain) == src.h1Text.value
    ensures ((src.ogSiteName.None? || src.ogSiteName.value == []) &&
             (src.title.None? || Strip(src.title.value) == []) &&
             (src.h1Text.None? || src.h1Text.value == [] || |src.h1Text.value| >= 50)) ==>
      ExtractName(src, domain) == DomainToName(domain)
  {
    if src.title.Some? {
      CleanTitleEmptyIff(src.title.value);
    }
  }

  /** A description, stripped, if it is shorter than 200 characters. */
  function ShortDescription(content: Option<string>): Option<string> {
    if content.Some? && content.value != [] && |Strip(content.value)| < 200 then Some(Strip(content.value)) else None
  }

  /** _extract_tagline: the `og:description`, else the `description`, each
      only if short enough once stripped. */
  function ExtractTagline(ogDescription: Option<string>, description: Option<string>): (tagline: Option<string>)
    ensures tagline.Some? ==> |tagline.value| < 200
    ensures tagline.Some? ==>
      (ogDescription.Some? && tagline.value == Strip(ogDescription.value)) ||
      (description.Some? && tagline.value == Strip(description.value))
    ensures ShortDescription(ogDescription).Some? ==> tagline == ShortDescription(ogDescription)
    ensures ShortDescription(ogDescription).None? ==> tagline == ShortDescription(description)
    ensures tagline.None? <==> ShortDescription(ogDescription).None? && ShortDescription(description).None?
  {
    if ShortDescription(ogDescription).Some? then ShortDescription(ogDescription)
    else ShortDescription(description)
  }

  /** The stem ends at the first dot. */
  lemma DomainStemAt(domain: string, i: nat)
    requires i < |domain| && domain[i] == '.' && '.' !in domain[..i]
    ensures DomainStem(domain) == domain[..i]
  {
    assert OccursAt(domain, ".", i);
    SplitAt(domain, ".", i);
  }

  /** `r` is `s` title-cased at its hyphens: each hyphen becomes a space,
      a character at the start or right after a hyphen is upper-cased, and
      every other character is lower-cased. */
  predicate TitleCased(r: string, s: string) {
    |r| == |s| && forall i :: 0 <= i < |s| ==> r[i] == TitleChar(s, i)
  }

  /** The character title-casing puts at position `i` of `s`. */
  function TitleChar(s: string, i: nat): char
    requires i < |s|
  {
    if s[i] == '-' then ' '
    else if i == 0 || s[i - 1] == '-' then ToUpper(s[i])
    else ToLower(s[i])
  }

  /** With a hyphen, every piece between hyphens is capitalised and the
      pieces are joined by spaces. */
  lemma DomainNameHyphenated(domain: string)
    requires Contains(DomainStem(domain), "-")
    ensures TitleCased(DomainToName(domain), DomainStem(domain))
  {
    HyphenJoinTitled(DomainStem(domain));
  }

  /** The example of the docstring: `my-cool-site.com` gives `My Cool Site`. */
  lemma MyCoolSite()
    ensures DomainToName("my-cool-site.com") == "My Cool Site"
  {
    var domain, name := "my-cool-site.com", "my-cool-site";
    MyCoolSiteStem();
    assert OccursAt(name, "-", 2);
    DomainNameHyphenated(domain);
    MyCoolSiteTitled();
    TitleCasedUnique(DomainToName(domain), "My Cool Site", name);
  }

  lemma MyCoolSiteStem()
    ensures DomainStem("my-cool-site.com") == "my-cool-site"
  {
    var domain := "my-cool-site.com";
    assert domain[..12] == "my-cool-site";
    DomainStemAt(domain, 12);
  }

  lemma MyCoolSiteTitled()
    ensures TitleCased("My Cool Site", "my-cool-site")
  {
  }

  /** The title-cased form of a text is unique. */
  lemma TitleCasedUnique(r1: string, r2: string, s: string)
    requires TitleCased(r1, s) && TitleCased(r2, s)
    ensures r1 == r2
  {
    assert forall i :: 0 <= i < |s| ==> r1[i] == r2[i];
  }

  /** A piece without hyphens, capitalised, is its title-cased form. */
  lemma NoHyphenTitled(w: string)
    requires forall k :: 0 <= k < |w| ==> w[k] != '-'
    ensures TitleCased(Capitalize(w), w)
  {
    if w != [] {
      var r := Capitalize(w);
      forall i | 1 <= i < |w| ensures r[i] == ToLower(w[i]) {
        assert r[i] == Lower(w[1..])[i - 1];
      }
    }
  }

  /** Title-cased pieces concatenate when the second starts at a hyphen or
      the first ends with one. */
  lemma TitledAppend(r1: string, s1: string, r2: string, s2: string)
    requires TitleCased(r1, s1) && TitleCased(r2, s2)
    requires s1 == [] || s2 == [] || s2[0] == '-' || s1[|s1| - 1] == '-'
    ensures TitleCased(r1 + r2, s1 + s2)
  {
    var r, s := r1 + r2, s1 + s2;
    forall i | 0 <= i < |s| ensures r[i] == TitleChar(s, i) {
      if i < |s1| {
        assert s[i] == s1[i] && r[i] == r1[i];
        assert r1[i] == TitleChar(s1, i);
        if i > 0 { assert s[i - 1] == s1[i - 1]; }
      } else {
        var j := i - |s1|;
        assert s[i] == s2[j] && r[i] == r2[j];
        assert r2[j] == TitleChar(s2, j);
        if j > 0 { assert s[i - 1] == s2[j - 1]; }
        else if i > 0 { assert s[i - 1] == s1[|s1| - 1]; }
      }
    }
  }

  /** Capitalising the parts between hyphens and joining them with spaces
      title-cases the text at its hyphens. */
  lemma {:induction false} HyphenJoinTitled(s: string)
    ensures TitleCased(Join(" ", CapitalizeAll(Split(s, "-"))), s)
    decreases |s|
  {
    match FindFrom(s, "-", 0)
    case None =>
      assert Split(s, "-") == [s];
      forall k | 0 <= k < |s| ensures s[k] != '-' {
        assert !OccursAt(s, "-", k);
      }
      NoHyphenTitled(s);
    case Some(i) =>
      var a, rest := s[..i], s[i + 1..];
      var p := Split(rest, "-");
      assert Split(s, "-") == [a] + p;
      assert CapitalizeAll([a] + p) == [Capitalize(a)] + CapitalizeAll(p) by {
        assert ([a] + p)[1..] == p;
      }
      JoinCons(" ", Capitalize(a), CapitalizeAll(p));
      forall k | 0 <= k < |a| ensures a[k] != '-' {
        assert !OccursAt(s, "-", k);
      }
      NoHyphenTitled(a);
      HyphenJoinTitled(rest);
      assert TitleCased(" ", "-");
      TitledAppend(Capitalize(a), a, " ", "-");
      TitledAppend(Capitalize(a) + " ", a + "-", Join(" ", CapitalizeAll(p)), rest);
      CutTwice(s, i, i + 1);
      assert s[i..i + 1] == "-";
  }

  /** A stem without hyphens or inner capitals is capitalised: its first
      character is upper-cased and no later one is upper case, so
      `fairprice.work` gives `Fairprice`, never `FairPrice`. */
  lemma DomainNamePlain(domain: string)
    requires !Contains(DomainStem(domain), "-") && !HasUpperAfterFirst(DomainStem(domain))
    ensures var name, r := DomainStem(domain), DomainToName(domain);
      r == Capitalize(name) && (name != [] ==> r[0] == ToUpper(name[0])) &&
      forall i :: 1 <= i < |r| ==> !IsUpper(r[i])
  {
  }
}
