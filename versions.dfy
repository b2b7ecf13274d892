/**
 * The updater's version handling: normalize_version(), which rewrites loose
 * version strings into `x.y.z` or `x.y.z-tag.n`, PHP's version_compare() on
 * the shapes normalize_version() emits, and the update gate that combines the
 * comparison with the prerelease channel.
 *
 * The regular expressions are PCRE without the `m`, `s` or `D` modifiers:
 * `\d` is an ASCII digit, `.` matches anything but "\n", and `$` matches at
 * the end of the subject or just before a final "\n".
 */
module Versions {
  import opened Php

  // ---------------------------------------------------------------------
  // Digit runs and the `\d+\.\d+\.\d+` core
  // ---------------------------------------------------------------------

  /** A non-empty run of decimal digits (`\d+`). */
  predicate Numeral(s: string) {
    s != [] && forall i :: 0 <= i < |s| ==> IsDigit(s[i])
  }

  /** Length of the run of digits at the start of s. */
  function LeadDigits(s: string): (n: nat)
    ensures n <= |s|
    ensures forall i :: 0 <= i < n ==> IsDigit(s[i])
    ensures n < |s| ==> !IsDigit(s[n])
  {
    if s == [] || !IsDigit(s[0]) then 0 else 1 + LeadDigits(s[1..])
  }

  /** A numeral followed by nothing or by a non-digit has exactly its own length of leading digits. */
  lemma {:induction false} LeadDigitsOf(x: string, rest: string)
    requires forall i :: 0 <= i < |x| ==> IsDigit(x[i])
    requires rest == [] || !IsDigit(rest[0])
    ensures LeadDigits(x + rest) == |x|
    decreases |x|
  {
    if x == [] {
      assert x + rest == rest;
    } else {
      assert (x + rest)[1..] == x[1..] + rest;
      LeadDigitsOf(x[1..], rest);
    }
  }

  /** PCRE's `$`: the end of the subject, or a final "\n". */
  predicate IsLineEnd(rest: string) {
    rest == "" || rest == "\n"
  }

  /** The three numeric components matched by `^(\d+\.\d+\.\d+)`, as written. */
  datatype Core = Core(major: string, minor: string, patch: string) {
    function Text(): string {
      major + "." + minor + "." + patch
    }
    predicate Valid() {
      Numeral(major) && Numeral(minor) && Numeral(patch)
    }
  }

  /**
   * `^(\d+\.\d+\.\d+)`: every `\d+` is followed by a '.' or by a character
   * that cannot continue the pattern, so each run is taken whole.
   */
  function ParseCore(s: string): (r: Option<Core>)
    ensures r.Some? ==> r.value.Valid() && StartsWith(s, r.value.Text())
    ensures r.Some? && |r.value.Text()| < |s| ==> !IsDigit(s[|r.value.Text()|])
  {
    var a := LeadDigits(s);
    if a == 0 || a == |s| || s[a] != '.' then None
    else
      var s1 := s[a + 1..];
      var b := LeadDigits(s1);
      if b == 0 || b == |s1| || s1[b] != '.' then None
      else
        var s2 := s1[b + 1..];
        var c := LeadDigits(s2);
        if c == 0 then None
        else
          CoreSplit(s, a, b, c);
          Some(Core(s[..a], s1[..b], s2[..c]))
  }

  /** A string cut at two dots is the concatenation of its three pieces and the rest. */
  lemma CoreSplit(s: string, a: nat, b: nat, c: nat)
    requires a < |s| && s[a] == '.'
    requires b < |s[a + 1..]| && s[a + 1..][b] == '.'
    requires c <= |s[a + 1..][b + 1..]|
    ensures var s1 := s[a + 1..];
      var s2 := s1[b + 1..];
      s == s[..a] + "." + s1[..b] + "." + s2[..c] + s2[c..]
  {
    var s1 := s[a + 1..];
    var s2 := s1[b + 1..];
    DotSplit(s, a);
    DotSplit(s1, b);
    assert s2 == s2[..c] + s2[c..];
    Regroup(s[..a], s1[..b], s2[..c], s2[c..]);
  }

  lemma DotSplit(s: string, a: nat)
    requires a < |s| && s[a] == '.'
    ensures s == s[..a] + "." + s[a + 1..]
  {
  }

  lemma Regroup(x: string, y: string, z: string, w: string)
    ensures x + "." + (y + "." + (z + w)) == x + "." + y + "." + z + w
  {
  }

  /** A numeral followed by '.' splits at the dot. */
  lemma NumeralThenDot(x: string, rest: string)
    requires Numeral(x)
    ensures var s := x + "." + rest;
      LeadDigits(s) == |x| && s[|x|] == '.' && s[..|x|] == x && s[|x| + 1..] == rest
  {
    var s := x + "." + rest;
    assert s == x + ("." + rest);
    LeadDigitsOf(x, "." + rest);
  }

  /** The core parser recovers the components of any core followed by a non-digit. */
  lemma ParseCoreOf(p: Core, rest: string)
    requires p.Valid()
    requires rest == [] || !IsDigit(rest[0])
    ensures ParseCore(p.Text() + rest) == Some(p)
  {
    var s := p.Text() + rest;
    var t2 := p.patch + rest;
    var t1 := p.minor + "." + t2;
    CoreRegroup(p, rest);
    NumeralThenDot(p.major, t1);
    NumeralThenDot(p.minor, t2);
    LeadDigitsOf(p.patch, rest);
    ConcatParts(p.patch, rest);
    CoreOfParts(s, p, t1, t2);
  }

  lemma CoreRegroup(p: Core, rest: string)
    ensures p.Text() + rest == p.major + "." + (p.minor + "." + (p.patch + rest))
  {
  }

  /** The parser's three cuts on a core text give back its components. */
  lemma CoreOfParts(s: string, p: Core, t1: string, t2: string)
    requires p.Valid()
    requires |p.major| < |s| && |p.minor| < |t1|
    requires LeadDigits(s) == |p.major| && s[|p.major|] == '.' && s[..|p.major|] == p.major && s[|p.major| + 1..] == t1
    requires LeadDigits(t1) == |p.minor| && t1[|p.minor|] == '.' && t1[..|p.minor|] == p.minor && t1[|p.minor| + 1..] == t2
    requires LeadDigits(t2) == |p.patch| && t2[..|p.patch|] == p.patch
    ensures ParseCore(s) == Some(p)
  {
  }

  // ---------------------------------------------------------------------
  // The steps of normalize_version()
  // ---------------------------------------------------------------------

  /** No "\n" occurs in t except possibly as its last character: `.*$` matches all of t. */
  predicate BuildTail(t: string) {
    forall i :: 0 <= i < |t| - 1 ==> t[i] != '\n'
  }

  /**
   * preg_replace('/\+.*$/', '', $v): the first '+' that is followed by no
   * "\n" other than a final one starts the match; the match runs to the end,
   * or to just before that final "\n", which stays.
   */
  function StripBuild(s: string): (r: string)
    ensures '+' !in s ==> r == s
  {
    if s == [] then s
    else if s[0] == '+' && BuildTail(s[1..]) then (if |s| > 1 && s[|s| - 1] == '\n' then "\n" else "")
    else [s[0]] + StripBuild(s[1..])
  }

  /** Build metadata after the first '+' is deleted. */
  lemma {:induction false} StripBuildOf(x: string, build: string)
    requires '+' !in x && '\n' !in build
    ensures StripBuild(x + "+" + build) == x
    decreases |x|
  {
    var s := x + "+" + build;
    if x == [] {
      assert s == "+" + build && s[1..] == build;
      assert s[|s| - 1] != '\n' by {
        if |s| > 1 {
          assert s[|s| - 1] == build[|build| - 1];
        }
      }
    } else {
      assert s[0] == x[0] && s[1..] == x[1..] + "+" + build;
      StripBuildOf(x[1..], build);
      assert [x[0]] + x[1..] == x;
    }
  }

  /** `^\d+\.\d+$` */
  predicate TwoComponents(s: string) {
    var a := LeadDigits(s);
    0 < a < |s| && s[a] == '.' && 0 < LeadDigits(s[a + 1..]) && IsLineEnd(s[a + 1 + LeadDigits(s[a + 1..])..])
  }

  /** `^\d+$` */
  predicate OneComponent(s: string) {
    0 < LeadDigits(s) && IsLineEnd(s[LeadDigits(s)..])
  }

  /** Pad `x.y` to `x.y.0` and `x` to `x.0.0` (appended after a final "\n", as `.=` does). */
  function PadCore(s: string): string {
    if TwoComponents(s) then s + ".0"
    else if OneComponent(s) then s + ".0.0"
    else s
  }

  /** The alternatives of the prerelease group, in the order the regex tries them. */
  const TagAlternatives: seq<string> := ["alpha", "a", "beta", "b", "rc", "dev", "pre", "preview"]

  /** The tags normalize_version() emits. */
  const BareTags: seq<string> := ["alpha", "beta", "rc", "dev"]

  /** Case-insensitive (`/i`) match of a lower-case word at the start of r. */
  predicate PrefixCI(r: string, word: string) {
    |word| <= |r| && forall i :: 0 <= i < |word| ==> LowerChar(r[i]) == word[i]
  }

  /** `[\.\-]?` */
  function SkipSeparator(t: string): (u: string)
    ensures u == t || (t != [] && (t[0] == '.' || t[0] == '-') && u == t[1..])
  {
    if t != [] && (t[0] == '.' || t[0] == '-') then t[1..] else t
  }

  /**
   * `(?:(?:[\.\-]?)(\d+))?$` after the tag: None when it does not match,
   * Some(None) when it matches without digits, Some(Some(n)) with the digits n.
   */
  function TailOrdinal(t: string): (r: Option<Option<string>>)
    ensures r == Some(None) <==> IsLineEnd(t)
    ensures r.Some? && r.value.Some? ==> Numeral(r.value.value)
  {
    if IsLineEnd(t) then Some(None)
    else
      var u := SkipSeparator(t);
      var d := LeadDigits(u);
      if d > 0 && IsLineEnd(u[d..]) then Some(Some(u[..d])) else None
  }

  /** Alternative `word` matches at the start of r and the rest of the pattern matches after it. */
  predicate AltMatches(r: string, word: string) {
    PrefixCI(r, word) && TailOrdinal(r[|word|..]).Some?
  }

  datatype TagMatch = TagMatch(index: nat, ordinal: Option<string>)

  /** The regex engine's choice: the first alternative, from `from` on, after which the pattern completes. */
  function FindTag(r: string, from: nat): (m: Option<TagMatch>)
    requires from <= |TagAlternatives|
    ensures m.Some? ==>
      && from <= m.value.index < |TagAlternatives|
      && AltMatches(r, TagAlternatives[m.value.index])
      && TailOrdinal(r[|TagAlternatives[m.value.index]|..]) == Some(m.value.ordinal)
      && forall j :: from <= j < m.value.index ==> !AltMatches(r, TagAlternatives[j])
    ensures m.None? ==> forall j :: from <= j < |TagAlternatives| ==> !AltMatches(r, TagAlternatives[j])
    decreases |TagAlternatives| - from
  {
    if from == |TagAlternatives| then None
    else if AltMatches(r, TagAlternatives[from]) then
      Some(TagMatch(from, TailOrdinal(r[|TagAlternatives[from]|..]).value))
    else FindTag(r, from + 1)
  }

  /** The switch on the matched tag: a -> alpha, b/pre/preview -> beta, rc and dev unchanged. */
  function Synonym(tag: string): (t: string)
    requires tag in TagAlternatives
    ensures t in BareTags
    ensures tag in BareTags ==> t == tag
  {
    if tag == "a" then "alpha"
    else if tag == "b" || tag == "pre" || tag == "preview" then "beta"
    else tag
  }

  /**
   * The prerelease rewrite: a core, an optional '.' or '-', a tag spelled in
   * any case and an optional ordinal become `core-tag.n` (n = 0 without
   * digits); anything else is returned unchanged.
   */
  function CanonicalTag(v: string): string {
    TagAfterCore(v, ParseCore(v))
  }

  /** The prerelease rewrite once the core (if any) is read. */
  function TagAfterCore(v: string, core: Option<Core>): string
    requires core.Some? ==> |core.value.Text()| <= |v|
  {
    match core
    case None => v
    case Some(p) =>
      match FindTag(SkipSeparator(v[|p.Text()|..]), 0)
      case None => v
      case Some(m) => p.Text() + "-" + Synonym(TagAlternatives[m.index]) + "." + m.ordinal.GetOr("0")
  }

  /** `(alpha|beta|rc|dev)(?=$)` at the start of r, case-insensitively: the index of the tag matched. */
  function BareTagAt(r: string, from: nat): (n: Option<nat>)
    requires from <= |BareTags|
    ensures n.Some? ==>
      from <= n.value < |BareTags| && PrefixCI(r, BareTags[n.value]) && IsLineEnd(r[|BareTags[n.value]|..])
    ensures n.None? ==> forall j :: from <= j < |BareTags| ==> !(PrefixCI(r, BareTags[j]) && IsLineEnd(r[|BareTags[j]|..]))
    decreases |BareTags| - from
  {
    if from == |BareTags| then None
    else if PrefixCI(r, BareTags[from]) && IsLineEnd(r[|BareTags[from]|..]) then Some(from)
    else BareTagAt(r, from + 1)
  }

  /**
   * preg_replace('/^(\d+\.\d+\.\d+)-(alpha|beta|rc|dev)(?=$)/i', '$1-$2.0', $v):
   * a bare tag at the end gets ".0", keeping the tag's spelling.
   */
  function PadBareTag(v: string): string {
    PadAfterCore(v, ParseCore(v))
  }

  /** The padding step once the core (if any) is read. */
  function PadAfterCore(v: string, core: Option<Core>): string
    requires core.Some? ==> |core.value.Text()| <= |v|
  {
    match core
    case None => v
    case Some(p) =>
      var k := |p.Text()|;
      if k < |v| && v[k] == '-' then PadTagAt(v, k, BareTagAt(v[k + 1..], 0)) else v
  }

  /** The replacement once the bare tag j (if any) is found after the '-' at k. */
  function PadTagAt(v: string, k: nat, tag: Option<nat>): string
    requires k < |v|
    requires tag.Some? ==> tag.value < |BareTags| && k + 1 + |BareTags[tag.value]| <= |v|
  {
    match tag
    case None => v
    case Some(j) =>
      var n := |BareTags[j]|;
      v[..k + 1 + n] + ".0" + v[k + 1 + n..]
  }

  /** The first four steps: trim, drop build metadata, drop leading 'v'/'V', map '_' to '-'. */
  function HeadSteps(v: string): string {
    ReplaceChar(LTrim(StripBuild(Trim(v)), {'v', 'V'}), '_', '-')
  }

  /** normalize_version(): the seven rewriting steps in the order the updater applies them. */
  function NormalizeVersion(v: string): string {
    PadBareTag(CanonicalTag(PadCore(HeadSteps(v))))
  }

  // ---------------------------------------------------------------------
  // How the prerelease rewrite reads a tag
  // ---------------------------------------------------------------------

  predicate LowerWord(s: string) {
    s != [] && forall i :: 0 <= i < |s| ==> 'a' <= s[i] <= 'z'
  }

  lemma AlternativesAreWords()
    ensures forall j :: 0 <= j < |TagAlternatives| ==> LowerWord(TagAlternatives[j])
    ensures forall j :: 0 <= j < |BareTags| ==> BareTags[j] in TagAlternatives && LowerWord(BareTags[j])
  {
    assert LowerWord("alpha") && LowerWord("a") && LowerWord("beta") && LowerWord("b");
    assert LowerWord("rc") && LowerWord("dev") && LowerWord("pre") && LowerWord("preview");
  }

  /** A tail the regex accepts after the tag never starts with a letter. */
  lemma TailStartsWithNonLetter(tail: string)
    requires TailOrdinal(tail).Some?
    ensures tail == [] || !('a' <= LowerChar(tail[0]) <= 'z')
  {
    if tail != [] && !IsLineEnd(tail) {
      var u := SkipSeparator(tail);
      if u == tail {
        assert IsDigit(u[0]);
      }
    }
  }

  /** The letters after a shorter alternative leave a tail the regex rejects. */
  lemma LetterTailRejected(t: string)
    requires t != [] && 'a' <= LowerChar(t[0]) <= 'z'
    ensures TailOrdinal(t).None?
  {
    assert !IsLineEnd(t);
    assert SkipSeparator(t) == t;
    assert LeadDigits(t) == 0;
  }

  /**
   * With a tag word w (in any case) followed by a tail the regex accepts, an
   * alternative matches exactly when it is w in lower case: a shorter one
   * leaves letters behind, a longer one would need a letter where the tail
   * has none.
   */
  lemma AltMatchesIff(w: string, tail: string, alt: string)
    requires ToLower(w) in TagAlternatives && alt in TagAlternatives
    requires TailOrdinal(tail).Some?
    ensures AltMatches(w + tail, alt) <==> alt == ToLower(w)
    ensures alt == ToLower(w) ==> (w + tail)[|alt|..] == tail
  {
    AlternativesAreWords();
    var r := w + tail;
    if |alt| == |w| {
      assert r[..|w|] == w && r[|w|..] == tail;
    } else if |alt| < |w| {
      ShorterAltFails(w, tail, alt);
    } else {
      TailStartsWithNonLetter(tail);
      LongerAltFails(w, tail, alt);
    }
  }

  /** An alternative shorter than the word leaves one of the word's letters where the tail must start. */
  lemma ShorterAltFails(w: string, tail: string, alt: string)
    requires LowerWord(ToLower(w)) && |alt| < |w|
    ensures !AltMatches(w + tail, alt)
  {
    var r := w + tail;
    var rest := r[|alt|..];
    assert rest[0] == w[|alt|];
    assert LowerChar(w[|alt|]) == ToLower(w)[|alt|];
    LetterTailRejected(rest);
  }

  /** An alternative longer than the word would need a letter where the tail has none. */
  lemma LongerAltFails(w: string, tail: string, alt: string)
    requires LowerWord(alt) && |alt| > |w|
    requires tail == [] || !('a' <= LowerChar(tail[0]) <= 'z')
    ensures !PrefixCI(w + tail, alt)
  {
    var r := w + tail;
    assert |alt| <= |r| ==> ToLower(r[..|alt|])[|w|] == LowerChar(tail[0]);
  }

  /** The regex picks the alternative that spells the written tag, and the ordinal after it. */
  lemma FindTagOf(w: string, tail: string)
    requires ToLower(w) in TagAlternatives
    requires TailOrdinal(tail).Some?
    ensures var m := FindTag(w + tail, 0);
      m.Some? && TagAlternatives[m.value.index] == ToLower(w) && m.value.ordinal == TailOrdinal(tail).value
  {
    var r := w + tail;
    var i :| 0 <= i < |TagAlternatives| && TagAlternatives[i] == ToLower(w);
    AltMatchesIff(w, tail, TagAlternatives[i]);
    var m := FindTag(r, 0);
    AltMatchesIff(w, tail, TagAlternatives[m.value.index]);
  }

  /**
   * A core, an optional '.' or '-', a tag from alpha|a|beta|b|rc|dev|pre|preview
   * in any case and an accepted ordinal tail are rewritten to `core-tag.n`,
   * with the tag's synonym and n defaulting to 0.
   */
  lemma CanonicalTagOf(p: Core, sep: string, w: string, tail: string)
    requires p.Valid()
    requires sep == "" || sep == "." || sep == "-"
    requires ToLower(w) in TagAlternatives
    requires TailOrdinal(tail).Some?
    ensures CanonicalTag(p.Text() + sep + w + tail)
      == p.Text() + "-" + Synonym(ToLower(w)) + "." + TailOrdinal(tail).value.GetOr("0")
  {
    var t := p.Text();
    var rest := sep + w + tail;
    SeparatedTag(sep, w, tail);
    TagRegroup(t, sep, w, tail);
    ParseCoreOf(p, rest);
    ConcatParts(t, rest);
    FindTagOf(w, tail);
    CanonicalTagFound(t + rest, p, w + tail);
  }

  lemma TagRegroup(t: string, sep: string, w: string, tail: string)
    ensures t + sep + w + tail == t + (sep + w + tail)
  {
  }

  /** Once the core is read and a tag found after the separator, the rewrite emits `core-tag.n`. */
  lemma CanonicalTagFound(v: string, p: Core, u: string)
    requires ParseCore(v) == Some(p)
    requires SkipSeparator(v[|p.Text()|..]) == u
    requires FindTag(u, 0).Some?
    ensures var m := FindTag(u, 0).value;
      CanonicalTag(v) == p.Text() + "-" + Synonym(TagAlternatives[m.index]) + "." + m.ordinal.GetOr("0")
  {
  }

  /** What follows the core: it starts with no digit and the optional separator is skipped. */
  lemma SeparatedTag(sep: string, w: string, tail: string)
    requires sep == "" || sep == "." || sep == "-"
    requires ToLower(w) in TagAlternatives
    ensures var rest := sep + w + tail;
      rest != [] && !IsDigit(rest[0]) && SkipSeparator(rest) == w + tail
  {
    AlternativesAreWords();
    var rest := sep + w + tail;
    assert |w| > 0 && LowerChar(w[0]) == ToLower(w)[0];
    if sep == "" {
      assert rest == w + tail;
    } else {
      assert rest[0] == sep[0];
      assert rest[1..] == w + tail;
    }
  }

  /** The ordinal may be attached, or follow a '.' or '-'. */
  lemma TailOrdinalOf(osep: string, n: string)
    requires osep == "" || osep == "." || osep == "-"
    requires Numeral(n)
    ensures TailOrdinal(osep + n) == Some(Some(n))
  {
    var t := osep + n;
    assert !IsLineEnd(t) by {
      assert t[|t| - 1] == n[|n| - 1];
    }
    var u := SkipSeparator(t);
    assert u == n by {
      if osep == "" {
        assert t == n;
      } else {
        assert t[1..] == n;
      }
    }
    LeadDigitsOf(n, "");
    assert n + "" == n;
    assert n[|n|..] == "";
  }

  // ---------------------------------------------------------------------
  // The shapes normalize_version() emits
  // ---------------------------------------------------------------------

  datatype PreText = PreText(tag: string, ordinal: string)

  /** `x.y.z` or `x.y.z-tag.n`, with the components as written. */
  datatype Shape = Shape(core: Core, pre: Option<PreText>) {
    function Text(): string {
      match pre
      case None => core.Text()
      case Some(t) => core.Text() + "-" + t.tag + "." + t.ordinal
    }
    predicate Valid() {
      core.Valid() && (pre.Some? ==> pre.value.tag in BareTags && Numeral(pre.value.ordinal))
    }
  }

  /** `-tag.n` with a tag from alpha|beta|rc|dev in lower case and a numeric ordinal. */
  function ParsePre(rest: string): (r: Option<PreText>)
    ensures r.Some? ==>
      r.value.tag in BareTags && Numeral(r.value.ordinal) && rest == "-" + r.value.tag + "." + r.value.ordinal
  {
    if rest == [] || rest[0] != '-' then None
    else
      var r := rest[1..];
      var i := FirstOf(r, {'.'});
      if i < |r| && r[..i] in BareTags && Numeral(r[i + 1..]) then
        assert r == r[..i] + "." + r[i + 1..];
        Some(PreText(r[..i], r[i + 1..]))
      else None
  }

  /** Recognises the emitted shapes. */
  function ParseShape(s: string): (r: Option<Shape>)
    ensures r.Some? ==> r.value.Valid() && r.value.Text() == s
  {
    match ParseCore(s)
    case None => None
    case Some(p) =>
      var k := |p.Text()|;
      PrefixSplit(s, p.Text());
      if k == |s| then Some(Shape(p, None))
      else
        match ParsePre(s[k..])
        case None => None
        case Some(t) =>
          PreRegroup(p.Text(), t);
          Some(Shape(p, Some(t)))
  }

  /** A string starting with t is t followed by the rest. */
  lemma PrefixSplit(s: string, t: string)
    requires StartsWith(s, t)
    ensures s == t + s[|t|..]
    ensures |t| == |s| ==> s == t
  {
  }

  lemma PreRegroup(c: string, t: PreText)
    ensures c + ("-" + t.tag + "." + t.ordinal) == c + "-" + t.tag + "." + t.ordinal
  {
  }

  /** `-tag.n` is read back as the tag and ordinal it was built from. */
  lemma ParsePreOf(t: PreText)
    requires t.tag in BareTags && Numeral(t.ordinal)
    ensures ParsePre("-" + t.tag + "." + t.ordinal) == Some(t)
  {
    var rest := "-" + t.tag + "." + t.ordinal;
    assert rest[0] == '-' && rest[1..] == t.tag + ("." + t.ordinal);
    AlternativesAreWords();
    TagDotSplit(t.tag, t.ordinal);
    ParsePreAt(rest, t);
  }

  /** A lower-case word, a '.' and the rest: the first '.' is right after the word. */
  lemma TagDotSplit(tag: string, ord: string)
    requires LowerWord(tag)
    ensures var r := tag + ("." + ord);
      FirstOf(r, {'.'}) == |tag| && r[..|tag|] == tag && r[|tag| + 1..] == ord
  {
    var r := tag + ("." + ord);
    assert forall j :: 0 <= j < |tag| ==> tag[j] !in {'.'};
    FirstOfAppend(tag, "." + ord, {'.'});
    ConcatParts(tag, "." + ord);
    assert r[|tag| + 1..] == ("." + ord)[1..];
  }

  lemma ParsePreAt(rest: string, t: PreText)
    requires t.tag in BareTags && Numeral(t.ordinal)
    requires rest != [] && rest[0] == '-'
    requires var r := rest[1..];
      FirstOf(r, {'.'}) == |t.tag| && |t.tag| < |r| && r[..|t.tag|] == t.tag && r[|t.tag| + 1..] == t.ordinal
    ensures ParsePre(rest) == Some(t)
  {
  }

  /** Every emitted shape is recognised, with the parts it was built from. */
  lemma ParseShapeOf(sh: Shape)
    requires sh.Valid()
    ensures ParseShape(sh.Text()) == Some(sh)
  {
    var p := sh.core;
    match sh.pre
    case None =>
      assert sh.Text() == p.Text() + "";
      ParseCoreOf(p, "");
    case Some(t) =>
      var rest := "-" + t.tag + "." + t.ordinal;
      assert sh.Text() == p.Text() + rest;
      ParseCoreOf(p, rest);
      assert (p.Text() + rest)[|p.Text()|..] == rest;
      ParsePreOf(t);
  }

  /** The tag rewrite leaves a string alone or produces an emitted shape. */
  lemma CanonicalTagShape(v: string)
    ensures CanonicalTag(v) == v || ParseShape(CanonicalTag(v)).Some?
  {
    match ParseCore(v)
    case None =>
    case Some(p) =>
      match FindTag(SkipSeparator(v[|p.Text()|..]), 0)
      case None =>
      case Some(m) =>
        var t := Synonym(TagAlternatives[m.index]);
        var n := m.ordinal.GetOr("0");
        ParseShapeOf(Shape(p, Some(PreText(t, n))));
  }

  // ---------------------------------------------------------------------
  // The bare-tag padding never fires after the tag rewrite
  // ---------------------------------------------------------------------

  /** In `tag.n` no bare tag ends the string, so the `(?=$)` of the padding regex fails. */
  lemma NoBareTagBeforeDot(t: string, n: string)
    requires LowerWord(t) && n != []
    ensures BareTagAt(t + "." + n, 0).None?
  {
    AlternativesAreWords();
    var r := t + "." + n;
    assert r == t + ("." + n);
    forall j | 0 <= j < |BareTags| ensures !(PrefixCI(r, BareTags[j]) && IsLineEnd(r[|BareTags[j]|..])) {
      var b := BareTags[j];
      if |b| > |t| {
        LongerAltFails(t, "." + n, b);
      } else {
        assert |r[|b|..]| >= 2;
      }
    }
  }

  /** A string the tag rewrite left alone has no bare tag at its end either. */
  lemma NoBareTagWithoutTag(r: string)
    requires FindTag(r, 0).None?
    ensures BareTagAt(r, 0).None?
  {
    AlternativesAreWords();
    forall j | 0 <= j < |BareTags| ensures !(PrefixCI(r, BareTags[j]) && IsLineEnd(r[|BareTags[j]|..])) {
      var b := BareTags[j];
      var i :| 0 <= i < |TagAlternatives| && TagAlternatives[i] == b;
      assert !AltMatches(r, TagAlternatives[i]);
    }
  }

  /**
   * The last step of normalize_version() is dead code: after the tag rewrite
   * no string matches `^(\d+\.\d+\.\d+)-(alpha|beta|rc|dev)$`.
   */
  lemma PadBareTagAfterCanonical(v: string)
    ensures PadBareTag(CanonicalTag(v)) == CanonicalTag(v)
  {
    match ParseCore(v)
    case None =>
      NoCoreUnchanged(v);
    case Some(p) =>
      var k := |p.Text()|;
      var u := SkipSeparator(v[k..]);
      match FindTag(u, 0)
      case None =>
        NoTagUnchanged(v, p);
        if k < |v| && v[k] == '-' {
          DashSkipped(v, k);
          NoBareTagWithoutTag(v[k + 1..]);
        }
        PadBareTagNoMatch(v, p);
      case Some(m) =>
        CanonicalTagFound(v, p, u);
        AlternativesAreWords();
        PadBareTagOfRewrite(p, Synonym(TagAlternatives[m.index]), m.ordinal.GetOr("0"));
  }

  /** Without a core neither rewrite applies. */
  lemma NoCoreUnchanged(v: string)
    requires ParseCore(v).None?
    ensures CanonicalTag(v) == v && PadBareTag(v) == v
  {
  }

  /** With a core but no tag after it, the prerelease rewrite does nothing. */
  lemma NoTagUnchanged(v: string, p: Core)
    requires ParseCore(v) == Some(p)
    requires FindTag(SkipSeparator(v[|p.Text()|..]), 0).None?
    ensures CanonicalTag(v) == v
  {
    NoTagAfterCoreUnchanged(v, p);
  }

  lemma NoTagAfterCoreUnchanged(v: string, p: Core)
    requires |p.Text()| <= |v|
    requires FindTag(SkipSeparator(v[|p.Text()|..]), 0).None?
    ensures TagAfterCore(v, Some(p)) == v
  {
  }

  lemma DashSkipped(v: string, k: nat)
    requires k < |v| && v[k] == '-'
    ensures SkipSeparator(v[k..]) == v[k + 1..]
  {
    assert v[k..][0] == '-' && v[k..][1..] == v[k + 1..];
  }

  lemma PadBareTagOfRewrite(p: Core, t: string, n: string)
    requires p.Valid() && LowerWord(t) && Numeral(n)
    ensures PadBareTag(p.Text() + "-" + t + "." + n) == p.Text() + "-" + t + "." + n
  {
    RewriteParts(p, t, n);
    NoBareTagBeforeDot(t, n);
    PadBareTagNoMatch(p.Text() + "-" + t + "." + n, p);
  }

  /** `core-tag.n` splits back into its core, the '-' and `tag.n`. */
  lemma RewriteParts(p: Core, t: string, n: string)
    requires p.Valid()
    ensures var out := p.Text() + "-" + t + "." + n;
      && ParseCore(out) == Some(p) && out[|p.Text()|] == '-' && out[|p.Text()| + 1..] == t + "." + n
  {
    var rest := "-" + t + "." + n;
    DashRegroup(p.Text(), t, n);
    ParseCoreOf(p, rest);
    ConcatParts(p.Text(), rest);
  }

  lemma DashRegroup(a: string, t: string, n: string)
    ensures a + "-" + t + "." + n == a + ("-" + t + "." + n)
    ensures ("-" + t + "." + n)[1..] == t + "." + n
  {
  }

  /** The padding regex leaves a string alone when no bare tag follows the core's '-'. */
  lemma PadBareTagNoMatch(x: string, p: Core)
    requires ParseCore(x) == Some(p)
    requires var k := |p.Text()|; k == |x| || x[k] != '-' || BareTagAt(x[k + 1..], 0).None?
    ensures PadBareTag(x) == x
  {
    NoTagAfterCore(x, p);
  }

  lemma NoTagAfterCore(v: string, p: Core)
    requires |p.Text()| <= |v|
    requires var k := |p.Text()|; k == |v| || v[k] != '-' || BareTagAt(v[k + 1..], 0).None?
    ensures PadAfterCore(v, Some(p)) == v
  {
  }

  // ---------------------------------------------------------------------
  // normalize_version() as a whole
  // ---------------------------------------------------------------------

  /** None of the characters the first four steps act on: no whitespace, '+' or '_'. */
  predicate Plain(s: string) {
    forall i :: 0 <= i < |s| ==> s[i] !in Whitespace && s[i] != '+' && s[i] != '_'
  }

  lemma PlainAppend(a: string, b: string)
    requires Plain(a) && Plain(b)
    ensures Plain(a + b)
  {
    forall i | 0 <= i < |a + b| ensures (a + b)[i] !in Whitespace && (a + b)[i] != '+' && (a + b)[i] != '_' {
      if i >= |a| {
        assert (a + b)[i] == b[i - |a|];
      }
    }
  }

  lemma PlainNumeral(x: string)
    requires Numeral(x)
    ensures Plain(x)
  {
  }

  lemma PlainCore(p: Core)
    requires p.Valid()
    ensures Plain(p.Text()) && IsDigit(p.Text()[0]) && IsDigit(p.Text()[|p.Text()| - 1])
  {
    assert Plain(".");
    PlainAppend(p.major, ".");
    PlainAppend(p.major + ".", p.minor);
    PlainAppend(p.major + "." + p.minor, ".");
    PlainAppend(p.major + "." + p.minor + ".", p.patch);
    ConcatParts(p.major, "." + p.minor + "." + p.patch);
    assert p.Text() == p.major + ("." + p.minor + "." + p.patch);
    LastOfConcat(p.major + "." + p.minor + ".", p.patch);
  }

  /**
   * The first four steps (trim, build metadata, leading 'v', '_' to '-') leave
   * a string alone that starts with a digit and holds none of the characters
   * they act on.
   */
  lemma PrefixStepsNoop(s: string)
    requires s != [] && IsDigit(s[0]) && Plain(s)
    ensures HeadSteps(s) == s
  {
    PlainEnds(s);
    TrimNoop(s);
    assert StripBuild(s) == s;
    assert LTrim(s, {'v', 'V'}) == s;
    ReplaceCharNoop(s, '_', '-');
  }

  lemma PlainEnds(s: string)
    requires s != [] && Plain(s)
    ensures s[0] !in Whitespace && s[|s| - 1] !in Whitespace && '+' !in s && '_' !in s
  {
    assert s[|s| - 1] !in Whitespace;
  }

  /** A full core is never padded. */
  lemma PadCoreKeepsCore(p: Core, rest: string)
    requires p.Valid()
    ensures PadCore(p.Text() + rest) == p.Text() + rest
  {
    var t2 := p.patch + rest;
    var t1 := p.minor + "." + t2;
    CoreRegroup(p, rest);
    NumeralThenDot(p.major, t1);
    NumeralThenDot(p.minor, t2);
    NotPadded(p.Text() + rest, |p.major|, |p.minor|);
  }

  /** Two dotted digit runs at the start: neither padding pattern matches. */
  lemma NotPadded(s: string, a: nat, b: nat)
    requires 0 < a < |s| && LeadDigits(s) == a && s[a] == '.'
    requires b < |s[a + 1..]| && LeadDigits(s[a + 1..]) == b && s[a + 1..][b] == '.'
    ensures PadCore(s) == s
  {
    assert s[a + 1 + b..] == s[a + 1..][b..];
    assert s[a + 1 + b..][0] == '.';
    assert s[a..][0] == '.';
  }

  /** `x.y` gets ".0". */
  lemma PadCoreTwo(x: string, y: string)
    requires Numeral(x) && Numeral(y)
    ensures PadCore(x + "." + y) == Core(x, y, "0").Text()
  {
    var s := x + "." + y;
    NumeralThenDot(x, y);
    LeadDigitsOf(y, "");
    assert y + "" == y;
    assert s[|x| + 1 + |y|..] == "";
  }

  /** `x` gets ".0.0". */
  lemma PadCoreOne(x: string)
    requires Numeral(x)
    ensures PadCore(x) == Core(x, "0", "0").Text()
  {
    LeadDigitsOf(x, "");
    assert x + "" == x;
    assert !TwoComponents(x);
  }

  /** A word from the regex's alternatives is its own lower case. */
  lemma ToLowerOfWord(t: string)
    requires LowerWord(t)
    ensures ToLower(t) == t
  {
  }

  /** The tag rewrite and the padding let a plain core through unchanged. */
  lemma TailStepsFixRelease(p: Core)
    requires p.Valid()
    ensures PadBareTag(CanonicalTag(p.Text())) == p.Text()
  {
    PadBareTagAfterCanonical(p.Text());
    assert p.Text() == p.Text() + "";
    ParseCoreOf(p, "");
    ConcatParts(p.Text(), "");
    assert FindTag("", 0).None? by {
      AlternativesAreWords();
    }
  }

  /** The tag rewrite and the padding let `core-tag.n` through unchanged. */
  lemma TailStepsFixTagged(p: Core, t: PreText)
    requires p.Valid() && t.tag in BareTags && Numeral(t.ordinal)
    ensures var s := p.Text() + "-" + t.tag + "." + t.ordinal;
      PadBareTag(CanonicalTag(s)) == s
  {
    var s := p.Text() + "-" + t.tag + "." + t.ordinal;
    AlternativesAreWords();
    ToLowerOfWord(t.tag);
    TailOrdinalOf(".", t.ordinal);
    assert s == p.Text() + "-" + t.tag + ("." + t.ordinal);
    CanonicalTagOf(p, "-", t.tag, "." + t.ordinal);
    PadBareTagAfterCanonical(s);
  }

  /** The four plain-string steps and the core padding leave `core` + rest alone. */
  lemma HeadStepsFix(p: Core, rest: string)
    requires p.Valid() && Plain(rest)
    ensures PadCore(HeadSteps(p.Text() + rest)) == p.Text() + rest
  {
    PlainCore(p);
    PlainAppend(p.Text(), rest);
    ConcatParts(p.Text(), rest);
    PrefixStepsNoop(p.Text() + rest);
    PadCoreKeepsCore(p, rest);
  }

  /** Already-canonical `x.y.z` is a fixed point of normalize_version(). */
  lemma NormalizeFixesRelease(p: Core)
    requires p.Valid()
    ensures NormalizeVersion(p.Text()) == p.Text()
  {
    HeadStepsFix(p, "");
    assert p.Text() + "" == p.Text();
    TailStepsFixRelease(p);
  }

  /** normalize_version() split after the core padding. */
  lemma NormalizeThrough(s: string, padded: string, out: string)
    requires PadCore(HeadSteps(s)) == padded
    requires PadBareTag(CanonicalTag(padded)) == out
    ensures NormalizeVersion(s) == out
  {
  }

  lemma PlainPre(t: PreText)
    requires t.tag in BareTags && Numeral(t.ordinal)
    ensures Plain("-" + t.tag + "." + t.ordinal)
  {
    AlternativesAreWords();
    assert Plain("-") && Plain(".") && Plain(t.tag) && Plain(t.ordinal);
    PlainAppend("-", t.tag);
    PlainAppend("-" + t.tag, ".");
    PlainAppend("-" + t.tag + ".", t.ordinal);
  }

  /** Already-canonical `x.y.z-tag.n` is a fixed point of normalize_version(). */
  lemma NormalizeFixesTagged(p: Core, t: PreText)
    requires p.Valid() && t.tag in BareTags && Numeral(t.ordinal)
    ensures NormalizeVersion(p.Text() + "-" + t.tag + "." + t.ordinal) == p.Text() + "-" + t.tag + "." + t.ordinal
  {
    var rest := "-" + t.tag + "." + t.ordinal;
    var s := p.Text() + "-" + t.tag + "." + t.ordinal;
    PlainPre(t);
    HeadStepsFix(p, rest);
    ConcatAssoc5(p.Text(), "-", t.tag, ".", t.ordinal);
    TailStepsFixTagged(p, t);
    NormalizeThrough(s, s, s);
  }

  /** Every emitted shape is a fixed point of normalize_version(). */
  lemma NormalizeFixesShape(sh: Shape)
    requires sh.Valid()
    ensures NormalizeVersion(sh.Text()) == sh.Text()
  {
    if sh.pre.None? {
      NormalizeFixesRelease(sh.core);
    } else {
      NormalizeFixesTagged(sh.core, sh.pre.value);
    }
  }

  lemma ZeroPaddedText(x: string, y: string)
    ensures Core(x, y, "0").Text() == x + "." + y + ".0"
    ensures Core(x, "0", "0").Text() == x + ".0.0"
  {
  }

  lemma HeadStepsTwo(x: string, y: string)
    requires Numeral(x) && Numeral(y)
    ensures HeadSteps(x + "." + y) == x + "." + y
  {
    var s := x + "." + y;
    assert Plain(s) by {
      assert Plain(".");
      PlainAppend(x, ".");
      PlainAppend(x + ".", y);
    }
    ConcatParts(x, "." + y);
    ConcatAssoc(x, ".", y);
    PrefixStepsNoop(s);
  }

  /** `x.y` is padded to `x.y.0`. */
  lemma NormalizePadsTwo(x: string, y: string)
    requires Numeral(x) && Numeral(y)
    ensures NormalizeVersion(x + "." + y) == x + "." + y + ".0"
  {
    HeadPadsTwo(x, y);
    ZeroPaddedFixed(x, y);
    NormalizeThrough(x + "." + y, x + "." + y + ".0", x + "." + y + ".0");
  }

  lemma HeadPadsTwo(x: string, y: string)
    requires Numeral(x) && Numeral(y)
    ensures PadCore(HeadSteps(x + "." + y)) == x + "." + y + ".0"
  {
    HeadStepsTwo(x, y);
    PadCoreTwo(x, y);
    ZeroPaddedText(x, y);
  }

  lemma ZeroPaddedFixed(x: string, y: string)
    requires Numeral(x) && Numeral(y)
    ensures PadBareTag(CanonicalTag(x + "." + y + ".0")) == x + "." + y + ".0"
  {
    var p := Core(x, y, "0");
    assert Numeral("0");
    TailStepsFixRelease(p);
    ZeroPaddedText(x, y);
  }

  /** `x` is padded to `x.0.0`. */
  lemma NormalizePadsOne(x: string)
    requires Numeral(x)
    ensures NormalizeVersion(x) == x + ".0.0"
  {
    HeadPadsOne(x);
    OnePaddedFixed(x);
    NormalizeThrough(x, x + ".0.0", x + ".0.0");
  }

  lemma OnePaddedFixed(x: string)
    requires Numeral(x)
    ensures PadBareTag(CanonicalTag(x + ".0.0")) == x + ".0.0"
  {
    var p := Core(x, "0", "0");
    assert Numeral("0");
    TailStepsFixRelease(p);
    ZeroPaddedText(x, "0");
  }

  lemma HeadPadsOne(x: string)
    requires Numeral(x)
    ensures PadCore(HeadSteps(x)) == x + ".0.0"
  {
    PrefixStepsNoop(x);
    PadCoreOne(x);
    ZeroPaddedText(x, "0");
  }

  /**
   * Leading 'v'/'V' characters and build metadata after '+' do not change the
   * result: normalize_version(vs + x + "+build") == normalize_version(x).
   */
  lemma NormalizeIgnoresDecoration(vs: string, x: string, suffix: string)
    requires forall i :: 0 <= i < |vs| ==> vs[i] in {'v', 'V'}
    requires x != [] && x[0] !in {'v', 'V'} && x[0] !in Whitespace && x[|x| - 1] !in Whitespace && '+' !in x
    requires suffix == "" || (suffix[0] == '+' && forall i :: 0 <= i < |suffix| ==> suffix[i] !in Whitespace)
    ensures NormalizeVersion(vs + x + suffix) == NormalizeVersion(x)
  {
    HeadStepsDecoration(vs, x, suffix);
  }

  /**
   * Surrounding whitespace does not change the result either (the first
   * step is trim()): normalize_version(ws + x + ws') == normalize_version(x).
   */
  lemma NormalizeIgnoresWhitespace(ws: string, x: string, ws2: string)
    requires forall i :: 0 <= i < |ws| ==> ws[i] in Whitespace
    requires forall i :: 0 <= i < |ws2| ==> ws2[i] in Whitespace
    requires x != [] && x[0] !in Whitespace && x[|x| - 1] !in Whitespace
    ensures NormalizeVersion(ws + x + ws2) == NormalizeVersion(x)
  {
    TrimPadded(ws, x, ws2);
    TrimNoop(x);
    NormalizeSameHead(ws + x + ws2, x);
  }

  lemma TrimPadded(ws: string, x: string, ws2: string)
    requires forall i :: 0 <= i < |ws| ==> ws[i] in Whitespace
    requires forall i :: 0 <= i < |ws2| ==> ws2[i] in Whitespace
    requires x != [] && x[0] !in Whitespace && x[|x| - 1] !in Whitespace
    ensures Trim(ws + x + ws2) == x
  {
    ConcatParts(x, ws2);
    LTrimPrefix(ws, x + ws2, Whitespace);
    ConcatAssoc(ws, x, ws2);
    RTrimSuffix(x, ws2, Whitespace);
  }

  lemma HeadStepsDecoration(vs: string, x: string, suffix: string)
    requires forall i :: 0 <= i < |vs| ==> vs[i] in {'v', 'V'}
    requires x != [] && x[0] !in {'v', 'V'} && x[0] !in Whitespace && x[|x| - 1] !in Whitespace && '+' !in x
    requires suffix == "" || (suffix[0] == '+' && forall i :: 0 <= i < |suffix| ==> suffix[i] !in Whitespace)
    ensures HeadSteps(vs + x + suffix) == HeadSteps(x)
  {
    var s := vs + x + suffix;
    DecoratedEnds(vs, x, suffix);
    TrimNoop(s);
    DecoratedStrip(vs, x, suffix);
    LTrimPrefix(vs, x, {'v', 'V'});
    TrimNoop(x);
  }

  lemma DecoratedEnds(vs: string, x: string, suffix: string)
    requires x != [] && x[0] !in Whitespace && x[|x| - 1] !in Whitespace
    requires forall i :: 0 <= i < |vs| ==> vs[i] in {'v', 'V'}
    requires forall i :: 0 <= i < |suffix| ==> suffix[i] !in Whitespace
    ensures var s := vs + x + suffix; s != [] && s[0] !in Whitespace && s[|s| - 1] !in Whitespace
  {
    var s := vs + x + suffix;
    if vs == [] {
      assert s[0] == x[0];
    } else {
      assert s[0] == vs[0];
    }
    if suffix == [] {
      assert s == (vs + x) + "";
      LastOfConcat(vs, x);
    } else {
      LastOfConcat(vs + x, suffix);
    }
  }

  lemma DecoratedStrip(vs: string, x: string, suffix: string)
    requires forall i :: 0 <= i < |vs| ==> vs[i] in {'v', 'V'}
    requires '+' !in x
    requires suffix == "" || (suffix[0] == '+' && forall i :: 0 <= i < |suffix| ==> suffix[i] !in Whitespace)
    ensures StripBuild(vs + x + suffix) == vs + x
  {
    assert '+' !in vs + x;
    if suffix == [] {
      assert vs + x + suffix == vs + x;
    } else {
      assert suffix == "+" + suffix[1..];
      assert '\n' in Whitespace;
      assert '\n' !in suffix[1..];
      ConcatAssoc(vs + x, "+", suffix[1..]);
      StripBuildOf(vs + x, suffix[1..]);
    }
  }

  /**
   * A core, an optional '.' or '-' (or '_', which becomes '-'), a prerelease
   * word from alpha|a|beta|b|rc|dev|pre|preview in any case and an optional
   * ordinal (attached or after '.', '-' or '_') normalise to `core-tag.n`,
   * with a -> alpha, b/pre/preview -> beta and n = 0 when there is no ordinal.
   */
  lemma NormalizeSpelledTag(p: Core, sep: string, w: string, osep: string, ordinal: Option<string>)
    requires p.Valid()
    requires sep == "" || sep == "." || sep == "-" || sep == "_"
    requires ToLower(w) in TagAlternatives
    requires osep == "" || osep == "." || osep == "-" || osep == "_"
    requires ordinal.Some? ==> Numeral(ordinal.value)
    ensures var tail := if ordinal.Some? then osep + ordinal.value else "";
      NormalizeVersion(p.Text() + sep + w + tail)
        == p.Text() + "-" + Synonym(ToLower(w)) + "." + ordinal.GetOr("0")
  {
    var tail := if ordinal.Some? then osep + ordinal.value else "";
    var tail2 := if ordinal.Some? then Dashed(osep) + ordinal.value else "";
    NormalizeDashedTag(p, Dashed(sep), w, Dashed(osep), ordinal);
    UnderscoreHeadSteps(p, sep, w, osep, ordinal);
    NormalizeSameHead(p.Text() + sep + w + tail, p.Text() + Dashed(sep) + w + tail2);
  }

  /** The separator the tag rewrite sees after str_replace('_', '-'). */
  function Dashed(sep: string): string {
    if sep == "_" then "-" else sep
  }

  /** No whitespace and no '+'; underscores are allowed. */
  predicate Loose(s: string) {
    forall i :: 0 <= i < |s| ==> s[i] !in Whitespace && s[i] != '+'
  }

  lemma LooseAppend(a: string, b: string)
    requires Loose(a) && Loose(b)
    ensures Loose(a + b)
  {
    forall i | 0 <= i < |a + b| ensures (a + b)[i] !in Whitespace && (a + b)[i] != '+' {
      if i >= |a| {
        assert (a + b)[i] == b[i - |a|];
      }
    }
  }

  /** On a string without whitespace or '+' that starts with a digit, the first four steps only map '_' to '-'. */
  lemma HeadStepsLoose(s: string)
    requires s != [] && IsDigit(s[0]) && Loose(s)
    ensures HeadSteps(s) == ReplaceChar(s, '_', '-')
  {
    assert s[|s| - 1] !in Whitespace;
    TrimNoop(s);
    assert '+' !in s;
    assert StripBuild(s) == s;
    assert LTrim(s, {'v', 'V'}) == s;
  }

  /** Two strings with the same first four steps normalise alike. */
  lemma NormalizeSameHead(s: string, t: string)
    requires HeadSteps(s) == HeadSteps(t)
    ensures NormalizeVersion(s) == NormalizeVersion(t)
  {
  }

  /** Spelling a separator '_' instead of '-' does not change the first four steps. */
  lemma UnderscoreHeadSteps(p: Core, sep: string, w: string, osep: string, ordinal: Option<string>)
    requires p.Valid()
    requires sep == "" || sep == "." || sep == "-" || sep == "_"
    requires ToLower(w) in TagAlternatives
    requires osep == "" || osep == "." || osep == "-" || osep == "_"
    requires ordinal.Some? ==> Numeral(ordinal.value)
    ensures var tail := if ordinal.Some? then osep + ordinal.value else "";
      var tail2 := if ordinal.Some? then Dashed(osep) + ordinal.value else "";
      HeadSteps(p.Text() + sep + w + tail) == HeadSteps(p.Text() + Dashed(sep) + w + tail2)
  {
    var tail := if ordinal.Some? then osep + ordinal.value else "";
    var tail2 := if ordinal.Some? then Dashed(osep) + ordinal.value else "";
    ConcatAssoc3(p.Text(), Dashed(sep), w, tail2);
    ConcatAssoc3(p.Text(), sep, w, tail);
    SpelledRests(p, sep, w, osep, ordinal);
    SameHeadOfRests(p, sep + w + tail, Dashed(sep) + w + tail2);
  }

  /** The underscored rest has no whitespace or '+', the dashed one is plain, and '_' -> '-' maps one onto the other. */
  lemma SpelledRests(p: Core, sep: string, w: string, osep: string, ordinal: Option<string>)
    requires p.Valid()
    requires sep == "" || sep == "." || sep == "-" || sep == "_"
    requires ToLower(w) in TagAlternatives
    requires osep == "" || osep == "." || osep == "-" || osep == "_"
    requires ordinal.Some? ==> Numeral(ordinal.value)
    ensures var tail := if ordinal.Some? then osep + ordinal.value else "";
      var tail2 := if ordinal.Some? then Dashed(osep) + ordinal.value else "";
      && Loose(sep + w + tail) && Plain(Dashed(sep) + w + tail2)
      && ReplaceChar(p.Text() + (sep + w + tail), '_', '-') == p.Text() + (Dashed(sep) + w + tail2)
  {
    var tail := if ordinal.Some? then osep + ordinal.value else "";
    var tail2 := if ordinal.Some? then Dashed(osep) + ordinal.value else "";
    SpelledWordPlain(w);
    PlainSpelledTag(Dashed(sep), w, Dashed(osep), ordinal);
    assert Loose(sep) && Loose(w) && Loose(tail);
    LooseAppend(sep, w);
    LooseAppend(sep + w, tail);
    PlainCore(p);
    ReplaceSpelled(p, sep, w, osep, ordinal);
    ConcatAssoc3(p.Text(), Dashed(sep), w, tail2);
    ConcatAssoc3(p.Text(), sep, w, tail);
  }

  /** Two rests after a core that '_' -> '-' maps onto each other give the same first four steps. */
  lemma SameHeadOfRests(p: Core, rest: string, rest2: string)
    requires p.Valid() && Loose(rest) && Plain(rest2)
    requires ReplaceChar(p.Text() + rest, '_', '-') == p.Text() + rest2
    ensures HeadSteps(p.Text() + rest) == HeadSteps(p.Text() + rest2)
  {
    PlainHead(p, rest2);
    LooseHead(p, rest);
  }

  /** A core followed by a plain rest is its own first four steps. */
  lemma PlainHead(p: Core, rest: string)
    requires p.Valid() && Plain(rest)
    ensures HeadSteps(p.Text() + rest) == p.Text() + rest
  {
    PlainCore(p);
    PlainAppend(p.Text(), rest);
    ConcatParts(p.Text(), rest);
    PrefixStepsNoop(p.Text() + rest);
  }

  /** A core followed by a rest without whitespace or '+' only has its '_' replaced. */
  lemma LooseHead(p: Core, rest: string)
    requires p.Valid() && Loose(rest)
    ensures HeadSteps(p.Text() + rest) == ReplaceChar(p.Text() + rest, '_', '-')
  {
    PlainCore(p);
    assert Loose(p.Text());
    LooseAppend(p.Text(), rest);
    ConcatParts(p.Text(), rest);
    HeadStepsLoose(p.Text() + rest);
  }

  lemma ReplaceSpelled(p: Core, sep: string, w: string, osep: string, ordinal: Option<string>)
    requires Plain(p.Text()) && Plain(w)
    requires sep == "" || sep == "." || sep == "-" || sep == "_"
    requires osep == "" || osep == "." || osep == "-" || osep == "_"
    requires ordinal.Some? ==> Numeral(ordinal.value)
    ensures var tail := if ordinal.Some? then osep + ordinal.value else "";
      var tail2 := if ordinal.Some? then Dashed(osep) + ordinal.value else "";
      ReplaceChar(p.Text() + sep + w + tail, '_', '-') == p.Text() + Dashed(sep) + w + tail2
  {
    var tail := if ordinal.Some? then osep + ordinal.value else "";
    var tail2 := if ordinal.Some? then Dashed(osep) + ordinal.value else "";
    ReplaceCharAppend(p.Text() + sep + w, tail, '_', '-');
    ReplaceCharAppend(p.Text() + sep, w, '_', '-');
    ReplaceCharAppend(p.Text(), sep, '_', '-');
    PlainNoUnderscore(p.Text());
    PlainNoUnderscore(w);
    ReplaceCharNoop(p.Text(), '_', '-');
    ReplaceCharNoop(w, '_', '-');
    ReplaceSeparator(sep);
    if ordinal.Some? {
      ReplaceCharAppend(osep, ordinal.value, '_', '-');
      ReplaceSeparator(osep);
      assert '_' !in ordinal.value;
      ReplaceCharNoop(ordinal.value, '_', '-');
    }
  }

  lemma ReplaceSeparator(sep: string)
    requires sep == "" || sep == "." || sep == "-" || sep == "_"
    ensures ReplaceChar(sep, '_', '-') == Dashed(sep)
  {
  }

  lemma PlainNoUnderscore(s: string)
    requires Plain(s)
    ensures '_' !in s
  {
  }

  /** A word whose lower case is one of the alternatives has no whitespace, '+' or '_'. */
  lemma SpelledWordPlain(w: string)
    requires ToLower(w) in TagAlternatives
    ensures Plain(w)
  {
    AlternativesAreWords();
    assert LowerWord(ToLower(w));
    forall i | 0 <= i < |w| ensures w[i] !in Whitespace && w[i] != '+' && w[i] != '_' {
      assert ToLower(w)[i] == LowerChar(w[i]);
    }
  }

  /** The spelled tag with '.' or '-' separators. */
  lemma NormalizeDashedTag(p: Core, sep: string, w: string, osep: string, ordinal: Option<string>)
    requires p.Valid()
    requires sep == "" || sep == "." || sep == "-"
    requires ToLower(w) in TagAlternatives
    requires osep == "" || osep == "." || osep == "-"
    requires ordinal.Some? ==> Numeral(ordinal.value)
    ensures var tail := if ordinal.Some? then osep + ordinal.value else "";
      NormalizeVersion(p.Text() + sep + w + tail)
        == p.Text() + "-" + Synonym(ToLower(w)) + "." + ordinal.GetOr("0")
  {
    var tail := if ordinal.Some? then osep + ordinal.value else "";
    var rest := sep + w + tail;
    var s := p.Text() + sep + w + tail;
    PlainSpelledTag(sep, w, osep, ordinal);
    ConcatAssoc3(p.Text(), sep, w, tail);
    HeadStepsFix(p, rest);
    if ordinal.Some? {
      TailOrdinalOf(osep, ordinal.value);
    }
    CanonicalTagOf(p, sep, w, tail);
    PadBareTagAfterCanonical(s);
    NormalizeThrough(s, s, p.Text() + "-" + Synonym(ToLower(w)) + "." + ordinal.GetOr("0"));
  }

  lemma PlainSpelledTag(sep: string, w: string, osep: string, ordinal: Option<string>)
    requires sep == "" || sep == "." || sep == "-"
    requires ToLower(w) in TagAlternatives
    requires osep == "" || osep == "." || osep == "-"
    requires ordinal.Some? ==> Numeral(ordinal.value)
    ensures Plain(sep + w + (if ordinal.Some? then osep + ordinal.value else ""))
  {
    SpelledWordPlain(w);
    var tail := if ordinal.Some? then osep + ordinal.value else "";
    assert Plain(tail) by {
      if ordinal.Some? {
        PlainAppend(osep, ordinal.value);
      }
    }
    PlainAppend(sep, w);
    PlainAppend(sep + w, tail);
  }

  /**
   * normalize_version() is not idempotent: in "v 1.0" the 'v' goes only
   * after the trim, so the space it exposes survives one pass and not the
   * next ("v 1.0" -> " 1.0" -> "1.0.0").
   */
  lemma NormalizeNotIdempotent(x: string, y: string)
    requires Numeral(x) && Numeral(y)
    ensures NormalizeVersion("v " + x + "." + y) == " " + x + "." + y
    ensures NormalizeVersion(" " + x + "." + y) == x + "." + y + ".0"
    ensures NormalizeVersion(NormalizeVersion("v " + x + "." + y)) != NormalizeVersion("v " + x + "." + y)
  {
    var c := x + "." + y;
    ConcatAssoc("v ", x + ".", y);
    ConcatAssoc("v ", x, ".");
    ConcatAssoc(" ", x + ".", y);
    ConcatAssoc(" ", x, ".");
    NormalizeKeepsSpace(c);
    NormalizeDropsSpace(c);
    NormalizePadsTwo(x, y);
  }

  /** A version starting with a digit and ending in a digit, with no '+', '_' or whitespace. */
  predicate DigitEnds(c: string) {
    c != [] && IsDigit(c[0]) && IsDigit(c[|c| - 1]) && Plain(c)
  }

  lemma NormalizeKeepsSpace(c: string)
    requires DigitEnds(c)
    ensures NormalizeVersion("v " + c) == " " + c
  {
    HeadStepsVSpace(c);
    var r := " " + c;
    LaterStepsNeedDigit(r);
  }

  lemma HeadStepsVSpace(c: string)
    requires DigitEnds(c)
    ensures HeadSteps("v " + c) == " " + c
  {
    var r := " " + c;
    assert "v " + c == "v" + r;
    SpaceChars(c);
    HeadStepsLeadingV(r);
  }

  /** `" " + c` ends in a digit and holds no '+' or '_'. */
  lemma SpaceChars(c: string)
    requires DigitEnds(c)
    ensures var r := " " + c; r[|r| - 1] !in Whitespace && '+' !in r && '_' !in r
  {
    var r := " " + c;
    LastOfConcat(" ", c);
    assert forall i :: 1 <= i < |r| ==> r[i] == c[i - 1];
  }

  /** The first four steps on 'v' followed by a string that starts with a space: only the 'v' goes. */
  lemma HeadStepsLeadingV(r: string)
    requires r != [] && r[0] == ' ' && r[|r| - 1] !in Whitespace && '+' !in r && '_' !in r
    ensures HeadSteps("v" + r) == r
  {
    var s := "v" + r;
    assert s[0] == 'v' && s[1..] == r;
    assert s[|s| - 1] == r[|r| - 1];
    TrimNoop(s);
    assert '+' !in s;
    assert StripBuild(s) == s;
    assert LTrim(s, {'v', 'V'}) == r;
    ReplaceCharNoop(r, '_', '-');
  }

  /** The last three steps leave alone a string that does not start with a digit. */
  lemma LaterStepsNeedDigit(r: string)
    requires r != [] && !IsDigit(r[0])
    ensures PadBareTag(CanonicalTag(PadCore(r))) == r
  {
    assert LeadDigits(r) == 0;
    assert PadCore(r) == r;
    assert ParseCore(r).None?;
  }

  lemma NormalizeDropsSpace(c: string)
    requires DigitEnds(c)
    ensures NormalizeVersion(" " + c) == NormalizeVersion(c)
  {
    LTrimPrefix(" ", c, Whitespace);
    TrimNoop(c);
    assert Trim(" " + c) == Trim(c);
  }

  /** Once a result has an emitted shape, normalising it again changes nothing. */
  lemma NormalizeIdempotentOnShapes(v: string)
    requires ParseShape(NormalizeVersion(v)).Some?
    ensures NormalizeVersion(NormalizeVersion(v)) == NormalizeVersion(v)
  {
    NormalizeFixesShape(ParseShape(NormalizeVersion(v)).value);
  }

  // ---------------------------------------------------------------------
  // version_compare() on the emitted shapes
  // ---------------------------------------------------------------------

  /** PHP's special version forms that normalize_version() emits, in PHP's order. */
  datatype Stage = Dev | Alpha | Beta | Rc

  datatype Prerelease = Prerelease(stage: Stage, ordinal: nat)

  datatype Version = Version(major: nat, minor: nat, patch: nat, pre: Option<Prerelease>)

  /** The value of a run of decimal digits, as PHP reads a numeric version part. */
  function DigitsValue(s: string): nat
    decreases |s|
  {
    if s == [] then 0 else 10 * DigitsValue(s[..|s| - 1]) + (s[|s| - 1] as int - '0' as int) % 10
  }

  /** Reading back a rendered number gives the number. */
  lemma {:induction false} DigitsValueOfNatToString(n: nat)
    ensures DigitsValue(NatToString(n)) == n
  {
    if n >= 10 {
      var r := NatToString(n);
      assert r[..|r| - 1] == NatToString(n / 10);
      DigitsValueOfNatToString(n / 10);
    }
  }

  function StageOf(tag: string): Stage
    requires tag in BareTags
  {
    if tag == "alpha" then Alpha else if tag == "beta" then Beta else if tag == "rc" then Rc else Dev
  }

  function StageName(st: Stage): (t: string)
    ensures t in BareTags && StageOf(t) == st
  {
    match st
    case Dev => "dev"
    case Alpha => "alpha"
    case Beta => "beta"
    case Rc => "rc"
  }

  function ToVersion(sh: Shape): Version {
    Version(DigitsValue(sh.core.major), DigitsValue(sh.core.minor), DigitsValue(sh.core.patch),
      match sh.pre
      case None => None
      case Some(t) => if t.tag in BareTags then Some(Prerelease(StageOf(t.tag), DigitsValue(t.ordinal))) else None)
  }

  /** The version an emitted shape denotes. */
  function ParseCanonical(s: string): Option<Version> {
    match ParseShape(s)
    case None => None
    case Some(sh) => Some(ToVersion(sh))
  }

  /** The canonical spelling of a version. */
  function FormatVersion(v: Version): string {
    var core := Core(NatToString(v.major), NatToString(v.minor), NatToString(v.patch));
    match v.pre
    case None => core.Text()
    case Some(p) => core.Text() + "-" + StageName(p.stage) + "." + NatToString(p.ordinal)
  }

  /** Formatting a version and reading it back gives the same version. */
  lemma ParseFormatVersion(v: Version)
    ensures ParseCanonical(FormatVersion(v)) == Some(v)
  {
    var core := Core(NatToString(v.major), NatToString(v.minor), NatToString(v.patch));
    DigitsValueOfNatToString(v.major);
    DigitsValueOfNatToString(v.minor);
    DigitsValueOfNatToString(v.patch);
    match v.pre
    case None =>
      ParseShapeOf(Shape(core, None));
    case Some(p) =>
      DigitsValueOfNatToString(p.ordinal);
      ParseShapeOf(Shape(core, Some(PreText(StageName(p.stage), NatToString(p.ordinal)))));
  }

  /** dev < alpha < beta < RC, and a release (no tag) above all of them. */
  function Rank(pre: Option<Prerelease>): nat {
    match pre
    case None => 4
    case Some(p) =>
      match p.stage
      case Dev => 0
      case Alpha => 1
      case Beta => 2
      case Rc => 3
  }

  function CompareNat(a: nat, b: nat): int {
    if a < b then -1 else if a > b then 1 else 0
  }

  /**
   * version_compare() on two emitted shapes: the numeric parts compared as
   * numbers, then the tag by rank, then the ordinal.
   */
  function Compare(a: Version, b: Version): (c: int)
    ensures -1 <= c <= 1
  {
    if a.major != b.major then CompareNat(a.major, b.major)
    else if a.minor != b.minor then CompareNat(a.minor, b.minor)
    else if a.patch != b.patch then CompareNat(a.patch, b.patch)
    else if Rank(a.pre) != Rank(b.pre) then CompareNat(Rank(a.pre), Rank(b.pre))
    else if a.pre.Some? && b.pre.Some? then CompareNat(a.pre.value.ordinal, b.pre.value.ordinal)
    else 0
  }

  lemma CompareAntisymmetric(a: Version, b: Version)
    ensures Compare(a, b) == -Compare(b, a)
  {
  }

  /** Exactly one of <, ==, > holds, and == is equality of versions. */
  lemma CompareZeroIff(a: Version, b: Version)
    ensures Compare(a, b) == 0 <==> a == b
  {
    if Compare(a, b) == 0 && a.pre.Some? {
      assert b.pre.Some? && a.pre.value.stage == b.pre.value.stage;
    }
  }

  lemma CompareTransitive(a: Version, b: Version, c: Version)
    requires Compare(a, b) < 0 && Compare(b, c) < 0
    ensures Compare(a, c) < 0
  {
  }

  /** A release ranks above the same numeric version with any prerelease tag. */
  lemma ReleaseAbovePrerelease(major: nat, minor: nat, patch: nat, pre: Prerelease)
    ensures Compare(Version(major, minor, patch, None), Version(major, minor, patch, Some(pre))) == 1
  {
  }

  /**
   * version_compare() on normalised strings: the specified order when both
   * have an emitted shape, PHP's own algorithm (a parameter) otherwise.
   */
  function VersionCompare(a: string, b: string, fallback: (string, string) -> int): (c: int)
    ensures ParseCanonical(a).Some? && ParseCanonical(b).Some? ==> c == Compare(ParseCanonical(a).value, ParseCanonical(b).value)
    ensures ParseCanonical(a).None? || ParseCanonical(b).None? ==> c == fallback(a, b)
  {
    match (ParseCanonical(a), ParseCanonical(b))
    case (Some(x), Some(y)) => Compare(x, y)
    case _ => fallback(a, b)
  }

  // ---------------------------------------------------------------------
  // The update gate
  // ---------------------------------------------------------------------

  /** The tags the gate's regex treats as prereleases. */
  const GateTags: seq<string> := ["alpha", "beta", "rc", "dev", "preview"]

  /** `(?:[.\-]\d+)?$` */
  predicate GateTail(t: string) {
    IsLineEnd(t) || (t != [] && (t[0] == '.' || t[0] == '-') && 0 < LeadDigits(t[1..]) && IsLineEnd(t[1 + LeadDigits(t[1..])..]))
  }

  /** `/^\d+\.\d+\.\d+-(alpha|beta|rc|dev|preview)(?:[.\-]\d+)?$/i` */
  predicate IsTaggedPrerelease(s: string) {
    TaggedAfterCore(s, ParseCore(s))
  }

  /** The gate's regex once the core (if any) is read. */
  predicate TaggedAfterCore(s: string, core: Option<Core>)
    requires core.Some? ==> |core.value.Text()| <= |s|
  {
    match core
    case None => false
    case Some(p) =>
      var k := |p.Text()|;
      k < |s| && s[k] == '-' &&
        exists j :: 0 <= j < |GateTags| && PrefixCI(s[k + 1..], GateTags[j]) && GateTail(s[k + 1..][|GateTags[j]|..])
  }

  /**
   * The decision in plugin_update() and theme_update(): no update when the
   * stable channel meets a tagged remote, or when version_compare(current,
   * remote) >= 0 on the normalised versions.
   */
  function UpdateOffered(current: string, remote: string, allowPrerelease: bool, fallback: (string, string) -> int): bool {
    var c := NormalizeVersion(current);
    var r := NormalizeVersion(remote);
    !((!allowPrerelease && IsTaggedPrerelease(r)) || VersionCompare(c, r, fallback) >= 0)
  }

  /** `tag.n` passes the gate's tag group and ordinal group. */
  lemma GateMatchesTag(t: string, n: string)
    requires t in BareTags && Numeral(n)
    ensures t in GateTags && PrefixCI(t + "." + n, t) && GateTail((t + "." + n)[|t|..])
  {
    var r := t + "." + n;
    ConcatAssoc(t, ".", n);
    ConcatParts(t, "." + n);
    assert forall i :: 0 <= i < |t| ==> r[i] == t[i];
    AlternativesAreWords();
    assert LowerWord(t);
    assert ("." + n)[1..] == n;
    LeadDigitsOf(n, "");
    assert n + "" == n;
    assert ("." + n)[1 + |n|..] == "";
  }

  lemma TaggedOf(p: Core, t: PreText)
    requires p.Valid() && t.tag in BareTags && Numeral(t.ordinal)
    ensures IsTaggedPrerelease(p.Text() + "-" + t.tag + "." + t.ordinal)
  {
    var s := p.Text() + "-" + t.tag + "." + t.ordinal;
    var k := |p.Text()|;
    RewriteParts(p, t.tag, t.ordinal);
    GateMatchesTag(t.tag, t.ordinal);
    var j :| 0 <= j < |GateTags| && GateTags[j] == t.tag;
    TaggedWhen(s, p, j);
  }

  lemma TaggedWhen(s: string, p: Core, j: nat)
    requires ParseCore(s) == Some(p) && |p.Text()| < |s| && s[|p.Text()|] == '-' && j < |GateTags|
    requires var r := s[|p.Text()| + 1..]; PrefixCI(r, GateTags[j]) && GateTail(r[|GateTags[j]|..])
    ensures IsTaggedPrerelease(s)
  {
    TaggedAfter(s, p, j);
  }

  lemma TaggedAfter(s: string, p: Core, j: nat)
    requires |p.Text()| < |s| && s[|p.Text()|] == '-' && j < |GateTags|
    requires var r := s[|p.Text()| + 1..]; PrefixCI(r, GateTags[j]) && GateTail(r[|GateTags[j]|..])
    ensures TaggedAfterCore(s, Some(p))
  {
  }

  /** On an emitted shape, the gate's regex sees a prerelease exactly when the shape has a tag. */
  lemma TaggedShapeIff(sh: Shape)
    requires sh.Valid()
    ensures IsTaggedPrerelease(sh.Text()) <==> sh.pre.Some?
  {
    match sh.pre
    case None =>
      assert sh.Text() == sh.core.Text() + "";
      ParseCoreOf(sh.core, "");
    case Some(t) =>
      TaggedOf(sh.core, t);
  }

  /** A version is never offered as an update to itself. */
  lemma NoUpdateToSameVersion(v: string, allowPrerelease: bool, fallback: (string, string) -> int)
    requires forall s :: fallback(s, s) == 0
    ensures !UpdateOffered(v, v, allowPrerelease, fallback)
  {
    var n := NormalizeVersion(v);
    if ParseCanonical(n).Some? {
      CompareZeroIff(ParseCanonical(n).value, ParseCanonical(n).value);
    }
  }

  /** The stable channel never offers a remote whose normalised version carries a tag. */
  lemma StableChannelSkipsPrereleases(current: string, remote: string, fallback: (string, string) -> int)
    requires ParseShape(NormalizeVersion(remote)).Some? && ParseShape(NormalizeVersion(remote)).value.pre.Some?
    ensures !UpdateOffered(current, remote, false, fallback)
  {
    TaggedShapeIff(ParseShape(NormalizeVersion(remote)).value);
  }

  /**
   * When both normalised versions have an emitted shape, an update is offered
   * exactly when the remote is newer and, on the stable channel, untagged.
   */
  lemma UpdateOfferedIff(current: string, remote: string, allowPrerelease: bool, fallback: (string, string) -> int)
    requires ParseCanonical(NormalizeVersion(current)).Some? && ParseCanonical(NormalizeVersion(remote)).Some?
    ensures var c := ParseCanonical(NormalizeVersion(current)).value;
      var r := ParseCanonical(NormalizeVersion(remote)).value;
      UpdateOffered(current, remote, allowPrerelease, fallback) <==> (allowPrerelease || r.pre.None?) && Compare(c, r) < 0
  {
    var sh := ParseShape(NormalizeVersion(remote)).value;
    TaggedShapeIff(sh);
    assert ToVersion(sh).pre.None? <==> sh.pre.None?;
  }

  /** A formatted version is a fixed point of normalize_version(). */
  lemma NormalizeFixesFormat(v: Version)
    ensures NormalizeVersion(FormatVersion(v)) == FormatVersion(v)
  {
    var core := Core(NatToString(v.major), NatToString(v.minor), NatToString(v.patch));
    match v.pre
    case None =>
      NormalizeFixesShape(Shape(core, None));
    case Some(p) =>
      NormalizeFixesShape(Shape(core, Some(PreText(StageName(p.stage), NatToString(p.ordinal)))));
  }

  /** The gate on canonically written versions: newer, and untagged unless prereleases are allowed. */
  lemma UpdateOfferedOnFormatted(a: Version, b: Version, allowPrerelease: bool, fallback: (string, string) -> int)
    ensures UpdateOffered(FormatVersion(a), FormatVersion(b), allowPrerelease, fallback)
      <==> (allowPrerelease || b.pre.None?) && Compare(a, b) < 0
  {
    NormalizeFixesFormat(a);
    NormalizeFixesFormat(b);
    ParseFormatVersion(a);
    ParseFormatVersion(b);
    UpdateOfferedIff(FormatVersion(a), FormatVersion(b), allowPrerelease, fallback);
  }

  /** 1.1.0 installed, 1.2.0-beta.1 released: offered on the prerelease channel only. */
  lemma BetaOfferedOnlyWithPrereleases(allowPrerelease: bool, fallback: (string, string) -> int)
    ensures UpdateOffered(FormatVersion(Version(1, 1, 0, None)), FormatVersion(Version(1, 2, 0, Some(Prerelease(Beta, 1)))),
      allowPrerelease, fallback) == allowPrerelease
  {
    var a := Version(1, 1, 0, None);
    var b := Version(1, 2, 0, Some(Prerelease(Beta, 1)));
    UpdateOfferedOnFormatted(a, b, allowPrerelease, fallback);
    assert Compare(a, b) < 0;
  }
}
