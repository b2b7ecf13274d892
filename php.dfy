/**
 * The few PHP string and value primitives the updater relies on, written out
 * with the semantics PHP gives them: trim/ltrim/rtrim character masks,
 * ASCII strtolower, strpos-based containment, str_ends_with, str_replace of a
 * single character, PHP's truthiness of strings and decimal rendering of
 * integers.
 */
module Php {

  datatype Option<+T> = None | Some(value: T) {
    /** PHP's `$x ?? $default` for a value that may be unset. */
    function GetOr(default: T): T {
      match this
      case Some(v) => v
      case None => default
    }
  }

  /** The characters PHP's trim() strips when no mask is given. */
  const Whitespace: set<char> := {' ', '\t', '\n', '\r', '\0', '\U{0B}'}

  /** ltrim($s, $mask): drop every leading character that is in the mask. */
  function LTrim(s: string, mask: set<char>): (r: string)
    ensures |r| <= |s| && r == s[|s| - |r|..]
    ensures r == [] || r[0] !in mask
    ensures forall i :: 0 <= i < |s| - |r| ==> s[i] in mask
  {
    if s == [] || s[0] !in mask then s else LTrim(s[1..], mask)
  }

  /** rtrim($s, $mask): drop every trailing character that is in the mask. */
  function RTrim(s: string, mask: set<char>): (r: string)
    ensures |r| <= |s| && r == s[..|r|]
    ensures r == [] || r[|r| - 1] !in mask
    ensures forall i :: |r| <= i < |s| ==> s[i] in mask
  {
    if s == [] || s[|s| - 1] !in mask then s else RTrim(s[..|s| - 1], mask)
  }

  /** trim($s) with PHP's default whitespace mask. */
  function Trim(s: string): string {
    RTrim(LTrim(s, Whitespace), Whitespace)
  }

  /** With PHP's trim mask, a string whose ends are not whitespace is its own trim. */
  lemma TrimNoop(s: string)
    requires s != [] && s[0] !in Whitespace && s[|s| - 1] !in Whitespace
    ensures Trim(s) == s
  {
  }

  /** ltrim() removes a leading run of mask characters and stops at the first other character. */
  lemma {:induction false} LTrimPrefix(pre: string, s: string, mask: set<char>)
    requires forall i :: 0 <= i < |pre| ==> pre[i] in mask
    requires s == [] || s[0] !in mask
    ensures LTrim(pre + s, mask) == s
    decreases |pre|
  {
    if pre == [] {
      assert pre + s == s;
    } else {
      assert (pre + s)[1..] == pre[1..] + s;
      LTrimPrefix(pre[1..], s, mask);
    }
  }

  /** rtrim() removes exactly a trailing run of mask characters. */
  lemma {:induction false} RTrimSuffix(s: string, post: string, mask: set<char>)
    requires forall i :: 0 <= i < |post| ==> post[i] in mask
    requires s == [] || s[|s| - 1] !in mask
    ensures RTrim(s + post, mask) == s
    decreases |post|
  {
    if post == [] {
      assert s + post == s;
    } else {
      var t := s + post;
      assert t[|t| - 1] == post[|post| - 1];
      assert t[..|t| - 1] == s + post[..|post| - 1];
      RTrimSuffix(s, post[..|post| - 1], mask);
    }
  }

  /** str_replace() of a character works piece by piece. */
  lemma ReplaceCharAppend(a: string, b: string, from: char, to: char)
    ensures ReplaceChar(a + b, from, to) == ReplaceChar(a, from, to) + ReplaceChar(b, from, to)
  {
    var l, r := ReplaceChar(a + b, from, to), ReplaceChar(a, from, to) + ReplaceChar(b, from, to);
    assert |l| == |r|;
    forall i | 0 <= i < |l| ensures l[i] == r[i] {
      if i >= |a| {
        assert (a + b)[i] == b[i - |a|];
      }
    }
  }

  /** str_replace() of a character that does not occur changes nothing. */
  lemma ReplaceCharNoop(s: string, from: char, to: char)
    requires from !in s
    ensures ReplaceChar(s, from, to) == s
  {
  }

  /** rtrim($s, '/'). */
  function RTrimSlash(s: string): string {
    RTrim(s, {'/'})
  }

  /** WordPress untrailingslashit(): rtrim($s, '/\\'). */
  function Untrailingslashit(s: string): string {
    RTrim(s, {'/', '\\'})
  }

  /** trim($s, '/'). */
  function TrimSlashes(s: string): string {
    RTrim(LTrim(s, {'/'}), {'/'})
  }

  function LowerChar(c: char): char {
    if 'A' <= c <= 'Z' then (c as int + 32) as char else c
  }

  /** strtolower() on the ASCII letters; every other character is kept. */
  function ToLower(s: string): (r: string)
    ensures |r| == |s|
    ensures forall i :: 0 <= i < |s| ==> r[i] == LowerChar(s[i])
  {
    seq(|s|, i requires 0 <= i < |s| => LowerChar(s[i]))
  }

  /** addslashes(), as WordPress applies it to request data: quotes and backslashes escaped, NUL written as "\\0". */
  function AddSlashes(s: string): string {
    if s == [] then []
    else (if s[0] == '\'' || s[0] == '"' || s[0] == '\\' then ['\\', s[0]]
          else if s[0] == '\0' then ['\\', '0']
          else [s[0]]) + AddSlashes(s[1..])
  }

  /** stripslashes() (wp_unslash() on a string): a backslash takes the next character literally, "\\0" is NUL, a final backslash is dropped. */
  function StripSlashes(s: string): string
    decreases |s|
  {
    if s == [] then []
    else if s[0] == '\\' then
      (if |s| == 1 then [] else (if s[1] == '0' then ['\0'] else [s[1]]) + StripSlashes(s[2..]))
    else [s[0]] + StripSlashes(s[1..])
  }

  /** Unslashing undoes the slashing WordPress adds to request data. */
  lemma {:induction false} StripAddSlashes(s: string)
    ensures StripSlashes(AddSlashes(s)) == s
  {
    if s != [] {
      var rest := AddSlashes(s[1..]);
      StripAddSlashes(s[1..]);
      if s[0] == '\'' || s[0] == '"' || s[0] == '\\' || s[0] == '\0' {
        var e := if s[0] == '\0' then '0' else s[0];
        var t := ['\\', e] + rest;
        assert AddSlashes(s) == t;
        assert t[0] == '\\' && t[1] == e && t[2..] == rest;
      } else {
        var t := [s[0]] + rest;
        assert AddSlashes(s) == t;
        assert t[0] == s[0] && t[1..] == rest;
      }
    }
  }

  /** A character sanitize_key() keeps: a lower-case ASCII letter, a digit, '_' or '-'. */
  predicate IsKeyChar(ch: char) {
    'a' <= ch <= 'z' || '0' <= ch <= '9' || ch == '_' || ch == '-'
  }

  /** The characters of s that sanitize_key() keeps, in order. */
  function KeepKeyChars(s: string): (r: string)
    ensures |r| <= |s|
    ensures forall i :: 0 <= i < |r| ==> IsKeyChar(r[i])
  {
    if s == [] then [] else (if IsKeyChar(s[0]) then [s[0]] else []) + KeepKeyChars(s[1..])
  }

  /** WordPress's sanitize_key(): lower-case, then drop every character outside [a-z0-9_-]. */
  function SanitizeKey(s: string): (r: string)
    ensures forall i :: 0 <= i < |r| ==> IsKeyChar(r[i])
  {
    KeepKeyChars(ToLower(s))
  }

  /** sanitize_key() leaves a string alone exactly when it is already made of key characters. */
  lemma SanitizeKeyFixedIff(s: string)
    ensures SanitizeKey(s) == s <==> forall i :: 0 <= i < |s| ==> IsKeyChar(s[i])
  {
    if forall i :: 0 <= i < |s| ==> IsKeyChar(s[i]) {
      assert ToLower(s) == s;
      KeepKeyCharsOfKey(s);
    }
  }

  lemma {:induction false} KeepKeyCharsOfKey(s: string)
    requires forall i :: 0 <= i < |s| ==> IsKeyChar(s[i])
    ensures KeepKeyChars(s) == s
  {
    if s != [] {
      KeepKeyCharsOfKey(s[1..]);
      assert [s[0]] + s[1..] == s;
    }
  }

  /** str_replace($from, $to, $s) for single characters. */
  function ReplaceChar(s: string, from: char, to: char): (r: string)
    ensures |r| == |s|
    ensures forall i :: 0 <= i < |s| ==> r[i] == (if s[i] == from then to else s[i])
  {
    seq(|s|, i requires 0 <= i < |s| => if s[i] == from then to else s[i])
  }

  predicate StartsWith(s: string, prefix: string) {
    |prefix| <= |s| && s[..|prefix|] == prefix
  }

  /** str_ends_with() and the class's ends_with() fallback (an empty needle always matches). */
  predicate EndsWith(haystack: string, needle: string) {
    |needle| <= |haystack| && haystack[|haystack| - |needle|..] == needle
  }

  /** `strpos($haystack, $needle) !== false`. */
  predicate Contains(haystack: string, needle: string)
    decreases |haystack|
  {
    StartsWith(haystack, needle) || (haystack != [] && Contains(haystack[1..], needle))
  }

  /** PHP's empty() on a string value: "" and "0" are empty, everything else is not. */
  predicate EmptyStr(s: string) {
    s == "" || s == "0"
  }

  /** PHP's empty() on an optional string (an unset property or null is empty). */
  predicate EmptyOpt(s: Option<string>) {
    s.None? || EmptyStr(s.value)
  }

  predicate IsDigit(c: char) {
    '0' <= c <= '9'
  }

  /** Decimal rendering of a natural number ("(string) $n"). */
  function NatToString(n: nat): (r: string)
    ensures |r| > 0 && forall i :: 0 <= i < |r| ==> IsDigit(r[i])
  {
    if n < 10 then [('0' as int + n) as char]
    else NatToString(n / 10) + [('0' as int + n % 10) as char]
  }

  /** Decimal rendering of an integer, with a leading '-' when negative. */
  function IntToString(n: int): string {
    if n < 0 then "-" + NatToString(-n) else NatToString(n)
  }

  lemma {:induction false} NatToStringInjective(a: nat, b: nat)
    requires NatToString(a) == NatToString(b)
    ensures a == b
  {
    var ra, rb := NatToString(a), NatToString(b);
    if a >= 10 && b >= 10 {
      assert ra[..|ra| - 1] == NatToString(a / 10);
      assert rb[..|rb| - 1] == NatToString(b / 10);
      NatToStringInjective(a / 10, b / 10);
      assert ra[|ra| - 1] == rb[|rb| - 1];
    }
  }

  /** The decimal rendering of an integer determines the integer. */
  lemma IntToStringInjective(a: int, b: int)
    requires IntToString(a) == IntToString(b)
    ensures a == b
  {
    // a '-' and a digit never coincide, so both are negative or neither is
    assert IsDigit(NatToString(if a < 0 then -a else a)[0]);
    assert IsDigit(NatToString(if b < 0 then -b else b)[0]);
    if a < 0 && b < 0 {
      assert IntToString(a)[1..] == NatToString(-a);
      assert IntToString(b)[1..] == NatToString(-b);
      NatToStringInjective(-a, -b);
    } else if a >= 0 && b >= 0 {
      NatToStringInjective(a, b);
    }
  }

  /** str_ends_with() holds exactly when the haystack is some prefix followed by the needle. */
  lemma EndsWithIff(haystack: string, needle: string)
    ensures EndsWith(haystack, needle) <==> exists p :: haystack == p + needle
  {
    if EndsWith(haystack, needle) {
      var p := haystack[..|haystack| - |needle|];
      assert haystack == p + needle;
    }
    if exists p :: haystack == p + needle {
      var p :| haystack == p + needle;
      assert haystack[|haystack| - |needle|..] == needle;
    }
  }

  /** strpos() finds the needle wherever it occurs. */
  lemma {:induction false} ContainsInfix(a: string, needle: string, b: string)
    ensures Contains(a + needle + b, needle)
    decreases |a|
  {
    var s := a + needle + b;
    if a == [] {
      assert s[..|needle|] == needle;
    } else {
      assert s[1..] == a[1..] + needle + b;
      ContainsInfix(a[1..], needle, b);
    }
  }

  /** A string that contains a needle contains every substring of that needle. */
  lemma {:induction false} ContainsWeaken(s: string, needle: string, a: string, part: string, b: string)
    requires needle == a + part + b
    requires Contains(s, needle)
    ensures Contains(s, part)
    decreases |s|
  {
    if StartsWith(s, needle) {
      assert s == needle + s[|needle|..];
      assert s == a + part + (b + s[|needle|..]);
      ContainsInfix(a, part, b + s[|needle|..]);
    } else {
      ContainsWeaken(s[1..], needle, a, part, b);
      if StartsWith(s[1..], part) {
        assert s[1..][..|part|] == s[1..|part| + 1];
      }
      assert Contains(s[1..], part);
    }
  }

  /** Index of the first character of s that is in cs, or |s| when there is none. */
  function FirstOf(s: string, cs: set<char>): (i: nat)
    ensures i <= |s|
    ensures forall j :: 0 <= j < i ==> s[j] !in cs
    ensures i < |s| ==> s[i] in cs
  {
    if s == [] || s[0] in cs then 0 else 1 + FirstOf(s[1..], cs)
  }

  /** Characters outside cs before the split point are skipped by FirstOf. */
  lemma {:induction false} FirstOfAppend(a: string, b: string, cs: set<char>)
    requires forall j :: 0 <= j < |a| ==> a[j] !in cs
    ensures FirstOf(a + b, cs) == |a| + FirstOf(b, cs)
    decreases |a|
  {
    if a != [] {
      assert (a + b)[1..] == a[1..] + b;
      FirstOfAppend(a[1..], b, cs);
    } else {
      assert a + b == b;
    }
  }

  /** explode($sep, $s): the pieces of s between occurrences of sep. */
  function Explode(s: string, sep: char): (r: seq<string>)
    ensures |r| > 0
    decreases |s|
  {
    var i := FirstOf(s, {sep});
    if i == |s| then [s] else [s[..i]] + Explode(s[i + 1..], sep)
  }

  /** explode() yields exactly two pieces when the separator occurs exactly once. */
  lemma ExplodeTwo(a: string, b: string, sep: char)
    requires sep !in a && sep !in b
    ensures Explode(a + [sep] + b, sep) == [a, b]
  {
    var s := a + [sep] + b;
    forall j | 0 <= j < |a| ensures a[j] !in {sep} { }
    FirstOfAppend(a, [sep] + b, {sep});
    assert s == a + ([sep] + b);
    assert FirstOf(s, {sep}) == |a|;
    assert s[..|a|] == a;
    assert s[|a| + 1..] == b;
    forall j | 0 <= j < |b| ensures b[j] !in {sep} { }
    assert FirstOf(b, {sep}) == |b|;
  }

  /** explode() cuts at every separator, so a third piece appears after a second separator. */
  lemma ExplodeThreeOrMore(a: string, b: string, c: string, sep: char)
    requires sep !in a && sep !in b
    ensures |Explode(a + [sep] + b + [sep] + c, sep)| >= 3
  {
    var s := a + [sep] + b + [sep] + c;
    forall j | 0 <= j < |a| ensures a[j] !in {sep} { }
    FirstOfAppend(a, [sep] + b + [sep] + c, {sep});
    assert s == a + ([sep] + b + [sep] + c);
    var t := s[|a| + 1..];
    assert t == b + ([sep] + c);
    forall j | 0 <= j < |b| ensures b[j] !in {sep} { }
    FirstOfAppend(b, [sep] + c, {sep});
  }

  /** The parts of a concatenation are found at their offsets. */
  lemma ConcatParts(a: string, b: string)
    ensures (a + b)[..|a|] == a && (a + b)[|a|..] == b
    ensures b != [] ==> (a + b)[|a|] == b[0]
  {
  }

  /** Regrouping a concatenation of three parts. */
  lemma ConcatAssoc(a: string, b: string, c: string)
    ensures a + (b + c) == a + b + c
  {
  }

  /** Regrouping a concatenation of four parts. */
  lemma ConcatAssoc3(a: string, b: string, c: string, d: string)
    ensures a + (b + c + d) == a + b + c + d
  {
  }

  /** Regrouping a concatenation of five parts. */
  lemma ConcatAssoc5(a: string, b: string, c: string, d: string, e: string)
    ensures a + (b + c + d + e) == a + b + c + d + e
  {
  }

  /** Regrouping a three-part middle of a concatenation. */
  lemma ConcatMiddle(a: string, x: string, y: string, z: string, b: string)
    ensures a + (x + y + z) + b == a + x + y + z + b
  {
  }

  /** The last character of a concatenation is the last character of its right part. */
  lemma LastOfConcat(a: string, b: string)
    requires b != []
    ensures (a + b)[|a + b| - 1] == b[|b| - 1]
  {
  }
}
