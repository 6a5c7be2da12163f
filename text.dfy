/** The string operations the storefront scripts rely on, as JavaScript defines them:
    `indexOf` / `includes`, `toLowerCase` (ASCII letters), `trim`, `replace` with a string
    pattern, and the placeholder-substitution loop shared by the translation helpers. */
module Text {
  import opened Wrappers

  /** `sub` occurs in `s` starting at index `i`. */
  predicate OccursAt(s: string, sub: string, i: nat) {
    i + |sub| <= |s| && s[i..i + |sub|] == sub
  }

  /** The first index at or after `from` where `sub` occurs (`s.indexOf(sub, from)`). */
  function IndexFrom(s: string, sub: string, from: nat): (r: Option<nat>)
    ensures r.Some? ==> from <= r.value && OccursAt(s, sub, r.value)
    ensures r.Some? ==> forall j :: from <= j < r.value ==> !OccursAt(s, sub, j)
    ensures r.None? ==> forall j :: from <= j ==> !OccursAt(s, sub, j)
    decreases |s| - from
  {
    if from + |sub| > |s| then None
    else if s[from..from + |sub|] == sub then Some(from)
    else IndexFrom(s, sub, from + 1)
  }

  /** `s.indexOf(sub)`, with `None` for -1. */
  function IndexOf(s: string, sub: string): Option<nat> {
    IndexFrom(s, sub, 0)
  }

  /** `s.includes(sub)`. */
  predicate Contains(s: string, sub: string) {
    IndexOf(s, sub).Some?
  }

  /** `includes` holds exactly when there is an occurrence somewhere. */
  lemma ContainsIff(s: string, sub: string)
    ensures Contains(s, sub) <==> exists i: nat :: OccursAt(s, sub, i)
  {
  }

  /** An occurrence at a known index makes `includes` true. */
  lemma OccursContains(s: string, sub: string, i: nat)
    requires OccursAt(s, sub, i)
    ensures Contains(s, sub)
  {
  }

  /** A string sitting between two others is found in their concatenation. */
  lemma {:induction false} ContainsMiddle(a: string, sub: string, b: string)
    ensures OccursAt(a + sub + b, sub, |a|)
    ensures Contains(a + sub + b, sub)
  {
    var s := a + sub + b;
    assert s[|a|..|a| + |sub|] == sub;
    OccursContains(s, sub, |a|);
  }

  /** An occurrence inside a slice is an occurrence in the whole string. */
  lemma {:induction false} OccursInSlice(s: string, lo: nat, hi: nat, sub: string, i: nat)
    requires lo <= hi <= |s|
    requires OccursAt(s[lo..hi], sub, i)
    ensures OccursAt(s, sub, lo + i)
  {
    forall k | 0 <= k < |sub|
      ensures s[lo + i..lo + i + |sub|][k] == sub[k]
    {
      assert s[lo..hi][i..i + |sub|][k] == sub[k];
    }
    assert s[lo + i..lo + i + |sub|] == sub;
  }

  // ---------------------------------------------------------------------------
  // Case folding

  /** `toLowerCase` on one character; only the ASCII letters are folded here. */
  function LowerChar(c: char): char {
    if 'A' <= c <= 'Z' then (c as int + 32) as char else c
  }

  function ToLower(s: string): string {
    seq(|s|, i requires 0 <= i < |s| => LowerChar(s[i]))
  }

  /** Lower-casing distributes over concatenation. */
  lemma ToLowerConcat(a: string, b: string)
    ensures ToLower(a + b) == ToLower(a) + ToLower(b)
  {
  }

  /** Lower-casing twice is lower-casing once. */
  lemma ToLowerIdempotent(s: string)
    ensures ToLower(ToLower(s)) == ToLower(s)
  {
  }

  /** A string without ASCII capitals is its own lower-case form. */
  lemma ToLowerNoCapitals(s: string)
    requires forall i :: 0 <= i < |s| ==> !('A' <= s[i] <= 'Z')
    ensures ToLower(s) == s
  {
  }

  // ---------------------------------------------------------------------------
  // Trimming

  /** ECMAScript's WhiteSpace and LineTerminator code points, which `trim` removes. */
  predicate IsJsSpace(c: char) {
    || c == '\U{0009}' || c == '\U{000A}' || c == '\U{000B}' || c == '\U{000C}'
    || c == '\U{000D}' || c == ' ' || c == '\U{00A0}' || c == '\U{1680}'
    || ('\U{2000}' <= c <= '\U{200A}')
    || c == '\U{2028}' || c == '\U{2029}' || c == '\U{202F}' || c == '\U{205F}'
    || c == '\U{3000}' || c == '\U{FEFF}'
  }

  /** The number of leading white-space characters of `s`. */
  function LeadingSpaces(s: string): (k: nat)
    ensures k <= |s|
    ensures forall j :: 0 <= j < k ==> IsJsSpace(s[j])
    ensures k < |s| ==> !IsJsSpace(s[k])
  {
    if |s| > 0 && IsJsSpace(s[0]) then 1 + LeadingSpaces(s[1..]) else 0
  }

  /** The index at which the trailing white space of `s` begins. */
  function TrailingStart(s: string): (k: nat)
    ensures k <= |s|
    ensures forall j :: k <= j < |s| ==> IsJsSpace(s[j])
    ensures k > 0 ==> !IsJsSpace(s[k - 1])
  {
    if |s| > 0 && IsJsSpace(s[|s| - 1]) then TrailingStart(s[..|s| - 1]) else |s|
  }

  /** `s.trim()`: the slice between the leading and the trailing white space. */
  function Trim(s: string): (r: string)
    ensures |r| <= |s|
    ensures r != [] ==> !IsJsSpace(r[0]) && !IsJsSpace(r[|r| - 1])
  {
    var a, b := LeadingSpaces(s), TrailingStart(s);
    if a <= b then s[a..b] else ""
  }

  /** An occurrence of a word that neither starts nor ends in white space lies between
      the leading and the trailing white space. */
  lemma {:induction false} OccurrenceWithinTrim(s: string, t: string, i: nat)
    requires |t| > 0 && !IsJsSpace(t[0]) && !IsJsSpace(t[|t| - 1])
    requires OccursAt(s, t, i)
    ensures LeadingSpaces(s) <= i && i + |t| <= TrailingStart(s)
  {
    assert s[i] == t[0] by { assert s[i..i + |t|][0] == s[i]; }
    assert s[i + |t| - 1] == t[|t| - 1] by { assert s[i..i + |t|][|t| - 1] == s[i + |t| - 1]; }
  }

  /** An occurrence inside the bounds of a slice is an occurrence in the slice. */
  lemma {:induction false} OccursWithinSlice(s: string, lo: nat, hi: nat, sub: string, i: nat)
    requires lo <= i && i + |sub| <= hi <= |s|
    requires OccursAt(s, sub, i)
    ensures OccursAt(s[lo..hi], sub, i - lo)
  {
    assert forall j :: lo <= j < hi ==> s[lo..hi][j - lo] == s[j];
    assert s[lo..hi][i - lo..i - lo + |sub|] == s[i..i + |sub|];
  }

  /** Trimming never loses an occurrence of a word that neither starts nor ends in white
      space, and never creates one. */
  lemma {:induction false} TrimPreservesContains(s: string, t: string)
    requires |t| > 0 && !IsJsSpace(t[0]) && !IsJsSpace(t[|t| - 1])
    ensures Contains(Trim(s), t) <==> Contains(s, t)
  {
    var a, b := LeadingSpaces(s), TrailingStart(s);
    if Contains(s, t) {
      var i := IndexOf(s, t).value;
      OccurrenceWithinTrim(s, t, i);
      OccursWithinSlice(s, a, b, t, i);
      OccursContains(s[a..b], t, i - a);
    }
    if Contains(Trim(s), t) {
      var i := IndexOf(Trim(s), t).value;
      if a <= b {
        OccursInSlice(s, a, b, t, i);
        OccursContains(s, t, a + i);
      }
    }
  }

  // ---------------------------------------------------------------------------
  // Replacement and placeholders

  /** `s.replace(pattern, value)` with a string pattern: only the first occurrence is
      replaced. (The replacement values used by the scripts contain no `$`.) */
  function ReplaceFirst(s: string, pattern: string, value: string): string {
    match IndexOf(s, pattern)
    case None => s
    case Some(i) => s[..i] + value + s[i + |pattern|..]
  }

  /** Replacing a pattern that does not occur changes nothing, and replacing a pattern
      whose first occurrence is right after `a` puts the value in its place. */
  lemma {:induction false} ReplaceFirstAt(a: string, pattern: string, b: string, value: string)
    requires forall j :: 0 <= j < |a| ==> !OccursAt(a + pattern + b, pattern, j)
    ensures ReplaceFirst(a + pattern + b, pattern, value) == a + value + b
  {
    var s := a + pattern + b;
    ContainsMiddle(a, pattern, b);
    var i := IndexOf(s, pattern).value;
    assert i == |a|;
    assert s[..i] == a;
    assert s[i + |pattern|..] == b;
  }

  lemma ReplaceFirstAbsent(s: string, pattern: string, value: string)
    requires !Contains(s, pattern)
    ensures ReplaceFirst(s, pattern, value) == s
  {
  }

  /** The placeholder `{name}` that a replacement named `name` fills. */
  function Placeholder(name: string): string {
    "{" + name + "}"
  }

  /** The text after every replacement, in order, has filled the first occurrence of its
      placeholder. */
  function SubstituteAll(text: string, replacements: seq<(string, string)>): string
    decreases |replacements|
  {
    if replacements == [] then text
    else SubstituteAll(ReplaceFirst(text, Placeholder(replacements[0].0), replacements[0].1),
                       replacements[1..])
  }

  /** The `forEach` loop of the translation helpers: rewrite the text once per
      replacement, in the order of the replacement keys. */
  method Substitute(text: string, replacements: seq<(string, string)>) returns (r: string)
    ensures r == SubstituteAll(text, replacements)
  {
    r := text;
    var i := 0;
    while i < |replacements|
      invariant 0 <= i <= |replacements|
      invariant SubstituteAll(r, replacements[i..]) == SubstituteAll(text, replacements)
    {
      assert replacements[i..][1..] == replacements[i + 1..];
      r := ReplaceFirst(r, Placeholder(replacements[i].0), replacements[i].1);
      i := i + 1;
    }
  }

  /** Replacements whose placeholders do not occur leave the text as it is. */
  lemma {:induction false} SubstituteAllAbsent(text: string, replacements: seq<(string, string)>)
    requires forall k :: 0 <= k < |replacements| ==> !Contains(text, Placeholder(replacements[k].0))
    ensures SubstituteAll(text, replacements) == text
  {
    if replacements != [] {
      ReplaceFirstAbsent(text, Placeholder(replacements[0].0), replacements[0].1);
      SubstituteAllAbsent(text, replacements[1..]);
    }
  }

  // ---------------------------------------------------------------------------
  // Numbers as text

  function DigitChar(d: nat): char
    requires d < 10
  {
    "0123456789"[d]
  }

  /** The decimal rendering JavaScript gives a non-negative integer. */
  function NatToString(n: nat): (r: string)
    ensures |r| > 0
    ensures forall i :: 0 <= i < |r| ==> '0' <= r[i] <= '9'
    decreases n
  {
    if n < 10 then [DigitChar(n)] else NatToString(n / 10) + [DigitChar(n % 10)]
  }

  /** The decimal rendering of any integer, with a leading `-` when negative. */
  function IntToString(n: int): string {
    if n < 0 then "-" + NatToString(-n) else NatToString(n)
  }

  // ---------------------------------------------------------------------------
  // Brace-free text

  /** A text without `{` holds no placeholder. */
  predicate NoBrace(s: string) {
    forall j :: 0 <= j < |s| ==> s[j] != '{'
  }

  lemma {:induction false} NoBraceNoPlaceholder(s: string, name: string)
    requires NoBrace(s)
    ensures !Contains(s, Placeholder(name))
  {
    var p := Placeholder(name);
    forall i: nat
      ensures !OccursAt(s, p, i)
    {
      if i + |p| <= |s| {
        assert s[i..i + |p|][0] == s[i] != p[0];
      }
    }
    ContainsIff(s, p);
  }

  /** A placeholder preceded by brace-free text is the first one filled. */
  lemma {:induction false} FillAfterBraceFree(a: string, name: string, b: string, value: string)
    requires NoBrace(a)
    ensures ReplaceFirst(a + Placeholder(name) + b, Placeholder(name), value) == a + value + b
  {
    var s := a + Placeholder(name) + b;
    var p := Placeholder(name);
    forall j | 0 <= j < |a|
      ensures !OccursAt(s, p, j)
    {
      if j + |p| <= |s| {
        assert s[j..j + |p|][0] == a[j] != p[0];
      }
    }
    ReplaceFirstAt(a, Placeholder(name), b, value);
  }

  lemma NoBraceConcat(a: string, b: string)
    requires NoBrace(a) && NoBrace(b)
    ensures NoBrace(a + b)
  {
  }

  lemma DigitsNoBrace(n: nat)
    ensures NoBrace(NatToString(n))
  {
  }

  /** One substitution step: a placeholder preceded by brace-free text is filled. */
  lemma {:induction false} SubstituteStep(a: string, name: string, b: string, value: string,
                                          rest: seq<(string, string)>)
    requires NoBrace(a)
    ensures SubstituteAll(a + Placeholder(name) + b, [(name, value)] + rest)
      == SubstituteAll(a + value + b, rest)
  {
    var args := [(name, value)] + rest;
    assert args[0] == (name, value) && args[1..] == rest;
    FillAfterBraceFree(a, name, b, value);
  }

  /** Replacements left over once the text is brace-free change nothing. */
  lemma {:induction false} SubstituteRestAbsent(s: string, rest: seq<(string, string)>)
    requires NoBrace(s)
    ensures SubstituteAll(s, rest) == s
  {
    forall k | 0 <= k < |rest|
      ensures !Contains(s, Placeholder(rest[k].0))
    {
      NoBraceNoPlaceholder(s, rest[k].0);
    }
    SubstituteAllAbsent(s, rest);
  }

  /** Two placeholders, each preceded by brace-free text, are filled in order. */
  lemma {:induction false} SubstituteTwo(a: string, name1: string, mid: string, name2: string, post: string,
                                         v1: string, v2: string)
    requires NoBrace(a) && NoBrace(mid) && NoBrace(v1)
    ensures SubstituteAll(a + Placeholder(name1) + (mid + Placeholder(name2) + post), [(name1, v1), (name2, v2)])
      == a + v1 + mid + v2 + post
  {
    var tail := mid + Placeholder(name2) + post;
    var head := a + v1 + mid;
    assert [(name1, v1), (name2, v2)] == [(name1, v1)] + [(name2, v2)];
    SubstituteStep(a, name1, tail, v1, [(name2, v2)]);
    assert a + v1 + tail == head + Placeholder(name2) + post;
    NoBraceConcat(a, v1);
    NoBraceConcat(a + v1, mid);
    assert [(name2, v2)] == [(name2, v2)] + [];
    SubstituteStep(head, name2, post, v2, []);
  }
}
