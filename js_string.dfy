/**
 * The few pieces of JavaScript's string library that the modelled code relies on,
 * written out over `seq<char>`: `trim`, the `\s` class, ASCII case mapping,
 * `includes`, `startsWith`, `split(",")[0]`, a character-wise `replace` and the
 * decimal rendering of a natural number.
 */
module JsString {

  /** The ECMAScript WhiteSpace and LineTerminator code points: what `trim` removes and `\s` matches. */
  predicate IsWhitespace(c: char) {
    c == '\t' || c == '\n' || c == '\U{B}' || c == '\U{C}' || c == '\r' || c == ' '
    || c == '\U{A0}' || c == '\U{1680}' || ('\U{2000}' <= c <= '\U{200A}')
    || c == '\U{2028}' || c == '\U{2029}' || c == '\U{202F}' || c == '\U{205F}'
    || c == '\U{3000}' || c == '\U{FEFF}'
  }

  predicate NoWhitespace(s: string) {
    forall i :: 0 <= i < |s| ==> !IsWhitespace(s[i])
  }

  /** Removes the leading whitespace. */
  function TrimStart(s: string): (r: string)
    ensures |r| <= |s| && r == s[|s| - |r|..]
    ensures forall k :: 0 <= k < |s| - |r| ==> IsWhitespace(s[k])
    ensures r == [] || !IsWhitespace(r[0])
  {
    if s == [] || !IsWhitespace(s[0]) then s else TrimStart(s[1..])
  }

  /** Removes the trailing whitespace. */
  function TrimEnd(s: string): (r: string)
    ensures |r| <= |s| && r == s[..|r|]
    ensures forall k :: |r| <= k < |s| ==> IsWhitespace(s[k])
    ensures r == [] || !IsWhitespace(r[|r| - 1])
  {
    if s == [] || !IsWhitespace(s[|s| - 1]) then s else TrimEnd(s[..|s| - 1])
  }

  /** `r` is the slice of `s` at offset `i`, and everything of `s` before and after it is whitespace. */
  predicate WhitespacePaddedAt(s: string, r: string, i: nat) {
    && i + |r| <= |s| && s[i..i + |r|] == r
    && (forall k :: 0 <= k < i ==> IsWhitespace(s[k]))
    && (forall k :: i + |r| <= k < |s| ==> IsWhitespace(s[k]))
  }

  /** `r` is `s` with some whitespace cut from its two ends and nothing else changed. */
  ghost predicate WhitespacePadded(s: string, r: string) {
    exists i: nat :: WhitespacePaddedAt(s, r, i)
  }

  /** The two halves of `trim` cut whitespace only, at the two ends. */
  lemma TrimParts(s: string)
    ensures WhitespacePaddedAt(s, TrimEnd(TrimStart(s)), |s| - |TrimStart(s)|)
  {
    var t := TrimStart(s);
    var i := |s| - |t|;
    assert t == s[i..];
    TrimEndOfSuffix(s, i);
    WhitespaceEdges(s, TrimEnd(t), i);
  }

  /** The three facts of `WhitespacePaddedAt`, put together. */
  lemma WhitespaceEdges(s: string, r: string, i: nat)
    requires i + |r| <= |s| && s[i..i + |r|] == r
    requires forall k :: 0 <= k < i ==> IsWhitespace(s[k])
    requires forall k :: i + |r| <= k < |s| ==> IsWhitespace(s[k])
    ensures WhitespacePaddedAt(s, r, i)
  {
  }

  /** Trimming the end of a suffix of `s` keeps a slice of `s` followed by whitespace only. */
  lemma TrimEndOfSuffix(s: string, i: nat)
    requires i <= |s|
    ensures var r := TrimEnd(s[i..]);
            && i + |r| <= |s| && s[i..i + |r|] == r
            && forall k :: i + |r| <= k < |s| ==> IsWhitespace(s[k])
  {
    var t := s[i..];
    var r := TrimEnd(t);
    assert r == t[..|r|];
    forall k | i + |r| <= k < |s|
      ensures IsWhitespace(s[k])
    {
      assert s[k] == t[k - i];
    }
  }

  /**
   * `String.prototype.trim`: only leading and trailing whitespace is removed, all
   * of it, and everything in between is kept.
   */
  function Trim(s: string): (r: string)
    ensures WhitespacePadded(s, r)
    ensures r == [] || (!IsWhitespace(r[0]) && !IsWhitespace(r[|r| - 1]))
  {
    TrimParts(s);
    assert WhitespacePaddedAt(s, TrimEnd(TrimStart(s)), |s| - |TrimStart(s)|);
    TrimEnd(TrimStart(s))
  }

  /** The offset of what `trim` keeps: before it and after the kept slice there is only whitespace. */
  lemma TrimOffset(s: string) returns (i: nat)
    ensures i + |Trim(s)| <= |s| && Trim(s) == s[i..i + |Trim(s)|]
    ensures forall k :: 0 <= k < i ==> IsWhitespace(s[k])
    ensures forall k :: i + |Trim(s)| <= k < |s| ==> IsWhitespace(s[k])
  {
    TrimParts(s);
    i := |s| - |TrimStart(s)|;
  }

  /** A string that starts and ends with a non-whitespace character is its own trim. */
  lemma TrimOfTrimmed(s: string)
    requires s == [] || (!IsWhitespace(s[0]) && !IsWhitespace(s[|s| - 1]))
    ensures Trim(s) == s
  {
  }

  /** A string made only of whitespace trims to the empty string. */
  lemma TrimOfBlank(s: string)
    ensures (forall i :: 0 <= i < |s| ==> IsWhitespace(s[i])) ==> Trim(s) == []
  {
  }

  function LowerChar(c: char): char {
    if 'A' <= c <= 'Z' then (c as int + 32) as char else c
  }

  function UpperChar(c: char): char {
    if 'a' <= c <= 'z' then (c as int - 32) as char else c
  }

  /** `toLowerCase`, restricted to the ASCII letters. */
  function Lower(s: string): (r: string)
    ensures |r| == |s| && forall i :: 0 <= i < |s| ==> r[i] == LowerChar(s[i])
  {
    seq(|s|, i requires 0 <= i < |s| => LowerChar(s[i]))
  }

  lemma LowerHasNoUpper(s: string)
    ensures forall i :: 0 <= i < |Lower(s)| ==> !('A' <= Lower(s)[i] <= 'Z')
  {
  }

  /** `toUpperCase`, restricted to the ASCII letters. */
  function Upper(s: string): (r: string)
    ensures |r| == |s| && forall i :: 0 <= i < |s| ==> r[i] == UpperChar(s[i])
  {
    seq(|s|, i requires 0 <= i < |s| => UpperChar(s[i]))
  }

  /** `s.startsWith(p)`. */
  predicate StartsWith(s: string, p: string) {
    p <= s
  }

  /** `s.includes(sub)`: `sub` occurs at some position of `s`. */
  predicate Contains(s: string, sub: string)
    decreases |s|
  {
    sub <= s || (s != [] && Contains(s[1..], sub))
  }

  lemma {:induction false} ContainsAt(s: string, sub: string, i: nat)
    requires i + |sub| <= |s| && s[i..i + |sub|] == sub
    ensures Contains(s, sub)
    decreases i
  {
    if i == 0 {
      assert sub <= s;
    } else {
      assert s[1..][i - 1..i - 1 + |sub|] == s[i..i + |sub|];
      ContainsAt(s[1..], sub, i - 1);
    }
  }

  /** Lower-casing both sides keeps an occurrence. */
  lemma LowerKeepsContains(s: string, sub: string)
    ensures Contains(s, sub) ==> Contains(Lower(s), Lower(sub))
  {
    if Contains(s, sub) {
      var i := ContainsWitness(s, sub);
      assert Lower(s)[i..i + |sub|] == Lower(sub);
      ContainsAt(Lower(s), Lower(sub), i);
    }
  }

  lemma {:induction false} ContainsWitness(s: string, sub: string) returns (i: nat)
    requires Contains(s, sub)
    ensures i + |sub| <= |s| && s[i..i + |sub|] == sub
    decreases |s|
  {
    if sub <= s {
      i := 0;
    } else {
      var j := ContainsWitness(s[1..], sub);
      i := j + 1;
      assert s[1..][j..j + |sub|] == s[i..i + |sub|];
    }
  }

  /** A text found inside `s` is still found once `s` is surrounded by more text. */
  lemma ContainsInside(a: string, s: string, b: string, sub: string)
    requires Contains(s, sub)
    ensures Contains(a + s + b, sub)
  {
    var i := ContainsWitness(s, sub);
    var t := a + s + b;
    var j := |a| + i;
    forall k | 0 <= k < |sub| ensures t[j..j + |sub|][k] == sub[k] {
      assert t[j + k] == s[i + k];
      assert s[i..i + |sub|][k] == s[i + k];
    }
    assert t[j..j + |sub|] == sub;
    ContainsAt(t, sub, j);
  }

  /** `s.split(",")[0]`: everything before the first comma. */
  function FirstSegment(s: string): (r: string)
    ensures r <= s && ',' !in r
    ensures r == s || s[|r|] == ','
  {
    if s == [] || s[0] == ',' then [] else [s[0]] + FirstSegment(s[1..])
  }

  /** `s.replace(/\./g, with)` and the like: every `from` replaced by `to`. */
  function ReplaceChar(s: string, from: char, to: char): (r: string)
    ensures |r| == |s|
    ensures forall i :: 0 <= i < |s| ==> r[i] == if s[i] == from then to else s[i]
  {
    seq(|s|, i requires 0 <= i < |s| => if s[i] == from then to else s[i])
  }

  /** `"*".repeat(n)`. */
  function Stars(n: nat): (r: string)
    ensures |r| == n && forall i :: 0 <= i < n ==> r[i] == '*'
  {
    seq(n, _ => '*')
  }

  predicate IsDigit(c: char) {
    '0' <= c <= '9'
  }

  function DigitChar(d: nat): (c: char)
    requires d < 10
    ensures IsDigit(c) && c as int - '0' as int == d
  {
    ('0' as int + d) as char
  }

  /** The decimal rendering of a natural number, as `${n}` produces it. */
  function NatToString(n: nat): (r: string)
    ensures r != [] && forall i :: 0 <= i < |r| ==> IsDigit(r[i])
    ensures |r| > 1 ==> r[0] != '0'
  {
    if n < 10 then [DigitChar(n)] else NatToString(n / 10) + [DigitChar(n % 10)]
  }

  /** Reads a string of decimal digits back as a number. */
  function DigitsValue(s: string): nat
    requires forall i :: 0 <= i < |s| ==> IsDigit(s[i])
  {
    if s == [] then 0
    else
      assert IsDigit(s[|s| - 1]);
      DigitsValue(s[..|s| - 1]) * 10 + (s[|s| - 1] as int - '0' as int)
  }

  lemma {:induction false} DigitsValueOfNatToString(n: nat)
    ensures DigitsValue(NatToString(n)) == n
  {
    if n >= 10 {
      var s := NatToString(n);
      assert s[..|s| - 1] == NatToString(n / 10);
      DigitsValueOfNatToString(n / 10);
    }
  }

  /** Different numbers render differently. */
  lemma NatToStringInjective(m: nat, n: nat)
    requires NatToString(m) == NatToString(n)
    ensures m == n
  {
    DigitsValueOfNatToString(m);
    DigitsValueOfNatToString(n);
  }
}
