/**
 * Slugs of src/lib/utils/slug.ts.
 *
 * `generateSlug` is a chain of six string rewrites, each a function here:
 * lower-casing, trimming, dropping every character outside `[\w\s-]`, turning
 * each whitespace run into one hyphen, turning each hyphen run into one hyphen,
 * and removing the hyphens at both ends.  `\w` is `[A-Za-z0-9_]` and `\s` the
 * ECMAScript whitespace set.  `generateUniqueSlug` is a search loop.
 */
module Slug {
  import opened JsString

  predicate IsWordChar(c: char) {
    'A' <= c <= 'Z' || 'a' <= c <= 'z' || '0' <= c <= '9' || c == '_'
  }

  /** The characters a slug is made of: `[a-z0-9_-]`. */
  predicate IsSlugChar(c: char) {
    'a' <= c <= 'z' || '0' <= c <= '9' || c == '_' || c == '-'
  }

  predicate NoDoubleHyphen(s: string) {
    forall i :: 0 <= i < |s| - 1 ==> !(s[i] == '-' && s[i + 1] == '-')
  }

  /** What `generateSlug` produces: slug characters only, no "--", no hyphen at either end. */
  predicate IsSlug(s: string) {
    && (forall i :: 0 <= i < |s| ==> IsSlugChar(s[i]))
    && NoDoubleHyphen(s)
    && (s == [] || (s[0] != '-' && s[|s| - 1] != '-'))
  }

  // ---------------------------------------------------------------------------
  // The rewrite steps
  // ---------------------------------------------------------------------------

  /** The characters `[\w\s-]` that survive `RemoveSpecial`. */
  predicate Kept(c: char) {
    IsWordChar(c) || IsWhitespace(c) || c == '-'
  }

  predicate AllKept(s: string) {
    forall i :: 0 <= i < |s| ==> Kept(s[i])
  }

  /**
   * `replace(/[^\w\s-]/g, "")`: only word characters, whitespace and hyphens
   * remain, each taken from the input, and a text of such characters is left as it is.
   */
  function RemoveSpecial(s: string): (r: string)
    ensures |r| <= |s|
    ensures AllKept(r)
    ensures forall c :: c in r ==> c in s
    ensures AllKept(s) ==> r == s
  {
    if s == [] then []
    else if Kept(s[0]) then [s[0]] + RemoveSpecial(s[1..])
    else RemoveSpecial(s[1..])
  }

  /** The two kinds of run that are folded into one hyphen: `\s+` and `-+`. */
  datatype RunKind = Spaces | Hyphens

  predicate InRun(c: char, k: RunKind) {
    match k
    case Spaces => IsWhitespace(c)
    case Hyphens => c == '-'
  }

  /**
   * The run fold, one character at a time: a run character that follows a run
   * character (`afterRun`) belongs to the same run and is dropped, the first
   * one becomes "-", and every other character is kept.
   */
  function CollapseFrom(s: string, k: RunKind, afterRun: bool): string {
    if s == [] then []
    else if !InRun(s[0], k) then [s[0]] + CollapseFrom(s[1..], k, false)
    else if afterRun then CollapseFrom(s[1..], k, true)
    else "-" + CollapseFrom(s[1..], k, true)
  }


  /** Every character of `r` is a hyphen or a character of `s` outside the run kind `k`. */
  predicate HyphenOrKept(r: string, s: string, k: RunKind) {
    forall i :: 0 <= i < |r| ==> r[i] == '-' || (r[i] in s && !InRun(r[i], k))
  }

  /**
   * Each run becomes one hyphen and every other character stays: the result
   * holds no run character, and after a hyphen fold it holds no "--".
   */
  lemma {:induction false} CollapseFromShape(s: string, k: RunKind, afterRun: bool)
    ensures HyphenOrKept(CollapseFrom(s, k, afterRun), s, k)
    ensures k == Hyphens ==> NoDoubleHyphen(CollapseFrom(s, k, afterRun))
    ensures k == Hyphens && afterRun && CollapseFrom(s, k, afterRun) != [] ==> CollapseFrom(s, k, afterRun)[0] != '-'
  {
    if s != [] {
      var r := CollapseFrom(s, k, afterRun);
      var rest := CollapseFrom(s[1..], k, InRun(s[0], k));
      CollapseFromShape(s[1..], k, InRun(s[0], k));
      if r != rest {
        assert r == [r[0]] + rest;
        forall i | 1 <= i < |r| ensures r[i] == '-' || (r[i] in s && !InRun(r[i], k)) {
          assert r[i] == rest[i - 1];
          if r[i] != '-' {
            var j :| 0 <= j < |s[1..]| && s[1..][j] == r[i];
            assert s[1 + j] == r[i];
          }
        }
        if k == Hyphens {
          forall i | 1 <= i < |r| - 1 ensures !(r[i] == '-' && r[i + 1] == '-') {
            assert r[i] == rest[i - 1] && r[i + 1] == rest[i];
          }
        }
      } else {
        forall i | 0 <= i < |r| ensures r[i] == '-' || (r[i] in s && !InRun(r[i], k)) {
          if r[i] != '-' {
            var j :| 0 <= j < |s[1..]| && s[1..][j] == r[i];
            assert s[1 + j] == r[i];
          }
        }
      }
    }
  }

  /**
   * `replace(/\s+/g, "-")` for `Spaces`, `replace(/-+/g, "-")` for `Hyphens`:
   * what is left is hyphens and the input's characters outside the run kind,
   * and after the hyphen fold there is no "--".
   */
  function CollapseRuns(s: string, k: RunKind): (r: string)
    ensures HyphenOrKept(r, s, k)
    ensures k == Hyphens ==> NoDoubleHyphen(r)
  {
    CollapseFromShape(s, k, false);
    CollapseFrom(s, k, false)
  }

  lemma {:induction false} RemoveSpecialAppend(a: string, b: string)
    ensures RemoveSpecial(a + b) == RemoveSpecial(a) + RemoveSpecial(b)
    decreases |a|
  {
    if a != [] {
      var c, t := a[0], a[1..];
      assert (a + b)[0] == c && (a + b)[1..] == t + b;
      RemoveSpecialAppend(t, b);
      if Kept(c) {
        calc {
          RemoveSpecial(a + b);
          [c] + RemoveSpecial(t + b);
          [c] + (RemoveSpecial(t) + RemoveSpecial(b));
          ([c] + RemoveSpecial(t)) + RemoveSpecial(b);
        }
      }
    } else {
      assert a + b == b;
    }
  }

  /** Whether the fold is inside a run after reading all of `a`. */
  function EndsInRun(a: string, k: RunKind, afterRun: bool): bool {
    if a == [] then afterRun else InRun(a[|a| - 1], k)
  }

  /** The fold of a concatenation is the fold of each part, the second part started in the state the first left. */
  lemma {:induction false} CollapseFromAppend(a: string, b: string, k: RunKind, afterRun: bool)
    ensures CollapseFrom(a + b, k, afterRun) == CollapseFrom(a, k, afterRun) + CollapseFrom(b, k, EndsInRun(a, k, afterRun))
    decreases |a|
  {
    if a == [] {
      assert a + b == b;
    } else {
      var t := a[1..];
      var next := InRun(a[0], k);
      assert (a + b)[0] == a[0] && (a + b)[1..] == t + b;
      assert EndsInRun(t, k, next) == EndsInRun(a, k, afterRun);
      CollapseFromAppend(t, b, k, next);
      var head: string := if !next then [a[0]] else if afterRun then [] else "-";
      var y, z := CollapseFrom(t, k, next), CollapseFrom(b, k, EndsInRun(t, k, next));
      assert CollapseFrom(a, k, afterRun) == head + y;
      assert CollapseFrom(a + b, k, afterRun) == head + CollapseFrom(t + b, k, next);
      assert head + (y + z) == (head + y) + z;
    }
  }

  /** Removes the hyphens at the front. */
  function DropLeadingHyphens(s: string): (r: string)
    ensures |r| <= |s| && r == s[|s| - |r|..]
    ensures forall k :: 0 <= k < |s| - |r| ==> s[k] == '-'
    ensures r == [] || r[0] != '-'
    ensures s == [] || s[0] != '-' ==> r == s
  {
    if s == [] || s[0] != '-' then s else DropLeadingHyphens(s[1..])
  }

  /** Removes the hyphens at the end. */
  function DropTrailingHyphens(s: string): (r: string)
    ensures |r| <= |s| && r == s[..|r|]
    ensures forall k :: |r| <= k < |s| ==> s[k] == '-'
    ensures r == [] || r[|r| - 1] != '-'
    ensures s == [] || s[|s| - 1] != '-' ==> r == s
  {
    if s == [] || s[|s| - 1] != '-' then s else DropTrailingHyphens(s[..|s| - 1])
  }

  predicate AllHyphens(s: string) {
    forall i :: 0 <= i < |s| ==> s[i] == '-'
  }

  /** `s` is `r` preceded by `i` hyphens and followed by hyphens only. */
  predicate HyphenPaddedAt(s: string, r: string, i: nat) {
    i + |r| <= |s| && s[i..i + |r|] == r && AllHyphens(s[..i]) && AllHyphens(s[i + |r|..])
  }

  /** `s` is `r` with only hyphens in front of it and behind it. */
  ghost predicate HyphenPadded(s: string, r: string) {
    exists i: nat :: HyphenPaddedAt(s, r, i)
  }

  lemma HyphenEdges(s: string, i: nat, r: string)
    requires i + |r| <= |s| && s[i..i + |r|] == r
    requires forall k :: 0 <= k < i ==> s[k] == '-'
    requires forall k :: i + |r| <= k < |s| ==> s[k] == '-'
    ensures HyphenPaddedAt(s, r, i)
  {
    var lead, back := s[..i], s[i + |r|..];
    forall k | 0 <= k < |lead| ensures lead[k] == '-' {
      assert lead[k] == s[k];
    }
    forall k | 0 <= k < |back| ensures back[k] == '-' {
      assert back[k] == s[i + |r| + k];
    }
  }

  /** The trailing hyphens `DropTrailingHyphens` removes from a suffix of `s` are hyphens of `s`. */
  lemma TrailingOfSuffix(s: string, i: nat)
    requires i <= |s|
    ensures var r := DropTrailingHyphens(s[i..]);
            && i + |r| <= |s| && r == s[i..i + |r|]
            && forall k :: i + |r| <= k < |s| ==> s[k] == '-'
  {
    var front := s[i..];
    var r := DropTrailingHyphens(front);
    assert r == front[..|r|];
    forall k | i + |r| <= k < |s| ensures s[k] == '-' {
      assert s[k] == front[k - i];
    }
  }

  lemma StripParts(s: string)
    ensures HyphenPaddedAt(s, DropTrailingHyphens(DropLeadingHyphens(s)), |s| - |DropLeadingHyphens(s)|)
  {
    var i := |s| - |DropLeadingHyphens(s)|;
    var r := DropTrailingHyphens(DropLeadingHyphens(s));
    TrailingOfSuffix(s, i);
    HyphenEdges(s, i, r);
  }

  /**
   * `replace(/^-+|-+$/g, "")`: the input is the result with hyphens only in
   * front of it and behind it, and the result neither starts nor ends with '-'.
   */
  function StripHyphens(s: string): (r: string)
    ensures HyphenPadded(s, r)
    ensures r == [] || (r[0] != '-' && r[|r| - 1] != '-')
  {
    StripParts(s);
    var i := |s| - |DropLeadingHyphens(s)|;
    assert HyphenPaddedAt(s, DropTrailingHyphens(DropLeadingHyphens(s)), i);
    DropTrailingHyphens(DropLeadingHyphens(s))
  }

  /** `generateSlug(title)`: every slug it produces uses only `[a-z0-9_-]`, holds no "--" and has no hyphen at either end. */
  function GenerateSlug(title: string): (r: string)
    ensures IsSlug(r)
  {
    var lowered := Trim(Lower(title));
    LoweredTrimmedHasNoUpper(title);
    SpacesFoldedToSlugChars(lowered);
    var spaced := CollapseRuns(RemoveSpecial(lowered), Spaces);
    HyphensFoldedToSlugChars(spaced);
    StrippedIsSlug(CollapseRuns(spaced, Hyphens));
    StripHyphens(CollapseRuns(spaced, Hyphens))
  }

  // ---------------------------------------------------------------------------
  // What a slug looks like
  // ---------------------------------------------------------------------------

  lemma NoDoubleHyphenSlice(s: string, i: nat, j: nat)
    requires i <= j <= |s| && NoDoubleHyphen(s)
    ensures NoDoubleHyphen(s[i..j])
  {
    var t := s[i..j];
    forall p | 0 <= p < |t| - 1 ensures !(t[p] == '-' && t[p + 1] == '-') {
      assert t[p] == s[i + p] && t[p + 1] == s[i + p + 1];
    }
  }

  predicate AllSlugChars(s: string) {
    forall i :: 0 <= i < |s| ==> IsSlugChar(s[i])
  }

  predicate NoUpper(s: string) {
    forall i :: 0 <= i < |s| ==> !('A' <= s[i] <= 'Z')
  }

  lemma LoweredTrimmedHasNoUpper(title: string)
    ensures NoUpper(Trim(Lower(title)))
  {
    var l := Lower(title);
    LowerHasNoUpper(title);
    var k := TrimOffset(l);
    var r := Trim(l);
    forall i | 0 <= i < |r| ensures !('A' <= r[i] <= 'Z') {
      assert r[i] == l[k + i];
    }
  }

  /** After dropping special characters from a lower-cased text and folding whitespace runs, only slug characters are left. */
  lemma SpacesFoldedToSlugChars(s: string)
    requires NoUpper(s)
    ensures AllSlugChars(CollapseRuns(RemoveSpecial(s), Spaces))
  {
    var kept := RemoveSpecial(s);
    assert NoUpper(kept) by {
      forall i | 0 <= i < |kept| ensures !('A' <= kept[i] <= 'Z') {
        assert kept[i] in s;
      }
    }
    var spaced := CollapseRuns(kept, Spaces);
    forall i | 0 <= i < |spaced| ensures IsSlugChar(spaced[i]) {
      if spaced[i] != '-' {
        var j :| 0 <= j < |kept| && kept[j] == spaced[i];
      }
    }
  }

  lemma HyphensFoldedToSlugChars(s: string)
    requires AllSlugChars(s)
    ensures AllSlugChars(CollapseRuns(s, Hyphens))
  {
    var r := CollapseRuns(s, Hyphens);
    forall i | 0 <= i < |r| ensures IsSlugChar(r[i]) {
      if r[i] != '-' {
        var j :| 0 <= j < |s| && s[j] == r[i];
      }
    }
  }

  lemma StrippedIsSlug(s: string)
    requires AllSlugChars(s) && NoDoubleHyphen(s)
    ensures IsSlug(StripHyphens(s))
  {
    var front := DropLeadingHyphens(s);
    var r := DropTrailingHyphens(front);
    NoDoubleHyphenSlice(s, |s| - |front|, |s|);
    NoDoubleHyphenSlice(front, 0, |r|);
    forall i | 0 <= i < |r| ensures IsSlugChar(r[i]) {
      assert r[i] == front[i] == s[|s| - |front| + i];
    }
    assert r != [] ==> r[0] == front[0];
  }

  /** A string is left as it is by a run fold when its runs are single hyphens already. */
  lemma {:induction false} CollapseFromOfCollapsed(s: string, k: RunKind, afterRun: bool)
    requires forall i :: 0 <= i < |s| && InRun(s[i], k) ==> s[i] == '-' && (i + 1 == |s| || !InRun(s[i + 1], k))
    requires afterRun ==> s == [] || !InRun(s[0], k)
    ensures CollapseFrom(s, k, afterRun) == s
    decreases |s|
  {
    if s != [] {
      CollapseFromOfCollapsed(s[1..], k, InRun(s[0], k));
    }
  }

  lemma CollapseRunsOfCollapsed(s: string, k: RunKind)
    requires forall i :: 0 <= i < |s| && InRun(s[i], k) ==> s[i] == '-' && (i + 1 == |s| || !InRun(s[i + 1], k))
    ensures CollapseRuns(s, k) == s
  {
    CollapseFromOfCollapsed(s, k, false);
  }

  lemma SlugCharsAreNotWhitespace(s: string)
    requires AllSlugChars(s)
    ensures NoWhitespace(s)
  {
    forall i | 0 <= i < |s| ensures !IsWhitespace(s[i]) {
      assert IsSlugChar(s[i]);
    }
  }

  lemma LowerOfSlugChars(s: string)
    requires AllSlugChars(s)
    ensures Lower(s) == s
  {
    forall i | 0 <= i < |s| ensures Lower(s)[i] == s[i] {
      assert IsSlugChar(s[i]);
    }
  }

  lemma RemoveSpecialOfSlugChars(s: string)
    requires AllSlugChars(s)
    ensures RemoveSpecial(s) == s
  {
    forall i | 0 <= i < |s| ensures Kept(s[i]) {
      assert IsSlugChar(s[i]);
    }
  }

  lemma SpacesFoldOfSlugChars(s: string)
    requires AllSlugChars(s)
    ensures CollapseRuns(s, Spaces) == s
  {
    SlugCharsAreNotWhitespace(s);
    CollapseRunsOfCollapsed(s, Spaces);
  }

  lemma HyphensFoldOfSingleHyphens(s: string)
    requires NoDoubleHyphen(s)
    ensures CollapseRuns(s, Hyphens) == s
  {
    forall i | 0 <= i < |s| && InRun(s[i], Hyphens) ensures s[i] == '-' && (i + 1 == |s| || !InRun(s[i + 1], Hyphens)) {
      if i + 1 < |s| {
        assert !(s[i] == '-' && s[i + 1] == '-');
      }
    }
    CollapseRunsOfCollapsed(s, Hyphens);
  }

  /** A slug is a fixed point of `generateSlug`. */
  lemma SlugIsFixedPoint(s: string)
    requires IsSlug(s)
    ensures GenerateSlug(s) == s
  {
    LowerOfSlugChars(s);
    SlugCharsAreNotWhitespace(s);
    TrimOfTrimmed(s);
    assert Trim(Lower(s)) == s;
    RemoveSpecialOfSlugChars(s);
    SpacesFoldOfSlugChars(s);
    HyphensFoldOfSingleHyphens(s);
    assert StripHyphens(s) == s;
  }

  /** `generateSlug` is idempotent. */
  lemma GenerateSlugIdempotent(title: string)
    ensures GenerateSlug(GenerateSlug(title)) == GenerateSlug(title)
  {
    SlugIsFixedPoint(GenerateSlug(title));
  }

  // ---------------------------------------------------------------------------
  // Unique slugs
  // ---------------------------------------------------------------------------

  /**
   * The n-th slug `generateUniqueSlug` tries: the base itself, then `base-1`,
   * `base-2`, ...: every candidate extends the base, and only the first is the base itself.
   */
  function Candidate(baseSlug: string, n: nat): (r: string)
    ensures baseSlug <= r
    ensures r == baseSlug <==> n == 0
  {
    if n == 0 then baseSlug else baseSlug + "-" + NatToString(n)
  }

  lemma CandidateInjective(baseSlug: string, m: nat, n: nat)
    requires Candidate(baseSlug, m) == Candidate(baseSlug, n)
    ensures m == n
  {
    if m > 0 && n > 0 {
      var p := baseSlug + "-";
      assert Candidate(baseSlug, m) == p + NatToString(m);
      assert Candidate(baseSlug, n) == p + NatToString(n);
      assert NatToString(m) == Candidate(baseSlug, m)[|p|..];
      NatToStringInjective(m, n);
    }
  }

  /** The slugs tried before the n-th. */
  ghost function Tried(baseSlug: string, n: nat): set<string> {
    set m | 0 <= m < n :: Candidate(baseSlug, m)
  }

  /**
   * `generateUniqueSlug(baseSlug, existingSlugs)`: the first of `baseSlug`,
   * `baseSlug-1`, `baseSlug-2`, ... that is not taken.
   */
  method GenerateUniqueSlug(baseSlug: string, existingSlugs: seq<string>) returns (slug: string)
    ensures slug !in existingSlugs
    ensures baseSlug !in existingSlugs ==> slug == baseSlug
    ensures exists n: nat :: slug == Candidate(baseSlug, n)
                             && forall m :: 0 <= m < n ==> Candidate(baseSlug, m) in existingSlugs
  {
    ghost var taken := set s | s in existingSlugs;
    slug := baseSlug;
    var counter: nat := 1;
    while slug in existingSlugs
      invariant slug == Candidate(baseSlug, counter - 1)
      invariant forall m :: 0 <= m < counter - 1 ==> Candidate(baseSlug, m) in existingSlugs
      invariant Tried(baseSlug, counter - 1) <= taken
      decreases taken - Tried(baseSlug, counter - 1)
    {
      assert slug !in Tried(baseSlug, counter - 1) by {
        if slug in Tried(baseSlug, counter - 1) {
          var m :| 0 <= m < counter - 1 && slug == Candidate(baseSlug, m);
          CandidateInjective(baseSlug, m, counter - 1);
        }
      }
      assert Tried(baseSlug, counter) == Tried(baseSlug, counter - 1) + {slug};
      slug := baseSlug + "-" + NatToString(counter);
      counter := counter + 1;
    }
    assert slug == Candidate(baseSlug, counter - 1);
  }

  /** The second post titled "Same Title" gets the slug "same-title-1". */
  method SecondSameTitle() returns (slug: string)
    ensures slug == "same-title-1"
  {
    slug := GenerateUniqueSlug("same-title", ["same-title"]);
    ghost var n: nat :| slug == Candidate("same-title", n)
                       && forall m :: 0 <= m < n ==> Candidate("same-title", m) in ["same-title"];
    assert Candidate("same-title", 1) == "same-title-1";
    if n == 0 {
      assert false;
    } else if n > 1 {
      assert false;
    }
  }
}
