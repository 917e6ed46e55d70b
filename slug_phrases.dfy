/**
 * `generateSlug` on titles made of words: a title whose words are separated
 * by gaps of blanks and punctuation, and that may end in punctuation, becomes
 * its lower-cased words joined by single hyphens.  The worked examples of the
 * post router's tests are instances.
 */
module SlugPhrases {
  import opened JsString
  import opened Slug

  /** A non-empty run of word characters `\w`. */
  predicate Word(w: string) {
    w != [] && forall i :: 0 <= i < |w| ==> IsWordChar(w[i])
  }

  /** A separator: blanks and characters outside `[\w\s-]`, with at least one blank. */
  predicate Gap(g: string) {
    && (forall i :: 0 <= i < |g| ==> IsWhitespace(g[i]) || !Kept(g[i]))
    && (exists i :: 0 <= i < |g| && IsWhitespace(g[i]))
  }

  /** Characters `RemoveSpecial` drops, such as a closing "!". */
  predicate Noise(t: string) {
    forall i :: 0 <= i < |t| ==> !Kept(t[i])
  }

  predicate AllWords(words: seq<string>) {
    forall i :: 0 <= i < |words| ==> Word(words[i])
  }

  predicate AllGaps(gaps: seq<string>) {
    forall i :: 0 <= i < |gaps| ==> Gap(gaps[i])
  }

  /** `gaps[0] + words[0] + gaps[1] + words[1] + ...`. */
  function Phrase(gaps: seq<string>, words: seq<string>): string
    requires |gaps| == |words|
    decreases |words|
  {
    if words == [] then [] else gaps[0] + words[0] + Phrase(gaps[1..], words[1..])
  }

  function Dashes(n: nat): (r: seq<string>)
    ensures |r| == n && forall i :: 0 <= i < n ==> r[i] == "-"
  {
    seq(n, _ => "-")
  }

  function LowerAll(words: seq<string>): (r: seq<string>)
    ensures |r| == |words| && forall i :: 0 <= i < |words| ==> r[i] == Lower(words[i])
  {
    seq(|words|, i requires 0 <= i < |words| => Lower(words[i]))
  }

  function RemoveSpecialAll(gaps: seq<string>): (r: seq<string>)
    ensures |r| == |gaps| && forall i :: 0 <= i < |gaps| ==> r[i] == RemoveSpecial(gaps[i])
  {
    seq(|gaps|, i requires 0 <= i < |gaps| => RemoveSpecial(gaps[i]))
  }

  /**
   * A title of words and gaps, perhaps closed by punctuation, slugs to its
   * lower-cased words joined by single hyphens.
   */
  lemma SlugOfPhrase(first: string, gaps: seq<string>, words: seq<string>, tail: string)
    requires Word(first) && |gaps| == |words| && AllGaps(gaps) && AllWords(words) && Noise(tail)
    ensures GenerateSlug(first + Phrase(gaps, words) + tail) == Lower(first) + Phrase(Dashes(|words|), LowerAll(words))
  {
    var lowered := Lower(first) + Phrase(gaps, LowerAll(words)) + tail;
    LoweringStage(first, gaps, words, tail);
    LowerOfWord(first);
    LowerAllWords(words);
    EdgesAreNotBlank(Lower(first), gaps, LowerAll(words), tail);
    TrimOfTrimmed(lowered);
    RemoveSpecialStage(Lower(first), gaps, LowerAll(words), tail);
    FoldStage(Lower(first), gaps, LowerAll(words));
    var result := Lower(first) + Phrase(Dashes(|words|), LowerAll(words));
    EdgesAreNotBlank(Lower(first), Dashes(|words|), LowerAll(words), []);
    assert result + [] == result;
  }

  lemma LoweringStage(first: string, gaps: seq<string>, words: seq<string>, tail: string)
    requires |gaps| == |words| && AllGaps(gaps) && Noise(tail)
    ensures Lower(first + Phrase(gaps, words) + tail) == Lower(first) + Phrase(gaps, LowerAll(words)) + tail
  {
    LowerAppend(first + Phrase(gaps, words), tail);
    LowerAppend(first, Phrase(gaps, words));
    LowerPhrase(gaps, words);
    LowerOfNoise(tail);
  }

  lemma RemoveSpecialStage(first: string, gaps: seq<string>, words: seq<string>, tail: string)
    requires Word(first) && |gaps| == |words| && AllWords(words) && Noise(tail)
    ensures RemoveSpecial(first + Phrase(gaps, words) + tail) == first + Phrase(RemoveSpecialAll(gaps), words)
  {
    RemoveSpecialAppend(first + Phrase(gaps, words), tail);
    RemoveSpecialAppend(first, Phrase(gaps, words));
    RemoveSpecialOfWord(first);
    RemoveSpecialOfNoise(tail);
    RemoveSpecialPhrase(gaps, words);
    assert RemoveSpecial(first + Phrase(gaps, words)) + [] == RemoveSpecial(first + Phrase(gaps, words));
  }

  /** The blank fold turns each remaining gap into one hyphen, and the hyphen fold keeps them. */
  lemma FoldStage(first: string, gaps: seq<string>, words: seq<string>)
    requires Word(first) && |gaps| == |words| && AllGaps(gaps) && AllWords(words)
    ensures var result := first + Phrase(Dashes(|words|), words);
            CollapseRuns(CollapseRuns(first + Phrase(RemoveSpecialAll(gaps), words), Spaces), Hyphens) == result
  {
    var blanks := RemoveSpecialAll(gaps);
    forall i | 0 <= i < |blanks|
      ensures blanks[i] != [] && forall j :: 0 <= j < |blanks[i]| ==> InRun(blanks[i][j], Spaces)
    {
      RemoveSpecialOfGap(gaps[i]);
    }
    forall i | 0 <= i < |words| ensures forall j :: 0 <= j < |words[i]| ==> !InRun(words[i][j], Spaces) && !InRun(words[i][j], Hyphens) {
      forall j | 0 <= j < |words[i]| ensures !InRun(words[i][j], Spaces) && !InRun(words[i][j], Hyphens) {
        WordCharIsNotBlank(words[i][j]);
      }
    }
    FoldAfterWord(first, blanks, words, Spaces);
    FoldAfterWord(first, Dashes(|words|), words, Hyphens);
  }

  /** The worked example of the post router's tests: "Hello World!" is slugged to "hello-world". */
  lemma HelloWorld()
    ensures GenerateSlug("Hello World!") == "hello-world"
  {
    HelloWorldParts();
    SlugOfPhrase("Hello", [" "], ["World"], "!");
    HelloWorldLowered();
  }

  lemma HelloWorldParts()
    ensures "Hello World!" == "Hello" + Phrase([" "], ["World"]) + "!"
    ensures Word("Hello") && AllGaps([" "]) && AllWords(["World"]) && Noise("!")
  {
    assert Phrase([" "], ["World"]) == " World";
    assert Gap(" ") by { assert IsWhitespace(" "[0]); }
  }

  lemma HelloWorldLowered()
    ensures Lower("Hello") + Phrase(Dashes(1), LowerAll(["World"])) == "hello-world"
  {
    assert Lower("Hello") == "hello" && Lower("World") == "world";
    assert LowerAll(["World"]) == ["world"];
    assert Phrase(Dashes(1), ["world"]) == "-world";
  }

  /** The worked example of the post router's tests: "Test & Special Characters!" is slugged to "test-special-characters". */
  lemma SpecialCharacters()
    ensures GenerateSlug("Test & Special Characters!") == "test-special-characters"
  {
    SpecialCharactersParts();
    SlugOfPhrase("Test", [" & ", " "], ["Special", "Characters"], "!");
    SpecialCharactersLowered();
  }

  lemma SpecialCharactersParts()
    ensures "Test & Special Characters!" == "Test" + Phrase([" & ", " "], ["Special", "Characters"]) + "!"
    ensures Word("Test") && AllGaps([" & ", " "]) && AllWords(["Special", "Characters"]) && Noise("!")
  {
    SpecialCharactersSplit();
    SpecialCharactersPieces();
  }

  lemma SpecialCharactersSplit()
    ensures "Test & Special Characters!" == "Test" + Phrase([" & ", " "], ["Special", "Characters"]) + "!"
  {
    assert Phrase([" "], ["Characters"]) == " Characters";
    assert Phrase([" & ", " "], ["Special", "Characters"]) == " & " + "Special" + " Characters";
  }

  lemma SpecialCharactersPieces()
    ensures Word("Test") && AllGaps([" & ", " "]) && AllWords(["Special", "Characters"]) && Noise("!")
  {
    assert Gap(" ") by { assert IsWhitespace(" "[0]); }
    assert Gap(" & ") by { assert IsWhitespace(" & "[0]); }
    assert Word("Special");
    assert Word("Characters");
  }

  lemma SpecialCharactersLowered()
    ensures Lower("Test") + Phrase(Dashes(2), LowerAll(["Special", "Characters"])) == "test-special-characters"
  {
    SpecialCharactersWords();
    TwoDashes();
    SpecialCharactersJoined();
  }

  lemma TwoDashes()
    ensures Dashes(2) == ["-", "-"]
  {
  }

  lemma SpecialCharactersJoined()
    ensures Phrase(["-", "-"], ["special", "characters"]) == "-special-characters"
  {
    assert Phrase(["-"], ["characters"]) == "-characters";
  }

  lemma SpecialCharactersWords()
    ensures Lower("Test") == "test" && LowerAll(["Special", "Characters"]) == ["special", "characters"]
  {
    assert Lower("Special") == "special";
    assert Lower("Characters") == "characters";
  }

  /** The worked example of the post router's tests: "Completely New Title" is slugged to "completely-new-title". */
  lemma CompletelyNewTitle()
    ensures GenerateSlug("Completely New Title") == "completely-new-title"
  {
    CompletelyNewTitleParts();
    SlugOfPhrase("Completely", [" ", " "], ["New", "Title"], "");
    CompletelyNewTitleLowered();
  }

  lemma CompletelyNewTitleParts()
    ensures "Completely New Title" == "Completely" + Phrase([" ", " "], ["New", "Title"]) + ""
    ensures Word("Completely") && AllGaps([" ", " "]) && AllWords(["New", "Title"]) && Noise("")
  {
    assert Phrase([" "], ["Title"]) == " Title";
    assert Phrase([" ", " "], ["New", "Title"]) == " New Title";
    assert Gap(" ") by { assert IsWhitespace(" "[0]); }
  }

  lemma CompletelyNewTitleLowered()
    ensures Lower("Completely") + Phrase(Dashes(2), LowerAll(["New", "Title"])) == "completely-new-title"
  {
    CompletelyNewTitleWords();
    assert Phrase(Dashes(1), ["title"]) == "-title";
    assert Phrase(Dashes(2), ["new", "title"]) == "-new" + "-title";
  }

  lemma CompletelyNewTitleWords()
    ensures Lower("Completely") == "completely" && LowerAll(["New", "Title"]) == ["new", "title"]
  {
    assert Lower("New") == "new" && Lower("Title") == "title";
  }

  /** The post router's tests create two posts titled "Same Title": the first slug is "same-title". */
  lemma SameTitle()
    ensures GenerateSlug("Same Title") == "same-title"
  {
    SameTitleParts();
    SlugOfPhrase("Same", [" "], ["Title"], "");
    SameTitleLowered();
  }

  lemma SameTitleParts()
    ensures "Same Title" == "Same" + Phrase([" "], ["Title"]) + ""
    ensures Word("Same") && AllGaps([" "]) && AllWords(["Title"]) && Noise("")
  {
    assert Phrase([" "], ["Title"]) == " Title";
    assert Gap(" ") by { assert IsWhitespace(" "[0]); }
  }

  lemma SameTitleLowered()
    ensures Lower("Same") + Phrase(Dashes(1), LowerAll(["Title"])) == "same-title"
  {
    assert Lower("Same") == "same" && Lower("Title") == "title";
    assert LowerAll(["Title"]) == ["title"];
    assert Phrase(Dashes(1), ["title"]) == "-title";
  }

  // ---------------------------------------------------------------------------
  // The steps, one rewrite at a time
  // ---------------------------------------------------------------------------

  lemma LowerAppend(a: string, b: string)
    ensures Lower(a + b) == Lower(a) + Lower(b)
  {
    assert forall i :: 0 <= i < |a + b| ==> Lower(a + b)[i] == (Lower(a) + Lower(b))[i];
  }

  lemma LowerOfWord(w: string)
    requires Word(w)
    ensures Word(Lower(w))
  {
  }

  lemma LowerAllWords(words: seq<string>)
    requires AllWords(words)
    ensures AllWords(LowerAll(words))
  {
    forall i | 0 <= i < |words| ensures Word(LowerAll(words)[i]) {
      LowerOfWord(words[i]);
    }
  }

  lemma LowerOfNoise(t: string)
    requires Noise(t)
    ensures Lower(t) == t
  {
  }

  lemma LowerOfGap(g: string)
    requires Gap(g)
    ensures Lower(g) == g
  {
  }

  lemma {:induction false} LowerPhrase(gaps: seq<string>, words: seq<string>)
    requires |gaps| == |words| && AllGaps(gaps)
    ensures Lower(Phrase(gaps, words)) == Phrase(gaps, LowerAll(words))
    decreases |words|
  {
    if words != [] {
      var rest := Phrase(gaps[1..], words[1..]);
      LowerPhrase(gaps[1..], words[1..]);
      LowerAppend(gaps[0] + words[0], rest);
      LowerAppend(gaps[0], words[0]);
      LowerOfGap(gaps[0]);
      assert LowerAll(words)[1..] == LowerAll(words[1..]);
      assert LowerAll(words)[0] == Lower(words[0]);
    }
  }

  /** The last character of a phrase of words is a word character. */
  lemma {:induction false} PhraseEndsInWord(gaps: seq<string>, words: seq<string>)
    requires |gaps| == |words| && words != [] && AllWords(words)
    ensures Phrase(gaps, words) != [] && IsWordChar(Phrase(gaps, words)[|Phrase(gaps, words)| - 1])
    decreases |words|
  {
    var rest := Phrase(gaps[1..], words[1..]);
    var p := Phrase(gaps, words);
    assert p == (gaps[0] + words[0]) + rest;
    if |words| > 1 {
      PhraseEndsInWord(gaps[1..], words[1..]);
      assert p[|p| - 1] == rest[|rest| - 1];
    } else {
      assert rest == [];
      assert p[|p| - 1] == words[0][|words[0]| - 1];
    }
  }

  lemma WordCharIsNotBlank(c: char)
    requires IsWordChar(c)
    ensures !IsWhitespace(c) && c != '-'
  {
  }

  /** A title that starts with a word and ends with a word or with noise has neither blanks nor hyphens at its ends. */
  lemma EdgesAreNotBlank(first: string, gaps: seq<string>, words: seq<string>, tail: string)
    requires Word(first) && |gaps| == |words| && AllWords(words) && Noise(tail)
    ensures var s := first + Phrase(gaps, words) + tail;
            && s != []
            && !IsWhitespace(s[0]) && s[0] != '-'
            && !IsWhitespace(s[|s| - 1]) && s[|s| - 1] != '-'
  {
    var p := Phrase(gaps, words);
    var s := first + p + tail;
    assert s[0] == first[0];
    WordCharIsNotBlank(first[0]);
    if tail != [] {
      assert s[|s| - 1] == tail[|tail| - 1];
    } else if words != [] {
      PhraseEndsInWord(gaps, words);
      assert s[|s| - 1] == p[|p| - 1];
      WordCharIsNotBlank(p[|p| - 1]);
    } else {
      assert s[|s| - 1] == first[|first| - 1];
      WordCharIsNotBlank(first[|first| - 1]);
    }
  }

  lemma RemoveSpecialOfWord(w: string)
    requires Word(w)
    ensures RemoveSpecial(w) == w
  {
  }

  lemma {:induction false} RemoveSpecialOfNoise(t: string)
    requires Noise(t)
    ensures RemoveSpecial(t) == []
    decreases |t|
  {
    if t != [] {
      RemoveSpecialOfNoise(t[1..]);
    }
  }

  /** A gap loses its punctuation and keeps its blanks, at least one. */
  lemma RemoveSpecialOfGap(g: string)
    requires Gap(g)
    ensures RemoveSpecial(g) != [] && forall j :: 0 <= j < |RemoveSpecial(g)| ==> IsWhitespace(RemoveSpecial(g)[j])
  {
    var i :| 0 <= i < |g| && IsWhitespace(g[i]);
    assert g == g[..i] + g[i..];
    RemoveSpecialAppend(g[..i], g[i..]);
    assert RemoveSpecial(g[i..]) == [g[i]] + RemoveSpecial(g[i + 1..]);
    forall j | 0 <= j < |RemoveSpecial(g)| ensures IsWhitespace(RemoveSpecial(g)[j]) {
      var c := RemoveSpecial(g)[j];
      assert c in RemoveSpecial(g);
      var m :| 0 <= m < |g| && g[m] == c;
    }
  }

  lemma {:induction false} RemoveSpecialPhrase(gaps: seq<string>, words: seq<string>)
    requires |gaps| == |words| && AllWords(words)
    ensures RemoveSpecial(Phrase(gaps, words)) == Phrase(RemoveSpecialAll(gaps), words)
    decreases |words|
  {
    if words != [] {
      var rest := Phrase(gaps[1..], words[1..]);
      RemoveSpecialPhrase(gaps[1..], words[1..]);
      RemoveSpecialAppend(gaps[0] + words[0], rest);
      RemoveSpecialAppend(gaps[0], words[0]);
      RemoveSpecialOfWord(words[0]);
      assert RemoveSpecialAll(gaps)[1..] == RemoveSpecialAll(gaps[1..]);
    }
  }

  /** Text without run characters passes through the fold unchanged and leaves it outside a run. */
  lemma {:induction false} FoldOfPlain(w: string, k: RunKind, afterRun: bool)
    requires forall j :: 0 <= j < |w| ==> !InRun(w[j], k)
    ensures CollapseFrom(w, k, afterRun) == w
    decreases |w|
  {
    if w != [] {
      FoldOfPlain(w[1..], k, false);
    }
  }

  /** Inside a run, run characters are dropped. */
  lemma {:induction false} FoldInsideRun(g: string, k: RunKind)
    requires forall j :: 0 <= j < |g| ==> InRun(g[j], k)
    ensures CollapseFrom(g, k, true) == []
    decreases |g|
  {
    if g != [] {
      FoldInsideRun(g[1..], k);
    }
  }

  predicate RunsAndWords(gaps: seq<string>, words: seq<string>, k: RunKind) {
    && |gaps| == |words|
    && (forall i :: 0 <= i < |gaps| ==> gaps[i] != [] && forall j :: 0 <= j < |gaps[i]| ==> InRun(gaps[i][j], k))
    && (forall i :: 0 <= i < |words| ==> words[i] != [] && forall j :: 0 <= j < |words[i]| ==> !InRun(words[i][j], k))
  }

  /** A gap of run characters folds to one hyphen and the word after it stays. */
  lemma FoldGapAndWord(g: string, w: string, rest: string, k: RunKind)
    requires g != [] && forall j :: 0 <= j < |g| ==> InRun(g[j], k)
    requires w != [] && forall j :: 0 <= j < |w| ==> !InRun(w[j], k)
    ensures CollapseFrom(g + (w + rest), k, false) == "-" + w + CollapseFrom(rest, k, false)
  {
    CollapseFromAppend(g, w + rest, k, false);
    assert EndsInRun(g, k, false);
    assert CollapseFrom(g, k, false) == "-" + CollapseFrom(g[1..], k, true);
    FoldInsideRun(g[1..], k);
    CollapseFromAppend(w, rest, k, true);
    FoldOfPlain(w, k, true);
    assert !EndsInRun(w, k, true);
  }

  /** Each gap of run characters folds to one hyphen, and the words stay. */
  lemma {:induction false} FoldPhrase(gaps: seq<string>, words: seq<string>, k: RunKind)
    requires RunsAndWords(gaps, words, k)
    ensures CollapseFrom(Phrase(gaps, words), k, false) == Phrase(Dashes(|words|), words)
    decreases |words|
  {
    if words != [] {
      var rest := Phrase(gaps[1..], words[1..]);
      assert RunsAndWords(gaps[1..], words[1..], k);
      FoldPhrase(gaps[1..], words[1..], k);
      assert Phrase(gaps, words) == gaps[0] + (words[0] + rest);
      FoldGapAndWord(gaps[0], words[0], rest, k);
      assert Dashes(|words|)[1..] == Dashes(|words| - 1);
    }
  }

  /** A word followed by a phrase of runs and words: the word stays and each run becomes one hyphen. */
  lemma FoldAfterWord(first: string, gaps: seq<string>, words: seq<string>, k: RunKind)
    requires Word(first) && RunsAndWords(gaps, words, k) && AllWords(words)
    ensures CollapseRuns(first + Phrase(gaps, words), k) == first + Phrase(Dashes(|words|), words)
  {
    CollapseFromAppend(first, Phrase(gaps, words), k, false);
    FoldOfPlain(first, k, false);
    WordCharIsNotBlank(first[|first| - 1]);
    assert !EndsInRun(first, k, false);
    FoldPhrase(gaps, words, k);
  }
}
