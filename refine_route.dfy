/** The `/api/refine-content` route: validation, forwarding, and the local fallback rewrite. */
module RefineRoute {
  import opened Wrappers
  import Text
  import opened RouteCommon

  const EnthusiasticSuffix := " This is truly exciting and amazing!"
  const ProfessionalPrefix := "In a professional context, "
  const FallbackMessage := "This is a demo response. Connect your FastAPI backend for AI-powered content refinement."
  const MissingText := "Text is required"
  const MissingInstruction := "Instruction is required"

  // ---------------------------------------------------------------------------
  // Whole-word replacement: `s.replace(/\bw\b/g, r)`.

  /** Whether position `p` of `s` holds a word character; outside the string it does not. */
  predicate WordAt(s: string, p: int) {
    0 <= p < |s| && Text.IsWordChar(s[p])
  }

  /** The regex assertion `\b` at position `p`: a word character on exactly one side. */
  predicate Boundary(s: string, p: int) {
    WordAt(s, p - 1) != WordAt(s, p)
  }

  /** `\bw\b` matches at position `i` of `s`. */
  predicate MatchAt(s: string, i: nat, w: string) {
    i + |w| <= |s| && s[i..i + |w|] == w && Boundary(s, i) && Boundary(s, i + |w|)
  }

  /**
   * The global replace from position `i` on: scanning left to right, each match is
   * replaced and the scan resumes after it; boundaries are judged on the original text.
   */
  function ReplaceFrom(s: string, w: string, r: string, i: nat): string
    requires |w| > 0 && i <= |s|
    decreases |s| - i
  {
    if i == |s| then ""
    else if MatchAt(s, i, w) then r + ReplaceFrom(s, w, r, i + |w|)
    else [s[i]] + ReplaceFrom(s, w, r, i + 1)
  }

  function ReplaceWord(s: string, w: string, r: string): string
    requires |w| > 0
  {
    ReplaceFrom(s, w, r, 0)
  }

  /** Without a match from `i` on, the scan copies the rest of the text. */
  lemma {:induction false} ReplaceFromNoMatch(s: string, w: string, r: string, i: nat)
    requires |w| > 0 && i <= |s|
    requires forall j :: i <= j < |s| ==> !MatchAt(s, j, w)
    ensures ReplaceFrom(s, w, r, i) == s[i..]
    decreases |s| - i
  {
    if i < |s| {
      ReplaceFromNoMatch(s, w, r, i + 1);
      assert s[i..] == [s[i]] + s[i + 1..];
    }
  }

  /** Text without a whole-word occurrence of `w` is left as it is. */
  lemma ReplaceWordNoMatch(s: string, w: string, r: string)
    requires |w| > 0
    requires forall j :: 0 <= j < |s| ==> !MatchAt(s, j, w)
    ensures ReplaceWord(s, w, r) == s
  {
    ReplaceFromNoMatch(s, w, r, 0);
  }

  /** A text that does not contain `w` at all is left as it is. */
  lemma ReplaceWordAbsent(s: string, w: string, r: string)
    requires |w| > 0 && !Text.Contains(s, w)
    ensures ReplaceWord(s, w, r) == s
  {
    forall j | 0 <= j < |s| ensures !MatchAt(s, j, w) {
      if MatchAt(s, j, w) {
        assert Text.OccursAt(s, w, j);
      }
    }
    ReplaceWordNoMatch(s, w, r);
  }

  /**
   * Replacement is local: a match at `i` followed by no match until `k` turns
   * `s[i..k]` into `r` and the rest copied.
   */
  lemma ReplaceFromMatchThenCopy(s: string, w: string, r: string, i: nat, k: nat)
    requires |w| > 0 && i + |w| <= k <= |s| && MatchAt(s, i, w)
    requires forall j :: i + |w| <= j < k ==> !MatchAt(s, j, w)
    ensures ReplaceFrom(s, w, r, i) == r + s[i + |w|..k] + ReplaceFrom(s, w, r, k)
  {
    ReplaceStep(s, w, r, i);
    CopyUntil(s, w, r, i + |w|, k);
    Regroup(r, s[i + |w|..k], ReplaceFrom(s, w, r, k));
  }

  /** Concatenation regrouped. */
  lemma Regroup(a: string, b: string, c: string)
    ensures a + (b + c) == a + b + c
  {
  }

  /** One step of the scan at a match: the replacement, then the scan after the match. */
  lemma ReplaceStep(s: string, w: string, r: string, i: nat)
    requires |w| > 0 && i < |s| && MatchAt(s, i, w)
    ensures ReplaceFrom(s, w, r, i) == r + ReplaceFrom(s, w, r, i + |w|)
  {
  }

  /** One step of the scan away from a match: the character, then the scan after it. */
  lemma CopyStep(s: string, w: string, r: string, i: nat)
    requires |w| > 0 && i < |s| && !MatchAt(s, i, w)
    ensures ReplaceFrom(s, w, r, i) == [s[i]] + ReplaceFrom(s, w, r, i + 1)
  {
  }

  /** Without a match in `[i, k)` the scan copies `s[i..k]` and carries on from `k`. */
  lemma {:induction false} CopyUntil(s: string, w: string, r: string, i: nat, k: nat)
    requires |w| > 0 && i <= k <= |s|
    requires forall j :: i <= j < k ==> !MatchAt(s, j, w)
    ensures ReplaceFrom(s, w, r, i) == s[i..k] + ReplaceFrom(s, w, r, k)
    decreases k - i
  {
    if i < k {
      CopyStep(s, w, r, i);
      CopyUntil(s, w, r, i + 1, k);
      ConsSlice(s, i, k);
      Prepend(s[i], s[i + 1..k], s[i..k], ReplaceFrom(s, w, r, i + 1), ReplaceFrom(s, w, r, k));
    }
  }

  /** Putting one character in front of a copy followed by the rest of the scan. */
  lemma Prepend(c: char, a: string, ca: string, tail: string, rest: string)
    requires ca == [c] + a && tail == a + rest
    ensures [c] + tail == ca + rest
  {
  }

  /** A non-empty slice is its first character followed by the rest. */
  lemma ConsSlice(s: string, i: nat, k: nat)
    requires i < k <= |s|
    ensures s[i..k] == [s[i]] + s[i + 1..k]
  {
  }

  /** The text that is exactly the word becomes exactly the replacement. */
  lemma ReplaceWholeWord(w: string, r: string)
    requires |w| > 0 && Text.IsWordChar(w[0]) && Text.IsWordChar(w[|w| - 1])
    ensures ReplaceWord(w, w, r) == r
  {
    assert w[0..|w|] == w;
    assert WordAt(w, 0) && !WordAt(w, -1) && WordAt(w, |w| - 1) && !WordAt(w, |w|);
    assert MatchAt(w, 0, w);
    assert ReplaceFrom(w, w, r, |w|) == "";
  }

  // ---------------------------------------------------------------------------
  // The branches.

  /** The formal branch: contractions expanded, then "you" and "your" replaced, in this order. */
  function Formal(text: string): string {
    var t1 := ReplaceWord(text, "can't", "cannot");
    var t2 := ReplaceWord(t1, "won't", "will not");
    var t3 := ReplaceWord(t2, "don't", "do not");
    var t4 := ReplaceWord(t3, "isn't", "is not");
    var t5 := ReplaceWord(t4, "aren't", "are not");
    var t6 := ReplaceWord(t5, "you", "one");
    ReplaceWord(t6, "your", "one's")
  }

  /** The casual branch: the inverse contractions. */
  function Casual(text: string): string {
    var t1 := ReplaceWord(text, "cannot", "can't");
    var t2 := ReplaceWord(t1, "will not", "won't");
    var t3 := ReplaceWord(t2, "do not", "don't");
    var t4 := ReplaceWord(t3, "is not", "isn't");
    ReplaceWord(t4, "are not", "aren't")
  }

  /** "you" is not replaced inside "your", which the next step then turns into "one's". */
  lemma FormalYourIsOnes()
    ensures ReplaceWord("your", "you", "one") == "your"
    ensures Formal("your") == "one's"
  {
    assert !MatchAt("your", 0, "you") by { assert !Boundary("your", 3); }
    ReplaceWordNoMatch("your", "you", "one");
    ReplaceWordAbsent("your", "can't", "cannot");
    ReplaceWordAbsent("your", "won't", "will not");
    ReplaceWordAbsent("your", "don't", "do not");
    ReplaceWordAbsent("your", "isn't", "is not");
    ReplaceWordAbsent("your", "aren't", "are not");
    ReplaceWholeWord("your", "one's");
  }

  /** Matching is case-sensitive: "Can't" is not expanded. */
  lemma CapitalisedContractionKept()
    ensures ReplaceWord("Can't", "can't", "cannot") == "Can't"
  {
    assert "Can't"[0] != "can't"[0];
    assert !Text.OccursAt("Can't", "can't", 0);
    ReplaceWordAbsent("Can't", "can't", "cannot");
  }

  /** A contraction standing alone is expanded by the formal rewrite and restored by the casual one. */
  lemma ContractionRoundTrip()
    ensures ReplaceWord("can't", "can't", "cannot") == "cannot"
    ensures ReplaceWord("cannot", "cannot", "can't") == "can't"
    ensures Formal("can't") == "cannot" && Casual("cannot") == "can't"
    ensures Casual(Formal("can't")) == "can't"
  {
    ReplaceWholeWord("can't", "cannot");
    ReplaceWholeWord("cannot", "can't");
    FormalCant();
    CasualCannot();
  }

  /** A word with a character the text lacks does not occur in it, so the text is kept. */
  lemma KeptWithout(s: string, w: string, r: string, k: nat)
    requires k < |w| && w[k] !in s
    ensures ReplaceWord(s, w, r) == s
  {
    assert !Text.Contains(s, w) by {
      forall i | 0 <= i <= |s| - |w| ensures !Text.OccursAt(s, w, i) {
        assert s[i..i + |w|][k] == s[i + k];
      }
    }
    ReplaceWordAbsent(s, w, r);
  }

  /** `\bw\b` matches nowhere in `s`. */
  predicate NoWholeWord(s: string, w: string) {
    forall j :: 0 <= j < |s| ==> !MatchAt(s, j, w)
  }

  /** A text in which no listed word occurs as a whole word is left as it is by the formal rewrite. */
  lemma FormalKeepsText(text: string)
    requires NoWholeWord(text, "can't") && NoWholeWord(text, "won't") && NoWholeWord(text, "don't")
    requires NoWholeWord(text, "isn't") && NoWholeWord(text, "aren't")
    requires NoWholeWord(text, "you") && NoWholeWord(text, "your")
    ensures Formal(text) == text
  {
    ReplaceWordNoMatch(text, "can't", "cannot");
    ReplaceWordNoMatch(text, "won't", "will not");
    ReplaceWordNoMatch(text, "don't", "do not");
    ReplaceWordNoMatch(text, "isn't", "is not");
    ReplaceWordNoMatch(text, "aren't", "are not");
    ReplaceWordNoMatch(text, "you", "one");
    ReplaceWordNoMatch(text, "your", "one's");
  }

  /** A text in which no listed phrase occurs as a whole word is left as it is by the casual rewrite. */
  lemma CasualKeepsText(text: string)
    requires NoWholeWord(text, "cannot") && NoWholeWord(text, "will not") && NoWholeWord(text, "do not")
    requires NoWholeWord(text, "is not") && NoWholeWord(text, "are not")
    ensures Casual(text) == text
  {
    ReplaceWordNoMatch(text, "cannot", "can't");
    ReplaceWordNoMatch(text, "will not", "won't");
    ReplaceWordNoMatch(text, "do not", "don't");
    ReplaceWordNoMatch(text, "is not", "isn't");
    ReplaceWordNoMatch(text, "are not", "aren't");
  }

  /** Each listed word standing alone becomes its formal replacement. */
  lemma FormalOfWords()
    ensures Formal("can't") == "cannot"
    ensures Formal("won't") == "will not"
    ensures Formal("don't") == "do not"
    ensures Formal("isn't") == "is not"
    ensures Formal("aren't") == "are not"
    ensures Formal("you") == "one"
    ensures Formal("your") == "one's"
  {
    FormalCant();
    FormalWont();
    FormalDont();
    FormalIsnt();
    FormalArent();
    FormalYou();
    FormalYourIsOnes();
  }

  /** Each listed phrase standing alone becomes its casual replacement. */
  lemma CasualOfWords()
    ensures Casual("cannot") == "can't"
    ensures Casual("will not") == "won't"
    ensures Casual("do not") == "don't"
    ensures Casual("is not") == "isn't"
    ensures Casual("are not") == "aren't"
  {
    CasualCannot();
    CasualWillNot();
    CasualDoNot();
    CasualIsNot();
    CasualAreNot();
  }

  /** The formal chain, one replacement at a time. */
  lemma FormalSteps(text: string, t1: string, t2: string, t3: string, t4: string, t5: string, t6: string, r: string)
    requires ReplaceWord(text, "can't", "cannot") == t1 && ReplaceWord(t1, "won't", "will not") == t2
    requires ReplaceWord(t2, "don't", "do not") == t3 && ReplaceWord(t3, "isn't", "is not") == t4
    requires ReplaceWord(t4, "aren't", "are not") == t5 && ReplaceWord(t5, "you", "one") == t6
    requires ReplaceWord(t6, "your", "one's") == r
    ensures Formal(text) == r
  {
  }

  /** The casual chain, one replacement at a time. */
  lemma CasualSteps(text: string, t1: string, t2: string, t3: string, t4: string, r: string)
    requires ReplaceWord(text, "cannot", "can't") == t1 && ReplaceWord(t1, "will not", "won't") == t2
    requires ReplaceWord(t2, "do not", "don't") == t3 && ReplaceWord(t3, "is not", "isn't") == t4
    requires ReplaceWord(t4, "are not", "aren't") == r
    ensures Casual(text) == r
  {
  }

  /** Steps 1 to 3 of the formal chain applied to "can't". */
  lemma FormalCantPart1()
    ensures ReplaceWord("can't", "can't", "cannot") == "cannot"
    ensures ReplaceWord("cannot", "won't", "will not") == "cannot"
    ensures ReplaceWord("cannot", "don't", "do not") == "cannot"
  {
    ReplaceWholeWord("can't", "cannot");
    KeptWithout("cannot", "won't", "will not", 0);
    KeptWithout("cannot", "don't", "do not", 0);
  }

  /** Steps 4 to 6 of the formal chain applied to "can't". */
  lemma FormalCantPart2()
    ensures ReplaceWord("cannot", "isn't", "is not") == "cannot"
    ensures ReplaceWord("cannot", "aren't", "are not") == "cannot"
    ensures ReplaceWord("cannot", "you", "one") == "cannot"
  {
    KeptWithout("cannot", "isn't", "is not", 0);
    KeptWithout("cannot", "aren't", "are not", 1);
    KeptWithout("cannot", "you", "one", 0);
  }

  /** Step 7 of the formal chain applied to "can't". */
  lemma FormalCantPart3()
    ensures ReplaceWord("cannot", "your", "one's") == "cannot"
  {
    KeptWithout("cannot", "your", "one's", 0);
  }

  lemma FormalCant()
    ensures Formal("can't") == "cannot"
  {
    FormalCantPart1();
    FormalCantPart2();
    FormalCantPart3();
    FormalSteps("can't", "cannot", "cannot", "cannot", "cannot", "cannot", "cannot", "cannot");
  }

  /** Steps 1 to 3 of the formal chain applied to "won't". */
  lemma FormalWontPart1()
    ensures ReplaceWord("won't", "can't", "cannot") == "won't"
    ensures ReplaceWord("won't", "won't", "will not") == "will not"
    ensures ReplaceWord("will not", "don't", "do not") == "will not"
  {
    KeptWithout("won't", "can't", "cannot", 0);
    ReplaceWholeWord("won't", "will not");
    KeptWithout("will not", "don't", "do not", 0);
  }

  /** Steps 4 to 6 of the formal chain applied to "won't". */
  lemma FormalWontPart2()
    ensures ReplaceWord("will not", "isn't", "is not") == "will not"
    ensures ReplaceWord("will not", "aren't", "are not") == "will not"
    ensures ReplaceWord("will not", "you", "one") == "will not"
  {
    KeptWithout("will not", "isn't", "is not", 1);
    KeptWithout("will not", "aren't", "are not", 0);
    KeptWithout("will not", "you", "one", 0);
  }

  /** Step 7 of the formal chain applied to "won't". */
  lemma FormalWontPart3()
    ensures ReplaceWord("will not", "your", "one's") == "will not"
  {
    KeptWithout("will not", "your", "one's", 0);
  }

  lemma FormalWont()
    ensures Formal("won't") == "will not"
  {
    FormalWontPart1();
    FormalWontPart2();
    FormalWontPart3();
    FormalSteps("won't", "won't", "will not", "will not", "will not", "will not", "will not", "will not");
  }

  /** Steps 1 to 3 of the formal chain applied to "don't". */
  lemma FormalDontPart1()
    ensures ReplaceWord("don't", "can't", "cannot") == "don't"
    ensures ReplaceWord("don't", "won't", "will not") == "don't"
    ensures ReplaceWord("don't", "don't", "do not") == "do not"
  {
    KeptWithout("don't", "can't", "cannot", 0);
    KeptWithout("don't", "won't", "will not", 0);
    ReplaceWholeWord("don't", "do not");
  }

  /** Steps 4 to 6 of the formal chain applied to "don't". */
  lemma FormalDontPart2()
    ensures ReplaceWord("do not", "isn't", "is not") == "do not"
    ensures ReplaceWord("do not", "aren't", "are not") == "do not"
    ensures ReplaceWord("do not", "you", "one") == "do not"
  {
    KeptWithout("do not", "isn't", "is not", 0);
    KeptWithout("do not", "aren't", "are not", 0);
    KeptWithout("do not", "you", "one", 0);
  }

  /** Step 7 of the formal chain applied to "don't". */
  lemma FormalDontPart3()
    ensures ReplaceWord("do not", "your", "one's") == "do not"
  {
    KeptWithout("do not", "your", "one's", 0);
  }

  lemma FormalDont()
    ensures Formal("don't") == "do not"
  {
    FormalDontPart1();
    FormalDontPart2();
    FormalDontPart3();
    FormalSteps("don't", "don't", "don't", "do not", "do not", "do not", "do not", "do not");
  }

  /** Steps 1 to 3 of the formal chain applied to "isn't". */
  lemma FormalIsntPart1()
    ensures ReplaceWord("isn't", "can't", "cannot") == "isn't"
    ensures ReplaceWord("isn't", "won't", "will not") == "isn't"
    ensures ReplaceWord("isn't", "don't", "do not") == "isn't"
  {
    KeptWithout("isn't", "can't", "cannot", 0);
    KeptWithout("isn't", "won't", "will not", 0);
    KeptWithout("isn't", "don't", "do not", 0);
  }

  /** Steps 4 to 6 of the formal chain applied to "isn't". */
  lemma FormalIsntPart2()
    ensures ReplaceWord("isn't", "isn't", "is not") == "is not"
    ensures ReplaceWord("is not", "aren't", "are not") == "is not"
    ensures ReplaceWord("is not", "you", "one") == "is not"
  {
    ReplaceWholeWord("isn't", "is not");
    KeptWithout("is not", "aren't", "are not", 0);
    KeptWithout("is not", "you", "one", 0);
  }

  /** Step 7 of the formal chain applied to "isn't". */
  lemma FormalIsntPart3()
    ensures ReplaceWord("is not", "your", "one's") == "is not"
  {
    KeptWithout("is not", "your", "one's", 0);
  }

  lemma FormalIsnt()
    ensures Formal("isn't") == "is not"
  {
    FormalIsntPart1();
    FormalIsntPart2();
    FormalIsntPart3();
    FormalSteps("isn't", "isn't", "isn't", "isn't", "is not", "is not", "is not", "is not");
  }

  /** Steps 1 to 3 of the formal chain applied to "aren't". */
  lemma FormalArentPart1()
    ensures ReplaceWord("aren't", "can't", "cannot") == "aren't"
    ensures ReplaceWord("aren't", "won't", "will not") == "aren't"
    ensures ReplaceWord("aren't", "don't", "do not") == "aren't"
  {
    KeptWithout("aren't", "can't", "cannot", 0);
    KeptWithout("aren't", "won't", "will not", 0);
    KeptWithout("aren't", "don't", "do not", 0);
  }

  /** Steps 4 to 6 of the formal chain applied to "aren't". */
  lemma FormalArentPart2()
    ensures ReplaceWord("aren't", "isn't", "is not") == "aren't"
    ensures ReplaceWord("aren't", "aren't", "are not") == "are not"
    ensures ReplaceWord("are not", "you", "one") == "are not"
  {
    KeptWithout("aren't", "isn't", "is not", 0);
    ReplaceWholeWord("aren't", "are not");
    KeptWithout("are not", "you", "one", 0);
  }

  /** Step 7 of the formal chain applied to "aren't". */
  lemma FormalArentPart3()
    ensures ReplaceWord("are not", "your", "one's") == "are not"
  {
    KeptWithout("are not", "your", "one's", 0);
  }

  lemma FormalArent()
    ensures Formal("aren't") == "are not"
  {
    FormalArentPart1();
    FormalArentPart2();
    FormalArentPart3();
    FormalSteps("aren't", "aren't", "aren't", "aren't", "aren't", "are not", "are not", "are not");
  }

  /** Steps 1 to 3 of the formal chain applied to "you". */
  lemma FormalYouPart1()
    ensures ReplaceWord("you", "can't", "cannot") == "you"
    ensures ReplaceWord("you", "won't", "will not") == "you"
    ensures ReplaceWord("you", "don't", "do not") == "you"
  {
    KeptWithout("you", "can't", "cannot", 0);
    KeptWithout("you", "won't", "will not", 0);
    KeptWithout("you", "don't", "do not", 0);
  }

  /** Steps 4 to 6 of the formal chain applied to "you". */
  lemma FormalYouPart2()
    ensures ReplaceWord("you", "isn't", "is not") == "you"
    ensures ReplaceWord("you", "aren't", "are not") == "you"
    ensures ReplaceWord("you", "you", "one") == "one"
  {
    KeptWithout("you", "isn't", "is not", 0);
    KeptWithout("you", "aren't", "are not", 0);
    ReplaceWholeWord("you", "one");
  }

  /** Step 7 of the formal chain applied to "you". */
  lemma FormalYouPart3()
    ensures ReplaceWord("one", "your", "one's") == "one"
  {
    KeptWithout("one", "your", "one's", 0);
  }

  lemma FormalYou()
    ensures Formal("you") == "one"
  {
    FormalYouPart1();
    FormalYouPart2();
    FormalYouPart3();
    FormalSteps("you", "you", "you", "you", "you", "you", "one", "one");
  }

  /** Steps 1 to 3 of the casual chain applied to "cannot". */
  lemma CasualCannotPart1()
    ensures ReplaceWord("cannot", "cannot", "can't") == "can't"
    ensures ReplaceWord("can't", "will not", "won't") == "can't"
    ensures ReplaceWord("can't", "do not", "don't") == "can't"
  {
    ReplaceWholeWord("cannot", "can't");
    KeptWithout("can't", "will not", "won't", 0);
    KeptWithout("can't", "do not", "don't", 0);
  }

  /** Steps 4 to 5 of the casual chain applied to "cannot". */
  lemma CasualCannotPart2()
    ensures ReplaceWord("can't", "is not", "isn't") == "can't"
    ensures ReplaceWord("can't", "are not", "aren't") == "can't"
  {
    KeptWithout("can't", "is not", "isn't", 0);
    KeptWithout("can't", "are not", "aren't", 1);
  }

  lemma CasualCannot()
    ensures Casual("cannot") == "can't"
  {
    CasualCannotPart1();
    CasualCannotPart2();
    CasualSteps("cannot", "can't", "can't", "can't", "can't", "can't");
  }

  /** Steps 1 to 3 of the casual chain applied to "will not". */
  lemma CasualWillNotPart1()
    ensures ReplaceWord("will not", "cannot", "can't") == "will not"
    ensures ReplaceWord("will not", "will not", "won't") == "won't"
    ensures ReplaceWord("won't", "do not", "don't") == "won't"
  {
    KeptWithout("will not", "cannot", "can't", 0);
    ReplaceWholeWord("will not", "won't");
    KeptWithout("won't", "do not", "don't", 0);
  }

  /** Steps 4 to 5 of the casual chain applied to "will not". */
  lemma CasualWillNotPart2()
    ensures ReplaceWord("won't", "is not", "isn't") == "won't"
    ensures ReplaceWord("won't", "are not", "aren't") == "won't"
  {
    KeptWithout("won't", "is not", "isn't", 0);
    KeptWithout("won't", "are not", "aren't", 0);
  }

  lemma CasualWillNot()
    ensures Casual("will not") == "won't"
  {
    CasualWillNotPart1();
    CasualWillNotPart2();
    CasualSteps("will not", "will not", "won't", "won't", "won't", "won't");
  }

  /** Steps 1 to 3 of the casual chain applied to "do not". */
  lemma CasualDoNotPart1()
    ensures ReplaceWord("do not", "cannot", "can't") == "do not"
    ensures ReplaceWord("do not", "will not", "won't") == "do not"
    ensures ReplaceWord("do not", "do not", "don't") == "don't"
  {
    KeptWithout("do not", "cannot", "can't", 0);
    KeptWithout("do not", "will not", "won't", 0);
    ReplaceWholeWord("do not", "don't");
  }

  /** Steps 4 to 5 of the casual chain applied to "do not". */
  lemma CasualDoNotPart2()
    ensures ReplaceWord("don't", "is not", "isn't") == "don't"
    ensures ReplaceWord("don't", "are not", "aren't") == "don't"
  {
    KeptWithout("don't", "is not", "isn't", 0);
    KeptWithout("don't", "are not", "aren't", 0);
  }

  lemma CasualDoNot()
    ensures Casual("do not") == "don't"
  {
    CasualDoNotPart1();
    CasualDoNotPart2();
    CasualSteps("do not", "do not", "do not", "don't", "don't", "don't");
  }

  /** Steps 1 to 3 of the casual chain applied to "is not". */
  lemma CasualIsNotPart1()
    ensures ReplaceWord("is not", "cannot", "can't") == "is not"
    ensures ReplaceWord("is not", "will not", "won't") == "is not"
    ensures ReplaceWord("is not", "do not", "don't") == "is not"
  {
    KeptWithout("is not", "cannot", "can't", 0);
    KeptWithout("is not", "will not", "won't", 0);
    KeptWithout("is not", "do not", "don't", 0);
  }

  /** Steps 4 to 5 of the casual chain applied to "is not". */
  lemma CasualIsNotPart2()
    ensures ReplaceWord("is not", "is not", "isn't") == "isn't"
    ensures ReplaceWord("isn't", "are not", "aren't") == "isn't"
  {
    ReplaceWholeWord("is not", "isn't");
    KeptWithout("isn't", "are not", "aren't", 0);
  }

  lemma CasualIsNot()
    ensures Casual("is not") == "isn't"
  {
    CasualIsNotPart1();
    CasualIsNotPart2();
    CasualSteps("is not", "is not", "is not", "is not", "isn't", "isn't");
  }

  /** Steps 1 to 3 of the casual chain applied to "are not". */
  lemma CasualAreNotPart1()
    ensures ReplaceWord("are not", "cannot", "can't") == "are not"
    ensures ReplaceWord("are not", "will not", "won't") == "are not"
    ensures ReplaceWord("are not", "do not", "don't") == "are not"
  {
    KeptWithout("are not", "cannot", "can't", 0);
    KeptWithout("are not", "will not", "won't", 0);
    KeptWithout("are not", "do not", "don't", 0);
  }

  /** Steps 4 to 5 of the casual chain applied to "are not". */
  lemma CasualAreNotPart2()
    ensures ReplaceWord("are not", "is not", "isn't") == "are not"
    ensures ReplaceWord("are not", "are not", "aren't") == "aren't"
  {
    KeptWithout("are not", "is not", "isn't", 0);
    ReplaceWholeWord("are not", "aren't");
  }

  lemma CasualAreNot()
    ensures Casual("are not") == "aren't"
  {
    CasualAreNotPart1();
    CasualAreNotPart2();
    CasualSteps("are not", "are not", "are not", "are not", "are not", "aren't");
  }



  /** `Math.ceil(n * 0.7)` in exact arithmetic. */
  function KeepCount(n: nat): (k: nat)
    ensures 10 * k >= 7 * n && 10 * (k - 1) < 7 * n
    ensures k <= n
    ensures n >= 1 ==> k >= 1
  {
    (7 * n + 9) / 10
  }

  /** The concise branch: the first ⌈7n/10⌉ non-blank sentences, untrimmed, joined. */
  function Concise(text: string): (r: string)
    ensures |r| >= 1 && r[|r| - 1] == '.'
  {
    var sentences := Text.NonBlank(Text.SplitRuns(text, Text.IsTerminator));
    Text.Join(sentences[..KeepCount(|sentences|)], ". ") + "."
  }

  /**
   * What the concise rewrite keeps: a leading run `kept` of the text's non-blank sentences,
   * the least one holding at least 70% of them, each non-blank and free of terminators,
   * joined with ". " and closed with ".".
   */
  lemma ConciseKeepsLeadingSentences(text: string) returns (kept: seq<string>)
    ensures var sentences := Text.NonBlank(Text.SplitRuns(text, Text.IsTerminator));
            |kept| <= |sentences| && kept == sentences[..|kept|]
            && 10 * |kept| >= 7 * |sentences| && 10 * (|kept| - 1) < 7 * |sentences|
            && (|sentences| >= 1 ==> |kept| >= 1)
    ensures forall k :: 0 <= k < |kept| ==> Text.IsNonBlank(kept[k])
    ensures forall k, j :: 0 <= k < |kept| && 0 <= j < |kept[k]| ==> !Text.IsTerminator(kept[k][j])
    ensures Concise(text) == Text.Join(kept, ". ") + "."
  {
    var pieces := Text.SplitRuns(text, Text.IsTerminator);
    var sentences := Text.NonBlank(pieces);
    kept := sentences[..KeepCount(|sentences|)];
    forall k | 0 <= k < |kept|
      ensures Text.IsNonBlank(kept[k]) && forall j :: 0 <= j < |kept[k]| ==> !Text.IsTerminator(kept[k][j])
    {
      assert kept[k] == sentences[k];
      assert sentences[k] in sentences;
      assert kept[k] in pieces;
    }
  }

  /** The enthusiastic branch: the text followed by a fixed sentence. */
  function Enthusiastic(text: string): (r: string)
    ensures |r| == |text| + |EnthusiasticSuffix|
    ensures r[..|text|] == text
  {
    text + EnthusiasticSuffix
  }

  /** The professional branch: a fixed prefix and the text in lower case. */
  function Professional(text: string): (r: string)
    ensures |r| == |ProfessionalPrefix| + |text|
    ensures r[..|ProfessionalPrefix|] == ProfessionalPrefix
    ensures forall k :: |ProfessionalPrefix| <= k < |r| ==>
              !Text.IsUpper(r[k]) && r[k] == Text.LowerChar(text[k - |ProfessionalPrefix|])
  {
    ProfessionalPrefix + Text.Lower(text)
  }

  /** The default branch: the instruction as given, then the unchanged text. */
  function Default(text: string, instruction: string): (r: string)
    ensures |r| == 19 + |instruction| + 3 + |text|
    ensures r[..19] == "[Refined based on \""
    ensures r[19..19 + |instruction|] == instruction
    ensures r[|r| - |text|..] == text
  {
    "[Refined based on \"" + instruction + "\"] " + text
  }

  datatype Branch = FormalBranch | CasualBranch | ConciseBranch | EnthusiasticBranch
                  | ProfessionalBranch | DefaultBranch

  /** The first keyword the lower-cased instruction contains decides the branch. */
  function BranchOf(instruction: string): Branch {
    var lower := Text.Lower(instruction);
    if Text.Contains(lower, "formal") then FormalBranch
    else if Text.Contains(lower, "casual") then CasualBranch
    else if Text.Contains(lower, "concise") then ConciseBranch
    else if Text.Contains(lower, "enthusiastic") then EnthusiasticBranch
    else if Text.Contains(lower, "professional") then ProfessionalBranch
    else DefaultBranch
  }

  /** The keywords, in the order they are tried. */
  const Keywords: seq<string> := ["formal", "casual", "concise", "enthusiastic", "professional"]

  /** The branch of the `k`-th keyword. */
  function KeywordBranch(k: nat): Branch
    requires k < 5
  {
    [FormalBranch, CasualBranch, ConciseBranch, EnthusiasticBranch, ProfessionalBranch][k]
  }

  /**
   * First match wins: the branch is the `k`-th keyword's exactly when the instruction
   * contains that keyword and none before it, and the default when it contains none.
   */
  lemma BranchOfFirstMatch(instruction: string)
    ensures forall k :: 0 <= k < 5 ==>
              (BranchOf(instruction) == KeywordBranch(k)
               <==> Text.Contains(Text.Lower(instruction), Keywords[k])
                    && forall j :: 0 <= j < k ==> !Text.Contains(Text.Lower(instruction), Keywords[j]))
    ensures BranchOf(instruction) == DefaultBranch
            <==> forall j :: 0 <= j < 5 ==> !Text.Contains(Text.Lower(instruction), Keywords[j])
  {
    assert Keywords[0] == "formal" && Keywords[1] == "casual" && Keywords[2] == "concise";
    assert Keywords[3] == "enthusiastic" && Keywords[4] == "professional";
  }

  /** "informal" contains "formal", so it selects the formal rewrite. */
  lemma InformalIsFormal()
    ensures BranchOf("informal") == FormalBranch
    ensures BranchOf("Make it FORMAL") == FormalBranch
  {
    assert Text.Lower("informal") == "informal";
    assert Text.OccursAt("informal", "formal", 2);
    var lower := Text.Lower("Make it FORMAL");
    assert lower[8..14] == "formal";
    assert Text.OccursAt(lower, "formal", 8);
  }

  /** `generateFallbackRefinement`. */
  function FallbackRefinement(text: string, instruction: string): string {
    match BranchOf(instruction)
    case FormalBranch => Formal(text)
    case CasualBranch => Casual(text)
    case ConciseBranch => Concise(text)
    case EnthusiasticBranch => Enthusiastic(text)
    case ProfessionalBranch => Professional(text)
    case DefaultBranch => Default(text, instruction)
  }

  /**
   * The `POST` handler. `request` holds the `text` and `instruction` fields, None when
   * the body is not JSON or is `null`; any other body that is not an object has every
   * field `Missing`. `backend` is the backend's data when its call succeeds.
   */
  function Post<D>(request: Option<(Field, Field)>, backend: Option<D>): Response<D> {
    if request.None? then BadBody()
    else
      var (text, instruction) := request.value;
      if !IsGiven(text) then Failure(400, MissingText)
      else if !IsGiven(instruction) then Failure(400, MissingInstruction)
      else if backend.Some? then Forwarded(backend.value)
      else Fallback(FallbackRefinement(text.s, instruction.s), FallbackSource, FallbackMessage)
  }

  /** `text` is checked before `instruction`; valid requests are forwarded or fall back. */
  lemma PostSpec<D>(text: Field, instruction: Field, backend: Option<D>)
    ensures !IsGiven(text) ==> Post(Some((text, instruction)), backend) == Failure(400, "Text is required")
    ensures IsGiven(text) && !IsGiven(instruction) ==>
              Post(Some((text, instruction)), backend) == Failure(400, "Instruction is required")
    ensures IsGiven(text) && IsGiven(instruction) && backend.Some? ==>
              Post(Some((text, instruction)), backend) == Forwarded(backend.value)
    ensures IsGiven(text) && IsGiven(instruction) && backend.None? ==>
              Post(Some((text, instruction)), backend).Fallback?
              && Post(Some((text, instruction)), backend).source == "fallback"
              && Post(Some((text, instruction)), backend).result == FallbackRefinement(text.s, instruction.s)
    ensures Post<D>(None, backend) == Failure(500, "Internal server error")
  {
  }
}
