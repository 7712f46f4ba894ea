/**
 The weak-password detector `looksCommon`. It lowercases the input, reports
 "common" when the lowercased text includes one of nine well-known weak
 passwords, and then runs a repeated-character regular expression whose text
 is only partly known: `^(.)\1{5` followed by an unseen closing. Everything
 after that point in the detector is unseen too.

 The model therefore returns a three-way honest answer: `Common` when the
 visible part of the detector certainly returns true, and `Undetermined`
 when the answer depends on the unseen remainder.
 */
module CommonPatterns {
  import opened CharClasses
  import opened Casing
  import opened Substrings

  /** The denylist, in the detector's order. */
  const CommonWords: seq<string> :=
    ["password", "qwerty", "123456", "12345678", "111111", "admin", "letmein", "iloveyou", "welcome"]

  /** `words.some(w => text.includes(w))`: scan the words from the first. */
  function SomeIncluded(text: string, words: seq<string>): (r: bool)
    ensures r <==> exists j :: 0 <= j < |words| && Includes(text, words[j])
  {
    if |words| == 0 then false
    else if Includes(text, words[0]) then true
    else
      var rest := SomeIncluded(text, words[1..]);
      assert forall j :: 1 <= j < |words| ==> words[j] == words[1..][j - 1];
      rest
  }

  /** The first check of the detector: the lowercased input includes a
      denylist word. */
  function DenylistHit(s: string): (r: bool)
    ensures r <==> exists j :: 0 <= j < |CommonWords| && Includes(LowerAscii(s), CommonWords[j])
  {
    SomeIncluded(LowerAscii(s), CommonWords)
  }

  // ---------- The repeated-character test ----------

  /** A character the regular-expression `.` matches without the `s` and `u`
      flags: one UTF-16 code unit that is not a line terminator. */
  predicate RegexDot(c: char)
  {
    c != '\n' && c != '\r' && c != '\U{2028}' && c != '\U{2029}' && c as int < 0x1_0000
  }

  /** The closings of `^(.)\1{5` the detector is read with: `{5}`, `{5,}` and
      `{5,}$`. */
  datatype Closing = Exactly | AtLeast | AtLeastToEnd

  /** The string the unseen test may be applied to: the input or its
      lowercasing. */
  datatype Subject = Original | Lowered

  function SubjectText(sub: Subject, s: string): string
  {
    match sub
    case Original => s
    case Lowered => LowerAscii(s)
  }

  /** The first `n` characters are copies of one `.`-character: the text
      `^(.)\1{n-1}` matches. */
  predicate RunOfLen(x: string, n: int)
  {
    1 <= n <= |x| && RegexDot(x[0]) && forall i :: 0 <= i < n ==> x[i] == x[0]
  }

  /** Six leading copies of one `.`-character. */
  predicate RunAtStart(x: string)
  {
    |x| >= 6 && RegexDot(x[0]) && forall i :: 0 <= i < 6 ==> x[i] == x[0]
  }

  /** The whole string is six or more copies of one `.`-character. */
  predicate WholeRun(x: string)
  {
    |x| >= 6 && RegexDot(x[0]) && forall i :: 0 <= i < |x| ==> x[i] == x[0]
  }

  /** The repeated-character test under one reading of its closing, each
      defined by what the regular expression matches: `{5}` a run of exactly
      six at the start, `{5,}` a run of some length of at least six at the
      start, `{5,}$` a run of at least six that reaches the end. The two
      unanchored readings succeed on the same strings, and every reading
      needs six leading copies. */
  function RepeatFires(k: Closing, x: string): (r: bool)
    ensures k != AtLeastToEnd ==> (r <==> RunAtStart(x))
    ensures k == AtLeastToEnd ==> (r <==> WholeRun(x))
    ensures r ==> RunAtStart(x)
  {
    match k
    case Exactly => RunOfLen(x, 6)
    case AtLeast =>
      var found := exists n :: 6 <= n <= |x| && RunOfLen(x, n);
      assert RunAtStart(x) ==> RunOfLen(x, 6);
      found
    case AtLeastToEnd => |x| >= 6 && RunOfLen(x, |x|)
  }

  /** The repeated-character test fires on the input under every admitted
      reading: the three closings, applied to the input or to its
      lowercasing. */
  predicate RepeatFiresUnderEveryReading(s: string)
  {
    forall k, sub :: RepeatFires(k, SubjectText(sub, s))
  }

  /** Lowercasing a whole run gives a whole run: every character is mapped
      the same way, and `LowerChar` keeps `.`-characters. */
  lemma WholeRunLowered(x: string)
    requires WholeRun(x)
    ensures WholeRun(LowerAscii(x))
  {
  }

  /** Being flagged by the repeated-character test under every reading is
      the same as the input being one whole run. */
  lemma RepeatSafeReading(s: string)
    ensures RepeatFiresUnderEveryReading(s) <==> WholeRun(s)
  {
    if WholeRun(s) {
      WholeRunLowered(s);
      forall k, sub
        ensures RepeatFires(k, SubjectText(sub, s))
      {
        var x := SubjectText(sub, s);
        assert WholeRun(x);
        assert forall i :: 0 <= i < 6 ==> x[i] == x[0];
      }
    }
    if RepeatFiresUnderEveryReading(s) {
      assert RepeatFires(AtLeastToEnd, SubjectText(Original, s));
    }
  }

  // ---------- The detector ----------

  /** What the visible part of the detector decides. */
  datatype Verdict = Common | Undetermined

  /** `looksCommon`: the denylist check first, then the repeated-character
      test, which flags a whole run under every reading of its closing. */
  function LooksCommon(s: string): (v: Verdict)
    ensures v == Common <==> DenylistHit(s) || RepeatFiresUnderEveryReading(s)
  {
    RepeatSafeReading(s);
    if DenylistHit(s) then Common
    else if WholeRun(s) then Common
    else Undetermined
  }

  /** The denylist verdict depends only on the lowercased input: inputs that
      differ only in ASCII letter case get the same verdict. */
  lemma DenylistCaseInsensitive(a: string, b: string)
    requires SameUpToCase(a, b)
    ensures DenylistHit(a) == DenylistHit(b)
  {
    SameUpToCaseIffLowerEqual(a, b);
  }

  /** Any casing of a denylist word, whatever surrounds it, is flagged. */
  lemma DenylistWordSurrounded(p: string, m: string, q: string, j: int)
    requires 0 <= j < |CommonWords| && LowerAscii(m) == CommonWords[j]
    ensures DenylistHit(p + m + q)
    ensures LooksCommon(p + m + q) == Common
  {
    LowerAsciiConcat(p + m, q);
    LowerAsciiConcat(p, m);
    IncludedWhenSurrounded(LowerAscii(p), CommonWords[j], LowerAscii(q));
  }

  /** Every denylist word is already in lowercase, so comparing it with the
      lowercased input is a case-insensitive comparison. */
  lemma DenylistWordsLowercase()
    ensures |CommonWords| == 9
    ensures forall j :: 0 <= j < |CommonWords| ==> |CommonWords[j]| > 0 && !HasUpper(CommonWords[j])
    ensures forall j :: 0 <= j < |CommonWords| ==> LowerAscii(CommonWords[j]) == CommonWords[j]
  {
    forall j | 0 <= j < |CommonWords|
      ensures !HasUpper(CommonWords[j])
    {
      var w := CommonWords[j];
      assert forall i :: 0 <= i < |w| ==> !IsUpper(w[i]);
    }
  }

  /** A case variant of a denylist word, whatever surrounds it, is flagged. */
  lemma DenylistWordAnyCase(p: string, m: string, q: string, j: int)
    requires 0 <= j < |CommonWords| && SameUpToCase(m, CommonWords[j])
    ensures DenylistHit(p + m + q)
    ensures LooksCommon(p + m + q) == Common
  {
    SameUpToCaseIffLowerEqual(m, CommonWords[j]);
    DenylistWordsLowercase();
    DenylistWordSurrounded(p, m, q, j);
  }

  /** "xxPaSsWoRdyy" is flagged: "PaSsWoRd" lowercases to "password". */
  lemma MixedCasePasswordFlagged()
    ensures LooksCommon("xxPaSsWoRdyy") == Common
  {
    assert LowerAscii("PaSsWoRd") == CommonWords[0];
    DenylistWordSurrounded("xx", "PaSsWoRd", "yy", 0);
    assert "xx" + "PaSsWoRd" + "yy" == "xxPaSsWoRdyy";
  }

  /** The entry "12345678" is redundant: every text including it includes
      "123456", so dropping it from the list changes no verdict. */
  lemma LongDigitRunRedundant(text: string)
    ensures Includes(text, "12345678") ==> Includes(text, "123456")
    ensures SomeIncluded(text, CommonWords) == SomeIncluded(text, CommonWords[..3] + CommonWords[4..])
  {
    var shorter := CommonWords[..3] + CommonWords[4..];
    assert OccursAt("12345678", "123456", 0);
    if Includes(text, "12345678") {
      IncludesTransitive(text, "12345678", "123456");
    }
    if SomeIncluded(text, CommonWords) {
      var j :| 0 <= j < |CommonWords| && Includes(text, CommonWords[j]);
      if j < 3 {
        assert shorter[j] == CommonWords[j];
      } else if j == 3 {
        assert shorter[2] == "123456";
      } else {
        assert shorter[j - 1] == CommonWords[j];
      }
    }
    if SomeIncluded(text, shorter) {
      var j :| 0 <= j < |shorter| && Includes(text, shorter[j]);
      if j < 3 {
        assert shorter[j] == CommonWords[j];
      } else {
        assert shorter[j] == CommonWords[j + 1];
      }
    }
  }

  /** A string of six or more copies of one `.`-character is flagged, and
      the repeated-character test fires on it under every admitted reading. */
  lemma UniformRunFlagged(c: char, n: nat)
    requires n >= 6 && RegexDot(c)
    ensures RepeatFiresUnderEveryReading(seq(n, _ => c))
    ensures LooksCommon(seq(n, _ => c)) == Common
  {
  }

  /** "aaaaaaa" (seven copies of 'a') is flagged. */
  lemma SevenAsFlagged()
    ensures LooksCommon("aaaaaaa") == Common
  {
    UniformRunFlagged('a', 7);
    assert seq(7, _ => 'a') == "aaaaaaa";
  }

  /** None of the six alphabetic denylist words occurs in "abcxyz123": each
      has a letter the sample lacks. The sample is a parameter fixed by the
      requires, so that the solver reasons about it through the lemmas called
      here instead of unfolding `Includes` on literals. */
  lemma NoLetterWordInSample(t: string)
    requires t == "abcxyz123"
    ensures forall j :: j in {0, 1, 5, 6, 7, 8} ==> !Includes(t, CommonWords[j])
  {
    assert t == ['a', 'b', 'c', 'x', 'y', 'z', '1', '2', '3'];
    MissingCharNotIncluded(t, CommonWords[0], 0);
    MissingCharNotIncluded(t, CommonWords[1], 0);
    MissingCharNotIncluded(t, CommonWords[5], 1);
    MissingCharNotIncluded(t, CommonWords[6], 0);
    MissingCharNotIncluded(t, CommonWords[7], 0);
    MissingCharNotIncluded(t, CommonWords[8], 0);
  }

  /** None of the three numeric denylist words occurs in "abcxyz123": the
      sample has no '4', and its only '1' is too late for six of them. */
  lemma NoDigitWordInSample(t: string)
    requires t == "abcxyz123"
    ensures forall j :: 2 <= j <= 4 ==> !Includes(t, CommonWords[j])
  {
    assert CommonWords[2][3] == CommonWords[3][3] == '4';
    assert forall i :: 0 <= i < |t| ==> t[i] != '4' by {
      assert t == ['a', 'b', 'c', 'x', 'y', 'z', '1', '2', '3'];
    }
    MissingCharNotIncluded(t, CommonWords[2], 3);
    MissingCharNotIncluded(t, CommonWords[3], 3);
    forall i | OccursAt(t, CommonWords[4], i)
      ensures false
    {
      OccursAtFirstChar(t, CommonWords[4], i);
    }
  }

  /** No denylist word occurs in "abcxyz123". */
  lemma NoWordInSample(t: string)
    requires t == "abcxyz123"
    ensures !SomeIncluded(t, CommonWords)
  {
    NoLetterWordInSample(t);
    NoDigitWordInSample(t);
    forall j | 0 <= j < |CommonWords|
      ensures !Includes(t, CommonWords[j])
    {
      if 2 <= j <= 4 {
      } else {
        assert j in {0, 1, 5, 6, 7, 8};
      }
    }
  }

  /** Lowercasing "abcXYZ123" touches only the three capitals. */
  lemma LowerSample()
    ensures LowerAscii("abcXYZ123") == "abcxyz123"
  {
  }

  /** "abcXYZ123" includes no denylist word and is not a run, so the visible
      part of the detector does not flag it. */
  lemma MixedStringNotFlaggedByVisiblePart()
    ensures !DenylistHit("abcXYZ123")
    ensures LooksCommon("abcXYZ123") == Undetermined
  {
    LowerSample();
    NoWordInSample("abcxyz123");
    assert !WholeRun("abcXYZ123") by {
      assert "abcXYZ123"[1] != "abcXYZ123"[0];
    }
    RepeatSafeReading("abcXYZ123");
  }
}
