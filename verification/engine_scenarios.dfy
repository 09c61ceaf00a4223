/**
 Worked sessions for the typing engine, stated as facts about concrete
 inputs.
 */
module EngineScenarios {

  import opened Options
  import opened Text
  import opened TypingEngine

  /** Typing "cat" for "cat": every character correct. */
  lemma PerfectWord()
    ensures Accuracy(Engine("cat", "cat", None, None)) == 100.0
    ensures Errors(Engine("cat", "cat", None, None)) == 0
    ensures CharStatus(Engine("cat", "cat", None, None))
            == [('c', Correct), ('a', Correct), ('t', Correct)]
  {
  }

  /** Typing "cot" for "cat": one error in the middle, two thirds accuracy. */
  lemma OneTypo()
    ensures Accuracy(Engine("cat", "cot", None, None)) == 200.0 / 3.0
    ensures Errors(Engine("cat", "cot", None, None)) == 1
    ensures CharStatus(Engine("cat", "cot", None, None))
            == [('c', Correct), ('a', Incorrect), ('t', Correct)]
  {
    var e := Engine("cat", "cot", None, None);
    assert CorrectChars(e) == 2;
  }

  /** Two typed words over thirty seconds is four words per minute, even
      though the second word is misspelt. */
  lemma HalfMinute(t0: real)
    requires t0 != 0.0 && t0 + 30.0 != 0.0
    ensures Wpm(Engine("hello world", "hello wrld", Some(t0), Some(t0 + 30.0))) == 4.0
  {
    TwoTypedWords();
    TwoWordsInThirtySeconds(Engine("hello world", "hello wrld", Some(t0), Some(t0 + 30.0)));
  }

  lemma TwoWordsInThirtySeconds(e: Engine)
    requires IsSet(e.startTime) && IsSet(e.endTime)
    requires e.endTime.value - e.startTime.value == 30.0
    requires |Words(e.input)| == 2
    ensures Wpm(e) == 4.0
  {
    assert Accounts(Wpm(e), 2, 30.0);
  }

  lemma TwoTypedWords()
    ensures |Words("hello wrld")| == 2
  {
    assert IsWord("hello") && IsWord("wrld");
    assert JoinWithSpace(["hello", "wrld"]) == "hello wrld";
    WordsOfJoin(["hello", "wrld"]);
  }

  /** Stopping after two of three words: the last word is reported as missed. */
  lemma StoppedEarly()
    ensures WordHistory(Engine("a b c", "a b", None, None)) ==
            [ WordEntry("a", "a", 100.0, true),
              WordEntry("b", "b", 100.0, true),
              WordEntry("c", "", 0.0, false) ]
  {
    ThreeTargetWords();
    TwoUserWords();
    var h := WordHistory(Engine("a b c", "a b", None, None));
    assert h[0] == WordEntry("a", "a", 100.0, true);
    assert h[1] == WordEntry("b", "b", 100.0, true);
    assert h[2] == WordEntry("c", "", 0.0, false);
  }

  lemma ThreeTargetWords()
    ensures Words("a b c") == ["a", "b", "c"]
  {
    assert IsWord("a") && IsWord("b") && IsWord("c");
    assert JoinWithSpace(["a", "b", "c"]) == "a b c";
    WordsOfJoin(["a", "b", "c"]);
  }

  lemma TwoUserWords()
    ensures Words("a b") == ["a", "b"]
  {
    assert IsWord("a") && IsWord("b");
    assert JoinWithSpace(["a", "b"]) == "a b";
    WordsOfJoin(["a", "b"]);
  }

  /** A tab separates tokens like a space does, and never splits a token:
      "ab\tc" is two words. */
  lemma TabSeparated()
    ensures Words("ab\tc") == ["ab", "c"]
  {
    assert IsWord("ab") && IsWord("c");
    assert JoinWithSpace(["ab"]) == "ab" && JoinWithSpace(["c"]) == "c";
    WordsOfJoin(["ab"]);
    WordsOfJoin(["c"]);
    assert IsBlank("\t");
    WordsSplitAtBlank("ab", "\t", "c");
    assert "ab" + "\t" + "c" == "ab\tc";
  }

  /** Typing past the end of a finished session changes nothing. */
  lemma TypingPastTheEnd(c: char)
    ensures AddCharacter(Engine("cat", "cat", None, None), c) == Engine("cat", "cat", None, None)
    ensures IsComplete(AddCharacter(Engine("cat", "cat", None, None), c))
  {
  }
}
