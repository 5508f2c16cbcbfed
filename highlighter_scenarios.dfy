/** The highlighter on concrete inputs: the ranges `ExpectedRanges` gives,
    which is what `Highlighter.HighlightRanges` returns.  Each scenario is
    split into its stripped text, the scan's hits and the index mapping. */
module HighlighterScenarios {
  import opened Text
  import opened Highlighter

  // "new meeting today", "newmeeting"

  /** Removing the one space between two words joins them. */
  lemma {:induction false} TwoWordsStripped(s: string, a: string, b: string)
    requires s == a + [Space] + b && Space !in a && Space !in b
    ensures StripSpaces(s) == a + b
  {
    StripSpacesJoin(a, b);
    StripSpacesNoSpace(a);
  }

  lemma NewMeetingStripped()
    ensures StripSpaces("new meeting today") == "newmeetingtoday"
  {
    calc {
      StripSpaces("new meeting today");
      { assert "new meeting today" == "new meeting" + [Space] + "today"; }
      StripSpaces("new meeting" + [Space] + "today");
      { StripSpacesJoin("new meeting", "today"); }
      StripSpaces("new meeting") + "today";
      { TwoWordsStripped("new meeting", "new", "meeting"); }
      "newmeetingtoday";
    }
  }

  lemma NewMeetingHits()
    ensures MatchStarts("newmeetingtoday", "newmeeting", 0) == [0]
  {
    var s, q := "newmeetingtoday", "newmeeting";
    assert MatchesAt(s, q, 0);
    assert IndexOf(s, q, 0) == 0;
    assert IndexOf(s, q, 10) == -1;
  }

  lemma NewMeetingIndices()
    ensures |StripSpaces("new meeting today")| == 15
    ensures NthNonSpace("new meeting today", 0) == 0
    ensures NthNonSpace("new meeting today", 9) == 10
  {
    var t := "new meeting today";
    NewMeetingStripped();
    assert CountNonSpace(t, 10) == 9 by {
      assert CountNonSpace(t, 4) == 3;
      assert CountNonSpace(t, 7) == 6;
    }
    NthNonSpaceUnique(t, 0, 0);
    NthNonSpaceUnique(t, 9, 10);
  }

  /** A query typed without the text's space still finds it: "newmeeting"
      covers "new meeting", indices 0 up to 11 (exclusive). */
  lemma NewMeeting()
    ensures ExpectedRanges("new meeting today", "newmeeting") == [(0, 11)]
  {
    NewMeetingStripped();
    NewMeetingHits();
    NewMeetingIndices();
  }

  // "Buy Milk", "milk"

  lemma BuyMilkHits()
    ensures MatchStarts("BuyMilk", "milk", 0) == [3]
  {
    var s := "BuyMilk";
    assert !MatchesAt(s, "milk", 0);
    assert !MatchesAt(s, "milk", 1);
    assert !MatchesAt(s, "milk", 2);
    assert MatchesAt(s, "milk", 3);
    assert IndexOf(s, "milk", 0) == 3;
  }

  lemma BuyMilkIndices()
    ensures StripSpaces("Buy Milk") == "BuyMilk"
    ensures NthNonSpace("Buy Milk", 3) == 4
    ensures NthNonSpace("Buy Milk", 6) == 7
  {
    var t := "Buy Milk";
    TwoWordsStripped("Buy Milk", "Buy", "Milk");
    assert CountNonSpace(t, 4) == 3;
    assert CountNonSpace(t, 7) == 6;
    NthNonSpaceUnique(t, 3, 4);
    NthNonSpaceUnique(t, 6, 7);
  }

  /** Matching ignores case: "milk" covers "Milk". */
  lemma BuyMilk()
    ensures ExpectedRanges("Buy Milk", "milk") == [(4, 8)]
  {
    BuyMilkHits();
    BuyMilkIndices();
  }

  // "abc abc", "abc"

  lemma TwoOccurrencesHits()
    ensures MatchStarts("abcabc", "abc", 0) == [0, 3]
  {
    var s := "abcabc";
    assert MatchesAt(s, "abc", 0);
    assert IndexOf(s, "abc", 0) == 0;
    assert MatchesAt(s, "abc", 3);
    assert IndexOf(s, "abc", 3) == 3;
  }

  lemma TwoOccurrencesIndices()
    ensures StripSpaces("abc abc") == "abcabc"
    ensures NthNonSpace("abc abc", 0) == 0 && NthNonSpace("abc abc", 2) == 2
    ensures NthNonSpace("abc abc", 3) == 4 && NthNonSpace("abc abc", 5) == 6
  {
    var t := "abc abc";
    TwoWordsStripped("abc abc", "abc", "abc");
    assert CountNonSpace(t, 2) == 2;
    assert CountNonSpace(t, 4) == 3;
    assert CountNonSpace(t, 6) == 5;
    NthNonSpaceUnique(t, 0, 0);
    NthNonSpaceUnique(t, 2, 2);
    NthNonSpaceUnique(t, 3, 4);
    NthNonSpaceUnique(t, 5, 6);
  }

  /** Every occurrence is highlighted, each on its own. */
  lemma TwoOccurrences()
    ensures ExpectedRanges("abc abc", "abc") == [(0, 3), (4, 7)]
  {
    TwoOccurrencesHits();
    TwoOccurrencesIndices();
    var ps: seq<nat> := [0, 3];
    assert ps[1..] == [3];
  }

  /** No occurrence, no range. */
  lemma NoOccurrence()
    ensures ExpectedRanges("hello", "xyz") == []
  {
    var s := "hello";
    StripSpacesNoSpace(s);
    assert !MatchesAt(s, "xyz", 0);
    assert !MatchesAt(s, "xyz", 1);
    assert !MatchesAt(s, "xyz", 2);
    assert IndexOf(s, "xyz", 0) == -1;
  }

  /** A text of spaces only cannot hold a query. */
  lemma OnlySpaces()
    ensures ExpectedRanges("   ", "a") == []
  {
    assert StripSpaces("   ") == [];
  }
}
