/**
 * The text the GUI shows for a disc prompt: a leading "Next up:" dropped,
 * "Insert:" turned into "Please insert:", and every "press enter" (any case,
 * any blanks between the words, whole words only) turned into a hint to the
 * Continue button.
 */
module PromptFormat {

  import opened Text
  import LogPatterns

  const Replacement: string := "Click Continue (or press Enter)"

  /**
   * The length of a match of `press\s+enter\b` (case-insensitive) at the
   * start of s, or 0. Giving back blanks never helps, since "enter" cannot
   * start with a blank, so the blanks are taken greedily.
   */
  function PressEnterLen(s: string): (n: nat)
    ensures n == 0 || (11 <= n <= |s| && CiStartsWith(s, "press") && CiStartsWith(s[n - 5..], "enter"))
    ensures n > 0 ==> n == |s| || !IsWordChar(s[n])
  {
    if !CiStartsWith(s, "press") then 0
    else
      var t := LStrip(s[5..]);
      var blanks := |s| - 5 - |t|;
      if blanks == 0 || !CiStartsWith(t, "enter") then 0
      else if |t| > 5 && IsWordChar(t[5]) then 0
      else
        assert s[10 + blanks..] == t[5..];
        assert s[5 + blanks..] == t;
        10 + blanks
  }

  /**
   * re.sub(r"\bpress\s+enter\b", Replacement, s, flags=re.I): scanning left
   * to right, replacing each match and resuming after it. afterWord says
   * whether the character before s is a word character (the `\b` before
   * "press").
   */
  function SubPressEnter(s: string, afterWord: bool): string
    decreases |s|
  {
    if s == [] then []
    else if !afterWord && PressEnterLen(s) > 0 then
      Replacement + SubPressEnter(s[PressEnterLen(s)..], true)
    else [s[0]] + SubPressEnter(s[1..], IsWordChar(s[0]))
  }

  /** One step of the scan where no match starts: the character is copied. */
  lemma SubCopies(s: string, afterWord: bool)
    requires s != [] && (afterWord || PressEnterLen(s) == 0)
    ensures SubPressEnter(s, afterWord) == [s[0]] + SubPressEnter(s[1..], IsWordChar(s[0]))
  {
  }

  /** One step of the scan at a match: the replacement, then the rest after the match. */
  lemma SubReplaces(s: string)
    requires PressEnterLen(s) > 0
    ensures SubPressEnter(s, false) == Replacement + SubPressEnter(s[PressEnterLen(s)..], true)
  {
  }

  /**
   * No match can start in s: a 'p' at a word boundary is followed, inside
   * s, by something other than 'r'.
   */
  predicate Quiet(s: string, afterWord: bool)
  {
    && (s != [] && LowerChar(s[0]) == 'p' && !afterWord ==> |s| > 1 && LowerChar(s[1]) != 'r')
    && forall i | 1 <= i < |s| :: LowerChar(s[i]) == 'p' && !IsWordChar(s[i - 1]) ==> i + 1 < |s| && LowerChar(s[i + 1]) != 'r'
  }

  /** The word flag after reading s. */
  function WordAfter(s: string, afterWord: bool): bool
  {
    if s == [] then afterWord else IsWordChar(s[|s| - 1])
  }

  /** A stretch in which no match can start is copied unchanged. */
  lemma {:induction false} SubQuietPrefix(a: string, b: string, afterWord: bool)
    requires Quiet(a, afterWord)
    ensures SubPressEnter(a + b, afterWord) == a + SubPressEnter(b, WordAfter(a, afterWord))
    decreases |a|
  {
    if a != [] {
      var s := a + b;
      assert s[0] == a[0] && s[1..] == a[1..] + b;
      if !afterWord && LowerChar(s[0]) == 'p' {
        assert s[1] == a[1];
        assert !CiStartsWith(s, "press");
      }
      SubCopies(s, afterWord);
      assert Quiet(a[1..], IsWordChar(a[0])) by {
        forall i | 1 <= i < |a[1..]| && LowerChar(a[1..][i]) == 'p' && !IsWordChar(a[1..][i - 1])
          ensures i + 1 < |a[1..]| && LowerChar(a[1..][i + 1]) != 'r'
        {
          assert a[1..][i] == a[i + 1] && a[1..][i - 1] == a[i];
        }
        if |a| > 1 {
          assert a[1..][0] == a[1];
          assert |a| > 2 ==> a[1..][1] == a[2];
        }
      }
      SubQuietPrefix(a[1..], b, IsWordChar(a[0]));
      assert WordAfter(a[1..], IsWordChar(a[0])) == WordAfter(a, afterWord);
      ConsAppend(a, SubPressEnter(b, WordAfter(a, afterWord)));
    } else {
      assert a + b == b;
    }
  }

  lemma ConsAppend(a: string, t: string)
    requires a != []
    ensures [a[0]] + (a[1..] + t) == a + t
  {
    assert a == [a[0]] + a[1..];
  }

  /** Text in which no match starts comes through the substitution unchanged. */
  lemma SubQuiet(s: string, afterWord: bool)
    requires Quiet(s, afterWord)
    ensures SubPressEnter(s, afterWord) == s
  {
    SubQuietPrefix(s, [], afterWord);
    assert s + [] == s;
  }

  /** "press", blanks, "enter" (in any case) and then no word character: a match of that length. */
  lemma PressEnterLenOf(s: string, blanks: nat)
    requires CiStartsWith(s, "press") && 5 + blanks <= |s| && blanks > 0
    requires forall i | 5 <= i < 5 + blanks :: IsSpace(s[i])
    requires CiStartsWith(s[5 + blanks..], "enter")
    requires |s| == 10 + blanks || !IsWordChar(s[10 + blanks])
    ensures PressEnterLen(s) == 10 + blanks
  {
    var u := s[5..];
    assert u[blanks..] == s[5 + blanks..];
    LStripSpaces(u[..blanks], u[blanks..]);
    assert u == u[..blanks] + u[blanks..];
  }

  /** A whole-word "press" + blanks + "enter" at a word boundary is replaced. */
  lemma SubReplacesMatch(blanks: string, rest: string)
    requires blanks != [] && forall i | 0 <= i < |blanks| :: IsSpace(blanks[i])
    requires rest == [] || !IsWordChar(rest[0])
    ensures SubPressEnter("press" + blanks + "enter" + rest, false) == Replacement + SubPressEnter(rest, true)
  {
    var s := "press" + blanks + "enter" + rest;
    assert s[5 + |blanks|..] == "enter" + rest;
    assert forall i | 5 <= i < 5 + |blanks| :: s[i] == blanks[i - 5];
    assert s[10 + |blanks|..] == rest;
    PressEnterLenOf(s, |blanks|);
    SubReplaces(s);
  }

  lemma {:induction false} LStripSpaces(blanks: string, t: string)
    requires forall i | 0 <= i < |blanks| :: IsSpace(blanks[i])
    requires t != [] && !IsSpace(t[0])
    ensures LStrip(blanks + t) == t
    decreases |blanks|
  {
    if blanks == [] {
      assert blanks + t == t;
    } else {
      assert (blanks + t)[1..] == blanks[1..] + t;
      LStripSpaces(blanks[1..], t);
    }
  }

  /** A leading "Next up:" (any case) and the blanks after it are dropped. */
  function DropNextUp(shown: string): (r: string)
  {
    if CiStartsWith(shown, "next up:") then Strip(shown[8..]) else shown
  }

  const Polite: string := "Please insert:"

  /** A leading "Insert:" becomes "Please insert:". */
  function PleaseInsert(shown: string): (r: string)
    ensures StartsWith(shown, "Insert:") ==> r == Polite + shown[7..]
    ensures !StartsWith(shown, "Insert:") ==> r == shown
  {
    if StartsWith(shown, "Insert:") then
      assert shown[..7] == "Insert:";
      assert shown == [shown[0]] + shown[1..] && shown[1..] == "nsert:" + shown[7..];
      "Please " + [LowerChar(shown[0])] + shown[1..]
    else shown
  }

  /** _format_disc_prompt. */
  function FormatDiscPrompt(raw: string): string
  {
    SubPressEnter(PleaseInsert(DropNextUp(Strip(raw))), false)
  }

  /** Stripping never removes a prefix that starts and ends with non-blanks. */
  lemma StripKeepsPrefix(s: string, p: string)
    requires StartsWith(s, p) && p != [] && !IsSpace(p[0]) && !IsSpace(p[|p| - 1])
    ensures StartsWith(Strip(s), p)
  {
    LStripNoSpace(s);
    var r := RStrip(s);
    assert |r| >= |p|;
    assert r[..|p|] == s[..|p|];
  }

  /** No match starts in "Please insert:": its 'P' is followed by 'l'. */
  lemma PoliteQuiet()
    ensures Quiet(Polite, false)
  {
    var rest := "lease insert:";
    NoPIsQuiet(rest, true);
    QuietCons('P', rest, false);
    assert Polite == ['P'] + rest;
  }

  /** "Please insert:" carries no match, so the substitution keeps it. */
  lemma PoliteKept(rest: string)
    ensures StartsWith(SubPressEnter(Polite + rest, false), Polite)
  {
    PoliteQuiet();
    SubQuietPrefix(Polite, rest, false);
    assert (Polite + SubPressEnter(rest, false))[..|Polite|] == Polite;
  }

  /** A prompt beginning "Insert:" is shown as "Please insert: …". */
  lemma InsertPromptShownPolitely(p: string)
    requires StartsWith(p, "Insert:")
    ensures StartsWith(FormatDiscPrompt(p), Polite)
  {
    StripKeepsPrefix(p, "Insert:");
    var shown := Strip(p);
    assert shown[0] == 'I';
    assert DropNextUp(shown) == shown;
    PoliteKept(shown[7..]);
  }

  /** A stretch with no 'p' in any case is one where no match can start. */
  lemma NoPIsQuiet(s: string, afterWord: bool)
    requires 'p' !in s && 'P' !in s
    ensures Quiet(s, afterWord)
  {
    assert forall i | 0 <= i < |s| :: LowerChar(s[i]) != 'p' by {
      forall i | 0 <= i < |s| ensures LowerChar(s[i]) != 'p' {
        assert s[i] in s;
      }
    }
  }

  /** "press", one blank, "enter" (each word in any case) and then no word character are replaced. */
  lemma SubReplacesWords(p: string, e: string, tail: string)
    requires |p| == 5 && CiStartsWith(p, "press") && |e| == 5 && CiStartsWith(e, "enter")
    requires tail == [] || !IsWordChar(tail[0])
    ensures SubPressEnter(p + " " + e + tail, false) == Replacement + SubPressEnter(tail, true)
  {
    var s := p + " " + e + tail;
    assert forall i | 0 <= i < 5 :: s[i] == p[i];
    assert s[5] == ' ';
    assert s[6..] == e + tail;
    assert forall i | 0 <= i < 5 :: s[6..][i] == e[i];
    assert s[11..] == tail;
    PressEnterLenOf(s, 1);
    SubReplaces(s);
  }

  /** No match starts in the server's closing words: their only 'p's follow letters. */
  lemma NextDiscTailQuiet()
    ensures Quiet(LogPatterns.NextDiscTail, true)
  {
    ToStartQuiet();
    RippingQuiet();
    QuietAppend(" to " + "start ", "ripping...", true);
  }

  lemma ToStartQuiet()
    ensures Quiet(" to " + "start ", true) && LowerChar((" to " + "start ")[|" to " + "start "| - 1]) != 'p'
    ensures !WordAfter(" to " + "start ", true)
  {
    NoPIsQuiet(" to ", true);
    NoPIsQuiet("start ", false);
    QuietAppend(" to ", "start ", true);
  }

  lemma RippingQuiet()
    ensures Quiet("ripping...", false)
  {
    var r := "ripping...";
    assert r[0] == 'r' && r[1] == 'i' && r[2] == 'p' && r[3] == 'p' && r[4] == 'i';
    assert forall i | 5 <= i < |r| :: LowerChar(r[i]) != 'p';
  }

  /** Quiet stretches joined where the first does not end in 'p' stay quiet. */
  lemma QuietAppend(a: string, b: string, afterWord: bool)
    requires Quiet(a, afterWord) && Quiet(b, WordAfter(a, afterWord))
    requires a != [] ==> LowerChar(a[|a| - 1]) != 'p'
    ensures Quiet(a + b, afterWord)
  {
    if a == [] {
      assert a + b == b;
    } else {
      var s := a + b;
      forall i | 1 <= i < |s| && LowerChar(s[i]) == 'p' && !IsWordChar(s[i - 1])
        ensures i + 1 < |s| && LowerChar(s[i + 1]) != 'r'
      {
        if i + 1 < |a| {
          assert s[i] == a[i] && s[i - 1] == a[i - 1] && s[i + 1] == a[i + 1];
        } else if i == |a| {
          assert s[i] == b[0] && s[i - 1] == a[|a| - 1];
          assert |b| > 1 && s[i + 1] == b[1];
        } else {
          assert i > |a|;
          assert s[i] == b[i - |a|] && s[i - 1] == b[i - |a| - 1];
          assert i - |a| + 1 < |b| && s[i + 1] == b[i - |a| + 1];
        }
      }
      assert s[0] == a[0];
      assert |a| > 1 ==> s[1] == a[1];
    }
  }

  /** A character, then a quiet stretch: quiet unless it is a 'p' at a boundary followed by 'r'. */
  lemma QuietCons(c: char, rest: string, afterWord: bool)
    requires Quiet(rest, IsWordChar(c))
    requires LowerChar(c) == 'p' && !afterWord ==> rest != [] && LowerChar(rest[0]) != 'r'
    ensures Quiet([c] + rest, afterWord)
  {
    var s := [c] + rest;
    forall i | 1 <= i < |s| && LowerChar(s[i]) == 'p' && !IsWordChar(s[i - 1])
      ensures i + 1 < |s| && LowerChar(s[i + 1]) != 'r'
    {
      assert s[i] == rest[i - 1] && s[i - 1] == if i == 1 then c else rest[i - 2];
      assert i + 1 < |s| ==> s[i + 1] == rest[i];
    }
  }

  lemma Regroup(a: string, b: string, c: string, d: string, e: string)
    ensures a + b + c + d + e == a + (b + c + d + e)
  {
  }

  lemma Regroup3(a: string, b: string, c: string)
    ensures a + (b + c) == a + b + c
  {
  }

  /** A prompt with nothing to strip, no "Next up:" and no "Insert:" is only substituted. */
  lemma PlainPromptSubstituted(text: string)
    requires text != [] && !IsSpace(text[0]) && !IsSpace(text[|text| - 1])
    requires LowerChar(text[0]) != 'n' && text[0] != 'I'
    ensures FormatDiscPrompt(text) == SubPressEnter(text, false)
  {
    StripUnchanged(text);
    CiHeadRulesOut(text, "next up:");
    HeadRulesOut(text, "Insert:");
  }

  /** The server's next-disc sentence has nothing to strip, no "Next up:" and no "Insert:". */
  lemma NextDiscOnlySubstituted()
    ensures FormatDiscPrompt(LogPatterns.NextDiscText) == SubPressEnter(LogPatterns.NextDiscText, false)
  {
    LogPatterns.NextDiscShape();
    PlainPromptSubstituted(LogPatterns.NextDiscText);
  }

  /** A quiet lead-in, "press Enter", and a quiet rest: only the two words are replaced. */
  lemma PressEnterBetween(lead: string, tail: string)
    requires Quiet(lead, false) && !WordAfter(lead, false)
    requires tail != [] && !IsWordChar(tail[0]) && Quiet(tail, true)
    ensures SubPressEnter(lead + "press" + " " + "Enter" + tail, false) == lead + Replacement + tail
  {
    LogPatterns.PressEnterWords();
    Regroup(lead, "press", " ", "Enter", tail);
    SubQuietPrefix(lead, "press" + " " + "Enter" + tail, false);
    SubReplacesWords("press", "Enter", tail);
    SubQuiet(tail, true);
    Regroup3(lead, Replacement, tail);
  }

  /**
   * A prompt made of a lead-in without 'p', "press Enter" and a quiet rest,
   * starting and ending with non-blanks other than 'n' and 'I': shown with
   * the Continue hint in place of the two words.
   */
  lemma ShownAround(lead: string, tail: string)
    requires lead != [] && 'p' !in lead && 'P' !in lead && !IsWordChar(lead[|lead| - 1])
    requires !IsSpace(lead[0]) && LowerChar(lead[0]) != 'n' && lead[0] != 'I'
    requires tail != [] && !IsWordChar(tail[0]) && Quiet(tail, true) && !IsSpace(tail[|tail| - 1])
    ensures FormatDiscPrompt(lead + "press" + " " + "Enter" + tail) == lead + Replacement + tail
  {
    var text := lead + "press" + " " + "Enter" + tail;
    assert text[0] == lead[0] && text[|text| - 1] == tail[|tail| - 1];
    PlainPromptSubstituted(text);
    NoPIsQuiet(lead, false);
    PressEnterBetween(lead, tail);
  }

  /** The server's next-disc sentence is shown with the Continue hint in place of "press Enter". */
  lemma NextDiscShown()
    ensures FormatDiscPrompt(LogPatterns.NextDiscText)
            == LogPatterns.NextDiscLead + Replacement + LogPatterns.NextDiscTail
  {
    LogPatterns.NextDiscShape();
    NextDiscTailQuiet();
    ShownAround(LogPatterns.NextDiscLead, LogPatterns.NextDiscTail);
  }
}
