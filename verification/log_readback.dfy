/**
 * The lines the rip/encode server prints, read back by the GUI's parser:
 * each status line the server formats is classified as the event it
 * announces, provided the names it embeds do not themselves contain a
 * marker that an earlier pattern looks for.
 */
module LogReadBack {

  import opened Common
  import opened Text
  import opened LogPatterns
  import opened PromptFormat
  import opened ProgressParser
  import ScheduleCsv

  /** The digit run of a numeral followed by a non-digit is the numeral. */
  lemma {:induction false} DigitRunOf(d: string, rest: string)
    requires forall i | 0 <= i < |d| :: IsDigit(d[i])
    requires rest == [] || !IsDigit(rest[0])
    ensures DigitRun(d + rest) == |d|
    ensures (d + rest)[..|d|] == d
    decreases |d|
  {
    if d != [] {
      assert (d + rest)[1..] == d[1..] + rest;
      DigitRunOf(d[1..], rest);
    } else {
      assert d + rest == rest;
    }
  }

  /** A blank, then a name with no newline and something visible: the rest-of-line capture is the stripped name. */
  lemma RestOfBlankName(name: string)
    requires NoNewline(name) && Strip(name) != []
    ensures RestOfLine(" " + name) == Some(Strip(name))
  {
    var s := " " + name;
    assert s[1..] == name;
    assert LStrip(s) == LStrip(name);
    var t := LStrip(name);
    assert Strip(s) == RStrip(t) == Strip(name);
    assert t != [];
    NoNewlineSuffix(name, |name| - |t|);
  }

  /** A suffix of a text without newlines has none either. */
  lemma NoNewlineSuffix(s: string, k: nat)
    requires NoNewline(s) && k <= |s|
    ensures NoNewline(s[k..])
  {
    assert forall i | 0 <= i < |s| - k :: s[k..][i] == s[k + i];
  }

  /** A numeral followed by a non-digit: its digit run and its value. */
  lemma RunValueOf(d: string, rest: string)
    requires AllDigits(d)
    requires rest == [] || !IsDigit(rest[0])
    ensures DigitRun(d + rest) == |d| && RunValue(d + rest, |d|) == DigitsValue(d)
  {
    DigitRunOf(d, rest);
  }

  /** "q: name" gives back the total and the stripped name. */
  lemma TotalThenNameOf(b: string, name: string)
    requires AllDigits(b) && NoNewline(name) && Strip(name) != []
    ensures TotalThenName(b + (": " + name)) == Some((DigitsValue(b), Strip(name)))
  {
    var w := b + (": " + name);
    TotalThenColon(b, ": " + name);
    NameAfterColon(b, name);
    TotalThenNameSome(w, |b|, DigitsValue(b), Strip(name));
  }

  /** A numeral followed by a colon: its run, its value and the colon after it. */
  lemma TotalThenColon(b: string, rest: string)
    requires AllDigits(b) && rest != [] && rest[0] == ':'
    ensures 0 < |b| < |b + rest| && DigitRun(b + rest) == |b| && RunValue(b + rest, |b|) == DigitsValue(b)
    ensures (b + rest)[|b|] == ':'
  {
    RunValueOf(b, rest);
  }

  /** After "b:" comes " name", whose rest-of-line capture is the stripped name. */
  lemma NameAfterColon(b: string, name: string)
    requires NoNewline(name) && Strip(name) != []
    ensures |b| + 1 <= |b + (": " + name)|
    ensures RestOfLine((b + (": " + name))[|b| + 1..]).Some?
    ensures RestOfLine((b + (": " + name))[|b| + 1..]).value == Strip(name)
  {
    assert (b + (": " + name))[|b| + 1..] == " " + name;
    RestOfBlankName(name);
  }

  /** TotalThenName succeeds on a digit run, a colon and a rest-of-line capture. */
  lemma TotalThenNameSome(w: string, b: nat, v: nat, name: string)
    requires 0 < b < |w|
    requires DigitRun(w) == b
    requires w[b] == ':'
    requires RunValue(w, b) == v
    requires RestOfLine(w[b + 1..]).Some? && RestOfLine(w[b + 1..]).value == name
    ensures TotalThenName(w) == Some((v, name))
  {
  }

  /** "/q: name" gives back the total and the stripped name. */
  lemma TotalAndNameOf(b: string, name: string)
    requires AllDigits(b) && NoNewline(name) && Strip(name) != []
    ensures TotalAndName("/" + b + ": " + name) == Some((DigitsValue(b), Strip(name)))
  {
    var v := "/" + b + ": " + name;
    var w := b + (": " + name);
    assert v[0] == '/' && v[1..] == w;
    LStripNoSpace(w);
    TotalThenNameOf(b, name);
  }

  /** Blanks before the count are skipped. */
  lemma CounterFieldsBlank(x: string)
    ensures CounterFields(" " + x) == CounterFields(x)
  {
    assert (" " + x)[1..] == x;
    assert LStrip(" " + x) == LStrip(x);
  }

  /** A numeral followed by the total and name part gives back the count. */
  lemma CountThenTotalOf(a: string, v: string)
    requires AllDigits(a) && v != [] && v[0] == '/' && TotalAndName(v).Some?
    ensures CountThenTotal(a + v) == Some(Counter(DigitsValue(a), TotalAndName(v).value.0, TotalAndName(v).value.1))
  {
    RunValueOf(a, v);
    assert (a + v)[|a|..] == v;
    LStripNoSpace(v);
  }

  /** The same, with the blanks lstrip would skip already gone. */
  lemma CounterFieldsOf(a: string, v: string)
    requires AllDigits(a) && v != [] && v[0] == '/' && TotalAndName(v).Some?
    ensures CounterFields(a + v) == Some(Counter(DigitsValue(a), TotalAndName(v).value.0, TotalAndName(v).value.1))
  {
    LStripNoSpace(a + v);
    CountThenTotalOf(a, v);
  }

  /** The server's "key n/q: name" line reads back as the counter it was built from. */
  lemma CounterLineReadBack(key: string, n: nat, q: nat, name: string)
    requires NoNewline(name) && Strip(name) != []
    ensures CounterLine(key, key + " " + NatToString(n) + "/" + NatToString(q) + ": " + name) == Some(Counter(n, q, Strip(name)))
  {
    var a := NatToString(n);
    var x := " " + (a + ("/" + NatToString(q) + ": " + name));
    CounterLineShape(key, a, NatToString(q), name);
    CounterTail(n, q, name);
    CounterLineSome(key, x, Counter(n, q, Strip(name)));
  }

  lemma CounterLineShape(key: string, a: string, b: string, name: string)
    ensures key + " " + a + "/" + b + ": " + name == key + (" " + (a + ("/" + b + ": " + name)))
  {
  }

  /** After the key: " n/q: name" reads back as the counter. */
  lemma CounterTail(n: nat, q: nat, name: string)
    requires NoNewline(name) && Strip(name) != []
    ensures CounterFields(" " + (NatToString(n) + ("/" + NatToString(q) + ": " + name))).Some?
    ensures CounterFields(" " + (NatToString(n) + ("/" + NatToString(q) + ": " + name))).value == Counter(n, q, Strip(name))
  {
    var a := NatToString(n);
    var v := "/" + NatToString(q) + ": " + name;
    TotalAndNameOf(NatToString(q), name);
    CounterFieldsOf(a, v);
    CounterFieldsBlank(a + v);
  }

  /** A counter line is the key followed by counter fields. */
  lemma CounterLineSome(key: string, x: string, c: Counter)
    requires CounterFields(x).Some? && CounterFields(x).value == c
    ensures CounterLine(key, key + x) == Some(c)
  {
    assert (key + x)[..|key|] == key && (key + x)[|key|..] == x;
  }

  /** A line without '%' matches none of the percentage patterns. */
  lemma NoPercentNoProgress(line: string)
    requires '%' !in line
    ensures TotalProgress(line).None? && CurrentProgress(line).None?
    ensures MkvProgress(line).None? && HbProgress(line).None?
  {
    FirstMatchNeeds(line, t => ProgressAt(TotalProgressKey, t), false, '%');
    FirstMatchNeeds(line, t => ProgressAt(CurrentProgressKey, t), false, '%');
    FirstMatchNeeds(line, MkvProgressAt, false, '%');
    FirstMatchNeeds(line, HbProgressAt, false, '%');
  }

  /** A text lacking the first character of sub does not contain sub. */
  lemma {:induction false} LacksFirstChar(s: string, sub: string)
    requires sub != [] && sub[0] !in s
    ensures !Contains(s, sub)
    decreases |s|
  {
    if s != [] {
      HeadRulesOut(s, sub);
      LacksFirstChar(s[1..], sub);
    }
  }

  /** A head lacking the first character of sub adds no occurrence of it. */
  lemma {:induction false} ContainsPastHead(a: string, b: string, sub: string)
    requires sub != [] && sub[0] !in a
    ensures Contains(a + b, sub) == Contains(b, sub)
    decreases |a|
  {
    if a == [] {
      assert a + b == b;
    } else {
      assert (a + b)[1..] == a[1..] + b;
      HeadRulesOut(a + b, sub);
      ContainsPastHead(a[1..], b, sub);
    }
  }

  /** No '%' and no drive-access failure: what the patterns before the disc prompt look for. */
  predicate NoEarlyMarker(line: string)
  {
    '%' !in line && !Contains(line, AccessErrorText)
  }

  /**
   * A name the server embeds in a status line that carries none of the
   * markers the earlier patterns look for: no '%', no drive-access failure,
   * no disc-prompt text.
   */
  predicate Plain(name: string)
  {
    && NoEarlyMarker(name)
    && !Contains(name, InsertText)
    && !Contains(name, NextDiscText)
  }

  /** Free of the markers' first characters, as the fixed parts of most status lines are. */
  predicate MarkerFree(head: string)
  {
    '%' !in head && 'F' !in head && 'I' !in head && 'W' !in head
  }

  /** A fixed head followed by a plain name is still plain. */
  lemma PlainAfter(head: string, name: string)
    requires MarkerFree(head) && Plain(name)
    ensures Plain(head + name)
  {
    ContainsPastHead(head, name, AccessErrorText);
    ContainsPastHead(head, name, InsertText);
    ContainsPastHead(head, name, NextDiscText);
  }

  /** The first ten patterns all miss a line without early markers that starts with none of 'C', 'H' and '['. */
  lemma EarlyPatternsMiss(line: string)
    requires NoEarlyMarker(line) && line != [] && line[0] != 'C' && line[0] != 'H' && line[0] != '['
    ensures OperationLine(line).None? && ActionLine(line).None?
    ensures TotalProgress(line).None? && CurrentProgress(line).None?
    ensures HbTaskLine(line).None?
    ensures CounterLine(HbStartKey, line).None? && CounterLine(HbDoneKey, line).None?
    ensures MkvProgress(line).None? && HbProgress(line).None?
  {
    NoPercentNoProgress(line);
    HeadRulesOut(line, "Current operation:");
    HeadRulesOut(line, "Current action:");
    HeadRulesOut(line, HbStartKey);
    HeadRulesOut(line, HbDoneKey);
  }

  /** The tail of the pattern chain: the events a line's leading key decides. */
  function KeyEvent(gen: Gen, line: string): Event
  {
    if gen == Current && StartsWith(line, LowDiskKey) then LowDisk(line)
    else if StartsWith(line, QueuedKey) then QueuedEncode
    else if StartsWith(line, FinalizingKey) then Finalizing
    else if StartsWith(line, CompleteKey) then Complete
    else if StartsWith(line, ErrorKey) then ErrorLine
    else Other
  }

  /** A plain line that no earlier pattern can match is classified by its leading key. */
  lemma KeyLineClassified(gen: Gen, line: string)
    requires Plain(line) && line != [] && line[0] != 'C' && line[0] != 'H' && line[0] != '['
    ensures Classify(gen, line) == KeyEvent(gen, line)
  {
    EarlyPatternsMiss(line);
  }

  /** A line with disc-prompt text that no earlier pattern can match is a disc prompt. */
  lemma PromptLineClassified(gen: Gen, line: string)
    requires NoEarlyMarker(line) && line != [] && line[0] != 'C' && line[0] != 'H' && line[0] != '['
    requires Contains(line, InsertText) || Contains(line, NextDiscText)
    ensures Classify(gen, line) == DiscPrompt(line, Contains(line, InsertText), Contains(line, NextDiscText))
  {
    EarlyPatternsMiss(line);
  }

  /** The first characters of the server's status keys, and the markers they lack. */
  lemma StatusKeysChars()
    ensures |LowDiskKey| > 1 && |QueuedKey| > 0 && |FinalizingKey| > 1 && |CompleteKey| > 0 && |ErrorKey| > 0
    ensures LowDiskKey[0] == 'L' && QueuedKey[0] == 'Q' && FinalizingKey[0] == 'F'
    ensures CompleteKey[0] == 'P' && ErrorKey[0] == 'E'
    ensures MarkerFree(LowDiskKey) && MarkerFree(QueuedKey + " ") && MarkerFree(ErrorKey + " ")
    ensures MarkerFree(FinalizingKey[1..])
  {
  }

  /** A line whose first character differs from a key's does not start with that key. */
  lemma KeysMissByHead(line: string)
    requires line != []
    ensures line[0] != 'L' ==> !StartsWith(line, LowDiskKey)
    ensures line[0] != 'Q' ==> !StartsWith(line, QueuedKey)
    ensures line[0] != 'F' ==> !StartsWith(line, FinalizingKey)
    ensures line[0] != 'P' ==> !StartsWith(line, CompleteKey)
    ensures line[0] != 'E' ==> !StartsWith(line, ErrorKey)
  {
    StatusKeysChars();
    if line[0] != 'L' { HeadRulesOut(line, LowDiskKey); }
    if line[0] != 'Q' { HeadRulesOut(line, QueuedKey); }
    if line[0] != 'F' { HeadRulesOut(line, FinalizingKey); }
    if line[0] != 'P' { HeadRulesOut(line, CompleteKey); }
    if line[0] != 'E' { HeadRulesOut(line, ErrorKey); }
  }

  /** A key followed by two more pieces starts with the key and with its first character. */
  lemma KeyThen(key: string, a: string, b: string)
    requires key != []
    ensures StartsWith(key + a + b, key) && (key + a + b)[0] == key[0]
  {
    assert (key + a + b)[..|key|] == key;
  }

  /** "Queued encode: name" is read as one more queued encode. */
  lemma QueuedLineRead(gen: Gen, name: string)
    requires Plain(name)
    ensures Classify(gen, QueuedKey + " " + name) == QueuedEncode
  {
    var line := QueuedKey + " " + name;
    StatusKeysChars();
    KeyThen(QueuedKey, " ", name);
    PlainAfter(QueuedKey + " ", name);
    KeyLineClassified(gen, line);
    KeysMissByHead(line);
  }

  /** "Finalizing: title (year)" is read as one more finalized title. */
  lemma FinalizingLineRead(gen: Gen, rest: string)
    requires Plain(rest)
    ensures Classify(gen, FinalizingKey + rest) == Finalizing
  {
    var line := FinalizingKey + rest;
    var tail := FinalizingKey[1..];
    StatusKeysChars();
    KeyThen(FinalizingKey, rest, []);
    assert line + [] == line;
    assert line[1..] == tail + rest;
    PlainAfter(tail, rest);
    assert !Contains(line, AccessErrorText) by {
      CharRulesOut(line, AccessErrorText, 1);
    }
    assert !Contains(line, InsertText) && !Contains(line, NextDiscText) by {
      HeadRulesOut(line, InsertText);
      HeadRulesOut(line, NextDiscText);
    }
    KeyLineClassified(gen, line);
    KeysMissByHead(line);
  }

  /** "ERROR: message" is read as an error. */
  lemma ErrorLineRead(gen: Gen, message: string)
    requires Plain(message)
    ensures Classify(gen, ErrorKey + " " + message) == ErrorLine
  {
    var line := ErrorKey + " " + message;
    StatusKeysChars();
    KeyThen(ErrorKey, " ", message);
    PlainAfter(ErrorKey + " ", message);
    KeyLineClassified(gen, line);
    KeysMissByHead(line);
  }

  /** The server's closing line ends the run. */
  lemma CompleteLineRead(gen: Gen)
    ensures Classify(gen, CompleteKey) == Complete
  {
    var line := CompleteKey;
    CompleteKeyPlain();
    KeyLineClassified(gen, line);
    KeysMissByHead(line);
  }

  /** The closing line carries no marker of an earlier pattern and starts with its own key. */
  lemma CompleteKeyPlain()
    ensures Plain(CompleteKey) && CompleteKey != [] && CompleteKey[0] == 'P' && StartsWith(CompleteKey, CompleteKey)
  {
    StatusKeysChars();
    KeyThen(CompleteKey, [], []);
    assert CompleteKey + [] + [] == CompleteKey;
    LacksFirstChar(CompleteKey, AccessErrorText);
    LacksFirstChar(CompleteKey, InsertText);
    LacksFirstChar(CompleteKey, NextDiscText);
  }

  /** The server's pause line: the current GUI pauses, the legacy one has no pattern for it. */
  lemma LowDiskLineRead(rest: string)
    requires Plain(rest)
    ensures Classify(Current, LowDiskKey + rest) == LowDisk(LowDiskKey + rest)
    ensures Classify(Legacy, LowDiskKey + rest) == Other
  {
    LowDiskCurrent(rest);
    LowDiskLegacy(rest);
  }

  /** The pause line's shape: plain, starting with the low-disk key and no other. */
  lemma LowDiskShape(rest: string)
    requires Plain(rest)
    ensures var line := LowDiskKey + rest;
      Plain(line) && line != [] && line[0] == 'L' && StartsWith(line, LowDiskKey)
  {
    var line := LowDiskKey + rest;
    StatusKeysChars();
    KeyThen(LowDiskKey, rest, []);
    assert line + [] == line;
    PlainAfter(LowDiskKey, rest);
  }

  lemma LowDiskCurrent(rest: string)
    requires Plain(rest)
    ensures Classify(Current, LowDiskKey + rest) == LowDisk(LowDiskKey + rest)
  {
    LowDiskShape(rest);
    KeyLineClassified(Current, LowDiskKey + rest);
  }

  lemma LowDiskLegacy(rest: string)
    requires Plain(rest)
    ensures Classify(Legacy, LowDiskKey + rest) == Other
  {
    var line := LowDiskKey + rest;
    LowDiskShape(rest);
    KeyLineClassified(Legacy, line);
    KeysMissByHead(line);
  }

  /** The server's generic next-disc line (printed with a trailing blank) is a disc prompt without "Insert: ". */
  lemma NextDiscLineRead(gen: Gen)
    ensures Classify(gen, NextDiscText + " ") == DiscPrompt(NextDiscText + " ", false, true)
  {
    var line := NextDiscText + " ";
    NextDiscNoPercent();
    NextDiscNoF();
    NextDiscNoI();
    NoPercentNoProgress(line);
    LacksFirstChar(line, AccessErrorText);
    LacksFirstChar(line, InsertText);
    assert Contains(line, NextDiscText) by {
      ContainsSelf(NextDiscText);
      ContainsPrefix(NextDiscText, " ", NextDiscText);
    }
    HeadRulesOut(line, "Current operation:");
    HeadRulesOut(line, "Current action:");
    HeadRulesOut(line, HbStartKey);
    HeadRulesOut(line, HbDoneKey);
  }

  /** The patterns before the HandBrake counters miss a plain line starting with 'H'. */
  lemma HbLineEarly(line: string)
    requires Plain(line) && line != [] && line[0] == 'H'
    ensures OperationLine(line).None? && ActionLine(line).None?
    ensures TotalProgress(line).None? && CurrentProgress(line).None? && HbTaskLine(line).None?
  {
    NoPercentNoProgress(line);
    HeadRulesOut(line, "Current operation:");
    HeadRulesOut(line, "Current action:");
  }

  /** The fixed part of a HandBrake counter line: key, count, slash, total, colon. */
  function CounterHead(key: string, n: nat, q: nat): string
  {
    key + " " + NatToString(n) + "/" + NatToString(q) + ": "
  }

  lemma CounterHeadMarkerFree(key: string, n: nat, q: nat)
    requires MarkerFree(key)
    ensures MarkerFree(CounterHead(key, n, q))
  {
    assert MarkerFree(" ") && MarkerFree("/") && MarkerFree(": ");
    var a := NatToString(n);
    var b := NatToString(q);
    assert forall c | c in a :: IsDigit(c);
    assert forall c | c in b :: IsDigit(c);
  }

  /** "HandBrake start: n/q: name" is read back as the start of encode n of q. */
  lemma HbStartLineRead(gen: Gen, n: nat, q: nat, name: string)
    requires Plain(name) && NoNewline(name) && Strip(name) != []
    ensures Classify(gen, CounterHead(HbStartKey, n, q) + name) == HbStart(Counter(n, q, Strip(name)))
  {
    var line := CounterHead(HbStartKey, n, q) + name;
    CounterLineReadBack(HbStartKey, n, q, name);
    HbKeysChars();
    CounterHeadMarkerFree(HbStartKey, n, q);
    PlainAfter(CounterHead(HbStartKey, n, q), name);
    assert line[..|HbStartKey|] == HbStartKey;
    HbLineEarly(line);
  }

  /** "HandBrake done: n/q: name" is read back as the end of encode n of q. */
  lemma HbDoneLineRead(gen: Gen, n: nat, q: nat, name: string)
    requires Plain(name) && NoNewline(name) && Strip(name) != []
    ensures Classify(gen, CounterHead(HbDoneKey, n, q) + name) == HbDone(Counter(n, q, Strip(name)))
  {
    var line := CounterHead(HbDoneKey, n, q) + name;
    CounterLineReadBack(HbDoneKey, n, q, name);
    HbKeysChars();
    CounterHeadMarkerFree(HbDoneKey, n, q);
    PlainAfter(CounterHead(HbDoneKey, n, q), name);
    assert line[..|HbDoneKey|] == HbDoneKey;
    HbLineEarly(line);
    assert line[10] == line[..|HbDoneKey|][10];
    CharRulesOut(line, HbStartKey, 10);
  }

  /** Every prompt the schedule produces is read as a disc prompt carrying "Insert: ". */
  lemma CsvPromptClassified(r: ScheduleCsv.ScheduleRow)
    requires Plain(ScheduleCsv.CsvDiscPromptForRow(r)[8..])
    ensures var p := ScheduleCsv.CsvDiscPromptForRow(r);
      Classify(Current, p) == DiscPrompt(p, true, Contains(p, NextDiscText))
  {
    var p := ScheduleCsv.CsvDiscPromptForRow(r);
    assert p[..8] == InsertText;
    assert p == InsertText + p[8..];
    assert NoEarlyMarker(p) by {
      ContainsPastHead(InsertText, p[8..], AccessErrorText);
    }
    assert Contains(p, InsertText);
    PromptLineClassified(Current, p);
  }

  /**
   * A schedule prompt makes the current GUI wait for Enter, with Continue
   * enabled and the prompt shown as "Please insert: …".
   */
  lemma CsvPromptRead(s: Ui, r: ScheduleCsv.ScheduleRow)
    requires Plain(ScheduleCsv.CsvDiscPromptForRow(r)[8..])
    ensures var t := Apply(Current, s, Classify(Current, ScheduleCsv.CsvDiscPromptForRow(r)));
      t.waiting && t.continueEnabled && StartsWith(t.prompt, Polite)
  {
    var p := ScheduleCsv.CsvDiscPromptForRow(r);
    CsvPromptClassified(r);
    assert StartsWith(p, "Insert:") by {
      assert p[..7] == p[..8][..7];
    }
    InsertPromptShown(s, p, Contains(p, NextDiscText));
  }
}
