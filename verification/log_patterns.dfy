/**
 * The vocabulary of log lines the GUI reacts to, as matchers over one line
 * (trailing newlines already removed). Each matcher follows the regular
 * expression the program uses, including where the engine backtracks: `\s`
 * is Python's whitespace and `.` stops at a newline. Digits, letter case and
 * word characters are ASCII only: Python's `\d`, `re.I` and `\b` also
 * accept other Unicode digits, case pairs and letters, which this model
 * does not.
 */
module LogPatterns {

  import opened Common
  import opened Text

  /** No '\n' in s: what `.` can match. */
  predicate NoNewline(s: string)
  {
    forall i | 0 <= i < |s| :: s[i] != '\n'
  }

  /** The length of the leading run of ASCII digits. */
  function DigitRun(s: string): (k: nat)
    ensures k <= |s|
    ensures forall i | 0 <= i < k :: IsDigit(s[i])
    ensures k < |s| ==> !IsDigit(s[k])
  {
    if s != [] && IsDigit(s[0]) then 1 + DigitRun(s[1..]) else 0
  }

  /** The digits of s[..k] as a number, once DigitRun has vouched for them. */
  function RunValue(s: string, k: nat): nat
    requires k <= DigitRun(s)
  {
    DigitsValue(s[..k])
  }

  /** A percentage as the logs write it: never negative. */
  type Pct = x: real | x >= 0.0

  /** The value of the decimal numeral i.f. */
  function Decimal(i: nat, f: nat, fracDigits: nat): (x: real)
    ensures x >= i as real
  {
    var q := f as real / Pow10(fracDigits) as real;
    assert q >= 0.0;
    i as real + q
  }

  /**
   * `\s*(.+)$` at the end of a line, followed by .strip(): the whitespace
   * run can give characters back, so the line matches when some suffix
   * after leading whitespace is non-empty and has no newline.
   */
  function RestOfLine(s: string): (r: Option<string>)
    ensures r.Some? ==> r.value == Strip(s)
  {
    var t := LStrip(s);
    if t != [] then
      if NoNewline(t) then Some(Strip(s)) else None
    else if s != [] && s[|s| - 1] != '\n' then Some(Strip(s))
    else None
  }

  /** RestOfLine succeeds exactly when some run of blanks is followed by a non-empty rest without a newline. */
  lemma RestOfLineMatches(s: string)
    ensures RestOfLine(s).Some? <==> exists k | 0 <= k < |s| :: (forall i | 0 <= i < k :: IsSpace(s[i])) && NoNewline(s[k..])
  {
    var t := LStrip(s);
    if t != [] && NoNewline(t) {
      RestAfterBlanks(s, |s| - |t|);
    } else if t != [] {
      var j :| 0 <= j < |t| && t[j] == '\n';
      var k0 := |s| - |t|;
      assert s[k0] == t[0] && s[k0 + j] == t[j];
      NoRestBeforeNewline(s, k0, k0 + j);
    } else if s != [] && s[|s| - 1] != '\n' {
      RestAfterBlanks(s, |s| - 1);
    } else {
      NoRestAtNewline(s);
    }
  }

  /** A witness for the match: blanks up to k, then a rest without newline. */
  lemma RestAfterBlanks(s: string, k: nat)
    requires k < |s| && (forall i | 0 <= i < k :: IsSpace(s[i])) && NoNewline(s[k..])
    ensures exists k | 0 <= k < |s| :: (forall i | 0 <= i < k :: IsSpace(s[i])) && NoNewline(s[k..])
  {
  }

  /** When the text after the blanks holds a newline, every candidate rest holds it too. */
  lemma NoRestBeforeNewline(s: string, q: nat, p: nat)
    requires q <= p < |s| && !IsSpace(s[q]) && s[p] == '\n'
    ensures forall k | 0 <= k < |s| && (forall i | 0 <= i < k :: IsSpace(s[i])) :: !NoNewline(s[k..])
  {
    forall k | 0 <= k < |s| && (forall i | 0 <= i < k :: IsSpace(s[i])) ensures !NoNewline(s[k..]) {
      assert k <= q;
      assert s[k..][p - k] == '\n';
    }
  }

  /** Every suffix starting at or before a newline contains it. */
  lemma NewlineInSuffixes(s: string, p: nat)
    requires p < |s| && s[p] == '\n'
    ensures forall k | 0 <= k <= p :: !NoNewline(s[k..])
  {
    forall k | 0 <= k <= p ensures !NoNewline(s[k..]) {
      assert s[k..][p - k] == '\n';
    }
  }

  /** A text ending in a newline has no rest without one. */
  lemma NoRestAtNewline(s: string)
    requires s == [] || s[|s| - 1] == '\n'
    ensures forall k | 0 <= k < |s| :: !NoNewline(s[k..])
  {
    if s != [] {
      NewlineInSuffixes(s, |s| - 1);
    }
  }

  /**
   * re.search: the result of `at` at the first position where it succeeds.
   * With stopAtNewline the scan does not move past a newline, as when the
   * pattern starts with a lazy `.*?`.
   */
  function FirstMatch<T>(s: string, at: string -> Option<T>, stopAtNewline: bool): (r: Option<T>)
    ensures r.Some? <==> exists i | 0 <= i <= |s| && (!stopAtNewline || NoNewline(s[..i])) :: at(s[i..]).Some?
    ensures r.Some? ==> exists i | 0 <= i <= |s| && (!stopAtNewline || NoNewline(s[..i])) ::
      at(s[i..]) == r && forall j | 0 <= j < i :: at(s[j..]).None?
    decreases |s|
  {
    if at(s).Some? then
      assert s[0..] == s && s[..0] == [];
      at(s)
    else if s == [] || (stopAtNewline && s[0] == '\n') then
      assert forall i | 0 < i <= |s| :: s[..i][0] == s[0];
      None
    else
      var r := FirstMatch(s[1..], at, stopAtNewline);
      assert forall i | 1 <= i <= |s| :: s[1..][i - 1..] == s[i..] && s[..i] == [s[0]] + s[1..][..i - 1];
      assert forall i | 1 <= i <= |s| :: (NoNewline(s[..i]) <==> s[0] != '\n' && NoNewline(s[1..][..i - 1]));
      r
  }

  /** `^Current operation:\s*(.+)$`, with the group stripped. */
  function OperationLine(line: string): (op: Option<string>)
    ensures op.Some? ==> StartsWith(line, "Current operation:")
  {
    if StartsWith(line, "Current operation:") then RestOfLine(line[18..]) else None
  }

  /** `^Current action:\s*(.+)$`, with the group stripped. */
  function ActionLine(line: string): (act: Option<string>)
    ensures act.Some? ==> StartsWith(line, "Current action:")
  {
    if StartsWith(line, "Current action:") then RestOfLine(line[15..]) else None
  }

  /** `([0-9]{1,3})%` anchored at the start of v: the whole digit run, at most three digits, then '%'. */
  function PercentAt(v: string): (p: Option<nat>)
    ensures p.Some? ==> p.value < 1000 && '%' in v
  {
    var d := DigitRun(v);
    if 1 <= d <= 3 && d < |v| && v[d] == '%' then
      ThreeDigitsBelow1000(v[..d]);
      Some(RunValue(v, d))
    else None
  }

  /** `key\s*-\s*([0-9]{1,3})%` anchored at the start of t. */
  function ProgressAt(key: string, t: string): (p: Option<nat>)
    ensures p.Some? ==> p.value < 1000 && '%' in t
  {
    if !StartsWith(t, key) then None
    else
      var u := LStrip(t[|key|..]);
      if u != [] && u[0] == '-' then PercentAt(LStrip(u[1..])) else None
  }

  const TotalProgressKey: string := "Total progress"
  const CurrentProgressKey: string := "Current progress"

  /** `Total progress\s*-\s*([0-9]{1,3})%`, searched. */
  function TotalProgress(line: string): Option<nat>
  {
    FirstMatch(line, t => ProgressAt(TotalProgressKey, t), false)
  }

  /** `Current progress\s*-\s*([0-9]{1,3})%`, searched. */
  function CurrentProgress(line: string): Option<nat>
  {
    FirstMatch(line, t => ProgressAt(CurrentProgressKey, t), false)
  }

  const AccessErrorText: string := "Failed " + "to " + "get " + "full " + "access " + "to " + "drive"

  /** `^\[[0-9]{2}:[0-9]{2}:[0-9]{2}\]\s*Starting Task:\s*(.+)$`, with the group stripped. */
  function HbTaskLine(line: string): (task: Option<string>)
    ensures task.Some? ==> |line| >= 10 && line[0] == '[' && line[9] == ']'
  {
    if |line| >= 10 && line[0] == '[' && line[3] == ':' && line[6] == ':' && line[9] == ']'
       && IsDigit(line[1]) && IsDigit(line[2]) && IsDigit(line[4]) && IsDigit(line[5])
       && IsDigit(line[7]) && IsDigit(line[8]) then
      var u := LStrip(line[10..]);
      if StartsWith(u, "Starting Task:") then RestOfLine(u[14..]) else None
    else None
  }

  /** The captures of the HandBrake start and done lines: count, total and the (stripped) name. */
  datatype Counter = Counter(n: nat, total: nat, name: string)

  // The pattern ^key\s*(\d+)\s*/\s*(\d+):\s*(.+)$ of the HandBrake start and done lines.
  function CounterLine(key: string, line: string): (c: Option<Counter>)
    ensures c.Some? ==> StartsWith(line, key)
  {
    if !StartsWith(line, key) then None else CounterFields(line[|key|..])
  }

  // The part after the key: the count, then the total and the name.
  function CounterFields(s: string): (c: Option<Counter>)
  {
    CountThenTotal(LStrip(s))
  }

  // From the count's first digit on.
  function CountThenTotal(u: string): (c: Option<Counter>)
  {
    var a := DigitRun(u);
    if a == 0 then None
    else
      match TotalAndName(LStrip(u[a..]))
      case None => None
      case Some(tn) => Some(Counter(RunValue(u, a), tn.0, tn.1))
  }

  // The part from the slash on: the total and the stripped name.
  function TotalAndName(v: string): (tn: Option<(nat, string)>)
  {
    if v == [] || v[0] != '/' then None else TotalThenName(LStrip(v[1..]))
  }

  // From the total's first digit on.
  function TotalThenName(w: string): (tn: Option<(nat, string)>)
  {
    var b := DigitRun(w);
    if b == 0 || b == |w| || w[b] != ':' then None
    else
      match RestOfLine(w[b + 1..])
      case None => None
      case Some(name) => Some((RunValue(w, b), name))
  }

  const HbStartKey: string := "HandBrake start:"
  const HbDoneKey: string := "HandBrake done:"

  /** `MakeMKV progress:\s*([0-9]+\.[0-9]+)%` anchored at the start of t. */
  function MkvProgressAt(t: string): (p: Option<Pct>)
    ensures p.Some? ==> '%' in t
  {
    if !StartsWith(t, "MakeMKV progress:") then None
    else
      var v := LStrip(t[17..]);
      var d1 := DigitRun(v);
      if d1 == 0 || d1 == |v| || v[d1] != '.' then None
      else
        var f := v[d1 + 1..];
        var d2 := DigitRun(f);
        if d2 == 0 || d2 == |f| || f[d2] != '%' then None
        else Some(Decimal(RunValue(v, d1), RunValue(f, d2), d2))
  }

  /** `MakeMKV progress:\s*([0-9]+\.[0-9]+)%`, searched. */
  function MkvProgress(line: string): (p: Option<Pct>)
  {
    FirstMatch(line, MkvProgressAt, false)
  }

  /**
   * `([0-9]{1,3}(?:\.[0-9]+)?)\s*%` anchored at the start of v. Backtracking
   * never helps: dropping a digit leaves a digit where '.', a blank or '%'
   * is needed, and dropping the fraction leaves '.' where '%' is needed.
   */
  function NumberPercentAt(v: string): (p: Option<Pct>)
    ensures p.Some? ==> '%' in v
  {
    var d1 := DigitRun(v);
    if d1 < 1 || d1 > 3 then None
    else
      var afterInt := LStrip(v[d1..]);
      if d1 < |v| && v[d1] == '.' then
        var f := v[d1 + 1..];
        var d2 := DigitRun(f);
        var afterFrac := LStrip(f[d2..]);
        if d2 >= 1 && afterFrac != [] && afterFrac[0] == '%' then
          Some(Decimal(RunValue(v, d1), RunValue(f, d2), d2))
        else None
      else if afterInt != [] && afterInt[0] == '%' then Some(RunValue(v, d1) as real)
      else None
  }

  /** `\s*(number)\s*%` anchored at the start of u. */
  function NumberAfterBlanks(u: string): (p: Option<Pct>)
    ensures p.Some? ==> '%' in u
  {
    var v := LStrip(u);
    var r := NumberPercentAt(v);
    assert r.Some? ==> '%' in u by {
      if r.Some? {
        var i :| 0 <= i < |v| && v[i] == '%';
        assert u[|u| - |v| + i] == '%';
      }
    }
    r
  }

  /** A search succeeds only where its matcher does, so a character every match needs is in the line. */
  lemma FirstMatchNeeds<T>(s: string, at: string -> Option<T>, stopAtNewline: bool, c: char)
    requires forall u | at(u).Some? :: c in u
    ensures FirstMatch(s, at, stopAtNewline).Some? ==> c in s
  {
    if FirstMatch(s, at, stopAtNewline).Some? {
      var i :| 0 <= i <= |s| && (!stopAtNewline || NoNewline(s[..i])) && at(s[i..]).Some?;
      var j :| 0 <= j < |s[i..]| && s[i..][j] == c;
      assert s[i + j] == c;
    }
  }

  /**
   * `Encoding:.*?\s*(number)\s*%` anchored at the start of t: the lazy gap
   * cannot cross a newline, the blanks after it can.
   */
  function HbProgressAt(t: string): (p: Option<Pct>)
    ensures p.Some? ==> '%' in t
  {
    if StartsWith(t, "Encoding:") then
      FirstMatchNeeds(t[9..], NumberAfterBlanks, true, '%');
      FirstMatch(t[9..], NumberAfterBlanks, true)
    else None
  }

  /** `Encoding:.*?\s*([0-9]{1,3}(?:\.[0-9]+)?)\s*%`, searched. */
  function HbProgress(line: string): (p: Option<Pct>)
  {
    FirstMatch(line, HbProgressAt, false)
  }

  const InsertText: string := "Insert: "
  /** The server's generic next-disc sentence, kept in short pieces so that its characters can be told apart. */
  const NextDiscText: string := NextDiscLead + "press" + " " + "Enter" + NextDiscTail
  const NextDiscLead: string := "When " + "the " + "next " + "disc " + "is " + "inserted, "
  const NextDiscTail: string := " to " + "start " + "ripping..."

  /** The next-disc line, as printed with a trailing blank, holds none of the other markers' first characters. */
  lemma NextDiscNoPercent()
    ensures '%' !in NextDiscText + " "
  {
  }

  lemma NextDiscNoF()
    ensures 'F' !in NextDiscText + " " && AccessErrorText[0] == 'F'
  {
  }

  lemma NextDiscNoI()
    ensures 'I' !in NextDiscText + " "
  {
  }

  /** How the next-disc sentence begins and ends, and that its lead-in has no 'p'. */
  lemma NextDiscShape()
    ensures NextDiscLead[0] == 'W' && NextDiscLead[|NextDiscLead| - 1] == ' '
    ensures 'p' !in NextDiscLead && 'P' !in NextDiscLead
    ensures NextDiscTail[0] == ' '
    ensures NextDiscText[0] == 'W' && NextDiscText[|NextDiscText| - 1] == '.'
  {
  }

  /** The HandBrake keys hold none of the other markers' first characters. */
  lemma HbKeysChars()
    ensures '%' !in HbStartKey && 'F' !in HbStartKey && 'I' !in HbStartKey && 'W' !in HbStartKey
    ensures '%' !in HbDoneKey && 'F' !in HbDoneKey && 'I' !in HbDoneKey && 'W' !in HbDoneKey
    ensures HbStartKey[10] == 's' && HbDoneKey[10] == 'd'
  {
  }

  /** The two words of the sentence's "press Enter" match the pattern's words. */
  lemma PressEnterWords()
    ensures CiStartsWith("press", "press") && CiStartsWith("Enter", "enter")
  {
  }

  /** At most three digits denote a value below 1000. */
  lemma ThreeDigitsBelow1000(d: string)
    requires 1 <= |d| <= 3 && forall i | 0 <= i < |d| :: IsDigit(d[i])
    ensures DigitsValue(d) < 1000
  {
    DigitsBound(d);
    assert Pow10(|d|) <= Pow10(3) by {
      assert Pow10(1) == 10 && Pow10(2) == 100 && Pow10(3) == 1000;
    }
  }
}
