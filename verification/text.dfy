/**
 * String primitives with the semantics of the Python built-ins the program
 * relies on: str.isspace / regex \s, str.strip, str.splitlines, str.split,
 * str.join, str.replace, str.isdigit and int() on ASCII digits, str.lower on
 * ASCII letters.
 */
module Text {

  import Common

  /** Characters for which Python's str.isspace() holds (the \s class of str patterns). */
  predicate IsSpace(c: char)
  {
    || c == ' '
    || ('\t' <= c <= '\r')
    || ('\U{1C}' <= c <= '\U{1F}')
    || c == '\U{85}'
    || c == '\U{A0}'
    || c == '\U{1680}'
    || ('\U{2000}' <= c <= '\U{200A}')
    || c == '\U{2028}'
    || c == '\U{2029}'
    || c == '\U{202F}'
    || c == '\U{205F}'
    || c == '\U{3000}'
  }

  /** Characters at which str.splitlines() breaks a line ("\r\n" counts once). */
  predicate IsLineBreak(c: char)
  {
    || c == '\n'
    || c == '\r'
    || c == '\U{0B}'
    || c == '\U{0C}'
    || c == '\U{1C}'
    || c == '\U{1D}'
    || c == '\U{1E}'
    || c == '\U{85}'
    || c == '\U{2028}'
    || c == '\U{2029}'
  }

  predicate IsDigit(c: char)
  {
    '0' <= c <= '9'
  }

  predicate IsAsciiLetter(c: char)
  {
    ('a' <= c <= 'z') || ('A' <= c <= 'Z')
  }

  predicate IsAsciiAlnum(c: char)
  {
    IsAsciiLetter(c) || IsDigit(c)
  }

  /** The regex word class \w, restricted to ASCII. */
  predicate IsWordChar(c: char)
  {
    IsAsciiAlnum(c) || c == '_'
  }

  /** Python's str.isdigit(): non-empty and every character a digit. */
  predicate AllDigits(s: string)
  {
    |s| > 0 && forall i | 0 <= i < |s| :: IsDigit(s[i])
  }

  predicate NoChar(s: string, c: char)
  {
    forall i | 0 <= i < |s| :: s[i] != c
  }

  function LowerChar(c: char): char
  {
    if 'A' <= c <= 'Z' then (c as int + 32) as char else c
  }

  function Lower(s: string): (r: string)
    ensures |r| == |s|
    ensures forall i | 0 <= i < |s| :: r[i] == LowerChar(s[i])
  {
    if s == [] then [] else [LowerChar(s[0])] + Lower(s[1..])
  }

  /** The value of a run of ASCII digits, as int() computes it (leading zeros allowed). */
  function DigitsValue(s: string): nat
    requires forall i | 0 <= i < |s| :: IsDigit(s[i])
  {
    if s == [] then 0
    else
      assert IsDigit(s[|s| - 1]);
      DigitsValue(s[..|s| - 1]) * 10 + (s[|s| - 1] as int - '0' as int)
  }

  function Pow10(n: nat): (p: nat)
    ensures p >= 1
  {
    if n == 0 then 1 else 10 * Pow10(n - 1)
  }

  /** A run of n digits is worth less than 10^n. */
  lemma {:induction false} DigitsBound(s: string)
    requires forall i | 0 <= i < |s| :: IsDigit(s[i])
    ensures DigitsValue(s) < Pow10(|s|)
    decreases |s|
  {
    if s != [] {
      var a := s[..|s| - 1];
      assert forall i | 0 <= i < |a| :: IsDigit(a[i]) by {
        assert forall i | 0 <= i < |a| :: a[i] == s[i];
      }
      DigitsBound(a);
      assert DigitsValue(s) == DigitsValue(a) * 10 + (s[|s| - 1] as int - '0' as int);
    }
  }

  /** The value of a two-digit run. */
  lemma TwoDigitsValue(d: string)
    requires |d| == 2 && AllDigits(d)
    ensures DigitsValue(d) == (d[0] as int - '0' as int) * 10 + (d[1] as int - '0' as int)
    ensures DigitsValue(d) < 100
  {
    assert DigitsValue(d[..1]) == d[0] as int - '0' as int by {
      assert d[..1][..0] == [];
    }
    assert d[..|d| - 1] == d[..1];
  }

  function DigitChar(d: nat): char
    requires d < 10
  {
    ('0' as int + d) as char
  }

  /** str(n) for a non-negative int. */
  function NatToString(n: nat): (r: string)
    ensures AllDigits(r)
    ensures DigitsValue(r) == n
    ensures n > 0 ==> r[0] != '0'
  {
    if n < 10 then [DigitChar(n)]
    else
      var prefix := NatToString(n / 10);
      var r := prefix + [DigitChar(n % 10)];
      assert r[..|r| - 1] == prefix;
      r
  }

  /** str(n) for any int. */
  function IntToString(n: int): string
  {
    if n >= 0 then NatToString(n) else "-" + NatToString(-n)
  }

  function Repeat(c: char, n: nat): (r: string)
    ensures |r| == n
    ensures forall i | 0 <= i < n :: r[i] == c
  {
    if n == 0 then [] else [c] + Repeat(c, n - 1)
  }

  /** str.zfill(width) of a digit string: left-pad with '0' to at least width characters. */
  function ZFill(s: string, width: nat): (r: string)
    ensures |r| == Common.Max(|s|, width)
    ensures EndsWith(r, s)
    ensures forall i | 0 <= i < |r| - |s| :: r[i] == '0'
  {
    if |s| >= width then s else Repeat('0', width - |s|) + s
  }

  lemma ZFillDigits(s: string, width: nat)
    requires AllDigits(s)
    ensures AllDigits(ZFill(s, width))
    ensures DigitsValue(ZFill(s, width)) == DigitsValue(s)
  {
    if |s| < width {
      LeadingZeros(width - |s|, s);
    }
  }

  lemma {:induction false} LeadingZeros(n: nat, s: string)
    requires AllDigits(s)
    ensures DigitsValue(Repeat('0', n) + s) == DigitsValue(s)
    decreases |s|
  {
    var z := Repeat('0', n);
    if |s| == 1 {
      assert (z + s)[..|z + s| - 1] == z;
      ZerosValue(n);
      assert s[..0] == [];
    } else {
      var t := z + s;
      assert t[..|t| - 1] == z + s[..|s| - 1];
      LeadingZeros(n, s[..|s| - 1]);
    }
  }

  lemma {:induction false} ZerosValue(n: nat)
    ensures DigitsValue(Repeat('0', n)) == 0
  {
    if n > 0 {
      var z := Repeat('0', n);
      assert z[..n - 1] == Repeat('0', n - 1);
      ZerosValue(n - 1);
    }
  }

  predicate StartsWith(s: string, p: string)
  {
    |p| <= |s| && s[..|p|] == p
  }

  predicate EndsWith(s: string, p: string)
  {
    |p| <= |s| && s[|s| - |p|..] == p
  }

  /** Case-insensitive prefix test; p is given in lower case. */
  predicate CiStartsWith(s: string, p: string)
  {
    |p| <= |s| && forall i | 0 <= i < |p| :: LowerChar(s[i]) == p[i]
  }

  /** sub in s */
  predicate Contains(s: string, sub: string)
    decreases |s|
  {
    StartsWith(s, sub) || (|s| > 0 && Contains(s[1..], sub))
  }

  lemma {:induction false} ContainsSuffix(a: string, b: string, sub: string)
    requires Contains(b, sub)
    ensures Contains(a + b, sub)
    decreases |a|
  {
    if a != [] {
      assert (a + b)[1..] == a[1..] + b;
      ContainsSuffix(a[1..], b, sub);
    } else {
      assert a + b == b;
    }
  }

  lemma {:induction false} ContainsPrefix(a: string, b: string, sub: string)
    requires Contains(a, sub)
    ensures Contains(a + b, sub)
    decreases |a|
  {
    if StartsWith(a, sub) {
      assert (a + b)[..|sub|] == a[..|sub|];
    } else {
      assert (a + b)[1..] == a[1..] + b;
      ContainsPrefix(a[1..], b, sub);
    }
  }

  /** A text whose first character differs from the prefix's does not start with it. */
  lemma HeadRulesOut(s: string, p: string)
    requires p != [] && s != [] && s[0] != p[0]
    ensures !StartsWith(s, p)
  {
    if |p| <= |s| {
      assert s[..|p|][0] == s[0];
    }
  }

  /** The same, ignoring case. */
  lemma CiHeadRulesOut(s: string, p: string)
    requires p != [] && s != [] && LowerChar(s[0]) != p[0]
    ensures !CiStartsWith(s, p)
  {
  }

  /** A text that differs from the prefix at some position inside both does not start with it. */
  lemma CharRulesOut(s: string, p: string, i: nat)
    requires i < |p| && i < |s| && s[i] != p[i]
    ensures !StartsWith(s, p)
  {
    if |p| <= |s| {
      assert s[..|p|][i] == s[i];
    }
  }

  lemma StartsWithConcat(a: string, b: string, p: string)
    requires StartsWith(a, p)
    ensures StartsWith(a + b, p)
  {
    assert (a + b)[..|p|] == a[..|p|];
  }

  lemma EndsWithConcat(a: string, b: string)
    ensures EndsWith(a + b, b)
  {
    assert (a + b)[|a|..] == b;
  }

  lemma ContainsSelf(s: string)
    ensures Contains(s, s)
  {
    assert s[..|s|] == s;
  }

  lemma ContainsMiddle(a: string, m: string, b: string)
    ensures Contains(a + m + b, m)
  {
    ContainsSelf(m);
    ContainsPrefix(m, b, m);
    ContainsSuffix(a, m + b, m);
    assert a + m + b == a + (m + b);
  }

  /** Python's str.lstrip() with no argument. */
  function LStrip(s: string): (r: string)
    ensures |r| <= |s| && r == s[|s| - |r|..]
    ensures forall i | 0 <= i < |s| - |r| :: IsSpace(s[i])
    ensures r == [] || !IsSpace(r[0])
  {
    if |s| > 0 && IsSpace(s[0]) then LStrip(s[1..]) else s
  }

  /** Python's str.rstrip() with no argument. */
  function RStrip(s: string): (r: string)
    ensures |r| <= |s| && r == s[..|r|]
    ensures forall i | |r| <= i < |s| :: IsSpace(s[i])
    ensures r == [] || !IsSpace(r[|r| - 1])
  {
    if |s| > 0 && IsSpace(s[|s| - 1]) then RStrip(s[..|s| - 1]) else s
  }

  /** Python's str.strip() with no argument. */
  function Strip(s: string): string
  {
    RStrip(LStrip(s))
  }

  /** str.lstrip(chars) */
  function LStripChars(s: string, cs: set<char>): (r: string)
    ensures |r| <= |s| && r == s[|s| - |r|..]
    ensures forall i | 0 <= i < |s| - |r| :: s[i] in cs
    ensures r == [] || r[0] !in cs
  {
    if |s| > 0 && s[0] in cs then LStripChars(s[1..], cs) else s
  }

  /** str.rstrip(chars) */
  function RStripChars(s: string, cs: set<char>): (r: string)
    ensures |r| <= |s| && r == s[..|r|]
    ensures forall i | |r| <= i < |s| :: s[i] in cs
    ensures r == [] || r[|r| - 1] !in cs
  {
    if |s| > 0 && s[|s| - 1] in cs then RStripChars(s[..|s| - 1], cs) else s
  }

  /** Stripping whitespace never introduces a character. */
  lemma StripNoChar(s: string, c: char)
    requires NoChar(s, c)
    ensures NoChar(Strip(s), c)
  {
    var t := LStrip(s);
    NoCharSlice(s, c, |s| - |t|, |s|);
    NoCharSlice(t, c, 0, |RStrip(t)|);
  }

  /** A slice of a text without c has none either. */
  lemma NoCharSlice(s: string, c: char, i: nat, j: nat)
    requires NoChar(s, c) && i <= j <= |s|
    ensures NoChar(s[i..j], c)
  {
    assert forall k | 0 <= k < j - i :: s[i..j][k] == s[i + k];
  }

  lemma LStripNoSpace(s: string)
    requires s == [] || !IsSpace(s[0])
    ensures LStrip(s) == s
  {
  }

  lemma StripUnchanged(s: string)
    requires s == [] || (!IsSpace(s[0]) && !IsSpace(s[|s| - 1]))
    ensures Strip(s) == s
  {
  }

  /** Strip() trims both ends. */
  lemma StripEnds(s: string)
    ensures var t := Strip(s); t == [] || (!IsSpace(t[0]) && !IsSpace(t[|t| - 1]))
  {
    var l := LStrip(s);
    var t := RStrip(l);
    if t != [] {
      assert t[0] == l[0];
    }
  }

  lemma StripIdempotent(s: string)
    ensures Strip(Strip(s)) == Strip(s)
  {
    StripEnds(s);
    StripUnchanged(Strip(s));
  }

  lemma StripLeadingSpace(s: string)
    requires s != [] && !IsSpace(s[0]) && !IsSpace(s[|s| - 1])
    ensures Strip(" " + s) == s
  {
    assert (" " + s)[1..] == s;
  }

  function ReplaceChar(s: string, a: char, b: char): (r: string)
    ensures |r| == |s|
    ensures forall i | 0 <= i < |s| :: r[i] == (if s[i] == a then b else s[i])
  {
    if s == [] then [] else [if s[0] == a then b else s[0]] + ReplaceChar(s[1..], a, b)
  }

  /** Replacing a character that does not occur changes nothing. */
  lemma ReplaceAbsent(s: string, a: char, b: char)
    requires a !in s
    ensures ReplaceChar(s, a, b) == s
  {
  }

  /** The characters of s that satisfy p, in order. */
  function Filter(s: string, p: char -> bool): (r: string)
    ensures |r| <= |s|
    ensures forall i | 0 <= i < |r| :: p(r[i]) && r[i] in s
    ensures |r| == |s| <==> forall i | 0 <= i < |s| :: p(s[i])
  {
    if s == [] then []
    else
      var rest := Filter(s[1..], p);
      assert forall i | 0 <= i < |rest| :: rest[i] in s by {
        forall i | 0 <= i < |rest| ensures rest[i] in s {
          assert rest[i] in s[1..];
        }
      }
      if p(s[0]) then [s[0]] + rest else rest
  }

  /** Filter keeps a string whose every character passes. */
  lemma {:induction false} FilterAll(s: string, p: char -> bool)
    requires forall i | 0 <= i < |s| :: p(s[i])
    ensures Filter(s, p) == s
  {
    if s != [] {
      FilterAll(s[1..], p);
    }
  }

  lemma {:induction false} FilterConcat(a: string, b: string, p: char -> bool)
    ensures Filter(a + b, p) == Filter(a, p) + Filter(b, p)
  {
    if a != [] {
      assert (a + b)[1..] == a[1..] + b;
      assert (a + b)[0] == a[0];
      FilterConcat(a[1..], b, p);
      if p(a[0]) {
        assert Filter(a, p) == [a[0]] + Filter(a[1..], p);
        assert Filter(a + b, p) == [a[0]] + Filter(a[1..] + b, p);
      }
    } else {
      assert a + b == b;
    }
  }

  lemma ReplaceCharConcat(a: string, b: string, x: char, y: char)
    ensures ReplaceChar(a + b, x, y) == ReplaceChar(a, x, y) + ReplaceChar(b, x, y)
  {
    assert forall i | 0 <= i < |a + b| :: (a + b)[i] == if i < |a| then a[i] else b[i - |a|];
  }

  /** Python's str.replace(pat, rep): every non-overlapping occurrence, left to right. */
  function ReplaceAll(s: string, pat: string, rep: string): string
    requires |pat| > 0
    decreases |s|
  {
    if StartsWith(s, pat) then rep + ReplaceAll(s[|pat|..], pat, rep)
    else if s == [] then []
    else [s[0]] + ReplaceAll(s[1..], pat, rep)
  }

  /** The number of separators in s. */
  function CountChar(s: string, c: char): nat
  {
    if s == [] then 0 else (if s[0] == c then 1 else 0) + CountChar(s[1..], c)
  }

  /** Python's s.split(c) for a one-character separator. */
  function SplitOn(s: string, c: char): (r: seq<string>)
    ensures |r| == CountChar(s, c) + 1
    ensures forall i | 0 <= i < |r| :: NoChar(r[i], c)
  {
    if s == [] then [""]
    else if s[0] == c then [""] + SplitOn(s[1..], c)
    else
      var rest := SplitOn(s[1..], c);
      [[s[0]] + rest[0]] + rest[1..]
  }

  /** A sequence of four known items is their display. */
  lemma FourItems<T>(p: seq<T>, w: T, x: T, y: T, z: T)
    requires |p| == 4 && p[0] == w && p[1] == x && p[2] == y && p[3] == z
    ensures p == [w, x, y, z]
  {
  }

  /** sep.join(parts) */
  function Join(parts: seq<string>, sep: string): string
  {
    if parts == [] then ""
    else if |parts| == 1 then parts[0]
    else parts[0] + sep + Join(parts[1..], sep)
  }

  lemma {:induction false} SplitOnPrefix(a: string, c: char, b: string)
    requires NoChar(a, c)
    ensures SplitOn(a + [c] + b, c) == [a] + SplitOn(b, c)
    decreases |a|
  {
    if a == [] {
      assert a + [c] + b == [c] + b;
      assert ([c] + b)[1..] == b;
    } else {
      var s := a + [c] + b;
      assert s[0] == a[0];
      assert s[1..] == a[1..] + [c] + b;
      SplitOnPrefix(a[1..], c, b);
      assert [a[0]] + a[1..] == a;
    }
  }

  lemma SplitOnNone(s: string, c: char)
    requires NoChar(s, c)
    ensures SplitOn(s, c) == [s]
    decreases |s|
  {
    if s != [] {
      SplitOnNone(s[1..], c);
      assert [s[0]] + s[1..] == s;
    }
  }

  /** Splitting a join on its one-character separator gives the parts back. */
  lemma {:induction false} SplitOnJoin(parts: seq<string>, c: char)
    requires |parts| > 0
    requires forall i | 0 <= i < |parts| :: NoChar(parts[i], c)
    ensures SplitOn(Join(parts, [c]), c) == parts
    decreases |parts|
  {
    if |parts| == 1 {
      SplitOnNone(parts[0], c);
    } else {
      SplitOnJoin(parts[1..], c);
      SplitOnPrefix(parts[0], c, Join(parts[1..], [c]));
      assert [parts[0]] + parts[1..] == parts;
    }
  }

  /** Index of the first line break of s, or |s| when there is none. */
  function FirstBreak(s: string): (k: nat)
    ensures k <= |s|
    ensures forall i | 0 <= i < k :: !IsLineBreak(s[i])
    ensures k < |s| ==> IsLineBreak(s[k])
  {
    if s == [] then 0 else if IsLineBreak(s[0]) then 0 else 1 + FirstBreak(s[1..])
  }

  /** Python's str.splitlines(): lines without their terminators, no trailing empty line. */
  function SplitLines(s: string): seq<string>
    decreases |s|
  {
    if s == [] then []
    else
      var k := FirstBreak(s);
      if k == |s| then [s]
      else
        var skip := if s[k] == '\r' && k + 1 < |s| && s[k + 1] == '\n' then 2 else 1;
        [s[..k]] + SplitLines(s[k + skip..])
  }

  predicate NoLineBreak(s: string)
  {
    forall i | 0 <= i < |s| :: !IsLineBreak(s[i])
  }

  lemma {:induction false} FirstBreakOfLine(a: string, b: string)
    requires NoLineBreak(a)
    ensures FirstBreak(a + "\n" + b) == |a|
    decreases |a|
  {
    if a != [] {
      assert (a + "\n" + b)[1..] == a[1..] + "\n" + b;
      FirstBreakOfLine(a[1..], b);
    }
  }

  lemma SplitLinesCons(a: string, b: string)
    requires NoLineBreak(a)
    ensures SplitLines(a + "\n" + b) == [a] + SplitLines(b)
  {
    var s := a + "\n" + b;
    FirstBreakOfLine(a, b);
    assert s[..|a|] == a;
    assert s[|a| + 1..] == b;
  }

  /** Writing lines joined by "\n" plus a final "\n" and reading them back with splitlines is lossless. */
  lemma {:induction false} SplitLinesOfJoin(rows: seq<string>)
    requires |rows| > 0
    requires forall i | 0 <= i < |rows| :: NoLineBreak(rows[i])
    ensures SplitLines(Join(rows, "\n") + "\n") == rows
    decreases |rows|
  {
    if |rows| == 1 {
      SplitLinesCons(rows[0], "");
      assert rows[0] + "\n" + "" == Join(rows, "\n") + "\n";
    } else {
      var rest := Join(rows[1..], "\n") + "\n";
      JoinConsLine(rows);
      SplitLinesCons(rows[0], rest);
      SplitLinesOfJoin(rows[1..]);
      assert [rows[0]] + rows[1..] == rows;
    }
  }

  lemma JoinConsLine(rows: seq<string>)
    requires |rows| > 1
    ensures Join(rows, "\n") + "\n" == rows[0] + "\n" + (Join(rows[1..], "\n") + "\n")
  {
    assert Join(rows, "\n") == rows[0] + "\n" + Join(rows[1..], "\n");
  }

  /** Length of the leading run of non-space characters. */
  function TokenLen(s: string): (k: nat)
    ensures k <= |s|
    ensures forall i | 0 <= i < k :: !IsSpace(s[i])
    ensures k < |s| ==> IsSpace(s[k])
  {
    if s == [] || IsSpace(s[0]) then 0 else 1 + TokenLen(s[1..])
  }

  /** Python's str.split() with no argument: maximal runs of non-space characters. */
  function SplitWs(s: string): (r: seq<string>)
    ensures forall i | 0 <= i < |r| :: IsToken(r[i])
    decreases |s|
  {
    var t := LStrip(s);
    if t == [] then []
    else
      TokenHead(t);
      var rest := SplitWs(t[TokenLen(t)..]);
      TokensCons(t[..TokenLen(t)], rest);
      [t[..TokenLen(t)]] + rest
  }

  lemma TokensCons(w: string, rest: seq<string>)
    requires IsToken(w) && forall i | 0 <= i < |rest| :: IsToken(rest[i])
    ensures forall i | 0 <= i < |[w] + rest| :: IsToken(([w] + rest)[i])
  {
  }

  /** Text starting with a non-space character starts with a whole token. */
  lemma TokenHead(t: string)
    requires t != [] && !IsSpace(t[0])
    ensures TokenLen(t) > 0 && IsToken(t[..TokenLen(t)])
  {
    var w := t[..TokenLen(t)];
    assert forall j | 0 <= j < |w| :: w[j] == t[j];
  }

  /** A non-empty word without whitespace. */
  predicate IsToken(w: string)
  {
    w != [] && forall j | 0 <= j < |w| :: !IsSpace(w[j])
  }

  /** A token followed by nothing or by whitespace is read whole. */
  lemma {:induction false} TokenLenOf(w: string, rest: string)
    requires IsToken(w)
    requires rest == [] || IsSpace(rest[0])
    ensures TokenLen(w + rest) == |w|
    decreases |w|
  {
    if |w| > 1 {
      assert (w + rest)[1..] == w[1..] + rest;
      TokenLenOf(w[1..], rest);
    } else {
      assert (w + rest)[1..] == rest;
    }
  }

  /** Leading whitespace does not change the words. */
  lemma SplitWsSpace(s: string)
    ensures SplitWs(" " + s) == SplitWs(s)
  {
    assert (" " + s)[1..] == s;
  }

  /** A single token is its own only word. */
  lemma SplitWsToken(w: string)
    requires IsToken(w)
    ensures SplitWs(w) == [w]
  {
    LStripNoSpace(w);
    TokenLenOf(w, "");
    assert w + "" == w;
    assert w[..|w|] == w && w[|w|..] == [];
    assert SplitWs([]) == [];
  }

  /** A token, a space, then more text: the token is the first word. */
  lemma SplitWsCons(w: string, t: string)
    requires IsToken(w)
    ensures SplitWs(w + " " + t) == [w] + SplitWs(t)
  {
    var rest := " " + t;
    var s := w + rest;
    assert s == w + " " + t;
    assert s[0] == w[0];
    assert LStrip(s) == s;
    TokenLenOf(w, rest);
    assert s[..|w|] == w && s[|w|..] == rest;
    SplitWsSpace(t);
  }

  /** Words joined by single spaces split back into the same words. */
  lemma {:induction false} SplitWsJoin(ws: seq<string>)
    requires forall i | 0 <= i < |ws| :: IsToken(ws[i])
    ensures SplitWs(Join(ws, " ")) == ws
    decreases |ws|
  {
    if |ws| == 1 {
      SplitWsToken(ws[0]);
    } else if |ws| > 1 {
      var t := Join(ws[1..], " ");
      assert Join(ws, " ") == ws[0] + " " + t;
      SplitWsCons(ws[0], t);
      SplitWsJoin(ws[1..]);
      assert ws == [ws[0]] + ws[1..];
    }
  }


  /** Text after the first c in s, empty when there is none (split(c, 1)[1] when it exists). */
  function AfterFirst(s: string, c: char): (r: string)
    ensures |r| <= |s|
    decreases |s|
  {
    if s == [] then [] else if s[0] == c then s[1..] else AfterFirst(s[1..], c)
  }

  /** Text before the first c (split(c, 1)[0]). */
  function BeforeFirst(s: string, c: char): (r: string)
    ensures NoChar(r, c)
    ensures StartsWith(s, r)
    decreases |s|
  {
    if s == [] || s[0] == c then [] else [s[0]] + BeforeFirst(s[1..], c)
  }

  lemma {:induction false} SplitFirstJoin(s: string, c: char)
    requires !NoChar(s, c)
    ensures BeforeFirst(s, c) + [c] + AfterFirst(s, c) == s
    decreases |s|
  {
    if s[0] != c {
      assert !NoChar(s[1..], c) by {
        var i :| 0 <= i < |s| && s[i] == c;
        assert s[1..][i - 1] == c;
      }
      SplitFirstJoin(s[1..], c);
      assert [s[0]] + s[1..] == s;
    } else {
      assert [c] + s[1..] == s;
    }
  }

  lemma {:induction false} AfterFirstSkips(a: string, b: string, c: char)
    requires NoChar(a, c)
    ensures AfterFirst(a + b, c) == AfterFirst(b, c)
    decreases |a|
  {
    if a == [] {
      assert a + b == b;
    } else {
      assert (a + b)[1..] == a[1..] + b;
      AfterFirstSkips(a[1..], b, c);
    }
  }

  /** Dropping a comma-free prefix does not move the text after the first comma. */
  lemma AfterFirstDrop(s: string, k: nat, c: char)
    requires k <= |s|
    requires forall i | 0 <= i < k :: s[i] != c
    ensures AfterFirst(s, c) == AfterFirst(s[k..], c)
  {
    assert s[..k] + s[k..] == s;
    AfterFirstSkips(s[..k], s[k..], c);
  }

  lemma NoLineBreakAppend(a: string, b: string)
    requires NoLineBreak(a) && NoLineBreak(b)
    ensures NoLineBreak(a + b)
  {
    assert forall i | 0 <= i < |a + b| :: (a + b)[i] == if i < |a| then a[i] else b[i - |a|];
  }

  lemma DigitsNoLineBreak(s: string)
    requires forall i | 0 <= i < |s| :: IsDigit(s[i])
    ensures NoLineBreak(s)
  {
  }

  /** Leading whitespace never holds the separator c. */
  lemma AfterFirstLStrip(s: string, c: char)
    requires !IsSpace(c)
    ensures AfterFirst(s, c) == AfterFirst(LStrip(s), c)
  {
    var k := |s| - |LStrip(s)|;
    assert forall i | 0 <= i < k :: IsSpace(s[i]);
    AfterFirstDrop(s, k, c);
  }

  /** A case-insensitive match of a separator-free word never holds the separator c. */
  lemma AfterFirstCiPrefix(s: string, p: string, c: char)
    requires CiStartsWith(s, p)
    requires NoChar(p, c) && LowerChar(c) == c
    ensures AfterFirst(s, c) == AfterFirst(s[|p|..], c)
  {
    AfterFirstDrop(s, |p|, c);
  }

  lemma AfterFirstHead(s: string, c: char)
    requires s != [] && s[0] == c
    ensures AfterFirst(s, c) == s[1..]
  {
  }
}
