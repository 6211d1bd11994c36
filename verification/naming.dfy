/**
 * Title clean-up for file and folder names: the allowlist filters that turn
 * a user-supplied title into a name a shell can use without quoting.
 * Paths use '/' as the only separator (os.sep on POSIX).
 */
module Naming {

  import opened Text

  /** Characters clean_title keeps before mapping spaces: [a-zA-Z0-9 ]. */
  predicate TitleChar(c: char)
  {
    IsAsciiAlnum(c) || c == ' '
  }

  /** clean_title: drop everything outside [a-zA-Z0-9 ], then turn spaces into '_'. */
  function CleanTitle(s: string): (r: string)
    ensures forall i | 0 <= i < |r| :: IsWordChar(r[i])
    ensures |r| <= |s|
    ensures |r| == |s| <==> forall i | 0 <= i < |s| :: TitleChar(s[i])
  {
    ReplaceChar(Filter(s, TitleChar), ' ', '_')
  }

  /** clean_title works character by character, so it distributes over concatenation. */
  lemma CleanTitleConcat(a: string, b: string)
    ensures CleanTitle(a + b) == CleanTitle(a) + CleanTitle(b)
  {
    FilterConcat(a, b, TitleChar);
    ReplaceCharConcat(Filter(a, TitleChar), Filter(b, TitleChar), ' ', '_');
  }

  /** clean_title leaves a title unchanged exactly when it is made of ASCII letters and digits. */
  lemma CleanTitleFixedPoint(s: string)
    ensures CleanTitle(s) == s <==> forall i | 0 <= i < |s| :: IsAsciiAlnum(s[i])
  {
    if forall i | 0 <= i < |s| :: IsAsciiAlnum(s[i]) {
      var f := Filter(s, TitleChar);
      assert |f| == |s|;
      FilterAll(s, TitleChar);
    }
    if CleanTitle(s) == s {
      // Every kept character is a word character and was a title character, so not a space.
      forall i | 0 <= i < |s| ensures IsAsciiAlnum(s[i]) {
        assert IsWordChar(CleanTitle(s)[i]) && TitleChar(s[i]);
      }
    }
  }

  /** The characters of a sanitized folder name: [A-Za-z0-9._-]. */
  predicate DirChar(c: char)
  {
    IsAsciiAlnum(c) || c == '.' || c == '_' || c == '-'
  }

  /** Characters the sanitizer replaces: outside the allowlist and not a space. */
  predicate Rejected(c: char)
  {
    !DirChar(c) && c != ' '
  }

  predicate IsUnderscore(c: char)
  {
    c == '_'
  }

  /** Characters trimmed from both ends of a sanitized name. */
  const EdgeChars: set<char> := {'.', '_', '-'}

  const Untitled: string := "Untitled"

  /** No two adjacent copies of c. */
  predicate NoDouble(s: string, c: char)
  {
    forall i | 0 <= i < |s| - 1 :: !(s[i] == c && s[i + 1] == c)
  }

  /** s without its leading characters that satisfy p. */
  function DropRun(s: string, p: char -> bool): (r: string)
    ensures |r| <= |s| && r == s[|s| - |r|..]
    ensures r == [] || !p(r[0])
  {
    if s != [] && p(s[0]) then DropRun(s[1..], p) else s
  }

  /** re.sub("[...]+", rep, s): every maximal run of characters satisfying p becomes one rep. */
  function SubRuns(s: string, p: char -> bool, rep: char): (r: string)
    ensures forall i | 0 <= i < |r| :: r[i] == rep || !p(r[i])
    ensures s == [] <==> r == []
    ensures s != [] ==> r[0] == (if p(s[0]) then rep else s[0])
    ensures p(rep) ==> NoDouble(r, rep)
    decreases |s|
  {
    if s == [] then []
    else if p(s[0]) then
      var rest := SubRuns(DropRun(s[1..], p), p, rep);
      assert rest == [] || !p(rest[0]);
      [rep] + rest
    else
      [s[0]] + SubRuns(s[1..], p, rep)
  }

  /** Whatever class of characters s is drawn from, SubRuns only adds rep to it. */
  lemma {:induction false} SubRunsKeeps(s: string, p: char -> bool, rep: char, q: char -> bool)
    requires forall i | 0 <= i < |s| :: q(s[i])
    ensures forall i | 0 <= i < |SubRuns(s, p, rep)| :: SubRuns(s, p, rep)[i] == rep || q(SubRuns(s, p, rep)[i])
    decreases |s|
  {
    if s != [] {
      if p(s[0]) {
        var t := DropRun(s[1..], p);
        assert forall i | 0 <= i < |t| :: t[i] == s[|s| - |t| + i];
        SubRunsKeeps(t, p, rep, q);
        assert SubRuns(s, p, rep) == [rep] + SubRuns(t, p, rep);
      } else {
        var t := s[1..];
        assert forall i | 0 <= i < |t| :: t[i] == s[i + 1];
        SubRunsKeeps(t, p, rep, q);
        assert SubRuns(s, p, rep) == [s[0]] + SubRuns(t, p, rep);
      }
    }
  }

  /** With no character to replace, SubRuns changes nothing. */
  lemma {:induction false} SubRunsNone(s: string, p: char -> bool, rep: char)
    requires forall i | 0 <= i < |s| :: !p(s[i])
    ensures SubRuns(s, p, rep) == s
  {
    if s != [] {
      SubRunsNone(s[1..], p, rep);
    }
  }

  /** Collapsing runs of '_' leaves a string with no doubled '_' unchanged. */
  lemma {:induction false} SubRunsCollapsed(s: string)
    requires NoDouble(s, '_')
    ensures SubRuns(s, IsUnderscore, '_') == s
  {
    if s != [] {
      var tail := s[1..];
      assert NoDouble(tail, '_') by {
        assert forall i | 0 <= i < |tail| :: tail[i] == s[i + 1];
      }
      SubRunsCollapsed(tail);
      if s[0] == '_' {
        assert tail == [] || !IsUnderscore(tail[0]) by {
          if tail != [] { assert s[1] == tail[0]; }
        }
        assert DropRun(tail, IsUnderscore) == tail;
      }
    }
  }

  /** str.strip(chars): the piece of s left after trimming chars in cs from both ends. */
  function StripChars(s: string, cs: set<char>): (r: string)
    ensures var k := |s| - |LStripChars(s, cs)|; k + |r| <= |s| && r == s[k..k + |r|]
    ensures r == [] || (r[0] !in cs && r[|r| - 1] !in cs)
  {
    var l := LStripChars(s, cs);
    var r := RStripChars(l, cs);
    PrefixOfSuffix(s, l, r);
    r
  }

  /** A prefix of a suffix of s is the slice of s that starts where the suffix does. */
  lemma PrefixOfSuffix<T>(s: seq<T>, l: seq<T>, r: seq<T>)
    requires |l| <= |s| && l == s[|s| - |l|..]
    requires |r| <= |l| && r == l[..|r|]
    ensures r == s[|s| - |l|..|s| - |l| + |r|]
  {
  }

  predicate AllDirChars(t: string)
  {
    forall i | 0 <= i < |t| :: DirChar(t[i])
  }

  /** Every character is allowed or a space. */
  predicate DirOrSpace(t: string)
  {
    forall i | 0 <= i < |t| :: DirChar(t[i]) || t[i] == ' '
  }

  /** What every sanitized folder name satisfies. */
  predicate DirName(t: string)
  {
    && t != []
    && AllDirChars(t)
    && NoDouble(t, '_')
    && t[0] !in EdgeChars && t[|t| - 1] !in EdgeChars
  }

  /** A contiguous piece of a string keeps its per-character properties. */
  lemma SliceKeeps(s: string, k: nat, n: nat)
    requires k + n <= |s|
    requires AllDirChars(s) && NoDouble(s, '_')
    ensures AllDirChars(s[k..k + n]) && NoDouble(s[k..k + n], '_')
  {
    var t := s[k..k + n];
    assert forall i | 0 <= i < n :: t[i] == s[k + i];
  }

  /** Separators to '_', then each run of rejected characters to one '_'. */
  function ReplaceRejected(s: string): (b: string)
    ensures DirOrSpace(b)
  {
    var b := SubRuns(ReplaceChar(s, '/', '_'), Rejected, '_');
    UnrejectedIsDirOrSpace(b);
    b
  }

  lemma UnrejectedIsDirOrSpace(b: string)
    requires forall i | 0 <= i < |b| :: b[i] == '_' || !Rejected(b[i])
    ensures DirOrSpace(b)
  {
  }

  /** Spaces to '_', then each run of '_' to one. */
  function CollapseUnderscores(b: string): (d: string)
    ensures DirOrSpace(b) ==> AllDirChars(d)
    ensures NoDouble(d, '_')
  {
    var c := ReplaceChar(b, ' ', '_');
    if DirOrSpace(b) then
      SubRunsKeeps(c, IsUnderscore, '_', DirChar);
      SubRuns(c, IsUnderscore, '_')
    else
      SubRuns(c, IsUnderscore, '_')
  }

  /** The trimmed, collapsed name, before the fallback to "Untitled". */
  function SanitizeSteps(s: string): (e: string)
    ensures e == [] || DirName(e)
  {
    var d := CollapseUnderscores(ReplaceRejected(s));
    TrimmedIsDirName(d);
    StripChars(d, EdgeChars)
  }

  /** Trimming the edge characters off a clean string leaves a well-formed name or nothing. */
  lemma TrimmedIsDirName(d: string)
    requires AllDirChars(d) && NoDouble(d, '_')
    ensures StripChars(d, EdgeChars) == [] || DirName(StripChars(d, EdgeChars))
  {
    var e := StripChars(d, EdgeChars);
    SliceKeeps(d, |d| - |LStripChars(d, EdgeChars)|, |e|);
  }

  lemma UntitledIsDirName()
    ensures DirName(Untitled)
  {
  }

  /**
   * sanitize_title_for_dir: trim, map '/' to '_', replace each run of
   * characters outside [A-Za-z0-9._- ] by '_', map spaces to '_', collapse
   * runs of '_', trim '.', '_' and '-' from both ends, and fall back to
   * "Untitled" when nothing is left.
   */
  function SanitizeTitleForDir(raw: string): (r: string)
    ensures DirName(r)
    ensures forall i | 0 <= i < |r| :: r[i] != '/' && r[i] != ' '
  {
    var s := Strip(raw);
    var e := if s == [] then [] else SanitizeSteps(s);
    var r := if e == [] then Untitled else e;
    UntitledIsDirName();
    DirNameIsClean(r);
    r
  }

  /** A well-formed name has no separator and no space. */
  lemma DirNameIsClean(t: string)
    requires DirName(t)
    ensures forall i | 0 <= i < |t| :: t[i] != '/' && t[i] != ' '
  {
  }

  /** Every step of the sanitizer leaves a well-formed folder name alone. */
  lemma SanitizeStepsKeep(t: string)
    requires DirName(t)
    ensures SanitizeSteps(t) == t
  {
    ReplaceRejectedKeeps(t);
    CollapseKeeps(t);
    StripCharsKeeps(t, EdgeChars);
  }

  /** A name made of allowed characters has nothing for the first step to replace. */
  lemma ReplaceRejectedKeeps(t: string)
    requires AllDirChars(t)
    ensures ReplaceRejected(t) == t
  {
    ReplaceAbsent(t, '/', '_');
    SubRunsNone(t, Rejected, '_');
  }

  /** A name of allowed characters without doubled '_' has nothing to collapse. */
  lemma CollapseKeeps(t: string)
    requires AllDirChars(t) && NoDouble(t, '_')
    ensures CollapseUnderscores(t) == t
  {
    ReplaceAbsent(t, ' ', '_');
    SubRunsCollapsed(t);
  }

  /** Trimming leaves a string alone when neither end is trimmable. */
  lemma StripCharsKeeps(t: string, cs: set<char>)
    requires t != [] && t[0] !in cs && t[|t| - 1] !in cs
    ensures StripChars(t, cs) == t
  {
    assert LStripChars(t, cs) == t;
  }

  /** The names sanitize_title_for_dir returns unchanged are exactly the well-formed ones. */
  lemma SanitizeFixedPoint(t: string)
    ensures SanitizeTitleForDir(t) == t <==> DirName(t)
  {
    if DirName(t) {
      assert !IsSpace(t[0]) && !IsSpace(t[|t| - 1]);
      StripUnchanged(t);
      SanitizeStepsKeep(t);
    }
  }

  /** Sanitizing twice is the same as sanitizing once. */
  lemma SanitizeIdempotent(raw: string)
    ensures SanitizeTitleForDir(SanitizeTitleForDir(raw)) == SanitizeTitleForDir(raw)
  {
    SanitizeFixedPoint(SanitizeTitleForDir(raw));
  }

  /** The legacy sanitizer: spaces and '/' become '_', nothing else changes. */
  function SanitizeTitleForDirLegacy(raw: string): (r: string)
    ensures |r| == |raw|
    ensures forall i | 0 <= i < |r| :: r[i] != ' ' && r[i] != '/'
    ensures forall i | 0 <= i < |r| :: raw[i] != ' ' && raw[i] != '/' ==> r[i] == raw[i]
  {
    ReplaceChar(ReplaceChar(raw, ' ', '_'), '/', '_')
  }

  /** The legacy sanitizer is idempotent too. */
  lemma SanitizeLegacyIdempotent(raw: string)
    ensures SanitizeTitleForDirLegacy(SanitizeTitleForDirLegacy(raw)) == SanitizeTitleForDirLegacy(raw)
  {
  }
}
