/**
 * Reading HandBrake's preset list: which output lines name a preset, the
 * order-preserving removal of repeats, and the fallback between the plain
 * and the interactive remote shell. Remote commands are oracle results.
 */
module Presets {

  import opened Common
  import opened Text

  const Indent: set<char> := {' ', '\t'}
  const LineEnds: set<char> := {'\r', '\n'}

  /** The leading run of spaces and tabs, as line.lstrip(" \t") measures it. */
  function IndentLen(line: string): (n: nat)
    ensures n <= |line|
  {
    |line| - |LStripChars(line, Indent)|
  }

  /** Warnings and notices HandBrake mixes into the listing. */
  predicate IsNoise(s: string)
  {
    StartsWith(s, "[") || StartsWith(s, "Cannot load") || s == "HandBrake has exited."
  }

  /** An unindented line ending in '/' heads a category. */
  predicate IsCategory(line: string)
  {
    !StartsWith(line, " ") && EndsWith(LStripChars(line, Indent), "/")
  }

  /**
   * The preset a listing line names, if any: only lines indented by 2 to 6
   * spaces or tabs count (descriptions are indented deeper), and a name is
   * never empty and never ends in '/'.
   */
  function PresetLine(line: string): (name: Option<string>)
    ensures name.Some? <==>
      && Strip(line) != []
      && !IsNoise(LStripChars(line, Indent))
      && !IsCategory(line)
      && 2 <= IndentLen(line) <= 6
      && Strip(LStripChars(line, Indent)) != []
      && !EndsWith(Strip(LStripChars(line, Indent)), "/")
    ensures name.Some? ==> name.value == Strip(LStripChars(line, Indent))
  {
    var s := LStripChars(line, Indent);
    if Strip(line) == [] || IsNoise(s) || IsCategory(line) || !(2 <= IndentLen(line) <= 6) then None
    else
      var name := Strip(s);
      if name == [] || EndsWith(name, "/") then None else Some(name)
  }

  /** The per-line step of fetch_handbrake_presets, after dropping the line terminator. */
  function PresetOfLine(raw: string): (name: Option<string>)
  {
    PresetLine(RStripChars(raw, LineEnds))
  }

  /** The presets named by the lines, in order, repeats included. */
  function ParsePresetLines(lines: seq<string>): seq<string>
  {
    FilterMap(lines, PresetOfLine)
  }

  /** No value occurs twice. */
  predicate NoRepeats(xs: seq<string>)
  {
    forall i, j | 0 <= i < j < |xs| :: xs[i] != xs[j]
  }

  /** Reference for the de-duplication: keep each value not yet seen, in order. */
  function KeepFirst(xs: seq<string>, seen: set<string>): (ys: seq<string>)
    ensures NoRepeats(ys)
    ensures forall y | y in ys :: y in xs && y !in seen
    ensures forall x | x in xs && x !in seen :: x in ys
  {
    if xs == [] then []
    else if xs[0] in seen then
      var r := KeepFirst(xs[1..], seen);
      assert forall y | y in r :: y in xs by {
        forall y | y in r ensures y in xs {
          assert y in xs[1..];
        }
      }
      r
    else
      var r := KeepFirst(xs[1..], seen + {xs[0]});
      assert forall y | y in r :: y in xs by {
        forall y | y in r ensures y in xs {
          assert y in xs[1..];
        }
      }
      assert forall x | x in xs && x !in seen && x != xs[0] :: x in r by {
        forall x | x in xs && x !in seen && x != xs[0] ensures x in r {
          var j :| 0 <= j < |xs| && xs[j] == x;
          assert xs[1..][j - 1] == x;
        }
      }
      [xs[0]] + r
  }

  /** Index of the first occurrence of x. */
  function FirstIndex(xs: seq<string>, x: string): (k: nat)
    requires x in xs
    ensures k < |xs| && xs[k] == x
    ensures forall i | 0 <= i < k :: xs[i] != x
  {
    if xs[0] == x then 0 else 1 + FirstIndex(xs[1..], x)
  }

  /** Kept values appear in the order of their first occurrence in the input. */
  lemma {:induction false} KeepFirstOrder(xs: seq<string>, seen: set<string>, i: nat, j: nat)
    requires i < j < |KeepFirst(xs, seen)|
    ensures FirstIndex(xs, KeepFirst(xs, seen)[i]) < FirstIndex(xs, KeepFirst(xs, seen)[j])
    decreases |xs|
  {
    var ys := KeepFirst(xs, seen);
    if xs[0] in seen {
      var r := KeepFirst(xs[1..], seen);
      KeepFirstOrder(xs[1..], seen, i, j);
      assert ys[i] != xs[0] && ys[j] != xs[0];
      FirstIndexTail(xs, ys[i]);
      FirstIndexTail(xs, ys[j]);
    } else {
      var r := KeepFirst(xs[1..], seen + {xs[0]});
      if i == 0 {
        assert ys[0] == xs[0];
        assert ys[j] == r[j - 1] && r[j - 1] in r;
        assert FirstIndex(xs, ys[j]) > 0;
      } else {
        KeepFirstOrder(xs[1..], seen + {xs[0]}, i - 1, j - 1);
        assert ys[i] == r[i - 1] && ys[j] == r[j - 1];
        assert r[i - 1] in r && r[j - 1] in r;
        FirstIndexTail(xs, ys[i]);
        FirstIndexTail(xs, ys[j]);
      }
    }
  }

  lemma FirstIndexTail(xs: seq<string>, x: string)
    requires x in xs && xs[0] != x
    ensures x in xs[1..] && FirstIndex(xs, x) == 1 + FirstIndex(xs[1..], x)
  {
    var k :| 0 <= k < |xs| && xs[k] == x;
    assert xs[1..][k - 1] == x;
  }

  /** The de-duplication loop of fetch_handbrake_presets. */
  method Dedupe(presets: seq<string>) returns (unique: seq<string>)
    ensures unique == KeepFirst(presets, {})
  {
    var seen: set<string> := {};
    unique := [];
    var k := 0;
    while k < |presets|
      invariant 0 <= k <= |presets|
      invariant unique + KeepFirst(presets[k..], seen) == KeepFirst(presets, {})
    {
      var p := presets[k];
      assert presets[k..][1..] == presets[k + 1..];
      if p !in seen {
        seen := seen + {p};
        unique := unique + [p];
      }
      k := k + 1;
    }
  }

  /** What a remote command returned: its exit code and its output. */
  datatype Run = Run(code: int, out: string)

  /** The fetch's outcome: which shell ran the list command, if any, and the presets. */
  datatype Fetch = Fetch(listedWith: Option<bool>, presets: seq<string>)

  /**
   * fetch_handbrake_presets with the remote commands as oracles: the plain
   * and the interactive precheck, and the list command per shell. The list
   * runs in the interactive shell only when the plain precheck failed and
   * the interactive one passed.
   */
  method FetchHandbrakePresets(precheck: Run, precheckInteractive: Run, list: bool -> Run) returns (f: Fetch)
    ensures f.listedWith.None? <==> precheck.code != 0 && precheckInteractive.code != 0
    ensures f.listedWith == Some(true) <==> precheck.code != 0 && precheckInteractive.code == 0
    ensures f.listedWith.None? ==> f.presets == []
    ensures f.listedWith.Some? && list(f.listedWith.value).code != 0 ==> f.presets == []
    ensures f.listedWith.Some? && list(f.listedWith.value).code == 0 ==>
      f.presets == KeepFirst(ParsePresetLines(SplitLines(list(f.listedWith.value).out)), {})
    ensures NoRepeats(f.presets)
  {
    var interactive := false;
    if precheck.code != 0 {
      if precheckInteractive.code != 0 {
        return Fetch(None, []);
      }
      interactive := true;
    }
    var listing := list(interactive);
    if listing.code != 0 {
      return Fetch(Some(interactive), []);
    }
    var unique := Dedupe(ParsePresetLines(SplitLines(listing.out)));
    return Fetch(Some(interactive), unique);
  }
}
