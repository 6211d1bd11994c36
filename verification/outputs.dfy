/**
 * Output naming on the server side: encode lock paths, free file names for
 * extras and external subtitles, the HandBrake subtitle switches, subtitle
 * language tags, and the set of filesystems watched for free space.
 * "present" is the set of paths that exist once stale locks are cleared.
 */
module Outputs {

  import opened Common
  import opened Text
  import opened Paths
  import opened Cleanup

  const LockSuffix: string := ".enc.lock"

  /** encode_lock_path: the output path with ".enc.lock" appended. */
  function EncodeLockPath(out: string): (lock: string)
    ensures |lock| == |out| + 9
    ensures StartsWith(lock, out) && EndsWith(lock, LockSuffix)
  {
    var lock := out + LockSuffix;
    assert lock[..|out|] == out;
    assert lock[|out|..] == LockSuffix;
    lock
  }

  /** Distinct outputs have distinct locks. */
  lemma EncodeLockPathInjective(a: string, b: string)
    requires EncodeLockPath(a) == EncodeLockPath(b)
    ensures a == b
  {
    assert a == EncodeLockPath(a)[..|a|];
  }

  /** The format {i:02d} for 0 <= i < 100. */
  function Pad2(n: nat): (r: string)
    requires n < 100
    ensures |r| == 2 && AllDigits(r) && DigitsValue(r) == n
  {
    var r := [DigitChar(n / 10), DigitChar(n % 10)];
    assert r[..1] == [DigitChar(n / 10)];
    assert [DigitChar(n / 10)][..0] == [];
    assert DigitsValue([DigitChar(n / 10)]) == n / 10;
    r
  }

  /** Two numbers below 100 print differently. */
  lemma Pad2Injective(a: nat, b: nat)
    requires a < 100 && b < 100 && Pad2(a) == Pad2(b)
    ensures a == b
  {
  }

  /** The n-th name unique_out_path tries: stem.ext first, then stem-02.ext .. stem-99.ext. */
  function OutName(stem: string, ext: string, n: nat): string
    requires n < 100
  {
    if n <= 1 then stem + "." + ext else stem + "-" + Pad2(n) + "." + ext
  }

  function OutCandidate(dir: string, stem: string, ext: string, n: nat): string
    requires n < 100
  {
    JoinPath(dir, OutName(stem, ext, n))
  }

  /** Neither the file nor its encode lock is there. */
  predicate Free(p: string, present: set<string>)
  {
    p !in present && EncodeLockPath(p) !in present
  }

  /** Candidate n is free and every earlier candidate is taken. */
  predicate FirstFreeOut(dir: string, stem: string, ext: string, present: set<string>, n: nat)
  {
    && 1 <= n <= 99
    && Free(OutCandidate(dir, stem, ext, n), present)
    && forall m | 1 <= m < n :: !Free(OutCandidate(dir, stem, ext, m), present)
  }

  /**
   * unique_out_path: the first free name in trying order, or the error
   * raised when all 99 are taken.
   */
  method UniqueOutPath(present: set<string>, dir: string, stem: string, ext: string) returns (r: Result<string, string>)
    ensures r.Ok? ==> exists n :: FirstFreeOut(dir, stem, ext, present, n) && r.value == OutCandidate(dir, stem, ext, n)
    ensures r.Err? <==> forall n | 1 <= n <= 99 :: !Free(OutCandidate(dir, stem, ext, n), present)
    ensures r.Err? ==> r.error == "Could not find a free filename for: " + dir + "/" + stem + "." + ext
  {
    if Free(OutCandidate(dir, stem, ext, 1), present) {
      assert FirstFreeOut(dir, stem, ext, present, 1);
      return Ok(OutCandidate(dir, stem, ext, 1));
    }
    var i := 2;
    while i < 100
      invariant 2 <= i <= 100
      invariant forall m | 1 <= m < i :: !Free(OutCandidate(dir, stem, ext, m), present)
    {
      if Free(OutCandidate(dir, stem, ext, i), present) {
        assert FirstFreeOut(dir, stem, ext, present, i);
        return Ok(OutCandidate(dir, stem, ext, i));
      }
      i := i + 1;
    }
    return Err("Could not find a free filename for: " + dir + "/" + stem + "." + ext);
  }

  /** The names unique_out_path tries are pairwise distinct. */
  lemma OutNamesDistinct(stem: string, ext: string, a: nat, b: nat)
    requires 1 <= a < b <= 99
    ensures OutName(stem, ext, a) != OutName(stem, ext, b)
  {
    if a > 1 {
      var x := OutName(stem, ext, a);
      var y := OutName(stem, ext, b);
      assert x[|stem| + 1..|stem| + 3] == Pad2(a);
      assert y[|stem| + 1..|stem| + 3] == Pad2(b);
      if x == y {
        Pad2Injective(a, b);
      }
    } else {
      assert |OutName(stem, ext, b)| == |OutName(stem, ext, a)| + 3;
    }
  }

  /** The n-th name _subtitle_output_path tries: base + ext, then base.02 + ext .. base.99 + ext. */
  function SubName(base: string, ext: string, n: nat): string
    requires n < 100
  {
    if n <= 1 then base + ext else base + "." + Pad2(n) + ext
  }

  /**
   * _subtitle_output_path: the first name that does not exist; when all 99
   * exist it returns the first one anyway (and the caller overwrites it).
   */
  method SubtitleOutputPath(present: set<string>, base: string, ext: string) returns (r: string)
    ensures r !in present ==> exists n | 1 <= n <= 99 :: r == SubName(base, ext, n) && forall m | 1 <= m < n :: SubName(base, ext, m) in present
    ensures r in present <==> forall n | 1 <= n <= 99 :: SubName(base, ext, n) in present
    ensures r in present ==> r == base + ext
  {
    if SubName(base, ext, 1) !in present {
      return SubName(base, ext, 1);
    }
    var i := 2;
    while i < 100
      invariant 2 <= i <= 100
      invariant forall m | 1 <= m < i :: SubName(base, ext, m) in present
    {
      if SubName(base, ext, i) !in present {
        return SubName(base, ext, i);
      }
      i := i + 1;
    }
    return base + ext;
  }

  const SoftSubtitleArgs: seq<string> := ["--all-subtitles", "--subtitle-default=none"]
  const NoSubtitleArgs: seq<string> := ["--subtitle=none"]

  /** The subtitle mode as compared: an empty setting means "preset"; blanks and case are ignored. */
  function SubtitleMode(mode: string): string
  {
    Lower(Strip(if mode == "" then "preset" else mode))
  }

  /**
   * handbrake_subtitle_args: "soft" keeps every track selectable, "none" and
   * "external" burn nothing in, and any other mode leaves the preset alone.
   */
  function HandbrakeSubtitleArgs(mode: string): (args: seq<string>)
    ensures args == SoftSubtitleArgs <==> SubtitleMode(mode) == "soft"
    ensures args == NoSubtitleArgs <==> SubtitleMode(mode) in {"none", "external"}
    ensures args == [] <==> SubtitleMode(mode) !in {"soft", "none", "external"}
  {
    var m := SubtitleMode(mode);
    if m == "soft" then SoftSubtitleArgs
    else if m in {"none", "external"} then NoSubtitleArgs
    else []
  }

  /** Lower-casing a character never makes or removes a blank. */
  lemma LowerCharSpace(c: char)
    ensures IsSpace(LowerChar(c)) <==> IsSpace(c)
  {
    if 'A' <= c <= 'Z' {
      assert 'a' <= LowerChar(c) <= 'z';
    }
  }

  lemma LowerIdempotent(s: string)
    ensures Lower(Lower(s)) == Lower(s)
  {
  }

  /** Lower-casing keeps blanks blank and non-blanks non-blank, so a trimmed string stays trimmed. */
  lemma LowerKeepsStripped(s: string)
    requires s == [] || (!IsSpace(s[0]) && !IsSpace(s[|s| - 1]))
    ensures Strip(Lower(s)) == Lower(s)
  {
    var t := Lower(s);
    if s != [] {
      LowerCharSpace(s[0]);
      LowerCharSpace(s[|s| - 1]);
    }
    StripUnchanged(t);
  }

  /** An empty mode reads as "preset". */
  lemma EmptyModeIsPreset()
    ensures SubtitleMode("") == "preset"
  {
    var p := "preset";
    assert p[0] == 'p' && p[5] == 't';
    StripUnchanged(p);
    assert Lower(p) == p;
  }

  /** A normalised mode that is not empty normalises to itself. */
  lemma ModeNormalised(mode: string)
    ensures SubtitleMode(mode) == "" || SubtitleMode(SubtitleMode(mode)) == SubtitleMode(mode)
  {
    var s := Strip(if mode == "" then "preset" else mode);
    StripEnds(if mode == "" then "preset" else mode);
    LowerKeepsStripped(s);
    LowerIdempotent(s);
  }

  /** The switches depend only on the normalised mode: case and surrounding blanks do not matter. */
  lemma SubtitleArgsNormalised(mode: string)
    ensures HandbrakeSubtitleArgs(mode) == HandbrakeSubtitleArgs(SubtitleMode(mode))
  {
    ModeNormalised(mode);
    if SubtitleMode(mode) == "" {
      EmptyModeIsPreset();
    }
  }

  predicate IsLowerLetter(c: char)
  {
    'a' <= c <= 'z'
  }

  /** The ASCII letters left after lower-casing, in order. */
  function LangLetters(raw: string): (r: string)
    ensures forall i | 0 <= i < |r| :: IsLowerLetter(r[i])
  {
    Filter(Lower(Strip(raw)), IsLowerLetter)
  }

  /**
   * _normalize_subtitle_language: the first two ASCII letters of the
   * lower-cased code, or "und" when it has fewer than two.
   */
  function NormalizeSubtitleLanguage(raw: string): (tag: string)
    ensures |LangLetters(raw)| >= 2 ==> tag == LangLetters(raw)[..2]
    ensures |LangLetters(raw)| < 2 <==> tag == "und"
    ensures tag == "und" || (|tag| == 2 && IsLowerLetter(tag[0]) && IsLowerLetter(tag[1]))
  {
    var letters := LangLetters(raw);
    if |letters| >= 2 then letters[..2] else "und"
  }

  /** Lower-casing leaves lower-case letters alone. */
  lemma LowerOfLetters(s: string)
    requires forall i | 0 <= i < |s| :: IsLowerLetter(s[i])
    ensures Lower(s) == s
  {
  }

  /** A code made only of lower-case ASCII letters is its own letter content. */
  lemma LettersKept(s: string)
    requires forall i | 0 <= i < |s| :: IsLowerLetter(s[i])
    ensures LangLetters(s) == s
  {
    if s != [] {
      assert IsLowerLetter(s[0]) && IsLowerLetter(s[|s| - 1]);
      StripUnchanged(s);
    }
    LowerOfLetters(s);
    FilterAll(s, IsLowerLetter);
  }

  /** A two-letter lower-case tag is kept as it is. */
  lemma TwoLetterTagKept(tag: string)
    requires |tag| == 2 && IsLowerLetter(tag[0]) && IsLowerLetter(tag[1])
    ensures NormalizeSubtitleLanguage(tag) == tag
  {
    forall i | 0 <= i < |tag| ensures IsLowerLetter(tag[i]) {
      assert i == 0 || i == 1;
    }
    LettersKept(tag);
    assert tag[..2] == tag;
    assert LangLetters(tag)[..2] == tag;
  }

  /** Normalising is not idempotent: the fallback "und" itself normalises to "un". */
  lemma UndNormalisesToUn()
    ensures NormalizeSubtitleLanguage("und") == "un"
  {
    var u := "und";
    assert IsLowerLetter(u[0]) && IsLowerLetter(u[1]) && IsLowerLetter(u[2]);
    LettersKept(u);
    assert u[..2] == "un";
  }

  /**
   * _disk_targets_for_run: the home base first, then each configured
   * movies/series setting that is a local path.
   */
  function DiskTargetsForRun(homeBase: string, moviesDir: string, seriesDir: string): (targets: seq<string>)
    ensures targets == [homeBase] + ExcludeRoots(moviesDir, seriesDir)
    ensures 1 <= |targets| <= 3 && targets[0] == homeBase
  {
    var ts := [homeBase];
    var ts := if moviesDir != [] && !IsRemoteDest(Some(moviesDir)) then ts + [moviesDir] else ts;
    if seriesDir != [] && !IsRemoteDest(Some(seriesDir)) then ts + [seriesDir] else ts
  }

  /** The device of a path; a path missing from the map is one whose stat failed. */
  type DeviceMap = map<string, int>

  /** No two kept paths with a known device share it. */
  predicate DistinctDevices(ps: seq<string>, dev: DeviceMap)
  {
    forall i, j | 0 <= i < j < |ps| && ps[i] in dev && ps[j] in dev :: dev[ps[i]] != dev[ps[j]]
  }

  /** Some path of ps has device d. */
  predicate DeviceSeen(ps: seq<string>, dev: DeviceMap, d: int)
  {
    exists i | 0 <= i < |ps| :: ps[i] in dev && dev[ps[i]] == d
  }

  /**
   * The paths to keep, stated path by path: the last path of ps is kept when
   * its device is unknown or no earlier path has that device.
   */
  function FirstPerDevice(ps: seq<string>, dev: DeviceMap): seq<string>
    decreases |ps|
  {
    if ps == [] then []
    else
      var init := ps[..|ps| - 1];
      var last := ps[|ps| - 1];
      FirstPerDevice(init, dev)
        + (if last !in dev || !DeviceSeen(init, dev, dev[last]) then [last] else [])
  }

  /**
   * What the kept paths promise: drawn from the input, no two sharing a
   * known device, every device of the input still represented, and every
   * path of unknown device kept.
   */
  lemma {:induction false} FirstPerDeviceKeeps(ps: seq<string>, dev: DeviceMap)
    ensures forall i | 0 <= i < |FirstPerDevice(ps, dev)| :: FirstPerDevice(ps, dev)[i] in ps
    ensures |FirstPerDevice(ps, dev)| <= |ps|
    ensures DistinctDevices(FirstPerDevice(ps, dev), dev)
    ensures forall d :: DeviceSeen(FirstPerDevice(ps, dev), dev, d) <==> DeviceSeen(ps, dev, d)
    ensures forall p | p in ps && p !in dev :: p in FirstPerDevice(ps, dev)
    decreases |ps|
  {
    if ps != [] {
      var init := ps[..|ps| - 1];
      var last := ps[|ps| - 1];
      var r0 := FirstPerDevice(init, dev);
      FirstPerDeviceKeeps(init, dev);
      assert ps == init + [last];
      SeenGrows(init, last, dev);
      if last !in dev || !DeviceSeen(init, dev, dev[last]) {
        assert FirstPerDevice(ps, dev) == r0 + [last];
        SeenGrows(r0, last, dev);
        AppendKeepsDistinct(r0, last, dev);
      } else {
        assert FirstPerDevice(ps, dev) == r0;
      }
    }
  }

  /** A path whose device is unknown or not yet represented keeps the devices distinct. */
  lemma AppendKeepsDistinct(r: seq<string>, p: string, dev: DeviceMap)
    requires DistinctDevices(r, dev)
    requires p !in dev || !DeviceSeen(r, dev, dev[p])
    ensures DistinctDevices(r + [p], dev)
  {
    var s := r + [p];
    forall i, j | 0 <= i < j < |s| && s[i] in dev && s[j] in dev ensures dev[s[i]] != dev[s[j]] {
      assert s[i] == r[i];
      if j < |r| {
        assert s[j] == r[j];
      }
    }
  }

  /**
   * _dedupe_paths_by_device: keeps, in order, the first path of each device
   * and every path whose device is unknown.
   */
  method DedupePathsByDevice(paths: seq<string>, dev: DeviceMap) returns (unique: seq<string>)
    ensures unique == FirstPerDevice(paths, dev)
    ensures forall i | 0 <= i < |unique| :: unique[i] in paths
    ensures |unique| <= |paths|
    ensures DistinctDevices(unique, dev)
    ensures forall p | p in paths && p !in dev :: p in unique
    ensures forall d :: DeviceSeen(unique, dev, d) <==> DeviceSeen(paths, dev, d)
  {
    var seen: set<int> := {};
    unique := [];
    var k := 0;
    while k < |paths|
      invariant 0 <= k <= |paths|
      invariant unique == FirstPerDevice(paths[..k], dev)
      invariant forall d :: d in seen <==> DeviceSeen(paths[..k], dev, d)
    {
      var p := paths[k];
      SeenGrows(paths[..k], p, dev);
      assert paths[..k + 1] == paths[..k] + [p];
      assert paths[..k + 1][..k] == paths[..k];
      if p !in dev {
        unique := unique + [p];
      } else if dev[p] !in seen {
        seen := seen + {dev[p]};
        unique := unique + [p];
      }
      k := k + 1;
    }
    assert paths[..k] == paths;
    FirstPerDeviceKeeps(paths, dev);
  }

  lemma SeenGrows(ps: seq<string>, p: string, dev: DeviceMap)
    ensures forall d :: DeviceSeen(ps + [p], dev, d) <==> DeviceSeen(ps, dev, d) || (p in dev && dev[p] == d)
  {
    forall d ensures DeviceSeen(ps + [p], dev, d) <==> DeviceSeen(ps, dev, d) || (p in dev && dev[p] == d) {
      if DeviceSeen(ps, dev, d) {
        var i :| 0 <= i < |ps| && ps[i] in dev && dev[ps[i]] == d;
        assert (ps + [p])[i] == ps[i];
      }
      if p in dev && dev[p] == d {
        assert (ps + [p])[|ps|] == p;
      }
    }
  }
}
