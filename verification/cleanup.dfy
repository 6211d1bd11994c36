/**
 * The work-directory cleanup guard: which children of home may be deleted,
 * what the cleanup command deletes and reports, and the keep/safety gate in
 * front of every removal at the end of a run. The filesystem is a snapshot
 * of existing paths and directories; a removal that raises is an oracle set.
 */
module Cleanup {

  import opened Common
  import opened Text
  import opened Paths

  /** Which paths exist and which of them are directories. */
  datatype Fs = Fs(existing: set<string>, dirs: set<string>)

  const MarkerName: string := ".rip_and_encode_workdir"
  const LegacyMarkerName: string := ".rip_and_encode_v2_workdir"

  /** A marker file written when the work dir was created (either generation). */
  predicate HasMarker(fs: Fs, workDir: string)
  {
    JoinPath(workDir, MarkerName) in fs.existing || JoinPath(workDir, LegacyMarkerName) in fs.existing
  }

  /** Output left by older versions: Extras/extras.nfo or a series staging folder. */
  predicate LegacyHint(fs: Fs, workDir: string)
  {
    JoinPath(JoinPath(workDir, "Extras"), "extras.nfo") in fs.existing || JoinPath(workDir, "__series_stage") in fs.existing
  }

  /** The local output roots: every configured movies/series setting that is not a remote destination. */
  function ExcludeRoots(moviesDir: string, seriesDir: string): (roots: seq<string>)
    ensures forall i | 0 <= i < |roots| :: roots[i] != [] && !IsRemoteDest(Some(roots[i]))
    ensures moviesDir != [] && !IsRemoteDest(Some(moviesDir)) ==> moviesDir in roots
    ensures seriesDir != [] && !IsRemoteDest(Some(seriesDir)) ==> seriesDir in roots
    ensures forall i | 0 <= i < |roots| :: roots[i] == moviesDir || roots[i] == seriesDir
  {
    (if moviesDir != [] && !IsRemoteDest(Some(moviesDir)) then [moviesDir] else [])
    + (if seriesDir != [] && !IsRemoteDest(Some(seriesDir)) then [seriesDir] else [])
  }

  /** The work dir is one of the output roots or lies under one. */
  predicate Excluded(workDir: string, roots: seq<string>)
  {
    exists i | 0 <= i < |roots| :: AtOrUnder(workDir, roots[i])
  }

  /** The rule a child of home must pass to be deleted by the cleanup command. */
  predicate IsCandidate(fs: Fs, home: string, workDir: string, roots: seq<string>)
  {
    && workDir in fs.dirs
    && JoinPath(workDir, "MKVs") in fs.dirs
    && (HasMarker(fs, workDir) || LegacyHint(fs, workDir))
    && IsSafeWorkDir(home, workDir)
    && !Excluded(workDir, roots)
  }

  /** The children that pass the rule, in listing order. */
  function Candidates(fs: Fs, home: string, children: seq<string>, roots: seq<string>): (cs: seq<string>)
    ensures forall i | 0 <= i < |cs| :: cs[i] in children && IsCandidate(fs, home, cs[i], roots)
    ensures forall c | c in children && IsCandidate(fs, home, c, roots) :: c in cs
  {
    if children == [] then []
    else
      var rest := Candidates(fs, home, children[1..], roots);
      assert forall c | c in children[1..] :: c in children;
      if IsCandidate(fs, home, children[0], roots) then [children[0]] + rest else rest
  }

  /** The directories a removal pass tried and the ones whose removal raised. */
  datatype CleanupResult = CleanupResult(code: int, attempted: seq<string>, failed: seq<string>)

  /** The elements of xs that are in bad, in order. */
  function Failures(xs: seq<string>, bad: set<string>): (fs: seq<string>)
    ensures forall i | 0 <= i < |fs| :: fs[i] in xs && fs[i] in bad
    ensures forall x | x in xs && x in bad :: x in fs
  {
    if xs == [] then []
    else
      var rest := Failures(xs[1..], bad);
      assert forall x | x in xs[1..] :: x in xs;
      if xs[0] in bad then [xs[0]] + rest else rest
  }

  /**
   * cleanup_mkvs. listing is the children of home (None when home cannot be
   * read); failing holds the directories whose removal raises.
   */
  function CleanupMkvs(fs: Fs, home: string, listing: Option<seq<string>>, dryRun: bool,
                       moviesDir: string, seriesDir: string, failing: set<string>): (r: CleanupResult)
    ensures r.code == 2 <==> listing.None?
    ensures r.code == 0 || r.code == 1 || r.code == 2
    ensures forall i | 0 <= i < |r.attempted| ::
      listing.Some? && r.attempted[i] in listing.value && IsCandidate(fs, home, r.attempted[i], ExcludeRoots(moviesDir, seriesDir))
    ensures listing.Some? && !dryRun ==>
      forall c | c in listing.value && IsCandidate(fs, home, c, ExcludeRoots(moviesDir, seriesDir)) :: c in r.attempted
    ensures dryRun ==> r.attempted == []
    ensures forall i | 0 <= i < |r.failed| :: r.failed[i] in r.attempted && r.failed[i] in failing
    ensures forall c | c in r.attempted && c in failing :: c in r.failed
    ensures r.code == 1 <==> r.failed != []
  {
    if listing.None? then CleanupResult(2, [], [])
    else
      var cands := Candidates(fs, home, listing.value, ExcludeRoots(moviesDir, seriesDir));
      if cands == [] || dryRun then CleanupResult(0, [], [])
      else
        var failed := Failures(cands, failing);
        CleanupResult(if failed != [] then 1 else 0, cands, failed)
  }

  /** No configured local output root, nor anything under one, is ever removed by the cleanup. */
  lemma CleanupSparesOutputRoots(fs: Fs, home: string, listing: Option<seq<string>>, dryRun: bool,
                                 moviesDir: string, seriesDir: string, failing: set<string>, p: string)
    requires p in CleanupMkvs(fs, home, listing, dryRun, moviesDir, seriesDir, failing).attempted
    ensures moviesDir != [] && !IsRemoteDest(Some(moviesDir)) ==> !AtOrUnder(p, moviesDir)
    ensures seriesDir != [] && !IsRemoteDest(Some(seriesDir)) ==> !AtOrUnder(p, seriesDir)
  {
    var roots := ExcludeRoots(moviesDir, seriesDir);
    var r := CleanupMkvs(fs, home, listing, dryRun, moviesDir, seriesDir, failing);
    var i :| 0 <= i < |r.attempted| && r.attempted[i] == p;
    assert !Excluded(p, roots);
  }

  /** The example below: a marked work dir /h/w whose folder holds the movies root /h/w/Movies. */
  const ExampleFs: Fs := Fs({"/h/w/.rip_and_encode_workdir"}, {"/h/w", "/h/w/MKVs"})

  lemma ExampleIsCandidate()
    ensures ExcludeRoots("/h/w/Movies", "") == ["/h/w/Movies"]
    ensures IsCandidate(ExampleFs, "/h", "/h/w", ["/h/w/Movies"])
  {
    assert StartsWith("/h/w/Movies", "/");
    assert JoinPath("/h/w", "MKVs") == "/h/w/MKVs";
    assert JoinPath("/h/w", MarkerName) == "/h/w/.rip_and_encode_workdir";
    assert ("/h/w")[|"/h/"|..] == "w";
    assert IsSafeWorkDir("/h", "/h/w");
    assert !AtOrUnder("/h/w", "/h/w/Movies");
  }

  /**
   * The exclusion covers the output roots and what lies below them only: a
   * work dir that contains the movies root is still removed.
   */
  lemma CleanupRemovesRootAncestor()
    ensures CleanupMkvs(ExampleFs, "/h", Some(["/h/w"]), false, "/h/w/Movies", "", {}) == CleanupResult(0, ["/h/w"], [])
    ensures AtOrUnder("/h/w/Movies", "/h/w")
  {
    ExampleIsCandidate();
    assert Candidates(ExampleFs, "/h", ["/h/w"], ["/h/w/Movies"]) == ["/h/w"];
    assert StartsWith("/h/w/Movies", "/h/w/");
  }

  /** The legacy rule: no output-root exclusion, and only the legacy marker counts. */
  predicate IsCandidateLegacy(fs: Fs, home: string, workDir: string)
  {
    && workDir in fs.dirs
    && JoinPath(workDir, "MKVs") in fs.dirs
    && (JoinPath(workDir, LegacyMarkerName) in fs.existing || LegacyHint(fs, workDir))
    && IsSafeWorkDir(home, workDir)
  }

  /** The children that pass the legacy rule, in listing order. */
  function LegacyCandidates(fs: Fs, home: string, children: seq<string>): (cs: seq<string>)
    ensures forall i | 0 <= i < |cs| :: cs[i] in children && IsCandidateLegacy(fs, home, cs[i])
    ensures forall c | c in children && IsCandidateLegacy(fs, home, c) :: c in cs
  {
    if children == [] then []
    else
      var rest := LegacyCandidates(fs, home, children[1..]);
      assert forall c | c in children[1..] :: c in children;
      if IsCandidateLegacy(fs, home, children[0]) then [children[0]] + rest else rest
  }

  /** The MKVs folder of a child that passes the legacy rule. */
  predicate LegacyTarget(fs: Fs, home: string, children: seq<string>, p: string)
  {
    exists c | c in children && IsCandidateLegacy(fs, home, c) :: p == JoinPath(c, "MKVs")
  }

  /**
   * The legacy cleanup_mkvs: removes only each candidate's MKVs folder and
   * reports success even when a removal raises.
   */
  function CleanupMkvsLegacy(fs: Fs, home: string, listing: Option<seq<string>>, dryRun: bool, failing: set<string>): (r: CleanupResult)
    ensures r.code == 2 <==> listing.None?
    ensures r.code == 0 || r.code == 2
    ensures forall i | 0 <= i < |r.attempted| :: listing.Some? && LegacyTarget(fs, home, listing.value, r.attempted[i])
    ensures listing.Some? && !dryRun ==>
      forall c | c in listing.value && IsCandidateLegacy(fs, home, c) :: JoinPath(c, "MKVs") in r.attempted
    ensures dryRun ==> r.attempted == []
    ensures forall c | c in r.attempted && c in failing :: c in r.failed
  {
    if listing.None? then CleanupResult(2, [], [])
    else
      var cands := LegacyCandidates(fs, home, listing.value);
      var targets := seq(|cands|, i requires 0 <= i < |cands| => JoinPath(cands[i], "MKVs"));
      assert forall i | 0 <= i < |targets| :: LegacyTarget(fs, home, listing.value, targets[i]) by {
        forall i | 0 <= i < |targets| ensures LegacyTarget(fs, home, listing.value, targets[i]) {
          assert cands[i] in listing.value && IsCandidateLegacy(fs, home, cands[i]);
        }
      }
      assert forall c | c in listing.value && IsCandidateLegacy(fs, home, c) :: JoinPath(c, "MKVs") in targets by {
        forall c | c in listing.value && IsCandidateLegacy(fs, home, c) ensures JoinPath(c, "MKVs") in targets {
          var i :| 0 <= i < |cands| && cands[i] == c;
          assert targets[i] == JoinPath(c, "MKVs");
        }
      }
      if cands == [] || dryRun then CleanupResult(0, [], [])
      else CleanupResult(0, targets, Failures(targets, failing))
  }

  lemma MkvsIsSegment()
    ensures Segment("MKVs")
  {
    assert forall i | 0 <= i < 4 :: "MKVs"[i] != '/';
  }

  /** The legacy cleanup never removes a work dir itself: what it removes sits one level deeper. */
  lemma LegacyCleanupKeepsWorkDirs(fs: Fs, home: string, listing: Option<seq<string>>, dryRun: bool, failing: set<string>, p: string)
    requires p in CleanupMkvsLegacy(fs, home, listing, dryRun, failing).attempted
    ensures !IsSafeWorkDir(home, p)
  {
    var r := CleanupMkvsLegacy(fs, home, listing, dryRun, failing);
    var i :| 0 <= i < |r.attempted| && r.attempted[i] == p;
    assert LegacyTarget(fs, home, listing.value, p);
    var c :| c in listing.value && IsCandidateLegacy(fs, home, c) && p == JoinPath(c, "MKVs");
    MkvsIsSegment();
    InsideSafeWorkDirIsUnsafe(home, c, "MKVs");
  }

  /**
   * rm_mkvs_tree_if_allowed: Ok(Some(path)) is the tree removed, Ok(None)
   * means nothing was removed, Err is the refusal raised for an unsafe work
   * dir. The safety check is on the work dir, not on mkvRoot.
   */
  function RmMkvsTreeIfAllowed(fs: Fs, home: string, workDir: string, mkvRoot: string, keepMkvs: bool): (r: Result<Option<string>, string>)
    ensures keepMkvs ==> r == Ok(None)
    ensures r.Err? <==> !keepMkvs && !IsSafeWorkDir(home, workDir)
    ensures r.Ok? && r.value.Some? <==> !keepMkvs && IsSafeWorkDir(home, workDir) && mkvRoot in fs.existing
    ensures r.Ok? && r.value.Some? ==> r.value.value == mkvRoot
  {
    if keepMkvs then Ok(None)
    else if !IsSafeWorkDir(home, workDir) then Err("Refusing to remove MKV tree; unsafe WORK_DIR: " + workDir)
    else if mkvRoot in fs.existing then Ok(Some(mkvRoot))
    else Ok(None)
  }

  /** rm_work_dir_if_allowed: the same gate, removing the work dir itself. */
  function RmWorkDirIfAllowed(fs: Fs, home: string, workDir: string, keepMkvs: bool): (r: Result<Option<string>, string>)
    ensures keepMkvs ==> r == Ok(None)
    ensures r.Err? <==> !keepMkvs && !IsSafeWorkDir(home, workDir)
    ensures r.Ok? && r.value.Some? <==> !keepMkvs && IsSafeWorkDir(home, workDir) && workDir in fs.existing
    ensures r.Ok? && r.value.Some? ==> r.value.value == workDir
  {
    if keepMkvs then Ok(None)
    else if !IsSafeWorkDir(home, workDir) then Err("Refusing to remove WORK_DIR; unsafe WORK_DIR: " + workDir)
    else if workDir in fs.existing then Ok(Some(workDir))
    else Ok(None)
  }

  /** Whatever rm_work_dir_if_allowed removes is exactly one segment below home. */
  lemma RemovedWorkDirIsOneSegment(fs: Fs, home: string, workDir: string, keepMkvs: bool)
    requires RmWorkDirIfAllowed(fs, home, workDir, keepMkvs) == Ok(Some(workDir))
    ensures exists seg | Segment(seg) :: workDir == home + "/" + seg
  {
    SafeWorkDirShape(home, workDir);
  }
}
