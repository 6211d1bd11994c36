/**
 * Decisions taken on the titles of a ripped disc: whether a movie disc holds
 * a plausible main feature, which titles are extras and which one is the
 * main title, and the next episode number of a season folder. Durations,
 * chapter counts, sizes and embedded titles come from probes and are inputs.
 */
module DiscRules {

  import opened Common
  import opened Text

  /** The verdict of movie_disc_has_main_feature and the message that goes with it. */
  datatype Verdict = Verdict(ok: bool, message: string)

  const NoMkvsMessage: string := "No MKVs were produced."
  const NoDurationsMessage: string := "Could not read MKV durations; skipping movie-runtime validation."

  /** The longest positive duration. */
  function Longest(durations: seq<int>): (m: int)
    requires exists i | 0 <= i < |durations| :: durations[i] > 0
    ensures exists i | 0 <= i < |durations| :: durations[i] == m
    ensures m > 0
    ensures forall i | 0 <= i < |durations| :: durations[i] <= m
  {
    if |durations| == 1 then durations[0]
    else if exists i | 1 <= i < |durations| :: durations[i] > 0 then
      var rest := durations[1..];
      assert exists i | 0 <= i < |rest| :: rest[i] > 0 by {
        var i :| 1 <= i < |durations| && durations[i] > 0;
        assert rest[i - 1] > 0;
      }
      var m := Longest(rest);
      assert forall i | 1 <= i < |durations| :: durations[i] == rest[i - 1];
      Max(durations[0], m)
    else
      durations[0]
  }

  /**
   * The smallest longest-title duration, in seconds, that passes: 55% of the
   * expected runtime but at least 30 minutes when a runtime is known, else
   * 40 minutes. 60 * r * 0.55 is computed in floating point in the source;
   * because 0.55 rounds upwards to a double, its integer part is 33 * r for
   * every realistic runtime (the rounding of the product only matters for
   * runtimes beyond about 10^14 minutes).
   */
  function MinMainSeconds(runtimeMin: Option<int>): (s: int)
    ensures s >= 1800
  {
    if runtimeMin.Some? && runtimeMin.value > 0 then Max(1800, 33 * runtimeMin.value) else 2400
  }

  /**
   * movie_disc_has_main_feature over the probed durations (one per MKV, 0 or
   * less when the probe failed).
   */
  function MovieDiscHasMainFeature(durations: seq<int>, runtimeMin: Option<int>): (v: Verdict)
    ensures |durations| == 0 ==> v == Verdict(false, NoMkvsMessage)
    ensures |durations| > 0 && (forall i | 0 <= i < |durations| :: durations[i] <= 0) ==> v == Verdict(true, NoDurationsMessage)
    ensures (exists i | 0 <= i < |durations| :: durations[i] > 0) ==>
      (v.ok <==> exists i | 0 <= i < |durations| :: durations[i] >= MinMainSeconds(runtimeMin))
    ensures v.ok && (exists i | 0 <= i < |durations| :: durations[i] > 0) ==> v.message == ""
  {
    if |durations| == 0 then Verdict(false, NoMkvsMessage)
    else if forall i | 0 <= i < |durations| :: durations[i] <= 0 then Verdict(true, NoDurationsMessage)
    else
      var longest := Longest(durations);
      if runtimeMin.Some? && runtimeMin.value > 0 then
        if longest < MinMainSeconds(runtimeMin) then
          Verdict(false, "Longest ripped title is " + IntToString(longest / 60) + " min, well below TMDB runtime ("
            + IntToString(runtimeMin.value) + " min).")
        else Verdict(true, "")
      else if longest < 2400 then
        Verdict(false, "Longest ripped title is only " + IntToString(longest / 60) + " min; likely extras-only rip.")
      else Verdict(true, "")
  }

  /**
   * Once some duration is known, a longer title never turns an accepted disc
   * into a rejected one. (A disc with no readable duration is accepted
   * unchecked, so a short readable title can reject it.)
   */
  lemma MainFeatureMonotone(durations: seq<int>, runtimeMin: Option<int>, i: nat, longer: int)
    requires i < |durations| && durations[i] <= longer
    requires exists j | 0 <= j < |durations| :: durations[j] > 0
    requires MovieDiscHasMainFeature(durations, runtimeMin).ok
    ensures MovieDiscHasMainFeature(durations[i := longer], runtimeMin).ok
  {
    var d := durations[i := longer];
    var j :| 0 <= j < |durations| && durations[j] >= MinMainSeconds(runtimeMin);
    assert d[j] >= MinMainSeconds(runtimeMin);
  }

  /** Durations that could not be read skip the check, even with a known runtime. */
  lemma UnreadableDurationsAccepted(n: nat, runtimeMin: Option<int>)
    requires n > 0
    ensures MovieDiscHasMainFeature(seq(n, _ => 0), runtimeMin) == Verdict(true, NoDurationsMessage)
  {
  }

  /** The probe results of one ripped title. */
  datatype Title = Title(metaTitle: string, durationS: int, chapters: int, sizeMb: int, sizeBytes: int)

  const ExtraDurationThreshold: int := 1200
  const ExtraKeywords: seq<string> := ["extra", "deleted", "featurette", "behind", "interview", "trailer", "bonus", "promo"]

  /** The embedded title contains one of the extra keywords, in any letter case. */
  predicate KeywordMatch(metaTitle: string)
  {
    exists k | 0 <= k < |ExtraKeywords| :: Contains(Lower(metaTitle), ExtraKeywords[k])
  }

  /**
   * A title is an extra when its duration is known, shorter than 20 minutes,
   * and either named like an extra or with at most two chapters.
   */
  predicate IsExtra(t: Title)
  {
    t.durationS > 0 && t.durationS < ExtraDurationThreshold && (KeywordMatch(t.metaTitle) || t.chapters <= 2)
  }

  /** What the main title is ranked by: the duration, or the size in MB when the duration is unknown. */
  function Weight(t: Title): int
  {
    if t.durationS <= 0 then t.sizeMb else t.durationS
  }

  /** Index i is the first position holding the largest key among the eligible positions. */
  predicate FirstMaxAt(keys: seq<int>, eligible: seq<bool>, i: nat)
    requires |keys| == |eligible|
  {
    && i < |keys| && eligible[i]
    && (forall j | 0 <= j < |keys| && eligible[j] :: keys[j] <= keys[i])
    && (forall j | 0 <= j < i && eligible[j] :: keys[j] < keys[i])
  }

  /** Python's max() with a key: the first position of the largest key among the eligible ones. */
  method FirstMax(keys: seq<int>, eligible: seq<bool>) returns (r: Option<nat>)
    requires |keys| == |eligible|
    ensures r.None? <==> forall j | 0 <= j < |keys| :: !eligible[j]
    ensures r.Some? ==> FirstMaxAt(keys, eligible, r.value)
  {
    r := None;
    var k := 0;
    while k < |keys|
      invariant 0 <= k <= |keys|
      invariant r.None? <==> forall j | 0 <= j < k :: !eligible[j]
      invariant r.Some? ==> r.value < k && eligible[r.value]
      invariant r.Some? ==> forall j | 0 <= j < k && eligible[j] :: keys[j] <= keys[r.value]
      invariant r.Some? ==> forall j | 0 <= j < r.value && eligible[j] :: keys[j] < keys[r.value]
    {
      if eligible[k] && (r.None? || keys[k] > keys[r.value]) {
        r := Some(k);
      }
      k := k + 1;
    }
  }

  /** Every position eligible. */
  function AllTrue(n: nat): (m: seq<bool>)
    ensures |m| == n && forall i | 0 <= i < n :: m[i]
  {
    seq(n, _ => true)
  }

  /** The positions holding a non-extra. */
  function NonExtras(titles: seq<Title>): (m: seq<bool>)
    ensures |m| == |titles| && forall i | 0 <= i < |titles| :: m[i] == !IsExtra(titles[i])
  {
    seq(|titles|, i requires 0 <= i < |titles| => !IsExtra(titles[i]))
  }

  function Sizes(titles: seq<Title>): (m: seq<int>)
    ensures |m| == |titles| && forall i | 0 <= i < |titles| :: m[i] == titles[i].sizeBytes
  {
    seq(|titles|, i requires 0 <= i < |titles| => titles[i].sizeBytes)
  }

  function Weights(titles: seq<Title>): (m: seq<int>)
    ensures |m| == |titles| && forall i | 0 <= i < |titles| :: m[i] == Weight(titles[i])
  {
    seq(|titles|, i requires 0 <= i < |titles| => Weight(titles[i]))
  }

  /** The result of analyze_mkvs_for_movie_disc: per-title flags and weights, and the main title. */
  datatype MovieAnalysis = MovieAnalysis(main: Option<nat>, isExtra: seq<bool>, weight: seq<int>)

  /**
   * analyze_mkvs_for_movie_disc: the main title is the first heaviest
   * non-extra; when every title is an extra it is the first largest file.
   */
  method AnalyzeMkvsForMovieDisc(titles: seq<Title>) returns (a: MovieAnalysis)
    ensures |a.isExtra| == |titles| && |a.weight| == |titles|
    ensures forall i | 0 <= i < |titles| :: a.isExtra[i] == IsExtra(titles[i]) && a.weight[i] == Weight(titles[i])
    ensures a.main.None? <==> |titles| == 0
    ensures (exists i | 0 <= i < |titles| :: !IsExtra(titles[i])) ==>
      a.main.Some? && FirstMaxAt(Weights(titles), NonExtras(titles), a.main.value)
    ensures (forall i | 0 <= i < |titles| :: IsExtra(titles[i])) && |titles| > 0 ==>
      a.main.Some? && FirstMaxAt(Sizes(titles), AllTrue(|titles|), a.main.value)
  {
    var isExtra := seq(|titles|, i requires 0 <= i < |titles| => IsExtra(titles[i]));
    var main := FirstMax(Weights(titles), NonExtras(titles));
    if main.None? {
      main := FirstMax(Sizes(titles), AllTrue(|titles|));
      if |titles| > 0 {
        assert AllTrue(|titles|)[0];
      }
    }
    a := MovieAnalysis(main, isExtra, Weights(titles));
  }

  /** A title with no usable duration is never an extra. */
  lemma UnknownDurationNotExtra(t: Title)
    requires t.durationS <= 0
    ensures !IsExtra(t) && Weight(t) == t.sizeMb
  {
  }

  /** Titles of 20 minutes or more are never extras, whatever their name or chapters. */
  lemma LongTitleNotExtra(t: Title)
    requires t.durationS >= ExtraDurationThreshold
    ensures !IsExtra(t)
  {
  }

  /** An "E" followed by two digits starts at position i of name. */
  predicate TagAt(name: string, i: int)
  {
    0 <= i < |name| - 2 && name[i] == 'E' && AllDigits(name[i + 1..i + 3])
  }

  /** v is the number of the leftmost tag of name. */
  predicate FirstTagIs(name: string, v: nat)
  {
    exists i | 0 <= i < |name| && TagAt(name, i) ::
      v == DigitsValue(name[i + 1..i + 3]) && forall j | 0 <= j < i :: !TagAt(name, j)
  }

  /**
   * The episode number of the first "E" followed by two digits in a file
   * name, as re.search finds the leftmost match.
   */
  function EpisodeTag(name: string): (n: Option<nat>)
    ensures n.Some? ==> FirstTagIs(name, n.value)
    ensures n.None? ==> forall i :: !TagAt(name, i)
    ensures n.Some? ==> n.value < 100
    decreases |name|
  {
    if |name| < 3 then None
    else if TagAt(name, 0) then
      TwoDigitsValue(name[1..3]);
      Some(DigitsValue(name[1..3]))
    else
      var rest := EpisodeTag(name[1..]);
      TagShift(name);
      if rest.Some? then
        LiftFirstTag(name, rest.value);
        rest
      else
        LiftNoTag(name);
        rest
  }

  /** Without a tag at 0 or in name[1..], name has no tag at all. */
  lemma LiftNoTag(name: string)
    requires |name| >= 3 && !TagAt(name, 0)
    requires forall i | i >= 0 :: TagAt(name[1..], i) <==> TagAt(name, i + 1)
    requires forall i :: !TagAt(name[1..], i)
    ensures forall i :: !TagAt(name, i)
  {
    forall i ensures !TagAt(name, i) {
      if i > 0 {
        assert !TagAt(name[1..], i - 1);
      }
    }
  }

  /** Dropping the first character shifts every tag position down by one. */
  lemma TagShift(name: string)
    requires |name| >= 1
    ensures forall i | i >= 0 :: TagAt(name[1..], i) <==> TagAt(name, i + 1)
  {
    var t := name[1..];
    forall i | i >= 0 ensures TagAt(t, i) <==> TagAt(name, i + 1) {
      if 0 <= i < |name| - 3 {
        assert t[i] == name[i + 1];
        assert t[i + 1..i + 3] == name[i + 2..i + 4] by {
          assert t[i + 1] == name[i + 2] && t[i + 2] == name[i + 3];
        }
      }
    }
  }

  /** The first tag of name[1..] is the first tag of name when name does not start with one. */
  lemma LiftFirstTag(name: string, v: nat)
    requires |name| >= 3 && !TagAt(name, 0)
    requires forall i | i >= 0 :: TagAt(name[1..], i) <==> TagAt(name, i + 1)
    requires FirstTagIs(name[1..], v)
    ensures FirstTagIs(name, v)
  {
    var t := name[1..];
    var i :| 0 <= i < |t| && TagAt(t, i) && v == DigitsValue(t[i + 1..i + 3])
             && forall j | 0 <= j < i :: !TagAt(t, j);
    NoTagBeforeShifted(name, i);
    assert t[i + 1..i + 3] == name[i + 2..i + 4];
    assert 0 <= i + 1 < |name| && TagAt(name, i + 1) && v == DigitsValue(name[i + 2..i + 4]);
  }

  /** No tag before position i of name[1..] means none before i + 1 of name. */
  lemma NoTagBeforeShifted(name: string, i: nat)
    requires |name| >= 1 && !TagAt(name, 0)
    requires forall j | j >= 0 :: TagAt(name[1..], j) <==> TagAt(name, j + 1)
    requires forall j | 0 <= j < i :: !TagAt(name[1..], j)
    ensures forall j | 0 <= j < i + 1 :: !TagAt(name, j)
  {
    forall j | 0 <= j < i + 1 ensures !TagAt(name, j) {
      if j > 0 {
        assert !TagAt(name[1..], j - 1);
      }
    }
  }

  lemma EpisodeTagFirst(name: string, i: int)
    requires TagAt(name, i) && forall j | 0 <= j < i :: !TagAt(name, j)
    ensures EpisodeTag(name) == Some(DigitsValue(name[i + 1..i + 3]))
  {
    var n := EpisodeTag(name);
    assert n.Some?;
    var k :| 0 <= k < |name| && TagAt(name, k) && n.value == DigitsValue(name[k + 1..k + 3])
             && forall j | 0 <= j < k :: !TagAt(name, j);
    if k < i {
      assert false;
    } else if k > i {
      assert false;
    }
  }

  /** "E01E09" is episode 1: the first tag decides. */
  lemma FirstTagDecides()
    ensures EpisodeTag("E01E09") == Some(1)
  {
    var n := "E01E09";
    assert n[1..3] == "01";
    assert DigitsValue("0") == 0;
    assert "01"[..1] == "0";
    assert TagAt(n, 0);
  }

  /**
   * series_next_episode_number over the names in a season folder (None when
   * the folder does not exist): one past the largest tagged episode, or 1.
   */
  function SeriesNextEpisodeNumber(names: Option<seq<string>>): (n: int)
    ensures n >= 1
    ensures names.Some? ==> forall i | 0 <= i < |names.value| && EpisodeTag(names.value[i]).Some? :: EpisodeTag(names.value[i]).value < n
    ensures names.Some? && n > 1 ==> exists i | 0 <= i < |names.value| :: EpisodeTag(names.value[i]) == Some(n - 1)
    ensures names.None? || (forall i | 0 <= i < |names.value| :: EpisodeTag(names.value[i]).None?) ==> n == 1
    decreases if names.Some? then |names.value| else 0
  {
    if names.None? || names.value == [] then 1
    else
      var ns := names.value;
      var rest := SeriesNextEpisodeNumber(Some(ns[1..]));
      assert forall i | 1 <= i < |ns| :: ns[i] == ns[1..][i - 1];
      match EpisodeTag(ns[0])
      case None => rest
      case Some(e) => Max(e + 1, rest)
  }

  /** What the legacy rip step does, in order, before it looks for MKVs again. */
  datatype RipStep = ShowPrompt(msg: string) | AwaitEnter | RunMakeMkv | EjectDisc

  /** The steps taken and the MKVs found, or the error the step raises. */
  datatype RipOutcome = RipOutcome(steps: seq<RipStep>, mkvs: Result<seq<string>, string>)

  /**
   * rip_disc_if_needed of the legacy script: MKVs already in the disc folder
   * are reused as they are; otherwise the user is prompted, MakeMKV runs and
   * the folder is listed again. The two listings are inputs.
   */
  function RipDiscIfNeeded(discDir: string, promptMsg: string, waitForEnter: bool,
                           existing: seq<string>, afterRip: seq<string>): (o: RipOutcome)
    ensures o.mkvs.Ok? ==> o.mkvs.value != []
    ensures existing != [] ==> o.steps == [] && o.mkvs == Ok(existing)
    ensures existing == [] ==> |o.steps| > 0 && o.steps[0] == ShowPrompt(promptMsg) && RunMakeMkv in o.steps
    ensures existing == [] ==> (AwaitEnter in o.steps <==> waitForEnter)
    ensures existing == [] ==> (o.mkvs.Ok? <==> afterRip != []) && (o.mkvs.Ok? ==> o.mkvs.value == afterRip)
    ensures o.mkvs.Err? ==> o.mkvs.error == "No MKVs found in " + discDir + " after rip step."
  {
    if existing != [] then RipOutcome([], Ok(existing))
    else
      var steps := [ShowPrompt(promptMsg)] + (if waitForEnter then [AwaitEnter] else []) + [RunMakeMkv, EjectDisc];
      if afterRip == [] then RipOutcome(steps, Err("No MKVs found in " + discDir + " after rip step."))
      else RipOutcome(steps, Ok(afterRip))
  }

  /** Resuming is idempotent: once a rip has produced MKVs, running the step again rips nothing. */
  lemma RipThenResume(discDir: string, promptMsg: string, waitForEnter: bool, existing: seq<string>, afterRip: seq<string>,
                      again: seq<string>)
    requires RipDiscIfNeeded(discDir, promptMsg, waitForEnter, existing, afterRip).mkvs.Ok?
    ensures var found := RipDiscIfNeeded(discDir, promptMsg, waitForEnter, existing, afterRip).mkvs.value;
            RipDiscIfNeeded(discDir, promptMsg, waitForEnter, found, again) == RipOutcome([], Ok(found))
  {
  }
}
