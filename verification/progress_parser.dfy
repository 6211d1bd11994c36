/**
 * The GUI's reading of the remote log: each line is classified by the
 * first pattern that matches it, and the class drives a transition of the
 * GUI's progress state (step label, prompt, Continue button, progress bar,
 * encode counters and the done latch). Both GUIs are covered: the current
 * one and the legacy single-file one, whose parser differs in the encode
 * counters, the disc prompt and the missing low-disk pattern.
 */
module ProgressParser {

  import opened Common
  import opened Text
  import opened LogPatterns
  import opened PromptFormat

  /** Which GUI's parser. */
  datatype Gen = Current | Legacy

  /** The class of a log line, with what the matching pattern captured. */
  datatype Event =
    | MkvStatus(text: string)
    | TotalPct(pct: nat)
    | CurrentPct(pct: nat)
    | AccessError
    | HbTask(task: string)
    | HbStart(start: Counter)
    | HbDone(done: Counter)
    | MkvPct(value: Pct)
    | HbPct(value: Pct)
    | DiscPrompt(line: string, insert: bool, nextDisc: bool)
    | LowDisk(line: string)
    | QueuedEncode
    | Finalizing
    | Complete
    | ErrorLine
    | Other

  const LowDiskKey: string := "Low disk space:"
  const QueuedKey: string := "Queued encode:"
  const FinalizingKey: string := "Finalizing: "
  const CompleteKey: string := "Processing " + "complete."
  const ErrorKey: string := "ERROR:"

  /**
   * The patterns in the order the parser tries them; the first that matches
   * decides. The legacy GUI has no low-disk pattern.
   */
  function Classify(gen: Gen, line: string): Event
  {
    if OperationLine(line).Some? then MkvStatus(OperationLine(line).value)
    else if ActionLine(line).Some? then MkvStatus(ActionLine(line).value)
    else if TotalProgress(line).Some? then TotalPct(TotalProgress(line).value)
    else if CurrentProgress(line).Some? then CurrentPct(CurrentProgress(line).value)
    else if Contains(line, AccessErrorText) then AccessError
    else if HbTaskLine(line).Some? then HbTask(HbTaskLine(line).value)
    else if CounterLine(HbStartKey, line).Some? then HbStart(CounterLine(HbStartKey, line).value)
    else if CounterLine(HbDoneKey, line).Some? then HbDone(CounterLine(HbDoneKey, line).value)
    else if MkvProgress(line).Some? then MkvPct(MkvProgress(line).value)
    else if HbProgress(line).Some? then HbPct(HbProgress(line).value)
    else if Contains(line, InsertText) || Contains(line, NextDiscText) then
      DiscPrompt(line, Contains(line, InsertText), Contains(line, NextDiscText))
    else if gen == Current && StartsWith(line, LowDiskKey) then LowDisk(line)
    else if StartsWith(line, QueuedKey) then QueuedEncode
    else if StartsWith(line, FinalizingKey) then Finalizing
    else if StartsWith(line, CompleteKey) then Complete
    else if StartsWith(line, ErrorKey) then ErrorLine
    else Other
  }

  /** The progress bar: an animated indeterminate bar, a stopped one, or a level. */
  datatype Bar = Busy | Halted | Level(value: real)

  /**
   * The parser's part of the GUI state: the UiState fields it touches, the
   * step and prompt labels, the Continue button, the bar, the done latch and
   * the number of ("done", "ok") messages it has queued.
   */
  datatype Ui = Ui(
    waiting: bool,
    nextDiscPrompt: string,
    phase: string,
    lastTotalPct: real,
    queued: nat,
    started: nat,
    finished: nat,
    activeLabel: string,
    finalized: nat,
    totalTitles: nat,
    step: string,
    prompt: string,
    continueEnabled: bool,
    bar: Bar,
    doneEmitted: bool,
    doneSent: nat)

  /** The state of a freshly built window. */
  function Initial(): (s: Ui)
    ensures Consistent(s) && !s.waiting && s.doneSent == 0
  {
    Ui(false, "", "", 0.0, 0, 0, 0, "", 0, 0, "", "", false, Busy, false, 0)
  }

  /**
   * What the parser keeps true: Continue is enabled exactly while waiting
   * for Enter, no prompt is shown otherwise, and the done latch counts the
   * one message it let through.
   */
  predicate Consistent(s: Ui)
  {
    && s.continueEnabled == s.waiting
    && (!s.waiting ==> s.prompt == "")
    && s.doneSent == (if s.doneEmitted then 1 else 0)
  }

  /** max(0.0, min(100.0, x)) */
  function Clamp(x: real): (r: real)
    ensures 0.0 <= r <= 100.0
    ensures 0.0 <= x <= 100.0 ==> r == x
  {
    if x < 0.0 then 0.0 else if x > 100.0 then 100.0 else x
  }

  /** The block a MakeMKV line runs when the GUI was waiting for Enter. */
  function ClearWait(gen: Gen, s: Ui): Ui
  {
    if !s.waiting then s
    else s.(waiting := false, prompt := "", continueEnabled := false,
            nextDiscPrompt := if gen == Current then "" else s.nextDiscPrompt)
  }

  function MkvLabel(phase: string): string
  {
    if phase == "analyze" then "Analyzing (MakeMKV)" else "Ripping (MakeMKV)"
  }

  function EncodingOf(n: nat, total: nat): string
  {
    "Encoding (HandBrake) " + NatToString(n) + " of " + NatToString(total)
  }

  /** The total the encode counters carry after a start or done line reporting `reported`. */
  function QueuedAfter(gen: Gen, queued: nat, reported: nat): nat
  {
    if gen == Legacy then Max(queued, reported) else reported
  }

  /** The disc-prompt text: the current GUI formats it, the legacy one only rewords "Press Enter". */
  function DiscPromptText(gen: Gen, s: Ui, line: string, insert: bool, nextDisc: bool): string
  {
    if gen == Legacy then ReplaceAll(line, "Press Enter", Replacement)
    else
      var stored := if insert then line else s.nextDiscPrompt;
      FormatDiscPrompt(if nextDisc && Strip(stored) != [] then Strip(stored) else line)
  }

  /** The disc-prompt transition: wait for Enter, remember an "Insert:" line, show the chosen text. */
  function ShowDiscPrompt(gen: Gen, s: Ui, line: string, insert: bool, nextDisc: bool): Ui
  {
    s.(waiting := true, step := "Waiting for disc",
       nextDiscPrompt := if gen == Current && insert then line else s.nextDiscPrompt,
       prompt := DiscPromptText(gen, s, line, insert, nextDisc),
       continueEnabled := true, bar := Busy)
  }

  /** A MakeMKV status line: the phase follows whether it mentions analysing. */
  function ShowMkvStatus(gen: Gen, s: Ui, text: string): Ui
  {
    var analyze := Contains(Lower(text), "analy");
    ClearWait(gen, s).(phase := if analyze then "analyze" else "process",
                       step := (if analyze then "Analyzing (MakeMKV): " else "Ripping (MakeMKV): ") + text,
                       bar := Busy)
  }

  /** A MakeMKV total-progress line: remembered, and shown clamped. */
  function ShowTotalPct(gen: Gen, s: Ui, pct: nat): Ui
  {
    ClearWait(gen, s).(lastTotalPct := pct as real, step := MkvLabel(s.phase), bar := Level(Clamp(pct as real)))
  }

  /** A MakeMKV current-progress line: the bar shows the last total when there is one. */
  function ShowCurrentPct(gen: Gen, s: Ui, pct: nat): Ui
  {
    var shown := if s.lastTotalPct > 0.0 then s.lastTotalPct else pct as real;
    ClearWait(gen, s).(step := MkvLabel(s.phase), bar := Level(Clamp(shown)))
  }

  /** A HandBrake start line: the started counter and the total follow the server. */
  function ShowHbStart(gen: Gen, s: Ui, c: Counter): Ui
  {
    var q := QueuedAfter(gen, s.queued, c.total);
    s.(started := c.n, queued := q, activeLabel := c.name, step := EncodingOf(c.n, Max(1, q)), bar := Busy)
  }

  /** A HandBrake done line: the finished counter and the total follow the server. */
  function ShowHbDone(gen: Gen, s: Ui, c: Counter): Ui
  {
    var q := QueuedAfter(gen, s.queued, c.total);
    s.(finished := c.n, queued := q, step := EncodingOf(Min(c.n, q), Max(1, q)), bar := Busy)
  }

  /** A HandBrake percentage line. */
  function ShowHbPct(s: Ui, value: Pct): Ui
  {
    s.(step := if s.queued > 0 then EncodingOf(Max(1, s.started), s.queued) else "Encoding (HandBrake)",
       bar := Level(Clamp(value)))
  }

  /** A low-disk line: wait for Enter, labelled as a pause. */
  function ShowLowDisk(s: Ui, line: string): Ui
  {
    s.(waiting := true, step := "Paused (low disk space)",
       prompt := ReplaceAll(line, "Press Enter", Replacement), continueEnabled := true, bar := Busy)
  }

  /** A queued-encode line: one more encode queued. */
  function ShowQueued(s: Ui): Ui
  {
    s.(queued := s.queued + 1, step := "Encoding (queued) " + NatToString(s.queued + 1), bar := Busy)
  }

  /** A finalizing line: the wait ends and one more title is finalized. */
  function ShowFinalizing(s: Ui): Ui
  {
    var t := if s.waiting then s.(waiting := false, prompt := "", continueEnabled := false) else s;
    t.(finalized := s.finalized + 1, step := "Finalizing",
       bar := if s.totalTitles > 0 then Level((s.finalized + 1) as real / s.totalTitles as real * 100.0) else Busy)
  }

  /** "Processing complete.": done, with the message let through only once. */
  function ShowComplete(s: Ui): Ui
  {
    s.(step := "Done", bar := Level(100.0), waiting := false, prompt := "", continueEnabled := false,
       doneEmitted := true, doneSent := if s.doneEmitted then s.doneSent else s.doneSent + 1)
  }

  /** The transition parse_for_progress makes for one classified line. */
  function Apply(gen: Gen, s: Ui, e: Event): Ui
  {
    match e
    case MkvStatus(text) => ShowMkvStatus(gen, s, text)
    case TotalPct(pct) => ShowTotalPct(gen, s, pct)
    case CurrentPct(pct) => ShowCurrentPct(gen, s, pct)
    case AccessError => s.(step := "Error", bar := Halted)
    case HbTask(task) => s.(step := "HandBrake: " + task, bar := Busy)
    case HbStart(c) => ShowHbStart(gen, s, c)
    case HbDone(c) => ShowHbDone(gen, s, c)
    case MkvPct(value) => ClearWait(gen, s).(step := "Ripping (MakeMKV)", bar := Level(value))
    case HbPct(value) => ShowHbPct(s, value)
    case DiscPrompt(line, insert, nextDisc) => ShowDiscPrompt(gen, s, line, insert, nextDisc)
    case LowDisk(line) => ShowLowDisk(s, line)
    case QueuedEncode => ShowQueued(s)
    case Finalizing => ShowFinalizing(s)
    case Complete => ShowComplete(s)
    case ErrorLine => s.(step := "Error", bar := Halted)
    case Other => s
  }

  /** parse_for_progress on one chunk: trailing newlines dropped, then classify and apply. */
  function ParseForProgress(gen: Gen, s: Ui, chunk: string): Ui
  {
    Apply(gen, s, Classify(gen, RStripChars(chunk, {'\n'})))
  }

  /** The state after a sequence of classified lines. */
  function ApplyAll(gen: Gen, s: Ui, es: seq<Event>): Ui
    decreases |es|
  {
    if es == [] then s else ApplyAll(gen, Apply(gen, s, es[0]), es[1..])
  }

  predicate IsMakeMkv(e: Event)
  {
    e.MkvStatus? || e.TotalPct? || e.CurrentPct? || e.MkvPct?
  }

  predicate IsHandBrake(e: Event)
  {
    e.HbTask? || e.HbStart? || e.HbDone? || e.HbPct? || e.QueuedEncode?
  }

  // ---------------------------------------------------------------------
  // Properties of the transition

  /** Every transition keeps the parser's invariant. */
  lemma ConsistentPreserved(gen: Gen, s: Ui, e: Event)
    requires Consistent(s)
    ensures Consistent(Apply(gen, s, e))
  {
  }

  /** However many lines arrive, the done message is queued at most once. */
  lemma {:induction false} DoneAtMostOnce(gen: Gen, s: Ui, es: seq<Event>)
    requires Consistent(s)
    ensures Consistent(ApplyAll(gen, s, es))
    ensures ApplyAll(gen, s, es).doneSent <= 1
    ensures s.doneEmitted ==> ApplyAll(gen, s, es).doneSent == s.doneSent
    decreases |es|
  {
    if es != [] {
      ConsistentPreserved(gen, s, es[0]);
      DoneAtMostOnce(gen, Apply(gen, s, es[0]), es[1..]);
    }
  }

  /** "Processing complete." always ends the wait and shows "Done"; only the first one queues a message. */
  lemma CompleteLatches(gen: Gen, s: Ui)
    ensures var t := Apply(gen, s, Complete);
      && t.step == "Done" && t.bar == Level(100.0) && !t.waiting && !t.continueEnabled && t.doneEmitted
      && t.doneSent == s.doneSent + (if s.doneEmitted then 0 else 1)
    ensures Apply(gen, Apply(gen, s, Complete), Complete).doneSent == Apply(gen, s, Complete).doneSent
  {
  }

  /** A disc prompt waits for Enter with Continue enabled. */
  lemma DiscPromptWaits(gen: Gen, s: Ui, line: string, insert: bool, nextDisc: bool)
    ensures var t := Apply(gen, s, DiscPrompt(line, insert, nextDisc));
      t.waiting && t.continueEnabled && t.step == "Waiting for disc"
  {
  }

  /** A disc prompt beginning "Insert:" is shown politely, whichever text the current GUI picks to show. */
  lemma InsertPromptShown(s: Ui, line: string, nextDisc: bool)
    requires StartsWith(line, "Insert:")
    ensures var t := Apply(Current, s, DiscPrompt(line, true, nextDisc));
      t.waiting && t.continueEnabled && StartsWith(t.prompt, Polite) && t.nextDiscPrompt == line
  {
    DiscPromptWaits(Current, s, line, true, nextDisc);
    DiscPromptFields(Current, s, line, true, nextDisc);
    InsertTextShown(s, line, nextDisc);
  }

  /** Where a disc prompt's shown text and stored text go. */
  lemma DiscPromptFields(gen: Gen, s: Ui, line: string, insert: bool, nextDisc: bool)
    ensures var t := Apply(gen, s, DiscPrompt(line, insert, nextDisc));
      t.prompt == DiscPromptText(gen, s, line, insert, nextDisc)
      && t.nextDiscPrompt == if gen == Current && insert then line else s.nextDiscPrompt
  {
  }

  /** Whichever text the current GUI picks for an "Insert:" prompt, it starts politely. */
  lemma InsertTextShown(s: Ui, line: string, nextDisc: bool)
    requires StartsWith(line, "Insert:")
    ensures StartsWith(DiscPromptText(Current, s, line, true, nextDisc), Polite)
  {
    var shown := if nextDisc && Strip(line) != [] then Strip(line) else line;
    assert StartsWith(shown, "Insert:") by {
      StripKeepsPrefix(line, "Insert:");
    }
    InsertPromptShownPolitely(shown);
  }

  /** A low-disk line also waits for Enter, but is labelled as a pause, never as a disc wait. */
  lemma LowDiskPauses(gen: Gen, s: Ui, line: string)
    ensures var t := Apply(gen, s, LowDisk(line));
      t.waiting && t.continueEnabled && t.step == "Paused (low disk space)" && t.step != "Waiting for disc"
    ensures Apply(gen, s, LowDisk(line)).prompt == ReplaceAll(line, "Press Enter", Replacement)
  {
  }

  /**
   * A MakeMKV status or progress line ends any wait and disables Continue.
   * The stored disc prompt is dropped only when a wait was in progress, and
   * the legacy GUI never stores one.
   */
  lemma MakeMkvEndsWait(gen: Gen, s: Ui, e: Event)
    requires Consistent(s) && IsMakeMkv(e)
    ensures var t := Apply(gen, s, e);
      && !t.waiting && !t.continueEnabled
      && t.nextDiscPrompt == (if s.waiting && gen == Current then "" else s.nextDiscPrompt)
      && (s.waiting ==> t.prompt == "")
  {
  }

  /** HandBrake lines never touch the wait, the prompt or the Continue button. */
  lemma HandBrakeKeepsWait(gen: Gen, s: Ui, e: Event)
    requires IsHandBrake(e)
    ensures var t := Apply(gen, s, e);
      && t.waiting == s.waiting && t.continueEnabled == s.continueEnabled
      && t.prompt == s.prompt && t.nextDiscPrompt == s.nextDiscPrompt
  {
  }

  /** "Queued encode:" adds exactly one to the queue and leaves the other counters alone. */
  lemma QueuedAddsOne(gen: Gen, s: Ui)
    ensures var t := Apply(gen, s, QueuedEncode);
      t.queued == s.queued + 1 && t.started == s.started && t.finished == s.finished
  {
  }

  /**
   * A start or done line overwrites its own counter. The current GUI takes
   * the reported total as it is; the legacy one never lets it go down.
   */
  lemma CountersFollowServer(gen: Gen, s: Ui, c: Counter)
    ensures var t := Apply(gen, s, HbStart(c));
      t.started == c.n && t.finished == s.finished && t.activeLabel == c.name
    ensures var t := Apply(gen, s, HbDone(c));
      t.finished == c.n && t.started == s.started
    ensures gen == Current ==> Apply(gen, s, HbStart(c)).queued == c.total && Apply(gen, s, HbDone(c)).queued == c.total
    ensures gen == Legacy ==> Apply(gen, s, HbStart(c)).queued == Max(s.queued, c.total) && Apply(gen, s, HbDone(c)).queued == Max(s.queued, c.total)
  {
  }

  /** In the legacy GUI no line ever lowers the encode total. */
  lemma LegacyQueueNeverShrinks(s: Ui, e: Event)
    ensures Apply(Legacy, s, e).queued >= s.queued
  {
  }

  /** The current GUI follows a lower reported total. */
  lemma CurrentQueueCanShrink()
    ensures var s := Initial().(queued := 5);
      Apply(Current, s, HbStart(Counter(1, 3, "a.mp4"))).queued == 3
  {
  }

  /** Finalizing adds one finished title and ends any wait, keeping the stored disc prompt. */
  lemma FinalizingCounts(gen: Gen, s: Ui)
    requires Consistent(s)
    ensures var t := Apply(gen, s, Finalizing);
      && t.finalized == s.finalized + 1 && t.step == "Finalizing"
      && !t.waiting && !t.continueEnabled && t.nextDiscPrompt == s.nextDiscPrompt
  {
  }

  /** Total, current and HandBrake percentages put the bar between 0 and 100. */
  lemma PercentBarClamped(gen: Gen, s: Ui, e: Event)
    requires e.TotalPct? || e.CurrentPct? || e.HbPct?
    ensures Apply(gen, s, e).bar.Level?
    ensures 0.0 <= Apply(gen, s, e).bar.value <= 100.0
  {
  }

  /** The "MakeMKV progress:" value goes to the bar unclamped. */
  lemma MkvProgressNotClamped(gen: Gen, s: Ui)
    ensures Apply(gen, s, MkvPct(150.0)).bar == Level(150.0)
  {
  }

  /** Current progress shows the last total percentage once one above zero was seen. */
  lemma CurrentPrefersTotal(gen: Gen, s: Ui, total: nat, current: nat)
    requires 0 < total <= 100
    ensures Apply(gen, Apply(gen, s, TotalPct(total)), CurrentPct(current)).bar == Level(total as real)
  {
  }

  /**
   * An "Insert: " line is remembered, and the generic next-disc line that
   * follows shows that remembered prompt instead of its own text.
   */
  lemma NextDiscShowsStoredPrompt(s: Ui, insertLine: string, nextLine: string)
    requires Strip(insertLine) != []
    ensures var t := Apply(Current, Apply(Current, s, DiscPrompt(insertLine, true, false)), DiscPrompt(nextLine, false, true));
      t.prompt == FormatDiscPrompt(insertLine) && t.nextDiscPrompt == insertLine
  {
    var s1 := Apply(Current, s, DiscPrompt(insertLine, true, false));
    DiscPromptFields(Current, s, insertLine, true, false);
    DiscPromptFields(Current, s1, nextLine, false, true);
    assert DiscPromptText(Current, s1, nextLine, false, true) == FormatDiscPrompt(Strip(insertLine));
    StripIdempotent(insertLine);
  }

  /** Lines no pattern recognises leave the whole state as it was. */
  lemma OtherLinesIgnored(gen: Gen, s: Ui, chunk: string)
    requires Classify(gen, RStripChars(chunk, {'\n'})) == Other
    ensures ParseForProgress(gen, s, chunk) == s
  {
  }
}
