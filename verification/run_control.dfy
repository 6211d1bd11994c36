/**
 * The run control of the two GUIs: Start, the Enter key and the Continue
 * button, Stop, the handling of the "done" message, the setup checks and the
 * offer to reattach to a job that is still running on the server. Remote
 * commands, uploads, message boxes and the wizard are effects whose outcome
 * arrives as a parameter; only the state they leave behind is modelled.
 */
module RunControl {

  import opened Common
  import opened Text
  import opened ProgressParser
  import ScheduleCsv
  import ManualSchedule

  // ---------------------------------------------------------------------
  // Settings and the setup checks

  /** The connection and directory fields of the main window, as typed. */
  datatype Settings = Settings(
    host: string,
    user: string,
    port: string,
    key: string,
    password: string,
    moviesDir: string,
    seriesDir: string,
    booksDir: string,
    musicDir: string)

  /**
   * _connection_ready: a host is needed, then a key file or a password, and
   * a password is only usable together with a user name.
   */
  function ConnectionReady(c: Settings): (ready: bool)
    ensures ready <==>
      && Strip(c.host) != []
      && (Strip(c.key) != [] || Strip(c.password) != [])
      && (Strip(c.password) == [] || Strip(c.user) != [])
  {
    if Strip(c.host) == [] then false
    else if Strip(c.key) == [] && Strip(c.password) == [] then false
    else if Strip(c.password) != [] && Strip(c.user) == [] then false
    else true
  }

  /** A key file with a password still needs the user name the password belongs to. */
  lemma PasswordNeedsUser(c: Settings)
    requires Strip(c.password) != [] && Strip(c.user) == []
    ensures !ConnectionReady(c)
  {
  }

  /** A host and a key file are enough when no password is given. */
  lemma KeyAloneSuffices(c: Settings)
    requires Strip(c.host) != [] && Strip(c.key) != [] && Strip(c.password) == []
    ensures ConnectionReady(c)
  {
  }

  /** _directories_ready: every library directory is non-blank. */
  predicate DirectoriesReady(c: Settings)
  {
    Strip(c.moviesDir) != [] && Strip(c.seriesDir) != [] && Strip(c.booksDir) != [] && Strip(c.musicDir) != []
  }

  /** _is_setup_complete */
  predicate SetupComplete(c: Settings)
  {
    ConnectionReady(c) && DirectoriesReady(c)
  }

  /** The trimmed port, "22" when blank. */
  function PortOrDefault(port: string): (p: string)
    ensures Strip(port) == [] ==> p == "22"
    ensures Strip(port) != [] ==> p == Strip(port)
    ensures p != [] && Strip(p) == p
  {
    StripIdempotent(port);
    if Strip(port) == [] then
      StripUnchanged("22");
      "22"
    else Strip(port)
  }

  // ---------------------------------------------------------------------
  // Last-run metadata and reattach matching

  /** What is persisted about the last launched job so a restarted GUI can find it. */
  datatype LastRun = LastRun(host: string, user: string, port: string, screen: string, log: string, epoch: nat)

  const NoLastRun: LastRun := LastRun("", "", "", "", "", 0)

  /**
   * _last_run_matches_current_connection: a stored host and port are needed;
   * the stored host must equal the trimmed current host, and the trimmed
   * stored user and port the trimmed current ones, the port defaulting to "22".
   */
  function LastRunMatches(c: Settings, r: LastRun): (m: bool)
    ensures m ==> r.host != [] && r.port != []
    ensures m <==> r.host != [] && r.port != [] && r.host == Strip(c.host)
                   && Strip(r.user) == Strip(c.user) && Strip(r.port) == PortOrDefault(c.port)
  {
    if r.host == [] || r.port == [] then false
    else if Strip(c.host) != r.host then false
    else if Strip(r.user) != Strip(c.user) then false
    else if Strip(r.port) != PortOrDefault(c.port) then false
    else true
  }

  /** The metadata start and reattach record for the current settings. */
  function Recorded(c: Settings, screen: string, log: string, epoch: nat): (r: LastRun)
    ensures r.screen == screen && r.log == log && r.epoch == epoch
    ensures r.port != [] && Strip(r.port) == r.port
  {
    LastRun(Strip(c.host), Strip(c.user), PortOrDefault(c.port), screen, log, epoch)
  }

  /** What start records is recognised as the same connection by the reattach check. */
  lemma RecordedRunMatches(c: Settings, screen: string, log: string, epoch: nat)
    requires Strip(c.host) != []
    ensures LastRunMatches(c, Recorded(c, screen, log, epoch))
  {
    StripIdempotent(c.user);
  }

  /** A blank current port matches a stored "22", and only that. */
  lemma BlankPortMeans22(c: Settings, r: LastRun)
    requires Strip(c.port) == [] && r.host == Strip(c.host) && r.host != []
    requires Strip(r.user) == Strip(c.user)
    ensures LastRunMatches(c, r) <==> Strip(r.port) == "22"
  {
    assert Strip(r.port) == "22" ==> r.port != [];
  }

  /** A different stored host never matches. */
  lemma OtherHostNeverMatches(c: Settings, r: LastRun)
    requires r.host != Strip(c.host)
    ensures !LastRunMatches(c, r)
  {
  }

  // ---------------------------------------------------------------------
  // The window's run state

  /** The context of the job the GUI follows: its screen session, log and start time. */
  datatype RunCtx = RunCtx(screen: string, log: string, epoch: nat)

  /** A local process handle from the direct-stdin mode; it may have a stdin pipe. */
  datatype Proc = Proc(hasStdin: bool)

  /**
   * The run-related state of the current GUI: the parser's state, the run
   * flags, the three buttons and the editable inputs, the run context, the
   * persisted last-run metadata, the done latch, the stop and replay flags,
   * and the legacy direct-stream handles.
   */
  datatype Gui = Gui(
    ui: Ui,
    settings: Settings,
    running: bool,
    startEnabled: bool,
    stopEnabled: bool,
    inputsEnabled: bool,
    runCtx: Option<RunCtx>,
    lastRun: LastRun,
    doneHandled: bool,
    stopRequested: bool,
    replayMode: bool,
    replayStop: bool,
    proc: Option<Proc>,
    channel: bool)

  /** The freshly built window: idle, Start enabled, Stop and Continue disabled. */
  function Fresh(settings: Settings, lastRun: LastRun): (g: Gui)
    ensures !g.running && !g.doneHandled && g.runCtx.None? && !g.ui.continueEnabled
  {
    Gui(Initial(), settings, false, true, false, true, None, lastRun, false, false, false, false, None, false)
  }

  /** The GUI holds a run context for the given screen session. */
  predicate HasContextFor(g: Gui, screen: string)
  {
    g.runCtx.Some? && g.runCtx.value.screen == screen
  }

  /** The screen session a command would be stuffed into, when there is one. */
  predicate HasScreen(g: Gui)
  {
    g.runCtx.Some? && g.runCtx.value.screen != []
  }

  /** The parser fields a finished or stopped run clears. */
  function ClearedUi(u: Ui): (v: Ui)
    ensures !v.waiting && !v.continueEnabled && v.prompt == ""
    ensures v.queued == 0 && v.started == 0 && v.finished == 0 && v.activeLabel == ""
    ensures v.step == u.step && v.bar == u.bar && v.doneEmitted == u.doneEmitted
  {
    u.(waiting := false, phase := "", lastTotalPct := 0.0, queued := 0, started := 0, finished := 0,
       activeLabel := "", prompt := "", continueEnabled := false)
  }

  /** The parser fields a launched or reattached run starts from. */
  function RunningUi(u: Ui): (v: Ui)
    ensures !v.waiting && !v.continueEnabled && v.prompt == "" && v.step == "Running" && v.bar == Busy
    ensures v.queued == 0 && v.started == 0 && v.finished == 0 && !v.doneEmitted
  {
    ClearedUi(u).(step := "Running", bar := Busy, doneEmitted := false)
  }

  /** Once done is handled, the run is over: nothing runs and there is no run context. */
  predicate Over(g: Gui)
  {
    g.doneHandled ==> !g.running && g.runCtx.None?
  }

  /**
   * Every run-control invariant the GUI keeps outside replay: once done is
   * handled, the run is over and its last-run metadata forgotten.
   */
  predicate Inv(g: Gui)
  {
    Over(g) && (g.doneHandled ==> g.lastRun == NoLastRun)
  }

  // ---------------------------------------------------------------------
  // _on_done

  /**
   * What _on_done shows: the cleanup offer, the legacy "Processing complete."
   * notice, the "Stopped" notice, an error, or nothing.
   */
  datatype Shown = Nothing | OfferCleanup | CompleteNotice | StoppedNotice | ErrorBox(text: string)

  datatype Done = Done(gui: Gui, shown: Shown)

  /** The dialog for a payload: "ok" offers cleanup, "stopped" in any case and spacing informs, the rest is an error. */
  function DoneDialog(payload: string): (d: Shown)
    ensures d != Nothing && d != CompleteNotice
    ensures d == OfferCleanup <==> payload == "ok"
    ensures d == StoppedNotice <==> payload != "ok" && Lower(Strip(payload)) == "stopped"
    ensures d.ErrorBox? ==> d.text == payload
  {
    if payload == "ok" then OfferCleanup
    else if Lower(Strip(payload)) == "stopped" then StoppedNotice
    else ErrorBox(payload)
  }

  /** The payload stop hands to _on_done reads as "stopped" once stripped and lower-cased. */
  lemma StoppedInforms()
    ensures DoneDialog("Stopped") == StoppedNotice
  {
    var s := "Stopped";
    assert !IsSpace(s[0]) && !IsSpace(s[|s| - 1]);
    StripUnchanged(s);
    StoppedLowered();
  }

  lemma StoppedLowered()
    ensures Lower("Stopped") == "stopped"
  {
    var l := Lower("Stopped");
    assert |l| == 7;
    assert l[0] == 's' && l[1] == 't' && l[2] == 'o' && l[3] == 'p' && l[4] == 'p' && l[5] == 'e' && l[6] == 'd';
  }

  /**
   * _on_done: ignored once the latch is set; otherwise it sets the latch and
   * the stop flag, ends the run, resets the counters and buttons, enables
   * the inputs, drops the run context and the last-run metadata, and shows
   * the dialog for the payload.
   */
  function OnDone(g: Gui, payload: string): (d: Done)
    ensures g.doneHandled ==> d == Done(g, Nothing)
    ensures !g.doneHandled ==> d.shown == DoneDialog(payload) && d.gui.doneHandled && d.gui.stopRequested
    ensures !g.doneHandled ==> !d.gui.running && d.gui.runCtx.None? && d.gui.lastRun == NoLastRun
    ensures !g.doneHandled ==> d.gui.startEnabled && !d.gui.stopEnabled && d.gui.inputsEnabled
    ensures !g.doneHandled ==> d.gui.ui == ClearedUi(g.ui)
  {
    if g.doneHandled then Done(g, Nothing)
    else
      var h := g.(doneHandled := true, stopRequested := true, running := false, ui := ClearedUi(g.ui),
                  startEnabled := true, stopEnabled := false, inputsEnabled := true,
                  runCtx := None, lastRun := NoLastRun);
      Done(h, DoneDialog(payload))
  }

  /** _on_done acts at most once: a second call, whatever its payload, changes and shows nothing. */
  lemma OnDoneAtMostOnce(g: Gui, p: string, q: string)
    ensures OnDone(OnDone(g, p).gui, q) == Done(OnDone(g, p).gui, Nothing)
  {
  }

  /** A log line the parser handles between two done messages does not re-arm the latch. */
  lemma OnDoneLatchSurvivesLines(g: Gui, p: string, chunk: string, q: string)
    ensures var h := OnLogLine(OnDone(g, p).gui, chunk); OnDone(h, q) == Done(h, Nothing)
  {
  }

  /** A log chunk from the tail or the replay reaches the parser and nothing else. */
  function OnLogLine(g: Gui, chunk: string): (h: Gui)
    ensures h.running == g.running && h.runCtx == g.runCtx && h.doneHandled == g.doneHandled
    ensures h == g.(ui := h.ui)
  {
    g.(ui := ParseForProgress(Current, g.ui, chunk))
  }

  // ---------------------------------------------------------------------
  // Enter, Continue and send_enter

  /** Where Enter goes: the screen session, the process's stdin, or the ssh channel. */
  datatype Sink = ScreenSink | StdinSink | ChannelSink

  /** The sink send_enter writes to, in the order it tries them. */
  function SinkFor(screen: bool, proc: Option<Proc>, channel: bool): (s: Option<Sink>)
    ensures s.None? <==> !screen && !(proc.Some? && proc.value.hasStdin) && !channel
    ensures screen ==> s == Some(ScreenSink)
  {
    if screen then Some(ScreenSink)
    else if proc.Some? && proc.value.hasStdin then Some(StdinSink)
    else if channel then Some(ChannelSink)
    else None
  }

  /** After a newline was delivered: no longer waiting, Continue disabled, prompt cleared, step "Running". */
  function EnterSent(u: Ui): (v: Ui)
    ensures !v.waiting && !v.continueEnabled && v.prompt == "" && v.step == "Running"
    ensures v.queued == u.queued && v.doneEmitted == u.doneEmitted && v.nextDiscPrompt == u.nextDiscPrompt
  {
    u.(waiting := false, continueEnabled := false, prompt := "", step := "Running")
  }

  /**
   * send_enter: with no sink it returns at once; a write that raises is
   * swallowed before the state is touched (delivered is false); otherwise
   * the wait ends.
   */
  function SendEnter(g: Gui, delivered: bool): (h: Gui)
    ensures SinkFor(HasScreen(g), g.proc, g.channel).None? || !delivered ==> h == g
    ensures SinkFor(HasScreen(g), g.proc, g.channel).Some? && delivered ==> h == g.(ui := EnterSent(g.ui))
  {
    if SinkFor(HasScreen(g), g.proc, g.channel).None? || !delivered then g
    else g.(ui := EnterSent(g.ui))
  }

  /** _on_return_key: Enter only acts while waiting and while Continue is enabled. */
  function OnReturnKey(g: Gui, delivered: bool): (h: Gui)
    ensures !g.ui.waiting || !g.ui.continueEnabled ==> h == g
    ensures g.ui.waiting && g.ui.continueEnabled ==> h == SendEnter(g, delivered)
  {
    if !g.ui.waiting then g
    else if !g.ui.continueEnabled then g
    else SendEnter(g, delivered)
  }

  /** The Continue button calls send_enter directly, but only an enabled button can be clicked. */
  function ClickContinue(g: Gui, delivered: bool): (h: Gui)
    ensures !g.ui.continueEnabled ==> h == g
  {
    if g.ui.continueEnabled then SendEnter(g, delivered) else g
  }

  /** The Enter key changes something only when the GUI waits, Continue is enabled and the newline got out. */
  lemma EnterGated(g: Gui, delivered: bool)
    ensures OnReturnKey(g, delivered) != g ==> g.ui.waiting && g.ui.continueEnabled && delivered
    ensures OnReturnKey(g, delivered) != g ==> !OnReturnKey(g, delivered).ui.waiting
  {
  }

  /** With a screen session, a delivered Enter ends the wait and disables Continue. */
  lemma ScreenEnterEndsWait(g: Gui)
    requires HasScreen(g) && g.ui.waiting && g.ui.continueEnabled
    ensures var h := OnReturnKey(g, true); !h.ui.waiting && !h.ui.continueEnabled && h.ui.prompt == ""
  {
  }

  /** With no session, process or channel, Enter leaves the state as it was. */
  lemma NoSinkNoChange(g: Gui, delivered: bool)
    requires g.runCtx.None? && g.proc.None? && !g.channel
    ensures SendEnter(g, delivered) == g && OnReturnKey(g, delivered) == g
  {
  }

  // ---------------------------------------------------------------------
  // stop

  /** The remote and local actions stop attempts; each may fail without changing the outcome. */
  datatype Effect = Interrupt(sink: Sink) | QuitScreen | CloseChannel | KillLater | StopTail

  datatype Stopped = Stopped(gui: Gui, effects: seq<Effect>, shown: Shown)

  /** The effects stop attempts, by the first handle it finds. */
  function StopEffects(screen: bool, proc: Option<Proc>, channel: bool): (es: seq<Effect>)
    ensures screen ==> es == [Interrupt(ScreenSink), QuitScreen, StopTail]
    ensures !screen && channel ==> es == [Interrupt(ChannelSink), CloseChannel]
    ensures !screen && !channel && proc.None? ==> es == []
    ensures !screen && !channel && proc.Some? ==> KillLater in es
  {
    if screen then [Interrupt(ScreenSink), QuitScreen, StopTail]
    else if channel then [Interrupt(ChannelSink), CloseChannel]
    else if proc.None? then []
    else (if proc.value.hasStdin then [Interrupt(StdinSink)] else []) + [KillLater]
  }

  /**
   * stop: during a replay it only raises the replay-stop flag. Otherwise it
   * raises the stop flag, attempts the interrupts for the handle it has (or
   * stops the tail when nothing is running), and always ends in
   * _on_done("Stopped").
   */
  function Stop(g: Gui): (r: Stopped)
    ensures g.replayMode && g.running ==> r == Stopped(g.(replayStop := true), [], Nothing)
    ensures !(g.replayMode && g.running) ==> r.gui == OnDone(g.(stopRequested := true), "Stopped").gui
  {
    if g.replayMode && g.running then Stopped(g.(replayStop := true), [], Nothing)
    else
      var h := g.(stopRequested := true);
      var es := if !g.running then [StopTail] else StopEffects(HasScreen(g), g.proc, g.channel);
      var d := OnDone(h, "Stopped");
      Stopped(d.gui, es, d.shown)
  }

  /** Outside a replay, stop always leaves the GUI idle, with no run context. */
  lemma StopEndsIdle(g: Gui)
    requires Over(g) && !(g.replayMode && g.running)
    ensures !Stop(g).gui.running && Stop(g).gui.runCtx.None? && Stop(g).gui.doneHandled
  {
  }

  /**
   * When the run was not yet handled, stop resets it completely: waiting and
   * counters cleared, Start enabled, Stop and Continue disabled, the
   * last-run metadata cleared, and the "Stopped" notice shown.
   */
  lemma StopResetsRun(g: Gui)
    requires !g.doneHandled && !(g.replayMode && g.running)
    ensures var h := Stop(g).gui;
      && !h.running && !h.ui.waiting && !h.ui.continueEnabled
      && h.ui.queued == 0 && h.ui.started == 0 && h.ui.finished == 0
      && h.runCtx.None? && h.lastRun == NoLastRun
      && h.startEnabled && !h.stopEnabled && h.inputsEnabled
    ensures Stop(g).shown == StoppedNotice
  {
    StoppedInforms();
  }

  /** A screen-mode stop interrupts the job, quits the session and stops the tail, then goes idle. */
  lemma ScreenStopEffects(g: Gui)
    requires g.running && !g.replayMode && HasScreen(g)
    ensures Stop(g).effects == [Interrupt(ScreenSink), QuitScreen, StopTail]
  {
  }

  /** During a replay, stop only raises the replay-stop flag. */
  lemma ReplayStopOnlyFlags(g: Gui)
    requires g.replayMode && g.running
    ensures Stop(g).gui == g.(replayStop := true) && Stop(g).gui.running
  {
  }

  // ---------------------------------------------------------------------
  // start

  /** The form fields start reads; the disc numbers as int() read them, None when int() raises. */
  datatype Form = Form(
    csvMode: bool,
    csvPath: string,
    title: string,
    year: string,
    kind: string,
    season: string,
    discCount: Option<int>,
    startDisc: Option<int>)

  /**
   * The outcomes of the calls start makes that this model does not look
   * into: the setup wizard's result, validation, the remote script check,
   * whether the CSV file exists, the upload, the screen check, the launch,
   * the launch time stamp, the remote start time, the log found after the
   * launch (None when the lookup raised) and whether the tail of that log
   * could be opened.
   */
  datatype StartEnv = StartEnv(
    wizard: Settings,
    validated: bool,
    scriptReady: bool,
    csvExists: bool,
    uploaded: bool,
    screenInstalled: bool,
    launched: bool,
    stamp: nat,
    epoch: nat,
    log: Option<string>,
    tailStarted: bool)

  /** Why start gave up; each is shown in an error box. */
  datatype StartError =
    | ValidationFailed
    | ScriptUnavailable
    | CsvPathRequired
    | CsvNotFound(path: string)
    | TitleRequired
    | YearNotFourDigits
    | NotANumber
    | TotalBelowOne
    | DiscOutOfRange
    | ScheduleRejected(reason: string)
    | UploadFailed
    | ScreenMissing
    | LaunchFailed
    | LogNotLocated
    | MissingLogPath
    | TailFailed

  datatype StartOutcome = Ignored | Failed(error: StartError) | Launched

  /** The state start leaves, what came of it, and whether the schedule was uploaded. */
  datatype Started = Started(gui: Gui, outcome: StartOutcome, uploadTried: bool)

  /** The errors that come from the form or the schedule file, before anything is sent to the server. */
  predicate FormError(e: StartError)
  {
    || e.CsvPathRequired? || e.CsvNotFound? || e.TitleRequired? || e.YearNotFourDigits?
    || e.NotANumber? || e.TotalBelowOne? || e.DiscOutOfRange? || e.ScheduleRejected?
  }

  /** The errors raised after the job was launched, while finding or following its log. */
  predicate FollowError(e: StartError)
  {
    e.LogNotLocated? || e.MissingLogPath? || e.TailFailed?
  }

  /** The log of a launched or reattached job can be followed: it was found, is not blank, and its tail opened. */
  predicate Followable(log: Option<string>, tailStarted: bool)
  {
    log.Some? && log.value != [] && tailStarted
  }

  /** The error following a log raises: the lookup failed, the path is blank, or the tail did not open. */
  function FollowFailure(log: Option<string>, tailStarted: bool): (e: StartError)
    requires !Followable(log, tailStarted)
    ensures FollowError(e)
    ensures e == LogNotLocated <==> log.None?
    ensures e == MissingLogPath <==> log == Some([])
  {
    if log.None? then LogNotLocated
    else if log.value == [] then MissingLogPath
    else TailFailed
  }

  /** The check of the manual form before any schedule is built. */
  function ManualFormError(f: Form): (e: Option<StartError>)
    ensures e.None? <==>
      && Strip(f.title) != [] && ScheduleCsv.IsYear(Strip(f.year))
      && f.discCount.Some? && f.startDisc.Some?
      && 1 <= f.startDisc.value <= f.discCount.value
  {
    if Strip(f.title) == [] then Some(TitleRequired)
    else if !ScheduleCsv.IsYear(Strip(f.year)) then Some(YearNotFourDigits)
    else if f.discCount.None? || f.startDisc.None? then Some(NotANumber)
    else if f.discCount.value < 1 then Some(TotalBelowOne)
    else if f.startDisc.value < 1 || f.startDisc.value > f.discCount.value then Some(DiscOutOfRange)
    else None
  }

  /** The schedule step: the CSV file, or the rows built from the manual form. */
  function ScheduleError(f: Form, csvExists: bool): (e: Option<StartError>)
    ensures !f.csvMode ==> (ManualFormError(f).Some? ==> e == ManualFormError(f))
    ensures f.csvMode ==> (e.None? <==> Strip(f.csvPath) != [] && csvExists)
    ensures e.Some? ==> FormError(e.value)
  {
    if f.csvMode then
      if Strip(f.csvPath) == [] then Some(CsvPathRequired)
      else if !csvExists then Some(CsvNotFound(Strip(f.csvPath)))
      else None
    else
      match ManualFormError(f)
      case Some(err) => Some(err)
      case None =>
        match ManualSchedule.CsvRowsFromManual(f.kind, Strip(f.title), Strip(f.year), f.season,
                                               f.startDisc.value, f.discCount.value)
        case Err(reason) => Some(ScheduleRejected(reason))
        case Ok(_) => None
  }

  const ScreenPrefix: string := "archive_helper_for_jellyfin_"

  /** The latch and the stop flag are cleared for a new run over the given settings. */
  predicate Rearmed(h: Gui, settings: Settings)
  {
    !h.doneHandled && !h.stopRequested && h.settings == settings
  }

  /** The context and the last-run metadata name the same session and record the same log. */
  predicate RecordsLog(h: Gui, log: string)
  {
    && h.runCtx.Some? && h.runCtx.value.log == log
    && h.lastRun.log == log && h.lastRun.screen == h.runCtx.value.screen
  }

  /** Start failed while finding or following the log of a job it launched. */
  predicate Unfollowed(r: Started)
  {
    r.outcome.Failed? && FollowError(r.outcome.error)
  }

  /** The visible state of an active run: no wait, counters zero, Start and the inputs disabled, Stop enabled. */
  predicate RunningState(h: Gui)
  {
    && h.running && !h.ui.waiting && !h.ui.continueEnabled
    && h.ui.queued == 0 && h.ui.started == 0 && h.ui.finished == 0
    && !h.startEnabled && h.stopEnabled && !h.inputsEnabled
  }

  /**
   * The launch half of start, from the moment the run context is stored:
   * the context and metadata are recorded and the latch re-armed before the
   * screen check, so a failure from here on leaves them in place. After the
   * launch the log is looked up and recorded, then its tail is opened; when
   * either raises, the job runs on the server while the GUI stays idle.
   */
  function Launch(g: Gui, env: StartEnv): (r: Started)
    ensures r.uploadTried
    ensures HasContextFor(r.gui, ScreenPrefix + NatToString(env.stamp))
    ensures Rearmed(r.gui, g.settings)
    ensures r.outcome == Launched <==> env.screenInstalled && env.launched && Followable(env.log, env.tailStarted)
    ensures r.outcome != Launched ==> r.gui.running == g.running && r.outcome.Failed?
    ensures r.outcome == Launched ==> RunningState(r.gui)
    ensures r.outcome == Launched && Strip(g.settings.host) != [] ==> LastRunMatches(g.settings, r.gui.lastRun)
  {
    var ctx := RunCtx(ScreenPrefix + NatToString(env.stamp), "", 0);
    var armed := g.(runCtx := Some(ctx), lastRun := Recorded(g.settings, ctx.screen, "", 0),
                    stopRequested := false, doneHandled := false, ui := g.ui.(doneEmitted := false));
    if !env.screenInstalled then Started(armed, Failed(ScreenMissing), true)
    else
      var timed := armed.(runCtx := Some(ctx.(epoch := env.epoch)));
      if !env.launched then Started(timed, Failed(LaunchFailed), true)
      else
        var r := FollowLaunched(timed, env, g.ui);
        FollowKeepsLatch(timed, env, g.ui);
        assert r.outcome != Launched ==> r.gui.running == g.running by {
          if r.outcome != Launched { FollowFailureIdle(timed, env.log, env.epoch, g.ui); }
        }
        assert r.outcome == Launched ==> RunningState(r.gui) by {
          if r.outcome == Launched { FollowRuns(timed, env.log.value, env.epoch, g.ui); }
        }
        assert Strip(g.settings.host) != [] && env.log.Some? ==> LastRunMatches(g.settings, r.gui.lastRun) by {
          if Strip(g.settings.host) != [] && env.log.Some? {
            RecordedRunMatches(g.settings, ctx.screen, env.log.value, env.epoch);
          }
        }
        r
  }

  /**
   * Start fails with a follow error exactly when screen was there, the job
   * was launched, and its log could then not be followed.
   */
  lemma LaunchFollowFailure(g: Gui, env: StartEnv)
    ensures Unfollowed(Launch(g, env)) <==> env.screenInstalled && env.launched && !Followable(env.log, env.tailStarted)
  {
    LaunchOutcome(g, env);
  }

  /** The outcome of the launch stage depends only on what the server reports, in this order. */
  lemma LaunchOutcome(g: Gui, env: StartEnv)
    ensures Launch(g, env).outcome
      == if !env.screenInstalled then Failed(ScreenMissing)
         else if !env.launched then Failed(LaunchFailed)
         else FollowOutcome(env.log, env.tailStarted)
  {
  }

  /**
   * The part of start after the job is launched: the log is looked up and
   * recorded in the context and the metadata, then its tail is opened, and
   * only then does the GUI run. A lookup that raises, a blank log or a tail
   * that does not open ends start with the job running on the server and
   * the GUI idle.
   */
  function FollowLaunched(timed: Gui, env: StartEnv, u: Ui): (r: Started)
    requires timed.runCtx.Some?
    ensures r.uploadTried
    ensures r.outcome == Launched <==> Followable(env.log, env.tailStarted)
    ensures r.outcome != Launched ==> Unfollowed(r)
  {
    Started(FollowGui(timed, env.log, env.epoch, Followable(env.log, env.tailStarted), u), FollowOutcome(env.log, env.tailStarted), true)
  }

  /** What start reports once the job is launched: success, or the error that stopped the log from being followed. */
  function FollowOutcome(log: Option<string>, tailStarted: bool): (o: StartOutcome)
    ensures o == Launched <==> Followable(log, tailStarted)
    ensures o != Launched ==> o == Failed(FollowFailure(log, tailStarted))
  {
    if Followable(log, tailStarted) then Launched else Failed(FollowFailure(log, tailStarted))
  }

  /**
   * The GUI after the log lookup and the tail: unchanged when the lookup
   * raised, with the log recorded when it did not, and running only when
   * the tail opened.
   */
  function FollowGui(timed: Gui, log: Option<string>, epoch: nat, follow: bool, u: Ui): (h: Gui)
    requires timed.runCtx.Some? && (follow ==> log.Some?)
    ensures HasContextFor(h, timed.runCtx.value.screen)
    ensures log.Some? ==> h.lastRun == Recorded(timed.settings, timed.runCtx.value.screen, log.value, epoch)
  {
    if log.None? then timed
    else
      var found := RecordLog(timed, log.value, epoch);
      if follow then Follow(found, u) else found
  }

  /** When the log cannot be followed the GUI does not start running. */
  lemma FollowFailureIdle(timed: Gui, log: Option<string>, epoch: nat, u: Ui)
    requires timed.runCtx.Some?
    ensures FollowGui(timed, log, epoch, false, u).running == timed.running
  {
  }

  /** Once the tail is open the GUI shows a live run. */
  lemma FollowRuns(timed: Gui, log: string, epoch: nat, u: Ui)
    requires timed.runCtx.Some?
    ensures RunningState(FollowGui(timed, Some(log), epoch, true, u))
  {
  }

  /** Following the log leaves the latch and the settings as the launch armed them. */
  lemma FollowKeepsLatch(timed: Gui, env: StartEnv, u: Ui)
    requires timed.runCtx.Some?
    ensures Rearmed(FollowGui(timed, env.log, env.epoch, Followable(env.log, env.tailStarted), u), timed.settings) == Rearmed(timed, timed.settings)
  {
  }

  /** The log found after the launch, recorded in the run context and the last-run metadata. */
  function RecordLog(timed: Gui, log: string, epoch: nat): (h: Gui)
    requires timed.runCtx.Some?
    ensures HasContextFor(h, timed.runCtx.value.screen) && RecordsLog(h, log)
    ensures h.runCtx.value.epoch == epoch
    ensures h.lastRun == Recorded(timed.settings, timed.runCtx.value.screen, log, epoch)
    ensures h.running == timed.running && Rearmed(h, timed.settings) == Rearmed(timed, timed.settings)
  {
    var ctx := timed.runCtx.value.(epoch := epoch, log := log);
    timed.(runCtx := Some(ctx), lastRun := Recorded(timed.settings, ctx.screen, log, epoch))
  }

  /** The GUI once the tail is open: running, with the controls of a live run; nothing else changes. */
  function Follow(found: Gui, u: Ui): (h: Gui)
    ensures RunningState(h)
    ensures h.runCtx == found.runCtx && h.lastRun == found.lastRun
    ensures Rearmed(h, found.settings) == Rearmed(found, found.settings)
  {
    found.(ui := RunningUi(u), running := true, startEnabled := false, stopEnabled := true,
           inputsEnabled := false, proc := None, channel := false)
  }

  /**
   * The context and the metadata record the log exactly when the lookup
   * after the launch found one; before that, and when it raised, the log
   * is blank.
   */
  lemma LaunchRecordsLog(g: Gui, env: StartEnv)
    ensures RecordsLog(Launch(g, env).gui, if env.screenInstalled && env.launched && env.log.Some? then env.log.value else [])
  {
    var screen := ScreenPrefix + NatToString(env.stamp);
    var h := Launch(g, env).gui;
    if !env.screenInstalled {
      assert h.runCtx == Some(RunCtx(screen, "", 0)) && h.lastRun == Recorded(g.settings, screen, "", 0);
    } else if !env.launched || env.log.None? {
      assert h.runCtx == Some(RunCtx(screen, "", env.epoch)) && h.lastRun == Recorded(g.settings, screen, "", 0);
    } else {
      assert h.runCtx == Some(RunCtx(screen, env.log.value, env.epoch));
      assert h.lastRun == Recorded(g.settings, screen, env.log.value, env.epoch);
    }
  }

  /** The upload, then the launch; a failed upload stops start with nothing launched. */
  function Upload(g: Gui, env: StartEnv): (r: Started)
    ensures r.uploadTried
    ensures !env.uploaded ==> r == Started(g, Failed(UploadFailed), true)
    ensures env.uploaded ==> r == Launch(g, env)
  {
    if !env.uploaded then Started(g, Failed(UploadFailed), true) else Launch(g, env)
  }

  /** The settings start works with: the current ones when complete, else what the wizard left. */
  function WithSetup(g: Gui, wizard: Settings): (g1: Gui)
    ensures g1 == g.(settings := g1.settings)
    ensures SetupComplete(g.settings) ==> g1 == g
  {
    if SetupComplete(g.settings) then g else g.(settings := wizard)
  }

  /** In manual mode the schedule is a single title: one to encode, none finalized yet. */
  function Titled(g: Gui, f: Form): (g2: Gui)
    ensures g2 == g.(ui := g2.ui)
    ensures !f.csvMode ==> g2.ui.totalTitles == 1 && g2.ui.finalized == 0
    ensures g2.ui.doneEmitted == g.ui.doneEmitted && g2.ui.waiting == g.ui.waiting
  {
    if f.csvMode then g else g.(ui := g.ui.(totalTitles := 1, finalized := 0))
  }

  /**
   * start after the running check and the wizard: validation, the remote
   * script, the schedule (its errors come before any upload), the
   * manual-mode title counters, the upload and the launch.
   */
  function Prepare(g: Gui, f: Form, env: StartEnv): (r: Started)
    ensures !env.validated ==> r == Started(g, Failed(ValidationFailed), false)
    ensures env.validated && !env.scriptReady ==> r == Started(g, Failed(ScriptUnavailable), false)
    ensures env.validated && env.scriptReady && ScheduleError(f, env.csvExists).Some? ==>
              r == Started(g, Failed(ScheduleError(f, env.csvExists).value), false)
    ensures env.validated && env.scriptReady && ScheduleError(f, env.csvExists).None? ==>
              r == Upload(Titled(g, f), env)
  {
    if !env.validated then Started(g, Failed(ValidationFailed), false)
    else if !env.scriptReady then Started(g, Failed(ScriptUnavailable), false)
    else
      match ScheduleError(f, env.csvExists)
      case Some(err) => Started(g, Failed(err), false)
      case None => Upload(Titled(g, f), env)
  }

  /**
   * start: a no-op while running; with incomplete setup the wizard runs and
   * start gives up silently if setup is still incomplete; otherwise each
   * failing step ends start with an error box and the state as it was
   * left so far.
   */
  function Start(g: Gui, f: Form, env: StartEnv): (r: Started)
    ensures g.running ==> r == Started(g, Ignored, false)
    ensures !g.running && !SetupComplete(WithSetup(g, env.wizard).settings) ==> r.outcome == Ignored && !r.uploadTried
    ensures !g.running && SetupComplete(WithSetup(g, env.wizard).settings) ==>
              r == Prepare(WithSetup(g, env.wizard), f, env)
  {
    if g.running then Started(g, Ignored, false)
    else
      var g1 := WithSetup(g, env.wizard);
      if !SetupComplete(g1.settings) then Started(g1, Ignored, false)
      else Prepare(g1, f, env)
  }

  /** start does nothing at all while a run is active. */
  lemma StartIgnoredWhileRunning(g: Gui, f: Form, env: StartEnv)
    requires g.running
    ensures Start(g, f, env).gui == g && Start(g, f, env).outcome == Ignored
  {
  }

  /**
   * A manual form with no title, a year that is not four digits, a total
   * below 1 or a current disc outside 1..total is rejected before the
   * schedule is uploaded or the job launched: the run context is untouched
   * and nothing runs.
   */
  lemma ManualFormRejectedBeforeUpload(g: Gui, f: Form, env: StartEnv)
    requires !f.csvMode && ManualFormError(f).Some?
    ensures var r := Start(g, f, env);
      !r.uploadTried && r.outcome != Launched && r.gui.runCtx == g.runCtx && r.gui.running == g.running
  {
    assert ScheduleError(f, env.csvExists).Some?;
    if !g.running {
      var g1 := WithSetup(g, env.wizard);
      assert g1.runCtx == g.runCtx && !g1.running;
      if SetupComplete(g1.settings) {
        var r := Prepare(g1, f, env);
        assert r.gui == g1 && !r.uploadTried && r.outcome.Failed?;
      }
    }
  }

  /** The specific error for each invalid manual field, in the order start checks them. */
  lemma ManualFormErrors(f: Form)
    ensures Strip(f.title) == [] ==> ManualFormError(f) == Some(TitleRequired)
    ensures Strip(f.title) != [] && !ScheduleCsv.IsYear(Strip(f.year)) ==>
              ManualFormError(f) == Some(YearNotFourDigits)
    ensures (Strip(f.title) != [] && ScheduleCsv.IsYear(Strip(f.year)) && f.discCount.Some? && f.startDisc.Some?
             && f.discCount.value < 1) ==> ManualFormError(f) == Some(TotalBelowOne)
  {
  }

  /** How start reached a launch: not running, setup complete, and the schedule accepted. */
  lemma StartLaunchPath(g: Gui, f: Form, env: StartEnv)
    requires Start(g, f, env).outcome == Launched
    ensures !g.running && SetupComplete(WithSetup(g, env.wizard).settings)
    ensures env.validated && env.scriptReady && env.uploaded && ScheduleError(f, env.csvExists).None?
    ensures Start(g, f, env) == Launch(Titled(WithSetup(g, env.wizard), f), env)
  {
  }

  /**
   * A successful start: running, no wait, counters zero, Continue and Start
   * disabled, Stop enabled, the latch re-armed, and the recorded metadata
   * matching the connection it was launched over.
   */
  lemma StartSucceeds(g: Gui, f: Form, env: StartEnv)
    requires Start(g, f, env).outcome == Launched
    ensures var h := Start(g, f, env).gui;
      && RunningState(h) && !h.doneHandled && h.runCtx.Some?
      && LastRunMatches(h.settings, h.lastRun)
  {
    StartLaunchPath(g, f, env);
    var g2 := Titled(WithSetup(g, env.wizard), f);
    assert g2.settings == WithSetup(g, env.wizard).settings;
  }

  /** A rejected form ends start with an error about the form. */
  lemma ScheduleFailureIsFormError(g: Gui, f: Form, env: StartEnv)
    requires env.validated && env.scriptReady
    ensures var se := ScheduleError(f, env.csvExists);
      se.Some? ==> Prepare(g, f, env).outcome == Failed(se.value) && FormError(se.value)
  {
  }

  /** The errors start raises once the run context is stored: the screen check, the launch, and following the log. */
  predicate LaunchStageError(e: StartError)
    ensures LaunchStageError(e) ==> !FormError(e) && !e.UploadFailed? && !e.ValidationFailed? && !e.ScriptUnavailable?
  {
    e.ScreenMissing? || e.LaunchFailed? || FollowError(e)
  }

  /**
   * A start that fails after the run context is stored leaves the context,
   * the metadata naming its session and the re-armed latch behind while
   * nothing runs; when the failure came from finding or following the log,
   * the job itself was launched and keeps running on the server.
   */
  lemma LaunchFailureKeepsContext(g: Gui, f: Form, env: StartEnv)
    requires Start(g, f, env).outcome.Failed? && LaunchStageError(Start(g, f, env).outcome.error)
    ensures var h := Start(g, f, env).gui;
      && !h.running && h.runCtx.Some? && !h.doneHandled
      && h.lastRun.screen == h.runCtx.value.screen != []
    ensures FollowError(Start(g, f, env).outcome.error) ==> env.screenInstalled && env.launched
  {
    assert !g.running;
    var g1 := WithSetup(g, env.wizard);
    assert SetupComplete(g1.settings);
    assert Start(g, f, env) == Prepare(g1, f, env);
    assert env.validated && env.scriptReady;
    ScheduleFailureIsFormError(g1, f, env);
    assert ScheduleError(f, env.csvExists).None?;
    var g2 := Titled(g1, f);
    assert Start(g, f, env) == Upload(g2, env);
    assert env.uploaded;
    assert !g2.running;
    LaunchRecordsLog(g2, env);
    LaunchFollowFailure(g2, env);
  }

  // ---------------------------------------------------------------------
  // Replay

  const LogNotFound: string := "Log file not found: "

  /**
   * start_replay: a no-op while running; a log file that does not exist
   * raises before anything changes; otherwise replay mode, running, Stop
   * enabled, Continue disabled.
   */
  function StartReplay(g: Gui, logPath: string, logExists: bool): (r: Result<Gui, string>)
    ensures g.running ==> r == Ok(g)
    ensures r.Err? <==> !g.running && !logExists
    ensures r.Err? ==> r.error == LogNotFound + logPath
    ensures !g.running && r.Ok? ==> var h := r.value;
      h.running && h.replayMode && !h.replayStop && !h.ui.waiting && !h.ui.continueEnabled
    ensures r.Ok? ==> r.value.doneHandled == g.doneHandled
  {
    if g.running then Ok(g)
    else if !logExists then Err(LogNotFound + logPath)
    else
      Ok(g.(replayMode := true, replayStop := false, running := true,
            ui := g.ui.(waiting := false, step := "Replaying log", prompt := "", continueEnabled := false, bar := Busy),
            startEnabled := false, stopEnabled := true))
  }

  /** Started from a fresh window, a replay ends idle when its done message arrives. */
  lemma ReplayFromFreshEnds(s: Settings, lr: LastRun, logPath: string, payload: string)
    ensures var r := StartReplay(Fresh(s, lr), logPath, true);
      r.Ok? && var h := OnDone(r.value, payload).gui; !h.running && h.doneHandled
  {
  }

  /** The replay does not re-arm the latch: after a handled run, its done message is ignored and it keeps running. */
  lemma ReplayAfterHandledRunStaysRunning(g: Gui, logPath: string, payload: string)
    requires g.doneHandled && !g.running
    ensures var r := StartReplay(g, logPath, true); r.Ok? && OnDone(r.value, payload).gui.running
  {
  }

  // ---------------------------------------------------------------------
  // Reattach

  /**
   * The outcomes of the calls the reattach offer makes: validation, the
   * screen-session probe (None when it raised, else whether the session is
   * alive), the user's answer, and what the reattach itself looks up: the
   * refreshed start time, whether the stored log still exists, the latest
   * log (None when the lookup raised), and whether the tail could be opened.
   */
  datatype ReattachEnv = ReattachEnv(
    validated: bool,
    probe: Option<bool>,
    accepted: bool,
    epochNow: nat,
    logExists: bool,
    latestLog: Option<string>,
    tailStarted: bool)

  /** The gate of _maybe_offer_reattach before any remote call. */
  predicate MayOfferReattach(g: Gui)
  {
    && !g.running && g.runCtx.None?
    && SetupComplete(g.settings)
    && Strip(g.lastRun.screen) != []
    && LastRunMatches(g.settings, g.lastRun)
  }

  /** A run the GUI follows from its start: running, the latch and the stop flag cleared. */
  predicate Following(h: Gui)
  {
    RunningState(h) && !h.doneHandled && !h.stopRequested
  }

  /** The log a reattach follows: the stored one while it exists, else the one the lookup finds. */
  function ReattachLog(g: Gui, env: ReattachEnv): (log: Option<string>)
    ensures g.lastRun.log != [] && env.logExists ==> log == Some(g.lastRun.log)
    ensures !(g.lastRun.log != [] && env.logExists) ==> log == env.latestLog
  {
    if g.lastRun.log != [] && env.logExists then Some(g.lastRun.log) else env.latestLog
  }

  /** The state a reattach leaves, and the error it raised, if any. */
  datatype Reattached = Reattached(gui: Gui, error: Option<StartError>)

  /**
   * _reattach_to_existing_run: the context is rebuilt from the metadata (the
   * start time looked up when missing, the log re-discovered when missing
   * or gone), the metadata refreshed, the latch re-armed, and the GUI set
   * running as start would. A failed log lookup raises before the metadata
   * is refreshed; a blank log or a tail that does not open raises after the
   * latch is re-armed. Either way the rebuilt context stays while nothing
   * runs.
   */
  function Reattach(g: Gui, env: ReattachEnv): (r: Reattached)
    ensures r.error.None? <==> Followable(ReattachLog(g, env), env.tailStarted)
    ensures HasContextFor(r.gui, g.lastRun.screen)
    ensures r.error.None? ==> Following(r.gui)
    ensures r.error.Some? ==> r.gui.running == g.running && r.gui.startEnabled == g.startEnabled
  {
    var epoch := if g.lastRun.epoch != 0 then g.lastRun.epoch else env.epochNow;
    var found := ReattachLog(g, env);
    if found.None? then
      Reattached(g.(runCtx := Some(RunCtx(g.lastRun.screen, "", epoch))), Some(LogNotLocated))
    else
      var ctx := RunCtx(g.lastRun.screen, found.value, epoch);
      var armed := g.(runCtx := Some(ctx), lastRun := Recorded(g.settings, ctx.screen, ctx.log, epoch),
                      stopRequested := false, doneHandled := false, ui := g.ui.(doneEmitted := false));
      if !Followable(found, env.tailStarted) then
        Reattached(armed, Some(FollowFailure(found, env.tailStarted)))
      else
        Reattached(armed.(running := true, ui := RunningUi(g.ui),
                          startEnabled := false, stopEnabled := true, inputsEnabled := false), None)
  }

  /**
   * How a reattach fails: a log lookup that raises leaves everything but the
   * rebuilt context as it was, latch included; a blank log or a tail that
   * does not open comes after the metadata is refreshed and the latch
   * re-armed.
   */
  lemma ReattachFailure(g: Gui, env: ReattachEnv)
    ensures var r := Reattach(g, env);
      r.error.Some? ==> r.error.value == FollowFailure(ReattachLog(g, env), env.tailStarted)
    ensures var r := Reattach(g, env);
      r.error == Some(LogNotLocated) ==> r.gui == g.(runCtx := r.gui.runCtx) && r.gui.runCtx.value.log == []
    ensures var r := Reattach(g, env);
      r.error.Some? && r.error != Some(LogNotLocated) ==> !r.gui.doneHandled && !r.gui.stopRequested
    ensures var r := Reattach(g, env);
      ReattachLog(g, env).Some? ==> r.gui.lastRun.log == r.gui.runCtx.value.log == ReattachLog(g, env).value
  {
    var epoch := if g.lastRun.epoch != 0 then g.lastRun.epoch else env.epochNow;
    var found := ReattachLog(g, env);
    if found.Some? {
      var ctx := RunCtx(g.lastRun.screen, found.value, epoch);
      var armed := g.(runCtx := Some(ctx), lastRun := Recorded(g.settings, ctx.screen, ctx.log, epoch),
                      stopRequested := false, doneHandled := false, ui := g.ui.(doneEmitted := false));
      assert Reattach(g, env).gui.lastRun == armed.lastRun && Reattach(g, env).gui.runCtx == Some(ctx);
    }
  }

  datatype Offer = Offer(gui: Gui, asked: bool)

  /**
   * _maybe_offer_reattach: only when the gate holds and validation passes;
   * a probe that raises changes nothing, a dead session clears the stale
   * metadata, a live one is offered and reattached if accepted.
   */
  function OfferReattach(g: Gui, env: ReattachEnv): (o: Offer)
    ensures o.asked ==> MayOfferReattach(g) && env.validated && env.probe == Some(true)
    ensures !MayOfferReattach(g) ==> o == Offer(g, false)
    ensures o.asked && env.accepted ==> o.gui == Reattach(g, env).gui
    ensures !(o.asked && env.accepted) ==> o.gui == g.(lastRun := o.gui.lastRun)
    ensures o.gui.lastRun != g.lastRun && !(o.asked && env.accepted) ==> o.gui.lastRun == NoLastRun && env.probe == Some(false)
  {
    if !MayOfferReattach(g) || !env.validated then Offer(g, false)
    else
      match env.probe
      case None => Offer(g, false)
      case Some(alive) =>
        if !alive then Offer(g.(lastRun := NoLastRun), false)
        else if !env.accepted then Offer(g, true)
        else Offer(Reattach(g, env).gui, true)
  }

  /**
   * A reattach whose log cannot be found or followed leaves a context for a
   * session nothing follows, and keeps the offer from being made again
   * while that context stays.
   */
  lemma FailedReattachBlocksOffer(g: Gui, env: ReattachEnv, later: ReattachEnv)
    requires MayOfferReattach(g) && env.validated && env.probe == Some(true) && env.accepted
    requires !Followable(ReattachLog(g, env), env.tailStarted)
    ensures var h := OfferReattach(g, env).gui; !h.running && h.runCtx.Some?
    ensures !OfferReattach(OfferReattach(g, env).gui, later).asked
  {
  }

  /** A reattach refreshes the metadata from the rebuilt context once a log is known, and not before. */
  lemma ReattachRecords(g: Gui, env: ReattachEnv)
    ensures var h := Reattach(g, env).gui;
      ReattachLog(g, env).Some? ==>
        h.lastRun == Recorded(g.settings, g.lastRun.screen, h.runCtx.value.log, h.runCtx.value.epoch)
    ensures ReattachLog(g, env).None? ==> Reattach(g, env).gui.lastRun == g.lastRun
  {
    var epoch := if g.lastRun.epoch != 0 then g.lastRun.epoch else env.epochNow;
    var found := ReattachLog(g, env);
    if found.Some? {
      var ctx := RunCtx(g.lastRun.screen, found.value, epoch);
      var armed := g.(runCtx := Some(ctx), lastRun := Recorded(g.settings, ctx.screen, ctx.log, epoch),
                      stopRequested := false, doneHandled := false, ui := g.ui.(doneEmitted := false));
      assert Reattach(g, env).gui.lastRun == armed.lastRun && Reattach(g, env).gui.runCtx == Some(ctx);
    }
  }

  /** An accepted reattach leaves metadata that still matches the connection. */
  lemma ReattachKeepsMatch(g: Gui, env: ReattachEnv)
    requires MayOfferReattach(g)
    ensures LastRunMatches(g.settings, Reattach(g, env).gui.lastRun)
  {
    var h := Reattach(g, env).gui;
    ReattachRecords(g, env);
    if ReattachLog(g, env).Some? {
      RecordedRunMatches(g.settings, g.lastRun.screen, h.runCtx.value.log, h.runCtx.value.epoch);
    }
  }

  /** A dead session's metadata is dropped, so the offer is never made for it again. */
  lemma DeadSessionForgotten(g: Gui, env: ReattachEnv, later: ReattachEnv)
    requires MayOfferReattach(g) && env.validated && env.probe == Some(false)
    ensures !OfferReattach(OfferReattach(g, env).gui, later).asked
  {
  }

  // ---------------------------------------------------------------------
  // The invariant across every action

  /** Start keeps the invariant, whatever its outcome. */
  lemma StartKeepsInv(g: Gui, f: Form, env: StartEnv)
    requires Inv(g)
    ensures Inv(Start(g, f, env).gui)
  {
    if !g.running {
      var g1 := WithSetup(g, env.wizard);
      var g2 := Titled(g1, f);
      assert Inv(g1) && Inv(g2);
    }
  }

  /** Stop keeps the invariant. */
  lemma StopKeepsInv(g: Gui)
    requires Inv(g)
    ensures Inv(Stop(g).gui)
  {
  }

  /** So does the done message. */
  lemma DoneKeepsInv(g: Gui, payload: string)
    requires Inv(g)
    ensures Inv(OnDone(g, payload).gui)
  {
  }

  /** And the Enter key and log lines, which touch only the parser's fields. */
  lemma EnterAndLinesKeepInv(g: Gui, delivered: bool, chunk: string)
    requires Inv(g)
    ensures Inv(OnReturnKey(g, delivered)) && Inv(OnLogLine(g, chunk))
  {
  }

  /** And so does the reattach offer, which only reattaches while nothing runs. */
  lemma OfferKeepsInv(g: Gui, env: ReattachEnv)
    requires Inv(g)
    ensures Inv(OfferReattach(g, env).gui)
  {
    var o := OfferReattach(g, env);
    if !(o.asked && env.accepted) {
      assert o.gui.running == g.running && o.gui.runCtx == g.runCtx && o.gui.doneHandled == g.doneHandled;
    } else {
      // A session is stored, so the run it belongs to has not been handled.
      assert g.lastRun != NoLastRun;
      ReattachFailure(g, env);
    }
  }

  /** Only start and reattach re-arm the latch. */
  lemma LatchOnlyRearmedByStartOrReattach(g: Gui, payload: string, delivered: bool, chunk: string,
                                          logPath: string, logExists: bool)
    requires g.doneHandled
    ensures Stop(g).gui.doneHandled && OnDone(g, payload).gui.doneHandled
    ensures OnReturnKey(g, delivered).doneHandled && OnLogLine(g, chunk).doneHandled
    ensures StartReplay(g, logPath, logExists).Ok? ==> StartReplay(g, logPath, logExists).value.doneHandled
  {
  }

  // ---------------------------------------------------------------------
  // The legacy GUI

  /** The legacy GUI's run state: its run context is the screen name and log path themselves. */
  datatype LegacyGui = LegacyGui(
    ui: Ui,
    running: bool,
    startEnabled: bool,
    stopEnabled: bool,
    inputsEnabled: bool,
    screen: string,
    log: string,
    stopRequested: bool,
    replayMode: bool,
    replayStop: bool,
    proc: Option<Proc>,
    channel: bool)

  datatype LegacyStopped = LegacyStopped(gui: LegacyGui, effects: seq<Effect>)

  /**
   * The legacy stop: the same interrupts, but it returns without calling
   * _on_done, so the GUI keeps running until the "done" message arrives.
   */
  function StopLegacy(g: LegacyGui): (r: LegacyStopped)
    ensures g.replayMode && g.running ==> r == LegacyStopped(g.(replayStop := true), [])
    ensures !(g.replayMode && g.running) ==> r.gui == g.(stopRequested := true)
    ensures !(g.replayMode && g.running) ==> r.effects == StopEffects(g.screen != [], g.proc, g.channel)
  {
    if g.replayMode && g.running then LegacyStopped(g.(replayStop := true), [])
    else LegacyStopped(g.(stopRequested := true), StopEffects(g.screen != [], g.proc, g.channel))
  }

  /** In screen mode the legacy stop interrupts and quits the session yet leaves the GUI running. */
  lemma LegacyScreenStopKeepsRunning(g: LegacyGui)
    requires g.running && !g.replayMode && g.screen != []
    ensures StopLegacy(g).gui.running
    ensures StopLegacy(g).effects == [Interrupt(ScreenSink), QuitScreen, StopTail]
  {
  }

  /**
   * The legacy _on_done has no latch: it always resets, and shows the
   * "Processing complete." notice for "ok" or the payload as an error.
   */
  function OnDoneLegacy(g: LegacyGui, payload: string): (d: (LegacyGui, Shown))
    ensures !d.0.running && !d.0.ui.waiting && d.0.screen == [] && d.0.log == [] && d.0.stopRequested
    ensures d.0.startEnabled && !d.0.stopEnabled && d.0.inputsEnabled
    ensures d.1 == CompleteNotice <==> payload == "ok"
    ensures d.1 != CompleteNotice ==> d.1 == ErrorBox(payload)
  {
    var h := g.(stopRequested := true, running := false, ui := ClearedUi(g.ui),
                startEnabled := true, stopEnabled := false, inputsEnabled := true, screen := [], log := []);
    (h, if payload == "ok" then CompleteNotice else ErrorBox(payload))
  }

  /**
   * The legacy GUI never offers the cleanup, and never shows the "Stopped"
   * notice: the "Stopped" payload its stopped replay sends is shown as an
   * error box, where the current GUI informs.
   */
  lemma LegacyNeverOffersCleanup(g: LegacyGui, payload: string)
    ensures OnDoneLegacy(g, payload).1 != OfferCleanup
    ensures OnDoneLegacy(g, payload).1 != StoppedNotice
    ensures OnDoneLegacy(g, "Stopped").1 == ErrorBox("Stopped") != DoneDialog("Stopped")
  {
    StoppedInforms();
  }

  /** Without a latch, a second done message shows its dialog again. */
  lemma LegacyDoneRepeats(g: LegacyGui, p: string, q: string)
    ensures OnDoneLegacy(OnDoneLegacy(g, p).0, q).1 != Nothing
    ensures OnDoneLegacy(OnDoneLegacy(g, p).0, q).0 == OnDoneLegacy(g, p).0
  {
  }

  /** In the legacy GUI, idle after a stop is reached only through the done message. */
  lemma LegacyStopThenDoneIdle(g: LegacyGui, payload: string)
    requires !g.replayMode
    ensures !OnDoneLegacy(StopLegacy(g).gui, payload).0.running
  {
  }

  /** The legacy send_enter: the same sinks, with the screen name standing for the run context. */
  function SendEnterLegacy(g: LegacyGui, delivered: bool): (h: LegacyGui)
    ensures SinkFor(g.screen != [], g.proc, g.channel).None? || !delivered ==> h == g
    ensures SinkFor(g.screen != [], g.proc, g.channel).Some? && delivered ==> h == g.(ui := EnterSent(g.ui))
  {
    if SinkFor(g.screen != [], g.proc, g.channel).None? || !delivered then g
    else g.(ui := EnterSent(g.ui))
  }

  /** The legacy _on_return_key: the same gate as the current GUI. */
  function OnReturnKeyLegacy(g: LegacyGui, delivered: bool): (h: LegacyGui)
    ensures !g.ui.waiting || !g.ui.continueEnabled ==> h == g
    ensures g.ui.waiting && g.ui.continueEnabled ==> h == SendEnterLegacy(g, delivered)
  {
    if !g.ui.waiting then g
    else if !g.ui.continueEnabled then g
    else SendEnterLegacy(g, delivered)
  }

  /** The legacy start returns at once while running; what it does otherwise is given as `launched`. */
  function StartLegacy(g: LegacyGui, launched: LegacyGui): (h: LegacyGui)
    ensures g.running ==> h == g
    ensures !g.running ==> h == launched
  {
    if g.running then g else launched
  }
}
