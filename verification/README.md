# ArchiveHelper in Dafny

ArchiveHelper rips optical discs with MakeMKV and encodes them with HandBrake.
A rip/encode script runs on a server. A Tk GUI drives it over SSH, inside a
`screen` session, and follows its log through `tail`. This project models the
side-effect-free logic under that plumbing, as immutable datatypes and pure
functions:

- **Schedules** (`ScheduleCsv`, `ManualSchedule`). The CSV schedule loader
  skips blanks, comments and headers and checks every field. The manual form
  expands to rows, is written as a file, and that file loads back as the same
  discs. `ManualSchedule.CsvRowsFromManual` models both the
  `archive_helper_gui/schedule.py` generator and the character-identical copy
  in `rip_and_encode_v2_gui.py`. The legacy loader of `rip_and_encode_v2.py` is
  the same loader with byte-order-mark stripping switched off (`stripBom`).
- **Names and paths** (`Naming`, `Paths`, `SshUtils`, `CliFiles`). This covers:
  - the title allowlists, the current and the legacy folder sanitizer;
  - `~/` expansion and the one-segment-under-home rule;
  - `host:path` destinations and the ssh/scp argument lists;
  - the extras NFO index and the ssh config host lookup.
- **Cleanup guard** (`Cleanup`). This covers:
  - which children of home `cleanup_mkvs` may delete, in the current and the
    legacy version;
  - its result codes;
  - the keep/safety gate in front of every removal.

  The filesystem is a snapshot of existing paths. The removals that raise are
  an oracle set.
- **Server-side outputs and disc rules** (`Outputs`, `DiscRules`,
  `DiscManifest`, `BookNfo`). This covers:
  - lock paths and free output names;
  - subtitle switches and language tags;
  - disk targets and their per-device deduplication;
  - the main-feature check, extras classification and main-title choice;
  - episode numbering and the legacy resume rule;
  - disc manifests;
  - the audiobook NFO.
- **Progress parser** (`LogPatterns`, `PromptFormat`, `ProgressParser`,
  `LogReadBack`). This covers:
  - the log-line vocabulary as matchers;
  - the disc-prompt rewording;
  - the first-match classifier and its transition on the GUI's `UiState`
    record, for the current parser (`Current`) and the legacy one in
    `rip_and_encode_v2_gui.py` (`Legacy`);
  - the fact that each status line the server prints is read back as the event
    it announces.
- **HandBrake presets** (`Presets`). This covers which lines of the preset
  listing name a preset, order-preserving removal of repeats, and the shell
  fallback. The shell commands are oracle results.
- **GUI run control** (`RunControl`). Start, Continue/Enter, Stop, the done
  message, the replay, and the reattach offer form a state machine. Remote
  commands are effects or oracle outcomes. The legacy GUI's stop, done, Enter
  and start are the `Legacy` members.

`Common` holds `Option`/`Result`. `Text` holds Python's string operations:
- `strip` on Python whitespace;
- `splitlines` with its full set of line boundaries;
- `split`, `zfill` and decimal conversion.

## Model

| member | source | states |
|---|---|---|
| SshUtils.SshTarget | archive_helper_gui/ssh_utils.py:10-17 | a blank host gives ""; a host containing '@' is returned trimmed; otherwise "user@host" when the trimmed user is non-blank, else the trimmed host; the result never has surrounding blanks |
| SshUtils.SshTargetStable | archive_helper_gui/ssh_utils.py:10-17 | a target that already names a user is a fixed point: feeding it back with any user returns it unchanged |
| SshUtils.OptionPair | archive_helper_gui/ssh_utils.py:22-25 | the option contributes nothing exactly when its value is blank, and otherwise the flag followed by the trimmed value |
| SshUtils.BuildSshBaseArgs | archive_helper_gui/ssh_utils.py:20-27 | "ssh", "-tt" first and the target last; "-p" and the trimmed port right after the head when a port is given; "-i" and the trimmed key right before the target when a key is given; nothing else |
| SshUtils.BuildScpBaseArgs | archive_helper_gui/ssh_utils.py:30-36 | "scp" first; "-P" and the trimmed port next when given; "-i" and the trimmed key last when given; no target |
| SshUtils.ScpMatchesSsh | archive_helper_gui/ssh_utils.py:20-36 | past its head, the scp list is the ssh list without "-tt" and the target, with the port flag written "-P" |
| SshUtils.NormalizeRemoteScriptPath | archive_helper_gui/ssh_utils.py:39-45 | blank gives the bare default name; a trimmed setting containing '/' or starting with '~' is kept; any other gets "~/" in front; never empty |
| SshUtils.NormalizeRemoteScriptPathIdempotent | archive_helper_gui/ssh_utils.py:39-45 | normalising a non-blank setting twice gives the same path as once |
| SshUtils.DefaultScriptGetsHomePrefix | archive_helper_gui/ssh_utils.py:39-45 | the default name for a blank setting is not itself normalised: a second pass prefixes "~/" |
| SshUtils.ExecModeLabel | archive_helper_gui/ssh_utils.py:48-54 | one of the three captions; the local-rip captions exactly for their trimmed mode names; every other mode, including unknown ones, reads as remote |
| SshUtils.ExecModeLabelTrimmed | archive_helper_gui/ssh_utils.py:48-54 | surrounding blanks in the mode never change the caption |
| ScheduleCsv.NormalizeBoolYn | archive_helper_core/schedule_csv.py:12-22 | the result is "y", "n" or ""; it is non-empty exactly when the value is a y/n word, and "y"/"n" only for the yes/no words; so the MultiDisc error at line 72 can never fire |
| ScheduleCsv.PrepareLine | archive_helper_core/schedule_csv.py:38-42 | trailing carriage returns are gone from every line; only line 1, and only for the current loader, loses its leading byte-order marks, and nothing else is removed |
| ScheduleCsv.HeaderYearAfterFirstComma | archive_helper_core/schedule_csv.py:48-50 | every line the header pattern skips has "year" (any case, blanks aside) right after its first comma |
| ScheduleCsv.Fields | archive_helper_core/schedule_csv.py:52 | one field per comma plus one, none containing a comma |
| ScheduleCsv.CheckFields | archive_helper_core/schedule_csv.py:58-84 | a row is produced exactly when the year is four digits, the disc a positive number and the third column a y/n word or a positive number; the row keeps name, year, line and disc value, is a movie exactly for a y/n third column, keeps a series' third column, and its every field is valid; errors carry the line number and text and are never the MultiDisc error |
| ScheduleCsv.ParseRow | archive_helper_core/schedule_csv.py:52-84 | the column-count error arises exactly when the line does not split into four non-empty fields; a produced row is valid and numbered n |
| ScheduleCsv.Outcome | archive_helper_core/schedule_csv.py:43-84 | a line is skipped exactly when it is blank, a comment or a header; otherwise the outcome is the row or the error of validating it |
| ScheduleCsv.Outcomes | archive_helper_core/schedule_csv.py:38 | one outcome per line of the file |
| ScheduleCsv.OutcomeAt | archive_helper_core/schedule_csv.py:38-42 | entry j is the outcome of line j + 1, prepared with its own 1-based number |
| ScheduleCsv.KeptLineNumbers | archive_helper_core/schedule_csv.py:38-84 | the numbers of the kept lines, each within the file and naming a line that is not skipped |
| ScheduleCsv.KeptLinesAscend | archive_helper_core/schedule_csv.py:38-84 | the kept line numbers are strictly increasing |
| ScheduleCsv.KeptLinesComplete | archive_helper_core/schedule_csv.py:38-84 | no kept line is missing from the kept line numbers |
| ScheduleCsv.Collect | archive_helper_core/schedule_csv.py:38-84 | the loop succeeds exactly when no line fails, and otherwise reports the error of the first failing line |
| ScheduleCsv.CollectRows | archive_helper_core/schedule_csv.py:38-84 | the k-th row of a successful loop is the row of the k-th kept line |
| ScheduleCsv.LoadOutcomes | archive_helper_core/schedule_csv.py:36-89 | success exactly when no line fails and some line is kept; the rows are those of the kept lines in file order and never empty; another error is the first failing line's; the empty-schedule error exactly when every line is skipped |
| ScheduleCsv.LoadSchedule | archive_helper_core/schedule_csv.py:35-89 | every loaded row is valid, the list is non-empty, and the rows carry strictly increasing line numbers within the file |
| ScheduleCsv.EmptyScheduleIffAllSkipped | archive_helper_core/schedule_csv.py:86-87 | the empty-schedule error is raised exactly when every line of the file is skipped |
| ScheduleCsv.LoadedRowsNumbered | archive_helper_core/schedule_csv.py:38-84 | the rows of a successful load are valid and numbered by the kept lines, in ascending order |
| ScheduleCsv.WellNumberedRowsLoad | archive_helper_core/schedule_csv.py:38-84 | rows loaded from outcomes that carry their own line numbers are valid and ascend within the file |
| ScheduleCsv.CollectAllRows | archive_helper_core/schedule_csv.py:38-84 | when every line yields a row the loop returns exactly those rows |
| ScheduleCsv.LoadScheduleOfRows | archive_helper_core/schedule_csv.py:35-89 | a non-empty file whose every line yields a row loads as exactly those rows, in order |
| ScheduleCsv.LoadersAgreeWithoutBom | rip_and_encode_v2.py:1349-1400 | the legacy loader, which never strips a byte-order mark, returns the same result as the current one whenever line 1 does not start with a mark |
| ScheduleCsv.SamePrepared | archive_helper_core/schedule_csv.py:39-42 | a line with no mark to strip is prepared identically by both loaders |
| ScheduleCsv.CsvDiscPromptForRow | archive_helper_core/schedule_csv.py:92-97 | every prompt starts with "Insert: ", quotes the name and year as 'name (year)', and ends with ". Press Enter when ready." |
| ManualSchedule.ThirdColumn | archive_helper_gui/schedule.py:22-29 | a movie's third column is "y" exactly when it has more than one disc; a series' season is accepted exactly when its trimmed text is a positive number, and is then written as the same number with at least two digits |
| ManualSchedule.DiscCount | archive_helper_gui/schedule.py:24-31 | the disc range from start to total holds max(0, total - start + 1) discs |
| ManualSchedule.CsvRowsFromManual | archive_helper_gui/schedule.py:10-33 | fails exactly for a comma in the title (checked first) or a rejected series season; otherwise max(0, total - start + 1) rows, row k starting with the title and year and ending with disc start + k |
| ManualSchedule.RowsFrom | archive_helper_gui/schedule.py:24-31 | one row per disc of the range, row k written for disc start + k |
| ManualSchedule.FormatRowEnds | archive_helper_gui/schedule.py:24-31 | a written row starts with "name, year, " and ends with ", disc" |
| ManualSchedule.WriteCsvRows | archive_helper_gui/schedule.py:6-7 | the file text is never empty and always ends with a newline |
| ManualSchedule.FormatRowFields | archive_helper_gui/schedule.py:24-31 | the loader's trimmed comma fields of a written row are exactly the four values written |
| ManualSchedule.FormatRowNotSkipped | archive_helper_core/schedule_csv.py:43-50 | a written row with a loadable title is neither blank, a comment nor a header line |
| ManualSchedule.FormatRowNotHeader | archive_helper_core/schedule_csv.py:48-50 | a written row is never taken for a header, because its first comma is followed by digits and not by "year" |
| ManualSchedule.FormatRowPrepared | archive_helper_core/schedule_csv.py:38-42 | a written row reaches the field checks unchanged on any line of the file |
| ManualSchedule.DigitsNotFlag | archive_helper_core/schedule_csv.py:69 | a zero-padded season is never mistaken for a y/n flag |
| ManualSchedule.WrittenFieldsAccepted | archive_helper_core/schedule_csv.py:58-84 | the field checks accept every value the form writes and yield the disc it describes |
| ManualSchedule.FormatRowParses | archive_helper_core/schedule_csv.py:52-84 | a written row parses as the row of the disc it describes |
| ManualSchedule.FormatRowLoads | archive_helper_core/schedule_csv.py:38-84 | a written row, on any line n, loads as exactly its disc numbered n |
| ManualSchedule.DiscRows | archive_helper_gui/schedule.py:24-31 | the expected schedule: one row per disc from start on, numbered from line 1 |
| ManualSchedule.FormThirdWritten | archive_helper_gui/schedule.py:22-29 | the third column the form computes is accepted by the loader as the form's kind |
| ManualSchedule.ManualRowsShape | archive_helper_gui/schedule.py:10-33 | for 1 <= start <= total the form writes total - start + 1 rows, row j for disc start + j with the computed third column |
| ManualSchedule.WrittenRowsLoad | archive_helper_gui/schedule.py:6-7 | rows written for consecutive discs load back, through the joined file text, as those discs on lines 1, 2, ... |
| ManualSchedule.ManualRowsLoadBack | archive_helper_gui/schedule.py:6-33 | round trip: for a loadable title, a four-digit year and 1 <= start <= total, the form's rows written to a file load back as one row per disc, with the form's title, year, kind and third column, in disc order from line 1 |
| ManualSchedule.EmptyRangeLoadsEmpty | archive_helper_core/schedule_csv.py:86-87 | an empty disc range writes a file holding one blank line, which the loader rejects as an empty schedule |
| Text.Lower | archive_helper_core/schedule_csv.py:13 | lower-casing keeps the length and maps each character on its own (ASCII letters only) |
| Text.NatToString | archive_helper_gui/schedule.py:29 | the decimal text of a number: all digits, with that value and no leading zero |
| Text.ZFillDigits | archive_helper_gui/schedule.py:29 | zero-padding a digit string keeps it a digit string with the same value |
| Text.SplitOnJoin | archive_helper_core/schedule_csv.py:52 | splitting a join on its one-character separator returns the comma-free parts |
| Text.SplitLinesOfJoin | archive_helper_core/schedule_csv.py:38 | splitting lines joined by "\n" plus a final "\n", none containing a line break, returns exactly those lines |
| Naming.CleanTitle | archive_helper_core/cli_utils.py:132-133 | only ASCII letters, digits and '_' remain; the result is never longer, and keeps the full length exactly when every character was a letter, a digit or a space |
| Naming.CleanTitleConcat | archive_helper_core/cli_utils.py:132-133 | cleaning works character by character, so it distributes over concatenation |
| Naming.CleanTitleFixedPoint | archive_helper_core/cli_utils.py:132-133 | a title is left unchanged exactly when it consists of ASCII letters and digits |
| Naming.SubRuns | archive_helper_core/cli_utils.py:148-154 | replacing each maximal run of a character class by one character: empty exactly for empty input, no class character survives, and a class replacement is never doubled |
| Naming.ReplaceRejected | archive_helper_core/cli_utils.py:144-148 | after mapping separators and replacing runs of disallowed characters only [A-Za-z0-9._-] and spaces remain |
| Naming.CollapseUnderscores | archive_helper_core/cli_utils.py:151-154 | after mapping spaces and collapsing underscores only [A-Za-z0-9._-] remain and no "__" occurs |
| Naming.StripChars | archive_helper_core/cli_utils.py:155 | trimming a character set leaves a contiguous piece of the input whose ends are outside the set |
| Naming.SanitizeSteps | archive_helper_core/cli_utils.py:139-155 | the trimmed, collapsed name is empty or a well-formed folder name |
| Naming.SanitizeTitleForDir | archive_helper_core/cli_utils.py:136-156 | always a well-formed folder name: non-empty, only [A-Za-z0-9._-], no "__", not starting or ending with '.', '_' or '-', hence no '/' and no space |
| Naming.DirNameIsClean | archive_helper_core/cli_utils.py:136-156 | a well-formed folder name has no separator and no space |
| Naming.SanitizeStepsKeep | archive_helper_core/cli_utils.py:139-155 | none of the sanitizer's steps changes a well-formed folder name |
| Naming.SanitizeFixedPoint | archive_helper_core/cli_utils.py:136-156 | the names returned unchanged are exactly the well-formed folder names |
| Naming.SanitizeIdempotent | archive_helper_core/cli_utils.py:136-156 | sanitizing twice is the same as sanitizing once |
| Naming.SanitizeTitleForDirLegacy | rip_and_encode_v2.py:444-446 | the legacy sanitizer keeps the length, leaves no space or '/', and changes no other character |
| Naming.SanitizeLegacyIdempotent | rip_and_encode_v2.py:444-446 | the legacy sanitizer is idempotent |
| Paths.JoinPath | archive_helper_core/cli_utils.py:45 | joining a relative part to a base puts exactly one separator between them; an absolute part replaces the base; an empty part adds nothing |
| Paths.ExpandTilde | archive_helper_core/cli_utils.py:43-46 | a leading "~/" is replaced by the home directory joined with the rest; every other string is returned unchanged |
| Paths.ExpandTildeRelative | archive_helper_core/cli_utils.py:43-46 | "~/rest" with a relative rest becomes home + "/" + rest |
| Paths.SafeWorkDirShape | archive_helper_core/cli_utils.py:159-176 | a work dir is safe exactly when it is home + "/" + one non-empty, slash-free segment |
| Paths.UnsafeWorkDirs | archive_helper_core/cli_utils.py:166-175 | home itself and any path two or more segments below home are refused |
| Paths.InsideSafeWorkDirIsUnsafe | archive_helper_core/cli_utils.py:166-175 | anything inside a safe work dir is refused |
| Paths.RemoteHostPart | archive_helper_core/rip_and_encode_server.py:840-841 | the host part never contains ':' |
| Paths.RemotePathPart | archive_helper_core/rip_and_encode_server.py:844-845 | the path part is strictly shorter than the destination (the source fails on a destination without ':') |
| Paths.RemotePartsJoin | archive_helper_core/rip_and_encode_server.py:828-845 | for a remote destination, host part + ":" + path part gives the destination back |
| Paths.RemotePartsSplit | archive_helper_core/rip_and_encode_server.py:840-845 | splitting host + ":" + path returns the host and the path whenever the host has no ':' |
| CliFiles.InitExtrasNfo | archive_helper_core/cli_utils.py:179-181 | an existing file is left alone; a missing one is created holding the opening tag |
| CliFiles.CloseExtrasNfo | archive_helper_core/cli_utils.py:184-190 | a missing file stays missing; an existing one afterwards contains the closing tag and starts with its old text, and is unchanged if it already had the tag |
| CliFiles.CloseExtrasNfoIdempotent | archive_helper_core/cli_utils.py:184-190 | closing twice is the same as closing once |
| CliFiles.InitThenClose | archive_helper_core/cli_utils.py:179-190 | a fresh file initialised and closed holds exactly the opening and closing tags |
| CliFiles.VideoEntry | archive_helper_core/cli_utils.py:198-203 | the appended entry contains the filename tag it is later looked up by |
| CliFiles.AppendExtraNfoIfMissing | archive_helper_core/cli_utils.py:193-203 | afterwards the file exists and lists the filename; a file already listing it is unchanged; otherwise the entry is appended, or the file created with only the entry |
| CliFiles.AppendExtraNfoIdempotent | archive_helper_core/cli_utils.py:193-203 | a second append with the same filename, whatever its title, changes nothing |
| CliFiles.AppendKeepsContent | archive_helper_core/cli_utils.py:193-203 | appending never loses text the file already held |
| CliFiles.AnyLine | archive_helper_core/cli_utils.py:27-35 | the scan finds a match exactly when some line matches |
| CliFiles.SshConfigHasHost | archive_helper_core/cli_utils.py:22-35 | true exactly when the file exists and one of its lines names the host after a "host" keyword |
| CliFiles.HostLineRecognised | archive_helper_core/cli_utils.py:31-34 | a line "Host name" for a one-word name is recognised as naming that host |
| CliFiles.CommentLineIgnored | archive_helper_core/cli_utils.py:29-30 | a comment line never names a host |
| Cleanup.ExcludeRoots | archive_helper_core/rip_and_encode_server.py:3260-3269 | the excluded roots are exactly the non-empty, local (not remote) movies and series settings |
| Cleanup.Candidates | archive_helper_core/rip_and_encode_server.py:3278-3306 | the candidates are exactly the listed children that pass the rule: a directory with an MKVs subdirectory, a marker or legacy hint, a safe work dir, and neither equal to nor under an excluded root |
| Cleanup.Failures | archive_helper_core/rip_and_encode_server.py:3329-3335 | the failures are exactly the attempted removals that raise |
| Cleanup.CleanupMkvs | archive_helper_core/rip_and_encode_server.py:3242-3341 | code 2 exactly when home cannot be listed; otherwise 0 or 1; only candidates are ever removed, every candidate is removed unless it is a dry run, a dry run removes nothing, and the code is 1 exactly when some removal failed |
| Cleanup.CleanupSparesOutputRoots | archive_helper_core/rip_and_encode_server.py:3295-3300 | no local movies or series root, and nothing under one, is ever removed |
| Cleanup.ExampleIsCandidate | archive_helper_core/rip_and_encode_server.py:3278-3306 | a concrete work dir that contains the movies root passes every candidate test |
| Cleanup.CleanupRemovesRootAncestor | archive_helper_core/rip_and_encode_server.py:3299 | the exclusion covers a root and what lies under it only: a work dir containing the movies root is still removed |
| Cleanup.LegacyCandidates | rip_and_encode_v2.py:1628-1644 | the legacy candidates are exactly the listed children with a directory, an MKVs subdirectory, the legacy marker or a hint, and a safe work dir; there is no root exclusion |
| Cleanup.CleanupMkvsLegacy | rip_and_encode_v2.py:1612-1680 | code 2 exactly when home cannot be listed, otherwise 0 even when a removal fails; only the MKVs folder of a candidate is removed, each one unless it is a dry run, and a dry run removes nothing |
| Cleanup.LegacyCleanupKeepsWorkDirs | rip_and_encode_v2.py:1651-1675 | nothing the legacy cleanup removes is itself a work dir: it always lies one level deeper |
| Cleanup.RmMkvsTreeIfAllowed | archive_helper_core/rip_and_encode_server.py:2479-2486 | nothing is removed when MKVs are kept; otherwise an unsafe work dir is refused before any removal, and the MKV tree is removed exactly when the work dir is safe and the tree exists |
| Cleanup.RmWorkDirIfAllowed | archive_helper_core/rip_and_encode_server.py:2489-2496 | the same gate for the work dir itself: kept, refused when unsafe, removed exactly when safe and present |
| Cleanup.RemovedWorkDirIsOneSegment | archive_helper_core/rip_and_encode_server.py:2489-2496 | whatever work dir is removed lies exactly one segment below home |
| Outputs.EncodeLockPath | archive_helper_core/rip_and_encode_server.py:1437-1438 | the lock path is the output path followed by ".enc.lock" |
| Outputs.EncodeLockPathInjective | archive_helper_core/rip_and_encode_server.py:1437-1438 | distinct outputs have distinct locks |
| Outputs.Pad2 | archive_helper_core/rip_and_encode_server.py:2110 | a number below 100 is printed as exactly two digits with that value |
| Outputs.Pad2Injective | archive_helper_core/rip_and_encode_server.py:2110 | two numbers below 100 are printed differently |
| Outputs.UniqueOutPath | archive_helper_core/rip_and_encode_server.py:2101-2118 | the result is the first name, in the order stem.ext then stem-02.ext .. stem-99.ext, whose file and lock are both absent; the error, with the source's message, exactly when all 99 are taken |
| Outputs.OutNamesDistinct | archive_helper_core/rip_and_encode_server.py:2101-2118 | the 99 names tried are pairwise distinct |
| Outputs.SubtitleOutputPath | archive_helper_core/rip_and_encode_server.py:1519-1527 | the first absent name among base+ext and base.02+ext .. base.99+ext; an existing path is returned only when all 99 exist, and it is then base+ext |
| Outputs.HandbrakeSubtitleArgs | archive_helper_core/rip_and_encode_server.py:1473-1480 | the soft switches exactly for mode "soft", the none switch exactly for "none" or "external", and no switches for every other mode, after trimming and lower-casing (an empty mode reads as "preset") |
| Outputs.EmptyModeIsPreset | archive_helper_core/rip_and_encode_server.py:1474 | an empty mode reads as "preset" |
| Outputs.SubtitleArgsNormalised | archive_helper_core/rip_and_encode_server.py:1473-1480 | case and surrounding blanks of the mode never change the switches |
| Outputs.LangLetters | archive_helper_core/rip_and_encode_server.py:1509-1513 | only lower-case ASCII letters are left, in order |
| Outputs.NormalizeSubtitleLanguage | archive_helper_core/rip_and_encode_server.py:1509-1516 | the first two letters of the lower-cased code when it has at least two, and "und" exactly when it has fewer; the result is "und" or two lower-case letters |
| Outputs.TwoLetterTagKept | archive_helper_core/rip_and_encode_server.py:1509-1516 | a two-letter lower-case tag is kept as it is |
| Outputs.UndNormalisesToUn | archive_helper_core/rip_and_encode_server.py:1509-1516 | normalising is not idempotent: the fallback "und" itself becomes "un" |
| Outputs.DiskTargetsForRun | archive_helper_core/rip_and_encode_server.py:2741-2747 | the home base first, then the local movies and series settings, at most three targets |
| Outputs.FirstPerDeviceKeeps | archive_helper_core/rip_and_encode_server.py:2750-2765 | the kept paths come from the input, no two share a known device, every device of the input is still represented, and every path of unknown device is kept |
| Outputs.DedupePathsByDevice | archive_helper_core/rip_and_encode_server.py:2750-2765 | the loop keeps, in order, the first path of each device and every path of unknown device, agreeing with the reference definition |
| Outputs.SeenGrows | archive_helper_core/rip_and_encode_server.py:2762-2764 | adding a path adds its known device, and nothing else, to the devices seen |
| DiscRules.Longest | archive_helper_core/rip_and_encode_server.py:2230-2234 | the longest positive duration: one of the durations, positive, and no smaller than any other |
| DiscRules.MinMainSeconds | archive_helper_core/rip_and_encode_server.py:2236-2250 | the pass mark is never below 30 minutes |
| DiscRules.MovieDiscHasMainFeature | archive_helper_core/rip_and_encode_server.py:2219-2253 | no MKVs fails; no readable duration passes unchecked; otherwise the disc passes exactly when some duration reaches max(1800, 33 * runtime) seconds for a known runtime, else 2400, and a pass carries no message |
| DiscRules.MainFeatureMonotone | archive_helper_core/rip_and_encode_server.py:2229-2253 | once some duration is readable, lengthening a title never turns an accepted disc into a rejected one |
| DiscRules.UnreadableDurationsAccepted | archive_helper_core/rip_and_encode_server.py:2230-2232 | a disc whose durations cannot be read is accepted even with a known runtime |
| DiscRules.FirstMax | archive_helper_core/rip_and_encode_server.py:1425-1427 | Python's max with a key: nothing exactly when no position is eligible, otherwise the first eligible position of the largest key |
| DiscRules.NonExtras | archive_helper_core/rip_and_encode_server.py:1422 | the main-title candidates are exactly the positions holding a non-extra |
| DiscRules.Weights | archive_helper_core/rip_and_encode_server.py:1410-1416 | each title is ranked by its duration, or by its size in MB when the duration is unknown |
| DiscRules.AnalyzeMkvsForMovieDisc | archive_helper_core/rip_and_encode_server.py:1398-1429 | every title is classified and weighted by the rule; the main title is absent exactly for an empty disc, is the first heaviest non-extra when there is one, and otherwise the first largest file |
| DiscRules.UnknownDurationNotExtra | archive_helper_core/rip_and_encode_server.py:1410-1414 | a title without a usable duration is never an extra and is weighted by its size in MB |
| DiscRules.LongTitleNotExtra | archive_helper_core/rip_and_encode_server.py:1417-1420 | a title of 20 minutes or more is never an extra, whatever its name or chapter count |
| DiscRules.EpisodeTag | archive_helper_core/rip_and_encode_server.py:2261-2263 | the number after the leftmost "E" followed by two digits, as `re.search` finds it: no earlier position holds such a tag; below 100; none exactly when no such tag occurs |
| DiscRules.EpisodeTagFirst | archive_helper_core/rip_and_encode_server.py:2261-2263 | whenever a tag starts at i and none starts earlier, the episode number is the one at i, so a later tag never wins |
| DiscRules.FirstTagDecides | archive_helper_core/rip_and_encode_server.py:2261-2263 | "E01E09" is episode 1, not 9 |
| DiscRules.SeriesNextEpisodeNumber | archive_helper_core/rip_and_encode_server.py:2256-2264 | at least 1; larger than every tagged episode in the folder; one past a tagged episode when above 1; and 1 for a missing folder or one without tags |
| DiscRules.RipDiscIfNeeded | rip_and_encode_v2.py:970-989 | existing MKVs are returned with no prompt and no rip; otherwise the prompt comes first, the wait happens exactly when asked for, MakeMKV runs, and the new MKVs are returned or the source's error raised when there are none |
| DiscRules.RipThenResume | rip_and_encode_v2.py:970-989 | resuming is idempotent: once a rip produced MKVs, the step again returns them and rips nothing |
| DiscManifest.DiscManifestPath | archive_helper_core/rip_and_encode_server.py:2004-2009 | the current manifest name when it exists; the legacy name only when it exists and the current one does not; the current name when neither exists |
| DiscManifest.DecoderInput | archive_helper_core/rip_and_encode_server.py:2017 | non-empty text is decoded as it is (an empty file reads as "{}") |
| DiscManifest.LoadDiscManifest | archive_helper_core/rip_and_encode_server.py:2012-2028 | a manifest is returned exactly when the file exists and decodes to a dict with version 1 and a list of items, and it is that dict |
| DiscManifest.EmptyFileIsNoManifest | archive_helper_core/rip_and_encode_server.py:2017-2024 | an empty file is no manifest |
| DiscManifest.OtherVersionIsNoManifest | archive_helper_core/rip_and_encode_server.py:2023-2024 | a manifest of another version is ignored |
| DiscManifest.ManifestOutputsComplete | archive_helper_core/rip_and_encode_server.py:2038-2050 | complete exactly when the items are a non-empty list and every item is a dict whose output is a non-empty string naming an existing path |
| DiscManifest.CompleteStaysComplete | archive_helper_core/rip_and_encode_server.py:2038-2050 | outputs appearing later never make a complete manifest incomplete |
| DiscManifest.DiscAlreadyProcessed | archive_helper_core/rip_and_encode_server.py:2361-2362 | a disc is skipped only when its manifest loads, and then exactly when its outputs are complete |
| BookNfo.EscapeChar | archive_helper_core/rip_and_encode_server.py:3033-3034 | escaping one character yields only markup-safe characters, and leaves a safe character other than '&' as it is |
| BookNfo.Escape | archive_helper_core/rip_and_encode_server.py:3033-3034 | the escaped text holds only markup-safe characters, is never shorter, and gains no line break |
| BookNfo.UnescapeCons | archive_helper_core/rip_and_encode_server.py:3033-3034 | one escaped character unescapes to that character, whatever follows |
| BookNfo.UnescapeEscape | archive_helper_core/rip_and_encode_server.py:3033-3034 | escaping loses nothing: unescaping the escaped text gives the original back |
| BookNfo.EscapePlain | archive_helper_core/rip_and_encode_server.py:3033-3034 | text without characters to escape is written as it is |
| BookNfo.FieldLinesOf | archive_helper_core/rip_and_encode_server.py:3041-3044 | one element per listed key whose trimmed value is not blank, and nothing else |
| BookNfo.SeriesLines | archive_helper_core/rip_and_encode_server.py:3045-3053 | the series block is present exactly when the name or number is not blank, is opened and closed, and holds the name and the number exactly when each is not blank |
| BookNfo.Document | archive_helper_core/rip_and_encode_server.py:3036-3058 | the declaration, book, title, thumb and closing lines frame the optional fields, series block and collection |
| BookNfo.DocumentContents | archive_helper_core/rip_and_encode_server.py:3036-3058 | the document holds every field and series line and the collection when given, and opens no other element |
| BookNfo.BookNfoLines | archive_helper_core/rip_and_encode_server.py:3032-3058 | the rendered lines are framed by the declaration, book, title, thumb and closing lines |
| BookNfo.FieldWritten | archive_helper_core/rip_and_encode_server.py:3041-3044 | every listed field with a non-blank value gets its element holding the trimmed value |
| BookNfo.SeriesBlockPresent | archive_helper_core/rip_and_encode_server.py:3045-3053 | the series block is written exactly when the series name or number is not blank |
| BookNfo.RenderBookNfo | archive_helper_core/rip_and_encode_server.py:3032-3059 | the text starts with the XML declaration line and ends with the closing book tag and a newline |
| Presets.IndentLen | archive_helper_gui/handbrake_presets.py:62-63 | the indent is never longer than the line |
| Presets.PresetLine | archive_helper_gui/handbrake_presets.py:57-82 | a line names a preset exactly when it is not blank, not noise, not a category header, indented by 2 to 6 spaces or tabs, and its stripped text is non-empty and does not end with '/'; the name is that stripped text |
| Presets.KeepFirst | archive_helper_gui/handbrake_presets.py:92-100 | reference de-duplication: no value twice, every kept value from the input and not already seen, and every unseen input value kept |
| Presets.FirstIndex | archive_helper_gui/handbrake_presets.py:92-100 | the position of the first occurrence of a value |
| Presets.KeepFirstOrder | archive_helper_gui/handbrake_presets.py:92-100 | kept values appear in the order of their first occurrence in the input |
| Presets.Dedupe | archive_helper_gui/handbrake_presets.py:92-100 | the loop with its seen set computes exactly the reference de-duplication |
| Presets.FetchHandbrakePresets | archive_helper_gui/handbrake_presets.py:6-100 | no list is run exactly when both prechecks fail; the interactive shell is used exactly when the plain precheck fails and the interactive one passes; a failed precheck pair or list command gives []; otherwise the result is the de-duplicated preset lines of the output, never with a repeat |
| PromptFormat.PressEnterLen | archive_helper_gui/parser.py:39 | a match at the start is "press", at least one blank and "enter" in any case, followed by the end or a non-word character; 0 when there is none |
| PromptFormat.SubCopies | archive_helper_gui/parser.py:39 | where no match starts the character is copied |
| PromptFormat.SubReplaces | archive_helper_gui/parser.py:39 | at a match the replacement is written and the scan continues after the match |
| PromptFormat.SubQuiet | archive_helper_gui/parser.py:39 | text in which no match can start comes through the substitution unchanged |
| PromptFormat.SubReplacesMatch | archive_helper_gui/parser.py:39 | a whole-word "press", blanks and "enter" at a word boundary is replaced by the Continue hint |
| PromptFormat.SubReplacesWords | archive_helper_gui/parser.py:39 | "press enter" with each word in any letter case is replaced |
| PromptFormat.PleaseInsert | archive_helper_gui/parser.py:37-38 | a leading "Insert:" becomes "Please insert:" and every other prompt is kept |
| PromptFormat.InsertPromptShownPolitely | archive_helper_gui/parser.py:33-40 | a prompt beginning "Insert:" is always shown beginning "Please insert:" |
| PromptFormat.PlainPromptSubstituted | archive_helper_gui/parser.py:33-40 | a prompt with nothing to strip, no "Next up:" and no "Insert:" is only substituted |
| PromptFormat.PressEnterBetween | archive_helper_gui/parser.py:39 | "press Enter" between quiet text is replaced and nothing else changes |
| PromptFormat.ShownAround | archive_helper_gui/parser.py:33-40 | a prompt built from a lead-in, "press Enter" and a quiet rest is shown with the Continue hint in place of the two words |
| PromptFormat.NextDiscShown | archive_helper_gui/parser.py:212-219 | the server's next-disc sentence is shown with "press Enter" replaced by the Continue hint and the rest as written |
| LogPatterns.DigitRun | archive_helper_gui/log_patterns.py:15 | the leading run of digits, and the character after it is not a digit |
| LogPatterns.RestOfLine | archive_helper_gui/log_patterns.py:9 | a trailing `\s*(.+)$` group, once stripped, is the stripped rest of the line |
| LogPatterns.RestOfLineMatches | archive_helper_gui/log_patterns.py:9 | the group matches exactly when some run of blanks is followed by a non-empty rest without a newline |
| LogPatterns.FirstMatch | archive_helper_gui/log_patterns.py:12 | a search succeeds exactly when the pattern matches at some position (not past a newline for a lazy lead-in), and returns the match at the first such position |
| LogPatterns.FirstMatchNeeds | archive_helper_gui/log_patterns.py:6-12 | a search succeeds only when the line holds every character each match needs |
| LogPatterns.OperationLine | archive_helper_gui/log_patterns.py:9 | a matched line starts with "Current operation:" |
| LogPatterns.ActionLine | archive_helper_gui/log_patterns.py:10 | a matched line starts with "Current action:" |
| LogPatterns.PercentAt | archive_helper_gui/log_patterns.py:7-8 | a one-to-three-digit percentage is below 1000 and followed by '%' |
| LogPatterns.ProgressAt | archive_helper_gui/log_patterns.py:7-8 | a "key - N%" value is below 1000 and its text holds '%' |
| LogPatterns.HbTaskLine | archive_helper_gui/log_patterns.py:13 | a matched line starts with a bracketed eight-character time stamp |
| LogPatterns.CounterLine | archive_helper_gui/log_patterns.py:15-16 | a matched line starts with its key |
| LogPatterns.MkvProgressAt | archive_helper_gui/log_patterns.py:6 | a matched MakeMKV progress value is followed by '%' |
| LogPatterns.HbProgressAt | archive_helper_gui/log_patterns.py:12 | a matched encoding value is followed by '%' |
| LogPatterns.NextDiscShape | archive_helper_gui/log_patterns.py:22 | the next-disc sentence starts with 'W', ends with '.', and has no 'p' before "press Enter" |
| LogReadBack.TotalThenNameOf | archive_helper_gui/log_patterns.py:15-16 | "q: name" reads back as the total q and the stripped name |
| LogReadBack.TotalAndNameOf | archive_helper_gui/log_patterns.py:15-16 | "/q: name" reads back as the total q and the stripped name |
| LogReadBack.CounterFieldsOf | archive_helper_gui/log_patterns.py:15-16 | a numeral followed by "/q: name" reads back as that count, total and name |
| LogReadBack.CounterLineReadBack | archive_helper_core/rip_and_encode_server.py:3575 | a "key n/q: name" line, as the server prints it, reads back as exactly the counter n, q and the stripped name |
| LogReadBack.NoPercentNoProgress | archive_helper_gui/log_patterns.py:6-12 | a line without '%' matches none of the percentage patterns |
| LogReadBack.EarlyPatternsMiss | archive_helper_gui/parser.py:42-205 | the first ten patterns all miss a line that has none of their markers and starts with none of 'C', 'H' and '[' |
| LogReadBack.KeyLineClassified | archive_helper_gui/parser.py:206-287 | such a line is classified by its leading key alone |
| LogReadBack.PromptLineClassified | archive_helper_gui/parser.py:206-224 | such a line holding disc-prompt text is a disc prompt |
| LogReadBack.QueuedLineRead | archive_helper_core/rip_and_encode_server.py:3570 | the server's "Queued encode: name" line is read as one more queued encode |
| LogReadBack.FinalizingLineRead | archive_helper_core/rip_and_encode_server.py:3911 | the server's "Finalizing: title (year)" line is read as one more finalized title |
| LogReadBack.ErrorLineRead | archive_helper_core/rip_and_encode_server.py:3363 | the server's "ERROR: message" lines are read as errors |
| LogReadBack.CompleteLineRead | archive_helper_core/rip_and_encode_server.py:3924 | the server's closing line ends the run |
| LogReadBack.LowDiskLineRead | archive_helper_core/rip_and_encode_server.py:2802 | the server's pause line pauses the current GUI, and means nothing to the legacy one |
| LogReadBack.NextDiscLineRead | archive_helper_core/rip_and_encode_server.py:3810 | the server's next-disc line, printed with a trailing blank, is a disc prompt without "Insert: " |
| LogReadBack.HbStartLineRead | archive_helper_core/rip_and_encode_server.py:3575 | "HandBrake start: n/q: name" is read back as the start of encode n of q |
| LogReadBack.HbDoneLineRead | archive_helper_core/rip_and_encode_server.py:3581 | "HandBrake done: n/q: name" is read back as the end of encode n of q |
| LogReadBack.CsvPromptClassified | archive_helper_core/schedule_csv.py:92-97 | every prompt the schedule produces is read as a disc prompt carrying "Insert: " |
| LogReadBack.CsvPromptRead | archive_helper_gui/parser.py:206-224 | a schedule prompt makes the current GUI wait for Enter, enable Continue and show the prompt as "Please insert: …" |
| ProgressParser.Initial | archive_helper_gui/models.py:6-31 | a fresh window is consistent, not waiting, and has queued no done message |
| ProgressParser.Clamp | archive_helper_gui/parser.py:102 | the bar value lies between 0 and 100, and a value already in range is kept |
| ProgressParser.ConsistentPreserved | archive_helper_gui/parser.py:24-287 | every transition keeps the parser's invariant: the done message has been queued at most once, and only after the latch was set |
| ProgressParser.DoneAtMostOnce | archive_helper_gui/parser.py:263-276 | however many lines arrive, the done message is queued at most once, and never again once the latch is set |
| ProgressParser.CompleteLatches | archive_helper_gui/parser.py:263-276 | "Processing complete." always shows "Done" at 100 and ends the wait; only the first one queues the done message, so a second changes nothing |
| ProgressParser.DiscPromptWaits | archive_helper_gui/parser.py:206-224 | a disc prompt waits for Enter, enables Continue and labels the step "Waiting for disc" |
| ProgressParser.InsertPromptShown | archive_helper_gui/parser.py:206-224 | an "Insert:" prompt is stored as the next-disc prompt and shown beginning "Please insert:" |
| ProgressParser.DiscPromptFields | archive_helper_gui/parser.py:212-219 | the current GUI stores an "Insert: " line as the next-disc prompt and keeps any other stored prompt; the legacy GUI stores nothing |
| ProgressParser.InsertTextShown | archive_helper_gui/parser.py:212-219 | whichever text the current GUI picks for an "Insert:" prompt, it is shown beginning "Please insert:" |
| ProgressParser.LowDiskPauses | archive_helper_gui/parser.py:227-237 | a low-disk line also waits for Enter with Continue enabled, but is labelled "Paused (low disk space)", never "Waiting for disc", and shows the line with "Press Enter" replaced |
| ProgressParser.MakeMkvEndsWait | archive_helper_gui/parser.py:46-50 | every MakeMKV status or progress line ends the wait and disables Continue; a pending prompt is cleared, and the stored disc prompt with it in the current GUI |
| ProgressParser.HandBrakeKeepsWait | archive_helper_gui/parser.py:142-201 | HandBrake lines never touch the wait, the prompt, the stored prompt or the Continue button |
| ProgressParser.QueuedAddsOne | archive_helper_gui/parser.py:239-241 | "Queued encode:" adds exactly one to the queued count and leaves the other counters alone |
| ProgressParser.CountersFollowServer | archive_helper_gui/parser.py:151-167 | a start or done line overwrites its own counter and the active name; the current GUI takes the reported total as the queue, the legacy one the larger of the two |
| ProgressParser.LegacyQueueNeverShrinks | rip_and_encode_v2_gui.py:1779-1802 | in the legacy GUI no line ever lowers the queued count |
| ProgressParser.CurrentQueueCanShrink | archive_helper_gui/parser.py:155 | the current GUI follows a lower reported total, so its queued count can go down |
| ProgressParser.FinalizingCounts | archive_helper_gui/parser.py:247-257 | "Finalizing" adds one finished title and ends the wait, keeping the stored disc prompt |
| ProgressParser.PercentBarClamped | archive_helper_gui/parser.py:85-204 | total, current and HandBrake percentages always put the bar between 0 and 100 |
| ProgressParser.MkvProgressNotClamped | archive_helper_gui/parser.py:176-187 | the "MakeMKV progress:" value reaches the bar unclamped |
| ProgressParser.CurrentPrefersTotal | archive_helper_gui/parser.py:121-124 | once a positive total percentage was seen, a current-progress line shows that total instead |
| ProgressParser.NextDiscShowsStoredPrompt | archive_helper_gui/parser.py:212-219 | an "Insert: " line is remembered, and the generic next-disc line after it shows the remembered prompt |
| ProgressParser.OtherLinesIgnored | archive_helper_gui/parser.py:24-287 | a line no pattern recognises leaves the whole state unchanged |
| RunControl.ConnectionReady | rip_and_encode_gui.py:1208-1219 | ready exactly when the host is set, a key file or a password is set, and a password comes with a user name |
| RunControl.PasswordNeedsUser | rip_and_encode_gui.py:1208-1219 | a password without a user name is never ready, even with a key file |
| RunControl.KeyAloneSuffices | rip_and_encode_gui.py:1208-1219 | a host and a key file are enough when no password is given |
| RunControl.PortOrDefault | rip_and_encode_gui.py:1265-1277 | the trimmed port, "22" when blank; never blank and already trimmed |
| RunControl.LastRunMatches | rip_and_encode_gui.py:1265-1277 | a match needs a stored host and port; the stored host must equal the trimmed current host, and the trimmed stored user and port the trimmed current user and port, the port defaulting to "22" |
| RunControl.Recorded | rip_and_encode_gui.py:2471-2476 | the record start writes keeps the session, log and start time, with a non-blank trimmed port |
| RunControl.RecordedRunMatches | rip_and_encode_gui.py:2471-2476 | what start records is recognised as the same connection by the reattach check |
| RunControl.BlankPortMeans22 | rip_and_encode_gui.py:1265-1277 | a blank current port matches a stored "22", and only that |
| RunControl.OtherHostNeverMatches | rip_and_encode_gui.py:1265-1277 | a different stored host never matches |
| RunControl.Fresh | rip_and_encode_gui.py:135-170 | a new window is idle, unlatched, without run context and with Continue disabled |
| RunControl.ClearedUi | rip_and_encode_gui.py:1979-1995 | a finished run's parser fields: no wait, Continue disabled, prompt and counters cleared, step, bar and parser latch kept |
| RunControl.RunningUi | rip_and_encode_gui.py:2523-2546 | a launched run's parser fields: no wait, Continue disabled, empty prompt, step "Running", busy bar, counters zero and the parser latch re-armed |
| RunControl.DoneDialog | rip_and_encode_gui.py:2007-2023 | a dialog is always shown; the cleanup offer exactly for payload "ok"; the "Stopped" notice for "stopped" in any case and spacing; an error otherwise |
| RunControl.StoppedInforms | rip_and_encode_gui.py:2020-2021 | the payload stop hands over is shown as the "Stopped" notice, not an error |
| RunControl.OnDone | rip_and_encode_gui.py:1967-2024 | ignored once latched; otherwise it latches, raises the stop flag, ends the run, clears the parser fields, enables Start and the inputs, disables Stop, drops the run context and the last-run metadata, and shows the payload's dialog |
| RunControl.OnDoneAtMostOnce | rip_and_encode_gui.py:1968-1970 | a second done message, whatever its payload, changes and shows nothing |
| RunControl.OnDoneLatchSurvivesLines | rip_and_encode_gui.py:1968-1970 | log lines between two done messages do not re-arm the latch |
| RunControl.OnLogLine | rip_and_encode_gui.py:1514-1520 | a log chunk changes only the parser's fields, never the run flag, context or latch |
| RunControl.SinkFor | rip_and_encode_gui.py:2646-2666 | the screen session first, then a process with input, then the channel; none exactly when none of them exists |
| RunControl.EnterSent | rip_and_encode_gui.py:2660-2666 | after a delivered newline: no wait, Continue disabled, prompt cleared and step "Running", all else kept |
| RunControl.SendEnter | rip_and_encode_gui.py:2646-2666 | with no sink, or a write that raised, the state is unchanged; otherwise the wait ends |
| RunControl.OnReturnKey | rip_and_encode_gui.py:1845-1853 | Enter does nothing unless the GUI waits and Continue is enabled, and then acts as the Continue button |
| RunControl.ClickContinue | rip_and_encode_gui.py:2646-2666 | a disabled Continue button cannot change anything |
| RunControl.EnterGated | rip_and_encode_gui.py:1845-1853 | Enter changes something only when the GUI waits, Continue is enabled and the newline was delivered, and then the wait is over |
| RunControl.ScreenEnterEndsWait | rip_and_encode_gui.py:2646-2666 | with a screen session, a delivered Enter ends the wait and disables Continue |
| RunControl.NoSinkNoChange | rip_and_encode_gui.py:2646-2666 | with no session, process or channel, Enter leaves the state as it was |
| RunControl.StopEffects | rip_and_encode_gui.py:2739-2807 | a screen session gets Ctrl-C, quit and a tail stop; otherwise a channel gets Ctrl-C and is closed; otherwise a process is terminated and killed later; with no handle nothing is attempted |
| RunControl.Stop | rip_and_encode_gui.py:2739-2807 | during a replay only the replay-stop flag is raised; otherwise the stop flag is raised and the GUI ends as the done handler leaves it for "Stopped" |
| RunControl.StopEndsIdle | rip_and_encode_gui.py:2739-2807 | outside a replay, stop always ends idle and latched with no run context, even when the remote commands fail |
| RunControl.StopResetsRun | rip_and_encode_gui.py:1979-2005 | a stop of an unhandled run resets it completely and shows the "Stopped" notice |
| RunControl.ScreenStopEffects | rip_and_encode_gui.py:2739-2807 | a screen-mode stop interrupts the job, quits the session and stops the tail |
| RunControl.ReplayStopOnlyFlags | rip_and_encode_gui.py:2739-2807 | during a replay stop only raises the replay-stop flag and the GUI keeps running |
| RunControl.ManualFormError | rip_and_encode_gui.py:2363-2376 | the manual form passes exactly when the title is non-blank, the year is four digits, both numbers parse, and 1 <= current disc <= total |
| RunControl.ScheduleError | rip_and_encode_gui.py:2355-2376 | in manual mode a form error is reported as it is; in CSV mode the schedule passes exactly when a path is given and the file exists; every error is about the form |
| RunControl.Launch | rip_and_encode_gui.py:2460-2552 | the context is stored with its screen name and the latch re-armed before the launch; the run starts exactly when screen is installed, the job launched, the log found non-blank and its tail opened, and then runs with metadata matching the connection; any failure is an error and leaves the run flag as it was |
| RunControl.LaunchFollowFailure | rip_and_encode_gui.py:2505-2552 | start fails with a log-lookup, blank-path or tail error exactly when screen was there and the job launched, but its log could not then be followed |
| RunControl.LaunchRecordsLog | rip_and_encode_gui.py:2471-2509 | the context and the metadata name the same session and record the same log: the one found after the launch, or blank when start stopped before or at the lookup |
| RunControl.FollowLaunched | rip_and_encode_gui.py:2505-2552 | after the launch, start succeeds exactly when the log is found, non-blank and its tail opens; otherwise it reports the lookup, blank-path or tail error |
| RunControl.FollowOutcome | rip_and_encode_gui.py:2505-2552 | the outcome after the launch is success when the log can be followed, and otherwise the error of the step that raised |
| RunControl.FollowFailure | rip_and_encode_gui.py:1902-1910 | a lookup that raised gives the "unable to locate" error, a blank path the "missing remote log path" error, and anything else the tail's own error |
| RunControl.FollowGui | rip_and_encode_gui.py:2505-2516 | the context keeps its session, and once a log is found the metadata records it with the launch time |
| RunControl.FollowFailureIdle | rip_and_encode_gui.py:2505-2552 | a log that cannot be followed leaves the GUI's run flag as it was |
| RunControl.FollowRuns | rip_and_encode_gui.py:2523-2546 | once the tail is open the GUI shows a live run |
| RunControl.Upload | rip_and_encode_gui.py:2398-2430 | a failed upload ends start with nothing launched |
| RunControl.WithSetup | rip_and_encode_gui.py:2338-2341 | the wizard changes only the settings, and runs only when setup is incomplete |
| RunControl.Titled | rip_and_encode_gui.py:2392-2393 | in manual mode there is one title to encode and none finalized yet; only the parser fields change, and the wait and the parser latch are kept |
| RunControl.Prepare | rip_and_encode_gui.py:2343-2552 | validation, the remote script and the schedule are checked in that order, each failure ending start before any upload; otherwise upload and launch |
| RunControl.Start | rip_and_encode_gui.py:2334-2552 | a no-op while running; gives up silently when setup stays incomplete after the wizard; otherwise prepares and launches |
| RunControl.StartIgnoredWhileRunning | rip_and_encode_gui.py:2334-2336 | start does nothing at all while a run is active |
| RunControl.ManualFormRejectedBeforeUpload | rip_and_encode_gui.py:2363-2376 | a manual form without a title, with a year that is not four digits, a total below 1 or a disc outside 1..total is rejected before any upload or launch, and the run context is untouched |
| RunControl.ManualFormErrors | rip_and_encode_gui.py:2363-2376 | a blank title, a year that is not four digits and a total below 1 each get their own error, in the order start checks them |
| RunControl.StartLaunchPath | rip_and_encode_gui.py:2334-2552 | a launch happens only when idle, set up, validated, with the script ready, the schedule accepted and the upload done |
| RunControl.StartSucceeds | rip_and_encode_gui.py:2523-2546 | a successful start runs with no wait, counters zero, Continue and Start disabled, Stop enabled, the latch re-armed and metadata matching the connection |
| RunControl.LaunchFailureKeepsContext | rip_and_encode_gui.py:2460-2552 | a launch that fails after the context was stored (screen missing, launch failed, log not found or blank, tail not opened) leaves the context, the metadata naming its session and the re-armed latch behind while nothing runs; a log failure means the job was launched |
| RunControl.StartReplay | rip_and_encode_gui.py:2809-2848 | a no-op while running; an error "Log file not found: <path>" exactly when idle and the log does not exist, with nothing changed; otherwise replay mode, running, not waiting, Continue disabled; the latch is left as it was |
| RunControl.ReplayFromFreshEnds | rip_and_encode_gui.py:2809-2848 | a replay of an existing log from a fresh window starts, and ends idle when its done message arrives |
| RunControl.ReplayAfterHandledRunStaysRunning | rip_and_encode_gui.py:2809-2848 | after a handled run, a replay of an existing log starts, its done message is ignored and the GUI keeps running |
| RunControl.Reattach | rip_and_encode_gui.py:1348-1425 | the context is rebuilt for the stored session; the reattach succeeds exactly when the stored or re-discovered log is non-blank and its tail opens, and then the latch and stop flag are cleared and the GUI runs not waiting, with Stop enabled and Start, Continue and the inputs disabled; on an error the run flag and Start button are as they were |
| RunControl.ReattachLog | rip_and_encode_gui.py:1372-1378 | the stored log is kept while it is non-blank and still exists; otherwise the log is re-discovered |
| RunControl.ReattachFailure | rip_and_encode_gui.py:1372-1398 | the error is that of the failing step; a lookup that raised leaves everything but the rebuilt context (with a blank log) as it was, latch included; a blank log or an unopened tail comes after the latch is cleared; once a log is known, context and metadata record it |
| RunControl.ReattachRecords | rip_and_encode_gui.py:1380-1386 | once a log is known the metadata is refreshed from the rebuilt context and the trimmed connection; a lookup that raised leaves the metadata as it was |
| RunControl.FailedReattachBlocksOffer | rip_and_encode_gui.py:1304-1425 | an accepted reattach whose log cannot be followed leaves a context while nothing runs, and the offer is then never made again |
| RunControl.OfferReattach | rip_and_encode_gui.py:1304-1346 | the offer is made only when idle, set up, a session is stored and the connection matches, after validation, for a live session; an accepted offer reattaches; only a dead session's metadata is cleared |
| RunControl.ReattachKeepsMatch | rip_and_encode_gui.py:1348-1425 | an accepted reattach leaves metadata that still matches the connection |
| RunControl.DeadSessionForgotten | rip_and_encode_gui.py:1292-1346 | a dead session's metadata is dropped, so the offer is never made for it again |
| RunControl.StartKeepsInv | rip_and_encode_gui.py:2334-2552 | start keeps the invariant that a handled run is idle, without context and with its last-run metadata forgotten, whichever step fails |
| RunControl.StopKeepsInv | rip_and_encode_gui.py:2739-2807 | stop keeps the invariant |
| RunControl.DoneKeepsInv | rip_and_encode_gui.py:1967-2024 | the done handler keeps the invariant |
| RunControl.EnterAndLinesKeepInv | rip_and_encode_gui.py:1845-1853 | the Enter key and log lines keep the invariant |
| RunControl.OfferKeepsInv | rip_and_encode_gui.py:1304-1346 | the reattach offer keeps the invariant, also when the reattach fails |
| RunControl.LatchOnlyRearmedByStartOrReattach | rip_and_encode_gui.py:1967-1970 | once latched, stop, done, Enter, log lines and replay all leave the latch set; only start and reattach clear it |
| RunControl.StopLegacy | rip_and_encode_v2_gui.py:2740-2796 | the legacy stop sends the same interrupts but never calls the done handler |
| RunControl.LegacyScreenStopKeepsRunning | rip_and_encode_v2_gui.py:2740-2765 | in screen mode the legacy stop interrupts and quits the session yet leaves the GUI running |
| RunControl.OnDoneLegacy | rip_and_encode_v2_gui.py:2019-2056 | the legacy done handler has no latch: it always ends the run and clears the session and log; it shows the "Processing complete." notice exactly for "ok", and the payload as an error otherwise |
| RunControl.LegacyNeverOffersCleanup | rip_and_encode_v2_gui.py:2053-2056 | the legacy GUI never offers the cleanup and never shows the "Stopped" notice; a "Stopped" payload is an error box there, where the current GUI informs |
| RunControl.LegacyDoneRepeats | rip_and_encode_v2_gui.py:2019-2056 | without a latch a second done message shows its dialog again |
| RunControl.LegacyStopThenDoneIdle | rip_and_encode_v2_gui.py:2019-2047 | in the legacy GUI idle after a stop is reached through the done message |
| RunControl.SendEnterLegacy | rip_and_encode_v2_gui.py:2647-2667 | the legacy send_enter uses the same sinks, the screen name standing for the context; with no sink or a failed write nothing changes, otherwise the wait ends |
| RunControl.OnReturnKeyLegacy | rip_and_encode_v2_gui.py:1899-1907 | the legacy Enter key has the same gate as the current one |
| RunControl.StartLegacy | rip_and_encode_v2_gui.py:2380-2382 | the legacy start returns at once while running and otherwise launches |

## Left out

- Paths.JoinPath: paths are canonical strings joined with '/'. `Path.resolve()`, symlinks, `..` or `.` normalisation, and pathlib's dropping of a trailing '/' and collapsing of repeated '/' are not modelled, so `Paths.IsSafeWorkDir`, `Cleanup.CleanupMkvs` and the exclusion of output roots compare the strings as given.
- Text.IsDigit: digits are ASCII '0'..'9'. Python's `str.isdigit` and `\d` also accept other Unicode digits. The same restriction applies to ScheduleCsv.IsYear, to season and disc numbers, and to the digit runs of the log patterns.
- Text.Lower: case folding is ASCII only. Python's `str.lower` and `re.I` also fold other Unicode letters, such as 'ſ' with 's' or 'ı' with 'i'.
- PromptFormat.PressEnterLen: "press enter" is matched with ASCII case folding, and `\b` uses ASCII word characters. In Python, "preſs enter" is replaced and "press enterá" is not; the model does the opposite for both.
- DiscRules.KeywordMatch: the extras keywords are matched as substrings with ASCII case folding, so titles such as "ınterview" or "bonuſ" are extras in Python but not here.
- ScheduleCsv.IsHeaderLine: the case-insensitive header pattern folds ASCII letters only.
- RunControl.DoneDialog: the "stopped" payload is recognised after ASCII lower-casing only.
- ProgressParser.Clamp: Python floats are exact reals here. The percentages (`LogPatterns.Pct`) and the Finalizing ratio `(finalized + 1) / total * 100` have no rounding, no infinities and no NaN.
- ProgressParser.ParseForProgress: the ETA estimate (`_eta_update`, `_eta_reset`, `var_eta`), elapsed-time display, log appending and logging are dropped. Only the fields of `UiState` and the widgets the parser sets (step label, bar, Continue, prompt) are modelled.
- Outputs.UniqueOutPath: clearing stale encode locks (`lock_is_stale_or_clear`, which uses `os.kill`) happens before the name search. It is folded into the `present` set, which lists the paths that exist after stale locks are cleared.
- CliFiles.AppendExtraNfoIfMissing: file contents are already-decoded strings. The `read_text(errors="ignore")` decoding, which drops undecodable bytes, is abstracted away. The same applies to CliFiles.SshConfigHasHost, DiscManifest.LoadDiscManifest and the CSV loader.
- DiscManifest.LoadDiscManifest: JSON parsing is an oracle from text to a JSON value.
- Presets.FetchHandbrakePresets: the shell commands and their outputs are oracle results.
- RunControl.Start: SSH, SCP, Paramiko, `screen` and `tail` are effects or oracle outcomes of the start environment. These include `_remote_run`, `_ensure_remote_script` and the uploads. `_find_latest_remote_log` is an optional log (None when it raised) and `_start_tail` a flag for whether the tail opened. Threads, the UI queue and timers are not modelled. The GUI handles a done message or a log chunk as one step.
- RunControl.Reattach: the start-time lookup, the existence check of the stored log, the log re-discovery (None when it raised) and whether the tail opened are oracle results of the reattach environment. Clearing and appending to the log pane are not modelled.
- RunControl.Stop: the delayed kill of a local process is the `KillLater` effect. The timer itself is not modelled.
- RunControl.StartReplay: whether the log exists is a parameter. The error message carries the path as given, where Python prints `Path(log_path)` with pathlib's normalisation (see `Paths.JoinPath`). The replay thread that reads the file is I/O and is not modelled.
- Tk widgets and dialogs: only the enabled state of Start, Stop, Continue and the inputs, and the dialog each event shows, are modelled.
- External tools and the network are not part of this model: MakeMKV, HandBrake, ffprobe, TMDB lookups, and the ddrescue/dvdbackup/vobcopy fallbacks. Their results (durations, chapter counts, sizes, embedded titles, runtimes) are parameters.
- Concurrency is not part of this model: the encode thread pool, lock-protected counters, `Tee`, and lock creation with `O_EXCL`.
- Floating-point and wall-clock features are not part of this model: `pause_if_low_disk_space`, HandBrake output throttling, log rotation by age, and the byte formatters.
- ManualSchedule.ManualRowsLoadBack: the round trip is promised only for a title that does not start with a byte-order mark. The loader strips such marks from line 1, so a title starting with one does not come back unchanged.
- Paths.RemotePathPart: it requires a ':' in the destination. The source raises on such input, but it is only ever called on remote destinations, which contain one.

## Notes on behaviour

These are behaviours of the code that the model follows as written, where a reader might expect otherwise.

- The connection check follows `_connection_ready` as written: a password without a user name makes the connection not ready, even when a key file is set (`RunControl.PasswordNeedsUser`).
- `_normalize_subtitle_language` keeps the first two letters of a tag, so "und" becomes "un" (`Outputs.UndNormalisesToUn`).
- "MakeMKV progress:" values reach the bar unclamped, unlike the other percentages (`ProgressParser.MkvProgressNotClamped`).
- "Finalizing" ends the wait but keeps the stored next-disc prompt (`ProgressParser.FinalizingCounts`).
- The current GUI sets the queued count to the total HandBrake reports, so the count can go down (`ProgressParser.CurrentQueueCanShrink`). The legacy GUI keeps the maximum (`ProgressParser.LegacyQueueNeverShrinks`).
- A start whose launch fails after the run context is stored leaves the context and the re-armed done latch in place while nothing runs (`RunControl.LaunchFailureKeepsContext`). This includes a log that cannot be found or followed after the job was launched: the job runs on the server while the GUI stays idle, and the error box is the only sign of it (`RunControl.LaunchFollowFailure`).
- A reattach whose log cannot be found or followed raises out of `_maybe_offer_reattach`. The rebuilt context stays while nothing runs, so the offer is not made again until the context is gone (`RunControl.FailedReattachBlocksOffer`). A lookup that raised leaves the latch and the metadata as they were; a blank log or an unopened tail comes after both were refreshed (`RunControl.ReattachFailure`).
- `_find_latest_remote_log` never returns a blank path: it strips the output before taking its last line, and an empty output raises. The blank-path error of `_start_tail` is modelled all the same (`RunControl.FollowFailure`).
- `start_replay` does not re-arm the done latch. After a handled run, the replay's own done message is ignored and the GUI stays running (`RunControl.ReplayAfterHandledRunStaysRunning`).
- The legacy stop never calls the done handler. The legacy GUI reaches idle only through the done message (`RunControl.LegacyScreenStopKeepsRunning`, `RunControl.LegacyStopThenDoneIdle`).
- The cleanup guard excludes work directories equal to or under an output root, but not ancestors of one (`Cleanup.CleanupRemovesRootAncestor`). The legacy cleanup has no exclusion at all.
