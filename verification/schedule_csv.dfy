/**
 * The CSV disc schedule: one line per disc, four comma-separated columns
 * (name, year, MultiDisc flag or season, disc number). Loading skips blank,
 * comment and header lines, validates every other line and stops at the
 * first invalid one.
 */
module ScheduleCsv {

  import opened Common
  import opened Text

  datatype Kind = Movie | Series

  /** One validated schedule line; line is its 1-based number in the file. */
  datatype ScheduleRow = ScheduleRow(kind: Kind, name: string, year: string, third: string, disc: nat, line: nat)

  /** Why loading stopped; line-level errors carry the line number and the offending text. */
  datatype CsvError =
    | ColumnCount(line: nat, text: string)
    | BadYear(line: nat, text: string)
    | BadDisc(line: nat, text: string)
    | BadMultiDisc(line: nat, text: string)
    | BadSeason(line: nat, text: string)
    | EmptySchedule

  const Bom: char := '\U{FEFF}'

  /** The spellings accepted as a MultiDisc flag, after trimming and lower-casing. */
  predicate IsBoolYn(s: string)
  {
    Lower(Strip(s)) in {"y", "n", "yes", "no", "true", "false"}
  }

  function NormalizeBoolYn(s: string): (r: string)
    ensures r == "y" || r == "n" || r == ""
    ensures r != "" <==> IsBoolYn(s)
    ensures r == "y" ==> Lower(Strip(s)) in {"y", "yes", "true"}
    ensures r == "n" ==> Lower(Strip(s)) in {"n", "no", "false"}
  {
    var v := Lower(Strip(s));
    if v in {"y", "yes", "true"} then "y"
    else if v in {"n", "no", "false"} then "n"
    else ""
  }

  /** re.fullmatch(r"\d{4}", s) with ASCII digits. */
  predicate IsYear(s: string)
  {
    |s| == 4 && AllDigits(s)
  }

  predicate ValidSeason(s: string)
  {
    AllDigits(s) && DigitsValue(s) >= 1
  }

  /** What every loaded row satisfies. */
  predicate ValidRow(r: ScheduleRow)
  {
    && r.name != ""
    && NoChar(r.name, ',')
    && IsYear(r.year)
    && r.disc >= 1
    && (r.kind == Movie ==> r.third == "y" || r.third == "n")
    && (r.kind == Series ==> ValidSeason(r.third))
  }

  /**
   * The text of line n as the loader sees it: trailing carriage returns
   * removed and, when stripBom is set, leading byte-order marks removed from
   * line 1 only.
   */
  function PrepareLine(raw: string, n: nat, stripBom: bool): (line: string)
    ensures var t := RStripChars(raw, {'\r'});
      |line| <= |t| && line == t[|t| - |line|..] && forall i | 0 <= i < |t| - |line| :: t[i] == Bom
    ensures line == [] || line[|line| - 1] != '\r'
    ensures n != 1 || !stripBom ==> line == RStripChars(raw, {'\r'})
    ensures n == 1 && stripBom ==> line == [] || line[0] != Bom
  {
    var t := RStripChars(raw, {'\r'});
    if n == 1 && stripBom then LStripChars(t, {Bom}) else t
  }

  /**
   * The part of the header pattern after the optional "movie"/"series":
   * optional blanks, "name", blanks, ',', blanks, "year", blanks, ','
   * (letters in any case).
   */
  predicate HeaderTail(u: string)
  {
    var a := LStrip(u);
    CiStartsWith(a, "name") &&
    var b := LStrip(a[4..]);
    StartsWith(b, ",") &&
    var c := LStrip(b[1..]);
    CiStartsWith(c, "year") &&
    StartsWith(LStrip(c[4..]), ",")
  }

  /** The text after an optional leading "movie" or "series" (any case). */
  function DropKind(t: string): (u: string)
    ensures |u| <= |t| && u == t[|t| - |u|..]
  {
    if CiStartsWith(t, "movie") then t[5..]
    else if CiStartsWith(t, "series") then t[6..]
    else t
  }

  /**
   * The header pattern: optional blanks, optional "movie"/"series", then a
   * header tail. Consuming the keyword whenever it is present loses no match,
   * because a tail must begin (after blanks) with "name", which neither
   * keyword does.
   */
  predicate IsHeaderLine(line: string)
  {
    HeaderTail(DropKind(LStrip(line)))
  }

  /** None of the header's keywords contains a comma. */
  lemma KeywordsCommaFree()
    ensures NoChar("name", ',') && NoChar("movie", ',') && NoChar("series", ',')
    ensures LowerChar(',') == ',' && !IsSpace(',')
  {
  }

  /** A header tail has "year" after the first comma, whatever blanks surround it. */
  lemma HeaderTailYear(u: string)
    requires HeaderTail(u)
    ensures CiStartsWith(LStrip(AfterFirst(u, ',')), "year")
  {
    var a := LStrip(u);
    var b := LStrip(a[4..]);
    KeywordsCommaFree();
    AfterFirstLStrip(u, ',');
    AfterFirstCiPrefix(a, "name", ',');
    AfterFirstLStrip(a[4..], ',');
    assert b[0] == ","[0];
    AfterFirstHead(b, ',');
  }

  /** Dropping the kind keyword does not move the first comma. */
  lemma AfterFirstDropKind(t: string)
    ensures AfterFirst(t, ',') == AfterFirst(DropKind(t), ',')
  {
    KeywordsCommaFree();
    if CiStartsWith(t, "movie") {
      AfterFirstCiPrefix(t, "movie", ',');
    } else if CiStartsWith(t, "series") {
      AfterFirstCiPrefix(t, "series", ',');
    }
  }

  /** Every header line has "year" right after its first comma (blanks aside). */
  lemma HeaderYearAfterFirstComma(line: string)
    requires IsHeaderLine(line)
    ensures CiStartsWith(LStrip(AfterFirst(line, ',')), "year")
  {
    var t := LStrip(line);
    KeywordsCommaFree();
    AfterFirstLStrip(line, ',');
    AfterFirstDropKind(t);
    HeaderTailYear(DropKind(t));
  }

  /** Blank lines, comments and header lines produce no row. */
  predicate IsSkipped(line: string)
  {
    Strip(line) == [] || StartsWith(LStrip(line), "#") || IsHeaderLine(line)
  }

  /** The trimmed comma-separated fields of a line. */
  function Fields(line: string): (parts: seq<string>)
    ensures |parts| == CountChar(line, ',') + 1
    ensures forall i | 0 <= i < |parts| :: NoChar(parts[i], ',')
  {
    var raw := SplitOn(line, ',');
    assert forall i | 0 <= i < |raw| :: NoChar(StripAll(raw)[i], ',') by {
      forall i | 0 <= i < |raw| ensures NoChar(StripAll(raw)[i], ',') {
        StripNoChar(raw[i], ',');
      }
    }
    StripAll(raw)
  }

  /** Every piece trimmed. */
  function StripAll(raw: seq<string>): (parts: seq<string>)
    ensures |parts| == |raw| && forall i | 0 <= i < |raw| :: parts[i] == Strip(raw[i])
  {
    seq(|raw|, i requires 0 <= i < |raw| => Strip(raw[i]))
  }

  /** The fields of a line whose four comma-separated pieces trim to known values are those values. */
  lemma FieldsOfFour(line: string, a: string, b: string, c: string, d: string, w: string, x: string, y: string, z: string)
    requires SplitOn(line, ',') == [a, b, c, d]
    requires Strip(a) == w && Strip(b) == x && Strip(c) == y && Strip(d) == z
    ensures Fields(line) == [w, x, y, z]
  {
    StripAllFour([a, b, c, d], w, x, y, z);
  }

  lemma StripAllFour(raw: seq<string>, w: string, x: string, y: string, z: string)
    requires |raw| == 4 && Strip(raw[0]) == w && Strip(raw[1]) == x && Strip(raw[2]) == y && Strip(raw[3]) == z
    ensures StripAll(raw) == [w, x, y, z]
  {
    var p := StripAll(raw);
    assert p[0] == w && p[1] == x && p[2] == y && p[3] == z;
    FourItems(p, w, x, y, z);
  }

  predicate FourFields(parts: seq<string>)
  {
    |parts| == 4 && parts[0] != "" && parts[1] != "" && parts[2] != "" && parts[3] != ""
  }

  /** The checks applied to the four fields of a kept line, in the order the loader applies them. */
  function CheckFields(name: string, year: string, third: string, discText: string, n: nat, line: string): (r: Result<ScheduleRow, CsvError>)
    requires name != "" && NoChar(name, ',')
    ensures r.Ok? ==> ValidRow(r.value) && r.value.line == n
    ensures r.Ok? ==> r.value.name == name && r.value.year == year && ValidSeason(discText) && r.value.disc == DigitsValue(discText)
    ensures r.Ok? ==> (r.value.kind == Movie <==> IsBoolYn(third))
    ensures r.Ok? && r.value.kind == Series ==> r.value.third == third
    ensures r.Err? ==> !r.error.EmptySchedule? && !r.error.ColumnCount? && r.error.line == n && r.error.text == line
    ensures r.Err? ==> !r.error.BadMultiDisc?
    ensures r.Ok? <==> IsYear(year) && ValidSeason(discText) && (IsBoolYn(third) || ValidSeason(third))
  {
    if !IsYear(year) then Err(BadYear(n, line))
    else if !ValidSeason(discText) then Err(BadDisc(n, line))
    else if IsBoolYn(third) then
      var flag := NormalizeBoolYn(third);
      if flag == "" then Err(BadMultiDisc(n, line))
      else Ok(ScheduleRow(Movie, name, year, flag, DigitsValue(discText), n))
    else if !ValidSeason(third) then Err(BadSeason(n, line))
    else Ok(ScheduleRow(Series, name, year, third, DigitsValue(discText), n))
  }

  /** Validation of one kept line, numbered n. */
  function ParseRow(line: string, n: nat): (r: Result<ScheduleRow, CsvError>)
    ensures r.Ok? ==> ValidRow(r.value) && r.value.line == n
    ensures r.Err? ==> !r.error.EmptySchedule? && r.error.line == n && r.error.text == line
    ensures r.Err? ==> !r.error.BadMultiDisc?
    ensures (r.Err? && r.error.ColumnCount?) <==> !FourFields(Fields(line))
  {
    var parts := Fields(line);
    if !FourFields(parts) then Err(ColumnCount(n, line))
    else CheckFields(parts[0], parts[1], parts[2], parts[3], n, line)
  }

  /** What the loader does with one line of the file. */
  datatype LineOutcome<+R, +E> = Skip | Row(row: R) | Fail(error: E)

  /** The outcome of the prepared text of line n. */
  function Outcome(line: string, n: nat): (o: LineOutcome<ScheduleRow, CsvError>)
    ensures o.Skip? <==> IsSkipped(line)
    ensures o.Row? ==> ParseRow(line, n) == Ok(o.row)
    ensures o.Fail? ==> ParseRow(line, n) == Err(o.error)
    ensures o.Row? ==> o.row.line == n && ValidRow(o.row)
    ensures o.Fail? ==> !o.error.EmptySchedule?
  {
    if IsSkipped(line) then Skip
    else
      match ParseRow(line, n)
      case Ok(row) => Row(row)
      case Err(e) => Fail(e)
  }

  /** The per-line outcomes of a file, in order; entry j is line j + 1. */
  function Outcomes(lines: seq<string>, stripBom: bool): (outs: seq<LineOutcome<ScheduleRow, CsvError>>)
    ensures |outs| == |lines|
  {
    if lines == [] then []
    else Outcomes(lines[..|lines| - 1], stripBom) + [Outcome(PrepareLine(lines[|lines| - 1], |lines|, stripBom), |lines|)]
  }

  lemma {:induction false} OutcomeAt(lines: seq<string>, stripBom: bool, j: nat)
    requires j < |lines|
    ensures Outcomes(lines, stripBom)[j] == Outcome(PrepareLine(lines[j], j + 1, stripBom), j + 1)
  {
    if j < |lines| - 1 {
      var init := lines[..|lines| - 1];
      OutcomeAt(init, stripBom, j);
      assert init[j] == lines[j];
    }
  }

  /** Every row outcome carries its own line number and is valid. */
  predicate WellNumbered(outs: seq<LineOutcome<ScheduleRow, CsvError>>)
  {
    forall j | 0 <= j < |outs| :: outs[j].Row? ==> outs[j].row.line == j + 1 && ValidRow(outs[j].row)
  }

  lemma OutcomesWellNumbered(lines: seq<string>, stripBom: bool)
    ensures WellNumbered(Outcomes(lines, stripBom))
  {
    forall j | 0 <= j < |lines| ensures var o := Outcomes(lines, stripBom)[j]; o.Row? ==> o.row.line == j + 1 && ValidRow(o.row) {
      OutcomeAt(lines, stripBom, j);
    }
  }

  /** The 1-based numbers of the lines from index i on that are not skipped, in order. */
  function KeptLineNumbers<R, E>(outs: seq<LineOutcome<R, E>>, i: nat): (ns: seq<nat>)
    requires i <= |outs|
    ensures forall k | 0 <= k < |ns| :: i < ns[k] <= |outs| && !outs[ns[k] - 1].Skip?
    decreases |outs| - i
  {
    if i == |outs| then []
    else if outs[i].Skip? then KeptLineNumbers(outs, i + 1)
    else [i + 1] + KeptLineNumbers(outs, i + 1)
  }

  predicate Ascending(ns: seq<nat>)
  {
    forall k | 0 <= k < |ns| - 1 :: ns[k] < ns[k + 1]
  }

  /** The kept line numbers are strictly increasing. */
  lemma {:induction false} KeptLinesAscend<R, E>(outs: seq<LineOutcome<R, E>>, i: nat)
    requires i <= |outs|
    ensures Ascending(KeptLineNumbers(outs, i))
    decreases |outs| - i
  {
    if i < |outs| {
      KeptLinesAscend(outs, i + 1);
      var tail := KeptLineNumbers(outs, i + 1);
      if !outs[i].Skip? {
        var ns := [i + 1] + tail;
        assert KeptLineNumbers(outs, i) == ns;
        assert forall k | 1 <= k < |ns| :: ns[k] == tail[k - 1];
      }
    }
  }

  /** Every line from index i on that is not skipped is among the kept line numbers. */
  lemma {:induction false} KeptLinesComplete<R, E>(outs: seq<LineOutcome<R, E>>, i: nat)
    requires i <= |outs|
    ensures forall j | i <= j < |outs| && !outs[j].Skip? :: j + 1 in KeptLineNumbers(outs, i)
    decreases |outs| - i
  {
    if i < |outs| {
      KeptLinesComplete(outs, i + 1);
      var tail := KeptLineNumbers(outs, i + 1);
      if outs[i].Skip? {
        assert KeptLineNumbers(outs, i) == tail;
      } else {
        assert KeptLineNumbers(outs, i) == [i + 1] + tail;
      }
    }
  }

  /** Line index j is the first failing line from index i on. */
  predicate FirstFailure<R, E>(outs: seq<LineOutcome<R, E>>, i: nat, j: nat)
    requires i <= j < |outs|
  {
    outs[j].Fail? && forall j' | i <= j' < j :: !outs[j'].Fail?
  }

  /** The loop over lines i.. of the file: the rows of the kept lines, or the first error. */
  function Collect<R, E>(outs: seq<LineOutcome<R, E>>, i: nat): (r: Result<seq<R>, E>)
    requires i <= |outs|
    ensures r.Ok? <==> forall j | i <= j < |outs| :: !outs[j].Fail?
    ensures r.Err? ==> exists j | i <= j < |outs| :: FirstFailure(outs, i, j) && outs[j] == Fail(r.error)
    decreases |outs| - i
  {
    if i == |outs| then Ok([])
    else if outs[i].Skip? then Collect(outs, i + 1)
    else if outs[i].Fail? then
      assert FirstFailure(outs, i, i);
      Err(outs[i].error)
    else
      var rest := Collect(outs, i + 1);
      if rest.Err? then
        assert forall j | i + 1 <= j < |outs| && FirstFailure(outs, i + 1, j) :: FirstFailure(outs, i, j);
        rest
      else
        Ok([outs[i].row] + rest.value)
  }

  /** Row k of a successful loop comes from the k-th kept line. */
  lemma {:induction false} CollectRows<R, E>(outs: seq<LineOutcome<R, E>>, i: nat)
    requires i <= |outs|
    requires Collect(outs, i).Ok?
    ensures var rows := Collect(outs, i).value; var ns := KeptLineNumbers(outs, i);
      |rows| == |ns| && forall k | 0 <= k < |rows| :: outs[ns[k] - 1] == Row(rows[k])
    decreases |outs| - i
  {
    if i < |outs| {
      CollectRows(outs, i + 1);
      if outs[i].Row? {
        var rows := Collect(outs, i).value;
        var ns := KeptLineNumbers(outs, i);
        var tail := KeptLineNumbers(outs, i + 1);
        assert ns == [i + 1] + tail;
        assert rows == [outs[i].row] + Collect(outs, i + 1).value;
      }
    }
  }

  predicate AllSkipped<R, E>(outs: seq<LineOutcome<R, E>>)
  {
    forall j | 0 <= j < |outs| :: outs[j].Skip?
  }

  predicate NeverFailsWith<R, E(==)>(outs: seq<LineOutcome<R, E>>, e: E)
  {
    forall j | 0 <= j < |outs| :: !(outs[j].Fail? && outs[j].error == e)
  }

  /**
   * The end of the loop: the rows of the kept lines in order, the first
   * error, or the error empty when no line was kept.
   */
  function LoadOutcomes<R(==), E(==)>(outs: seq<LineOutcome<R, E>>, empty: E): (r: Result<seq<R>, E>)
    ensures r.Ok? <==> (forall j | 0 <= j < |outs| :: !outs[j].Fail?) && (exists j | 0 <= j < |outs| :: !outs[j].Skip?)
    ensures r.Ok? ==> |r.value| == |KeptLineNumbers(outs, 0)| > 0
    ensures r.Ok? ==> forall k | 0 <= k < |r.value| :: outs[KeptLineNumbers(outs, 0)[k] - 1] == Row(r.value[k])
    ensures r.Err? && r.error != empty ==>
      exists j | 0 <= j < |outs| :: FirstFailure(outs, 0, j) && outs[j] == Fail(r.error)
    ensures NeverFailsWith(outs, empty) ==> (r == Err(empty) <==> AllSkipped(outs))
  {
    var p := Collect(outs, 0);
    var ns := KeptLineNumbers(outs, 0);
    if p.Err? then
      p
    else if (CollectRows(outs, 0); p.value == []) then
      KeptLinesComplete(outs, 0);
      assert AllSkipped(outs);
      Err(empty)
    else
      assert !outs[ns[0] - 1].Skip?;
      p
  }

  /**
   * load_csv_schedule over the lines of the file. stripBom selects the
   * shared loader (true) or the legacy copy, which never strips a BOM.
   */
  function LoadSchedule(lines: seq<string>, stripBom: bool): (r: Result<seq<ScheduleRow>, CsvError>)
    ensures r.Ok? ==> LoadedSchedule(r.value, |lines|)
  {
    var r := LoadOutcomes(Outcomes(lines, stripBom), EmptySchedule);
    if r.Ok? then
      LoadedRowsNumbered(lines, stripBom, r.value);
      r
    else
      r
  }

  /**
   * What a successful load returns from a file of lineCount lines: at least
   * one row, every row valid, numbered within the file and in file order.
   */
  predicate LoadedSchedule(rows: seq<ScheduleRow>, lineCount: nat)
  {
    && |rows| > 0
    && (forall k | 0 <= k < |rows| :: ValidRow(rows[k]) && 1 <= rows[k].line <= lineCount)
    && (forall k | 0 <= k < |rows| - 1 :: rows[k].line < rows[k + 1].line)
  }

  /** The load fails with EmptySchedule exactly when every line is skipped. */
  lemma EmptyScheduleIffAllSkipped(lines: seq<string>, stripBom: bool)
    ensures LoadSchedule(lines, stripBom) == Err(EmptySchedule) <==> AllSkipped(Outcomes(lines, stripBom))
  {
    var outs := Outcomes(lines, stripBom);
    forall j | 0 <= j < |outs| ensures !(outs[j].Fail? && outs[j].error == EmptySchedule) {
      OutcomeAt(lines, stripBom, j);
    }
    assert NeverFailsWith(outs, EmptySchedule);
  }

  /** The rows of a successful load are valid and numbered by the kept lines. */
  lemma LoadedRowsNumbered(lines: seq<string>, stripBom: bool, rows: seq<ScheduleRow>)
    requires LoadOutcomes(Outcomes(lines, stripBom), EmptySchedule) == Ok(rows)
    ensures LoadedSchedule(rows, |lines|)
  {
    var outs := Outcomes(lines, stripBom);
    OutcomesWellNumbered(lines, stripBom);
    WellNumberedRowsLoad(outs, rows);
  }

  /** The rows loaded from well-numbered outcomes are valid and carry ascending line numbers within the file. */
  lemma WellNumberedRowsLoad(outs: seq<LineOutcome<ScheduleRow, CsvError>>, rows: seq<ScheduleRow>)
    requires WellNumbered(outs)
    requires LoadOutcomes(outs, EmptySchedule) == Ok(rows)
    ensures LoadedSchedule(rows, |outs|)
  {
    var ns := KeptLineNumbers(outs, 0);
    KeptLinesAscend(outs, 0);
    assert |rows| == |ns| > 0;
    forall k | 0 <= k < |rows| ensures ValidRow(rows[k]) && rows[k].line == ns[k] && 1 <= rows[k].line <= |outs| {
      assert outs[ns[k] - 1] == Row(rows[k]);
    }
    forall k | 0 <= k < |rows| - 1 ensures rows[k].line < rows[k + 1].line {
      assert rows[k].line == ns[k] && rows[k + 1].line == ns[k + 1];
      assert ns[k] < ns[k + 1];
    }
  }

  /** A loop over lines that are all rows returns exactly those rows. */
  lemma {:induction false} CollectAllRows<R, E>(outs: seq<LineOutcome<R, E>>, rows: seq<R>, i: nat)
    requires |outs| == |rows| && i <= |outs|
    requires forall j | 0 <= j < |outs| :: outs[j] == Row(rows[j])
    ensures Collect(outs, i) == Ok(rows[i..])
    decreases |outs| - i
  {
    if i < |outs| {
      CollectAllRows(outs, rows, i + 1);
      assert rows[i..] == [rows[i]] + rows[i + 1..];
    }
  }

  /** A file whose every line yields a row loads as exactly those rows, in order. */
  lemma LoadScheduleOfRows(lines: seq<string>, stripBom: bool, rows: seq<ScheduleRow>)
    requires |lines| == |rows| > 0
    requires forall j | 0 <= j < |lines| :: Outcome(PrepareLine(lines[j], j + 1, stripBom), j + 1) == Row(rows[j])
    ensures LoadSchedule(lines, stripBom) == Ok(rows)
  {
    var outs := Outcomes(lines, stripBom);
    forall j | 0 <= j < |outs| ensures outs[j] == Row(rows[j]) {
      OutcomeAt(lines, stripBom, j);
    }
    CollectAllRows(outs, rows, 0);
    assert rows[0..] == rows;
  }

  /** load_csv_schedule: the file text is split with str.splitlines. */
  function LoadCsvSchedule(text: string): Result<seq<ScheduleRow>, CsvError>
  {
    LoadSchedule(SplitLines(text), true)
  }

  /** The legacy loader: identical except that no BOM is stripped. */
  function LoadCsvScheduleLegacy(text: string): Result<seq<ScheduleRow>, CsvError>
  {
    LoadSchedule(SplitLines(text), false)
  }

  /** Without a BOM at the start of line 1 the two loaders agree on every input. */
  lemma LoadersAgreeWithoutBom(lines: seq<string>)
    requires |lines| == 0 || RStripChars(lines[0], {'\r'}) == [] || RStripChars(lines[0], {'\r'})[0] != Bom
    ensures LoadSchedule(lines, true) == LoadSchedule(lines, false)
  {
    SameOutcomes(lines);
  }

  lemma {:induction false} SameOutcomes(lines: seq<string>)
    requires |lines| == 0 || RStripChars(lines[0], {'\r'}) == [] || RStripChars(lines[0], {'\r'})[0] != Bom
    ensures Outcomes(lines, true) == Outcomes(lines, false)
  {
    if lines != [] {
      var init := lines[..|lines| - 1];
      assert init == [] || init[0] == lines[0];
      SameOutcomes(init);
      var last := lines[|lines| - 1];
      SamePrepared(last, |lines|);
      assert Outcomes(lines, true) == Outcomes(init, true) + [Outcome(PrepareLine(last, |lines|, true), |lines|)];
      assert Outcomes(lines, false) == Outcomes(init, false) + [Outcome(PrepareLine(last, |lines|, false), |lines|)];
    }
  }

  /** A line with no BOM to strip is prepared the same way by both loaders. */
  lemma SamePrepared(raw: string, n: nat)
    requires n != 1 || RStripChars(raw, {'\r'}) == [] || RStripChars(raw, {'\r'})[0] != Bom
    ensures PrepareLine(raw, n, true) == PrepareLine(raw, n, false)
  {
    if n == 1 {
      var t := RStripChars(raw, {'\r'});
      assert LStripChars(t, {Bom}) == t;
    }
  }

  /** The prompt printed before the disc of row r is needed. */
  function CsvDiscPromptForRow(r: ScheduleRow): (p: string)
    ensures StartsWith(p, "Insert: ")
    ensures Contains(p, "'" + r.name + " (" + r.year + ")'")
    ensures EndsWith(p, ". Press Enter when ready.")
  {
    var lead := if r.kind == Movie then "Insert: Movie " else "Insert: Series ";
    var title := "'" + r.name + " (" + r.year + ")'";
    var detail :=
      if r.kind == Series then " Season " + r.third + " Disc " + NatToString(r.disc)
      else if r.third == "y" then " Disc " + NatToString(r.disc) + " (MultiDisc=y)"
      else " Disc " + NatToString(r.disc);
    var suffix := ". Press Enter when ready.";
    ContainsSelf(title);
    ContainsSuffix(lead, title, title);
    ContainsPrefix(lead + title, detail, title);
    ContainsPrefix(lead + title + detail, suffix, title);
    StartsWithConcat(lead, title, "Insert: ");
    StartsWithConcat(lead + title, detail, "Insert: ");
    StartsWithConcat(lead + title + detail, suffix, "Insert: ");
    EndsWithConcat(lead + title + detail, suffix);
    lead + title + detail + suffix
  }
}
