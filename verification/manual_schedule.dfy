/**
 * The manual schedule form: the rows a movie or series entry expands to, the
 * file they are written to, and the fact that the loader reads that file
 * back as the same discs.
 */
module ManualSchedule {

  import opened Common
  import opened Text
  import opened ScheduleCsv

  const CommaInTitle: string := "Title must not contain commas (CSV constraint)."
  const BadSeasonNumber: string := "Season must be an integer >= 1."

  /** One schedule line as the form writes it: name, year, third column and disc, separated by ", ". */
  function FormatRow(name: string, year: string, third: string, disc: string): (line: string)
    ensures |line| == |name| + |year| + |third| + |disc| + 6
  {
    name + ", " + year + ", " + third + ", " + disc
  }

  /**
   * The third column of every row of the form: the MultiDisc flag of a movie
   * ("y" exactly when the movie has more than one disc), otherwise the season
   * as a number padded to two digits; None when the season is rejected.
   */
  function ThirdColumn(kind: string, season: string, total: int): (t: Option<string>)
    ensures kind == "movie" ==> t == Some(if total > 1 then "y" else "n")
    ensures kind != "movie" ==> (t.Some? <==> ValidSeason(Strip(season)))
    ensures kind != "movie" && t.Some? ==>
      ValidSeason(t.value) && DigitsValue(t.value) == DigitsValue(Strip(season)) && |t.value| >= 2
  {
    if kind == "movie" then Some(if total > 1 then "y" else "n")
    else
      var v := Strip(season);
      if !AllDigits(v) || DigitsValue(v) < 1 then None
      else
        var digits := NatToString(DigitsValue(v));
        ZFillDigits(digits, 2);
        Some(ZFill(digits, 2))
  }

  /** The number of discs in range(start, total + 1). */
  function DiscCount(start: int, total: int): (n: nat)
    ensures n == Max(0, total - start + 1)
  {
    if total >= start then total - start + 1 else 0
  }

  /**
   * csv_rows_from_manual: one row per disc from start to total inclusive, or
   * the error the form reports (a comma in the title is checked first).
   */
  function CsvRowsFromManual(kind: string, name: string, year: string, season: string, start: int, total: int): (r: Result<seq<string>, string>)
    ensures r.Err? <==> !NoChar(name, ',') || (kind != "movie" && !ValidSeason(Strip(season)))
    ensures r.Err? ==> r.error == (if !NoChar(name, ',') then CommaInTitle else BadSeasonNumber)
    ensures r.Ok? ==> |r.value| == Max(0, total - start + 1)
    ensures r.Ok? ==> forall k | 0 <= k < |r.value| ::
      StartsWith(r.value[k], name + ", " + year + ", ") && EndsWith(r.value[k], ", " + IntToString(start + k))
  {
    if !NoChar(name, ',') then Err(CommaInTitle)
    else
      match ThirdColumn(kind, season, total)
      case None => Err(BadSeasonNumber)
      case Some(third) =>
        var rows := RowsFrom(name, year, third, start, DiscCount(start, total));
        RowsFromEnds(name, year, third, start, rows);
        Ok(rows)
  }

  /** count rows written for consecutive discs from start. */
  function RowsFrom(name: string, year: string, third: string, start: int, count: nat): (rows: seq<string>)
    ensures |rows| == count
    ensures forall k | 0 <= k < count :: rows[k] == FormatRow(name, year, third, IntToString(start + k))
  {
    seq(count, k requires 0 <= k < count => FormatRow(name, year, third, IntToString(start + k)))
  }

  lemma RowsFromEnds(name: string, year: string, third: string, start: int, rows: seq<string>)
    requires rows == RowsFrom(name, year, third, start, |rows|)
    ensures forall k | 0 <= k < |rows| ::
      StartsWith(rows[k], name + ", " + year + ", ") && EndsWith(rows[k], ", " + IntToString(start + k))
  {
    forall k | 0 <= k < |rows| ensures
      StartsWith(rows[k], name + ", " + year + ", ") && EndsWith(rows[k], ", " + IntToString(start + k)) {
      FormatRowEnds(name, year, third, IntToString(start + k));
    }
  }

  lemma FormatRowEnds(name: string, year: string, third: string, disc: string)
    ensures StartsWith(FormatRow(name, year, third, disc), name + ", " + year + ", ")
    ensures EndsWith(FormatRow(name, year, third, disc), ", " + disc)
  {
    var head := name + ", " + year + ", ";
    assert FormatRow(name, year, third, disc) == head + (third + ", " + disc);
    assert FormatRow(name, year, third, disc) == (head + third) + (", " + disc);
  }

  /** write_csv_rows: the rows joined by newlines, with a final newline. */
  function WriteCsvRows(rows: seq<string>): (text: string)
    ensures |text| > 0 && text[|text| - 1] == '\n'
  {
    Join(rows, "\n") + "\n"
  }

  /**
   * A title the loader reads back unchanged: non-empty, no comma or line
   * break, no surrounding blanks, and not starting like a comment or a
   * byte-order mark.
   */
  predicate LoadableTitle(name: string)
  {
    && name != []
    && NoChar(name, ',')
    && NoLineBreak(name)
    && !IsSpace(name[0]) && !IsSpace(name[|name| - 1])
    && name[0] != '#' && name[0] != Bom
  }

  /** A non-empty run of ASCII digits. */
  lemma DigitsFacts(s: string)
    requires AllDigits(s)
    ensures NoChar(s, ',') && NoLineBreak(s)
    ensures !IsSpace(s[0]) && !IsSpace(s[|s| - 1])
    ensures LowerChar(s[0]) != 'y'
  {
    DigitsNoLineBreak(s);
  }

  /** A value that survives being written as a field and trimmed back. */
  predicate PlainField(s: string)
  {
    s != [] && NoChar(s, ',') && !IsSpace(s[0]) && !IsSpace(s[|s| - 1])
  }

  lemma FormatRowAsJoin(a: string, b: string, c: string, d: string)
    ensures FormatRow(a, b, c, d) == Join([a, " " + b, " " + c, " " + d], ",")
  {
    var parts := [a, " " + b, " " + c, " " + d];
    assert parts[1..][1..][1..] == [" " + d];
    assert Join(parts[1..][1..], ",") == " " + c + "," + (" " + d);
    assert Join(parts[1..], ",") == " " + b + "," + (" " + c + "," + (" " + d));
  }

  /** The four trimmed fields of a written row are the four values written. */
  lemma FormatRowFields(name: string, year: string, third: string, disc: string)
    requires LoadableTitle(name) && AllDigits(year) && AllDigits(disc)
    requires PlainField(third)
    ensures Fields(FormatRow(name, year, third, disc)) == [name, year, third, disc]
    ensures FourFields(Fields(FormatRow(name, year, third, disc)))
  {
    var line := FormatRow(name, year, third, disc);
    assert Fields(line) == [name, year, third, disc] by {
      DigitsFacts(year);
      DigitsFacts(disc);
      FormatRowPieces(name, year, third, disc);
      StripUnchanged(name);
      StripLeadingSpace(year);
      StripLeadingSpace(third);
      StripLeadingSpace(disc);
      FieldsOfFour(line, name, " " + year, " " + third, " " + disc, name, year, third, disc);
    }
  }

  /** A row written from comma-free values splits at its commas into the values, each after a blank but the first. */
  lemma FormatRowPieces(name: string, year: string, third: string, disc: string)
    requires NoChar(name, ',') && NoChar(year, ',') && NoChar(third, ',') && NoChar(disc, ',')
    ensures SplitOn(FormatRow(name, year, third, disc), ',') == [name, " " + year, " " + third, " " + disc]
  {
    var raw := [name, " " + year, " " + third, " " + disc];
    FormatRowAsJoin(name, year, third, disc);
    BlankThenNoChar(year, ',');
    BlankThenNoChar(third, ',');
    BlankThenNoChar(disc, ',');
    SplitOnJoin(raw, ',');
  }

  lemma BlankThenNoChar(s: string, c: char)
    requires NoChar(s, c) && c != ' '
    ensures NoChar(" " + s, c)
  {
    assert forall i | 1 <= i < |" " + s| :: (" " + s)[i] == s[i - 1];
  }

  /** After its first comma a written row continues with the year, not "year". */
  lemma FormatRowNotHeader(name: string, year: string, third: string, disc: string)
    requires LoadableTitle(name) && AllDigits(year)
    ensures !IsHeaderLine(FormatRow(name, year, third, disc))
  {
    var line := FormatRow(name, year, third, disc);
    DigitsFacts(year);
    var rest := year + ", " + third + ", " + disc;
    assert line == name + ("," + (" " + rest));
    AfterFirstSkips(name, "," + (" " + rest), ',');
    AfterFirstHead("," + (" " + rest), ',');
    assert (" " + rest)[1..] == rest;
    LStripNoSpace(rest);
    assert rest[0] == year[0];
    assert !CiStartsWith(LStrip(AfterFirst(line, ',')), "year");
    if IsHeaderLine(line) {
      HeaderYearAfterFirstComma(line);
    }
  }

  /** A written row is neither blank, nor a comment, nor a header. */
  lemma FormatRowNotSkipped(name: string, year: string, third: string, disc: string)
    requires LoadableTitle(name) && AllDigits(year) && AllDigits(disc)
    ensures !IsSkipped(FormatRow(name, year, third, disc))
  {
    var line := FormatRow(name, year, third, disc);
    DigitsFacts(disc);
    FormatRowEnds(name, year, third, disc);
    assert line[0] == name[0];
    assert line[|line| - 1] == disc[|disc| - 1];
    StripUnchanged(line);
    LStripNoSpace(line);
    assert line[..1] != "#";
    assert !StartsWith(LStrip(line), "#");
    assert Strip(line) != [];
    FormatRowNotHeader(name, year, third, disc);
  }

  /** A written row reaches the field checks unchanged, on any line of the file. */
  lemma FormatRowPrepared(name: string, year: string, third: string, disc: string, n: nat, stripBom: bool)
    requires LoadableTitle(name) && AllDigits(disc)
    ensures PrepareLine(FormatRow(name, year, third, disc), n, stripBom) == FormatRow(name, year, third, disc)
  {
    var line := FormatRow(name, year, third, disc);
    FormatRowEnds(name, year, third, disc);
    assert line[|line| - 1] == disc[|disc| - 1];
    assert RStripChars(line, {'\r'}) == line;
    assert line[0] == name[0];
    assert LStripChars(line, {Bom}) == line;
  }

  lemma FlagReadBack(flag: string)
    requires flag == "y" || flag == "n"
    ensures IsBoolYn(flag) && NormalizeBoolYn(flag) == flag
  {
    StripUnchanged(flag);
    assert Lower(flag) == flag;
  }

  /** A digit string is never taken for a MultiDisc flag. */
  lemma DigitsNotFlag(s: string)
    requires AllDigits(s)
    ensures !IsBoolYn(s)
  {
    DigitsFacts(s);
    StripUnchanged(s);
    var v := Lower(s);
    assert v[0] == s[0];
    assert forall w | w in {"y", "n", "yes", "no", "true", "false"} :: w[0] != v[0];
  }

  /** The kind and third column of a row the form writes. */
  predicate WrittenThird(kind: Kind, third: string)
  {
    if kind == Movie then third == "y" || third == "n" else ValidSeason(third)
  }

  lemma WrittenThirdPlain(kind: Kind, third: string)
    requires WrittenThird(kind, third)
    ensures PlainField(third)
  {
    if kind == Series {
      DigitsFacts(third);
    }
  }

  /** The field checks accept the values the form writes, as the disc they describe. */
  lemma WrittenFieldsAccepted(name: string, year: string, kind: Kind, third: string, disc: nat, n: nat, line: string)
    requires LoadableTitle(name) && IsYear(year) && disc >= 1 && WrittenThird(kind, third)
    ensures CheckFields(name, year, third, NatToString(disc), n, line) == Ok(ScheduleRow(kind, name, year, third, disc, n))
  {
    if kind == Movie {
      FlagReadBack(third);
    } else {
      DigitsNotFlag(third);
    }
  }

  /** A written row parses as the disc it describes. */
  lemma FormatRowParses(name: string, year: string, kind: Kind, third: string, disc: nat, n: nat)
    requires LoadableTitle(name) && IsYear(year) && disc >= 1 && WrittenThird(kind, third)
    ensures ParseRow(FormatRow(name, year, third, NatToString(disc)), n) == Ok(ScheduleRow(kind, name, year, third, disc, n))
  {
    var ds := NatToString(disc);
    var line := FormatRow(name, year, third, ds);
    WrittenThirdPlain(kind, third);
    FormatRowFields(name, year, third, ds);
    WrittenFieldsAccepted(name, year, kind, third, disc, n, line);
  }

  /** One written row, on line n of the file, loads as exactly the disc it describes. */
  lemma FormatRowLoads(name: string, year: string, kind: Kind, third: string, disc: nat, n: nat, stripBom: bool)
    requires LoadableTitle(name) && IsYear(year) && disc >= 1 && WrittenThird(kind, third)
    ensures Outcome(PrepareLine(FormatRow(name, year, third, NatToString(disc)), n, stripBom), n)
      == Row(ScheduleRow(kind, name, year, third, disc, n))
  {
    var ds := NatToString(disc);
    FormatRowPrepared(name, year, third, ds, n, stripBom);
    FormatRowNotSkipped(name, year, third, ds);
    FormatRowParses(name, year, kind, third, disc, n);
  }

  lemma FormatRowNoLineBreak(name: string, year: string, third: string, disc: string)
    requires NoLineBreak(name) && NoLineBreak(year) && NoLineBreak(third) && NoLineBreak(disc)
    ensures NoLineBreak(FormatRow(name, year, third, disc))
  {
    NoLineBreakAppend(name, ", ");
    NoLineBreakAppend(name + ", ", year);
    NoLineBreakAppend(name + ", " + year, ", ");
    NoLineBreakAppend(name + ", " + year + ", ", third);
    NoLineBreakAppend(name + ", " + year + ", " + third, ", ");
    NoLineBreakAppend(name + ", " + year + ", " + third + ", ", disc);
  }

  /** The kind a row written for the form's kind string is read back as. */
  function KindOf(kind: string): Kind
  {
    if kind == "movie" then Movie else Series
  }

  lemma ManualRowAt(kind: string, name: string, year: string, season: string, start: int, total: int, j: nat)
    requires CsvRowsFromManual(kind, name, year, season, start, total).Ok?
    requires j < |CsvRowsFromManual(kind, name, year, season, start, total).value|
    ensures CsvRowsFromManual(kind, name, year, season, start, total).value[j]
      == FormatRow(name, year, ThirdColumn(kind, season, total).value, IntToString(start + j))
  {
  }

  /**
   * Form input whose rows load back unchanged: a loadable title, a
   * four-digit year, a non-empty disc range from 1 up and, for a series, a
   * valid season.
   */
  predicate FormInput(kind: string, name: string, year: string, season: string, start: int, total: int)
  {
    && LoadableTitle(name) && IsYear(year) && 1 <= start <= total
    && (kind == "movie" || ValidSeason(Strip(season)))
  }

  /** The schedule rows for count consecutive discs from start, on lines 1, 2, ... */
  function DiscRows(kind: Kind, name: string, year: string, third: string, start: nat, count: nat): (rows: seq<ScheduleRow>)
    ensures |rows| == count
    ensures forall k | 0 <= k < count :: rows[k] == ScheduleRow(kind, name, year, third, start + k, k + 1)
  {
    seq(count, k requires 0 <= k < count => ScheduleRow(kind, name, year, third, start + k, k + 1))
  }

  /** The third column the form computes is one the loader accepts for the form's kind. */
  lemma FormThirdWritten(kind: string, season: string, total: int, third: string)
    requires kind == "movie" || ValidSeason(Strip(season))
    requires ThirdColumn(kind, season, total) == Some(third)
    ensures WrittenThird(KindOf(kind), third)
  {
  }

  /** A row written for disc d has no line break and loads, as line n, as disc d. */
  lemma WrittenRowLoads(kind: Kind, name: string, year: string, third: string, disc: nat, n: nat, line: string, row: ScheduleRow)
    requires LoadableTitle(name) && IsYear(year) && disc >= 1 && WrittenThird(kind, third)
    requires line == FormatRow(name, year, third, NatToString(disc))
    requires row == ScheduleRow(kind, name, year, third, disc, n)
    ensures NoLineBreak(line)
    ensures Outcome(PrepareLine(line, n, true), n) == Row(row)
  {
    var ds := NatToString(disc);
    if kind == Series {
      DigitsFacts(third);
    } else {
      assert NoLineBreak(third);
    }
    DigitsFacts(year);
    DigitsFacts(ds);
    FormatRowNoLineBreak(name, year, third, ds);
    FormatRowLoads(name, year, kind, third, disc, n, true);
  }

  /** The form's rows, one per disc from start on, each written with the computed third column. */
  lemma ManualRowsShape(kind: string, name: string, year: string, season: string, start: int, total: int,
                        rows: seq<string>, third: string)
    requires CsvRowsFromManual(kind, name, year, season, start, total) == Ok(rows)
    requires ThirdColumn(kind, season, total) == Some(third)
    requires 1 <= start <= total
    ensures |rows| == total - start + 1
    ensures forall j | 0 <= j < |rows| :: rows[j] == FormatRow(name, year, third, NatToString(start + j))
  {
    forall j | 0 <= j < |rows| ensures rows[j] == FormatRow(name, year, third, NatToString(start + j)) {
      ManualRowAt(kind, name, year, season, start, total, j);
    }
  }

  /** Rows written for consecutive discs from start load back as those discs, on lines 1, 2, ... */
  lemma WrittenRowsLoad(kind: Kind, name: string, year: string, third: string, start: nat, rows: seq<string>)
    requires LoadableTitle(name) && IsYear(year) && start >= 1 && WrittenThird(kind, third) && |rows| > 0
    requires forall j | 0 <= j < |rows| :: rows[j] == FormatRow(name, year, third, NatToString(start + j))
    ensures LoadCsvSchedule(WriteCsvRows(rows)) == Ok(DiscRows(kind, name, year, third, start, |rows|))
  {
    var expected := DiscRows(kind, name, year, third, start, |rows|);
    WrittenRowsEachLoad(kind, name, year, third, start, rows, expected);
    SplitLinesOfJoin(rows);
    LoadScheduleOfRows(rows, true, expected);
  }

  /** Each written row, on its own line, loads as its disc. */
  lemma WrittenRowsEachLoad(kind: Kind, name: string, year: string, third: string, start: nat, rows: seq<string>,
                            expected: seq<ScheduleRow>)
    requires LoadableTitle(name) && IsYear(year) && start >= 1 && WrittenThird(kind, third)
    requires forall j | 0 <= j < |rows| :: rows[j] == FormatRow(name, year, third, NatToString(start + j))
    requires expected == DiscRows(kind, name, year, third, start, |rows|)
    ensures forall j | 0 <= j < |rows| ::
      NoLineBreak(rows[j]) && Outcome(PrepareLine(rows[j], j + 1, true), j + 1) == Row(expected[j])
  {
    forall j | 0 <= j < |rows|
      ensures NoLineBreak(rows[j]) && Outcome(PrepareLine(rows[j], j + 1, true), j + 1) == Row(expected[j])
    {
      WrittenRowAt(kind, name, year, third, start, rows, expected, j);
    }
  }

  lemma WrittenRowAt(kind: Kind, name: string, year: string, third: string, start: nat, rows: seq<string>,
                     expected: seq<ScheduleRow>, j: nat)
    requires LoadableTitle(name) && IsYear(year) && start >= 1 && WrittenThird(kind, third)
    requires j < |rows| && rows[j] == FormatRow(name, year, third, NatToString(start + j))
    requires expected == DiscRows(kind, name, year, third, start, |rows|)
    ensures NoLineBreak(rows[j]) && Outcome(PrepareLine(rows[j], j + 1, true), j + 1) == Row(expected[j])
  {
    var line := rows[j];
    var row := expected[j];
    assert row == ScheduleRow(kind, name, year, third, start + j, j + 1);
    WrittenRowLoads(kind, name, year, third, start + j, j + 1, line, row);
  }

  /**
   * Round trip: the rows the form produces for discs start..total, written
   * to a file, load back as one row per disc, numbered from line 1, with the
   * form's title and year and its third column (the MultiDisc flag or the
   * padded season).
   */
  lemma ManualRowsLoadBack(kind: string, name: string, year: string, season: string, start: int, total: int)
    requires FormInput(kind, name, year, season, start, total)
    ensures CsvRowsFromManual(kind, name, year, season, start, total).Ok?
    ensures LoadCsvSchedule(WriteCsvRows(CsvRowsFromManual(kind, name, year, season, start, total).value))
      == Ok(DiscRows(KindOf(kind), name, year, ThirdColumn(kind, season, total).value, start, total - start + 1))
  {
    var rows := CsvRowsFromManual(kind, name, year, season, start, total).value;
    var third := ThirdColumn(kind, season, total).value;
    ManualRowsShape(kind, name, year, season, start, total, rows, third);
    FormThirdWritten(kind, season, total, third);
    WrittenRowsLoad(KindOf(kind), name, year, third, start, rows);
  }

  /** An empty disc range writes a file that loads as an empty schedule. */
  lemma EmptyRangeLoadsEmpty(kind: string, name: string, year: string, season: string, start: int, total: int)
    requires CsvRowsFromManual(kind, name, year, season, start, total).Ok?
    requires start > total
    ensures LoadCsvSchedule(WriteCsvRows(CsvRowsFromManual(kind, name, year, season, start, total).value))
      == Err(EmptySchedule)
  {
    var text := WriteCsvRows([]);
    assert text == "\n";
    assert SplitLines(text) == [""];
    EmptyScheduleIffAllSkipped([""], true);
    OutcomeAt([""], true, 0);
  }
}
