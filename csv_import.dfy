/**
 * `parse_csv_file` of the data-preparation scripts (update-data-final.py,
 * update-data.py and convert-to-json.py carry the same function): the lines
 * of a Japan Meteorological Agency CSV download become temperature records.
 *
 * Reading the file is not part of the model: the file is its list of lines.
 * Python's `float(s)` and `datetime.strptime(s, '%Y/%m/%d')` are library
 * conversions; they are the parameters `toFloat` and `parseDate`, `None`
 * standing for the `ValueError` they raise.
 */
module CsvImport {
  import opened Wrappers
  import opened Strings
  import opened TemperatureTypes

  /** The year, month and day `strptime` reads from a date string. */
  datatype CalendarDate = CalendarDate(year: int, month: int, day: int)

  /** The first cell of the header row. */
  const HeaderPrefix: string := "年月日"

  /** `line.strip().startswith('年月日')`. */
  predicate IsHeader(line: string)
  {
    StartsWith(Strip(line), HeaderPrefix)
  }

  /** The index of the first header line, if there is one. */
  function HeaderIndex(lines: seq<string>): (r: Option<nat>)
    ensures r.Some? ==> r.value < |lines| && IsHeader(lines[r.value])
    ensures r.Some? ==> forall j :: 0 <= j < r.value ==> !IsHeader(lines[j])
    ensures r.None? <==> forall j :: 0 <= j < |lines| ==> !IsHeader(lines[j])
  {
    if |lines| == 0 then None
    else if IsHeader(lines[0]) then Some(0)
    else
      match HeaderIndex(lines[1..])
      case None => None
      case Some(k) => Some(k + 1)
  }

  /**
   * `data_start`: three lines past the first header (the header, the units
   * row and the blank row), or 0 when no line is a header.
   */
  function DataStart(lines: seq<string>): (start: nat)
    ensures start == 0 <==> HeaderIndex(lines).None?
    ensures start != 0 ==> start == HeaderIndex(lines).value + 3
  {
    match HeaderIndex(lines)
    case Some(i) => i + 3
    case None => 0
  }

  /** The `for i, line in enumerate(lines)` loop that looks for the header and breaks at the first. */
  method FindDataStart(lines: seq<string>) returns (dataStart: nat)
    ensures dataStart == DataStart(lines)
  {
    var i := 0;
    while i < |lines|
      invariant 0 <= i <= |lines|
      invariant forall j :: 0 <= j < i ==> !IsHeader(lines[j])
    {
      if IsHeader(lines[i]) {
        return i + 3;
      }
      i := i + 1;
    }
    return 0;
  }

  /** `min_temp_str`: field 3, or field 4 when the line has more than five fields (a homogeneity number shifts it). */
  function MinField(parts: seq<string>): string
    requires |parts| >= 4
  {
    if |parts| > 5 then parts[4] else parts[3]
  }

  /**
   * One data line: a record when, once stripped, the line splits into at
   * least four comma fields, the date field is not empty, both temperature
   * fields are non-empty numbers and the date parses. The record keeps the
   * date text as written and takes year, month and day from the parsed date.
   */
  function ParseLine(line: string, toFloat: string -> Option<real>, parseDate: string -> Option<CalendarDate>)
    : (r: Option<TemperatureData>)
    ensures Strip(line) == "" ==> r.None?
    ensures |Split(Strip(line), ',')| < 4 ==> r.None?
    ensures var parts := Split(Strip(line), ',');
      |parts| >= 4 ==>
        (r.None? <==>
          || parts[0] == "" || parts[1] == "" || MinField(parts) == ""
          || toFloat(parts[1]).None? || toFloat(MinField(parts)).None?
          || parseDate(parts[0]).None?)
    ensures r.Some? ==> var parts := Split(Strip(line), ',');
      && |parts| >= 4
      && r.value.date == parts[0] && r.value.date != ""
      && toFloat(parts[1]) == Some(r.value.max_temp)
      && toFloat(MinField(parts)) == Some(r.value.min_temp)
      && parseDate(parts[0]) == Some(CalendarDate(r.value.year, r.value.month, r.value.day))
  {
    var stripped := Strip(line);
    if stripped == "" then None
    else
      var parts := Split(stripped, ',');
      if |parts| < 4 then None
      else
        var dateStr := parts[0];
        if dateStr == "" then None
        else
          var maxStr, minStr := parts[1], MinField(parts);
          if maxStr == "" || minStr == "" then None
          else
            match (toFloat(maxStr), toFloat(minStr), parseDate(dateStr))
            case (Some(maxTemp), Some(minTemp), Some(d)) =>
              Some(TemperatureData(dateStr, d.year, d.month, d.day, maxTemp, minTemp))
            case _ => None
  }

  /** The records of a run of data lines, in line order. */
  function ParseLines(lines: seq<string>, toFloat: string -> Option<real>, parseDate: string -> Option<CalendarDate>)
    : (data: seq<TemperatureData>)
    ensures |data| <= |lines|
  {
    if |lines| == 0 then []
    else
      var init := ParseLines(lines[..|lines| - 1], toFloat, parseDate);
      match ParseLine(lines[|lines| - 1], toFloat, parseDate)
      case Some(r) => init + [r]
      case None => init
  }

  /** The line a record was parsed from. */
  ghost predicate ParsedFrom(lines: seq<string>, toFloat: string -> Option<real>,
                             parseDate: string -> Option<CalendarDate>, r: TemperatureData)
  {
    exists i :: 0 <= i < |lines| && ParseLine(lines[i], toFloat, parseDate) == Some(r)
  }

  /** Every record comes from one of the lines. */
  lemma {:induction false} ParsedRecordsFromLines(lines: seq<string>, toFloat: string -> Option<real>,
                                                   parseDate: string -> Option<CalendarDate>)
    ensures var data := ParseLines(lines, toFloat, parseDate);
      forall k :: 0 <= k < |data| ==> ParsedFrom(lines, toFloat, parseDate, data[k])
  {
    if |lines| > 0 {
      var init := lines[..|lines| - 1];
      ParsedRecordsFromLines(init, toFloat, parseDate);
      var data := ParseLines(lines, toFloat, parseDate);
      var prev := ParseLines(init, toFloat, parseDate);
      var last := ParseLine(lines[|lines| - 1], toFloat, parseDate);
      assert data == prev + (if last.Some? then [last.value] else []);
      forall k | 0 <= k < |data|
        ensures ParsedFrom(lines, toFloat, parseDate, data[k])
      {
        if k < |prev| {
          assert data[k] == prev[k];
          PrefixParsedFrom(init, toFloat, parseDate, k);
          var i :| 0 <= i < |init| && ParseLine(init[i], toFloat, parseDate) == Some(prev[k]);
          assert lines[i] == init[i];
        } else {
          assert last == Some(data[k]);
        }
      }
    }
  }

  /** One instance of the induction hypothesis of `ParsedRecordsFromLines`. */
  lemma PrefixParsedFrom(lines: seq<string>, toFloat: string -> Option<real>,
                         parseDate: string -> Option<CalendarDate>, k: int)
    requires forall j :: 0 <= j < |ParseLines(lines, toFloat, parseDate)| ==>
      ParsedFrom(lines, toFloat, parseDate, ParseLines(lines, toFloat, parseDate)[j])
    requires 0 <= k < |ParseLines(lines, toFloat, parseDate)|
    ensures ParsedFrom(lines, toFloat, parseDate, ParseLines(lines, toFloat, parseDate)[k])
  {
  }

  /**
   * Every record has a non-empty date and carries the year, month and day
   * that date parses to.
   */
  lemma ParsedRecordsWellFormed(lines: seq<string>, toFloat: string -> Option<real>,
                                parseDate: string -> Option<CalendarDate>)
    ensures var data := ParseLines(lines, toFloat, parseDate);
      forall k :: 0 <= k < |data| ==>
        && data[k].date != ""
        && parseDate(data[k].date) == Some(CalendarDate(data[k].year, data[k].month, data[k].day))
  {
    var data := ParseLines(lines, toFloat, parseDate);
    ParsedRecordsFromLines(lines, toFloat, parseDate);
    forall k | 0 <= k < |data|
      ensures data[k].date != ""
      ensures parseDate(data[k].date) == Some(CalendarDate(data[k].year, data[k].month, data[k].day))
    {
      assert data == ParseLines(lines, toFloat, parseDate);
      assert ParsedFrom(lines, toFloat, parseDate, data[k]);
      var i :| 0 <= i < |lines| && ParseLine(lines[i], toFloat, parseDate) == Some(data[k]);
    }
  }

  /** Every line that parses gives a record: the parser drops only the lines `ParseLine` rejects. */
  lemma {:induction false} ParseLinesCount(lines: seq<string>, toFloat: string -> Option<real>,
                                           parseDate: string -> Option<CalendarDate>)
    ensures |ParseLines(lines, toFloat, parseDate)| == |lines| <==>
      forall i :: 0 <= i < |lines| ==> ParseLine(lines[i], toFloat, parseDate).Some?
  {
    if |lines| > 0 {
      var init := lines[..|lines| - 1];
      ParseLinesCount(init, toFloat, parseDate);
      assert forall i :: 0 <= i < |init| ==> lines[i] == init[i];
    }
  }

  /** `lines[data_start:]`: Python slicing, empty past the end. */
  function DataLines(lines: seq<string>): seq<string>
  {
    var start := DataStart(lines);
    if start <= |lines| then lines[start..] else []
  }

  /**
   * `parse_csv_file`: find the first data line, then parse each line from
   * there on, appending the records in order.
   */
  method ParseCsvFile(lines: seq<string>, toFloat: string -> Option<real>, parseDate: string -> Option<CalendarDate>)
    returns (data: seq<TemperatureData>)
    ensures data == ParseLines(DataLines(lines), toFloat, parseDate)
  {
    var dataStart := FindDataStart(lines);
    var rest := if dataStart <= |lines| then lines[dataStart..] else [];
    data := [];
    for k := 0 to |rest|
      invariant data == ParseLines(rest[..k], toFloat, parseDate)
    {
      assert rest[..k + 1][..k] == rest[..k];
      var record := ParseLine(rest[k], toFloat, parseDate);
      if record.Some? {
        data := data + [record.value];
      }
    }
    assert rest[..|rest|] == rest;
  }
}
