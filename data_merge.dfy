/**
 * The `main` functions of the data-preparation scripts that merge the Japan
 * Meteorological Agency downloads into one JSON dataset:
 *
 *  - convert-to-json.py concatenates the records of the files in list order
 *    and sorts them by date text;
 *  - update-data.py and update-data-final.py do the same, keep the years from
 *    1920 (resp. 1890) to 2024, keep one record per date text (the last one,
 *    so a later file wins), sort again and count the records per year;
 *    update-data-final.py also counts the duplicates and lists the years
 *    between the first and the last one that have no record;
 *  - filter-data.py keeps the years 1936 to 2024 of an existing dataset and
 *    counts the records per year.
 *
 * A file is its list of lines, or `None` when it does not exist. Writing the
 * JSON output and the progress messages are not part of the model.
 */
module DataMerge {
  import opened Wrappers
  import opened Strings
  import opened Seqs
  import opened Sorting
  import opened TemperatureTypes
  import opened CsvImport

  const FinalFirstYear: int := 1890
  const CompleteFirstYear: int := 1920
  const FilteredFirstYear: int := 1936
  const LastYear: int := 2024

  // ---------------------------------------------------------------------------
  // Reading the files

  /** The records of one file of the list; a missing file gives none. */
  function FileRecords(file: Option<seq<string>>, toFloat: string -> Option<real>,
                       parseDate: string -> Option<CalendarDate>): seq<TemperatureData>
  {
    match file
    case None => []
    case Some(lines) => ParseLines(DataLines(lines), toFloat, parseDate)
  }

  /** `parse_csv_file` applied to a file of the list, as a function of the file. */
  function Reader(toFloat: string -> Option<real>, parseDate: string -> Option<CalendarDate>)
    : Option<seq<string>> -> seq<TemperatureData>
  {
    (file: Option<seq<string>>) => FileRecords(file, toFloat, parseDate)
  }

  /** `all_data` after the `extend` loop: the records `read` gives for the files, file after file. */
  function AllRecords(files: seq<Option<seq<string>>>, read: Option<seq<string>> -> seq<TemperatureData>)
    : seq<TemperatureData>
  {
    if |files| == 0 then []
    else AllRecords(files[..|files| - 1], read) + read(files[|files| - 1])
  }

  /** Reading two lists of files one after the other reads their records one after the other. */
  lemma {:induction false} AllRecordsAppend(a: seq<Option<seq<string>>>, b: seq<Option<seq<string>>>,
                                            read: Option<seq<string>> -> seq<TemperatureData>)
    ensures AllRecords(a + b, read) == AllRecords(a, read) + AllRecords(b, read)
  {
    if |b| == 0 {
      assert a + b == a;
    } else {
      var b0 := b[..|b| - 1];
      assert (a + b)[..|a + b| - 1] == a + b0;
      AllRecordsAppend(a, b0, read);
      AppendAssoc(AllRecords(a, read), AllRecords(b0, read), read(b[|b| - 1]));
    }
  }

  /** Every record comes from one of the files, and every record of every file is there. */
  lemma {:induction false} AllRecordsMembers(files: seq<Option<seq<string>>>,
                                             read: Option<seq<string>> -> seq<TemperatureData>, r: TemperatureData)
    ensures r in AllRecords(files, read) <==> exists i :: 0 <= i < |files| && r in read(files[i])
  {
    if |files| > 0 {
      var init, last := files[..|files| - 1], files[|files| - 1];
      AllRecordsMembers(init, read, r);
      assert AllRecords(files, read) == AllRecords(init, read) + read(last);
      if r in AllRecords(files, read) && r in AllRecords(init, read) {
        var i :| 0 <= i < |init| && r in read(init[i]);
        assert files[i] == init[i];
      }
      if exists i :: 0 <= i < |files| && r in read(files[i]) {
        var i :| 0 <= i < |files| && r in read(files[i]);
        if i < |init| {
          assert files[i] == init[i];
        }
      }
    }
  }

  function IsPresent(): Option<seq<string>> -> bool
  {
    (file: Option<seq<string>>) => file.Some?
  }

  /** A missing file contributes nothing: reading only the files that exist gives the same records. */
  lemma {:induction false} MissingFilesContributeNothing(files: seq<Option<seq<string>>>,
                                                         read: Option<seq<string>> -> seq<TemperatureData>)
    requires read(None) == []
    ensures AllRecords(Filter(files, IsPresent()), read) == AllRecords(files, read)
  {
    if |files| > 0 {
      var init, last := files[..|files| - 1], files[|files| - 1];
      MissingFilesContributeNothing(init, read);
      if last.Some? {
        var present := Filter(init, IsPresent());
        assert (present + [last])[..|present|] == present;
      } else {
        assert AllRecords(files, read) == AllRecords(init, read) + [];
      }
    }
  }

  /** The reader of the scripts gives nothing for a missing file. */
  lemma ReaderOfMissingFile(toFloat: string -> Option<real>, parseDate: string -> Option<CalendarDate>)
    ensures Reader(toFloat, parseDate)(None) == []
  {
  }

  /** The `for filename in files` loop: parse each file that exists and `extend` `all_data` with its records. */
  method LoadFiles(files: seq<Option<seq<string>>>, toFloat: string -> Option<real>,
                   parseDate: string -> Option<CalendarDate>) returns (allData: seq<TemperatureData>)
    ensures allData == AllRecords(files, Reader(toFloat, parseDate))
  {
    allData := [];
    for i := 0 to |files|
      invariant allData == AllRecords(files[..i], Reader(toFloat, parseDate))
    {
      assert files[..i + 1][..i] == files[..i];
      match files[i]
      case Some(lines) =>
        var fileData := ParseCsvFile(lines, toFloat, parseDate);
        assert fileData == Reader(toFloat, parseDate)(files[i]);
        allData := allData + fileData;
      case None =>
        assert Reader(toFloat, parseDate)(files[i]) == [];
    }
    assert files[..|files|] == files;
  }

  // ---------------------------------------------------------------------------
  // Sorting by the date text

  /** `key=lambda x: x['date']`: records compare by their date strings. */
  function ByDateText(): (TemperatureData, TemperatureData) -> bool
  {
    (a: TemperatureData, b: TemperatureData) => StrLe(a.date, b.date)
  }

  lemma ByDateTextTotalPreorder()
    ensures TotalPreorder(ByDateText())
  {
    forall a: TemperatureData, b: TemperatureData
      ensures ByDateText()(a, b) || ByDateText()(b, a)
    {
      StrLeTotal(a.date, b.date);
    }
    forall a: TemperatureData, b: TemperatureData, c: TemperatureData | ByDateText()(a, b) && ByDateText()(b, c)
      ensures ByDateText()(a, c)
    {
      StrLeTransitive(a.date, b.date, c.date);
    }
  }

  /** `sort(key=lambda x: x['date'])`. */
  function SortByDate(data: seq<TemperatureData>): seq<TemperatureData>
  {
    SortBy(data, ByDateText())
  }

  /**
   * The dates are compared as text, and the agency writes them without
   * leading zeros, so October of a year sorts before February of it.
   */
  lemma DateTextNotChronological(a: TemperatureData, b: TemperatureData)
    requires a.date == "1935/10/1" && b.date == "1935/2/1"
    ensures ByDateText()(a, b) && !ByDateText()(b, a)
    ensures SortByDate([b, a]) == [a, b]
  {
    var prefix, oct, feb := "1935/", "10/1", "2/1";
    assert a.date == prefix + oct && b.date == prefix + feb;
    StrLeConcat(prefix, prefix, oct, feb);
    StrLeConcat(prefix, prefix, feb, oct);
    assert [b, a][..1] == [b];
  }

  /** Two records tie under the date comparator exactly when they carry the same date text. */
  lemma TiedWithSameDate(t: TemperatureData, u: TemperatureData)
    ensures TiedWith(ByDateText(), t)(u) == KeyIs(DateOf, t.date)(u)
  {
    assert TiedWith(ByDateText(), t)(u) == (StrLe(u.date, t.date) && StrLe(t.date, u.date));
    assert KeyIs(DateOf, t.date)(u) == (DateOf(u) == t.date);
    assert KeyIs(DateOf, t.date)(u) == (u.date == t.date);
    if StrLe(u.date, t.date) && StrLe(t.date, u.date) {
      StrLeAntisymmetric(u.date, t.date);
    }
    if u.date == t.date {
      StrLeReflexive(u.date);
    }
  }

  /** The sort is stable: the records of one date keep their order, so the later file's record stays last. */
  lemma SameDateKeepsOrder(data: seq<TemperatureData>, k: string)
    ensures Group(SortByDate(data), DateOf, k) == Group(data, DateOf, k)
  {
    var t := TemperatureData(k, 0, 0, 0, 0.0, 0.0);
    ByDateTextTotalPreorder();
    SortByStable(data, ByDateText(), t);
    var sorted := SortByDate(data);
    forall i | 0 <= i < |sorted|
      ensures TiedWith(ByDateText(), t)(sorted[i]) == KeyIs(DateOf, k)(sorted[i])
    {
      TiedWithSameDate(t, sorted[i]);
    }
    forall i | 0 <= i < |data|
      ensures TiedWith(ByDateText(), t)(data[i]) == KeyIs(DateOf, k)(data[i])
    {
      TiedWithSameDate(t, data[i]);
    }
    FilterCongruent(sorted, TiedWith(ByDateText(), t), KeyIs(DateOf, k));
    FilterCongruent(data, TiedWith(ByDateText(), t), KeyIs(DateOf, k));
  }

  /** The sorted records are the same records, ascending by date text. */
  lemma SortByDateShape(data: seq<TemperatureData>)
    ensures multiset(SortByDate(data)) == multiset(data)
    ensures forall i, j :: 0 <= i < j < |SortByDate(data)| ==> StrLe(SortByDate(data)[i].date, SortByDate(data)[j].date)
  {
    ByDateTextTotalPreorder();
    SortBySorted(data, ByDateText());
  }

  // ---------------------------------------------------------------------------
  // The year filter

  /** `lo <= record['year'] <= hi`. */
  function YearIn(lo: int, hi: int): TemperatureData -> bool
  {
    (r: TemperatureData) => lo <= r.year <= hi
  }

  /** The loop that appends the records of the years `lo` to `hi` to `filtered_data`. */
  method FilterYears(data: seq<TemperatureData>, lo: int, hi: int) returns (filtered: seq<TemperatureData>)
    ensures filtered == Filter(data, YearIn(lo, hi))
  {
    filtered := [];
    for i := 0 to |data|
      invariant filtered == Filter(data[..i], YearIn(lo, hi))
    {
      FilterPrefixStep(data, YearIn(lo, hi), i);
      if lo <= data[i].year <= hi {
        filtered := filtered + [data[i]];
      }
    }
    assert data[..|data|] == data;
  }

  /** The filter keeps exactly the records of the years `lo` to `hi`, in their order, and no more records than it was given. */
  lemma YearFilterMembers(data: seq<TemperatureData>, lo: int, hi: int)
    ensures forall r :: r in Filter(data, YearIn(lo, hi)) <==> r in data && lo <= r.year <= hi
    ensures |Filter(data, YearIn(lo, hi))| <= |data|
  {
    FilterMembers(data, YearIn(lo, hi));
  }

  // ---------------------------------------------------------------------------
  // One record per date

  /** The last record of `data` dated `k`. */
  function LastWithDate(data: seq<TemperatureData>, k: string): (r: Option<TemperatureData>)
    ensures r.None? <==> forall i :: 0 <= i < |data| ==> data[i].date != k
    ensures r.Some? ==> r.value.date == k && r.value in data
  {
    if |data| == 0 then None
    else if data[|data| - 1].date == k then Some(data[|data| - 1])
    else LastWithDate(data[..|data| - 1], k)
  }

  /** No record dated `k` follows the one `LastWithDate` picks. */
  lemma {:induction false} LastWithDateIsLast(data: seq<TemperatureData>, k: string)
    requires LastWithDate(data, k).Some?
    ensures exists i :: 0 <= i < |data| && data[i] == LastWithDate(data, k).value && NoneDatedAfter(data, k, i)
  {
    var n := |data| - 1;
    if data[n].date == k {
      assert NoneDatedAfter(data, k, n);
    } else {
      var init := data[..n];
      LastWithDateIsLast(init, k);
      var i :| 0 <= i < |init| && init[i] == LastWithDate(init, k).value && NoneDatedAfter(init, k, i);
      assert data[i] == init[i];
      forall j | i < j < |data|
        ensures data[j].date != k
      {
        if j < n {
          assert data[j] == init[j];
        }
      }
      assert NoneDatedAfter(data, k, i);
    }
  }

  /** No record after index `i` is dated `k`. */
  ghost predicate NoneDatedAfter(data: seq<TemperatureData>, k: string, i: int)
  {
    forall j :: 0 <= j < |data| && i < j ==> data[j].date != k
  }

  function LastOf(s: seq<TemperatureData>): Option<TemperatureData>
  {
    if |s| == 0 then None else Some(s[|s| - 1])
  }

  /** The last record of a date is the last one of that date's group. */
  lemma {:induction false} LastWithDateOfGroup(data: seq<TemperatureData>, k: string)
    ensures LastWithDate(data, k) == LastOf(Group(data, DateOf, k))
  {
    if |data| > 0 {
      var init, x := data[..|data| - 1], data[|data| - 1];
      LastWithDateOfGroup(init, k);
      assert DateOf(x) == x.date;
      assert KeyIs(DateOf, k)(x) == (x.date == k);
      assert Group(data, DateOf, k) == Filter(data, KeyIs(DateOf, k));
      assert Group(data, DateOf, k) == Group(init, DateOf, k) + (if x.date == k then [x] else []);
    }
  }

  /** Of two runs of records, the second one's record of a date wins. */
  lemma {:induction false} LastWithDateAppend(a: seq<TemperatureData>, b: seq<TemperatureData>, k: string)
    ensures LastWithDate(a + b, k) == if LastWithDate(b, k).Some? then LastWithDate(b, k) else LastWithDate(a, k)
  {
    if |b| == 0 {
      assert a + b == a;
    } else {
      var b0 := b[..|b| - 1];
      assert (a + b)[..|a + b| - 1] == a + b0;
      LastWithDateAppend(a, b0, k);
    }
  }

  /**
   * Sorting before the year filter does not change which record of a date
   * comes last: it is the last one, in file order, among the records of that
   * date in the year range.
   */
  lemma SortKeepsLastOfDate(data: seq<TemperatureData>, lo: int, hi: int, k: string)
    ensures LastWithDate(Filter(SortByDate(data), YearIn(lo, hi)), k) == LastWithDate(Filter(data, YearIn(lo, hi)), k)
  {
    var y, d := YearIn(lo, hi), KeyIs(DateOf, k);
    LastWithDateOfGroup(Filter(SortByDate(data), y), k);
    LastWithDateOfGroup(Filter(data, y), k);
    FilterCommute(SortByDate(data), y, d);
    FilterCommute(data, y, d);
    SameDateKeepsOrder(data, k);
  }

  /**
   * The `unique_data` loop: the first record of a date inserts its key, every
   * later one overwrites the value and counts as a duplicate.
   */
  method Deduplicate(data: seq<TemperatureData>)
    returns (order: seq<string>, unique: map<string, TemperatureData>, duplicateCount: nat)
    ensures order == DistinctKeys(data, DateOf)
    ensures unique.Keys == set k | k in order
    ensures forall k :: k in unique ==> LastWithDate(data, k) == Some(unique[k])
    ensures duplicateCount == |data| - |order|
  {
    order, unique, duplicateCount := [], map[], 0;
    for i := 0 to |data|
      invariant order == DistinctKeys(data[..i], DateOf)
      invariant unique.Keys == set k | k in order
      invariant forall k :: k in unique ==> LastWithDate(data[..i], k) == Some(unique[k])
      invariant duplicateCount + |order| == i
    {
      var record := data[i];
      var dateKey := record.date;
      assert data[..i + 1][..i] == data[..i];
      if dateKey !in unique {
        order := order + [dateKey];
      } else {
        duplicateCount := duplicateCount + 1;
      }
      unique := unique[dateKey := record];
    }
    assert data[..|data|] == data;
  }

  /** `list(unique_data.values())`: the kept records, in the order their dates were first inserted. */
  function DictValues(order: seq<string>, unique: map<string, TemperatureData>): (values: seq<TemperatureData>)
    requires forall i :: 0 <= i < |order| ==> order[i] in unique
    ensures |values| == |order|
    ensures forall i :: 0 <= i < |order| ==> values[i] == unique[order[i]]
  {
    seq(|order|, i requires 0 <= i < |order| => unique[order[i]])
  }

  /** The last record of every date of `data`, and nothing else, each date once. */
  ghost predicate OnePerDateLastWins(data: seq<TemperatureData>, result: seq<TemperatureData>)
  {
    && (forall i, j :: 0 <= i < j < |result| ==> result[i].date != result[j].date)
    && (forall r :: r in result <==> r in data && LastWithDate(data, r.date) == Some(r))
  }

  /** What the dict holds after the loop: the last record of each date, each date once. */
  lemma DictValuesLastWins(data: seq<TemperatureData>, order: seq<string>, unique: map<string, TemperatureData>)
    requires order == DistinctKeys(data, DateOf)
    requires unique.Keys == set k | k in order
    requires forall k :: k in unique ==> LastWithDate(data, k) == Some(unique[k])
    ensures OnePerDateLastWins(data, DictValues(order, unique))
  {
    var values := DictValues(order, unique);
    forall i, j | 0 <= i < j < |values|
      ensures values[i].date != values[j].date
    {
      assert values[i].date == order[i] && values[j].date == order[j];
    }
    forall r
      ensures r in values <==> r in data && LastWithDate(data, r.date) == Some(r)
    {
      if r in data && LastWithDate(data, r.date) == Some(r) {
        var n :| 0 <= n < |data| && data[n] == r;
        assert r.date in order;
        var i :| 0 <= i < |order| && order[i] == r.date;
        assert values[i] == r;
      }
    }
  }

  /** Sorting the kept records by date keeps one record per date, the last one, and orders them strictly by date text. */
  lemma SortedOnePerDate(data: seq<TemperatureData>, values: seq<TemperatureData>)
    requires OnePerDateLastWins(data, values)
    ensures OnePerDateLastWins(data, SortByDate(values))
    ensures forall i, j :: 0 <= i < j < |SortByDate(values)| ==>
      StrLe(SortByDate(values)[i].date, SortByDate(values)[j].date)
    ensures |SortByDate(values)| == |values|
  {
    var sorted := SortByDate(values);
    SortByDateShape(values);
    assert KeysDistinct(values, DateOf);
    KeysDistinctPermutation(values, sorted, DateOf);
    forall r
      ensures r in sorted <==> r in values
    {
      assert r in sorted <==> r in multiset(sorted);
    }
  }

  // ---------------------------------------------------------------------------
  // The year counts and the missing years

  /**
   * The `year_counts` loop: `year_counts[year] = year_counts.get(year, 0) + 1`
   * for every record. Each year that occurs counts its records, and the counts
   * add up to the number of records.
   */
  method CountYears(data: seq<TemperatureData>) returns (years: seq<int>, counts: map<int, nat>)
    ensures years == DistinctKeys(data, YearOf)
    ensures counts.Keys == set y | y in years
    ensures forall y :: y in counts ==> counts[y] == |Group(data, YearOf, y)|
    ensures TotalCount(counts, years) == |data|
  {
    years, counts := CountBy(data, YearOf);
    CountsAddUp(data, YearOf, counts);
  }

  /** `min(...)` of a non-empty list of years. */
  function MinYear(years: seq<int>): (m: int)
    requires |years| > 0
    ensures m in years
    ensures forall i :: 0 <= i < |years| ==> m <= years[i]
  {
    if |years| == 1 then years[0]
    else
      var m := MinYear(years[..|years| - 1]);
      if years[|years| - 1] < m then years[|years| - 1] else m
  }

  /** `max(...)` of a non-empty list of years. */
  function MaxYear(years: seq<int>): (m: int)
    requires |years| > 0
    ensures m in years
    ensures forall i :: 0 <= i < |years| ==> years[i] <= m
  {
    if |years| == 1 then years[0]
    else
      var m := MaxYear(years[..|years| - 1]);
      if years[|years| - 1] > m then years[|years| - 1] else m
  }

  /** The `for year in range(start_year, end_year + 1)` loop: the years of the range with no count, ascending. */
  method MissingYears(counts: map<int, nat>, startYear: int, endYear: int) returns (missing: seq<int>)
    ensures forall y :: y in missing <==> startYear <= y <= endYear && y !in counts
    ensures forall i, j :: 0 <= i < j < |missing| ==> missing[i] < missing[j]
  {
    missing := [];
    var year := startYear;
    while year <= endYear
      invariant startYear <= year
      invariant year <= endYear + 1 || year == startYear
      invariant forall y :: y in missing <==> startYear <= y < year && y !in counts
      invariant forall i :: 0 <= i < |missing| ==> missing[i] < year
      invariant forall i, j :: 0 <= i < j < |missing| ==> missing[i] < missing[j]
      decreases endYear - year
    {
      if year !in counts {
        missing := missing + [year];
      }
      year := year + 1;
    }
  }

  /** What update-data-final.py reports about the years of a non-empty final dataset. */
  datatype YearReport = YearReport(years: seq<int>, counts: map<int, nat>, startYear: int, endYear: int, missing: seq<int>)

  /**
   * `report` is the year report of `data`: the years in first-seen order,
   * each year of a record counted, the first and the last year, and the
   * years between them without a record, ascending.
   */
  ghost predicate Describes(report: YearReport, data: seq<TemperatureData>)
  {
    && report.years == DistinctKeys(data, YearOf)
    && (forall y :: y in report.counts <==> exists i :: 0 <= i < |data| && data[i].year == y)
    && (forall y :: y in report.counts ==> report.counts[y] == |Group(data, YearOf, y)|)
    && report.startYear in report.counts && report.endYear in report.counts
    && (forall i :: 0 <= i < |data| ==> report.startYear <= data[i].year <= report.endYear)
    && (forall y :: y in report.missing <==>
         report.startYear <= y <= report.endYear && forall i :: 0 <= i < |data| ==> data[i].year != y)
    && (forall i, j :: 0 <= i < j < |report.missing| ==> report.missing[i] < report.missing[j])
  }

  /**
   * The block under `if final_data:`: the year counts, the first and last
   * year, and the years in between without any record.
   */
  method ReportYears(data: seq<TemperatureData>) returns (report: YearReport)
    requires |data| > 0
    ensures Describes(report, data)
  {
    var years, counts := CountYears(data);
    assert data[0].year in years;
    var startYear, endYear := MinYear(years), MaxYear(years);
    forall i | 0 <= i < |data|
      ensures startYear <= data[i].year <= endYear
    {
      assert data[i].year in years;
      var j :| 0 <= j < |years| && years[j] == data[i].year;
    }
    var missing := MissingYears(counts, startYear, endYear);
    report := YearReport(years, counts, startYear, endYear, missing);
  }

  // ---------------------------------------------------------------------------
  // The scripts' `main` functions

  /**
   * convert-to-json.py: every record of every file that exists, sorted by
   * date text; nothing is filtered or merged.
   */
  method ConvertToJson(files: seq<Option<seq<string>>>, toFloat: string -> Option<real>,
                       parseDate: string -> Option<CalendarDate>) returns (allData: seq<TemperatureData>)
    ensures allData == SortByDate(AllRecords(files, Reader(toFloat, parseDate)))
  {
    allData := LoadFiles(files, toFloat, parseDate);
    allData := SortByDate(allData);
  }

  /**
   * The output of convert-to-json.py holds the files' records, as many as
   * they have together, in date-text order, and the records of one date in
   * file order.
   */
  lemma ConvertToJsonShape(files: seq<Option<seq<string>>>, read: Option<seq<string>> -> seq<TemperatureData>, k: string)
    ensures var out := SortByDate(AllRecords(files, read));
      && multiset(out) == multiset(AllRecords(files, read))
      && (forall i, j :: 0 <= i < j < |out| ==> StrLe(out[i].date, out[j].date))
      && Group(out, DateOf, k) == Group(AllRecords(files, read), DateOf, k)
  {
    SortByDateShape(AllRecords(files, read));
    SameDateKeepsOrder(AllRecords(files, read), k);
  }

  /** The records of the files `read` gives, from the years `firstYear` to 2024, in file order. */
  function InRange(files: seq<Option<seq<string>>>, read: Option<seq<string>> -> seq<TemperatureData>, firstYear: int)
    : seq<TemperatureData>
  {
    Filter(AllRecords(files, read), YearIn(firstYear, LastYear))
  }

  /**
   * A merged dataset of `inRange`: ascending by date text, one record per
   * date, the last one of that date, and only records of `inRange`.
   */
  ghost predicate Merged(inRange: seq<TemperatureData>, finalData: seq<TemperatureData>)
  {
    && (forall i, j :: 0 <= i < j < |finalData| ==> StrLe(finalData[i].date, finalData[j].date))
    && OnePerDateLastWins(inRange, finalData)
  }

  /** Elements of filters of two permutations of each other are the same. */
  lemma FilterMultisetMembers(s: seq<TemperatureData>, t: seq<TemperatureData>, p: TemperatureData -> bool)
    requires multiset(s) == multiset(t)
    ensures forall r :: r in Filter(s, p) <==> r in Filter(t, p)
  {
    FilterMembers(s, p);
    FilterMembers(t, p);
    forall r
      ensures r in s <==> r in t
    {
      assert r in s <==> r in multiset(s);
      assert r in t <==> r in multiset(t);
    }
  }

  /** Keeping the last record of each date of the sorted records is keeping it of the unsorted ones. */
  lemma OnePerDateOfSorted(data: seq<TemperatureData>, lo: int, hi: int, result: seq<TemperatureData>)
    requires OnePerDateLastWins(Filter(SortByDate(data), YearIn(lo, hi)), result)
    ensures OnePerDateLastWins(Filter(data, YearIn(lo, hi)), result)
  {
    var sortedIn, dataIn := Filter(SortByDate(data), YearIn(lo, hi)), Filter(data, YearIn(lo, hi));
    SortByDateShape(data);
    FilterMultisetMembers(SortByDate(data), data, YearIn(lo, hi));
    forall r: TemperatureData
      ensures LastWithDate(sortedIn, r.date) == LastWithDate(dataIn, r.date)
    {
      SortKeepsLastOfDate(data, lo, hi, r.date);
    }
  }

  /**
   * The merge shared by update-data.py and update-data-final.py: read, sort
   * by date, keep the years `firstYear` to 2024, keep the last record of each
   * date, and sort the result by date again.
   */
  method MergeFiles(files: seq<Option<seq<string>>>, firstYear: int, toFloat: string -> Option<real>,
                    parseDate: string -> Option<CalendarDate>) returns (finalData: seq<TemperatureData>, duplicateCount: nat)
    ensures Merged(InRange(files, Reader(toFloat, parseDate), firstYear), finalData)
    ensures forall i :: 0 <= i < |finalData| ==> firstYear <= finalData[i].year <= LastYear
    ensures duplicateCount == |InRange(files, Reader(toFloat, parseDate), firstYear)| - |finalData|
  {
    var allData := LoadFiles(files, toFloat, parseDate);
    var sorted := SortByDate(allData);
    var filtered := FilterYears(sorted, firstYear, LastYear);
    var order, unique, dups := Deduplicate(filtered);
    var values := DictValues(order, unique);
    DictValuesLastWins(filtered, order, unique);
    SortedOnePerDate(filtered, values);
    finalData := SortByDate(values);
    duplicateCount := dups;
    OnePerDateOfSorted(allData, firstYear, LastYear, finalData);
    SortByDateShape(allData);
    FilterPermutation(sorted, allData, YearIn(firstYear, LastYear));
    YearFilterMembers(sorted, firstYear, LastYear);
    forall i | 0 <= i < |finalData|
      ensures firstYear <= finalData[i].year <= LastYear
    {
      assert finalData[i] in finalData;
    }
  }

  /** The first and last year of a report lie in the years of the records. */
  lemma ReportWithinYears(data: seq<TemperatureData>, report: YearReport, firstYear: int)
    requires forall i :: 0 <= i < |data| ==> firstYear <= data[i].year <= LastYear
    requires Describes(report, data)
    ensures firstYear <= report.startYear && report.endYear <= LastYear
  {
    var a :| 0 <= a < |data| && data[a].year == report.startYear;
    var b :| 0 <= b < |data| && data[b].year == report.endYear;
  }

  /** update-data-final.py: the merge from 1890, its duplicate count and its year report. */
  method UpdateDataFinal(files: seq<Option<seq<string>>>, toFloat: string -> Option<real>,
                         parseDate: string -> Option<CalendarDate>)
    returns (finalData: seq<TemperatureData>, duplicateCount: nat, report: Option<YearReport>)
    ensures Merged(InRange(files, Reader(toFloat, parseDate), FinalFirstYear), finalData)
    ensures duplicateCount == |InRange(files, Reader(toFloat, parseDate), FinalFirstYear)| - |finalData|
    ensures report.None? <==> |finalData| == 0
    ensures report.Some? ==> Describes(report.value, finalData)
    ensures report.Some? ==> FinalFirstYear <= report.value.startYear && report.value.endYear <= LastYear
  {
    finalData, duplicateCount := MergeFiles(files, FinalFirstYear, toFloat, parseDate);
    if |finalData| > 0 {
      var r := ReportYears(finalData);
      report := Some(r);
      ReportWithinYears(finalData, r, FinalFirstYear);
    } else {
      report := None;
    }
  }

  /** update-data.py: the merge from 1920 and its year counts, which add up to the number of records. */
  method UpdateData(files: seq<Option<seq<string>>>, toFloat: string -> Option<real>,
                    parseDate: string -> Option<CalendarDate>)
    returns (finalData: seq<TemperatureData>, years: seq<int>, counts: map<int, nat>)
    ensures Merged(InRange(files, Reader(toFloat, parseDate), CompleteFirstYear), finalData)
    ensures years == DistinctKeys(finalData, YearOf)
    ensures counts.Keys == set y | y in years
    ensures forall y :: y in counts ==> CompleteFirstYear <= y <= LastYear && counts[y] == |Group(finalData, YearOf, y)|
    ensures TotalCount(counts, years) == |finalData|
  {
    var duplicateCount;
    finalData, duplicateCount := MergeFiles(files, CompleteFirstYear, toFloat, parseDate);
    years, counts := CountYears(finalData);
    forall y | y in counts
      ensures CompleteFirstYear <= y <= LastYear
    {
      assert y in years;
      var i :| 0 <= i < |finalData| && finalData[i].year == y;
    }
  }

  /**
   * filter-data.py: the records of 1936 to 2024, in their order, and their
   * year counts, each year in that range and the counts adding up to the
   * number of kept records.
   */
  method FilterTemperatureData(data: seq<TemperatureData>)
    returns (filtered: seq<TemperatureData>, years: seq<int>, counts: map<int, nat>)
    ensures filtered == Filter(data, YearIn(FilteredFirstYear, LastYear))
    ensures years == DistinctKeys(filtered, YearOf)
    ensures counts.Keys == set y | y in years
    ensures forall y :: y in counts ==> FilteredFirstYear <= y <= LastYear && counts[y] == |Group(filtered, YearOf, y)|
    ensures TotalCount(counts, years) == |filtered|
  {
    filtered := FilterYears(data, FilteredFirstYear, LastYear);
    years, counts := CountYears(filtered);
    YearFilterMembers(data, FilteredFirstYear, LastYear);
    forall y | y in counts
      ensures FilteredFirstYear <= y <= LastYear
    {
      assert y in years;
      var i :| 0 <= i < |filtered| && filtered[i].year == y;
      assert filtered[i] in filtered;
    }
  }
}
