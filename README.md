# Tokyo temperature archive, modelled in Dafny

This project models the core of a site that charts daily maximum and
minimum temperatures in Tokyo from 1890 on. The model covers:

- **Data preparation.** Python scripts parse the Japan Meteorological Agency
  CSV downloads (`parse_csv_file`). They merge the files into one date-sorted
  dataset: years filtered, one record kept per date (the last file wins), then
  the records counted per year. `filter-data.py` cuts the dataset to 1936–2024.
- **Quality reports.** `temperature_analysis.py` and `detailed_analysis.py`
  check the merged dataset. They look for missing years and dates, `null`
  temperatures, impossible records, month counts, a repeated annual
  aggregation, and implausible annual means.
- **Aggregation library.** `src/lib/data-processor.ts` builds the series the
  charts draw:
  - an annual series whose gaps are filled by linear interpolation;
  - monthly series;
  - a day-of-year series over a fixed 365-day calendar;
  - a least-squares trend line.
- **Chart computations.** The chart components compute hot-day and
  tropical-night counts, era averages, centred moving averages, rankings, and
  the same-day comparison across years.
- **Forecast pages.** These cover the weather icon, the historical averages
  for a forecast date and the anomaly flags. Also modelled: the one-hour
  forecast cache of the week page, and the table of saved forecasts
  (`src/lib/weather-fetcher.ts`).

Temperatures are exact reals (see "Left out"). Library conversions are
parameters of the model: `float`, `Number`, `strptime`, the clock, and the
HTTP and database responses. Each loop-based operation is a method proved
equal to a specification function or state. The properties the code relies
on are lemmas about those functions.

Modules, one per file:

| module | models |
|---|---|
| `Wrappers`, `Numeric`, `Strings`, `Seqs`, `Sorting` | `null`/`None`; sums, means, JS and Python rounding; number rendering, `padStart`, `split`, `strip`, string order; `filter`, `map`, first-seen keys, grouping; the stable library sorts and `slice(0, n)` |
| `Calendar` | the Gregorian calendar of Python's `datetime` |
| `TemperatureTypes` | the record and series types of `src/types/temperature.ts` |
| `CsvImport` | `parse_csv_file` (the same function in `update-data-final.py`, `update-data.py`, `convert-to-json.py`) |
| `DataMerge` | the `main` functions of the three merge scripts and `filter-data.py` |
| `TemperatureAnalysis` | `temperature_analysis.py` |
| `DetailedAnalysis` | `detailed_analysis.py` |
| `DataProcessor`, `DailyAggregation`, `TrendLine` | `src/lib/data-processor.ts` |
| `ChartCommon`, `HotDays`, `TropicalNights`, `TemperatureRankings`, `YearComparison` | the chart components |
| `Forecast`, `ForecastCache`, `ForecastStore` | the forecast pages, the week page's cache, `src/lib/weather-fetcher.ts` |

## Model

| member | source | states |
|---|---|---|
| Calendar.LeapRule | temperature_analysis.py:45 | the leap-year test repeats every 400 years; a century year is a leap year exactly when it is divisible by 400; a year not divisible by 4 is never one |
| Calendar.MonthsFillYear | temperature_analysis.py:46 | the twelve months add up to 366 days in a leap year and 365 otherwise (`expected_days`) |
| Calendar.MonthStartsIncrease | temperature_analysis.py:73 | each later month starts at least 28 days later in the day numbering behind `timedelta` |
| Calendar.YearLength | temperature_analysis.py:46 | the next year starts exactly `expected_days` after this one |
| Calendar.YearStartsIncrease | temperature_analysis.py:73 | later years start at least 365 days per year later |
| Calendar.NextDate | temperature_analysis.py:73 | the day after a valid date is a valid date |
| Calendar.NextDateIsOneDayLater | temperature_analysis.py:73 | `current_date + timedelta(days=1)` is the next calendar date: its day number is one higher, including at month and year ends |
| Calendar.DayWithinYear | temperature_analysis.py:11 | the day number of a valid date lies within its own year |
| Calendar.DayNumberOrder | temperature_analysis.py:65 | day numbers follow calendar order, so sorting by `datetime` is sorting by date |
| Calendar.DayNumberOrderIff | temperature_analysis.py:65 | on valid dates a smaller day number means exactly an earlier date |
| Calendar.DayNumberInjective | temperature_analysis.py:75 | two valid dates with the same day number are the same date, so `!=` on datetimes is `!=` on day numbers |
| CsvImport.HeaderIndex | update-data-final.py:20-23 | the first header line, if any (a line whose stripped text starts with `年月日`); no earlier line is one; none exactly when no line is |
| CsvImport.DataStart | update-data-final.py:19-23 | `data_start` is three past the first header line, and 0 exactly when there is none |
| CsvImport.FindDataStart | update-data-final.py:19-23 | the search loop with its `break` returns `data_start` |
| CsvImport.ParseLine | update-data-final.py:26-70 | a line yields a record exactly when, stripped, it is non-empty, has at least four fields, a non-empty date, non-empty maximum and minimum fields (the minimum in field 4 when there are more than five fields) that convert, and a date that parses. The record keeps the date text and the parsed year, month and day |
| CsvImport.ParseLines | update-data-final.py:25-72 | never more records than lines |
| CsvImport.ParsedRecordsFromLines | update-data-final.py:25-72 | every record was parsed from one of the lines |
| CsvImport.ParsedRecordsWellFormed | update-data-final.py:57-66 | every record has a non-empty date, and its year, month and day are those its date parses to |
| CsvImport.ParseLinesCount | update-data-final.py:25-72 | no line is lost exactly when every line parses |
| CsvImport.ParseCsvFile | update-data-final.py:11-72 | `parse_csv_file` parses the lines from `data_start` on, in order (Python slicing past the end gives none) |
| DataMerge.AllRecordsAppend | update-data-final.py:89-93 | extending over two lists of files gives the first list's records, then the second's |
| DataMerge.AllRecordsMembers | update-data-final.py:89-93 | a record is in `all_data` exactly when it comes from one of the files |
| DataMerge.MissingFilesContributeNothing | update-data-final.py:90-96 | skipping the files that do not exist changes nothing |
| DataMerge.ReaderOfMissingFile | update-data-final.py:90-96 | a missing file contributes no records |
| DataMerge.LoadFiles | update-data-final.py:87-96 | the loop's `all_data` holds the records of the existing files, file after file |
| DataMerge.ByDateTextTotalPreorder | update-data-final.py:99 | comparing date strings is a total preorder, so the stable sort is well defined |
| DataMerge.DateTextNotChronological | update-data-final.py:99 | dates are compared as text: `1935/10/1` sorts before `1935/2/1` |
| DataMerge.TiedWithSameDate | update-data-final.py:99 | two records tie under the sort key exactly when their date texts are equal |
| DataMerge.SameDateKeepsOrder | update-data-final.py:99 | the sort is stable: the records of one date keep their file order |
| DataMerge.SortByDateShape | update-data-final.py:99 | the sorted records are a permutation of the input, ascending by date text |
| DataMerge.FilterYears | update-data-final.py:102-106 | `filtered_data` is the records whose year is within the bounds, in order |
| DataMerge.YearFilterMembers | update-data-final.py:105 | a record is kept exactly when it is in the data and its year is within the bounds; the filter never adds records |
| DataMerge.LastWithDate | update-data-final.py:113-118 | the last record with a given date: none exactly when no record has it; otherwise one of the records, with that date |
| DataMerge.LastWithDateIsLast | update-data-final.py:118 | the chosen record occurs at a position after which no record has that date |
| DataMerge.LastWithDateOfGroup | update-data-final.py:118 | the last record of a date is the last of that date's group |
| DataMerge.LastWithDateAppend | update-data-final.py:116-118 | over two runs of records, the later run's record of a date wins |
| DataMerge.SortKeepsLastOfDate | update-data-final.py:99-118 | sorting before the year filter does not change which record of a date is last |
| DataMerge.Deduplicate | update-data-final.py:109-118 | the dictionary holds the dates in first-insertion order, each mapped to its last record; `duplicate_count` is the number of records minus the number of dates |
| DataMerge.DictValues | update-data-final.py:121 | `list(unique_data.values())` has one value per key, in key order |
| DataMerge.DictValuesLastWins | update-data-final.py:109-121 | the values hold each date once, and a record is among them exactly when it is its date's last record |
| DataMerge.SortedOnePerDate | update-data-final.py:122 | re-sorting keeps one record per date (the last one) and orders them by date text, losing nothing |
| DataMerge.CountYears | update-data-final.py:138-141 | `year_counts` has a key for each year with records, in first-seen order; each count is that year's number of records; the counts add up to the number of records |
| DataMerge.MinYear | update-data-final.py:144 | `min` of the keys is one of them and no key is smaller |
| DataMerge.MaxYear | update-data-final.py:145 | `max` of the keys is one of them and no key is larger |
| DataMerge.MissingYears | update-data-final.py:152-155 | a year is listed exactly when it is in `range(start_year, end_year + 1)` with no count; the list ascends |
| DataMerge.ReportYears | update-data-final.py:134-161 | on a non-empty dataset: the counts per year; first and last year are years of the data that bound every record; the missing years are those in between with no record, ascending |
| DataMerge.ConvertToJson | convert-to-json.py:84-101 | `convert-to-json.py` outputs all records of the existing files, sorted by date text |
| DataMerge.ConvertToJsonShape | convert-to-json.py:96 | that output is a permutation of the files' records, ascending by date text, with the records of each date in file order |
| DataMerge.FilterMultisetMembers | update-data-final.py:99-106 | filtering two permutations of the same records keeps the same records |
| DataMerge.OnePerDateOfSorted | update-data-final.py:99-122 | keeping the last record per date of the sorted and filtered records keeps it of the unsorted ones |
| DataMerge.MergeFiles | update-data-final.py:87-122 | the merge outputs records sorted by date text, one per date, each its date's last record in file order among records of `first_year`–2024; `duplicate_count` is the in-range count minus the output count |
| DataMerge.ReportWithinYears | update-data-final.py:144-145 | when every record is in the range, so are the first and the last year |
| DataMerge.UpdateDataFinal | update-data-final.py:74-161 | `update-data-final.py` merges from 1890, counts duplicates, and reports exactly when the output is non-empty; the reported years lie within 1890–2024 |
| DataMerge.UpdateData | update-data.py:74-142 | `update-data.py` merges from 1920; its year counts cover the years of the output, lie within 1920–2024 and add up to the output's size |
| DataMerge.FilterTemperatureData | filter-data.py:8-39 | `filter-data.py` keeps exactly the 1936–2024 records, in order; its year counts are those of the kept records and add up to their number |
| TemperatureAnalysis.YearRange | temperature_analysis.py:26 | `set(range(lo, hi + 1))` holds exactly the years from `lo` to `hi`, `hi - lo + 1` of them |
| TemperatureAnalysis.MissingYears | temperature_analysis.py:26-28 | `expected_years - actual_years`: a year is missing exactly when it is in the expected range and no record has it |
| TemperatureAnalysis.ExtraYears | temperature_analysis.py:29 | `actual_years - expected_years`: a year is extra exactly when some record has it and it is outside the range |
| TemperatureAnalysis.MissingAndPresentCoverRange | temperature_analysis.py:26-28 | the missing years and the expected years present together number the whole range (89 years for 1936–2024) |
| TemperatureAnalysis.SortedYearsShape | temperature_analysis.py:42 | `sorted(year_counts.keys())` strictly ascends and holds exactly the counted years |
| TemperatureAnalysis.ShortfallsShape | temperature_analysis.py:42-49 | a triple `(year, count, expected_days)` is listed exactly when its year is listed and its count is below the days of that year (leap rule); ascending years give ascending triples |
| TemperatureAnalysis.IncompleteYears | temperature_analysis.py:38-49 | `incomplete_years` holds exactly the triples of years of the data whose record count is below that year's number of days, in ascending year order |
| TemperatureAnalysis.CheckYears | temperature_analysis.py:42-49 | the loop over the sorted keys appends what `Shortfalls` lists |
| TemperatureAnalysis.ShortfallsOfCounts | temperature_analysis.py:38-49 | on the `Counter` of the years, the shortfalls of the sorted keys are exactly the years of the data with fewer records than days, ascending |
| TemperatureAnalysis.DateGaps | temperature_analysis.py:69-79 | the loop over neighbouring dates produces `GapsOf` the dates |
| TemperatureAnalysis.MissingDates | temperature_analysis.py:65-79 | `missing_dates` is `GapsOf` the records' day numbers sorted by date |
| TemperatureAnalysis.GapsCountMissingDays | temperature_analysis.py:75-85 | on strictly increasing dates each gap starts no later than it ends, and the gaps' day counts add up to the days between the first and last date with no record |
| TemperatureAnalysis.GapsProper | temperature_analysis.py:75-79 | on strictly increasing dates every reported gap starts no later than it ends |
| TemperatureAnalysis.GapsCount | temperature_analysis.py:75-85 | on strictly increasing dates the gaps' day counts add up to the days between the first and last date with no record |
| TemperatureAnalysis.NoGapsIffConsecutive | temperature_analysis.py:75 | no gap is reported exactly when every date is followed by the next day |
| TemperatureAnalysis.DuplicateDateGap | temperature_analysis.py:75-79 | a date that occurs twice yields a "gap" ending the day before it starts, counted as -1 days |
| TemperatureAnalysis.NextDayIffNextDate | temperature_analysis.py:71-75 | on valid dates, `next_date == current_date + timedelta(days=1)` exactly when the day number goes up by one |
| TemperatureAnalysis.SortedValidDates | temperature_analysis.py:65-66 | when every date parses, the sorted days are the records' day numbers and no record follows a later-dated one |
| TemperatureAnalysis.NoMissingDatesIffDaily | temperature_analysis.py:65-79 | when every date parses, `missing_dates` is empty exactly when each record in date order is followed by one of the next calendar date |
| TemperatureAnalysis.SortedDaysAscending | temperature_analysis.py:65-66 | the sorted dates keep every record and never decrease |
| TemperatureAnalysis.NullsAndValidMaxima | temperature_analysis.py:93-99 | `null_max_temp` plus the length of `valid_max_temps` is the number of records; the null count is 0 exactly when every maximum is present |
| TemperatureAnalysis.InvalidRecords | temperature_analysis.py:107-111 | the loop appends the records `IsInvalid` selects, in order |
| TemperatureAnalysis.InvalidRecordsMembers | temperature_analysis.py:109-110 | a record is in `invalid_temp` exactly when both temperatures are present and the maximum is below the minimum |
| TemperatureAnalysis.MonthDistribution | temperature_analysis.py:122-126 | one count per month, twelve counts |
| TemperatureAnalysis.MonthPrefixSums | temperature_analysis.py:124-125 | the counts of the first `k` months add up to the sizes of those months' groups |
| TemperatureAnalysis.MonthDistributionTotal | temperature_analysis.py:122-126 | when every month is from 1 to 12, the twelve counts add up to the number of records |
| TemperatureAnalysis.TotalsAreSums | temperature_analysis.py:136-141 | the running `total_max`, `total_min` and `count` of a year are the sums of its maxima and minima and its number of records |
| TemperatureAnalysis.AggregateAnnualData | temperature_analysis.py:132-154 | the years with complete records, in first-seen order, each mapped to the mean maximum, mean minimum and count of its complete records; every such group is non-empty |
| TemperatureAnalysis.AccumulateTotals | temperature_analysis.py:134-141 | after the loop `annual_data` has a key for each year with a complete record, holding that year's sums and count |
| TemperatureAnalysis.AddRecord | temperature_analysis.py:138-141 | one complete record adds its temperatures and 1 to its year's entry, starting from the `defaultdict`'s zeros for a new year; every other entry is unchanged |
| TemperatureAnalysis.AccumulateStep | temperature_analysis.py:136-141 | one loop step keeps `annual_data` equal to the sums over the records seen |
| TemperatureAnalysis.AveragesOfTotals | temperature_analysis.py:145-152 | a year's entry has a positive count, and dividing its sums by it gives the year's means |
| TemperatureAnalysis.AverageStep | temperature_analysis.py:145-152 | one step of the averaging loop keeps `result` equal to the means of the years done |
| TemperatureAnalysis.MissingInAggregation | temperature_analysis.py:161-163 | a year of the data is missing from the aggregation exactly when every one of its records has a `null` temperature |
| TemperatureAnalysis.MissingYearsInSeries | temperature_analysis.py:186-198 | the years listed are exactly those between the first and last aggregated year that are not aggregated, ascending |
| TemperatureAnalysis.NotInBetween | temperature_analysis.py:196-197 | no year of the sorted keys lies strictly between two neighbours |
| DetailedAnalysis.SimulateAggregateAnnualData | detailed_analysis.py:16-41 | one entry per year of the data, no year twice, in strictly ascending year order; each holds `round(x * 10) / 10` (Python half-to-even) of the year's mean maximum, mean minimum and their difference, plus the year's record count |
| DetailedAnalysis.YearEntries | detailed_analysis.py:29-39 | the `yearly_data.items()` loop makes one entry per year in first-seen order, each summarising that year |
| DetailedAnalysis.YearEntry | detailed_analysis.py:30-39 | an entry is the rounded `sum / len` of the year's maxima and minima, their rounded difference, and the count |
| DetailedAnalysis.SortByYear | detailed_analysis.py:41 | `sorted(result, key=year)` is a permutation of the entries, ordered by year |
| DetailedAnalysis.SortedSummaries | detailed_analysis.py:41 | sorting entries with distinct years gives strictly ascending years and keeps every year's entry |
| DetailedAnalysis.SimulationAgreesOffTies | detailed_analysis.py:35-37 | off a rounding tie, the Python re-run agrees with the TypeScript `aggregateAnnualData` on every field |
| DetailedAnalysis.SimulationDiffersOnTie | detailed_analysis.py:35 | on a tie they differ: maxima 0.2 and 0.3 give 0.2 in Python (half to even) and 0.3 in TypeScript (`Math.round`) |
| DetailedAnalysis.ProblemYears | detailed_analysis.py:51-64 | `problem_years` is the years of the entries with fewer than 300 records, in entry order |
| DetailedAnalysis.ProblemYearsShape | detailed_analysis.py:61-64 | a year is listed exactly when some entry of it has fewer than 300 records; on the sorted result the list ascends. The list comprehension of line 97 uses the same filter |
| DetailedAnalysis.FilterKeepsIncreasing | detailed_analysis.py:97 | filtering a year-ascending list keeps it ascending and adds no entries |
| DetailedAnalysis.RangeWithout | detailed_analysis.py:81-83 | `sorted(set(range(lo, hi + 1)) - present)`: holds exactly the years of the range not present, strictly ascending |
| DetailedAnalysis.MissingYearsShape | detailed_analysis.py:77-84 | a year is listed exactly when it lies strictly between some present years and is not present itself; ascending |
| DetailedAnalysis.TargetMissing | detailed_analysis.py:87-89 | `target_missing` holds exactly the years of 1936–2024 that have no entry |
| DetailedAnalysis.ExtremeTemps | detailed_analysis.py:104-109 | the loop produces `ExtremesOf` the entries |
| DetailedAnalysis.ExtremesShape | detailed_analysis.py:104-109 | an entry is listed exactly when its mean maximum is above 35 or below 15, or its mean minimum is above 25 or below 0; the list is as long as those two tests' hits added, so an entry failing both appears twice |
| DetailedAnalysis.ExtremeListedTwice | detailed_analysis.py:106-109 | an entry with mean maximum 40 and mean minimum 30 is appended twice |
| DetailedAnalysis.LastN | detailed_analysis.py:150 | `s[-10:]` has ten elements, or all of them when there are fewer |
| DetailedAnalysis.TenBounded | detailed_analysis.py:149 | dividing the sum of ten values by 10 stays within their bounds |
| DetailedAnalysis.DecadeMeansBounded | detailed_analysis.py:149-150 | with at least ten years, `early_max` and `late_max` lie within the bounds of the years' mean maxima |
| DetailedAnalysis.ShortSeriesDecades | detailed_analysis.py:149-151 | with fewer than ten years, both slices are the whole series: `early_max` equals `late_max`, the increase is 0, and both are the sum divided by 10, not by the count |
| DataProcessor.AnnualEntry | src/lib/data-processor.ts:59-68 | a year's entry is `Math.round(x * 10) / 10` of its mean maximum, mean minimum and their difference; the rounded difference is within 0.1 of the difference of the rounded means |
| DataProcessor.Interpolate | src/lib/data-processor.ts:24-33 | the interpolated entry has the missing year and one-decimal values |
| DataProcessor.LerpBetween | src/lib/data-processor.ts:29 | `prev + (next - prev) * ratio` with a ratio in [0, 1] lies between `prev` and `next` |
| DataProcessor.Round1KeepsBetween | src/lib/data-processor.ts:29 | rounding to one decimal keeps a value between two one-decimal bounds |
| DataProcessor.InterpolateBetween | src/lib/data-processor.ts:24-32 | for a year strictly between its neighbours, the interpolated maximum and minimum lie between the neighbours' values, and the difference is within 0.1 of theirs |
| DataProcessor.RatioInUnit | src/lib/data-processor.ts:25 | `(year - prev.year) / yearDiff` lies in [0, 1] |
| DataProcessor.FillUpTo | src/lib/data-processor.ts:14-36 | the first `n` years of the filled series are the consecutive years from `startYear` |
| DataProcessor.Span | src/lib/data-processor.ts:10-14 | the loop runs at least once, from `startYear` to `endYear` |
| DataProcessor.SortedYearEnds | src/lib/data-processor.ts:9-11 | in the sorted data `startYear <= endYear` |
| DataProcessor.SortByYearEnds | src/lib/data-processor.ts:9-11 | after `sort((a, b) => a.year - b.year)` the first year is at most the last |
| DataProcessor.FillMissingYearsSpecNonEmpty | src/lib/data-processor.ts:7-38 | on non-empty data `fillMissingYears` runs the year loop over the sorted data from its first to its last year |
| DataProcessor.FillStepRecorded | src/lib/data-processor.ts:15-17 | a year found with `find(d => d.year === year)` is pushed as it is |
| DataProcessor.FillStepGap | src/lib/data-processor.ts:19-33 | for a year with no entry, `prevData` and `nextData` both exist, `prevData` is earlier than `nextData`, and the interpolated entry is pushed; the `if (prevData && nextData)` guard is never false |
| DataProcessor.FillMissingYears | src/lib/data-processor.ts:6-39 | the loop computes `FillMissingYearsSpec` |
| DataProcessor.FillSortedYears | src/lib/data-processor.ts:12-38 | the year loop over sorted data computes `FillUpTo` over the whole span |
| DataProcessor.FillUpToPrefix | src/lib/data-processor.ts:14 | later iterations only append, so earlier entries stay |
| DataProcessor.FillKeepsRecordedYear | src/lib/data-processor.ts:15-17 | a year with an entry gets the first entry of that year |
| DataProcessor.FillInterpolatesGap | src/lib/data-processor.ts:19-33 | a year without an entry is not the first; it gets the interpolation between the entry before it and the first later entry |
| DataProcessor.FillOnGrid | src/lib/data-processor.ts:27-33 | when the input values are one-decimal, so are all filled values |
| DataProcessor.FillKeepsYear | src/lib/data-processor.ts:14-17 | in the loop from `startYear` to `endYear`, a year that `find` locates gets exactly that entry, at its year's position |
| DataProcessor.FillInterpolatesYear | src/lib/data-processor.ts:19-33 | a year that `find` misses is interpolated between the previous pushed entry and the first later entry, which is later than that previous entry |
| DataProcessor.FillGapValuesBetween | src/lib/data-processor.ts:19-33 | for one-decimal data, an interpolated year's maximum and minimum lie between those of the previous pushed entry and of `nextData`, and its difference is within 0.1 of theirs |
| DataProcessor.AnnualEntryOf | src/lib/data-processor.ts:59-68 | the entry of a year of the data has that year and one-decimal values |
| DataProcessor.AnnualEntryOfGroup | src/lib/data-processor.ts:47-68 | a year of the data has a non-empty group, and its entry averages that group |
| DataProcessor.YearEntries | src/lib/data-processor.ts:57-69 | one entry per year, in the `Map`'s first-seen order |
| DataProcessor.AggregateAnnualData | src/lib/data-processor.ts:44-73 | the `Map`, `forEach`, sort and fill compute `AnnualSeries` |
| DataProcessor.SortedEntryIsYearEntry | src/lib/data-processor.ts:71 | every sorted entry is the entry of a year of the data |
| DataProcessor.YearEntryFound | src/lib/data-processor.ts:15 | `find` over the sorted entries finds a year exactly when it is a year of the data, and finds its entry |
| DataProcessor.SortedYearEntries | src/lib/data-processor.ts:71 | the sorted entries ascend strictly by year, one per year |
| DataProcessor.AnnualSeriesEmpty | src/lib/data-processor.ts:7 | the annual series is empty exactly when there are no records |
| DataProcessor.SortedYearBounds | src/lib/data-processor.ts:10-11 | every entry of the sorted data lies between `startYear` and `endYear` |
| DataProcessor.YearEntryPresent | src/lib/data-processor.ts:47-55 | every record's year is a key, and its entry is among the year entries |
| DataProcessor.FillMissingYearsRange | src/lib/data-processor.ts:6-39 | on non-empty input the filled series covers consecutive years, from the input's first year to its last, and every input year lies within it |
| DataProcessor.AnnualSeriesContiguous | src/lib/data-processor.ts:44-73 | the annual series of non-empty data is one entry per consecutive year, from the first to the last year with records |
| DataProcessor.NextRecordedEntry | src/lib/data-processor.ts:15-21 | for a year of the span with no records, `find(d => d.year > year)` over the sorted year entries succeeds with the entry of the least later year with records |
| DataProcessor.FilledKeepsRecordedYear | src/lib/data-processor.ts:14-17 | in the filled series, a year with records sits at its year's position and holds that year's averaged entry |
| DataProcessor.FilledGapBetween | src/lib/data-processor.ts:19-33 | a year of the span with no records is not the first; a later position holds the next year with records, nothing recorded lies between them, and the gap's values lie between its neighbours' |
| DataProcessor.AnnualSeriesKeepsRecordedYear | src/lib/data-processor.ts:44-72 | `aggregateAnnualData` puts every year with records at its year's position, holding the rounded means of that year's records |
| DataProcessor.AnnualSeriesGapBetween | src/lib/data-processor.ts:14-72 | every year of `aggregateAnnualData` without records is interpolated: a later entry is the next recorded year's own entry, no year with records lies between, and the maximum and minimum lie between the previous and next entries' values, the difference within 0.1 |
| DataProcessor.MonthName | src/lib/data-processor.ts:100 | `monthNames[month - 1]` is defined exactly for the months 1 to 12 |
| DataProcessor.MonthNameText | src/lib/data-processor.ts:80 | the name of month `m` is `m` followed by `月` |
| DataProcessor.MonthlyEntry | src/lib/data-processor.ts:94-104 | a month's entry carries the month, its name and the rounded means and difference |
| DataProcessor.MonthlyEntryOf | src/lib/data-processor.ts:94-104 | the entry of a month of the data carries that month |
| DataProcessor.MonthEntries | src/lib/data-processor.ts:92-105 | one entry per month, in first-seen order |
| DataProcessor.AggregateMonthlyData | src/lib/data-processor.ts:78-108 | the `Map`, `forEach` and sort compute `MonthlySeries` |
| DataProcessor.MonthEntriesDistinct | src/lib/data-processor.ts:79-90 | no two month entries share a month |
| DataProcessor.MonthEntryIsMonthEntryOf | src/lib/data-processor.ts:94-104 | every entry is the entry of a month of the data |
| DataProcessor.MonthEntryPresent | src/lib/data-processor.ts:82-90 | every record's month has an entry |
| DataProcessor.MonthEntriesArranged | src/lib/data-processor.ts:107 | any arrangement of the entries holds only entries of months of the data |
| DataProcessor.MonthEntriesCover | src/lib/data-processor.ts:107 | any arrangement of the entries covers every record's month |
| DataProcessor.MonthlySeriesAscending | src/lib/data-processor.ts:107 | the monthly series ascends strictly by month |
| DataProcessor.MonthsFromKeys | src/lib/data-processor.ts:107 | strictly increasing month keys mean strictly increasing months |
| DataProcessor.MonthlySeriesShape | src/lib/data-processor.ts:78-108 | one entry per month of the data, strictly ascending, each the average of its month; every record's month appears |
| DataProcessor.GetMonthlyDataForYear | src/lib/data-processor.ts:203-206 | the monthly series of the given year's records |
| DataProcessor.MonthlyDataForYearOnlyThatYear | src/lib/data-processor.ts:203-206 | each entry averages only records of that year and month |
| DataProcessor.MonthlyYearlyEntry | src/lib/data-processor.ts:130-141 | a year's entry for the target month carries the year, the month, its name and the rounded means and difference |
| DataProcessor.MonthlyYearlyEntryOf | src/lib/data-processor.ts:130-141 | the entry of a year with records in the target month carries that year and month |
| DataProcessor.MonthYearEntries | src/lib/data-processor.ts:128-142 | one entry per year of the month's records, in first-seen order |
| DataProcessor.AggregateMonthlyYearlyData | src/lib/data-processor.ts:113-145 | the filter, `Map`, `forEach` and sort compute `MonthlyYearlySeries` |
| DataProcessor.MonthYearEntriesDistinct | src/lib/data-processor.ts:115-126 | no two entries share a year |
| DataProcessor.YearsFromKeys | src/lib/data-processor.ts:144 | strictly increasing year keys mean strictly increasing years |
| DataProcessor.MonthlyYearlySeriesAscending | src/lib/data-processor.ts:144 | the series ascends strictly by year |
| DataProcessor.MonthYearEntryIsEntryOf | src/lib/data-processor.ts:130-141 | every entry is the entry of a year with records in the month |
| DataProcessor.MonthYearEntriesArranged | src/lib/data-processor.ts:144 | any arrangement of the entries holds only entries of the target month and its years |
| DataProcessor.MonthRecordYear | src/lib/data-processor.ts:118-120 | a record of the target month makes its year a key |
| DataProcessor.MonthYearEntryPresent | src/lib/data-processor.ts:118-126 | every record of the target month has its year's entry |
| DataProcessor.MonthYearEntriesCover | src/lib/data-processor.ts:144 | any arrangement of the entries covers every year of the month's records |
| DataProcessor.MonthlyYearlySeriesShape | src/lib/data-processor.ts:113-145 | one entry per year with records in the target month, strictly ascending by year, each the average of that month's records of its year |
| DataProcessor.MonthlyYearlyGroupMembers | src/lib/data-processor.ts:118-124 | a year's group holds exactly the records of the target month and that year |
| DailyAggregation.PrefixDays | src/lib/data-processor.ts:172 | the days of the first `m` months of the fixed calendar; never negative |
| DailyAggregation.PrefixDaysMonotone | src/lib/data-processor.ts:171-195 | later months start no earlier |
| DailyAggregation.CommonYearLength | src/lib/data-processor.ts:172 | the fixed calendar has 365 days |
| DailyAggregation.DayOfYear | src/lib/data-processor.ts:168-193 | the `dayOfYear` counter at a date lies within that date's month of the fixed calendar |
| DailyAggregation.DailyEntry | src/lib/data-processor.ts:182-190 | an entry carries its position, month, day, the label `month/day` and the rounded means; the rounded difference is within 0.1 of the difference of the rounded means |
| DailyAggregation.DayGroupsShape | src/lib/data-processor.ts:153-165 | every group of the `Map` is non-empty, and a date is a key exactly when some kept record has it |
| DailyAggregation.DayGroupsOfGroupBy | src/lib/data-processor.ts:151-165 | the `forEach` grouping builds `DayGroups` |
| DailyAggregation.EntryIn | src/lib/data-processor.ts:176-190 | the entry of a date with records has that date's position, month, day and label |
| DailyAggregation.DailyEntryAverages | src/lib/data-processor.ts:176-190 | a date's entry averages the group of that date's records |
| DailyAggregation.MonthEntriesTo | src/lib/data-processor.ts:174-194 | up to day `d` of a month, at most `d` entries are pushed |
| DailyAggregation.EntriesThrough | src/lib/data-processor.ts:171-195 | through month `m`, at most as many entries as the calendar has days |
| DailyAggregation.MonthEntriesToStep | src/lib/data-processor.ts:175-191 | day `d` adds its entry exactly when it has a group, and nothing otherwise |
| DailyAggregation.AggregateDailyData | src/lib/data-processor.ts:150-198 | `aggregateDailyData` computes `DailySeries` |
| DailyAggregation.WalkCalendar | src/lib/data-processor.ts:167-197 | the nested month and day loops, with `dayOfYear++` on every calendar day, compute `EntriesThrough` all twelve months |
| DailyAggregation.MonthEntriesToOwnDates | src/lib/data-processor.ts:174-191 | every entry pushed for a month is its own date's entry |
| DailyAggregation.MonthEntriesToPositions | src/lib/data-processor.ts:174-193 | the positions pushed in a month increase strictly and lie within that month |
| DailyAggregation.MonthEntriesToCovers | src/lib/data-processor.ts:174-191 | every day of the month with records gets an entry |
| DailyAggregation.EntriesThroughOwnDates | src/lib/data-processor.ts:171-195 | every entry is its own date's entry |
| DailyAggregation.EntriesThroughPositions | src/lib/data-processor.ts:171-195 | positions increase strictly and lie within the months walked |
| DailyAggregation.EntriesThroughCovers | src/lib/data-processor.ts:171-195 | every calendar date of the months walked that has records gets an entry |
| DailyAggregation.DayOfYearOrder | src/lib/data-processor.ts:168-193 | positions are at most 365, and one date is earlier than another exactly when its position is smaller |
| DailyAggregation.DailySeriesShape | src/lib/data-processor.ts:150-198 | at most 365 entries; each is a calendar date with records, averaging them, never 29 February, at a position from 1 to 365; positions and dates strictly increase; a calendar date has an entry exactly when it has records |
| DailyAggregation.DailyGroupMembers | src/lib/data-processor.ts:155-164 | a date's entry averages exactly the records of that date, never those of 29 February |
| DailyAggregation.DayKeysOfRecord | src/lib/data-processor.ts:155 | a record's date is a key exactly when it is not 29 February |
| DailyAggregation.DailySeriesComplete | src/lib/data-processor.ts:171-191 | a record's date has an entry exactly when it is a date of the fixed calendar, so 29 February and impossible dates have none |
| TrendLine.MomentsUnfold | src/lib/data-processor.ts:213-216 | the running sums of a series are those of its prefix plus its last point |
| TrendLine.MomentsCount | src/lib/data-processor.ts:212 | the count in the sums is `n` |
| TrendLine.MomentsSnoc | src/lib/data-processor.ts:213-216 | appending a point adds it to the sums |
| TrendLine.LineFromMoments | src/lib/data-processor.ts:218-219 | no line exactly when `n·Σx² − (Σx)²` is 0; otherwise the slope satisfies `slope · denominator = n·Σxy − Σx·Σy` and the intercept `intercept · n = Σy − slope·Σx` |
| TrendLine.CalculateTrendLine | src/lib/data-processor.ts:211-222 | the line is defined exactly when the denominator is non-zero |
| TrendLine.DenominatorOfAdd | src/lib/data-processor.ts:218 | adding a point adds the squared distances of its year to the earlier years to the denominator |
| TrendLine.NormalEquations | src/lib/data-processor.ts:218-219 | the computed slope and intercept solve the least-squares normal equations, and the line passes through the mean point |
| TrendLine.LineOfOnLine | src/lib/data-processor.ts:218-219 | when all points lie on a line and the denominator is non-zero, that line is computed |
| TrendLine.SpreadNonNegative | src/lib/data-processor.ts:218 | the sum of squared year distances is never negative |
| TrendLine.DenominatorSnoc | src/lib/data-processor.ts:218 | the denominator grows by the new year's squared distances to the earlier years |
| TrendLine.DenominatorNonNegative | src/lib/data-processor.ts:218 | the denominator is never negative |
| TrendLine.DenominatorPositive | src/lib/data-processor.ts:218 | two different years make the denominator positive |
| TrendLine.DenominatorZero | src/lib/data-processor.ts:218 | a series of one year only gives a zero denominator, which the source divides by |
| TrendLine.TrendDefined | src/lib/data-processor.ts:218 | the slope is defined exactly when the series has two different years |
| TrendLine.ResidualsClosed | src/lib/data-processor.ts:213-219 | the sum of the residuals is a function of the running sums |
| TrendLine.WeightedResidualsClosed | src/lib/data-processor.ts:213-219 | so is the sum of year-weighted residuals |
| TrendLine.TrendIsLeastSquares | src/lib/data-processor.ts:211-222 | for a computed line, the residuals and the year-weighted residuals both sum to 0 (the least-squares conditions), and the line passes through the mean point |
| TrendLine.LineMoments | src/lib/data-processor.ts:213-216 | points on a line give sums that satisfy that line's equations |
| TrendLine.TrendOfExactLine | src/lib/data-processor.ts:211-222 | points exactly on a line, with two different years, give back that line |
| ChartCommon.Bucket | src/components/charts/HotDaysChart.tsx:50-58 | a maximum of at least 35 is an extreme-hot day, 30 up to 35 a very hot day, 25 up to 30 a summer day, below 25 none; each condition is an if-and-only-if |
| ChartCommon.BucketCounts | src/components/charts/HotDaysChart.tsx:50-58 | the three bucket counts add up to the number of records with a maximum of at least 25, which is at most the number of records |
| ChartCommon.CountBuckets | src/components/charts/HotDaysChart.tsx:46-58 | the three counters equal the numbers of the year's records in each bucket |
| ChartCommon.CountTropicalNights | src/components/charts/TropicalNightsChart.tsx:44-50 | the counter equals the number of the year's records with a minimum of at least 25, at most the number of records |
| ChartCommon.ByYearTextTotalPreorder | src/components/charts/HotDaysChart.tsx:42 | comparing years by their decimal text, as `.sort()` without a comparator does, is a total preorder |
| ChartCommon.ChartYearsShape | src/components/charts/HotDaysChart.tsx:42 | the year list holds exactly the years that have records, each once, sorted by decimal text |
| ChartCommon.FourDigits | src/components/charts/HotDaysChart.tsx:42 | a year from 1000 to 9999 is written with four digits |
| ChartCommon.ChartYearsAscending | src/components/charts/TropicalNightsChart.tsx:40 | when every year has four digits, the text order is the numeric order and the year list strictly ascends |
| ChartCommon.ErasOverlap | src/components/charts/HotDaysChart.tsx:193-196 | the era filters overlap: 1989 is in both Shōwa and Heisei, 2019 in both Heisei and Reiwa, and those are the only shared years |
| ChartCommon.EraCounts | src/components/charts/TropicalNightsChart.tsx:176-179 | the filtered counts are empty exactly when no year lies in the era, and are never negative |
| ChartCommon.EraCountsOfEraYears | src/components/charts/HotDaysChart.tsx:193-196 | the era's counts are exactly the counts of the years in that era: each one comes from such a year, and each such year's count is there |
| ChartCommon.EraAverage | src/components/charts/HotDaysChart.tsx:198-202 | the average is 0 for an era with no years; otherwise it lies between the smallest and the largest count of the era |
| ChartCommon.EraAverageBounded | src/components/charts/TropicalNightsChart.tsx:181-195 | when every year of a non-empty era has a count between two bounds, the era's average lies between them too |
| ChartCommon.Window | src/components/charts/TropicalNightsChart.tsx:60-62 | the window is the slice from `max(0, i - before)` to `min(n, i + after + 1)`; it holds the entry itself and at most `before + after + 1` entries |
| ChartCommon.MovingAverage | src/components/charts/TropicalNightsChart.tsx:59-64 | there is one value per input, and each lies between the smallest and the largest value of its window |
| ChartCommon.MovingAverageAt | src/components/charts/TropicalNightsChart.tsx:63 | entry `i` is the mean of its window |
| ChartCommon.MovingAverageNonNegative | src/components/charts/TropicalNightsChart.tsx:59-64 | the moving average of non-negative counts is never negative |
| ChartCommon.WindowOfConstant | src/components/charts/TropicalNightsChart.tsx:62-63 | a window of a constant series averages to that constant |
| ChartCommon.MovingAverageOfConstant | src/components/charts/TropicalNightsChart.tsx:59-64 | a constant series is its own moving average |
| HotDays.HotDaysEntry | src/components/charts/HotDaysChart.tsx:45-65 | the entry is for the given year, and its three counts together are at most the year's number of records |
| HotDays.YearEntry | src/components/charts/HotDaysChart.tsx:45-65 | one pass of the per-year loop builds exactly that year's entry |
| HotDays.HotDaysStats | src/components/charts/HotDaysChart.tsx:41-66 | one entry per year of the year list, in its order, each the entry of that year |
| HotDays.EntriesFor | src/components/charts/HotDaysChart.tsx:44-66 | for any list of years, the pushed entries are one per year, in the list's order, each the bucket counts of that year |
| HotDays.Years | src/components/charts/HotDaysChart.tsx:179 | the years of the entries, position by position |
| HotDays.HotDaysStatsShape | src/components/charts/HotDaysChart.tsx:41-66 | the entries' years are the year list: exactly the years with records, each once; every entry's counts fit in its year's records |
| HotDays.TooltipTotal | src/components/charts/HotDaysChart.tsx:179-184 | the tooltip finds nothing exactly when no entry has that year |
| HotDays.TooltipTotalOfYear | src/components/charts/HotDaysChart.tsx:179-182 | for distinct years, the tooltip for an entry's year shows that entry's extreme-hot, very hot and summer days added up |
| HotDays.EraHotDays | src/components/charts/HotDaysChart.tsx:193-220 | all three averages are 0 for an era that has no years |
| HotDays.EraHotDaysBounded | src/components/charts/HotDaysChart.tsx:198-220 | when every year of a non-empty era has each bucket count between two bounds, each of the era's three averages lies between them |
| TropicalNights.TropicalEntry | src/components/charts/TropicalNightsChart.tsx:43-55 | the entry is for the given year, and its count is at most the year's number of records |
| TropicalNights.YearEntry | src/components/charts/TropicalNightsChart.tsx:43-55 | one pass of the per-year loop builds exactly that year's entry |
| TropicalNights.TropicalNightsStats | src/components/charts/TropicalNightsChart.tsx:39-56 | one entry per year of the year list, in its order, each the entry of that year |
| TropicalNights.EntriesFor | src/components/charts/TropicalNightsChart.tsx:42-56 | for any list of years, the pushed entries are one per year, in the list's order, each the tropical-night count of that year |
| TropicalNights.Years | src/components/charts/TropicalNightsChart.tsx:164 | the years of the entries, position by position |
| TropicalNights.Counts | src/components/charts/TropicalNightsChart.tsx:63 | the counts of the entries, position by position |
| TropicalNights.TropicalNightsStatsShape | src/components/charts/TropicalNightsChart.tsx:39-56 | the entries' years are the year list: exactly the years with records, each once; every count fits in its year's records |
| TropicalNights.MovingAverage10At | src/components/charts/TropicalNightsChart.tsx:59-64 | the ten-year average has one value per year; value `i` averages the slice from `max(0, i - 4)` to `min(n, i + 6)`, at most ten years, lies within that slice's bounds and is never negative |
| TropicalNights.TooltipNights | src/components/charts/TropicalNightsChart.tsx:164-168 | the tooltip finds nothing exactly when no entry has that year |
| TropicalNights.TooltipNightsOfYear | src/components/charts/TropicalNightsChart.tsx:164-166 | for distinct years, the tooltip for an entry's year shows that entry's count |
| TropicalNights.EraTropicalNights | src/components/charts/TropicalNightsChart.tsx:176-195 | the era average is 0 for an era without years, and never negative |
| TropicalNights.EraTropicalNightsBounded | src/components/charts/TropicalNightsChart.tsx:181-195 | when every year of a non-empty era has a count between two bounds, the era's average lies between them |
| TemperatureRankings.Abs | src/components/charts/TemperatureRankings.tsx:45 | `Math.abs`: never negative, and either the value or its negation |
| TemperatureRankings.OverallAvgMax | src/components/charts/TemperatureRankings.tsx:36 | the mean of all the daily maxima lies between the smallest and the largest of them |
| TemperatureRankings.YearRecords | src/components/charts/TemperatureRankings.tsx:39 | for a year that has records, the filter keeps exactly that year's records and is not empty |
| TemperatureRankings.YearEntry | src/components/charts/TemperatureRankings.tsx:39-55 | the entry's averages are the means of the year's maxima and minima, within their bounds; the extreme-hot and tropical counts fit in the year's records; the range is the average maximum minus the average minimum; the deviation is the absolute difference from the overall mean |
| TemperatureRankings.RankingYearlyStats | src/components/charts/TemperatureRankings.tsx:32-56 | one entry per year of the year list, in its order, each that year's entry |
| TemperatureRankings.TopListOf | src/components/charts/TemperatureRankings.tsx:67-68 | sorting by a total preorder and keeping the first `n` gives a top-`n` list: as long as it can be, in order, drawn from the input, and nothing left out goes before anything kept |
| TemperatureRankings.DailyMaxRecordsShape | src/components/charts/TemperatureRankings.tsx:59-68 | the daily records are the ten hottest days, hottest first, and no day left out was hotter |
| TemperatureRankings.DailyMinRecordsShape | src/components/charts/TemperatureRankings.tsx:70-79 | the nightly records are the ten coldest nights, coldest first, and no day left out was colder |
| TemperatureRankings.FillMonths | src/components/charts/TemperatureRankings.tsx:85-109 | the month loop writes keys 1 to 12 and no others, each with its month's value |
| TemperatureRankings.MonthlyRecords | src/components/charts/TemperatureRankings.tsx:82-109 | both dictionaries have exactly the keys 1 to 12, each holding that month's top five |
| TemperatureRankings.MonthRecordsOfMonth | src/components/charts/TemperatureRankings.tsx:86-95 | every record built from a month's days belongs to that month |
| TemperatureRankings.MonthlyMaxShape | src/components/charts/TemperatureRankings.tsx:86-97 | up to five of the month's days, hottest first, no hotter day left out, all of that month |
| TemperatureRankings.MonthlyMinShape | src/components/charts/TemperatureRankings.tsx:99-108 | up to five of the month's nights, coldest first, no colder night left out, all of that month |
| TemperatureRankings.RankingView | src/components/charts/TemperatureRankings.tsx:151-152 | a view is the top ten by its key; the in-place sort leaves a permutation of the list, ordered by that key, and the view is the first ten of the stable sort |
| TemperatureRankings.YearlyRankings | src/components/charts/TemperatureRankings.tsx:151-200 | each of the four views is the top ten of all the years by its own key; each is the first ten of the stable sort of the list the previous view left, so tied years keep that order; the list ends up ordered by the average minimum |
| TemperatureRankings.AnomalyRankings | src/components/charts/TemperatureRankings.tsx:296-321 | the deviation and temperature-range views are the top ten by their keys; the range view is the first ten of the stable sort of the list the deviation sort left, so tied years keep that order; the list ends up ordered by range |
| YearComparison.ByMonthDayTotalPreorder | src/components/charts/YearComparisonChart.tsx:48-51 | ordering by month, then day, is a total preorder |
| YearComparison.YearDataShape | src/components/charts/YearComparisonChart.tsx:44-51 | the selected year's records (of the selected month, when one is chosen) are kept as often as the input holds them, nothing else is kept, and they come in calendar order |
| YearComparison.NormalPeriodMembers | src/components/charts/YearComparisonChart.tsx:54-56 | the baseline period holds every record in 145-year mode, and exactly the records from 1995 to 2024 in 30-year mode |
| YearComparison.FieldsOfKey | src/components/charts/YearComparisonChart.tsx:62 | a two-character field, a dash and a second field can be read back apart |
| YearComparison.MonthDayKeyInjective | src/components/charts/YearComparisonChart.tsx:62 | for months and days of at most two digits, two records get the same `MM-DD` key exactly when they share month and day |
| YearComparison.SameGroupsAsStringKey | src/components/charts/YearComparisonChart.tsx:61-67 | grouping by the `MM-DD` string gathers the same records as grouping by the (month, day) pair |
| YearComparison.SampleStatistics | src/components/charts/YearComparisonChart.tsx:73-88 | the loop makes an entry exactly for each key with a non-empty sample, holding that sample's mean and population variance |
| YearComparison.Baseline | src/components/charts/YearComparisonChart.tsx:58-88 | there is a mean and a variance for exactly the days that have baseline records, and each is the statistic of that day's sample |
| YearComparison.BaselineKeysMembers | src/components/charts/YearComparisonChart.tsx:61-67 | a day has a baseline exactly when some record of the baseline period falls on that month and day |
| YearComparison.SingleSampleVariance | src/components/charts/YearComparisonChart.tsx:77-82 | a day with a single baseline record has that record as its mean and a standard deviation of 0 |
| YearComparison.NormalOf | src/components/charts/YearComparisonChart.tsx:93-96 | `averageNormalValues[key] \|\| 0`: the day's mean when it has one, 0 otherwise |
| YearComparison.NormalSeries | src/components/charts/YearComparisonChart.tsx:93-96 | one normal value per selected day, in order |
| YearComparison.TempDifference | src/components/charts/YearComparisonChart.tsx:107-110 | there is no difference exactly when the day has no mean or its mean is exactly 0; otherwise the difference is the maximum minus the mean |
| YearComparison.TempDifferences | src/components/charts/YearComparisonChart.tsx:107-110 | one entry per selected day, in order |
| YearComparison.Present | src/components/charts/YearComparisonChart.tsx:380 | the non-null differences: each present value as often as it occurs, and as many values as there are non-null entries |
| YearComparison.PresentAppend | src/components/charts/YearComparisonChart.tsx:380 | the filter keeps the days' order: the present values of two runs of days are those of the first run followed by those of the second |
| YearComparison.AvgDifference | src/components/charts/YearComparisonChart.tsx:381-383 | 0 when no difference is present; otherwise between the smallest and the largest difference |
| YearComparison.MovingAverage7At | src/components/charts/YearComparisonChart.tsx:99-104 | one value per selected day; value `i` averages the maxima from `max(0, i - 3)` to `min(n, i + 4)`, between one and seven days, and lies within their bounds |
| YearComparison.Runs | src/components/charts/YearComparisonChart.tsx:155-174 | there are no runs exactly when there are no days; the last run ends on the last day, with that day's month |
| YearComparison.RunsPartition | src/components/charts/YearComparisonChart.tsx:155-174 | the runs cover the days in order without gaps, each run one month, and neighbouring runs have different months |
| YearComparison.RunsOfExtend | src/components/charts/YearComparisonChart.tsx:156 | a day of the last run's month extends that run |
| YearComparison.RunsOfNew | src/components/charts/YearComparisonChart.tsx:156-165 | a day of another month starts a new run |
| YearComparison.RunsStep | src/components/charts/YearComparisonChart.tsx:155-167 | how the runs grow by one day: the last run is extended, or a new one is added |
| YearComparison.BandsOpen | src/components/charts/YearComparisonChart.tsx:164-165 | the first day opens the first run, with nothing pushed yet |
| YearComparison.BandsExtend | src/components/charts/YearComparisonChart.tsx:156 | a day of the open run's month leaves the state as it is |
| YearComparison.BandsClose | src/components/charts/YearComparisonChart.tsx:157-165 | a day of another month pushes a boundary half an index before it and the closed run, then opens a run at that day |
| YearComparison.BandsFinish | src/components/charts/YearComparisonChart.tsx:169-174 | pushing the open run after the last day gives all the runs, with one boundary before each run but the first |
| YearComparison.MonthBands | src/components/charts/YearComparisonChart.tsx:149-174 | when no month is 0, the ranges are the runs of equal months and a boundary sits half an index before each run but the first; each center belongs to its range |
| YearComparison.CompareDay | src/components/charts/YearComparisonChart.tsx:413-437 | each counter goes up by one exactly when the day falls in its class |
| YearComparison.ComparisonStep | src/components/charts/YearComparisonChart.tsx:403-438 | one more day adds one to a class's count exactly when that day is in the class |
| YearComparison.DayStatistics | src/components/charts/YearComparisonChart.tsx:396-438 | `total` is the number of selected days; each bucket counter and each comparison counter is the number of days in its class |
| YearComparison.ComparisonCountsAddUp | src/components/charts/YearComparisonChart.tsx:418-437 | above, below and equal split the compared days, at most all the selected days; the 2σ days are among the days above and below |
| YearComparison.TemperatureCountsBound | src/components/charts/YearComparisonChart.tsx:405-411 | the three hot-day counts together are at most the number of selected days |
| YearComparison.TwoSigmaClasses | src/components/charts/YearComparisonChart.tsx:427-433 | with the standard deviation the root of the variance, the squared tests agree with `diff >= 2 * stdDev` and `diff <= -2 * stdDev` |
| YearComparison.ComparedDays | src/components/charts/YearComparisonChart.tsx:415-419 | a day is compared exactly when the baseline period has a record on its month and day |
| YearComparison.Top3Shape | src/components/charts/YearComparisonChart.tsx:441-449 | min(3, n) days, hottest first, taken from the selected days, and no day left out is hotter than a day kept |
| Forecast.MaxCelsius | src/app/weather/page.tsx:171 | `temperature?.max?.celsius` is present exactly when the temperature, its maximum and the maximum's `celsius` are all present |
| Forecast.MinCelsius | src/app/weather/page.tsx:172 | the same for the minimum |
| Forecast.GetWeatherInfo | src/app/weather/page.tsx:13-19 | the label is the telop; the icon is 天気 exactly when the telop contains none of 晴, 曇, 雨 and 雪, and otherwise is one character that the telop contains |
| Forecast.WeatherIconIsFirstMatch | src/app/weather/page.tsx:14-18 | the icon is the first of 晴, 曇, 雨, 雪, in test order, that the telop contains, or 天気 when there is none |
| Forecast.RecordKey | src/app/weather/page.tsx:73-79 | the key is "" exactly when the date does not split on `/` into three parts; otherwise it is the second and third parts, each padded to two characters, joined by `-` |
| Forecast.RecordKeyOfDate | src/app/weather/page.tsx:73-79 | a record date written `y/m/d` gives the key `MM-dd` |
| Forecast.ForecastKeyOfDate | src/app/weather/page.tsx:116 | a forecast date written `yyyy-MM-dd` gives the key `MM-dd` through its two slices |
| Forecast.RecordAndForecastKeysAgree | src/app/weather/page.tsx:108-117 | a record and a forecast with the same month and day get the same key, so the forecast finds that day's records |
| Forecast.HistoricalByDate | src/app/weather/page.tsx:108-113 | the dictionary has exactly the keys of the records, and each key holds its records in input order |
| Forecast.HistoricalBucketsCoverAll | src/app/weather/page.tsx:108-113 | every record lies in the bucket of its own key, and the bucket sizes add up to the number of records |
| Forecast.GetHistoricalData | src/app/weather/page.tsx:115-121 | `count` is the number of records under the forecast's key; both averages are `null` exactly when there are none; otherwise each average lies between the smallest and the largest value it averages |
| Forecast.HistoricalOfGrouping | src/app/weather/page.tsx:108-121 | with the dictionary above, the averages are `null` exactly when no record has the forecast's key, and `count` is the number of records that do |
| Forecast.HistoricalAverages | src/components/WeekWeatherSection.tsx:107-113 | one entry per forecast date, in order, each that date's historical data |
| Forecast.TruthyTemp | src/app/weather/page.tsx:171-172 | nothing for a missing, `null` or empty `celsius`; otherwise its conversion |
| Forecast.NotNullTemp | src/app/week/page.tsx:119-122 | nothing only for a missing or `null` `celsius`; an empty string is converted too |
| Forecast.TempParsingsDiffer | src/app/week/page.tsx:119-122 | the two parsings of `celsius` differ on exactly one input, the empty string |
| Forecast.TropicalFlag | src/components/WeekWeatherSection.tsx:86 | a tropical night exactly when the minimum is known and at least 25 |
| Forecast.ToWeatherForecast | src/components/WeekWeatherSection.tsx:76-88 | the forecast keeps the date, parses both temperatures, defaults the telop to "", zeroes the code and anomalies, and flags a tropical night exactly when the minimum is at least 25 |
| Forecast.ConvertForecasts | src/components/WeekWeatherSection.tsx:76 | one converted forecast per API forecast, in order |
| Forecast.TempDiff | src/app/weather/page.tsx:175-178 | the difference is missing exactly when either side is missing; otherwise it is forecast minus history |
| Forecast.IsAbnormal | src/app/weather/page.tsx:181-182 | a difference is abnormal exactly when it is present and at least 2 |
| Forecast.AbnormalRulesAgree | src/components/WeekWeatherSection.tsx:135-136 | the week view's direct test agrees with the weather page's test on every input |
| Forecast.FiveTierLabel | src/app/weather/page.tsx:185-204 | exactly one of 猛暑日 (≥ 35), 真夏日 (30 to 35), 夏日 (25 to 30), 真冬日 (max ≤ 0), 冬日 (max between 0 and 25, min ≤ 0) or no label holds, each as an if-and-only-if |
| Forecast.ThreeTierLabel | src/components/WeekWeatherSection.tsx:139-154 | the card shows 猛暑日, 真夏日 or 夏日 by the same bounds, and no label below 25 or without a maximum |
| Forecast.ThreeTiersOfFive | src/components/WeekWeatherSection.tsx:139-154 | the card label is the five-tier label with the two winter tiers blanked out |
| Forecast.IsHeat | src/components/WeekWeatherSection.tsx:137 | `isHeat` holds exactly when the card label is 猛暑日 |
| Forecast.DetailModal | src/components/WeatherDetailModal.tsx:40-81 | nothing when closed; otherwise the parsed temperatures, their differences from history (missing exactly when a side is missing), the abnormal flags (difference at least 2), the five-tier label, and the warning shown exactly when either flag is set |
| Forecast.ModalForecast | src/components/WeekWeatherSection.tsx:227-237 | the forecast is passed on with its date, telop and temperatures; a missing detail becomes all `null`, missing chances of rain become "--%", and a missing image becomes empty strings |
| Forecast.SelectedModal | src/components/WeekWeatherSection.tsx:223-240 | the modal opens exactly when a selected index has an API forecast, with that day's historical data, or empty history past the end of the averages |
| Forecast.ChartRows | src/components/WeekWeatherSection.tsx:114-121 | one row per forecast; row `i` pairs forecast `i`'s temperatures with the historical averages of its own date |
| ForecastCache.FreshUntilExpiry | src/app/week/page.tsx:108 | a stored timestamp is fresh exactly when it is non-zero and less than an hour old, and what is fresh now was fresh at every earlier time |
| ForecastCache.WeekForecastCache.constructor | src/app/week/page.tsx:27-28 | both the cached forecasts and the timestamp start out `null` |
| ForecastCache.WeekForecastCache.Fetch | src/app/week/page.tsx:105-139 | a hit returns the cached forecasts and changes nothing; otherwise an OK response is converted, returned and cached with its timestamp, and a failed one gives the error message and leaves the cache alone |
| ForecastCache.FetchTwice | src/app/week/page.tsx:108-132 | after a successful fetch stored at a non-zero time, a second fetch within the hour returns the same forecasts from the cache; after the hour it goes to the network again |
| ForecastStore.DetailField | src/lib/weather-fetcher.ts:45-47 | `detail?.field` is missing when the detail is, and is that field otherwise |
| ForecastStore.RainField | src/lib/weather-fetcher.ts:41-44 | `chanceOfRain?.slot` is present exactly when the chances of rain are, and is then that slot |
| ForecastStore.BuildRow | src/lib/weather-fetcher.ts:31-50 | the row keeps the saved date, forecast date, label and telop; a temperature is `null` exactly when `celsius` is missing or empty and is its conversion otherwise; the row is a tropical night exactly when the minimum is at least 25; the four rain slots are present exactly when `chanceOfRain` is, each its own slot; weather, wind and wave are `null` without a detail and the detail's fields otherwise; the image URL is the image's |
| ForecastStore.BuildRows | src/lib/weather-fetcher.ts:30-79 | one row per forecast, in the API's order, all under the saved date |
| ForecastStore.AfterSave | src/lib/weather-fetcher.ts:27-79 | after a save, the table holds the earlier rows of other dates and the new batch, and nothing else |
| ForecastStore.SaveReplacesDate | src/lib/weather-fetcher.ts:27-30 | after a save for a date, the rows of that date are exactly the new batch, in its order |
| ForecastStore.SaveKeepsOtherDates | src/lib/weather-fetcher.ts:27 | the rows of every other date are untouched, in order |
| ForecastStore.SaveTwiceKeepsSecond | src/lib/weather-fetcher.ts:26-27 | two saves on the same day leave the table as the second save alone would |
| ForecastStore.WeatherForecastTable.constructor | src/lib/db.ts:21-42 | a newly created table has no rows |
| ForecastStore.WeatherForecastTable.Save | src/lib/weather-fetcher.ts:7-88 | a response that is not OK fails with its status and leaves the table as it was; otherwise the save succeeds for its date, and the table becomes the earlier rows of other dates followed by the new batch |
| ForecastStore.ByForecastDateTotalPreorder | src/lib/weather-fetcher.ts:98 | `ORDER BY forecast_date`, as text, is a total preorder |
| ForecastStore.RowsSavedOnShape | src/lib/weather-fetcher.ts:97-100 | the selection holds the rows saved on the date, as many times as the table does, ordered by forecast date |
| ForecastStore.LatestSavedDate | src/lib/weather-fetcher.ts:104-106 | `MAX(saved_date)` is `null` exactly when the table is empty |
| ForecastStore.LatestSavedDateIsMax | src/lib/weather-fetcher.ts:104-106 | the latest date is the date of some row, and no row's date is greater |
| ForecastStore.ChosenDate | src/lib/weather-fetcher.ts:95-116 | a truthy date argument is used as given; otherwise the latest saved date is used when it is truthy, and no date at all on an empty table |
| ForecastStore.SavedForecasts | src/lib/weather-fetcher.ts:91-121 | no rows when no date is chosen; otherwise the rows of the chosen date, by forecast date |
| ForecastStore.ReadAfterSave | src/lib/weather-fetcher.ts:27-100 | reading back the date just saved gives the batch, the same rows with the same counts, ordered by forecast date |
| ForecastStore.ByDateDescTotalPreorder | src/lib/weather-fetcher.ts:129 | `ORDER BY saved_date DESC`, as text, is a total preorder |
| ForecastStore.SavedDatesShape | src/lib/weather-fetcher.ts:124-135 | every saved date appears once, latest first, strictly descending |
| ForecastStore.IsoDateOrder | src/lib/weather-fetcher.ts:21 | dates written `yyyy-MM-dd` with four-digit years compare as text exactly as they compare as dates, so `MAX` and `ORDER BY` on them are chronological |
| ForecastStore.IsoDateFields | src/lib/weather-fetcher.ts:21 | `yyyy-MM-dd` is the year's four digits followed by `-MM-dd` |
| ForecastStore.MonthDayOrder | src/lib/weather-fetcher.ts:21 | `MM-dd` against `MM-dd` compares as text by month, then by day |
| Numeric.Mean | src/lib/data-processor.ts:60-61 | `sum / length` of a non-empty list lies between its smallest and largest element |
| Numeric.MeanOrZero | src/components/charts/HotDaysChart.tsx:199 | `length ? sum / length : 0`: 0 for an empty list, the mean otherwise |
| Numeric.MeanOfConstant | src/lib/data-processor.ts:60-61 | the mean of a constant list is that constant |
| Numeric.Round1 | src/lib/data-processor.ts:65 | `Math.round(x * 10) / 10` is a multiple of 0.1 within 0.05 of `x`, a half-way case going up |
| Numeric.Round1OfGrid | src/lib/data-processor.ts:65 | a multiple of 0.1 rounds to itself |
| Numeric.Round1Idempotent | src/lib/data-processor.ts:65 | rounding twice is rounding once |
| Numeric.Round1Monotone | src/lib/data-processor.ts:65-66 | rounding keeps the order of its inputs |
| Numeric.Round1Between | src/lib/data-processor.ts:29-30 | a value between two multiples of 0.1 rounds to a value between them |
| Numeric.Round1DiffWithin | src/lib/data-processor.ts:67 | the rounded difference is within 0.1 of the difference of the rounded values |
| Numeric.RoundHalfEven | detailed_analysis.py:35 | Python's `round` gives the nearest integer, and on a tie the even one |
| Numeric.PyRound1AgreesOffTies | detailed_analysis.py:35-37 | off the half-way cases, Python's `round(x * 10) / 10` agrees with `Math.round(x * 10) / 10` |
| Numeric.PyRound1DiffersOnTie | detailed_analysis.py:35 | on the tie 0.25 the two rules differ: 0.2 in Python, 0.3 in JavaScript |
| Numeric.Variance | src/components/charts/YearComparisonChart.tsx:81 | the population variance is never negative |
| Numeric.VarianceOfSingle | src/components/charts/YearComparisonChart.tsx:77-81 | a single value is its own mean and has variance 0 |
| Numeric.VarianceOfConstant | src/components/charts/YearComparisonChart.tsx:81 | a constant list has variance 0 |
| Numeric.TwoSigmaBySquares | src/components/charts/YearComparisonChart.tsx:82 | for a positive difference and a non-negative σ, `d >= 2σ` exactly when `d² >= 4σ²`, so the square root need not be taken |
| Strings.IntToString | src/components/charts/HotDaysChart.tsx:42 | an integer's decimal text: its digits, with a `-` for a negative one |
| Strings.NatToStringRoundTrip | src/components/charts/TemperatureRankings.tsx:61 | reading back the decimal text of a number gives the number |
| Strings.NatToStringOrder | src/components/charts/HotDaysChart.tsx:42 | numbers written with the same number of digits compare as text as they compare as numbers |
| Strings.NatToStringOrderAcrossLengths | src/components/charts/HotDaysChart.tsx:42 | across lengths they do not: "1000" sorts before "999" |
| Strings.StrLeTotal | src/components/charts/HotDaysChart.tsx:42 | any two strings are ordered one way or the other by character comparison (UTF-16 code units in JavaScript, code points in Python, the same on the Basic Multilingual Plane) |
| Strings.StrLeTransitive | src/components/charts/HotDaysChart.tsx:42 | string comparison is transitive |
| Strings.StrLeAntisymmetric | src/lib/weather-fetcher.ts:129 | two strings each at most the other are equal |
| Strings.StrLeDigits | src/lib/weather-fetcher.ts:105 | digit strings of one length compare as text as their values compare |
| Strings.PadStart | src/app/weather/page.tsx:76-77 | `padStart(width, fill)` is as long as the string or the width, whichever is larger |
| Strings.PadStartShape | src/app/weather/page.tsx:76-77 | the padded string ends with the original, after nothing but fill characters |
| Strings.PaddedTwoDigits | src/components/charts/YearComparisonChart.tsx:62 | a number below 100 padded to two characters is two digits that read back as the number |
| Strings.Slice | src/app/weather/page.tsx:116 | `s.slice(start, end)` is the substring when the bounds fit, and is clamped to the string otherwise |
| Strings.Split | update-data-final.py:30 | `split(',')` gives at least one part |
| Strings.SplitPiecesHaveNoSep | update-data-final.py:30 | no part contains the separator |
| Strings.JoinSplit | update-data-final.py:30 | joining the parts with the separator gives back the string |
| Strings.SplitJoin | src/app/weather/page.tsx:74 | splitting parts that do not contain the separator, once joined, gives back those parts |
| Strings.StripShape | update-data-final.py:26 | `strip()` neither starts nor ends with white space and is a piece of the line |
| Seqs.FilterMembers | src/components/charts/HotDaysChart.tsx:45 | `filter` keeps exactly the elements that pass the test |
| Seqs.FilterComplement | src/lib/data-processor.ts:155 | the elements that pass and those that fail add up to the whole list |
| Seqs.DistinctKeys | src/components/charts/HotDaysChart.tsx:42 | `new Set(...)` holds every key that occurs, once each |
| Seqs.GroupsPartition | src/lib/data-processor.ts:47-55 | a group holds each element of its key as often as the input does, and no other element |
| Seqs.GroupSizesSum | src/lib/data-processor.ts:47-55 | the groups' sizes add up to the number of elements |
| Seqs.GroupBy | src/lib/data-processor.ts:47-55 | the build-a-dictionary loop makes one group per key in first-seen order, each holding that key's elements in input order |
| Seqs.CountBy | update-data-final.py:138-141 | the counting loop gives each key that occurs the number of its elements |
| Seqs.FindFirst | src/components/charts/HotDaysChart.tsx:179 | `find` returns nothing exactly when no element passes, and otherwise an element that passes |
| Seqs.FindFirstIsFirst | src/components/charts/HotDaysChart.tsx:179 | the element found comes before every other element that passes |
| Sorting.SortBy | src/components/charts/TemperatureRankings.tsx:67 | a sort returns a permutation of its input |
| Sorting.SortBySorted | src/components/charts/TemperatureRankings.tsx:67 | with a total preorder the result is sorted |
| Sorting.SortByStable | update-data-final.py:99 | the sort is stable: elements that tie keep their input order |
| Sorting.Take | src/components/charts/TemperatureRankings.tsx:68 | `slice(0, n)` is a prefix of length `min(n, length)` |
| Sorting.TopN | src/components/charts/TemperatureRankings.tsx:67-68 | sorting and taking the first `n` gives `min(n, length)` sorted elements of the input, and nothing left out goes before what was kept |

## Left out

- Floating point: temperatures, means, variances and moving averages are exact reals. IEEE-754 rounding error and NaN are not modelled.
- Division by an empty count: a JavaScript mean of no values is `NaN`. The model returns `None` (`Numeric.MeanOrZero` gives 0 where the code falls back to 0). A precondition is used where the Python code raises (`max()`/`min()` of an empty list, a division by zero).
- `Math.sqrt`: the two-sigma test `diff >= 2 * stdDev` is stated without square roots, as `diff > 0` and `diff * diff >= 4 * variance` (`Numeric.TwoSigmaBySquares`).
- In-place sorting: JavaScript `Array.prototype.sort` and Python `list.sort` are modelled on values by a stable insertion sort (`Sorting.SortBy`). The mutation of the caller's array, and the aliasing that follows from it, are not modelled. Both library sorts are stable, which is what `Sorting.SortByStable` states.
- Library conversions are parameters of the model: Python `float()`, `datetime.strptime`, JavaScript `Number()`, date-fns `format`/`parseISO`. `datetime` arithmetic is modelled by the day-number calendar of `Calendar`.
- File and console I/O: `open` and `readlines()`, `json.load`/`json.dump`, `print` and `console.log` reports are not modelled, including the report sections of `temperature_analysis.py` and `detailed_analysis.py` that only print. The model returns the values they print.
- The network: `fetch` of the forecast API and of the site's own API routes is a parameter (the response is passed in). Route handlers, `src/scripts/cron-weather.ts` and `scripts/fetch-weather.mjs` are not part of this model.
- The database: `src/lib/db.ts` opens SQLite and creates the schema. The model keeps only the table semantics of `src/lib/weather-fetcher.ts`, as an in-memory sequence of rows. The `id`, `raw_data` and `saved_at` columns, SQLite's 0/1 booleans, the order of rows that tie under `ORDER BY`, and database errors caught by `try`/`catch` are not modelled.
- The clock: `Date.now()` and `new Date()` are parameters of `ForecastCache` and `ForecastStore`.
- Concurrency: the week page's module-level cache is shared by concurrent requests in the server. The model runs requests one at a time.
- Rendering: JSX, Chart.js datasets, options and plugins, tooltips' layout, colours and React state wiring are not modelled. The values the components compute for them are.
- Not part of this model: `src/app/page.tsx`, `src/app/month/page.tsx`, `src/app/layout.tsx`, `src/app/terms/page.tsx`, `src/app/sitemap.ts`, `src/components/YearComparisonSection.tsx`, `ChartControls.tsx`, `MonthlyYearlyTrendChart.tsx`, `AnnualTemperatureChart.tsx`, `MonthlyTemperatureChart.tsx`, `TemperatureDifferenceChart.tsx`, `DailyTemperatureChart.tsx` (UI only), and `prophet_temperature_forecast.py`, `arima_monthly_forecast.py` (wrappers over forecasting libraries with floating-point output).
- `TrendLine`: a degenerate fit (fewer than two distinct years) gives `None`, where the code divides by zero and yields `NaN` or `Infinity`.
- `DataMerge.MinYear`, `DataMerge.MaxYear`, `DataMerge.ReportYears` and `DetailedAnalysis.MissingYears` require non-empty input, because `min()`/`max()` of an empty list raise in the scripts.
- `TemperatureAnalysis.DayOf` and `TemperatureAnalysis.MissingDates`: a date `strptime` rejects makes the script stop with a `ValueError` before any report. The model does not stop: `DayOf` maps a month outside 1 to 12 to day 0 and an impossible day such as 30 February to the day number the arithmetic gives, and `MissingDates` reports gaps over those numbers. What the script computes is stated only for valid dates (`Calendar.ValidDate`), by `TemperatureAnalysis.SortedValidDates` and `TemperatureAnalysis.NoMissingDatesIffDaily`.
- `TemperatureAnalysis.MissingYearsInSeries` requires strictly increasing years, which its caller's `sorted(annual_result.keys())` provides: the keys of a dictionary, sorted, are distinct and ascending. Its empty case returns `[]`, where `annual_years[0]` would raise.
- `DetailedAnalysis`: the script assumes every `max_temp` and `min_temp` is a number (a `null` makes its `sum` raise a `TypeError`). The model's records therefore carry numeric temperatures, and that crash is not modelled.
- `Forecast.ForecastKey`: its own contract only bounds the key. What the key means (the `MM-DD` of the date) is stated by `Forecast.ForecastKeyOfDate`.
- Rounding: JavaScript `Math.round` rounds halves up, Python's `round` rounds halves to even. Both are modelled (`Numeric.Round1`, `Numeric.RoundHalfEven`), and `Numeric.PyRound1DiffersOnTie` shows a tie where they differ. On such ties the Python reports and the site can show different values.
