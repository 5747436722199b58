/** `extract_date_from_filename`: the month a monthly trip-data file holds,
    read from the file's name, as the first day of that month. */
module FileNames {
  import opened Wrappers
  import opened Text

  /** The suffix every monthly file carries. */
  const CsvSuffix: string := ".csv"

  /** `filename.split('_')[-1].replace('.csv', '')`: the last `_`-separated
      piece of the name, with every `.csv` in it removed. */
  function DatePart(filename: string): (r: string)
    ensures '_' !in r
  {
    var pieces := Split(filename, '_');
    SplitPiecesFree(filename, '_');
    RemoveAllAvoids(pieces[|pieces| - 1], CsvSuffix, '_');
    RemoveAll(pieces[|pieces| - 1], CsvSuffix)
  }

  /** The date part must be exactly two `-`-separated pieces, a year and a
      month, which are not checked further; the result is that date part
      with the day `01` added, and `None` (the bare `except`) otherwise. */
  function ExtractDateFromFilename(filename: string): (r: Option<string>)
    ensures r.Some? <==> CountChar(DatePart(filename), '-') == 1
    ensures r.Some? ==> r.value == DatePart(filename) + "-01"
  {
    var parts := Split(DatePart(filename), '-');
    if |parts| != 2 then None
    else
      assert parts == [parts[0], parts[1]];
      JoinPair(parts[0], parts[1], '-');
      JoinSplit(DatePart(filename), '-');
      Some(parts[0] + "-" + parts[1] + "-01")
  }

  /** Any name ending in `_<year>-<month>.csv` gives `<year>-<month>-01`,
      whatever the year and month pieces hold. */
  lemma ExtractDateOfName(prefix: string, year: string, month: string)
    requires '_' !in year && '-' !in year && '.' !in year
    requires '_' !in month && '-' !in month && '.' !in month
    ensures ExtractDateFromFilename(prefix + "_" + year + "-" + month + CsvSuffix) == Some(year + "-" + month + "-01")
  {
    var date := year + "-" + month;
    var last := date + CsvSuffix;
    assert prefix + "_" + year + "-" + month + CsvSuffix == prefix + ['_'] + last;
    assert '_' !in last;
    SplitAround(prefix, last, '_');
    SplitNoSeparator(last, '_');
    RemoveTrailing(date, CsvSuffix);
    assert DatePart(prefix + ['_'] + last) == date;
    assert date == year + ['-'] + month;
    SplitPair(year, month, '-');
  }

  /** The example of the docstring. */
  lemma MonthlyFileExample()
    ensures ExtractDateFromFilename("yellow_tripdata_2023-01.csv") == Some("2023-01-01")
  {
    ExtractDateOfName("yellow_tripdata", "2023", "01");
    ExampleName();
    ExampleDate();
  }

  lemma ExampleName()
    ensures "yellow_tripdata" + "_" + "2023" + "-" + "01" + CsvSuffix == "yellow_tripdata_2023-01.csv"
  {
  }

  lemma ExampleDate()
    ensures "2023" + "-" + "01" + "-01" == "2023-01-01"
  {
  }

  /** `replace` removes `.csv` wherever it occurs in the last piece, not
      only at its end: `_<year>.csv-<month>.csv` reads as the same month. */
  lemma InnerSuffixRemoved(prefix: string, year: string, month: string)
    requires '_' !in year && '-' !in year && '.' !in year
    requires '_' !in month && '-' !in month && '.' !in month
    ensures ExtractDateFromFilename(prefix + "_" + year + CsvSuffix + "-" + month + CsvSuffix) == Some(year + "-" + month + "-01")
  {
    var tail := "-" + month;
    var last := year + CsvSuffix + tail + CsvSuffix;
    assert prefix + "_" + year + CsvSuffix + "-" + month + CsvSuffix == prefix + ['_'] + last;
    assert '_' !in last;
    SplitAround(prefix, last, '_');
    SplitNoSeparator(last, '_');
    assert last == year + CsvSuffix + (tail + CsvSuffix);
    RemoveAfter(year, CsvSuffix, tail + CsvSuffix);
    RemoveTrailing(tail, CsvSuffix);
    assert DatePart(prefix + ['_'] + last) == year + ['-'] + month;
    SplitPair(year, month, '-');
  }
}
