/** What each mapper's printed lines mean to the reducer they are streamed
    to. A line the reducer strips to a single field, or that splits into
    more than two fields at tabs, ends the reducer; the counting and
    passenger-distance mappers print such a line for a record whose key
    field is empty. */
module Pipeline {
  import opened Wrappers
  import opened Text
  import opened Numbers
  import opened Calendar
  import opened Grouping
  import opened StreamReducer
  import opened ReducerLaws
  import opened Policies
  import opened Mappers
  import opened Seqs

  /** A value that does not end in white space, behind an empty key: the
      reducer strips the tab away and is left with one field. */
  lemma EmptyKeyedLine<V>(p: Policy<V>, t: string)
    requires t != [] && IsStripped(t) && '\t' !in t
    ensures Classify(p, "\t" + t) == Fatal
  {
    var line := "\t" + t;
    assert line[1..] == t;
    assert StripLeft(line) == t;
    StripStripped(t);
    SplitNoSeparator(t, '\t');
  }

  /** The line a mapper prints for a key that does not start with white
      space is already stripped and splits at every tab of the key and at
      the one in front of the value. */
  lemma KeyedLineSplit(k: string, t: string)
    requires k != "" && !IsSpace(k[0])
    requires t != [] && IsStripped(t) && '\t' !in t
    ensures Strip(k + "\t" + t) == k + "\t" + t
    ensures Split(k + "\t" + t, '\t') == Split(k, '\t') + [t]
  {
    var line := k + "\t" + t;
    assert line[0] == k[0] && line[|line| - 1] == t[|t| - 1];
    StripStripped(line);
    SplitAround(k, t, '\t');
    SplitNoSeparator(t, '\t');
  }

  /** A key with a tab in it gives the reducer more than two fields. */
  lemma TabbedKeyedLine<V>(p: Policy<V>, k: string, t: string)
    requires k != "" && !IsSpace(k[0]) && '\t' in k
    requires t != [] && IsStripped(t) && '\t' !in t
    ensures Classify(p, k + "\t" + t) == Fatal
  {
    KeyedLineSplit(k, t);
    CountCharIn(k, '\t');
  }

  /** A key in front of a tab-free value: the reducer reads back exactly
      that key and value. */
  lemma KeyKeyedLine<V>(p: Policy<V>, k: string, t: string)
    requires IsKey(k)
    requires t != [] && IsStripped(t) && '\t' !in t
    ensures Classify(p, k + "\t" + t) ==
      match p.parseValue(t)
      case Parsed(v) => Accepted(k, v)
      case Skipped => Dropped
      case Invalid => Fatal
  {
    var line := k + "\t" + t;
    assert line == k + ['\t'] + t;
    assert line[0] == k[0] && line[|line| - 1] == t[|t| - 1];
    StripStripped(line);
    SplitPair(k, t, '\t');
  }

  /** A key printed in front of a tab-free value that does not end in
      white space: the reducer splits the line at that tab when the key is
      a key, and dies when the key is empty or holds a tab. */
  lemma KeyedLine<V>(p: Policy<V>, k: string, t: string)
    requires t != [] && IsStripped(t) && '\t' !in t
    requires k == "" || !IsSpace(k[0])
    ensures IsKey(k) ==> (Classify(p, k + "\t" + t) ==
      match p.parseValue(t)
      case Parsed(v) => Accepted(k, v)
      case Skipped => Dropped
      case Invalid => Fatal)
    ensures !IsKey(k) ==> Classify(p, k + "\t" + t) == Fatal
  {
    if k == "" {
      EmptyKeyedLine(p, t);
      assert k + "\t" + t == "\t" + t;
    } else if '\t' in k {
      TabbedKeyedLine(p, k, t);
    } else {
      KeyKeyedLine(p, k, t);
    }
  }

  // Counting mappers

  /** The token `1` the counting mappers print is read as the count 1. */
  lemma OneReadsBack()
    ensures CountPolicy().parseValue("1") == Parsed(1)
  {
    IntRoundTrip(1);
    assert IntToString(1) == "1";
  }

  /** As written, a counting mapper's line is counted at the reducer when
      its key field is a key, and ends the reducer when the field is empty
      or holds a tab. */
  lemma CountLineAtReducer(column: nat, line: string)
    requires CountKey(column, line).Some?
    ensures var k := CountKey(column, line).value;
      Classify(CountPolicy(), MapCountLine(column, line).value) ==
        if IsKey(k) then Accepted(k, 1) else Fatal
  {
    var k := CountKey(column, line).value;
    assert MapCountLine(column, line).value == k + "\t1";
    KeyedCountLine(k);
  }

  lemma KeyedCountLine(k: string)
    requires k == "" || !IsSpace(k[0])
    ensures Classify(CountPolicy(), k + "\t1") == if IsKey(k) then Accepted(k, 1) else Fatal
  {
    var one := "1";
    OneToken();
    AppendAssoc(k, "\t", one);
    OneReadsBack();
    KeyedLine(CountPolicy(), k, one);
  }

  lemma OneToken()
    ensures "1" != [] && IsStripped("1") && '\t' !in "1" && "\t" + "1" == "\t1"
  {
    assert !IsSpace('1');
  }

  /** As written, a counting mapper prints a line with an empty key for
      any record whose key field is empty, such as a `lpep` record with no
      `payment_type`. */
  lemma BlankKeyFieldMapped(column: nat, fs: seq<string>)
    requires column < |fs| && fs[column] == ""
    requires forall i :: 0 <= i < |fs| ==> ',' !in fs[i]
    requires fs[0] != [] && !IsSpace(fs[0][0]) && fs[0][0] != Header[0]
    requires fs[|fs| - 1] != [] && !IsSpace(fs[|fs| - 1][|fs[|fs| - 1]| - 1])
    ensures MapCountLine(column, Join(fs, ',')) == Some("\t1")
  {
    RecordLineFields(fs);
    assert Strip("") == "";
    assert "" + "\t1" == "\t1";
  }

  /** A record glued from comma-free fields that neither starts with white
      space or the header's first letter nor ends in white space is read
      back field by field. */
  lemma RecordLineFields(fs: seq<string>)
    requires |fs| > 0 && forall i :: 0 <= i < |fs| ==> ',' !in fs[i]
    requires fs[0] != [] && !IsSpace(fs[0][0]) && fs[0][0] != Header[0]
    requires fs[|fs| - 1] != [] && !IsSpace(fs[|fs| - 1][|fs[|fs| - 1]| - 1])
    ensures !SkippedLine(Join(fs, ',')) && Fields(Join(fs, ',')) == fs
  {
    var line := Join(fs, ',');
    RecordLineStripped(fs);
    NotHeader(line);
    SplitJoin(fs, ',');
  }

  /** A line whose first letter is not the header's is not the header. */
  lemma NotHeader(line: string)
    requires line != [] && line[0] != Header[0]
    ensures !StartsWith(line, Header)
  {
    if |Header| <= |line| {
      assert line[..|Header|][0] == line[0];
    }
  }

  lemma RecordLineStripped(fs: seq<string>)
    requires |fs| > 0 && fs[0] != []
    requires fs[|fs| - 1] != [] && !IsSpace(fs[0][0]) && !IsSpace(fs[|fs| - 1][|fs[|fs| - 1]| - 1])
    ensures var line := Join(fs, ','); line != [] && line[0] == fs[0][0] && Strip(line) == line
  {
    var line := Join(fs, ',');
    JoinLast(fs, ',');
    JoinFirst(fs, ',');
    StripStripped(line);
  }

  /** The line printed for an empty key ends a counting reducer. */
  lemma BlankCountLineFatal()
    ensures Classify(CountPolicy(), "\t1") == Fatal
  {
    KeyedCountLine("");
    assert "" + "\t1" == "\t1";
  }

  lemma CountLineScan(k: string)
    requires IsKey(k)
    ensures Scan(CountPolicy(), [k + "\t1"]) == Scanned([(k, 1)], false)
  {
    ClassifiedOne(CountPolicy(), k + "\t1");
    KeyedCountLine(k);
    ScanKindsOne(Accepted(k, 1));
  }

  lemma BlankCountLineScan()
    ensures Scan(CountPolicy(), ["\t1"]) == Scanned([], true)
  {
    ClassifiedOne(CountPolicy(), "\t1");
    BlankCountLineFatal();
    ScanKindsOne<int>(Fatal);
  }

  /** A key's count line followed by the empty-key line: the count is
      accepted, then the reducer dies. */
  lemma EmptyKeyScan(k: string)
    requires IsKey(k)
    ensures Scan(CountPolicy(), [k + "\t1", "\t1"]) == Scanned([(k, 1)], true)
  {
    var first, blank := k + "\t1", "\t1";
    CountLineScan(k);
    BlankCountLineScan();
    ScanAppend(CountPolicy(), [first], [blank]);
    assert [first] + [blank] == [first, blank];
    assert [(k, 1)] + [] == [(k, 1)];
  }

  /** As written, a counting reducer that meets an empty-key line dies, and
      the count of the key it was adding up is never printed. */
  lemma EmptyKeyLosesRun(k: string, post: seq<string>)
    requires IsKey(k)
    ensures Expected(CountPolicy(), [k + "\t1", "\t1"] + post) == ([], false)
  {
    EmptyKeyEndsInput(k + "\t1", post);
    EmptyKeyScan(k);
    AggregateSingle(AddInt, k, 1);
  }

  /** Nothing after the empty-key line is read. */
  lemma EmptyKeyEndsInput(first: string, post: seq<string>)
    ensures Expected(CountPolicy(), [first, "\t1"] + post) == Expected(CountPolicy(), [first, "\t1"])
  {
    BlankCountLineFatal();
    FatalSecondLine(CountPolicy(), first, "\t1", post);
  }

  /** The counting mappers as evidently intended: a record whose key field
      is empty or holds a tab is passed over like any other record the
      mapper cannot use. */
  function MapCountLineChecked(column: nat, line: string): (r: Option<string>)
    ensures r.Some? <==> CountKey(column, line).Some? && IsKey(CountKey(column, line).value)
    ensures r.Some? ==> r.value == MapCountLine(column, line).value
  {
    match CountKey(column, line)
    case Some(k) => if k != "" && '\t' !in k then Some(k + "\t1") else None
    case None => None
  }

  /** Every line the corrected mapper prints is counted once under its key. */
  lemma CheckedCountLineAccepted(column: nat, line: string)
    requires MapCountLineChecked(column, line).Some?
    ensures Classify(CountPolicy(), MapCountLineChecked(column, line).value) ==
      Accepted(CountKey(column, line).value, 1)
  {
    CountLineAtReducer(column, line);
  }

  // Fare mapper

  /** A printed day is a key: ten characters, digits but for two dashes. */
  lemma IsoDateIsKey(d: Date)
    requires ValidDate(d)
    ensures IsKey(IsoDate(d))
  {
    var r := IsoDate(d);
    assert IsDigit(r[0]);
    assert forall i :: 0 <= i < |r| ==> r[i] != '\t' by {
      forall i | 0 <= i < |r|
        ensures r[i] != '\t'
      {
        if i != 4 && i != 7 {
          assert IsDigit(r[i]);
        }
      }
    }
  }

  /** With a well-behaved number format, every line the fare mapper prints
      is accepted by the fare reducer as the record's pick-up day and fare. */
  lemma FareLineAtReducer(fmt: FloatFormat, line: string)
    requires WellBehaved(fmt) && MapFareLine(fmt, line).Some?
    ensures PickupDay(Strip(Fields(line)[PickupColumn])).Some?
    ensures Classify(FarePolicy(fmt), MapFareLine(fmt, line).value) ==
      Accepted(PickupDay(Strip(Fields(line)[PickupColumn])).value,
               fmt.parse(Strip(Fields(line)[TotalAmountColumn])).value)
  {
    var parts := Fields(line);
    var t := ParseDateTime(Strip(parts[PickupColumn])).value;
    var fare := fmt.parse(Strip(parts[TotalAmountColumn])).value;
    assert RendersCleanly(fmt, fare);
    IsoDateIsKey(t.date);
    KeyedLine(FarePolicy(fmt), IsoDate(t.date), fmt.render(fare));
  }

  // Passenger-distance mapper

  /** A printed number cell is one clean token that reads back as the
      number the cell stands for. */
  lemma NumberTextReadsBack(fmt: FloatFormat, cell: Option<string>)
    requires WellBehaved(fmt) && NumberText(fmt, cell).Some?
    ensures var t := NumberText(fmt, cell).value;
      t != [] && IsStripped(t) && '\t' !in t && ',' !in t
      && NumberValue(fmt, cell).Some? && fmt.parse(t) == NumberValue(fmt, cell)
  {
    match cell
    case None =>
    case Some(v) =>
      if v != "" {
        assert RendersCleanly(fmt, fmt.parse(v).value);
      }
  }

  /** As written, a passenger-distance line is accepted as the row's date
      and its two numbers when the date is a key, and ends the reducer when
      the date is empty. */
  lemma PassengerDistanceLineAtReducer(fmt: FloatFormat, row: Row)
    requires WellBehaved(fmt) && MapPassengerDistanceRow(fmt, row).Some?
    ensures var date := PickupDate(row).value;
      var c := Classify(PassengerDistancePolicy(fmt), MapPassengerDistanceRow(fmt, row).value);
      && (IsKey(date) ==> c == Accepted(date, Totals(NumberValue(fmt, row["passenger_count"]).value,
                                                      NumberValue(fmt, row["trip_distance"]).value)))
      && (date == "" ==> c.Fatal?)
  {
    var date := PickupDate(row).value;
    var pc, td := row["passenger_count"], row["trip_distance"];
    var p, d := NumberText(fmt, pc).value, NumberText(fmt, td).value;
    NumberTextReadsBack(fmt, pc);
    NumberTextReadsBack(fmt, td);
    var value := p + "," + d;
    assert value[|value| - 1] == d[|d| - 1];
    assert '\t' !in value;
    assert MapPassengerDistanceRow(fmt, row).value == date + "\t" + value;
    SplitPair(p, d, ',');
    assert ParseTotals(fmt, value) == Parsed(Totals(NumberValue(fmt, pc).value, NumberValue(fmt, td).value));
    if date != "" && IsSpace(date[0]) {
    } else {
      KeyedLine(PassengerDistancePolicy(fmt), date, value);
    }
  }

  /** As written, a row whose pick-up cell is empty, and whose two number
      cells print without a tab, is mapped to a line with an empty date,
      which ends the passenger-distance reducer. No property of `float()`
      is needed beyond the tab-free printing. */
  lemma BlankPickupEndsReducer(fmt: FloatFormat, row: Row)
    requires "tpep_pickup_datetime" in row && row["tpep_pickup_datetime"] == Some("")
    requires "passenger_count" in row && NumberText(fmt, row["passenger_count"]).Some?
    requires "trip_distance" in row && NumberText(fmt, row["trip_distance"]).Some?
    requires '\t' !in NumberText(fmt, row["passenger_count"]).value
    requires '\t' !in NumberText(fmt, row["trip_distance"]).value
    ensures MapPassengerDistanceRow(fmt, row).Some?
    ensures PickupDate(row) == Some("")
    ensures Classify(PassengerDistancePolicy(fmt), MapPassengerDistanceRow(fmt, row).value).Fatal?
  {
    assert Split("", ' ') == [""];
    var p, d := NumberText(fmt, row["passenger_count"]).value, NumberText(fmt, row["trip_distance"]).value;
    var rest := p + "," + d;
    assert MapPassengerDistanceRow(fmt, row).value == ['\t'] + rest;
    UntabbedValueFatal(fmt, p, d);
  }

  /** `<TAB>p,d` with tab-free `p` and `d` strips to a single field. */
  lemma UntabbedValueFatal(fmt: FloatFormat, p: string, d: string)
    requires '\t' !in p && '\t' !in d
    ensures Classify(PassengerDistancePolicy(fmt), ['\t'] + (p + "," + d)).Fatal?
  {
    var rest := p + "," + d;
    StripLeadingSpace('\t', rest);
    UntabbedStrip(p, d);
    SplitNoSeparator(Strip(rest), '\t');
  }

  /** What `strip()` leaves of `p,d` is not empty and holds no tab. */
  lemma UntabbedStrip(p: string, d: string)
    requires '\t' !in p && '\t' !in d
    ensures var s := Strip(p + "," + d); s != [] && '\t' !in s
  {
    var rest := p + "," + d;
    assert rest[|p|] == ',';
    forall i | 0 <= i < |rest|
      ensures rest[i] != '\t'
    {
      if i < |p| {
        assert rest[i] == p[i];
      } else if i > |p| {
        assert rest[i] == d[i - |p| - 1];
      }
    }
    StripAvoids(rest, |p|, '\t');
  }

  /** The row of the finding: every cell empty. It prints `<TAB>0,0`, and
      the reducer dies on it, whatever the number format. */
  lemma BlankRowEndsReducer(fmt: FloatFormat, row: Row)
    requires "tpep_pickup_datetime" in row && row["tpep_pickup_datetime"] == Some("")
    requires "passenger_count" in row && row["passenger_count"] == Some("")
    requires "trip_distance" in row && row["trip_distance"] == Some("")
    ensures MapPassengerDistanceRow(fmt, row) == Some("\t0,0")
    ensures Classify(PassengerDistancePolicy(fmt), "\t0,0").Fatal?
  {
    BlankPickupEndsReducer(fmt, row);
    assert PickupDate(row) == Some("");
    assert NumberText(fmt, row["passenger_count"]) == Some("0");
    assert NumberText(fmt, row["trip_distance"]) == Some("0");
    assert "" + "\t" + "0" + "," + "0" == "\t0,0";
  }

  /** The passenger-distance mapper as evidently intended: a row whose date
      is not a key is passed over. */
  function MapPassengerDistanceRowChecked(fmt: FloatFormat, row: Row): (r: Option<string>)
    ensures r.Some? <==> MapPassengerDistanceRow(fmt, row).Some? && IsKey(PickupDate(row).value)
    ensures r.Some? ==> r.value == MapPassengerDistanceRow(fmt, row).value
  {
    match MapPassengerDistanceRow(fmt, row)
    case Some(o) =>
      var date := PickupDate(row).value;
      if date != "" && !IsSpace(date[0]) && '\t' !in date then Some(o) else None
    case None => None
  }

  /** Every line the corrected mapper prints is accepted as its row's date and totals. */
  lemma CheckedPassengerDistanceLineAccepted(fmt: FloatFormat, row: Row)
    requires WellBehaved(fmt) && MapPassengerDistanceRowChecked(fmt, row).Some?
    ensures Classify(PassengerDistancePolicy(fmt), MapPassengerDistanceRowChecked(fmt, row).value) ==
      Accepted(PickupDate(row).value, Totals(NumberValue(fmt, row["passenger_count"]).value,
                                             NumberValue(fmt, row["trip_distance"]).value))
  {
    PassengerDistanceLineAtReducer(fmt, row);
  }

  // Whole jobs

  /** Lines that are all accepted are all read: nothing ends the run, and
      the pairs are the lines' pairs in order. */
  lemma {:induction false} ScanAllAccepted<V>(cs: seq<LineKind<V>>)
    requires forall i :: 0 <= i < |cs| ==> cs[i].Accepted?
    ensures var s := ScanKinds(cs);
      && !s.aborted && |s.pairs| == |cs|
      && forall i :: 0 <= i < |cs| ==> s.pairs[i] == (cs[i].key, cs[i].value)
  {
    if cs != [] {
      ScanAllAccepted(cs[1..]);
      var rest := ScanKinds(cs[1..]);
      assert forall i :: 1 <= i < |cs| ==> cs[i] == cs[1..][i - 1];
    }
  }

  /** The reducer's input, when every line is accepted by `accept`. */
  lemma ScanOfAccepted<V>(p: Policy<V>, lines: seq<string>)
    requires forall i :: 0 <= i < |lines| ==> Classify(p, lines[i]).Accepted?
    ensures var s := Scan(p, lines);
      && !s.aborted && |s.pairs| == |lines|
      && forall i :: 0 <= i < |lines| ==> s.pairs[i] == (Classify(p, lines[i]).key, Classify(p, lines[i]).value)
  {
    var cs := Classified(p, lines);
    forall i | 0 <= i < |lines|
      ensures cs[i] == Classify(p, lines[i])
    {
      ClassifiedAt(p, lines, i);
    }
    ScanAllAccepted(cs);
  }

  /** Every line of a reordering of a mapper's output was printed for some record. */
  lemma ShuffledFrom<T>(f: T -> Option<string>, records: seq<T>, shuffled: seq<string>)
    requires multiset(shuffled) == multiset(EmitAll(f, records))
    ensures forall i :: 0 <= i < |shuffled| ==>
      exists j :: 0 <= j < |records| && f(records[j]) == Some(shuffled[i])
  {
    EmitAllFrom(f, records);
    forall i | 0 <= i < |shuffled|
      ensures exists j :: 0 <= j < |records| && f(records[j]) == Some(shuffled[i])
    {
      assert shuffled[i] in multiset(shuffled);
      var out := EmitAll(f, records);
      var m :| 0 <= m < |out| && out[m] == shuffled[i];
    }
  }

  /** Lines the reducer accepts to the last, with the keys brought
      together: the job reads every line and prints each key once with
      the fold of its values. */
  lemma AcceptedJob<V>(p: Policy<V>, lines: seq<string>)
    requires forall i :: 0 <= i < |lines| ==> Classify(p, lines[i]).Accepted?
    requires Contiguous(Scan(p, lines).pairs)
    ensures var ps := Scan(p, lines).pairs;
      var agg := Aggregate(p.add, ps);
      && |ps| == |lines|
      && (forall i :: 0 <= i < |lines| ==> ps[i] == (Classify(p, lines[i]).key, Classify(p, lines[i]).value))
      && Expected(p, lines) == (RenderAll(p, agg), true)
      && GroupedBy(p.add, ps, agg)
  {
    ScanOfAccepted(p, lines);
    ExpectedGrouped(p, lines);
  }

  /** The pair a line of the corrected counting mapper stands for, from one of the records. */
  predicate CountedFrom(column: nat, records: seq<string>, line: string, pair: (string, int))
  {
    exists j :: 0 <= j < |records| && MapCountLineChecked(column, records[j]) == Some(line)
      && pair == (CountKey(column, records[j]).value, 1)
  }

  lemma CheckedCountLines(column: nat, records: seq<string>, shuffled: seq<string>)
    requires multiset(shuffled) == multiset(EmitAll(l => MapCountLineChecked(column, l), records))
    ensures forall i :: 0 <= i < |shuffled| ==> (Classify(CountPolicy(), shuffled[i]).Accepted?
      && CountedFrom(column, records, shuffled[i], (Classify(CountPolicy(), shuffled[i]).key, Classify(CountPolicy(), shuffled[i]).value)))
  {
    var f := l => MapCountLineChecked(column, l);
    ShuffledFrom(f, records, shuffled);
    forall i | 0 <= i < |shuffled|
      ensures Classify(CountPolicy(), shuffled[i]).Accepted?
      ensures CountedFrom(column, records, shuffled[i], (Classify(CountPolicy(), shuffled[i]).key, Classify(CountPolicy(), shuffled[i]).value))
    {
      var j :| 0 <= j < |records| && f(records[j]) == Some(shuffled[i]);
      CheckedCountLineAccepted(column, records[j]);
    }
  }

  /** How many of the records the corrected counting mapper counts under `k`. */
  function RecordsWithKey(column: nat, records: seq<string>, k: string): nat
  {
    if records == [] then 0
    else
      var r := records[|records| - 1];
      RecordsWithKey(column, records[..|records| - 1], k)
        + (if MapCountLineChecked(column, r).Some? && CountKey(column, r).value == k then 1 else 0)
  }

  /** A count line names its key. */
  lemma CountLineNamesKey(a: string, b: string)
    ensures a + "\t1" == b + "\t1" <==> a == b
  {
    if a + "\t1" == b + "\t1" {
      assert a == (a + "\t1")[..|a|];
    }
  }

  /** The mapper prints `k<TAB>1` once for each record it counts under `k`. */
  lemma {:induction false} RecordsWithKeyLines(column: nat, records: seq<string>, k: string)
    ensures multiset(EmitAll(l => MapCountLineChecked(column, l), records))[k + "\t1"]
      == RecordsWithKey(column, records, k)
  {
    if records != [] {
      var f := l => MapCountLineChecked(column, l);
      var init, r := records[..|records| - 1], records[|records| - 1];
      RecordsWithKeyLines(column, init, k);
      match f(r)
      case Some(o) =>
        assert EmitAll(f, records) == EmitAll(f, init) + [o];
        CountLineNamesKey(CountKey(column, r).value, k);
      case None =>
        assert EmitAll(f, records) == EmitAll(f, init);
    }
  }

  /** The line a counted pair came from is its key followed by `<TAB>1`. */
  lemma CountedLine(column: nat, records: seq<string>, line: string, pair: (string, int))
    requires CountedFrom(column, records, line, pair)
    ensures line == pair.0 + "\t1"
  {
  }

  /** Among lines `k<TAB>1`, those of key `k` are as many as the values
      collected for `k`. */
  lemma {:induction false} KeyedLinesCount(ps: seq<(string, int)>, lines: seq<string>, k: string)
    requires |ps| == |lines|
    requires forall i :: 0 <= i < |ps| ==> lines[i] == ps[i].0 + "\t1"
    ensures |ValuesOf(ps, k)| == multiset(lines)[k + "\t1"]
  {
    if ps != [] {
      var n := |ps| - 1;
      assert lines == lines[..n] + [lines[n]];
      KeyedLinesCount(ps[..n], lines[..n], k);
      CountLineNamesKey(ps[n].0, k);
    }
  }

  /** A counting job with the corrected mapper: whatever the records, once
      the shuffle has brought equal keys together, the reducer reads every
      line, each line is a count of 1 for the key of the record it came
      from, and the job prints each key once with the number of lines that
      carried it, which is the number of records counted under that key. */
  lemma TripsCounted(column: nat, records: seq<string>, shuffled: seq<string>)
    requires multiset(shuffled) == multiset(EmitAll(l => MapCountLineChecked(column, l), records))
    requires Contiguous(Scan(CountPolicy(), shuffled).pairs)
    ensures var ps := Scan(CountPolicy(), shuffled).pairs;
      var agg := Aggregate(AddInt, ps);
      && |ps| == |shuffled|
      && (forall i :: 0 <= i < |ps| ==> CountedFrom(column, records, shuffled[i], ps[i]))
      && Expected(CountPolicy(), shuffled) == (RenderAll(CountPolicy(), agg), true)
      && Keys(agg) == DistinctKeys(ps)
      && (forall i :: 0 <= i < |agg| ==> agg[i].1 == |ValuesOf(ps, agg[i].0)|)
      && forall i :: 0 <= i < |agg| ==> agg[i].1 == RecordsWithKey(column, records, agg[i].0)
  {
    var ps := Scan(CountPolicy(), shuffled).pairs;
    CountedPairs(column, records, shuffled);
    CountedOnes(column, records, shuffled, ps);
    CountsPerKey(shuffled);
    forall i | 0 <= i < |ps|
      ensures shuffled[i] == ps[i].0 + "\t1"
    {
      CountedLine(column, records, shuffled[i], ps[i]);
    }
    var agg := Aggregate(AddInt, ps);
    forall i | 0 <= i < |agg|
      ensures agg[i].1 == RecordsWithKey(column, records, agg[i].0)
    {
      KeyedLinesCount(ps, shuffled, agg[i].0);
      RecordsWithKeyLines(column, records, agg[i].0);
    }
  }

  /** The reducer reads every line of the corrected counting mapper's output. */
  lemma CountedPairs(column: nat, records: seq<string>, shuffled: seq<string>)
    requires multiset(shuffled) == multiset(EmitAll(l => MapCountLineChecked(column, l), records))
    ensures var s := Scan(CountPolicy(), shuffled);
      && !s.aborted && |s.pairs| == |shuffled|
      && forall i :: 0 <= i < |s.pairs| ==> CountedFrom(column, records, shuffled[i], s.pairs[i])
  {
    CheckedCountLines(column, records, shuffled);
    ScanOfAccepted(CountPolicy(), shuffled);
  }

  lemma CountedOnes(column: nat, records: seq<string>, shuffled: seq<string>, ps: seq<(string, int)>)
    requires |ps| == |shuffled|
    requires forall i :: 0 <= i < |ps| ==> CountedFrom(column, records, shuffled[i], ps[i])
    ensures forall i :: 0 <= i < |ps| ==> ps[i].1 == 1
  {
    forall i | 0 <= i < |ps|
      ensures ps[i].1 == 1
    {
      assert CountedFrom(column, records, shuffled[i], ps[i]);
    }
  }

  /** The pick-up day and fare a line of the fare mapper stands for, from one of the records. */
  predicate FareFrom(fmt: FloatFormat, records: seq<string>, line: string, pair: (string, real))
  {
    exists j :: 0 <= j < |records| && MapFareLine(fmt, records[j]) == Some(line)
      && PickupDay(Strip(Fields(records[j])[PickupColumn])) == Some(pair.0)
      && fmt.parse(Strip(Fields(records[j])[TotalAmountColumn])) == Some(pair.1)
  }

  lemma FareLines(fmt: FloatFormat, records: seq<string>, shuffled: seq<string>)
    requires WellBehaved(fmt)
    requires multiset(shuffled) == multiset(EmitAll(l => MapFareLine(fmt, l), records))
    ensures forall i :: 0 <= i < |shuffled| ==> (Classify(FarePolicy(fmt), shuffled[i]).Accepted?
      && FareFrom(fmt, records, shuffled[i], (Classify(FarePolicy(fmt), shuffled[i]).key, Classify(FarePolicy(fmt), shuffled[i]).value)))
  {
    var f := l => MapFareLine(fmt, l);
    ShuffledFrom(f, records, shuffled);
    forall i | 0 <= i < |shuffled|
      ensures Classify(FarePolicy(fmt), shuffled[i]).Accepted?
      ensures FareFrom(fmt, records, shuffled[i], (Classify(FarePolicy(fmt), shuffled[i]).key, Classify(FarePolicy(fmt), shuffled[i]).value))
    {
      var j :| 0 <= j < |records| && f(records[j]) == Some(shuffled[i]);
      var line := records[j];
      FareLineAtReducer(fmt, line);
      var c := Classify(FarePolicy(fmt), shuffled[i]);
      assert MapFareLine(fmt, line) == Some(shuffled[i]);
      assert fmt.parse(Strip(Fields(line)[TotalAmountColumn])) == Some(c.value);
      assert PickupDay(Strip(Fields(line)[PickupColumn])) == Some(c.key);
    }
  }

  /** A fare job: with a well-behaved number format and equal days brought
      together, the reducer reads every line, each line is the pick-up day
      and fare of the record it came from, and the job prints each day once
      with the sum of its fares. */
  lemma FaresPerDay(fmt: FloatFormat, records: seq<string>, shuffled: seq<string>)
    requires WellBehaved(fmt)
    requires multiset(shuffled) == multiset(EmitAll(l => MapFareLine(fmt, l), records))
    requires Contiguous(Scan(FarePolicy(fmt), shuffled).pairs)
    ensures var ps := Scan(FarePolicy(fmt), shuffled).pairs;
      var agg := Aggregate(AddReal, ps);
      && |ps| == |shuffled|
      && (forall i :: 0 <= i < |ps| ==> FareFrom(fmt, records, shuffled[i], ps[i]))
      && Expected(FarePolicy(fmt), shuffled) == (RenderAll(FarePolicy(fmt), agg), true)
      && GroupedBy(AddReal, ps, agg)
  {
    FareLines(fmt, records, shuffled);
    AcceptedJob(FarePolicy(fmt), shuffled);
  }

  /** The date and totals a line of the corrected passenger-distance mapper
      stands for, from one of the rows. */
  predicate TotalsFrom(fmt: FloatFormat, rows: seq<Row>, line: string, pair: (string, Totals))
  {
    exists j :: 0 <= j < |rows| && MapPassengerDistanceRowChecked(fmt, rows[j]) == Some(line)
      && pair == (PickupDate(rows[j]).value, Totals(NumberValue(fmt, rows[j]["passenger_count"]).value,
                                                    NumberValue(fmt, rows[j]["trip_distance"]).value))
  }

  lemma CheckedPassengerDistanceLines(fmt: FloatFormat, rows: seq<Row>, shuffled: seq<string>)
    requires WellBehaved(fmt)
    requires multiset(shuffled) == multiset(EmitAll(r => MapPassengerDistanceRowChecked(fmt, r), rows))
    ensures forall i :: 0 <= i < |shuffled| ==> (Classify(PassengerDistancePolicy(fmt), shuffled[i]).Accepted?
      && TotalsFrom(fmt, rows, shuffled[i], (Classify(PassengerDistancePolicy(fmt), shuffled[i]).key,
                                             Classify(PassengerDistancePolicy(fmt), shuffled[i]).value)))
  {
    var f := r => MapPassengerDistanceRowChecked(fmt, r);
    ShuffledFrom(f, rows, shuffled);
    forall i | 0 <= i < |shuffled|
      ensures Classify(PassengerDistancePolicy(fmt), shuffled[i]).Accepted?
      ensures TotalsFrom(fmt, rows, shuffled[i], (Classify(PassengerDistancePolicy(fmt), shuffled[i]).key,
                                                  Classify(PassengerDistancePolicy(fmt), shuffled[i]).value))
    {
      var j :| 0 <= j < |rows| && f(rows[j]) == Some(shuffled[i]);
      CheckedPassengerDistanceLineAccepted(fmt, rows[j]);
    }
  }

  /** A passenger-distance job with the corrected mapper: with equal dates
      brought together, the reducer reads every line, each line is the date
      and the two numbers of the row it came from, and the job prints each
      date once with both totals. */
  lemma PassengersAndDistancePerDay(fmt: FloatFormat, rows: seq<Row>, shuffled: seq<string>)
    requires WellBehaved(fmt)
    requires multiset(shuffled) == multiset(EmitAll(r => MapPassengerDistanceRowChecked(fmt, r), rows))
    requires Contiguous(Scan(PassengerDistancePolicy(fmt), shuffled).pairs)
    ensures var ps := Scan(PassengerDistancePolicy(fmt), shuffled).pairs;
      var agg := Aggregate(AddTotals, ps);
      && |ps| == |shuffled|
      && (forall i :: 0 <= i < |ps| ==> TotalsFrom(fmt, rows, shuffled[i], ps[i]))
      && Expected(PassengerDistancePolicy(fmt), shuffled) == (RenderAll(PassengerDistancePolicy(fmt), agg), true)
      && GroupedBy(AddTotals, ps, agg)
  {
    CheckedPassengerDistanceLines(fmt, rows, shuffled);
    AcceptedJob(PassengerDistancePolicy(fmt), shuffled);
  }
}
