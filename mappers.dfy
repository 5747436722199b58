/** The four mapper scripts. Each reads records from standard input and
    prints at most one `key<TAB>value` line per record; a record that raises
    inside the `try` prints nothing. The three mappers over the green-taxi
    (`lpep`) files read raw comma-separated lines and skip blank lines and
    the header; the passenger-distance mapper reads the yellow-taxi files
    through `csv.DictReader`, whose rows are given here already split into
    named cells. */
module Mappers {
  import opened Wrappers
  import opened Text
  import opened Numbers
  import opened Calendar

  /** The first column name of the `lpep` header line. */
  const Header: string := "lpep_pickup_datetime"

  /** Column of `payment_type` and of `PULocationID` in an `lpep` record. */
  const PaymentTypeColumn: nat := 19
  const PickupLocationColumn: nat := 21
  /** Columns of the pick-up time and of `total_amount`. */
  const PickupColumn: nat := 1
  const TotalAmountColumn: nat := 12

  /** `if not line or line.startswith("lpep_pickup_datetime"): continue`,
      on the stripped line. */
  predicate SkippedLine(line: string)
  {
    var s := Strip(line);
    s == "" || StartsWith(s, Header)
  }

  /** The comma-separated fields of a line that is not skipped. */
  function Fields(line: string): (parts: seq<string>)
    ensures |parts| > 0
  {
    Split(Strip(line), ',')
  }

  /** No field holds a comma. */
  lemma FieldsCommaFree(line: string)
    ensures forall i :: 0 <= i < |Fields(line)| ==> ',' !in Fields(line)[i]
  {
    SplitPiecesFree(Strip(line), ',');
  }

  /** `parts[column].strip()`: `None` when the line is skipped or has too
      few fields (the `IndexError` the `try` swallows). */
  function CountKey(column: nat, line: string): (k: Option<string>)
    ensures k.Some? <==> !SkippedLine(line) && column < |Fields(line)|
    ensures k.Some? ==> k.value == Strip(Fields(line)[column])
    ensures k.Some? ==> IsStripped(k.value)
  {
    if SkippedLine(line) then None
    else
      var parts := Fields(line);
      if column < |parts| then Some(Strip(parts[column])) else None
  }

  /** A key holds no comma: it is a stripped field. */
  lemma CountKeyCommaFree(column: nat, line: string)
    requires CountKey(column, line).Some?
    ensures ',' !in CountKey(column, line).value
  {
    FieldsCommaFree(line);
    StripIsInfix(Fields(line)[column]);
  }

  /** The counting mappers: `print(f"{field}\t1")`. */
  function MapCountLine(column: nat, line: string): (r: Option<string>)
    ensures r.Some? <==> CountKey(column, line).Some?
    ensures r.Some? ==> r.value == CountKey(column, line).value + "\t1"
  {
    match CountKey(column, line)
    case Some(k) => Some(k + "\t1")
    case None => None
  }

  /** mapper_trips_per_payment. */
  function MapTripsPerPayment(line: string): Option<string>
  {
    MapCountLine(PaymentTypeColumn, line)
  }

  /** mapper_trips_per_pulocation. */
  function MapTripsPerPickupLocation(line: string): Option<string>
  {
    MapCountLine(PickupLocationColumn, line)
  }

  /** mapper_fare_per_day: the pick-up day of field 1 and the fare of
      field 12, `None` when the line is skipped, has fewer than 13 fields,
      or either field fails to parse. */
  function MapFareLine(fmt: FloatFormat, line: string): (r: Option<string>)
    ensures r.Some? ==> !SkippedLine(line) && |Fields(line)| > TotalAmountColumn
    ensures r.Some? ==> ParseDateTime(Strip(Fields(line)[PickupColumn])).Some?
    ensures r.Some? ==> fmt.parse(Strip(Fields(line)[TotalAmountColumn])).Some?
  {
    if SkippedLine(line) then None
    else
      var parts := Fields(line);
      if |parts| <= TotalAmountColumn then None
      else FareRecord(fmt, Strip(parts[PickupColumn]), Strip(parts[TotalAmountColumn]))
  }

  /** The body of the `try` on the stripped fields: the amount read as the
      fare, then the pick-up read as a timestamp. */
  function FareRecord(fmt: FloatFormat, pickup: string, amount: string): Option<string>
  {
    match fmt.parse(amount)
    case None => None
    case Some(fare) =>
      match ParseDateTime(pickup)
      case None => None
      case Some(t) => Some(IsoDate(t.date) + "\t" + fmt.render(fare))
  }

  /** A `csv.DictReader` row: the cell under each header name; `None` for
      a cell missing from a short row. */
  type Row = map<string, Option<string>>

  /** `float(cell) if cell else 0`, printed: the integer `0` for an empty
      or missing cell, otherwise the float, `None` when `float()` raises. */
  function NumberText(fmt: FloatFormat, cell: Option<string>): (r: Option<string>)
    ensures (cell == None || cell == Some("")) ==> r == Some("0")
    ensures r.Some? <==> NumberValue(fmt, cell).Some?
    ensures cell.Some? && cell.value != "" && r.Some? ==> r.value == fmt.render(NumberValue(fmt, cell).value)
  {
    match cell
    case None => Some("0")
    case Some(v) =>
      if v == "" then Some("0")
      else match fmt.parse(v)
        case Some(x) => Some(fmt.render(x))
        case None => None
  }

  /** The number a cell stands for, once printed and read back. */
  function NumberValue(fmt: FloatFormat, cell: Option<string>): Option<real>
  {
    match cell
    case None => Some(0.0)
    case Some(v) => if v == "" then Some(0.0) else fmt.parse(v)
  }

  /** `row['tpep_pickup_datetime'].split(' ')[0]`; `None` when the column
      is missing (`KeyError`) or the cell is missing (`None` has no `split`). */
  function PickupDate(row: Row): (r: Option<string>)
    ensures r.Some? <==> "tpep_pickup_datetime" in row && row["tpep_pickup_datetime"].Some?
    ensures r.Some? ==> var v := row["tpep_pickup_datetime"].value;
      r.value <= v && (|r.value| == |v| || v[|r.value|] == ' ')
    ensures r.Some? ==> ' ' !in r.value
  {
    if "tpep_pickup_datetime" !in row then None
    else match row["tpep_pickup_datetime"]
      case None => None
      case Some(v) =>
        SplitPiecesFree(v, ' ');
        SplitFirst(v, ' ');
        Some(Split(v, ' ')[0])
  }

  /** mapper_passenger_distance_per_day: `date<TAB>passengers,distance`. */
  function MapPassengerDistanceRow(fmt: FloatFormat, row: Row): (r: Option<string>)
    ensures r.Some? <==>
      && "passenger_count" in row && "trip_distance" in row && PickupDate(row).Some?
      && NumberText(fmt, row["passenger_count"]).Some? && NumberText(fmt, row["trip_distance"]).Some?
    ensures r.Some? ==>
      r.value == PickupDate(row).value + "\t" + NumberText(fmt, row["passenger_count"]).value
        + "," + NumberText(fmt, row["trip_distance"]).value
  {
    if "passenger_count" !in row || "trip_distance" !in row then None
    else
      match (PickupDate(row), NumberText(fmt, row["passenger_count"]), NumberText(fmt, row["trip_distance"]))
      case (Some(date), Some(p), Some(d)) => Some(date + "\t" + p + "," + d)
      case _ => None
  }

  /** What a mapper prints over all its records, in order. */
  function EmitAll<T>(f: T -> Option<string>, xs: seq<T>): (out: seq<string>)
    ensures |out| <= |xs|
  {
    if xs == [] then []
    else
      var init := EmitAll(f, xs[..|xs| - 1]);
      match f(xs[|xs| - 1])
      case Some(o) => init + [o]
      case None => init
  }

  /** Every printed line comes from some record. */
  lemma {:induction false} EmitAllFrom<T>(f: T -> Option<string>, xs: seq<T>)
    ensures forall j :: 0 <= j < |EmitAll(f, xs)| ==>
      exists i :: 0 <= i < |xs| && f(xs[i]) == Some(EmitAll(f, xs)[j])
  {
    if xs != [] {
      var init := xs[..|xs| - 1];
      EmitAllFrom(f, init);
      var out := EmitAll(f, xs);
      assert |EmitAll(f, init)| <= |out|;
      forall j | 0 <= j < |out|
        ensures exists i :: 0 <= i < |xs| && f(xs[i]) == Some(out[j])
      {
        if j < |EmitAll(f, init)| {
          assert out[j] == EmitAll(f, init)[j];
          var i :| 0 <= i < |init| && f(init[i]) == Some(EmitAll(f, init)[j]);
          assert xs[i] == init[i];
        } else {
          assert f(xs[|xs| - 1]) == Some(out[j]);
        }
      }
    } else {
      assert EmitAll(f, xs) == [];
    }
  }

  /** Mapping is line by line: the output of two pieces of input is the
      two outputs one after the other, so the input can be split across
      mapper tasks. */
  lemma {:induction false} EmitAllAppend<T>(f: T -> Option<string>, xs: seq<T>, ys: seq<T>)
    ensures EmitAll(f, xs + ys) == EmitAll(f, xs) + EmitAll(f, ys)
  {
    if ys != [] {
      var init := ys[..|ys| - 1];
      assert (xs + ys)[..|xs + ys| - 1] == xs + init;
      assert (xs + ys)[|xs + ys| - 1] == ys[|ys| - 1];
      EmitAllAppend(f, xs, init);
    } else {
      assert xs + ys == xs;
    }
  }

  /** A record line whose pick-up field is a printed timestamp and whose
      amount field parses is mapped to that timestamp's day and amount. */
  lemma MapFareOfRecord(fmt: FloatFormat, line: string, t: DateTime, fare: real)
    requires !SkippedLine(line) && |Fields(line)| > TotalAmountColumn && ValidDateTime(t)
    requires Strip(Fields(line)[PickupColumn]) == IsoDateTime(t)
    requires fmt.parse(Strip(Fields(line)[TotalAmountColumn])) == Some(fare)
    ensures MapFareLine(fmt, line) == Some(IsoDate(t.date) + "\t" + fmt.render(fare))
  {
    ParsePrinted(t);
    MapFareParsed(fmt, line, t, fare);
  }

  lemma MapFareParsed(fmt: FloatFormat, line: string, t: DateTime, fare: real)
    requires !SkippedLine(line) && |Fields(line)| > TotalAmountColumn
    requires ParseDateTime(Strip(Fields(line)[PickupColumn])) == Some(t)
    requires fmt.parse(Strip(Fields(line)[TotalAmountColumn])) == Some(fare)
    ensures MapFareLine(fmt, line) == Some(IsoDate(t.date) + "\t" + fmt.render(fare))
  {
    FareRecordParsed(fmt, Strip(Fields(line)[PickupColumn]), Strip(Fields(line)[TotalAmountColumn]), t, fare);
  }

  lemma FareRecordParsed(fmt: FloatFormat, pickup: string, amount: string, t: DateTime, fare: real)
    requires ParseDateTime(pickup) == Some(t) && fmt.parse(amount) == Some(fare)
    ensures FareRecord(fmt, pickup, amount) == Some(IsoDate(t.date) + "\t" + fmt.render(fare))
  {
  }
}
