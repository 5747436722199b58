/** The three kinds of reducer script, as policies of the shared streaming
    reducer: the three counting reducers (trips per day, per payment type and
    per pick-up location) read integer counts, the fare reducer reads fares,
    and the passenger-distance reducer reads a pair of numbers. */
module Policies {
  import opened Wrappers
  import opened Text
  import opened Numbers
  import opened Seqs
  import opened Grouping
  import opened StreamReducer
  import opened ReducerLaws

  /** `count = int(count)` inside the `try`: a value `int()` rejects is
      skipped, never fatal. */
  function ParseCount(raw: string): (r: ValueParse<int>)
    ensures !r.Invalid?
    ensures r.Parsed? <==> ParseInt(raw).Some?
    ensures r.Parsed? ==> ParseInt(raw) == Some(r.value)
  {
    match ParseInt(raw)
    case Some(n) => Parsed(n)
    case None => Skipped
  }

  function AddInt(a: int, b: int): int
  {
    a + b
  }

  /** The counting reducers: `current_count = 0`, `+=`, printed with `str()`. */
  function CountPolicy(): Policy<int>
  {
    Policy(ParseCount, AddInt, 0, IntToString)
  }

  /** `fare = float(fare)` inside the `try`. */
  function ParseFare(fmt: FloatFormat, raw: string): (r: ValueParse<real>)
    ensures !r.Invalid?
    ensures r.Parsed? <==> fmt.parse(raw).Some?
    ensures r.Parsed? ==> fmt.parse(raw) == Some(r.value)
  {
    match fmt.parse(raw)
    case Some(x) => Parsed(x)
    case None => Skipped
  }

  /** The fare reducer: `current_total = 0.0`, `+=`, printed with `str()`. */
  function FarePolicy(fmt: FloatFormat): Policy<real>
  {
    Policy(raw => ParseFare(fmt, raw), AddReal, 0.0, fmt.render)
  }

  /** The two running totals of the passenger-distance reducer. */
  datatype Totals = Totals(passengers: real, distance: real)

  /** `passengers, distance = map(float, values.split(','))` with no `try`
      around it: anything but exactly two comma-separated numbers raises. */
  function ParseTotals(fmt: FloatFormat, raw: string): (r: ValueParse<Totals>)
    ensures !r.Skipped?
    ensures r.Parsed? <==>
      var fs := Split(raw, ',');
      |fs| == 2 && fmt.parse(fs[0]).Some? && fmt.parse(fs[1]).Some?
    ensures r.Parsed? ==>
      var fs := Split(raw, ',');
      fmt.parse(fs[0]) == Some(r.value.passengers) && fmt.parse(fs[1]) == Some(r.value.distance)
  {
    var fs := Split(raw, ',');
    if |fs| != 2 then Invalid
    else
      match (fmt.parse(fs[0]), fmt.parse(fs[1]))
      case (Some(p), Some(d)) => Parsed(Totals(p, d))
      case _ => Invalid
  }

  /** Both totals grow at once, each by its own field. */
  function AddTotals(a: Totals, b: Totals): (r: Totals)
  {
    Totals(a.passengers + b.passengers, a.distance + b.distance)
  }

  /** `f"{total_passengers}\t{total_distance}"`. */
  function RenderTotals(fmt: FloatFormat, t: Totals): string
  {
    fmt.render(t.passengers) + "\t" + fmt.render(t.distance)
  }

  /** The passenger-distance reducer. Its initial totals are the integer 0,
      which is never printed, so 0.0 stands for it. */
  function PassengerDistancePolicy(fmt: FloatFormat): Policy<Totals>
  {
    Policy(raw => ParseTotals(fmt, raw), AddTotals, Totals(0.0, 0.0), t => RenderTotals(fmt, t))
  }

  // Counting reducers

  /** A printed count is one token, free of tabs and trailing white
      space, that `int()` reads back as the same count. */
  lemma CountTokenReadsBack(n: int)
    ensures var t := IntToString(n);
      t != [] && !IsSpace(t[|t| - 1]) && '\t' !in t && ParseCount(t) == Parsed(n)
  {
    IntRoundTrip(n);
    PrintedIntIsToken(n);
  }

  /** A printed integer holds only a sign and digits. */
  lemma PrintedIntIsToken(n: int)
    ensures var t := IntToString(n); !IsSpace(t[|t| - 1]) && '\t' !in t
  {
    var t := IntToString(n);
    forall i | 0 <= i < |t|
      ensures t[i] != '\t'
    {
      if i > 0 || n >= 0 {
        assert IsDigit(t[i]);
      }
    }
  }

  /** Every integer is a count a run can reach. */
  function AnyCount(n: int): bool
  {
    true
  }

  /** Any count printed by a counting reducer is read back as that count. */
  lemma CountRendersBack()
    ensures RendersBack(CountPolicy(), AnyCount)
  {
    forall n: int
      ensures var t := IntToString(n);
        t != [] && !IsSpace(t[|t| - 1]) && '\t' !in t && ParseCount(t) == Parsed(n)
    {
      CountTokenReadsBack(n);
    }
  }

  /** Feeding a counting reducer's output to it again prints the same lines. */
  lemma CountReduceTwice(lines: seq<string>)
    ensures var out := Expected(CountPolicy(), lines).0;
      Expected(CountPolicy(), out) == (out, true)
  {
    CountRendersBack();
    assert ReachableWithin(CountPolicy(), AnyCount);
    ReduceTwice(CountPolicy(), AnyCount, lines);
  }

  lemma IntMonoid()
    ensures Monoid(AddInt, 0)
  {
  }

  /** The printed counts add up to the sum of all accepted counts, whatever
      the order of the input. */
  lemma CountsAddUp(lines: seq<string>)
    ensures var ps := Scan(CountPolicy(), lines).pairs;
      Total(AddInt, 0, Values(Aggregate(AddInt, ps))) == Total(AddInt, 0, Values(ps))
  {
    IntMonoid();
    AggregateKeepsTotal(AddInt, 0, Scan(CountPolicy(), lines).pairs);
  }

  /** A sum of ones is their number. */
  lemma {:induction false} TotalOfOnes(vs: seq<int>)
    requires forall i :: 0 <= i < |vs| ==> vs[i] == 1
    ensures Total(AddInt, 0, vs) == |vs|
  {
    if vs != [] {
      TotalOfOnes(vs[..|vs| - 1]);
    }
  }

  /** With the input grouped by key and every count 1 (what the counting
      mappers emit), a completed counting reducer prints, for each key, the
      number of lines that carried it. */
  lemma CountsPerKey(lines: seq<string>)
    requires var s := Scan(CountPolicy(), lines);
      Contiguous(s.pairs) && !s.aborted && forall i :: 0 <= i < |s.pairs| ==> s.pairs[i].1 == 1
    ensures var ps := Scan(CountPolicy(), lines).pairs;
      var agg := Aggregate(AddInt, ps);
      && Expected(CountPolicy(), lines) == (RenderAll(CountPolicy(), agg), true)
      && Keys(agg) == DistinctKeys(ps)
      && forall i :: 0 <= i < |agg| ==> agg[i].1 == |ValuesOf(ps, agg[i].0)|
  {
    var ps := Scan(CountPolicy(), lines).pairs;
    var agg := Aggregate(AddInt, ps);
    ExpectedGrouped(CountPolicy(), lines);
    IntMonoid();
    forall i | 0 <= i < |agg|
      ensures agg[i].1 == |ValuesOf(ps, agg[i].0)|
    {
      var vs := ValuesOf(ps, agg[i].0);
      FoldIsTotal(AddInt, 0, vs);
      ValuesOfFrom(ps, agg[i].0);
      TotalOfOnes(vs);
    }
  }

  /** Every value collected for a key is one of the pairs' values. */
  lemma {:induction false} ValuesOfFrom(ps: seq<(string, int)>, k: string)
    requires forall i :: 0 <= i < |ps| ==> ps[i].1 == 1
    ensures forall i :: 0 <= i < |ValuesOf(ps, k)| ==> ValuesOf(ps, k)[i] == 1
  {
    if ps != [] {
      ValuesOfFrom(ps[..|ps| - 1], k);
    }
  }

  // Fare reducer

  /** The fares and fare totals a run can hold: the numbers `float()`
      produces. */
  ghost function Readable(fmt: FloatFormat): real -> bool
  {
    x => Representable(fmt, x)
  }

  /** With a well-behaved number format, every fare total a run can hold
      is printed as a token the fare reducer reads back. */
  lemma FareRendersBack(fmt: FloatFormat)
    requires WellBehaved(fmt)
    ensures RendersBack(FarePolicy(fmt), Readable(fmt))
  {
    forall x: real | Readable(fmt)(x)
      ensures var t := fmt.render(x);
        t != [] && !IsSpace(t[|t| - 1]) && '\t' !in t && ParseFare(fmt, t) == Parsed(x)
    {
      var s :| fmt.parse(s) == Some(x);
      assert RendersCleanly(fmt, fmt.parse(s).value);
    }
  }

  /** Every fare the reducer reads is readable, and so is every sum of them. */
  lemma FareReachable(fmt: FloatFormat)
    requires WellBehaved(fmt)
    ensures ReachableWithin(FarePolicy(fmt), Readable(fmt))
  {
    forall raw | ParseFare(fmt, raw).Parsed?
      ensures Readable(fmt)(ParseFare(fmt, raw).value)
    {
      assert fmt.parse(raw) == Some(ParseFare(fmt, raw).value);
    }
    forall a, b | Readable(fmt)(a) && Readable(fmt)(b)
      ensures Readable(fmt)(AddReal(a, b))
    {
      assert Representable(fmt, a) && Representable(fmt, b);
    }
  }

  /** Feeding the fare reducer's output to it again prints the same lines. */
  lemma FareReduceTwice(fmt: FloatFormat, lines: seq<string>)
    requires WellBehaved(fmt)
    ensures var out := Expected(FarePolicy(fmt), lines).0;
      Expected(FarePolicy(fmt), out) == (out, true)
  {
    FareRendersBack(fmt);
    FareReachable(fmt);
    ReduceTwice(FarePolicy(fmt), Readable(fmt), lines);
  }

  lemma RealMonoid()
    ensures Monoid(AddReal, 0.0)
  {
  }

  /** On exact numbers, the printed daily fare totals add up to the sum of
      every accepted fare. */
  lemma FaresAddUp(fmt: FloatFormat, lines: seq<string>)
    ensures var ps := Scan(FarePolicy(fmt), lines).pairs;
      Total(AddReal, 0.0, Values(Aggregate(AddReal, ps))) == Total(AddReal, 0.0, Values(ps))
  {
    RealMonoid();
    AggregateKeepsTotal(AddReal, 0.0, Scan(FarePolicy(fmt), lines).pairs);
  }

  // Passenger-distance reducer

  /** The two totals never mix: the folded passengers are the fold of the
      passenger counts alone, and likewise for distances. */
  lemma {:induction false} TotalsFoldApart(vs: seq<Totals>)
    requires |vs| > 0
    ensures Fold(AddTotals, vs).passengers == Fold(AddReal, MapSeq((t: Totals) => t.passengers, vs))
    ensures Fold(AddTotals, vs).distance == Fold(AddReal, MapSeq((t: Totals) => t.distance, vs))
  {
    var ps, ds := MapSeq((t: Totals) => t.passengers, vs), MapSeq((t: Totals) => t.distance, vs);
    if |vs| > 1 {
      var init := vs[..|vs| - 1];
      TotalsFoldApart(init);
      assert ps[..|ps| - 1] == MapSeq((t: Totals) => t.passengers, init);
      assert ds[..|ds| - 1] == MapSeq((t: Totals) => t.distance, init);
    }
  }

  /** The value field the passenger-distance mapper prints is read back as
      the two numbers it was printed from. */
  lemma TotalsRoundTrip(fmt: FloatFormat, passengers: real, distance: real)
    requires WellBehaved(fmt) && Representable(fmt, passengers) && Representable(fmt, distance)
    ensures ParseTotals(fmt, fmt.render(passengers) + "," + fmt.render(distance)) == Parsed(Totals(passengers, distance))
  {
    var sp :| fmt.parse(sp) == Some(passengers);
    var sd :| fmt.parse(sd) == Some(distance);
    assert RendersCleanly(fmt, fmt.parse(sp).value) && RendersCleanly(fmt, fmt.parse(sd).value);
    SplitPair(fmt.render(passengers), fmt.render(distance), ',');
  }

  /** Unlike the other reducers, this one prints three tab-separated fields,
      so its own output is not valid input for it: the first printed line
      fed back ends the process. All it takes is that the two totals print
      as clean tokens, as every total a well-behaved format can reach does. */
  lemma PassengerDistanceOutputIsFatal(fmt: FloatFormat, k: string, t: Totals)
    requires IsKey(k) && CleanToken(fmt.render(t.passengers)) && CleanToken(fmt.render(t.distance))
    ensures Classify(PassengerDistancePolicy(fmt), OutputLine(PassengerDistancePolicy(fmt), k, t)).Fatal?
  {
    var a, b := fmt.render(t.passengers), fmt.render(t.distance);
    var line := OutputLine(PassengerDistancePolicy(fmt), k, t);
    assert line == k + ['\t'] + (a + ['\t'] + b);
    assert line[0] == k[0] && line[|line| - 1] == b[|b| - 1];
    StripStripped(line);
    SplitAround(k, a + ['\t'] + b, '\t');
    SplitPair(a, b, '\t');
    SplitNoSeparator(k, '\t');
  }
}
