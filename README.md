# NYC taxi MapReduce scripts, modelled in Dafny

This project models the Hadoop-streaming jobs that aggregate the NYC taxi
trip records, and proves properties of the model:

- **Mappers** (`mapper_fare_per_day`, `mapper_trips_per_payment`,
  `mapper_trips_per_pulocation`, `mapper_passenger_distance_per_day`). Each
  turns one trip record into at most one `key<TAB>value` line. The three
  `lpep` mappers read raw comma-separated lines. They skip blank lines and
  the header, and drop any record whose fields raise inside the `try`. The
  passenger-distance mapper reads `csv.DictReader` rows. Here each row is a
  map from column name to an optional cell.
- **Reducers** (`reducer_trips_per_day`, `reducer_trips_per_payment`,
  `reducer_trips_per_pulocation`, `reducer_fare_per_day`,
  `reducer_passenger_distance_per_day`). All five run the same loop. They
  keep the current key, a running total and the lines printed so far,
  which is the scripts' module state, as fields of the class
  `StreamReducer.Reducer`. The methods `Feed`, `Accept` and `Finish` update
  those fields line by line, and `StreamReducer.Run` is the loop over
  standard input. The scripts differ only in a `Policy`: how the value
  field is parsed, added and printed (module `Policies`).
- **`extract_date_from_filename`** (module `FileNames`) and **`get_quarter`**
  (module `Quarters`).

Two definitions specify the reducer loop:

- `Grouping.Aggregate` folds every maximal run of equal adjacent keys.
- `StreamReducer.Expected` says what a run prints and whether it reaches
  the end of its input.

`Run` is proved equal to `Expected`, and the laws in `ReducerLaws`,
`Policies` and `Pipeline` are proved about `Expected`.

A reducer line is unpacked into key and value outside any `try`. So a
line with the wrong number of tab-separated fields ends the process: the
lines already printed stay, and the run in progress is lost. In the
passenger-distance reducer, a value that is not exactly two numbers does
the same.

Python semantics are written out as follows:

- `strip()` uses `str.isspace`.
- `split(sep)` always gives one more piece than there are separators.
- `int()` accepts surrounding white space, a sign, and digits with single
  underscores.
- `str(int)` is modelled exactly.
- `strptime("%Y-%m-%d %H:%M:%S")` follows CPython's directive patterns and
  then the calendar checks of `datetime`.
- `str(date)` prints `YYYY-MM-DD`.

Floats are exact reals. `float()` and `str(float)` are an abstract
`Numbers.FloatFormat`. `Numbers.WellBehaved` names the properties the
proofs need of it:

- every number `float()` produces prints as one clean token that reads
  back as itself;
- a sum of two such numbers is again one `float()` can produce;
- `float("0")` is zero.

`Numbers.IntegerFormat`, which reads and prints integers, has all three
properties (`Numbers.IntegerFormatWellBehaved`), so the lemmas that assume
them can be used.

Behaviour of the scripts worth noting:

- The reducers do not drop a malformed line. A wrong number of tab fields
  raises and ends the run in all five reducers, and so does a bad value
  pair in the passenger-distance reducer.
- The counting reducers add the parsed count to the total. They do not
  add 1 per pair.
- A new key's total starts as the pair's own value, not as the zero folded
  with it.

## Model

| member | source | states |
|---|---|---|
| StreamReducer.ClassifyBlank | scripts/MapReduce/reducer_trips_per_day.py:8-10 | a line is skipped as blank exactly when it is all white space |
| StreamReducer.ClassifyKey | scripts/MapReduce/reducer_trips_per_day.py:8-16 | an accepted key is non-empty, does not start with white space and holds no tab, so `if current_date` only tests whether a pair was accepted |
| StreamReducer.RenderAll | scripts/MapReduce/reducer_trips_per_day.py:22 | one printed line `key<TAB>total` per aggregated pair, in order |
| StreamReducer.ScanKeys | scripts/MapReduce/reducer_trips_per_day.py:7-16 | the pairs accepted before the first line that raises all have well-formed keys |
| StreamReducer.Reducer.constructor | scripts/MapReduce/reducer_trips_per_day.py:4-5 | no current key, the total at its initial value, nothing printed |
| StreamReducer.Reducer.Feed | scripts/MapReduce/reducer_trips_per_day.py:8-24 | a line that raises is reported and changes nothing; blank and skipped lines change nothing; an accepted pair is appended to the accepted pairs and absorbed as `Absorb` says; the summary invariant is kept |
| StreamReducer.Reducer.Accept | scripts/MapReduce/reducer_trips_per_day.py:18-24 | the new current key, total and printed lines are those of `Absorb`, and the accepted pair is recorded |
| StreamReducer.AbsorbSummarises | scripts/MapReduce/reducer_trips_per_day.py:18-24 | absorbing a pair with the current key grows the total and prints nothing; a new key prints the previous run and restarts the total at the new value; either way printed lines plus the open run stay the aggregate of the accepted pairs |
| StreamReducer.Reducer.Finish | scripts/MapReduce/reducer_trips_per_day.py:26-27 | after the final print the output is every run of the accepted pairs, rendered; nothing is printed when no pair was accepted |
| StreamReducer.Run | scripts/MapReduce/reducer_trips_per_day.py:4-27 | the printed lines and whether the end of input is reached equal `Expected`: all runs when no line raises, otherwise only the runs closed before the raising line |
| StreamReducer.DiesAt | scripts/MapReduce/reducer_trips_per_day.py:12 | when the line read next raises, the expected output is exactly what was printed so far, and the run does not complete |
| StreamReducer.Completes | scripts/MapReduce/reducer_trips_per_day.py:26-27 | when every line has been read and the final print made, the expected output is the rendered aggregate and the run completes |
| ReducerLaws.InertLine | scripts/MapReduce/reducer_trips_per_day.py:9-16 | removing a blank line or a line whose value is skipped changes neither output nor completion |
| ReducerLaws.FatalLine | scripts/MapReduce/reducer_trips_per_day.py:12 | after a line that does not unpack into two fields nothing more is read, and the run does not complete |
| ReducerLaws.FatalSecondLine | scripts/MapReduce/reducer_trips_per_day.py:12 | whatever follows a raising second line is never read |
| ReducerLaws.ScanAppend | scripts/MapReduce/reducer_trips_per_day.py:7-16 | reading two pieces of input in sequence accepts the first piece's pairs then the second's, unless the first piece raised |
| ReducerLaws.OutputCount | scripts/MapReduce/reducer_trips_per_pulocation.py:18-27 | a completed run prints exactly one line per maximal run of equal adjacent keys; no accepted pair, no output |
| ReducerLaws.ExpectedGrouped | scripts/MapReduce/reducer_trips_per_day.py:18-27 | with each key's pairs contiguous, every accepted key is printed once, in order of first appearance, with the fold of all its values |
| ReducerLaws.ClassifyOutputLine | scripts/MapReduce/reducer_trips_per_day.py:22 | a printed line is read back as the pair it was printed from |
| ReducerLaws.ReduceTwice | scripts/MapReduce/reducer_trips_per_day.py:7-27 | reducing a reducer's output again, whether its run completed or not, prints it unchanged and completes |
| ReducerLaws.PrintedRuns | scripts/MapReduce/reducer_trips_per_day.py:18-27 | what a run prints, completed or not, is the rendering of some sequence of key-total pairs |
| ReducerLaws.PrintedRunsWellFormed | scripts/MapReduce/reducer_trips_per_day.py:18-27 | those printed pairs have well-formed keys and no two consecutive keys equal |
| ReducerLaws.PrintedRunsWithin | scripts/MapReduce/reducer_trips_per_day.py:13-24 | when every accepted value and every sum of them lies in a set, so does every printed total |
| Grouping.AdjacentKeysDiffer | scripts/MapReduce/reducer_trips_per_day.py:18-24 | two consecutive printed keys always differ |
| Grouping.AggregateKeys | scripts/MapReduce/reducer_trips_per_day.py:18-24 | every printed key is the key of some accepted pair |
| Grouping.AggregateLength | scripts/MapReduce/reducer_trips_per_pulocation.py:18-27 | the number of aggregated pairs is the number of key runs |
| Grouping.ContiguousGrouping | scripts/MapReduce/reducer_trips_per_day.py:18-27 | for contiguous keys the aggregate lists the distinct keys, each with the fold of that key's values |
| Grouping.AggregateKeepsTotal | scripts/MapReduce/reducer_trips_per_payment.py:18-27 | for an associative addition with a zero, the printed totals add up to the sum of all accepted values, whatever the order |
| Grouping.FoldIsTotal | scripts/MapReduce/reducer_trips_per_day.py:19-24 | seeding with the first value and adding the rest is the sum from zero |
| Grouping.AggregateWithin | scripts/MapReduce/reducer_trips_per_day.py:18-24 | if all values lie in a set closed under the addition, so does every aggregated total |
| Numbers.IntToString | scripts/MapReduce/reducer_trips_per_day.py:22 | `str(n)`: a minus sign exactly for negative numbers, then decimal digits |
| Numbers.ParseIntHasDigit | scripts/MapReduce/reducer_trips_per_day.py:14 | whatever `int()` accepts holds at least one ASCII digit |
| Numbers.ParseUnsigned | scripts/MapReduce/reducer_trips_per_day.py:14 | `int()` of a string of digits is its decimal value |
| Numbers.ParseNegative | scripts/MapReduce/reducer_trips_per_day.py:14 | `int()` of a minus sign followed by digits is the negated decimal value |
| Numbers.ParseIntStripped | scripts/MapReduce/reducer_trips_per_day.py:14 | on text without surrounding white space `int()` is the sign-and-digit-body reading |
| Numbers.ParseBody | scripts/MapReduce/reducer_trips_per_day.py:14 | a digit body accepted is digits with single underscores between them |
| Numbers.IntRoundTrip | scripts/MapReduce/reducer_trips_per_day.py:14-22 | `int(str(n)) == n` |
| Numbers.IntegerFormatWellBehaved | scripts/MapReduce/reducer_fare_per_day.py:14-22 | a format that reads integers and prints them with `str(int)` meets every property the float proofs assume |
| Policies.ParseCount | scripts/MapReduce/reducer_trips_per_day.py:13-16 | a count `int()` rejects is skipped, never fatal; an accepted count is the parsed integer |
| Policies.CountTokenReadsBack | scripts/MapReduce/reducer_trips_per_day.py:22 | a printed count is a single tab-free token read back as the same count |
| Policies.CountReduceTwice | scripts/MapReduce/reducer_trips_per_payment.py:7-27 | a counting reducer's output reduces to itself |
| Policies.CountsAddUp | scripts/MapReduce/reducer_trips_per_payment.py:18-27 | the aggregated counts sum to the sum of all accepted counts |
| Policies.TotalOfOnes | scripts/MapReduce/reducer_trips_per_day.py:19 | adding up n ones gives n |
| Policies.CountsPerKey | scripts/MapReduce/reducer_trips_per_day.py:18-27 | with contiguous keys and every count 1, each key is printed once with the number of lines that carried it |
| Policies.ParseFare | scripts/MapReduce/reducer_fare_per_day.py:13-16 | a fare `float()` rejects is skipped, never fatal |
| Policies.FareReduceTwice | scripts/MapReduce/reducer_fare_per_day.py:7-27 | for a well-behaved float format, a fare reducer's output, whether its run completed or not, reduces to itself |
| Policies.FareRendersBack | scripts/MapReduce/reducer_fare_per_day.py:14-22 | for a well-behaved float format, every number `float()` can produce prints as a tab-free token the fare reducer reads back as that number |
| Policies.FareReachable | scripts/MapReduce/reducer_fare_per_day.py:14-24 | every fare the reducer accepts, and every sum of such fares, is a number `float()` can produce |
| Policies.FaresAddUp | scripts/MapReduce/reducer_fare_per_day.py:18-27 | on exact numbers, the aggregated daily totals sum to the sum of every accepted fare |
| Policies.ParseTotals | scripts/MapReduce/reducer_passenger_distance_per_day.py:13 | the value is accepted exactly when it is two comma-separated numbers, and otherwise raises |
| Policies.TotalsFoldApart | scripts/MapReduce/reducer_passenger_distance_per_day.py:15-24 | the passenger total is the fold of the passenger counts alone, and the distance total that of the distances alone |
| Policies.TotalsRoundTrip | scripts/MapReduce/mapper_passenger_distance_per_day.py:13 | for numbers `float()` can produce, the value field `passengers,distance` is read back as the two numbers it was printed from |
| Policies.PassengerDistanceOutputIsFatal | scripts/MapReduce/reducer_passenger_distance_per_day.py:21 | when both totals print as clean tokens, a printed line `key<TAB>p<TAB>d` has three tab-separated fields, so the reducer dies on its own output |
| Text.Strip | scripts/MapReduce/reducer_trips_per_day.py:8 | `strip()` leaves no white space at either end |
| Text.StripEmpty | scripts/MapReduce/reducer_trips_per_day.py:8-10 | `strip()` gives the empty string exactly for all-white-space input |
| Text.Split | scripts/MapReduce/reducer_trips_per_day.py:12 | `split(sep)` gives one more piece than there are separators |
| Text.SplitPiecesFree | scripts/MapReduce/reducer_trips_per_day.py:12 | no piece of `split(sep)` holds the separator |
| Text.JoinSplit | scripts/MapReduce/reducer_trips_per_day.py:12 | joining the pieces of `split(sep)` with the separator gives the input back |
| Text.SplitFirst | scripts/MapReduce/mapper_passenger_distance_per_day.py:9 | the first piece of `split(sep)` is a prefix of the input that ends at the input's end or at a separator |
| Text.StripAvoids | scripts/MapReduce/reducer_trips_per_day.py:8 | `strip()` of a string with a non-space character is non-empty and brings in no character the input did not hold |
| Text.RemoveAll | scripts/combine_csv_files.py:21 | `replace(pat, "")` never lengthens the string |
| Text.RemoveAllAvoids | scripts/combine_csv_files.py:21 | `replace(pat, "")` brings in no character the input did not hold |
| Mappers.Fields | scripts/MapReduce/mapper_trips_per_payment.py:5-9 | a stripped line always has at least one comma-separated field |
| Mappers.FieldsCommaFree | scripts/MapReduce/mapper_trips_per_payment.py:5-9 | no field contains a comma |
| Mappers.CountKey | scripts/MapReduce/mapper_trips_per_payment.py:5-14 | a key exists exactly when the line is neither blank nor the header and has the field; the key is that field, stripped, and may be empty |
| Mappers.CountKeyCommaFree | scripts/MapReduce/mapper_trips_per_payment.py:9-11 | a key holds no comma |
| Mappers.MapCountLine | scripts/MapReduce/mapper_trips_per_payment.py:11-12 | the key, a tab and the count `1`, printed exactly when the record has a key |
| Mappers.MapFareLine | scripts/MapReduce/mapper_fare_per_day.py:5-17 | a line is printed only for a record with at least 13 fields whose pick-up parses as a valid timestamp and whose fare parses |
| Mappers.MapFareOfRecord | scripts/MapReduce/mapper_fare_per_day.py:12-15 | a record whose pick-up is a printed timestamp is mapped to that timestamp's day and its fare |
| Mappers.MapFareParsed | scripts/MapReduce/mapper_fare_per_day.py:12-15 | a record whose pick-up cell parses as a timestamp and whose fare parses is printed as that timestamp's day, a tab and the fare |
| Mappers.NumberText | scripts/MapReduce/mapper_passenger_distance_per_day.py:10-11 | an empty or missing cell prints `0`; any other cell prints exactly when `float()` reads it, as the number read |
| Mappers.PickupDate | scripts/MapReduce/mapper_passenger_distance_per_day.py:9 | a date exists exactly when the column and its cell are present; it is the text of the cell up to the first space or the end, and holds no space |
| Mappers.MapPassengerDistanceRow | scripts/MapReduce/mapper_passenger_distance_per_day.py:8-15 | a line is printed exactly when both number columns exist, the pick-up date exists and both number cells read; the line is the date, a tab, the passengers text, a comma and the distance text |
| Mappers.EmitAll | scripts/MapReduce/mapper_trips_per_payment.py:4-14 | at most one output line per record |
| Mappers.EmitAllFrom | scripts/MapReduce/mapper_trips_per_pulocation.py:4-14 | every printed line was printed for some record |
| Mappers.EmitAllAppend | scripts/MapReduce/mapper_fare_per_day.py:5-17 | mapping two pieces of input prints the two outputs in sequence, so records are independent |
| Calendar.DaysInMonth | scripts/MapReduce/mapper_fare_per_day.py:14 | 28 to 31 days, 29 exactly for February of a Gregorian leap year |
| Calendar.ParseDateTime | scripts/MapReduce/mapper_fare_per_day.py:14 | a timestamp `strptime` accepts is a valid calendar date and time |
| Calendar.IsoDate | scripts/MapReduce/mapper_fare_per_day.py:15 | `str(date)` is ten characters, digits except the two dashes at positions 4 and 7 |
| Calendar.ParsePrinted | scripts/MapReduce/mapper_fare_per_day.py:14 | `strptime` reads a printed `YYYY-MM-DD HH:MM:SS` timestamp back as itself |
| Calendar.PickupDayOfPrinted | scripts/MapReduce/mapper_fare_per_day.py:14-15 | the day printed for a timestamp is its date |
| Pipeline.KeyedLine | scripts/MapReduce/reducer_trips_per_day.py:8-12 | a mapper line `key<TAB>value` is read as that key and value when the key is a key, and ends the reducer when it is empty or holds a tab |
| Pipeline.CountLineAtReducer | scripts/MapReduce/mapper_trips_per_payment.py:11-12 | a counting mapper's line is counted as 1 under its key when the key is a key, and ends the reducer otherwise |
| Pipeline.BlankKeyFieldMapped | scripts/MapReduce/mapper_trips_per_payment.py:9-12 | a record whose key field is empty is printed as `<TAB>1` |
| Pipeline.EmptyKeyLosesRun | scripts/MapReduce/reducer_trips_per_payment.py:8-24 | a counting reducer meeting `<TAB>1` after some key's line dies with nothing printed |
| Pipeline.MapCountLineChecked | scripts/MapReduce/mapper_trips_per_payment.py:9-14 | the corrected counting mapper prints the same line, but only for records whose key is a key |
| Pipeline.CheckedCountLineAccepted | scripts/MapReduce/mapper_trips_per_payment.py:11-12 | every line of the corrected counting mapper is counted as 1 under its record's key |
| Pipeline.IsoDateIsKey | scripts/MapReduce/mapper_fare_per_day.py:15 | a printed day is a valid reducer key |
| Pipeline.FareLineAtReducer | scripts/MapReduce/mapper_fare_per_day.py:15 | every fare-mapper line is accepted by the fare reducer as the record's pick-up day and fare |
| Pipeline.NumberTextReadsBack | scripts/MapReduce/mapper_passenger_distance_per_day.py:10-11 | a printed number cell is one clean token read back as the number the cell stands for |
| Pipeline.PassengerDistanceLineAtReducer | scripts/MapReduce/mapper_passenger_distance_per_day.py:9-13 | a passenger-distance line is accepted as the row's date and both numbers when the date is a key, and ends the reducer when the date is empty |
| Pipeline.BlankPickupEndsReducer | scripts/MapReduce/mapper_passenger_distance_per_day.py:9-13 | a row with an empty pick-up cell and tab-free number texts is printed with an empty date, which ends the reducer |
| Pipeline.BlankRowEndsReducer | scripts/MapReduce/mapper_passenger_distance_per_day.py:9-13 | a row whose three cells are all empty is printed as `<TAB>0,0`, which ends the reducer, for any float format |
| Pipeline.UntabbedValueFatal | scripts/MapReduce/reducer_passenger_distance_per_day.py:8-13 | a line that is a tab followed by a tab-free `p,d` strips to one field, so the unpack raises |
| Pipeline.MapPassengerDistanceRowChecked | scripts/MapReduce/mapper_passenger_distance_per_day.py:8-15 | the corrected mapper prints the same line, but only for rows whose date is a key |
| Pipeline.CheckedPassengerDistanceLineAccepted | scripts/MapReduce/mapper_passenger_distance_per_day.py:13 | every line of the corrected mapper is accepted as its row's date and totals |
| Pipeline.ScanOfAccepted | scripts/MapReduce/reducer_trips_per_day.py:7-16 | when every line is accepted, none raises and the pairs are the lines' pairs in order |
| Pipeline.ShuffledFrom | scripts/MapReduce/mapper_trips_per_payment.py:4-14 | every line of a reordering of a mapper's output was printed for some record |
| Pipeline.RecordsWithKeyLines | scripts/MapReduce/mapper_trips_per_payment.py:4-14 | the corrected counting mapper prints `key<TAB>1` exactly once per record counted under that key |
| Pipeline.TripsCounted | scripts/MapReduce/reducer_trips_per_payment.py:7-27 | payment-type and location jobs with the corrected mapper and a grouping shuffle: every line is read, and each key is printed once with the number of lines that carried it, which is the number of records counted under that key |
| Pipeline.FaresPerDay | scripts/MapReduce/reducer_fare_per_day.py:7-27 | fare job with a grouping shuffle: every line is read as a record's day and fare, and each day is printed once with the sum of its fares |
| Pipeline.PassengersAndDistancePerDay | scripts/MapReduce/reducer_passenger_distance_per_day.py:8-28 | passenger-distance job with the corrected mapper and a grouping shuffle: every line is read as a row's date and numbers, and each date is printed once with both totals |
| FileNames.DatePart | scripts/combine_csv_files.py:21 | the last `_`-separated piece with `.csv` removed holds no `_` |
| FileNames.ExtractDateFromFilename | scripts/combine_csv_files.py:17-25 | a result exists exactly when the date part holds one dash, and is that date part followed by `-01` |
| FileNames.ExtractDateOfName | scripts/combine_csv_files.py:21-23 | any `<prefix>_<year>-<month>.csv` gives `<year>-<month>-01`, with year and month unchecked |
| FileNames.MonthlyFileExample | scripts/combine_csv_files.py:18-23 | `yellow_tripdata_2023-01.csv` gives `2023-01-01` |
| FileNames.InnerSuffixRemoved | scripts/combine_csv_files.py:21 | `.csv` is removed wherever it occurs, not only at the end |
| Quarters.GetQuarter | scripts/MapReduce/visuals_per_quarter.py:23-31 | always one of the four labels; months 1 to 12 get label number (m-1)/3; every value outside 1 to 9, `NaN` included, is Q4 |
| Quarters.QuarterNumber | scripts/MapReduce/visuals_per_quarter.py:39 | a label's place in `quarter_order` |
| Quarters.LabelsDistinct | scripts/MapReduce/visuals_per_quarter.py:39 | the four labels are pairwise different |
| Quarters.QuarterMonotone | scripts/MapReduce/visuals_per_quarter.py:24-31 | for months 1 ≤ m ≤ n ≤ 12 the quarter of m comes no later than that of n |

## Left out

- Standard input and output: input is a sequence of lines, and output is the sequence of printed lines.
- The sort and shuffle between mapper and reducer. The whole-job lemmas take a reordering of the mapper output with each key's lines contiguous as a precondition.
- Floating point: sums are exact reals. `float()` and `str(float)` are abstract, so the printed text of a sum such as `8.0` against `8` is not modelled.
- Policies.FaresAddUp: holds over exact reals only, because float addition rounds.
- Numbers.WellBehaved: asks that the sum of two numbers `float()` can produce is again one; with rounding floats this holds only because the model adds exactly.
- `int()` on non-ASCII Unicode digits and its 4300-digit limit: `int()` is modelled on ASCII digits only.
- `strptime` on non-ASCII digits or white space, and its locale handling: only ASCII digits and the listed white space are modelled.
- CSV quoting and header handling of `csv.DictReader`: a row is given as a map from column name to an optional cell.
- pandas in `visuals_per_quarter.py`: `to_datetime` and `.dt.month` are represented by the month argument of `GetQuarter`, with `None` for `NaN`. The grouping, plotting and saving are not modelled.
- `main` of `combine_csv_files.py`, and the other scripts of the repository: HDFS and subprocess calls, pandas, plotting.
- The three counting reducers share one policy (`Policies.CountPolicy`), as their code is the same apart from variable names.
- The passenger-distance reducer's initial totals are the integer `0`. That value is never printed, so `0.0` stands for it.

## Findings

| source | as written | input that shows it | evidently intended | confidence | as-written member | corrected member |
|---|---|---|---|---|---|---|
| scripts/MapReduce/mapper_trips_per_payment.py:11-12 | the counting mappers (payment type, and pick-up location at mapper_trips_per_pulocation.py:11-12) print the key field even when it is empty, as `<TAB>1`; the reducer strips that to `1`, the unpack at reducer_trips_per_payment.py:12 raises, and the job dies, losing the count in progress | a record whose field 19 is empty, e.g. fields `2,2023-01-01 00:26:10,…` with nothing between the 19th and 20th commas, reduced after a line `1<TAB>1` | a record with an empty key is passed over like any other record the mapper cannot use | medium, not executed | Pipeline.EmptyKeyLosesRun | Pipeline.MapCountLineChecked |
| scripts/MapReduce/mapper_passenger_distance_per_day.py:9-13 | a row with an empty `tpep_pickup_datetime` cell is printed with an empty date as `<TAB>p,d`; the reducer strips away the tab, the unpack at reducer_passenger_distance_per_day.py:12 raises, and the job dies | a row with `tpep_pickup_datetime` empty, `passenger_count` `1`, `trip_distance` empty | a row without a pick-up date is passed over | medium, not executed | Pipeline.BlankRowEndsReducer | Pipeline.MapPassengerDistanceRowChecked |
