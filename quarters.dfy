/** `get_quarter`: the label of the calendar quarter a month number falls
    in, as the quarterly chart groups trip counts. */
module Quarters {
  import opened Wrappers

  const Q1: string := "Q1 (Jan\U{2013}Mar)"
  const Q2: string := "Q2 (Apr\U{2013}Jun)"
  const Q3: string := "Q3 (Jul\U{2013}Sep)"
  const Q4: string := "Q4 (Oct\U{2013}Dec)"

  /** `quarter_order`: the chart's order of the four labels. */
  const QuarterOrder: seq<string> := [Q1, Q2, Q3, Q4]

  /** The month number of a parsed date, `None` standing for the `NaN` of
      a date pandas could not parse. Months 1 to 9 get their own quarter;
      every other value, `NaN` included, falls to the `else` and is Q4. */
  function GetQuarter(month: Option<int>): (q: string)
    ensures q in QuarterOrder
    ensures month.Some? && 1 <= month.value <= 12 ==> q == QuarterOrder[(month.value - 1) / 3]
    ensures !(month.Some? && 1 <= month.value <= 9) ==> q == Q4
  {
    match month
    case Some(m) =>
      if m in [1, 2, 3] then Q1
      else if m in [4, 5, 6] then Q2
      else if m in [7, 8, 9] then Q3
      else Q4
    case None => Q4
  }

  /** A label's place in the chart's order. */
  function QuarterNumber(q: string): (i: nat)
    requires q in QuarterOrder
    ensures i < |QuarterOrder| && QuarterOrder[i] == q
  {
    if q == Q1 then 0 else if q == Q2 then 1 else if q == Q3 then 2 else 3
  }

  /** The four labels are different, so each has one place. */
  lemma LabelsDistinct()
    ensures forall i, j :: 0 <= i < j < |QuarterOrder| ==> QuarterOrder[i] != QuarterOrder[j]
  {
    assert Q1[1] == '1' && Q2[1] == '2' && Q3[1] == '3' && Q4[1] == '4';
  }

  /** Later months never fall in an earlier quarter of the chart. */
  lemma QuarterMonotone(m: int, n: int)
    requires 1 <= m <= n <= 12
    ensures QuarterNumber(GetQuarter(Some(m))) <= QuarterNumber(GetQuarter(Some(n)))
  {
    LabelsDistinct();
    var i, j := QuarterNumber(GetQuarter(Some(m))), QuarterNumber(GetQuarter(Some(n)));
    assert i == (m - 1) / 3;
    assert j == (n - 1) / 3;
  }
}
