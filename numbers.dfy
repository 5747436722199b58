/** Number parsing and rendering. `int()` and `str()` on integers are
    modelled exactly (ASCII digits); `float()` and `str()` on floats stay
    abstract, as a `FloatFormat` over exact reals. */
module Numbers {
  import opened Wrappers
  import opened Text

  predicate IsDigit(c: char)
  {
    '0' <= c <= '9'
  }

  /** No digit is white space. */
  lemma DigitNotSpace(c: char)
    requires IsDigit(c)
    ensures !IsSpace(c)
  {
  }

  predicate AllDigits(s: string)
  {
    forall i :: 0 <= i < |s| ==> IsDigit(s[i])
  }

  function DigitValue(c: char): nat
    requires IsDigit(c)
  {
    c as int - '0' as int
  }

  function DigitChar(d: nat): (c: char)
    requires d < 10
    ensures IsDigit(c) && DigitValue(c) == d
  {
    ('0' as int + d) as char
  }

  /** The value of a run of decimal digits, most significant first. */
  function DigitsValue(s: string): nat
    requires AllDigits(s)
  {
    if s == [] then 0 else DigitsValue(s[..|s| - 1]) * 10 + DigitValue(s[|s| - 1])
  }

  /** The decimal digits of `n` without leading zeros ("0" for zero). */
  function NatToDigits(n: nat): (r: string)
    ensures |r| > 0 && AllDigits(r)
    ensures r[0] == '0' ==> n == 0
    ensures DigitsValue(r) == n
  {
    if n < 10 then [DigitChar(n)]
    else
      var r := NatToDigits(n / 10) + [DigitChar(n % 10)];
      assert r[..|r| - 1] == NatToDigits(n / 10);
      r
  }

  /** `str(n)` for a Python int. */
  function IntToString(n: int): (r: string)
    ensures r != [] && IsDigit(r[|r| - 1])
    ensures r[0] == '-' <==> n < 0
    ensures forall i :: 0 < i < |r| ==> IsDigit(r[i])
    ensures n >= 0 ==> AllDigits(r)
  {
    if n < 0 then "-" + NatToDigits(-n) else NatToDigits(n)
  }

  /** The digits of a base-10 integer literal as `int()` accepts them:
      digits, with single underscores allowed between two digits. */
  predicate IsDigitBody(s: string)
  {
    && |s| > 0
    && IsDigit(s[0]) && IsDigit(s[|s| - 1])
    && (forall i :: 0 <= i < |s| ==> IsDigit(s[i]) || s[i] == '_')
    && (forall i, j :: 0 <= i < |s| && 0 <= j < |s| && j == i + 1 ==> s[i] == '_' ==> s[j] != '_')
  }

  function DropUnderscores(s: string): (r: string)
    requires forall i :: 0 <= i < |s| ==> IsDigit(s[i]) || s[i] == '_'
    ensures AllDigits(r)
  {
    if s == [] then []
    else if s[0] == '_' then DropUnderscores(s[1..])
    else [s[0]] + DropUnderscores(s[1..])
  }

  /** `int(s)`: surrounding white space is ignored, an optional sign, then a
      digit body; anything else raises `ValueError`, modelled as `None`. */
  function ParseInt(s: string): Option<int>
  {
    ParseStripped(Strip(s))
  }

  /** `int()` on text without surrounding white space: an optional sign,
      then a digit body. */
  function ParseStripped(t: string): Option<int>
  {
    if t != [] && (t[0] == '+' || t[0] == '-') then
      match ParseBody(t[1..])
      case Some(n) => Some(if t[0] == '-' then -n else n)
      case None => None
    else ParseBody(t)
  }

  /** Whatever `int()` accepts holds at least one digit. */
  lemma ParseIntHasDigit(s: string)
    requires ParseInt(s).Some?
    ensures exists i :: 0 <= i < |s| && IsDigit(s[i])
  {
    var t := Strip(s);
    var k := if t[0] == '+' || t[0] == '-' then 1 else 0;
    assert IsDigit(t[k]);
    StripIsInfix(s);
    assert t[k] in s;
  }

  /** The value of a digit body, `None` for anything else. */
  function ParseBody(body: string): (r: Option<int>)
    ensures r.Some? ==> IsDigitBody(body)
  {
    if IsDigitBody(body) then Some(DigitsValue(DropUnderscores(body))) else None
  }

  lemma {:induction false} DropUnderscoresOfDigits(s: string)
    requires AllDigits(s)
    ensures DropUnderscores(s) == s
  {
    if s != [] {
      DropUnderscoresOfDigits(s[1..]);
    }
  }

  /** A run of digits is a digit body with no underscore to drop. */
  lemma DigitsAreBody(d: string)
    requires |d| > 0 && AllDigits(d)
    ensures IsDigitBody(d) && DropUnderscores(d) == d
  {
    DropUnderscoresOfDigits(d);
  }

  /** On text without surrounding white space `int()` is `ParseStripped`. */
  lemma ParseIntStripped(s: string)
    requires IsStripped(s)
    ensures ParseInt(s) == ParseStripped(s)
  {
    StripStripped(s);
  }

  /** `int()` reads a run of digits as its value. */
  lemma ParseUnsigned(d: string)
    requires |d| > 0 && AllDigits(d)
    ensures ParseInt(d) == Some(DigitsValue(d))
  {
    ParseIntStripped(d);
    UnsignedStripped(d);
  }

  lemma UnsignedStripped(d: string)
    requires |d| > 0 && AllDigits(d)
    ensures ParseStripped(d) == Some(DigitsValue(d))
  {
    DigitsAreBody(d);
  }

  /** `int()` reads a minus sign followed by a run of digits as the
      negated value of the digits. */
  lemma ParseNegative(s: string)
    requires |s| > 1 && s[0] == '-' && AllDigits(s[1..])
    ensures ParseInt(s) == Some(-(DigitsValue(s[1..]) as int))
  {
    assert s[|s| - 1] == s[1..][|s| - 2];
    ParseIntStripped(s);
    NegativeStripped(s);
  }

  lemma NegativeStripped(t: string)
    requires |t| > 1 && t[0] == '-' && AllDigits(t[1..])
    ensures ParseStripped(t) == Some(-(DigitsValue(t[1..]) as int))
  {
    UnsignedBody(t[1..]);
  }

  /** `int(str(n)) == n` for every integer `n`. */
  lemma IntRoundTrip(n: int)
    ensures ParseInt(IntToString(n)) == Some(n)
  {
    var s := IntToString(n);
    if n < 0 {
      var d := NatToDigits(-n);
      assert s[1..] == d;
      ParseNegative(s);
    } else {
      ParseUnsigned(s);
    }
  }

  lemma UnsignedBody(d: string)
    requires |d| > 0 && AllDigits(d)
    ensures ParseBody(d) == Some(DigitsValue(d))
  {
    DigitsAreBody(d);
  }

  /** The number text the float-valued scripts read and write, kept
      abstract: `parse` is `float()` (`None` for `ValueError`) and `render`
      is `str()` of a float. Values are exact reals. */
  datatype FloatFormat = FloatFormat(parse: string -> Option<real>, render: real -> string)

  /** What the wire format needs of a printed number: one non-empty token
      without white space at its ends, without tabs or commas. */
  predicate CleanToken(t: string)
  {
    t != [] && IsStripped(t) && '\t' !in t && ',' !in t
  }

  /** A number printed as a clean token that parses back to itself. */
  predicate RendersCleanly(f: FloatFormat, x: real)
  {
    CleanToken(f.render(x)) && f.parse(f.render(x)) == Some(x)
  }

  /** `+` on the exact numbers that stand for floats. */
  function AddReal(a: real, b: real): real
  {
    a + b
  }

  /** A number `float()` can produce from some text. */
  ghost predicate Representable(f: FloatFormat, x: real)
  {
    exists s :: f.parse(s) == Some(x)
  }

  /** What Python's `float()` and `str()` give the scripts: every number
      `float()` produces prints as a clean token that reads back as itself,
      the sum of two such numbers is again one (sums are exact here), and
      `float("0")` is `0.0`. */
  ghost predicate WellBehaved(f: FloatFormat)
  {
    && (forall s | f.parse(s).Some? :: RendersCleanly(f, f.parse(s).value))
    && (forall x, y {:trigger Representable(f, AddReal(x, y))} ::
          Representable(f, x) && Representable(f, y) ==> Representable(f, AddReal(x, y)))
    && f.parse("0") == Some(0.0)
  }

  /** Numbers written as Python integers: `int()` reads them, `str()` of
      the integer prints them. */
  function IntegerFormat(): FloatFormat
  {
    FloatFormat(
      ReadInteger,
      (x: real) => IntToString(x.Floor))
  }

  /** `int(s)` as a number. */
  function ReadInteger(s: string): Option<real>
  {
    match ParseInt(s)
    case Some(n) => Some(n as real)
    case None => None
  }

  /** A printed integer is a clean token. */
  lemma IntTextClean(n: int)
    ensures CleanToken(IntToString(n))
  {
    var t := IntToString(n);
    DigitNotSpace(t[|t| - 1]);
    if n >= 0 {
      DigitNotSpace(t[0]);
    }
    forall i | 0 <= i < |t|
      ensures t[i] != '\t' && t[i] != ','
    {
      if i > 0 || n >= 0 {
        assert IsDigit(t[i]);
      }
    }
  }

  /** The integer format meets every demand of `WellBehaved`, so the
      predicate is satisfiable. */
  lemma IntegerFormatWellBehaved()
    ensures WellBehaved(IntegerFormat())
  {
    IntegerReadsClean();
    IntegerSumsRepresentable();
    IntegerReadsZero();
  }

  lemma IntegerReadsClean()
    ensures var f := IntegerFormat();
      forall s | f.parse(s).Some? :: RendersCleanly(f, f.parse(s).value)
  {
    var f := IntegerFormat();
    forall s | f.parse(s).Some?
      ensures RendersCleanly(f, f.parse(s).value)
    {
      IntegerReadClean(s);
    }
  }

  lemma IntegerSumsRepresentable()
    ensures var f := IntegerFormat();
      forall x, y {:trigger Representable(f, AddReal(x, y))} ::
        Representable(f, x) && Representable(f, y) ==> Representable(f, AddReal(x, y))
  {
    var f := IntegerFormat();
    forall x, y {:trigger Representable(f, AddReal(x, y))} | Representable(f, x) && Representable(f, y)
      ensures Representable(f, AddReal(x, y))
    {
      IntegerSumOf(x, y);
    }
  }

  /** The sum of two integers the format reads is one it reads too. */
  lemma IntegerSumOf(x: real, y: real)
    requires Representable(IntegerFormat(), x) && Representable(IntegerFormat(), y)
    ensures Representable(IntegerFormat(), AddReal(x, y))
  {
    IntegerValue(x);
    IntegerValue(y);
    var k := x.Floor + y.Floor;
    PrintedRepresentable(k);
    assert k as real == AddReal(x, y);
  }

  /** Every integer is a number the integer format can read. */
  lemma PrintedRepresentable(n: int)
    ensures Representable(IntegerFormat(), n as real)
  {
    ReadPrinted(n);
    assert IntegerFormat().parse(IntToString(n)) == Some(n as real);
  }

  /** The integer format reads only integers. */
  lemma IntegerValue(x: real)
    requires Representable(IntegerFormat(), x)
    ensures x == x.Floor as real
  {
    var s :| IntegerFormat().parse(s) == Some(x);
    assert ReadInteger(s) == Some(x);
  }

  /** An integer read by the integer format prints back as itself. */
  lemma IntegerReadClean(s: string)
    requires ParseInt(s).Some?
    ensures RendersCleanly(IntegerFormat(), ParseInt(s).value as real)
  {
    var n := ParseInt(s).value;
    assert (n as real).Floor == n;
    IntTextClean(n);
    IntRoundTrip(n);
  }

  /** A printed integer reads back as itself. */
  lemma ReadPrinted(n: int)
    ensures ReadInteger(IntToString(n)) == Some(n as real)
  {
    var t := IntToString(n);
    IntRoundTrip(n);
    assert ParseInt(t) == Some(n);
  }

  lemma IntegerReadsZero()
    ensures ReadInteger("0") == Some(0.0)
  {
    IntRoundTrip(0);
    assert IntToString(0) == "0";
  }

  lemma WellBehavedExists()
    ensures exists f :: WellBehaved(f)
  {
    IntegerFormatWellBehaved();
  }
}
