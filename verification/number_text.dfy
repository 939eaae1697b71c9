/** The text forms of numbers in a properties file: `Long.toString`,
    `Long.parseLong` (radix 10), and the classification of a property's text
    that `ArchiveResourceManager.getNumber` performs. */
module NumberText {
  import opened Results
  import opened Values

  const MinLong: int := -0x8000_0000_0000_0000
  const MaxLong: int := 0x7fff_ffff_ffff_ffff

  predicate IsDigit(c: char) { '0' <= c <= '9' }

  predicate AllDigits(s: string)
  {
    forall i :: 0 <= i < |s| ==> IsDigit(s[i])
  }

  /** The value of a run of decimal digits, most significant first. */
  function DigitsValue(ds: string): nat
    requires AllDigits(ds)
  {
    if ds == [] then 0
    else DigitsValue(ds[..|ds| - 1]) * 10 + (ds[|ds| - 1] as int - '0' as int)
  }

  /** The decimal digits of `m`, without leading zeros. */
  function Digits(m: nat): (ds: string)
    ensures |ds| > 0 && AllDigits(ds)
    ensures |ds| > 1 ==> ds[0] != '0'
  {
    if m < 10 then [('0' as int + m) as char]
    else Digits(m / 10) + [('0' as int + m % 10) as char]
  }

  /** `Long.toString(n)`: a minus sign for a negative number, then the
      digits of its magnitude. */
  function LongToString(n: int64): (s: string)
    ensures |s| > 0
    ensures n < 0 <==> s[0] == '-'
    ensures AllDigits(if n < 0 then s[1..] else s)
  {
    if n < 0 then "-" + Digits(-(n as int)) else Digits(n as int)
  }

  /** The syntax `Long.parseLong` accepts: an optional `-` or `+` sign and at
      least one digit. */
  predicate IsLongSyntax(s: string)
  {
    var body := if |s| > 0 && (s[0] == '-' || s[0] == '+') then s[1..] else s;
    |body| > 0 && AllDigits(body)
  }

  /** The integer a text in that syntax denotes. */
  function SyntaxValue(s: string): int
    requires IsLongSyntax(s)
  {
    if s[0] == '-' then 0 - DigitsValue(s[1..]) as int
    else if s[0] == '+' then DigitsValue(s[1..])
    else DigitsValue(s)
  }

  /** `Long.parseLong(s)`: `None` where Java throws NumberFormatException
      (an empty text, a lone sign, a character that is not a digit, a value
      outside the range of `long`). */
  function ParseLong(s: string): (r: Option<int64>)
    ensures r.Some? <==> IsLongSyntax(s) && MinLong <= SyntaxValue(s) <= MaxLong
    ensures r.Some? ==> r.value as int == SyntaxValue(s)
  {
    if !IsLongSyntax(s) then None
    else
      var v := SyntaxValue(s);
      if MinLong <= v <= MaxLong then Some(v as int64) else None
  }

  lemma {:induction false} DigitsRoundTrip(m: nat)
    ensures DigitsValue(Digits(m)) == m
  {
    var ds := Digits(m);
    if m >= 10 {
      DigitsRoundTrip(m / 10);
      assert ds[..|ds| - 1] == Digits(m / 10);
    }
  }

  /** `Long.parseLong(Long.toString(n)) == n` for every `long`. */
  lemma LongTextRoundTrip(n: int64)
    ensures ParseLong(LongToString(n)) == Some(n)
  {
    var s := LongToString(n);
    if n < 0 {
      DigitsRoundTrip(-(n as int));
      assert s[1..] == Digits(-(n as int));
    } else {
      DigitsRoundTrip(n as int);
    }
  }

  /** What `getNumber` returns. `DoubleText(t)` stands for
      `Double.parseDouble(t)`; floating-point values are not modelled. */
  datatype Number =
    | LongValue(n: int64)
    | PositiveInfinity
    | NegativeInfinity
    | NotANumber
    | DoubleText(text: string)

  /** The NumberFormatException of `getNumber`, with the offending text. */
  datatype NumberFormatError = NumberFormatError(text: string)

  /** The classification in `getNumber`. `parsesAsDouble` says whether
      `Double.parseDouble` accepts a text; it decides only texts with a `.`. */
  function ClassifyNumber(text: string, parsesAsDouble: string -> bool): (r: Result<Number, NumberFormatError>)
    ensures r == Ok(PositiveInfinity) <==> text == "inf"
    ensures r == Ok(NegativeInfinity) <==> text == "-inf"
    ensures r == Ok(NotANumber) <==> text == "nan" || text == "NaN"
    ensures r.Ok? && r.value.DoubleText? <==> '.' in text && parsesAsDouble(text)
    ensures r.Ok? && r.value.DoubleText? ==> r.value.text == text
    ensures r.Ok? && r.value.LongValue? <==> '.' !in text && ParseLong(text).Some?
    ensures r.Ok? && r.value.LongValue? ==> Some(r.value.n) == ParseLong(text)
    ensures r.Err? ==> r.error == NumberFormatError(text)
  {
    if text == "inf" then Ok(PositiveInfinity)
    else if text == "-inf" then Ok(NegativeInfinity)
    else if text == "nan" || text == "NaN" then Ok(NotANumber)
    else if '.' in text then
      if parsesAsDouble(text) then Ok(DoubleText(text)) else Err(NumberFormatError(text))
    else
      match ParseLong(text)
      case Some(n) => Ok(LongValue(n))
      case None => Err(NumberFormatError(text))
  }

  /** The text a `long` is stored as reads back as that `long`. */
  lemma LongTextClassified(n: int64, parsesAsDouble: string -> bool)
    ensures ClassifyNumber(LongToString(n), parsesAsDouble) == Ok(LongValue(n))
  {
    LongTextRoundTrip(n);
    var s := LongToString(n);
    assert '.' !in s by {
      if n < 0 {
        assert forall i :: 1 <= i < |s| ==> s[1..][i - 1] == s[i];
      }
    }
  }

  /** `Double.toString` writes the infinities as `Infinity` and `-Infinity`,
      which the classification does not recognise: they are neither special
      words nor long syntax, and contain no `.`. */
  lemma InfinityTextRejected(parsesAsDouble: string -> bool)
    ensures ClassifyNumber("Infinity", parsesAsDouble).Err?
    ensures ClassifyNumber("-Infinity", parsesAsDouble).Err?
  {
    assert !IsDigit("Infinity"[0]);
    assert !IsDigit("-Infinity"[1..][0]);
  }

  /** Casing matters: only `nan` and `NaN` are NaN; `NAN` fails. */
  lemma OtherNaNCasingRejected(parsesAsDouble: string -> bool)
    ensures ClassifyNumber("NAN", parsesAsDouble).Err?
  {
    assert !IsDigit("NAN"[0]);
  }
}
