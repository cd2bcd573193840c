/** The two label parsers of the reconciliation engine (consultaHandler.js):
    `parsearFechaFin`, the end date of a `"DD/MM/YYYY - DD/MM/YYYY"` period,
    and `parsearMonto`, the amount of a `"$#,###.##"` label. Both catch every
    exception and answer `null` instead. */
module Parsers {
  import opened JsValues
  import opened JsStrings
  import opened JsNumbers

  /** What `parsearFechaFin` returns: `null`, or a `Date` object. A `Date`
      holds a time value, NaN for an Invalid Date (which is still a truthy
      object). The time value is counted in days since 1970-01-01: every date
      the parser builds falls at local midnight, so days order them exactly as
      the milliseconds the comparator subtracts do. */
  datatype FechaFin = NoDate | DateObj(time: JsNumber)

  /** ECMAScript DayFromYear: the day number of January 1 of year `y`. */
  function DayFromYear(y: int): int {
    365 * (y - 1970) + (y - 1969) / 4 - (y - 1901) / 100 + (y - 1601) / 400
  }

  predicate InLeapYear(y: int) {
    (y % 4 == 0 && y % 100 != 0) || y % 400 == 0
  }

  /** Days in the months of year `y` before month `mn` (0 = January). */
  function DaysBeforeMonth(y: int, mn: int): (r: int)
    requires 0 <= mn < 12
  {
    [0, 31, 59, 90, 120, 151, 181, 212, 243, 273, 304, 334][mn]
      + (if InLeapYear(y) && mn >= 2 then 1 else 0)
  }

  /** ECMAScript MakeDay: a month outside 0..11 carries into the year, and a
      day outside the month rolls over into the neighbouring months. */
  function MakeDay(year: int, month: int, date: int): int {
    var ym := year + month / 12;
    var mn := month % 12;
    DayFromYear(ym) + DaysBeforeMonth(ym, mn) + date - 1
  }

  /** ToIntegerOrInfinity on a finite number: truncation toward zero. */
  function Truncate(x: real): int {
    if x >= 0.0 then x.Floor else -((-x).Floor)
  }

  /** Time values beyond 10^8 days from the epoch are NaN (TimeClip). */
  const MaxDays: int := 100000000

  /** `new Date(year, month, date)`: any NaN argument gives an Invalid Date;
      a year 0..99 means 1900..1999. */
  function NewDate(year: JsNumber, month: JsNumber, date: JsNumber): FechaFin {
    if year.NaN? || month.NaN? || date.NaN? then DateObj(NaN)
    else
      var yi := Truncate(year.value);
      var yr := if 0 <= yi <= 99 then 1900 + yi else yi;
      var day := MakeDay(yr, Truncate(month.value), Truncate(date.value));
      if -MaxDays <= day <= MaxDays then DateObj(Fin(day as real)) else DateObj(NaN)
  }

  /** One less than a number; NaN stays NaN. */
  function MinusOne(n: JsNumber): JsNumber {
    if n.NaN? then NaN else Fin(n.value - 1.0)
  }

  /** The `i`-th element of a destructured array, `parseInt`ed; a missing
      element is `undefined`, whose `parseInt` is NaN. */
  function ParseIntAt(parts: seq<string>, i: nat): JsNumber {
    if i < |parts| then ParseInt(parts[i]) else NaN
  }

  /** The end date of a `DD/MM/YYYY - DD/MM/YYYY` period, or no date when
      the value is not a string or has no second part. */
  function ParsearFechaFin(periodo: JsValue): (r: FechaFin)
    ensures !periodo.Str? ==> r == NoDate
    ensures periodo.Str? ==> (r == NoDate <==> |Split(periodo.s, " - ")| < 2 || Split(periodo.s, " - ")[1] == "")
  {
    match periodo
    case Str(s) =>
      var pieces := Split(s, " - ");
      if |pieces| < 2 || pieces[1] == "" then NoDate
      else
        var parts := Split(pieces[1], "/");
        NewDate(ParseIntAt(parts, 2), MinusOne(ParseIntAt(parts, 1)), ParseIntAt(parts, 0))
    case _ => NoDate
  }

  /** `parsearMonto(monto)` (consultaHandler.js:224-232): `null` (None)
      exactly when `monto` is not a string, since `replace` throws on
      anything else; otherwise `parseFloat` of the label without `$` and `,`. */
  function ParsearMonto(monto: JsValue): (r: Option<JsNumber>)
    ensures r.None? <==> !monto.Str?
    ensures monto.Str? ==> r == Some(ParseFloat(StripMoney(monto.s)))
  {
    if monto.Str? then Some(ParseFloat(StripMoney(monto.s))) else None
  }

  /** The upstream amount format `"$#,###.##"` for an amount in cents. */
  function AmountLabel(cents: nat): string {
    "$" + Grouped(DecimalText(cents / 100)) + "." + PaddedText(cents % 100, 2)
  }

  /** Digits grouped by three from the right, separated by commas. */
  function Grouped(ds: string): string
    decreases |ds|
  {
    if |ds| <= 3 then ds else Grouped(ds[..|ds| - 3]) + "," + ds[|ds| - 3..]
  }

  /** The upstream period format `"DD/MM/YYYY - DD/MM/YYYY"`. */
  function PeriodLabel(d1: nat, m1: nat, y1: nat, d2: nat, m2: nat, y2: nat): string {
    DateLabel(d1, m1, y1) + " - " + DateLabel(d2, m2, y2)
  }

  function DateLabel(d: nat, m: nat, y: nat): string {
    PaddedText(d, 2) + "/" + PaddedText(m, 2) + "/" + PaddedText(y, 4)
  }

  /** Deleting `$` and `,` from grouped digits gives the digits back. */
  lemma {:induction false} StripGrouped(ds: string)
    requires AllDigits(ds)
    ensures StripMoney(Grouped(ds)) == ds
    decreases |ds|
  {
    if |ds| <= 3 {
      StripMoneyKeeps(ds);
    } else {
      var p, q := ds[..|ds| - 3], ds[|ds| - 3..];
      StripGrouped(p);
      StripMoneyAppend(Grouped(p) + ",", q);
      StripMoneyAppend(Grouped(p), ",");
      StripMoneyKeeps(q);
      assert StripMoney(",") == [];
      assert ds == p + q;
    }
  }

  lemma PaddedTwo(n: nat)
    requires n < 100
    ensures |PaddedText(n, 2)| == 2
  {
    if n >= 10 { assert |DecimalText(n / 10)| == 1; }
  }

  /** The amount label of `cents` reads back as `cents / 100`. */
  lemma AmountRoundTrip(cents: nat)
    ensures ParsearMonto(Str(AmountLabel(cents))) == Some(Fin(cents as real / 100.0))
  {
    var w := DecimalText(cents / 100);
    var f := PaddedText(cents % 100, 2);
    calc {
      ParsearMonto(Str(AmountLabel(cents)));
      Some(ParseFloat(StripMoney(AmountLabel(cents))));
      { StripAmountLabel(cents); }
      Some(ParseFloat(w + "." + f));
      { ParseFloatDecimal(w, f); }
      Some(Fin(DecimalReal(w, f)));
      { AmountDigitsValue(cents); }
      Some(Fin(cents as real / 100.0));
    }
  }

  lemma StripAmountLabel(cents: nat)
    ensures StripMoney(AmountLabel(cents)) == DecimalText(cents / 100) + "." + PaddedText(cents % 100, 2)
  {
    var w := DecimalText(cents / 100);
    var f := PaddedText(cents % 100, 2);
    StripGrouped(w);
    StripMoneyKeeps(f);
    StripMoneyAppend("$" + Grouped(w) + ".", f);
    StripMoneyAppend("$" + Grouped(w), ".");
    StripMoneyAppend("$", Grouped(w));
    assert StripMoney("$") == [] && StripMoney(".") == ".";
  }

  lemma AmountDigitsValue(cents: nat)
    ensures DecimalReal(DecimalText(cents / 100), PaddedText(cents % 100, 2)) == cents as real / 100.0
  {
    var w := DecimalText(cents / 100);
    var f := PaddedText(cents % 100, 2);
    PaddedTwo(cents % 100);
    PaddedTextValue(cents % 100, 2);
    DecimalTextValue(cents / 100);
    assert Pow10(|f|) == 100;
    var q, r := cents / 100, cents % 100;
    assert cents == 100 * q + r;
    assert DecimalReal(w, f) == q as real + r as real / 100.0;
  }

  /** A label made of digits and slashes. */
  predicate DigitsAndSlashes(s: string) {
    forall i :: 0 <= i < |s| ==> IsDigit(s[i]) || s[i] == '/'
  }

  lemma DateLabelChars(d: nat, m: nat, y: nat)
    ensures DigitsAndSlashes(DateLabel(d, m, y))
  {
    var a, b, c := PaddedText(d, 2), PaddedText(m, 2), PaddedText(y, 4);
    SlashJoined(a, b);
    SlashJoined(a + "/" + b, c);
  }

  lemma SlashJoined(a: string, b: string)
    requires DigitsAndSlashes(a) && DigitsAndSlashes(b)
    ensures DigitsAndSlashes(a + "/" + b)
  {
    var s := a + "/" + b;
    forall i | 0 <= i < |s| ensures IsDigit(s[i]) || s[i] == '/' {
      if i < |a| {
        assert s[i] == a[i];
      } else if i > |a| {
        assert s[i] == b[i - |a| - 1];
      }
    }
  }

  lemma TruncateInt(n: int)
    ensures Truncate(n as real) == n
  {
  }

  /** The end date of a period label reads back as the day `MakeDay` gives
      for it, for a year of three or more digits inside the time-value range. */
  lemma PeriodRoundTrip(d1: nat, m1: nat, y1: nat, d2: nat, m2: nat, y2: nat)
    requires y2 >= 100
    requires -MaxDays <= MakeDay(y2, m2 - 1, d2) <= MaxDays
    ensures ParsearFechaFin(Str(PeriodLabel(d1, m1, y1, d2, m2, y2)))
         == DateObj(Fin(MakeDay(y2, m2 - 1, d2) as real))
  {
    calc {
      ParsearFechaFin(Str(PeriodLabel(d1, m1, y1, d2, m2, y2)));
      { PeriodFields(d1, m1, y1, d2, m2, y2); }
      NewDate(Fin(y2 as real), MinusOne(Fin(m2 as real)), Fin(d2 as real));
      { MonthIndex(m2); }
      NewDate(Fin(y2 as real), Fin((m2 - 1) as real), Fin(d2 as real));
      { NewDateOfInts(y2, m2 - 1, d2); }
      DateObj(Fin(MakeDay(y2, m2 - 1, d2) as real));
    }
  }

  lemma MonthIndex(m: int)
    ensures MinusOne(Fin(m as real)) == Fin((m - 1) as real)
  {
  }

  /** The three numbers `parsearFechaFin` reads from a period label. */
  lemma PeriodFields(d1: nat, m1: nat, y1: nat, d2: nat, m2: nat, y2: nat)
    ensures ParsearFechaFin(Str(PeriodLabel(d1, m1, y1, d2, m2, y2)))
         == NewDate(Fin(y2 as real), MinusOne(Fin(m2 as real)), Fin(d2 as real))
  {
    var b := DateLabel(d2, m2, y2);
    var dd, mm, yyyy := PaddedText(d2, 2), PaddedText(m2, 2), PaddedText(y2, 4);
    PeriodPieces(d1, m1, y1, d2, m2, y2);
    DateParts(d2, m2, y2);
    assert |b| >= 2;
    EndDateOf(PeriodLabel(d1, m1, y1, d2, m2, y2), [DateLabel(d1, m1, y1), b], [dd, mm, yyyy]);
    ReadBack(d2, 2);
    ReadBack(m2, 2);
    ReadBack(y2, 4);
  }

  /** The date `parsearFechaFin` builds from the pieces of its input. */
  lemma EndDateOf(s: string, pieces: seq<string>, parts: seq<string>)
    requires Split(s, " - ") == pieces && |pieces| >= 2 && pieces[1] != ""
    requires Split(pieces[1], "/") == parts && |parts| == 3
    ensures ParsearFechaFin(Str(s)) == NewDate(ParseInt(parts[2]), MinusOne(ParseInt(parts[1])), ParseInt(parts[0]))
  {
  }

  /** `new Date(y, m, d)` on integers, with `y` past the two-digit years. */
  lemma NewDateOfInts(y: int, m: int, d: int)
    requires y >= 100 && -MaxDays <= MakeDay(y, m, d) <= MaxDays
    ensures NewDate(Fin(y as real), Fin(m as real), Fin(d as real)) == DateObj(Fin(MakeDay(y, m, d) as real))
  {
    TruncateInt(y);
    TruncateInt(m);
    TruncateInt(d);
  }

  lemma ReadBack(n: nat, width: nat)
    ensures ParseInt(PaddedText(n, width)) == Fin(n as real)
  {
    ParseIntDigits(PaddedText(n, width));
    PaddedTextValue(n, width);
  }

  lemma PeriodPieces(d1: nat, m1: nat, y1: nat, d2: nat, m2: nat, y2: nat)
    ensures Split(PeriodLabel(d1, m1, y1, d2, m2, y2), " - ") == [DateLabel(d1, m1, y1), DateLabel(d2, m2, y2)]
  {
    var a, b := DateLabel(d1, m1, y1), DateLabel(d2, m2, y2);
    DateLabelChars(d1, m1, y1);
    DateLabelChars(d2, m2, y2);
    SplitAfter(a, " - ", b);
    SplitNone(b, " - ");
  }

  lemma DateParts(d: nat, m: nat, y: nat)
    ensures Split(DateLabel(d, m, y), "/") == [PaddedText(d, 2), PaddedText(m, 2), PaddedText(y, 4)]
  {
    var dd, mm, yyyy := PaddedText(d, 2), PaddedText(m, 2), PaddedText(y, 4);
    assert DateLabel(d, m, y) == dd + "/" + (mm + "/" + yyyy);
    SplitAfter(dd, "/", mm + "/" + yyyy);
    SplitAfter(mm, "/", yyyy);
    SplitNone(yyyy, "/");
  }
}
