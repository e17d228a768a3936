/** Instants, and the two texts the program stores for them.

    An instant is a number of nanoseconds since the start of year 0 in UTC (proleptic Gregorian
    calendar, section 1 of RFC 3339).  The controller writes the fixed-width `TimeText`; the journal
    writes `NanoText`, Go's RFC3339Nano, which drops trailing zeros of the fraction. */
module Instants {
  import opened Ordering

  type Time = int

  const SECOND := 1_000_000_000

  predicate IsLeap(year: nat) { year % 4 == 0 && (year % 100 != 0 || year % 400 == 0) }

  function DaysBeforeYear(year: nat): nat {
    if year == 0 then 0 else DaysBeforeYear(year - 1) + (if IsLeap(year - 1) then 366 else 365)
  }

  function DaysBeforeMonth(leap: bool, month: nat): nat
    requires 1 <= month <= 13
  {
    var days := [0, 31, 59, 90, 120, 151, 181, 212, 243, 273, 304, 334, 365][month - 1];
    if leap && month > 2 then days + 1 else days
  }

  /** Go's zero time, the start of year 1. */
  const ZERO_TIME: Time := 366 * 86_400 * SECOND

  // ----- the calendar reading of an instant -----

  function YearFrom(day: nat, year: nat): (r: nat)
    requires DaysBeforeYear(year) <= day
    ensures DaysBeforeYear(r) <= day < DaysBeforeYear(r + 1)
    decreases day - DaysBeforeYear(year)
  {
    if day < DaysBeforeYear(year + 1) then year else YearFrom(day, year + 1)
  }

  function MonthFrom(leap: bool, dayOfYear: nat, month: nat): (r: nat)
    requires 1 <= month <= 12
    requires DaysBeforeMonth(leap, month) <= dayOfYear < DaysBeforeMonth(leap, 13)
    ensures 1 <= r <= 12 && DaysBeforeMonth(leap, r) <= dayOfYear < DaysBeforeMonth(leap, r + 1)
    decreases 12 - month
  {
    if dayOfYear < DaysBeforeMonth(leap, month + 1) then month
    else MonthFrom(leap, dayOfYear, month + 1)
  }

  function Year(day: nat): nat { YearFrom(day, 0) }

  function DayOfYear(day: nat): nat { day - DaysBeforeYear(Year(day)) }

  function Month(day: nat): (r: nat)
    ensures 1 <= r <= 12
  {
    MonthFrom(IsLeap(Year(day)), DayOfYear(day), 1)
  }

  function DayOfMonth(day: nat): (r: nat)
    ensures 1 <= r <= 31
  {
    DayOfYear(day) - DaysBeforeMonth(IsLeap(Year(day)), Month(day)) + 1
  }

  /** The four-digit years, the ones the fixed-width form can hold. */
  predicate InRange(t: Time) { 0 <= t && Year(t / SECOND / 86_400) < 10_000 }

  // ----- text -----

  /** A number printed with `width` digits and followed by a fixed separator. */
  datatype Field = Field(value: nat, width: nat, separator: string)

  function Pow10(n: nat): nat { if n == 0 then 1 else 10 * Pow10(n - 1) }

  function Digits(n: nat, width: nat): (s: string)
    ensures |s| == width
    ensures forall c :: c in s ==> '0' <= c <= '9'
  {
    if width == 0 then "" else Digits(n / 10, width - 1) + [(n % 10 + 48) as char]
  }

  function Print(fields: seq<Field>): string {
    if fields == [] then ""
    else Digits(fields[0].value, fields[0].width) + fields[0].separator + Print(fields[1..])
  }

  /** year-month-dayT */
  function DateFields(day: nat): seq<Field> {
    [Field(Year(day), 4, "-"), Field(Month(day), 2, "-"), Field(DayOfMonth(day), 2, "T")]
  }

  /** hour:minute:second */
  function ClockFields(secondOfDay: nat): seq<Field> {
    [Field(secondOfDay / 3_600, 2, ":"), Field(secondOfDay % 3_600 / 60, 2, ":"),
     Field(secondOfDay % 60, 2, "")]
  }

  function SecondText(second: nat): string {
    Print(DateFields(second / 86_400)) + Print(ClockFields(second % 86_400))
  }

  function NanosText(nanos: nat): string { "." + Digits(nanos, 9) + "Z" }

  function StampText(second: nat, nanos: nat): string { SecondText(second) + NanosText(nanos) }

  function TimeText(t: nat): string { StampText(t / SECOND, t % SECOND) }

  /** The digits without their trailing zeros. */
  function Trim(s: string): string {
    if s != "" && s[|s| - 1] == '0' then Trim(s[..|s| - 1]) else s
  }

  function Fraction(t: nat): string { Trim(Digits(t % SECOND, 9)) }

  function NanoText(t: nat): string {
    SecondText(t / SECOND) + (if Fraction(t) == "" then "" else "." + Fraction(t)) + "Z"
  }

  // ----- order of numbers and of their texts -----

  lemma {:induction false} DigitsOrder(a: nat, b: nat, width: nat)
    requires a < Pow10(width) && b < Pow10(width)
    ensures StrLess(Digits(a, width), Digits(b, width)) <==> a < b
    ensures Digits(a, width) == Digits(b, width) <==> a == b
  {
    if width > 0 {
      var x, y := Digits(a / 10, width - 1), Digits(b / 10, width - 1);
      DigitsOrder(a / 10, b / 10, width - 1);
      StrLessConcat(x, y, [(a % 10 + 48) as char], [(b % 10 + 48) as char]);
      StrLessIrreflexive(x);
      assert Digits(a, width)[..width - 1] == x && Digits(b, width)[..width - 1] == y;
      assert Digits(a, width)[width - 1] == (a % 10 + 48) as char;
      assert Digits(b, width)[width - 1] == (b % 10 + 48) as char;
    }
  }

  ghost predicate SameShape(a: seq<Field>, b: seq<Field>) {
    |a| == |b| && forall i :: 0 <= i < |a| ==>
      && a[i].width == b[i].width && a[i].separator == b[i].separator
      && a[i].value < Pow10(a[i].width) && b[i].value < Pow10(b[i].width)
  }

  predicate FieldsLess(a: seq<Field>, b: seq<Field>)
    requires |a| == |b|
  {
    a != [] && (a[0].value < b[0].value || (a[0].value == b[0].value && FieldsLess(a[1..], b[1..])))
  }

  lemma {:induction false} PrintOrder(a: seq<Field>, b: seq<Field>)
    requires SameShape(a, b)
    ensures |Print(a)| == |Print(b)|
    ensures StrLess(Print(a), Print(b)) <==> FieldsLess(a, b)
    ensures Print(a) == Print(b) <==> a == b
  {
    if a != [] {
      var x, y := Digits(a[0].value, a[0].width), Digits(b[0].value, b[0].width);
      var sep, p, q := a[0].separator, Print(a[1..]), Print(b[1..]);
      PrintOrder(a[1..], b[1..]);
      DigitsOrder(a[0].value, b[0].value, a[0].width);
      StrLessConcat(x, y, sep, sep);
      StrLessIrreflexive(sep);
      StrLessIrreflexive(x);
      StrLessConcat(x + sep, y + sep, p, q);
      assert Print(a) == (x + sep) + p && Print(b) == (y + sep) + q;
      assert (x + sep)[..|x|] == x && (y + sep)[..|y|] == y;
      assert Print(a)[..|x + sep|] == x + sep && Print(b)[..|y + sep|] == y + sep;
      assert Print(a)[|x + sep|..] == p && Print(b)[|y + sep|..] == q;
      assert a == [a[0]] + a[1..] && b == [b[0]] + b[1..];
      assert a == b <==> a[0].value == b[0].value && a[1..] == b[1..];
    }
  }

  // ----- order of instants and of their readings -----

  lemma {:induction false} YearsOrdered(a: nat, b: nat)
    requires a <= b
    ensures DaysBeforeYear(a) <= DaysBeforeYear(b)
    decreases b
  {
    if a < b { YearsOrdered(a, b - 1); }
  }

  lemma MonthsOrdered(leap: bool, a: nat, b: nat)
    requires 1 <= a <= b <= 13
    ensures DaysBeforeMonth(leap, a) <= DaysBeforeMonth(leap, b)
  {
  }

  lemma TripleOrder(a: seq<Field>, b: seq<Field>)
    requires |a| == |b| == 3
    ensures FieldsLess(a, b) <==>
      || a[0].value < b[0].value
      || (a[0].value == b[0].value && a[1].value < b[1].value)
      || (a[0].value == b[0].value && a[1].value == b[1].value && a[2].value < b[2].value)
  {
    assert FieldsLess(a[1..][1..], b[1..][1..]) <==> a[2].value < b[2].value;
    assert FieldsLess(a[1..], b[1..]) <==>
      a[1].value < b[1].value || (a[1].value == b[1].value && a[2].value < b[2].value);
  }

  /** Two days differ in the order of their first differing date field. */
  lemma DateOrder(a: nat, b: nat)
    ensures FieldsLess(DateFields(a), DateFields(b)) <==> a < b
  {
    TripleOrder(DateFields(a), DateFields(b));
    if a < b { DateOrderOneWay(a, b); }
    if b < a { DateOrderOneWay(b, a); }
  }

  lemma DateOrderOneWay(a: nat, b: nat)
    requires a < b
    ensures
      || Year(a) < Year(b)
      || (Year(a) == Year(b) && Month(a) < Month(b))
      || (Year(a) == Year(b) && Month(a) == Month(b) && DayOfMonth(a) < DayOfMonth(b))
  {
    if Year(a) > Year(b) {
      YearsOrdered(Year(b) + 1, Year(a));
    } else if Year(a) == Year(b) && Month(a) > Month(b) {
      MonthsOrdered(IsLeap(Year(a)), Month(b) + 1, Month(a));
    }
  }

  lemma ClockOrder(a: nat, b: nat)
    requires a < 86_400 && b < 86_400
    ensures FieldsLess(ClockFields(a), ClockFields(b)) <==> a < b
    ensures SameShape(ClockFields(a), ClockFields(b))
  {
    TripleOrder(ClockFields(a), ClockFields(b));
    assert Pow10(2) == 100;
    assert a == a / 3_600 * 3_600 + a % 3_600 / 60 * 60 + a % 60;
    assert b == b / 3_600 * 3_600 + b % 3_600 / 60 * 60 + b % 60;
  }

  lemma DateText(a: nat, b: nat)
    requires Year(a) < 10_000 && Year(b) < 10_000
    ensures |Print(DateFields(a))| == |Print(DateFields(b))|
    ensures StrLess(Print(DateFields(a)), Print(DateFields(b))) <==> a < b
    ensures Print(DateFields(a)) == Print(DateFields(b)) <==> a == b
  {
    assert Pow10(2) == 100 && Pow10(4) == 100 * Pow10(2);
    DateOrder(a, b);
    DateOrder(b, a);
    PrintOrder(DateFields(a), DateFields(b));
    PrintOrder(DateFields(b), DateFields(a));
    StrLessIrreflexive(Print(DateFields(a)));
  }

  lemma ClockText(a: nat, b: nat)
    requires a < 86_400 && b < 86_400
    ensures |Print(ClockFields(a))| == |Print(ClockFields(b))|
    ensures StrLess(Print(ClockFields(a)), Print(ClockFields(b))) <==> a < b
    ensures Print(ClockFields(a)) == Print(ClockFields(b)) <==> a == b
  {
    ClockOrder(a, b);
    ClockOrder(b, a);
    PrintOrder(ClockFields(a), ClockFields(b));
    PrintOrder(ClockFields(b), ClockFields(a));
    StrLessIrreflexive(Print(ClockFields(a)));
  }

  lemma QuotientOrder(a: nat, b: nat, d: nat)
    requires d > 0
    ensures a < b <==> a / d < b / d || (a / d == b / d && a % d < b % d)
    ensures a == b <==> a / d == b / d && a % d == b % d
  {
    QuotientMonotone(a, b, d);
    QuotientMonotone(b, a, d);
    assert a == d * (a / d) + a % d && b == d * (b / d) + b % d;
  }

  lemma QuotientMonotone(a: nat, b: nat, d: nat)
    requires d > 0
    ensures a / d < b / d ==> a < b
  {
    assert a == d * (a / d) + a % d && b == d * (b / d) + b % d;
    if a / d < b / d { MulGap(a / d, b / d, d); }
  }

  lemma MulGap(q: nat, r: nat, d: nat)
    requires q < r
    ensures d * q + d <= d * r
  {
    var k := r - q - 1;
    assert d * r == d * q + d + d * k;
  }

  lemma SecondTextOrder(a: nat, b: nat)
    requires Year(a / 86_400) < 10_000 && Year(b / 86_400) < 10_000
    ensures |SecondText(a)| == |SecondText(b)|
    ensures StrLess(SecondText(a), SecondText(b)) <==> a < b
    ensures SecondText(a) == SecondText(b) <==> a == b
  {
    var x, y := Print(DateFields(a / 86_400)), Print(DateFields(b / 86_400));
    var c, d := Print(ClockFields(a % 86_400)), Print(ClockFields(b % 86_400));
    DateText(a / 86_400, b / 86_400);
    ClockText(a % 86_400, b % 86_400);
    StrLessConcat(x, y, c, d);
    ConcatInjective(x, y, c, d);
    QuotientOrder(a, b, 86_400);
  }

  lemma NanosOrder(a: nat, b: nat)
    requires a < SECOND && b < SECOND
    ensures StrLess(NanosText(a), NanosText(b)) <==> a < b
  {
    var x, y := Digits(a, 9), Digits(b, 9);
    NinePow();
    DigitsOrder(a, b, 9);
    StrLessConcat("." + x, "." + y, "Z", "Z");
    StrLessConcat(".", ".", x, y);
    StrLessIrreflexive("Z");
  }

  /** `timeText` is an order embedding on the four-digit years: the string comparisons in the
      controller's SQL compare instants. */
  lemma TimeTextOrder(a: Time, b: Time)
    requires InRange(a) && InRange(b)
    ensures StrLess(TimeText(a), TimeText(b)) <==> a < b
    ensures TimeText(a) == TimeText(b) <==> a == b
  {
    StampOrder(a / SECOND, a % SECOND, b / SECOND, b % SECOND);
    StampOrder(b / SECOND, b % SECOND, a / SECOND, a % SECOND);
    QuotientOrder(a, b, SECOND);
    QuotientOrder(b, a, SECOND);
    StrLessIrreflexive(TimeText(a));
  }

  lemma StampOrder(a: nat, m: nat, b: nat, n: nat)
    requires Year(a / 86_400) < 10_000 && Year(b / 86_400) < 10_000
    requires m < SECOND && n < SECOND
    ensures StrLess(StampText(a, m), StampText(b, n)) <==> a < b || (a == b && m < n)
  {
    SecondTextOrder(a, b);
    NanosOrder(m, n);
    StrLessConcat(SecondText(a), SecondText(b), NanosText(m), NanosText(n));
  }

  lemma NinePow()
    ensures Pow10(9) == SECOND
  {
    assert Pow10(3) == 1_000;
    assert Pow10(6) == 1_000 * Pow10(3);
    assert Pow10(9) == 1_000 * Pow10(6);
  }

  // ----- RFC3339Nano -----

  lemma {:induction false} TrimIsPrefix(s: string)
    ensures Trim(s) <= s
    ensures forall i :: |Trim(s)| <= i < |s| ==> s[i] == '0'
    ensures Trim(s) == "" || Trim(s)[|Trim(s)| - 1] != '0'
  {
    if s != "" && s[|s| - 1] == '0' { TrimIsPrefix(s[..|s| - 1]); }
  }

  /** The first position at which two strings of one length differ. */
  lemma {:induction false} FirstDifference(a: string, b: string) returns (i: nat)
    requires |a| == |b| && StrLess(a, b)
    ensures i < |a| && a[..i] == b[..i] && a[i] < b[i]
  {
    if a[0] < b[0] {
      i := 0;
    } else {
      var j := FirstDifference(a[1..], b[1..]);
      i := j + 1;
      assert a[..i] == [a[0]] + a[1..][..j] && b[..i] == [b[0]] + b[1..][..j];
    }
  }

  lemma {:induction false} DifferenceDecides(a: string, b: string, i: nat)
    requires i < |a| && i < |b| && a[..i] == b[..i]
    ensures a[i] < b[i] ==> StrLess(a, b) && !StrLess(b, a)
  {
    var p := a[..i];
    assert a == p + a[i..] && b == p + b[i..];
    StrLessConcat(p, p, a[i..], b[i..]);
    StrLessConcat(p, p, b[i..], a[i..]);
    StrLessIrreflexive(p);
  }

  function FractionText(nanos: nat): string {
    var f := Trim(Digits(nanos, 9));
    (if f == "" then "" else "." + f) + "Z"
  }

  /** Trimming keeps the first difference of two fractions, or leaves a proper prefix. */
  lemma TrimmedDifference(a: nat, b: nat) returns (i: nat)
    requires a < b < SECOND
    ensures var f, g := Trim(Digits(a, 9)), Trim(Digits(b, 9));
      && i < |g|
      && (i < |f| ==> f[..i] == g[..i] && f[i] < g[i])
      && (i >= |f| ==> |f| < |g| && f == g[..|f|])
  {
    var x, y := Digits(a, 9), Digits(b, 9);
    NinePow();
    DigitsOrder(a, b, 9);
    TrimIsPrefix(x);
    TrimIsPrefix(y);
    i := FirstDifference(x, y);
    assert x[i] in x;
    if i >= |Trim(x)| {
      var n := |Trim(x)|;
      assert Trim(x) == x[..n] && x[..n] == x[..i][..n] && y[..n] == y[..i][..n];
      assert Trim(y)[..n] == y[..n];
    } else {
      assert Trim(x)[..i] == x[..i] && Trim(y)[..i] == y[..i];
    }
  }

  lemma PrefixSortsLast(f: string, g: string)
    requires f != "" && |f| < |g| && f == g[..|f|] && '0' <= g[|f|] <= '9'
    ensures StrLess("." + g + "Z", "." + f + "Z") && !StrLess("." + f + "Z", "." + g + "Z")
  {
    var s, t, n := "." + f + "Z", "." + g + "Z", |f| + 1;
    assert s[..n] == "." + f && t[..n] == "." + f;
    assert s[n] == 'Z' && t[n] == g[|f|];
    DifferenceDecides(t, s, n);
  }

  lemma DifferenceSorts(f: string, g: string, i: nat)
    requires i < |f| && i < |g| && f[..i] == g[..i] && f[i] < g[i]
    ensures StrLess("." + f + "Z", "." + g + "Z") && !StrLess("." + g + "Z", "." + f + "Z")
    ensures !(f <= g)
  {
    var s, t, n := "." + f + "Z", "." + g + "Z", i + 1;
    assert s[..n] == "." + f[..i] && t[..n] == "." + g[..i];
    assert s[n] == f[i] && t[n] == g[i];
    DifferenceDecides(s, t, n);
  }

  /** Inside one second the texts are ordered like the instants unless the earlier fraction, trimmed,
      is a prefix of the later one; then the order is reversed. */
  lemma FractionOrder(a: nat, b: nat)
    requires a < b < SECOND
    ensures StrLess(FractionText(a), FractionText(b)) <==> !(Trim(Digits(a, 9)) <= Trim(Digits(b, 9)))
    ensures StrLess(FractionText(b), FractionText(a)) <==> Trim(Digits(a, 9)) <= Trim(Digits(b, 9))
  {
    var f, g := Trim(Digits(a, 9)), Trim(Digits(b, 9));
    var i := TrimmedDifference(a, b);
    if i < |f| {
      DifferenceSorts(f, g, i);
    } else if f == "" {
      DifferenceDecides("." + g + "Z", "Z", 0);
    } else {
      TrimIsPrefix(Digits(b, 9));
      assert g[|f|] in Digits(b, 9) by { assert g[|f|] == Digits(b, 9)[|f|]; }
      PrefixSortsLast(f, g);
    }
  }

  /** Exactly when sorting RFC3339Nano texts, as the journal's `ORDER BY updated_at` does, puts two
      instants in their order. */
  lemma NanoTextOrder(a: Time, b: Time)
    requires InRange(a) && InRange(b) && a < b
    ensures StrLess(NanoText(a), NanoText(b)) <==> !(a / SECOND == b / SECOND && Fraction(a) <= Fraction(b))
    ensures StrLess(NanoText(b), NanoText(a)) <==> a / SECOND == b / SECOND && Fraction(a) <= Fraction(b)
  {
    var p, q := SecondText(a / SECOND), SecondText(b / SECOND);
    var x, y := FractionText(a % SECOND), FractionText(b % SECOND);
    SecondTextOrder(a / SECOND, b / SECOND);
    SecondTextOrder(b / SECOND, a / SECOND);
    QuotientOrder(a, b, SECOND);
    assert NanoText(a) == p + x && NanoText(b) == q + y;
    StrLessConcat(p, q, x, y);
    StrLessConcat(q, p, y, x);
    StrLessIrreflexive(p);
    if p == q { FractionOrder(a % SECOND, b % SECOND); }
    else if StrLess(q, p) { StrLessAsymmetric(q, p); }
  }

  /** A whole second sorts after every later instant of that second. */
  lemma WholeSecondSortsLast(a: Time, b: Time)
    requires InRange(a) && InRange(b) && a < b
    requires a % SECOND == 0 && b / SECOND == a / SECOND
    ensures StrLess(NanoText(b), NanoText(a))
  {
    assert Trim(Digits(0, 9)) == "" by {
      TrimIsPrefix(Digits(0, 9));
      ZeroDigits(9);
    }
    NanoTextOrder(a, b);
  }

  lemma {:induction false} ZeroDigits(width: nat)
    ensures forall c :: c in Digits(0, width) ==> c == '0'
  {
    if width > 0 { ZeroDigits(width - 1); }
  }

  // ----- reading a text back -----

  function Number(s: string): nat {
    if s == "" then 0
    else
      var c := s[|s| - 1];
      10 * Number(s[..|s| - 1]) + (if '0' <= c <= '9' then c as int - 48 else 0)
  }

  lemma {:induction false} NumberOfDigits(n: nat, width: nat)
    requires n < Pow10(width)
    ensures Number(Digits(n, width)) == n
  {
    if width > 0 {
      var front := Digits(n / 10, width - 1);
      NumberOfDigits(n / 10, width - 1);
      assert Digits(n, width)[..width - 1] == front;
    }
  }

  /** The instant that date, clock and fraction of a fixed-width text name. */
  function ReadTime(s: string): int
    requires |s| == 30
  {
    var year, month, day := Number(s[0..4]), Number(s[5..7]), Number(s[8..10]);
    var days := DaysBeforeYear(year) + (if 1 <= month <= 12 then DaysBeforeMonth(IsLeap(year), month) else 0) + day - 1;
    ((days * 24 + Number(s[11..13])) * 60 + Number(s[14..16])) * 60 * SECOND + Number(s[17..19]) * SECOND + Number(s[20..29])
  }

  /** The separators of RFC 3339, section 5.6, with nine digits of fraction. */
  predicate Punctuated(s: string) {
    && |s| == 30 && s[4] == '-' && s[7] == '-' && s[10] == 'T' && s[13] == ':' && s[16] == ':' && s[19] == '.'
    && s[29] == 'Z'
  }

  lemma DateReads(day: nat)
    requires Year(day) < 10_000
    ensures var s := Print(DateFields(day));
      && |s| == 11 && s[4] == '-' && s[7] == '-' && s[10] == 'T'
      && Number(s[0..4]) == Year(day) && Number(s[5..7]) == Month(day) && Number(s[8..10]) == DayOfMonth(day)
  {
    hide Year, Month, DayOfMonth, Digits, Number, Print, Pow10;
    var y, m, d := Digits(Year(day), 4), Digits(Month(day), 2), Digits(DayOfMonth(day), 2);
    PowersOfTen();
    NumberOfDigits(Year(day), 4);
    NumberOfDigits(Month(day), 2);
    NumberOfDigits(DayOfMonth(day), 2);
    var s := Print(DateFields(day));
    ThreeFields(DateFields(day)[0], DateFields(day)[1], DateFields(day)[2]);
    assert s == y + "-" + m + "-" + d + "T";
    assert s[0..4] == y && s[5..7] == m && s[8..10] == d;
  }

  lemma ClockReads(second: nat)
    requires second < 86_400
    ensures var s := Print(ClockFields(second));
      && |s| == 8 && s[2] == ':' && s[5] == ':'
      && Number(s[0..2]) == second / 3_600 && Number(s[3..5]) == second % 3_600 / 60 && Number(s[6..8]) == second % 60
  {
    hide Digits, Number, Print, Pow10;
    var h, m, r := second / 3_600, second % 3_600 / 60, second % 60;
    PowersOfTen();
    NumberOfDigits(h, 2);
    NumberOfDigits(m, 2);
    NumberOfDigits(r, 2);
    var s := Print(ClockFields(second));
    ThreeFields(ClockFields(second)[0], ClockFields(second)[1], ClockFields(second)[2]);
    assert s == Digits(h, 2) + ":" + Digits(m, 2) + ":" + Digits(r, 2);
    assert s[0..2] == Digits(h, 2) && s[3..5] == Digits(m, 2) && s[6..8] == Digits(r, 2);
  }

  lemma PowersOfTen()
    ensures Pow10(2) == 100 && Pow10(4) == 10_000 && Pow10(9) == 1_000_000_000
  {
    assert Pow10(1) == 10 && Pow10(3) == 1_000 && Pow10(5) == 100_000 && Pow10(6) == 1_000_000;
    assert Pow10(7) == 10_000_000 && Pow10(8) == 100_000_000;
  }

  lemma ThreeFields(a: Field, b: Field, c: Field)
    ensures Print([a, b, c]) ==
      Digits(a.value, a.width) + a.separator + Digits(b.value, b.width) + b.separator + Digits(c.value, c.width) + c.separator
  {
    assert [a, b, c][1..] == [b, c] && [b, c][1..] == [c] && [c][1..] == [];
    assert Print([c]) == Digits(c.value, c.width) + c.separator;
  }

  lemma DayOfDate(day: nat)
    ensures day == DaysBeforeYear(Year(day)) + DaysBeforeMonth(IsLeap(Year(day)), Month(day)) + DayOfMonth(day) - 1
  {
    hide Year, Month;
  }

  /** The fixed-width text is punctuated as it should be and names the instant. */
  lemma TimeTextReads(t: nat)
    requires InRange(t)
    ensures Punctuated(TimeText(t)) && ReadTime(TimeText(t)) == t
  {
    hide Year, Month, DayOfMonth, Digits, Number, Print, DateFields, ClockFields, DaysBeforeYear, DaysBeforeMonth;
    var second, nanos := t / SECOND, t % SECOND;
    var day, rest := second / 86_400, second % 86_400;
    DateReads(day);
    ClockReads(rest);
    PowersOfTen();
    NumberOfDigits(nanos, 9);
    DayOfDate(day);
    var date, clock, s := Print(DateFields(day)), Print(ClockFields(rest)), TimeText(t);
    assert s == date + clock + "." + Digits(nanos, 9) + "Z";
    assert s[0..4] == date[0..4] && s[5..7] == date[5..7] && s[8..10] == date[8..10];
    assert s[11..13] == clock[0..2] && s[14..16] == clock[3..5] && s[17..19] == clock[6..8];
    assert s[20..29] == Digits(nanos, 9);
    SecondsAddUp(second);
  }

  lemma SecondsAddUp(second: nat)
    ensures var day, rest := second / 86_400, second % 86_400;
      ((day * 24 + rest / 3_600) * 60 + rest % 3_600 / 60) * 60 + rest % 60 == second
  {
  }
}
