/** Timestamps as the store keeps them: the text `DateTime<Utc>::to_rfc3339` prints, with 0, 3, 6 or 9
    fraction digits and the offset `+00:00`. SQL compares that text; these lemmas say when that is time. */
module Rfc3339 {
  import opened Text
  import opened Calendar
  import opened Wrappers

  const OFFSET := "+00:00"

  /** Instants of the years 0 to 9999, which print with exactly four digits and no sign. */
  predicate InRange(n: int) { YearInstant(0) <= n < YearInstant(10_000) }

  function Field(v: nat, w: nat, sep: string, rest: string): string {
    Fixed(v, w) + (sep + rest)
  }

  function Fraction(nano: nat): string
    requires nano < SECOND
  {
    if nano == 0 then ""
    else if nano % 1_000_000 == 0 then "." + Fixed(nano / 1_000_000, 3)
    else if nano % 1_000 == 0 then "." + Fixed(nano / 1_000, 6)
    else "." + Fixed(nano, 9)
  }

  function AfterYear(c: Civil): string
    requires Valid(c)
  {
    Field(c.month, 2, "-", Field(c.day, 2, "T", Field(c.hour, 2, ":", Field(c.minute, 2, ":",
      Field(c.second, 2, "", Fraction(c.nano) + OFFSET)))))
  }

  function PaddedYear(y: nat): string {
    if y < 10_000 then Fixed(y, 4) else NatText(y)
  }

  function Stamp(c: Civil): string
    requires Valid(c)
  {
    if 0 <= c.year < 10_000 then Field(c.year, 4, "-", AfterYear(c))
    else if c.year < 0 then "-" + PaddedYear(-c.year) + "-" + AfterYear(c)
    else "+" + PaddedYear(c.year) + "-" + AfterYear(c)
  }

  /** The printed form: four digits of the year in the years 0 to 9999, and a sign before them in the others. */
  lemma StampIs(c: Civil)
    requires Valid(c)
    ensures var year := if 0 <= c.year < 10_000 then Fixed(c.year, 4)
                        else if c.year >= 10_000 then "+" + NatText(c.year)
                        else if c.year > -10_000 then "-" + Fixed(-c.year, 4)
                        else "-" + NatText(-c.year);
            Stamp(c) == year + "-" + Fixed(c.month, 2) + "-" + Fixed(c.day, 2) + "T" + Fixed(c.hour, 2) + ":" +
                        Fixed(c.minute, 2) + ":" + Fixed(c.second, 2) + Fraction(c.nano) + "+00:00"
  {
    hide Fixed, Fraction, NatText;
    assert OFFSET == "+00:00";
  }

  function Render(n: int): string {
    Stamp(ToCivil(n))
  }

  lemma YearBound(c: Civil, y: int)
    requires Valid(c)
    ensures c.year < y <==> Instant(c) < YearInstant(y)
  {
    DayInYear(c);
    WithinDay(c);
    if c.year < y {
      YearStartGrows(c.year + 1, y);
      DaysDecide(DayNumber(c), NanoOfDay(c), YearStart(y), 0);
    } else {
      YearStartGrows(y, c.year);
      DaysAtMost(YearStart(y), DayNumber(c), NanoOfDay(c));
    }
  }

  lemma DaysAtMost(d: int, e: int, rest: nat)
    requires d <= e
    ensures Join(d, 0) <= Join(e, rest)
  {
  }

  lemma RangeIsFourDigitYears(n: int)
    ensures n < YearInstant(0) <==> ToCivil(n).year < 0
    ensures n < YearInstant(10_000) <==> ToCivil(n).year < 10_000
  {
    hide *;
    var c := ToCivil(n);
    YearBound(c, 0);
    YearBound(c, 10_000);
  }

  // ---------------------------------------------------------------- order

  lemma FieldOrder(v: nat, v': nat, w: nat, sep: string, rest: string, rest': string)
    requires v < Pow10(w) && v' < Pow10(w)
    ensures v != v' ==> (Less(Field(v, w, sep, rest), Field(v', w, sep, rest')) <==> v < v')
    ensures v == v' ==> (Less(Field(v, w, sep, rest), Field(v', w, sep, rest')) <==> Less(rest, rest'))
  {
    if v == v' {
      LessAfterPrefix(Fixed(v, w), sep + rest, sep + rest');
      LessAfterPrefix(sep, rest, rest');
    } else {
      if Fixed(v, w) == Fixed(v', w) { FixedIsInjective(v, v', w); }
      LessByField(Fixed(v, w), Fixed(v', w), sep + rest, sep + rest');
      FixedOrder(v, v', w);
    }
  }

  /** How many digits `Fraction` prints. */
  function Precision(nano: nat): nat {
    if nano == 0 then 0 else if nano % 1_000_000 == 0 then 3 else if nano % 1_000 == 0 then 6 else 9
  }

  lemma Shift3(n: nat)
    ensures Shifted(n, 3) == n / 1_000 == n / 10 / 10 / 10
  {
    assert Shifted(n, 3) == Shifted(n / 10, 2) == Shifted(n / 10 / 10, 1) == Shifted(n / 10 / 10 / 10, 0);
  }

  lemma Shifts(nano: nat)
    ensures Shifted(nano, 0) == nano && Shifted(nano, 3) == nano / 1_000 && Shifted(nano, 6) == nano / 1_000_000
  {
    Shift3(nano);
    Shift3(nano / 1_000);
    assert Shifted(nano, 6) == Shifted(nano / 10, 5) == Shifted(nano / 10 / 10, 4) == Shifted(nano / 10 / 10 / 10, 3);
  }

  lemma PowersOfTen()
    ensures Pow10(2) == 100 && Pow10(3) == 1_000 && Pow10(4) == 10_000 && Pow10(6) == 1_000_000 && Pow10(9) == SECOND
  {
  }

  /** The printed fraction is a prefix of the nine-digit one. */
  lemma FractionIsPrefix(nano: nat)
    requires 0 < nano < SECOND
    ensures var k := Precision(nano); k > 0 && Fraction(nano) == "." + Fixed(Shifted(nano, 9 - k), k)
    ensures Shifted(nano, 9 - Precision(nano)) < Pow10(Precision(nano))
  {
    Shifts(nano);
    PowersOfTen();
  }

  /** The numbers behind two fractions of different precision, both cut to the shorter one. */
  lemma CutToShorter(a: nat, b: nat)
    requires 0 < a < SECOND && 0 < b < SECOND && Precision(a) < Precision(b)
    ensures var k, l := Precision(a), Precision(b);
            var x, z := Shifted(a, 9 - k), Shifted(Shifted(b, 9 - l), l - k);
            z < Pow10(k) && (x <= z <==> a < b)
  {
    var y := Shifted(b, 9 - Precision(b));
    Shifts(a);
    Shifts(b);
    Shifts(y);
    PowersOfTen();
    assert b / 1_000 / 1_000 == b / 1_000_000;
  }

  lemma UnequalPrecision(a: nat, b: nat)
    requires 0 < a < SECOND && 0 < b < SECOND && Precision(a) < Precision(b)
    ensures Less(Fraction(a) + OFFSET, Fraction(b) + OFFSET) <==> a < b
    ensures Less(Fraction(b) + OFFSET, Fraction(a) + OFFSET) <==> b < a
  {
    var k, l := Precision(a), Precision(b);
    FractionIsPrefix(a);
    FractionIsPrefix(b);
    CutToShorter(a, b);
    CutOrder(Shifted(a, 9 - k), Shifted(b, 9 - l), k, l);
    LessIsStrict(Fraction(a) + OFFSET, Fraction(b) + OFFSET);
  }

  lemma CutTexts(x: nat, y: nat, k: nat, l: nat)
    requires k < l
    ensures "." + Fixed(x, k) + OFFSET == "." + Field(x, k, "", OFFSET)
    ensures "." + Fixed(y, l) + OFFSET == "." + Field(Shifted(y, l - k), k, "", Fixed(y, l - k) + OFFSET)
  {
    FixedSplit(y, l, l - k);
  }

  lemma OffsetBeforeDigits(low: string)
    requires low != "" && AllDigits(low)
    ensures Less(OFFSET, low + OFFSET)
  {
  }

  lemma CutOrder(x: nat, y: nat, k: nat, l: nat)
    requires k < l && x < Pow10(k) && Shifted(y, l - k) < Pow10(k)
    ensures var s, t := "." + Fixed(x, k) + OFFSET, "." + Fixed(y, l) + OFFSET;
            |s| < |t| && (Less(s, t) <==> x <= Shifted(y, l - k))
  {
    var z, low := Shifted(y, l - k), Fixed(y, l - k);
    CutTexts(x, y, k, l);
    OffsetBeforeDigits(low);
    FieldOrder(x, z, k, "", OFFSET, low + OFFSET);
    LessAfterPrefix(".", Field(x, k, "", OFFSET), Field(z, k, "", low + OFFSET));
  }

  /** Fractions followed by the offset are ordered as the nanoseconds they denote. */
  lemma FractionOrder(a: nat, b: nat)
    requires a < SECOND && b < SECOND
    ensures Less(Fraction(a) + OFFSET, Fraction(b) + OFFSET) <==> a < b
  {
    var s, t := Fraction(a) + OFFSET, Fraction(b) + OFFSET;
    if a == b {
      LessIsStrict(s, t);
    } else if a == 0 || b == 0 {
      assert a == 0 ==> s[0] == '+' && t[0] == '.';
      assert b == 0 ==> t[0] == '+' && s[0] == '.';
    } else if Precision(a) < Precision(b) {
      UnequalPrecision(a, b);
    } else if Precision(b) < Precision(a) {
      UnequalPrecision(b, a);
    } else {
      EqualPrecision(a, b);
    }
  }

  lemma EqualPrecision(a: nat, b: nat)
    requires 0 < a < SECOND && 0 < b < SECOND && Precision(a) == Precision(b)
    ensures Less(Fraction(a) + OFFSET, Fraction(b) + OFFSET) <==> a < b
  {
    var k := Precision(a);
    var x, y := Shifted(a, 9 - k), Shifted(b, 9 - k);
    FractionIsPrefix(a);
    FractionIsPrefix(b);
    Shifts(a);
    Shifts(b);
    assert (x < y ==> a < b) && (x > y ==> b < a) && (x == y ==> a == b);
    assert Fraction(a) + OFFSET == "." + (Fixed(x, k) + OFFSET);
    assert Fraction(b) + OFFSET == "." + (Fixed(y, k) + OFFSET);
    LessAfterPrefix(".", Fixed(x, k) + OFFSET, Fixed(y, k) + OFFSET);
    FieldOrder(x, y, k, "", OFFSET, OFFSET);
    assert "" + OFFSET == OFFSET;
    LessIsStrict(OFFSET, OFFSET);
  }

  lemma AfterYearOrder(c: Civil, d: Civil)
    requires Valid(c) && Valid(d) && c.year == d.year
    ensures Less(AfterYear(c), AfterYear(d)) <==> Earlier(c, d)
  {
    PowersOfTen();
    var c7, d7 := Fraction(c.nano) + OFFSET, Fraction(d.nano) + OFFSET;
    var c6, d6 := Field(c.second, 2, "", c7), Field(d.second, 2, "", d7);
    var c5, d5 := Field(c.minute, 2, ":", c6), Field(d.minute, 2, ":", d6);
    var c4, d4 := Field(c.hour, 2, ":", c5), Field(d.hour, 2, ":", d5);
    var c3, d3 := Field(c.day, 2, "T", c4), Field(d.day, 2, "T", d4);
    FractionOrder(c.nano, d.nano);
    FieldOrder(c.second, d.second, 2, "", c7, d7);
    FieldOrder(c.minute, d.minute, 2, ":", c6, d6);
    FieldOrder(c.hour, d.hour, 2, ":", c5, d5);
    FieldOrder(c.day, d.day, 2, "T", c4, d4);
    FieldOrder(c.month, d.month, 2, "-", c3, d3);
  }

  lemma StampOrder(c: Civil, d: Civil)
    requires Valid(c) && Valid(d) && 0 <= c.year < 10_000 && 0 <= d.year < 10_000
    ensures Less(Stamp(c), Stamp(d)) <==> Earlier(c, d)
  {
    PowersOfTen();
    FieldOrder(c.year, d.year, 4, "-", AfterYear(c), AfterYear(d));
    if c.year == d.year { AfterYearOrder(c, d); }
  }

  lemma FourDigitOrder(a: int, b: int)
    requires InRange(a) && InRange(b)
    ensures Less(Render(a), Render(b)) <==> a < b
  {
    RangeIsFourDigitYears(a);
    RangeIsFourDigitYears(b);
    StampOrder(ToCivil(a), ToCivil(b));
    CivilOrder(a, b);
  }

  lemma FirstOfStamp(c: Civil)
    requires Valid(c)
    ensures Stamp(c) != ""
    ensures if c.year < 0 then Stamp(c)[0] == '-'
            else if c.year < 10_000 then IsDigit(Stamp(c)[0])
            else Stamp(c)[0] == '+'
  {
  }

  /** The sign of a year, or its first digit. */
  predicate Starts(s: string, minus: bool, plus: bool) {
    s != "" && if minus then s[0] == '-' else if plus then s[0] == '+' else IsDigit(s[0])
  }

  lemma FirstCharacter(n: int)
    ensures Starts(Render(n), n < YearInstant(0), n >= YearInstant(10_000))
  {
    hide YearInstant, YearStart, ToCivil, Stamp;
    RangeIsFourDigitYears(n);
    FirstOfStamp(ToCivil(n));
  }

  /** The text of a stored instant compares with the text of any other instant `b` as the instants do,
      in both directions, exactly as long as `b` lies before year 10000. */
  lemma TextOrderIsTime(a: int, b: int)
    requires InRange(a)
    ensures (Less(Render(a), Render(b)) <==> a < b) && (Less(Render(b), Render(a)) <==> b < a) <==>
            b < YearInstant(10_000)
  {
    if InRange(b) {
      FourDigitOrder(a, b);
      FourDigitOrder(b, a);
    } else {
      FirstCharacter(a);
      FirstCharacter(b);
    }
  }

  /** From year 10000 on, years print with a plus sign, which sorts before every digit. */
  lemma LaterYearsSortFirst(a: int, b: int)
    requires InRange(a) && b >= YearInstant(10_000)
    ensures a < b && Less(Render(b), Render(a))
  {
    FirstCharacter(a);
    FirstCharacter(b);
  }

  // ---------------------------------------------------------------- reading back

  /** `parse_from_rfc3339`, on the texts `Render` produces for four-digit years. */
  function Parse(s: string): Option<int> {
    var (year, s1) :- TakeField(s, 4, "-");
    ParseAfterYear(year, s1)
  }

  function ParseAfterYear(year: nat, s1: string): Option<int> {
    var (month, s2) :- TakeField(s1, 2, "-");
    var (day, s3) :- TakeField(s2, 2, "T");
    var (hour, s4) :- TakeField(s3, 2, ":");
    var (minute, s5) :- TakeField(s4, 2, ":");
    var (second, s6) :- TakeField(s5, 2, "");
    var nano :- TakeFraction(s6);
    var c := Civil(year, month, day, hour, minute, second, nano);
    if Valid(c) then Some(Instant(c)) else None
  }

  function TakeField(s: string, w: nat, sep: string): Option<(nat, string)> {
    if |s| < w + |sep| || !AllDigits(s[..w]) || s[w..w + |sep|] != sep then None
    else Some((Value(s[..w]), s[w + |sep|..]))
  }

  function TakeFraction(s: string): Option<nat> {
    if s == OFFSET then Some(0)
    else if |s| !in {10, 13, 16} || s[0] != '.' || s[|s| - 6..] != OFFSET || !AllDigits(s[1..|s| - 6]) then None
    else
      var v := Value(s[1..|s| - 6]);
      Some(if |s| == 10 then v * 1_000_000 else if |s| == 13 then v * 1_000 else v)
  }

  lemma TakesField(v: nat, w: nat, sep: string, rest: string)
    requires v < Pow10(w)
    ensures TakeField(Field(v, w, sep, rest), w, sep) == Some((v, rest))
  {
    var s := Field(v, w, sep, rest);
    assert s[..w] == Fixed(v, w) && s[w..w + |sep|] == sep && s[w + |sep|..] == rest;
    ValueOfFixed(v, w);
  }

  lemma TakesFraction(nano: nat)
    requires nano < SECOND
    ensures TakeFraction(Fraction(nano) + OFFSET) == Some(nano)
  {
    if nano == 0 {
      assert Fraction(nano) + OFFSET == OFFSET;
    } else {
      FractionIsPrefix(nano);
      Shifts(nano);
      var k := Precision(nano);
      var s := Fraction(nano) + OFFSET;
      assert |s| == k + 7 && s[1..|s| - 6] == Fixed(Shifted(nano, 9 - k), k) && s[|s| - 6..] == OFFSET;
      ValueOfFixed(Shifted(nano, 9 - k), k);
    }
  }

  lemma ReadsAfterYear(c: Civil)
    requires Valid(c) && 0 <= c.year
    ensures ParseAfterYear(c.year, AfterYear(c)) == Some(Instant(c))
  {
    PowersOfTen();
    var c7 := Fraction(c.nano) + OFFSET;
    var c6 := Field(c.second, 2, "", c7);
    var c5 := Field(c.minute, 2, ":", c6);
    var c4 := Field(c.hour, 2, ":", c5);
    TakesField(c.month, 2, "-", Field(c.day, 2, "T", c4));
    TakesField(c.day, 2, "T", c4);
    TakesField(c.hour, 2, ":", c5);
    TakesField(c.minute, 2, ":", c6);
    TakesField(c.second, 2, "", c7);
    TakesFraction(c.nano);
  }

  lemma ParseStamp(c: Civil)
    requires Valid(c) && 0 <= c.year < 10_000
    ensures Parse(Stamp(c)) == Some(Instant(c))
  {
    PowersOfTen();
    TakesField(c.year, 4, "-", AfterYear(c));
    ReadsAfterYear(c);
  }

  /** What the store wrote it reads back, to the nanosecond. */
  lemma ParseRender(n: int)
    requires InRange(n)
    ensures Parse(Render(n)) == Some(n)
  {
    RangeIsFourDigitYears(n);
    ParseStamp(ToCivil(n));
  }
}
