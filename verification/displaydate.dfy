/**
 The list's date display, the `MMM dd, yyyy HH:mm` pattern in the English
 locale. The calendar and time-zone conversion from an instant to civil
 time is a parameter; the pattern itself is modelled character by character.
 */
module DisplayDate {
  import opened Types
  import Text
  import Seqs

  datatype Month = Jan | Feb | Mar | Apr | May | Jun | Jul | Aug | Sep | Oct | Nov | Dec

  /** Broken-down local time, as the formatter sees an instant. */
  datatype CivilTime = CivilTime(year: nat, month: Month, day: nat, hour: nat, minute: nat)

  /** `MMM`: the three-letter English month abbreviation, capital first. */
  function MonthAbbrev(m: Month): (r: string)
    ensures |r| == 3
    ensures 'A' <= r[0] <= 'Z' && 'a' <= r[1] <= 'z' && 'a' <= r[2] <= 'z'
  {
    match m
    case Jan => "Jan" case Feb => "Feb" case Mar => "Mar" case Apr => "Apr"
    case May => "May" case Jun => "Jun" case Jul => "Jul" case Aug => "Aug"
    case Sep => "Sep" case Oct => "Oct" case Nov => "Nov" case Dec => "Dec"
  }

  /** Reads an abbreviation back: the month it names, if any. */
  function MonthNamed(s: string): Option<Month>
  {
    if s == "Jan" then Some(Jan) else if s == "Feb" then Some(Feb)
    else if s == "Mar" then Some(Mar) else if s == "Apr" then Some(Apr)
    else if s == "May" then Some(May) else if s == "Jun" then Some(Jun)
    else if s == "Jul" then Some(Jul) else if s == "Aug" then Some(Aug)
    else if s == "Sep" then Some(Sep) else if s == "Oct" then Some(Oct)
    else if s == "Nov" then Some(Nov) else if s == "Dec" then Some(Dec)
    else None
  }

  /** Every abbreviation reads back as its own month. */
  lemma MonthNamedAbbrev(m: Month)
    ensures MonthNamed(MonthAbbrev(m)) == Some(m)
  {
    match m
    case Jan => case Feb => case Mar => case Apr => case May => case Jun =>
    case Jul => case Aug => case Sep => case Oct => case Nov => case Dec =>
  }

  /** Distinct months are written differently. */
  lemma MonthAbbrevInjective(m1: Month, m2: Month)
    requires m1 != m2
    ensures MonthAbbrev(m1) != MonthAbbrev(m2)
  {
    MonthNamedAbbrev(m1);
    MonthNamedAbbrev(m2);
  }

  function DigitChar(d: nat): (c: char)
    requires d < 10
    ensures '0' <= c <= '9'
    ensures DigitValue(c) == d
  {
    ('0' as int + d) as char
  }

  /** The value of a decimal digit character; zero for any other character. */
  function DigitValue(c: char): nat
  {
    if '0' <= c <= '9' then c as int - '0' as int else 0
  }

  /** The number a string of decimal digits denotes, most significant first. */
  function DecimalValue(s: string): nat
  {
    if |s| == 0 then 0 else DecimalValue(s[..|s| - 1]) * 10 + DigitValue(s[|s| - 1])
  }

  /** Decimal digits of `n`, most significant first, without leading zeros. */
  function Digits(n: nat): (r: string)
    ensures |r| >= 1
    ensures forall i :: 0 <= i < |r| ==> '0' <= r[i] <= '9'
  {
    if n < 10 then [DigitChar(n)] else Digits(n / 10) + [DigitChar(n % 10)]
  }

  /** The digits of `n` denote `n`, with no leading zero. */
  lemma {:induction false} DigitsValue(n: nat)
    ensures DecimalValue(Digits(n)) == n
    ensures n > 0 ==> Digits(n)[0] != '0'
  {
    if n >= 10 {
      var r := Digits(n);
      assert r[..|r| - 1] == Digits(n / 10);
      DigitsValue(n / 10);
    }
  }

  /** Leading zeros do not change the value. */
  lemma {:induction false} LeadingZeros(k: nat, d: string)
    ensures DecimalValue(seq(k, _ => '0') + d) == DecimalValue(d)
    decreases |d|
  {
    var z := seq(k, _ => '0');
    if |d| == 0 {
      assert z + d == z;
      ZerosValue(k);
    } else {
      var last := |d| - 1;
      assert (z + d)[..|z + d| - 1] == z + d[..last];
      LeadingZeros(k, d[..last]);
    }
  }

  lemma {:induction false} ZerosValue(k: nat)
    ensures DecimalValue(seq(k, _ => '0')) == 0
  {
    if k > 0 {
      assert seq(k, _ => '0')[..k - 1] == seq(k - 1, _ => '0');
      ZerosValue(k - 1);
    }
  }

  /** `n` in decimal, left-padded with zeros to at least `width` characters. */
  function Padded(n: nat, width: nat): (r: string)
    ensures |r| == Seqs.Max(width, |Digits(n)|)
    ensures forall i :: 0 <= i < |r| ==> '0' <= r[i] <= '9'
  {
    var d := Digits(n);
    if |d| >= width then d else seq(width - |d|, _ => '0') + d
  }

  /** Padding keeps the value: the padded text still denotes `n`. */
  lemma PaddedValue(n: nat, width: nat)
    ensures DecimalValue(Padded(n, width)) == n
  {
    var d := Digits(n);
    DigitsValue(n);
    if |d| < width {
      LeadingZeros(width - |d|, d);
    }
  }

  /** Free of the characters that are special in CSV text: comma, newline, double quote. */
  predicate Plain(s: string)
  {
    forall i :: 0 <= i < |s| ==> s[i] != ',' && s[i] != '\n' && s[i] != '"'
  }

  /** `MMM dd`: everything before the comma. */
  function DayPart(c: CivilTime): (r: string)
    ensures Plain(r)
  {
    MonthAbbrev(c.month) + " " + Padded(c.day, 2)
  }

  /** `yyyy HH:mm`: everything after the comma and its space. */
  function YearPart(c: CivilTime): (r: string)
    ensures Plain(r)
  {
    Padded(c.year, 4) + " " + Padded(c.hour, 2) + ":" + Padded(c.minute, 2)
  }

  /** The display text of a civil time: month, day, comma, year, hour and minute. */
  function Format(c: CivilTime): string
  {
    DayPart(c) + ", " + YearPart(c)
  }

  /** `formatDateDisplay`, given the conversion from instants to local civil time. */
  function Display(t: Instant, toCivil: Instant -> CivilTime): string
  {
    Format(toCivil(t))
  }

  lemma {:induction false} PlainCountsNoComma(s: string)
    requires Plain(s)
    ensures Text.CountChar(s, ',') == 0
  {
    if |s| > 0 {
      PlainCountsNoComma(s[1..]);
    }
  }

  /** Every displayed date holds exactly one comma, between the day and the year, and no newline or quote. */
  lemma FormatHasOneComma(c: CivilTime)
    ensures Text.CountChar(Format(c), ',') == 1
    ensures '\n' !in Format(c) && '"' !in Format(c)
  {
    PlainCountsNoComma(DayPart(c));
    PlainCountsNoComma(YearPart(c));
    Text.CountCharAppend(DayPart(c), ", ", ',');
    Text.CountCharAppend(DayPart(c) + ", ", YearPart(c), ',');
  }

  /** The displayed text of any instant has the shape stated by `FormatHasOneComma`. */
  lemma DisplayHasOneComma(t: Instant, toCivil: Instant -> CivilTime)
    ensures Text.CountChar(Display(t, toCivil), ',') == 1
    ensures '\n' !in Display(t, toCivil) && '"' !in Display(t, toCivil)
  {
    FormatHasOneComma(toCivil(t));
  }
}
