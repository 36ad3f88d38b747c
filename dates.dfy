/** Calendar dates as the screens read them, and `formatDate`, the
    year-month-day string the Home screen hands its calendar widget: the year
    as `${year}` writes it (four digits only for years 1000 to 9999), then a
    two-digit month and a two-digit day. */
module Dates {
  import opened Common

  /** The calendar fields of a host date: getFullYear(), getMonth() (0-based)
      and getDate(). */
  datatype Date = Date(year: int, month0: int, day: int)
  {
    /** The ranges getMonth() and getDate() return in. */
    predicate Valid() {
      0 <= month0 <= 11 && 1 <= day <= 31
    }
  }

  predicate IsDigit(c: char) {
    '0' <= c <= '9'
  }

  predicate AllDigits(s: string) {
    forall i :: 0 <= i < |s| ==> IsDigit(s[i])
  }

  function DigitChar(d: nat): (c: char)
    requires d < 10
    ensures IsDigit(c)
  {
    ('0' as int + d) as char
  }

  function DigitValue(c: char): nat
    requires IsDigit(c)
  {
    c as int - '0' as int
  }

  /** The decimal text of a non-negative integer, as string conversion in the
      host language writes it: no leading zeros. */
  function NatToString(n: nat): (s: string)
    ensures |s| >= 1 && AllDigits(s)
    ensures n >= 10 ==> s[0] != '0'
  {
    if n < 10 then [DigitChar(n)]
    else NatToString(n / 10) + [DigitChar(n % 10)]
  }

  /** `${year}`: a minus sign before the digits of a negative year. */
  function IntToString(i: int): (s: string)
    ensures |s| >= 1
    ensures i >= 0 ==> AllDigits(s)
    ensures i < 0 ==> s[0] == '-' && AllDigits(s[1..])
  {
    if i < 0 then
      var s := "-" + NatToString(-i);
      assert s[1..] == NatToString(-i);
      s
    else NatToString(i)
  }

  function ParseNat(s: string): nat
    requires AllDigits(s)
  {
    if s == [] then 0 else ParseNat(s[..|s| - 1]) * 10 + DigitValue(s[|s| - 1])
  }

  function ParseInt(s: string): Option<int> {
    if s == [] then None
    else if AllDigits(s) then Some(ParseNat(s))
    else if s[0] == '-' && |s| > 1 && AllDigits(s[1..]) then Some(0 - ParseNat(s[1..]))
    else None
  }

  /** `(s).slice(-2)`: the last two characters, or all of a shorter string. */
  function Last2(s: string): (r: string)
    ensures |r| == if |s| < 2 then |s| else 2
    ensures r == s[|s| - |r|..]
  {
    if |s| < 2 then s else s[|s| - 2..]
  }

  /** `('0' + n).slice(-2)`: always two characters; below 100, two digits
      that read back as `n`, the first a '0' exactly when `n` is below 10. */
  function Pad2(n: nat): (p: string)
    ensures |p| == 2
    ensures n < 100 ==> AllDigits(p) && ParseNat(p) == n && (p[0] == '0' <==> n < 10)
  {
    var p := Last2("0" + NatToString(n));
    if n < 10 then
      assert p == ['0', DigitChar(n)];
      assert p[..1] == ['0'] && p[..1][..0] == [];
      assert ParseNat(p[..1]) == 0;
      p
    else if n < 100 then
      assert NatToString(n) == [DigitChar(n / 10), DigitChar(n % 10)];
      assert p == [DigitChar(n / 10), DigitChar(n % 10)];
      assert p[..1] == [DigitChar(n / 10)] && p[..1][..0] == [];
      assert ParseNat(p[..1]) == n / 10;
      p
    else
      p
  }

  /** The Home screen's `formatDate`: year, then month and day zero-padded to
      two digits, joined by '-'. Round trip: the string reads back as the
      date it came from, with `month0 + 1` and the day each written as exactly
      two digits after the year's own digits. */
  function FormatDate(d: Date): (r: string)
    requires d.Valid()
    ensures ParseDate(r) == Some(d)
    ensures |r| == |IntToString(d.year)| + 6
  {
    var y, mm, dd := IntToString(d.year), Pad2(d.month0 + 1), Pad2(d.day);
    ParseIntToString(d.year);
    ParseJoined(y, mm, dd);
    y + "-" + mm + "-" + dd
  }

  /** Reads back a year-month-day string: the reference that `FormatDate` is
      checked against. */
  function ParseDate(s: string): Option<Date> {
    if |s| < 7 || s[|s| - 6] != '-' || s[|s| - 3] != '-' then None
    else ParseFields(s[..|s| - 6], s[|s| - 5..|s| - 3], s[|s| - 2..])
  }

  function ParseFields(y: string, mm: string, dd: string): Option<Date> {
    match ParseInt(y)
    case None => None
    case Some(year) =>
      if AllDigits(mm) && AllDigits(dd) then Some(Date(year, ParseNat(mm) - 1, ParseNat(dd)))
      else None
  }

  lemma {:induction false} ParseNatToString(n: nat)
    ensures ParseNat(NatToString(n)) == n
  {
    if n >= 10 {
      var s := NatToString(n);
      assert s[..|s| - 1] == NatToString(n / 10);
      ParseNatToString(n / 10);
    }
  }

  lemma ParseIntToString(i: int)
    ensures ParseInt(IntToString(i)) == Some(i)
  {
    var s := IntToString(i);
    if i < 0 {
      var t := NatToString(-i);
      assert s == "-" + t;
      assert s[1..] == t;
      assert !AllDigits(s) by {
        assert !IsDigit(s[0]);
      }
      ParseNatToString(-i);
      assert ParseInt(s) == Some(0 - ParseNat(t));
    } else {
      assert s == NatToString(i);
      ParseNatToString(i);
    }
  }

  /** `ParseDate` finds the three fields of a joined string where they were put. */
  lemma ParseJoined(y: string, mm: string, dd: string)
    requires |y| >= 1 && |mm| == 2 && |dd| == 2
    ensures ParseDate(y + "-" + mm + "-" + dd) == ParseFields(y, mm, dd)
  {
    SplitJoined(y, mm, dd);
  }

  /** Where the fields of a joined year-month-day string sit. */
  lemma SplitJoined(y: string, mm: string, dd: string)
    requires |y| >= 1 && |mm| == 2 && |dd| == 2
    ensures var s, n := y + "-" + mm + "-" + dd, |y| + 6;
      |s| == n && s[n - 6] == '-' && s[n - 3] == '-' &&
      s[..n - 6] == y && s[n - 5..n - 3] == mm && s[n - 2..] == dd
  {
    var s := y + "-" + mm + "-" + dd;
    var n := |s|;
    assert s[..n - 6] == y;
    assert s[n - 5..n - 3] == mm;
    assert s[n - 2..] == dd;
  }

  /** By the round trip, distinct dates are formatted differently. */
  lemma FormatDateInjective(d1: Date, d2: Date)
    requires d1.Valid() && d2.Valid()
    requires FormatDate(d1) == FormatDate(d2)
    ensures d1 == d2
  {
  }
}
