/**
 * Day-stamps: the `YYYY-MM-DD` strings the application keys days by.
 *
 * `ToISODate` is the charts page's `format(d, "yyyy-MM-dd")`, `DaySchema` the
 * server's shape check, `ParseDayStamp` the date library's parsing of such a
 * string into a calendar day (an invalid calendar date yields nothing).
 * Proved here: formatting and parsing are inverse, formatting is injective,
 * and comparing the strings character by character orders them exactly as
 * their days, which is why the model can key maps and sort by day number.
 */
module DayStamps {
  import opened Calendar
  import opened Options

  predicate IsDigit(c: char) {
    '0' <= c <= '9'
  }

  predicate AllDigits(s: string) {
    forall i :: 0 <= i < |s| ==> IsDigit(s[i])
  }

  function DigitChar(d: int): (c: char)
    requires 0 <= d < 10
    ensures IsDigit(c)
  {
    ('0' as int + d) as char
  }

  function DigitValue(c: char): (d: int)
    requires IsDigit(c)
    ensures 0 <= d < 10 && DigitChar(d) == c
  {
    c as int - '0' as int
  }

  function Pow10(w: nat): (p: nat)
    ensures p >= 1
  {
    if w == 0 then 1 else 10 * Pow10(w - 1)
  }

  /** x written with exactly w decimal digits, padded with leading zeros. */
  function Pad(x: nat, w: nat): (s: string)
    requires x < Pow10(w)
    ensures |s| == w && AllDigits(s)
  {
    if w == 0 then "" else Pad(x / 10, w - 1) + [DigitChar(x % 10)]
  }

  /** The number a string of decimal digits denotes. */
  function DigitsValue(s: string): (v: nat)
    requires AllDigits(s)
    ensures v < Pow10(|s|)
  {
    if s == [] then 0 else DigitsValue(s[..|s| - 1]) * 10 + DigitValue(s[|s| - 1])
  }

  lemma {:induction false} PadValue(x: nat, w: nat)
    requires x < Pow10(w)
    ensures DigitsValue(Pad(x, w)) == x
  {
    if w > 0 {
      var s := Pad(x, w);
      assert s[..w - 1] == Pad(x / 10, w - 1);
      PadValue(x / 10, w - 1);
    }
  }

  lemma {:induction false} ValuePad(s: string)
    requires AllDigits(s)
    ensures Pad(DigitsValue(s), |s|) == s
  {
    if s != [] {
      var p := s[..|s| - 1];
      var v := DigitsValue(s);
      assert v / 10 == DigitsValue(p) && v % 10 == DigitValue(s[|s| - 1]);
      ValuePad(p);
      assert s == p + [s[|s| - 1]];
    }
  }

  /** Distinct numbers of the same width have distinct padded forms. */
  lemma PadInjective(x: nat, y: nat, w: nat)
    requires x < Pow10(w) && y < Pow10(w)
    ensures Pad(x, w) == Pad(y, w) <==> x == y
  {
    if Pad(x, w) == Pad(y, w) {
      PadValue(x, w);
      PadValue(y, w);
    }
  }

  /** Character-by-character (code unit) order of strings. */
  predicate LexLess(a: string, b: string)
    decreases |a|
  {
    if |a| == 0 then |b| > 0
    else |b| > 0 && (a[0] < b[0] || (a[0] == b[0] && LexLess(a[1..], b[1..])))
  }

  /** Comparing concatenations whose first parts have equal lengths. */
  lemma {:induction false} LexLessAppend(a1: string, a2: string, b1: string, b2: string)
    requires |a1| == |b1|
    ensures LexLess(a1 + a2, b1 + b2) <==> LexLess(a1, b1) || (a1 == b1 && LexLess(a2, b2))
    decreases |a1|
  {
    if |a1| > 0 {
      assert (a1 + a2)[0] == a1[0] && (b1 + b2)[0] == b1[0];
      assert (a1 + a2)[1..] == a1[1..] + a2;
      assert (b1 + b2)[1..] == b1[1..] + b2;
      LexLessAppend(a1[1..], a2, b1[1..], b2);
      if a1[0] == b1[0] {
        assert a1 == b1 <==> a1[1..] == b1[1..] by {
          assert a1 == [a1[0]] + a1[1..];
          assert b1 == [b1[0]] + b1[1..];
        }
      }
    } else {
      assert a1 + a2 == a2 && b1 + b2 == b2;
    }
  }

  /** Zero-padded numbers of one width sort as the numbers do. */
  lemma {:induction false} PadOrder(x: nat, y: nat, w: nat)
    requires x < Pow10(w) && y < Pow10(w)
    ensures LexLess(Pad(x, w), Pad(y, w)) <==> x < y
  {
    if w > 0 {
      var dx, dy := [DigitChar(x % 10)], [DigitChar(y % 10)];
      LexLessAppend(Pad(x / 10, w - 1), dx, Pad(y / 10, w - 1), dy);
      PadOrder(x / 10, y / 10, w - 1);
      PadInjective(x / 10, y / 10, w - 1);
      assert LexLess(dx, dy) <==> x % 10 < y % 10 by {
        assert dx[1..] == [] && dy[1..] == [];
      }
    } else {
      assert x == 0 && y == 0;
    }
  }

  /** Days whose year can be written with four digits, as `yyyy` writes it. */
  predicate InIsoRange(n: int) {
    1 <= FromDayNumber(n).year <= 9999
  }

  function FormatDate(dt: Date): (s: string)
    requires ValidDate(dt) && 1 <= dt.year <= 9999
  {
    Pad(dt.year, 4) + ("-" + (Pad(dt.month, 2) + ("-" + Pad(dt.day, 2))))
  }

  /** `/^\d{4}-\d{2}-\d{2}$/`: four, two and two digits separated by hyphens, nothing else. */
  predicate DaySchema(s: string) {
    && |s| == 10
    && AllDigits(s[..4]) && s[4] == '-'
    && AllDigits(s[5..7]) && s[7] == '-'
    && AllDigits(s[8..])
  }

  /** `format(d, "yyyy-MM-dd")` of day number n. */
  function ToISODate(n: int): (s: string)
    requires InIsoRange(n)
    ensures DaySchema(s)
  {
    var dt := FromDayNumber(n);
    var s := FormatDate(dt);
    assert s[..4] == Pad(dt.year, 4);
    assert s[5..7] == Pad(dt.month, 2);
    assert s[8..] == Pad(dt.day, 2);
    s
  }

  /** The calendar day a `YYYY-MM-DD` string denotes, if it denotes one. */
  function ParseDayStamp(s: string): Option<int> {
    if !DaySchema(s) then None
    else
      var dt := Date(DigitsValue(s[..4]), DigitsValue(s[5..7]), DigitsValue(s[8..]));
      if 1 <= dt.year && ValidDate(dt) then Some(DayNumber(dt)) else None
  }

  /** Parsing a formatted day gives the day back. */
  lemma ParseToISODate(n: int)
    requires InIsoRange(n)
    ensures ParseDayStamp(ToISODate(n)) == Some(n)
  {
    var dt := FromDayNumber(n);
    var s := ToISODate(n);
    assert s[..4] == Pad(dt.year, 4);
    assert s[5..7] == Pad(dt.month, 2);
    assert s[8..] == Pad(dt.day, 2);
    PadValue(dt.year, 4);
    PadValue(dt.month, 2);
    PadValue(dt.day, 2);
  }

  /** A string that parses is the formatted form of its day: stamps are canonical. */
  lemma ToISODateParse(s: string, n: int)
    requires ParseDayStamp(s) == Some(n)
    ensures InIsoRange(n) && ToISODate(n) == s
  {
    var dt := Date(DigitsValue(s[..4]), DigitsValue(s[5..7]), DigitsValue(s[8..]));
    assert ValidDate(dt) && n == DayNumber(dt);
    RoundTripDate(dt);
    assert FromDayNumber(n) == dt;
    SchemaIsPadded(s);
    assert ToISODate(n) == FormatDate(dt);
  }

  /** A string of the stamp's shape is its three fields padded back. */
  lemma SchemaIsPadded(s: string)
    requires DaySchema(s)
    ensures s == Pad(DigitsValue(s[..4]), 4) + ("-" + (Pad(DigitsValue(s[5..7]), 2) + ("-" + Pad(DigitsValue(s[8..]), 2))))
  {
    ValuePad(s[..4]);
    ValuePad(s[5..7]);
    ValuePad(s[8..]);
    assert s == s[..4] + ([s[4]] + (s[5..7] + ([s[7]] + s[8..])));
  }

  /** Different days have different stamps. */
  lemma ToISODateInjective(a: int, b: int)
    requires InIsoRange(a) && InIsoRange(b)
    ensures ToISODate(a) == ToISODate(b) <==> a == b
  {
    if ToISODate(a) == ToISODate(b) {
      ParseToISODate(a);
      ParseToISODate(b);
    }
  }

  lemma FormatOrder(a: Date, b: Date)
    requires ValidDate(a) && 1 <= a.year <= 9999
    requires ValidDate(b) && 1 <= b.year <= 9999
    ensures LexLess(FormatDate(a), FormatDate(b)) <==> Before(a, b)
  {
    var ra := "-" + (Pad(a.month, 2) + ("-" + Pad(a.day, 2)));
    var rb := "-" + (Pad(b.month, 2) + ("-" + Pad(b.day, 2)));
    LexLessAppend(Pad(a.year, 4), ra, Pad(b.year, 4), rb);
    PadOrder(a.year, b.year, 4);
    PadInjective(a.year, b.year, 4);
    var ma := Pad(a.month, 2) + ("-" + Pad(a.day, 2));
    var mb := Pad(b.month, 2) + ("-" + Pad(b.day, 2));
    LexLessAppend("-", ma, "-", mb);
    LexLessAppend(Pad(a.month, 2), "-" + Pad(a.day, 2), Pad(b.month, 2), "-" + Pad(b.day, 2));
    PadOrder(a.month, b.month, 2);
    PadInjective(a.month, b.month, 2);
    LexLessAppend("-", Pad(a.day, 2), "-", Pad(b.day, 2));
    PadOrder(a.day, b.day, 2);
  }

  /** Stamps compare character by character exactly as their days compare. */
  lemma ToISODateOrder(a: int, b: int)
    requires InIsoRange(a) && InIsoRange(b)
    ensures LexLess(ToISODate(a), ToISODate(b)) <==> a < b
  {
    var da, db := FromDayNumber(a), FromDayNumber(b);
    FormatOrder(da, db);
    if Before(da, db) {
      DayNumberMonotone(da, db);
    } else if Before(db, da) {
      DayNumberMonotone(db, da);
    } else {
      assert da == db;
    }
  }

  /** The shape check alone lets through strings that are not calendar dates. */
  lemma DaySchemaIsShapeOnly()
    ensures DaySchema("2024-13-99")
    ensures ParseDayStamp("2024-13-99") == None
    ensures !DaySchema("2024-1-05") && !DaySchema("2024-01-05 ")
  {
    var s := "2024-13-99";
    assert s[5..7] == "13";
    assert DigitsValue("13") == 13 by {
      assert "13"[..1] == "1";
      assert "1"[..0] == "";
    }
  }
}
