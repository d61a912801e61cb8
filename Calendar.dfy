/**
 * The injected clock: a UTC instant is a proleptic Gregorian date (the
 * range of .NET's DateTime, 0001-01-01 to 9999-12-31) and a tick count
 * within that day. Dates are rendered with the custom format "yyyy-MM-dd",
 * which is what the incident table uses as its partition key.
 */
module Calendar {
  import opened Wrappers
  import opened Decimal

  datatype Date = Date(year: int, month: int, day: int)

  /** A UTC instant: the date, and the 100-nanosecond ticks since midnight. */
  datatype Instant = Instant(date: Date, tickOfDay: nat)

  predicate IsLeapYear(y: int)
  {
    y % 4 == 0 && (y % 100 != 0 || y % 400 == 0)
  }

  function DaysInMonth(y: int, m: int): int
    requires 1 <= m <= 12
  {
    if m == 2 then (if IsLeapYear(y) then 29 else 28)
    else if m == 4 || m == 6 || m == 9 || m == 11 then 30
    else 31
  }

  /** A date DateTime can represent. */
  predicate ValidDate(d: Date)
  {
    && 1 <= d.year <= 9999
    && 1 <= d.month <= 12
    && 1 <= d.day <= DaysInMonth(d.year, d.month)
  }

  /** `a` is a strictly earlier date than `b`. */
  predicate Before(a: Date, b: Date)
  {
    || a.year < b.year
    || (a.year == b.year && (a.month < b.month || (a.month == b.month && a.day < b.day)))
  }

  /** `a` is a strictly earlier instant than `b`. */
  predicate Earlier(a: Instant, b: Instant)
  {
    Before(a.date, b.date) || (a.date == b.date && a.tickOfDay < b.tickOfDay)
  }

  /** The day before `d`; None before 0001-01-01, where DateTime arithmetic
      throws ArgumentOutOfRangeException. */
  function PrevDay(d: Date): (r: Option<Date>)
    requires ValidDate(d)
    ensures r.None? <==> d == Date(1, 1, 1)
    ensures r.Some? ==> ValidDate(r.value) && Before(r.value, d)
    ensures r.Some? ==> forall x :: ValidDate(x) ==> !(Before(r.value, x) && Before(x, d))
  {
    if d.day > 1 then Some(d.(day := d.day - 1))
    else if d.month > 1 then Some(Date(d.year, d.month - 1, DaysInMonth(d.year, d.month - 1)))
    else if d.year > 1 then Some(Date(d.year - 1, 12, 31))
    else None
  }

  /** The date part of `DateTime.AddDays(-n)`. */
  function DaysBefore(d: Date, n: nat): (r: Option<Date>)
    requires ValidDate(d)
    ensures r.Some? ==> ValidDate(r.value)
    ensures r.Some? && n > 0 ==> Before(r.value, d)
    decreases n
  {
    if n == 0 then Some(d)
    else
      match PrevDay(d)
      case None => None
      case Some(p) =>
        var r := DaysBefore(p, n - 1);
        r
  }

  /** Going back n + 1 days is going back n days and then one more. */
  lemma {:induction false} DaysBeforeStep(d: Date, n: nat)
    requires ValidDate(d)
    ensures DaysBefore(d, n + 1)
      == match DaysBefore(d, n) case None => None case Some(p) => PrevDay(p)
    decreases n
  {
    if n > 0 {
      match PrevDay(d)
      case None =>
      case Some(p) => DaysBeforeStep(p, n - 1);
    }
  }

  // ---------------------------------------------------------------------
  // "yyyy-MM-dd" and the ordinal order of strings
  // ---------------------------------------------------------------------

  function Pow10(w: nat): (p: nat)
    ensures p >= 1
  {
    if w == 0 then 1 else 10 * Pow10(w - 1)
  }

  /** `n` in exactly `w` decimal digits, zero-padded on the left. */
  function Pad(n: nat, w: nat): (s: string)
    ensures |s| == w && AllDigits(s)
  {
    if w == 0 then [] else Pad(n / 10, w - 1) + [DigitChar(n % 10)]
  }

  /** `d.ToString("yyyy-MM-dd")`. */
  function DateKey(d: Date): (key: string)
    requires ValidDate(d)
    ensures |key| == 10 && key[4] == '-' && key[7] == '-'
    ensures AllDigits(key[..4]) && AllDigits(key[5..7]) && AllDigits(key[8..])
  {
    Pad(d.year, 4) + ("-" + MonthDayKey(d))
  }

  /** The "MM-dd" part of a partition key. */
  function MonthDayKey(d: Date): string
    requires ValidDate(d)
  {
    Pad(d.month, 2) + ("-" + Pad(d.day, 2))
  }

  /** Ordinal comparison, `string.CompareOrdinal(a, b) <= 0`: the order in
      which the table service compares string keys. */
  predicate LexLe(a: string, b: string)
  {
    if a == [] then true
    else if b == [] then false
    else a[0] < b[0] || (a[0] == b[0] && LexLe(a[1..], b[1..]))
  }

  /** Comparing two strings that start with pieces of equal length: the
      pieces decide unless they are equal. */
  lemma {:induction false} LexLeAppend(a1: string, b1: string, a2: string, b2: string)
    requires |a1| == |a2|
    ensures LexLe(a1 + b1, a2 + b2) <==> if a1 == a2 then LexLe(b1, b2) else LexLe(a1, a2)
  {
    if a1 == [] {
      assert a1 + b1 == b1 && a2 + b2 == b2;
    } else {
      assert (a1 + b1)[1..] == a1[1..] + b1;
      assert (a2 + b2)[1..] == a2[1..] + b2;
      LexLeAppend(a1[1..], b1, a2[1..], b2);
      assert a1 == a2 <==> a1[0] == a2[0] && a1[1..] == a2[1..];
    }
  }

  lemma {:induction false} PadValue(n: nat, w: nat)
    requires n < Pow10(w)
    ensures DigitsValue(Pad(n, w)) == n
  {
    if w > 0 {
      var s := Pad(n, w);
      assert s[..|s| - 1] == Pad(n / 10, w - 1);
      PadValue(n / 10, w - 1);
    }
  }

  /** Numbers compare as their leading digits, then their last digits. */
  lemma DecimalSplitOrder(x: nat, y: nat)
    ensures x <= y <==> x / 10 < y / 10 || (x / 10 == y / 10 && x % 10 <= y % 10)
  {
    var qx, rx, qy, ry := x / 10, x % 10, y / 10, y % 10;
    assert x == 10 * qx + rx && y == 10 * qy + ry;
    if qx < qy {
      assert 10 * qx + 10 <= 10 * qy;
    } else if qy < qx {
      assert 10 * qy + 10 <= 10 * qx;
    }
  }

  lemma DigitCharOrder(a: nat, b: nat)
    requires a < 10 && b < 10
    ensures LexLe([DigitChar(a)], [DigitChar(b)]) <==> a <= b
  {
    assert [DigitChar(a)][1..] == [] && [DigitChar(b)][1..] == [];
  }

  lemma LeadingDigitsBound(x: nat, w: nat)
    requires w > 0 && x < Pow10(w)
    ensures x / 10 < Pow10(w - 1)
  {
  }

  /** Zero-padded renderings of one width compare as the numbers do. */
  lemma {:induction false} PadOrder(x: nat, y: nat, w: nat)
    requires x < Pow10(w) && y < Pow10(w)
    ensures LexLe(Pad(x, w), Pad(y, w)) <==> x <= y
  {
    if w > 0 {
      LeadingDigitsBound(x, w);
      LeadingDigitsBound(y, w);
      var px, py := Pad(x / 10, w - 1), Pad(y / 10, w - 1);
      PadOrder(x / 10, y / 10, w - 1);
      PadValue(x / 10, w - 1);
      PadValue(y / 10, w - 1);
      assert px == py <==> x / 10 == y / 10;
      LexLeAppend(px, [DigitChar(x % 10)], py, [DigitChar(y % 10)]);
      DigitCharOrder(x % 10, y % 10);
      DecimalSplitOrder(x, y);
    }
  }

  /** Zero-padded renderings of one width are equal exactly when the
      numbers are, and compare as the numbers do. */
  lemma PadCompare(x: nat, y: nat, w: nat)
    requires x < Pow10(w) && y < Pow10(w)
    ensures Pad(x, w) == Pad(y, w) <==> x == y
    ensures LexLe(Pad(x, w), Pad(y, w)) <==> x <= y
  {
    PadOrder(x, y, w);
    PadValue(x, w);
    PadValue(y, w);
  }

  /** Two "x-y" keys whose first pieces have one width compare piece by
      piece. */
  lemma DashedOrder(xa: string, ya: string, xb: string, yb: string)
    requires |xa| == |xb|
    ensures LexLe(xa + ("-" + ya), xb + ("-" + yb)) <==> if xa == xb then LexLe(ya, yb) else LexLe(xa, xb)
  {
    LexLeAppend(xa, "-" + ya, xb, "-" + yb);
    LexLeAppend("-", ya, "-", yb);
  }

  lemma MonthDayKeyOrder(a: Date, b: Date)
    requires ValidDate(a) && ValidDate(b)
    ensures MonthDayKey(a) == MonthDayKey(b) <==> a.month == b.month && a.day == b.day
    ensures LexLe(MonthDayKey(a), MonthDayKey(b))
        <==> a.month < b.month || (a.month == b.month && a.day <= b.day)
  {
    var ma, mb, da, db := Pad(a.month, 2), Pad(b.month, 2), Pad(a.day, 2), Pad(b.day, 2);
    PadCompare(a.month, b.month, 2);
    PadCompare(a.day, b.day, 2);
    assert |ma| == |mb|;
    DashedOrder(ma, da, mb, db);
    assert MonthDayKey(a) == ma + ("-" + da) && MonthDayKey(b) == mb + ("-" + db);
    assert MonthDayKey(a) == MonthDayKey(b) <==> ma == mb && da == db by {
      assert |"-" + da| == |"-" + db|;
      if MonthDayKey(a) == MonthDayKey(b) {
        assert ma == MonthDayKey(a)[..|ma|];
        assert "-" + da == MonthDayKey(a)[|ma|..];
        assert da == ("-" + da)[1..];
      }
    }
  }

  /** Partition keys compare as the dates they render. */
  lemma DateKeyOrder(a: Date, b: Date)
    requires ValidDate(a) && ValidDate(b)
    ensures LexLe(DateKey(a), DateKey(b)) <==> !Before(b, a)
  {
    var ma, mb := MonthDayKey(a), MonthDayKey(b);
    MonthDayKeyOrder(a, b);
    PadCompare(a.year, b.year, 4);
    DashedOrder(Pad(a.year, 4), ma, Pad(b.year, 4), mb);
  }

  /** Different dates have different partition keys. */
  lemma DateKeyInjective(a: Date, b: Date)
    requires ValidDate(a) && ValidDate(b)
    requires DateKey(a) == DateKey(b)
    ensures a == b
  {
    DateKeyOrder(a, b);
    DateKeyOrder(b, a);
    LexLeReflexive(DateKey(a));
  }

  lemma {:induction false} LexLeReflexive(s: string)
    ensures LexLe(s, s)
  {
    if s != [] {
      LexLeReflexive(s[1..]);
    }
  }
}
