/**
 * The upload timestamp `datetime.now().strftime("%Y%m%d_%H%M%S")` used by the
 * two timestamping uploaders, and the order of such stamps. The clock reading
 * itself is a parameter.
 */
module Timestamps {

  import opened Strings

  /** A clock reading, as `datetime.now()` returns it (the fields strftime uses). */
  datatype DateTime = DateTime(year: int, month: int, day: int, hour: int, minute: int, second: int)

  /** The ranges of the fields of a current clock reading (four-digit years). */
  predicate ValidClock(t: DateTime)
  {
    && 1000 <= t.year <= 9999 && 1 <= t.month <= 12 && 1 <= t.day <= 31
    && 0 <= t.hour <= 23 && 0 <= t.minute <= 59 && 0 <= t.second <= 59
  }

  function Pow10(w: nat): (p: nat)
    ensures p >= 1
  {
    if w == 0 then 1 else 10 * Pow10(w - 1)
  }

  function DigitChar(d: int): char
    requires 0 <= d < 10
  {
    ('0' as int + d) as char
  }

  /** `n` written in decimal, zero-padded to `w` digits (`%02d`, `%04d`). */
  function Digits(n: nat, w: nat): (s: string)
    requires n < Pow10(w)
    ensures |s| == w
  {
    if w == 0 then [] else Digits(n / 10, w - 1) + [DigitChar(n % 10)]
  }

  /** `%Y%m%d_%H%M%S`. */
  function Timestamp(t: DateTime): (ts: string)
    requires ValidClock(t)
    ensures |ts| == 15
  {
    Digits(t.year, 4) + (Digits(t.month, 2) + (Digits(t.day, 2) + ("_" +
      (Digits(t.hour, 2) + (Digits(t.minute, 2) + Digits(t.second, 2))))))
  }

  /** An ASCII decimal digit. */
  predicate IsDigit(c: char)
  {
    '0' <= c <= '9'
  }

  /** `s.isdigit()` on ASCII text: non-empty and only digits. */
  predicate IsDigits(s: string)
  {
    |s| > 0 && forall k :: 0 <= k < |s| ==> IsDigit(s[k])
  }

  /** The shape strftime gives: eight digits, `_`, six digits. */
  predicate IsTimestamp(ts: string)
  {
    |ts| == 15 && IsDigits(ts[..8]) && ts[8] == '_' && IsDigits(ts[9..])
  }

  lemma {:induction false} DigitsAreDigits(n: nat, w: nat)
    requires n < Pow10(w) && w > 0
    ensures IsDigits(Digits(n, w))
  {
    if w > 1 {
      DigitsAreDigits(n / 10, w - 1);
    }
  }

  lemma DigitsJoin(a: string, b: string)
    requires IsDigits(a) && IsDigits(b)
    ensures IsDigits(a + b)
  {
    assert forall k :: 0 <= k < |a + b| ==> (a + b)[k] == if k < |a| then a[k] else b[k - |a|];
  }

  lemma NoDotOrSlash(s: string)
    requires IsDigits(s)
    ensures '.' !in s && '/' !in s
  {
  }

  /** A stamp has the `YYYYMMDD_HHMMSS` shape and contains neither `.` nor `/`,
      so it never disturbs a file's extension or folder. */
  lemma TimestampShape(t: DateTime)
    requires ValidClock(t)
    ensures IsTimestamp(Timestamp(t))
    ensures '.' !in Timestamp(t) && '/' !in Timestamp(t)
  {
    var y, mo, d := Digits(t.year, 4), Digits(t.month, 2), Digits(t.day, 2);
    var h, mi, s := Digits(t.hour, 2), Digits(t.minute, 2), Digits(t.second, 2);
    DigitsAreDigits(t.year, 4);
    DigitsAreDigits(t.month, 2);
    DigitsAreDigits(t.day, 2);
    DigitsAreDigits(t.hour, 2);
    DigitsAreDigits(t.minute, 2);
    DigitsAreDigits(t.second, 2);
    DigitsJoin(mo, d);
    DigitsJoin(y, mo + d);
    DigitsJoin(mi, s);
    DigitsJoin(h, mi + s);
    var date, time := y + (mo + d), h + (mi + s);
    NoDotOrSlash(date);
    NoDotOrSlash(time);
    var ts := Timestamp(t);
    assert ts == date + "_" + time;
    assert ts[..8] == date;
    assert ts[9..] == time;
  }

  /** Zero-padded numbers of one width compare as strings as they compare as numbers. */
  /** Comparing two numbers is comparing their leading digits, then their last. */
  lemma DivModOrder(a: nat, b: nat)
    ensures a < b <==> a / 10 < b / 10 || (a / 10 == b / 10 && a % 10 < b % 10)
    ensures a == b <==> a / 10 == b / 10 && a % 10 == b % 10
  {
    assert a == 10 * (a / 10) + a % 10 && b == 10 * (b / 10) + b % 10;
  }

  /** One-character texts compare as their digits. */
  lemma LastDigitOrder(x: nat, y: nat)
    requires x < 10 && y < 10
    ensures LexLess([DigitChar(x)], [DigitChar(y)]) <==> x < y
  {
    assert [DigitChar(x)][1..] == [] && [DigitChar(y)][1..] == [];
  }

  lemma DigitsSnoc(n: nat, w: nat)
    requires 0 < w && n < Pow10(w)
    ensures n / 10 < Pow10(w - 1)
    ensures Digits(n, w) == Digits(n / 10, w - 1) + [DigitChar(n % 10)]
  {
  }

  lemma {:induction false} DigitsOrder(a: nat, b: nat, w: nat)
    requires a < Pow10(w) && b < Pow10(w)
    ensures LexLess(Digits(a, w), Digits(b, w)) <==> a < b
    ensures Digits(a, w) == Digits(b, w) <==> a == b
    decreases w
  {
    if w > 0 {
      DigitsSnoc(a, w);
      DigitsSnoc(b, w);
      var ha, hb := Digits(a / 10, w - 1), Digits(b / 10, w - 1);
      var la, lb := [DigitChar(a % 10)], [DigitChar(b % 10)];
      DigitsOrder(a / 10, b / 10, w - 1);
      DigitsOrder(b / 10, a / 10, w - 1);
      LexLessIrreflexive(ha);
      LexLessAppend(ha, la, hb, lb);
      LastDigitOrder(a % 10, b % 10);
      DivModOrder(a, b);
      if ha + la == hb + lb {
        assert ha == (ha + la)[..w - 1] == hb;
        assert la[0] == (ha + la)[w - 1] == lb[0];
      }
    }
  }

  /** Chronological order of clock readings. */
  predicate Before(t1: DateTime, t2: DateTime)
  {
    if t1.year != t2.year then t1.year < t2.year
    else if t1.month != t2.month then t1.month < t2.month
    else if t1.day != t2.day then t1.day < t2.day
    else if t1.hour != t2.hour then t1.hour < t2.hour
    else if t1.minute != t2.minute then t1.minute < t2.minute
    else t1.second < t2.second
  }

  /** One zero-padded field in front of the rest: the field decides unless equal. */
  lemma FieldFirst(a: nat, b: nat, w: nat, s: string, t: string)
    requires a < Pow10(w) && b < Pow10(w)
    ensures LexLess(Digits(a, w) + s, Digits(b, w) + t) <==> a < b || (a == b && LexLess(s, t))
  {
    DigitsOrder(a, b, w);
    LexLessAppend(Digits(a, w), s, Digits(b, w), t);
  }

  /** Later stamps sort after earlier ones: comparing stamps as strings is
      comparing the clock readings in time. */
  lemma TimestampOrder(t1: DateTime, t2: DateTime)
    requires ValidClock(t1) && ValidClock(t2)
    ensures LexLess(Timestamp(t1), Timestamp(t2)) <==> Before(t1, t2)
  {
    assert Pow10(2) == 100 && Pow10(4) == 10000;
    var r1 := Digits(t1.minute, 2) + Digits(t1.second, 2);
    var r2 := Digits(t2.minute, 2) + Digits(t2.second, 2);
    FieldFirst(t1.minute, t2.minute, 2, Digits(t1.second, 2), Digits(t2.second, 2));
    DigitsOrder(t1.second, t2.second, 2);
    var q1, q2 := Digits(t1.hour, 2) + r1, Digits(t2.hour, 2) + r2;
    FieldFirst(t1.hour, t2.hour, 2, r1, r2);
    LexLessAppend("_", q1, "_", q2);
    var p1, p2 := "_" + q1, "_" + q2;
    var d1, d2 := Digits(t1.day, 2) + p1, Digits(t2.day, 2) + p2;
    FieldFirst(t1.day, t2.day, 2, p1, p2);
    var m1, m2 := Digits(t1.month, 2) + d1, Digits(t2.month, 2) + d2;
    FieldFirst(t1.month, t2.month, 2, d1, d2);
    FieldFirst(t1.year, t2.year, 4, m1, m2);
    LexLessIrreflexive("_");
  }

  /** Two readings give the same stamp only when they are the same reading. */
  lemma TimestampInjective(t1: DateTime, t2: DateTime)
    requires ValidClock(t1) && ValidClock(t2)
    requires Timestamp(t1) == Timestamp(t2)
    ensures t1 == t2
  {
    TimestampOrder(t1, t2);
    TimestampOrder(t2, t1);
    LexLessIrreflexive(Timestamp(t1));
  }
}
