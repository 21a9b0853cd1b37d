/**
 Instants as text (internal/store/db.go).  The database stores, compares and sorts instants as
 RFC3339Nano text in UTC, with the trailing zeros of the fraction removed.  This module says
 exactly when that text order is the order of time.
 */
module Instants {
  import opened Model

  /** A UTC instant of the years 0 to 9999, as civil fields. */
  datatype Civil = Civil(year: nat, month: nat, day: nat, hour: nat, minute: nat, second: nat, nano: nat)

  predicate IsLeap(year: nat) {
    year % 4 == 0 && (year % 100 != 0 || year % 400 == 0)
  }

  function DaysIn(year: nat, month: nat): nat {
    if month == 2 then (if IsLeap(year) then 29 else 28)
    else if month == 4 || month == 6 || month == 9 || month == 11 then 30
    else 31
  }

  predicate Valid(c: Civil) {
    && c.year <= 9999 && 1 <= c.month <= 12 && 1 <= c.day <= DaysIn(c.year, c.month)
    && c.hour < 24 && c.minute < 60 && c.second < 60 && c.nano < SECOND
  }

  function DaysBeforeYear(year: nat): nat {
    if year == 0 then 0 else DaysBeforeYear(year - 1) + if IsLeap(year - 1) then 366 else 365
  }

  function DaysBeforeMonth(year: nat, month: nat): nat {
    if month <= 1 then 0 else DaysBeforeMonth(year, month - 1) + DaysIn(year, month - 1)
  }

  function Days(c: Civil): int {
    DaysBeforeYear(c.year) + DaysBeforeMonth(c.year, c.month) + c.day - 1
  }

  /** Whole seconds since 0000-01-01T00:00:00Z. */
  function Seconds(c: Civil): int {
    ((Days(c) * 24 + c.hour) * 60 + c.minute) * 60 + c.second
  }

  function Nanos(c: Civil): Time {
    Seconds(c) * SECOND + c.nano
  }

  // ---------- The text form ----------

  predicate IsDigit(c: char) {
    '0' <= c <= '9'
  }

  predicate AllDigits(s: string) {
    forall i | 0 <= i < |s| :: IsDigit(s[i])
  }

  function Digit(n: nat): (c: char)
    requires n < 10
    ensures IsDigit(c)
  {
    '0' + n as char
  }

  function Pad(n: nat, width: nat): (s: string)
    ensures |s| == width && AllDigits(s)
  {
    if width == 0 then "" else Pad(n / 10, width - 1) + [Digit(n % 10)]
  }

  /** The number a string of digits denotes. */
  function Value(s: string): nat
    requires AllDigits(s)
  {
    if s == "" then 0 else Value(s[..|s| - 1]) * 10 + (s[|s| - 1] - '0') as nat
  }

  function Pow10(k: nat): nat {
    if k == 0 then 1 else 10 * Pow10(k - 1)
  }

  function Zeros(k: nat): (s: string)
    ensures |s| == k && forall i | 0 <= i < k :: s[i] == '0'
  {
    seq(k, _ => '0')
  }

  function Trim(s: string): (t: string)
    ensures |t| <= |s| && s == t + Zeros(|s| - |t|)
    ensures t != "" ==> t[|t| - 1] != '0'
  {
    if s != "" && s[|s| - 1] == '0' then Trim(s[..|s| - 1]) else s
  }

  function Prefix(c: Civil): string {
    Pad(c.year, 4) + "-" + Pad(c.month, 2) + "-" + Pad(c.day, 2) + "T" +
    Pad(c.hour, 2) + ":" + Pad(c.minute, 2) + ":" + Pad(c.second, 2)
  }

  function Fraction(nano: nat): string {
    Trim(Pad(nano, 9))
  }

  function Tail(fraction: string): string {
    (if fraction == "" then "" else "." + fraction) + "Z"
  }

  /** encodeTime: Format with RFC3339Nano, in UTC. */
  function Encode(c: Civil): string {
    Prefix(c) + Tail(Fraction(c.nano))
  }

  /** The two digits of s from i, when they are digits. */
  function Field(s: string, i: nat, width: nat): Option<nat> {
    if i + width <= |s| && AllDigits(s[i..i + width]) then Some(Value(s[i..i + width])) else None
  }

  /** The nanoseconds of a fraction with any number of digits: nine are kept. */
  function FractionValue(digits: string): nat
    requires AllDigits(digits)
  {
    if |digits| >= 9 then Value(digits[..9]) else Value(digits + Zeros(9 - |digits|))
  }

  function DecodeTail(s: string): Option<nat> {
    if s == "Z" then Some(0)
    else if |s| >= 3 && s[0] == '.' && s[|s| - 1] == 'Z' && AllDigits(s[1..|s| - 1]) then
      Some(FractionValue(s[1..|s| - 1]))
    else None
  }

  /** Parse date and time of day, with sep between them; the rest of the text is the tail. */
  function DecodeCivil(s: string, sep: char): Option<Civil> {
    if |s| < 19 || s[4] != '-' || s[7] != '-' || s[10] != sep || s[13] != ':' || s[16] != ':' then None
    else
      var year :- Field(s, 0, 4);
      var month :- Field(s, 5, 2);
      var day :- Field(s, 8, 2);
      var hour :- Field(s, 11, 2);
      var minute :- Field(s, 14, 2);
      var second :- Field(s, 17, 2);
      Some(Civil(year, month, day, hour, minute, second, 0))
  }

  /** decodeTime on UTC texts: RFC3339Nano first, then the layout without zone. */
  function Decode(s: string): Option<Civil> {
    var rfc := DecodeRfc(s);
    if rfc.Some? then rfc
    else if |s| != 19 then None
    else
      var c :- DecodeCivil(s, ' ');
      if Valid(c) then Some(c) else None
  }

  function DecodeRfc(s: string): Option<Civil> {
    var c :- DecodeCivil(s, 'T');
    var nano :- DecodeTail(s[19..]);
    var full := c.(nano := nano);
    if Valid(full) then Some(full) else None
  }

  // ---------- Digits ----------

  lemma {:induction false} ValuePad(n: nat, width: nat)
    requires n < Pow10(width)
    ensures Value(Pad(n, width)) == n
  {
    if width > 0 {
      ValuePad(n / 10, width - 1);
      assert Pad(n, width)[..width - 1] == Pad(n / 10, width - 1);
    }
  }

  lemma PowersOfTen()
    ensures Pow10(2) == 100 && Pow10(4) == 10000 && Pow10(9) == SECOND
  {
    assert Pow10(9) == 10 * 10 * 10 * 10 * 10 * Pow10(4);
  }

  // ---------- decodeTime undoes encodeTime ----------

  lemma FieldPad(s: string, i: nat, n: nat, width: nat)
    requires i + width <= |s| && s[i..i + width] == Pad(n, width) && n < Pow10(width)
    ensures Field(s, i, width) == Some(n)
  {
    ValuePad(n, width);
  }

  lemma PrefixMarks(c: Civil, tail: string)
    ensures |Prefix(c)| == 19
    ensures var s := Prefix(c) + tail;
            s[4] == '-' && s[7] == '-' && s[10] == 'T' && s[13] == ':' && s[16] == ':'
  {}

  lemma PrefixSlices(c: Civil, tail: string)
    ensures |Prefix(c)| == 19
    ensures var s := Prefix(c) + tail;
            s[0..4] == Pad(c.year, 4) && s[5..7] == Pad(c.month, 2) && s[8..10] == Pad(c.day, 2)
  {
    var month := Pad(c.year, 4) + "-" + Pad(c.month, 2);
    var day := month + "-" + Pad(c.day, 2);
    var s := Prefix(c) + tail;
    assert day == s[..10];
    assert day[5..7] == month[5..7] == Pad(c.month, 2);
    assert day[0..4] == Pad(c.year, 4) && day[8..10] == Pad(c.day, 2);
    assert s[0..4] == day[0..4] && s[5..7] == day[5..7] && s[8..10] == day[8..10];
  }

  lemma PrefixDate(c: Civil, tail: string)
    requires Valid(c)
    ensures |Prefix(c)| == 19
    ensures var s := Prefix(c) + tail;
            s[4] == '-' && s[7] == '-' && s[10] == 'T' && s[13] == ':' && s[16] == ':'
    ensures var s := Prefix(c) + tail;
            Field(s, 0, 4) == Some(c.year) && Field(s, 5, 2) == Some(c.month) && Field(s, 8, 2) == Some(c.day)
  {
    var s := Prefix(c) + tail;
    PowersOfTen();
    PrefixMarks(c, tail);
    PrefixSlices(c, tail);
    FieldPad(s, 0, c.year, 4);
    FieldPad(s, 5, c.month, 2);
    FieldPad(s, 8, c.day, 2);
  }

  lemma PrefixClock(c: Civil, tail: string)
    requires Valid(c)
    ensures var s := Prefix(c) + tail;
            Field(s, 11, 2) == Some(c.hour) && Field(s, 14, 2) == Some(c.minute) && Field(s, 17, 2) == Some(c.second)
  {
    var s := Prefix(c) + tail;
    PowersOfTen();
    FieldPad(s, 11, c.hour, 2);
    FieldPad(s, 14, c.minute, 2);
    FieldPad(s, 17, c.second, 2);
  }

  lemma DecodePrefix(c: Civil, tail: string)
    requires Valid(c)
    ensures DecodeCivil(Prefix(c) + tail, 'T') == Some(c.(nano := 0))
    ensures |Prefix(c)| == 19
  {
    PrefixDate(c, tail);
    PrefixClock(c, tail);
  }

  lemma DecodeTailOfFraction(nano: nat)
    requires nano < SECOND
    ensures DecodeTail(Tail(Fraction(nano))) == Some(nano)
  {
    PowersOfTen();
    ValuePad(nano, 9);
    var f := Fraction(nano);
    FractionDigits(nano, 9);
    if f == "" {
      assert Zeros(9) == Pad(nano, 9);
      ZerosArePadded(9);
      ValuePad(0, 9);
    } else {
      var s := Tail(f);
      assert s[1..|s| - 1] == f;
      if |f| == 9 {
        assert f == f + Zeros(0) && f[..9] == f;
      }
    }
  }

  lemma FractionDigits(n: nat, width: nat)
    ensures Trimmed(Trim(Pad(n, width))) && |Trim(Pad(n, width))| <= width
    ensures Trim(Pad(n, width)) + Zeros(width - |Trim(Pad(n, width))|) == Pad(n, width)
  {
    TrimDigits(Pad(n, width));
  }

  lemma TrimDigits(p: string)
    requires AllDigits(p)
    ensures Trimmed(Trim(p))
  {
    var f := Trim(p);
    assert forall i | 0 <= i < |f| :: f[i] == p[i];
  }

  lemma {:induction false} ZerosArePadded(width: nat)
    ensures Pad(0, width) == Zeros(width)
  {
    if width > 0 {
      ZerosArePadded(width - 1);
    }
  }

  /** Every instant of the years 0 to 9999 survives the database, to the nanosecond. */
  lemma DecodeEncode(c: Civil)
    requires Valid(c)
    ensures Decode(Encode(c)) == Some(c)
  {
    DecodePrefix(c, Tail(Fraction(c.nano)));
    DecodeTailOfFraction(c.nano);
    assert Encode(c)[19..] == Tail(Fraction(c.nano));
  }

  /** A text as SQLite writes it, without fraction and zone, is read as the same second. */
  lemma DecodeWithoutZone(c: Civil)
    requires Valid(c) && c.nano == 0
    ensures Decode(Prefix(c)[..10] + " " + Prefix(c)[11..]) == Some(c)
  {
    var p := Prefix(c);
    var s := p[..10] + " " + p[11..];
    PrefixDate(c, "");
    PrefixClock(c, "");
    assert p + "" == p;
    SameFields(p, s);
    assert DecodeCivil(s, 'T') == None;
  }

  lemma SameFields(p: string, s: string)
    requires |p| == 19 && s == p[..10] + " " + p[11..]
    ensures |s| == 19 && s[10] == ' ' && forall i | 0 <= i < 19 && i != 10 :: s[i] == p[i]
    ensures Field(s, 0, 4) == Field(p, 0, 4) && Field(s, 5, 2) == Field(p, 5, 2) && Field(s, 8, 2) == Field(p, 8, 2)
    ensures Field(s, 11, 2) == Field(p, 11, 2) && Field(s, 14, 2) == Field(p, 14, 2)
    ensures Field(s, 17, 2) == Field(p, 17, 2)
  {
    assert s[0..4] == p[0..4] && s[5..7] == p[5..7] && s[8..10] == p[8..10];
    assert s[11..13] == p[11..13] && s[14..16] == p[14..16] && s[17..19] == p[17..19];
  }

  lemma NextQuotients(q: nat, r: nat)
    ensures r < 4 ==> (4 * q + r + 4) / 4 == q + 1 && (4 * q + r + 3) / 4 == if r == 0 then q else q + 1
    ensures r < 100 ==> (100 * q + r + 100) / 100 == q + 1 && (100 * q + r + 99) / 100 == if r == 0 then q else q + 1
    ensures r < 400 ==> (400 * q + r + 400) / 400 == q + 1 && (400 * q + r + 399) / 400 == if r == 0 then q else q + 1
  {}

  lemma CountMultiples(n: nat)
    ensures (n + 4) / 4 == (n + 3) / 4 + if n % 4 == 0 then 1 else 0
    ensures (n + 100) / 100 == (n + 99) / 100 + if n % 100 == 0 then 1 else 0
    ensures (n + 400) / 400 == (n + 399) / 400 + if n % 400 == 0 then 1 else 0
  {
    NextQuotients(n / 4, n % 4);
    NextQuotients(n / 100, n % 100);
    NextQuotients(n / 400, n % 400);
  }

  /** The Gregorian calendar: the days before a year, without counting them one year after the other. */
  lemma {:induction false} DaysBeforeYearIs(year: nat)
    ensures DaysBeforeYear(year) == 365 * year + (year + 3) / 4 - (year + 99) / 100 + (year + 399) / 400
  {
    if year > 0 {
      var n := year - 1;
      DaysBeforeYearIs(n);
      CountMultiples(n);
      LeapDays(n);
    }
  }

  lemma Multiples(q: nat)
    ensures (400 * q) % 100 == 0 && (100 * q) % 4 == 0
  {
    assert 400 * q == 100 * (4 * q) && 100 * q == 4 * (25 * q);
  }

  lemma LeapDays(year: nat)
    ensures (if IsLeap(year) then 1 else 0)
            == (if year % 4 == 0 then 1 else 0) - (if year % 100 == 0 then 1 else 0) + if year % 400 == 0 then 1 else 0
  {
    Multiples(year / 400);
    Multiples(year / 100);
  }

  lemma TwoDigits(n: nat)
    requires n < 100
    ensures Pad(n, 2) == [Digit(n / 10), Digit(n % 10)]
  {
    assert Pad(n / 10, 1) == Pad(n / 10 / 10, 0) + [Digit(n / 10)];
  }

  lemma EncodedSecond()
    ensures Prefix(Civil(2026, 4, 9, 12, 30, 5, 0)) == "2026-04-09T12:30:05"
  {
    TwoDigits(4);
    TwoDigits(9);
    TwoDigits(12);
    TwoDigits(30);
    TwoDigits(5);
    EncodedYear();
  }

  lemma EncodedYear()
    ensures Pad(2026, 4) == "2026"
  {
    TwoDigits(20);
    assert Pad(202, 3) == Pad(20, 2) + "2";
  }

  lemma EncodedFraction()
    ensures Fraction(0) == "" && Fraction(120_000_000) == "12"
  {
    ZerosArePadded(9);
    TrimZeros(9);
    var n := 12;
    var k := 0;
    TwoDigits(12);
    while k < 7
      invariant k <= 7 && n == 12 * Pow10(k) && Pad(n, k + 2) == "12" + Zeros(k)
    {
      n, k := 10 * n, k + 1;
      assert Zeros(k) == Zeros(k - 1) + "0";
    }
    PowersOfTen();
    TrimAfter("12", 7);
  }

  /** The layout, by example. */
  lemma EncodedForm()
    ensures var c := Civil(2026, 4, 9, 12, 30, 5, 0);
            && Encode(c) == "2026-04-09T12:30:05Z"
            && Encode(c.(nano := 120_000_000)) == "2026-04-09T12:30:05.12Z"
  {
    EncodedSecond();
    EncodedFraction();
    var c := Civil(2026, 4, 9, 12, 30, 5, 0);
    assert Prefix(c.(nano := 120_000_000)) == Prefix(c);
  }

  lemma {:induction false} TrimAfter(digits: string, k: nat)
    requires digits != "" && digits[|digits| - 1] != '0'
    ensures Trim(digits + Zeros(k)) == digits
  {
    if k == 0 {
      assert digits + Zeros(0) == digits;
    } else {
      assert (digits + Zeros(k))[..|digits| + k - 1] == digits + Zeros(k - 1);
      TrimAfter(digits, k - 1);
    }
  }

  // ---------- Text order ----------

  /** SQLite's BINARY collation. */
  predicate TextLess(a: string, b: string) {
    if b == "" then false
    else if a == "" then true
    else if a[0] != b[0] then a[0] < b[0]
    else TextLess(a[1..], b[1..])
  }

  lemma {:induction false} LessAppend(a: string, b: string, x: string, y: string)
    requires |a| == |b|
    ensures TextLess(a + x, b + y) <==> TextLess(a, b) || (a == b && TextLess(x, y))
  {
    if a == "" {
      assert a + x == x && b + y == y;
    } else {
      assert (a + x)[1..] == a[1..] + x && (b + y)[1..] == b[1..] + y;
      assert a == b <==> a[0] == b[0] && a[1..] == b[1..] by {
        assert a == [a[0]] + a[1..] && b == [b[0]] + b[1..];
      }
      LessAppend(a[1..], b[1..], x, y);
    }
  }

  lemma {:induction false} PadOrder(n: nat, m: nat, width: nat)
    requires n < Pow10(width) && m < Pow10(width)
    ensures TextLess(Pad(n, width), Pad(m, width)) <==> n < m
    ensures Pad(n, width) == Pad(m, width) <==> n == m
  {
    ValuePad(n, width);
    ValuePad(m, width);
    if width > 0 {
      PadOrder(n / 10, m / 10, width - 1);
      LessAppend(Pad(n / 10, width - 1), Pad(m / 10, width - 1), [Digit(n % 10)], [Digit(m % 10)]);
    }
  }

  /** Two padded fields behind equally long heads: the heads decide, then the fields. */
  lemma FieldOrder(a: string, b: string, sep: string, n: nat, m: nat)
    requires |a| == |b| && n < 100 && m < 100
    ensures TextLess(a + sep + Pad(n, 2), b + sep + Pad(m, 2)) <==> TextLess(a, b) || (a == b && n < m)
    ensures a + sep + Pad(n, 2) == b + sep + Pad(m, 2) <==> a == b && n == m
  {
    PowersOfTen();
    PadOrder(n, m, 2);
    LessAppend(a + sep, b + sep, Pad(n, 2), Pad(m, 2));
    LessAppend(a, b, sep, sep);
    LessIrreflexive(sep);
    var p, q := a + sep + Pad(n, 2), b + sep + Pad(m, 2);
    if p == q {
      assert a == p[..|a|] && b == q[..|a|];
      assert Pad(n, 2) == p[|a| + |sep|..] && Pad(m, 2) == q[|a| + |sep|..];
    }
    if a + sep == b + sep {
      assert a == (a + sep)[..|a|] && b == (b + sep)[..|a|];
    }
  }

  lemma LessIrreflexive(s: string)
    ensures !TextLess(s, s)
  {}

  lemma {:induction false} TextTotal(a: string, b: string)
    ensures a == b || TextLess(a, b) || TextLess(b, a)
    ensures !(TextLess(a, b) && TextLess(b, a))
  {
    if a != "" && b != "" {
      TextTotal(a[1..], b[1..]);
      assert a == [a[0]] + a[1..] && b == [b[0]] + b[1..];
    }
  }

  lemma {:induction false} TextTransitive(a: string, b: string, c: string)
    requires TextLess(a, b) && TextLess(b, c)
    ensures TextLess(a, c)
  {
    if a != "" && a[0] == b[0] == c[0] {
      TextTransitive(a[1..], b[1..], c[1..]);
    }
  }

  /** Whole seconds, compared field by field. */
  predicate SecondBefore(a: Civil, b: Civil) {
    a.year < b.year || (a.year == b.year && (
      a.month < b.month || (a.month == b.month && (
        a.day < b.day || (a.day == b.day && (
          a.hour < b.hour || (a.hour == b.hour && (
            a.minute < b.minute || (a.minute == b.minute && a.second < b.second)))))))))
  }

  predicate SameSecond(a: Civil, b: Civil) {
    a.(nano := 0) == b.(nano := 0)
  }

  lemma PrefixOrder(a: Civil, b: Civil)
    requires Valid(a) && Valid(b)
    ensures TextLess(Prefix(a), Prefix(b)) <==> SecondBefore(a, b)
    ensures Prefix(a) == Prefix(b) <==> SameSecond(a, b)
  {
    PowersOfTen();
    PadOrder(a.year, b.year, 4);
    var p, q := Pad(a.year, 4), Pad(b.year, 4);
    FieldOrder(p, q, "-", a.month, b.month);
    p, q := p + "-" + Pad(a.month, 2), q + "-" + Pad(b.month, 2);
    FieldOrder(p, q, "-", a.day, b.day);
    p, q := p + "-" + Pad(a.day, 2), q + "-" + Pad(b.day, 2);
    FieldOrder(p, q, "T", a.hour, b.hour);
    p, q := p + "T" + Pad(a.hour, 2), q + "T" + Pad(b.hour, 2);
    FieldOrder(p, q, ":", a.minute, b.minute);
    p, q := p + ":" + Pad(a.minute, 2), q + ":" + Pad(b.minute, 2);
    FieldOrder(p, q, ":", a.second, b.second);
  }

  // ---------- Fractions ----------

  lemma {:induction false} ZerosAreLeast(x: string)
    requires AllDigits(x)
    ensures !TextLess(x, Zeros(|x|))
    ensures x != "" && x[|x| - 1] != '0' ==> forall k: nat :: TextLess(Zeros(|x| + k), x + Zeros(k))
  {
    if x != "" {
      ZerosAreLeast(x[1..]);
      assert Zeros(|x|)[1..] == Zeros(|x| - 1);
      if x[|x| - 1] != '0' {
        forall k: nat ensures TextLess(Zeros(|x| + k), x + Zeros(k)) {
          assert Zeros(|x| + k)[1..] == Zeros(|x[1..]| + k) && (x + Zeros(k))[1..] == x[1..] + Zeros(k);
        }
      }
    }
  }

  predicate Trimmed(f: string) {
    AllDigits(f) && (f != "" ==> f[|f| - 1] != '0')
  }

  /**
   Two trimmed fractions, each closed by the zone letter, compare as their padded forms do,
   unless one is a proper prefix of the other: then the order is reversed.
   */
  lemma {:induction false} TrimmedOrder(f: string, g: string, k: nat, l: nat)
    requires Trimmed(f) && Trimmed(g) && |f| + k == |g| + l
    ensures TextLess(f + "Z", g + "Z") <==>
            if f < g || g < f then TextLess(g + Zeros(l), f + Zeros(k))
            else TextLess(f + Zeros(k), g + Zeros(l))
  {
    var p, q := f + Zeros(k), g + Zeros(l);
    if f == "" && g == "" {
      LessIrreflexive("Z");
      LessIrreflexive(p);
      assert p == q;
    } else if f == "" {
      assert p == Zeros(|q|);
      ZerosAreLeast(q);
      assert f < g && !TextLess("Z", g + "Z");
    } else if g == "" {
      assert q == Zeros(|f| + k);
      ZerosAreLeast(f);
      assert g < f;
    } else {
      assert (f + "Z")[1..] == f[1..] + "Z" && (g + "Z")[1..] == g[1..] + "Z";
      assert p[1..] == f[1..] + Zeros(k) && q[1..] == g[1..] + Zeros(l);
      if f[0] == g[0] {
        TrimmedOrder(f[1..], g[1..], k, l);
        assert f == [f[0]] + f[1..] && g == [g[0]] + g[1..];
      }
    }
  }

  lemma TailOrder(n: nat, m: nat, width: nat)
    requires n < Pow10(width) && m < Pow10(width)
    ensures var f, g := Trim(Pad(n, width)), Trim(Pad(m, width));
            TextLess(Tail(f), Tail(g)) <==> if f < g || g < f then m < n else n < m
  {
    var p, q := Pad(n, width), Pad(m, width);
    PadOrder(n, m, width);
    PadOrder(m, n, width);
    TailOrderOf(p, q, n, m);
  }

  lemma TailOrderOf(p: string, q: string, n: nat, m: nat)
    requires |p| == |q| && AllDigits(p) && AllDigits(q)
    requires (TextLess(p, q) <==> n < m) && (TextLess(q, p) <==> m < n)
    ensures var f, g := Trim(p), Trim(q);
            TextLess(Tail(f), Tail(g)) <==> if f < g || g < f then m < n else n < m
  {
    TrimDigits(p);
    TrimDigits(q);
    TrimmedTailsCompare(Trim(p), Trim(q), p, q);
  }

  lemma TrimmedTailsCompare(f: string, g: string, p: string, q: string)
    requires Trimmed(f) && Trimmed(g) && |f| <= |p| && |g| <= |q| && |p| == |q|
    requires p == f + Zeros(|p| - |f|) && q == g + Zeros(|q| - |g|)
    ensures TextLess(Tail(f), Tail(g)) <==> if f < g || g < f then TextLess(q, p) else TextLess(p, q)
  {
    TrimmedOrder(f, g, |p| - |f|, |q| - |g|);
    TailsCompare(f, g);
  }

  /** The decimal point does not change how two tails compare. */
  lemma TailsCompare(f: string, g: string)
    requires AllDigits(f) && AllDigits(g)
    ensures TextLess(Tail(f), Tail(g)) <==> TextLess(f + "Z", g + "Z")
  {
    if f != "" && g != "" {
      assert Tail(f) == "." + (f + "Z") && Tail(g) == "." + (g + "Z");
      LessAppend(".", ".", f + "Z", g + "Z");
    } else if f != "" {
      assert Tail(f)[0] == '.' && (f + "Z")[0] == f[0];
    } else if g != "" {
      assert Tail(g)[0] == '.' && (g + "Z")[0] == g[0];
    }
  }

  // ---------- The order of time ----------

  lemma {:induction false} YearsGrow(y: nat, z: nat)
    requires y < z
    ensures DaysBeforeYear(y) + (if IsLeap(y) then 366 else 365) <= DaysBeforeYear(z)
  {
    if z > y + 1 {
      YearsGrow(y, z - 1);
    }
  }

  lemma {:induction false} MonthsGrow(year: nat, m: nat, n: nat)
    requires 1 <= m < n
    ensures DaysBeforeMonth(year, m) + DaysIn(year, m) <= DaysBeforeMonth(year, n)
  {
    if n > m + 1 {
      MonthsGrow(year, m, n - 1);
    }
  }

  lemma DaysInYear(c: Civil)
    requires Valid(c)
    ensures DaysBeforeMonth(c.year, c.month) + c.day <= if IsLeap(c.year) then 366 else 365
  {
    MonthsGrow(c.year, c.month, 13);
    var y := c.year;
    assert DaysBeforeMonth(y, 2) == DaysBeforeMonth(y, 1) + DaysIn(y, 1);
    assert DaysBeforeMonth(y, 3) == DaysBeforeMonth(y, 2) + DaysIn(y, 2);
    assert DaysBeforeMonth(y, 4) == DaysBeforeMonth(y, 3) + DaysIn(y, 3);
    assert DaysBeforeMonth(y, 5) == DaysBeforeMonth(y, 4) + DaysIn(y, 4);
    assert DaysBeforeMonth(y, 6) == DaysBeforeMonth(y, 5) + DaysIn(y, 5);
    assert DaysBeforeMonth(y, 7) == DaysBeforeMonth(y, 6) + DaysIn(y, 6);
    assert DaysBeforeMonth(y, 8) == DaysBeforeMonth(y, 7) + DaysIn(y, 7);
    assert DaysBeforeMonth(y, 9) == DaysBeforeMonth(y, 8) + DaysIn(y, 8);
    assert DaysBeforeMonth(y, 10) == DaysBeforeMonth(y, 9) + DaysIn(y, 9);
    assert DaysBeforeMonth(y, 11) == DaysBeforeMonth(y, 10) + DaysIn(y, 10);
    assert DaysBeforeMonth(y, 12) == DaysBeforeMonth(y, 11) + DaysIn(y, 11);
    assert DaysBeforeMonth(y, 13) == DaysBeforeMonth(y, 12) + DaysIn(y, 12);
  }

  lemma DaysAgree(a: Civil, b: Civil)
    requires Valid(a) && Valid(b)
    requires a.year < b.year || (a.year == b.year && (a.month < b.month || (a.month == b.month && a.day < b.day)))
    ensures Days(a) < Days(b)
  {
    if a.year < b.year {
      DaysInYear(a);
      YearsGrow(a.year, b.year);
    } else if a.month < b.month {
      MonthsGrow(a.year, a.month, b.month);
    }
  }

  /** Field-by-field order of whole seconds is the order of the seconds counted from year 0. */
  lemma SecondsAgree(a: Civil, b: Civil)
    requires Valid(a) && Valid(b)
    ensures SecondBefore(a, b) <==> Seconds(a) < Seconds(b)
    ensures SameSecond(a, b) <==> Seconds(a) == Seconds(b)
  {
    if SecondBefore(a, b) {
      SecondsGrow(a, b);
    } else if SecondBefore(b, a) {
      SecondsGrow(b, a);
    } else {
      assert SameSecond(a, b);
    }
  }

  lemma SecondsGrow(a: Civil, b: Civil)
    requires Valid(a) && Valid(b) && SecondBefore(a, b)
    ensures Seconds(a) < Seconds(b)
  {
    if !(a.year == b.year && a.month == b.month && a.day == b.day) {
      DaysAgree(a, b);
    }
  }

  function Sec(t: Time): int {
    t / SECOND
  }

  function FractionOf(t: Time): string {
    Fraction(t % SECOND)
  }

  /** Same whole second, and one trimmed fraction continues the other. */
  predicate Nested(a: Time, b: Time) {
    Sec(a) == Sec(b) && (FractionOf(a) < FractionOf(b) || FractionOf(b) < FractionOf(a))
  }

  /** The order SQL sees, as a relation on instants. */
  predicate TextBefore(a: Time, b: Time) {
    if Nested(a, b) then b < a else a < b
  }

  predicate TextAtMost(a: Time, b: Time) {
    !TextBefore(b, a)
  }

  /**
   The order of the stored texts is the order of time, except exactly between two instants of
   one whole second of which one trimmed fraction is a proper prefix of the other: there it is
   the reverse order.
   */
  lemma TextOrder(a: Civil, b: Civil)
    requires Valid(a) && Valid(b)
    ensures TextLess(Encode(a), Encode(b)) <==> TextBefore(Nanos(a), Nanos(b))
    ensures Encode(a) == Encode(b) <==> Nanos(a) == Nanos(b)
  {
    SecondsAgree(a, b);
    PrefixOrder(a, b);
    DecodePrefix(a, "");
    DecodePrefix(b, "");
    LessAppend(Prefix(a), Prefix(b), Tail(Fraction(a.nano)), Tail(Fraction(b.nano)));
    PowersOfTen();
    TailOrder(a.nano, b.nano, 9);
    WholeAndPart(a);
    WholeAndPart(b);
    DecodeEncode(a);
    DecodeEncode(b);
  }

  /** Across a whole-second boundary every text comparison is right. */
  lemma TextOrderAcrossSeconds(a: Civil, b: Civil)
    requires Valid(a) && Valid(b) && Seconds(a) != Seconds(b)
    ensures TextLess(Encode(a), Encode(b)) <==> Nanos(a) < Nanos(b)
  {
    TextOrder(a, b);
    WholeAndPart(a);
    WholeAndPart(b);
  }

  /** The plain claim, text order is time order, fails: half past noon and one tenth of a second later. */
  lemma TextOrderCanReverse()
    ensures exists a, b :: Valid(a) && Valid(b) && Nanos(a) < Nanos(b) && TextLess(Encode(b), Encode(a))
  {
    var a := Civil(2026, 4, 26, 12, 30, 0, 0);
    var b := a.(nano := 100_000_000);
    TextOrder(b, a);
    WholeAndPart(a);
    WholeAndPart(b);
    FractionEmpty(0);
    FractionEmpty(100_000_000);
  }

  lemma WholeAndPart(c: Civil)
    requires Valid(c)
    ensures Sec(Nanos(c)) == Seconds(c) && Nanos(c) % SECOND == c.nano
  {}

  lemma FractionEmpty(nano: nat)
    requires nano < SECOND
    ensures Fraction(nano) == "" <==> nano == 0
  {
    DecodeTailOfFraction(nano);
    ZerosArePadded(9);
    TrimZeros(9);
  }

  lemma {:induction false} TrimZeros(k: nat)
    ensures Trim(Zeros(k)) == ""
  {
    if k > 0 {
      assert Zeros(k)[..k - 1] == Zeros(k - 1);
      TrimZeros(k - 1);
    }
  }

  // ---------- A total order ----------

  /** The order SQL sees is that of the pairs of whole second and tail. */
  lemma TextBeforeByTail(a: Time, b: Time)
    ensures TextBefore(a, b) <==>
            Sec(a) < Sec(b) || (Sec(a) == Sec(b) && TextLess(Tail(FractionOf(a)), Tail(FractionOf(b))))
  {
    PowersOfTen();
    TailOrder(a % SECOND, b % SECOND, 9);
  }

  /** Sorting by the stored texts is well defined: their order is strict and total. */
  lemma TextBeforeIsTotal(a: Time, b: Time)
    ensures a == b || TextBefore(a, b) || TextBefore(b, a)
    ensures !(TextBefore(a, b) && TextBefore(b, a))
  {}

  lemma TextBeforeChains(a: Time, b: Time, c: Time)
    requires TextBefore(a, b) && TextBefore(b, c)
    ensures TextBefore(a, c)
  {
    TextBeforeByTail(a, b);
    TextBeforeByTail(b, c);
    TextBeforeByTail(a, c);
    if Sec(a) == Sec(b) == Sec(c) {
      TextTransitive(Tail(FractionOf(a)), Tail(FractionOf(b)), Tail(FractionOf(c)));
    }
  }
}
