/** Timestamps as text. The store keeps UTC instants as RFC 3339 text (section 5.6) and orders rows by
    that text; in years 0 to 9999 byte order is time order although the number of fraction digits varies. */
module Rfc3339 {
  import opened Protocol

  // ----- order of texts -----

  /** Byte-wise order of ASCII texts. */
  predicate Before(a: string, b: string) {
    b != "" && (a == "" || a[0] < b[0] || (a[0] == b[0] && Before(a[1..], b[1..])))
  }

  /** Texts with prefixes of equal length compare by the prefixes first. */
  lemma {:induction false} PrefixFirst(x: string, y: string, u: string, v: string)
    requires |x| == |y|
    ensures Before(x + u, y + v) <==> Before(x, y) || (x == y && Before(u, v))
  {
    if x == "" {
      assert x + u == u && y + v == v;
    } else {
      assert (x + u)[1..] == x[1..] + u && (y + v)[1..] == y[1..] + v;
      PrefixFirst(x[1..], y[1..], u, v);
      assert x == [x[0]] + x[1..] && y == [y[0]] + y[1..];
    }
  }

  function Digit(n: nat): (c: char)
    requires n < 10
    ensures '0' <= c <= '9'
  {
    '0' + n as char
  }

  /** The last `width` decimal digits of `n`. */
  function Digits(n: nat, width: nat): (text: string)
    ensures |text| == width
    ensures forall c :: c in text ==> '0' <= c <= '9'
  {
    if width == 0 then "" else Digits(n / 10, width - 1) + [Digit(n % 10)]
  }

  function Pow10(width: nat): (p: nat)
    ensures p > 0
  {
    if width == 0 then 1 else 10 * Pow10(width - 1)
  }

  /** Numbers written with the same number of digits compare as numbers. */
  lemma {:induction false} DigitsOrder(n: nat, m: nat, width: nat)
    requires n < Pow10(width) && m < Pow10(width)
    ensures Before(Digits(n, width), Digits(m, width)) <==> n < m
    ensures Digits(n, width) == Digits(m, width) <==> n == m
  {
    if width > 0 {
      DigitsOrder(n / 10, m / 10, width - 1);
      var x, y := Digits(n / 10, width - 1), Digits(m / 10, width - 1);
      var c, d := Digit(n % 10), Digit(m % 10);
      PrefixFirst(x, y, [c], [d]);
      assert Before([c], [d]) <==> c < d;
      assert (x + [c])[width - 1] == c && (y + [d])[width - 1] == d;
      assert (x + [c])[..width - 1] == x && (y + [d])[..width - 1] == y;
    }
  }

  /** A number before a text: compare the numbers, then the rest. */
  lemma NumberFirst(n: nat, m: nat, width: nat, u: string, v: string)
    requires n < Pow10(width) && m < Pow10(width)
    ensures Before(Digits(n, width) + u, Digits(m, width) + v) <==> n < m || (n == m && Before(u, v))
  {
    PrefixFirst(Digits(n, width), Digits(m, width), u, v);
    DigitsOrder(n, m, width);
  }

  // ----- calendar -----

  /** A UTC date and time of day. */
  datatype Stamp = Stamp(year: nat, month: nat, day: nat, hour: nat, minute: nat, second: nat, nanos: nat)

  predicate IsLeap(year: nat) {
    year % 4 == 0 && (year % 100 != 0 || year % 400 == 0)
  }

  function DaysInMonth(year: nat, month: nat): nat {
    if month == 2 then (if IsLeap(year) then 29 else 28)
    else if month == 4 || month == 6 || month == 9 || month == 11 then 30
    else 31
  }

  function DaysInYear(year: nat): nat {
    if IsLeap(year) then 366 else 365
  }

  /** Days from 0000-01-01 to the first day of `year`. */
  function DaysBeforeYear(year: nat): nat {
    if year == 0 then 0 else DaysBeforeYear(year - 1) + DaysInYear(year - 1)
  }

  /** Days from the first of January to the first of `month`. */
  function DaysBeforeMonth(year: nat, month: nat): nat
    requires 1 <= month <= 13
  {
    if month == 1 then 0 else DaysBeforeMonth(year, month - 1) + DaysInMonth(year, month - 1)
  }

  ghost predicate IsStamp(s: Stamp) {
    && 1 <= s.month <= 12 && 1 <= s.day <= DaysInMonth(s.year, s.month)
    && s.hour < 24 && s.minute < 60 && s.second < 60 && s.nanos < 1_000_000_000
  }

  function DayNumber(s: Stamp): int
    requires 1 <= s.month <= 12
  {
    DaysBeforeYear(s.year) + DaysBeforeMonth(s.year, s.month) + s.day - 1
  }

  const EPOCH_DAY := 719_528
  const NANOS_PER_DAY := 86_400 * NANOS_PER_SECOND

  /** Nanoseconds since 1970-01-01. */
  function Instant(s: Stamp): Time
    requires 1 <= s.month <= 12
  {
    (((DayNumber(s) - EPOCH_DAY) * 24 + s.hour) * 60 + s.minute) * 60 * NANOS_PER_SECOND
    + s.second * NANOS_PER_SECOND + s.nanos
  }

  lemma YearIsTwelveMonths(year: nat)
    ensures DaysBeforeMonth(year, 13) == DaysInYear(year)
  {
    assert DaysBeforeMonth(year, 2) == 31;
    assert DaysBeforeMonth(year, 4) == (if IsLeap(year) then 91 else 90);
    assert DaysBeforeMonth(year, 6) == DaysBeforeMonth(year, 4) + 61;
    assert DaysBeforeMonth(year, 8) == DaysBeforeMonth(year, 6) + 61;
    assert DaysBeforeMonth(year, 10) == DaysBeforeMonth(year, 8) + 61;
    assert DaysBeforeMonth(year, 12) == DaysBeforeMonth(year, 10) + 61;
  }

  lemma {:induction false} YearsGrow(y: nat, z: nat)
    requires y < z
    ensures DaysBeforeYear(y) + DaysInYear(y) <= DaysBeforeYear(z)
  {
    if y < z - 1 {
      YearsGrow(y, z - 1);
    }
  }

  /** The closed form of the days before a year, which fixes the epoch: 1970-01-01 is instant zero. */
  lemma {:induction false} DaysClosedForm(y: nat)
    ensures DaysBeforeYear(y) == 365 * y + (y + 3) / 4 - (y + 99) / 100 + (y + 399) / 400
  {
    if y > 0 {
      DaysClosedForm(y - 1);
      LeapDay(y - 1);
      Multiples(y - 1, 4);
      Multiples(y - 1, 100);
      Multiples(y - 1, 400);
    }
  }

  function Divides(k: nat, x: nat): nat
    requires k > 0
  {
    if x % k == 0 then 1 else 0
  }

  lemma LeapDay(x: nat)
    ensures DaysInYear(x) == 365 + Divides(4, x) - Divides(100, x) + Divides(400, x)
  {
    assert x % 400 == 0 ==> x % 100 == 0;
    assert x % 100 == 0 ==> x % 4 == 0;
  }

  lemma Multiples(x: nat, k: nat)
    requires k == 4 || k == 100 || k == 400
    ensures (x + 1 + (k - 1)) / k == (x + (k - 1)) / k + Divides(k, x)
  {
    if k == 4 {
      assert (x + 4) / 4 == (x + 3) / 4 + Divides(4, x);
    } else if k == 100 {
      assert (x + 100) / 100 == (x + 99) / 100 + Divides(100, x);
    } else {
      assert (x + 400) / 400 == (x + 399) / 400 + Divides(400, x);
    }
  }

  lemma EpochIsZero(epoch: Stamp)
    requires epoch == Stamp(1970, 1, 1, 0, 0, 0, 0)
    ensures Instant(epoch) == 0
  {
    DaysClosedForm(epoch.year);
  }

  lemma {:induction false} MonthsGrow(year: nat, m: nat, n: nat)
    requires 1 <= m < n <= 13
    ensures DaysBeforeMonth(year, m) + DaysInMonth(year, m) <= DaysBeforeMonth(year, n)
  {
    if m < n - 1 {
      MonthsGrow(year, m, n - 1);
    }
  }

  /** Dates compare by year, then month, then day. */
  lemma DayOrder(a: Stamp, b: Stamp)
    requires IsStamp(a) && IsStamp(b)
    ensures DayNumber(a) < DayNumber(b) <==>
      a.year < b.year || (a.year == b.year && (a.month < b.month || (a.month == b.month && a.day < b.day)))
    ensures DayNumber(a) == DayNumber(b) <==> a.year == b.year && a.month == b.month && a.day == b.day
  {
    DayInYear(a);
    DayInYear(b);
    if a.year < b.year {
      YearsGrow(a.year, b.year);
    } else if b.year < a.year {
      YearsGrow(b.year, a.year);
    } else if a.month < b.month {
      MonthsGrow(a.year, a.month, b.month);
    } else if b.month < a.month {
      MonthsGrow(a.year, b.month, a.month);
    }
  }

  lemma DayInYear(a: Stamp)
    requires IsStamp(a)
    ensures 0 <= DaysBeforeMonth(a.year, a.month) + a.day - 1 < DaysInYear(a.year)
  {
    MonthsGrow(a.year, a.month, 13);
    YearIsTwelveMonths(a.year);
  }

  // ----- the text of a stamp -----

  /** Four digits in years 0 to 9999; a sign and more digits beyond. */
  function YearText(year: nat): string {
    if year < 10_000 then Digits(year, 4) else "+" + FarYear(year)
  }

  function FarYear(year: nat): string {
    if year < 10 then Digits(year, 1) else FarYear(year / 10) + Digits(year, 1)
  }

  /** No fraction, or three, six or nine digits, whichever is the shortest exact one. */
  function FractionText(nanos: nat): string {
    if nanos == 0 then ""
    else if nanos % 1_000_000 == 0 then "." + Digits(nanos / 1_000_000, 3)
    else if nanos % 1_000 == 0 then "." + Digits(nanos / 1_000, 6)
    else "." + Digits(nanos, 9)
  }

  function Clock(s: Stamp): string {
    Digits(s.hour, 2) + (":" + (Digits(s.minute, 2) + (":" + (Digits(s.second, 2) + Tail(s)))))
  }

  function Tail(s: Stamp): string {
    FractionText(s.nanos) + "+00:00"
  }

  /** `to_rfc3339` of a UTC instant. */
  function Text(s: Stamp): string {
    YearText(s.year) + ("-" + (Digits(s.month, 2) + ("-" + (Digits(s.day, 2) + ("T" + Clock(s))))))
  }

  lemma SameFirst(c: char, u: string, v: string)
    ensures Before([c] + u, [c] + v) <==> Before(u, v)
  {
    PrefixFirst([c], [c], u, v);
  }

  lemma Pow10Values()
    ensures Pow10(1) == 10 && Pow10(2) == 100 && Pow10(3) == 1_000 && Pow10(4) == 10_000
  {
    assert Pow10(2) == 10 * Pow10(1);
    assert Pow10(4) == 10 * Pow10(3);
  }

  /** Fraction digits in groups of three, ending with the offset at the first group after which all are zero. */
  function Nanos(nano: nat): string {
    if nano == 0 then "+00:00" else Digits(nano, 3) + "+00:00"
  }

  function Micros(micro: nat, nano: nat): string {
    if micro + nano == 0 then "+00:00" else Digits(micro, 3) + Nanos(nano)
  }

  function Millis(milli: nat, micro: nat, nano: nat): string {
    if milli + micro + nano == 0 then "+00:00" else "." + (Digits(milli, 3) + Micros(micro, nano))
  }

  lemma LastDigit(n: nat, d: nat, width: nat)
    requires d < 10
    ensures Digits(10 * n + d, width + 1) == Digits(n, width) + [Digit(d)]
  {
    assert (10 * n + d) / 10 == n && (10 * n + d) % 10 == d;
  }

  lemma AppendThree(n: nat, x: nat, y: nat, z: nat, width: nat)
    requires x < 10 && y < 10 && z < 10
    ensures Digits(1_000 * n + 100 * x + 10 * y + z, width + 3) == Digits(n, width) + [Digit(x), Digit(y), Digit(z)]
  {
    var a := 10 * n + x;
    var b := 10 * a + y;
    LastDigit(n, x, width);
    LastDigit(a, y, width + 1);
    LastDigit(b, z, width + 2);
    assert 1_000 * n + 100 * x + 10 * y + z == 10 * b + z;
  }

  lemma ThreeDigits(r: nat) returns (x: nat, y: nat, z: nat)
    requires r < 1_000
    ensures x < 10 && y < 10 && z < 10 && r == 100 * x + 10 * y + z
  {
    x, y, z := r / 100, r % 100 / 10, r % 10;
  }

  lemma ThreeMoreDigits(n: nat, r: nat, width: nat)
    requires r < 1_000
    ensures Digits(n * 1_000 + r, width + 3) == Digits(n, width) + Digits(r, 3)
  {
    var x, y, z := ThreeDigits(r);
    assert n * 1_000 + r == 1_000 * n + 100 * x + 10 * y + z;
    AppendThree(n, x, y, z, width);
    AppendThree(0, x, y, z, 0);
    var last := [Digit(x), Digit(y), Digit(z)];
    assert Digits(r, 3) == [] + last == last;
  }

  lemma NanoParts(nanos: nat) returns (milli: nat, micro: nat, nano: nat)
    requires nanos < 1_000_000_000
    ensures milli < 1_000 && micro < 1_000 && nano < 1_000
    ensures nanos == (milli * 1_000 + micro) * 1_000 + nano
  {
    milli, micro, nano := nanos / 1_000_000, nanos % 1_000_000 / 1_000, nanos % 1_000;
  }

  /** The shortest exact fraction, by the last group of three digits that is not zero. */
  lemma FractionByParts(nanos: nat, micros: nat, milli: nat, micro: nat, nano: nat)
    requires nanos / 1_000_000 == milli && nanos % 1_000_000 == micro * 1_000 + nano
    requires nanos / 1_000 == micros && nanos % 1_000 == nano
    ensures nanos == 0 ==> FractionText(nanos) == ""
    ensures nano != 0 ==> FractionText(nanos) == "." + Digits(nanos, 9)
    ensures nano == 0 && micro != 0 ==> FractionText(nanos) == "." + Digits(micros, 6)
    ensures nano == 0 && micro == 0 && nanos != 0 ==> FractionText(nanos) == "." + Digits(milli, 3)
  {
  }

  lemma DigitsInGroups(nanos: nat, micros: nat, milli: nat, micro: nat, nano: nat)
    requires micro < 1_000 && nano < 1_000
    requires micros == milli * 1_000 + micro && nanos == micros * 1_000 + nano
    ensures Digits(micros, 6) == Digits(milli, 3) + Digits(micro, 3)
    ensures Digits(nanos, 9) == Digits(milli, 3) + Digits(micro, 3) + Digits(nano, 3)
  {
    ThreeMoreDigits(milli, micro, 3);
    ThreeMoreDigits(micros, nano, 6);
  }

  lemma DivideNanos(nanos: nat, micros: nat, milli: nat, micro: nat, nano: nat)
    requires micro < 1_000 && nano < 1_000
    requires micros == milli * 1_000 + micro && nanos == micros * 1_000 + nano
    ensures nanos / 1_000_000 == milli && nanos % 1_000_000 == micro * 1_000 + nano
    ensures nanos / 1_000 == micros && nanos % 1_000 == nano
    ensures nanos == 0 <==> milli == 0 && micro == 0 && nano == 0
  {
  }

  lemma FractionInGroups(nanos: nat, micros: nat, milli: nat, micro: nat, nano: nat)
    requires milli < 1_000 && micro < 1_000 && nano < 1_000
    requires micros == milli * 1_000 + micro && nanos == micros * 1_000 + nano
    ensures FractionText(nanos) + "+00:00" == Millis(milli, micro, nano)
  {
    DivideNanos(nanos, micros, milli, micro, nano);
    FractionByParts(nanos, micros, milli, micro, nano);
    DigitsInGroups(nanos, micros, milli, micro, nano);
    Regroup(Digits(milli, 3), Digits(micro, 3), Digits(nano, 3), "+00:00");
  }

  lemma Regroup(x: string, y: string, z: string, offset: string)
    ensures "." + (x + y + z) + offset == "." + (x + (y + (z + offset)))
    ensures "." + (x + y) + offset == "." + (x + (y + offset))
    ensures "." + x + offset == "." + (x + offset)
  {
  }

  lemma NanosOrder(n: nat, m: nat)
    requires n < 1_000 && m < 1_000
    ensures Before(Nanos(n), Nanos(m)) <==> n < m
  {
    Pow10Values();
    NumberFirst(n, m, 3, "+00:00", "+00:00");
    Irreflexive("+00:00");
    SignBeforeDigits(n, "+00:00");
    SignBeforeDigits(m, "+00:00");
  }

  /** A digit sorts after the offset sign, so a longer fraction sorts after its own prefix. */
  lemma SignBeforeDigits(n: nat, rest: string)
    ensures Before("+00:00", Digits(n, 3) + rest) && !Before(Digits(n, 3) + rest, "+00:00")
  {
    var text := Digits(n, 3);
    assert text[0] in text;
    assert (text + rest)[0] == text[0];
  }

  lemma MicrosOrder(n: nat, n': nat, m: nat, m': nat)
    requires n < 1_000 && n' < 1_000 && m < 1_000 && m' < 1_000
    ensures Before(Micros(n, n'), Micros(m, m')) <==> n < m || (n == m && n' < m')
  {
    Pow10Values();
    NanosOrder(n', m');
    NumberFirst(n, m, 3, Nanos(n'), Nanos(m'));
    Irreflexive("+00:00");
    SignBeforeDigits(n, Nanos(n'));
    SignBeforeDigits(m, Nanos(m'));
  }

  lemma MillisOrder(n: nat, n': nat, n'': nat, m: nat, m': nat, m'': nat)
    requires n < 1_000 && n' < 1_000 && n'' < 1_000 && m < 1_000 && m' < 1_000 && m'' < 1_000
    ensures Before(Millis(n, n', n''), Millis(m, m', m''))
      <==> n < m || (n == m && (n' < m' || (n' == m' && n'' < m'')))
  {
    Pow10Values();
    MicrosOrder(n', n'', m', m'');
    var u, v := Micros(n', n''), Micros(m', m'');
    NumberFirst(n, m, 3, u, v);
    SameFirst('.', Digits(n, 3) + u, Digits(m, 3) + v);
    Irreflexive("+00:00");
  }

  lemma {:induction false} Irreflexive(a: string)
    ensures !Before(a, a)
  {
    if a != "" {
      Irreflexive(a[1..]);
    }
  }

  lemma TailInGroups(s: Stamp) returns (milli: nat, micro: nat, nano: nat)
    requires s.nanos < 1_000_000_000
    ensures milli < 1_000 && micro < 1_000 && nano < 1_000 && s.nanos == (milli * 1_000 + micro) * 1_000 + nano
    ensures Tail(s) == Millis(milli, micro, nano)
  {
    milli, micro, nano := NanoParts(s.nanos);
    FractionInGroups(s.nanos, milli * 1_000 + micro, milli, micro, nano);
  }

  lemma TailOrder(a: Stamp, b: Stamp)
    requires a.nanos < 1_000_000_000 && b.nanos < 1_000_000_000
    ensures Before(Tail(a), Tail(b)) <==> a.nanos < b.nanos
  {
    var n, n', n'' := TailInGroups(a);
    var m, m', m'' := TailInGroups(b);
    MillisOrder(n, n', n'', m, m', m'');
  }

  lemma ClockOrder(a: Stamp, b: Stamp)
    requires IsStamp(a) && IsStamp(b)
    ensures Before(Clock(a), Clock(b)) <==>
      a.hour < b.hour || (a.hour == b.hour && (a.minute < b.minute || (a.minute == b.minute &&
        (a.second < b.second || (a.second == b.second && a.nanos < b.nanos)))))
  {
    Pow10Values();
    TailOrder(a, b);
    NumberFirst(a.second, b.second, 2, Tail(a), Tail(b));
    var seconds, seconds' := Digits(a.second, 2) + Tail(a), Digits(b.second, 2) + Tail(b);
    SameFirst(':', seconds, seconds');
    NumberFirst(a.minute, b.minute, 2, ":" + seconds, ":" + seconds');
    var minutes, minutes' := Digits(a.minute, 2) + (":" + seconds), Digits(b.minute, 2) + (":" + seconds');
    SameFirst(':', minutes, minutes');
    NumberFirst(a.hour, b.hour, 2, ":" + minutes, ":" + minutes');
  }

  /** Text order is time order in years 0 to 9999, whatever the numbers of fraction digits. */
  lemma TextOrderIsTimeOrder(a: Stamp, b: Stamp)
    requires IsStamp(a) && IsStamp(b) && a.year < 10_000 && b.year < 10_000
    ensures Before(Text(a), Text(b)) <==> Instant(a) < Instant(b)
  {
    Pow10Values();
    ClockOrder(a, b);
    SameFirst('T', Clock(a), Clock(b));
    NumberFirst(a.day, b.day, 2, "T" + Clock(a), "T" + Clock(b));
    var days, days' := Digits(a.day, 2) + ("T" + Clock(a)), Digits(b.day, 2) + ("T" + Clock(b));
    SameFirst('-', days, days');
    NumberFirst(a.month, b.month, 2, "-" + days, "-" + days');
    var months, months' := Digits(a.month, 2) + ("-" + days), Digits(b.month, 2) + ("-" + days');
    SameFirst('-', months, months');
    NumberFirst(a.year, b.year, 4, "-" + months, "-" + months');
    DayOrder(a, b);
    InstantOrder(a, b);
  }

  lemma InstantOrder(a: Stamp, b: Stamp)
    requires IsStamp(a) && IsStamp(b)
    ensures Instant(a) < Instant(b) <==>
      DayNumber(a) < DayNumber(b) || (DayNumber(a) == DayNumber(b) &&
        (a.hour < b.hour || (a.hour == b.hour && (a.minute < b.minute || (a.minute == b.minute &&
          (a.second < b.second || (a.second == b.second && a.nanos < b.nanos)))))))
  {
  }

  /** Beyond the year 9999 it is not: every later stamp sorts before every stamp up to then, for `+` sorts
      before the digits. */
  lemma FarFutureSortsFirst(a: Stamp, b: Stamp)
    requires IsStamp(a) && IsStamp(b) && a.year < 10_000 <= b.year
    ensures Instant(a) < Instant(b) && Before(Text(b), Text(a))
  {
    DayOrder(a, b);
    InstantOrder(a, b);
    assert Text(a)[0] in Digits(a.year, 4);
    assert Text(b)[0] == '+';
  }

  /** Text order is time order against a stamp of the years 0 to 9999 exactly for stamps of those years. */
  lemma TextOrderIff(a: Stamp, b: Stamp)
    requires IsStamp(a) && IsStamp(b) && a.year < 10_000
    ensures (Before(Text(a), Text(b)) <==> Instant(a) < Instant(b)) && (Before(Text(b), Text(a)) <==> Instant(b) < Instant(a))
      <==> b.year < 10_000
  {
    if b.year < 10_000 {
      TextOrderIsTimeOrder(a, b);
      TextOrderIsTimeOrder(b, a);
    } else {
      FarFutureSortsFirst(a, b);
    }
  }

  // ----- from instants to stamps -----

  const LAST_YEAR := 9_999

  /** The instants of years 0 to 9999. */
  predicate InEra(t: Time) {
    0 <= t / NANOS_PER_DAY + EPOCH_DAY < DaysBeforeYear(LAST_YEAR + 1)
  }

  /** The year at or before `year` that contains day `days`. */
  function YearOf(days: nat, year: nat): (y: nat)
    requires days < DaysBeforeYear(year + 1)
    ensures y <= year && DaysBeforeYear(y) <= days < DaysBeforeYear(y) + DaysInYear(y)
  {
    if days >= DaysBeforeYear(year) then year else YearOf(days, year - 1)
  }

  function MonthOf(day: nat, year: nat, month: nat): (m: nat)
    requires 1 <= month <= 12 && day < DaysBeforeMonth(year, month + 1)
    ensures 1 <= m <= month && DaysBeforeMonth(year, m) <= day < DaysBeforeMonth(year, m) + DaysInMonth(year, m)
  {
    if day >= DaysBeforeMonth(year, month) then month else MonthOf(day, year, month - 1)
  }

  /** The date of a day number and the time of day of a number of seconds. */
  function StampAt(days: nat, seconds: nat, nanos: nat): (s: Stamp)
    requires days < DaysBeforeYear(LAST_YEAR + 1) && seconds < 86_400 && nanos < NANOS_PER_SECOND
    ensures IsStamp(s) && s.year < 10_000
  {
    var year := YearOf(days, LAST_YEAR);
    var inYear := days - DaysBeforeYear(year);
    assert inYear < DaysBeforeMonth(year, 13) by { YearIsTwelveMonths(year); }
    var month := MonthOf(inYear, year, 12);
    Stamp(year, month, inYear - DaysBeforeMonth(year, month) + 1,
          seconds / 3_600, seconds / 60 % 60, seconds % 60, nanos)
  }

  function StampOf(t: Time): (s: Stamp)
    requires InEra(t)
    ensures IsStamp(s) && s.year < 10_000
  {
    var inDay := t % NANOS_PER_DAY;
    StampAt(t / NANOS_PER_DAY + EPOCH_DAY, inDay / NANOS_PER_SECOND, inDay % NANOS_PER_SECOND)
  }

  lemma TimeOfDay(seconds: nat)
    requires seconds < 86_400
    ensures seconds / 3_600 < 24
    ensures seconds == (seconds / 3_600 * 60 + seconds / 60 % 60) * 60 + seconds % 60
  {
  }

  lemma StampAtDenotes(days: nat, seconds: nat, nanos: nat)
    requires days < DaysBeforeYear(LAST_YEAR + 1) && seconds < 86_400 && nanos < NANOS_PER_SECOND
    ensures Instant(StampAt(days, seconds, nanos)) == ((days - EPOCH_DAY) * 86_400 + seconds) * NANOS_PER_SECOND + nanos
  {
    TimeOfDay(seconds);
    assert DayNumber(StampAt(days, seconds, nanos)) == days;
  }

  lemma DayAndTime(t: Time)
    ensures t == (t / NANOS_PER_DAY * 86_400 + t % NANOS_PER_DAY / NANOS_PER_SECOND) * NANOS_PER_SECOND
                 + t % NANOS_PER_DAY % NANOS_PER_SECOND
  {
  }

  /** The stamp of an instant denotes that instant. */
  lemma StampDenotes(t: Time)
    requires InEra(t)
    ensures Instant(StampOf(t)) == t
  {
    var inDay := t % NANOS_PER_DAY;
    DayAndTime(t);
    StampAtDenotes(t / NANOS_PER_DAY + EPOCH_DAY, inDay / NANOS_PER_SECOND, inDay % NANOS_PER_SECOND);
  }

  /** The text of an instant, and its order. */
  function TimeText(t: Time): string
    requires InEra(t)
  {
    Text(StampOf(t))
  }

  lemma TimeTextOrder(t: Time, u: Time)
    requires InEra(t) && InEra(u)
    ensures Before(TimeText(t), TimeText(u)) <==> t < u
    ensures TimeText(t) == TimeText(u) <==> t == u
  {
    StampDenotes(t);
    StampDenotes(u);
    TextOrderIsTimeOrder(StampOf(t), StampOf(u));
    TextOrderIsTimeOrder(StampOf(u), StampOf(t));
    Irreflexive(TimeText(t));
  }

  // ----- reading a text back -----

  /** The number that a text of decimal digits writes. */
  function Number(text: string): Option<nat> {
    if text == "" then Some(0)
    else
      var c := text[|text| - 1];
      var prior := Number(text[..|text| - 1]);
      if prior.None? || c < '0' || c > '9' then None else Some(10 * prior.value + (c - '0') as nat)
  }

  /** A number of `width` digits and the text after it. */
  function ReadNumber(text: string, width: nat): Option<(nat, string)> {
    if |text| < width || Number(text[..width]).None? then None else Some((Number(text[..width]).value, text[width..]))
  }

  /** The same, with a separator after it. */
  function ReadField(text: string, width: nat, separator: char): Option<(nat, string)> {
    var number := ReadNumber(text, width);
    if number.None? || number.value.1 == "" || number.value.1[0] != separator then None
    else Some((number.value.0, number.value.1[1..]))
  }

  /** The nanoseconds of an optional fraction before the offset of UTC. */
  function ReadTail(text: string): Option<nat> {
    if text == "+00:00" then Some(0)
    else if |text| < 8 || text[0] != '.' || text[|text| - 6..] != "+00:00" then None
    else
      var digits := text[1..|text| - 6];
      if |digits| > 9 || Number(digits).None? then None else Some(Number(digits).value * Pow10(9 - |digits|))
  }

  /** `parse_rfc3339` on texts in UTC with a year of four digits. */
  function Parse(text: string): Option<Stamp> {
    var year := ReadField(text, 4, '-');
    if year.None? then None else
    var month := ReadField(year.value.1, 2, '-');
    if month.None? then None else
    var day := ReadField(month.value.1, 2, 'T');
    if day.None? then None else
    var hour := ReadField(day.value.1, 2, ':');
    if hour.None? then None else
    var minute := ReadField(hour.value.1, 2, ':');
    if minute.None? then None else
    var second := ReadNumber(minute.value.1, 2);
    if second.None? || ReadTail(second.value.1).None? then None else
    Some(Stamp(year.value.0, month.value.0, day.value.0, hour.value.0, minute.value.0, second.value.0,
               ReadTail(second.value.1).value))
  }

  lemma {:induction false} NumberOfDigits(n: nat, width: nat)
    requires n < Pow10(width)
    ensures Number(Digits(n, width)) == Some(n)
  {
    if width > 0 {
      NumberOfDigits(n / 10, width - 1);
      var prior := Digits(n / 10, width - 1);
      assert (prior + [Digit(n % 10)])[..width - 1] == prior;
    }
  }

  lemma ReadNumberOf(n: nat, width: nat, rest: string)
    requires n < Pow10(width)
    ensures ReadNumber(Digits(n, width) + rest, width) == Some((n, rest))
  {
    NumberOfDigits(n, width);
    assert (Digits(n, width) + rest)[..width] == Digits(n, width);
    assert (Digits(n, width) + rest)[width..] == rest;
  }

  lemma ReadFieldOf(n: nat, width: nat, separator: char, rest: string)
    requires n < Pow10(width)
    ensures ReadField(Digits(n, width) + ([separator] + rest), width, separator) == Some((n, rest))
  {
    ReadNumberOf(n, width, [separator] + rest);
  }

  lemma ReadTailOf(n: nat, width: nat)
    requires 1 <= width <= 9 && n < Pow10(width)
    ensures ReadTail("." + Digits(n, width) + "+00:00") == Some(n * Pow10(9 - width))
  {
    NumberOfDigits(n, width);
    var text := "." + Digits(n, width) + "+00:00";
    assert text[|text| - 6..] == "+00:00" && text[1..|text| - 6] == Digits(n, width);
  }

  lemma TailRoundTrip(s: Stamp)
    requires s.nanos < 1_000_000_000
    ensures ReadTail(Tail(s)) == Some(s.nanos)
  {
    Pow10Values();
    MorePow10Values();
    if s.nanos == 0 {
      assert Tail(s) == "+00:00";
    } else if s.nanos % 1_000_000 == 0 {
      ReadTailOf(s.nanos / 1_000_000, 3);
    } else if s.nanos % 1_000 == 0 {
      ReadTailOf(s.nanos / 1_000, 6);
    } else {
      ReadTailOf(s.nanos, 9);
    }
  }

  lemma MorePow10Values()
    ensures Pow10(0) == 1 && Pow10(6) == 1_000_000 && Pow10(9) == 1_000_000_000
  {
    Pow10Values();
    assert Pow10(6) == 10 * Pow10(5) && Pow10(5) == 10 * Pow10(4);
    assert Pow10(9) == 10 * Pow10(8) && Pow10(8) == 10 * Pow10(7) && Pow10(7) == 10 * Pow10(6);
  }

  /** Reading the text of a stamp gives the stamp back. */
  lemma ParseText(s: Stamp)
    requires IsStamp(s) && s.year < 10_000
    ensures Parse(Text(s)) == Some(s)
  {
    Pow10Values();
    var seconds := Digits(s.second, 2) + Tail(s);
    var minutes := Digits(s.minute, 2) + (":" + seconds);
    var clock := Digits(s.hour, 2) + (":" + minutes);
    var days := Digits(s.day, 2) + ("T" + clock);
    var months := Digits(s.month, 2) + ("-" + days);
    ReadFieldOf(s.year, 4, '-', months);
    ReadFieldOf(s.month, 2, '-', days);
    ReadFieldOf(s.day, 2, 'T', clock);
    ReadFieldOf(s.hour, 2, ':', minutes);
    ReadFieldOf(s.minute, 2, ':', seconds);
    ReadNumberOf(s.second, 2, Tail(s));
    TailRoundTrip(s);
  }

  /** So an instant survives being stored as text. */
  lemma TimeRoundTrip(t: Time)
    requires InEra(t)
    ensures Parse(TimeText(t)).Some? && IsStamp(Parse(TimeText(t)).value) && Instant(Parse(TimeText(t)).value) == t
  {
    ParseText(StampOf(t));
    StampDenotes(t);
  }
}
