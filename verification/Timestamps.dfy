/**
 UTC instants, the text columns they are stored in (RFC3339Nano, the format of
 section 5.6 of RFC 3339 with trailing zeros of the fraction dropped), and how the
 order of the texts relates to the order of the instants.
 */
module Timestamps {
  import opened Durations
  import opened Options
  import opened Text

  const SECONDS_PER_DAY: nat := 86400

  predicate LeapYear(year: nat) {
    year % 4 == 0 && (year % 100 != 0 || year % 400 == 0)
  }

  function DaysIn(year: nat, month: nat): nat {
    if month == 2 then (if LeapYear(year) then 29 else 28)
    else if month == 4 || month == 6 || month == 9 || month == 11 then 30
    else 31
  }

  datatype Date = Date(year: nat, month: nat, day: nat) {
    predicate Valid() {
      1 <= month <= 12 && 1 <= day <= DaysIn(year, month)
    }
  }

  datatype Instant = Instant(date: Date, hour: nat, minute: nat, second: nat, nano: nat) {
    predicate Valid() {
      date.Valid() && hour < 24 && minute < 60 && second < 60 && nano < SECOND
    }
  }

  type Time = t: Instant | t.Valid() witness Instant(Date(0, 1, 1), 0, 0, 0, 0)

  // ---------- Position on the time line ----------

  function DaysBeforeMonth(year: nat, month: nat): nat {
    if month <= 1 then 0 else DaysBeforeMonth(year, month - 1) + DaysIn(year, month - 1)
  }

  function DaysBeforeYear(year: nat): nat {
    if year == 0 then 0 else DaysBeforeYear(year - 1) + DaysBeforeMonth(year - 1, 13)
  }

  /** Days since the first of January of year 0. */
  function DayNumber(d: Date): nat
    requires d.Valid()
  {
    DaysBeforeYear(d.year) + DaysBeforeMonth(d.year, d.month) + (d.day - 1)
  }

  function SecondOfDay(t: Time): (s: nat)
    ensures s < SECONDS_PER_DAY
  {
    3600 * t.hour + 60 * t.minute + t.second
  }

  /** Whole seconds since the start of year 0. */
  function Seconds(t: Time): nat {
    SECONDS_PER_DAY * DayNumber(t.date) + SecondOfDay(t)
  }

  predicate Before(a: Time, b: Time) {
    Seconds(a) < Seconds(b) || (Seconds(a) == Seconds(b) && a.nano < b.nano)
  }

  /** The number of leap years from year 1 to a given one. */
  function Leaps(year: int): int {
    year / 4 - year / 100 + year / 400
  }

  lemma OneMoreYear(year: nat)
    ensures Leaps(year) == Leaps(year - 1) + (if LeapYear(year) then 1 else 0)
  {
    assert year / 4 == (year - 1) / 4 + (if year % 4 == 0 then 1 else 0) by { By4(year); }
    assert year / 100 == (year - 1) / 100 + (if year % 100 == 0 then 1 else 0) by { By100(year); }
    assert year / 400 == (year - 1) / 400 + (if year % 400 == 0 then 1 else 0) by { By400(year); }
    assert (year % 400 == 0 ==> year % 100 == 0) && (year % 100 == 0 ==> year % 4 == 0) by { Multiples(year); }
  }

  lemma By4(n: nat)
    ensures n / 4 == (n - 1) / 4 + (if n % 4 == 0 then 1 else 0)
  {
  }

  lemma By100(n: nat)
    ensures n / 100 == (n - 1) / 100 + (if n % 100 == 0 then 1 else 0)
  {
  }

  lemma By400(n: nat)
    ensures n / 400 == (n - 1) / 400 + (if n % 400 == 0 then 1 else 0)
  {
  }

  lemma Multiples(n: nat)
    ensures (n % 400 == 0 ==> n % 100 == 0) && (n % 100 == 0 ==> n % 4 == 0)
  {
    if n % 400 == 0 {
      Hundreds(n, 4 * (n / 400));
    }
    if n % 100 == 0 {
      Fours(n, 25 * (n / 100));
    }
  }

  lemma Hundreds(n: nat, q: nat)
    requires n == 100 * q
    ensures n % 100 == 0
  {
  }

  lemma Fours(n: nat, q: nat)
    requires n == 4 * q
    ensures n % 4 == 0
  {
  }

  lemma {:induction false} YearStarts(year: nat)
    ensures DaysBeforeYear(year) == 365 * year + 1 + Leaps(year - 1)
  {
    hide Leaps, LeapYear;
    if year == 0 {
      assert Leaps(-1) == -1 by { BeforeYearZero(); }
    } else {
      YearStarts(year - 1);
      OneMoreYear(year - 1);
      MonthStarts(year - 1, 12);
      assert DaysBeforeMonth(year - 1, 13) == DaysBeforeMonth(year - 1, 12) + 31;
    }
  }

  lemma BeforeYearZero()
    ensures Leaps(-1) == -1
  {
  }

  lemma {:induction false} MonthStarts(year: nat, month: nat)
    requires 1 <= month <= 12
    ensures DaysBeforeMonth(year, month)
         == (if month <= 2 then (153 * (month + 9) + 2) / 5 - 306
             else (153 * (month - 3) + 2) / 5 + (if LeapYear(year) then 60 else 59))
  {
    hide LeapYear;
    if month > 1 {
      MonthStarts(year, month - 1);
    }
  }

  /**
   The Gregorian calendar: the day number in closed form, with years that start in March, so that the leap
   day comes last and the lengths of the months repeat every five.
   */
  lemma DayNumberIsGregorian(d: Date)
    requires d.Valid()
    ensures var year := if d.month <= 2 then d.year - 1 else d.year;
            var month := if d.month <= 2 then d.month + 9 else d.month - 3;
            DayNumber(d) == 365 * year + (year / 4 - year / 100 + year / 400) + (153 * month + 2) / 5 + d.day + 59
  {
    hide LeapYear, DaysBeforeYear, DaysBeforeMonth;
    YearStarts(d.year);
    MonthStarts(d.year, d.month);
    LeapsMeans(d.year);
    LeapsMeans(d.year - 1);
    OneMoreYear(d.year);
    hide Leaps;
  }

  lemma LeapsMeans(year: int)
    ensures Leaps(year) == year / 4 - year / 100 + year / 400
  {
  }

  predicate DateBefore(a: Date, b: Date) {
    a.year < b.year || (a.year == b.year && (a.month < b.month || (a.month == b.month && a.day < b.day)))
  }

  lemma {:induction false} MonthsAddUp(year: nat, m: nat, k: nat)
    requires 1 <= m < k
    ensures DaysBeforeMonth(year, m) + DaysIn(year, m) <= DaysBeforeMonth(year, k)
  {
    if m + 1 < k {
      MonthsAddUp(year, m, k - 1);
    }
  }

  lemma {:induction false} YearsAddUp(y: nat, z: nat)
    requires y < z
    ensures DaysBeforeYear(y) + DaysBeforeMonth(y, 13) <= DaysBeforeYear(z)
  {
    if y + 1 < z {
      YearsAddUp(y, z - 1);
    }
  }

  lemma EarlierDateSmallerDay(a: Date, b: Date)
    requires a.Valid() && b.Valid() && DateBefore(a, b)
    ensures DayNumber(a) < DayNumber(b)
  {
    if a.year < b.year {
      YearsAddUp(a.year, b.year);
      MonthsAddUp(a.year, a.month, 13);
    } else if a.month < b.month {
      MonthsAddUp(a.year, a.month, b.month);
    }
  }

  /** The calendar order of the fields is the order on the time line. */
  lemma FieldOrderIsTimeOrder(a: Time, b: Time)
    ensures Seconds(a) < Seconds(b) <==>
            DateBefore(a.date, b.date) || (a.date == b.date && SecondOfDay(a) < SecondOfDay(b))
    ensures Seconds(a) == Seconds(b) <==> a.(nano := 0) == b.(nano := 0)
  {
    if DateBefore(a.date, b.date) {
      EarlierDateSmallerDay(a.date, b.date);
    } else if DateBefore(b.date, a.date) {
      EarlierDateSmallerDay(b.date, a.date);
    }
  }

  // ---------- Adding seconds ----------

  function NextDay(d: Date): (e: Date)
    requires d.Valid()
    ensures e.Valid() && DayNumber(e) == DayNumber(d) + 1
  {
    if d.day < DaysIn(d.year, d.month) then d.(day := d.day + 1)
    else if d.month < 12 then Date(d.year, d.month + 1, 1)
    else
      assert DaysBeforeMonth(d.year, 13) == DaysBeforeMonth(d.year, 12) + DaysIn(d.year, 12);
      Date(d.year + 1, 1, 1)
  }

  function AddDays(d: Date, n: nat): (e: Date)
    requires d.Valid()
    ensures e.Valid() && DayNumber(e) == DayNumber(d) + n
  {
    if n == 0 then d else NextDay(AddDays(d, n - 1))
  }

  /** The instant a whole number of seconds later. */
  function AddSeconds(t: Time, n: nat): (r: Time)
    ensures Seconds(r) == Seconds(t) + n && r.nano == t.nano
  {
    var total := SecondOfDay(t) + n;
    var rest := total % SECONDS_PER_DAY;
    Instant(AddDays(t.date, total / SECONDS_PER_DAY), rest / 3600, rest % 3600 / 60, rest % 60, t.nano)
  }

  /** Nanoseconds since the start of year 0. */
  function Nanos(t: Time): nat {
    Seconds(t) * SECOND + t.nano
  }

  lemma FirstInstant(t: Time)
    requires t.date.year == 0 && t.date.month == 1 && t.date.day == 1 && SecondOfDay(t) == 0
    ensures Seconds(t) == 0
  {
    hide SecondOfDay;
    assert DayNumber(t.date) == 0;
  }

  function Start(): (t: Time)
    ensures Seconds(t) == 0
  {
    hide Seconds;
    var t: Time := Instant(Date(0, 1, 1), 0, 0, 0, 0);
    FirstInstant(t);
    t
  }

  function WithNano(t: Time, nano: nat): (r: Time)
    requires nano < SECOND
    ensures Seconds(r) == Seconds(t) && r.nano == nano
  {
    FieldOrderIsTimeOrder(t, t.(nano := nano));
    t.(nano := nano)
  }

  /** The instant a number of nanoseconds later, or earlier if that is negative. */
  function AddNanos(t: Time, n: int): (r: Time)
    requires Nanos(t) + n >= 0
    ensures Nanos(r) == Nanos(t) + n
  {
    hide Seconds, Start;
    var total := Nanos(t) + n;
    WithNano(AddSeconds(Start(), total / SECOND), total % SECOND)
  }

  // ---------- Formatting ----------

  /** Drops the trailing zeros. */
  function TrimZeros(s: string): (r: string)
    requires AllDigits(s)
    ensures AllDigits(r) && |r| <= |s|
  {
    if s == [] then []
    else
      var rest := TrimZeros(s[1..]);
      if rest == [] && s[0] == '0' then [] else [s[0]] + rest
  }

  /** The digits of the fraction of a second that are written out. */
  function FractionDigits(t: Time): (r: string)
    ensures AllDigits(r)
  {
    TrimZeros(Padded(t.nano, 9))
  }

  function Tail(digits: string): string {
    if digits == "" then "Z" else "." + digits + "Z"
  }

  /** The two-digit fields of a time text, each after its separator. */
  datatype Fields = End | More(separator: char, value: nat, rest: Fields)

  function FieldsOf(t: Time): Fields {
    More('-', t.date.month, More('-', t.date.day, More('T', t.hour, More(':', t.minute, More(':', t.second, End)))))
  }

  function Join(f: Fields, tail: string): string {
    match f
    case End => tail
    case More(separator, value, rest) => [separator] + (Padded(value, 2) + Join(rest, tail))
  }

  function FmtTime(t: Time): string {
    Padded(t.date.year, 4) + Join(FieldsOf(t), Tail(FractionDigits(t)))
  }

  // ---------- Parsing ----------

  /** The values of two-digit fields with the given separators, and what follows them. */
  function ParseFields(s: string, separators: string): (r: Option<(seq<nat>, string)>)
    ensures r.Some? ==> |r.value.0| == |separators|
  {
    if separators == "" then Some(([], s))
    else if |s| >= 3 && s[0] == separators[0] && IsDigit(s[1]) && IsDigit(s[2]) then
      match ParseFields(s[3..], separators[1..])
      case None => None
      case Some((values, rest)) => Some(([10 * Value(s[1]) + Value(s[2])] + values, rest))
    else None
  }

  function LeadingDigits(s: string): (r: string)
    ensures |r| <= |s| && r == s[..|r|] && AllDigits(r)
    ensures |r| < |s| ==> !IsDigit(s[|r|])
  {
    if s != [] && IsDigit(s[0]) then [s[0]] + LeadingDigits(s[1..]) else []
  }

  /** The first nine digits of a fraction, filled up with zeros on the right. */
  function NineDigits(s: string): (r: string)
    requires AllDigits(s)
    ensures |r| == 9 && AllDigits(r)
    decreases if |s| < 9 then 9 - |s| else 0
  {
    if |s| >= 9 then s[..9] else NineDigits(s + "0")
  }

  /** Fraction and zone; only the zone Z is modelled. */
  function ParseTail(s: string): Option<nat> {
    if |s| >= 2 && s[0] == '.' && IsDigit(s[1]) then
      var digits := LeadingDigits(s[1..]);
      if s[1 + |digits|..] == "Z" then Some(NatOf(NineDigits(digits))) else None
    else if s == "Z" then Some(0)
    else None
  }

  /** The empty text of an unset column is no instant, like any malformed text or impossible date. */
  function ParseTime(s: string): (r: Option<Instant>)
    ensures r.Some? ==> r.value.Valid()
  {
    if |s| < 4 || !AllDigits(s[..4]) then None
    else
      match ParseFields(s[4..], "--T::")
      case None => None
      case Some((v, rest)) =>
        match ParseTail(rest)
        case None => None
        case Some(nano) =>
          var t := Instant(Date(NatOf(s[..4]), v[0], v[1]), v[2], v[3], v[4], nano);
          if t.Valid() then Some(t) else None
  }

  // ---------- Round trip ----------

  predicate TwoDigits(f: Fields) {
    f.More? ==> f.value < 100 && TwoDigits(f.rest)
  }

  function Separators(f: Fields): string {
    match f
    case End => ""
    case More(separator, _, rest) => [separator] + Separators(rest)
  }

  function Values(f: Fields): seq<nat> {
    match f
    case End => []
    case More(_, value, rest) => [value] + Values(rest)
  }

  lemma TwoDigitText(n: nat)
    requires n < 100
    ensures var s := Padded(n, 2); |s| == 2 && 10 * Value(s[0]) + Value(s[1]) == n
  {
    var s := Padded(n, 2);
    assert Pow10(2) == 100;
    assert s[..1] == [s[0]] && NatOf([s[0]]) == Value(s[0]);
    assert NatOf(s) == 10 * NatOf(s[..1]) + Value(s[1]);
  }

  lemma {:induction false} ParsesFields(f: Fields, tail: string)
    requires TwoDigits(f)
    ensures ParseFields(Join(f, tail), Separators(f)) == Some((Values(f), tail))
  {
    if f.More? {
      ParsesFields(f.rest, tail);
      TwoDigitText(f.value);
      hide Padded;
      assert Join(f, tail)[3..] == Join(f.rest, tail);
      assert Separators(f)[1..] == Separators(f.rest);
    }
  }

  /** The five fields of an instant, spelled out. */
  lemma FieldsSpelledOut(t: Time)
    ensures TwoDigits(FieldsOf(t)) && Separators(FieldsOf(t)) == "--T::"
    ensures Values(FieldsOf(t)) == [t.date.month, t.date.day, t.hour, t.minute, t.second]
  {
    var f5 := More(':', t.second, End);
    var f4 := More(':', t.minute, f5);
    var f3 := More('T', t.hour, f4);
    var f2 := More('-', t.date.day, f3);
    assert Separators(f5) == ":" && Values(f5) == [t.second] && TwoDigits(f5);
    assert Separators(f4) == "::" && Values(f4) == [t.minute, t.second] && TwoDigits(f4);
    assert Separators(f3) == "T::" && Values(f3) == [t.hour, t.minute, t.second] && TwoDigits(f3);
    assert Separators(f2) == "-T::" && Values(f2) == [t.date.day, t.hour, t.minute, t.second] && TwoDigits(f2);
  }

  lemma {:induction false} LeadingDigitsOf(d: string, rest: string)
    requires AllDigits(d) && rest != [] && !IsDigit(rest[0])
    ensures LeadingDigits(d + rest) == d
  {
    if d == [] {
      assert d + rest == rest;
    } else {
      LeadingDigitsOf(d[1..], rest);
      assert (d + rest)[1..] == d[1..] + rest;
    }
  }

  function Zeros(n: nat): (z: string)
    ensures |z| == n && AllDigits(z)
  {
    seq(n, _ => '0')
  }

  lemma {:induction false} TrimThenZeros(s: string)
    requires AllDigits(s)
    ensures TrimZeros(s) + Zeros(|s| - |TrimZeros(s)|) == s
  {
    if s != [] {
      TrimThenZeros(s[1..]);
      assert s == [s[0]] + s[1..];
    }
  }

  lemma {:induction false} NineDigitsFillsUp(s: string, n: nat)
    requires AllDigits(s) && |s| + n == 9
    ensures NineDigits(s) == s + Zeros(n)
    decreases n
  {
    if n > 0 {
      NineDigitsFillsUp(s + "0", n - 1);
      assert s + "0" + Zeros(n - 1) == s + Zeros(n);
    }
  }

  lemma ParsesTail(t: Time)
    ensures ParseTail(Tail(FractionDigits(t))) == Some(t.nano)
  {
    var p := Padded(t.nano, 9);
    assert |p| == 9 by { assert Pow10(9) == SECOND; }
    var d := TrimZeros(p);
    TrimThenZeros(p);
    NineDigitsFillsUp(d, 9 - |d|);
    if d == "" {
      assert p == Zeros(9);
      PaddedOfNat(Zeros(9));
      ZerosAreZero(9);
    } else {
      var s := Tail(d);
      assert s[1..] == d + "Z";
      LeadingDigitsOf(d, "Z");
      assert s[1 + |d|..] == "Z";
    }
  }

  lemma {:induction false} ZerosAreZero(n: nat)
    ensures NatOf(Zeros(n)) == 0
  {
    if n > 0 {
      ZerosAreZero(n - 1);
      assert Zeros(n)[..n - 1] == Zeros(n - 1);
    }
  }

  /** A fraction is written out exactly if there is one. */
  lemma FractionWritten(t: Time)
    ensures FractionDigits(t) == "" <==> t.nano == 0
  {
    hide Padded;
    if t.nano == 0 {
      PaddedOfNat(Zeros(9));
      ZerosAreZero(9);
      TrimAllZeros(9);
    } else if FractionDigits(t) == "" {
      var p := Padded(t.nano, 9);
      assert |p| == 9 by { assert Pow10(9) == SECOND; }
      TrimThenZeros(p);
      assert "" + Zeros(9) == Zeros(9) == p;
      ZerosAreZero(9);
    }
  }

  /** The text spelled out: year-month-dayThour:minute:second, the fraction if there is one, and Z. */
  lemma FmtTimeIs(t: Time)
    ensures FmtTime(t) == Padded(t.date.year, 4)
         + ("-" + (Padded(t.date.month, 2) + ("-" + (Padded(t.date.day, 2) + ("T" + (Padded(t.hour, 2)
         + (":" + (Padded(t.minute, 2) + (":" + (Padded(t.second, 2)
         + (if t.nano == 0 then "Z" else "." + FractionDigits(t) + "Z")))))))))))
  {
    hide Padded, FractionDigits;
    FractionWritten(t);
    var tail := Tail(FractionDigits(t));
    var f5 := More(':', t.second, End);
    var f4 := More(':', t.minute, f5);
    var f3 := More('T', t.hour, f4);
    var f2 := More('-', t.date.day, f3);
    assert Join(f5, tail) == ":" + (Padded(t.second, 2) + tail);
    assert Join(f4, tail) == ":" + (Padded(t.minute, 2) + Join(f5, tail));
    assert Join(f3, tail) == "T" + (Padded(t.hour, 2) + Join(f4, tail));
    assert Join(f2, tail) == "-" + (Padded(t.date.day, 2) + Join(f3, tail));
  }

  /** An instant is read back from its text, to the nanosecond, exactly up to year 9999. */
  lemma TextRoundTrip(t: Time)
    ensures ParseTime(FmtTime(t)) == (if t.date.year <= 9999 then Some(t) else None)
  {
    hide Padded, Tail, FractionDigits, Values, Separators, FieldsOf;
    var y, tail := Padded(t.date.year, 4), Tail(FractionDigits(t));
    var fields := Join(FieldsOf(t), tail);
    var s := FmtTime(t);
    assert Pow10(4) == 10000;
    if t.date.year <= 9999 {
      assert s[..4] == y && s[4..] == fields;
      FieldsSpelledOut(t);
      ParsesFields(FieldsOf(t), tail);
      ParsesTail(t);
    } else {
      assert |y| > 4 && s[4..][0] == y[4] && IsDigit(y[4]);
    }
  }

  // ---------- Order ----------

  /** The order of two field lists, first field first. */
  predicate Earlier(f: Fields, g: Fields) {
    f.More? && g.More? && (f.value < g.value || (f.value == g.value && Earlier(f.rest, g.rest)))
  }

  lemma {:induction false} JoinOrder(f: Fields, g: Fields, x: string, y: string)
    requires TwoDigits(f) && TwoDigits(g) && Separators(f) == Separators(g)
    ensures Less(Join(f, x), Join(g, y)) <==> Earlier(f, g) || (f == g && Less(x, y))
  {
    hide Less, Padded;
    if f.More? && g.More? {
      assert Separators(f)[1..] == Separators(f.rest) && Separators(g)[1..] == Separators(g.rest);
      assert Separators(f)[0] == f.separator && Separators(g)[0] == g.separator;
      JoinOrder(f.rest, g.rest, x, y);
      assert Pow10(2) == 100;
      LessField(f.value, g.value, 2, Join(f.rest, x), Join(g.rest, y));
      LessCons(f.separator, Padded(f.value, 2) + Join(f.rest, x), Padded(g.value, 2) + Join(g.rest, y));
    } else {
      assert |Separators(f)| == |Separators(g)|;
    }
  }

  lemma EarlierSpelledOut(a: Time, b: Time)
    ensures Earlier(FieldsOf(a), FieldsOf(b)) <==>
            || a.date.month < b.date.month
            || (a.date.month == b.date.month && a.date.day < b.date.day)
            || (a.date.month == b.date.month && a.date.day == b.date.day && SecondOfDay(a) < SecondOfDay(b))
  {
    var a5, b5 := More(':', a.second, End), More(':', b.second, End);
    var a4, b4 := More(':', a.minute, a5), More(':', b.minute, b5);
    var a3, b3 := More('T', a.hour, a4), More('T', b.hour, b4);
    var a2, b2 := More('-', a.date.day, a3), More('-', b.date.day, b3);
    assert Earlier(a5, b5) <==> a.second < b.second;
    assert Earlier(a4, b4) <==> a.minute < b.minute || (a.minute == b.minute && a.second < b.second);
    assert Earlier(a3, b3) <==> SecondOfDay(a) < SecondOfDay(b);
    assert Earlier(a2, b2) <==>
      a.date.day < b.date.day || (a.date.day == b.date.day && SecondOfDay(a) < SecondOfDay(b));
  }

  lemma PrefixCons(c: char, u: string, v: string)
    ensures [c] + u <= [c] + v <==> u <= v
  {
    assert ([c] + u)[1..] == u && ([c] + v)[1..] == v;
    if u <= v {
      assert [c] + v == ([c] + u) + v[|u|..];
    }
    if [c] + u <= [c] + v {
      assert v[..|u|] == ([c] + v)[1..1 + |u|] == u;
    }
  }

  /** Trimmed fractions followed by Z compare like the full ones, unless the smaller is a prefix of the larger. */
  lemma {:induction false} TrimmedOrder(p: string, q: string)
    requires AllDigits(p) && AllDigits(q) && |p| == |q| && Less(p, q)
    ensures TrimZeros(q) != []
    ensures Less(TrimZeros(p) + "Z", TrimZeros(q) + "Z") <==> !(TrimZeros(p) <= TrimZeros(q))
    ensures !(TrimZeros(q) <= TrimZeros(p))
    ensures Less(TrimZeros(q) + "Z", TrimZeros(p) + "Z") <==> TrimZeros(p) <= TrimZeros(q)
  {
    hide NatOf, Padded;
    var x, y := TrimZeros(p), TrimZeros(q);
    if p[0] == q[0] {
      TrimmedOrder(p[1..], q[1..]);
      assert y == [q[0]] + TrimZeros(q[1..]);
      PrefixCons(p[0], TrimZeros(p[1..]), TrimZeros(q[1..]));
      PrefixCons(p[0], TrimZeros(q[1..]), TrimZeros(p[1..]));
      if x != [] {
        assert x == [p[0]] + TrimZeros(p[1..]);
        assert (x + "Z")[1..] == TrimZeros(p[1..]) + "Z";
      } else {
        assert x + "Z" == "Z";
      }
      assert (y + "Z")[1..] == TrimZeros(q[1..]) + "Z";
    } else {
      assert y[0] == q[0];
      if x == [] {
        assert x + "Z" == "Z";
      }
    }
  }

  lemma TailOrder(a: Time, b: Time)
    requires a.nano < b.nano
    ensures !(FractionDigits(b) <= FractionDigits(a))
    ensures Less(Tail(FractionDigits(a)), Tail(FractionDigits(b))) <==> !(FractionDigits(a) <= FractionDigits(b))
    ensures Less(Tail(FractionDigits(b)), Tail(FractionDigits(a))) <==> FractionDigits(a) <= FractionDigits(b)
  {
    hide Padded, NatOf, TrimZeros;
    var p, q := Padded(a.nano, 9), Padded(b.nano, 9);
    assert Pow10(9) == SECOND;
    LessPadded(a.nano, b.nano, 9);
    TrimmedOrder(p, q);
    var x, y := FractionDigits(a), FractionDigits(b);
    assert ("." + y + "Z")[1..] == y + "Z";
    if x != [] {
      assert ("." + x + "Z")[1..] == x + "Z";
    }
  }

  /** Order of two texts: the fields decide, and between equal fields the fraction. */
  lemma TextOrderByFields(a: Time, b: Time)
    requires a.date.year <= 9999 && b.date.year <= 9999
    ensures Less(FmtTime(a), FmtTime(b)) <==>
            Seconds(a) < Seconds(b) ||
            (Seconds(a) == Seconds(b) && Less(Tail(FractionDigits(a)), Tail(FractionDigits(b))))
  {
    hide Less, Padded, Seconds, Tail, FractionDigits, Separators, Join, TwoDigits, Earlier;
    var x, y := Tail(FractionDigits(a)), Tail(FractionDigits(b));
    FieldsSpelledOut(a);
    FieldsSpelledOut(b);
    JoinOrder(FieldsOf(a), FieldsOf(b), x, y);
    EarlierSpelledOut(a, b);
    assert Pow10(4) == 10000;
    LessField(a.date.year, b.date.year, 4, Join(FieldsOf(a), x), Join(FieldsOf(b), y));
    FieldOrderIsTimeOrder(a, b);
  }

  /**
   The text order agrees with the time order except within one second, where it is
   reversed exactly when the written fraction of the earlier instant is a prefix of the
   written fraction of the later one (a whole second, or .5 against .52).
   */
  lemma TextOrder(a: Time, b: Time)
    requires a.date.year <= 9999 && b.date.year <= 9999 && Before(a, b)
    ensures var reversed := Seconds(a) == Seconds(b) && FractionDigits(a) <= FractionDigits(b);
            && (Less(FmtTime(a), FmtTime(b)) <==> !reversed)
            && (Less(FmtTime(b), FmtTime(a)) <==> reversed)
  {
    TextOrderByFields(a, b);
    TextOrderByFields(b, a);
    if Seconds(a) == Seconds(b) {
      TailOrder(a, b);
    }
  }

  /** What an inclusive text comparison tells about the instants. */
  lemma TextAtMost(a: Time, b: Time)
    requires a.date.year <= 9999 && b.date.year <= 9999
    ensures AtMost(FmtTime(a), FmtTime(b)) ==> Seconds(a) <= Seconds(b)
    ensures Seconds(a) < Seconds(b) ==> AtMost(FmtTime(a), FmtTime(b))
    ensures a == b ==> AtMost(FmtTime(a), FmtTime(b))
  {
    TextOrderByFields(a, b);
    TextRoundTrip(a);
    TextRoundTrip(b);
  }

  /** Exactly when a text comparison takes instant a to be no later than instant b. */
  lemma TextAtMostExactly(a: Time, b: Time)
    requires a.date.year <= 9999 && b.date.year <= 9999
    ensures AtMost(FmtTime(a), FmtTime(b)) <==>
            || a == b
            || (Before(a, b) && !(Seconds(a) == Seconds(b) && FractionDigits(a) <= FractionDigits(b)))
            || (Before(b, a) && Seconds(a) == Seconds(b) && FractionDigits(b) <= FractionDigits(a))
  {
    hide FmtTime, FractionDigits, Seconds, Less;
    FieldOrderIsTimeOrder(a, b);
    TextRoundTrip(a);
    TextRoundTrip(b);
    if Before(a, b) {
      TextOrder(a, b);
    } else if Before(b, a) {
      TextOrder(b, a);
    }
  }

  /** A whole second sorts after every later instant of that second. */
  lemma WholeSecondSortsLast(whole: Time, nano: nat)
    requires whole.date.year <= 9999 && whole.nano == 0 < nano < SECOND
    ensures Before(whole, whole.(nano := nano)) && Less(FmtTime(whole.(nano := nano)), FmtTime(whole))
  {
    hide FmtTime, Seconds, Less, Padded, Pow10, NatOf, TrimZeros, Zeros;
    var later: Time := whole.(nano := nano);
    FieldOrderIsTimeOrder(whole, later);
    PaddedOfNat(Zeros(9));
    ZerosAreZero(9);
    TrimAllZeros(9);
    TextOrder(whole, later);
  }

  lemma {:induction false} TrimAllZeros(n: nat)
    ensures TrimZeros(Zeros(n)) == ""
  {
    if n > 0 {
      TrimAllZeros(n - 1);
      assert Zeros(n)[1..] == Zeros(n - 1);
    }
  }

  /** Rows a query returned under ORDER BY a text column DESC. */
  predicate NewestTextFirst(times: seq<Time>) {
    forall i, j :: 0 <= i < j < |times| ==> AtMost(FmtTime(times[j]), FmtTime(times[i]))
  }

  /**
   A listing sorted by its text column is newest first to the second, and two rows stand in the
   wrong order exactly when the earlier one is listed first, in the second of the later one and
   with a written fraction that is a prefix of the later one's.
   */
  lemma ListingNewestFirstToTheSecond(times: seq<Time>, i: nat, j: nat)
    requires NewestTextFirst(times) && forall k :: 0 <= k < |times| ==> times[k].date.year <= 9999
    requires i < j < |times|
    ensures Seconds(times[j]) <= Seconds(times[i])
    ensures Before(times[i], times[j]) <==>
            times[i] != times[j] && Seconds(times[i]) == Seconds(times[j])
            && FractionDigits(times[i]) <= FractionDigits(times[j])
  {
    var a, b := times[j], times[i];
    TextAtMost(a, b);
    FieldOrderIsTimeOrder(a, b);
    if Before(b, a) {
      TextOrder(b, a);
      TextRoundTrip(a);
      TextRoundTrip(b);
    } else if a != b && Seconds(a) == Seconds(b) {
      TailOrder(a, b);
    }
  }
}
