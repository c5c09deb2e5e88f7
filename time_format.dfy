/** Date labels of the time slider (`zeroPad`, `getMonthOneBased`,
    `getDefaultMessage`, src/components/TimeSlider/TimeSlider.func.ts). */
module TimeFormat {
  import opened TimeSliderTypes

  predicate IsDigit(c: char)
  {
    '0' <= c <= '9'
  }

  predicate AllDigits(s: string)
  {
    forall i :: 0 <= i < |s| ==> IsDigit(s[i])
  }

  function DigitChar(d: int): (c: char)
    requires 0 <= d < 10
    ensures IsDigit(c) && c as int - '0' as int == d
  {
    ('0' as int + d) as char
  }

  /** `String(n)` for a non-negative integer: its decimal digits, without
      leading zeros. (JavaScript switches to exponent notation from 1e21;
      the date fields `zeroPad` receives never come near it.) */
  function NatString(n: nat): (r: string)
    ensures |r| >= 1 && AllDigits(r)
    ensures |r| >= 2 <==> n >= 10
    ensures r[0] == '0' <==> n == 0
    decreases n
  {
    if n < 10 then [DigitChar(n)] else NatString(n / 10) + [DigitChar(n % 10)]
  }

  /** `String(n)` for an integer: the digits of `n`, after a minus sign
      when `n` is negative. */
  function DecimalString(n: int): (r: string)
    ensures n >= 0 ==> AllDigits(r) && ParseDigits(r) == n
    ensures n >= 0 ==> |r| >= 1 && (r[0] == '0' <==> n == 0)
    ensures n < 0 ==> |r| >= 2 && r[0] == '-' && AllDigits(r[1..]) && ParseDigits(r[1..]) == -n
    ensures n < 0 ==> r[1] != '0'
  {
    if n < 0 then
      ParseNatString(-n);
      assert ("-" + NatString(-n))[1..] == NatString(-n);
      "-" + NatString(-n)
    else
      ParseNatString(n);
      NatString(n)
  }

  /** The number a string of decimal digits denotes. */
  function ParseDigits(s: string): nat
    requires AllDigits(s)
    decreases |s|
  {
    if s == [] then 0
    else ParseDigits(s[..|s| - 1]) * 10 + (s[|s| - 1] as int - '0' as int)
  }

  /** Reading back `String(n)` gives `n`. */
  lemma {:induction false} ParseNatString(n: nat)
    ensures ParseDigits(NatString(n)) == n
    decreases n
  {
    if n >= 10 {
      ParseNatString(n / 10);
      var r := NatString(n);
      assert r[..|r| - 1] == NatString(n / 10);
    }
  }

  /** `c` repeated `k` times. */
  function Repeat(c: char, k: nat): (r: string)
    ensures |r| == k && forall i :: 0 <= i < k ==> r[i] == c
  {
    if k == 0 then [] else [c] + Repeat(c, k - 1)
  }

  /** `s.padStart(length, c)`. */
  function PadStart(s: string, length: int, c: char): (r: string)
    ensures |r| == if |s| >= length then |s| else length
    ensures r[|r| - |s|..] == s
    ensures forall i :: 0 <= i < |r| - |s| ==> r[i] == c
  {
    if |s| >= length then s else Repeat(c, length - |s|) + s
  }

  /** `zeroPad(num, length = 2)`: `String(num).padStart(length, '0')`. */
  function ZeroPad(n: int, length: int := 2): (r: string)
    ensures |r| == if |DecimalString(n)| >= length then |DecimalString(n)| else length
    ensures |DecimalString(n)| >= length ==> r == DecimalString(n)
  {
    PadStart(DecimalString(n), length, '0')
  }

  /** `zeroPad(n, length)` is `String(n)` after as many zeros as make up
      `length` characters. */
  lemma ZeroPadShape(n: int, length: int)
    ensures var r := ZeroPad(n, length);
      var s := DecimalString(n);
      && r[|r| - |s|..] == s
      && forall i :: 0 <= i < |r| - |s| ==> r[i] == '0'
  {
  }

  /** Leading zeros do not change the number a digit string denotes. */
  lemma {:induction false} ParseLeadingZeros(k: nat, s: string)
    requires AllDigits(s)
    ensures AllDigits(Repeat('0', k) + s)
    ensures ParseDigits(Repeat('0', k) + s) == ParseDigits(s)
    decreases |s|
  {
    var z := Repeat('0', k);
    if s == [] {
      assert z + s == z;
      ZerosParse(k);
    } else {
      var t := z + s;
      assert t[..|t| - 1] == z + s[..|s| - 1];
      ParseLeadingZeros(k, s[..|s| - 1]);
    }
  }

  lemma {:induction false} ZerosParse(k: nat)
    ensures ParseDigits(Repeat('0', k)) == 0
    decreases k
  {
    if k > 0 {
      var z := Repeat('0', k);
      assert z[..k - 1] == Repeat('0', k - 1);
      ZerosParse(k - 1);
    }
  }

  /** A padded non-negative number reads back as the number. */
  lemma ZeroPadParse(n: nat, length: int)
    ensures AllDigits(ZeroPad(n, length))
    ensures ParseDigits(ZeroPad(n, length)) == n
  {
    var s := NatString(n);
    ParseNatString(n);
    if |s| < length {
      ParseLeadingZeros(length - |s|, s);
    }
  }

  /** On a number below 100, `zeroPad` always gives exactly two digits,
      tens then units, that read back as the number: a single digit gains
      one leading zero, a two-digit number comes back unchanged. */
  lemma TwoDigits(n: nat)
    requires n < 100
    ensures ZeroPad(n) == [DigitChar(n / 10), DigitChar(n % 10)]
    ensures AllDigits(ZeroPad(n)) && ParseDigits(ZeroPad(n)) == n
    ensures n >= 10 ==> ZeroPad(n) == NatString(n)
  {
    if n >= 10 {
      TwoDigitString(n);
    } else {
      OneDigitPadded(n);
    }
    ParseTwo(DigitChar(n / 10), DigitChar(n % 10));
  }

  /** A number of two digits is written tens then units. */
  lemma TwoDigitString(n: nat)
    requires 10 <= n < 100
    ensures NatString(n) == [DigitChar(n / 10), DigitChar(n % 10)]
  {
    assert NatString(n) == NatString(n / 10) + [DigitChar(n % 10)];
  }

  /** A single digit is padded with one zero. */
  lemma OneDigitPadded(n: nat)
    requires n < 10
    ensures ZeroPad(n) == ['0', DigitChar(n)]
  {
    assert DecimalString(n) == [DigitChar(n)];
    assert PadStart([DigitChar(n)], 2, '0') == Repeat('0', 1) + [DigitChar(n)];
  }

  /** A two-digit string denotes tens times ten plus units. */
  lemma ParseTwo(x: char, y: char)
    requires IsDigit(x) && IsDigit(y)
    ensures AllDigits([x, y])
    ensures ParseDigits([x, y]) == (x as int - '0' as int) * 10 + (y as int - '0' as int)
  {
    assert [x, y][..1] == [x];
    assert [x][..0] == [];
    assert ParseDigits([x]) == x as int - '0' as int;
  }

  /** What `getFullYear`, `getMonth` (zero-based), `getDate`, `getHours`,
      `getMinutes` and `getSeconds` read off a `Date` in local time. */
  datatype DateFields = DateFields(year: int, month: int, day: int, hours: int, minutes: int, seconds: int)

  /** The ranges the `Date` getters return. */
  predicate ValidFields(d: DateFields)
  {
    && 0 <= d.month < 12
    && 1 <= d.day <= 31
    && 0 <= d.hours < 24
    && 0 <= d.minutes < 60
    && 0 <= d.seconds < 60
  }

  /** `getMonthOneBased(date)`: January is 1. */
  function MonthOneBased(d: DateFields): (r: int)
    ensures ValidFields(d) ==> 1 <= r <= 12
    ensures r - 1 == d.month
  {
    d.month + 1
  }

  /** `a` and `b` padded to two digits, joined by `sep`. */
  function Pair(a: int, sep: char, b: int): string
  {
    ZeroPad(a) + [sep] + ZeroPad(b)
  }

  /** `getDefaultMessage(date, stepUnit)`. */
  function DefaultMessage(d: DateFields, stepUnit: TimeUnit): string
  {
    match stepUnit
    case Year => DecimalString(d.year)
    case Month => DecimalString(d.year) + "-" + ZeroPad(MonthOneBased(d))
    case Day => Pair(MonthOneBased(d), '-', d.day)
    case Second => Pair(d.minutes, ':', d.seconds)
    case Hour => Pair(d.hours, ':', d.minutes)
    case Minute => Pair(d.hours, ':', d.minutes)
  }

  /** `getDefaultMessage` per unit, with `getMonthOneBased` written out. */
  lemma DefaultMessageCases(d: DateFields)
    ensures DefaultMessage(d, Year) == DecimalString(d.year)
    ensures DefaultMessage(d, Month) == DecimalString(d.year) + "-" + ZeroPad(d.month + 1)
    ensures DefaultMessage(d, Day) == Pair(d.month + 1, '-', d.day)
    ensures DefaultMessage(d, Second) == Pair(d.minutes, ':', d.seconds)
    ensures DefaultMessage(d, Hour) == Pair(d.hours, ':', d.minutes)
    ensures DefaultMessage(d, Minute) == Pair(d.hours, ':', d.minutes)
  {
  }

  /** Two two-digit fields joined by `sep` read back field by field. */
  lemma PairParse(a: nat, sep: char, b: nat)
    requires a < 100 && b < 100
    ensures var r := Pair(a, sep, b);
      && |r| == 5 && r[2] == sep
      && AllDigits(r[..2]) && ParseDigits(r[..2]) == a
      && AllDigits(r[3..]) && ParseDigits(r[3..]) == b
  {
    TwoDigits(a);
    TwoDigits(b);
    JoinAt(ZeroPad(a), sep, ZeroPad(b));
  }

  /** `hour` and `minute` both label a date `HH:MM`; each field reads
      back from its two digits. */
  lemma HourMinuteMessage(d: DateFields, unit: TimeUnit)
    requires ValidFields(d)
    requires unit == Hour || unit == Minute
    ensures var r := DefaultMessage(d, unit);
      && |r| == 5 && r[2] == ':'
      && AllDigits(r[..2]) && ParseDigits(r[..2]) == d.hours
      && AllDigits(r[3..]) && ParseDigits(r[3..]) == d.minutes
  {
    DefaultMessageCases(d);
    PairParse(d.hours, ':', d.minutes);
  }

  /** `second` labels a date `MM:SS`. */
  lemma SecondMessage(d: DateFields)
    requires ValidFields(d)
    ensures var r := DefaultMessage(d, Second);
      && |r| == 5 && r[2] == ':'
      && AllDigits(r[..2]) && ParseDigits(r[..2]) == d.minutes
      && AllDigits(r[3..]) && ParseDigits(r[3..]) == d.seconds
  {
    DefaultMessageCases(d);
    PairParse(d.minutes, ':', d.seconds);
  }

  /** `day` labels a date `MM-DD`, with a one-based month. */
  lemma DayMessage(d: DateFields)
    requires ValidFields(d)
    ensures var r := DefaultMessage(d, Day);
      && |r| == 5 && r[2] == '-'
      && AllDigits(r[..2]) && ParseDigits(r[..2]) == d.month + 1
      && AllDigits(r[3..]) && ParseDigits(r[3..]) == d.day
  {
    DefaultMessageCases(d);
    PairParse(d.month + 1, '-', d.day);
  }

  /** `month` labels a date `YYYY-MM`: the year as `String` gives it, a
      dash, then the tens and units digits of the one-based month. */
  lemma MonthMessage(d: DateFields)
    requires ValidFields(d)
    ensures DefaultMessage(d, Month) ==
      DecimalString(d.year) + "-" + [DigitChar((d.month + 1) / 10), DigitChar((d.month + 1) % 10)]
    ensures ParseDigits([DigitChar((d.month + 1) / 10), DigitChar((d.month + 1) % 10)]) == d.month + 1
  {
    DefaultMessageCases(d);
    TwoDigits(d.month + 1);
  }

  lemma JoinAt(x: string, sep: char, y: string)
    requires |x| == 2
    ensures var r := x + [sep] + y;
      |r| == 3 + |y| && r[2] == sep && r[..2] == x && r[3..] == y
  {
    var r := x + [sep] + y;
    assert r[..2] == x;
    assert r[3..] == y;
  }

  /** `year` labels a date with its year alone, which reads back. */
  lemma YearMessage(d: DateFields)
    requires d.year >= 0
    ensures AllDigits(DefaultMessage(d, Year)) && ParseDigits(DefaultMessage(d, Year)) == d.year
  {
    DefaultMessageCases(d);
    ParseNatString(d.year);
  }
}
