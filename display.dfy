/**
 The pure parts of the dashboard's view: which servers the selector offers,
 which station logs the station filter lets through, and how an event's
 timestamp is shown as a local `HH:MM:SS` wall-clock time.
 */
module Display {
  import opened Data
  import opened Occupancy

  datatype Option<T> = None | Some(value: T)

  // ---------------------------------------------------------------------------
  // Server selector and station filter

  /** The servers the selector lists: the active ones, in their listed order. */
  function ActiveServers(servers: seq<Server>): (r: seq<Server>)
    ensures forall x :: x in r <==> x in servers && x.isActive
    ensures |r| <= |servers|
    decreases |servers|
  {
    if servers == [] then []
    else (if servers[0].isActive then [servers[0]] else []) + ActiveServers(servers[1..])
  }

  /**
   The selector's list of a concatenation is the concatenation of the lists:
   servers keep their listed order, and a repeated server is listed each time.
   */
  lemma {:induction false} ActiveServersAppend(s: seq<Server>, t: seq<Server>)
    ensures ActiveServers(s + t) == ActiveServers(s) + ActiveServers(t)
    decreases |s|
  {
    if s != [] {
      assert (s + t)[1..] == s[1..] + t;
      ActiveServersAppend(s[1..], t);
    } else {
      assert s + t == t;
    }
  }

  /** A single server is listed once if it is active, and not at all otherwise. */
  lemma ActiveServersOne(x: Server)
    ensures ActiveServers([x]) == if x.isActive then [x] else []
  {
    assert [x][1..] == [];
  }

  /** Whether the filter text lets a station through. */
  predicate Shown(filter: string, prefix: string)
  {
    filter == [] || filter == prefix
  }

  /** The station logs the view renders, each with its whole log. */
  function VisibleLogs(filter: string, logs: Logs): (r: Logs)
    ensures forall k :: k in r <==> k in logs && (filter == [] || filter == k)
    ensures forall k :: k in r ==> r[k] == logs[k]
  {
    map k | k in logs && Shown(filter, k) :: logs[k]
  }

  /** An empty filter shows every station; any other filter shows at most one. */
  lemma VisibleLogsCount(filter: string, logs: Logs)
    ensures filter == [] ==> VisibleLogs(filter, logs) == logs
    ensures filter != [] ==> VisibleLogs(filter, logs).Keys <= {filter}
    ensures filter != [] ==> |VisibleLogs(filter, logs)| == (if filter in logs then 1 else 0)
  {
    var r := VisibleLogs(filter, logs);
    if filter != [] {
      if filter in logs {
        assert r.Keys == {filter};
      } else {
        assert r.Keys == {};
      }
    }
  }

  // ---------------------------------------------------------------------------
  // Integer arithmetic as the source's signed 64-bit operators do it

  /** Signed remainder that truncates toward zero (the sign follows the dividend). */
  function TruncRem(a: int, b: int): (r: int)
    requires b > 0
    ensures -b < r < b
    ensures a >= 0 ==> r >= 0
    ensures a < 0 ==> r <= 0
  {
    if a >= 0 then a % b else -((-a) % b)
  }

  /** What the truncating remainder leaves of the dividend is a multiple of the divisor. */
  lemma TruncRemLeavesMultiple(a: int, b: int)
    requires b > 0
    ensures (a - TruncRem(a, b)) % b == 0
  {
    if a >= 0 {
      MultipleModIsZero(a / b, b);
      assert a - a % b == (a / b) * b;
    } else {
      MultipleModIsZero(-((-a) / b), b);
      assert a + (-a) % b == -((-a) / b) * b;
    }
  }

  lemma MultipleModIsZero(q: int, b: int)
    requires b > 0
    ensures (q * b) % b == 0
  {
    var r := (q * b) % b;
    var p := (q * b) / b;
    assert (q - p) * b == r by {
      assert q * b == p * b + r;
      assert (q - p) * b == q * b - p * b;
    }
    if q - p >= 1 {
      ProductAtLeast(q - p, b);
    } else if q - p <= -1 {
      ProductAtLeast(p - q, b);
      assert (p - q) * b == -((q - p) * b);
    }
  }

  lemma {:induction false} ProductAtLeast(k: int, b: int)
    requires k >= 1 && b > 0
    ensures k * b >= b
    decreases k
  {
    if k > 1 {
      ProductAtLeast(k - 1, b);
      assert k * b == (k - 1) * b + b;
    }
  }

  /** Signed division that truncates toward zero. */
  function TruncDiv(a: int, b: int): (q: int)
    requires b > 0
    ensures q * b + TruncRem(a, b) == a
  {
    if a >= 0 then a / b else -((-a) / b)
  }

  // ---------------------------------------------------------------------------
  // Wall-clock time of an event

  datatype Clock = Clock(h: int, m: int, s: int)

  /**
   Seconds since the epoch in local time: the browser's timezone offset is in
   minutes, positive west of UTC, and is subtracted.
   */
  function LocalSeconds(epochSecs: nat, tzOffsetMinutes: int): int
  {
    epochSecs - tzOffsetMinutes * 60
  }

  /** Hours, minutes and seconds split off local seconds, with truncating `%` and `/`. */
  function WallClock(d: int): Clock
  {
    var s := TruncRem(d, 60);
    var mRem := TruncDiv(d - s, 60);
    var m := TruncRem(mRem, 60);
    var hRem := TruncDiv(mRem - m, 60);
    Clock(TruncRem(hRem, 24), m, s)
  }

  lemma SplitNonNegative(a: int, b: int)
    requires a >= 0 && (b == 60 || b == 24)
    ensures TruncRem(a, b) == a % b
    ensures TruncDiv(a - a % b, b) == a / b
  {
    if b == 60 {
      assert a - a % 60 == 60 * (a / 60);
    } else {
      assert a - a % 24 == 24 * (a / 24);
    }
  }

  lemma ModOfSplit(d: int, q: int, r: int)
    requires d == 86400 * q + r && 0 <= r < 86400
    ensures d % 86400 == r
  {
  }

  /** From the epoch on, the clock is the time of day: in range and summing to `d % 86400`. */
  lemma WallClockOfDay(d: int)
    requires d >= 0
    ensures var c := WallClock(d);
            0 <= c.h < 24 && 0 <= c.m < 60 && 0 <= c.s < 60 &&
            c.h * 3600 + c.m * 60 + c.s == d % 86400
  {
    var q1, s := d / 60, d % 60;
    SplitNonNegative(d, 60);
    var q2, m := q1 / 60, q1 % 60;
    SplitNonNegative(q1, 60);
    var q3, h := q2 / 24, q2 % 24;
    SplitNonNegative(q2, 24);
    assert WallClock(d) == Clock(h, m, s);
    ModOfSplit(d, q3, h * 3600 + m * 60 + s);
  }

  lemma TruncIsOdd(a: int, b: int)
    requires b > 0
    ensures TruncRem(-a, b) == -TruncRem(a, b)
    ensures TruncDiv(-a, b) == -TruncDiv(a, b)
  {
    if a == 0 {
    } else if a < 0 {
      assert -(-a) == a;
    }
  }

  /**
   Before the epoch every field is negated: the clock of `-d` is the clock of
   `d` with each of hours, minutes and seconds sign-flipped.
   */
  lemma {:induction false} WallClockIsOdd(d: int)
    ensures var c := WallClock(d);
            WallClock(-d) == Clock(-c.h, -c.m, -c.s)
  {
    var s, s' := TruncRem(d, 60), TruncRem(-d, 60);
    TruncIsOdd(d, 60);
    assert -d - s' == -(d - s);
    var mRem, mRem' := TruncDiv(d - s, 60), TruncDiv(-d - s', 60);
    TruncIsOdd(d - s, 60);
    var m, m' := TruncRem(mRem, 60), TruncRem(mRem', 60);
    TruncIsOdd(mRem, 60);
    assert mRem' - m' == -(mRem - m);
    var hRem, hRem' := TruncDiv(mRem - m, 60), TruncDiv(mRem' - m', 60);
    TruncIsOdd(mRem - m, 60);
    TruncIsOdd(hRem, 24);
    assert WallClock(d) == Clock(TruncRem(hRem, 24), m, s);
    assert WallClock(-d) == Clock(TruncRem(hRem', 24), m', s');
  }

  /** Local seconds before the epoch give non-positive fields that sum to `-((-d) % 86400)`. */
  lemma WallClockBeforeEpoch(d: int)
    requires d < 0
    ensures var c := WallClock(d);
            -24 < c.h <= 0 && -60 < c.m <= 0 && -60 < c.s <= 0 &&
            c.h * 3600 + c.m * 60 + c.s == -((-d) % 86400)
  {
    WallClockOfDay(-d);
    WallClockIsOdd(-d);
  }

  // ---------------------------------------------------------------------------
  // `{:02}` formatting

  function DigitChar(n: nat): char
    requires n < 10
  {
    ('0' as int + n) as char
  }

  /** Decimal digits of a natural number, most significant first. */
  function Decimal(n: nat): string
    decreases n
  {
    if n < 10 then [DigitChar(n)] else Decimal(n / 10) + [DigitChar(n % 10)]
  }

  /**
   An integer written with sign-aware zero padding to width two: a leading
   zero for 0..9, the minus sign counting toward the width.
   */
  function Pad2(n: int): string
  {
    if 0 <= n < 10 then "0" + Decimal(n)
    else if n >= 10 then Decimal(n)
    else "-" + Decimal(-n)
  }

  /** The text shown for an event: `HH:MM:SS`. */
  function Format(c: Clock): string
  {
    Pad2(c.h) + ":" + Pad2(c.m) + ":" + Pad2(c.s)
  }

  /** The time shown for an event recorded at `epochSecs` under the current offset. */
  function ShownTime(epochSecs: nat, tzOffsetMinutes: int): string
  {
    Format(WallClock(LocalSeconds(epochSecs, tzOffsetMinutes)))
  }

  predicate IsDigit(c: char)
  {
    '0' <= c <= '9'
  }

  /** The value of a two-digit field. */
  function TwoDigitValue(a: char, b: char): nat
    requires IsDigit(a) && IsDigit(b)
  {
    (a as int - '0' as int) * 10 + (b as int - '0' as int)
  }

  /** Reads back `HH:MM:SS`; anything else is refused. */
  function ParseClock(t: string): Option<Clock>
  {
    if |t| == 8 && t[2] == ':' && t[5] == ':' &&
       IsDigit(t[0]) && IsDigit(t[1]) && IsDigit(t[3]) && IsDigit(t[4]) && IsDigit(t[6]) && IsDigit(t[7])
    then Some(Clock(TwoDigitValue(t[0], t[1]), TwoDigitValue(t[3], t[4]), TwoDigitValue(t[6], t[7])))
    else None
  }

  lemma Pad2TwoDigits(n: int)
    requires 0 <= n < 100
    ensures Pad2(n) == [DigitChar(n / 10), DigitChar(n % 10)]
  {
    if n >= 10 {
      assert Decimal(n / 10) == [DigitChar(n / 10)];
    }
  }

  /**
   A clock with fields in range prints as eight characters `HH:MM:SS` that read
   back as the same clock.
   */
  lemma FormatRoundTrip(c: Clock)
    requires 0 <= c.h < 100 && 0 <= c.m < 100 && 0 <= c.s < 100
    ensures |Format(c)| == 8
    ensures ParseClock(Format(c)) == Some(c)
  {
    Pad2TwoDigits(c.h);
    Pad2TwoDigits(c.m);
    Pad2TwoDigits(c.s);
    var t := Format(c);
    assert t == [DigitChar(c.h / 10), DigitChar(c.h % 10), ':',
                 DigitChar(c.m / 10), DigitChar(c.m % 10), ':',
                 DigitChar(c.s / 10), DigitChar(c.s % 10)];
  }

  /**
   For an instant whose local time is not before the epoch, the shown text is
   `HH:MM:SS` and reads back as the time of day of the local seconds.
   */
  lemma ShownTimeOfDay(epochSecs: nat, tzOffsetMinutes: int)
    requires epochSecs >= tzOffsetMinutes * 60
    ensures |ShownTime(epochSecs, tzOffsetMinutes)| == 8
    ensures match ParseClock(ShownTime(epochSecs, tzOffsetMinutes))
            case None => false
            case Some(c) =>
              0 <= c.h < 24 && 0 <= c.m < 60 && 0 <= c.s < 60 &&
              c.h * 3600 + c.m * 60 + c.s == (epochSecs - tzOffsetMinutes * 60) % 86400
  {
    var d := LocalSeconds(epochSecs, tzOffsetMinutes);
    WallClockOfDay(d);
    FormatRoundTrip(WallClock(d));
  }
}
