/** Time zone adjustments and their intervals in a session description (sdp/fields.go,
    sdp/decoder.go). */
module TimeZones {
  import opened Wrappers
  import opened Division
  import opened Decimal
  import opened Text

  const NTP_DELTA: int := 2208988800
  const UINT64_LIMIT: int := 0x1_0000_0000_0000_0000
  const ZERO_TIME: int64 := -62135596800

  /** Durations in nanoseconds. */
  const SECOND: int := 1_000_000_000
  const MINUTE: int := 60_000_000_000
  const HOUR: int := 3_600_000_000_000
  const DAY: int := 86_400_000_000_000

  type int64 = x: int | INT64_MIN <= x <= INT64_MAX

  /** A whole-second instant, in seconds since 1970, and an offset in nanoseconds. */
  datatype TimeZone = TimeZone(start: int64, offset: int64)

  function Signed64(n: int): (r: int64)
    ensures INT64_MIN <= n <= INT64_MAX ==> r == n
  {
    var m := n % UINT64_LIMIT;
    if m > INT64_MAX then m - UINT64_LIMIT else m
  }

  /** Go's integer division drops the fraction. */
  function Quotient(n: int, d: int): int
    requires d > 0
  {
    if n >= 0 then n / d else -(-n / d)
  }

  function TimeToNTP(t: int64): (v: nat)
    ensures v <= UINT64_MAX
  {
    if t == ZERO_TIME then 0 else (t + NTP_DELTA) % UINT64_LIMIT
  }

  function NTPToTime(v: nat): int64 {
    if v == 0 then ZERO_TIME else Signed64(v - NTP_DELTA)
  }

  /** Section 5.11 of RFC 4566: seconds since 1900 instead of 1970, and the zero time as 0. */
  lemma NTPIs(t: int64, v: nat)
    requires v <= UINT64_MAX
    ensures TimeToNTP(t) == if t == -62135596800 then 0
                            else if t + 2208988800 < 0 then t + 2208988800 + 0x1_0000_0000_0000_0000
                            else t + 2208988800
    ensures v == 0 ==> NTPToTime(v) == -62135596800
    ensures v > 0 ==> NTPToTime(v) == v - 2208988800
                      || NTPToTime(v) == v - 2208988800 - 0x1_0000_0000_0000_0000
  {
    var n: int := t + NTP_DELTA;
    if n < 0 {
      assert n % UINT64_LIMIT == n + UINT64_LIMIT;
    }
    var m := v - NTP_DELTA;
    assert m % UINT64_LIMIT == if m < 0 then m + UINT64_LIMIT else m;
  }

  /** The shift modulo 2^64 is undone for every time but the start of 1900, whose number is taken
      for the zero time. */
  lemma NTPRoundTrip(t: int64)
    ensures NTPToTime(TimeToNTP(t)) == if t == -NTP_DELTA then ZERO_TIME else t
  {
    var n := t + NTP_DELTA;
    if t != ZERO_TIME && n < 0 {
      assert n % UINT64_LIMIT == n + UINT64_LIMIT;
      assert (n + UINT64_LIMIT - NTP_DELTA) % UINT64_LIMIT == t + UINT64_LIMIT;
    }
  }

  // ----- numbers -----

  lemma {:induction false} DigitsAreFew(n: nat, k: nat)
    requires n < Pow10(k) && k > 0
    ensures |Digits(n)| <= k
  {
    if n >= 10 {
      DigitsAreFew(n / 10, k - 1);
    }
  }

  function Pow10(k: nat): nat {
    if k == 0 then 1 else 10 * Pow10(k - 1)
  }

  lemma Pow10Of19()
    ensures Pow10(19) == 10_000_000_000_000_000_000
  {
    assert Pow10(5) == 100_000;
    assert Pow10(10) == 10_000_000_000;
    assert Pow10(15) == 1_000_000_000_000_000;
  }

  /** The digits go backwards into a scratch array of twenty characters, which always suffices. */
  method AppendUint(dst: string, n0: nat) returns (r: string)
    requires n0 <= INT64_MAX
    ensures r == dst + Digits(n0)
  {
    var b := new char[20];
    var i, n := b.Length, n0;
    ghost var size := |Digits(n0)|;
    assert size <= 19 by {
      Pow10Of19();
      DigitsAreFew(n0, 19);
    }
    while n >= 10
      invariant 0 <= i <= 20 && i == 20 - size + |Digits(n)|
      invariant Digits(n0) == Digits(n) + b[i..]
    {
      i := i - 1;
      var q := n / 10;
      b[i] := '0' + (n - q * 10) as char;
      n := q;
    }
    i := i - 1;
    b[i] := '0' + n as char;
    r := dst + b[i..];
  }

  method AppendInt(v: string, i: int64) returns (r: string)
    ensures r == v + Itoa(i)
  {
    if i == 0 {
      return v + "0";
    }
    if i > 0 {
      r := AppendUint(v, i);
      return;
    }
    r := v + Itoa(i);
  }

  // ----- intervals -----

  /** The integer seconds of an interval, which the source computes in floating point. */
  type Clock = int64 -> int

  /** Whole seconds are exact; any other interval loses its fraction, unless it is within a microsecond
      of a whole second and may be rounded to that. */
  ghost predicate Rounds(seconds: Clock) {
    forall d: int64 ::
      seconds(d) == Quotient(d, SECOND) || (d % SECOND != 0 && -1000 <= seconds(d) * SECOND - d <= 1000)
  }

  lemma DroppingRounds()
    ensures Rounds((d: int64) => Quotient(d, SECOND))
  {
  }

  lemma SecondsFit(d: int64, seconds: Clock)
    requires Rounds(seconds)
    ensures INT64_MIN <= seconds(d) <= INT64_MAX && INT64_MIN <= seconds(d) * SECOND <= INT64_MAX
    ensures d % SECOND == 0 <==> seconds(d) * SECOND == d
  {
    hide Quotient;
    QuotientFits(d, SECOND);
    if seconds(d) * SECOND == d {
      DivisionIs(d, SECOND, seconds(d), 0);
    }
  }

  /** The largest unit that divides the interval, and else its seconds. */
  function PrintInterval(d: int64, seconds: Clock): string {
    if d == 0 then "0"
    else if d % DAY == 0 then Itoa(Quotient(d, DAY)) + "d"
    else if d % HOUR == 0 then Itoa(Quotient(d, HOUR)) + "h"
    else if d % MINUTE == 0 then Itoa(Quotient(d, MINUTE)) + "m"
    else Itoa(seconds(d))
  }

  /** The value in the largest unit that divides it, with the letter of the unit. */
  lemma IntervalPrintsAs(d: int64, seconds: Clock)
    ensures PrintInterval(d, seconds)
            == if d == 0 then "0"
               else if d % 86_400_000_000_000 == 0 then Itoa(d / 86_400_000_000_000) + "d"
               else if d % 3_600_000_000_000 == 0 then Itoa(d / 3_600_000_000_000) + "h"
               else if d % 60_000_000_000 == 0 then Itoa(d / 60_000_000_000) + "m"
               else Itoa(seconds(d))
  {
    hide Itoa, Quotient;
    ExactQuotient(d, DAY);
    ExactQuotient(d, HOUR);
    ExactQuotient(d, MINUTE);
  }

  lemma ExactQuotient(n: int64, d: int)
    requires d > 1
    ensures n % d == 0 ==> Quotient(n, d) == n / d
  {
    hide Quotient;
    QuotientFits(n, d);
    if n % d == 0 {
      DivisionIs(n, d, Quotient(n, d), 0);
    }
  }

  datatype Unit = Unit(d: int, r: char)

  const DURATION_UNITS: seq<Unit> := [Unit(DAY, 'd'), Unit(HOUR, 'h'), Unit(MINUTE, 'm')]

  method AppendIntervalCompact(b: string, d: int64, seconds: Clock) returns (r: string)
    requires Rounds(seconds)
    ensures r == b + PrintInterval(d, seconds)
  {
    hide Quotient, Itoa;
    if d == 0 {
      return b + "0";
    }
    for k := 0 to 3
      invariant forall j :: 0 <= j < k ==> d % DURATION_UNITS[j].d != 0
    {
      var unit := DURATION_UNITS[k];
      if d % unit.d == 0 {
        QuotientFits(d, unit.d);
        assert DURATION_UNITS[0].d == DAY && DURATION_UNITS[1].d == HOUR;
        r := AppendInt(b, Quotient(d, unit.d));
        r := r + [unit.r];
        assert b + Itoa(Quotient(d, unit.d)) + [unit.r] == b + (Itoa(Quotient(d, unit.d)) + [unit.r]);
        return;
      }
    }
    assert DURATION_UNITS[0].d == DAY && DURATION_UNITS[1].d == HOUR && DURATION_UNITS[2].d == MINUTE;
    SecondsFit(d, seconds);
    r := AppendInt(b, seconds(d));
  }

  lemma DivisionFacts(m: nat, d: int)
    requires d > 0
    ensures 0 <= m / d <= m && d * (m / d) <= m && (m % d == 0 <==> d * (m / d) == m)
  {
    Euclid(m, d);
    var q := m / d;
    QuotientSign(d, q, m % d);
    Product(d - 1, q);
    assert (d - 1) * q == d * q - q;
  }

  lemma OppositeRest(n: int, d: int)
    requires d > 0 && n % d == 0
    ensures (-n) % d == 0
  {
    assert -n == d * (-(n / d));
    DivisionIs(-n, d, -(n / d), 0);
  }

  lemma QuotientFits(n: int64, d: int)
    requires d > 1
    ensures INT64_MIN <= Quotient(n, d) <= INT64_MAX && INT64_MIN <= d * Quotient(n, d) <= INT64_MAX
    ensures n % d == 0 <==> d * Quotient(n, d) == n
  {
    var m: int := n;
    if m >= 0 {
      DivisionFacts(m, d);
    } else {
      DivisionFacts(-m, d);
      assert d * (-(-m / d)) == -(d * (-m / d));
      if m % d == 0 {
        OppositeRest(m, d);
      } else if (-m) % d == 0 {
        OppositeRest(-m, d);
      }
    }
  }

  lemma SmallerUnit(d: int, unit: int, s: int, k: int)
    requires s > 0 && k > 0 && unit == s * k && d % unit == 0
    ensures d % s == 0
  {
    assert d == unit * (d / unit);
    assert s * k * (d / unit) == s * (k * (d / unit));
    DivisionIs(d, s, k * (d / unit), 0);
  }

  datatype DecodeFailure = UnevenFields | BadStart | UnitWithoutValue | BadNumber | Crash

  function UnitOf(c: char): int {
    if c == 'd' then DAY else if c == 'h' then HOUR else if c == 'm' then MINUTE else SECOND
  }

  predicate NamesUnit(c: char) {
    c == 'd' || c == 'h' || c == 'm' || c == 's'
  }

  /** Reading an interval. The source looks at the last character of an empty one and crashes. */
  function ParseInterval(b: string): Result<int64, DecodeFailure> {
    if b == "0" then Success(0)
    else if b == "" then Failure(Crash)
    else
      var last := b[|b| - 1];
      if NamesUnit(last) && |b| < 2 then Failure(UnitWithoutValue)
      else
        match Atoi(if NamesUnit(last) then b[..|b| - 1] else b)
        case Failure(_) => Failure(BadNumber)
        case Success(val) => Success(Signed64(val * UnitOf(last)))
  }

  /** How an interval is read: a number and the letter of its unit, or seconds. What does not fit in 64
      bits is wrapped around. */
  lemma IntervalReadsAs(s: string, c: char)
    ensures ParseInterval("") == Failure(Crash) && ParseInterval("0") == Success(0)
    ensures s == "" && c in "dhms" ==> ParseInterval(s + [c]) == Failure(UnitWithoutValue)
    ensures s + [c] != "0" && (s != "" || c !in "dhms") ==>
              var unit := if c == 'd' then 86_400_000_000_000 else if c == 'h' then 3_600_000_000_000
                          else if c == 'm' then 60_000_000_000 else 1_000_000_000;
              ParseInterval(s + [c])
              == match Atoi(if c in "dhms" then s else s + [c])
                 case Failure(_) => Failure(BadNumber)
                 case Success(n) => Success(Signed64(n * unit))
  {
    hide Atoi, Signed64;
    var b := s + [c];
    assert b[..|b| - 1] == s;
    assert NamesUnit(c) <==> c in "dhms";
  }

  lemma WrapsAround(n: int)
    ensures (n - Signed64(n)) % 0x1_0000_0000_0000_0000 == 0
  {
    Euclid(n, UINT64_LIMIT);
    var q := n / UINT64_LIMIT;
    if n % UINT64_LIMIT > INT64_MAX {
      DivisionIs(n - Signed64(n), UINT64_LIMIT, q + 1, 0);
    } else {
      DivisionIs(n - Signed64(n), UINT64_LIMIT, q, 0);
    }
  }

  lemma ParseWithUnit(n: int64, c: char)
    requires NamesUnit(c) && INT64_MIN <= n * UnitOf(c) <= INT64_MAX
    ensures ParseInterval(Itoa(n) + [c]) == Success(n * UnitOf(c))
  {
    hide Itoa, Atoi, Signed64;
    var b := Itoa(n) + [c];
    assert b[..|b| - 1] == Itoa(n);
    AtoiOfItoa(n);
    assert Signed64(n * UnitOf(c)) == n * UnitOf(c);
  }

  lemma ItoaEndsInDigit(n: int)
    ensures IsDigit(Itoa(n)[|Itoa(n)| - 1])
    ensures n != 0 ==> Itoa(n) != "0"
    ensures Itoa(0) == "0"
  {
    if n > 0 {
      NumberOfDigits(n);
      NumberOfDigits(0);
    }
  }

  lemma ParseSeconds(n: int64)
    requires INT64_MIN <= n * SECOND <= INT64_MAX
    ensures ParseInterval(Itoa(n)) == Success(n * SECOND)
  {
    hide Itoa, Atoi, Signed64;
    ItoaEndsInDigit(n);
    AtoiOfItoa(n);
    assert Signed64(n * SECOND) == n * SECOND;
  }

  /** A printed interval reads back as the seconds it was rounded to. */
  lemma IntervalRoundTrip(d: int64, seconds: Clock)
    requires Rounds(seconds)
    ensures ParseInterval(PrintInterval(d, seconds)) == Success(seconds(d) * SECOND)
  {
    hide Itoa, ParseInterval, Quotient;
    WholeSeconds(d);
    QuotientFits(d, DAY);
    QuotientFits(d, HOUR);
    QuotientFits(d, MINUTE);
    QuotientFits(d, SECOND);
    if d == 0 {
      ItoaEndsInDigit(0);
      ParseSeconds(0);
    } else if d % DAY == 0 {
      ParseWithUnit(Quotient(d, DAY), 'd');
    } else if d % HOUR == 0 {
      ParseWithUnit(Quotient(d, HOUR), 'h');
    } else if d % MINUTE == 0 {
      ParseWithUnit(Quotient(d, MINUTE), 'm');
    } else {
      SecondsFit(d, seconds);
      ParseSeconds(seconds(d));
    }
  }

  lemma WholeSeconds(d: int64)
    ensures d % DAY == 0 || d % HOUR == 0 || d % MINUTE == 0 ==> d % SECOND == 0
    ensures Quotient(0, SECOND) == 0
  {
    if d % DAY == 0 {
      SmallerUnit(d, DAY, SECOND, 86_400);
    }
    if d % HOUR == 0 {
      SmallerUnit(d, HOUR, SECOND, 3_600);
    }
    if d % MINUTE == 0 {
      SmallerUnit(d, MINUTE, SECOND, 60);
    }
  }

  // ----- the list -----

  function Fields(zones: seq<TimeZone>, seconds: Clock): (fields: seq<string>)
    ensures |fields| == 2 * |zones|
  {
    if zones == [] then []
    else [Digits(TimeToNTP(zones[0].start)), PrintInterval(zones[0].offset, seconds)] + Fields(zones[1..], seconds)
  }

  /** The value of the line that is added. */
  function PrintZones(zones: seq<TimeZone>, seconds: Clock): string {
    Join(Fields(zones, seconds), SPACE)
  }

  method AppendZone(v: string, z: TimeZone, seconds: Clock) returns (r: string)
    requires Rounds(seconds)
    ensures r == v + Digits(TimeToNTP(z.start)) + [SPACE] + PrintInterval(z.offset, seconds)
  {
    hide PrintInterval, TimeToNTP, Digits;
    r := v + Digits(TimeToNTP(z.start));
    r := r + [SPACE];
    r := AppendIntervalCompact(r, z.offset, seconds);
  }

  method AddTimeZones(zones: seq<TimeZone>, seconds: Clock) returns (v: string)
    requires Rounds(seconds)
    ensures v == PrintZones(zones, seconds)
  {
    hide PrintZones, PrintInterval, TimeToNTP, Digits;
    v := "";
    NoZones(seconds);
    for i := 0 to |zones|
      invariant v == PrintZones(zones[..i], seconds) + if 0 < i < |zones| then [SPACE] else ""
    {
      v := AppendZone(v, zones[i], seconds);
      PrintMore(zones[..i], zones[i], seconds);
      assert zones[..i + 1] == zones[..i] + [zones[i]];
      if i != |zones| - 1 {
        v := v + [SPACE];
      }
    }
    assert zones[..|zones|] == zones;
  }

  lemma JoinOne(s: string)
    ensures Join([s], SPACE) == s
  {
  }

  lemma NoZones(seconds: Clock)
    ensures Fields([], seconds) == [] && PrintZones([], seconds) == ""
  {
  }

  lemma {:induction false} FieldsMore(zones: seq<TimeZone>, z: TimeZone, seconds: Clock)
    ensures Fields(zones + [z], seconds)
            == Fields(zones, seconds) + [Digits(TimeToNTP(z.start)), PrintInterval(z.offset, seconds)]
  {
    hide PrintInterval, TimeToNTP, Digits;
    if zones == [] {
      assert zones + [z] == [z];
      assert Fields([z][1..], seconds) == [];
    } else {
      assert (zones + [z])[1..] == zones[1..] + [z];
      FieldsMore(zones[1..], z, seconds);
    }
  }

  lemma PrintMore(zones: seq<TimeZone>, z: TimeZone, seconds: Clock)
    ensures PrintZones(zones + [z], seconds)
            == PrintZones(zones, seconds) + (if zones == [] then "" else [SPACE])
               + Digits(TimeToNTP(z.start)) + [SPACE] + PrintInterval(z.offset, seconds)
  {
    hide PrintInterval, TimeToNTP, Digits, Fields, Join;
    var start, interval := Digits(TimeToNTP(z.start)), PrintInterval(z.offset, seconds);
    FieldsMore(zones, z, seconds);
    if zones == [] {
      NoZones(seconds);
      assert Fields(zones + [z], seconds) == [start] + [interval];
      JoinMore([start], SPACE, interval);
      JoinOne(start);
    } else {
      assert Fields(zones, seconds) != [];
      JoinMore(Fields(zones, seconds), SPACE, start);
      JoinMore(Fields(zones, seconds) + [start], SPACE, interval);
      assert Fields(zones, seconds) + [start] + [interval] == Fields(zones, seconds) + [start, interval];
    }
  }

  /** What decoding appends: the pairs of fields before the first that is refused, and the failure. */
  function ParseFields(p: seq<string>): (seq<TimeZone>, Option<DecodeFailure>)
    requires |p| % 2 == 0
  {
    if p == [] then ([], None)
    else match ParseUint(p[0])
         case Failure(_) => ([], Some(BadStart))
         case Success(t) =>
           match ParseInterval(p[1])
           case Failure(e) => ([], Some(e))
           case Success(d) =>
             var rest := ParseFields(p[2..]);
             ([TimeZone(NTPToTime(t), d)] + rest.0, rest.1)
  }

  /** Fields are read two by two; the first that is refused ends it. */
  lemma FieldsReadAs(a: string, b: string, rest: seq<string>)
    requires |rest| % 2 == 0
    ensures ParseFields([]) == ([], None)
    ensures ParseFields([a, b] + rest)
            == if ParseUint(a).Failure? then ([], Some(BadStart))
               else if ParseInterval(b).Failure? then ([], Some(ParseInterval(b).error))
               else
                 var z := TimeZone(NTPToTime(ParseUint(a).value), ParseInterval(b).value);
                 ([z] + ParseFields(rest).0, ParseFields(rest).1)
    ensures |[a, b] + rest| % 2 == 0
  {
    hide ParseUint, ParseInterval, NTPToTime;
    assert ([a, b] + rest)[2..] == rest;
  }

  lemma ZonesReadAs(v: string)
    ensures ParseZones(v) == if |Split(v, ' ')| % 2 == 1 then ([], Some(UnevenFields)) else ParseFields(Split(v, ' '))
  {
    hide Split, ParseFields;
  }

  function ParseZones(v: string): (seq<TimeZone>, Option<DecodeFailure>) {
    var p := Split(v, SPACE);
    if |p| % 2 != 0 then ([], Some(UnevenFields)) else ParseFields(p)
  }

  // ----- when decoding crashes -----

  lemma IntervalCrashesIff(b: string)
    ensures ParseInterval(b) == Failure(Crash) <==> b == ""
  {
    hide Atoi;
  }

  predicate PairParses(p: seq<string>, k: nat)
    requires 2 * k + 1 < |p|
  {
    ParseUint(p[2 * k]).Success? && ParseInterval(p[2 * k + 1]).Success?
  }

  /** The k-th pair is the first that does not parse: its start does, and its interval is empty. */
  predicate CrashesAt(p: seq<string>, k: nat) {
    2 * k + 1 < |p| && ParseUint(p[2 * k]).Success? && p[2 * k + 1] == ""
    && forall j: nat :: j < k ==> PairParses(p, j)
  }

  lemma {:induction false} FieldsCrashIff(p: seq<string>)
    requires |p| % 2 == 0
    ensures ParseFields(p).1 == Some(Crash) <==> exists k :: CrashesAt(p, k)
    decreases |p|
  {
    hide ParseUint, ParseInterval;
    if p != [] {
      IntervalCrashesIff(p[1]);
      if PairParses(p, 0) {
        FieldsCrashIff(p[2..]);
        if k :| CrashesAt(p[2..], k) {
          CrashLater(p, k);
        }
        if k :| CrashesAt(p, k) {
          assert k > 0;
          CrashEarlier(p, k);
        }
      } else {
        assert ParseUint(p[0]).Success? && p[1] == "" ==> CrashesAt(p, 0);
        assert forall k: nat :: CrashesAt(p, k) ==> k == 0;
      }
    }
  }

  lemma CrashLater(p: seq<string>, k: nat)
    requires |p| >= 2 && PairParses(p, 0) && CrashesAt(p[2..], k)
    ensures CrashesAt(p, k + 1)
  {
    hide ParseUint, ParseInterval;
    forall j: nat | j < k + 1
      ensures PairParses(p, j)
    {
      assert j > 0 ==> PairParses(p[2..], j - 1);
    }
  }

  lemma CrashEarlier(p: seq<string>, k: nat)
    requires |p| >= 2 && k > 0 && CrashesAt(p, k)
    ensures CrashesAt(p[2..], k - 1)
  {
    hide ParseUint, ParseInterval;
    forall j: nat | j < k - 1
      ensures PairParses(p[2..], j)
    {
      assert PairParses(p, j + 1);
    }
  }

  /** Decoding crashes if and only if the fields are even in number and some start that parses,
      behind pairs that all parse, is followed by an empty interval. */
  lemma ZonesCrashIff(v: string)
    ensures ParseZones(v).1 == Some(Crash)
            <==> |Split(v, SPACE)| % 2 == 0 && exists k :: CrashesAt(Split(v, SPACE), k)
  {
    hide Split, ParseFields, CrashesAt;
    if |Split(v, SPACE)| % 2 == 0 {
      FieldsCrashIff(Split(v, SPACE));
    }
  }

  /** Two spaces in a row are enough. */
  lemma DoubleSpaceCrashes()
    ensures ParseZones("0  1 2").1 == Some(Crash)
  {
    hide Split, ParseFields;
    var p := ["0", "", "1", "2"];
    assert "0  1 2" == "0" + [SPACE] + ("" + [SPACE] + ("1" + [SPACE] + "2"));
    SplitAt("0", SPACE, "" + [SPACE] + ("1" + [SPACE] + "2"));
    SplitAt("", SPACE, "1" + [SPACE] + "2");
    SplitAt("1", SPACE, "2");
    SplitWhole("2", SPACE);
    assert Split("0  1 2", SPACE) == p;
    assert AllDigits("0") && NumberOf("0"[..0]) == 0;
    assert CrashesAt(p, 0);
    ZonesCrashIff("0  1 2");
  }

  /** The part of a message that the line fills. */
  class Message {
    var tzAdjustments: seq<TimeZone>

    /** Adds to the adjustments that are there, those before an error included. */
    method DecodeTimeZoneAdjustments(v: string) returns (err: Option<DecodeFailure>)
      modifies this
      ensures (tzAdjustments, err) == (old(tzAdjustments) + ParseZones(v).0, ParseZones(v).1)
    {
      hide ParseUint, ParseInterval, Split, NTPToTime;
      var p := Split(v, SPACE);
      if |p| % 2 != 0 {
        assert tzAdjustments + [] == tzAdjustments;
        return Some(UnevenFields);
      }
      var i := 0;
      assert p[0..] == p;
      while i < |p|
        invariant 0 <= i <= |p| && i % 2 == 0
        invariant tzAdjustments + ParseFields(p[i..]).0 == old(tzAdjustments) + ParseFields(p).0
        invariant ParseFields(p[i..]).1 == ParseFields(p).1
      {
        ghost var q, before := p[i..], tzAdjustments;
        assert q[2..] == p[i + 2..];
        var t := ParseUint(p[i]);
        if t.Failure? {
          assert tzAdjustments + [] == tzAdjustments;
          return Some(BadStart);
        }
        var offset := ParseInterval(p[i + 1]);
        if offset.Failure? {
          assert tzAdjustments + [] == tzAdjustments;
          return Some(offset.error);
        }
        var adjustment := TimeZone(NTPToTime(t.value), offset.value);
        tzAdjustments := tzAdjustments + [adjustment];
        assert before + ([adjustment] + ParseFields(p[i + 2..]).0) == tzAdjustments + ParseFields(p[i + 2..]).0;
        i := i + 2;
      }
      assert tzAdjustments + [] == tzAdjustments;
      err := None;
    }
  }

  /** What a zone is after the round trip. */
  ghost function Canonical(z: TimeZone, seconds: Clock): TimeZone
    requires Rounds(seconds)
  {
    SecondsFit(z.offset, seconds);
    TimeZone(if z.start == -NTP_DELTA then ZERO_TIME else z.start, seconds(z.offset) * SECOND)
  }

  ghost function CanonicalAll(zones: seq<TimeZone>, seconds: Clock): (r: seq<TimeZone>)
    requires Rounds(seconds)
    ensures |r| == |zones| && forall i :: 0 <= i < |r| ==> r[i] == Canonical(zones[i], seconds)
  {
    seq(|zones|, i requires 0 <= i < |zones| => Canonical(zones[i], seconds))
  }

  predicate Representable(z: TimeZone) {
    z.start != -NTP_DELTA && z.offset % SECOND == 0
  }

  lemma {:induction false} ParseOfFields(zones: seq<TimeZone>, seconds: Clock)
    requires Rounds(seconds)
    ensures ParseFields(Fields(zones, seconds)) == (CanonicalAll(zones, seconds), None)
  {
    hide ParseUint, ParseInterval, PrintInterval, NTPToTime, TimeToNTP, Digits, Quotient, CanonicalAll, Rounds;
    CanonicalStep(zones, seconds);
    if zones != [] {
      var z := zones[0];
      ParseUintOfDigits(TimeToNTP(z.start));
      NTPRoundTrip(z.start);
      IntervalRoundTrip(z.offset, seconds);
      assert Fields(zones, seconds)[2..] == Fields(zones[1..], seconds);
      ParseOfFields(zones[1..], seconds);
    }
  }

  lemma CanonicalStep(zones: seq<TimeZone>, seconds: Clock)
    requires Rounds(seconds)
    ensures CanonicalAll(zones, seconds)
            == if zones == [] then [] else [Canonical(zones[0], seconds)] + CanonicalAll(zones[1..], seconds)
  {
    hide Canonical, Rounds;
  }

  lemma {:induction false} PrintedWithoutSpace(zones: seq<TimeZone>, seconds: Clock)
    ensures Free(Fields(zones, seconds), SPACE)
  {
    hide PrintInterval, TimeToNTP, Digits;
    if zones != [] {
      PrintedWithoutSpace(zones[1..], seconds);
      DigitsWithoutSpace(TimeToNTP(zones[0].start));
      IntervalWithoutSpace(zones[0].offset, seconds);
    }
  }

  lemma DigitsWithoutSpace(n: nat)
    ensures SPACE !in Digits(n)
  {
    hide Digits;
    assert AllDigits(Digits(n));
  }

  lemma IntervalWithoutSpace(d: int64, seconds: Clock)
    ensures SPACE !in PrintInterval(d, seconds)
  {
    hide Digits;
    ghost var n := if d % DAY == 0 then Quotient(d, DAY) else if d % HOUR == 0 then Quotient(d, HOUR)
                   else if d % MINUTE == 0 then Quotient(d, MINUTE) else seconds(d);
    DigitsWithoutSpace(if n < 0 then -n else n);
  }

  /** Decoding the printed value of any non-empty list gives the list of its canonical zones. */
  lemma ZonesRoundTrip(zones: seq<TimeZone>, seconds: Clock)
    requires Rounds(seconds)
    requires zones != []
    ensures ParseZones(PrintZones(zones, seconds)) == (CanonicalAll(zones, seconds), None)
  {
    hide Split, Join, Fields, ParseFields;
    PrintedWithoutSpace(zones, seconds);
    SplitOfJoin(Fields(zones, seconds), SPACE);
    ParseOfFields(zones, seconds);
  }

  /** The list itself comes back exactly if it is not empty and every zone starts at another time
      than the start of 1900 and has an offset of whole seconds. */
  lemma ZonesUnchangedIff(zones: seq<TimeZone>, seconds: Clock)
    requires Rounds(seconds)
    ensures ParseZones(PrintZones(zones, seconds)) == (zones, None)
            <==> zones != [] && forall i :: 0 <= i < |zones| ==> Representable(zones[i])
  {
    hide ParseZones, PrintZones, Quotient;
    if zones == [] {
      EmptyIsRefused(seconds);
    } else {
      ZonesRoundTrip(zones, seconds);
      assert CanonicalAll(zones, seconds) == zones
             <==> forall i :: 0 <= i < |zones| ==> Canonical(zones[i], seconds) == zones[i];
      forall i | 0 <= i < |zones|
        ensures Canonical(zones[i], seconds) == zones[i] <==> Representable(zones[i])
      {
        SecondsFit(zones[i].offset, seconds);
      }
    }
  }

  lemma EmptyIsRefused(seconds: Clock)
    ensures ParseZones(PrintZones([], seconds)) == ([], Some(UnevenFields))
  {
    NoZones(seconds);
    SplitWhole("", SPACE);
  }
}
