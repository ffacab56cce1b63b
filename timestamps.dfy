/**
 * The start-of-video time the user types and the wall-clock stamps the logger
 * prints. Durations are whole seconds, as `datetime.timedelta` holds them here:
 * the parser only ever builds whole-second deltas, and the formatter reads
 * `int(td.total_seconds())`.
 */
module Timestamps {
  import opened Wrappers
  import opened Text

  /** Why a start time is refused; the app reports all three with one message. */
  datatype ParseError =
    | NotAnInteger(position: nat, field: string)   // int() raised ValueError on this field
    | WrongFieldCount(count: nat)   // neither SS, MM:SS nor HH:MM:SS
    | OutOfRange(seconds: int)      // timedelta raised OverflowError

  /** `timedelta` holds at most 999999999 days either way. */
  const MaxDays: int := 999999999

  predicate InTimedeltaRange(t: int) {
    -MaxDays <= t / 86400 <= MaxDays
  }

  /**
   * In seconds: from -999999999 days to one second before 1000000000 days, so
   * 86399999999999 is the largest total a `timedelta` holds.
   */
  lemma TimedeltaRangeInSeconds(t: int)
    ensures InTimedeltaRange(t) <==> -MaxDays * 86400 <= t <= MaxDays * 86400 + 86399
  {
    assert 86400 * (t / 86400) <= t < 86400 * (t / 86400) + 86400;
  }

  /** Fields read most significant first, sixty of each worth one of the one before. */
  function BaseSixty(vs: seq<int>): int
  {
    if |vs| == 0 then 0 else 60 * BaseSixty(vs[..|vs| - 1]) + vs[|vs| - 1]
  }

  /**
   * Gathers the values of a run of conversions, or reports the position of the
   * first one that failed.
   */
  function Collect<T>(opts: seq<Option<T>>): (r: Result<seq<T>, nat>)
    ensures r.Ok? ==> |r.value| == |opts| && forall i :: 0 <= i < |opts| ==> opts[i] == Some(r.value[i])
    ensures r.Err? ==> r.error < |opts| && opts[r.error].None?
                       && forall j :: 0 <= j < r.error ==> opts[j].Some?
  {
    if |opts| == 0 then Ok([])
    else
      match opts[0]
      case None => Err(0)
      case Some(v) =>
        match Collect(opts[1..])
        case Ok(vs) => Ok([v] + vs)
        case Err(k) => Err(k + 1)
  }

  /**
   * `[int(p) for p in parts]`: every field converted, or the first field that
   * is not an integer reported.
   */
  function ParseFields(parts: seq<string>): (r: Result<seq<int>, ParseError>)
    ensures r.Ok? <==> forall i :: 0 <= i < |parts| ==> ParseInt(parts[i]).Some?
    ensures r.Ok? ==> |r.value| == |parts|
    ensures r.Ok? ==> forall i :: 0 <= i < |parts| ==> ParseInt(parts[i]) == Some(r.value[i])
    ensures r.Err? ==> r.error.NotAnInteger? && r.error.position < |parts|
    ensures r.Err? ==> r.error.field == parts[r.error.position] && ParseInt(r.error.field).None?
    ensures r.Err? ==> forall j :: 0 <= j < r.error.position ==> ParseInt(parts[j]).Some?
  {
    var opts := seq(|parts|, i requires 0 <= i < |parts| => ParseInt(parts[i]));
    assert forall i :: 0 <= i < |parts| ==> opts[i] == ParseInt(parts[i]);
    match Collect(opts)
    case Ok(vs) => Ok(vs)
    case Err(k) => Err(NotAnInteger(k, parts[k]))
  }

  /** Building the `timedelta` raises OverflowError outside its range. */
  function CheckRange(t: int): (r: Result<int, ParseError>)
    ensures r.Ok? <==> InTimedeltaRange(t)
    ensures r.Ok? ==> r.value == t
    ensures r.Err? ==> r.error == OutOfRange(t)
  {
    if InTimedeltaRange(t) then Ok(t) else Err(OutOfRange(t))
  }

  /**
   * `parse_time_string`: `SS`, `MM:SS` or `HH:MM:SS`, each field whatever
   * `int()` accepts, so signs and leading zeros are fine and no field is
   * bounded by 60. The fields are converted before they are counted.
   */
  function ParseTimeString(s: string): (r: Result<int, ParseError>)
    ensures r.Ok? ==> InTimedeltaRange(r.value)
    ensures r.Err? && r.error.NotAnInteger? ==>
      r.error.field in Split(s, ':') && ParseInt(r.error.field).None?
    ensures r.Err? && r.error.WrongFieldCount? ==>
      r.error.count > 3 && r.error.count == |Split(s, ':')|
  {
    match ParseFields(Split(s, ':'))
    case Err(e) => Err(e)
    case Ok(parts) => FieldSeconds(parts)
  }

  /** The branch on the number of converted fields. */
  function FieldSeconds(parts: seq<int>): (r: Result<int, ParseError>)
    ensures r.Ok? ==> 1 <= |parts| <= 3 && InTimedeltaRange(r.value)
    ensures r.Err? && r.error.WrongFieldCount? ==> r.error.count == |parts| && !(1 <= |parts| <= 3)
    ensures r.Err? ==> r.error.WrongFieldCount? || (r.error.OutOfRange? && 1 <= |parts| <= 3)
  {
    if |parts| == 1 then
      CheckRange(parts[0])
    else if |parts| == 2 then
      CheckRange(60 * parts[0] + parts[1])
    else if |parts| == 3 then
      CheckRange(3600 * parts[0] + 60 * parts[1] + parts[2])
    else
      Err(WrongFieldCount(|parts|))
  }

  /**
   * The start time is the base-sixty reading of its fields. A field `int()`
   * refuses is reported first, then a count other than one to three, then a
   * total `timedelta` cannot hold.
   */
  lemma ParseTimeStringMeaning(s: string)
    ensures var fields := ParseFields(Split(s, ':'));
      && (fields.Err? ==> ParseTimeString(s) == Err(fields.error))
      && (fields.Ok? ==> 1 <= |fields.value|)
      && (fields.Ok? && |fields.value| > 3 ==> ParseTimeString(s) == Err(WrongFieldCount(|fields.value|)))
      && (fields.Ok? && |fields.value| <= 3 ==> ParseTimeString(s) == CheckRange(BaseSixty(fields.value)))
  {
    var fields := ParseFields(Split(s, ':'));
    if fields.Ok? {
      FieldSecondsMeaning(fields.value);
    }
  }

  /** One to three fields are read in base sixty; any other count is refused. */
  lemma FieldSecondsMeaning(vs: seq<int>)
    ensures 1 <= |vs| <= 3 ==> FieldSeconds(vs) == CheckRange(BaseSixty(vs))
    ensures |vs| > 3 ==> FieldSeconds(vs) == Err(WrongFieldCount(|vs|))
  {
    BaseSixtyOfFields(vs);
  }

  /** Seconds, minutes and seconds, or hours, minutes and seconds, read in base sixty. */
  lemma BaseSixtyOfFields(vs: seq<int>)
    ensures |vs| == 1 ==> BaseSixty(vs) == vs[0]
    ensures |vs| == 2 ==> BaseSixty(vs) == 60 * vs[0] + vs[1]
    ensures |vs| == 3 ==> BaseSixty(vs) == 3600 * vs[0] + 60 * vs[1] + vs[2]
  {
    if |vs| == 3 {
      assert vs[..2][..1] == vs[..1];
    }
  }

  // ---------------------------------------------------------------------------
  // Formatting
  // ---------------------------------------------------------------------------

  /**
   * `divmod(t, 3600)` then `divmod(remainder, 60)`. Python's divmod floors, as
   * Dafny's `/` and `%` do for a positive divisor, so minutes and seconds are
   * never negative and only the hours carry the sign.
   */
  function Clock(t: int): (hms: (int, int, int))
    ensures 0 <= hms.1 < 60 && 0 <= hms.2 < 60
    ensures 3600 * hms.0 + 60 * hms.1 + hms.2 == t
  {
    var remainder := t % 3600;
    (t / 3600, remainder / 60, remainder % 60)
  }

  /** The hours, minutes and seconds of a total are the only ones with minutes and seconds below 60. */
  lemma ClockUnique(t: int, h: int, m: int, s: int)
    requires 0 <= m < 60 && 0 <= s < 60
    requires 3600 * h + 60 * m + s == t
    ensures Clock(t) == (h, m, s)
  {
    assert 0 <= 60 * m + s < 3600;
  }

  /**
   * `f"{n:02}"`: at least two characters counting a minus sign, so a
   * non-negative number gets one leading zero when it has one digit.
   */
  function PadTwo(n: int): (r: string)
    ensures |r| >= 2
    ensures n >= 0 ==> |r| > 2 ==> r[0] != '0'
    ensures n >= 0 ==> forall i :: 0 <= i < |r| ==> IsDigit(r[i])
    ensures n < 0 ==> r[0] == '-' && r[1] != '0'
    ensures n < 0 ==> forall i :: 1 <= i < |r| ==> IsDigit(r[i])
  {
    if n < 0 then ['-'] + Decimal(-n)
    else if n < 10 then ['0'] + Decimal(n)
    else
      DecimalLength(n);
      Decimal(n)
  }

  /** `int()` reads back every number `f"{n:02}"` writes. */
  lemma PadTwoRoundTrip(n: int)
    ensures ParseInt(PadTwo(n)) == Some(n)
  {
    if n < 0 {
      assert ParseInt(PadTwo(n)) == Some(n) by {
        PadTwoCases(n);
        ParseIntOfNegative(n);
      }
    } else {
      assert ParseInt(PadTwo(n)) == Some(n) by {
        PadTwoCases(n);
        ParseIntOfDecimal(n);
      }
    }
  }

  /** What `f"{n:02}"` writes, case by case. */
  lemma PadTwoCases(n: int)
    ensures n < 0 ==> PadTwo(n) == ['-'] + Decimal(-n)
    ensures 0 <= n < 10 ==> PadTwo(n) == ['0'] + Decimal(n)
    ensures 10 <= n ==> PadTwo(n) == Decimal(n)
  {
  }

  /** `format_timestamp`: zero-padded `HH:MM:SS`, the hours never reduced modulo 24. */
  function FormatTimestamp(t: int): string
  {
    var (h, m, s) := Clock(t);
    PadTwo(h) + ":" + PadTwo(m) + ":" + PadTwo(s)
  }

  /**
   * A stamp has at least eight characters: digits and colons, after a minus
   * sign exactly when the total is negative.
   */
  lemma FormatTimestampShape(t: int)
    ensures var r := FormatTimestamp(t);
      && |r| >= 8 && r[0] != ':'
      && (forall i :: 0 < i < |r| ==> IsDigit(r[i]) || r[i] == ':')
      && (t >= 0 <==> IsDigit(r[0]))
      && (t < 0 ==> r[0] == '-')
  {
    var (h, m, s) := Clock(t);
    assert t < 0 <==> h < 0;
  }

  /**
   * The stamp of a total is the padded hours, minutes and seconds of any
   * decomposition with minutes and seconds below 60: the hours are the whole
   * hours of the total, 24 or more included.
   */
  lemma FormatTimestampFields(t: int, h: int, m: int, s: int)
    requires 0 <= m < 60 && 0 <= s < 60
    requires 3600 * h + 60 * m + s == t
    ensures FormatTimestamp(t) == PadTwo(h) + ":" + PadTwo(m) + ":" + PadTwo(s)
    ensures |PadTwo(m)| == 2 && |PadTwo(s)| == 2
  {
    ClockUnique(t, h, m, s);
    DecimalLength(m);
    DecimalLength(s);
  }

  /** The stamp of a total splits on `:` into its three padded fields. */
  lemma SplitFormatTimestamp(t: int)
    ensures var (h, m, s) := Clock(t);
      Split(FormatTimestamp(t), ':') == [PadTwo(h), PadTwo(m), PadTwo(s)]
  {
    var (h, m, s) := Clock(t);
    var a, b, c := PadTwo(h), PadTwo(m), PadTwo(s);
    assert ':' !in a && ':' !in b && ':' !in c by {
      assert forall i :: 0 <= i < |a| ==> a[i] == '-' || IsDigit(a[i]);
    }
    assert FormatTimestamp(t) == a + [':'] + (b + [':'] + c);
    SplitAtFirstSeparator(a, ':', b + [':'] + c);
    SplitAtFirstSeparator(b, ':', c);
    SplitNoSeparator(c, ':');
  }

  /** Parsing a formatted stamp gives back the total it was made from. */
  lemma FormatThenParse(t: int)
    requires InTimedeltaRange(t)
    ensures ParseTimeString(FormatTimestamp(t)) == Ok(t)
  {
    var (h, m, s) := Clock(t);
    var parts := Split(FormatTimestamp(t), ':');
    assert parts == [PadTwo(h), PadTwo(m), PadTwo(s)] by {
      SplitFormatTimestamp(t);
    }
    assert ParseFields(parts) == Ok([h, m, s]) by {
      PadTwoRoundTrip(h);
      PadTwoRoundTrip(m);
      PadTwoRoundTrip(s);
      ParseThreeFields(PadTwo(h), PadTwo(m), PadTwo(s), h, m, s);
    }
    assert BaseSixty([h, m, s]) == t by {
      BaseSixtyOfFields([h, m, s]);
    }
    ParseTimeStringMeaning(FormatTimestamp(t));
  }

  /** Three fields that each convert are read as their values. */
  lemma ParseThreeFields(a: string, b: string, c: string, x: int, y: int, z: int)
    requires ParseInt(a) == Some(x) && ParseInt(b) == Some(y) && ParseInt(c) == Some(z)
    ensures ParseFields([a, b, c]) == Ok([x, y, z])
  {
    var parts, vs := [a, b, c], [x, y, z];
    forall i | 0 <= i < 3
      ensures ParseInt(parts[i]) == Some(vs[i])
    {
      if i == 0 {} else if i == 1 {} else {}
    }
    ParseFieldsValues(parts, vs);
  }

  /** When every field converts, the fields' values are the result. */
  lemma ParseFieldsValues(parts: seq<string>, vs: seq<int>)
    requires |parts| == |vs|
    requires forall i :: 0 <= i < |parts| ==> ParseInt(parts[i]) == Some(vs[i])
    ensures ParseFields(parts) == Ok(vs)
  {
    var r := ParseFields(parts);
    assert r.Ok?;
    assert forall i :: 0 <= i < |vs| ==> r.value[i] == vs[i];
    assert r.value == vs;
  }

  /** Two totals with the same stamp are the same total. */
  lemma FormatTimestampInjective(t1: int, t2: int)
    requires InTimedeltaRange(t1) && InTimedeltaRange(t2)
    requires FormatTimestamp(t1) == FormatTimestamp(t2)
    ensures t1 == t2
  {
    FormatThenParse(t1);
    FormatThenParse(t2);
  }

  /**
   * `MM:SS` written with plain digits is minutes and seconds; the seconds are
   * not bounded by 60, so `0:75` is 75 seconds and `12:55` is 775.
   */
  lemma ParseMinutesSeconds(m: nat, s: nat)
    ensures ParseTimeString(Decimal(m) + ":" + Decimal(s)) == CheckRange(60 * m + s)
  {
    ParseIntOfDecimal(m);
    ParseIntOfDecimal(s);
    assert ':' !in Decimal(m) && ':' !in Decimal(s);
    ParseTwoFields(Decimal(m), Decimal(s), m, s);
  }

  /** Two colon-free fields that each convert are read as minutes and seconds. */
  lemma ParseTwoFields(a: string, b: string, x: int, y: int)
    requires ':' !in a && ':' !in b
    requires ParseInt(a) == Some(x) && ParseInt(b) == Some(y)
    ensures ParseTimeString(a + ":" + b) == CheckRange(60 * x + y)
  {
    var text := a + ":" + b;
    var parts, vs := [a, b], [x, y];
    assert Split(text, ':') == parts by {
      assert text == a + [':'] + b;
      SplitPair(a, ':', b);
    }
    assert ParseFields(parts) == Ok(vs) by {
      forall i | 0 <= i < 2
        ensures ParseInt(parts[i]) == Some(vs[i])
      {
        if i == 0 {} else {}
      }
      ParseFieldsValues(parts, vs);
    }
    assert BaseSixty(vs) == 60 * x + y by {
      BaseSixtyOfFields(vs);
    }
    ParseTimeStringMeaning(text);
  }

  /** `SS` written with plain digits is that many seconds, however many. */
  lemma ParseSeconds(n: nat)
    ensures ParseTimeString(Decimal(n)) == CheckRange(n)
  {
    ParseIntOfDecimal(n);
    assert ':' !in Decimal(n);
    ParseOneField(Decimal(n), n);
  }

  /** A colon-free field that converts is read as seconds. */
  lemma ParseOneField(a: string, x: int)
    requires ':' !in a
    requires ParseInt(a) == Some(x)
    ensures ParseTimeString(a) == CheckRange(x)
  {
    var parts, vs := [a], [x];
    assert Split(a, ':') == parts by {
      SplitNoSeparator(a, ':');
    }
    assert ParseFields(parts) == Ok(vs) by {
      ParseFieldsValues(parts, vs);
    }
    assert BaseSixty(vs) == x by {
      BaseSixtyOfFields(vs);
    }
    ParseTimeStringMeaning(a);
  }
}
