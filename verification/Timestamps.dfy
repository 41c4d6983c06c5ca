/** RFC 3339 UTC timestamps: the millisecond parser of the backlog, the seconds-and-nanoseconds parser of
    the stream, and the date printer. Every string either parser accepts is ASCII, so characters stand
    for bytes here. */
module Timestamps {
  import opened Machine
  import opened Text
  import opened Calendar

  predicate HasLayout(v: string)
  {
    && |v| >= 20
    && v[4] == '-' && v[7] == '-' && v[10] == 'T' && v[13] == ':' && v[16] == ':' && v[|v| - 1] == 'Z'
    && AllDigits(v[0..4]) && AllDigits(v[5..7]) && AllDigits(v[8..10])
    && AllDigits(v[11..13]) && AllDigits(v[14..16]) && AllDigits(v[17..19])
    && var rest := v[19..|v| - 1];
       rest == "" || (rest[0] == '.' && AllDigits(rest[1..]))
  }

  datatype Fields = Fields(year: int, month: int, day: int, hour: int, minute: int, second: int)

  /** The six numeric fields, each parsed at its Rust type. */
  function ParseFields(v: string): Option<Fields>
    requires |v| >= 20
  {
    var year := ParseInt(v[0..4], I32_MIN, I32_MAX);
    var month := ParseInt(v[5..7], 0, U32_MAX);
    var day := ParseInt(v[8..10], 0, U32_MAX);
    var hour := ParseInt(v[11..13], 0, U32_MAX);
    var minute := ParseInt(v[14..16], 0, U32_MAX);
    var second := ParseInt(v[17..19], 0, U32_MAX);
    if year.Some? && month.Some? && day.Some? && hour.Some? && minute.Some? && second.Some?
    then Some(Fields(year.value, month.value, day.value, hour.value, minute.value, second.value))
    else None
  }

  predicate InRange(f: Fields)
  {
    IsValidDate(f.year, f.month, f.day) && !(f.hour > 23 || f.minute > 59 || f.second > 59)
  }

  /** The saturating day-and-clock sum both parsers compute. */
  function SaturatingSeconds(f: Fields): i64
  {
    SatAddI64(
      SatAddI64(
        SatAddI64(
          SatMulI64(DaysFromCivil(f.year, f.month, f.day), 86_400),
          f.hour * 3_600),
        f.minute * 60),
      f.second)
  }

  function ParseFractionalMillis(segment: string): Option<i64>
  {
    if segment == "" then Some(0)
    else if segment[0] != '.' then None
    else
      var fractional := segment[1..];
      if fractional == "" || !AllDigits(fractional) then None
      else
        var kept := Min(3, |fractional|);
        Some(SatMulI64(DecimalValue(fractional[..kept]), Pow10(3 - kept)))
  }

  /** The stream's nanosecond fraction. The `u32` products saturate. */
  function ParseFractionalNanos(segment: string): Option<u32>
  {
    if segment == "" then Some(0)
    else if segment[0] != '.' then None
    else
      var fractional := segment[1..];
      if fractional == "" || !AllDigits(fractional) then None
      else
        var kept := Min(9, |fractional|);
        Some(SatMulU32(DecimalValue(fractional[..kept]), Pow10(9 - kept)))
  }

  function SatMulU32(a: nat, b: nat): u32
  {
    Clamp(0, U32_MAX, a * b)
  }

  /** `parse_rfc3339_utc_to_ms`. */
  function ParseToMs(v: string): Option<i64>
  {
    if |v| < 20 || v[|v| - 1] != 'Z' || !HasLayout(v) then None
    else
      match ParseFields(v)
      case None => None
      case Some(f) =>
        if !InRange(f) then None
        else
          match ParseFractionalMillis(v[19..|v| - 1])
          case None => None
          case Some(ms) => Some(SatAddI64(SatMulI64(SaturatingSeconds(f), 1_000), ms))
  }

  /** `parse_rfc3339_utc`: whole seconds and nanoseconds. */
  function ParseToSecondsAndNanos(v: string): Option<(i64, u32)>
  {
    if |v| < 20 || v[|v| - 1] != 'Z' then None
    else if !HasLayout(v) then None
    else
      match ParseFields(v)
      case None => None
      case Some(f) =>
        if !InRange(f) then None
        else
          match ParseFractionalNanos(v[19..|v| - 1])
          case None => None
          case Some(nanos) => Some((SaturatingSeconds(f), nanos))
  }

  function NormalizeUnixMs(value: i64): i64
  {
    if value > 10_000_000_000 then value else SatMulI64(value, 1_000)
  }

  /** `parse_timestamp_text`: a bare integer, else an RFC 3339 timestamp. */
  function ParseTimestampText(v: string): Option<i64>
  {
    match ParseInt(v, I64_MIN, I64_MAX)
    case Some(n) => Some(NormalizeUnixMs(n))
    case None =>
      match ParseToSecondsAndNanos(v)
      case Some((seconds, nanos)) => Some(SatAddI64(SatMulI64(seconds, 1_000), nanos / 1_000_000))
      case None => None
  }

  // ---------------------------------------------------------------------------
  // What an accepted timestamp means.

  /** The fraction digits between the point and the `Z`. */
  function FractionDigits(v: string): string
    requires |v| >= 20
  {
    if |v| == 20 then "" else v[20..|v| - 1]
  }

  function FieldsOf(v: string): Fields
    requires HasLayout(v)
  {
    Fields(DecimalValue(v[0..4]), DecimalValue(v[5..7]), DecimalValue(v[8..10]),
           DecimalValue(v[11..13]), DecimalValue(v[14..16]), DecimalValue(v[17..19]))
  }

  /** Layout, a real date, a real time of day, and a fraction that is absent or has digits. */
  predicate IsTimestamp(v: string)
  {
    HasLayout(v) && |v| != 21 && InRange(FieldsOf(v))
  }

  function Seconds(f: Fields): int
  {
    DaysFromCivil(f.year, f.month, f.day) * 86_400 + f.hour * 3_600 + f.minute * 60 + f.second
  }

  /** The fraction in thousandths, further digits dropped. */
  function Millis(digits: string): nat
    requires AllDigits(digits)
  {
    var kept := Min(3, |digits|);
    DecimalValue(digits[..kept]) * Pow10(3 - kept)
  }

  function Nanos(digits: string): nat
    requires AllDigits(digits)
  {
    var kept := Min(9, |digits|);
    DecimalValue(digits[..kept]) * Pow10(9 - kept)
  }

  /** The exact instant in milliseconds. */
  function Instant(v: string): int
    requires IsTimestamp(v)
  {
    LayoutFraction(v);
    Seconds(FieldsOf(v)) * 1_000 + Millis(FractionDigits(v))
  }

  lemma LayoutFraction(v: string)
    requires HasLayout(v)
    ensures |v| >= 20 && AllDigits(FractionDigits(v))
    ensures |v| > 20 ==> v[19..|v| - 1] == "." + FractionDigits(v)
    ensures |v| == 20 ==> v[19..|v| - 1] == ""
  {
    if |v| > 20 {
      assert v[19..|v| - 1][1..] == FractionDigits(v);
    }
  }

  lemma PowersOfTen()
    ensures Pow10(0) == 1 && Pow10(1) == 10 && Pow10(2) == 100 && Pow10(3) == 1_000 && Pow10(4) == 10_000
    ensures Pow10(5) == 100_000 && Pow10(6) == 1_000_000 && Pow10(7) == 10_000_000
    ensures Pow10(8) == 100_000_000 && Pow10(9) == 1_000_000_000
  {
    assert Pow10(2) == 100;
    assert Pow10(4) == 10_000;
    assert Pow10(6) == 1_000_000;
    assert Pow10(8) == 100_000_000;
  }

  lemma ParseFieldsGives(v: string)
    requires HasLayout(v)
    ensures ParseFields(v) == Some(FieldsOf(v))
    ensures 0 <= FieldsOf(v).year <= 9999
  {
    PowersOfTen();
    FieldParses(v[0..4], I32_MIN, I32_MAX);
    FieldParses(v[5..7], 0, U32_MAX);
    FieldParses(v[8..10], 0, U32_MAX);
    FieldParses(v[11..13], 0, U32_MAX);
    FieldParses(v[14..16], 0, U32_MAX);
    FieldParses(v[17..19], 0, U32_MAX);
  }

  lemma FieldParses(s: string, lo: int, hi: int)
    requires AllDigits(s) && 1 <= |s| <= 4 && lo <= 0 && 9999 <= hi
    ensures ParseInt(s, lo, hi) == Some(DecimalValue(s) as int) && DecimalValue(s) < Pow10(|s|)
  {
    PowersOfTen();
    DecimalBound(s);
    ParseDigits(s, lo, hi);
  }

  /** Time of day stays within the day, so nothing saturates. */
  lemma SecondsExact(f: Fields)
    requires InRange(f) && 0 <= f.year <= 9999 && f.hour >= 0 && f.minute >= 0 && f.second >= 0
    ensures SaturatingSeconds(f) == Seconds(f)
    ensures -62_167_219_200 <= Seconds(f) <= 253_402_300_799
  {
    ClosedFormFitsI32(f.year, f.month, f.day);
  }

  lemma MillisExact(digits: string)
    requires AllDigits(digits)
    ensures Millis(digits) < 1_000
    ensures digits != "" ==> ParseFractionalMillis("." + digits) == Some(Millis(digits) as int)
  {
    PowersOfTen();
    var kept := Min(3, |digits|);
    DecimalBound(digits[..kept]);
    assert ("." + digits)[1..] == digits;
  }

  lemma NanosExact(digits: string)
    requires AllDigits(digits)
    ensures Nanos(digits) < 1_000_000_000
    ensures digits != "" ==> ParseFractionalNanos("." + digits) == Some(Nanos(digits) as int)
  {
    PowersOfTen();
    var kept := Min(9, |digits|);
    DecimalBound(digits[..kept]);
    assert ("." + digits)[1..] == digits;
  }

  /** No prefix of the folded nanosecond digits overflows `u32`. */
  lemma NanoFoldFitsU32(digits: string, k: nat)
    requires AllDigits(digits) && k <= Min(9, |digits|)
    ensures DecimalValue(digits[..k]) <= U32_MAX
  {
    PowersOfTen();
    DecimalBound(digits[..k]);
  }

  /** Acceptance and value of the millisecond parser, with no saturation left in them. */
  lemma ParseToMsExact(v: string)
    ensures ParseToMs(v) == if IsTimestamp(v) then Some(Instant(v)) else None
  {
    hide DaysFromCivil, IsValidDate, ParseFields, FieldsOf, Seconds, SaturatingSeconds, Pow10;
    if HasLayout(v) {
      FieldsNonNegative(v);
      ParseFieldsGives(v);
      LayoutFraction(v);
      MillisExact(FractionDigits(v));
      if InRange(FieldsOf(v)) {
        SecondsExact(FieldsOf(v));
      }
      assert Millis("") == 0;
    }
  }

  lemma ParseToSecondsAndNanosExact(v: string)
    ensures ParseToSecondsAndNanos(v) ==
            if IsTimestamp(v) then Some((Seconds(FieldsOf(v)), Nanos(FractionDigits(v)))) else None
  {
    hide DaysFromCivil, IsValidDate, ParseFields, FieldsOf, Seconds, SaturatingSeconds, Pow10;
    if HasLayout(v) {
      FieldsNonNegative(v);
      ParseFieldsGives(v);
      LayoutFraction(v);
      NanosExact(FractionDigits(v));
      if InRange(FieldsOf(v)) {
        SecondsExact(FieldsOf(v));
      }
      assert Nanos("") == 0;
    }
  }

  // ---------------------------------------------------------------------------
  // The two parsers agree.

  lemma SplitPower(k: nat)
    requires k <= 6
    ensures Pow10(k) * Pow10(6 - k) == 1_000_000
  {
    PowersOfTen();
    assert k == 0 || k == 1 || k == 2 || k == 3 || k == 4 || k == 5 || k == 6;
  }

  lemma ScaledDown(head: nat, tail: nat, p: nat, q: nat)
    requires p * q == 1_000_000 && tail < p
    ensures (head * p + tail) * q / 1_000_000 == head
  {
    assert (head * p + tail) * q == head * (p * q) + tail * q;
    assert tail * q <= (p - 1) * q == p * q - q;
    assert q > 0;
    QuotientIs((head * p + tail) * q, 1_000_000, head);
  }

  /** Dropping six of nine decimals is what the millisecond parser computes directly. */
  lemma NanosInMillis(digits: string)
    requires AllDigits(digits)
    ensures Nanos(digits) / 1_000_000 == Millis(digits)
  {
    var n := |digits|;
    PowersOfTen();
    if n <= 3 {
      var d := DecimalValue(digits);
      assert digits[..n] == digits;
      assert n == 0 || n == 1 || n == 2 || n == 3;
    } else {
      var kept := Min(9, n);
      var head, tail := digits[..3], digits[3..kept];
      DecimalConcat(head, tail);
      assert head + tail == digits[..kept];
      DecimalBound(tail);
      SplitPower(kept - 3);
      ScaledDown(DecimalValue(head), DecimalValue(tail), Pow10(kept - 3), Pow10(9 - kept));
    }
  }

  /** On every string both parsers accept or both reject, and the values are the same instant. */
  lemma ParsersAgree(v: string)
    ensures ParseToMs(v).Some? <==> ParseToSecondsAndNanos(v).Some?
    ensures ParseToMs(v).Some? ==>
              var (seconds, nanos) := ParseToSecondsAndNanos(v).value;
              ParseToMs(v).value == seconds * 1_000 + nanos / 1_000_000
  {
    ParseToMsExact(v);
    ParseToSecondsAndNanosExact(v);
    if IsTimestamp(v) {
      LayoutFraction(v);
      NanosInMillis(FractionDigits(v));
    }
  }

  lemma TimestampIsNotAnInteger(v: string)
    requires HasLayout(v)
    ensures ParseInt(v, I64_MIN, I64_MAX) == None
  {
    assert v[1..][3] == v[4] == '-';
    assert !AllDigits(v) && !AllDigits(v[1..]);
  }

  /** So the stream, which also takes bare integers, reads every backlog timestamp as the backlog does. */
  lemma StreamReadsBacklogTimestamps(v: string)
    requires ParseToMs(v).Some?
    ensures ParseTimestampText(v) == ParseToMs(v)
  {
    hide ParseToMs, ParseToSecondsAndNanos, HasLayout, FieldsOf, Seconds, DaysFromCivil, IsValidDate, Millis, Nanos,
        ParseInt;
    ParseToMsExact(v);
    ParseToSecondsAndNanosExact(v);
    ParsersAgree(v);
    TimestampIsNotAnInteger(v);
    ParseFieldsGives(v);
    FieldsNonNegative(v);
    SecondsExact(FieldsOf(v));
    LayoutFraction(v);
    NanosExact(FractionDigits(v));
  }

  lemma RfcTextIsNoInteger(v: string)
    requires ParseToMs(v).Some?
    ensures ParseInt(v, I64_MIN, I64_MAX) == None
  {
    hide ParseInt;
    ParseToMsExact(v);
    TimestampIsNotAnInteger(v);
  }

  lemma FieldsNonNegative(v: string)
    requires HasLayout(v)
    ensures FieldsOf(v).hour >= 0 && FieldsOf(v).minute >= 0 && FieldsOf(v).second >= 0
  {
  }

  // ---------------------------------------------------------------------------
  // Text order is time order.

  /** Lexicographic order of equally long strings. */
  ghost predicate TextBefore(a: string, b: string)
  {
    |a| == |b| && exists i :: 0 <= i < |a| && a[..i] == b[..i] && a[i] < b[i]
  }

  lemma TextOrderIsTotal(a: string, b: string)
    requires |a| == |b|
    ensures a == b || TextBefore(a, b) || TextBefore(b, a)
  {
    var i := 0;
    while i < |a| && a[i] == b[i]
      invariant i <= |a| && a[..i] == b[..i]
    {
      i := i + 1;
    }
    assert i < |a| ==> a[i] < b[i] || b[i] < a[i];
    assert i == |a| ==> a == a[..i] && b == b[..i];
  }

  /** Lexicographic order on the fields. */
  predicate FieldsBefore(f: Fields, g: Fields)
  {
    Earlier(Civil(f.year, f.month, f.day), Civil(g.year, g.month, g.day))
    || (f.year == g.year && f.month == g.month && f.day == g.day
        && (f.hour < g.hour || (f.hour == g.hour
            && (f.minute < g.minute || (f.minute == g.minute && f.second < g.second)))))
  }

  lemma FieldsBeforeIsSooner(f: Fields, g: Fields)
    requires InRange(f) && InRange(g) && FieldsBefore(f, g)
    requires f.hour >= 0 && f.minute >= 0 && f.second >= 0 && g.hour >= 0 && g.minute >= 0 && g.second >= 0
    ensures Seconds(f) < Seconds(g)
  {
    hide DaysFromCivil, IsValidDate;
    EarlierIsSmaller(Civil(f.year, f.month, f.day), Civil(g.year, g.month, g.day));
  }

  /** A first difference inside the slice `lo..hi` shows in the slice's value; before it nothing differs. */
  lemma SliceDecides(a: string, b: string, i: nat, lo: nat, hi: nat)
    requires lo <= hi <= |a| && hi <= |b| && i < |a| && i < |b| && a[..i] == b[..i] && a[i] < b[i]
    requires AllDigits(a[lo..hi]) && AllDigits(b[lo..hi])
    ensures hi <= i ==> a[lo..hi] == b[lo..hi]
    ensures lo <= i < hi ==> DecimalValue(a[lo..hi]) < DecimalValue(b[lo..hi])
  {
    if hi <= i {
      SliceOfSlice(a, 0, i, lo, hi);
      SliceOfSlice(b, 0, i, lo, hi);
      assert a[0..i] == b[0..i];
    } else if lo <= i {
      SliceOfSlice(a, lo, hi, 0, i - lo);
      SliceOfSlice(b, lo, hi, 0, i - lo);
      SliceOfSlice(a, 0, i, lo, i);
      SliceOfSlice(b, 0, i, lo, i);
      assert a[0..i] == b[0..i];
      assert a[lo..hi][0..i - lo] == a[lo..hi][..i - lo] && b[lo..hi][0..i - lo] == b[lo..hi][..i - lo];
      FirstDifferenceDecides(a[lo..hi], b[lo..hi], i - lo);
    }
  }

  lemma DifferenceInFields(a: string, b: string, i: nat)
    requires HasLayout(a) && HasLayout(b) && |a| == |b| && i < |a| && a[..i] == b[..i] && a[i] < b[i]
    ensures i < 19 ==> FieldsBefore(FieldsOf(a), FieldsOf(b))
    ensures i >= 19 ==> FieldsOf(a) == FieldsOf(b)
  {
    SliceDecides(a, b, i, 0, 4);
    SliceDecides(a, b, i, 5, 7);
    SliceDecides(a, b, i, 8, 10);
    SliceDecides(a, b, i, 11, 13);
    SliceDecides(a, b, i, 14, 16);
    SliceDecides(a, b, i, 17, 19);
  }

  /** A difference in the fraction shows in the milliseconds exactly when it is in the first three digits. */
  lemma DifferenceInFraction(x: string, y: string, i: nat)
    requires AllDigits(x) && AllDigits(y) && |x| == |y| && i < |x| && x[..i] == y[..i] && x[i] < y[i]
    ensures i < 3 ==> Millis(x) < Millis(y)
    ensures i >= 3 ==> Millis(x) == Millis(y)
  {
    var kept := Min(3, |x|);
    SliceDecides(x, y, i, 0, kept);
    assert x[0..kept] == x[..kept] && y[0..kept] == y[..kept];
    PowersOfTen();
  }

  lemma DifferenceAfterFields(a: string, b: string, i: nat)
    requires HasLayout(a) && HasLayout(b) && |a| == |b| && 19 <= i < |a| && a[..i] == b[..i] && a[i] < b[i]
    ensures var x, y := FractionDigits(a), FractionDigits(b);
            AllDigits(x) && AllDigits(y) && |x| == |y|
            && 20 <= i < 20 + |x| && x[..i - 20] == y[..i - 20] && x[i - 20] < y[i - 20]
  {
    LayoutFraction(a);
    LayoutFraction(b);
    if i > 19 {
      var x, y := FractionDigits(a), FractionDigits(b);
      assert x[..i - 20] == a[..i][20..] && y[..i - 20] == b[..i][20..];
    }
  }

  lemma TextBeforeIsSooner(a: string, b: string)
    requires IsTimestamp(a) && IsTimestamp(b) && TextBefore(a, b)
    ensures Instant(a) <= Instant(b)
    ensures |FractionDigits(a)| <= 3 ==> Instant(a) < Instant(b)
  {
    hide HasLayout, FieldsOf, Seconds, Millis, DaysFromCivil, IsValidDate;
    var i :| 0 <= i < |a| && a[..i] == b[..i] && a[i] < b[i];
    LayoutFraction(a);
    LayoutFraction(b);
    MillisExact(FractionDigits(a));
    MillisExact(FractionDigits(b));
    DifferenceInFields(a, b, i);
    FieldsNonNegative(a);
    FieldsNonNegative(b);
    if i < 19 {
      FieldsBeforeIsSooner(FieldsOf(a), FieldsOf(b));
    } else {
      DifferenceAfterFields(a, b, i);
      DifferenceInFraction(FractionDigits(a), FractionDigits(b), i - 20);
    }
  }

  lemma EquallyLong(a: string, b: string)
    requires IsTimestamp(a) && IsTimestamp(b) && |FractionDigits(a)| == |FractionDigits(b)|
    ensures |a| == |b|
  {
    LayoutFraction(a);
    LayoutFraction(b);
  }

  /** Section 5.1 of RFC 3339: for equally precise timestamps text order is time order. It is exact down
      to the millisecond; beyond that, distinct texts may denote the same millisecond but never swap. */
  lemma TextOrderIsTimeOrder(a: string, b: string)
    requires ParseToMs(a).Some? && ParseToMs(b).Some?
    requires |FractionDigits(a)| == |FractionDigits(b)|
    ensures TextBefore(a, b) ==> ParseToMs(a).value <= ParseToMs(b).value
    ensures ParseToMs(a).value < ParseToMs(b).value ==> TextBefore(a, b)
    ensures |FractionDigits(a)| <= 3 ==> (TextBefore(a, b) <==> ParseToMs(a).value < ParseToMs(b).value)
    ensures |FractionDigits(a)| <= 3 ==> (a == b <==> ParseToMs(a) == ParseToMs(b))
  {
    hide ParseToMs, HasLayout, IsTimestamp, Instant, TextBefore, FractionDigits;
    ParseToMsExact(a);
    ParseToMsExact(b);
    EquallyLong(a, b);
    TextOrderIsTotal(a, b);
    if TextBefore(a, b) {
      TextBeforeIsSooner(a, b);
    }
    if TextBefore(b, a) {
      TextBeforeIsSooner(b, a);
    }
  }

  // ---------------------------------------------------------------------------
  // Printing a date and parsing it back.

  const MS_PER_DAY: int := 86_400_000

  function PrintDate(c: Civil): string
  {
    ZeroPadded(c.year, 4) + "-" + ZeroPadded(c.month, 2) + "-" + ZeroPadded(c.day, 2)
  }

  /** `iso_date_from_epoch_ms`: the UTC date of an epoch time. */
  function IsoDate(epochMs: int): string
  {
    PrintDate(CivilFromDays(epochMs / MS_PER_DAY))
  }

  /** `format_utc_date`, the appendix's own copy, which adjusts the year last. */
  function FormatUtcDate(epochMs: int): string
  {
    var z := epochMs / MS_PER_DAY + 719_468;
    var era, doe := z / 146_097, z % 146_097;
    var yoe := (doe - doe / 1460 + doe / 36_524 - doe / 146_096) / 365;
    var marchYear := yoe + era * 400;
    var doy := doe - (365 * yoe + yoe / 4 - yoe / 100);
    var mp := (5 * doy + 2) / 153;
    var day := doy - (153 * mp + 2) / 5 + 1;
    var month := if mp < 10 then mp + 3 else mp - 9;
    PrintDate(Civil(if month <= 2 then marchYear + 1 else marchYear, month, day))
  }

  lemma PrintersAgree(epochMs: int)
    ensures FormatUtcDate(epochMs) == IsoDate(epochMs)
  {
    hide PrintDate;
  }

  /** The RFC 3339 text of a date and time of day, with fraction digits when there are some. */
  function PrintTimestamp(f: Fields, digits: string): string
  {
    PrintDate(Civil(f.year, f.month, f.day)) + PrintClock(f) + PrintFraction(digits) + "Z"
  }

  function PrintClock(f: Fields): string
  {
    "T" + ZeroPadded(f.hour, 2) + ":" + ZeroPadded(f.minute, 2) + ":" + ZeroPadded(f.second, 2)
  }

  function PrintFraction(digits: string): string
  {
    if digits == "" then "" else "." + digits
  }

  /** Four digits for the year and two for everything else, whether or not there is such a time. */
  predicate Printable(f: Fields)
  {
    && 0 <= f.year <= 9999 && 0 <= f.month <= 99 && 0 <= f.day <= 99
    && 0 <= f.hour <= 99 && 0 <= f.minute <= 99 && 0 <= f.second <= 99
  }

  lemma DateSlices(y: string, m: string, d: string, t: string)
    requires |y| == 4 && |m| == |d| == 2
    ensures var v := y + "-" + m + "-" + d + t;
            && |v| == 10 + |t| && v[0..4] == y && v[5..7] == m && v[8..10] == d
            && v[4] == '-' && v[7] == '-' && v[10..] == t
  {
  }

  lemma ClockSlices(h: string, m: string, s: string, t: string)
    requires |h| == |m| == |s| == 2
    ensures var v := "T" + h + ":" + m + ":" + s + t;
            && |v| == 9 + |t| && v[1..3] == h && v[4..6] == m && v[7..9] == s
            && v[0] == 'T' && v[3] == ':' && v[6] == ':' && v[9..] == t
  {
  }

  lemma AssembledTimestamp(v: string, c: string, f: Fields, digits: string)
    requires Printable(f) && AllDigits(digits)
    requires |v| == 10 + |c| && v[4] == '-' && v[7] == '-' && v[10..] == c
    requires v[0..4] == ZeroPadded(f.year, 4) && v[5..7] == ZeroPadded(f.month, 2) && v[8..10] == ZeroPadded(f.day, 2)
    requires |c| == 9 + |PrintFraction(digits) + "Z"| && c[0] == 'T' && c[3] == ':' && c[6] == ':'
    requires c[1..3] == ZeroPadded(f.hour, 2) && c[4..6] == ZeroPadded(f.minute, 2)
    requires c[7..9] == ZeroPadded(f.second, 2) && c[9..] == PrintFraction(digits) + "Z"
    ensures HasLayout(v) && |v| != 21 && FieldsOf(v) == f && FractionDigits(v) == digits
  {
    hide DecimalValue, ZeroPadded;
    PaddedFields(f);
    assert forall k :: 10 <= k < |v| ==> v[k] == v[10..][k - 10];
    assert v[10..|v|] == c;
    SliceOfSlice(v, 10, |v|, 1, 3);
    SliceOfSlice(v, 10, |v|, 4, 6);
    SliceOfSlice(v, 10, |v|, 7, 9);
    SliceOfSlice(v, 10, |v|, 9, |c|);
    assert v[19..|v|] == v[19..] && c[9..|c|] == c[9..];
    assert v[|v| - 1] == v[19..][|v[19..]| - 1] == 'Z';
    assert v[19..|v| - 1] == PrintFraction(digits);
    assert digits != "" ==> v[19..|v| - 1][1..] == digits == v[20..|v| - 1];
  }

  lemma PaddedFields(f: Fields)
    requires Printable(f)
    ensures var y := ZeroPadded(f.year, 4); |y| == 4 && AllDigits(y) && DecimalValue(y) == f.year
    ensures var m := ZeroPadded(f.month, 2); |m| == 2 && AllDigits(m) && DecimalValue(m) == f.month
    ensures var d := ZeroPadded(f.day, 2); |d| == 2 && AllDigits(d) && DecimalValue(d) == f.day
    ensures var h := ZeroPadded(f.hour, 2); |h| == 2 && AllDigits(h) && DecimalValue(h) == f.hour
    ensures var m := ZeroPadded(f.minute, 2); |m| == 2 && AllDigits(m) && DecimalValue(m) == f.minute
    ensures var s := ZeroPadded(f.second, 2); |s| == 2 && AllDigits(s) && DecimalValue(s) == f.second
  {
    hide DecimalValue, ZeroPadded;
    PowersOfTen();
    PaddedField(f.year, 4);
    PaddedField(f.month, 2);
    PaddedField(f.day, 2);
    PaddedField(f.hour, 2);
    PaddedField(f.minute, 2);
    PaddedField(f.second, 2);
  }

  /** Printing gives the layout, with the fields and digits printed. */
  lemma PrintedLayout(f: Fields, digits: string)
    requires Printable(f) && AllDigits(digits)
    ensures var v := PrintTimestamp(f, digits);
            HasLayout(v) && |v| != 21 && FieldsOf(v) == f && FractionDigits(v) == digits
  {
    hide HasLayout, FieldsOf, FractionDigits, ZeroPadded, DecimalValue;
    PaddedFields(f);
    var y, m, d := ZeroPadded(f.year, 4), ZeroPadded(f.month, 2), ZeroPadded(f.day, 2);
    var tail := PrintFraction(digits) + "Z";
    var h, i, s := ZeroPadded(f.hour, 2), ZeroPadded(f.minute, 2), ZeroPadded(f.second, 2);
    var c := "T" + h + ":" + i + ":" + s + tail;
    ClockSlices(h, i, s, tail);
    DateSlices(y, m, d, c);
    assert PrintTimestamp(f, digits) == y + "-" + m + "-" + d + c;
    AssembledTimestamp(PrintTimestamp(f, digits), c, f, digits);
  }

  /** `n` units of a fraction that has `unit` of them to the whole, rounded down. */
  ghost predicate IsFloor(digits: string, unit: nat, n: int)
    requires AllDigits(digits)
  {
    n * Pow10(|digits|) <= DecimalValue(digits) * unit < (n + 1) * Pow10(|digits|)
  }

  lemma {:induction false} PowersAdd(a: nat, b: nat)
    ensures Pow10(a + b) == Pow10(a) * Pow10(b)
  {
    if a > 0 {
      PowersAdd(a - 1, b);
    }
  }

  /** The leading `kept` digits, scaled to `places` places, are the fraction rounded down. */
  lemma ScaledIsFloor(digits: string, places: nat)
    requires AllDigits(digits)
    ensures var kept := Min(places, |digits|);
            IsFloor(digits, Pow10(places), DecimalValue(digits[..kept]) * Pow10(places - kept))
  {
    hide DecimalValue, Pow10;
    var kept := Min(places, |digits|);
    var head, tail := digits[..kept], digits[kept..];
    assert head + tail == digits;
    DecimalConcat(head, tail);
    DecimalBound(tail);
    if |digits| <= places {
      assert tail == "" && head == digits;
      PowersAdd(|digits|, places - kept);
      assert DecimalValue(digits) * Pow10(places) == DecimalValue(head) * Pow10(places - kept) * Pow10(|digits|);
    } else {
      PowersAdd(places, |tail|);
      NothingRaised();
      LongFraction(DecimalValue(head), DecimalValue(tail), Pow10(places), Pow10(|tail|));
    }
  }

  lemma NothingRaised()
    ensures Pow10(0) == 1
  {
  }

  lemma LongFraction(head: nat, tail: nat, unit: nat, p: nat)
    requires tail < p && unit > 0
    ensures head * (unit * p) <= (head * p + tail) * unit < (head + 1) * (unit * p)
  {
    assert (head * p + tail) * unit == head * (unit * p) + tail * unit;
    assert tail * unit < p * unit;
  }

  /** There is such a time: a date of the calendar and a time of day. */
  predicate IsRealTime(f: Fields)
  {
    IsValidDate(f.year, f.month, f.day) && f.hour <= 23 && f.minute <= 59 && f.second <= 59
  }

  /** Both parsers on any printed date, time and fraction: the exact instant when there is such a time, nothing
      otherwise. */
  lemma PrintedTimestampParses(f: Fields, digits: string) returns (ms: nat, nanos: nat)
    requires Printable(f) && AllDigits(digits)
    ensures IsFloor(digits, 1_000, ms) && IsFloor(digits, 1_000_000_000, nanos)
    ensures var v := PrintTimestamp(f, digits);
            var seconds := DaysFromCivil(f.year, f.month, f.day) * 86_400 + f.hour * 3_600 + f.minute * 60 + f.second;
            && (IsRealTime(f) ==>
                ParseToMs(v) == Some(seconds * 1_000 + ms) && ParseToSecondsAndNanos(v) == Some((seconds, nanos)))
            && (!IsRealTime(f) ==> ParseToMs(v) == None && ParseToSecondsAndNanos(v) == None)
  {
    hide IsFloor, Millis, Nanos, PrintTimestamp, DaysFromCivil, IsRealTime, HasLayout, FieldsOf, FractionDigits,
      ParseToMs, ParseToSecondsAndNanos, AllDigits, Printable;
    ms, nanos := Millis(digits), Nanos(digits);
    FractionsAreFloors(digits);
    PrintedLayout(f, digits);
    LaidOutParses(PrintTimestamp(f, digits), f, digits);
  }

  lemma FractionsAreFloors(digits: string)
    requires AllDigits(digits)
    ensures IsFloor(digits, 1_000, Millis(digits)) && IsFloor(digits, 1_000_000_000, Nanos(digits))
  {
    hide DecimalValue, IsFloor;
    PowersOfTen();
    ScaledIsFloor(digits, 3);
    ScaledIsFloor(digits, 9);
  }

  lemma LaidOutParses(v: string, f: Fields, digits: string)
    requires HasLayout(v) && |v| != 21 && FieldsOf(v) == f && FractionDigits(v) == digits && AllDigits(digits)
    ensures IsRealTime(f) ==>
              && ParseToMs(v) == Some(Seconds(f) * 1_000 + Millis(digits))
              && ParseToSecondsAndNanos(v) == Some((Seconds(f), Nanos(digits)))
    ensures !IsRealTime(f) ==> ParseToMs(v) == None && ParseToSecondsAndNanos(v) == None
  {
    ParseToMsExact(v);
    ParseToSecondsAndNanosExact(v);
    hide HasLayout, FieldsOf, FractionDigits, IsValidDate, Millis, Nanos, Seconds, ParseToMs, ParseToSecondsAndNanos;
  }

  lemma SameDigits(x: string, y: string)
    requires AllDigits(x) && AllDigits(y) && |x| == |y| && DecimalValue(x) == DecimalValue(y)
    ensures x == y
  {
    hide DecimalValue;
    TextOrderIsTotal(x, y);
    if TextBefore(x, y) {
      var i :| 0 <= i < |x| && x[..i] == y[..i] && x[i] < y[i];
      FirstDifferenceDecides(x, y, i);
    }
    if TextBefore(y, x) {
      var i :| 0 <= i < |x| && y[..i] == x[..i] && y[i] < x[i];
      FirstDifferenceDecides(y, x, i);
    }
  }

  lemma PaddedOfDigits(x: string, w: nat)
    requires AllDigits(x) && |x| == w >= 1
    ensures ZeroPadded(DecimalValue(x), w) == x
  {
    hide DecimalValue, ZeroPadded, Pow10;
    DecimalBound(x);
    PaddedField(DecimalValue(x), w);
    SameDigits(ZeroPadded(DecimalValue(x), w), x);
  }

  lemma LayoutParts(v: string)
    requires HasLayout(v)
    ensures |v| >= 20
    ensures v == v[0..4] + "-" + v[5..7] + "-" + v[8..10]
                 + ("T" + v[11..13] + ":" + v[14..16] + ":" + v[17..19]) + v[19..|v| - 1] + "Z"
  {
    hide AllDigits;
  }

  /** A text with the layout is the print of its fields. */
  lemma LayoutIsPrinted(v: string)
    requires HasLayout(v) && |v| != 21
    ensures |v| >= 20 && AllDigits(FractionDigits(v))
    ensures v == PrintTimestamp(FieldsOf(v), FractionDigits(v))
  {
    LayoutFraction(v);
    LayoutParts(v);
    FieldsAreDigits(v);
    hide DecimalValue, ZeroPadded, HasLayout, AllDigits;
    PaddedOfDigits(v[0..4], 4);
    PaddedOfDigits(v[5..7], 2);
    PaddedOfDigits(v[8..10], 2);
    PaddedOfDigits(v[11..13], 2);
    PaddedOfDigits(v[14..16], 2);
    PaddedOfDigits(v[17..19], 2);
    assert PrintFraction(FractionDigits(v)) == v[19..|v| - 1];
  }

  lemma FieldsAreDigits(v: string)
    requires HasLayout(v)
    ensures |v| >= 20 && AllDigits(v[0..4]) && AllDigits(v[5..7]) && AllDigits(v[8..10])
    ensures AllDigits(v[11..13]) && AllDigits(v[14..16]) && AllDigits(v[17..19])
  {
    hide AllDigits;
  }

  /** And nothing else is accepted: an accepted text is the print of such a time. */
  lemma AcceptedIsPrinted(v: string) returns (f: Fields, digits: string)
    requires ParseToMs(v).Some? || ParseToSecondsAndNanos(v).Some?
    ensures Printable(f) && AllDigits(digits) && IsRealTime(f) && v == PrintTimestamp(f, digits)
  {
    ParseToMsExact(v);
    ParseToSecondsAndNanosExact(v);
    f, digits := FieldsOf(v), FractionDigits(v);
    LayoutIsPrinted(v);
    FieldsArePrintable(v);
    hide HasLayout, FieldsOf, IsValidDate, PrintTimestamp, ParseToMs, ParseToSecondsAndNanos, Printable, AllDigits,
      FractionDigits, Instant, Seconds, Nanos;
  }

  lemma FieldsArePrintable(v: string)
    requires HasLayout(v)
    ensures Printable(FieldsOf(v))
  {
    hide DecimalValue;
    PowersOfTen();
    DecimalBound(v[0..4]);
    DecimalBound(v[5..7]);
    DecimalBound(v[8..10]);
    DecimalBound(v[11..13]);
    DecimalBound(v[14..16]);
    DecimalBound(v[17..19]);
  }

  lemma TwoZeros()
    ensures ZeroPadded(0, 2) == "00"
  {
    assert PrintNat(0) == "0" && Zeros(1) == "0";
  }

  lemma ClockAtMidnight(f: Fields)
    requires f.hour == f.minute == f.second == 0
    ensures PrintClock(f) == "T00:00:00"
  {
    hide ZeroPadded;
    TwoZeros();
  }

  lemma MidnightText(c: Civil)
    ensures PrintTimestamp(Fields(c.year, c.month, c.day, 0, 0, 0), "") == PrintDate(c) + "T00:00:00Z"
  {
    hide PrintDate, PrintClock;
    ClockAtMidnight(Fields(c.year, c.month, c.day, 0, 0, 0));
    assert "T00:00:00" + "" + "Z" == "T00:00:00Z";
  }

  /** For every time in years 0 to 9999, before 1970 included, midnight of the date either printer prints
      parses to the time rounded down to its UTC day. */
  lemma PrintThenParse(epochMs: int)
    requires 0 <= CivilFromDays(epochMs / MS_PER_DAY).year <= 9999
    ensures ParseToMs(IsoDate(epochMs) + "T00:00:00Z") == Some(epochMs - epochMs % MS_PER_DAY)
    ensures FormatUtcDate(epochMs) == IsoDate(epochMs)
  {
    PrintersAgree(epochMs);
    hide FormatUtcDate, CivilFromDays, DaysFromCivil, IsValidDate, PrintDate, HasLayout, FieldsOf, ParseToMs,
      PrintTimestamp, AllDigits, Millis, FractionDigits;
    NoMillis();
    var days := epochMs / MS_PER_DAY;
    var c := CivilFromDays(days);
    DaysOfCivilOfDays(days);
    ValidDateBounds(c);
    MidnightText(c);
    PrintedLayout(Fields(c.year, c.month, c.day, 0, 0, 0), "");
    LaidOutParses(PrintDate(c) + "T00:00:00Z", Fields(c.year, c.month, c.day, 0, 0, 0), "");
  }

  lemma NoMillis()
    ensures AllDigits("") && Millis("") == 0
  {
  }

  lemma ValidDateBounds(c: Civil)
    requires IsValidDate(c.year, c.month, c.day)
    ensures 1 <= c.month <= 12 && 1 <= c.day <= 31
  {
  }
}
