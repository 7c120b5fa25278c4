/** The time stamps of a docx document (GetDocxTimes in core/client.go): the
    drive file meta carries its creation and last-modification time as decimal
    strings of Unix seconds or Unix milliseconds. */
module Timestamps {
  import opened Wrappers
  import opened Strs

  const MinInt64: int := -0x8000_0000_0000_0000
  const MaxInt64: int := 0x7FFF_FFFF_FFFF_FFFF
  const TwoTo64: int := 0x1_0000_0000_0000_0000

  /** Two's-complement wrap-around of an int64 result. */
  function Wrap64(x: int): (r: int)
    ensures MinInt64 <= r <= MaxInt64
    ensures (x - r) % TwoTo64 == 0
    ensures MinInt64 <= x <= MaxInt64 ==> r == x
  {
    var m := (x - MinInt64) % TwoTo64;
    assert x - (m + MinInt64) == ((x - MinInt64) / TwoTo64) * TwoTo64;
    m + MinInt64
  }

  predicate IsDigit(c: char) {
    '0' <= c <= '9'
  }

  predicate AllDigits(s: string) {
    forall i :: 0 <= i < |s| ==> IsDigit(s[i])
  }

  /** The value of a string of decimal digits, leading zeros allowed. */
  function DigitsValue(s: string): nat
    requires AllDigits(s)
  {
    if s == [] then 0 else DigitsValue(s[..|s| - 1]) * 10 + (s[|s| - 1] as int - '0' as int)
  }

  /** strconv.ParseInt(s, 10, 64): an optional '+' or '-' then at least one
      decimal digit, with a value in the int64 range; None for anything else
      (a syntax or a range error). */
  function ParseInt64(s: string): (r: Option<int>)
    ensures r.Some? ==> MinInt64 <= r.value <= MaxInt64
    ensures r.Some? ==> s != "" && AllDigits(if s[0] == '+' || s[0] == '-' then s[1..] else s)
    ensures r.Some? ==> (r.value < 0 ==> s[0] == '-')
  {
    if s == "" then None
    else
      var digits := if s[0] == '+' || s[0] == '-' then s[1..] else s;
      if digits == "" || !AllDigits(digits) then None
      else
        var v: int := if s[0] == '-' then 0 - DigitsValue(digits) else DigitsValue(digits);
        if MinInt64 <= v <= MaxInt64 then Some(v) else None
  }

  function DigitChar(d: nat): char
    requires d < 10
  {
    ('0' as int + d) as char
  }

  /** The decimal digits of n, without leading zeros. */
  function FormatNat(n: nat): (r: string)
    ensures |r| >= 1 && AllDigits(r)
    decreases n
  {
    if n < 10 then [DigitChar(n)] else FormatNat(n / 10) + [DigitChar(n % 10)]
  }

  /** strconv.FormatInt(v, 10). */
  function FormatInt(v: int): (r: string)
    ensures r != ""
  {
    if v < 0 then "-" + FormatNat(-v) else FormatNat(v)
  }

  lemma {:induction false} DigitsValueFormat(n: nat)
    ensures DigitsValue(FormatNat(n)) == n
    decreases n
  {
    if n >= 10 {
      DigitsValueFormat(n / 10);
      var s := FormatNat(n);
      assert s[..|s| - 1] == FormatNat(n / 10);
    }
  }

  /** ParseInt64 reads back every int64 that FormatInt writes. */
  lemma ParseFormat(v: int)
    requires MinInt64 <= v <= MaxInt64
    ensures ParseInt64(FormatInt(v)) == Some(v)
  {
    var s := FormatInt(v);
    if v < 0 {
      var f := FormatNat(-v);
      DigitsValueFormat(-v);
      assert s == "-" + f && s[0] == '-';
      assert s[1..] == f;
      assert 0 - DigitsValue(f) == v;
    } else {
      DigitsValueFormat(v);
      assert IsDigit(s[0]);
      assert DigitsValue(s) == v;
    }
  }

  /** A moment, as time.Time holds it in UTC: seconds since the Unix epoch and
      the nanoseconds into that second. */
  datatype Instant = Instant(sec: int, nsec: int)

  /** Nanoseconds since the epoch. */
  function Nanos(t: Instant): int {
    t.sec * 1_000_000_000 + t.nsec
  }

  /** time.Unix(sec, 0). */
  function UnixSec(sec: int): (t: Instant)
    ensures Nanos(t) == sec * 1_000_000_000
  {
    Instant(sec, 0)
  }

  /** time.Unix(0, ns): the nanoseconds normalised into [0, 1e9). */
  function UnixNano(ns: int): (t: Instant)
    ensures 0 <= t.nsec < 1_000_000_000
    ensures Nanos(t) == ns
  {
    Instant(ns / 1_000_000_000, ns % 1_000_000_000)
  }

  /** What parseUnixString yields: nil and no error for a blank string, an
      error for a string that is not an int64, or a time. */
  datatype Stamp = NoTime | BadTime | At(t: Instant)

  /** Values above this are milliseconds, the rest seconds. */
  const MillisThreshold: int := 1_000_000_000_000

  /** parseUnixString as written: the millisecond branch multiplies by 1e6
      in int64 and wraps around for v >= 9223372036855. */
  function ParseUnixAsWritten(s: string): (r: Stamp)
    ensures TrimSpace(s) == "" <==> r == NoTime
  {
    if TrimSpace(s) == "" then NoTime
    else match ParseInt64(s)
      case None => BadTime
      case Some(v) =>
        if v > MillisThreshold then At(UnixNano(Wrap64(v * 1_000_000)))
        else At(UnixSec(v))
  }

  /** parseUnixString as intended: v milliseconds is v * 1e6 nanoseconds
      (time.UnixMilli). */
  function ParseUnix(s: string): (r: Stamp)
    ensures TrimSpace(s) == "" <==> r == NoTime
    ensures r == BadTime <==> TrimSpace(s) != "" && ParseInt64(s).None?
    ensures r.At? ==> var v := ParseInt64(s).value;
      Nanos(r.t) == if v > MillisThreshold then v * 1_000_000 else v * 1_000_000_000
  {
    if TrimSpace(s) == "" then NoTime
    else match ParseInt64(s)
      case None => BadTime
      case Some(v) =>
        if v > MillisThreshold then At(UnixNano(v * 1_000_000))
        else At(UnixSec(v))
  }

  /** Once the string is an int64, both readings pick seconds or
      milliseconds by the threshold alone. */
  lemma ReadsInt(s: string, v: int)
    requires ParseInt64(s) == Some(v)
    ensures ParseUnix(s) == if v > MillisThreshold then At(UnixNano(v * 1_000_000)) else At(UnixSec(v))
    ensures ParseUnixAsWritten(s) ==
      if v > MillisThreshold then At(UnixNano(Wrap64(v * 1_000_000))) else At(UnixSec(v))
  {
    assert !IsSpace(s[0]);
  }

  /** A decimal integer up to the threshold is read as seconds, one above it
      as milliseconds. */
  lemma ParseUnixOfInt(v: int)
    requires MinInt64 <= v <= MaxInt64
    ensures ParseUnix(FormatInt(v)).At?
    ensures v <= MillisThreshold ==> ParseUnix(FormatInt(v)).t == Instant(v, 0)
    ensures v > MillisThreshold ==> Nanos(ParseUnix(FormatInt(v)).t) == v * 1_000_000
  {
    ParseFormat(v);
    ReadsInt(FormatInt(v), v);
  }

  /** One wrap: a value just above the int64 range comes back 2^64 lower. */
  lemma WrapOnce(x: int)
    requires MaxInt64 < x <= MaxInt64 + TwoTo64
    ensures Wrap64(x) == x - TwoTo64
  {
    var y := x - MinInt64;
    assert TwoTo64 <= y < 2 * TwoTo64;
    assert y / TwoTo64 == 1;
  }

  /** The wrap-around changes the result exactly for v >= 9223372036855: the
      as-written and the intended reading agree on the decimal string of an
      int64 iff it is below that value. */
  lemma AsWrittenAgreesIff(v: int)
    requires MinInt64 <= v <= MaxInt64
    ensures ParseUnixAsWritten(FormatInt(v)) == ParseUnix(FormatInt(v)) <==> v < 9_223_372_036_855
  {
    var s := FormatInt(v);
    ParseFormat(v);
    ReadsInt(s, v);
    if v > MillisThreshold {
      var ns := v * 1_000_000;
      if v >= 9_223_372_036_855 {
        assert MaxInt64 < ns;
        assert Nanos(UnixNano(Wrap64(ns))) != Nanos(UnixNano(ns));
      } else {
        assert ns <= MaxInt64;
      }
    }
  }

  /** Below the first count that wraps, the as-written reading is the
      intended one, whatever the string. */
  lemma AsWrittenAgreesBelow(s: string)
    requires ParseInt64(s).Some? ==> ParseInt64(s).value < 9_223_372_036_855
    ensures ParseUnixAsWritten(s) == ParseUnix(s)
  {
    if ParseInt64(s).Some? {
      var v := ParseInt64(s).value;
      ReadsInt(s, v);
      if v > MillisThreshold {
        assert v * 1_000_000 <= MaxInt64;
      }
    }
  }

  /** Millisecond counts from 9223372036855 (in the year 2262) up to
      18446744073709 wrap once: the as-written reading lands before 1970. */
  lemma WrapAroundBefore1970(v: int)
    requires 9_223_372_036_855 <= v <= 18_446_744_073_709
    ensures ParseUnix(FormatInt(v)).At? && Nanos(ParseUnix(FormatInt(v)).t) > 0
    ensures ParseUnixAsWritten(FormatInt(v)).At?
    ensures Nanos(ParseUnixAsWritten(FormatInt(v)).t) < 0
  {
    ParseFormat(v);
    ReadsInt(FormatInt(v), v);
    WrapOnce(v * 1_000_000);
  }

  /** The file meta GetDriveFileMeta returns for a document. */
  datatype FileMeta = FileMeta(createTime: string, latestModifyTime: string)

  /** GetDocxTimes: the request error, an error when no meta came back (an
      empty list or a nil first entry), or the two times, each None when its
      string is blank or not an integer. */
  function DocxTimes(metas: Result<seq<Option<FileMeta>>, string>)
    : (r: Result<(Option<Instant>, Option<Instant>), string>)
    ensures r.Ok? <==> metas.Ok? && |metas.value| > 0 && metas.value[0].Some?
    ensures metas.Err? ==> r == Err(metas.error)
    ensures metas.Ok? && !r.Ok? ==> r == Err(NoMetaError)
    ensures r.Ok? ==> var m := metas.value[0].value;
      (r.value.0.Some? <==> ParseUnix(m.createTime).At?) &&
      (r.value.0.Some? ==> r.value.0.value == ParseUnix(m.createTime).t) &&
      (r.value.1.Some? <==> ParseUnix(m.latestModifyTime).At?) &&
      (r.value.1.Some? ==> r.value.1.value == ParseUnix(m.latestModifyTime).t)
  {
    match metas
    case Err(e) => Err(e)
    case Ok(ms) =>
      if |ms| == 0 || ms[0].None? then Err(NoMetaError)
      else
        var m := ms[0].value;
        Ok((TimeOf(ParseUnix(m.createTime)), TimeOf(ParseUnix(m.latestModifyTime))))
  }

  /** DocxTimes reads the stamps as intended; GetDocxTimes as written gives
      the same instants unless a stamp is a millisecond count that wraps. */
  lemma DocxTimesAsWritten(metas: Result<seq<Option<FileMeta>>, string>)
    requires DocxTimes(metas).Ok?
    requires var m := metas.value[0].value;
      (ParseInt64(m.createTime).Some? ==> ParseInt64(m.createTime).value < 9_223_372_036_855) &&
      (ParseInt64(m.latestModifyTime).Some? ==> ParseInt64(m.latestModifyTime).value < 9_223_372_036_855)
    ensures var m := metas.value[0].value;
      DocxTimes(metas).value == (TimeOf(ParseUnixAsWritten(m.createTime)), TimeOf(ParseUnixAsWritten(m.latestModifyTime)))
  {
    var m := metas.value[0].value;
    AsWrittenAgreesBelow(m.createTime);
    AsWrittenAgreesBelow(m.latestModifyTime);
  }

  const NoMetaError := "no document metadata returned"

  function TimeOf(s: Stamp): Option<Instant> {
    if s.At? then Some(s.t) else None
  }
}
