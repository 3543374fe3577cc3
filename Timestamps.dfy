/** Unix timestamps and .NET `DateTime` values. A `DateTime` is a count of
    100-nanosecond ticks since 0001-01-01T00:00:00 together with its kind
    (UTC, local or unspecified); the time zone that local values refer to is
    a parameter. */
module UsefulExtensions {
  import opened Wrappers

  const TicksPerMillisecond: int := 10_000
  const TicksPerSecond: int := 10_000_000
  /** 9999-12-31T23:59:59.9999999, the last instant a `DateTime` holds. */
  const MaxTicks: int := 3_155_378_975_999_999_999
  /** The bound `DateTime.AddSeconds` puts on the milliseconds it adds. */
  const MaxMillis: int := 315_537_897_600_000
  /** 1970-01-01T00:00:00 in ticks. */
  const UnixEpochTicks: int := 621_355_968_000_000_000
  /** The first and last whole Unix seconds a `DateTime` can hold. */
  const MinUnixSeconds: int := -62_135_596_800
  const MaxUnixSeconds: int := 253_402_300_799

  type Int32 = x: int | -0x8000_0000 <= x < 0x8000_0000
  type Int64 = x: int | -0x8000_0000_0000_0000 <= x < 0x8000_0000_0000_0000
  type Ticks = t: int | 0 <= t <= MaxTicks

  datatype DateTimeKind = Unspecified | Utc | Local

  datatype DateTime = DateTime(ticks: Ticks, kind: DateTimeKind)

  /** The exception `AddSeconds` throws for a result outside the range. */
  datatype Error = ArgumentOutOfRange

  /** The UTC offset, in ticks, of the machine's time zone: looked up by a UTC
      instant (for `ToLocalTime`) and by a local clock reading (for
      `ToUniversalTime`). */
  datatype TimeZone = TimeZone(offsetAtUtc: int -> int, offsetAtLocal: int -> int)

  const UnixEpoch: DateTime := DateTime(UnixEpochTicks, Utc)

  /** `DateTime.AddTicks`: throws when the result leaves the range. */
  function AddTicks(d: DateTime, value: int): Result<DateTime, Error>
  {
    var t := d.ticks + value;
    if t < 0 || t > MaxTicks then Err(ArgumentOutOfRange) else Ok(DateTime(t, d.kind))
  }

  /** `DateTime.AddSeconds` on a whole number of seconds: the seconds become
      milliseconds (exactly, for whole seconds), which must lie strictly
      within `MaxMillis`, and then ticks. */
  function AddSeconds(d: DateTime, seconds: int): (r: Result<DateTime, Error>)
    ensures r.Ok? <==> 0 <= d.ticks + seconds * TicksPerSecond <= MaxTicks
    ensures r.Ok? ==> r.value == DateTime(d.ticks + seconds * TicksPerSecond, d.kind)
  {
    var millis := seconds * 1000;
    if millis <= -MaxMillis || millis >= MaxMillis then Err(ArgumentOutOfRange)
    else AddTicks(d, millis * TicksPerMillisecond)
  }

  /** `ToDateTime(this int)`: never throws, since every 32-bit count of
      seconds from 1970 lands between the years 1901 and 2038. */
  function ToDateTime(timestamp: Int32): (r: DateTime)
    ensures r.kind == Utc
    ensures r.ticks == UnixEpochTicks + timestamp * TicksPerSecond
  {
    var d := AddSeconds(UnixEpoch, timestamp);
    assert d.Ok?;
    d.value
  }

  /** `ToDateTime(this Int64)`: throws unless the instant lies within the
      years 0001 to 9999. */
  function ToDateTimeInt64(timestamp: Int64): (r: Result<DateTime, Error>)
    ensures r.Ok? <==> MinUnixSeconds <= timestamp <= MaxUnixSeconds
    ensures r.Ok? ==> r.value.kind == Utc
    ensures r.Ok? ==> r.value.ticks == UnixEpochTicks + timestamp * TicksPerSecond
  {
    AddSeconds(UnixEpoch, timestamp)
  }

  /** Keeps a converted tick count within the range, as `DateTime`'s time
      zone conversions do instead of throwing. */
  function ClampTicks(t: int): Ticks
  {
    if t < 0 then 0 else if t > MaxTicks then MaxTicks else t
  }

  /** `DateTime.ToLocalTime`: a local value is returned as it is; a UTC or
      unspecified one is read as UTC and shifted by the zone's offset. */
  function ToLocalTime(d: DateTime, zone: TimeZone): (r: DateTime)
    ensures r.kind == Local
  {
    if d.kind == Local then d
    else DateTime(ClampTicks(d.ticks + zone.offsetAtUtc(d.ticks)), Local)
  }

  /** `DateTime.ToUniversalTime`: a UTC value is returned as it is; a local or
      unspecified one is read as local time and shifted back. */
  function ToUniversalTime(d: DateTime, zone: TimeZone): (r: DateTime)
    ensures r.kind == Utc
  {
    if d.kind == Utc then d
    else DateTime(ClampTicks(d.ticks - zone.offsetAtLocal(d.ticks)), Utc)
  }

  /** The whole seconds in a signed tick count, rounded toward zero as a cast
      from `double` to `Int64` rounds. */
  function TruncatedSeconds(ticks: int): (s: int)
    ensures 0 <= ticks ==> 0 <= s && s * TicksPerSecond <= ticks < s * TicksPerSecond + TicksPerSecond
    ensures ticks < 0 ==> s <= 0 && s * TicksPerSecond - TicksPerSecond < ticks <= s * TicksPerSecond
  {
    if ticks >= 0 then ticks / TicksPerSecond else -((-ticks) / TicksPerSecond)
  }

  /** `ToTimestamp`: the instant in UTC, less the epoch, in whole seconds. */
  function ToTimestamp(date: DateTime, zone: TimeZone): (r: Int64)
    ensures MinUnixSeconds <= r <= MaxUnixSeconds
    ensures r == TruncatedSeconds(ToUniversalTime(date, zone).ticks - UnixEpochTicks)
  {
    var utcDate := if date.kind == Utc then date else ToUniversalTime(date, zone);
    TruncatedSeconds(utcDate.ticks - UnixEpochTicks)
  }

  /** The millisecond check in `AddSeconds` never decides anything on its
      own: a whole number of seconds that passes the tick range check also
      passes it. */
  lemma MillisCheckIsRedundant(d: DateTime, seconds: int)
    ensures AddSeconds(d, seconds) == AddTicks(d, seconds * TicksPerSecond)
  {
  }

  /** A UTC instant on a whole second comes back from its timestamp. */
  lemma WholeSecondRoundTrip(date: DateTime, zone: TimeZone)
    requires date.kind == Utc
    requires (date.ticks - UnixEpochTicks) % TicksPerSecond == 0
    ensures ToDateTimeInt64(ToTimestamp(date, zone)) == Ok(date)
  {
    var offset := date.ticks - UnixEpochTicks;
    var k := offset / TicksPerSecond;
    assert offset == k * TicksPerSecond;
    var s := ToTimestamp(date, zone);
    if offset >= 0 {
      assert s * TicksPerSecond <= k * TicksPerSecond < s * TicksPerSecond + TicksPerSecond;
    } else {
      assert s * TicksPerSecond - TicksPerSecond < k * TicksPerSecond <= s * TicksPerSecond;
    }
    assert s == k;
  }

  lemma EpochIsZero()
    ensures ToDateTime(0) == UnixEpoch
    ensures ToDateTimeInt64(0) == Ok(UnixEpoch)
  {
  }

  /** The `int` and `Int64` overloads agree wherever both apply. */
  lemma OverloadsAgree(timestamp: Int32)
    ensures ToDateTimeInt64(timestamp) == Ok(ToDateTime(timestamp))
  {
  }

  /** Later timestamps give later instants. */
  lemma ToDateTimeIsMonotonic(t1: Int64, t2: Int64)
    requires MinUnixSeconds <= t1 < t2 <= MaxUnixSeconds
    ensures ToDateTimeInt64(t1).value.ticks < ToDateTimeInt64(t2).value.ticks
  {
  }

  /** A whole-second count comes back unchanged from a round trip, whatever
      the zone. */
  lemma RoundTrip(timestamp: Int64, zone: TimeZone)
    requires MinUnixSeconds <= timestamp <= MaxUnixSeconds
    ensures ToTimestamp(ToDateTimeInt64(timestamp).value, zone) == timestamp
  {
    var d := ToDateTimeInt64(timestamp).value;
    assert d.ticks - UnixEpochTicks == timestamp * TicksPerSecond;
    var s := TruncatedSeconds(timestamp * TicksPerSecond);
    if timestamp >= 0 {
      assert s * TicksPerSecond <= timestamp * TicksPerSecond < (s + 1) * TicksPerSecond;
    } else {
      assert (s - 1) * TicksPerSecond < timestamp * TicksPerSecond <= s * TicksPerSecond;
    }
  }

  lemma RoundTripInt32(timestamp: Int32, zone: TimeZone)
    ensures ToTimestamp(ToDateTime(timestamp), zone) == timestamp
  {
    OverloadsAgree(timestamp);
    RoundTrip(timestamp, zone);
  }

  /** A UTC value is used as it is: the zone plays no part. */
  lemma UtcIgnoresZone(date: DateTime, z1: TimeZone, z2: TimeZone)
    requires date.kind == Utc
    ensures ToTimestamp(date, z1) == ToTimestamp(date, z2)
  {
  }

  /** A local or unspecified value is converted to UTC first. */
  lemma NonUtcConvertedFirst(date: DateTime, zone: TimeZone)
    requires date.kind != Utc
    ensures ToTimestamp(date, zone) == ToTimestamp(ToUniversalTime(date, zone), zone)
  {
  }

  /** Fractions of a second are dropped toward zero: after the epoch the
      result rounds down, before it the result rounds up. */
  lemma TruncatesTowardZero(timestamp: Int32, fraction: int, zone: TimeZone)
    requires 0 < fraction < TicksPerSecond
    ensures var d := DateTime(ToDateTime(timestamp).ticks + fraction, Utc);
            ToTimestamp(d, zone) == if timestamp >= 0 then timestamp else timestamp + 1
  {
    var s := TruncatedSeconds(timestamp * TicksPerSecond + fraction);
    if timestamp >= 0 {
      assert s * TicksPerSecond <= timestamp * TicksPerSecond + fraction < (s + 1) * TicksPerSecond;
    } else {
      assert (s - 1) * TicksPerSecond < timestamp * TicksPerSecond + fraction <= s * TicksPerSecond;
    }
  }

  /** A UTC instant shown in local time still denotes the same timestamp when
      the zone reads its own local clock back to the same offset (no daylight
      saving change at that moment) and the shift stays within the range. */
  lemma LocalRoundTrip(timestamp: Int64, zone: TimeZone)
    requires MinUnixSeconds <= timestamp <= MaxUnixSeconds
    requires var u := UnixEpochTicks + timestamp * TicksPerSecond;
             var local := u + zone.offsetAtUtc(u);
             0 <= local <= MaxTicks && zone.offsetAtLocal(local) == zone.offsetAtUtc(u)
    ensures ToTimestamp(ToLocalTime(ToDateTimeInt64(timestamp).value, zone), zone) == timestamp
  {
    var d := ToDateTimeInt64(timestamp).value;
    assert ToUniversalTime(ToLocalTime(d, zone), zone) == d;
    RoundTrip(timestamp, zone);
  }
}
