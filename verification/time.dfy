/**
 * Instants as .NET keeps them: a count of 100-nanosecond ticks since
 * 0001-01-01T00:00:00 UTC, representable from 0 to the last tick of
 * 9999-12-31. The engine meets two encodings of an instant:
 *  - POSIX seconds since the epoch (Base Definitions of POSIX.1-2017,
 *    section 4.16), read by `DateTimeOffset.FromUnixTimeSeconds`;
 *  - a Windows FILETIME, 100-nanosecond units since 1601-01-01 UTC, read by
 *    `DateTimeOffset.FromFileTime`.
 * Both conversions throw for an instant outside the representable range.
 */
module Time {
  import opened Wrappers

  const TicksPerSecond := 10_000_000
  /** The last representable tick: 9999-12-31T23:59:59.9999999. */
  const MaxTicks := 3_155_378_975_999_999_999
  /** 1970-01-01T00:00:00 UTC, 719162 days after 0001-01-01. */
  const UnixEpochTicks := 621_355_968_000_000_000
  /** 1601-01-01T00:00:00 UTC, 584388 days after 0001-01-01. */
  const FileTimeEpochTicks := 504_911_232_000_000_000
  /** The bounds `FromUnixTimeSeconds` checks its argument against. */
  const MinUnixSeconds := -62_135_596_800
  const MaxUnixSeconds := 253_402_300_799

  predicate Representable(ticks: int) {
    0 <= ticks <= MaxTicks
  }

  /** `ToUnixTimeSeconds`: whole seconds since the Unix epoch. */
  function ToUnixTimeSeconds(ticks: int): int
    requires Representable(ticks)
  {
    ticks / TicksPerSecond - UnixEpochTicks / TicksPerSecond
  }

  /**
   * `DateTimeOffset.FromUnixTimeSeconds(seconds)` as UTC ticks: it succeeds
   * exactly when the instant is representable.
   */
  function FromUnixTimeSeconds(seconds: int): (r: Option<int>)
    ensures r.Some? <==> Representable(seconds * TicksPerSecond + UnixEpochTicks)
    ensures r.Some? ==> Representable(r.value)
  {
    if seconds < MinUnixSeconds || seconds > MaxUnixSeconds then None
    else Some(seconds * TicksPerSecond + UnixEpochTicks)
  }

  /** The instant falls on a whole second and reads back as the same number of seconds. */
  lemma UnixSecondsReadBack(seconds: int)
    requires FromUnixTimeSeconds(seconds).Some?
    ensures FromUnixTimeSeconds(seconds).value % TicksPerSecond == 0
    ensures ToUnixTimeSeconds(FromUnixTimeSeconds(seconds).value) == seconds
  {
  }

  lemma UnixSecondsRoundTrip(ticks: int)
    requires Representable(ticks) && ticks % TicksPerSecond == 0
    ensures FromUnixTimeSeconds(ToUnixTimeSeconds(ticks)) == Some(ticks)
  {
  }

  /** `ToFileTime`: 100-nanosecond units since 1601-01-01 UTC. */
  function ToFileTime(ticks: int): int {
    ticks - FileTimeEpochTicks
  }

  /**
   * `DateTimeOffset.FromFileTime(fileTime)` as UTC ticks: it succeeds
   * exactly when the file time is not negative and the instant is
   * representable, and it reads back as the same file time.
   */
  function FromFileTime(fileTime: int): (r: Option<int>)
    ensures r.Some? <==> 0 <= fileTime && Representable(fileTime + FileTimeEpochTicks)
    ensures r.Some? ==> Representable(r.value) && ToFileTime(r.value) == fileTime
  {
    if fileTime < 0 || fileTime > MaxTicks - FileTimeEpochTicks then None
    else Some(fileTime + FileTimeEpochTicks)
  }

  lemma FileTimeRoundTrip(ticks: int)
    requires FileTimeEpochTicks <= ticks <= MaxTicks
    ensures FromFileTime(ToFileTime(ticks)) == Some(ticks)
  {
  }
}
