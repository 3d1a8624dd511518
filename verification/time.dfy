/** Points in time as whole seconds since the Unix epoch, and the range an
    `OffsetDateTime` of the `time` crate can represent. */
module Time {
  import opened Wrappers

  /** `OffsetDateTime::UNIX_EPOCH`. */
  const UnixEpoch: int := 0

  /** The last second the date-time type can hold, 9999-12-31T23:59:59Z. */
  const MaxTimestamp: int := 253402300799

  /** The first second it can hold, -9999-01-01T00:00:00Z. */
  const MinTimestamp: int := -377705116800

  /** 1900-01-01T00:00:00Z: RFC 2822 formatting refuses earlier years. */
  const MinRfc2822Timestamp: int := -2208988800

  /** `OffsetDateTime::from_unix_timestamp`: fails outside the representable
      range. */
  function FromUnixTimestamp(t: int): (r: Result<int, ()>)
    ensures r.Ok? <==> MinTimestamp <= t <= MaxTimestamp
    ensures r.Ok? ==> r.value == t
  {
    if MinTimestamp <= t <= MaxTimestamp then Ok(t) else Err(())
  }
}
