/**
 * The Redis commands the response cache issues (GET, SET, SETEX, INCR), over an
 * in-memory picture of the keyspace. Expiry is not modelled: a key set with a
 * time to live stays until it is overwritten.
 */
module Redis {
  import opened Wrappers
  import opened Decimal

  const MaxI64: int := 0x7FFF_FFFF_FFFF_FFFF
  const MinI64: int := -0x8000_0000_0000_0000

  /** The keyspace, and whether the server can be reached at all. */
  datatype Store = Store(data: map<string, string>, online: bool)

  /** Why a command failed: no connection, or the error reply Redis sends back. */
  datatype Failure = Unreachable | NotAnInteger | Overflow | InvalidExpireTime

  /** The integer a stored value holds for INCR: its printed form, within the signed 64-bit range. */
  function ParseI64(s: string): Option<int>
  {
    match ParseInteger(s)
    case Some(n) => if MinI64 <= n <= MaxI64 then Some(n) else None
    case None => None
  }

  /** GET: the value under `key`, if any. */
  function Get(s: Store, key: string): (r: Result<Option<string>, Failure>)
    ensures r.Ok? <==> s.online
    ensures r.Ok? ==> (r.value.Some? <==> key in s.data)
    ensures r.Ok? && r.value.Some? ==> r.value.value == s.data[key]
  {
    if !s.online then Err(Unreachable)
    else if key in s.data then Ok(Some(s.data[key]))
    else Ok(None)
  }

  /** SET: `key` now holds `value`; every other key is untouched. */
  function Set(s: Store, key: string, value: string): (r: Result<Store, Failure>)
    ensures r.Ok? <==> s.online
    ensures r.Ok? ==> r.value.online && r.value.data == s.data[key := value]
  {
    if !s.online then Err(Unreachable) else Ok(s.(data := s.data[key := value]))
  }

  /**
   * The largest time to live, in seconds, that SETEX accepts: Redis 7 refuses a
   * number of seconds whose count of milliseconds would not fit in 64 bits.
   */
  const MaxExpireSeconds: int := MaxI64 / 1000

  /**
   * SETEX: as SET, but the time to live must be a signed 64-bit integer, or Redis
   * answers that it is not an integer, and positive and at most
   * `MaxExpireSeconds`, or Redis answers that the expire time is invalid.
   */
  function SetEx(s: Store, key: string, ttlSeconds: int, value: string): (r: Result<Store, Failure>)
    ensures r.Ok? <==> s.online && 0 < ttlSeconds <= MaxExpireSeconds
    ensures r.Ok? ==> r.value.online && r.value.data == s.data[key := value]
    ensures r == Err(Unreachable) <==> !s.online
    ensures r == Err(NotAnInteger) <==> s.online && !(MinI64 <= ttlSeconds <= MaxI64)
    ensures r == Err(InvalidExpireTime) <==> (s.online && MinI64 <= ttlSeconds <= MaxI64
                                              && (ttlSeconds <= 0 || ttlSeconds > MaxExpireSeconds))
  {
    if !s.online then Err(Unreachable)
    else if !(MinI64 <= ttlSeconds <= MaxI64) then Err(NotAnInteger)
    else if ttlSeconds <= 0 || ttlSeconds > MaxExpireSeconds then Err(InvalidExpireTime)
    else Ok(s.(data := s.data[key := value]))
  }

  /**
   * INCR: add one to the integer under `key`, an absent key counting as 0, and
   * return the new count. A value that is not a signed 64-bit integer, or one
   * already at the maximum, is an error and leaves the store as it was.
   */
  function Incr(s: Store, key: string): (r: Result<(Store, int), Failure>)
    ensures r.Ok? ==> s.online && r.value.0.online
    ensures r.Ok? ==> key !in s.data ==> r.value.1 == 1
    ensures r.Ok? ==> key in s.data ==> ParseI64(s.data[key]) == Some(r.value.1 - 1)
    ensures r.Ok? ==> r.value.0.data == s.data[key := IntToString(r.value.1)]
    ensures r.Ok? ==> ParseI64(r.value.0.data[key]) == Some(r.value.1)
    ensures r.Err? ==> !s.online || (key in s.data && (ParseI64(s.data[key]) == None || ParseI64(s.data[key]) == Some(MaxI64)))
  {
    if !s.online then Err(Unreachable)
    else
      var current := if key in s.data then ParseI64(s.data[key]) else Some(0);
      match current
      case None => Err(NotAnInteger)
      case Some(n) =>
        if n == MaxI64 then Err(Overflow)
        else
          IntToStringParses(n + 1);
          Ok((s.(data := s.data[key := IntToString(n + 1)]), n + 1))
  }
}
