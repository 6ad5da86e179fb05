/**
  `millis()` readings are `uint32_t`: elapsed time is their difference
  taken modulo 2^32, which stays right across one wrap of the counter.
 */
module Clock {

  const UInt32Limit: nat := 0x1_0000_0000

  /** `now - past` on `uint32_t` readings. */
  function Since(now: nat, past: nat): (d: nat)
    ensures d < UInt32Limit
    ensures past <= now < UInt32Limit ==> d == now - past
    ensures now < past < UInt32Limit ==> d == now + UInt32Limit - past
  {
    (now - past) % UInt32Limit
  }
}
