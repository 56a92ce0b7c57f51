/**
 What the libraries around the server provide: handles of connections, which libevent may give out again once their
 connection is closed, and a clock that counts nanoseconds.
 */
module Environment {
  type Connection = nat

  const TICKS_PER_SECOND: int := 1_000_000_000
}
