/**
 The few Redis commands the middleware relies on, as pure functions on one key.
 Times are seconds on the server clock; a key whose deadline has been reached no longer exists.
 */
module Redis {
  import opened Options

  datatype Expiry = Never | At(deadline: real)

  datatype Entry<+T> = Absent | Present(value: T, expiry: Expiry)

  predicate Live<T>(e: Entry<T>, now: real) {
    e.Present? && (e.expiry.Never? || now < e.expiry.deadline)
  }

  function Get<T>(e: Entry<T>, now: real): Option<T> {
    if Live(e, now) then Some(e.value) else None
  }

  /** SET key value EX ttl */
  function SetEx<T>(value: T, now: real, ttl: int): Entry<T> {
    Present(value, At(now + ttl as real))
  }

  /** INCR key: a missing key counts from zero and gets no deadline; a live key keeps its own. */
  function Incr(e: Entry<int>, now: real): Entry<int> {
    if Live(e, now) then Present(e.value + 1, e.expiry) else Present(1, Never)
  }

  /** EXPIRE key ttl: no effect on a missing key. */
  function Expire<T>(e: Entry<T>, now: real, ttl: int): Entry<T> {
    if Live(e, now) then Present(e.value, At(now + ttl as real)) else Absent
  }
}
