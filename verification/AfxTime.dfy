/** Points in time as seconds and microseconds (struct timeval). */
module AfxTime {

  datatype Time = Time(sec: int, usec: int)

  ghost predicate Normal(t: Time) { 0 <= t.usec < 1000000 }

  function Micros(t: Time): int { t.sec * 1000000 + t.usec }

  /** The comparison of afx_timer_insert: positive, zero or negative as `a` is after, at or before `b`. */
  function Compare(a: Time, b: Time): (r: int)
    ensures Normal(a) && Normal(b) ==> (r > 0 <==> Micros(a) > Micros(b))
  {
    if a.sec != b.sec then a.sec - b.sec else a.usec - b.usec
  }

  /** A time `timeout` milliseconds after `t`. */
  function AddTimeout(t: Time, timeout: nat): (r: Time)
    ensures Normal(t) ==> Normal(r) && Micros(r) == Micros(t) + timeout * 1000
  {
    var sec, usec := t.sec + timeout / 1000, t.usec + timeout % 1000 * 1000;
    if usec >= 1000000 then Time(sec + 1, usec - 1000000) else Time(sec, usec)
  }

  /** The whole milliseconds from `now` until `end`, for poll(). */
  function PollTimeout(end: Time, now: Time): (ms: int)
    requires Normal(end) && Normal(now) && Micros(end) > Micros(now)
    ensures ms >= 0 && ms * 1000 <= Micros(end) - Micros(now) < (ms + 1) * 1000
  {
    var sec, usec := end.sec - now.sec, end.usec - now.usec;
    if usec < 0 then sec * 1000 - 1000 + (1000000 + usec) / 1000 else sec * 1000 + usec / 1000
  }
}
