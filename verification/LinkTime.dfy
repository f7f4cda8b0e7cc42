/** Clock values of the link simulator: (seconds, microseconds) pairs, compared
    lexicographically although the microseconds of an expiration date are not carried. */
module LinkTime {
  type uint32 = n: nat | n < 0x1_0000_0000

  /** `RAND_PERCENT`, which has 101 values. */
  type percent = n: nat | n <= 100

  datatype Time = Time(sec: int, usec: int)

  /** `timeval_cmp`: is `left` later than `right`? */
  predicate After(left: Time, right: Time) {
    if left.sec == right.sec then left.usec > right.usec else left.sec > right.sec
  }

  /** What a clock reading satisfies. */
  predicate Normal(t: Time) { 0 <= t.usec < 1_000_000 }

  function Micros(t: Time): int { t.sec * 1_000_000 + t.usec }

  // ----- the delay applied to a packet -----

  /** The applied delay in ms: unsigned 32-bit arithmetic, then capped to 10 s. */
  function Capped(delay: uint32, up: bool, offset: uint32): (ms: nat)
    ensures ms < 10_000
  {
    (if up then delay + offset else delay - offset) % 0x1_0000_0000 % 10_000
  }

  function AppliedDelay(delay: uint32, jitter: uint32, coin: percent, draw: nat): (ms: nat)
    ensures ms < 10_000
  {
    if jitter == 0 then delay % 10_000 else Capped(delay, coin > 49, draw % jitter)
  }

  lemma TenSeconds(v: int, k: int)
    ensures (v + 10_000 * k) % 10_000 == v % 10_000
  {}

  lemma Wrapped(v: int)
    requires -0x1_0000_0000 <= v < 0x2_0000_0000
    ensures v % 0x1_0000_0000 ==
            v + (if v < 0 then 0x1_0000_0000 else if v < 0x1_0000_0000 then 0 else -0x1_0000_0000)
  {}

  /** 2^32 is 7296 modulo 10000. */
  lemma WrapShift(v: int)
    ensures (v + 0x1_0000_0000) % 10_000 == (v + 7296) % 10_000
    ensures (v - 0x1_0000_0000) % 10_000 == (v - 7296) % 10_000
  {
    TenSeconds(v + 7296, 429_496);
    TenSeconds(v - 7296, -429_496);
  }

  /** What is applied: ten seconds and their multiples are taken off the delay, which is lengthened by
      the draw modulo the jitter if the coin is 50 or more and else shortened by it. A delay
      shortened below 0 comes out 7.296 s too long, one beyond 32 bits as much too short. */
  lemma AppliedIs(delay: uint32, jitter: uint32, coin: percent, draw: nat)
    ensures jitter == 0 ==> AppliedDelay(delay, jitter, coin, draw) == delay % 10_000
    ensures jitter > 0 ==>
              AppliedDelay(delay, jitter, coin, draw) ==
              Shifted(if 50 <= coin then delay + draw % jitter else delay - draw % jitter) % 10_000
  {
    if jitter > 0 {
      var x := draw % jitter;
      var v := if 50 <= coin then delay + x else delay - x;
      Wrapped(v);
      WrapShift(v);
    }
  }

  function Shifted(v: int): int { if v < 0 then v + 7296 else if v < 0x1_0000_0000 then v else v - 7296 }

  lemma Remainder(x: nat, n: nat)
    requires n > 0
    ensures x % n < n && (x < n ==> x % n == x)
  {}

  /** With a jitter no longer than the delay, and below the cap, no multiple is taken off. */
  lemma AppliedNear(delay: uint32, jitter: uint32, coin: percent, draw: nat)
    requires 0 < jitter <= delay && delay + jitter <= 10_000
    ensures AppliedDelay(delay, jitter, coin, draw) ==
            if 50 <= coin then delay + draw % jitter else delay - draw % jitter
  {
    AppliedIs(delay, jitter, coin, draw);
    Remainder(draw, jitter);
    Remainder(if 50 <= coin then delay + draw % jitter else delay - draw % jitter, 10_000);
  }

  /** Then exactly the delays less than the jitter away from the given one are applied: no shorter
      ones for 51 of the 101 coins, no longer ones for the other 50. */
  lemma AppliedRange(delay: uint32, jitter: uint32, coin: percent, ms: nat)
    requires 0 < jitter <= delay && delay + jitter <= 10_000
    ensures (exists draw: nat :: AppliedDelay(delay, jitter, coin, draw) == ms)
            <==> if 50 <= coin then delay <= ms < delay + jitter else delay - jitter < ms <= delay
  {
    if draw: nat :| AppliedDelay(delay, jitter, coin, draw) == ms {
      AppliedNear(delay, jitter, coin, draw);
      Remainder(draw, jitter);
    }
    var draw := if 50 <= coin then ms - delay else delay - ms;
    if 0 <= draw < jitter {
      AppliedNear(delay, jitter, coin, draw);
      Remainder(draw, jitter);
    }
  }

  /** The documented delay + rand[-jitter, jitter] is what is applied exactly when the sum
      is below the cap and the difference does not go below 0; a negative difference
      wraps to a delay of its own. */
  lemma JitterAsDocumented(delay: uint32, up: bool, offset: uint32)
    ensures if up then Capped(delay, up, offset) == delay + offset <==> delay + offset < 10_000
            else Capped(delay, up, offset) == delay - offset <==> offset <= delay < offset + 10_000
  {}

  /** The expiration date of a packet that arrives at `clock`. */
  function Expiry(clock: Time, ms: nat): Time {
    Time(clock.sec + ms / 1000, clock.usec + ms % 1000 * 1000)
  }

  lemma ExpiryMicros(clock: Time, ms: nat)
    ensures Micros(Expiry(clock, ms)) == Micros(clock) + 1000 * ms
  {}

  /** The same delay on two arrivals keeps their order, microseconds uncarried or not. */
  lemma ExpiryKeepsOrder(c1: Time, c2: Time, ms: nat)
    ensures After(Expiry(c2, ms), Expiry(c1, ms)) <==> After(c2, c1)
  {}

  // ----- when a packet counts as expired -----

  /** A packet past its true deadline counts as expired. */
  lemma DeadlineExpires(arrival: Time, ms: nat, clock: Time)
    requires Normal(arrival) && Normal(clock)
    ensures Micros(clock) > Micros(arrival) + 1000 * ms ==> After(clock, Expiry(arrival, ms))
  {
    ExpiryMicros(arrival, ms);
  }

  /** Nothing expires before the clock has passed its arrival, nor more than
      998,999 microseconds before its true deadline. */
  lemma ExpiryNotTooEarly(arrival: Time, ms: nat, clock: Time)
    requires Normal(arrival) && Normal(clock) && After(clock, Expiry(arrival, ms))
    ensures After(clock, arrival)
    ensures Micros(clock) >= Micros(arrival) + 1000 * ms - 998_999
  {
    ExpiryMicros(arrival, ms);
    assert ms % 1000 * 1000 <= 999_000;
  }

  /** A packet counts as expired at or before its true deadline exactly when its
      microseconds overflowed a second and the clock is in the second after the date's,
      no later than the overflow. */
  lemma ExpiresEarlyIff(arrival: Time, ms: nat, clock: Time)
    requires Normal(arrival) && Normal(clock)
    ensures var ts := Expiry(arrival, ms);
            After(clock, ts) && Micros(clock) <= Micros(arrival) + 1000 * ms <==>
            clock.sec == ts.sec + 1 && clock.usec <= ts.usec - 1_000_000
  {
    ExpiryMicros(arrival, ms);
    assert ms % 1000 * 1000 <= 999_000;
  }

  /** The bound of 998,999 microseconds is reached. */
  lemma EarlyBoundIsReached()
    ensures var arrival, clock := Time(0, 999_999), Time(1, 0);
            After(clock, Expiry(arrival, 999)) && Micros(clock) == Micros(arrival) + 1000 * 999 - 998_999
  {}

  // ----- the time left -----

  /** `timeval_diff`: the borrow is skipped when the seconds come down to 0. */
  function Diff(a: Time, b: Time): Time {
    var sec, usec := a.sec - b.sec, a.usec - b.usec;
    if usec >= 0 then Time(sec, usec)
    else if sec - 1 != 0 then Time(sec - 1, usec + 1_000_000)
    else Time(0, usec)
  }

  /** The difference is exact but for that case, where it is one second short. */
  lemma DiffExactIff(a: Time, b: Time)
    ensures Micros(Diff(a, b)) == Micros(a) - Micros(b) <==> !(a.sec == b.sec + 1 && a.usec < b.usec)
    ensures Micros(Diff(a, b)) in {Micros(a) - Micros(b), Micros(a) - Micros(b) - 1_000_000}
  {}

  /** `get_queue_timeout` on the earliest date: 1 ms when it seems to have passed. */
  function Timeout(ts: Time, clock: Time): Time {
    var t := Diff(ts, clock);
    if t.sec < 0 || (t.sec == 0 && t.usec <= 0) then Time(0, 1000) else t
  }

  /** The timeout for a queued date is positive; it is the true remaining time when the date is
      ahead of the clock and no borrow into second 0 was skipped, and 1 ms in every other
      case: so never more than the longer of the two. */
  lemma TimeoutIff(ts: Time, clock: Time)
    requires 0 <= ts.usec && Normal(clock)
    ensures var left, t := Micros(ts) - Micros(clock), Micros(Timeout(ts, clock));
            && t == (if After(ts, clock) && !(ts.sec == clock.sec + 1 && ts.usec < clock.usec) then left else 1000)
            && 0 < t && (t <= left || t == 1000)
  {}

  /** Its parts: without a borrow, those of the difference; with one, microseconds below a second; and
      1 ms where the borrow was skipped. None is negative, so `select` is never given a negative
      time, but it is given a second or more of microseconds exactly when the date is ahead and
      its uncarried microseconds are that much beyond the clock's. */
  lemma TimeoutParts(ts: Time, clock: Time)
    requires 0 <= ts.usec && Normal(clock)
    ensures var t := Timeout(ts, clock);
            && 0 <= t.sec && 0 <= t.usec
            && (Normal(t) <==> !(After(ts, clock) && ts.usec - clock.usec >= 1_000_000))
            && (After(ts, clock) && clock.usec <= ts.usec ==>
                  t.sec == ts.sec - clock.sec && t.usec == ts.usec - clock.usec)
            && (After(ts, clock) && ts.usec < clock.usec && ts.sec - clock.sec != 1 ==>
                  t.sec == ts.sec - clock.sec - 1 && t.usec == 1_000_000 - (clock.usec - ts.usec))
            && (!After(ts, clock) || (ts.usec < clock.usec && ts.sec - clock.sec == 1) ==> t == Time(0, 1000))
  {}
}
