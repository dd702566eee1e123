/** Turning a time-to-live into an absolute expiry, and the expiry test.
    Instants and durations are counted in nanoseconds since the Unix epoch. */
module Expiry {
  import opened Words

  const NANOS_PER_MILLI := 1_000_000
  const MAX_DURATION := U64 * 1_000_000_000

  function Millis(instant: nat): (r: nat)
    ensures r < U64
  {
    (instant / NANOS_PER_MILLI) % U64
  }

  /** A sum past the largest duration falls back to the current instant. */
  function ExpiryMillis(now: nat, ttl: nat): (r: nat)
    ensures r < U64
  {
    Millis(if now + ttl < MAX_DURATION then now + ttl else now)
  }

  predicate IsExpired(expiry: nat, now: nat) {
    expiry <= Millis(now)
  }

  /** The clock can still be counted in 64 bits of milliseconds. */
  predicate ClockFits(now: nat) {
    now < U64 * NANOS_PER_MILLI
  }

  /** A key written at `now` with `ttl` is expired exactly from the millisecond of `now + ttl` on. */
  ghost predicate Honoured(now: nat, ttl: nat) {
    forall t: nat :: ClockFits(t) ==>
      (IsExpired(ExpiryMillis(now, ttl), t) <==> (now + ttl) / NANOS_PER_MILLI <= Millis(t))
  }

  lemma ExactMillis(t: nat)
    requires ClockFits(t)
    ensures Millis(t) == t / NANOS_PER_MILLI
  {
  }

  /** The time-to-live is honoured exactly when its deadline can be counted in 64 bits; a longer one
      wraps around, or is dropped altogether, and the key expires too early. */
  lemma HonouredIff(now: nat, ttl: nat)
    requires ClockFits(now)
    ensures Honoured(now, ttl) <==> ClockFits(now + ttl)
  {
    if ClockFits(now + ttl) {
      ExactMillis(now + ttl);
    } else {
      var last: nat := U64 * NANOS_PER_MILLI - 1;
      ExactMillis(last);
      assert IsExpired(ExpiryMillis(now, ttl), last);
    }
  }

  /** A key is never served past its deadline, and expires less than a millisecond before it. */
  lemma HonouredInNanos(now: nat, ttl: nat, t: nat)
    requires ClockFits(now + ttl) && ClockFits(t)
    ensures now + ttl <= t ==> IsExpired(ExpiryMillis(now, ttl), t)
    ensures t + NANOS_PER_MILLI <= now + ttl ==> !IsExpired(ExpiryMillis(now, ttl), t)
  {
    ExactMillis(now + ttl);
    ExactMillis(t);
  }

  /** A time-to-live that leaves the range of durations makes the key expire on the spot. */
  lemma OverlongTtlExpiresAtOnce(now: nat, ttl: nat)
    requires now + ttl >= MAX_DURATION
    ensures IsExpired(ExpiryMillis(now, ttl), now)
  {
  }
}
