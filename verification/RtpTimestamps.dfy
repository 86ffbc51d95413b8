/** Corrected RTP timestamps: 90 kHz ticks from the host's elapsed time, modulo 2^32. */
module RtpTimestamps {

  const RTP_CLOCK_FREQUENCY_HZ: nat := 90_000
  const NANOS_PER_SEC: int := 1_000_000_000
  const TIMESTAMPS: nat := 0x1_0000_0000
  const U64_SIZE: nat := 0x1_0000_0000_0000_0000
  const U128_SIZE: nat := U64_SIZE * U64_SIZE

  /** Elapsed time: `secs` is a `u64`, and `nanos` less than a second. */
  datatype Duration = Duration(secs: nat, nanos: nat)
  {
    predicate Valid() { secs < U64_SIZE && nanos < NANOS_PER_SEC }

    function AsNanos(): nat { secs * NANOS_PER_SEC + nanos }
  }

  /** The nearest tick to `nanos`. */
  function Ticks(nanos: nat): nat {
    (nanos * RTP_CLOCK_FREQUENCY_HZ + NANOS_PER_SEC / 2) / NANOS_PER_SEC
  }

  /** The corrected timestamp; truncating the ticks is the wrap-around of the 32-bit field. */
  function Correct(base: nat, elapsed: Duration): (timestamp: nat)
    requires base < TIMESTAMPS && elapsed.Valid()
  {
    (base + Ticks(elapsed.AsNanos()) % TIMESTAMPS) % TIMESTAMPS
  }

  /** The intermediate fits the 128 bits it is computed in. */
  lemma NoOverflow(elapsed: Duration)
    requires elapsed.Valid()
    ensures elapsed.AsNanos() * RTP_CLOCK_FREQUENCY_HZ + NANOS_PER_SEC / 2 < U128_SIZE
  {
    assert elapsed.AsNanos() < U64_SIZE * NANOS_PER_SEC;
  }

  /** The ticks are within half a tick of the exact 90 kHz value. */
  lemma TicksAreNearest(nanos: nat)
    ensures var error := 2 * (Ticks(nanos) * 1_000_000_000 - nanos * 90_000);
            -1_000_000_000 < error <= 1_000_000_000
  {
  }

  /**
   Over any stretch of time the ticks advance by the exact number within one tick, so no drift
   accumulates; they never go back, and a whole tick period always advances them.
   */
  lemma TicksKeepPace(earlier: nat, later: nat)
    requires earlier <= later
    ensures Ticks(earlier) <= Ticks(later)
    ensures var error := (Ticks(later) - Ticks(earlier)) * NANOS_PER_SEC - (later - earlier) * RTP_CLOCK_FREQUENCY_HZ;
            -NANOS_PER_SEC < error < NANOS_PER_SEC
    ensures (later - earlier) * RTP_CLOCK_FREQUENCY_HZ >= NANOS_PER_SEC ==> Ticks(earlier) < Ticks(later)
  {
    var a := earlier * RTP_CLOCK_FREQUENCY_HZ + NANOS_PER_SEC / 2;
    var b := later * RTP_CLOCK_FREQUENCY_HZ + NANOS_PER_SEC / 2;
    assert a == Ticks(earlier) * NANOS_PER_SEC + a % NANOS_PER_SEC;
    assert b == Ticks(later) * NANOS_PER_SEC + b % NANOS_PER_SEC;
  }

  /** The timestamp is the base plus the ticks, modulo 2^32. */
  lemma CorrectIsBasePlusTicks(base: nat, elapsed: Duration)
    requires base < TIMESTAMPS && elapsed.Valid()
    ensures Correct(base, elapsed) == (base + Ticks(elapsed.AsNanos())) % TIMESTAMPS
  {
    AddModulo(base, Ticks(elapsed.AsNanos()));
  }

  /** Whole seconds are 90000 ticks each, on a counter of 32 bits. */
  lemma WholeSeconds(base: nat, secs: nat)
    requires base < 4_294_967_296 && secs < 0x1_0000_0000_0000_0000
    ensures Correct(base, Duration(secs, 0)) == (base + 90_000 * secs) % 4_294_967_296
  {
    CorrectIsBasePlusTicks(base, Duration(secs, 0));
    assert Ticks(secs * 1_000_000_000) == 90_000 * secs;
  }

  lemma AddModulo(a: nat, b: nat)
    ensures (a + b % TIMESTAMPS) % TIMESTAMPS == (a + b) % TIMESTAMPS
  {
    var q := b / TIMESTAMPS;
    assert a + b == a + b % TIMESTAMPS + q * TIMESTAMPS;
    MultipleVanishes(a + b % TIMESTAMPS, q);
  }

  lemma {:induction false} MultipleVanishes(x: nat, q: nat)
    ensures (x + q * TIMESTAMPS) % TIMESTAMPS == x % TIMESTAMPS
  {
    if q > 0 {
      MultipleVanishes(x, q - 1);
      var y := x + (q - 1) * TIMESTAMPS;
      assert x + q * TIMESTAMPS == y + TIMESTAMPS;
      assert (y + TIMESTAMPS) % TIMESTAMPS == y % TIMESTAMPS;
    }
  }

  /**
   What a receiver subtracts: between two corrected timestamps the 32-bit difference is the
   difference of the ticks, modulo 2^32, across any number of wrap-arounds and for every base.
   */
  lemma DifferencesIgnoreBase(base: nat, earlier: Duration, later: Duration)
    requires base < TIMESTAMPS && earlier.Valid() && later.Valid() && earlier.AsNanos() <= later.AsNanos()
    ensures Ticks(earlier.AsNanos()) <= Ticks(later.AsNanos())
    ensures (Correct(base, later) - Correct(base, earlier)) % TIMESTAMPS
         == (Ticks(later.AsNanos()) - Ticks(earlier.AsNanos())) % TIMESTAMPS
  {
    TicksKeepPace(earlier.AsNanos(), later.AsNanos());
    CorrectIsBasePlusTicks(base, earlier);
    CorrectIsBasePlusTicks(base, later);
    SubtractModulo(base + Ticks(later.AsNanos()), base + Ticks(earlier.AsNanos()));
  }

  lemma SubtractModulo(a: nat, b: nat)
    requires b <= a
    ensures (a % TIMESTAMPS - b % TIMESTAMPS) % TIMESTAMPS == (a - b) % TIMESTAMPS
  {
    var d := a - b;
    AddModulo(d, b);
    var x, y := d % TIMESTAMPS, b % TIMESTAMPS;
    AddModulo(y, d);
    assert (x + y) % TIMESTAMPS == a % TIMESTAMPS;
    assert a % TIMESTAMPS == (if x + y < TIMESTAMPS then x + y else x + y - TIMESTAMPS);
  }
}
