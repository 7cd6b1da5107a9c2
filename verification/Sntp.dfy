/** The SNTP clock check.  Instants are nanoseconds since the Unix epoch; timestamps are those of RFC 4330. */
module Sntp {
  import opened Wildcards

  const NANOS := 1_000_000_000
  const TWO32 := 0x1_0000_0000
  const EPOCH_GAP := (70 * 365 + 17) * 24 * 60 * 60  // seconds from 1900 to 1970, seventeen of whose years were leap

  datatype Stamp = Stamp(sec: int, frac: int)

  /** Seconds are cut to 32 bits, the fraction is rounded down to a multiple of 2^-32 s. */
  function ToNtp(t: int): (s: Stamp)
    ensures 0 <= s.sec < TWO32 && 0 <= s.frac < TWO32
  {
    var nanos := t % NANOS;
    assert nanos * TWO32 < NANOS * TWO32;
    Stamp((t / NANOS + EPOCH_GAP) % TWO32, nanos * TWO32 / NANOS)
  }

  /** None is the zero time, which a query rejects. */
  function FromNtp(s: Stamp): Option<int> {
    if s.sec == 0 && s.frac == 0 then None
    else Some((s.sec - EPOCH_GAP) * NANOS + s.frac * NANOS / TWO32)
  }

  /** The timestamp as a fixed-point number of seconds since 1900, in units of 2^-32 s. */
  function Fixed(s: Stamp): int {
    s.sec * TWO32 + s.frac
  }

  /** Within the era a timestamp is the instant's time since 1900 rounded down to its unit. */
  lemma ToNtpRoundsDown(t: int)
    requires -EPOCH_GAP <= t / NANOS < TWO32 - EPOCH_GAP
    ensures Fixed(ToNtp(t)) * NANOS <= (t + EPOCH_GAP * NANOS) * TWO32 < (Fixed(ToNtp(t)) + 1) * NANOS
  {
    var s, n := t / NANOS, t % NANOS;
    assert t == s * NANOS + n;
    assert (s + EPOCH_GAP) % TWO32 == s + EPOCH_GAP;
    var f := n * TWO32 / NANOS;
    assert f * NANOS <= n * TWO32 < (f + 1) * NANOS;
  }

  /** And reading one gives its time rounded down to the nanosecond. */
  lemma FromNtpRoundsDown(s: Stamp)
    requires 0 <= s.sec < TWO32 && 0 <= s.frac < TWO32
    ensures FromNtp(s) == None <==> Fixed(s) == 0
    ensures FromNtp(s).Some? ==>
              var u := FromNtp(s).value + EPOCH_GAP * NANOS; u * TWO32 <= Fixed(s) * NANOS < (u + 1) * TWO32
  {
    var n := s.frac * NANOS / TWO32;
    assert n * TWO32 <= s.frac * NANOS < (n + 1) * TWO32;
  }

  // ---------------------------------------------------------------- round trip

  const FIVE9 := 1953125  // 5^9: a nanosecond count is a whole number of 2^-32 s only in multiples of this

  lemma FractionRoundTrip(n: int)
    requires 0 <= n < NANOS
    ensures (n * TWO32 / NANOS) * NANOS / TWO32 == if n % FIVE9 == 0 then n else n - 1
  {
    var f := n * TWO32 / NANOS;
    var r := n * TWO32 % NANOS;
    assert n * TWO32 == f * NANOS + r;
    RemainderZero(n);
    if r == 0 {
      assert f * NANOS == n * TWO32;
    } else {
      assert f * NANOS == (n - 1) * TWO32 + (TWO32 - r);
    }
  }

  /** 2^32 n is divisible by 10^9 exactly when n is divisible by 5^9. */
  lemma RemainderZero(n: int)
    requires 0 <= n
    ensures n * TWO32 % NANOS == 0 <==> n % FIVE9 == 0
  {
    if n % FIVE9 == 0 {
      var k := n / FIVE9;
      assert n == k * FIVE9;
      assert n * TWO32 == (k * 8388608) * NANOS;
    }
    if n * TWO32 % NANOS == 0 {
      var q := n * TWO32 / NANOS;
      assert n * TWO32 == q * NANOS;
      assert n * 8388608 == q * FIVE9;
      // 8388608 * INV - FIVE9 * COFACTOR == 1
      assert n == FIVE9 * (q * INV - n * COFACTOR);
    }
  }

  const INV := 1241897
  const COFACTOR := 5333907

  /**
   Within the 136 years whose seconds fit the timestamp, converting there and back gives the same instant when
   its nanoseconds are a multiple of 5^9 and one nanosecond less otherwise; the era's first instant decodes to
   the zero time.
   */
  lemma RoundTrip(t: int)
    requires -EPOCH_GAP <= t / NANOS < TWO32 - EPOCH_GAP
    ensures FromNtp(ToNtp(t)) == if t == -EPOCH_GAP * NANOS then None
                                 else Some(if t % FIVE9 == 0 then t else t - 1)
  {
    var s, n := t / NANOS, t % NANOS;
    FractionRoundTrip(n);
    assert t == s * NANOS + n;
    assert (s + EPOCH_GAP) % TWO32 == s + EPOCH_GAP;
    SameRemainder(s, n);
    FractionZero(n);
  }

  lemma SameRemainder(s: int, n: int)
    requires 0 <= n
    ensures (s * NANOS + n) % FIVE9 == n % FIVE9
  {
    var q, r := n / FIVE9, n % FIVE9;
    assert s * NANOS + n == (s * 512 + q) * FIVE9 + r;
    DivUnique(s * 512 + q, r, FIVE9);
  }

  lemma DivUnique(q: int, r: int, d: int)
    requires 0 <= r < d
    ensures (q * d + r) % d == r
  {
    var x := q * d + r;
    assert x == (x / d) * d + x % d;
    var k := q - x / d;
    assert k * d == x % d - r;
    assert k > 0 ==> k * d >= d;
    assert k < 0 ==> k * d <= -d;
  }

  lemma FractionZero(n: int)
    requires 0 <= n < NANOS
    ensures n * TWO32 / NANOS == 0 <==> n == 0
  {
    if n > 0 {
      assert n * TWO32 >= NANOS;
    }
  }

  /** Outside them the seconds wrap, and the result is off by whole eras. */
  lemma OtherErasWrap(t: int)
    requires !(-EPOCH_GAP <= t / NANOS < TWO32 - EPOCH_GAP)
    ensures FromNtp(ToNtp(t)) != Some(t) && FromNtp(ToNtp(t)) != Some(t - 1)
  {
    FractionRoundTrip(t % NANOS);
  }

  // ---------------------------------------------------------------- offset and round trip

  /** Go's division of a duration by two truncates toward zero. */
  function Half(x: int): int {
    if x >= 0 then x / 2 else -((-x) / 2)
  }

  /** Local minus reference. */
  function Offset(t1: int, t2: int, t3: int, t4: int): int {
    -Half((t2 - t1) + (t3 - t4))
  }

  function Rtt(t1: int, t2: int, t3: int, t4: int): int {
    (t4 - t1) - (t3 - t2)
  }

  function Abs(x: int): nat {
    if x < 0 then -x else x
  }

  /** One exchange: sent at reference time `sent`, out after `out`, held `held` by the server, back after `back`. */
  datatype Exchange = Exchange(sent: int, out: nat, held: nat, back: nat, skew: int)

  ghost predicate InEra(t: int) {
    -EPOCH_GAP * NANOS < t && t / NANOS < TWO32 - EPOCH_GAP
  }

  /** The measured round trip is the time on the way, to the nanosecond. */
  lemma RttIsTravelTime(x: Exchange)
    requires InEra(x.sent + x.out) && InEra(x.sent + x.out + x.held)
    ensures var received, sentBack := FromNtp(ToNtp(x.sent + x.out)), FromNtp(ToNtp(x.sent + x.out + x.held));
            var t1, t4 := x.sent + x.skew, x.sent + x.out + x.held + x.back + x.skew;
            && received.Some? && sentBack.Some?
            && Abs(Rtt(t1, received.value, sentBack.value, t4) - (x.out + x.back)) <= 1
  {
    RoundTrip(x.sent + x.out);
    RoundTrip(x.sent + x.out + x.held);
  }

  /** The measured offset is off by half the asymmetry of the two ways, up to 1.5 ns of rounding. */
  lemma OffsetErrorIsAsymmetry(x: Exchange)
    requires InEra(x.sent + x.out) && InEra(x.sent + x.out + x.held)
    ensures var received, sentBack := FromNtp(ToNtp(x.sent + x.out)), FromNtp(ToNtp(x.sent + x.out + x.held));
            var t1, t4 := x.sent + x.skew, x.sent + x.out + x.held + x.back + x.skew;
            && received.Some? && sentBack.Some?
            && -1 <= 2 * (Offset(t1, received.value, sentBack.value, t4) - x.skew) - (x.back - x.out) <= 3
  {
    RoundTrip(x.sent + x.out);
    RoundTrip(x.sent + x.out + x.held);
  }

  /** The measured offset is within half the measured round trip of the true skew, up to 1.5 ns of rounding. */
  lemma OffsetIsClose(x: Exchange)
    requires InEra(x.sent + x.out) && InEra(x.sent + x.out + x.held)
    ensures var received, sentBack := FromNtp(ToNtp(x.sent + x.out)), FromNtp(ToNtp(x.sent + x.out + x.held));
            var t1, t4 := x.sent + x.skew, x.sent + x.out + x.held + x.back + x.skew;
            && received.Some? && sentBack.Some?
            && 2 * Abs(Offset(t1, received.value, sentBack.value, t4) - x.skew)
               <= Rtt(t1, received.value, sentBack.value, t4) + 3
  {
    RoundTrip(x.sent + x.out);
    RoundTrip(x.sent + x.out + x.held);
  }

  /** The fail-closed check: refuse when the offset exceeds the bound. */
  predicate Passes(offset: int, maxSkew: int): (ok: bool)
    ensures ok <==> -maxSkew <= offset <= maxSkew
  {
    Abs(offset) <= maxSkew
  }

  /** Passing bounds the true skew; failing proves there is some, if the round trip was short enough. */
  lemma CheckBoundsTheSkew(x: Exchange, maxSkew: int)
    requires InEra(x.sent + x.out) && InEra(x.sent + x.out + x.held)
    ensures var received, sentBack := FromNtp(ToNtp(x.sent + x.out)), FromNtp(ToNtp(x.sent + x.out + x.held));
            var t1, t4 := x.sent + x.skew, x.sent + x.out + x.held + x.back + x.skew;
            && received.Some? && sentBack.Some?
            && var rtt := Rtt(t1, received.value, sentBack.value, t4);
               if Passes(Offset(t1, received.value, sentBack.value, t4), maxSkew)
               then 2 * Abs(x.skew) <= 2 * maxSkew + rtt + 3
               else 2 * Abs(x.skew) > 2 * maxSkew - rtt - 3
  {
    OffsetIsClose(x);
  }
}
