/** java.time.Duration and java.time.Instant, with the arithmetic of the JDK made explicit:
    truncating division, the (int) narrowing cast, and normalised seconds/nanos pairs. */
module JavaTime {

  const NanosPerSecond: int := 1_000_000_000
  const SecondsPerMinute: int := 60

  const Int32Min: int := -0x8000_0000
  const Int32Max: int := 0x7FFF_FFFF

  type Nanos = n: int | 0 <= n < 1_000_000_000

  /** A Duration is a (possibly negative) number of whole seconds plus a nano adjustment
      in [0, 10^9), exactly as java.time.Duration stores it. */
  datatype Duration = Duration(seconds: int, nanos: Nanos)

  /** An Instant, as nanoseconds since 1970-01-01T00:00:00Z. */
  type Instant = int

  /** Instant.EPOCH. */
  const Epoch: Instant := 0

  /** The length of a duration in nanoseconds. */
  function TotalNanos(d: Duration): int {
    d.seconds * NanosPerSecond + d.nanos
  }

  /** Duration.ofMinutes(m). */
  function OfMinutes(m: int): Duration {
    Duration(m * SecondsPerMinute, 0)
  }

  /** Duration.isZero(). */
  predicate IsZero(d: Duration) {
    d.seconds == 0 && d.nanos == 0
  }

  /** Duration.isNegative(): since nanos is never negative, the sign is that of seconds. */
  predicate IsNegative(d: Duration) {
    d.seconds < 0
  }

  /** The sign test agrees with the length in nanoseconds. */
  lemma SignOfDuration(d: Duration)
    ensures IsNegative(d) <==> TotalNanos(d) < 0
    ensures IsZero(d) <==> TotalNanos(d) == 0
  {
    if d.seconds < 0 {
      assert d.seconds * NanosPerSecond <= -NanosPerSecond;
    } else if d.seconds > 0 {
      assert d.seconds * NanosPerSecond >= NanosPerSecond;
    }
  }

  /** Java's integer division, which truncates toward zero (Dafny's is Euclidean). */
  function TruncDiv(a: int, b: int): (q: int)
    requires b > 0
    ensures a >= 0 ==> q == a / b
    ensures a < 0 ==> q == -((-a) / b)
  {
    if a >= 0 then a / b else -((-a) / b)
  }

  /** Duration.toMinutes(): seconds / 60 with Java's truncating division. */
  function ToMinutes(d: Duration): int {
    TruncDiv(d.seconds, SecondsPerMinute)
  }

  /** The (int) narrowing cast of a long: keep the low 32 bits, read them as signed. */
  function ToInt32(x: int): (r: int)
    ensures Int32Min <= r <= Int32Max
    ensures (r - x) % 0x1_0000_0000 == 0
  {
    var m := x % 0x1_0000_0000;
    if m > Int32Max then m - 0x1_0000_0000 else m
  }

  /** A value that already fits in an int is left unchanged by the cast. */
  lemma ToInt32OfInt32(x: int)
    requires Int32Min <= x <= Int32Max
    ensures ToInt32(x) == x
  {
    if x < 0 {
      assert x % 0x1_0000_0000 == x + 0x1_0000_0000;
    }
  }

  /** Duration.between(a, b): the normalised duration from a to b. */
  function Between(a: Instant, b: Instant): (d: Duration)
    ensures TotalNanos(d) == b - a
  {
    Duration((b - a) / NanosPerSecond, (b - a) % NanosPerSecond)
  }

  /** Duration.compareTo: by seconds, then by nanos. */
  function CompareTo(d1: Duration, d2: Duration): int {
    if d1.seconds != d2.seconds then (if d1.seconds < d2.seconds then -1 else 1)
    else if d1.nanos != d2.nanos then (if d1.nanos < d2.nanos then -1 else 1)
    else 0
  }

  /** Comparing seconds first and nanos second orders durations by their length. */
  lemma CompareToIsByLength(d1: Duration, d2: Duration)
    ensures CompareTo(d1, d2) < 0 <==> TotalNanos(d1) < TotalNanos(d2)
    ensures CompareTo(d1, d2) == 0 <==> d1 == d2
  {
    if d1.seconds < d2.seconds {
      assert d1.seconds * NanosPerSecond + NanosPerSecond <= d2.seconds * NanosPerSecond;
    } else if d1.seconds > d2.seconds {
      assert d2.seconds * NanosPerSecond + NanosPerSecond <= d1.seconds * NanosPerSecond;
    }
  }
}
