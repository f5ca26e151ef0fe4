/**
 The rate limiter: a clamped moving average of the gaps between messages, with hysteresis, computed in 32-bit
 integers with truncating division. Times are milliseconds.
 */
module RateLimit {

  // ---- 32-bit arithmetic ----

  const MOD: int := 0x1_0000_0000
  const HALF: int := 0x8000_0000

  predicate Int32(x: int) { -HALF <= x < HALF }

  // The 32-bit value of x: the high bits are lost.
  function Wrap(x: int): (r: int)
    ensures Int32(r)
    ensures Int32(x) ==> r == x
  {
    (x + HALF) % MOD - HALF
  }

  // Division that truncates toward zero.
  function Trunc(a: int, b: int): int
    requires b > 0
  {
    if a >= 0 then a / b else -((-a) / b)
  }

  lemma ShiftMod(a: int, k: int)
    ensures (a + k * MOD) % MOD == a % MOD
  {
  }

  // Wrapping both terms first changes nothing: the sum only counts modulo 2^32.
  lemma WrapSum(a: int, b: int)
    ensures Wrap(Wrap(a) + Wrap(b)) == Wrap(a + b)
  {
    var i, j := (a + HALF) / MOD, (b + HALF) / MOD;
    assert Wrap(a) == a - i * MOD && Wrap(b) == b - j * MOD;
    ShiftMod(Wrap(a) + Wrap(b) + HALF, i + j);
    assert (i + j) * MOD == i * MOD + j * MOD;
  }

  // ---- CheckRateLimit ----

  datatype Status = Clear | Alert | Limited | Disconnect

  datatype RateClass = RateClass(window: int, clear: int, alert: int, limit: int, disconnect: int, max: int)

  // A weighted sum divided by the window size and held to the maximum.
  function Average(sum: int, window: int, max: int): int
    requires window > 0
  {
    var avg := Trunc(sum, window);
    if avg > max then max else avg
  }

  // The new average for a gap of `elapsed` milliseconds.
  function NewLevel(c: RateClass, level: int, elapsed: int): int
    requires c.window > 0
  {
    Average(Wrap(Wrap(level * (c.window - 1)) + Wrap(elapsed)), c.window, c.max)
  }

  function StatusOf(c: RateClass, level: int, limitedNow: bool): Status {
    if level < c.disconnect then Disconnect
    else if limitedNow && level >= c.clear then Clear
    else if limitedNow then Limited
    else if level < c.limit then Limited
    else if level < c.alert then Alert
    else Clear
  }

  // A class whose levels are in order and whose numbers leave room in 32 bits, as all the default ones do.
  predicate Sane(c: RateClass) {
    && 1 <= c.window
    && 0 < c.disconnect <= c.limit <= c.alert <= c.clear <= c.max - 150
    && c.max <= 0x100_0000 && c.max * c.window < HALF
  }

  const DEFAULTS := [
    RateClass(80, 2500, 2000, 1500, 800, 6000),
    RateClass(80, 3000, 2000, 1500, 1000, 6000),
    RateClass(20, 5100, 5000, 4000, 3000, 6000),
    RateClass(20, 5500, 5300, 4200, 3000, 8000),
    RateClass(10, 5500, 5300, 4200, 3000, 8000)]

  lemma DefaultsSane()
    ensures |DEFAULTS| == 5 && forall i :: 0 <= i < |DEFAULTS| ==> Sane(DEFAULTS[i])
  {
    forall i | 0 <= i < |DEFAULTS| ensures Sane(DEFAULTS[i]) {
      if { case i == 0 => case i == 1 => case i == 2 => case i == 3 => case i == 4 => }
    }
  }

  // ---- When the 32-bit computation is the intended one ----

  // The average of unbounded integers.
  function Intended(c: RateClass, level: int, elapsed: int): int
    requires c.window > 0
  {
    Average(level * (c.window - 1) + elapsed, c.window, c.max)
  }

  lemma Nonneg(a: int, b: int)
    requires a >= 0 && b >= 0
    ensures a * b >= 0
  {
  }

  lemma QuotientAtLeast(a: int, b: int, q: int)
    requires b > 0 && a >= 0
    ensures a / b >= q <==> a >= q * b
    ensures a / b * b <= a < (a / b + 1) * b
  {
    var d := a / b;
    assert a == d * b + a % b;
    if d >= q {
      Nonneg(d - q, b);
      assert (d - q) * b == d * b - q * b;
    } else {
      Nonneg(q - d - 1, b);
      assert (q - d - 1) * b == q * b - d * b - b;
    }
  }

  lemma AverageAtMax(sum: int, window: int, max: int)
    requires window > 0 && max > 0
    ensures Average(sum, window, max) == max <==> sum >= max * window
  {
    Nonneg(max, window);
    if sum >= 0 {
      QuotientAtLeast(sum, window, max);
    } else {
      assert -sum / window >= 0;
    }
  }

  // For a gap of any length and either sign, the computed average is the intended one if and only if the weighted sum
  // fits in 32 bits or is too large and wraps around to a value that the clamp hides.
  lemma NewLevelExactly(c: RateClass, level: int, elapsed: int)
    requires Sane(c) && 0 <= level <= c.max
    ensures var s := level * (c.window - 1) + elapsed;
      (NewLevel(c, level, elapsed) == Intended(c, level, elapsed)
       <==> Int32(s) || (s > 0 && Wrap(s) >= c.max * c.window))
  {
    WrapSum(level * (c.window - 1), elapsed);
    var s := level * (c.window - 1) + elapsed;
    AverageAtMax(s, c.window, c.max);
    AverageAtMax(Wrap(s), c.window, c.max);
    ProductMonotone(c.max, 1, c.window + 1);
    if s < -HALF { TooNegative(s, c.window, c.max); }
  }

  lemma WrapTurns(s: int) returns (k: int)
    requires s < -HALF
    ensures k >= 1 && Wrap(s) == s + k * MOD
  {
    k := -((s + HALF) / MOD);
  }

  lemma AddQuotient(m: int, n: int, w: int)
    requires 0 < w <= n && m >= 0
    ensures (m + n) / w > m / w
  {
    QuotientAtLeast(m, w, m / w);
    QuotientAtLeast(m + n, w, m / w + 1);
    assert (m / w + 1) * w == m / w * w + w;
  }

  lemma AveragesApart(s: int, x: int, window: int, max: int)
    requires s < -HALF && x >= s + MOD && 0 < window <= HALF && max > 0
    ensures Average(x, window, max) > Average(s, window, max)
  {
    QuotientAtLeast(-s, window, 1);
    if x >= 0 {
      QuotientAtLeast(x, window, 0);
    } else {
      AddQuotient(-x, x - s, window);
      assert -x + (x - s) == -s;
    }
  }

  // A sum below the 32 bits comes out larger than it is.
  lemma TooNegative(s: int, window: int, max: int)
    requires s < -HALF && 0 < window <= HALF && max > 0
    ensures Average(Wrap(s), window, max) > Average(s, window, max)
  {
    var k := WrapTurns(s);
    AveragesApart(s, Wrap(s), window, max);
  }

  // A user who stays silent for some 25 days is disconnected at the next message.
  lemma LongSilenceDisconnects()
    ensures StatusOf(DEFAULTS[0], NewLevel(DEFAULTS[0], 6000, HALF), false) == Disconnect
  {
    WrapSum(6000 * 79, HALF);
  }

  // A gap short enough that nothing wraps. It can be negative: the time of a message may be taken before that of the
  // one evaluated before it.
  predicate Timely(c: RateClass, elapsed: int)
  {
    -HALF <= elapsed < HALF - c.max * (c.window - 1)
  }

  lemma TimelySum(c: RateClass, level: int, elapsed: int)
    requires Sane(c) && 0 <= level <= c.max && Timely(c, elapsed)
    ensures elapsed <= level * (c.window - 1) + elapsed
    ensures NewLevel(c, level, elapsed) == Intended(c, level, elapsed)
  {
    Nonneg(level, c.window - 1);
    Nonneg(c.max - level, c.window - 1);
    assert (c.max - level) * (c.window - 1) == c.max * (c.window - 1) - level * (c.window - 1);
    NewLevelExactly(c, level, elapsed);
  }

  lemma AverageBounds(sum: int, window: int, max: int)
    requires sum >= 0 && window > 0 && max > 0
    ensures var x := Average(sum, window, max);
      0 <= x <= max && x * window <= sum && (x < max ==> sum < (x + 1) * window)
  {
    var q := sum / window;
    QuotientAtLeast(sum, window, max);
    if q > max {
      assert Average(sum, window, max) == max && max * window <= sum;
    } else {
      assert Average(sum, window, max) == q;
      assert q >= 0 by { QuotientAtLeast(sum, window, 0); }
    }
  }

  lemma NegativeAverage(sum: int, window: int, max: int)
    requires sum < 0 && window > 0 && max > 0
    ensures Average(sum, window, max) <= 0
  {
    QuotientAtLeast(-sum, window, 0);
  }

  // What one message does to the average: it never exceeds the weighted mean nor the maximum.
  lemma LevelBounds(c: RateClass, level: int, elapsed: int)
    requires Sane(c) && 0 <= level <= c.max && Timely(c, elapsed)
    requires elapsed >= 0 || NewLevel(c, level, elapsed) > 0
    ensures var x := NewLevel(c, level, elapsed);
      && 0 <= x <= c.max
      && x * c.window <= level * (c.window - 1) + elapsed
      && (x < c.max ==> level * (c.window - 1) + elapsed < (x + 1) * c.window)
  {
    TimelySum(c, level, elapsed);
    if level * (c.window - 1) + elapsed < 0 { NegativeAverage(level * (c.window - 1) + elapsed, c.window, c.max); }
    AverageBounds(level * (c.window - 1) + elapsed, c.window, c.max);
  }

  // With a gap below the level, the average strictly falls.
  lemma LevelFalls(c: RateClass, level: int, elapsed: int)
    requires Sane(c) && 0 < level <= c.max && Timely(c, elapsed) && elapsed < level
    ensures NewLevel(c, level, elapsed) < level
  {
    TimelySum(c, level, elapsed);
    var s := level * (c.window - 1) + elapsed;
    LessOne(level, c.window);
    if s < 0 { NegativeAverage(s, c.window, c.max); } else { QuotientAtLeast(s, c.window, level); }
  }

  lemma LessOne(x: int, w: int)
    ensures x * (w - 1) == x * w - x
  {
  }

  // A gap below the maximum pulls the average below the maximum.
  lemma BelowMax(c: RateClass, level: int, elapsed: int)
    requires Sane(c) && 0 <= level <= c.max && Timely(c, elapsed) && elapsed < c.max
    ensures NewLevel(c, level, elapsed) < c.max
  {
    TimelySum(c, level, elapsed);
    ProductMonotone(c.max, level, c.window);
    LessOne(level, c.window);
    LessOne(c.max, c.window);
    AverageAtMax(level * (c.window - 1) + elapsed, c.window, c.max);
  }

  // With gap and level both at least a, it stays there.
  lemma LevelHolds(c: RateClass, level: int, elapsed: int, a: int)
    requires Sane(c) && 0 <= level <= c.max && Timely(c, elapsed)
    requires elapsed >= 0 && elapsed >= a && level >= a && c.max >= a
    ensures NewLevel(c, level, elapsed) >= a
  {
    TimelySum(c, level, elapsed);
    var s := level * (c.window - 1) + elapsed;
    ProductMonotone(level, a, c.window);
    QuotientAtLeast(s, c.window, a);
  }

  lemma ProductMonotone(x: int, a: int, w: int)
    requires x >= a && w >= 1
    ensures x * (w - 1) >= a * w - a
  {
    Nonneg(x - a, w - 1);
    assert (x - a) * (w - 1) == x * (w - 1) - a * (w - 1);
    assert a * (w - 1) == a * w - a;
  }
}
