/** Rates, ticks and the defaults of worker options.  Durations are nanoseconds,
    held in an int64 by the source; counts are uint32. */
module Options {

  const MILLISECOND := 1_000_000
  const SECOND := 1_000_000_000
  const HOUR := 3600 * SECOND
  const TWO_32 := 0x1_0000_0000
  const MAX_INT64 := 0x7FFF_FFFF_FFFF_FFFF

  function Min(a: int, b: int): int { if a <= b then a else b }

  function Max(a: int, b: int): int { if a >= b then a else b }

  /** Integer division that truncates toward zero, as Go's `/` does. */
  function Quo(a: int, b: int): int
    requires b > 0
  {
    if a >= 0 then a / b else -(-a / b)
  }

  function Milliseconds(d: int): int { Quo(d, MILLISECOND) }

  datatype TimerRate = TimerRate(count: nat, period: int) {

    /** Count times old period over new period, truncated. */
    function Rescale(newPeriod: int): TimerRate
      requires Milliseconds(period) >= 0 && Milliseconds(newPeriod) > 0
    {
      TimerRate(count * Milliseconds(period) / Milliseconds(newPeriod), newPeriod)
    }

    function Clamp(lo: TimerRate, hi: TimerRate): TimerRate
      requires Milliseconds(period) > 0 && Milliseconds(lo.period) >= 0 && Milliseconds(hi.period) >= 0
    {
      TimerRate(Max(Min(count, hi.Rescale(period).count), lo.Rescale(period).count), period)
    }

    function ClampPeriod(lo: int, hi: int): TimerRate
    {
      TimerRate(count, Max(Min(period, hi), lo))
    }

    /** The number of the period that contains an instant, cut to 32 bits. */
    function ToTicks(unixNano: nat): nat
      requires period > 0
    {
      unixNano / period % TWO_32
    }
  }

  lemma DivBounds(a: nat, b: nat)
    requires b > 0
    ensures a / b * b <= a < (a / b + 1) * b
  {
    assert a == a / b * b + a % b;
  }

  lemma MulLess(x: int, y: int, p: int)
    requires p > 0 && x * p < y * p
    ensures x < y
  {
    assert x >= y ==> (x - y) * p >= 0;
  }

  lemma DivAtMost(a: nat, b: nat, q: nat)
    requires b > 0
    ensures q <= a / b <==> q * b <= a
  {
    DivBounds(a, b);
    if q <= a / b {
      assert q * b <= a / b * b;
    } else {
      assert (a / b + 1) * b <= q * b;
    }
  }

  /** What rescaling keeps, up to the truncation, is count times period: a rate
      moved to a longer period allows fewer events in it, not more. */
  lemma RescaleKeepsProduct(r: TimerRate, newPeriod: int)
    requires Milliseconds(r.period) >= 0 && Milliseconds(newPeriod) > 0
    ensures var q := r.Rescale(newPeriod);
            && q.count * Milliseconds(newPeriod) <= r.count * Milliseconds(r.period)
            && r.count * Milliseconds(r.period) < (q.count + 1) * Milliseconds(newPeriod)
  {
    DivBounds(r.count * Milliseconds(r.period), Milliseconds(newPeriod));
  }

  /** Ten in thirty seconds is not rescaled to twenty in sixty. */
  lemma RescaleDoesNotKeepRate()
    ensures TimerRate(10, 30 * SECOND).Rescale(60 * SECOND) == TimerRate(5, 60 * SECOND)
  {
  }

  lemma MulStrict(x: int, y: int, p: int)
    requires p > 0 && x < y
    ensures x * p < y * p
  {
  }

  lemma MulWeak(x: int, y: int, p: int)
    requires p >= 0 && x <= y
    ensures x * p <= y * p
  {
  }

  lemma MillisecondsRise(a: int, b: int)
    requires a <= b
    ensures Milliseconds(a) <= Milliseconds(b)
  {
  }

  /** Rescaling to a longer period keeps or lowers the count, to a shorter one keeps
      or raises it. */
  lemma RescaleCount(r: TimerRate, newPeriod: int)
    requires Milliseconds(r.period) >= 0 && Milliseconds(newPeriod) > 0
    ensures r.period <= newPeriod ==> r.Rescale(newPeriod).count <= r.count
    ensures r.period >= newPeriod ==> r.Rescale(newPeriod).count >= r.count
  {
    var o, n := Milliseconds(r.period), Milliseconds(newPeriod);
    if r.period >= newPeriod {
      MillisecondsRise(newPeriod, r.period);
      MulWeak(n, o, r.count);
      DivAtMost(r.count * o, n, r.count);
    }
    if r.period <= newPeriod {
      MillisecondsRise(r.period, newPeriod);
      MulWeak(o, n, r.count);
      MulStrict(r.count, r.count + 1, n);
      DivAtMost(r.count * o, n, r.count + 1);
    }
  }

  /** The rate is kept, count over period to the nanosecond, only when there is
      nothing to rescale. */
  lemma RescaleKeepsRate(r: TimerRate, newPeriod: int)
    requires Milliseconds(r.period) >= 0 && Milliseconds(newPeriod) > 0
    ensures var q := r.Rescale(newPeriod);
            q.count * r.period == r.count * newPeriod <==> r.count == 0 || r.period == newPeriod
  {
    var c, q := r.count, r.Rescale(newPeriod).count;
    RescaleCount(r, newPeriod);
    if c == 0 {
      DivAtMost(0, Milliseconds(newPeriod), 1);
    } else if r.period < 0 {
      assert Milliseconds(r.period) == 0;
      DivAtMost(0, Milliseconds(newPeriod), 1);
      MulStrict(0, newPeriod, c);
    } else if r.period < newPeriod {
      MulWeak(q, c, r.period);
      MulStrict(r.period, newPeriod, c);
    } else if r.period > newPeriod {
      MulWeak(c, q, r.period);
      MulStrict(newPeriod, r.period, c);
    }
  }

  datatype Settings = Settings(
    retryDisabled: bool,
    retryBackoff: int,
    retryBackoffScale: real,
    retrySuccess: bool,
    retryLimit: TimerRate,
    maxMemory: int,
    minUptime: int,
    execTimeout: int,
    startTimeout: int,
    stopTimeout: int)

  /** The ranges that defaulting enforces. */
  predicate InRange(s: Settings)
  {
    && 30 * SECOND <= s.retryLimit.period <= HOUR
    && s.retryLimit.count <= 10
    && s.retryLimit.count * Milliseconds(s.retryLimit.period) <= 300_000
    && s.retryBackoffScale > 0.0
    && 500 * MILLISECOND <= s.retryBackoff
    && 250 * MILLISECOND <= s.stopTimeout <= 30 * SECOND
    && s.minUptime >= 0
  }

  function Defaulted(s: Settings): Settings
  {
    s.(retryLimit :=
         if s.retryLimit.period == 0 then TimerRate(10, 30 * SECOND)
         else s.retryLimit.ClampPeriod(30 * SECOND, HOUR).Clamp(TimerRate(0, SECOND), TimerRate(10, 30 * SECOND)),
       retryBackoffScale := if s.retryBackoffScale <= 0.0 then 2.0 else s.retryBackoffScale,
       retryBackoff := Max(s.retryBackoff, 500 * MILLISECOND),
       stopTimeout :=
         if s.stopTimeout > 0 then Max(Min(s.stopTimeout, 30 * SECOND), 250 * MILLISECOND) else 5 * SECOND,
       minUptime := if s.minUptime > 0 then s.minUptime else 0)
  }

  class Options {
    var retryDisabled: bool
    var retryBackoff: int
    var retryBackoffScale: real
    var retrySuccess: bool
    var retryLimit: TimerRate
    var maxMemory: int
    var minUptime: int
    var execTimeout: int
    var startTimeout: int
    var stopTimeout: int

    function Value(): Settings
      reads this
    {
      Settings(retryDisabled, retryBackoff, retryBackoffScale, retrySuccess, retryLimit,
               maxMemory, minUptime, execTimeout, startTimeout, stopTimeout)
    }

    /** The fields one after another, in the order of the source. */
    method WithDefaults()
      modifies this
      ensures Value() == Defaulted(old(Value()))
    {
      if retryLimit.period == 0 {
        retryLimit := TimerRate(10, 30 * SECOND);
      } else {
        var limit := retryLimit.ClampPeriod(30 * SECOND, HOUR);
        retryLimit := limit.Clamp(TimerRate(0, SECOND), TimerRate(10, 30 * SECOND));
      }
      if retryBackoffScale <= 0.0 {
        retryBackoffScale := 2.0;
      }
      retryBackoff := Max(retryBackoff, 500 * MILLISECOND);
      if stopTimeout > 0 {
        stopTimeout := Max(Min(stopTimeout, 30 * SECOND), 250 * MILLISECOND);
      } else {
        stopTimeout := 5 * SECOND;
      }
      if !(minUptime > 0) {
        minUptime := 0;
      }
    }
  }

  /** The most events the upper clamp allows in a period. */
  lemma ClampLimit(count: nat, period: int)
    requires 30 * SECOND <= period <= HOUR
    ensures var c := TimerRate(count, period).Clamp(TimerRate(0, SECOND), TimerRate(10, 30 * SECOND)).count;
            && c <= count && c <= 10 && c * Milliseconds(period) <= 300_000
            && (c == count <==> count * Milliseconds(period) <= 300_000)
  {
    var ms := Milliseconds(period);
    assert ms >= 30_000;
    var c := Min(count, 300_000 / ms);
    DivAtMost(300_000, ms, c);
    DivAtMost(300_000, ms, count);
    DivAtMost(300_000, ms, 11);
  }

  /** Whatever the options were, defaulting puts them in range, and options are
      already in range exactly when defaulting changes nothing. */
  lemma DefaultsAreInRange(s: Settings)
    ensures InRange(Defaulted(s))
    ensures Defaulted(s) == s <==> InRange(s)
  {
    var p := s.retryLimit.ClampPeriod(30 * SECOND, HOUR).period;
    ClampLimit(s.retryLimit.count, p);
  }

  /** `x` moved to the nearest point between the bounds. */
  predicate Nearest(x: int, lo: int, hi: int, y: int)
  {
    if x < lo then y == lo else if x > hi then y == hi else y == x
  }

  /** What defaulting makes of each field.  Unset: ten retries in thirty seconds, scale
      two, five seconds to stop, no minimum uptime.  Set: the period, the stop timeout
      and the backoff go to the nearest bound, and the count to the largest that ten in
      thirty seconds allows in that period.  The other fields stay. */
  lemma DefaultsOf(s: Settings)
    ensures var d := Defaulted(s);
            && (s.retryLimit.period == 0 ==> d.retryLimit == TimerRate(10, 30_000_000_000))
            && (s.retryLimit.period != 0 ==>
                  && Nearest(s.retryLimit.period, 30_000_000_000, 3600_000_000_000, d.retryLimit.period)
                  && d.retryLimit.count <= s.retryLimit.count
                  && d.retryLimit.count * Milliseconds(d.retryLimit.period) <= 300_000
                  && (d.retryLimit.count < s.retryLimit.count ==>
                        (d.retryLimit.count + 1) * Milliseconds(d.retryLimit.period) > 300_000))
            && d.retryBackoffScale == (if s.retryBackoffScale > 0.0 then s.retryBackoffScale else 2.0)
            && d.retryBackoff == (if s.retryBackoff >= 500_000_000 then s.retryBackoff else 500_000_000)
            && (s.stopTimeout > 0 ==> Nearest(s.stopTimeout, 250_000_000, 30_000_000_000, d.stopTimeout))
            && (s.stopTimeout <= 0 ==> d.stopTimeout == 5_000_000_000)
            && d.minUptime == (if s.minUptime > 0 then s.minUptime else 0)
            && d.retryDisabled == s.retryDisabled && d.retrySuccess == s.retrySuccess && d.maxMemory == s.maxMemory
            && d.execTimeout == s.execTimeout && d.startTimeout == s.startTimeout
  {
    if s.retryLimit.period != 0 {
      var period := s.retryLimit.ClampPeriod(30 * SECOND, HOUR).period;
      ClampLimit(s.retryLimit.count, period);
      ClampIsLargest(s.retryLimit.count, period);
    }
  }

  lemma ClampIsLargest(count: nat, period: int)
    requires 30 * SECOND <= period <= HOUR
    ensures var c := TimerRate(count, period).Clamp(TimerRate(0, SECOND), TimerRate(10, 30 * SECOND)).count;
            c < count ==> (c + 1) * Milliseconds(period) > 300_000
  {
    var ms := Milliseconds(period);
    assert ms >= 30_000;
    DivAtMost(300_000, ms, 300_000 / ms + 1);
  }

  /** The options of a worker `depth` levels below the root: `NewWorker` defaults
      the copy it is given at every level. */
  function WorkerOptions(root: Settings, depth: nat): Settings
  {
    if depth == 0 then Defaulted(root) else Defaulted(WorkerOptions(root, depth - 1))
  }

  /** With no modifiers, every worker of a tree of any depth has the root's options. */
  lemma {:induction false} SameOptionsAtEveryDepth(root: Settings, depth: nat)
    ensures WorkerOptions(root, depth) == Defaulted(root)
  {
    if depth > 0 {
      SameOptionsAtEveryDepth(root, depth - 1);
    }
    DefaultsAreInRange(root);
    DefaultsAreInRange(Defaulted(root));
  }

  /** The tick is the number of the period that contains the instant. */
  lemma TickContains(r: TimerRate, unixNano: nat)
    requires 30 * SECOND <= r.period && unixNano <= MAX_INT64
    ensures var tick := r.ToTicks(unixNano); tick * r.period <= unixNano < (tick + 1) * r.period
  {
    TicksFit(r, unixNano);
    DivBounds(unixNano, r.period);
  }

  /** With a period in range, every instant an int64 can hold after the epoch has a
      tick that fits in 32 bits and is not the sentinel. */
  lemma TicksFit(r: TimerRate, unixNano: nat)
    requires 30 * SECOND <= r.period && unixNano <= MAX_INT64
    ensures r.ToTicks(unixNano) == unixNano / r.period < 0xFFFF_FFFF
  {
    DivAtMost(unixNano, r.period, 0xFFFF_FFFF);
    assert 0xFFFF_FFFF * r.period >= 0xFFFF_FFFF * (30 * SECOND);
  }
}
