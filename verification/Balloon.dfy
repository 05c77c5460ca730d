/** The balloon controller of ghaf-mem-manager: rounded integer pressure, saturating targets, a
    hysteresis window, a clamp and a minimum interval between adjustments. */
module Balloon {
  import opened Arithmetic
  import opened Environment

  const MAX_CONSECUTIVE_ERRORS := 5

  type u8 = x: int | 0 <= x < 0x100

  function SaturatingSub(a: usize, b: usize): usize {
    if a < b then 0 else a - b
  }

  function SaturatingMul(a: usize, b: usize): usize {
    if a * b > USIZE_MAX then USIZE_MAX else a * b
  }

  function Clamp(x: usize, lo: usize, hi: usize): usize
    requires lo <= hi
  {
    if x < lo then lo else if x > hi then hi else x
  }

  /** The two reports the decision depends on; both are written by the guest. */
  datatype Stats = Stats(balloonSize: usize, available: usize) {

    function Reserved(): usize {
      SaturatingSub(balloonSize, available)
    }

    /** Used memory as a percentage, rounded half up. The division is done in u128, where
        nothing overflows, and the result is cast to u8. */
    function Pressure(): (p: u8)
      ensures p <= 100
      ensures balloonSize > 0 ==>
        2 * (p * balloonSize) - balloonSize <= 200 * Reserved() < 2 * (p * balloonSize) + balloonSize
    {
      if balloonSize == 0 then 100
      else
        PressureBounds(Reserved(), balloonSize);
        (Reserved() * 200 + balloonSize) / (balloonSize * 2)
    }

    /** The size at which the reserved memory would be `target` percent. */
    function Adjusted(target: u8): usize {
      if target == 0 then balloonSize
      else
        AdjustedBound(SaturatingMul(Reserved(), 100), target);
        SaturatingMul(Reserved(), 100) / target
    }

    /** The hysteresis window. `max - 2` wraps in u8 for max below 2, as in a release build. */
    function Window(min: u8, max: u8): Option<usize> {
      var p := Pressure();
      if p < min then Some(Adjusted(min))
      else if p > max then Some(Adjusted((max + 254) % 256))
      else None
    }
  }

  lemma PressureBounds(r: int, b: int)
    requires 0 <= r <= b && b > 0
    ensures var q := (r * 200 + b) / (b * 2);
      0 <= q <= 100 && 2 * (q * b) - b <= 200 * r < 2 * (q * b) + b
  {
    var q := (r * 200 + b) / (b * 2);
    QuotientBounds(r * 200 + b, b * 2);
    assert q * (b * 2) == 2 * (q * b);
    if q < 0 {
      MulMonotone(q, -1, b);
    }
    if q > 100 {
      MulMonotone(101, q, b);
    }
  }

  lemma AdjustedBound(n: usize, t: int)
    requires t > 0
    ensures 0 <= n / t <= n
  {
    QuotientBounds(n, t);
    if n / t < 0 {
      MulMonotone(n / t, -1, t);
    }
    if n / t > n {
      MulMonotone(1, t, n / t);
    }
  }

  /** Reports out of range: no memory at all is full, and more available than there is, is idle. */
  lemma PressureOfOddReports(s: Stats)
    ensures s.balloonSize == 0 ==> s.Pressure() == 100 && s.Reserved() == 0
    ensures s.available >= s.balloonSize > 0 ==> s.Pressure() == 0 && s.Reserved() == 0
  {
    if s.available >= s.balloonSize > 0 {
      QuotientIs(s.balloonSize, s.balloonSize * 2, 0);
    }
  }

  /** For reports in range, the pressure is what the original overflowing formula intended. */
  lemma PressureMatchesOriginalFormula(s: Stats)
    requires 0 < s.balloonSize && s.available <= s.balloonSize
    ensures s.Pressure() == (201 * s.balloonSize - 200 * s.available) / s.balloonSize / 2
  {
    var x, b := 201 * s.balloonSize - 200 * s.available, s.balloonSize;
    var d := x / b;
    QuotientBounds(x, b);
    QuotientBounds(d, 2);
    MulMonotone(2 * (d / 2), d, b);
    MulMonotone(d + 1, 2 * (d / 2) + 2, b);
    QuotientIs(x, b * 2, d / 2);
  }

  // ---------- The decision ----------

  datatype Config = Config(minimum: usize, maximum: usize, low: u8, high: u8) {

    /** The size to change to, if any: the window's target, clamped, unless it is the size. */
    function Wanted(s: Stats): (t: Option<usize>)
      requires minimum <= maximum
      ensures t.Some? ==> minimum <= t.value <= maximum && t.value != s.balloonSize
    {
      var w := s.Window(low, high);
      if w.None? then None
      else
        var t := Clamp(w.value, minimum, maximum);
        if t == s.balloonSize then None else Some(t)
    }
  }

  /** The next report after the size became `size` while the guest still uses `used`. */
  function After(size: usize, used: usize): Stats {
    Stats(size, SaturatingSub(size, used))
  }

  /** `100 * reserved` is representable, so no target saturates. */
  predicate Representable(s: Stats) {
    100 * s.Reserved() <= USIZE_MAX
  }

  /** One applied adjustment is always enough while the guest's usage stays the same. */
  ghost predicate SettlesInOneStep(low: u8, high: u8) {
    forall s: Stats, minimum: usize, maximum: usize
      {:trigger Config(minimum, maximum, low, high).Wanted(s)} ::
      minimum <= maximum && Representable(s) ==>
        var cfg := Config(minimum, maximum, low, high);
        cfg.Wanted(s).Some? ==> cfg.Wanted(After(cfg.Wanted(s).value, s.Reserved())).None?
  }

  /** What the two thresholds must satisfy for that. The gap of two is what the target
      `high - 2` needs; it is not needed where that branch cannot act. */
  predicate WellTuned(low: u8, high: u8) {
    low <= 100 && high >= 2 && (high == 2 || high >= 100 || low + 2 <= high)
  }

  lemma PressureAtLeast(s: Stats, q: u8)
    requires q <= 100 && q * s.balloonSize <= 100 * s.Reserved()
    ensures s.Pressure() >= q
  {
    if s.balloonSize > 0 && s.Pressure() < q {
      MulMonotone(s.Pressure() + 1, q, s.balloonSize);
    }
  }

  lemma PressureAtMost(s: Stats, q: u8)
    requires s.balloonSize > 0 && 100 * s.Reserved() <= q * s.balloonSize
    ensures s.Pressure() <= q
  {
    if s.Pressure() > q {
      MulMonotone(q + 1, s.Pressure(), s.balloonSize);
    }
  }

  /** A target is the largest size at which the reserved memory, as far as 100 times it can be
      represented, is still that many percent; a target of zero percent leaves the size. */
  lemma AdjustedIsLargest(s: Stats, t: u8)
    ensures
      var n := if Representable(s) then 100 * s.Reserved() else USIZE_MAX;
      t > 0 ==> s.Adjusted(t) * t <= n < (s.Adjusted(t) + 1) * t
    ensures t == 0 ==> s.Adjusted(t) == s.balloonSize
  {
    if t > 0 {
      QuotientBounds(SaturatingMul(s.Reserved(), 100), t);
    }
  }

  /** The size that a decision leads to. */
  function Decided(cfg: Config, s: Stats): usize
    requires cfg.minimum <= cfg.maximum
  {
    if cfg.Wanted(s).Some? then cfg.Wanted(s).value else s.balloonSize
  }

  function Gap(a: int, b: int): nat {
    if a < b then b - a else a - b
  }

  /** Inside the window nothing changes. Outside, the size after the decision is the one in range
      that is nearest to the target for the threshold that was passed. */
  lemma DecisionIsNearest(cfg: Config, s: Stats, x: usize)
    requires cfg.minimum <= x <= cfg.maximum
    ensures cfg.low <= s.Pressure() <= cfg.high ==> cfg.Wanted(s).None?
    ensures s.Pressure() < cfg.low ==>
      && cfg.minimum <= Decided(cfg, s) <= cfg.maximum
      && Gap(Decided(cfg, s), s.Adjusted(cfg.low)) <= Gap(x, s.Adjusted(cfg.low))
    ensures cfg.low <= s.Pressure() && cfg.high < s.Pressure() ==>
      var t := s.Adjusted(if cfg.high >= 2 then cfg.high - 2 else cfg.high + 254);
      cfg.minimum <= Decided(cfg, s) <= cfg.maximum && Gap(Decided(cfg, s), t) <= Gap(x, t)
  {
  }

  /** Low pressure shrinks whatever is above the minimum; high pressure shrinks nothing that is
      not above the maximum. */
  lemma DecisionDirection(cfg: Config, s: Stats)
    requires cfg.minimum <= cfg.maximum && Representable(s) && cfg.low <= 100 && cfg.high >= 2
    ensures s.Pressure() < cfg.low && s.balloonSize > cfg.minimum ==>
      cfg.Wanted(s).Some? && cfg.Wanted(s).value < s.balloonSize
    ensures s.Pressure() > cfg.high && s.Pressure() >= cfg.low && s.balloonSize <= cfg.maximum ==>
      Decided(cfg, s) >= s.balloonSize
  {
    if s.Pressure() < cfg.low {
      LowShrinks(s, cfg.low);
    } else if s.Pressure() > cfg.high {
      HighNeverShrinks(s, cfg.high);
    }
  }

  /** After a size is applied, the used memory the guest reports is capped by that size. */
  lemma ReservedAfter(size: usize, used: usize)
    ensures After(size, used).Reserved() == if size < used then size else used
  {
  }

  /** A size at most the one that makes usage `q` percent reads as at least `q` percent. */
  lemma ShrunkReadsHigh(size: usize, used: usize, q: u8)
    requires q <= 100 && q * size <= 100 * used
    ensures After(size, used).Pressure() >= q
  {
    ReservedAfter(size, used);
    MulMonotone(q, 100, size);
    PressureAtLeast(After(size, used), q);
  }

  /** A size above the one that makes usage `q` percent reads as at most `q` percent. */
  lemma GrownReadsLow(size: usize, used: usize, q: u8)
    requires 0 < size && used <= size && 100 * used <= q * size
    ensures After(size, used).Pressure() <= q
  {
    ReservedAfter(size, used);
    PressureAtMost(After(size, used), q);
  }

  /** Under pressure above `high`, the window never asks for less than the current size. */
  lemma HighNeverShrinks(s: Stats, high: u8)
    requires 2 <= high && s.Pressure() > high && 100 * s.Reserved() <= USIZE_MAX
    ensures s.balloonSize <= s.Adjusted(high - 2)
  {
    if 100 * s.Reserved() <= high * s.balloonSize && s.balloonSize > 0 {
      PressureAtMost(s, high);
    } else if high > 2 {
      MulMonotone(high - 2, high, s.balloonSize);
      QuotientAtLeast(s.Reserved() * 100, high - 2, s.balloonSize);
    }
  }

  /** Under pressure below `low`, the window asks for less than the current size. */
  lemma LowShrinks(s: Stats, low: u8)
    requires low <= 100 && s.Pressure() < low && 100 * s.Reserved() <= USIZE_MAX
    ensures s.Adjusted(low) < s.balloonSize
  {
    if low * s.balloonSize <= 100 * s.Reserved() {
      PressureAtLeast(s, low);
    }
    QuotientBelow(s.Reserved() * 100, low, s.balloonSize);
  }

  /** A larger target percentage of no more memory is no larger a size. */
  lemma TargetsOrdered(used: int, used': int, q: int, t: int)
    requires 0 < q <= t && 0 <= used' <= used
    ensures used' * 100 / t <= used * 100 / q
  {
    var x := used * 100 / q;
    QuotientBounds(used * 100, q);
    AdjustedNonNegative(used * 100, q);
    MulMonotone(q, t, x + 1);
    QuotientBelow(used' * 100, t, x + 1);
  }

  lemma AdjustedNonNegative(n: int, t: int)
    requires t > 0 && 0 <= n
    ensures 0 <= n / t
  {
    QuotientAtLeast(n, t, 0);
  }

  /** A target between a size and the target that was clamped to it is clamped to it again. */
  lemma ClampedAgain(lo: usize, hi: usize, target: usize, again: usize)
    requires lo <= hi && Clamp(target, lo, hi) <= again <= target
    ensures Clamp(again, lo, hi) == Clamp(target, lo, hi)
  {
  }

  /** Above the upper threshold, a target that is clamped to the size it has is no change. */
  lemma UpperBranchRests(cfg: Config, s: Stats)
    requires cfg.minimum <= cfg.maximum && 2 <= cfg.high && s.Pressure() >= cfg.low
    requires s.Pressure() > cfg.high ==>
      Clamp(s.Adjusted(cfg.high - 2), cfg.minimum, cfg.maximum) == s.balloonSize
    ensures cfg.Wanted(s).None?
  {
  }

  /** After a size at most the `q` percent one, only growth beyond the clamp can be wanted. */
  lemma SettledAfterShrink(cfg: Config, s: Stats, q: u8, size: usize)
    requires cfg.minimum <= cfg.maximum && Representable(s) && 0 < q <= 100
    requires size == Clamp(s.Adjusted(q), cfg.minimum, cfg.maximum) && size <= s.Adjusted(q)
    requires cfg.low <= q && cfg.high >= 2
    requires cfg.high == 2 || cfg.high >= 100 || q + 2 <= cfg.high
    ensures cfg.Wanted(After(size, s.Reserved())).None?
  {
    var s' := After(size, s.Reserved());
    ShrinkReadsAtLeast(s, q, size);
    if s'.Pressure() > cfg.high > 2 {
      HighNeverShrinks(s', cfg.high);
      ReservedAfter(size, s.Reserved());
      TargetsOrdered(s.Reserved(), s'.Reserved(), q, cfg.high - 2);
      ClampedAgain(cfg.minimum, cfg.maximum, s.Adjusted(q), s'.Adjusted(cfg.high - 2));
    }
    UpperBranchRests(cfg, s');
  }

  lemma ShrinkReadsAtLeast(s: Stats, q: u8, size: usize)
    requires Representable(s) && 0 < q <= 100 && size <= s.Adjusted(q)
    ensures After(size, s.Reserved()).Pressure() >= q
  {
    QuotientBounds(s.Reserved() * 100, q);
    MulMonotone(size, s.Adjusted(q), q);
    ShrunkReadsHigh(size, s.Reserved(), q);
  }

  /** After a size above the `q` percent one, only shrinking below the clamp can be wanted. */
  lemma SettledAfterGrowth(cfg: Config, s: Stats, q: u8, size: usize)
    requires cfg.minimum <= cfg.maximum && Representable(s) && 0 < q <= 100
    requires size == Clamp(s.Adjusted(q), cfg.minimum, cfg.maximum) && size > s.Adjusted(q)
    requires cfg.low <= 100 && (cfg.high == 2 || q <= cfg.high)
    ensures cfg.Wanted(After(size, s.Reserved())).None?
  {
    var used := s.Reserved();
    var s' := After(size, used);
    MulMonotone(q, 100, used);
    QuotientAtLeast(used * 100, q, used);
    QuotientBounds(used * 100, q);
    MulMonotone(s.Adjusted(q) + 1, size, q);
    GrownReadsLow(size, used, q);
    if s'.Pressure() < cfg.low {
      LowShrinks(s', cfg.low);
    }
  }

  /** With high == 2 the upper branch only re-applies the clamp. */
  lemma SettledAfterClamp(cfg: Config, s: Stats, size: usize)
    requires cfg.minimum <= cfg.maximum && Representable(s)
    requires size == Clamp(s.balloonSize, cfg.minimum, cfg.maximum)
    requires cfg.low <= 100 && cfg.high == 2 && s.Pressure() >= cfg.low
    ensures cfg.Wanted(After(size, s.Reserved())).None?
  {
    var s' := After(size, s.Reserved());
    if s'.Pressure() < cfg.low {
      LowShrinks(s', cfg.low);
      if size < s.balloonSize {
        SmallerReadsHigher(s, size);
      }
    }
  }

  /** Rounded percentages `p` of `b` and `p'` of `size`, of the same amount. */
  lemma SmallerWholeLargerShare(amount: int, b: int, size: int, p: int, p': int)
    requires 0 <= size <= b && 0 <= p' && 1 <= p
    requires 2 * (p * b) - b <= 200 * amount < 2 * (p' * size) + size
    ensures p' >= p
  {
    if p' < p {
      MulMonotone(size, b, 2 * p - 1);
      MulMonotone(p' + 1, p, size);
    }
  }

  lemma SmallerReadsHigher(s: Stats, size: usize)
    requires size <= s.balloonSize
    ensures After(size, s.Reserved()).Pressure() >= s.Pressure()
  {
    var s' := After(size, s.Reserved());
    ReservedAfter(size, s.Reserved());
    if size == 0 || s.Pressure() == 0 {
      return;
    }
    if size < s.Reserved() {
      PressureAtLeast(s', 100);
    } else {
      SmallerWholeLargerShare(s.Reserved(), s.balloonSize, size, s.Pressure(), s'.Pressure());
    }
  }

  lemma WellTunedSettles(cfg: Config, s: Stats)
    requires cfg.minimum <= cfg.maximum && Representable(s) && WellTuned(cfg.low, cfg.high)
    requires cfg.Wanted(s).Some?
    ensures cfg.Wanted(After(cfg.Wanted(s).value, s.Reserved())).None?
  {
    var size := cfg.Wanted(s).value;
    if s.Pressure() < cfg.low || cfg.high > 2 {
      var q := if s.Pressure() < cfg.low then cfg.low else cfg.high - 2;
      if size <= s.Adjusted(q) {
        SettledAfterShrink(cfg, s, q, size);
      } else {
        SettledAfterGrowth(cfg, s, q, size);
      }
    } else {
      SettledAfterClamp(cfg, s, size);
    }
  }

  /** A target above 100 percent shrinks a full guest again and again. */
  lemma OverfullTargetRepeats(cfg: Config, q: u8)
    requires cfg.minimum == 0 && cfg.maximum == USIZE_MAX && q > 100
    requires if cfg.low > 100 then q == cfg.low else q == (cfg.high + 254) % 256 && cfg.high < 2
    ensures var s := Stats(q * q, 0);
      && Representable(s) && cfg.Wanted(s) == Some(100 * q)
      && cfg.Wanted(After(100 * q, s.Reserved())) == Some(10000)
  {
    var s := Stats(q * q, 0);
    MulMonotone(q, 255, q);
    MulMonotone(100, q, q);
    PressureAtLeast(s, 100);
    assert s.Adjusted(q) == 100 * q by { QuotientIs(q * q * 100, q, 100 * q); }
    var s' := After(100 * q, q * q);
    ReservedAfter(100 * q, q * q);
    PressureAtLeast(s', 100);
    assert s'.Adjusted(q) == 10000 by { QuotientIs(100 * q * 100, q, 10000); }
  }

  /** A target that divides evenly is hit exactly. */
  lemma ExactTarget(s: Stats, q: u8, size: usize)
    requires q > 0 && s.Reserved() * 100 == size * q && Representable(s)
    ensures s.Adjusted(q) == size
  {
    QuotientIs(s.Reserved() * 100, q, size);
  }

  lemma UpperBranchActs(cfg: Config, s: Stats, size: usize)
    requires cfg.minimum == 0 && cfg.maximum == USIZE_MAX && 2 <= cfg.high
    requires s.Pressure() >= cfg.low && s.Pressure() > cfg.high
    requires s.Adjusted(cfg.high - 2) == size != s.balloonSize
    ensures cfg.Wanted(s) == Some(size)
  {
  }

  lemma LowerBranchActs(cfg: Config, s: Stats, size: usize)
    requires cfg.minimum == 0 && cfg.maximum == USIZE_MAX
    requires s.Pressure() < cfg.low && s.Adjusted(cfg.low) == size != s.balloonSize
    ensures cfg.Wanted(s) == Some(size)
  {
  }

  /** With thresholds less than two apart, the target for the upper one is below the lower one. */
  lemma NarrowWindowRepeats(cfg: Config, used: usize)
    requires cfg.minimum == 0 && cfg.maximum == USIZE_MAX
    requires cfg.low <= 100 && 2 < cfg.high < 100 && cfg.low + 2 > cfg.high
    requires used == (cfg.high - 2) * cfg.low && 0 < used < 100 * cfg.low
    ensures var t := cfg.high - 2; var s := Stats(used, 0);
      && Representable(s) && cfg.Wanted(s) == Some(100 * cfg.low)
      && cfg.Wanted(After(100 * cfg.low, used)) == Some(100 * t)
  {
    var low: int, t: int := cfg.low, cfg.high - 2;
    var s, s' := Stats(used, 0), After(100 * low, used);
    assert used * 100 == (100 * low) * t && used * 100 == (100 * t) * low;
    ExactTarget(s, t, 100 * low);
    ExactTarget(s', low, 100 * t);
    PressureAtLeast(s, 100);
    UpperBranchActs(cfg, s, 100 * low);
    GrownReadsLow(100 * low, used, t);
    LowerBranchActs(cfg, s', 100 * t);
  }

  /** Exactly the well-tuned thresholds settle in one step, for every guest, size and clamp. */
  lemma SettlesExactlyWhenWellTuned(low: u8, high: u8)
    ensures SettlesInOneStep(low, high) <==> WellTuned(low, high)
  {
    if WellTuned(low, high) {
      forall s: Stats, minimum: usize, maximum: usize |
        && minimum <= maximum && Representable(s)
        && Config(minimum, maximum, low, high).Wanted(s).Some?
        ensures var cfg := Config(minimum, maximum, low, high);
          cfg.Wanted(After(cfg.Wanted(s).value, s.Reserved())).None?
      {
        WellTunedSettles(Config(minimum, maximum, low, high), s);
      }
    } else {
      var cfg := Config(0, USIZE_MAX, low, high);
      if low > 100 || high < 2 {
        var q := if low > 100 then low else (high + 254) % 256;
        OverfullTargetRepeats(cfg, q);
        assert cfg.Wanted(Stats(q * q, 0)).Some?;
      } else {
        MulMonotone(1, high - 2, low);
        MulMonotone(high - 2, 98, low);
        NarrowWindowRepeats(cfg, (high - 2) * low);
        assert cfg.Wanted(Stats((high - 2) * low, 0)).Some?;
      }
    }
  }

  /** The size after `n` more reports from a guest whose usage stays at `used`. */
  function SizeAfter(cfg: Config, size: usize, used: usize, n: nat): usize
    requires cfg.minimum <= cfg.maximum
    decreases n
  {
    if n == 0 then size
    else
      var w := cfg.Wanted(After(size, used));
      SizeAfter(cfg, if w.Some? then w.value else size, used, n - 1)
  }

  /** The closed loop never moves again after its first adjustment. */
  lemma {:induction false} StaysSettled(cfg: Config, size: usize, used: usize, n: nat)
    requires cfg.minimum <= cfg.maximum && cfg.Wanted(After(size, used)).None?
    ensures SizeAfter(cfg, size, used, n) == size
  {
    if n == 0 {
    } else {
      StaysSettled(cfg, size, used, n - 1);
    }
  }

  lemma ClosedLoopSettles(cfg: Config, s: Stats, n: nat)
    requires cfg.minimum <= cfg.maximum && Representable(s) && WellTuned(cfg.low, cfg.high)
    requires cfg.Wanted(s).Some?
    ensures SizeAfter(cfg, cfg.Wanted(s).value, s.Reserved(), n) == cfg.Wanted(s).value
  {
    WellTunedSettles(cfg, s);
    StaysSettled(cfg, cfg.Wanted(s).value, s.Reserved(), n);
  }
}
