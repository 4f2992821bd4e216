/** Difficulty retargeting: the work the next block must carry. */
module Difficulty {
  import opened Types
  import opened Arithmetic

  datatype TimedWork = TimedWork(timestamp: u64, work: u128)

  datatype Retarget = Retarget(targetInterval: u64, window: nat, maxFactor: u32, minWork: u128)

  /** The last `n` samples, or all of them if there are fewer. */
  function Latest(s: seq<TimedWork>, n: nat): seq<TimedWork> {
    if |s| > n then s[|s| - n..] else s
  }

  /** The samples actually used: at most the last `window + 1`. */
  function Samples(r: Retarget, recent: seq<TimedWork>): seq<TimedWork> {
    Latest(recent, r.window + 1)
  }

  function SaturatingTotal(s: seq<TimedWork>): u128 {
    if s == [] then 0 else SatAdd(SaturatingTotal(s[..|s| - 1]), s[|s| - 1].work, U128_MAX)
  }

  function Average(s: seq<TimedWork>): u128
    requires s != []
  {
    DivAtMost(SaturatingTotal(s), |s|);
    SaturatingTotal(s) / |s|
  }

  function Expected(r: Retarget, s: seq<TimedWork>): u64
    requires |s| >= 2
  {
    Max(SatMul(|s| - 1, r.targetInterval, U64_MAX), 1)
  }

  function Measured(s: seq<TimedWork>): u64
    requires |s| >= 2
  {
    Max(SatSub(s[|s| - 1].timestamp, s[0].timestamp), 1)
  }

  function Scaled(avg: u128, expected: u64, measured: u64): u128
    requires measured > 0
  {
    DivAtMost(SatMul(avg, expected, U128_MAX), measured);
    SatMul(avg, expected, U128_MAX) / measured
  }

  function Factor(r: Retarget): u32 {
    Max(r.maxFactor, 1)
  }

  function Lower(r: Retarget, avg: u128): u128 {
    DivAtMost(avg, Factor(r));
    Max(avg / Factor(r), r.minWork)
  }

  function Upper(r: Retarget, avg: u128): u128 {
    Max(SatMul(avg, Factor(r), U128_MAX), r.minWork)
  }

  /** `clamp` panics when its bounds are inverted. */
  function Clamp(x: int, lo: int, hi: int): int
    requires lo <= hi
  {
    if x < lo then lo else if x > hi then hi else x
  }

  /** The clamp bounds are never inverted, even when the upper one saturates. */
  lemma ClampNeverInverts(r: Retarget, avg: u128)
    ensures Lower(r, avg) <= Upper(r, avg)
  {
    var f := Factor(r);
    DivAtMost(avg, f);
    assert avg * f >= avg;
  }

  function NextWork(r: Retarget, recent: seq<TimedWork>): u128 {
    var s := Samples(r, recent);
    if |s| < 2 then r.minWork
    else
      var avg := Average(s);
      ClampNeverInverts(r, avg);
      Max(Clamp(Scaled(avg, Expected(r, s), Measured(s)), Lower(r, avg), Upper(r, avg)), r.minWork)
  }

  // ------------------------------------------------------------------

  /** The new work is at least `minWork`, and within a factor of the sampled average
      unless the floor or the word size intervenes. */
  lemma NextWorkBounded(r: Retarget, recent: seq<TimedWork>)
    ensures NextWork(r, recent) >= r.minWork
    ensures |Samples(r, recent)| >= 2 ==>
              var avg, f := Average(Samples(r, recent)), Factor(r);
              && NextWork(r, recent) >= avg / f
              && (NextWork(r, recent) == r.minWork || NextWork(r, recent) <= avg * f)
  {
    if |Samples(r, recent)| >= 2 {
      ClampNeverInverts(r, Average(Samples(r, recent)));
    }
  }

  /** Only the last `window + 1` samples matter. */
  lemma OnlyWindowMatters(r: Retarget, older: seq<TimedWork>, recent: seq<TimedWork>)
    requires |recent| >= r.window + 1
    ensures NextWork(r, older + recent) == NextWork(r, recent)
  {
    var all := older + recent;
    assert all[|all| - (r.window + 1)..] == recent[|recent| - (r.window + 1)..];
    assert recent[0..] == recent;
    assert Samples(r, all) == Samples(r, recent);
  }

  /** Sampling before retargeting changes nothing. */
  lemma SampledWork(r: Retarget, all: seq<TimedWork>)
    ensures NextWork(r, Latest(all, r.window + 1)) == NextWork(r, all)
  {
    assert Samples(r, Latest(all, r.window + 1)) == Samples(r, all);
  }

  lemma DivAntitone(x: nat, a: nat, b: nat)
    requires 0 < a <= b
    ensures x / b <= x / a
  {
    var q := x / b;
    assert q * b <= x;
    MulLe(a, b, q);
    DivAtLeast(x, a, q);
  }

  /** Blocks arriving faster never lower the work: with the same works, a shorter
      measured timespan asks for at least as much. */
  lemma FasterIsHarder(r: Retarget, slow: seq<TimedWork>, fast: seq<TimedWork>)
    requires |slow| == |fast| && forall i :: 0 <= i < |slow| ==> slow[i].work == fast[i].work
    requires |Samples(r, slow)| >= 2 ==> Measured(Samples(r, fast)) <= Measured(Samples(r, slow))
    ensures NextWork(r, slow) <= NextWork(r, fast)
  {
    var s, f := Samples(r, slow), Samples(r, fast);
    SameTotal(s, f);
    if |s| >= 2 {
      var avg := Average(s);
      ClampNeverInverts(r, avg);
      DivAntitone(SatMul(avg, Expected(r, s), U128_MAX), Measured(f), Measured(s));
    }
  }

  lemma {:induction false} SameTotal(s: seq<TimedWork>, t: seq<TimedWork>)
    requires |s| == |t| && forall i :: 0 <= i < |s| ==> s[i].work == t[i].work
    ensures SaturatingTotal(s) == SaturatingTotal(t)
  {
    if s != [] {
      SameTotal(s[..|s| - 1], t[..|t| - 1]);
    }
  }

  lemma {:induction false} SteadyTotal(s: seq<TimedWork>, w: u128)
    requires (forall i :: 0 <= i < |s| ==> s[i].work == w) && w * |s| <= U128_MAX
    ensures SaturatingTotal(s) == w * |s|
  {
    if s != [] {
      assert w * |s| == w * (|s| - 1) + w;
      SteadyTotal(s[..|s| - 1], w);
    }
  }

  /** On-target blocks of equal work leave the work as it is, when nothing saturates. */
  lemma SteadyStateIsFixed(r: Retarget, recent: seq<TimedWork>, w: u128)
    requires var s := Samples(r, recent);
             && |s| >= 2 && r.targetInterval > 0 && w >= r.minWork
             && (forall i :: 0 <= i < |s| ==> s[i].work == w)
             && s[|s| - 1].timestamp == s[0].timestamp + (|s| - 1) * r.targetInterval
             && w * |s| <= U128_MAX && w * ((|s| - 1) * r.targetInterval) <= U128_MAX
    ensures NextWork(r, recent) == w
  {
    var s := Samples(r, recent);
    var span := (|s| - 1) * r.targetInterval;
    SteadyTotal(s, w);
    ExactDivision(w, |s|);
    SpanPositive(|s| - 1, r.targetInterval);
    assert Expected(r, s) == span && Measured(s) == span;
    ExactDivision(w, span);
    assert Scaled(w, span, span) == w;
    ClampNeverInverts(r, w);
    DivAtMost(w, Factor(r));
    SpanPositive(Factor(r), w);
  }

  lemma ExactDivision(w: nat, n: nat)
    requires n > 0
    ensures w * n / n == w
  {
    DivBounds(w * n, n);
    DivAtLeast(w * n, n, w);
  }

  lemma SpanPositive(n: nat, t: nat)
    requires n > 0
    ensures n * t >= t && t * n >= t
  {
  }

  // ------------------------------------------------------------------
  // The retarget in plain arithmetic

  /** The works of the samples added up, whatever a word holds. */
  ghost function PlainSum(s: seq<TimedWork>): nat {
    if s == [] then 0 else s[0].work + PlainSum(s[1..])
  }

  lemma {:induction false} PlainSumSnoc(s: seq<TimedWork>)
    requires s != []
    ensures PlainSum(s) == PlainSum(s[..|s| - 1]) + s[|s| - 1].work
  {
    if |s| > 1 {
      PlainSumSnoc(s[1..]);
      assert s[1..][..|s| - 2] == s[..|s| - 1][1..];
    }
  }

  lemma {:induction false} TotalSaturates(s: seq<TimedWork>)
    ensures SaturatingTotal(s) == if PlainSum(s) > U128_MAX then U128_MAX else PlainSum(s)
  {
    if s != [] {
      TotalSaturates(s[..|s| - 1]);
      PlainSumSnoc(s);
    }
  }

  /** Clamping between raised bounds, or clamping and then raising the result. */
  ghost function Floored(x: int, least: int, most: int, floor: int): int {
    var clamped := if x < least then least else if x > most then most else x;
    if clamped < floor then floor else clamped
  }

  lemma FloorIs(x: int, least: int, most: int, floor: int)
    requires least <= most
    ensures Max(least, floor) <= Max(most, floor)
    ensures Max(Clamp(x, Max(least, floor), Max(most, floor)), floor) == Floored(x, least, most, floor)
  {
  }

  lemma BoundsOrdered(m: nat, factor: nat)
    requires factor > 0 && m <= U128_MAX
    ensures 0 <= m / factor <= m && m <= m * factor
  {
    DivAtMost(m, factor);
    MulLe(1, factor, m);
  }

  /** The retarget of any samples: the last `window + 1` of them are averaged, rounding down; the
      average `m` is scaled by the time that their intervals should have taken over the time they
      took, kept between `m / factor` and `m * factor`, and never falls below the floor. Sums and
      products stop at the largest word. */
  lemma RetargetExact(r: Retarget, older: seq<TimedWork>, s: seq<TimedWork>, m: nat)
    requires |s| >= 2 && |s| <= r.window + 1 && (older != [] ==> |s| == r.window + 1)
    requires var n, w := |s|, if PlainSum(s) > U128_MAX then U128_MAX else PlainSum(s);
             n * m <= w < n * (m + 1)
    ensures var span, taken := (|s| - 1) * r.targetInterval, s[|s| - 1].timestamp - s[0].timestamp;
            var expected := if span < 1 then 1 else if span > U64_MAX then U64_MAX else span;
            var actual := if taken < 1 then 1 else taken;
            var factor := if r.maxFactor < 1 then 1 else r.maxFactor;
            var scaled := (if m * expected > U128_MAX then U128_MAX else m * expected) / actual;
            var least, most := m / factor, if m * factor > U128_MAX then U128_MAX else m * factor;
            var clamped := if scaled < least then least else if scaled > most then most else scaled;
            NextWork(r, older + s) == (if clamped < r.minWork then r.minWork else clamped)
  {
    hide *;
    LastSamples(r, older, s);
    AverageIs(s, m);
    NextWorkParts(r, s, m);
    BoundsOrdered(m, if r.maxFactor < 1 then 1 else r.maxFactor);
    var span, taken := (|s| - 1) * r.targetInterval, s[|s| - 1].timestamp - s[0].timestamp;
    var expected := if span < 1 then 1 else if span > U64_MAX then U64_MAX else span;
    var actual := if taken < 1 then 1 else taken;
    var factor := if r.maxFactor < 1 then 1 else r.maxFactor;
    var scaled := (if m * expected > U128_MAX then U128_MAX else m * expected) / actual;
    FlooredIs(scaled, m / factor, if m * factor > U128_MAX then U128_MAX else m * factor, r.minWork);
  }

  lemma LastSamples(r: Retarget, older: seq<TimedWork>, s: seq<TimedWork>)
    requires |s| <= r.window + 1 && (older != [] ==> |s| == r.window + 1)
    ensures NextWork(r, older + s) == NextWork(r, s)
  {
    if older != [] {
      OnlyWindowMatters(r, older, s);
    } else {
      assert older + s == s;
    }
  }

  lemma AverageIs(s: seq<TimedWork>, m: nat)
    requires s != []
    requires var n, w := |s|, if PlainSum(s) > U128_MAX then U128_MAX else PlainSum(s);
             n * m <= w < n * (m + 1)
    ensures Average(s) == m <= U128_MAX
  {
    TotalSaturates(s);
    QuotientIs(SaturatingTotal(s), |s|, m);
  }

  lemma FlooredIs(x: int, least: int, most: int, floor: int)
    ensures var clamped := if x < least then least else if x > most then most else x;
            Floored(x, least, most, floor) == if clamped < floor then floor else clamped
  {
  }

  lemma NextWorkParts(r: Retarget, s: seq<TimedWork>, m: nat)
    requires 2 <= |s| <= r.window + 1 && m <= U128_MAX && Average(s) == m
    ensures var span, taken := (|s| - 1) * r.targetInterval, s[|s| - 1].timestamp - s[0].timestamp;
            var expected := if span < 1 then 1 else if span > U64_MAX then U64_MAX else span;
            var actual := if taken < 1 then 1 else taken;
            var factor := if r.maxFactor < 1 then 1 else r.maxFactor;
            var scaled := (if m * expected > U128_MAX then U128_MAX else m * expected) / actual;
            var least, most := m / factor, if m * factor > U128_MAX then U128_MAX else m * factor;
            least <= most ==> NextWork(r, s) == Floored(scaled, least, most, r.minWork)
  {
    var span, taken := (|s| - 1) * r.targetInterval, s[|s| - 1].timestamp - s[0].timestamp;
    var expected := if span < 1 then 1 else if span > U64_MAX then U64_MAX else span;
    var actual := if taken < 1 then 1 else taken;
    SpanIs(r, s);
    ScaledIs(m, expected, actual);
    NextWorkIs(r, s, m, Scaled(m, expected, actual));
    hide Average, Samples, Latest, NextWork, Floored, Scaled;
  }

  lemma SpanIs(r: Retarget, s: seq<TimedWork>)
    requires |s| >= 2
    ensures var span, taken := (|s| - 1) * r.targetInterval, s[|s| - 1].timestamp - s[0].timestamp;
            && Expected(r, s) == (if span < 1 then 1 else if span > U64_MAX then U64_MAX else span)
            && Measured(s) == if taken < 1 then 1 else taken
  {
  }

  lemma ScaledIs(m: u128, expected: u64, actual: u64)
    requires actual > 0
    ensures Scaled(m, expected, actual) == (if m * expected > U128_MAX then U128_MAX else m * expected) / actual
  {
  }

  lemma NextWorkIs(r: Retarget, s: seq<TimedWork>, m: u128, scaled: int)
    requires 2 <= |s| <= r.window + 1 && Average(s) == m && scaled == Scaled(m, Expected(r, s), Measured(s))
    ensures var factor := if r.maxFactor < 1 then 1 else r.maxFactor;
            var least, most := m / factor, if m * factor > U128_MAX then U128_MAX else m * factor;
            least <= most ==> NextWork(r, s) == Floored(scaled, least, most, r.minWork)
  {
    assert Samples(r, s) == s;
    hide Average, Samples, Latest, Expected, Measured, Scaled, Floored;
    ClampNeverInverts(r, m);
    var f := Factor(r);
    BoundsOrdered(m, f);
    FloorIs(scaled, m / f, if m * f > U128_MAX then U128_MAX else m * f, r.minWork);
  }

  /** With fewer than two samples, or a window of none, there is nothing to measure. */
  lemma NothingToMeasure(r: Retarget, recent: seq<TimedWork>)
    requires |recent| < 2 || r.window == 0
    ensures NextWork(r, recent) == r.minWork
  {
  }
}
