/** Adding signed 64-bit amounts one after another with saturation at both ends:
    exactly when the order does not matter. */
module SaturatingSum {
  import opened Sequences

  const TOP: int := 0x7FFF_FFFF_FFFF_FFFF
  const BOTTOM: int := -TOP - 1

  function Clamp(x: int): (r: int)
    ensures BOTTOM <= r <= TOP
  {
    if x > TOP then TOP else if x < BOTTOM then BOTTOM else x
  }

  /** Start somewhere and add the amounts in order. */
  function SatFrom<T>(start: int, xs: seq<T>, v: T -> int): int {
    if xs == [] then start else Clamp(SatFrom(start, xs[..|xs| - 1], v) + v(xs[|xs| - 1]))
  }

  function SatSum<T>(xs: seq<T>, v: T -> int): int { SatFrom(0, xs, v) }

  function Rise<T>(v: T -> int): T -> nat { (x: T) => if v(x) > 0 then v(x) else 0 }

  function Fall<T>(v: T -> int): T -> nat { (x: T) => if v(x) < 0 then -v(x) else 0 }

  function Gains<T>(xs: seq<T>, v: T -> int): nat { Sum(xs, Rise(v)) }

  function Losses<T>(xs: seq<T>, v: T -> int): nat { Sum(xs, Fall(v)) }

  /** No loss, or no gain, or both within range. */
  predicate Steady<T>(xs: seq<T>, v: T -> int) {
    Losses(xs, v) == 0 || Gains(xs, v) == 0 || (Gains(xs, v) <= TOP && Losses(xs, v) <= -BOTTOM)
  }

  lemma {:induction false} SatFromConcat<T>(start: int, a: seq<T>, b: seq<T>, v: T -> int)
    ensures SatFrom(start, a + b, v) == SatFrom(SatFrom(start, a, v), b, v)
  {
    if b == [] {
      assert a + b == a;
    } else {
      var ab := a + b;
      assert ab[..|ab| - 1] == a + b[..|b| - 1];
      SatFromConcat(start, a, b[..|b| - 1], v);
    }
  }

  /** A steady sum is the clamped difference of gains and losses. */
  lemma {:induction false} SteadySum<T>(xs: seq<T>, v: T -> int)
    requires Steady(xs, v)
    ensures SatSum(xs, v) == Clamp(Gains(xs, v) - Losses(xs, v))
  {
    if xs != [] {
      SteadySum(xs[..|xs| - 1], v);
    }
  }

  lemma SteadyIgnoresOrder<T>(xs: seq<T>, ys: seq<T>, v: T -> int)
    requires multiset(xs) == multiset(ys) && Steady(xs, v)
    ensures Steady(ys, v) && SatSum(ys, v) == SatSum(xs, v)
  {
    SumIgnoresOrder(xs, ys, Rise(v));
    SumIgnoresOrder(xs, ys, Fall(v));
    SteadySum(xs, v);
    SteadySum(ys, v);
  }

  // ----------------------------------------------------- the two extreme orders

  function Part<T>(xs: seq<T>, p: T -> bool): seq<T> {
    if xs == [] then []
    else Part(xs[..|xs| - 1], p) + if p(xs[|xs| - 1]) then [xs[|xs| - 1]] else []
  }

  function Gaining<T>(v: T -> int): T -> bool { (x: T) => v(x) > 0 }

  function Others<T>(v: T -> int): T -> bool { (x: T) => v(x) <= 0 }

  lemma {:induction false} PartsArePermutation<T>(xs: seq<T>, v: T -> int)
    ensures multiset(xs) == multiset(Part(xs, Gaining(v))) + multiset(Part(xs, Others(v)))
  {
    if xs != [] {
      PartsArePermutation(xs[..|xs| - 1], v);
      Snoc(xs);
    }
  }

  lemma {:induction false} GainingPart<T>(xs: seq<T>, v: T -> int)
    ensures Gains(Part(xs, Gaining(v)), v) == Gains(xs, v) && Losses(Part(xs, Gaining(v)), v) == 0
  {
    if xs != [] {
      var init, x := xs[..|xs| - 1], xs[|xs| - 1];
      GainingPart(init, v);
      var p := Part(init, Gaining(v));
      if v(x) > 0 {
        assert (p + [x])[..|p|] == p;
      } else {
        assert p + [] == p;
      }
    }
  }

  lemma {:induction false} OtherPart<T>(xs: seq<T>, v: T -> int)
    ensures Gains(Part(xs, Others(v)), v) == 0 && Losses(Part(xs, Others(v)), v) == Losses(xs, v)
  {
    if xs != [] {
      var init, x := xs[..|xs| - 1], xs[|xs| - 1];
      OtherPart(init, v);
      var p := Part(init, Others(v));
      if v(x) <= 0 {
        assert (p + [x])[..|p|] == p;
      } else {
        assert p + [] == p;
      }
    }
  }

  lemma {:induction false} OnlyGains<T>(start: int, xs: seq<T>, v: T -> int)
    requires BOTTOM <= start <= TOP && Losses(xs, v) == 0
    ensures SatFrom(start, xs, v) == Clamp(start + Gains(xs, v))
  {
    if xs != [] { OnlyGains(start, xs[..|xs| - 1], v); }
  }

  lemma {:induction false} OnlyLosses<T>(start: int, xs: seq<T>, v: T -> int)
    requires BOTTOM <= start <= TOP && Gains(xs, v) == 0
    ensures SatFrom(start, xs, v) == Clamp(start - Losses(xs, v))
  {
    if xs != [] { OnlyLosses(start, xs[..|xs| - 1], v); }
  }

  function GainsFirst<T>(xs: seq<T>, v: T -> int): seq<T> { Part(xs, Gaining(v)) + Part(xs, Others(v)) }

  function LossesFirst<T>(xs: seq<T>, v: T -> int): seq<T> { Part(xs, Others(v)) + Part(xs, Gaining(v)) }

  lemma ExtremesArePermutations<T>(xs: seq<T>, v: T -> int)
    ensures multiset(GainsFirst(xs, v)) == multiset(xs) && multiset(LossesFirst(xs, v)) == multiset(xs)
  {
    PartsArePermutation(xs, v);
  }

  lemma GainsThenLosses<T>(p: seq<T>, q: seq<T>, v: T -> int)
    requires Losses(p, v) == 0 && Gains(q, v) == 0
    ensures SatSum(p + q, v) == Clamp(Clamp(Gains(p, v)) - Losses(q, v))
    ensures SatSum(q + p, v) == Clamp(Clamp(0 - Losses(q, v)) + Gains(p, v))
  {
    SatFromConcat(0, p, q, v);
    SatFromConcat(0, q, p, v);
    OnlyGains(0, p, v);
    OnlyLosses(0, q, v);
    OnlyLosses(Clamp(Gains(p, v)), q, v);
    OnlyGains(Clamp(0 - Losses(q, v)), p, v);
  }

  lemma ExtremeSums<T>(xs: seq<T>, v: T -> int)
    ensures SatSum(GainsFirst(xs, v), v) == Clamp(Clamp(Gains(xs, v)) - Losses(xs, v))
    ensures SatSum(LossesFirst(xs, v), v) == Clamp(Clamp(0 - Losses(xs, v)) + Gains(xs, v))
  {
    GainingPart(xs, v);
    OtherPart(xs, v);
    GainsThenLosses(Part(xs, Gaining(v)), Part(xs, Others(v)), v);
  }

  lemma ExtremesDiffer(gains: nat, losses: nat)
    requires gains > 0 && losses > 0 && (gains > TOP || losses > -BOTTOM)
    ensures Clamp(Clamp(gains) - losses) != Clamp(Clamp(0 - losses) + gains)
  {
  }

  /** Every order gives the same sum. */
  ghost predicate OrderFree<T(!new)>(xs: seq<T>, v: T -> int) {
    forall ys | multiset(ys) == multiset(xs) :: SatSum(ys, v) == SatSum(xs, v)
  }

  /** Main result: the order does not matter exactly for the steady sums. */
  lemma OrderFreeIffSteady<T(!new)>(xs: seq<T>, v: T -> int)
    ensures OrderFree(xs, v) <==> Steady(xs, v)
  {
    if Steady(xs, v) {
      forall ys | multiset(ys) == multiset(xs) ensures SatSum(ys, v) == SatSum(xs, v) {
        SteadyIgnoresOrder(xs, ys, v);
      }
    } else {
      ExtremesArePermutations(xs, v);
      ExtremeSums(xs, v);
      ExtremesDiffer(Gains(xs, v), Losses(xs, v));
    }
  }
}
