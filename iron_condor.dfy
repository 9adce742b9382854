/** Iron-condor strike construction and expiration payoff (ironCondor.py),
    over exact reals.

    A short iron condor sells a put and a call one standard deviation away
    from the spot and buys protective "wings" a fixed width further out.
    The square root in the one-standard-deviation move is an input:
    `sqrtT` stands for the value math.sqrt(T) returns, and `IsSqrt` says
    what that value is. */
module IronCondor {

  /** The four strikes, one field per key of the returned dictionary. */
  datatype Strikes = Strikes(longPut: real, shortPut: real, shortCall: real, longCall: real)

  /** `root` is the non-negative square root of `t`. */
  predicate IsSqrt(root: real, t: real) {
    root >= 0.0 && root * root == t
  }

  /** Python's `max(0, x)`. */
  function Max0(x: real): real {
    if x > 0.0 then x else 0.0
  }

  /** The strikes are in the order long put, short put, short call, long call. */
  predicate Ordered(k: Strikes) {
    k.longPut <= k.shortPut <= k.shortCall <= k.longCall
  }

  /** Width of the put wing and of the call wing. */
  function PutWidth(k: Strikes): real { k.shortPut - k.longPut }
  function CallWidth(k: Strikes): real { k.longCall - k.shortCall }

  /** The larger of the two wing widths: the most an ordered condor can lose
      beyond its credit. */
  function WorstWing(k: Strikes): real {
    if PutWidth(k) >= CallWidth(k) then PutWidth(k) else CallWidth(k)
  }

  /** The one-standard-deviation move S * sigma * sqrt(T). */
  function Move(s: real, sigma: real, t: real, sqrtT: real): (m: real)
    requires IsSqrt(sqrtT, t)
    ensures s >= 0.0 && sigma >= 0.0 ==> m >= 0.0
    ensures s > 0.0 && sigma > 0.0 && t > 0.0 ==> m > 0.0
    ensures sigma == 0.0 || t == 0.0 ==> m == 0.0
    ensures s != 0.0 ==> (m == 0.0 <==> sigma == 0.0 || t == 0.0)
    ensures m * m == s * s * sigma * sigma * t
  {
    s * sigma * sqrtT
  }

  /** `iron_condor`: short strikes at S -/+ move, long wings `width` further
      out. The rate `r` is accepted and never read. */
  function BuildCondor(s: real, sigma: real, t: real, sqrtT: real, r: real := 0.0, width: real := 5.0): (k: Strikes)
    requires IsSqrt(sqrtT, t)
    // both wings are exactly `width` wide
    ensures PutWidth(k) == width && CallWidth(k) == width
    // the short strikes sit symmetrically about the spot, one move away
    ensures s - k.shortPut == k.shortCall - s == Move(s, sigma, t, sqrtT)
    // ordered for any non-negative move, strictly inside for a positive one
    ensures Move(s, sigma, t, sqrtT) >= 0.0 && width > 0.0 ==>
              k.longPut < k.shortPut <= s <= k.shortCall < k.longCall
    ensures Move(s, sigma, t, sqrtT) > 0.0 ==> k.shortPut < s < k.shortCall
    ensures s >= 0.0 && sigma >= 0.0 && width > 0.0 ==>
              k.longPut < k.shortPut <= s <= k.shortCall < k.longCall
    ensures s > 0.0 && sigma > 0.0 && t > 0.0 ==> k.shortPut < s < k.shortCall
    ensures sigma == 0.0 || t == 0.0 ==> k.shortPut == s == k.shortCall
  {
    var move := Move(s, sigma, t, sqrtT);
    var shortPut := s - move;
    var longPut := shortPut - width;
    var shortCall := s + move;
    var longCall := shortCall + width;
    Strikes(longPut, shortPut, shortCall, longCall)
  }

  /** The strikes do not depend on the rate. */
  lemma RateIsIgnored(s: real, sigma: real, t: real, sqrtT: real, r1: real, r2: real, width: real)
    requires IsSqrt(sqrtT, t)
    ensures BuildCondor(s, sigma, t, sqrtT, r1, width) == BuildCondor(s, sigma, t, sqrtT, r2, width)
  {
  }

  /** The inputs a condor is built from: the spot, the move and the width. */
  datatype Shape = Shape(spot: real, move: real, width: real)

  /** Reads the spot, the move and the wing width back from a set of strikes:
      the spot is the midpoint of the short strikes, the move half their
      distance, the width the average of the two wings. */
  function ShapeOf(k: Strikes): (c: Shape)
    ensures c.spot - k.shortPut == k.shortCall - c.spot == c.move
    ensures PutWidth(k) == CallWidth(k) ==> PutWidth(k) == c.width == CallWidth(k)
  {
    Shape((k.shortPut + k.shortCall) / 2.0,
          (k.shortCall - k.shortPut) / 2.0,
          (PutWidth(k) + CallWidth(k)) / 2.0)
  }

  /** `ShapeOf` inverts `BuildCondor`: the strikes determine the spot, the
      move and the width they were built from. */
  lemma BuildCondorRecoversInputs(s: real, sigma: real, t: real, sqrtT: real, r: real, width: real)
    requires IsSqrt(sqrtT, t)
    ensures ShapeOf(BuildCondor(s, sigma, t, sqrtT, r, width)) == Shape(s, Move(s, sigma, t, sqrtT), width)
  {
  }

  /** Strikes that are the same shape are the same strikes. */
  lemma ShapeDeterminesStrikes(k1: Strikes, k2: Strikes)
    requires PutWidth(k1) == CallWidth(k1) && PutWidth(k2) == CallWidth(k2)
    requires ShapeOf(k1) == ShapeOf(k2)
    ensures k1 == k2
  {
  }

  /** Short strikes symmetric about `s`, and wings of equal width. */
  predicate SymmetricAbout(k: Strikes, s: real) {
    && PutWidth(k) == CallWidth(k)
    && s - k.shortPut == k.shortCall - s
  }

  /** Every set of strikes symmetric about a positive spot, with the short
      put at or below the spot, is what `BuildCondor` produces for some
      volatility and width (at a one-year horizon). */
  lemma {:induction false} EverySymmetricCondorIsBuilt(k: Strikes, s: real)
    requires s > 0.0 && SymmetricAbout(k, s) && k.shortPut <= s
    ensures exists sigma: real, width: real ::
              sigma >= 0.0 && BuildCondor(s, sigma, 1.0, 1.0, 0.0, width) == k
  {
    var sigma := (s - k.shortPut) / s;
    var width := PutWidth(k);
    assert Move(s, sigma, 1.0, 1.0) == s - k.shortPut;
    assert BuildCondor(s, sigma, 1.0, 1.0, 0.0, width) == k;
  }

  /** `iron_condor_payoff` in closed form: the collected credit, less the
      short put spread and less the short call spread at expiration. */
  function Payoff(sT: real, k: Strikes, credit: real): (p: real)
    // never more than the credit
    ensures Ordered(k) ==> p <= credit
    // never less than the credit minus the wider wing
    ensures Ordered(k) ==> credit - WorstWing(k) <= p
    // the full credit is kept between the short strikes
    ensures Ordered(k) && k.shortPut <= sT <= k.shortCall ==> p == credit
    // and only there, when both wings have positive width
    ensures Ordered(k) && k.longPut < k.shortPut && k.shortCall < k.longCall ==>
              (p == credit <==> k.shortPut <= sT <= k.shortCall)
    // the two loss plateaus beyond the wings
    ensures Ordered(k) && sT <= k.longPut ==> p == credit - PutWidth(k)
    ensures Ordered(k) && k.longCall <= sT ==> p == credit - CallWidth(k)
  {
    credit
      - Max0(k.shortPut - sT) + Max0(k.longPut - sT)
      - Max0(sT - k.shortCall) + Max0(sT - k.longCall)
  }

  /** `iron_condor_payoff` as written: the payoff accumulated leg by leg. */
  method PayoffAtExpiration(sT: real, strikes: Strikes, credit: real) returns (payoff: real)
    ensures payoff == Payoff(sT, strikes, credit)
  {
    var lp, sp, sc, lc := strikes.longPut, strikes.shortPut, strikes.shortCall, strikes.longCall;

    payoff := credit;

    // put spread
    payoff := payoff - Max0(sp - sT);
    payoff := payoff + Max0(lp - sT);

    // call spread
    payoff := payoff - Max0(sT - sc);
    payoff := payoff + Max0(sT - lc);
  }

  /** The payoff read off region by region, for ordered strikes. */
  function PayoffByRegion(sT: real, k: Strikes, credit: real): real
    requires Ordered(k)
  {
    if sT <= k.longPut then credit - PutWidth(k)
    else if sT <= k.shortPut then credit - (k.shortPut - sT)
    else if sT <= k.shortCall then credit
    else if sT <= k.longCall then credit - (sT - k.shortCall)
    else credit - CallWidth(k)
  }

  /** The closed form agrees with the region-by-region payoff. */
  lemma PayoffMatchesRegions(sT: real, k: Strikes, credit: real)
    requires Ordered(k)
    ensures Payoff(sT, k, credit) == PayoffByRegion(sT, k, credit)
  {
  }

  /** The payoff moves one for one with the credit. */
  lemma PayoffShiftsWithCredit(sT: real, k: Strikes, credit: real, c: real)
    ensures Payoff(sT, k, credit + c) == Payoff(sT, k, credit) + c
  {
  }

  /** Losses only grow as the price moves further below the short put or
      further above the short call. */
  lemma PayoffMonotoneOutside(x: real, y: real, k: Strikes, credit: real)
    requires Ordered(k) && x <= y
    ensures y <= k.shortPut ==> Payoff(x, k, credit) <= Payoff(y, k, credit)
    ensures k.shortCall <= x ==> Payoff(x, k, credit) >= Payoff(y, k, credit)
  {
  }

  /** The payoff is 1-Lipschitz in the terminal price: each leg has slope
      at most one in absolute value and at most one spread is open. */
  lemma PayoffLipschitz(x: real, y: real, k: Strikes, credit: real)
    requires Ordered(k) && x <= y
    ensures -(y - x) <= Payoff(y, k, credit) - Payoff(x, k, credit) <= y - x
  {
  }

  /** The credit is the maximum profit: it bounds the payoff and is attained. */
  lemma {:induction false} MaxProfitIsCredit(k: Strikes, credit: real)
    requires Ordered(k)
    ensures exists sT: real :: Payoff(sT, k, credit) == credit
    ensures forall sT: real :: Payoff(sT, k, credit) <= credit
  {
    assert Payoff(k.shortPut, k, credit) == credit;
  }

  /** The credit less the wider wing is the maximum loss: it bounds the
      payoff from below and is attained beyond that wing. */
  lemma {:induction false} MaxLossIsWorstWing(k: Strikes, credit: real)
    requires Ordered(k)
    ensures exists sT: real :: Payoff(sT, k, credit) == credit - WorstWing(k)
    ensures forall sT: real :: credit - WorstWing(k) <= Payoff(sT, k, credit)
  {
    if PutWidth(k) >= CallWidth(k) {
      assert Payoff(k.longPut, k, credit) == credit - WorstWing(k);
    } else {
      assert Payoff(k.longCall, k, credit) == credit - WorstWing(k);
    }
  }

  /** For the condor `iron_condor` builds, profit is capped at the credit
      and loss at the wing width, and both caps are reached. */
  lemma BuiltCondorPayoffRange(s: real, sigma: real, t: real, sqrtT: real, r: real, width: real, credit: real)
    requires IsSqrt(sqrtT, t) && s >= 0.0 && sigma >= 0.0 && width > 0.0
    ensures var k := BuildCondor(s, sigma, t, sqrtT, r, width);
      && (forall sT: real :: credit - width <= Payoff(sT, k, credit) <= credit)
      && Payoff(s, k, credit) == credit
      && Payoff(k.longPut, k, credit) == credit - width
      && Payoff(k.longCall, k, credit) == credit - width
  {
  }
}
