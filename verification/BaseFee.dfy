/**
 The search loops of `CalcMemFee` in common/rewardtool.cpp for the base fee whose decayed
 rate reaches half the minimum relay fee. Doubles are modelled as reals.
 */
module BaseFee {

  /** Converting a non-negative double to an amount truncates it. */
  function Truncate(rate: real): int
    requires rate >= 0.0
  {
    rate.Floor
  }

  /** The decayed rate of base fee `v`, where `decay` is the factor the rate has shrunk by. */
  function Rate(v: nat, decay: real): real
    requires decay > 0.0
  {
    v as real / decay
  }

  /** Base fee `v` is one the loop can stop at: the second candidate or later, with enough rate. */
  predicate Enough(v: nat, decay: real, threshold: int)
    requires decay > 0.0
  {
    v >= 2 && Rate(v, decay) >= threshold as real
  }

  /** The least base fee that is enough. */
  function LeastEnough(decay: real, threshold: int): nat
    requires decay > 0.0
  {
    var needed := CeilingOf(threshold as real * decay);
    if needed <= 2 then 2 else needed
  }

  function CeilingOf(x: real): int {
    -((-x).Floor)
  }

  lemma RateReachesIff(v: nat, decay: real, threshold: int)
    requires decay > 0.0
    ensures Rate(v, decay) >= threshold as real <==> v as real >= threshold as real * decay
    ensures Rate(v, decay) >= 0.0
  {
    var r := Rate(v, decay);
    assert r * decay == v as real;
    if r >= threshold as real {
      ScaleUp(threshold as real, r, decay);
    } else {
      ScaleUpStrict(r, threshold as real, decay);
    }
    if r < 0.0 {
      ScaleUpStrict(r, 0.0, decay);
    }
  }

  lemma ScaleUp(a: real, b: real, c: real)
    requires a <= b && c >= 0.0
    ensures a * c <= b * c
  {
    assert (b - a) * c >= 0.0;
  }

  lemma ScaleUpStrict(a: real, b: real, c: real)
    requires a < b && c > 0.0
    ensures a * c < b * c
  {
    assert (b - a) * c > 0.0;
  }

  lemma LeastEnoughIsLeast(decay: real, threshold: int)
    requires decay > 0.0
    ensures Enough(LeastEnough(decay, threshold), decay, threshold)
    ensures forall v: nat :: Enough(v, decay, threshold) <==> v >= LeastEnough(decay, threshold)
  {
    forall v: nat
      ensures Enough(v, decay, threshold) <==> v >= LeastEnough(decay, threshold)
    {
      RateReachesIff(v, decay, threshold);
    }
  }

  /** The base fees from the least enough one on are those from 2 on whose rate reaches the threshold. */
  lemma LeastEnoughIff(decay: real, threshold: int, v: nat)
    requires decay > 0.0
    ensures v >= LeastEnough(decay, threshold) <==> v >= 2 && v as real / decay >= threshold as real
  {
    LeastEnoughIsLeast(decay, threshold);
    assert Enough(v, decay, threshold) <==> v >= LeastEnough(decay, threshold);
  }

  /** The loop goes on to another base fee: the fee for the size stays below the maximum. */
  predicate Affordable(v: nat, decay: real, fee: int -> int, maxFee: int)
    requires decay > 0.0
  {
    RateReachesIff(v, decay, 0);
    fee(Truncate(Rate(v, decay))) < maxFee
  }

  /** That is what its name says: the fee at the base fee's decayed rate, rounded down, is below the maximum. */
  lemma AffordableIff(v: nat, decay: real, fee: int -> int, maxFee: int)
    requires decay > 0.0
    ensures Affordable(v, decay, fee, maxFee) <==> fee((v as real / decay).Floor) < maxFee
  {
    RateReachesIff(v, decay, 0);
  }

  /**
   One of the two loops. `fee` gives the fee for the transaction size at a rate. If the loop
   breaks, it has found the least base fee that is enough; it breaks exactly when every
   smaller base fee is affordable, and otherwise stops at the first that is not.
   */
  method FindBaseFee(decay: real, threshold: int, fee: int -> int, maxFee: int) returns (varbasefee: nat, found: bool)
    requires decay > 0.0
    ensures found ==> varbasefee == LeastEnough(decay, threshold)
    ensures found <==> forall v: nat :: 1 <= v < LeastEnough(decay, threshold) ==> Affordable(v, decay, fee, maxFee)
    ensures !found ==> 1 <= varbasefee < LeastEnough(decay, threshold) && !Affordable(varbasefee, decay, fee, maxFee)
    ensures forall v: nat :: 1 <= v < varbasefee ==> Affordable(v, decay, fee, maxFee)
  {
    LeastEnoughIsLeast(decay, threshold);
    varbasefee, found := 1, false;
    RateReachesIff(varbasefee, decay, 0);
    var rate := Rate(varbasefee, decay);
    while fee(Truncate(rate)) < maxFee
      invariant 1 <= varbasefee < LeastEnough(decay, threshold)
      invariant rate == Rate(varbasefee, decay) >= 0.0
      invariant forall v: nat :: 1 <= v < varbasefee ==> Affordable(v, decay, fee, maxFee)
      decreases LeastEnough(decay, threshold) - varbasefee
    {
      assert Affordable(varbasefee, decay, fee, maxFee);
      varbasefee := varbasefee + 1;
      RateReachesIff(varbasefee, decay, 0);
      rate := Rate(varbasefee, decay);
      assert Enough(varbasefee, decay, threshold) <==> rate >= threshold as real;
      if rate >= threshold as real {
        found := true;
        return;
      }
    }
    assert !Affordable(varbasefee, decay, fee, maxFee);
  }

  // ---------- the two half-lives ----------

  ghost predicate AddsExponents(pow: real -> real, x: real, y: real) {
    pow(x + y) == pow(x) * pow(y)
  }

  /** The laws of powers of two that the two decay factors rest on. */
  ghost predicate IsPowerOfTwo(pow: real -> real) {
    && pow(1.0) == 2.0
    && (forall x: real, y: real :: AddsExponents(pow, x, y))
    && (forall x: real :: pow(x) > 0.0)
    && (forall x: real :: x >= 0.0 ==> pow(x) >= 1.0)
  }

  /** The factor a rate has shrunk by after `time`, when it halves every `halflife / parts`. */
  function Decay(pow: real -> real, time: int, halflife: real, parts: int): real
    requires halflife > 0.0 && parts > 0
  {
    pow(time as real / (halflife / parts as real))
  }

  /** The factor is one at the start and doubles with every `parts`-th part of the half-life. */
  lemma DecayDoubles(pow: real -> real, time0: int, time1: int, halflife: real, parts: int)
    requires IsPowerOfTwo(pow) && halflife > 0.0 && parts > 0
    requires time1 as real == time0 as real + halflife / parts as real
    ensures Decay(pow, 0, halflife, parts) == 1.0
    ensures Decay(pow, time1, halflife, parts) == 2.0 * Decay(pow, time0, halflife, parts)
  {
    var part := halflife / parts as real;
    PowZero(pow);
    QuotientStep(time0 as real, time1 as real, part);
    assert AddsExponents(pow, time0 as real / part, 1.0);
  }

  lemma QuotientStep(a: real, b: real, part: real)
    requires part > 0.0 && b == a + part
    ensures b / part == a / part + 1.0 && 0.0 / part == 0.0
  {
    var q := a / part + 1.0;
    assert q * part == a / part * part + part == b;
    QuotientIs(b, part, q);
    QuotientIs(0.0, part, 0.0);
  }

  lemma QuotientIs(a: real, b: real, q: real)
    requires b > 0.0 && q * b == a
    ensures a / b == q
  {
    var p := a / b;
    assert p * b == a;
    if p < q {
      ScaleUpStrict(p, q, b);
    } else if q < p {
      ScaleUpStrict(q, p, b);
    }
  }

  /** With a quarter of the half-life the decay factor is the square of that with half of it. */
  lemma QuarterIsHalfSquared(pow: real -> real, time: int, halflife: real)
    requires IsPowerOfTwo(pow) && halflife > 0.0
    ensures Decay(pow, time, halflife, 4) == Decay(pow, time, halflife, 2) * Decay(pow, time, halflife, 2)
  {
    var half := time as real / (halflife / 2.0);
    assert time as real / (halflife / 4.0) == half + half;
    assert AddsExponents(pow, half, half);
  }

  /** A larger decay factor needs a base fee at least as large. */
  lemma MoreDecayNeedsMore(decay1: real, decay2: real, threshold: int)
    requires 0.0 < decay1 <= decay2 && threshold >= 0
    ensures LeastEnough(decay1, threshold) <= LeastEnough(decay2, threshold)
  {
    ScaleUp(decay1, decay2, threshold as real);
    var x, y := threshold as real * decay1, threshold as real * decay2;
    assert x == decay1 * threshold as real && y == decay2 * threshold as real;
    CeilingMonotone(x, y);
  }

  lemma CeilingMonotone(x: real, y: real)
    requires x <= y
    ensures CeilingOf(x) <= CeilingOf(y)
  {
  }

  /**
   For a non-negative time the answer for the quarter half-life is at least the one for the
   half; for a negative time it is at most that.
   */
  lemma QuarterNeedsMore(pow: real -> real, time: int, halflife: real, threshold: int)
    requires IsPowerOfTwo(pow) && halflife > 0.0 && threshold >= 0
    ensures var half, quarter := Decay(pow, time, halflife, 2), Decay(pow, time, halflife, 4);
            && half > 0.0 && quarter > 0.0
            && (time >= 0 ==> LeastEnough(half, threshold) <= LeastEnough(quarter, threshold))
            && (time <= 0 ==> LeastEnough(half, threshold) >= LeastEnough(quarter, threshold))
  {
    HalfDecayRange(pow, time, halflife);
    QuarterIsHalfSquared(pow, time, halflife);
    SquareNeedsMore(Decay(pow, time, halflife, 2), Decay(pow, time, halflife, 4), threshold);
  }

  lemma SquareBelow(h: real)
    requires 0.0 < h <= 1.0
    ensures h * h <= h
  {
    var rest := 1.0 - h;
    assert rest * h >= 0.0;
    assert rest * h == h - h * h;
  }

  lemma SquareNeedsMore(half: real, quarter: real, threshold: int)
    requires half > 0.0 && quarter > 0.0 && quarter == half * half && threshold >= 0
    ensures half >= 1.0 ==> LeastEnough(half, threshold) <= LeastEnough(quarter, threshold)
    ensures half <= 1.0 ==> LeastEnough(half, threshold) >= LeastEnough(quarter, threshold)
  {
    if half >= 1.0 {
      ScaleUp(1.0, half, half);
      MoreDecayNeedsMore(half, quarter, threshold);
    }
    if half <= 1.0 {
      SquareBelow(half);
      MoreDecayNeedsMore(quarter, half, threshold);
    }
  }

  lemma HalfDecayRange(pow: real -> real, time: int, halflife: real)
    requires IsPowerOfTwo(pow) && halflife > 0.0
    ensures Decay(pow, time, halflife, 2) > 0.0
    ensures time >= 0 ==> Decay(pow, time, halflife, 2) >= 1.0
    ensures time <= 0 ==> Decay(pow, time, halflife, 2) <= 1.0
  {
    SignOfQuotient(time as real, halflife / 2.0);
    if time <= 0 {
      PowAtMostOne(pow, time as real / (halflife / 2.0));
    }
  }

  lemma PowAtMostOne(pow: real -> real, x: real)
    requires IsPowerOfTwo(pow) && x <= 0.0
    ensures pow(x) <= 1.0
  {
    PowZero(pow);
    var a, b := pow(x), pow(-x);
    assert AddsExponents(pow, x, -x) && x + -x == 0.0;
    ScaleUp(1.0, b, a);
  }

  lemma PowZero(pow: real -> real)
    requires IsPowerOfTwo(pow)
    ensures pow(0.0) == 1.0
  {
    var z := pow(0.0);
    assert AddsExponents(pow, 0.0, 0.0);
    if z > 1.0 {
      ScaleUpStrict(1.0, z, z);
    }
  }

  lemma SignOfQuotient(a: real, b: real)
    requires b > 0.0
    ensures a >= 0.0 ==> a / b >= 0.0
    ensures a <= 0.0 ==> -(a / b) >= 0.0
  {
    var q := a / b;
    assert q * b == a;
    if a >= 0.0 && q < 0.0 {
      ScaleUpStrict(q, 0.0, b);
    }
    if a <= 0.0 && q > 0.0 {
      ScaleUpStrict(0.0, q, b);
    }
  }

  // ---------- the whole command ----------

  /**
   What is needed of the chain's fee rule, where `fee` is the fee for one size at a rate: no
   fee is negative, and unless the fee at the minimum rate is zero, no rate below half the
   minimum, nor a rate of one, asks ten thousand times that fee.
   */
  ghost predicate IsFeeRule(fee: int -> int, feePerK: nat) {
    && (forall rate: int :: 0 <= rate ==> 0 <= fee(rate))
    && (fee(feePerK) > 0 ==>
          forall rate: int :: 0 <= rate < feePerK / 2 || 0 <= rate <= 1 ==> fee(rate) < fee(feePerK) * 10000)
  }

  /** A rate that is not yet enough is below half the minimum fee per K, so its fee is affordable. */
  lemma NotEnoughIsAffordable(v: nat, decay: real, feePerK: nat, fee: int -> int)
    requires decay > 0.0 && IsFeeRule(fee, feePerK) && fee(feePerK) > 0
    requires Rate(v, decay) < (feePerK / 2) as real
    ensures Affordable(v, decay, fee, fee(feePerK) * 10000)
  {
    RateReachesIff(v, decay, 0);
    assert 0 <= Truncate(Rate(v, decay)) < feePerK / 2;
  }

  /** A loop breaks exactly if its very first test passes: no later one can fail. */
  lemma BreaksIffFirstTestPasses(decay: real, feePerK: nat, fee: int -> int)
    requires decay > 0.0 && IsFeeRule(fee, feePerK)
    ensures var maxFee := fee(feePerK) * 10000;
            (forall v: nat :: 1 <= v < LeastEnough(decay, feePerK / 2) ==> Affordable(v, decay, fee, maxFee))
            <==> Affordable(1, decay, fee, maxFee)
  {
    var maxFee := fee(feePerK) * 10000;
    LeastEnoughIsLeast(decay, feePerK / 2);
    RateReachesIff(1, decay, 0);
    if Affordable(1, decay, fee, maxFee) {
      assert fee(feePerK) > 0;
      forall v: nat | 1 <= v < LeastEnough(decay, feePerK / 2)
        ensures Affordable(v, decay, fee, maxFee)
      {
        assert !Enough(v, decay, feePerK / 2);
        if v > 1 {
          NotEnoughIsAffordable(v, decay, feePerK, fee);
        }
      }
    }
  }

  /** After a non-negative time the first test passes exactly if the minimum fee is not zero. */
  lemma FirstTestPassesIff(decay: real, feePerK: nat, fee: int -> int)
    requires decay >= 1.0 && IsFeeRule(fee, feePerK)
    ensures Affordable(1, decay, fee, fee(feePerK) * 10000) <==> fee(feePerK) > 0
  {
    RateReachesIff(1, decay, 0);
    RateReachesIff(1, decay, 2);
    assert 0 <= Truncate(Rate(1, decay)) <= 1;
    assert 0 <= fee(Truncate(Rate(1, decay))) && 0 <= fee(feePerK);
  }

  /**
   The command for a transaction of one size after `time`; `fee` is the fee for that size at
   a rate. For a non-negative time either both loops find their base fee or neither does,
   and the quarter half-life never needs less than the half.
   */
  method CalcMemFee(pow: real -> real, time: int, halflife: real, feePerK: nat, fee: int -> int)
    returns (quarter: nat, quarterFound: bool, half: nat, halfFound: bool)
    requires IsPowerOfTwo(pow) && halflife > 0.0 && IsFeeRule(fee, feePerK)
    ensures var decay4, decay2 := Decay(pow, time, halflife, 4), Decay(pow, time, halflife, 2);
            && decay4 > 0.0 && decay2 > 0.0
            && decay4 == pow(time as real / (halflife / 4.0)) && decay2 == pow(time as real / (halflife / 2.0))
            && (quarterFound <==> fee((1.0 / decay4).Floor) < fee(feePerK) * 10000)
            && (halfFound <==> fee((1.0 / decay2).Floor) < fee(feePerK) * 10000)
            && (quarterFound <==> Affordable(1, decay4, fee, fee(feePerK) * 10000))
            && (halfFound <==> Affordable(1, decay2, fee, fee(feePerK) * 10000))
            && quarter == (if quarterFound then LeastEnough(decay4, feePerK / 2) else 1)
            && half == (if halfFound then LeastEnough(decay2, feePerK / 2) else 1)
    ensures time >= 0 ==> (quarterFound <==> fee(feePerK) > 0) && (halfFound <==> fee(feePerK) > 0)
    ensures time >= 0 ==> quarter >= half
  {
    var decay4, decay2 := Decay(pow, time, halflife, 4), Decay(pow, time, halflife, 2);
    DecaysAre(pow, time, halflife, feePerK / 2);
    quarter, quarterFound := SearchFee(decay4, feePerK, fee);
    half, halfFound := SearchFee(decay2, feePerK, fee);
  }

  lemma DecaysAre(pow: real -> real, time: int, halflife: real, threshold: nat)
    requires IsPowerOfTwo(pow) && halflife > 0.0
    ensures var decay4, decay2 := Decay(pow, time, halflife, 4), Decay(pow, time, halflife, 2);
            && decay4 == pow(time as real / (halflife / 4.0)) && decay4 > 0.0
            && decay2 == pow(time as real / (halflife / 2.0)) && decay2 > 0.0
            && (time >= 0 ==> decay4 >= 1.0 && decay2 >= 1.0)
            && (time >= 0 ==> 2 <= LeastEnough(decay2, threshold) <= LeastEnough(decay4, threshold))
  {
    HalfDecayRange(pow, time, halflife);
    QuarterNeedsMore(pow, time, halflife, threshold);
    QuarterIsHalfSquared(pow, time, halflife);
    var h := Decay(pow, time, halflife, 2);
    if time >= 0 {
      ScaleUp(1.0, h, h);
    }
  }

  /** One of the command's two searches: it succeeds exactly if its first test passes, and stays at 1 otherwise. */
  method SearchFee(decay: real, feePerK: nat, fee: int -> int) returns (varbasefee: nat, found: bool)
    requires decay > 0.0 && IsFeeRule(fee, feePerK)
    ensures found <==> fee((1.0 / decay).Floor) < fee(feePerK) * 10000
    ensures found <==> Affordable(1, decay, fee, fee(feePerK) * 10000)
    ensures varbasefee == if found then LeastEnough(decay, feePerK / 2) else 1
    ensures decay >= 1.0 ==> (found <==> fee(feePerK) > 0)
  {
    var maxFee := fee(feePerK) * 10000;
    AffordableIff(1, decay, fee, maxFee);
    BreaksIffFirstTestPasses(decay, feePerK, fee);
    if decay >= 1.0 {
      FirstTestPassesIff(decay, feePerK, fee);
    }
    varbasefee, found := FindBaseFee(decay, feePerK / 2, fee, maxFee);
  }
}
