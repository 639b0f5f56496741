/**
 Amounts kept as whole coins and a remainder (`AddReward` in common/rewardtool.cpp). The
 remainder is carried only once it exceeds a coin, so it ranges over 0..COIN inclusive.
 */
module Rewards {
  import opened Sums

  const COIN: int := 100_000_000

  /** C++ division and remainder on signed integers, which truncate toward zero. */
  function Quotient(a: int, b: int): int
    requires b > 0
  {
    if a >= 0 then a / b else -((-a) / b)
  }

  function Remainder(a: int, b: int): int
    requires b > 0
  {
    a - b * Quotient(a, b)
  }

  datatype Purse = Purse(coin: int, small: int)

  function Worth(p: Purse): int {
    p.coin * COIN + p.small
  }

  /**
   Adding a value keeps the purse's worth, for negative values too. From a remainder in
   range, a non-negative value leaves it in range, and zero only if nothing but whole coins
   was ever added.
   */
  method AddReward(value: int, coin0: int, small0: int) returns (coin: int, small: int)
    ensures Worth(Purse(coin, small)) == Worth(Purse(coin0, small0)) + value
    ensures value >= 0 && 0 <= small0 <= COIN ==>
              0 <= small <= COIN && (small == 0 <==> small0 == 0 && value % COIN == 0)
  {
    coin, small := coin0, small0;
    coin := coin + Quotient(value, COIN);
    small := small + Remainder(value, COIN);
    if small > COIN {
      coin, small := coin + Quotient(small, COIN), Remainder(small, COIN);
    }
  }

  // ---------- what a run of additions leaves ----------

  predicate OnlyWholeCoins(values: seq<nat>) {
    values == [] || (OnlyWholeCoins(values[..|values| - 1]) && values[|values| - 1] % COIN == 0)
  }

  ghost predicate AddsUpTo(values: seq<nat>, total: int) {
    total == Sum(values)
  }

  /** What a run of additions to an empty purse leaves, whatever the values add up to. */
  ghost predicate Holds(p: Purse, values: seq<nat>) {
    forall total :: AddsUpTo(values, total) ==>
      Worth(p) == total && 0 <= p.small <= COIN && (p.small == 0 <==> OnlyWholeCoins(values))
  }

  /** The purse that adding the values one by one to an empty purse leaves. */
  ghost function PurseOf(values: seq<nat>): (p: Purse)
    ensures Holds(p, values)
  {
    PurseExists(values);
    var p :| Holds(p, values);
    p
  }

  /** Its worth is the sum, its remainder is in range, and zero only if it holds whole coins alone. */
  lemma PurseHolds(values: seq<nat>)
    ensures var p := PurseOf(values);
            && Worth(p) == Sum(values)
            && 0 <= p.small <= COIN && p.coin >= 0
            && (p.small == 0 <==> OnlyWholeCoins(values))
  {
    assert AddsUpTo(values, Sum(values));
    ZeroSumIsWhole(values);
  }

  /** Nothing else has these properties. */
  lemma PurseIsUnique(values: seq<nat>, p: Purse)
    requires Worth(p) == Sum(values) && 0 <= p.small <= COIN && (p.small == 0 <==> OnlyWholeCoins(values))
    ensures p == PurseOf(values)
  {
    PurseHolds(values);
  }

  lemma {:induction false} WholeCoinsSum(values: seq<nat>)
    requires OnlyWholeCoins(values)
    ensures Sum(values) % COIN == 0
  {
    if values != [] {
      WholeCoinsSum(values[..|values| - 1]);
    }
  }

  lemma {:induction false} ZeroSumIsWhole(values: seq<nat>)
    ensures Sum(values) == 0 ==> OnlyWholeCoins(values)
  {
    if values != [] {
      ZeroSumIsWhole(values[..|values| - 1]);
    }
  }

  lemma PurseExists(values: seq<nat>)
    ensures exists p :: Holds(p, values)
  {
    var total := Sum(values);
    if OnlyWholeCoins(values) {
      WholeCoinsSum(values);
      assert Holds(Purse(total / COIN, 0), values);
    } else if total % COIN == 0 {
      assert Holds(Purse(total / COIN - 1, COIN), values);
    } else {
      assert Holds(Purse(total / COIN, total % COIN), values);
    }
  }

  /**
   A purse's whole coins are the floor of the sum, except that a sum that comes out even
   after some uneven value is one coin short, with that coin left in the remainder.
   */
  lemma PurseClosedForm(values: seq<nat>)
    ensures var p, total := PurseOf(values), Sum(values);
            && p.coin == total / COIN - (if total % COIN == 0 && !OnlyWholeCoins(values) then 1 else 0)
            && (p.small == COIN <==> total % COIN == 0 && !OnlyWholeCoins(values))
  {
    PurseHolds(values);
    if OnlyWholeCoins(values) {
      WholeCoinsSum(values);
    }
  }

  /** What adding the amounts leaves besides whole coins: a full coin if it comes out even unevenly. */
  function Leftover(values: seq<nat>): nat {
    if Sum(values) % COIN == 0 && !OnlyWholeCoins(values) then COIN else Sum(values) % COIN
  }

  lemma LeftoverIsRemainder(values: seq<nat>)
    ensures PurseOf(values).small == Leftover(values) <= COIN
    ensures PurseOf(values).coin * COIN + Leftover(values) == Sum(values)
  {
    PurseHolds(values);
    PurseClosedForm(values);
    if OnlyWholeCoins(values) {
      WholeCoinsSum(values);
    }
  }

  lemma OnlyWholeCoinsExtend(values: seq<nat>, v: nat)
    ensures OnlyWholeCoins(values + [v]) <==> OnlyWholeCoins(values) && v % COIN == 0
  {
    assert (values + [v])[..|values|] == values;
  }

  /** One call of AddReward takes the purse of some values to the purse of one more. */
  lemma AddRewardExtends(values: seq<nat>, v: nat, p: Purse)
    requires Worth(p) == Worth(PurseOf(values)) + v && 0 <= p.small <= COIN
    requires p.small == 0 <==> PurseOf(values).small == 0 && v % COIN == 0
    ensures p == PurseOf(values + [v])
  {
    SumExtend(values, v);
    OnlyWholeCoinsExtend(values, v);
    PurseHolds(values);
    PurseIsUnique(values + [v], p);
  }

  /** Splitting an already exact remainder gives the exact floor: it never stays at COIN. */
  lemma RecombinedIsFloor(coin0: int, remainders: nat, p: Purse)
    requires coin0 >= 0
    requires Worth(p) == coin0 * COIN + remainders && 0 <= p.small <= COIN
    requires p.small == 0 <==> remainders % COIN == 0
    ensures p.coin == (coin0 * COIN + remainders) / COIN
    ensures p.coin == coin0 + remainders / COIN
  {
    var q := remainders / COIN;
    assert p.small < COIN;
    assert remainders == q * COIN + remainders % COIN;
  }
}
