/**
 What a single column of the reward report shows. Its printed total loses the coins that
 its windows' remainders hold, so it is exact, or the same under another cut into windows,
 only as far as those remainders allow. What each window leaves over depends on its amounts
 alone.
 */
module RewardColumns {
  import opened Sums
  import opened Rewards
  import opened RewardReport

  // ---------- sums over windows ----------

  /** Some amount of each of the first `n` windows, added up. */
  ghost function Over(amount: (int, int) -> int, edge: int -> int, n: nat): int {
    if n == 0 then 0 else Over(amount, edge, n - 1) + amount(edge(n - 1), edge(n))
  }

  lemma OverStep(amount: (int, int) -> int, edge: int -> int, n: nat)
    ensures Over(amount, edge, n) == if n == 0 then 0 else Over(amount, edge, n - 1) + amount(edge(n - 1), edge(n))
  {
  }

  /** In the window, coins and the rest, at most one coin, make up the worth. */
  ghost predicate MakesUp(coins: (int, int) -> int, rest: (int, int) -> int, worth: (int, int) -> int,
                          lo: int, hi: int)
  {
    coins(lo, hi) * COIN + rest(lo, hi) == worth(lo, hi) && 0 <= rest(lo, hi) <= COIN
  }

  lemma {:induction false} AllMakeUp(coins: (int, int) -> int, rest: (int, int) -> int, worth: (int, int) -> int,
                                     edge: int -> int, n: nat)
    requires forall lo, hi :: MakesUp(coins, rest, worth, lo, hi)
    ensures Over(coins, edge, n) * COIN + Over(rest, edge, n) == Over(worth, edge, n)
    ensures 0 <= Over(rest, edge, n) <= n * COIN
  {
    if n > 0 {
      AllMakeUp(coins, rest, worth, edge, n - 1);
      assert MakesUp(coins, rest, worth, edge(n - 1), edge(n));
    }
  }

  /** The amount of a window adds up height by height. */
  ghost predicate AddsHeight(amount: (int, int) -> int, at: int -> int, lo: int, hi: int) {
    amount(lo, hi) == if hi <= lo then 0 else amount(lo, hi - 1) + at(hi - 1)
  }

  lemma {:induction false} AmountSplits(amount: (int, int) -> int, at: int -> int, lo: int, mid: int, hi: int)
    requires lo <= mid <= hi && forall a, b :: AddsHeight(amount, at, a, b)
    ensures amount(lo, hi) == amount(lo, mid) + amount(mid, hi)
    decreases hi - mid
  {
    assert AddsHeight(amount, at, mid, hi);
    if mid < hi {
      AmountSplits(amount, at, lo, mid, hi - 1);
      assert AddsHeight(amount, at, lo, hi);
    }
  }

  lemma {:induction false} AmountTiles(amount: (int, int) -> int, at: int -> int, edge: int -> int, n: nat)
    requires Ascending(edge, n) && forall a, b :: AddsHeight(amount, at, a, b)
    ensures Over(amount, edge, n) == amount(edge(0), edge(n))
  {
    if n > 0 {
      AmountTiles(amount, at, edge, n - 1);
      AmountSplits(amount, at, edge(0), edge(n - 1), edge(n));
    } else {
      assert AddsHeight(amount, at, edge(0), edge(0));
    }
  }

  // ---------- one window of a column ----------

  /** What a window books to a column, what its purse shows of it, and what that leaves over. */
  function BookedIn(s: Schedule, c: Column): (int, int) -> int {
    (lo, hi) => Sum(Booked(s, c, lo, hi))
  }

  ghost function ShownIn(s: Schedule, c: Column): (int, int) -> int {
    (lo, hi) => PurseOf(Booked(s, c, lo, hi)).coin
  }

  function LeftIn(s: Schedule, c: Column): (int, int) -> int {
    (lo, hi) => Leftover(Booked(s, c, lo, hi))
  }

  lemma WindowMakesUp(s: Schedule, c: Column, lo: int, hi: int)
    ensures MakesUp(ShownIn(s, c), LeftIn(s, c), BookedIn(s, c), lo, hi)
  {
    LeftoverIsRemainder(Booked(s, c, lo, hi));
  }

  function BookedAtHeight(s: Schedule, c: Column): int -> int {
    h => Sum(BookedAt(s, c, h))
  }

  lemma BookedAddsHeight(s: Schedule, c: Column, lo: int, hi: int)
    ensures AddsHeight(BookedIn(s, c), BookedAtHeight(s, c), lo, hi)
  {
    if lo < hi {
      BookedSumStep(s, c, lo, hi);
    }
  }

  // ---------- a column over all windows ----------

  /** The total the report prints for a column over the first `n` windows. */
  ghost function ColumnTotal(s: Schedule, c: Column, edge: int -> int, n: nat): int {
    PurseIn(SumPurses(s, edge, n), c).coin
  }

  /** Everything booked to a column over the first `n` windows. */
  ghost function ColumnSum(s: Schedule, c: Column, edge: int -> int, n: nat): int {
    Over(BookedIn(s, c), edge, n)
  }

  /** What the first `n` windows of a column leave over, added up. */
  ghost function Leftovers(s: Schedule, c: Column, edge: int -> int, n: nat): int {
    Over(LeftIn(s, c), edge, n)
  }

  lemma PurseInWindow(s: Schedule, c: Column, lo: int, hi: int)
    ensures PurseIn(PursesOf(s, lo, hi), c).coin == ShownIn(s, c)(lo, hi)
  {
  }

  lemma SumPursesStep(s: Schedule, edge: int -> int, n: nat)
    requires n > 0
    ensures SumPurses(s, edge, n) == Plus(SumPurses(s, edge, n - 1), PursesOf(s, edge(n - 1), edge(n)))
  {
  }

  lemma TotalAdds(s: Schedule, c: Column, edge: int -> int, n: nat)
    requires n > 0
    ensures ColumnTotal(s, c, edge, n) == ColumnTotal(s, c, edge, n - 1) + ShownIn(s, c)(edge(n - 1), edge(n))
  {
    SumPursesStep(s, edge, n);
    PurseInAdds(SumPurses(s, edge, n - 1), PursesOf(s, edge(n - 1), edge(n)), c);
    PurseInWindow(s, c, edge(n - 1), edge(n));
  }

  ghost predicate ShowsTotal(s: Schedule, c: Column, edge: int -> int, n: nat) {
    ColumnTotal(s, c, edge, n) == Over(ShownIn(s, c), edge, n)
  }

  lemma TotalStarts(s: Schedule, c: Column, edge: int -> int)
    ensures ShowsTotal(s, c, edge, 0)
  {
    OverStep(ShownIn(s, c), edge, 0);
  }

  lemma TotalStep(s: Schedule, c: Column, edge: int -> int, n: nat)
    requires n > 0 && ShowsTotal(s, c, edge, n - 1)
    ensures ShowsTotal(s, c, edge, n)
  {
    TotalAdds(s, c, edge, n);
    OverStep(ShownIn(s, c), edge, n);
  }

  lemma {:induction false} TotalIsShown(s: Schedule, c: Column, edge: int -> int, n: nat)
    ensures ShowsTotal(s, c, edge, n)
  {
    if n == 0 {
      TotalStarts(s, c, edge);
    } else {
      TotalIsShown(s, c, edge, n - 1);
      TotalStep(s, c, edge, n);
    }
  }

  /** A column's total and its leftovers are together worth what was booked. */
  lemma ColumnWorth(s: Schedule, c: Column, edge: int -> int, n: nat)
    ensures ColumnTotal(s, c, edge, n) * COIN + Leftovers(s, c, edge, n) == ColumnSum(s, c, edge, n)
    ensures 0 <= Leftovers(s, c, edge, n) <= n * COIN
  {
    TotalIsShown(s, c, edge, n);
    forall lo, hi
      ensures MakesUp(ShownIn(s, c), LeftIn(s, c), BookedIn(s, c), lo, hi)
    {
      WindowMakesUp(s, c, lo, hi);
    }
    AllMakeUp(ShownIn(s, c), LeftIn(s, c), BookedIn(s, c), edge, n);
  }

  /**
   A column's total falls short of the exact floor by the coins in its leftovers, so it is
   the floor exactly if these come to less than a coin.
   */
  lemma ColumnIsFloorIff(s: Schedule, c: Column, edge: int -> int, n: nat)
    ensures ColumnTotal(s, c, edge, n) == ColumnSum(s, c, edge, n) / COIN - Leftovers(s, c, edge, n) / COIN
    ensures ColumnTotal(s, c, edge, n) == ColumnSum(s, c, edge, n) / COIN <==> Leftovers(s, c, edge, n) < COIN
  {
    ColumnWorth(s, c, edge, n);
    FloorOfParts(ColumnTotal(s, c, edge, n), Leftovers(s, c, edge, n), ColumnSum(s, c, edge, n));
  }

  lemma FloorOfParts(coins: int, rest: int, worth: int)
    requires coins * COIN + rest == worth && rest >= 0
    ensures worth / COIN == coins + rest / COIN
    ensures coins == worth / COIN <==> rest < COIN
  {
  }

  /** Adjoining windows book to a column what their whole range books to it. */
  lemma ColumnTiles(s: Schedule, c: Column, edge: int -> int, n: nat)
    requires Ascending(edge, n)
    ensures ColumnSum(s, c, edge, n) == BookedIn(s, c)(edge(0), edge(n))
  {
    forall lo, hi
      ensures AddsHeight(BookedIn(s, c), BookedAtHeight(s, c), lo, hi)
    {
      BookedAddsHeight(s, c, lo, hi);
    }
    AmountTiles(BookedIn(s, c), BookedAtHeight(s, c), edge, n);
  }

  /** Two cuts of one range print the same total for a column exactly if they leave over the same. */
  lemma CutsAgreeIff(s: Schedule, c: Column, edge1: int -> int, n1: nat, edge2: int -> int, n2: nat)
    requires Ascending(edge1, n1) && Ascending(edge2, n2)
    requires edge1(0) == edge2(0) && edge1(n1) == edge2(n2)
    ensures ColumnTotal(s, c, edge1, n1) == ColumnTotal(s, c, edge2, n2)
       <==> Leftovers(s, c, edge1, n1) == Leftovers(s, c, edge2, n2)
  {
    ColumnTiles(s, c, edge1, n1);
    ColumnTiles(s, c, edge2, n2);
    ColumnWorth(s, c, edge1, n1);
    ColumnWorth(s, c, edge2, n2);
  }

  /** For the report: two reports over equally many years agree on a column under that condition. */
  lemma ReportsAgreeOnColumnIff(s: Schedule, c: Column, iyears1: int, isum1: nat, iyears2: int, isum2: nat)
    requires iyears1 > 0 && iyears2 > 0 && isum1 * iyears1 == isum2 * iyears2
    ensures ColumnTotal(s, c, YearEdges(iyears1), isum1) == ColumnTotal(s, c, YearEdges(iyears2), isum2)
       <==> Leftovers(s, c, YearEdges(iyears1), isum1) == Leftovers(s, c, YearEdges(iyears2), isum2)
  {
    SameRange(iyears1, isum1);
    SameRange(iyears2, isum2);
    CutsAgreeIff(s, c, YearEdges(iyears1), isum1, YearEdges(iyears2), isum2);
  }

  lemma SameRange(iyears: int, isum: nat)
    requires iyears > 0
    ensures Ascending(YearEdges(iyears), isum)
    ensures YearEdges(iyears)(0) == 0 && YearEdges(iyears)(isum) == isum * iyears * BLOCKS_PER_YEAR
  {
    YearEdgesOrdered(iyears, isum);
    LastEdge(iyears, isum);
  }
}
