/**
 The reward reports of common/rewardtool.cpp: the subsidy of one block, and the totals per
 window of years that `RewardStatistics` prints. The subsidy schedule is chain code that is
 not part of this model, so it is any family of non-negative amounts per height.
 */
module RewardReport {
  import opened Sums
  import opened Rewards

  const BLOCKS_PER_YEAR: int := 210240

  datatype Schedule = Schedule(miner: int -> nat, masternode: int -> nat, founders: int -> nat, budget: int -> nat,
                               superblock: int -> bool, paymentsStart: int)

  datatype Column = Miner | Budget | Masternode | Founders

  /** The amounts the statistics add to a column at height `h`, in order. */
  function BookedAt(s: Schedule, c: Column, h: int): seq<nat> {
    match c
    case Miner => if h == 1 then [] else [s.miner(h)]
    case Budget => if s.superblock(h) && h >= s.paymentsStart then [s.budget(h)] else []
    case Masternode => [s.masternode(h)]
    case Founders => (if h == 1 then [s.miner(h)] else []) + (if s.superblock(h) then [s.founders(h)] else [])
  }

  function Booked(s: Schedule, c: Column, lo: int, hi: int): seq<nat>
    decreases hi - lo
  {
    if hi <= lo then [] else Booked(s, c, lo, hi - 1) + BookedAt(s, c, hi - 1)
  }

  /** The whole subsidy of one block, as `BlockReward` adds it up. */
  function Subsidy(s: Schedule, h: int): nat {
    (if s.superblock(h) then (if h >= s.paymentsStart then s.budget(h) else 0) + s.founders(h) else 0)
    + s.miner(h) + s.masternode(h)
  }

  function SubsidySum(s: Schedule, lo: int, hi: int): nat
    decreases hi - lo
  {
    if hi <= lo then 0 else SubsidySum(s, lo, hi - 1) + Subsidy(s, hi - 1)
  }

  datatype Row = Row(first: int, last: int, miner: int, budget: int, masternode: int, founders: int, blocks: int)

  /**
   The line `BlockReward` prints: each part and the whole in full coins. It shows what the
   statistics book at that height, except that at height 1 the miner's part stays the
   miner's. The parts are rounded down one by one, so the whole can exceed their sum by up
   to three coins.
   */
  method BlockReward(s: Schedule, h: int) returns (row: Row)
    ensures row.first == row.last == h
    ensures row.blocks == Subsidy(s, h) / COIN
    ensures row.budget == Sum(BookedAt(s, Budget, h)) / COIN && row.masternode == Sum(BookedAt(s, Masternode, h)) / COIN
    ensures h != 1 ==>
              row.miner == Sum(BookedAt(s, Miner, h)) / COIN && row.founders == Sum(BookedAt(s, Founders, h)) / COIN
    ensures h == 1 ==>
              row.miner == s.miner(1) / COIN && row.founders == if s.superblock(1) then s.founders(1) / COIN else 0
    ensures row.miner + row.budget + row.masternode + row.founders <= row.blocks
         <= row.miner + row.budget + row.masternode + row.founders + 3
  {
    var budget, founders := 0, 0;
    if s.superblock(h) {
      if h >= s.paymentsStart {
        budget := s.budget(h);
      }
      founders := s.founders(h);
    }
    var miner := s.miner(h);
    var mstnd := s.masternode(h);
    BookedAtSums(s, h);
    FloorsOfParts(miner, budget, mstnd, founders);
    row := Row(h, h, Quotient(miner, COIN), Quotient(budget, COIN), Quotient(mstnd, COIN), Quotient(founders, COIN),
               Quotient(budget + founders + miner + mstnd, COIN));
  }

  /**
   Booking by columns neither loses nor invents anything: over any window the four columns
   hold exactly the subsidies of its blocks, height 1 included, whose miner subsidy is
   booked to the founders.
   */
  lemma {:induction false} ColumnsHoldSubsidies(s: Schedule, lo: int, hi: int)
    ensures Sum(Booked(s, Miner, lo, hi)) + Sum(Booked(s, Budget, lo, hi))
            + Sum(Booked(s, Masternode, lo, hi)) + Sum(Booked(s, Founders, lo, hi)) == SubsidySum(s, lo, hi)
    decreases hi - lo
  {
    if lo < hi {
      ColumnsHoldSubsidies(s, lo, hi - 1);
      BookedSumStep(s, Miner, lo, hi);
      BookedSumStep(s, Budget, lo, hi);
      BookedSumStep(s, Masternode, lo, hi);
      BookedSumStep(s, Founders, lo, hi);
      BookedAtHoldsSubsidy(s, hi - 1);
    }
  }

  lemma BookedSumStep(s: Schedule, c: Column, lo: int, hi: int)
    requires lo < hi
    ensures Sum(Booked(s, c, lo, hi)) == Sum(Booked(s, c, lo, hi - 1)) + Sum(BookedAt(s, c, hi - 1))
  {
    SumConcat(Booked(s, c, lo, hi - 1), BookedAt(s, c, hi - 1));
  }

  lemma BookedAtSums(s: Schedule, h: int)
    ensures Sum(BookedAt(s, Miner, h)) == if h == 1 then 0 else s.miner(h)
    ensures Sum(BookedAt(s, Budget, h)) == if s.superblock(h) && h >= s.paymentsStart then s.budget(h) else 0
    ensures Sum(BookedAt(s, Masternode, h)) == s.masternode(h)
    ensures Sum(BookedAt(s, Founders, h))
         == (if h == 1 then s.miner(h) else 0) + (if s.superblock(h) then s.founders(h) else 0)
  {
    SumExtend([], s.miner(h));
    SumExtend([], s.masternode(h));
    SumExtend([], s.budget(h));
    SumExtend([], s.founders(h));
    SumExtend([s.miner(h)], s.founders(h));
    assert [] + [s.miner(h)] == [s.miner(h)] && [] + [s.masternode(h)] == [s.masternode(h)];
    assert [] + [s.budget(h)] == [s.budget(h)] && [] + [s.founders(h)] == [s.founders(h)];
  }

  lemma FloorsOfParts(a: nat, b: nat, c: nat, d: nat)
    ensures a / COIN + b / COIN + c / COIN + d / COIN <= (a + b + c + d) / COIN
         <= a / COIN + b / COIN + c / COIN + d / COIN + 3
  {
  }

  lemma BookedAtHoldsSubsidy(s: Schedule, h: int)
    ensures Sum(BookedAt(s, Miner, h)) + Sum(BookedAt(s, Budget, h))
            + Sum(BookedAt(s, Masternode, h)) + Sum(BookedAt(s, Founders, h)) == Subsidy(s, h)
  {
    BookedAtSums(s, h);
  }

  // ---------- one window ----------

  /** The four purses of a window. */
  datatype Purses = Purses(miner: Purse, budget: Purse, masternode: Purse, founders: Purse)

  ghost function PursesOf(s: Schedule, lo: int, hi: int): Purses {
    Purses(PurseOf(Booked(s, Miner, lo, hi)), PurseOf(Booked(s, Budget, lo, hi)),
           PurseOf(Booked(s, Masternode, lo, hi)), PurseOf(Booked(s, Founders, lo, hi)))
  }

  /** Adds one amount to the purse of `values`. */
  method AddToPurse(value: nat, p: Purse, ghost values: seq<nat>) returns (q: Purse)
    requires p == PurseOf(values)
    ensures q == PurseOf(values + [value])
  {
    var coin, small := AddReward(value, p.coin, p.small);
    q := Purse(coin, small);
    PurseHolds(values);
    AddRewardExtends(values, value, q);
  }

  /** What one height adds to the miner's and the founders' purses. */
  method BookMinerAndFounders(s: Schedule, h: int, miner0: Purse, founders0: Purse,
                              ghost vm: seq<nat>, ghost vf: seq<nat>)
    returns (miner: Purse, founders: Purse)
    requires miner0 == PurseOf(vm) && founders0 == PurseOf(vf)
    ensures miner == PurseOf(vm + BookedAt(s, Miner, h))
    ensures founders == PurseOf(vf + BookedAt(s, Founders, h))
  {
    miner, founders := miner0, founders0;
    ghost var f := vf;
    if h == 1 {
      founders := AddToPurse(s.miner(h), founders, f);
      f := f + [s.miner(h)];
      assert vm + [] == vm;
    } else {
      miner := AddToPurse(s.miner(h), miner, vm);
    }
    if s.superblock(h) {
      founders := AddToPurse(s.founders(h), founders, f);
      f := f + [s.founders(h)];
    }
    assert f == vf + BookedAt(s, Founders, h);
  }

  /** One pass of the inner loop: everything that height `h` adds. */
  method BookHeight(s: Schedule, h: int, p: Purses, ghost lo: int) returns (q: Purses)
    requires lo <= h && p == PursesOf(s, lo, h)
    ensures q == PursesOf(s, lo, h + 1)
  {
    var budget := p.budget;
    var miner, founders := BookMinerAndFounders(s, h, p.miner, p.founders,
                                                Booked(s, Miner, lo, h), Booked(s, Founders, lo, h));
    var masternode := AddToPurse(s.masternode(h), p.masternode, Booked(s, Masternode, lo, h));
    if s.superblock(h) && h >= s.paymentsStart {
      budget := AddToPurse(s.budget(h), budget, Booked(s, Budget, lo, h));
    } else {
      assert Booked(s, Budget, lo, h) + [] == Booked(s, Budget, lo, h);
    }
    q := Purses(miner, budget, masternode, founders);
  }

  const EMPTY: Purses := Purses(Purse(0, 0), Purse(0, 0), Purse(0, 0), Purse(0, 0))

  /** The inner loop of the statistics: the purses are filled height by height. */
  method CollectWindow(s: Schedule, lo: int, hi: int) returns (p: Purses)
    ensures p == PursesOf(s, lo, hi)
  {
    p := EMPTY;
    EmptyPurses(s, lo, lo);
    var h := lo;
    while h < hi
      invariant lo <= h && (h <= hi || h == lo)
      invariant p == PursesOf(s, lo, h)
    {
      p := BookHeight(s, h, p, lo);
      h := h + 1;
    }
    if hi < lo {
      EmptyPurses(s, lo, hi);
    }
  }

  lemma EmptyPurses(s: Schedule, lo: int, hi: int)
    requires hi <= lo
    ensures PursesOf(s, lo, hi) == EMPTY
  {
    PurseIsUnique([], Purse(0, 0));
  }

  function PurseIn(p: Purses, c: Column): Purse {
    match c
    case Miner => p.miner
    case Budget => p.budget
    case Masternode => p.masternode
    case Founders => p.founders
  }

  function Coins(p: Purses): int {
    p.miner.coin + p.budget.coin + p.masternode.coin + p.founders.coin
  }

  function Smalls(p: Purses): int {
    p.miner.small + p.budget.small + p.masternode.small + p.founders.small
  }

  /** The four purses together are worth the window's subsidies; each is short at most one coin. */
  lemma WindowWorth(s: Schedule, lo: int, hi: int)
    ensures Coins(PursesOf(s, lo, hi)) * COIN + Smalls(PursesOf(s, lo, hi)) == SubsidySum(s, lo, hi)
    ensures 0 <= Smalls(PursesOf(s, lo, hi)) <= 4 * COIN
    ensures Coins(PursesOf(s, lo, hi)) >= 0
  {
    ColumnsHoldSubsidies(s, lo, hi);
    PurseHolds(Booked(s, Miner, lo, hi));
    PurseHolds(Booked(s, Budget, lo, hi));
    PurseHolds(Booked(s, Masternode, lo, hi));
    PurseHolds(Booked(s, Founders, lo, hi));
  }

  /** The printed line of a window: column totals as carried, block total exact. */
  ghost function RowOf(s: Schedule, lo: int, hi: int): Row {
    var p := PursesOf(s, lo, hi);
    Row(lo, hi - 1, p.miner.coin, p.budget.coin, p.masternode.coin, p.founders.coin, SubsidySum(s, lo, hi) / COIN)
  }

  function ColumnOf(row: Row, c: Column): int {
    match c
    case Miner => row.miner
    case Budget => row.budget
    case Masternode => row.masternode
    case Founders => row.founders
  }

  /**
   What the line of a window shows: its heights, the exact floor of its subsidies, and per
   column everything booked to it but for what the amounts leave over.
   */
  ghost predicate IsLine(s: Schedule, lo: int, hi: int, row: Row) {
    && row.first == lo && row.last == hi - 1
    && row.blocks == SubsidySum(s, lo, hi) / COIN
    && forall c :: ShowsColumn(s, c, lo, hi, ColumnOf(row, c))
  }

  ghost predicate ShowsColumn(s: Schedule, c: Column, lo: int, hi: int, shown: int) {
    shown * COIN + Leftover(Booked(s, c, lo, hi)) == Sum(Booked(s, c, lo, hi))
  }

  lemma PursesShow(s: Schedule, c: Column, lo: int, hi: int)
    ensures ShowsColumn(s, c, lo, hi, PurseIn(PursesOf(s, lo, hi), c).coin)
  {
    LeftoverIsRemainder(Booked(s, c, lo, hi));
  }

  lemma RowOfIsLine(s: Schedule, lo: int, hi: int)
    ensures IsLine(s, lo, hi, RowOf(s, lo, hi))
  {
    var row := RowOf(s, lo, hi);
    forall c
      ensures ShowsColumn(s, c, lo, hi, ColumnOf(row, c))
    {
      PursesShow(s, c, lo, hi);
    }
  }

  /** A row total: the column totals plus the coins the four remainders make, an exact floor. */
  method ReportWindow(s: Schedule, lo: int, hi: int) returns (p: Purses, row: Row)
    ensures p == PursesOf(s, lo, hi) && row == RowOf(s, lo, hi)
    ensures row.first == lo && row.last == hi - 1 && row.blocks == SubsidySum(s, lo, hi) / COIN
    ensures row.miner * COIN + Leftover(Booked(s, Miner, lo, hi)) == Sum(Booked(s, Miner, lo, hi))
    ensures row.budget * COIN + Leftover(Booked(s, Budget, lo, hi)) == Sum(Booked(s, Budget, lo, hi))
    ensures row.masternode * COIN + Leftover(Booked(s, Masternode, lo, hi)) == Sum(Booked(s, Masternode, lo, hi))
    ensures row.founders * COIN + Leftover(Booked(s, Founders, lo, hi)) == Sum(Booked(s, Founders, lo, hi))
  {
    p := CollectWindow(s, lo, hi);
    WindowWorth(s, lo, hi);
    var blocks, rest := AddReward(Smalls(p), Coins(p), 0);
    RecombinedIsFloor(Coins(p), Smalls(p), Purse(blocks, rest));
    row := Row(lo, hi - 1, p.miner.coin, p.budget.coin, p.masternode.coin, p.founders.coin, blocks);
    LeftoverIsRemainder(Booked(s, Miner, lo, hi));
    LeftoverIsRemainder(Booked(s, Budget, lo, hi));
    LeftoverIsRemainder(Booked(s, Masternode, lo, hi));
    LeftoverIsRemainder(Booked(s, Founders, lo, hi));
  }

  // ---------- all windows ----------

  function Plus(p: Purses, q: Purses): Purses {
    Purses(PlusPurse(p.miner, q.miner), PlusPurse(p.budget, q.budget),
           PlusPurse(p.masternode, q.masternode), PlusPurse(p.founders, q.founders))
  }

  function PlusPurse(p: Purse, q: Purse): Purse {
    Purse(p.coin + q.coin, p.small + q.small)
  }

  /**
   The columns' printed totals and left-over remainders, summed over the first `n` windows,
   where window `i` reaches from height `edge(i)` up to but not including `edge(i + 1)`.
   */
  ghost function SumPurses(s: Schedule, edge: int -> int, n: nat): Purses {
    if n == 0 then EMPTY else Plus(SumPurses(s, edge, n - 1), PursesOf(s, edge(n - 1), edge(n)))
  }

  /** The grand total the report prints: the column totals plus the coins their remainders make. */
  ghost function GrandTotal(s: Schedule, edge: int -> int, n: nat): int {
    Coins(SumPurses(s, edge, n)) + Quotient(Smalls(SumPurses(s, edge, n)), COIN)
  }

  /** The subsidies of all windows, window by window. */
  function WindowedSum(s: Schedule, edge: int -> int, n: nat): nat {
    if n == 0 then 0 else WindowedSum(s, edge, n - 1) + SubsidySum(s, edge(n - 1), edge(n))
  }

  /** The row totals printed for the first `n` windows, added up. */
  function RowTotals(s: Schedule, edge: int -> int, n: nat): nat {
    if n == 0 then 0 else RowTotals(s, edge, n - 1) + SubsidySum(s, edge(n - 1), edge(n)) / COIN
  }

  lemma {:induction false} SumPursesWorth(s: Schedule, edge: int -> int, n: nat)
    ensures var p := SumPurses(s, edge, n);
            && Coins(p) * COIN + Smalls(p) == WindowedSum(s, edge, n)
            && Coins(p) >= 0 && 0 <= Smalls(p) <= 4 * n * COIN
  {
    if n > 0 {
      SumPursesWorth(s, edge, n - 1);
      WindowWorth(s, edge(n - 1), edge(n));
    }
  }

  /** Whatever the windows, the printed grand total is the exact floor of everything they cover. */
  lemma GrandTotalIsExact(s: Schedule, edge: int -> int, n: nat)
    ensures GrandTotal(s, edge, n) == WindowedSum(s, edge, n) / COIN
  {
    SumPursesWorth(s, edge, n);
  }

  /**
   Carry bounds. The column totals fall short of the grand total by at most four coins a
   window, and the row totals by less than one coin a window.
   */
  lemma CarryBounds(s: Schedule, edge: int -> int, n: nat)
    ensures Coins(SumPurses(s, edge, n)) <= GrandTotal(s, edge, n) <= Coins(SumPurses(s, edge, n)) + 4 * n
    ensures n > 0 ==> RowTotals(s, edge, n) <= GrandTotal(s, edge, n) <= RowTotals(s, edge, n) + n - 1
  {
    SumPursesWorth(s, edge, n);
    GrandTotalIsExact(s, edge, n);
    if n > 0 {
      RowTotalsBound(s, edge, n);
    }
  }

  lemma {:induction false} RowTotalsBound(s: Schedule, edge: int -> int, n: nat)
    requires n > 0
    ensures RowTotals(s, edge, n) * COIN <= WindowedSum(s, edge, n) <= RowTotals(s, edge, n) * COIN + n * (COIN - 1)
    ensures RowTotals(s, edge, n) <= WindowedSum(s, edge, n) / COIN <= RowTotals(s, edge, n) + n - 1
  {
    if n > 1 {
      RowTotalsBound(s, edge, n - 1);
    }
  }

  ghost predicate Ascending(edge: int -> int, n: nat) {
    forall i, j :: 0 <= i <= j <= n ==> edge(i) <= edge(j)
  }

  ghost predicate Descending(edge: int -> int, n: nat) {
    forall i, j :: 0 <= i <= j <= n ==> edge(i) >= edge(j)
  }

  /** Adjoining windows cover their whole range: no height is left out and none counted twice. */
  lemma {:induction false} WindowsTile(s: Schedule, edge: int -> int, n: nat)
    requires Ascending(edge, n)
    ensures WindowedSum(s, edge, n) == SubsidySum(s, edge(0), edge(n))
  {
    if n > 0 {
      WindowsTile(s, edge, n - 1);
      SubsidySumSplit(s, edge(0), edge(n - 1), edge(n));
    }
  }

  lemma {:induction false} SubsidySumSplit(s: Schedule, lo: int, mid: int, hi: int)
    requires lo <= mid <= hi
    ensures SubsidySum(s, lo, hi) == SubsidySum(s, lo, mid) + SubsidySum(s, mid, hi)
    decreases hi - mid
  {
    if mid < hi {
      SubsidySumSplit(s, lo, mid, hi - 1);
    }
  }

  lemma {:induction false} EmptyWindows(s: Schedule, edge: int -> int, n: nat)
    requires Descending(edge, n)
    ensures WindowedSum(s, edge, n) == 0
  {
    if n > 0 {
      EmptyWindows(s, edge, n - 1);
    }
  }

  // ---------- the report ----------

  /** Window `i`, counting from 0, of the report by `iyears` years. */
  function YearEdges(iyears: int): int -> int {
    i => i * BLOCKS_PER_YEAR * iyears
  }

  ghost predicate EdgeIs(edge: int -> int, iyears: int, i: int) {
    edge(i) == i * BLOCKS_PER_YEAR * iyears
  }

  ghost predicate AreYearEdges(edge: int -> int, iyears: int) {
    forall i :: EdgeIs(edge, iyears, i)
  }

  /** The row is the line of window `k`, counting from 0. */
  ghost predicate IsRow(s: Schedule, edge: int -> int, k: nat, row: Row) {
    row == RowOf(s, edge(k), edge(k + 1))
  }

  ghost predicate AreRows(s: Schedule, edge: int -> int, rows: seq<Row>) {
    forall k :: 0 <= k < |rows| ==> IsRow(s, edge, k, rows[k])
  }

  lemma AreRowsExtend(s: Schedule, edge: int -> int, rows: seq<Row>, row: Row)
    requires AreRows(s, edge, rows) && IsRow(s, edge, |rows|, row)
    ensures AreRows(s, edge, rows + [row])
  {
    forall k | 0 <= k < |rows| + 1
      ensures IsRow(s, edge, k, (rows + [row])[k])
    {
      if k < |rows| {
        assert IsRow(s, edge, k, rows[k]);
      }
    }
  }

  // ---------- the printed rows, added up ----------

  function SumOfColumn(rows: seq<Row>, c: Column): int {
    if rows == [] then 0 else SumOfColumn(rows[..|rows| - 1], c) + ColumnOf(rows[|rows| - 1], c)
  }

  function SumOfBlocks(rows: seq<Row>): int {
    if rows == [] then 0 else SumOfBlocks(rows[..|rows| - 1]) + rows[|rows| - 1].blocks
  }

  lemma RowsButLast(s: Schedule, edge: int -> int, rows: seq<Row>)
    requires AreRows(s, edge, rows) && rows != []
    ensures AreRows(s, edge, rows[..|rows| - 1]) && IsRow(s, edge, |rows| - 1, rows[|rows| - 1])
  {
    var init := rows[..|rows| - 1];
    forall k | 0 <= k < |init|
      ensures IsRow(s, edge, k, init[k])
    {
      assert IsRow(s, edge, k, rows[k]);
    }
  }

  lemma {:induction false} BlocksAddUp(s: Schedule, edge: int -> int, rows: seq<Row>)
    requires AreRows(s, edge, rows)
    ensures SumOfBlocks(rows) == RowTotals(s, edge, |rows|)
  {
    if rows != [] {
      RowsButLast(s, edge, rows);
      BlocksAddUp(s, edge, rows[..|rows| - 1]);
    }
  }

  lemma PurseInAdds(p: Purses, q: Purses, c: Column)
    ensures PurseIn(Plus(p, q), c).coin == PurseIn(p, c).coin + PurseIn(q, c).coin
  {
  }

  lemma RowShowsPurse(s: Schedule, lo: int, hi: int, c: Column)
    ensures ColumnOf(RowOf(s, lo, hi), c) == PurseIn(PursesOf(s, lo, hi), c).coin
  {
  }

  lemma {:induction false} ColumnAddsUp(s: Schedule, edge: int -> int, rows: seq<Row>, c: Column)
    requires AreRows(s, edge, rows)
    ensures SumOfColumn(rows, c) == PurseIn(SumPurses(s, edge, |rows|), c).coin
  {
    if rows != [] {
      var n := |rows|;
      RowsButLast(s, edge, rows);
      ColumnAddsUp(s, edge, rows[..n - 1], c);
      PurseInAdds(SumPurses(s, edge, n - 1), PursesOf(s, edge(n - 1), edge(n)), c);
      RowShowsPurse(s, edge(n - 1), edge(n), c);
    }
  }

  /** One pass of the outer loop: the line of window `i`, counting from 1, and the running sums. */
  method ReportYears(s: Schedule, iyears: int, i: int, sum0: Purses, ghost edge: int -> int, ghost n: nat)
    returns (row: Row, sum: Purses, lasth: int)
    requires i == n + 1 && AreYearEdges(edge, iyears) && sum0 == SumPurses(s, edge, n)
    ensures IsRow(s, edge, n, row)
    ensures sum == SumPurses(s, edge, n + 1)
    ensures lasth == edge(n + 1) - 1
  {
    var iHl := (i - 1) * BLOCKS_PER_YEAR * iyears;
    var iHh := i * BLOCKS_PER_YEAR * iyears;
    assert EdgeIs(edge, iyears, n) && EdgeIs(edge, iyears, n + 1);
    var p;
    p, row := ReportWindow(s, iHl, iHh);
    sum := Plus(sum0, p);
    lasth := iHh - 1;
  }

  /** The totals line for the first `n` windows. */
  method ReportTotal(s: Schedule, ghost edge: int -> int, ghost n: nat, sum: Purses, lasth: int) returns (total: Row)
    requires sum == SumPurses(s, edge, n)
    ensures total == Row(0, lasth, sum.miner.coin, sum.budget.coin, sum.masternode.coin, sum.founders.coin,
                         GrandTotal(s, edge, n))
  {
    var blocks, rest := AddReward(Smalls(sum), Coins(sum), 0);
    SumPursesWorth(s, edge, n);
    RecombinedIsFloor(Coins(sum), Smalls(sum), Purse(blocks, rest));
    total := Row(0, lasth, sum.miner.coin, sum.budget.coin, sum.masternode.coin, sum.founders.coin, blocks);
  }

  /** What the outer loop has reported so far. */
  ghost predicate Reported(s: Schedule, edge: int -> int, rows: seq<Row>, sum: Purses, lasth: int) {
    && AreRows(s, edge, rows)
    && sum == SumPurses(s, edge, |rows|)
    && lasth == if rows == [] then 0 else edge(|rows|) - 1
  }

  lemma ReportedExtend(s: Schedule, edge: int -> int, rows: seq<Row>, row: Row, sum: Purses, lasth: int)
    requires AreRows(s, edge, rows) && IsRow(s, edge, |rows|, row)
    requires sum == SumPurses(s, edge, |rows| + 1) && lasth == edge(|rows| + 1) - 1
    ensures Reported(s, edge, rows + [row], sum, lasth)
  {
    AreRowsExtend(s, edge, rows, row);
  }

  /** The lines of all windows, the sums over them, and the last height. */
  method ReportWindows(s: Schedule, iyears: int, isum: int, ghost edge: int -> int)
    returns (rows: seq<Row>, sum: Purses, lasth: int)
    requires AreYearEdges(edge, iyears)
    ensures |rows| == if isum > 0 then isum else 0
    ensures Reported(s, edge, rows, sum, lasth)
  {
    var i := 1;
    rows, sum, lasth := [], EMPTY, 0;
    while i < isum + 1
      invariant |rows| == i - 1 && (i <= isum + 1 || i == 1)
      invariant Reported(s, edge, rows, sum, lasth)
    {
      var row;
      row, sum, lasth := ReportYears(s, iyears, i, sum, edge, |rows|);
      ReportedExtend(s, edge, rows, row, sum, lasth);
      rows := rows + [row];
      i := i + 1;
    }
  }

  /** Row `k` is the line of the `iyears` years of blocks from year `k * iyears` on. */
  ghost predicate AreLines(s: Schedule, iyears: int, rows: seq<Row>) {
    forall k :: 0 <= k < |rows| ==>
      IsLine(s, k * BLOCKS_PER_YEAR * iyears, (k + 1) * BLOCKS_PER_YEAR * iyears, rows[k])
  }

  lemma RowsAreLines(s: Schedule, iyears: int, rows: seq<Row>)
    requires AreRows(s, YearEdges(iyears), rows)
    ensures AreLines(s, iyears, rows)
  {
    forall k | 0 <= k < |rows|
      ensures IsLine(s, k * BLOCKS_PER_YEAR * iyears, (k + 1) * BLOCKS_PER_YEAR * iyears, rows[k])
    {
      assert IsRow(s, YearEdges(iyears), k, rows[k]);
      RowOfIsLine(s, k * BLOCKS_PER_YEAR * iyears, (k + 1) * BLOCKS_PER_YEAR * iyears);
    }
  }

  /** The totals line shows what the rows show, added up, and the exact floor of all subsidies covered. */
  ghost predicate TotalsUp(s: Schedule, iyears: int, rows: seq<Row>, total: Row) {
    && total.first == 0
    && total.last == (if rows == [] then 0 else |rows| * BLOCKS_PER_YEAR * iyears - 1)
    && (forall c :: ColumnOf(total, c) == SumOfColumn(rows, c))
    && total.blocks == SubsidySum(s, 0, Covered(iyears, |rows|)) / COIN
  }

  lemma StatisticsTotalUp(s: Schedule, iyears: int, rows: seq<Row>, total: Row)
    requires AreRows(s, YearEdges(iyears), rows)
    requires var p := SumPurses(s, YearEdges(iyears), |rows|);
             total == Row(0, if rows == [] then 0 else YearEdges(iyears)(|rows|) - 1,
                          p.miner.coin, p.budget.coin, p.masternode.coin, p.founders.coin,
                          GrandTotal(s, YearEdges(iyears), |rows|))
    ensures TotalsUp(s, iyears, rows, total)
  {
    forall c
      ensures ColumnOf(total, c) == SumOfColumn(rows, c)
    {
      ColumnAddsUp(s, YearEdges(iyears), rows, c);
    }
    ReportIsExact(s, iyears, |rows|);
  }

  method RewardStatistics(s: Schedule, iyears: int, isum: int) returns (rows: seq<Row>, total: Row)
    ensures |rows| == if isum > 0 then isum else 0
    ensures AreRows(s, YearEdges(iyears), rows)
    ensures var p := SumPurses(s, YearEdges(iyears), |rows|);
            total == Row(0, if rows == [] then 0 else YearEdges(iyears)(|rows|) - 1,
                         p.miner.coin, p.budget.coin, p.masternode.coin, p.founders.coin,
                         GrandTotal(s, YearEdges(iyears), |rows|))
    ensures AreLines(s, iyears, rows) && TotalsUp(s, iyears, rows, total)
    ensures SumOfBlocks(rows) == RowTotals(s, YearEdges(iyears), |rows|)
  {
    var sum, lasth;
    assert AreYearEdges(YearEdges(iyears), iyears);
    rows, sum, lasth := ReportWindows(s, iyears, isum, YearEdges(iyears));
    total := ReportTotal(s, YearEdges(iyears), |rows|, sum, lasth);
    RowsAreLines(s, iyears, rows);
    BlocksAddUp(s, YearEdges(iyears), rows);
    StatisticsTotalUp(s, iyears, rows, total);
  }

  /** How many heights, from 0 up, a report covers. */
  function Covered(iyears: int, isum: int): nat {
    if iyears > 0 && isum > 0 then isum * iyears * BLOCKS_PER_YEAR else 0
  }

  lemma EdgeAt(iyears: int, i: int)
    ensures YearEdges(iyears)(i) == i * (BLOCKS_PER_YEAR * iyears)
  {
  }

  lemma YearEdgesOrdered(iyears: int, n: nat)
    ensures iyears >= 0 ==> Ascending(YearEdges(iyears), n)
    ensures iyears <= 0 ==> Descending(YearEdges(iyears), n)
  {
    var edge, span := YearEdges(iyears), BLOCKS_PER_YEAR * iyears;
    forall i, j | 0 <= i <= j <= n
      ensures iyears >= 0 ==> edge(i) <= edge(j)
      ensures iyears <= 0 ==> edge(i) >= edge(j)
    {
      EdgeAt(iyears, i);
      EdgeAt(iyears, j);
      assert j * span - i * span == (j - i) * span;
    }
  }

  lemma LastEdge(iyears: int, isum: nat)
    requires iyears > 0
    ensures YearEdges(iyears)(0) == 0 && YearEdges(iyears)(isum) == Covered(iyears, isum)
  {
    EdgeAt(iyears, isum);
  }

  lemma ReportCovers(s: Schedule, iyears: int, isum: nat)
    ensures WindowedSum(s, YearEdges(iyears), isum) == SubsidySum(s, 0, Covered(iyears, isum))
  {
    YearEdgesOrdered(iyears, isum);
    if iyears > 0 {
      WindowsTile(s, YearEdges(iyears), isum);
      LastEdge(iyears, isum);
    } else {
      EmptyWindows(s, YearEdges(iyears), isum);
    }
  }

  /** For all arguments, the grand total is the exact floor of the subsidies of the heights covered. */
  lemma ReportIsExact(s: Schedule, iyears: int, isum: nat)
    ensures GrandTotal(s, YearEdges(iyears), isum) == SubsidySum(s, 0, Covered(iyears, isum)) / COIN
  {
    GrandTotalIsExact(s, YearEdges(iyears), isum);
    ReportCovers(s, iyears, isum);
  }

  /** Two reports over equally many years in all print the same grand total, however they cut them. */
  lemma GrandTotalIgnoresWindows(s: Schedule, iyears1: int, isum1: nat, iyears2: int, isum2: nat)
    requires iyears1 > 0 && iyears2 > 0 && isum1 > 0 && isum2 > 0 && isum1 * iyears1 == isum2 * iyears2
    ensures GrandTotal(s, YearEdges(iyears1), isum1) == GrandTotal(s, YearEdges(iyears2), isum2)
  {
    ReportIsExact(s, iyears1, isum1);
    ReportIsExact(s, iyears2, isum2);
  }

  /** For positive arguments, all window edges fit a 32-bit int exactly up to 10214 years in all. */
  lemma HeightsFitInt32Iff(iyears: int, isum: int)
    requires iyears > 0 && isum > 0
    ensures (forall i :: 0 <= i <= isum ==> i * BLOCKS_PER_YEAR < 0x8000_0000 && YearEdges(iyears)(i) < 0x8000_0000)
       <==> isum * iyears <= 10214
  {
    var edge := YearEdges(iyears);
    assert edge(isum) == isum * iyears * BLOCKS_PER_YEAR;
    if isum * iyears <= 10214 {
      forall i | 0 <= i <= isum
        ensures i * BLOCKS_PER_YEAR < 0x8000_0000 && edge(i) < 0x8000_0000
      {
        assert i * iyears <= isum * iyears;
        assert i <= i * iyears;
        assert edge(i) == i * iyears * BLOCKS_PER_YEAR;
      }
    }
  }

  // ---------- what does depend on the windows ----------

  /** Three quarters of a coin to the miner at the first height of each of the first two years. */
  function SparseSchedule(): Schedule {
    Schedule(h => if h == 0 || h == BLOCKS_PER_YEAR then 75_000_000 else 0, h => 0, h => 0, h => 0, h => false, 0)
  }

  ghost predicate SparseAt(s: Schedule, h: int) {
    s.miner(h) == if h == 0 || h == BLOCKS_PER_YEAR then 75_000_000 else 0
  }

  ghost predicate IsSparse(s: Schedule) {
    forall h :: SparseAt(s, h)
  }

  lemma {:induction false} SparseSum(s: Schedule, lo: int, hi: int)
    requires IsSparse(s)
    ensures Sum(Booked(s, Miner, lo, hi))
         == (if lo <= 0 < hi then 75_000_000 else 0) + (if lo <= BLOCKS_PER_YEAR < hi then 75_000_000 else 0)
    decreases hi - lo
  {
    if lo < hi {
      assert SparseAt(s, hi - 1);
      SparseSum(s, lo, hi - 1);
      BookedSumStep(s, Miner, lo, hi);
      if hi - 1 != 1 {
        SumExtend([], s.miner(hi - 1));
        assert [] + [s.miner(hi - 1)] == [s.miner(hi - 1)];
      }
    }
  }

  lemma SparsePurse(s: Schedule, lo: int, hi: int)
    requires IsSparse(s)
    ensures var c := PursesOf(s, lo, hi).miner.coin;
            if lo <= 0 && BLOCKS_PER_YEAR < hi then c == 1
            else c == 0
  {
    SparseSum(s, lo, hi);
    PurseHolds(Booked(s, Miner, lo, hi));
  }

  /** What the report prints for the miner over the first `n` windows. */
  ghost predicate MinerTotalIs(s: Schedule, edge: int -> int, n: nat, total: int) {
    SumPurses(s, edge, n).miner.coin == total
  }

  /**
   A column's own total is not independent of the windows: on a sparse schedule, two windows
   of one year lose a coin to the remainders that one window of two years finds.
   */
  lemma ColumnTotalDependsOnWindows(s: Schedule, one: nat, two: nat)
    requires IsSparse(s) && one == 1 && two == 2
    ensures MinerTotalIs(s, YearEdges(one), two, 0)
    ensures MinerTotalIs(s, YearEdges(two), one, 1)
  {
    FirstEdges(YearEdges(one), YearEdges(two));
    SparseTotals(s, YearEdges(one), YearEdges(two), one, two);
  }

  lemma SparseScheduleIsSparse()
    ensures IsSparse(SparseSchedule())
  {
  }

  lemma FirstEdges(edge1: int -> int, edge2: int -> int)
    requires edge1 == YearEdges(1) && edge2 == YearEdges(2)
    ensures edge1(0) == edge2(0) == 0
    ensures edge1(1) == BLOCKS_PER_YEAR && edge1(2) == edge2(1) == 2 * BLOCKS_PER_YEAR
  {
    LastEdge(1, 1);
    LastEdge(1, 2);
    LastEdge(2, 1);
  }

  lemma SparseTotals(s: Schedule, edge1: int -> int, edge2: int -> int, one: nat, two: nat)
    requires IsSparse(s) && one == 1 && two == one + 1 && edge1(0) == edge2(0) == 0
    requires edge1(1) == BLOCKS_PER_YEAR && edge1(2) == edge2(1) == 2 * BLOCKS_PER_YEAR
    ensures MinerTotalIs(s, edge1, two, 0) && MinerTotalIs(s, edge2, one, 1)
  {
    SecondWindow(s, edge1, one);
    FirstWindow(s, edge2, one - 1, 2 * BLOCKS_PER_YEAR);
  }

  lemma FirstWindow(s: Schedule, edge: int -> int, zero: nat, hi: int)
    requires IsSparse(s) && zero == 0 && edge(0) == 0 && edge(1) == hi
    ensures MinerTotalIs(s, edge, zero + 1, if BLOCKS_PER_YEAR < hi then 1 else 0)
  {
    NothingSummed(s, edge, zero);
    SparseWindow(s, edge, zero, 0, hi, 0);
  }

  lemma SecondWindow(s: Schedule, edge: int -> int, one: nat)
    requires IsSparse(s) && one == 1
    requires edge(0) == 0 && edge(1) == BLOCKS_PER_YEAR && edge(2) == 2 * BLOCKS_PER_YEAR
    ensures MinerTotalIs(s, edge, one + 1, 0)
  {
    var lo, hi := edge(1), edge(2);
    assert MinerTotalIs(s, edge, one, 0) by {
      FirstWindow(s, edge, one - 1, lo);
    }
    SparseWindow(s, edge, one, lo, hi, 0);
  }

  /** One more window finds a coin only if it holds both amounts. */
  lemma SparseWindow(s: Schedule, edge: int -> int, n: nat, lo: int, hi: int, before: int)
    requires IsSparse(s) && edge(n) == lo && edge(n + 1) == hi && MinerTotalIs(s, edge, n, before)
    ensures MinerTotalIs(s, edge, n + 1, before + if lo <= 0 && BLOCKS_PER_YEAR < hi then 1 else 0)
  {
    MinerAdds(s, edge, n + 1);
    SparsePurse(s, lo, hi);
  }

  lemma NothingSummed(s: Schedule, edge: int -> int, n: nat)
    requires n == 0
    ensures MinerTotalIs(s, edge, n, 0)
  {
  }

  lemma MinerAdds(s: Schedule, edge: int -> int, n: nat)
    requires n > 0
    ensures SumPurses(s, edge, n).miner.coin
         == SumPurses(s, edge, n - 1).miner.coin + PursesOf(s, edge(n - 1), edge(n)).miner.coin
  {
    PurseInAdds(SumPurses(s, edge, n - 1), PursesOf(s, edge(n - 1), edge(n)), Miner);
  }
}
