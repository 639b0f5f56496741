/**
 The loop of `GetMemPoolInfo` in common/mempool.cpp that fills a memory pool up to its limit.
 The pool and the transactions are chain code that is not part of this model: adding an
 entry raises the pool's size by exactly the entry's, and each turn of the loop either fails
 to decode its transaction or gets an entry of some size.
 */
module MempoolFill {
  import opened Sums

  datatype Attempt = DecodeFailed | Entry(size: nat)

  datatype Outcome = WasFull | BecameFull | StillFilling

  /** The entries among the attempts, in order. */
  function Entries(attempts: seq<Attempt>): seq<nat> {
    if attempts == [] then []
    else
      var last := attempts[|attempts| - 1];
      Entries(attempts[..|attempts| - 1]) + (if last.Entry? then [last.size] else [])
  }

  /** How many of the entries go in before one would reach the limit. */
  function Admitted(total: int, limit: int, sizes: seq<nat>): (n: nat)
    ensures n <= |sizes|
  {
    if sizes == [] then 0
    else
      var n := Admitted(total, limit, sizes[..|sizes| - 1]);
      if n == |sizes| - 1 && total + Sum(sizes) < limit then |sizes| else n
  }

  /** The interim reports made for the admitted entries, and the bytes counted since the last one. */
  function Tally(step: int, sizes: seq<nat>): (nat, nat) {
    if sizes == [] then (0, 0)
    else
      var (reports, since) := Tally(step, sizes[..|sizes| - 1]);
      var size := since + sizes[|sizes| - 1];
      if size > step then (reports + 1, 0) else (reports, size)
  }

  class TxMemPool {
    /** The sizes of the entries added, in order. */
    var sizes: seq<nat>

    constructor ()
      ensures sizes == []
    {
      sizes := [];
    }

    function GetTotalTxSize(): nat
      reads this
    {
      Sum(sizes)
    }

    method AddUnchecked(size: nat)
      modifies this
      ensures sizes == old(sizes) + [size]
      ensures GetTotalTxSize() == old(GetTotalTxSize()) + size
    {
      SumExtend(sizes, size);
      sizes := sizes + [size];
    }

    predicate IsFull(maxmempool: int)
      reads this
    {
      GetTotalTxSize() >= maxmempool * 1_000_000
    }

    /**
     The turns of the loop that `attempts` gives it. From a pool that is not yet full, exactly
     the entries that stay below the limit are added, in order.
     */
    method Fill(maxmempool: int, attempts: seq<Attempt>) returns (outcome: Outcome, reports: nat)
      modifies this
      ensures outcome.WasFull? <==> old(IsFull(maxmempool))
      ensures old(IsFull(maxmempool)) ==> sizes == old(sizes) && reports == 0
      ensures var entries := Entries(attempts);
              var n := Admitted(old(GetTotalTxSize()), maxmempool * 1_000_000, entries);
              !old(IsFull(maxmempool)) ==>
                && sizes == old(sizes) + entries[..n]
                && (outcome.BecameFull? <==> n < |entries|)
                && reports == Tally(maxmempool * 100_000, entries[..n]).0
    {
      ghost var total, limit, step := GetTotalTxSize(), maxmempool * 1_000_000, maxmempool * 100_000;
      ghost var before, entries := sizes, [];
      var size, turn := 0, 0;
      reports := 0;
      while !IsFull(maxmempool) && turn < |attempts|
        invariant turn <= |attempts|
        invariant entries == Entries(attempts[..turn])
        invariant total >= limit ==> turn == 0
        invariant sizes == before + entries
        invariant GetTotalTxSize() == total + Sum(entries)
        invariant total < limit ==> total + Sum(entries) < limit
        invariant (reports, size) == Tally(step, entries)
      {
        EntriesExtend(attempts, turn);
        if attempts[turn].Entry? {
          var entry := attempts[turn].size;
          size := size + entry;
          if entry + GetTotalTxSize() >= maxmempool * 1_000_000 {
            FillStopsAt(total, limit, attempts, turn);
            return BecameFull, reports;
          }
          if size > maxmempool * 100_000 {
            size := 0;
            reports := reports + 1;
          }
          AddUnchecked(entry);
          SumExtend(entries, entry);
          TallyExtend(step, entries, entry);
          entries := entries + [entry];
        }
        turn := turn + 1;
      }
      if IsFull(maxmempool) {
        return WasFull, reports;
      }
      FillTakesAll(total, limit, attempts, turn);
      outcome := StillFilling;
    }
  }

  lemma EntriesExtend(attempts: seq<Attempt>, turn: nat)
    requires turn < |attempts|
    ensures Entries(attempts[..turn + 1])
            == Entries(attempts[..turn]) + if attempts[turn].Entry? then [attempts[turn].size] else []
  {
    assert attempts[..turn + 1][..turn] == attempts[..turn];
  }

  lemma TallyExtend(step: int, sizes: seq<nat>, size: nat)
    ensures var (reports, since) := Tally(step, sizes);
            Tally(step, sizes + [size]) == if since + size > step then (reports + 1, 0) else (reports, since + size)
  {
    assert (sizes + [size])[..|sizes|] == sizes;
  }

  lemma FillStopsAt(total: int, limit: int, attempts: seq<Attempt>, turn: nat)
    requires turn < |attempts| && attempts[turn].Entry? && total < limit
    requires total + Sum(Entries(attempts[..turn])) < limit
    requires total + Sum(Entries(attempts[..turn])) + attempts[turn].size >= limit
    ensures var n := Admitted(total, limit, Entries(attempts));
            n < |Entries(attempts)| && Entries(attempts)[..n] == Entries(attempts[..turn])
  {
    var entries, all := Entries(attempts[..turn]), Entries(attempts);
    EntriesExtend(attempts, turn);
    EntriesPrefix(attempts, turn + 1);
    SumExtend(entries, attempts[turn].size);
    assert all[..|entries| + 1] == entries + [attempts[turn].size];
    assert all[..|entries|] == entries;
    AdmittedIs(total, limit, all, |entries|);
  }

  lemma FillTakesAll(total: int, limit: int, attempts: seq<Attempt>, turn: nat)
    requires turn == |attempts| && total < limit && total + Sum(Entries(attempts[..turn])) < limit
    ensures var entries := Entries(attempts);
            && Entries(attempts[..turn]) == entries && entries[..|entries|] == entries
            && Admitted(total, limit, entries) == |entries|
  {
    assert attempts[..turn] == attempts;
    var entries := Entries(attempts);
    assert entries[..|entries|] == entries;
    AdmittedIs(total, limit, entries, |entries|);
  }

  lemma {:induction false} EntriesPrefix(attempts: seq<Attempt>, turn: nat)
    requires turn <= |attempts|
    ensures Entries(attempts[..turn]) <= Entries(attempts)
  {
    if turn < |attempts| {
      var init := attempts[..|attempts| - 1];
      EntriesPrefix(init, turn);
      assert init[..turn] == attempts[..turn];
    } else {
      assert attempts[..turn] == attempts;
    }
  }

  /** The admitted entries are the longest beginning that stays below the limit. */
  lemma {:induction false} AdmittedIs(total: int, limit: int, sizes: seq<nat>, n: nat)
    requires n <= |sizes| && total < limit && total + Sum(sizes[..n]) < limit
    requires n < |sizes| ==> total + Sum(sizes[..n + 1]) >= limit
    ensures Admitted(total, limit, sizes) == n
  {
    if n < |sizes| {
      var init := sizes[..|sizes| - 1];
      assert init[..n] == sizes[..n];
      if n < |init| {
        assert init[..n + 1] == sizes[..n + 1];
        AdmittedIs(total, limit, init, n);
      } else {
        assert sizes[..n + 1] == sizes && sizes[..n] == init;
        AdmittedIs(total, limit, init, n);
      }
    } else if n > 0 {
      var init := sizes[..n - 1];
      assert sizes[..n] == sizes && init[..n - 1] == init;
      AdmittedIs(total, limit, init, n - 1);
    }
  }

  /** The admitted entries stay below the limit, and one more would reach it. */
  lemma {:induction false} AdmittedFits(total: int, limit: int, sizes: seq<nat>)
    requires total < limit
    ensures var n := Admitted(total, limit, sizes);
            && total + Sum(sizes[..n]) < limit
            && (n < |sizes| ==> total + Sum(sizes[..n + 1]) >= limit)
  {
    if sizes != [] {
      var init := sizes[..|sizes| - 1];
      var m := Admitted(total, limit, init);
      AdmittedFits(total, limit, init);
      assert sizes[..|sizes|] == sizes;
      assert init[..m] == sizes[..m];
      if m < |init| {
        assert init[..m + 1] == sizes[..m + 1];
      }
    }
  }

  // ---------- what filling a pool comes to ----------

  lemma {:induction false} SumGrows(sizes: seq<nat>)
    requires forall i :: 0 <= i < |sizes| ==> sizes[i] > 0
    ensures Sum(sizes) >= |sizes|
  {
    if sizes != [] {
      SumGrows(sizes[..|sizes| - 1]);
    }
  }

  /**
   Once as many transactions of positive size have been decoded as there are free bytes,
   the loop has ended; it leaves the pool below the limit by no more than the entry it
   turned away.
   */
  lemma FillEnds(total: nat, limit: int, sizes: seq<nat>)
    requires total < limit && |sizes| >= limit - total
    requires forall i :: 0 <= i < |sizes| ==> sizes[i] > 0
    ensures var n := Admitted(total, limit, sizes);
            n < |sizes| && limit - sizes[n] <= total + Sum(sizes[..n]) < limit
  {
    AdmittedFits(total, limit, sizes);
    SumGrows(sizes);
    var n := Admitted(total, limit, sizes);
    assert sizes[..|sizes|] == sizes;
    if n < |sizes| {
      SumExtend(sizes[..n], sizes[n]);
      assert sizes[..n] + [sizes[n]] == sizes[..n + 1];
    }
  }

  lemma OneMoreTimes(n: nat, x: nat)
    ensures (n + 1) * x == n * x + x
  {
  }

  /** Every report stands for more than a step's worth of bytes, and no bytes are counted twice. */
  lemma {:induction false} TallyBounds(step: nat, sizes: seq<nat>)
    ensures var (reports, since) := Tally(step, sizes);
            reports * (step + 1) + since <= Sum(sizes) && since <= step
  {
    if sizes != [] {
      TallyBounds(step, sizes[..|sizes| - 1]);
      OneMoreTimes(Tally(step, sizes[..|sizes| - 1]).0, step + 1);
    }
  }

  /** Conversely, when entries are at most `largest` bytes, a report comes at least every step + largest bytes. */
  lemma {:induction false} TallyIsRegular(step: nat, largest: nat, sizes: seq<nat>)
    requires forall i :: 0 <= i < |sizes| ==> sizes[i] <= largest
    ensures var (reports, since) := Tally(step, sizes);
            Sum(sizes) <= reports * (step + largest) + since && since <= step
  {
    if sizes != [] {
      TallyIsRegular(step, largest, sizes[..|sizes| - 1]);
      OneMoreTimes(Tally(step, sizes[..|sizes| - 1]).0, step + largest);
    }
  }

  /** Filling a pool makes at most nine interim reports, whatever the entries. */
  lemma AtMostNineReports(total: nat, maxmempool: int, sizes: seq<nat>)
    requires total < maxmempool * 1_000_000
    ensures Tally(maxmempool * 100_000, sizes[..Admitted(total, maxmempool * 1_000_000, sizes)]).0 <= 9
  {
    var step := maxmempool * 100_000;
    var added := sizes[..Admitted(total, 10 * step, sizes)];
    AdmittedFits(total, 10 * step, sizes);
    TallyBounds(step, added);
    FewReports(Tally(step, added).0, step);
  }

  lemma TimesKeepsOrder(a: nat, b: nat, x: nat)
    requires a <= b
    ensures a * x <= b * x
  {
  }

  lemma FewReports(reports: nat, step: nat)
    requires reports * (step + 1) < 10 * step
    ensures reports <= 9
  {
    if reports >= 10 {
      TimesKeepsOrder(10, reports, step + 1);
    }
  }
}
