/**
 One search thread (`_get` in common/genesis.cpp) on its own: the candidates it hashes,
 its wrap-around iteration counter and its occasional refresh of the header time.
 */
module GenesisWorker {
  import opened BlockHeader

  /** The locals of the loop that change from one iteration to the next. */
  datatype Locals = Locals(pb: Header, cnt: nat)

  /** The end of an iteration: next nonce, and once `cnt` passes 1000 a time taken from the clock. */
  function Next(l: Locals, now: int, timeoffset: int): Locals {
    var pb := l.pb.(nNonce := Increment(l.pb.nNonce));
    if l.cnt > 1000 then Locals(pb.(nTime := ToUint32(now + timeoffset)), 1) else Locals(pb, l.cnt + 1)
  }

  /**
   The locals at the start of iteration `n`. The clock shows `clock(0)` when the thread
   computes its time offset and `clock(k + 1)` at the end of iteration `k`.
   */
  function LocalsAt(start: Header, clock: nat -> int, n: nat): Locals {
    if n == 0 then Locals(start, 0)
    else Next(LocalsAt(start, clock, n - 1), clock(n), start.nTime - clock(0))
  }

  function Candidates(start: Header, clock: nat -> int, n: nat): seq<Header> {
    if n == 0 then [] else Candidates(start, clock, n - 1) + [LocalsAt(start, clock, n - 1).pb]
  }

  // ---------- closed forms ----------

  /** The value of `cnt` at the start of iteration `n`. */
  function CounterAt(n: nat): nat {
    if n == 0 then 0 else (n - 1) % 1001 + 1
  }

  /** Which clock value the header time of candidate `n` comes from. */
  function LastSample(n: nat): nat {
    if n <= 1001 then 0 else (n - 1) / 1001 * 1001 + 1
  }

  /** The counter stays in 0..1001, and the code's test on it picks the positive multiples of 1001. */
  lemma CounterStep(n: nat)
    ensures CounterAt(n) <= 1001
    ensures CounterAt(n) > 1000 <==> n > 0 && n % 1001 == 0
    ensures CounterAt(n + 1) == (if CounterAt(n) > 1000 then 0 else CounterAt(n)) + 1
    ensures LastSample(n + 1) == if n > 0 && n % 1001 == 0 then n + 1 else LastSample(n)
  {
  }

  /** The clock value taken last before candidate `n` is the first one or follows the latest refresh. */
  lemma LastSampleIsLatest(n: nat, j: nat)
    ensures LastSample(n) <= n
    ensures LastSample(n) == 0 || (LastSample(n) > 1 && (LastSample(n) - 1) % 1001 == 0)
    ensures LastSample(n) < j <= n ==> j == 1 || (j - 1) % 1001 != 0
  {
    if 1 < j <= n && (j - 1) % 1001 == 0 {
      SameQuotient((j - 1) / 1001, (n - 1) / 1001);
    }
  }

  lemma SameQuotient(a: nat, b: nat)
    ensures a <= b ==> a * 1001 <= b * 1001
  {
  }

  /**
   Candidate `n` is the start header with the nonce `n` further on modulo 2^256 and with the
   initial clock offset added, modulo 2^32, to the latest clock value taken.
   */
  lemma {:induction false} CandidateClosedForm(start: Header, clock: nat -> int, n: nat)
    ensures LocalsAt(start, clock, n).cnt == CounterAt(n)
    ensures LocalsAt(start, clock, n).pb
         == start.(nNonce := NonceAt(start.nNonce, n),
                   nTime := ToUint32(clock(LastSample(n)) + (start.nTime - clock(0))))
  {
    if n > 0 {
      CandidateClosedForm(start, clock, n - 1);
      CounterStep(n - 1);
      NonceStep(start.nNonce, n - 1);
    }
  }

  /** A thread's locals depend only on what the clock has shown so far. */
  lemma {:induction false} LocalsAgree(start: Header, clock1: nat -> int, clock2: nat -> int, n: nat)
    requires forall k: nat :: k <= n ==> clock1(k) == clock2(k)
    ensures LocalsAt(start, clock1, n) == LocalsAt(start, clock2, n)
  {
    if n > 0 {
      LocalsAgree(start, clock1, clock2, n - 1);
    }
  }

  /** `clock` never runs backwards up to time `n`. */
  ghost predicate Monotone(clock: nat -> int, n: nat) {
    forall i: nat, j: nat :: i <= j <= n ==> clock(i) <= clock(j)
  }

  /** No header time needs more than 32 bits up to time `n`. */
  ghost predicate TimesFit(start: Header, clock: nat -> int, n: nat) {
    forall j: nat :: j <= n ==> 0 <= clock(j) + start.nTime - clock(0) < TWO_32
  }

  lemma HeaderTime(start: Header, clock: nat -> int, n: nat)
    requires TimesFit(start, clock, n)
    ensures LastSample(n) <= n
    ensures LocalsAt(start, clock, n).pb.nTime == clock(LastSample(n)) + start.nTime - clock(0)
  {
    CandidateClosedForm(start, clock, n);
    var t := clock(LastSample(n)) + (start.nTime - clock(0));
    assert 0 <= t < TWO_32;
    assert ToUint32(t) == t;
  }

  lemma LastSampleMonotone(i: nat, j: nat)
    requires i <= j
    ensures LastSample(i) <= LastSample(j) <= j
  {
  }

  /**
   While the clock is monotone and no time overflows, header times never decrease, and
   they keep their initial distance from the last clock value taken.
   */
  lemma HeaderTimeFollowsClock(start: Header, clock: nat -> int, i: nat, j: nat)
    requires i <= j
    requires Monotone(clock, j) && TimesFit(start, clock, j)
    ensures LocalsAt(start, clock, j).pb.nTime - clock(LastSample(j)) == start.nTime - clock(0)
    ensures LocalsAt(start, clock, i).pb.nTime <= LocalsAt(start, clock, j).pb.nTime
  {
    LastSampleMonotone(i, j);
    HeaderTime(start, clock, i);
    HeaderTime(start, clock, j);
  }

  // ---------- the loop ----------

  datatype Outcome = Running | Found | Beaten

  /** The loop goes on past candidate `k`: no hit, and no other thread seen to have one. */
  predicate Passes(start: Header, hash: Header -> nat, target: nat, beaten: nat -> bool, clock: nat -> int, k: nat) {
    hash(LocalsAt(start, clock, k).pb) > target && !beaten(k)
  }

  /**
   The first `limit` iterations of the loop. `beaten(n)` is whether the poll in iteration `n`
   sees a count made by another thread. `tried` lists the headers hashed, in order.
   */
  method Get(pblock: Header, hash: Header -> nat, target: nat, beaten: nat -> bool, clock: nat -> int, limit: nat)
    returns (tried: seq<Header>, outcome: Outcome)
    ensures tried == Candidates(pblock, clock, |tried|)
    ensures |tried| <= limit
    ensures forall k :: 0 <= k < |tried| - 1 ==> Passes(pblock, hash, target, beaten, clock, k)
    ensures outcome.Running? ==>
              |tried| == limit && forall k :: 0 <= k < limit ==> Passes(pblock, hash, target, beaten, clock, k)
    ensures outcome.Found? ==> tried != [] && hash(tried[|tried| - 1]) <= target
    ensures outcome.Beaten? ==> tried != [] && hash(tried[|tried| - 1]) > target && beaten(|tried| - 1)
  {
    var locals, n := Locals(pblock, 0), 0;
    var timeoffset := pblock.nTime - clock(0);
    tried, outcome := [], Running;
    while n < limit
      invariant n == |tried| <= limit
      invariant locals == LocalsAt(pblock, clock, n)
      invariant tried == Candidates(pblock, clock, n)
      invariant forall k :: 0 <= k < n ==> Passes(pblock, hash, target, beaten, clock, k)
    {
      tried := tried + [locals.pb];
      var result := if beaten(n) then 1 else 0;
      if hash(locals.pb) <= target {
        result := result + 1;
      }
      if result > 0 {
        outcome := if hash(locals.pb) <= target then Found else Beaten;
        assert tried == Candidates(pblock, clock, n + 1);
        return;
      }
      assert Passes(pblock, hash, target, beaten, clock, n);
      n := n + 1;
      locals := Next(locals, clock(n), timeoffset);
    }
  }
}
