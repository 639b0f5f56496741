/**
 The shared `int * result` that every search thread increments with an unguarded
 `(*result)++`. The increment is two steps, a load and a store, and any number of
 other threads' steps may fall between them. Both searches (`_get` in
 common/genesis.cpp and `_getaddress` in common/keytool.cpp) build on this module.
 */
module RacyCounter {
  import opened Counting

  /**
   Where one thread stands in its only increment. A loaded thread holds the value it
   read; `stores` is history: how many stores had been made when it read it.
   */
  datatype Phase = Idle | Loaded(value: nat, stores: nat) | Stored

  /** `raced` is history: some store overwrote a store made after its own load. */
  datatype Counter = Counter(value: nat, phases: seq<Phase>, raced: bool)

  function StoredFlags(phases: seq<Phase>): seq<bool> {
    seq(|phases|, i requires 0 <= i < |phases| => phases[i].Stored?)
  }

  /** The number of threads whose increment is complete. */
  function Stores(c: Counter): nat {
    Count(StoredFlags(c.phases))
  }

  function Fresh(threads: nat): Counter {
    Counter(0, seq(threads, _ => Idle), false)
  }

  function Load(c: Counter, i: nat): Counter
    requires i < |c.phases|
  {
    c.(phases := c.phases[i := Loaded(c.value, Stores(c))])
  }

  /** Only a thread that has loaded a value has something to store. */
  function Store(c: Counter, i: nat): Counter
    requires i < |c.phases|
  {
    match c.phases[i]
    case Loaded(value, stores) => Counter(value + 1, c.phases[i := Stored], c.raced || stores != Stores(c))
    case _ => c
  }

  /** What every interleaving of loads and stores keeps. */
  ghost predicate Consistent(c: Counter) {
    && c.value <= Stores(c)
    && (c.value == 0 <==> Stores(c) == 0)
    && (c.value == Stores(c) <==> !c.raced)
    && forall i :: 0 <= i < |c.phases| && c.phases[i].Loaded? ==>
         && c.phases[i].value <= c.phases[i].stores <= Stores(c)
         && (c.phases[i].stores == Stores(c) ==> c.phases[i].value == c.value)
  }

  /**
   The counter is positive exactly when some thread has counted, is never above the number
   of threads that have, and equals that number exactly when no increments overlapped.
   */
  ghost predicate TracksFinders(c: Counter) {
    && (c.value > 0 <==> Stores(c) > 0)
    && c.value <= Stores(c) <= |c.phases|
    && (c.value == Stores(c) <==> !c.raced)
  }

  lemma ConsistentTracksFinders(c: Counter)
    requires Consistent(c)
    ensures TracksFinders(c)
  {
    CountBounds(StoredFlags(c.phases));
  }

  lemma FreshIsConsistent(threads: nat)
    ensures Consistent(Fresh(threads))
  {
    CountBounds(StoredFlags(Fresh(threads).phases));
  }

  lemma LoadKeepsConsistent(c: Counter, i: nat)
    requires i < |c.phases| && c.phases[i].Idle? && Consistent(c)
    ensures Consistent(Load(c, i))
    ensures Stores(Load(c, i)) == Stores(c)
  {
    assert StoredFlags(Load(c, i).phases) == StoredFlags(c.phases);
  }

  /** One store adds one finisher, whatever value it writes; the counter ends positive. */
  lemma StoreKeepsConsistent(c: Counter, i: nat)
    requires i < |c.phases| && c.phases[i].Loaded? && Consistent(c)
    ensures Consistent(Store(c, i))
    ensures Stores(Store(c, i)) == Stores(c) + 1
    ensures Store(c, i).value > 0
  {
    var after := Store(c, i);
    CountUpdate(StoredFlags(c.phases), i, true);
    assert StoredFlags(after.phases) == StoredFlags(c.phases)[i := true];
  }

  /** The counter can lose updates: two threads that both load 0 leave it at 1. */
  lemma LostUpdate()
    ensures var c := Store(Store(Load(Load(Fresh(2), 0), 1), 0), 1);
            c.value == 1 && Stores(c) == 2 && c.raced
  {
    var c0 := Load(Load(Fresh(2), 0), 1);
    FreshIsConsistent(2);
    LoadKeepsConsistent(Fresh(2), 0);
    LoadKeepsConsistent(Load(Fresh(2), 0), 1);
    StoreKeepsConsistent(c0, 0);
    StoreKeepsConsistent(Store(c0, 0), 1);
  }
}
