/**
 What the threads of the genesis search work on, in every interleaving: where their start
 nonces come from, what their headers look like over time, and when they share work.
 */
module GenesisWork {
  import opened BlockHeader
  import opened GenesisWorker
  import opened GenesisSearch
  import opened GenesisTheorems
  import Schedules

  // ---------- where a thread starts ----------

  lemma ThreadIsOk(cfg: Config, schedule: seq<Event>, i: nat)
    requires i < cfg.workers
    ensures var s := Run(cfg, schedule);
            PhaseOk(s, i) && HeaderOk(cfg, s, i) && SearchOk(cfg, s, i) && |s.nonces| <= cfg.workers
  {
    ReachableIsInv(cfg, schedule);
  }

  ghost predicate IsStartNonce(nonce: Uint256) {
    exists random: Uint256 :: nonce == StartNonce(random)
  }

  lemma {:induction false} NoncesAreMasked(cfg: Config, schedule: seq<Event>)
    ensures forall n :: n in Run(cfg, schedule).nonces ==> IsStartNonce(n)
  {
    if schedule != [] {
      var init, e := schedule[..|schedule| - 1], schedule[|schedule| - 1];
      NoncesAreMasked(cfg, init);
      if e.Main? {
        assert IsStartNonce(StartNonce(e.random));
      }
    }
  }

  /**
   Whatever the interleaving, thread `i` works upwards from a nonce drawn for some thread
   `j >= i`: the spawner may overwrite the shared header before thread `i` copies it. Only the
   last thread is sure of its own.
   */
  lemma StartNonceProvenance(cfg: Config, schedule: seq<Event>, i: nat)
    requires i < cfg.workers && HasHeader(Run(cfg, schedule).workers[i].pc)
    ensures var s := Run(cfg, schedule);
            var w := s.workers[i];
            && i <= w.drawn - 1 < |s.nonces|
            && w.locals.pb.nNonce == NonceAt(s.nonces[w.drawn - 1], w.tried)
            && (i == cfg.workers - 1 ==> w.drawn - 1 == i)
  {
    ThreadIsOk(cfg, schedule, i);
    var s := Run(cfg, schedule);
    var w := s.workers[i];
    CandidateClosedForm(WrittenHeader(cfg, s.nonces, w.drawn), ClockOf(w.samples), w.tried);
  }

  /**
   Whatever the interleaving, no thread goes past a hit: every candidate it has finished was
   above the target.
   */
  lemma NoHitIsPassedOver(cfg: Config, schedule: seq<Event>, i: nat, k: nat)
    requires i < cfg.workers && k < Run(cfg, schedule).workers[i].tried
    ensures var s := Run(cfg, schedule);
            var w := s.workers[i];
            && 0 < w.drawn <= |s.nonces|
            && cfg.hash(LocalsAt(cfg.input.(nNonce := s.nonces[w.drawn - 1]), ClockOf(w.samples), k).pb) > cfg.target
  {
    ThreadIsOk(cfg, schedule, i);
    var s := Run(cfg, schedule);
    assert Misses(cfg, WrittenHeader(cfg, s.nonces, s.workers[i].drawn), s.workers[i].samples, k);
  }

  /**
   Whatever the interleaving, a thread in its loop is where the loop on its own would be:
   its locals are those at the start of its current iteration, from the header that the
   spawner had last written when the thread copied it, and by the clock values it saw.
   */
  lemma ThreadFollowsLoop(cfg: Config, schedule: seq<Event>, i: nat)
    requires i < cfg.workers && InLoop(Run(cfg, schedule).workers[i].pc)
    ensures var s := Run(cfg, schedule);
            var w := s.workers[i];
            && 0 < w.drawn <= |s.nonces| && |w.samples| == w.tried + 1
            && w.offset == cfg.input.nTime - w.samples[0]
            && w.locals == LocalsAt(cfg.input.(nNonce := s.nonces[w.drawn - 1]), ClockOf(w.samples), w.tried)
  {
    ThreadIsOk(cfg, schedule, i);
  }

  lemma SpawnRound(cfg: Config, s: State, random: Uint256)
    requires Shaped(cfg, s) && |s.nonces| == s.spawned < cfg.workers
    ensures var s' := Step(cfg, Step(cfg, s, Main(random)), Main(0));
            && |s'.nonces| == s'.spawned == s.spawned + 1
            && s'.workers == s.workers[s.spawned := s.workers[s.spawned].(pc := Copy)]
  {
  }

  lemma CopyTwice(cfg: Config, s: State)
    requires Shaped(cfg, s) && cfg.workers >= 2 && s.workers[0].pc.Copy? && s.workers[1].pc.Copy?
    ensures var s' := Step(cfg, Step(cfg, s, Work(0, 0)), Work(1, 0));
            && s'.workers[0].pc.Offset? && s'.workers[1].pc.Offset?
            && s'.workers[0].locals.pb == s'.workers[1].locals.pb
  {
  }

  /** Two threads do the same work if the spawner is ahead of both: each copies the second nonce. */
  lemma DuplicatedWork(cfg: Config, r0: Uint256, r1: Uint256)
    requires cfg.workers >= 2
    ensures var s := Run(cfg, [Main(r0), Main(0), Main(r1), Main(0), Work(0, 0), Work(1, 0)]);
            && HasHeader(s.workers[0].pc) && HasHeader(s.workers[1].pc)
            && s.workers[0].locals.pb == s.workers[1].locals.pb
  {
    var s0 := Start(cfg);
    var e2 := [Main(r0), Main(0)];
    var e4 := [Main(r0), Main(0), Main(r1), Main(0)];
    assert [] + e2 == e2 && e2 + [Main(r1), Main(0)] == e4;
    Schedules.RunTwo(Machine(cfg), s0, [], Main(r0), Main(0));
    SpawnRound(cfg, s0, r0);
    Schedules.RunTwo(Machine(cfg), s0, e2, Main(r1), Main(0));
    SpawnRound(cfg, RunFrom(cfg, s0, e2), r1);
    assert e4 + [Work(0, 0), Work(1, 0)] == [Main(r0), Main(0), Main(r1), Main(0), Work(0, 0), Work(1, 0)];
    Schedules.RunTwo(Machine(cfg), s0, e4, Work(0, 0), Work(1, 0));
    CopyTwice(cfg, RunFrom(cfg, s0, e4));
  }

  lemma OwnDrawFromAbove(cfg: Config, s: State, i: nat)
    requires Inv(cfg, s) && i < cfg.workers
    requires forall k :: 0 <= k < cfg.workers ==> HasHeader(s.workers[k].pc)
    requires forall k, l :: 0 <= k < l < cfg.workers ==> s.workers[k].drawn != s.workers[l].drawn
    ensures s.workers[i].drawn == i + 1
    decreases cfg.workers - i
  {
    assert HeaderOk(cfg, s, i);
    var d := s.workers[i].drawn;
    if d > i + 1 {
      OwnDrawFromAbove(cfg, s, d - 1);
      assert false;
    }
  }

  /**
   The threads start from pairwise different draws exactly when each of them copied the
   header before the spawner drew the next nonce.
   */
  lemma DistinctDrawsIffOwn(cfg: Config, schedule: seq<Event>)
    requires forall k :: 0 <= k < cfg.workers ==> HasHeader(Run(cfg, schedule).workers[k].pc)
    ensures var ws := Run(cfg, schedule).workers;
            (forall k, l :: 0 <= k < l < cfg.workers ==> ws[k].drawn != ws[l].drawn)
            <==> (forall k :: 0 <= k < cfg.workers ==> ws[k].drawn == k + 1)
  {
    var s := Run(cfg, schedule);
    ReachableIsInv(cfg, schedule);
    if forall k, l :: 0 <= k < l < cfg.workers ==> s.workers[k].drawn != s.workers[l].drawn {
      forall k | 0 <= k < cfg.workers
        ensures s.workers[k].drawn == k + 1
      {
        OwnDrawFromAbove(cfg, s, k);
      }
    }
  }

  // ---------- one run at two moments ----------

  lemma RunStep(cfg: Config, schedule: seq<Event>, n: nat)
    requires n < |schedule|
    ensures Run(cfg, schedule[..n + 1]) == Step(cfg, Run(cfg, schedule[..n]), schedule[n])
  {
    Schedules.RunExtend(Machine(cfg), Start(cfg), schedule[..n], schedule[n]);
    assert schedule[..n] + [schedule[n]] == schedule[..n + 1];
  }

  /** Once thread `i` has copied the header, its history only grows. */
  ghost predicate Continues(s: State, s': State, i: nat)
    requires i < |s.workers| && i < |s'.workers|
  {
    var w, w' := s.workers[i], s'.workers[i];
    && s.nonces <= s'.nonces
    && (HasHeader(w.pc) ==>
          HasHeader(w'.pc) && w'.drawn == w.drawn && w.tried <= w'.tried && w.samples <= w'.samples)
    && (InLoop(w.pc) ==> InLoop(w'.pc))
  }

  lemma WorkContinues(cfg: Config, s: State, i: nat, now: int)
    requires Shaped(cfg, s) && i < cfg.workers && HeaderOk(cfg, s, i)
    ensures Continues(s, WorkStep(cfg, s, i, now), i)
  {
  }

  lemma OthersContinue(cfg: Config, s: State, j: nat, now: int, i: nat)
    requires Shaped(cfg, s) && i < cfg.workers && j < cfg.workers && i != j
    ensures Continues(s, WorkStep(cfg, s, j, now), i)
  {
  }

  lemma MainContinues(cfg: Config, s: State, random: Uint256, i: nat)
    requires Shaped(cfg, s) && i < cfg.workers && PhaseOk(s, i)
    ensures Continues(s, MainStep(cfg, s, random), i)
  {
  }

  lemma StepContinues(cfg: Config, s: State, e: Event, i: nat)
    requires Shaped(cfg, s) && i < cfg.workers && PhaseOk(s, i) && HeaderOk(cfg, s, i)
    ensures Continues(s, Step(cfg, s, e), i)
  {
    match e
    case Main(random) => MainContinues(cfg, s, random, i);
    case Work(j, now) =>
      if j == i {
        WorkContinues(cfg, s, i, now);
      } else if j < cfg.workers {
        OthersContinue(cfg, s, j, now, i);
      }
  }

  lemma NextContinues(cfg: Config, schedule: seq<Event>, n: nat, i: nat)
    requires n < |schedule| && i < cfg.workers
    ensures Continues(Run(cfg, schedule[..n]), Run(cfg, schedule[..n + 1]), i)
  {
    RunStep(cfg, schedule, n);
    ThreadIsOk(cfg, schedule[..n], i);
    StepContinues(cfg, Run(cfg, schedule[..n]), schedule[n], i);
  }

  lemma ContinuesThrough(s: State, t: State, u: State, i: nat)
    requires i < |s.workers| && i < |t.workers| && i < |u.workers|
    requires Continues(s, t, i) && Continues(t, u, i)
    ensures Continues(s, u, i)
  {
  }

  lemma {:induction false} RunContinues(cfg: Config, schedule: seq<Event>, n1: nat, n2: nat, i: nat)
    requires n1 <= n2 <= |schedule| && i < cfg.workers
    ensures Continues(Run(cfg, schedule[..n1]), Run(cfg, schedule[..n2]), i)
  {
    if n1 < n2 {
      RunContinues(cfg, schedule, n1, n2 - 1, i);
      NextContinues(cfg, schedule, n2 - 1, i);
      ContinuesThrough(Run(cfg, schedule[..n1]), Run(cfg, schedule[..n2 - 1]), Run(cfg, schedule[..n2]), i);
    }
  }

  /** The n-th nonce is the one masked from the random value of the event that drew it. */
  lemma {:induction false} NonceIsDrawn(cfg: Config, schedule: seq<Event>, n: nat) returns (m: nat, random: Uint256)
    requires n < |Run(cfg, schedule).nonces|
    ensures m < |schedule| && schedule[m] == Main(random)
    ensures |Run(cfg, schedule[..m]).nonces| == n == Run(cfg, schedule[..m]).spawned
    ensures Run(cfg, schedule).nonces[n] == StartNonce(random)
  {
    assert schedule != [];
    m := |schedule| - 1;
    var init := schedule[..m];
    LastStep(cfg, schedule);
    if n < |Run(cfg, init).nonces| {
      NoncesStay(cfg, Run(cfg, init), schedule[m]);
      m, random := NonceIsDrawn(cfg, init, n);
      assert init[..m] == schedule[..m];
    } else {
      DrawsOne(cfg, Run(cfg, init), schedule[m]);
      random := schedule[m].random;
    }
  }

  lemma LastStep(cfg: Config, schedule: seq<Event>)
    requires schedule != []
    ensures Run(cfg, schedule) == Step(cfg, Run(cfg, schedule[..|schedule| - 1]), schedule[|schedule| - 1])
  {
    RunStep(cfg, schedule, |schedule| - 1);
    assert schedule[..|schedule|] == schedule;
  }

  lemma NoncesStay(cfg: Config, s: State, e: Event)
    requires Shaped(cfg, s)
    ensures s.nonces <= Step(cfg, s, e).nonces
  {
  }

  lemma DrawsOne(cfg: Config, s: State, e: Event)
    requires Shaped(cfg, s) && |Step(cfg, s, e).nonces| > |s.nonces|
    ensures e.Main? && |s.nonces| == s.spawned
    ensures Step(cfg, s, e).nonces == s.nonces + [StartNonce(e.random)]
  {
  }

  // ---------- header times ----------

  /** The clock never ran backwards while the samples were taken. */
  ghost predicate RunsForward(samples: seq<int>) {
    forall a, b :: 0 <= a <= b < |samples| ==> samples[a] <= samples[b]
  }

  /** No header time needed more than 32 bits. */
  ghost predicate Fits32(input: Header, samples: seq<int>) {
    forall a :: 0 <= a < |samples| ==> 0 <= samples[a] + input.nTime - samples[0] < TWO_32
  }

  /**
   While the clock a thread sees is monotone and no time overflows, the time in its header
   never decreases from one moment of a run to a later one, and keeps the initial distance
   from the last clock value taken.
   */
  lemma HeaderTimeNeverDecreases(cfg: Config, schedule: seq<Event>, n1: nat, n2: nat, i: nat)
    requires n1 <= n2 <= |schedule| && i < cfg.workers && InLoop(Run(cfg, schedule[..n1]).workers[i].pc)
    requires var samples := Run(cfg, schedule[..n2]).workers[i].samples;
             RunsForward(samples) && Fits32(cfg.input, samples)
    ensures var w1, w2 := Run(cfg, schedule[..n1]).workers[i], Run(cfg, schedule[..n2]).workers[i];
            && w1.locals.pb.nTime <= w2.locals.pb.nTime
            && LastSample(w2.tried) < |w2.samples|
            && w2.locals.pb.nTime - w2.samples[LastSample(w2.tried)] == cfg.input.nTime - w2.samples[0]
  {
    RunContinues(cfg, schedule, n1, n2, i);
    ThreadIsOk(cfg, schedule[..n1], i);
    ThreadIsOk(cfg, schedule[..n2], i);
    TimeFollowsClock(cfg, Run(cfg, schedule[..n1]), Run(cfg, schedule[..n2]), i);
  }

  lemma TimeFollowsClock(cfg: Config, s1: State, s2: State, i: nat)
    requires Shaped(cfg, s1) && Shaped(cfg, s2) && i < cfg.workers
    requires HeaderOk(cfg, s1, i) && HeaderOk(cfg, s2, i) && InLoop(s1.workers[i].pc) && Continues(s1, s2, i)
    requires RunsForward(s2.workers[i].samples) && Fits32(cfg.input, s2.workers[i].samples)
    ensures var w1, w2 := s1.workers[i], s2.workers[i];
            && w1.locals.pb.nTime <= w2.locals.pb.nTime
            && LastSample(w2.tried) < |w2.samples|
            && w2.locals.pb.nTime - w2.samples[LastSample(w2.tried)] == cfg.input.nTime - w2.samples[0]
  {
    var w1, w2 := s1.workers[i], s2.workers[i];
    SamplesFollowClock(WrittenHeader(cfg, s2.nonces, w2.drawn), w1.samples, w2.samples);
  }

  lemma SamplesFollowClock(start: Header, samples1: seq<int>, samples2: seq<int>)
    requires 0 < |samples1| && samples1 <= samples2 && RunsForward(samples2) && Fits32(start, samples2)
    ensures var n1, n2 := |samples1| - 1, |samples2| - 1;
            var time1 := LocalsAt(start, ClockOf(samples1), n1).pb.nTime;
            var time2 := LocalsAt(start, ClockOf(samples2), n2).pb.nTime;
            && time1 <= time2 && LastSample(n2) <= n2
            && time2 - samples2[LastSample(n2)] == start.nTime - samples2[0]
  {
    var n1, n2, clock := |samples1| - 1, |samples2| - 1, ClockOf(samples2);
    LocalsAgree(start, ClockOf(samples1), clock, n1);
    LastSampleMonotone(n2, n2);
    assert Monotone(clock, n2) && TimesFit(start, clock, n2);
    HeaderTimeFollowsClock(start, clock, n1, n2);
  }

  // ---------- different starts, different work ----------

  /** After `n` events of the schedule thread `i` hashes `header`, one of its first 65536. */
  ghost predicate Hashes(cfg: Config, schedule: seq<Event>, n: nat, i: nat, header: Header) {
    && n <= |schedule| && i < cfg.workers
    && var w := Run(cfg, schedule[..n]).workers[i];
       w.pc.Test? && w.tried < TWO_16 && w.locals.pb == header
  }

  function StartOf(cfg: Config, s: State, i: nat): Header
    requires i < |s.workers|
  {
    WrittenHeader(cfg, s.nonces, s.workers[i].drawn)
  }

  lemma StartContinues(cfg: Config, schedule: seq<Event>, n1: nat, n2: nat, i: nat)
    requires n1 <= n2 <= |schedule| && i < cfg.workers && HasHeader(Run(cfg, schedule[..n1]).workers[i].pc)
    ensures StartOf(cfg, Run(cfg, schedule[..n1]), i) == StartOf(cfg, Run(cfg, schedule[..n2]), i)
    ensures HasHeader(Run(cfg, schedule[..n2]).workers[i].pc)
  {
    RunContinues(cfg, schedule, n1, n2, i);
    StartNonceProvenance(cfg, schedule[..n1], i);
  }

  /** The first header a thread hashes is the one it started from. */
  lemma {:induction false} FirstHash(cfg: Config, schedule: seq<Event>, n: nat, i: nat) returns (m: nat)
    requires n <= |schedule| && i < cfg.workers && InLoop(Run(cfg, schedule[..n]).workers[i].pc)
    ensures m <= n && Hashes(cfg, schedule, m, i, StartOf(cfg, Run(cfg, schedule[..n]), i))
  {
    assert n > 0;
    if InLoop(Run(cfg, schedule[..n - 1]).workers[i].pc) {
      m := FirstHash(cfg, schedule, n - 1, i);
      StartContinues(cfg, schedule, n - 1, n, i);
    } else {
      m := n;
      HashesOnEntry(cfg, schedule, n, i);
    }
  }

  lemma HashesOnEntry(cfg: Config, schedule: seq<Event>, n: nat, i: nat)
    requires 0 < n <= |schedule| && i < cfg.workers
    requires !InLoop(Run(cfg, schedule[..n - 1]).workers[i].pc) && InLoop(Run(cfg, schedule[..n]).workers[i].pc)
    ensures Hashes(cfg, schedule, n, i, StartOf(cfg, Run(cfg, schedule[..n]), i))
  {
    RunStep(cfg, schedule, n - 1);
    ThreadIsOk(cfg, schedule[..n - 1], i);
    ThreadIsOk(cfg, schedule[..n], i);
    EntersLoop(cfg, Run(cfg, schedule[..n - 1]), schedule[n - 1], i);
  }

  lemma EntersLoop(cfg: Config, s: State, e: Event, i: nat)
    requires Shaped(cfg, s) && i < cfg.workers && !InLoop(s.workers[i].pc)
    requires InLoop(Step(cfg, s, e).workers[i].pc)
    requires PhaseOk(s, i) && HeaderOk(cfg, s, i)
    ensures var w := Step(cfg, s, e).workers[i]; w.pc.Test? && w.tried == 0
  {
  }

  /** A thread's first 65536 headers have nonces counted up from its start. */
  lemma HashesFromStart(cfg: Config, schedule: seq<Event>, n: nat, i: nat, header: Header) returns (r: Uint256, k: nat)
    requires Hashes(cfg, schedule, n, i, header)
    ensures k < TWO_16 && StartOf(cfg, Run(cfg, schedule), i).nNonce == StartNonce(r)
    ensures header.nNonce == NonceAt(StartNonce(r), k)
  {
    var s := Run(cfg, schedule[..n]);
    assert schedule[..|schedule|] == schedule;
    StartNonceProvenance(cfg, schedule[..n], i);
    StartContinues(cfg, schedule, n, |schedule|, i);
    NoncesAreMasked(cfg, schedule[..n]);
    var nonce := s.nonces[s.workers[i].drawn - 1];
    assert IsStartNonce(nonce);
    r :| nonce == StartNonce(r);
    k := s.workers[i].tried;
  }

  /**
   Over a whole run, two threads never hash the same header among their first 65536 exactly
   if they started from different nonces. If they did not, both first hash the same header.
   */
  lemma DifferentStartsDoDifferentWorkIff(cfg: Config, schedule: seq<Event>, i: nat, j: nat)
    requires i < cfg.workers && j < cfg.workers
    requires InLoop(Run(cfg, schedule).workers[i].pc) && InLoop(Run(cfg, schedule).workers[j].pc)
    ensures var s := Run(cfg, schedule);
            StartOf(cfg, s, i).nNonce != StartOf(cfg, s, j).nNonce
            <==> forall n1: nat, n2: nat, header: Header ::
                   !(Hashes(cfg, schedule, n1, i, header) && Hashes(cfg, schedule, n2, j, header))
  {
    var s := Run(cfg, schedule);
    assert schedule[..|schedule|] == schedule;
    if StartOf(cfg, s, i).nNonce != StartOf(cfg, s, j).nNonce {
      forall n1: nat, n2: nat, header: Header | Hashes(cfg, schedule, n1, i, header)
        ensures !Hashes(cfg, schedule, n2, j, header)
      {
        if Hashes(cfg, schedule, n2, j, header) {
          var r1, k1 := HashesFromStart(cfg, schedule, n1, i, header);
          var r2, k2 := HashesFromStart(cfg, schedule, n2, j, header);
          FirstNoncesDisjointIff(r1, r2);
          assert false;
        }
      }
    } else {
      var m1 := FirstHash(cfg, schedule, |schedule|, i);
      var m2 := FirstHash(cfg, schedule, |schedule|, j);
      assert StartOf(cfg, s, i) == StartOf(cfg, s, j);
    }
  }
}
