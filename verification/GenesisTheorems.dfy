/**
 What holds of every interleaving of the genesis search: what is counted and printed by the
 time `findGenesis` returns, and that one hit stops all.
 */
module GenesisTheorems {
  import opened Sums
  import opened Counting
  import opened RacyCounter
  import opened BlockHeader
  import opened GenesisWorker
  import opened GenesisSearch
  import Schedules

  lemma ReachableIsInv(cfg: Config, schedule: seq<Event>)
    ensures Inv(cfg, Run(cfg, schedule))
  {
    StartKeepsInv(cfg);
    RunKeepsInv(cfg, Start(cfg), schedule);
  }

  // ---------- counting and printing ----------

  /** At any moment of any run the shared counter tracks the threads that have counted. */
  lemma CounterTracksFinders(cfg: Config, schedule: seq<Event>)
    ensures TracksFinders(Run(cfg, schedule).counter)
  {
    ReachableIsInv(cfg, schedule);
    ConsistentTracksFinders(Run(cfg, schedule).counter);
  }

  lemma {:induction false} BlocksAreGuarded(log: seq<Line>, n: nat)
    requires n < |log| && log[n].Block?
    ensures log[n] in Guarded(log)
  {
    if n < |log| - 1 {
      BlocksAreGuarded(log[..|log| - 1], n);
    }
  }

  /** Every header ever printed meets the target and is the input block but for nonce and time. */
  lemma PrintedHeadersMeetTarget(cfg: Config, schedule: seq<Event>, n: nat)
    requires n < |Run(cfg, schedule).log| && Run(cfg, schedule).log[n].Block?
    ensures var header := Run(cfg, schedule).log[n].header;
            cfg.hash(header) <= cfg.target && SameBlock(cfg.input, header)
  {
    var s := Run(cfg, schedule);
    ReachableIsInv(cfg, schedule);
    BlocksAreGuarded(s.log, n);
    var lines := Guarded(s.log);
    var k :| 0 <= k < |lines| && lines[k] == s.log[n];
    assert LineOk(cfg, s, lines, k);
    HeaderMeetsTarget(cfg, s, lines[k].owner);
  }

  lemma HeaderMeetsTarget(cfg: Config, s: State, i: nat)
    requires Inv(cfg, s) && i < cfg.workers && HasPrinted(s, i)
    ensures var header := s.workers[i].locals.pb;
            cfg.hash(header) <= cfg.target && SameBlock(cfg.input, header)
  {
    assert PhaseOk(s, i) && HeaderOk(cfg, s, i);
    var w := s.workers[i];
    CandidateClosedForm(WrittenHeader(cfg, s.nonces, w.drawn), ClockOf(w.samples), w.tried);
  }

  lemma LineKind(cfg: Config, s: State, lines: seq<Line>, k: nat, j: nat)
    requires Shaped(cfg, s) && j < 3 && 3 * k + j < |lines| && LineOk(cfg, s, lines, 3 * k + j)
    ensures lines[3 * k + j].owner == lines[3 * k].owner
    ensures if j == 1 then lines[3 * k + j].Block? else lines[3 * k + j].Rule?
  {
    assert (3 * k + j) % 3 == j;
  }

  lemma BlockKinds(cfg: Config, s: State, k: nat)
    requires Shaped(cfg, s) && LogOk(cfg, s) && 3 * k + 2 < |Guarded(s.log)|
    ensures var lines := Guarded(s.log);
            && lines[3 * k].Rule? && lines[3 * k + 1].Block? && lines[3 * k + 2].Rule?
            && lines[3 * k].owner == lines[3 * k + 1].owner == lines[3 * k + 2].owner
  {
    LineKind(cfg, s, Guarded(s.log), k, 0);
    LineKind(cfg, s, Guarded(s.log), k, 1);
    LineKind(cfg, s, Guarded(s.log), k, 2);
  }

  /** Printed headers never interleave: the guarded lines come in blocks of one thread each. */
  lemma PrintedBlocksAreContiguous(cfg: Config, schedule: seq<Event>, k: nat)
    requires 3 * k + 2 < |Guarded(Run(cfg, schedule).log)|
    ensures var lines := Guarded(Run(cfg, schedule).log);
            exists owner, header :: lines[3 * k..3 * k + 3] == [Rule(owner), Block(owner, header), Rule(owner)]
  {
    var s := Run(cfg, schedule);
    ReachableIsInv(cfg, schedule);
    var lines := Guarded(s.log);
    BlockKinds(cfg, s, k);
    var owner, header := lines[3 * k].owner, lines[3 * k + 1].header;
    assert lines[3 * k..3 * k + 3] == [Rule(owner), Block(owner, header), Rule(owner)];
  }

  lemma {:induction false} GuardedKeepsBlocks(log: seq<Line>, i: nat)
    ensures BlocksOf(Guarded(log), i) == BlocksOf(log, i)
  {
    if log != [] {
      var init, last := log[..|log| - 1], log[|log| - 1];
      GuardedKeepsBlocks(init, i);
      if last.Task? {
        assert Guarded(log) == Guarded(init);
      } else {
        BlocksOfExtend(Guarded(init), last, i);
      }
    }
  }

  /**
   Some thread has found a header. A thread has counted exactly if its last header meets the
   target; it has then announced this once and printed that header and no other, and a thread
   that has not counted has printed nothing. The counter lies between 1 and the number of those
   threads, and equals it exactly if no increments overlapped.
   */
  ghost predicate AllFindsPrinted(cfg: Config, s: State)
    requires Shaped(cfg, s)
  {
    && 0 < s.counter.value <= cfg.workers && TracksFinders(s.counter)
    && |Guarded(s.log)| == 3 * Stores(s.counter)
    && forall i :: 0 <= i < cfg.workers ==> PrintedOwnFind(cfg, s, i)
  }

  ghost predicate PrintedOwnFind(cfg: Config, s: State, i: nat)
    requires Shaped(cfg, s) && i < cfg.workers
  {
    var found, header := s.counter.phases[i].Stored?, s.workers[i].locals.pb;
    && (found <==> cfg.hash(header) <= cfg.target)
    && BlocksOf(s.log, i) == (if found then [header] else [])
    && TaskLines(s.log, i) == (if found then 1 else 0)
  }

  lemma DoneMeansFound(cfg: Config, s: State)
    requires Inv(cfg, s) && Done(cfg, s) && cfg.workers > 0
    ensures AllFindsPrinted(cfg, s)
  {
    assert forall i :: 0 <= i < cfg.workers ==> s.workers[i].pc.Exited? && PhaseOk(s, i);
    assert PhaseOk(s, 0);
    ConsistentTracksFinders(s.counter);
    JoinMeansAllPrinted(cfg, s);
    forall i | 0 <= i < cfg.workers
      ensures PrintedOwnFind(cfg, s, i)
    {
      GuardedKeepsBlocks(s.log, i);
      assert PrintsOk(s, i) && HeaderOk(cfg, s, i) && SearchOk(cfg, s, i) && TaskOk(s, i);
    }
  }

  lemma JoinMeansAllPrinted(cfg: Config, s: State)
    requires Shaped(cfg, s) && LockOk(s) && LogOk(cfg, s)
    requires forall i :: 0 <= i < cfg.workers ==> s.workers[i].pc.Exited?
    ensures |Guarded(s.log)| == 3 * Stores(s.counter)
  {
    assert LinesOpen(s) == 0;
    assert PrintedFlags(s) == StoredFlags(s.counter.phases);
  }

  /** When `findGenesis` returns with at least one thread, all finds are printed, and there is one. */
  lemma JoinMeansFound(cfg: Config, schedule: seq<Event>)
    requires cfg.workers > 0 && Done(cfg, Run(cfg, schedule))
    ensures AllFindsPrinted(cfg, Run(cfg, schedule))
  {
    ReachableIsInv(cfg, schedule);
    DoneMeansFound(cfg, Run(cfg, schedule));
  }

  // ---------- bounded shutdown ----------

  /** How many candidates a thread has hashed: `tried` are behind it, perhaps one is in hand. */
  function Hashed(w: Worker): nat {
    w.tried + (if w.pc.Unborn? || w.pc.Copy? || w.pc.Offset? || w.pc.Test? then 0 else 1)
  }

  /** The most candidates a thread can still come to once the counter is positive. */
  function Ceiling(w: Worker): nat {
    Hashed(w) + (if BeforeStore(w.pc) && !w.pc.Loading? then 1 else 0)
  }

  function Rank(pc: Pc): nat {
    match pc
    case Unborn => 13
    case Copy => 12
    case Offset | Advance => 11
    case Test => 10
    case Loading => 9
    case Storing => 8
    case Announce => 7
    case Acquire => 6
    case Top => 5
    case Body => 4
    case Bottom => 3
    case Release => 2
    case Poll => 1
    case Exited => 0
  }

  function Ranks(ws: seq<Worker>): seq<nat> {
    seq(|ws|, i requires 0 <= i < |ws| => Rank(ws[i].pc))
  }

  function StepsLeft(cfg: Config, s: State): nat {
    Sum(Ranks(s.workers)) + Schedules.Missing(cfg.workers, |s.nonces|) + Schedules.Missing(cfg.workers, s.joined)
  }

  lemma RanksUpdate(ws: seq<Worker>, i: nat, w: Worker)
    requires i < |ws|
    ensures Sum(Ranks(ws[i := w])) + Rank(ws[i].pc) == Sum(Ranks(ws)) + Rank(w.pc)
  {
    SumUpdate(Ranks(ws), i, Rank(w.pc));
    assert Ranks(ws[i := w]) == Ranks(ws)[i := Rank(w.pc)];
  }

  /** With the counter positive no thread goes back for another candidate. */
  lemma RankDecreases(cfg: Config, s: State, i: nat, now: int)
    requires Shaped(cfg, s) && i < cfg.workers && s.counter.value > 0
    ensures var s' := WorkStep(cfg, s, i, now);
            s' == s || Rank(s'.workers[i].pc) < Rank(s.workers[i].pc)
  {
  }

  /** Once the counter is positive, every step that changes anything brings the end nearer. */
  lemma StepsLeftDecreases(cfg: Config, s: State, e: Event)
    requires Inv(cfg, s) && s.counter.value > 0
    ensures Step(cfg, s, e) == s || StepsLeft(cfg, Step(cfg, s, e)) < StepsLeft(cfg, s)
    ensures Inv(cfg, Step(cfg, s, e)) && Step(cfg, s, e).counter.value > 0
  {
    StepKeepsInv(cfg, s, e);
    var s' := Step(cfg, s, e);
    match e
    case Main(random) =>
      if s.spawned < cfg.workers && |s.nonces| > s.spawned {
        assert PhaseOk(s, s.spawned);
        RanksUpdate(s.workers, s.spawned, s.workers[s.spawned].(pc := Copy));
      }
    case Work(i, now) =>
      if i < cfg.workers {
        assert PhaseOk(s, i);
        WorkStepFrame(cfg, s, i, now);
        RankDecreases(cfg, s, i, now);
        RanksUpdate(s.workers, i, s'.workers[i]);
      }
  }

  ghost predicate Stopping(cfg: Config, s: State) {
    Inv(cfg, s) && s.counter.value > 0
  }

  lemma StoppingDescends(cfg: Config)
    ensures Schedules.Descends(Machine(cfg), s => Stopping(cfg, s), s => StepsLeft(cfg, s))
  {
    forall s: State, e: Event | Stopping(cfg, s)
      ensures Stopping(cfg, Step(cfg, s, e))
      ensures Step(cfg, s, e) == s || StepsLeft(cfg, Step(cfg, s, e)) < StepsLeft(cfg, s)
    {
      StepsLeftDecreases(cfg, s, e);
    }
  }

  /** From a positive counter on, at most 15 steps per thread remain, in any schedule. */
  lemma BoundedShutdown(cfg: Config, s: State, schedule: seq<Event>)
    requires Inv(cfg, s) && s.counter.value > 0
    ensures Inv(cfg, RunFrom(cfg, s, schedule)) && RunFrom(cfg, s, schedule).counter.value > 0
    ensures Schedules.Moves(Machine(cfg), s, schedule) + StepsLeft(cfg, RunFrom(cfg, s, schedule))
         <= StepsLeft(cfg, s) <= 15 * cfg.workers
  {
    StoppingDescends(cfg);
    SumBound(Ranks(s.workers), 13);
    Schedules.MovesBounded(Machine(cfg), t => Stopping(cfg, t), t => StepsLeft(cfg, t), s, schedule);
  }

  /** From a positive counter on, at most the steps left lead to the join of all threads. */
  lemma EndIsReached(cfg: Config, s: State) returns (schedule: seq<Event>)
    requires Inv(cfg, s) && s.counter.value > 0
    ensures |schedule| <= StepsLeft(cfg, s) && Done(cfg, RunFrom(cfg, s, schedule))
  {
    StoppingDescends(cfg);
    forall t | Stopping(cfg, t) && !Done(cfg, t)
      ensures Schedules.CanMove(Machine(cfg), t)
    {
      NoDeadlock(cfg, t);
      var e :| Step(cfg, t, e) != t;
      assert Machine(cfg)(t, e) != t;
    }
    schedule := Schedules.EndIsReached(Machine(cfg), t => Stopping(cfg, t), t => StepsLeft(cfg, t),
                                       t => Done(cfg, t), s);
  }

  /** Until every thread is joined some thread can always move. */
  lemma NoDeadlock(cfg: Config, s: State)
    requires Inv(cfg, s) && !Done(cfg, s)
    ensures exists e :: Step(cfg, s, e) != s
  {
    if s.spawned < cfg.workers {
      assert Step(cfg, s, Main(0)) != s;
    } else if s.workers[s.joined].pc.Exited? {
      assert Step(cfg, s, Main(0)) != s;
    } else {
      var i := s.joined;
      assert PhaseOk(s, i);
      if s.workers[i].pc.Acquire? && s.lock.Held? {
        HolderMoves(cfg, s);
      } else {
        assert WorkStep(cfg, s, i, 0).workers[i].pc != s.workers[i].pc;
        assert Step(cfg, s, Work(i, 0)) != s;
      }
    }
  }

  /** The mutex is only ever held by a thread that exists and can move. */
  lemma HolderMoves(cfg: Config, s: State)
    requires Inv(cfg, s) && s.lock.Held?
    ensures s.lock.owner < cfg.workers && Step(cfg, s, Work(s.lock.owner, 0)) != s
  {
    var i := s.lock.owner;
    assert WorkStep(cfg, s, i, 0).workers[i].pc != s.workers[i].pc;
  }

  /** Once the counter is positive, no thread hashes more than one further candidate. */
  lemma {:induction false} AtMostOneMoreCandidate(cfg: Config, s: State, schedule: seq<Event>, i: nat)
    requires Inv(cfg, s) && s.counter.value > 0 && i < cfg.workers
    ensures Hashed(RunFrom(cfg, s, schedule).workers[i]) <= Ceiling(RunFrom(cfg, s, schedule).workers[i])
         <= Ceiling(s.workers[i]) <= Hashed(s.workers[i]) + 1
  {
    if schedule != [] {
      var init, e := schedule[..|schedule| - 1], schedule[|schedule| - 1];
      AtMostOneMoreCandidate(cfg, s, init, i);
      BoundedShutdown(cfg, s, init);
      var t := RunFrom(cfg, s, init);
      assert PhaseOk(t, i);
      CeilingKept(cfg, t, e, i);
      assert RunFrom(cfg, s, schedule) == Step(cfg, t, e);
    }
  }

  lemma CeilingKept(cfg: Config, s: State, e: Event, i: nat)
    requires Shaped(cfg, s) && s.counter.value > 0 && i < cfg.workers && PhaseOk(s, i)
    ensures Ceiling(Step(cfg, s, e).workers[i]) <= Ceiling(s.workers[i])
  {
    if e.Work? && e.thread < cfg.workers && e.thread != i {
      assert Step(cfg, s, e).workers[i] == s.workers[i];
    }
  }
}
