/** What holds of every interleaving of the address search. */
module AddressTheorems {
  import opened Sums
  import opened Counting
  import opened RacyCounter
  import opened Substring
  import opened AddressSearch
  import Schedules

  lemma ReachableIsInv(cfg: Config, schedule: seq<Event>)
    ensures Inv(cfg, Run(cfg, schedule))
  {
    StartKeepsInv(cfg);
    RunKeepsInv(cfg, Start(cfg), schedule);
  }

  // ---------- what is reported ----------

  function Hits(cfg: Config, examined: seq<Candidate>): seq<Candidate> {
    if examined == [] then []
    else
      var last := examined[|examined| - 1];
      Hits(cfg, examined[..|examined| - 1]) + (if Hit(cfg, last) then [last] else [])
  }

  lemma {:induction false} NoHits(cfg: Config, examined: seq<Candidate>)
    requires forall k :: 0 <= k < |examined| ==> !Hit(cfg, examined[k])
    ensures Hits(cfg, examined) == []
  {
    if examined != [] {
      NoHits(cfg, examined[..|examined| - 1]);
    }
  }

  /**
   At any moment at which thread `i` is not just about to print, what it has reported is
   exactly those of the candidates it examined whose address contains every target. There
   is never more than one of them, and every examined key had passed its own check.
   */
  lemma ReportsAreTheHits(cfg: Config, schedule: seq<Event>, i: nat)
    requires i < cfg.workers && !Run(cfg, schedule).workers[i].pc.Report?
    ensures var s := Run(cfg, schedule);
            && ReportsOf(s.log, i) == Hits(cfg, s.workers[i].examined)
            && |ReportsOf(s.log, i)| <= 1
            && forall c :: c in ReportsOf(s.log, i) ==> c.verified && Hit(cfg, c)
  {
    ReachableIsInv(cfg, schedule);
    ExaminedMeansHits(cfg, Run(cfg, schedule), i);
  }

  lemma ExaminedMeansHits(cfg: Config, s: State, i: nat)
    requires Shaped(cfg, s) && i < cfg.workers && ExaminedOk(cfg, s, i) && !s.workers[i].pc.Report?
    ensures ReportsOf(s.log, i) == Hits(cfg, s.workers[i].examined)
    ensures |ReportsOf(s.log, i)| <= 1
    ensures forall c :: c in ReportsOf(s.log, i) ==> c.verified && Hit(cfg, c)
  {
    var w := s.workers[i];
    if HasHit(w.pc) {
      HitAtEnd(cfg, w.examined);
    } else {
      NoHits(cfg, w.examined);
    }
  }

  lemma HitAtEnd(cfg: Config, examined: seq<Candidate>)
    requires examined != [] && Hit(cfg, examined[|examined| - 1])
    requires forall k :: 0 <= k < |examined| - 1 ==> !Hit(cfg, examined[k])
    ensures Hits(cfg, examined) == [examined[|examined| - 1]]
  {
    NoHits(cfg, examined[..|examined| - 1]);
  }

  /** For a `findaddress` command, a reported address contains every target in the chosen mode. */
  lemma ReportedAddressMatches(targets: seq<string>, isCase: bool, upper: char -> char, workers: nat,
                               schedule: seq<Event>, i: nat, c: Candidate)
    requires i < workers && c in ReportsOf(Run(Command(targets, isCase, upper, workers), schedule).log, i)
    ensures targets != [] && forall target :: target in targets ==> Contains(c.address, target, isCase, upper)
  {
    var cfg := Command(targets, isCase, upper, workers);
    ReachableIsInv(cfg, schedule);
    assert ExaminedOk(cfg, Run(cfg, schedule), i);
    assert Hit(cfg, c) && cfg.accepts(c.address) == Accepts(c.address, targets, isCase, upper);
  }

  // ---------- no find is passed over ----------

  /** The keys thread `i` has made in a run, in order. */
  function KeysMade(cfg: Config, schedule: seq<Event>, i: nat): seq<Candidate>
    requires i < cfg.workers
  {
    if schedule == [] then []
    else
      var init, e := schedule[..|schedule| - 1], schedule[|schedule| - 1];
      KeysMade(cfg, init, i)
      + (if e.Work? && e.thread == i && Run(cfg, init).workers[i].pc.Make? then [e.key] else [])
  }

  /** The key a thread has made and not matched. */
  function InHand(w: Worker): seq<Candidate> {
    if w.pc.Match? || w.pc.Complain? || w.pc == Exited(Unverified) then [w.candidate] else []
  }

  lemma WorkStepHands(cfg: Config, s: State, i: nat, key: Candidate)
    requires Shaped(cfg, s) && i < cfg.workers
    ensures var w, w' := s.workers[i], WorkStep(cfg, s, i, key).workers[i];
            w'.examined + InHand(w') == w.examined + InHand(w) + (if w.pc.Make? then [key] else [])
  {
  }

  lemma OthersHands(cfg: Config, s: State, e: Event, i: nat)
    requires Shaped(cfg, s) && i < cfg.workers && PhaseOk(s, i) && (e.Work? ==> e.thread != i)
    ensures var w, w' := s.workers[i], Step(cfg, s, e).workers[i];
            w'.examined + InHand(w') == w.examined + InHand(w)
  {
  }

  lemma LastStep(cfg: Config, schedule: seq<Event>)
    requires schedule != []
    ensures Run(cfg, schedule) == Step(cfg, Run(cfg, schedule[..|schedule| - 1]), schedule[|schedule| - 1])
  {
  }

  /** Every key a thread makes it goes on to match, unless it leaves because of it. */
  lemma {:induction false} MadeKeysAreExamined(cfg: Config, schedule: seq<Event>, i: nat)
    requires i < cfg.workers
    ensures var w := Run(cfg, schedule).workers[i]; KeysMade(cfg, schedule, i) == w.examined + InHand(w)
  {
    if schedule != [] {
      var init, e := schedule[..|schedule| - 1], schedule[|schedule| - 1];
      MadeKeysAreExamined(cfg, init, i);
      LastStep(cfg, schedule);
      ReachableIsInv(cfg, init);
      assert PhaseOk(Run(cfg, init), i);
      if e.Work? && e.thread == i {
        WorkStepHands(cfg, Run(cfg, init), i, e.key);
      } else {
        OthersHands(cfg, Run(cfg, init), e, i);
        assert KeysMade(cfg, init, i) + [] == KeysMade(cfg, init, i);
      }
    }
  }

  lemma {:induction false} HitsContain(cfg: Config, examined: seq<Candidate>, c: Candidate)
    ensures c in Hits(cfg, examined) <==> c in examined && Hit(cfg, c)
  {
    if examined != [] {
      HitsContain(cfg, examined[..|examined| - 1], c);
      assert examined == examined[..|examined| - 1] + [examined[|examined| - 1]];
    }
  }

  /**
   When thread `i` is neither matching a key nor about to print it, it has reported exactly
   those keys it made that passed their check and whose address contains every target.
   */
  lemma ReportedIffFound(cfg: Config, schedule: seq<Event>, i: nat, c: Candidate)
    requires i < cfg.workers
    requires var pc := Run(cfg, schedule).workers[i].pc; !pc.Match? && !pc.Report?
    ensures c in ReportsOf(Run(cfg, schedule).log, i) <==> c in KeysMade(cfg, schedule, i) && c.verified && Hit(cfg, c)
  {
    var w := Run(cfg, schedule).workers[i];
    ReportsAreTheHits(cfg, schedule, i);
    MadeKeysAreExamined(cfg, schedule, i);
    HitsContain(cfg, w.examined, c);
    ReachableIsInv(cfg, schedule);
    assert ExaminedOk(cfg, Run(cfg, schedule), i);
    assert c in w.examined + InHand(w) <==> c in w.examined || c in InHand(w);
  }

  // ---------- what the end of the command means ----------

  /** When `FindAddress` returns, every thread that counted a find has reported it once. */
  lemma EveryFindIsReported(cfg: Config, schedule: seq<Event>)
    requires Done(cfg, Run(cfg, schedule))
    ensures var s := Run(cfg, schedule);
            Reports(s.log) == Count(ReportedFlags(s.workers)) == Stores(s.counter)
  {
    var s := Run(cfg, schedule);
    ReachableIsInv(cfg, schedule);
    assert forall i :: 0 <= i < cfg.workers ==> PhaseOk(s, i) && s.workers[i].pc.Exited?;
    assert ReportedFlags(s.workers) == StoredFlags(s.counter.phases);
  }

  /** Nothing was reported exactly when every thread left because a key failed its check. */
  lemma NothingFoundIff(cfg: Config, schedule: seq<Event>)
    requires Done(cfg, Run(cfg, schedule))
    ensures var s := Run(cfg, schedule);
            Reports(s.log) == 0 <==> forall i :: 0 <= i < cfg.workers ==> s.workers[i].pc == Exited(Unverified)
  {
    var s := Run(cfg, schedule);
    ReachableIsInv(cfg, schedule);
    EveryFindIsReported(cfg, schedule);
    CountBounds(ReportedFlags(s.workers));
    if Reports(s.log) == 0 {
      assert s.counter.value == 0;
      forall i | 0 <= i < cfg.workers
        ensures s.workers[i].pc == Exited(Unverified)
      {
        assert PhaseOk(s, i) && !ReportedFlags(s.workers)[i];
        assert s.workers[i].pc.Exited? && !HasReported(s.workers[i].pc);
        match s.workers[i].pc.reason
        case Beaten => assert false;
        case Unverified =>
        case Found => assert false;
      }
    } else {
      var i :| 0 <= i < cfg.workers && ReportedFlags(s.workers)[i];
      assert s.workers[i].pc == Exited(Found);
    }
  }

  /** At any moment of any run the shared counter tracks the threads that have counted. */
  lemma CounterTracksFinders(cfg: Config, schedule: seq<Event>)
    ensures TracksFinders(Run(cfg, schedule).counter)
  {
    ReachableIsInv(cfg, schedule);
    ConsistentTracksFinders(Run(cfg, schedule).counter);
  }

  /** The closing congratulations may follow no find at all: a single thread whose key fails. */
  lemma EmptyCongratulations(accepts: string -> bool, key: Candidate)
    requires !key.verified
    ensures var s := Run(Config(accepts, 1), [Main, Work(0, key), Work(0, key), Work(0, key), Main, Main]);
            Done(Config(accepts, 1), s) && s.log == [VerifyFailed(0), Congratulations]
  {
    var cfg := Config(accepts, 1);
    var e2, e4 := [Main, Work(0, key)], [Main, Work(0, key), Work(0, key), Work(0, key)];
    KeyFails(cfg, key);
    Schedules.RunTwo(Machine(cfg), Start(cfg), [], Main, Work(0, key));
    assert [] + e2 == e2;
    Schedules.RunTwo(Machine(cfg), Start(cfg), e2, Work(0, key), Work(0, key));
    assert e2 + [Work(0, key), Work(0, key)] == e4;
    Schedules.RunTwo(Machine(cfg), Start(cfg), e4, Main, Main);
    assert e4 + [Main, Main] == [Main, Work(0, key), Work(0, key), Work(0, key), Main, Main];
  }

  /** The single thread starts, makes a key that fails, complains and leaves. */
  lemma KeyFails(cfg: Config, key: Candidate)
    requires cfg.workers == 1 && !key.verified
    ensures var polled := Step(cfg, Step(cfg, Start(cfg), Main), Work(0, key));
            var left := Step(cfg, Step(cfg, polled, Work(0, key)), Work(0, key));
            && left.workers[0].pc == Exited(Unverified) && left.spawned == 1 && left.joined == 0 && !left.announced
            && left.log == [VerifyFailed(0)]
  {
  }

  // ---------- bounded shutdown ----------

  function Rank(pc: Pc): nat {
    match pc
    case Unborn => 6
    case Make => 5
    case Match => 4
    case Report => 3
    case Loading => 2
    case Storing | Poll | Complain => 1
    case Exited(_) => 0
  }

  function Ranks(ws: seq<Worker>): seq<nat> {
    seq(|ws|, i requires 0 <= i < |ws| => Rank(ws[i].pc))
  }

  function StepsLeft(cfg: Config, s: State): nat {
    Sum(Ranks(s.workers)) + Schedules.Missing(cfg.workers, s.joined) + Bit(!s.announced)
  }

  lemma RanksUpdate(ws: seq<Worker>, i: nat, w: Worker)
    requires i < |ws|
    ensures Sum(Ranks(ws[i := w])) + Rank(ws[i].pc) == Sum(Ranks(ws)) + Rank(w.pc)
  {
    SumUpdate(Ranks(ws), i, Rank(w.pc));
    assert Ranks(ws[i := w]) == Ranks(ws)[i := Rank(w.pc)];
  }

  lemma RankDecreases(cfg: Config, s: State, i: nat, key: Candidate)
    requires Shaped(cfg, s) && i < cfg.workers && s.counter.value > 0
    ensures var s' := WorkStep(cfg, s, i, key);
            s' == s || Rank(s'.workers[i].pc) < Rank(s.workers[i].pc)
  {
  }

  /** Once the counter is positive, every step that changes anything brings the end nearer. */
  lemma StepsLeftDecreases(cfg: Config, s: State, e: Event)
    requires Inv(cfg, s) && s.counter.value > 0
    ensures Step(cfg, s, e) == s || StepsLeft(cfg, Step(cfg, s, e)) < StepsLeft(cfg, s)
    ensures Inv(cfg, Step(cfg, s, e)) && Step(cfg, s, e).counter.value > 0
  {
    StepKeepsInv(cfg, s, e);
    var s' := Step(cfg, s, e);
    match e
    case Main =>
      if s.spawned < cfg.workers {
        assert PhaseOk(s, s.spawned);
        RanksUpdate(s.workers, s.spawned, s'.workers[s.spawned]);
      }
    case Work(i, key) =>
      if i < cfg.workers {
        assert PhaseOk(s, i);
        WorkStepFrame(cfg, s, i, key);
        RankDecreases(cfg, s, i, key);
        RanksUpdate(s.workers, i, s'.workers[i]);
      }
  }

  ghost predicate Stopping(cfg: Config, s: State) {
    Inv(cfg, s) && s.counter.value > 0
  }

  lemma StoppingDescends(cfg: Config)
    ensures Schedules.Descends(Machine(cfg), s => Stopping(cfg, s), s => StepsLeft(cfg, s))
  {
    forall s: State, e: Event | Stopping(cfg, s)
      ensures Stopping(cfg, Step(cfg, s, e))
      ensures Step(cfg, s, e) == s || StepsLeft(cfg, Step(cfg, s, e)) < StepsLeft(cfg, s)
    {
      StepsLeftDecreases(cfg, s, e);
    }
  }

  /** From a positive counter on, at most 7 steps per thread and one more remain, in any schedule. */
  lemma BoundedShutdown(cfg: Config, s: State, schedule: seq<Event>)
    requires Inv(cfg, s) && s.counter.value > 0
    ensures Inv(cfg, RunFrom(cfg, s, schedule)) && RunFrom(cfg, s, schedule).counter.value > 0
    ensures Schedules.Moves(Machine(cfg), s, schedule) + StepsLeft(cfg, RunFrom(cfg, s, schedule))
         <= StepsLeft(cfg, s) <= 7 * cfg.workers + 1
  {
    StoppingDescends(cfg);
    SumBound(Ranks(s.workers), 6);
    Schedules.MovesBounded(Machine(cfg), t => Stopping(cfg, t), t => StepsLeft(cfg, t), s, schedule);
  }

  /** From a positive counter on, at most the steps left lead to the end of the command. */
  lemma EndIsReached(cfg: Config, s: State) returns (schedule: seq<Event>)
    requires Inv(cfg, s) && s.counter.value > 0
    ensures |schedule| <= StepsLeft(cfg, s) && Done(cfg, RunFrom(cfg, s, schedule))
  {
    StoppingDescends(cfg);
    forall t | Stopping(cfg, t) && !Done(cfg, t)
      ensures Schedules.CanMove(Machine(cfg), t)
    {
      NoDeadlock(cfg, t);
      var e :| Step(cfg, t, e) != t;
      assert Machine(cfg)(t, e) != t;
    }
    schedule := Schedules.EndIsReached(Machine(cfg), t => Stopping(cfg, t), t => StepsLeft(cfg, t),
                                       t => Done(cfg, t), s);
  }

  lemma ThreadCanMove(cfg: Config, s: State, i: nat, key: Candidate)
    requires Shaped(cfg, s) && i < cfg.workers && PhaseOk(s, i) && i < s.spawned && !s.workers[i].pc.Exited?
    ensures Step(cfg, s, Work(i, key)) != s
  {
    assert WorkStep(cfg, s, i, key).workers[i].pc != s.workers[i].pc;
  }

  /** Before the end some thread can always move. */
  lemma NoDeadlock(cfg: Config, s: State)
    requires Inv(cfg, s) && !Done(cfg, s)
    ensures exists e :: Step(cfg, s, e) != s
  {
    if s.spawned < cfg.workers || s.joined == cfg.workers || s.workers[s.joined].pc.Exited? {
      assert Step(cfg, s, Main) != s;
    } else {
      ThreadCanMove(cfg, s, s.joined, Candidate(0, "", false));
    }
  }

  /** A thread that has already polled still examines one candidate; any other examines none. */
  function Ceiling(w: Worker): nat {
    |w.examined| + (if w.pc.Make? || w.pc.Match? then 1 else 0)
  }

  lemma CeilingKept(cfg: Config, s: State, e: Event, i: nat)
    requires Shaped(cfg, s) && s.counter.value > 0 && i < cfg.workers
    ensures Ceiling(Step(cfg, s, e).workers[i]) <= Ceiling(s.workers[i])
  {
    if e.Work? && e.thread < cfg.workers && e.thread != i {
      assert Step(cfg, s, e).workers[i] == s.workers[i];
    }
  }

  /** Once the counter is positive, no thread examines more than one further candidate. */
  lemma {:induction false} AtMostOneMoreCandidate(cfg: Config, s: State, schedule: seq<Event>, i: nat)
    requires Inv(cfg, s) && s.counter.value > 0 && i < cfg.workers
    ensures |RunFrom(cfg, s, schedule).workers[i].examined| <= Ceiling(RunFrom(cfg, s, schedule).workers[i])
         <= Ceiling(s.workers[i]) <= |s.workers[i].examined| + 1
  {
    if schedule != [] {
      var init, e := schedule[..|schedule| - 1], schedule[|schedule| - 1];
      AtMostOneMoreCandidate(cfg, s, init, i);
      BoundedShutdown(cfg, s, init);
      CeilingKept(cfg, RunFrom(cfg, s, init), e, i);
      assert RunFrom(cfg, s, schedule) == Step(cfg, RunFrom(cfg, s, init), e);
    }
  }
}
