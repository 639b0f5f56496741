/**
 The address search as a program that updates its memory in place: the result counter, the
 output and each thread's own variables. The history the state machine keeps is ghost here,
 and `State` reads the machine's state off both.
 */
module AddressRun {
  import opened RacyCounter
  import opened Substring
  import opened AddressSearch
  import opened AddressTheorems
  import Schedules

  /** A thread's position and variables; `read` is the counter value it is about to raise. */
  datatype Thread = Thread(pc: Pc, candidate: Candidate, read: nat)

  /** What the proofs remember of a thread. */
  datatype Past = Past(stores: nat, examined: seq<Candidate>)

  ghost function WorkerOf(t: Thread, h: Past): Worker {
    Worker(t.pc, t.candidate, h.examined)
  }

  ghost function PhaseOf(t: Thread, h: Past): Phase {
    if t.pc.Storing? then Loaded(t.read, h.stores) else if t.pc == Exited(Found) then Stored else Idle
  }

  ghost function WorkersOf(ts: seq<Thread>, hs: seq<Past>): seq<Worker>
    requires |ts| == |hs|
  {
    seq(|ts|, i requires 0 <= i < |ts| => WorkerOf(ts[i], hs[i]))
  }

  ghost function PhasesOf(ts: seq<Thread>, hs: seq<Past>): seq<Phase>
    requires |ts| == |hs|
  {
    seq(|ts|, i requires 0 <= i < |ts| => PhaseOf(ts[i], hs[i]))
  }

  lemma ThreadMoves(ts: seq<Thread>, hs: seq<Past>, i: nat, t: Thread, h: Past)
    requires i < |ts| == |hs|
    ensures WorkersOf(ts[i := t], hs[i := h]) == WorkersOf(ts, hs)[i := WorkerOf(t, h)]
    ensures PhasesOf(ts[i := t], hs[i := h]) == PhasesOf(ts, hs)[i := PhaseOf(t, h)]
  {
  }

  lemma NextIsUnborn(cfg: Config, s: State)
    requires Inv(cfg, s)
    ensures s.spawned < cfg.workers ==> s.workers[s.spawned].pc.Unborn?
  {
    assert s.spawned < cfg.workers ==> PhaseOk(s, s.spawned);
  }

  class SearchMemory {
    const vTarget: seq<string>
    const isCase: bool
    const upper: char -> char
    const cpus: nat
    var result: nat
    var out: seq<Line>
    var threads: seq<Thread>
    var spawned: nat
    var joined: nat
    var announced: bool
    ghost var raced: bool
    ghost var past: seq<Past>

    ghost function Cfg(): Config {
      Command(vTarget, isCase, upper, cpus)
    }

    ghost predicate Sized()
      reads this
    {
      |threads| == |past| == cpus
    }

    ghost function State(): (s: State)
      requires Sized()
      reads this
      ensures Shaped(Cfg(), s)
    {
      AddressSearch.State(spawned, joined, announced, Counter(result, PhasesOf(threads, past), raced), out,
                          WorkersOf(threads, past))
    }

    ghost predicate Valid()
      reads this
    {
      Sized() && Inv(Cfg(), State())
    }

    constructor (vTarget: seq<string>, isCase: bool, upper: char -> char, cpus: nat)
      ensures Cfg() == Command(vTarget, isCase, upper, cpus)
      ensures Valid() && State() == Start(Cfg())
    {
      this.vTarget, this.isCase, this.upper, this.cpus := vTarget, isCase, upper, cpus;
      result, out, spawned, joined, announced := 0, [], 0, 0, false;
      threads := seq(cpus, _ => Thread(Unborn, Candidate(0, "", false), 0));
      raced, past := false, seq(cpus, _ => Past(0, []));
      new;
      StartKeepsInv(Cfg());
      assert WorkersOf(threads, past) == Start(Cfg()).workers;
      assert PhasesOf(threads, past) == Fresh(cpus).phases;
    }

    /** The main thread's next action. */
    method Commander()
      requires Valid()
      modifies this
      ensures Valid() && State() == MainStep(Cfg(), old(State()))
    {
      StepKeepsInv(Cfg(), State(), Main);
      NextIsUnborn(Cfg(), State());
      Proceed();
    }

    method Proceed()
      requires Sized() && (spawned < |threads| ==> threads[spawned].pc.Unborn?)
      modifies this`threads, this`spawned, this`joined, this`announced, this`out
      ensures Sized() && State() == MainStep(Cfg(), old(State()))
    {
      if spawned < |threads| {
        StartThread();
      } else if joined < |threads| {
        if threads[joined].pc.Exited? {
          joined := joined + 1;
        }
      } else if !announced {
        out := out + [Congratulations];
        announced := true;
      }
    }

    method StartThread()
      requires Sized() && spawned < |threads| && threads[spawned].pc.Unborn?
      modifies this`threads, this`spawned
      ensures Sized() && State() == MainStep(Cfg(), old(State()))
    {
      ThreadMoves(threads, past, spawned, threads[spawned].(pc := Poll), past[spawned]);
      assert past[spawned := past[spawned]] == past;
      threads := threads[spawned := threads[spawned].(pc := Poll)];
      spawned := spawned + 1;
    }

    /** Search thread `i`'s next action; `key` is the key it makes, if it makes one. */
    method Searcher(i: nat, key: Candidate)
      requires Valid() && i < |threads|
      modifies this
      ensures Valid() && State() == WorkStep(Cfg(), old(State()), i, key)
    {
      WorkStepKeepsInv(Cfg(), State(), i, key);
      var pc := threads[i].pc;
      if pc.Poll? || pc.Make? || pc.Complain? {
        Prepare(i, key);
      } else if pc.Match? || pc.Report? {
        MatchAndReport(i, key);
      } else if pc.Loading? || pc.Storing? {
        Count(i, key);
      }
    }

    /** The loop's poll, and making and checking a key. */
    method Prepare(i: nat, key: Candidate)
      requires Sized() && i < |threads| && (threads[i].pc.Poll? || threads[i].pc.Make? || threads[i].pc.Complain?)
      modifies this`threads, this`out
      ensures Sized() && State() == WorkStep(Cfg(), old(State()), i, key)
    {
      var t := threads[i];
      if t.pc.Poll? {
        t := t.(pc := if result == 0 then Make else Exited(Beaten));
      } else if t.pc.Make? {
        t := t.(pc := if key.verified then Match else Complain, candidate := key);
      } else {
        out, t := out + [VerifyFailed(i)], t.(pc := Exited(Unverified));
      }
      ThreadMoves(threads, past, i, t, past[i]);
      assert past[i := past[i]] == past;
      threads := threads[i := t];
    }

    /** Matching the address against all targets, and reporting it. */
    method MatchAndReport(i: nat, key: Candidate)
      requires Sized() && i < |threads| && (threads[i].pc.Match? || threads[i].pc.Report?)
      modifies this`threads, this`past, this`out
      ensures Sized() && State() == WorkStep(Cfg(), old(State()), i, key)
    {
      var t := threads[i];
      ghost var h := past[i];
      if t.pc.Match? {
        var report := MatchTargets(t.candidate.address, vTarget, isCase, upper);
        t := t.(pc := if report then Report else Poll);
        h := h.(examined := h.examined + [t.candidate]);
      } else {
        out, t := out + [Target(i, t.candidate)], t.(pc := Loading);
      }
      ThreadMoves(threads, past, i, t, h);
      threads, past := threads[i := t], past[i := h];
    }

    /** The two halves of the increment. */
    method Count(i: nat, key: Candidate)
      requires Sized() && i < |threads| && (threads[i].pc.Loading? || threads[i].pc.Storing?)
      modifies this`threads, this`past, this`result, this`raced
      ensures Sized() && State() == WorkStep(Cfg(), old(State()), i, key)
    {
      var t := threads[i];
      ghost var h, stores := past[i], Stores(State().counter);
      if t.pc.Loading? {
        t := t.(pc := Storing, read := result);
        h := h.(stores := stores);
      } else {
        t := t.(pc := Exited(Found));
        result := t.read + 1;
        raced := raced || h.stores != stores;
      }
      ThreadMoves(threads, past, i, t, h);
      threads, past := threads[i := t], past[i := h];
    }

    /** Runs a whole schedule, that is, one interleaving of the threads. */
    method Execute(schedule: seq<Event>)
      requires Valid()
      modifies this
      ensures Valid() && State() == RunFrom(Cfg(), old(State()), schedule)
    {
      ghost var start := State();
      for n := 0 to |schedule|
        invariant Valid() && State() == RunFrom(Cfg(), start, schedule[..n])
      {
        Schedules.RunExtend(Machine(Cfg()), start, schedule[..n], schedule[n]);
        assert schedule[..n] + [schedule[n]] == schedule[..n + 1];
        match schedule[n]
        case Main => Commander();
        case Work(i, key) =>
          if i < |threads| {
            Searcher(i, key);
          }
      }
      assert schedule[..|schedule|] == schedule;
    }
  }

  lemma {:induction false} TargetIsReported(log: seq<Line>, n: nat)
    requires n < |log| && log[n].Target?
    ensures log[n].candidate in ReportsOf(log, log[n].owner)
  {
    if n < |log| - 1 {
      TargetIsReported(log[..|log| - 1], n);
    }
  }

  lemma {:induction false} ComplaintIsInOutput(log: seq<Line>, i: nat)
    ensures Complaints(log, i) > 0 <==> VerifyFailed(i) in log
  {
    if log != [] {
      ComplaintIsInOutput(log[..|log| - 1], i);
      assert log == log[..|log| - 1] + [log[|log| - 1]];
    }
  }

  lemma {:induction false} NoReportsMeansNoTarget(log: seq<Line>)
    ensures Reports(log) == 0 <==> forall n :: 0 <= n < |log| ==> !log[n].Target?
  {
    if log != [] {
      NoReportsMeansNoTarget(log[..|log| - 1]);
    }
  }

  /** Only keys that passed their own check and match all targets are reported. */
  lemma TargetMatches(cfg: Config, s: State, n: nat)
    requires Inv(cfg, s) && n < |s.log| && s.log[n].Target?
    ensures var c := s.log[n].candidate; c.verified && Hit(cfg, c)
  {
    var i := s.log[n].owner;
    assert s.log[n] in s.log;
    TargetIsReported(s.log, n);
    assert ExaminedOk(cfg, s, i);
  }

  /**
   Every reported key passed its check, and its address contains every target: as it stands,
   or once both are upper-cased.
   */
  ghost predicate AllReportsMatch(out: seq<Line>, vTarget: seq<string>, isCase: bool, upper: char -> char) {
    && (forall n :: 0 <= n < |out| && out[n].Target? ==>
          out[n].candidate.verified && Accepts(out[n].candidate.address, vTarget, isCase, upper))
    && (isCase ==> forall n, target :: 0 <= n < |out| && out[n].Target? && target in vTarget ==>
          exists before: string, after: string :: out[n].candidate.address == before + target + after)
    && (!isCase ==> forall n, target :: 0 <= n < |out| && out[n].Target? && target in vTarget ==>
          exists before: string, after: string ::
            MapString(out[n].candidate.address, upper) == before + MapString(target, upper) + after)
  }

  lemma ReportsMatch(vTarget: seq<string>, isCase: bool, upper: char -> char, cpus: nat, schedule: seq<Event>)
    ensures AllReportsMatch(Run(Command(vTarget, isCase, upper, cpus), schedule).log, vTarget, isCase, upper)
  {
    var cfg := Command(vTarget, isCase, upper, cpus);
    var s := Run(cfg, schedule);
    ReachableIsInv(cfg, schedule);
    forall n | 0 <= n < |s.log| && s.log[n].Target?
      ensures s.log[n].candidate.verified && Accepts(s.log[n].candidate.address, vTarget, isCase, upper)
    {
      TargetMatches(cfg, s, n);
    }
    AcceptedReportsMatch(s.log, vTarget, isCase, upper);
  }

  lemma AcceptedReportsMatch(out: seq<Line>, vTarget: seq<string>, isCase: bool, upper: char -> char)
    requires forall n :: 0 <= n < |out| && out[n].Target? ==>
               out[n].candidate.verified && Accepts(out[n].candidate.address, vTarget, isCase, upper)
    ensures AllReportsMatch(out, vTarget, isCase, upper)
  {
    forall n, target | isCase && 0 <= n < |out| && out[n].Target? && target in vTarget
      ensures exists before: string, after: string :: out[n].candidate.address == before + target + after
    {
      AcceptsIff(out[n].candidate.address, vTarget, isCase, upper);
    }
    forall n, target | !isCase && 0 <= n < |out| && out[n].Target? && target in vTarget
      ensures exists before: string, after: string ::
                MapString(out[n].candidate.address, upper) == before + MapString(target, upper) + after
    {
      AcceptsIff(out[n].candidate.address, vTarget, isCase, upper);
    }
  }

  lemma {:induction false} ReportsAreInOutput(log: seq<Line>, i: nat, c: Candidate)
    ensures c in ReportsOf(log, i) <==> Target(i, c) in log
  {
    if log != [] {
      ReportsAreInOutput(log[..|log| - 1], i, c);
      assert log == log[..|log| - 1] + [log[|log| - 1]];
    }
  }

  /** The output reports exactly the keys made that passed their check and match. */
  ghost predicate ReportsAllFinds(cfg: Config, schedule: seq<Event>, out: seq<Line>) {
    forall i, c :: 0 <= i < cfg.workers ==>
      (Target(i, c) in out <==> c in KeysMade(cfg, schedule, i) && c.verified && Hit(cfg, c))
  }

  lemma DoneReportsAllFinds(cfg: Config, schedule: seq<Event>)
    requires Done(cfg, Run(cfg, schedule))
    ensures ReportsAllFinds(cfg, schedule, Run(cfg, schedule).log)
  {
    var s := Run(cfg, schedule);
    ReachableIsInv(cfg, schedule);
    forall i, c | 0 <= i < cfg.workers
      ensures Target(i, c) in s.log <==> c in KeysMade(cfg, schedule, i) && c.verified && Hit(cfg, c)
    {
      assert s.workers[i].pc.Exited?;
      ReportedIffFound(cfg, schedule, i, c);
      ReportsAreInOutput(s.log, i, c);
    }
  }

  /** The output complains of a thread's key exactly if the thread left because of it. */
  lemma ComplaintsTell(cfg: Config, schedule: seq<Event>)
    ensures var s := Run(cfg, schedule);
            forall i :: 0 <= i < cfg.workers ==>
              (s.workers[i].pc == Exited(Unverified) <==> VerifyFailed(i) in s.log)
  {
    var s := Run(cfg, schedule);
    ReachableIsInv(cfg, schedule);
    forall i | 0 <= i < cfg.workers
      ensures s.workers[i].pc == Exited(Unverified) <==> VerifyFailed(i) in s.log
    {
      assert ComplaintOk(s, i);
      ComplaintIsInOutput(s.log, i);
    }
  }

  /**
   The whole command, whatever the interleaving: every reported address contains all targets
   and has a key that passed its check. When the command returns it has congratulated, and
   it has reported nothing exactly if every thread left because of a key that failed.
   */
  method FindAddress(vTarget: seq<string>, isCase: bool, upper: char -> char, cpus: nat, schedule: seq<Event>)
    returns (returned: bool, out: seq<Line>, left: seq<Pc>)
    ensures var cfg := Command(vTarget, isCase, upper, cpus); returned <==> Done(cfg, Run(cfg, schedule))
    ensures AllReportsMatch(out, vTarget, isCase, upper)
    ensures returned ==> ReportsAllFinds(Command(vTarget, isCase, upper, cpus), schedule, out)
    ensures returned ==> Congratulations in out
    ensures |left| == cpus
    ensures forall i :: 0 <= i < cpus ==> (left[i] == Exited(Unverified) <==> VerifyFailed(i) in out)
    ensures returned ==>
              ((forall n :: 0 <= n < |out| ==> !out[n].Target?)
               <==> forall i :: 0 <= i < cpus ==> left[i] == Exited(Unverified))
  {
    var memory := new SearchMemory(vTarget, isCase, upper, cpus);
    memory.Execute(schedule);
    returned := memory.spawned == cpus && memory.joined == cpus && memory.announced;
    out := memory.out;
    var threads := memory.threads;
    left := seq(cpus, i requires 0 <= i < cpus => threads[i].pc);
    ghost var cfg := Command(vTarget, isCase, upper, cpus);
    ghost var s := Run(cfg, schedule);
    assert memory.State() == s;
    ReportsMatch(vTarget, isCase, upper, cpus, schedule);
    ComplaintsTell(cfg, schedule);
    assert forall i :: 0 <= i < cpus ==> left[i] == s.workers[i].pc;
    if returned {
      DoneReportsAllFinds(cfg, schedule);
      NothingFoundIff(cfg, schedule);
      NoReportsMeansNoTarget(out);
    }
  }
}
