/**
 The parallel address search (`FindAddress` and `_getaddress` in common/keytool.cpp) as a
 state machine. Here the threads poll the shared counter before each candidate, print
 without a mutex, and may leave early when a fresh key fails its own check.
 */
module AddressSearch {
  import opened Counting
  import opened RacyCounter
  import opened Substring
  import Schedules

  /** `accepts` decides whether an address contains every target. */
  datatype Config = Config(accepts: string -> bool, workers: nat)

  /** The search that one `findaddress` command runs. */
  function Command(targets: seq<string>, isCase: bool, upper: char -> char, workers: nat): Config {
    Config(address => Accepts(address, targets, isCase, upper), workers)
  }

  /** A fresh key: its address, and whether `VerifyPubKey` passes. */
  datatype Candidate = Candidate(secret: nat, address: string, verified: bool)

  datatype Reason = Beaten | Unverified | Found

  datatype Pc = Unborn | Poll | Make | Complain | Match | Report | Loading | Storing | Exited(reason: Reason)

  /** `examined` is history: the candidates matched against the targets so far. */
  datatype Worker = Worker(pc: Pc, candidate: Candidate, examined: seq<Candidate>)

  datatype Line = VerifyFailed(owner: nat) | Target(owner: nat, candidate: Candidate) | Congratulations

  datatype State = State(spawned: nat, joined: nat, announced: bool, counter: Counter, log: seq<Line>,
                         workers: seq<Worker>)

  /** The main thread moves, or a search thread does; `key` is the fresh key it makes, if it makes one. */
  datatype Event = Main | Work(thread: nat, key: Candidate)

  predicate Hit(cfg: Config, c: Candidate) {
    cfg.accepts(c.address)
  }

  predicate Shaped(cfg: Config, s: State) {
    |s.workers| == |s.counter.phases| == cfg.workers
  }

  function Start(cfg: Config): (s: State)
    ensures Shaped(cfg, s)
  {
    State(0, 0, false, Fresh(cfg.workers), [], seq(cfg.workers, _ => Worker(Unborn, Candidate(0, "", false), [])))
  }

  function Put(s: State, i: nat, w: Worker): State
    requires i < |s.workers|
  {
    s.(workers := s.workers[i := w])
  }

  /** The main thread: start every thread, join them in order, then congratulate. */
  function MainStep(cfg: Config, s: State): (s': State)
    requires Shaped(cfg, s)
    ensures Shaped(cfg, s')
  {
    if s.spawned < cfg.workers then
      Put(s.(spawned := s.spawned + 1), s.spawned, s.workers[s.spawned].(pc := Poll))
    else if s.joined < cfg.workers then
      if s.workers[s.joined].pc.Exited? then s.(joined := s.joined + 1) else s
    else if !s.announced then
      s.(announced := true, log := s.log + [Congratulations])
    else
      s
  }

  function WorkStep(cfg: Config, s: State, i: nat, key: Candidate): (s': State)
    requires Shaped(cfg, s) && i < cfg.workers
    ensures Shaped(cfg, s')
  {
    var w := s.workers[i];
    match w.pc
    case Unborn => s
    case Poll => Put(s, i, w.(pc := if s.counter.value == 0 then Make else Exited(Beaten)))
    case Make => Put(s, i, w.(pc := if key.verified then Match else Complain, candidate := key))
    case Complain => Put(s.(log := s.log + [VerifyFailed(i)]), i, w.(pc := Exited(Unverified)))
    case Match =>
      Put(s, i, w.(pc := if Hit(cfg, w.candidate) then Report else Poll, examined := w.examined + [w.candidate]))
    case Report => Put(s.(log := s.log + [Target(i, w.candidate)]), i, w.(pc := Loading))
    case Loading => Put(s.(counter := Load(s.counter, i)), i, w.(pc := Storing))
    case Storing => Put(s.(counter := Store(s.counter, i)), i, w.(pc := Exited(Found)))
    case Exited(_) => s
  }

  function Step(cfg: Config, s: State, e: Event): (s': State)
    ensures Shaped(cfg, s) ==> Shaped(cfg, s')
  {
    if !Shaped(cfg, s) then s
    else
      match e
      case Main => MainStep(cfg, s)
      case Work(i, key) => if i < cfg.workers then WorkStep(cfg, s, i, key) else s
  }

  function Machine(cfg: Config): (State, Event) -> State {
    (s, e) => Step(cfg, s, e)
  }

  function RunFrom(cfg: Config, s: State, schedule: seq<Event>): (s': State)
    requires Shaped(cfg, s)
    ensures Shaped(cfg, s')
  {
    Schedules.RunKeeps(Machine(cfg), t => Shaped(cfg, t), s, schedule);
    Schedules.RunFrom(Machine(cfg), s, schedule)
  }

  function Run(cfg: Config, schedule: seq<Event>): (s: State)
    ensures Shaped(cfg, s)
  {
    RunFrom(cfg, Start(cfg), schedule)
  }

  /** `FindAddress` has joined every thread and printed its last line. */
  predicate Done(cfg: Config, s: State) {
    s.spawned == cfg.workers && s.joined == cfg.workers && s.announced
  }

  // ---------- the inductive invariant ----------

  /** The thread's latest candidate was accepted. */
  predicate HasHit(pc: Pc) {
    pc.Report? || pc.Loading? || pc.Storing? || pc == Exited(Found)
  }

  predicate HasReported(pc: Pc) {
    HasHit(pc) && !pc.Report?
  }

  function ReportedFlags(ws: seq<Worker>): seq<bool> {
    seq(|ws|, i requires 0 <= i < |ws| => HasReported(ws[i].pc))
  }

  /** The candidates thread `i` has reported, in order. */
  function ReportsOf(log: seq<Line>, i: nat): seq<Candidate> {
    if log == [] then []
    else
      var last := log[|log| - 1];
      ReportsOf(log[..|log| - 1], i) + (if last.Target? && last.owner == i then [last.candidate] else [])
  }

  /** How often thread `i` has complained of a key that failed its check. */
  function Complaints(log: seq<Line>, i: nat): nat {
    if log == [] then 0
    else Complaints(log[..|log| - 1], i) + Bit(log[|log| - 1] == VerifyFailed(i))
  }

  /** How many reports there are in all. */
  function Reports(log: seq<Line>): nat {
    if log == [] then 0 else Reports(log[..|log| - 1]) + Bit(log[|log| - 1].Target?)
  }

  ghost predicate MainOk(cfg: Config, s: State)
    requires Shaped(cfg, s)
  {
    && s.joined <= cfg.workers && s.spawned <= cfg.workers
    && (s.joined > 0 ==> s.spawned == cfg.workers)
    && (s.announced ==> s.spawned == s.joined == cfg.workers)
    && (forall i :: 0 <= i < s.joined ==> s.workers[i].pc.Exited?)
    && (Congratulations in s.log <==> s.announced)
  }

  ghost predicate PhaseOk(s: State, i: nat)
    requires i < |s.workers| && |s.counter.phases| == |s.workers|
  {
    var pc, phase := s.workers[i].pc, s.counter.phases[i];
    && (pc.Unborn? <==> i >= s.spawned)
    && (phase.Loaded? <==> pc.Storing?)
    && (phase.Stored? <==> pc == Exited(Found))
    && (pc == Exited(Beaten) ==> s.counter.value > 0)
  }

  /** What a thread has done with the candidates it examined. */
  ghost predicate ExaminedOk(cfg: Config, s: State, i: nat)
    requires i < |s.workers|
  {
    var w := s.workers[i];
    && (forall k :: 0 <= k < |w.examined| ==> w.examined[k].verified)
    && (forall k :: 0 <= k < |w.examined| && (HasHit(w.pc) ==> k < |w.examined| - 1) ==> !Hit(cfg, w.examined[k]))
    && (HasHit(w.pc) ==> w.examined != [] && w.examined[|w.examined| - 1] == w.candidate && Hit(cfg, w.candidate))
    && (w.pc.Match? ==> w.candidate.verified)
    && (w.pc.Complain? || w.pc == Exited(Unverified) ==> !w.candidate.verified)
    && ReportsOf(s.log, i) == (if HasReported(w.pc) then [w.candidate] else [])
  }

  /** A thread that left because of a failed key has complained of it once. */
  ghost predicate ComplaintOk(s: State, i: nat)
    requires i < |s.workers|
  {
    Complaints(s.log, i) == Bit(s.workers[i].pc == Exited(Unverified))
  }

  /** Only threads of this search report. */
  ghost predicate OwnersOk(cfg: Config, s: State) {
    forall line :: line in s.log && line.Target? ==> line.owner < cfg.workers
  }

  ghost predicate Inv(cfg: Config, s: State) {
    && Shaped(cfg, s)
    && Consistent(s.counter)
    && MainOk(cfg, s)
    && (forall i :: 0 <= i < cfg.workers ==> PhaseOk(s, i) && ExaminedOk(cfg, s, i))
    && Reports(s.log) == Count(ReportedFlags(s.workers))
    && OwnersOk(cfg, s)
    && (forall i :: 0 <= i < cfg.workers ==> ComplaintOk(s, i))
  }

  // ---------- every step keeps it ----------

  lemma StartKeepsInv(cfg: Config)
    ensures Inv(cfg, Start(cfg))
  {
    FreshIsConsistent(cfg.workers);
    CountBounds(ReportedFlags(Start(cfg).workers));
  }

  /** Between `s` and `s'` only thread `i`, the counter and the log have moved. */
  ghost predicate OnlyThread(cfg: Config, s: State, s': State, i: nat) {
    && Shaped(cfg, s) && Shaped(cfg, s') && i < cfg.workers
    && s'.spawned == s.spawned && s'.joined == s.joined && s'.announced == s.announced
    && s'.workers == s.workers[i := s'.workers[i]]
    && s'.counter.phases == s.counter.phases[i := s'.counter.phases[i]]
    && (s.counter.value > 0 ==> s'.counter.value > 0)
    && (s.workers[i].pc.Exited? ==> s'.workers[i] == s.workers[i])
    && (s'.log == s.log
        || s'.log == s.log + [LineOf(s, i)])
  }

  /** The line that thread `i` prints in the steps in which it prints one. */
  function LineOf(s: State, i: nat): Line
    requires i < |s.workers|
  {
    if s.workers[i].pc.Complain? then VerifyFailed(i) else Target(i, s.workers[i].candidate)
  }

  lemma WorkStepFrame(cfg: Config, s: State, i: nat, key: Candidate)
    requires Shaped(cfg, s) && i < cfg.workers && PhaseOk(s, i) && Consistent(s.counter)
    ensures OnlyThread(cfg, s, WorkStep(cfg, s, i, key), i)
    ensures Consistent(WorkStep(cfg, s, i, key).counter)
  {
    if s.workers[i].pc.Loading? {
      LoadKeepsConsistent(s.counter, i);
    } else if s.workers[i].pc.Storing? {
      StoreKeepsConsistent(s.counter, i);
    }
  }

  lemma ReportsOfExtend(log: seq<Line>, line: Line, j: nat)
    ensures ReportsOf(log + [line], j)
         == ReportsOf(log, j) + if line.Target? && line.owner == j then [line.candidate] else []
  {
    assert (log + [line])[..|log|] == log;
  }

  lemma OthersKeepReports(cfg: Config, s: State, s': State, i: nat, j: nat)
    requires OnlyThread(cfg, s, s', i) && j != i
    ensures ReportsOf(s'.log, j) == ReportsOf(s.log, j)
  {
    ReportsOfExtend(s.log, LineOf(s, i), j);
  }

  lemma OthersKeepOk(cfg: Config, s: State, s': State, i: nat, j: nat)
    requires OnlyThread(cfg, s, s', i) && j < cfg.workers && j != i
    requires PhaseOk(s, j) && ExaminedOk(cfg, s, j)
    ensures PhaseOk(s', j) && ExaminedOk(cfg, s', j)
  {
    OthersKeepReports(cfg, s, s', i, j);
    assert s'.workers[j] == s.workers[j];
  }

  lemma SelfKeepsPhase(cfg: Config, s: State, i: nat, key: Candidate)
    requires Shaped(cfg, s) && i < cfg.workers && PhaseOk(s, i)
    ensures PhaseOk(WorkStep(cfg, s, i, key), i)
  {
  }

  /** Adding a rejected candidate, an accepted one, or none at all. */
  lemma MatchKeepsExamined(cfg: Config, s: State, i: nat, key: Candidate)
    requires Shaped(cfg, s) && i < cfg.workers && ExaminedOk(cfg, s, i)
    requires s.workers[i].pc.Match?
    ensures ExaminedOk(cfg, WorkStep(cfg, s, i, key), i)
  {
  }

  /** Apart from matching, a thread's steps leave its examined candidates alone. */
  ghost predicate SameExamined(s: State, s': State, i: nat)
    requires i < |s.workers| && i < |s'.workers|
  {
    var w, w' := s.workers[i], s'.workers[i];
    && w'.examined == w.examined
    && HasHit(w'.pc) == HasHit(w.pc)
    && (HasHit(w.pc) ==> w'.candidate == w.candidate)
    && (w'.pc.Match? ==> w'.candidate.verified)
    && (w'.pc.Complain? || w'.pc == Exited(Unverified) ==> !w'.candidate.verified)
  }

  /** The log grows by one line exactly when a thread reports a find or a failed check. */
  ghost predicate LogGrows(s: State, s': State, i: nat)
    requires i < |s.workers| && i < |s'.workers|
  {
    var reports := s.workers[i].pc.Report?;
    && s'.log == s.log + (if reports || s.workers[i].pc.Complain? then [LineOf(s, i)] else [])
    && HasReported(s'.workers[i].pc) == (reports || HasReported(s.workers[i].pc))
    && (reports ==> !HasReported(s.workers[i].pc))
  }

  lemma WorkStepLog(cfg: Config, s: State, i: nat, key: Candidate)
    requires Shaped(cfg, s) && i < cfg.workers
    ensures LogGrows(s, WorkStep(cfg, s, i, key), i)
  {
    assert s.log + [] == s.log;
  }

  lemma WorkStepSameExamined(cfg: Config, s: State, i: nat, key: Candidate)
    requires Shaped(cfg, s) && i < cfg.workers
    requires var w := s.workers[i];
             !w.pc.Match? && (w.pc.Complain? || w.pc == Exited(Unverified) ==> !w.candidate.verified)
    ensures SameExamined(s, WorkStep(cfg, s, i, key), i)
  {
  }

  lemma OtherStepsKeepExamined(cfg: Config, s: State, s': State, i: nat)
    requires i < |s.workers| == |s'.workers| && ExaminedOk(cfg, s, i)
    requires SameExamined(s, s', i) && LogGrows(s, s', i)
    ensures ExaminedOk(cfg, s', i)
  {
    if s.workers[i].pc.Report? || s.workers[i].pc.Complain? {
      ReportsOfExtend(s.log, LineOf(s, i), i);
    } else {
      assert s'.log == s.log;
    }
  }

  lemma ReportedFlagsUpdate(ws: seq<Worker>, i: nat, w: Worker)
    requires i < |ws|
    ensures Count(ReportedFlags(ws[i := w])) + Bit(HasReported(ws[i].pc))
         == Count(ReportedFlags(ws)) + Bit(HasReported(w.pc))
  {
    CountUpdate(ReportedFlags(ws), i, HasReported(w.pc));
    assert ReportedFlags(ws[i := w]) == ReportedFlags(ws)[i := HasReported(w.pc)];
  }

  lemma ReportsExtend(log: seq<Line>, line: Line)
    ensures Reports(log + [line]) == Reports(log) + Bit(line.Target?)
  {
    assert (log + [line])[..|log|] == log;
  }

  lemma WorkStepKeepsReports(s: State, s': State, i: nat)
    requires i < |s.workers| == |s'.workers| && s'.workers == s.workers[i := s'.workers[i]] && LogGrows(s, s', i)
    requires Reports(s.log) == Count(ReportedFlags(s.workers))
    ensures Reports(s'.log) == Count(ReportedFlags(s'.workers))
  {
    ReportedFlagsUpdate(s.workers, i, s'.workers[i]);
    if s.workers[i].pc.Report? || s.workers[i].pc.Complain? {
      ReportsExtend(s.log, LineOf(s, i));
    } else {
      assert s'.log == s.log;
    }
  }

  lemma ComplaintsExtend(log: seq<Line>, line: Line, i: nat)
    ensures Complaints(log + [line], i) == Complaints(log, i) + Bit(line == VerifyFailed(i))
  {
    assert (log + [line])[..|log|] == log;
  }

  lemma WorkStepComplaints(cfg: Config, s: State, s': State, i: nat, j: nat)
    requires Shaped(cfg, s) && Shaped(cfg, s') && i < cfg.workers && LogGrows(s, s', i)
    ensures Complaints(s'.log, j) == Complaints(s.log, j) + Bit(s.workers[i].pc.Complain? && i == j)
  {
    if s.workers[i].pc.Complain? || s.workers[i].pc.Report? {
      ComplaintsExtend(s.log, LineOf(s, i), j);
    } else {
      assert s'.log == s.log;
    }
  }

  lemma WorkStepKeepsComplaint(cfg: Config, s: State, i: nat, key: Candidate, j: nat)
    requires Shaped(cfg, s) && i < cfg.workers && j < cfg.workers && ComplaintOk(s, j)
    ensures ComplaintOk(WorkStep(cfg, s, i, key), j)
  {
    WorkStepLog(cfg, s, i, key);
    WorkStepComplaints(cfg, s, WorkStep(cfg, s, i, key), i, j);
    WorkStepLeaves(cfg, s, i, key, j);
  }

  lemma WorkStepLeaves(cfg: Config, s: State, i: nat, key: Candidate, j: nat)
    requires Shaped(cfg, s) && i < cfg.workers && j < cfg.workers
    ensures WorkStep(cfg, s, i, key).workers[j].pc == Exited(Unverified)
       <==> s.workers[j].pc == Exited(Unverified) || (s.workers[i].pc.Complain? && i == j)
  {
  }

  lemma MainStepKeepsComplaint(cfg: Config, s: State, j: nat)
    requires Shaped(cfg, s) && j < cfg.workers && ComplaintOk(s, j)
    requires s.spawned < cfg.workers ==> s.workers[s.spawned].pc.Unborn?
    ensures ComplaintOk(MainStep(cfg, s), j)
  {
    ComplaintsExtend(s.log, Congratulations, j);
  }

  lemma WorkStepKeepsOwners(cfg: Config, s: State, s': State, i: nat)
    requires i < |s.workers| == |s'.workers| == cfg.workers && LogGrows(s, s', i) && OwnersOk(cfg, s)
    ensures OwnersOk(cfg, s')
  {
  }

  lemma WorkStepKeepsInv(cfg: Config, s: State, i: nat, key: Candidate)
    requires Inv(cfg, s) && i < cfg.workers
    ensures Inv(cfg, WorkStep(cfg, s, i, key))
  {
    var s' := WorkStep(cfg, s, i, key);
    assert PhaseOk(s, i);
    WorkStepFrame(cfg, s, i, key);
    WorkStepLog(cfg, s, i, key);
    forall j | 0 <= j < cfg.workers
      ensures PhaseOk(s', j) && ExaminedOk(cfg, s', j)
    {
      assert PhaseOk(s, j) && ExaminedOk(cfg, s, j);
      if j == i {
        SelfKeepsPhase(cfg, s, i, key);
        if s.workers[i].pc.Match? {
          MatchKeepsExamined(cfg, s, i, key);
        } else {
          WorkStepSameExamined(cfg, s, i, key);
          OtherStepsKeepExamined(cfg, s, s', i);
        }
      } else {
        OthersKeepOk(cfg, s, s', i, j);
      }
    }
    WorkStepKeepsReports(s, s', i);
    WorkStepKeepsOwners(cfg, s, s', i);
    forall j | 0 <= j < cfg.workers
      ensures ComplaintOk(s', j)
    {
      assert ComplaintOk(s, j);
      WorkStepKeepsComplaint(cfg, s, i, key, j);
    }
  }

  lemma SpawnKeepsThread(cfg: Config, s: State, j: nat)
    requires Shaped(cfg, s) && s.spawned < cfg.workers && j < cfg.workers && s.workers[s.spawned].pc.Unborn?
    requires PhaseOk(s, j) && ExaminedOk(cfg, s, j)
    ensures PhaseOk(MainStep(cfg, s), j) && ExaminedOk(cfg, MainStep(cfg, s), j)
  {
  }

  lemma SpawnKeepsReports(cfg: Config, s: State)
    requires Shaped(cfg, s) && s.spawned < cfg.workers && s.workers[s.spawned].pc.Unborn?
    requires Reports(s.log) == Count(ReportedFlags(s.workers))
    ensures Reports(MainStep(cfg, s).log) == Count(ReportedFlags(MainStep(cfg, s).workers))
  {
    assert ReportedFlags(MainStep(cfg, s).workers) == ReportedFlags(s.workers);
  }

  lemma SpawnKeepsInv(cfg: Config, s: State)
    requires Inv(cfg, s) && s.spawned < cfg.workers
    ensures Inv(cfg, MainStep(cfg, s))
  {
    var s' := MainStep(cfg, s);
    assert PhaseOk(s, s.spawned) && s.workers[s.spawned].pc.Unborn?;
    forall j | 0 <= j < cfg.workers
      ensures PhaseOk(s', j) && ExaminedOk(cfg, s', j)
    {
      SpawnKeepsThread(cfg, s, j);
    }
    SpawnKeepsReports(cfg, s);
    MainKeepsComplaints(cfg, s);
  }

  lemma MainKeepsComplaints(cfg: Config, s: State)
    requires Shaped(cfg, s) && (s.spawned < cfg.workers ==> s.workers[s.spawned].pc.Unborn?)
    requires forall i :: 0 <= i < cfg.workers ==> ComplaintOk(s, i)
    ensures forall i :: 0 <= i < cfg.workers ==> ComplaintOk(MainStep(cfg, s), i)
  {
    forall i | 0 <= i < cfg.workers
      ensures ComplaintOk(MainStep(cfg, s), i)
    {
      assert ComplaintOk(s, i);
      MainStepKeepsComplaint(cfg, s, i);
    }
  }

  lemma JoinKeepsInv(cfg: Config, s: State)
    requires Inv(cfg, s) && s.spawned == cfg.workers && s.joined < cfg.workers
    ensures Inv(cfg, MainStep(cfg, s))
  {
    var s' := MainStep(cfg, s);
    MainKeepsComplaints(cfg, s);
    forall j | 0 <= j < cfg.workers
      ensures PhaseOk(s', j) && ExaminedOk(cfg, s', j)
    {
      assert PhaseOk(s, j) && ExaminedOk(cfg, s, j);
    }
  }

  lemma AnnounceKeepsInv(cfg: Config, s: State)
    requires Inv(cfg, s) && s.spawned == s.joined == cfg.workers && !s.announced
    ensures Inv(cfg, MainStep(cfg, s))
  {
    var s' := MainStep(cfg, s);
    ReportsExtend(s.log, Congratulations);
    assert s'.log[..|s'.log| - 1] == s.log;
    MainKeepsComplaints(cfg, s);
    forall j | 0 <= j < cfg.workers
      ensures PhaseOk(s', j) && ExaminedOk(cfg, s', j)
    {
      assert PhaseOk(s, j) && ExaminedOk(cfg, s, j);
    }
  }

  lemma StepKeepsInv(cfg: Config, s: State, e: Event)
    requires Inv(cfg, s)
    ensures Inv(cfg, Step(cfg, s, e))
  {
    match e
    case Main =>
      if s.spawned < cfg.workers {
        SpawnKeepsInv(cfg, s);
      } else if s.joined < cfg.workers {
        JoinKeepsInv(cfg, s);
      } else if !s.announced {
        AnnounceKeepsInv(cfg, s);
      }
    case Work(i, key) =>
      if i < cfg.workers {
        WorkStepKeepsInv(cfg, s, i, key);
      }
  }

  lemma RunKeepsInv(cfg: Config, s: State, schedule: seq<Event>)
    requires Inv(cfg, s)
    ensures Inv(cfg, RunFrom(cfg, s, schedule))
  {
    forall t, e | Inv(cfg, t)
      ensures Inv(cfg, Step(cfg, t, e))
    {
      StepKeepsInv(cfg, t, e);
    }
    Schedules.RunKeeps(Machine(cfg), t => Inv(cfg, t), s, schedule);
  }
}
