/**
 The parallel genesis search (`findGenesis` and `_get` in common/genesis.cpp) as a state
 machine over the atomic steps of the spawning thread and of the search threads. A schedule
 is any sequence of events, so `Run` ranges over every interleaving. An event whose thread
 cannot move leaves the state as it is.
 */
module GenesisSearch {
  import opened Counting
  import opened RacyCounter
  import opened BlockHeader
  import opened GenesisWorker
  import Schedules

  datatype Config = Config(input: Header, hash: Header -> nat, target: nat, workers: nat)

  /**
   A search thread's next step: copy the shared header, sample the clock, hash and test,
   the two halves of the increment, the "Task" line, the mutex-guarded three lines that
   print the header, the poll of the counter, and moving on to the next candidate.
   */
  datatype Pc = Unborn | Copy | Offset | Test | Loading | Storing | Announce
              | Acquire | Top | Body | Bottom | Release | Poll | Advance | Exited

  /**
   `locals` and `offset` are the thread's own variables. The rest is history: candidates
   finished, nonces the spawner had drawn when the header was copied, and what the clock
   showed at the time offset and at the end of each iteration since.
   */
  datatype Worker = Worker(pc: Pc, locals: Locals, offset: int, tried: nat, drawn: nat, samples: seq<int>)

  datatype Line = Task(owner: nat) | Rule(owner: nat) | Block(owner: nat, header: Header)

  datatype Lock = Free | Held(owner: nat)

  /** `nonces` is history: every start nonce the spawner has written to the shared header. */
  datatype State = State(shared: Header, nonces: seq<Uint256>, spawned: nat, joined: nat, counter: Counter,
                         lock: Lock, log: seq<Line>, workers: seq<Worker>)

  datatype Event = Main(random: Uint256) | Work(thread: nat, now: int)

  predicate Shaped(cfg: Config, s: State) {
    |s.workers| == |s.counter.phases| == cfg.workers
  }

  function Start(cfg: Config): (s: State)
    ensures Shaped(cfg, s)
  {
    State(cfg.input, [], 0, 0, Fresh(cfg.workers), Free, [],
          seq(cfg.workers, _ => Worker(Unborn, Locals(cfg.input, 0), 0, 0, 0, [])))
  }

  /** The state after the spawner has started its next thread. */
  function Spawned(s: State): State
    requires s.spawned < |s.workers|
  {
    s.(workers := s.workers[s.spawned := s.workers[s.spawned].(pc := Copy)], spawned := s.spawned + 1)
  }

  /** The spawning thread: draw a nonce, start a thread, and at the end join them in order. */
  function MainStep(cfg: Config, s: State, random: Uint256): (s': State)
    requires Shaped(cfg, s)
    ensures Shaped(cfg, s')
  {
    if s.spawned < cfg.workers && |s.nonces| == s.spawned then
      var nonce := StartNonce(random);
      s.(shared := s.shared.(nNonce := nonce), nonces := s.nonces + [nonce])
    else if s.spawned < cfg.workers then
      Spawned(s)
    else if s.joined < cfg.workers && s.workers[s.joined].pc.Exited? then
      s.(joined := s.joined + 1)
    else
      s
  }

  function WorkStep(cfg: Config, s: State, i: nat, now: int): (s': State)
    requires Shaped(cfg, s) && i < cfg.workers
    ensures Shaped(cfg, s')
  {
    var w := s.workers[i];
    match w.pc
    case Unborn => s
    case Copy => Put(s, i, w.(pc := Offset, locals := Locals(s.shared, 0), drawn := |s.nonces|))
    case Offset => Put(s, i, w.(pc := Test, offset := s.shared.nTime - now, samples := [now]))
    case Test => Put(s, i, w.(pc := if cfg.hash(w.locals.pb) <= cfg.target then Loading else Poll))
    case Loading => Put(s.(counter := Load(s.counter, i)), i, w.(pc := Storing))
    case Storing => Put(s.(counter := Store(s.counter, i)), i, w.(pc := Announce))
    case Announce => Put(s.(log := s.log + [Task(i)]), i, w.(pc := Acquire))
    case Acquire => if s.lock.Free? then Put(s.(lock := Held(i)), i, w.(pc := Top)) else s
    case Top => Put(s.(log := s.log + [Rule(i)]), i, w.(pc := Body))
    case Body => Put(s.(log := s.log + [Block(i, w.locals.pb)]), i, w.(pc := Bottom))
    case Bottom => Put(s.(log := s.log + [Rule(i)]), i, w.(pc := Release))
    case Release => Put(s.(lock := Free), i, w.(pc := Poll))
    case Poll => Put(s, i, w.(pc := if s.counter.value > 0 then Exited else Advance))
    case Advance =>
      Put(s, i, w.(pc := Test, locals := Next(w.locals, now, w.offset), tried := w.tried + 1,
                   samples := w.samples + [now]))
    case Exited => s
  }

  function Put(s: State, i: nat, w: Worker): State
    requires i < |s.workers|
  {
    s.(workers := s.workers[i := w])
  }

  function Step(cfg: Config, s: State, e: Event): (s': State)
    ensures Shaped(cfg, s) ==> Shaped(cfg, s')
  {
    if !Shaped(cfg, s) then s
    else
      match e
      case Main(random) => MainStep(cfg, s, random)
      case Work(i, now) => if i < cfg.workers then WorkStep(cfg, s, i, now) else s
  }

  function Machine(cfg: Config): (State, Event) -> State {
    (s, e) => Step(cfg, s, e)
  }

  function RunFrom(cfg: Config, s: State, schedule: seq<Event>): (s': State)
    requires Shaped(cfg, s)
    ensures Shaped(cfg, s')
  {
    Schedules.RunKeeps(Machine(cfg), t => Shaped(cfg, t), s, schedule);
    Schedules.RunFrom(Machine(cfg), s, schedule)
  }

  function Run(cfg: Config, schedule: seq<Event>): (s: State)
    ensures Shaped(cfg, s)
  {
    RunFrom(cfg, Start(cfg), schedule)
  }

  /** `findGenesis` has returned: every thread was started and joined. */
  predicate Done(cfg: Config, s: State) {
    s.spawned == cfg.workers && s.joined == cfg.workers
  }

  // ---------- the inductive invariant ----------

  predicate InSection(pc: Pc) {
    pc.Top? || pc.Body? || pc.Bottom? || pc.Release?
  }

  predicate HasHeader(pc: Pc) {
    !pc.Unborn? && !pc.Copy?
  }

  /** The thread has sampled the clock, so it is in its loop. */
  predicate InLoop(pc: Pc) {
    HasHeader(pc) && !pc.Offset?
  }

  predicate BeforeStore(pc: Pc) {
    pc.Unborn? || pc.Copy? || pc.Offset? || pc.Test? || pc.Loading? || pc.Advance?
  }

  /** The thread has found a header and is on its way to having counted and printed it. */
  predicate Reporting(pc: Pc) {
    pc.Loading? || pc.Storing? || pc.Announce? || pc.Acquire? || InSection(pc)
  }

  /** Thread `i` has printed the header it found. */
  predicate HasPrinted(s: State, i: nat)
    requires i < |s.workers| && |s.counter.phases| == |s.workers|
  {
    var pc := s.workers[i].pc;
    pc.Bottom? || pc.Release? || ((pc.Poll? || pc.Exited?) && s.counter.phases[i].Stored?)
  }

  function PrintedFlags(s: State): seq<bool>
    requires |s.counter.phases| == |s.workers|
  {
    seq(|s.workers|, i requires 0 <= i < |s.workers| => HasPrinted(s, i))
  }

  /** The lines printed under the mutex: everything but the unguarded "Task" lines. */
  function Guarded(log: seq<Line>): seq<Line> {
    if log == [] then []
    else
      var last := log[|log| - 1];
      Guarded(log[..|log| - 1]) + (if last.Task? then [] else [last])
  }

  ghost predicate MainOk(cfg: Config, s: State)
    requires Shaped(cfg, s)
  {
    && s.joined <= cfg.workers
    && s.spawned <= |s.nonces| <= cfg.workers
    && |s.nonces| <= s.spawned + 1
    && (s.joined > 0 ==> s.spawned == cfg.workers)
    && (forall i :: 0 <= i < s.joined ==> s.workers[i].pc.Exited?)
    && s.shared == (if s.nonces == [] then cfg.input else cfg.input.(nNonce := s.nonces[|s.nonces| - 1]))
  }

  ghost predicate PhaseOk(s: State, i: nat)
    requires i < |s.workers| && |s.counter.phases| == |s.workers|
  {
    var pc, phase := s.workers[i].pc, s.counter.phases[i];
    && (pc.Unborn? <==> i >= s.spawned)
    && (BeforeStore(pc) ==> phase.Idle?)
    && (pc.Storing? ==> phase.Loaded?)
    && (pc.Announce? || pc.Acquire? || InSection(pc) ==> phase.Stored?)
    && (pc.Poll? || pc.Exited? ==> !phase.Loaded?)
    && (pc.Exited? ==> s.counter.value > 0)
  }

  /** The shared header as the spawner left it with its draw number `drawn`. */
  function WrittenHeader(cfg: Config, nonces: seq<Uint256>, drawn: nat): Header {
    if 0 < drawn <= |nonces| then cfg.input.(nNonce := nonces[drawn - 1]) else cfg.input
  }

  function ClockOf(samples: seq<int>): nat -> int {
    (n: nat) => if n < |samples| then samples[n] else 0
  }

  /** A thread's header and counter are what its loop makes of the header it copied. */
  ghost predicate HeaderOk(cfg: Config, s: State, i: nat)
    requires i < |s.workers| && |s.counter.phases| == |s.workers|
  {
    var w := s.workers[i];
    && (!InLoop(w.pc) ==> w.tried == 0)
    && |w.samples| == (if InLoop(w.pc) then w.tried + 1 else 0)
    && (InLoop(w.pc) ==> w.offset == cfg.input.nTime - w.samples[0])
    && (HasHeader(w.pc) ==>
          && i < w.drawn <= |s.nonces|
          && w.locals == LocalsAt(WrittenHeader(cfg, s.nonces, w.drawn), ClockOf(w.samples), w.tried))
    && (Reporting(w.pc) || s.counter.phases[i].Stored? ==> cfg.hash(w.locals.pb) <= cfg.target)
  }

  /** The thread has hashed its current candidate. */
  predicate Tested(pc: Pc) {
    InLoop(pc) && !pc.Test?
  }

  /** Candidate `k` of the thread that started from `start` does not meet the target. */
  ghost predicate Misses(cfg: Config, start: Header, samples: seq<int>, k: nat) {
    cfg.hash(LocalsAt(start, ClockOf(samples), k).pb) > cfg.target
  }

  /** A thread goes past no hit: it reports its current candidate if that is one, and earlier ones were none. */
  ghost predicate SearchOk(cfg: Config, s: State, i: nat)
    requires i < |s.workers| && |s.counter.phases| == |s.workers|
  {
    var w := s.workers[i];
    && (Tested(w.pc) && cfg.hash(w.locals.pb) <= cfg.target ==> Reporting(w.pc) || s.counter.phases[i].Stored?)
    && forall k: nat :: k < w.tried ==> Misses(cfg, WrittenHeader(cfg, s.nonces, w.drawn), w.samples, k)
  }

  /** How often thread `i` has printed that it found something. */
  function TaskLines(log: seq<Line>, i: nat): nat {
    if log == [] then 0
    else TaskLines(log[..|log| - 1], i) + Bit(log[|log| - 1] == Task(i))
  }

  /** A thread that has counted says so once. */
  ghost predicate TaskOk(s: State, i: nat)
    requires i < |s.workers| && |s.counter.phases| == |s.workers|
  {
    TaskLines(s.log, i) == Bit(s.counter.phases[i].Stored? && !s.workers[i].pc.Announce?)
  }

  /** The mutex is held by exactly the thread inside the guarded section. */
  ghost predicate LockOk(s: State) {
    && (s.lock.Held? ==> s.lock.owner < |s.workers|)
    && forall i :: 0 <= i < |s.workers| ==> (InSection(s.workers[i].pc) <==> s.lock == Held(i))
  }

  /** How many lines of its block the mutex holder has printed. */
  function LinesOpen(s: State): nat {
    if s.lock.Held? && s.lock.owner < |s.workers| then
      var pc := s.workers[s.lock.owner].pc;
      if pc.Body? then 1 else if pc.Bottom? then 2 else 0
    else 0
  }

  ghost predicate LineOk(cfg: Config, s: State, lines: seq<Line>, k: nat)
    requires Shaped(cfg, s) && k < |lines|
  {
    && !lines[k].Task?
    && (lines[k].Block? <==> k % 3 == 1)
    && lines[k].owner == lines[k - k % 3].owner
    && lines[k].owner < cfg.workers
    && (lines[k].Block? ==> lines[k].header == s.workers[lines[k].owner].locals.pb && HasPrinted(s, lines[k].owner))
  }

  /** The headers thread `i` has printed, in order. */
  function BlocksOf(lines: seq<Line>, i: nat): seq<Header> {
    if lines == [] then []
    else
      var last := lines[|lines| - 1];
      BlocksOf(lines[..|lines| - 1], i) + (if last.Block? && last.owner == i then [last.header] else [])
  }

  /** A thread has printed its one find, or nothing. */
  ghost predicate PrintsOk(s: State, i: nat)
    requires i < |s.workers| && |s.counter.phases| == |s.workers|
  {
    BlocksOf(Guarded(s.log), i) == if HasPrinted(s, i) then [s.workers[i].locals.pb] else []
  }

  ghost predicate LogOk(cfg: Config, s: State)
    requires Shaped(cfg, s)
  {
    var lines := Guarded(s.log);
    && |lines| % 3 == LinesOpen(s)
    && (LinesOpen(s) > 0 ==> lines[|lines| - LinesOpen(s)].owner == s.lock.owner)
    && (forall k :: 0 <= k < |lines| ==> LineOk(cfg, s, lines, k))
    && (|lines| + 1) / 3 == Count(PrintedFlags(s))
    && (forall i :: 0 <= i < cfg.workers ==> PrintsOk(s, i))
  }

  ghost predicate Inv(cfg: Config, s: State) {
    && Shaped(cfg, s)
    && Consistent(s.counter)
    && MainOk(cfg, s)
    && (forall i :: 0 <= i < cfg.workers ==> PhaseOk(s, i))
    && (forall i :: 0 <= i < cfg.workers ==> HeaderOk(cfg, s, i))
    && (forall i :: 0 <= i < cfg.workers ==> SearchOk(cfg, s, i))
    && (forall i :: 0 <= i < cfg.workers ==> TaskOk(s, i))
    && LockOk(s)
    && LogOk(cfg, s)
  }

  // ---------- every step keeps it ----------

  lemma StartKeepsInv(cfg: Config)
    ensures Inv(cfg, Start(cfg))
  {
    var s := Start(cfg);
    FreshIsConsistent(cfg.workers);
    CountBounds(PrintedFlags(s));
  }

  /** Between `s` and `s'` only thread `i` and what it shares have moved. */
  ghost predicate OnlyThread(cfg: Config, s: State, s': State, i: nat) {
    && Shaped(cfg, s) && Shaped(cfg, s') && i < cfg.workers
    && s'.shared == s.shared && s'.nonces == s.nonces && s'.spawned == s.spawned && s'.joined == s.joined
    && s'.workers == s.workers[i := s'.workers[i]]
    && s'.counter.phases == s.counter.phases[i := s'.counter.phases[i]]
    && (s.counter.value > 0 ==> s'.counter.value > 0)
  }

  lemma WorkStepFrame(cfg: Config, s: State, i: nat, now: int)
    requires Shaped(cfg, s) && i < cfg.workers && PhaseOk(s, i) && Consistent(s.counter)
    ensures OnlyThread(cfg, s, WorkStep(cfg, s, i, now), i)
    ensures Consistent(WorkStep(cfg, s, i, now).counter)
  {
    if s.workers[i].pc.Loading? {
      LoadKeepsConsistent(s.counter, i);
    } else if s.workers[i].pc.Storing? {
      StoreKeepsConsistent(s.counter, i);
    }
  }

  lemma OthersKeepOk(cfg: Config, s: State, s': State, i: nat, j: nat)
    requires OnlyThread(cfg, s, s', i) && j < cfg.workers && j != i
    requires PhaseOk(s, j) && HeaderOk(cfg, s, j)
    ensures PhaseOk(s', j) && HeaderOk(cfg, s', j)
    ensures HasPrinted(s', j) == HasPrinted(s, j)
  {
  }

  /** A thread that has stored can only see a positive counter. */
  lemma StoredSeesPositive(c: Counter, i: nat)
    requires Consistent(c) && i < |c.phases| && c.phases[i].Stored?
    ensures c.value > 0
  {
    CountBounds(StoredFlags(c.phases));
    assert StoredFlags(c.phases)[i];
  }

  lemma SelfKeepsPhase(cfg: Config, s: State, i: nat, now: int)
    requires Shaped(cfg, s) && i < cfg.workers && PhaseOk(s, i) && Consistent(s.counter)
    ensures PhaseOk(WorkStep(cfg, s, i, now), i)
  {
    if s.counter.phases[i].Stored? {
      StoredSeesPositive(s.counter, i);
    }
  }

  /** Moving on is one more iteration of the loop, with one more clock value. */
  lemma AdvanceKeepsHeader(cfg: Config, s: State, i: nat, now: int)
    requires Shaped(cfg, s) && i < cfg.workers && PhaseOk(s, i) && HeaderOk(cfg, s, i)
    requires s.workers[i].pc.Advance?
    ensures HeaderOk(cfg, WorkStep(cfg, s, i, now), i)
  {
    var w := s.workers[i];
    var start, longer := WrittenHeader(cfg, s.nonces, w.drawn), w.samples + [now];
    LocalsAgree(start, ClockOf(w.samples), ClockOf(longer), w.tried);
    assert LocalsAt(start, ClockOf(longer), w.tried + 1) == Next(w.locals, now, w.offset);
  }

  lemma CopyKeepsHeader(cfg: Config, s: State, i: nat, now: int)
    requires Shaped(cfg, s) && i < cfg.workers && PhaseOk(s, i) && HeaderOk(cfg, s, i) && MainOk(cfg, s)
    requires s.workers[i].pc.Copy?
    ensures HeaderOk(cfg, WorkStep(cfg, s, i, now), i)
  {
  }

  lemma OffsetKeepsHeader(cfg: Config, s: State, i: nat, now: int)
    requires Shaped(cfg, s) && i < cfg.workers && PhaseOk(s, i) && HeaderOk(cfg, s, i) && MainOk(cfg, s)
    requires s.workers[i].pc.Offset?
    ensures HeaderOk(cfg, WorkStep(cfg, s, i, now), i)
  {
  }

  /** In its other steps a thread moves on with the header it has. */
  lemma SameHeaderKeepsHeader(cfg: Config, s: State, s': State, i: nat)
    requires OnlyThread(cfg, s, s', i) && HeaderOk(cfg, s, i)
    requires var w, w' := s.workers[i], s'.workers[i];
             && w'.(pc := w.pc) == w
             && HasHeader(w.pc) == HasHeader(w'.pc) && !w.pc.Offset? && !w'.pc.Offset?
             && (Reporting(w'.pc) || s'.counter.phases[i].Stored? ==>
                   Reporting(w.pc) || s.counter.phases[i].Stored? || cfg.hash(w.locals.pb) <= cfg.target)
    ensures HeaderOk(cfg, s', i)
  {
  }

  lemma SelfKeepsHeader(cfg: Config, s: State, i: nat, now: int)
    requires Shaped(cfg, s) && i < cfg.workers && PhaseOk(s, i) && HeaderOk(cfg, s, i) && MainOk(cfg, s)
    requires Consistent(s.counter) && OnlyThread(cfg, s, WorkStep(cfg, s, i, now), i)
    ensures HeaderOk(cfg, WorkStep(cfg, s, i, now), i)
  {
    var w := s.workers[i];
    if w.pc.Advance? {
      AdvanceKeepsHeader(cfg, s, i, now);
    } else if w.pc.Copy? {
      CopyKeepsHeader(cfg, s, i, now);
    } else if w.pc.Offset? {
      OffsetKeepsHeader(cfg, s, i, now);
    } else {
      SameHeaderKeepsHeader(cfg, s, WorkStep(cfg, s, i, now), i);
    }
  }

  lemma AdvanceKeepsSearch(cfg: Config, s: State, i: nat, now: int)
    requires Shaped(cfg, s) && i < cfg.workers && PhaseOk(s, i) && HeaderOk(cfg, s, i) && SearchOk(cfg, s, i)
    requires s.workers[i].pc.Advance?
    ensures SearchOk(cfg, WorkStep(cfg, s, i, now), i)
  {
    var w := s.workers[i];
    var start, longer := WrittenHeader(cfg, s.nonces, w.drawn), w.samples + [now];
    forall k: nat | k < w.tried + 1
      ensures Misses(cfg, start, longer, k)
    {
      LocalsAgree(start, ClockOf(w.samples), ClockOf(longer), k);
      assert k < w.tried ==> Misses(cfg, start, w.samples, k);
    }
  }

  /** In its other steps a thread finishes no candidate. */
  lemma SameTriedKeepsSearch(cfg: Config, s: State, s': State, i: nat)
    requires OnlyThread(cfg, s, s', i) && SearchOk(cfg, s, i)
    requires var w, w' := s.workers[i], s'.workers[i];
             && w'.tried == w.tried && (w.tried > 0 ==> w'.drawn == w.drawn && w'.samples == w.samples)
             && (Tested(w'.pc) && cfg.hash(w'.locals.pb) <= cfg.target ==>
                   Reporting(w'.pc) || s'.counter.phases[i].Stored?)
    ensures SearchOk(cfg, s', i)
  {
  }

  lemma SelfKeepsSearch(cfg: Config, s: State, i: nat, now: int)
    requires Shaped(cfg, s) && i < cfg.workers && PhaseOk(s, i) && HeaderOk(cfg, s, i) && SearchOk(cfg, s, i)
    requires OnlyThread(cfg, s, WorkStep(cfg, s, i, now), i)
    ensures SearchOk(cfg, WorkStep(cfg, s, i, now), i)
  {
    if s.workers[i].pc.Advance? {
      AdvanceKeepsSearch(cfg, s, i, now);
    } else {
      SameTriedKeepsSearch(cfg, s, WorkStep(cfg, s, i, now), i);
    }
  }

  lemma TaskLinesExtend(log: seq<Line>, line: Line, i: nat)
    ensures TaskLines(log + [line], i) == TaskLines(log, i) + Bit(line == Task(i))
  {
    assert (log + [line])[..|log|] == log;
  }

  /** The line thread `i` prints next inside the mutex. */
  function NextLine(s: State, i: nat): Line
    requires i < |s.workers|
  {
    if s.workers[i].pc.Body? then Block(i, s.workers[i].locals.pb) else Rule(i)
  }

  /** What thread `i` prints in its next step. */
  function NextLines(s: State, i: nat): seq<Line>
    requires i < |s.workers|
  {
    match s.workers[i].pc
    case Announce => [Task(i)]
    case Top | Body | Bottom => [NextLine(s, i)]
    case _ => []
  }

  lemma WorkStepLog(cfg: Config, s: State, i: nat, now: int)
    requires Shaped(cfg, s) && i < cfg.workers
    ensures WorkStep(cfg, s, i, now).log == s.log + NextLines(s, i)
  {
  }

  lemma NextTaskLines(s: State, i: nat, j: nat)
    requires i < |s.workers|
    ensures TaskLines(s.log + NextLines(s, i), j) == TaskLines(s.log, j) + Bit(s.workers[i].pc.Announce? && i == j)
  {
    if NextLines(s, i) == [] {
      assert s.log + [] == s.log;
    } else {
      TaskLinesExtend(s.log, NextLines(s, i)[0], j);
    }
  }

  lemma WorkStepTaskLines(cfg: Config, s: State, i: nat, now: int, j: nat)
    requires Shaped(cfg, s) && i < cfg.workers
    ensures TaskLines(WorkStep(cfg, s, i, now).log, j)
         == TaskLines(s.log, j) + Bit(s.workers[i].pc.Announce? && i == j)
  {
    WorkStepLog(cfg, s, i, now);
    NextTaskLines(s, i, j);
  }

  lemma SelfKeepsTask(cfg: Config, s: State, i: nat, now: int)
    requires Shaped(cfg, s) && i < cfg.workers && PhaseOk(s, i) && TaskOk(s, i)
    ensures TaskOk(WorkStep(cfg, s, i, now), i)
  {
    WorkStepTaskLines(cfg, s, i, now, i);
  }

  lemma OthersKeepSearch(cfg: Config, s: State, i: nat, now: int, j: nat)
    requires Shaped(cfg, s) && i < cfg.workers && j < cfg.workers && j != i
    requires OnlyThread(cfg, s, WorkStep(cfg, s, i, now), i)
    requires SearchOk(cfg, s, j) && TaskOk(s, j)
    ensures SearchOk(cfg, WorkStep(cfg, s, i, now), j) && TaskOk(WorkStep(cfg, s, i, now), j)
  {
    WorkStepTaskLines(cfg, s, i, now, j);
  }

  lemma WorkStepKeepsSearch(cfg: Config, s: State, i: nat, now: int)
    requires Shaped(cfg, s) && i < cfg.workers && PhaseOk(s, i) && HeaderOk(cfg, s, i)
    requires forall j :: 0 <= j < cfg.workers ==> SearchOk(cfg, s, j) && TaskOk(s, j)
    requires OnlyThread(cfg, s, WorkStep(cfg, s, i, now), i)
    ensures forall j :: 0 <= j < cfg.workers ==>
              SearchOk(cfg, WorkStep(cfg, s, i, now), j) && TaskOk(WorkStep(cfg, s, i, now), j)
  {
    forall j | 0 <= j < cfg.workers
      ensures SearchOk(cfg, WorkStep(cfg, s, i, now), j) && TaskOk(WorkStep(cfg, s, i, now), j)
    {
      if j == i {
        SelfKeepsSearch(cfg, s, i, now);
        SelfKeepsTask(cfg, s, i, now);
      } else {
        OthersKeepSearch(cfg, s, i, now, j);
      }
    }
  }

  lemma WorkStepKeepsLock(cfg: Config, s: State, i: nat, now: int)
    requires Shaped(cfg, s) && i < cfg.workers && LockOk(s)
    ensures LockOk(WorkStep(cfg, s, i, now))
  {
    var s' := WorkStep(cfg, s, i, now);
    assert s'.workers == s.workers[i := s'.workers[i]];
    assert InSection(s'.workers[i].pc) <==> s'.lock == Held(i);
    assert s'.lock == s.lock || s.lock == Held(i) || (s.lock.Free? && s'.lock == Held(i));
  }

  /** A step that prints nothing under the mutex. */
  lemma QuietKeepsLog(cfg: Config, s: State, s': State)
    requires Shaped(cfg, s) && Shaped(cfg, s') && LogOk(cfg, s)
    requires Guarded(s'.log) == Guarded(s.log)
    requires LinesOpen(s') == LinesOpen(s) && (LinesOpen(s) > 0 ==> s'.lock == s.lock)
    requires forall j :: 0 <= j < cfg.workers ==>
               && HasPrinted(s', j) == HasPrinted(s, j)
               && (HasPrinted(s, j) ==> s'.workers[j].locals == s.workers[j].locals)
    ensures LogOk(cfg, s')
  {
    SameFlags(cfg, s, s');
    var lines := Guarded(s.log);
    forall k | 0 <= k < |lines|
      ensures LineOk(cfg, s', lines, k)
    {
      assert LineOk(cfg, s, lines, k);
    }
    forall j | 0 <= j < cfg.workers
      ensures PrintsOk(s', j)
    {
      assert PrintsOk(s, j);
    }
  }

  lemma SameFlags(cfg: Config, s: State, s': State)
    requires Shaped(cfg, s) && Shaped(cfg, s')
    requires forall j :: 0 <= j < cfg.workers ==> HasPrinted(s', j) == HasPrinted(s, j)
    ensures PrintedFlags(s') == PrintedFlags(s)
  {
  }

  /** A step of the mutex holder that prints the next line of its block. */
  ghost predicate Prints(cfg: Config, s: State, s': State, i: nat, line: Line) {
    && OnlyThread(cfg, s, s', i)
    && s.lock == s'.lock == Held(i)
    && Guarded(s'.log) == Guarded(s.log) + [line] && !line.Task? && line.owner == i
    && LinesOpen(s') == (LinesOpen(s) + 1) % 3
    && (line.Block? <==> LinesOpen(s) == 1)
    && s'.workers[i].locals == s.workers[i].locals
    && (line.Block? ==> line.header == s.workers[i].locals.pb && !HasPrinted(s, i) && HasPrinted(s', i))
    && (!line.Block? ==> HasPrinted(s', i) == HasPrinted(s, i))
  }

  lemma PrintKeepsLines(cfg: Config, s: State, s': State, i: nat, line: Line, k: nat)
    requires Prints(cfg, s, s', i, line) && LogOk(cfg, s) && k < |Guarded(s'.log)|
    ensures LineOk(cfg, s', Guarded(s'.log), k)
  {
    var before, after := Guarded(s.log), Guarded(s'.log);
    if k < |before| {
      assert LineOk(cfg, s, before, k);
      assert before[k] == after[k] && before[k - k % 3] == after[k - k % 3];
    }
  }

  lemma PrintKeepsCount(cfg: Config, s: State, s': State, i: nat, line: Line)
    requires Prints(cfg, s, s', i, line) && LogOk(cfg, s)
    ensures (|Guarded(s'.log)| + 1) / 3 == Count(PrintedFlags(s'))
  {
    CountUpdate(PrintedFlags(s), i, HasPrinted(s', i));
    assert PrintedFlags(s') == PrintedFlags(s)[i := HasPrinted(s', i)] by {
      assert forall j :: 0 <= j < cfg.workers && j != i ==> HasPrinted(s', j) == HasPrinted(s, j);
    }
  }

  lemma BlocksOfExtend(lines: seq<Line>, line: Line, i: nat)
    ensures BlocksOf(lines + [line], i)
         == BlocksOf(lines, i) + if line.Block? && line.owner == i then [line.header] else []
  {
    assert (lines + [line])[..|lines|] == lines;
  }

  lemma PrintKeepsPrints(cfg: Config, s: State, s': State, i: nat, line: Line, j: nat)
    requires Prints(cfg, s, s', i, line) && j < cfg.workers && PrintsOk(s, j)
    ensures PrintsOk(s', j)
  {
    BlocksOfExtend(Guarded(s.log), line, j);
  }

  lemma PrintKeepsLog(cfg: Config, s: State, s': State, i: nat, line: Line)
    requires Prints(cfg, s, s', i, line) && LogOk(cfg, s)
    ensures LogOk(cfg, s')
  {
    forall j | 0 <= j < cfg.workers
      ensures PrintsOk(s', j)
    {
      PrintKeepsPrints(cfg, s, s', i, line, j);
    }
    forall k | 0 <= k < |Guarded(s'.log)|
      ensures LineOk(cfg, s', Guarded(s'.log), k)
    {
      PrintKeepsLines(cfg, s, s', i, line, k);
    }
    PrintKeepsCount(cfg, s, s', i, line);
  }

  lemma StepPrints(cfg: Config, s: State, i: nat, now: int)
    requires Shaped(cfg, s) && i < cfg.workers && PhaseOk(s, i) && LockOk(s)
    requires OnlyThread(cfg, s, WorkStep(cfg, s, i, now), i)
    requires PrintsLine(s.workers[i].pc)
    ensures Prints(cfg, s, WorkStep(cfg, s, i, now), i, NextLine(s, i))
  {
    var line := NextLine(s, i);
    assert WorkStep(cfg, s, i, now).log == s.log + [line] && (s.log + [line])[..|s.log|] == s.log;
    assert s.lock == Held(i);
  }

  predicate PrintsLine(pc: Pc) {
    pc.Top? || pc.Body? || pc.Bottom?
  }

  lemma SilentGuarded(cfg: Config, s: State, i: nat, now: int)
    requires Shaped(cfg, s) && i < cfg.workers && !PrintsLine(s.workers[i].pc)
    ensures Guarded(WorkStep(cfg, s, i, now).log) == Guarded(s.log)
  {
    if s.workers[i].pc.Announce? {
      assert (s.log + [Task(i)])[..|s.log|] == s.log;
    }
  }

  lemma SilentPrinted(cfg: Config, s: State, i: nat, now: int)
    requires Shaped(cfg, s) && i < cfg.workers && !PrintsLine(s.workers[i].pc)
    requires PhaseOk(s, i) && Consistent(s.counter)
    ensures var s' := WorkStep(cfg, s, i, now);
            && HasPrinted(s', i) == HasPrinted(s, i)
            && (HasPrinted(s, i) ==> s'.workers[i].locals == s.workers[i].locals)
  {
    if s.counter.phases[i].Stored? {
      StoredSeesPositive(s.counter, i);
    }
  }

  lemma SilentOpen(cfg: Config, s: State, i: nat, now: int)
    requires Shaped(cfg, s) && i < cfg.workers && !PrintsLine(s.workers[i].pc) && LockOk(s)
    ensures var s' := WorkStep(cfg, s, i, now);
            LinesOpen(s') == LinesOpen(s) && (LinesOpen(s) > 0 ==> s'.lock == s.lock)
  {
  }

  lemma SilentStepKeepsLog(cfg: Config, s: State, s': State, i: nat, now: int)
    requires Shaped(cfg, s) && i < cfg.workers && PhaseOk(s, i) && LockOk(s) && LogOk(cfg, s)
    requires s' == WorkStep(cfg, s, i, now) && Consistent(s.counter) && OnlyThread(cfg, s, s', i)
    requires !PrintsLine(s.workers[i].pc)
    ensures LogOk(cfg, s')
  {
    SilentGuarded(cfg, s, i, now);
    SilentPrinted(cfg, s, i, now);
    SilentOpen(cfg, s, i, now);
    QuietKeepsLog(cfg, s, s');
  }

  lemma WorkStepKeepsThreads(cfg: Config, s: State, i: nat, now: int)
    requires Shaped(cfg, s) && i < cfg.workers && MainOk(cfg, s) && Consistent(s.counter)
    requires forall j :: 0 <= j < cfg.workers ==> PhaseOk(s, j) && HeaderOk(cfg, s, j)
    requires OnlyThread(cfg, s, WorkStep(cfg, s, i, now), i)
    ensures forall j :: 0 <= j < cfg.workers ==>
              PhaseOk(WorkStep(cfg, s, i, now), j) && HeaderOk(cfg, WorkStep(cfg, s, i, now), j)
  {
    forall j | 0 <= j < cfg.workers
      ensures PhaseOk(WorkStep(cfg, s, i, now), j) && HeaderOk(cfg, WorkStep(cfg, s, i, now), j)
    {
      if j == i {
        SelfKeepsPhase(cfg, s, i, now);
        SelfKeepsHeader(cfg, s, i, now);
      } else {
        OthersKeepOk(cfg, s, WorkStep(cfg, s, i, now), i, j);
      }
    }
  }

  /** The spawner's own record does not depend on threads that have not exited. */
  lemma WorkStepKeepsMain(cfg: Config, s: State, s': State, i: nat)
    requires OnlyThread(cfg, s, s', i) && MainOk(cfg, s)
    requires s.workers[i].pc.Exited? ==> s'.workers[i] == s.workers[i]
    ensures MainOk(cfg, s')
  {
  }

  lemma WorkStepKeepsInv(cfg: Config, s: State, i: nat, now: int)
    requires Inv(cfg, s) && i < cfg.workers
    ensures Inv(cfg, WorkStep(cfg, s, i, now))
  {
    var pc := s.workers[i].pc;
    assert PhaseOk(s, i);
    WorkStepFrame(cfg, s, i, now);
    WorkStepKeepsMain(cfg, s, WorkStep(cfg, s, i, now), i);
    WorkStepKeepsThreads(cfg, s, i, now);
    assert HeaderOk(cfg, s, i);
    WorkStepKeepsSearch(cfg, s, i, now);
    WorkStepKeepsLock(cfg, s, i, now);
    if PrintsLine(pc) {
      StepPrints(cfg, s, i, now);
      PrintKeepsLog(cfg, s, WorkStep(cfg, s, i, now), i, NextLine(s, i));
    } else {
      SilentStepKeepsLog(cfg, s, WorkStep(cfg, s, i, now), i, now);
    }
  }

  /** The spawner draws a nonce or joins a thread: no thread's own state moves. */
  lemma SpawnerMoveKeepsInv(cfg: Config, s: State, s': State)
    requires Inv(cfg, s) && s.nonces <= s'.nonces
    requires s'.(shared := s.shared, nonces := s.nonces, joined := s.joined) == s && MainOk(cfg, s')
    ensures Inv(cfg, s')
  {
    forall j | 0 <= j < cfg.workers
      ensures PhaseOk(s', j) && HeaderOk(cfg, s', j)
    {
      assert PhaseOk(s, j) && HeaderOk(cfg, s, j);
    }
    forall j | 0 <= j < cfg.workers
      ensures SearchOk(cfg, s', j) && TaskOk(s', j)
    {
      assert HeaderOk(cfg, s, j);
      MainKeepsSearch(cfg, s, s', j);
    }
    QuietKeepsLog(cfg, s, s');
  }

  /** What a thread has searched does not depend on later draws, nor on other threads starting. */
  lemma MainKeepsSearch(cfg: Config, s: State, s': State, j: nat)
    requires Shaped(cfg, s) && Shaped(cfg, s') && j < cfg.workers
    requires HeaderOk(cfg, s, j) && SearchOk(cfg, s, j) && TaskOk(s, j)
    requires s.nonces <= s'.nonces && s'.log == s.log && s'.counter == s.counter
    requires var w, w' := s.workers[j], s'.workers[j]; w' == w || (w.pc.Unborn? && w' == w.(pc := Copy))
    ensures SearchOk(cfg, s', j) && TaskOk(s', j)
  {
    var w := s.workers[j];
    assert w.tried > 0 ==> WrittenHeader(cfg, s'.nonces, w.drawn) == WrittenHeader(cfg, s.nonces, w.drawn);
  }

  lemma SpawnKeepsThreads(cfg: Config, s: State)
    requires Inv(cfg, s) && s.spawned < cfg.workers && |s.nonces| == s.spawned + 1
    ensures MainOk(cfg, Spawned(s)) && LockOk(Spawned(s))
    ensures forall j :: 0 <= j < cfg.workers ==> PhaseOk(Spawned(s), j) && HeaderOk(cfg, Spawned(s), j)
  {
    assert PhaseOk(s, s.spawned) && s.workers[s.spawned].pc.Unborn?;
    forall j | 0 <= j < cfg.workers
      ensures PhaseOk(Spawned(s), j) && HeaderOk(cfg, Spawned(s), j)
    {
      assert PhaseOk(s, j) && HeaderOk(cfg, s, j);
    }
  }

  lemma SpawnKeepsSearch(cfg: Config, s: State)
    requires Inv(cfg, s) && s.spawned < cfg.workers
    ensures forall j :: 0 <= j < cfg.workers ==> SearchOk(cfg, Spawned(s), j) && TaskOk(Spawned(s), j)
  {
    assert PhaseOk(s, s.spawned) && s.workers[s.spawned].pc.Unborn?;
    forall j | 0 <= j < cfg.workers
      ensures SearchOk(cfg, Spawned(s), j) && TaskOk(Spawned(s), j)
    {
      assert HeaderOk(cfg, s, j) && SearchOk(cfg, s, j) && TaskOk(s, j);
      MainKeepsSearch(cfg, s, Spawned(s), j);
    }
  }

  lemma SpawnKeepsLog(cfg: Config, s: State)
    requires Inv(cfg, s) && s.spawned < cfg.workers
    ensures LogOk(cfg, Spawned(s))
  {
    assert PhaseOk(s, s.spawned) && s.workers[s.spawned].pc.Unborn?;
    QuietKeepsLog(cfg, s, Spawned(s));
  }

  lemma MainStepKeepsInv(cfg: Config, s: State, random: Uint256)
    requires Inv(cfg, s)
    ensures Inv(cfg, MainStep(cfg, s, random))
  {
    if s.spawned < cfg.workers && |s.nonces| == s.spawned {
      var nonce := StartNonce(random);
      SpawnerMoveKeepsInv(cfg, s, s.(shared := s.shared.(nNonce := nonce), nonces := s.nonces + [nonce]));
    } else if s.spawned < cfg.workers {
      SpawnKeepsThreads(cfg, s);
      SpawnKeepsSearch(cfg, s);
      SpawnKeepsLog(cfg, s);
    } else if s.joined < cfg.workers && s.workers[s.joined].pc.Exited? {
      SpawnerMoveKeepsInv(cfg, s, s.(joined := s.joined + 1));
    }
  }

  lemma StepKeepsInv(cfg: Config, s: State, e: Event)
    requires Inv(cfg, s)
    ensures Inv(cfg, Step(cfg, s, e))
  {
    match e
    case Main(random) => MainStepKeepsInv(cfg, s, random);
    case Work(i, now) =>
      if i < cfg.workers {
        WorkStepKeepsInv(cfg, s, i, now);
      }
  }

  lemma RunKeepsInv(cfg: Config, s: State, schedule: seq<Event>)
    requires Inv(cfg, s)
    ensures Inv(cfg, RunFrom(cfg, s, schedule))
  {
    forall t, e | Inv(cfg, t)
      ensures Inv(cfg, Step(cfg, t, e))
    {
      StepKeepsInv(cfg, t, e);
    }
    Schedules.RunKeeps(Machine(cfg), t => Inv(cfg, t), s, schedule);
  }
}
