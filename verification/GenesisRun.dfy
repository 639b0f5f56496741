/**
 The genesis search as a program that updates its memory in place. The memory holds what
 the program's does: the shared header, the result counter, the mutex, the output, and each
 thread's own variables. The history the state machine keeps is ghost here, and `State`
 reads the machine's state off both.
 */
module GenesisRun {
  import opened Counting
  import opened RacyCounter
  import opened BlockHeader
  import opened GenesisWorker
  import opened GenesisSearch
  import opened GenesisTheorems
  import Schedules

  /** A thread's position and variables; `read` is the counter value it is about to raise. */
  datatype Thread = Thread(pc: Pc, pb: Header, cnt: nat, timeoffset: int, read: nat)

  /** What the proofs remember of a thread. */
  datatype Past = Past(counted: bool, stores: nat, tried: nat, drawn: nat, samples: seq<int>)

  ghost function WorkerOf(t: Thread, h: Past): Worker {
    Worker(t.pc, Locals(t.pb, t.cnt), t.timeoffset, h.tried, h.drawn, h.samples)
  }

  ghost function PhaseOf(t: Thread, h: Past): Phase {
    if t.pc.Storing? then Loaded(t.read, h.stores) else if h.counted then Stored else Idle
  }

  ghost function WorkersOf(ts: seq<Thread>, hs: seq<Past>): seq<Worker>
    requires |ts| == |hs|
  {
    seq(|ts|, i requires 0 <= i < |ts| => WorkerOf(ts[i], hs[i]))
  }

  ghost function PhasesOf(ts: seq<Thread>, hs: seq<Past>): seq<Phase>
    requires |ts| == |hs|
  {
    seq(|ts|, i requires 0 <= i < |ts| => PhaseOf(ts[i], hs[i]))
  }

  lemma ThreadMoves(ts: seq<Thread>, hs: seq<Past>, i: nat, t: Thread, h: Past)
    requires i < |ts| == |hs|
    ensures WorkersOf(ts[i := t], hs[i := h]) == WorkersOf(ts, hs)[i := WorkerOf(t, h)]
    ensures PhasesOf(ts[i := t], hs[i := h]) == PhasesOf(ts, hs)[i := PhaseOf(t, h)]
  {
  }

  lemma NextIsUnborn(cfg: Config, s: State)
    requires Inv(cfg, s) && s.spawned < cfg.workers
    ensures s.workers[s.spawned].pc.Unborn?
  {
    assert PhaseOk(s, s.spawned);
  }

  class SearchMemory {
    const cfg: Config
    var header: Header
    var result: nat
    var locked: bool
    var out: seq<Line>
    var threads: seq<Thread>
    var spawned: nat
    var drawn: bool
    var joined: nat
    ghost var nonces: seq<Uint256>
    ghost var raced: bool
    ghost var holder: nat
    ghost var past: seq<Past>

    ghost predicate Sized()
      reads this
    {
      |threads| == |past| == cfg.workers
    }

    ghost function State(): (s: State)
      requires Sized()
      reads this
      ensures Shaped(cfg, s)
    {
      GenesisSearch.State(header, nonces, spawned, joined, Counter(result, PhasesOf(threads, past), raced),
                          if locked then Held(holder) else Free, out, WorkersOf(threads, past))
    }

    ghost predicate Valid()
      reads this
    {
      Sized() && (drawn <==> |nonces| > spawned) && Inv(cfg, State())
    }

    constructor (cfg: Config)
      ensures this.cfg == cfg && Valid() && State() == Start(cfg)
    {
      this.cfg := cfg;
      header, result, locked, out, spawned, drawn, joined := cfg.input, 0, false, [], 0, false, 0;
      threads := seq(cfg.workers, _ => Thread(Unborn, cfg.input, 0, 0, 0));
      nonces, raced, holder := [], false, 0;
      past := seq(cfg.workers, _ => Past(false, 0, 0, 0, []));
      new;
      StartKeepsInv(cfg);
      assert WorkersOf(threads, past) == Start(cfg).workers;
      assert PhasesOf(threads, past) == Fresh(cfg.workers).phases;
    }

    /** The spawning thread's next action. */
    method Spawner(random: Uint256)
      requires Valid()
      modifies this
      ensures Valid() && State() == MainStep(cfg, old(State()), random)
    {
      MainStepKeepsInv(cfg, State(), random);
      if spawned < |threads| && !drawn {
        DrawNonce(random);
      } else if spawned < |threads| {
        NextIsUnborn(cfg, State());
        StartThread();
      } else if joined < |threads| && threads[joined].pc.Exited? {
        joined := joined + 1;
      }
    }

    method DrawNonce(random: Uint256)
      requires Sized() && spawned < |threads| && |nonces| == spawned
      modifies this`header, this`drawn, this`nonces
      ensures Sized() && drawn && State() == MainStep(cfg, old(State()), random)
    {
      header := header.(nNonce := StartNonce(random));
      drawn, nonces := true, nonces + [header.nNonce];
    }

    method StartThread()
      requires Sized() && spawned < |threads| && threads[spawned].pc.Unborn?
      modifies this`threads, this`spawned, this`drawn
      ensures Sized() && !drawn && State() == Spawned(old(State()))
    {
      ThreadMoves(threads, past, spawned, threads[spawned].(pc := Copy), past[spawned]);
      assert past[spawned := past[spawned]] == past;
      threads := threads[spawned := threads[spawned].(pc := Copy)];
      spawned, drawn := spawned + 1, false;
    }

    /** Search thread `i`'s next action; `now` is what the clock shows. */
    method Searcher(i: nat, now: int)
      requires Valid() && i < |threads|
      modifies this
      ensures Valid() && State() == WorkStep(cfg, old(State()), i, now)
    {
      WorkStepKeepsInv(cfg, State(), i, now);
      Act(i, now);
    }

    method Act(i: nat, now: int)
      requires Sized() && i < |threads|
      modifies this`threads, this`past, this`result, this`raced, this`out, this`locked, this`holder
      ensures Sized() && State() == WorkStep(cfg, old(State()), i, now)
    {
      var pc := threads[i].pc;
      if pc.Copy? || pc.Offset? {
        Prepare(i, now);
      } else if pc.Test? || pc.Loading? || pc.Storing? {
        TestAndCount(i, now);
      } else if pc.Announce? || PrintsLine(pc) {
        Report(i, now);
      } else if pc.Acquire? || pc.Release? {
        Guard(i, now);
      } else if pc.Poll? {
        PollResult(i, now);
      } else if pc.Advance? {
        NextCandidate(i, now);
      }
    }

    /** Copying the shared header and taking the time offset. */
    method Prepare(i: nat, now: int)
      requires Sized() && i < |threads| && (threads[i].pc.Copy? || threads[i].pc.Offset?)
      modifies this`threads, this`past
      ensures Sized() && State() == WorkStep(cfg, old(State()), i, now)
    {
      var t := threads[i];
      ghost var h := past[i];
      if t.pc.Copy? {
        t := t.(pc := Offset, pb := header, cnt := 0);
        h := h.(drawn := |nonces|);
      } else {
        t := t.(pc := Test, timeoffset := header.nTime - now);
        h := h.(samples := [now]);
      }
      ThreadMoves(threads, past, i, t, h);
      threads, past := threads[i := t], past[i := h];
    }

    /** Hashing the candidate, and the two halves of the increment. */
    method TestAndCount(i: nat, now: int)
      requires Sized() && i < |threads|
      requires threads[i].pc.Test? || threads[i].pc.Loading? || threads[i].pc.Storing?
      modifies this`threads, this`past, this`result, this`raced
      ensures Sized() && State() == WorkStep(cfg, old(State()), i, now)
    {
      var t := threads[i];
      ghost var h, stores := past[i], Stores(State().counter);
      if t.pc.Test? {
        t := t.(pc := if cfg.hash(t.pb) <= cfg.target then Loading else Poll);
      } else if t.pc.Loading? {
        t := t.(pc := Storing, read := result);
        h := h.(stores := stores);
      } else {
        t := t.(pc := Announce);
        result := t.read + 1;
        raced, h := raced || h.stores != stores, h.(counted := true);
      }
      ThreadMoves(threads, past, i, t, h);
      threads, past := threads[i := t], past[i := h];
    }

    /** Printing: one line outside the mutex, three inside it. */
    method Report(i: nat, now: int)
      requires Sized() && i < |threads| && (threads[i].pc.Announce? || PrintsLine(threads[i].pc))
      modifies this`threads, this`out
      ensures Sized() && State() == WorkStep(cfg, old(State()), i, now)
    {
      var t := threads[i];
      if t.pc.Announce? {
        out, t := out + [Task(i)], t.(pc := Acquire);
      } else if t.pc.Top? {
        out, t := out + [Rule(i)], t.(pc := Body);
      } else if t.pc.Body? {
        out, t := out + [Block(i, t.pb)], t.(pc := Bottom);
      } else {
        out, t := out + [Rule(i)], t.(pc := Release);
      }
      ThreadMoves(threads, past, i, t, past[i]);
      assert past[i := past[i]] == past;
      threads := threads[i := t];
    }

    /** Taking the mutex, if it is free, and giving it back. */
    method Guard(i: nat, now: int)
      requires Sized() && i < |threads| && (threads[i].pc.Acquire? || threads[i].pc.Release?)
      modifies this`threads, this`locked, this`holder
      ensures Sized() && State() == WorkStep(cfg, old(State()), i, now)
    {
      var t := threads[i];
      if t.pc.Release? {
        locked, t := false, t.(pc := Poll);
      } else if !locked {
        locked, t := true, t.(pc := Top);
        holder := i;
      }
      ThreadMoves(threads, past, i, t, past[i]);
      assert past[i := past[i]] == past && threads[i := threads[i]] == threads;
      threads := threads[i := t];
    }

    /** The poll of the counter. */
    method PollResult(i: nat, now: int)
      requires Sized() && i < |threads| && threads[i].pc.Poll?
      modifies this`threads
      ensures Sized() && State() == WorkStep(cfg, old(State()), i, now)
    {
      var t := threads[i].(pc := if result > 0 then Exited else Advance);
      ThreadMoves(threads, past, i, t, past[i]);
      assert past[i := past[i]] == past;
      threads := threads[i := t];
    }

    /** The step to the next candidate. */
    method NextCandidate(i: nat, now: int)
      requires Sized() && i < |threads| && threads[i].pc.Advance?
      modifies this`threads, this`past
      ensures Sized() && State() == WorkStep(cfg, old(State()), i, now)
    {
      var t := threads[i];
      t := t.(pb := t.pb.(nNonce := Increment(t.pb.nNonce)));
      if t.cnt > 1000 {
        t := t.(pb := t.pb.(nTime := ToUint32(now + t.timeoffset)), cnt := 0);
      }
      t := t.(pc := Test, cnt := t.cnt + 1);
      ghost var h := past[i].(tried := past[i].tried + 1, samples := past[i].samples + [now]);
      assert Locals(t.pb, t.cnt) == Next(Locals(threads[i].pb, threads[i].cnt), now, threads[i].timeoffset);
      ThreadMoves(threads, past, i, t, h);
      threads, past := threads[i := t], past[i := h];
    }

    /** Runs a whole schedule, that is, one interleaving of the threads. */
    method Execute(schedule: seq<Event>)
      requires Valid()
      modifies this
      ensures Valid() && State() == RunFrom(cfg, old(State()), schedule)
    {
      ghost var start := State();
      for n := 0 to |schedule|
        invariant Valid() && State() == RunFrom(cfg, start, schedule[..n])
      {
        Schedules.RunExtend(Machine(cfg), start, schedule[..n], schedule[n]);
        assert schedule[..n] + [schedule[n]] == schedule[..n + 1];
        match schedule[n]
        case Main(random) => Spawner(random);
        case Work(i, now) =>
          if i < |threads| {
            Searcher(i, now);
          }
      }
      assert schedule[..|schedule|] == schedule;
    }
  }

  /** A thread's printed headers are those in the output under its number. */
  lemma {:induction false} PrintedIsInOutput(out: seq<Line>, i: nat, header: Header)
    ensures header in BlocksOf(out, i) <==> Block(i, header) in out
  {
    if out != [] {
      PrintedIsInOutput(out[..|out| - 1], i, header);
      assert out == out[..|out| - 1] + [out[|out| - 1]];
    }
  }

  lemma SomeHeaderIsPrinted(cfg: Config, s: State)
    requires cfg.workers > 0 && Shaped(cfg, s) && AllFindsPrinted(cfg, s)
    ensures exists i :: 0 <= i < cfg.workers && cfg.hash(s.workers[i].locals.pb) <= cfg.target
  {
    CountBounds(StoredFlags(s.counter.phases));
    var i :| 0 <= i < cfg.workers && StoredFlags(s.counter.phases)[i];
    assert PrintedOwnFind(cfg, s, i);
  }

  lemma FindIsInOutput(cfg: Config, s: State, i: nat)
    requires Shaped(cfg, s) && i < cfg.workers && PrintedOwnFind(cfg, s, i)
    ensures var header := s.workers[i].locals.pb; cfg.hash(header) <= cfg.target <==> Block(i, header) in s.log
  {
    PrintedIsInOutput(s.log, i, s.workers[i].locals.pb);
  }

  /**
   The whole search, whatever the interleaving: every header it prints meets the target and
   is the input block but for nonce and time. `last` are the headers the threads hashed last.
   When the search returns, at least one of them meets the target, and a thread's last
   header is in the output exactly if it does.
   */
  method FindGenesis(cfg: Config, schedule: seq<Event>)
    returns (returned: bool, result: nat, out: seq<Line>, last: seq<Header>)
    ensures returned <==> Done(cfg, Run(cfg, schedule))
    ensures forall n :: 0 <= n < |out| && out[n].Block? ==>
              cfg.hash(out[n].header) <= cfg.target && SameBlock(cfg.input, out[n].header)
    ensures |last| == cfg.workers
    ensures returned && cfg.workers > 0 ==>
              0 < result <= cfg.workers && exists i :: 0 <= i < cfg.workers && cfg.hash(last[i]) <= cfg.target
    ensures returned ==>
              forall i :: 0 <= i < cfg.workers ==> (cfg.hash(last[i]) <= cfg.target <==> Block(i, last[i]) in out)
  {
    var memory := new SearchMemory(cfg);
    memory.Execute(schedule);
    returned := memory.spawned == cfg.workers && memory.joined == cfg.workers;
    result, out := memory.result, memory.out;
    var threads := memory.threads;
    last := seq(cfg.workers, i requires 0 <= i < cfg.workers => threads[i].pb);
    ghost var s := Run(cfg, schedule);
    assert memory.State() == s;
    forall n | 0 <= n < |out| && out[n].Block?
      ensures cfg.hash(out[n].header) <= cfg.target && SameBlock(cfg.input, out[n].header)
    {
      PrintedHeadersMeetTarget(cfg, schedule, n);
    }
    assert forall i :: 0 <= i < cfg.workers ==> last[i] == s.workers[i].locals.pb;
    if returned && cfg.workers > 0 {
      JoinMeansFound(cfg, schedule);
      SomeHeaderIsPrinted(cfg, s);
      forall i | 0 <= i < cfg.workers
        ensures cfg.hash(last[i]) <= cfg.target <==> Block(i, last[i]) in out
      {
        assert PrintedOwnFind(cfg, s, i);
        FindIsInOutput(cfg, s, i);
      }
    }
  }
}
