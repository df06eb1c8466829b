/**
 * The service as one state machine: requests and scheduler runs are
 * interleaved one at a time. The scheduler walks the live registry by
 * position, so a program registered while a batch is under way is run
 * later in that same batch.
 */
module Service {
  import opened Common
  import opened Protocol
  import opened Storage
  import opened Engine
  import opened Scheduler
  import opened Handler
  import opened Startup

  /** The server state and the position of the next entry the current batch runs. */
  datatype State = State(server: Server, cursor: nat)

  /** The snapshot reloads to the live registry, and every output file sits in an existing directory. */
  predicate Valid(st: State) {
    && st.cursor <= |st.server.registry|
    && Load(st.server.snapshot) == Success(st.server.registry)
    && WellFormed(st.server.disk)
  }

  /** The entries the current batch has still to run. */
  function Pending(st: State): seq<string>
    requires st.cursor <= |st.server.registry|
  {
    st.server.registry[st.cursor..]
  }

  /** The state `server` starts serving in, at the head of its first batch. */
  function Start(persisted: Snapshot, args: seq<string>, disk: Disk): (r: Result<State, LoadError>)
    ensures r.Success? <==> !persisted.Corrupt?
    ensures r.Success? ==> r.value.server.registry == Load(persisted).value + args
    ensures r.Success? ==> r.value.cursor == 0 && r.value.server.disk == disk
    ensures r.Success? && WellFormed(disk) ==> Valid(r.value)
  {
    var boot :- Seed(persisted, args);
    Success(State(Server(boot.registry, boot.snapshot, disk), 0))
  }

  datatype Served = Served(state: State, effects: seq<Effect>)

  /**
   * A request handled while a batch is at `cursor`: the batch's position is
   * kept, what it has still to run only grows, and a successful ADD puts
   * the new program at the end of what it has still to run.
   */
  function Serve(st: State, env: Env, request: string): (r: Served)
    ensures r.state.cursor == st.cursor
    ensures st.server.registry <= r.state.server.registry
    ensures Valid(st) ==> Valid(r.state)
    ensures Valid(st) ==> Pending(r.state) == Pending(st) + r.state.server.registry[|st.server.registry|..]
    ensures Valid(st) && StartsWith(request, AddPrefix) && Runnable(env.programs, Parse(request).name) ==>
      Pending(r.state) == Pending(st) + [Parse(request).name]
  {
    var h := Handle(st.server, env, request);
    Served(State(h.server, st.cursor), h.effects)
  }

  /** The scheduler runs the entry at its position in the live registry and moves on. */
  function RunNext(st: State, env: Env, o: RunOutcome): (r: State)
    requires st.cursor < |st.server.registry|
    ensures r.cursor == st.cursor + 1
    ensures r.server.registry == st.server.registry && r.server.snapshot == st.server.snapshot
    ensures forall q :: (Record(r.server.disk, env.root, q) ==
      Record(st.server.disk, env.root, q) + (if q == st.server.registry[st.cursor] then Written(o) else []))
    ensures Valid(st) ==> Valid(r)
  {
    var p := st.server.registry[st.cursor];
    var disk := RunProgram(st.server.disk, env.root, p, o);
    forall q
      ensures Record(disk, env.root, q) == Record(st.server.disk, env.root, q) + (if q == p then Written(o) else [])
    {
      RunProgramRecord(st.server.disk, env.root, p, o, q);
    }
    RunProgramWellFormed(st.server.disk, env.root, p, o);
    State(Server(st.server.registry, st.server.snapshot, disk), st.cursor + 1)
  }

  /**
   * `RunNext` with `run_program` as written: a failing `os.makedirs` escapes
   * and ends the scheduler thread, so there is no next state to run from.
   */
  function RunNextAsWritten(st: State, env: Env, o: RunOutcome): (r: Result<State, Crash>)
    requires st.cursor < |st.server.registry|
    ensures r.Failure? <==> o.DirFailed?
    ensures r.Failure? ==> r.error == Crash(st.server.registry[st.cursor])
    ensures r.Success? ==> r.value == RunNext(st, env, o)
  {
    match RunProgramAsWritten(st.server.disk, env.root, st.server.registry[st.cursor], o)
    case Success(disk) => Success(State(Server(st.server.registry, st.server.snapshot, disk), st.cursor + 1))
    case Failure(crash) => Failure(crash)
  }

  /** The state after the scheduler has run the next `k` entries, with no request in between. */
  function RunSteps(st: State, env: Env, runs: Runs, k: nat): (r: State)
    requires st.cursor + k <= |st.server.registry|
    ensures r.cursor == st.cursor + k
    ensures r.server.registry == st.server.registry && r.server.snapshot == st.server.snapshot
    decreases k
  {
    if k == 0 then st
    else
      var prev := RunSteps(st, env, runs, k - 1);
      RunNext(prev, env, runs(prev.cursor))
  }

  /** One scheduler step extends a batch in progress by exactly the entry at the cursor. */
  lemma RunNextIsCycleStep(st: State, env: Env, start: Disk, runs: Runs)
    requires st.cursor < |st.server.registry|
    requires st.server.disk == Cycle(st.server.registry, env.root, start, runs, st.cursor)
    ensures RunNext(st, env, runs(st.cursor)).server.disk == Cycle(st.server.registry, env.root, start, runs, st.cursor + 1)
  {
  }

  /** Running the next `k` entries of a batch in progress continues the same batch. */
  lemma {:induction false} RunStepsIsCycle(st: State, env: Env, start: Disk, runs: Runs, k: nat)
    requires st.cursor + k <= |st.server.registry|
    requires st.server.disk == Cycle(st.server.registry, env.root, start, runs, st.cursor)
    ensures RunSteps(st, env, runs, k).server.disk == Cycle(st.server.registry, env.root, start, runs, st.cursor + k)
    decreases k
  {
    if k > 0 {
      RunStepsIsCycle(st, env, start, runs, k - 1);
      RunNextIsCycleStep(RunSteps(st, env, runs, k - 1), env, start, runs);
    }
  }

  /** A whole batch is the scheduler's steps from the head of the registry to its end, then the restart. */
  lemma BatchIsSteps(st: State, env: Env, runs: Runs)
    requires st.cursor == 0
    ensures Restart(RunSteps(st, env, runs, |st.server.registry|)) == Batch(st, env, runs)
  {
    RunStepsIsCycle(st, env, st.server.disk, runs, |st.server.registry|);
  }

  /** After the last entry the scheduler sleeps and starts the next batch at the head of the registry. */
  function Restart(st: State): (r: State)
    requires st.cursor == |st.server.registry|
    ensures r.server == st.server && r.cursor == 0
    ensures Pending(r) == r.server.registry
  {
    State(st.server, 0)
  }

  /** A whole batch from the head of the registry with no request in between, ready to start the next one. */
  function Batch(st: State, env: Env, runs: Runs): (r: State)
    requires st.cursor == 0
    ensures r.cursor == 0
    ensures r.server.registry == st.server.registry && r.server.snapshot == st.server.snapshot
    ensures forall q :: (Record(r.server.disk, env.root, q) ==
      Record(st.server.disk, env.root, q) + Appended(st.server.registry, runs, q, |st.server.registry|))
    ensures Valid(st) ==> Valid(r)
  {
    var registry := st.server.registry;
    CycleRecords(registry, env.root, st.server.disk, runs, |registry|);
    CycleFrame(registry, env.root, st.server.disk, runs, |registry|);
    State(Server(registry, st.server.snapshot, Cycle(registry, env.root, st.server.disk, runs, |registry|)), 0)
  }

  /**
   * A batch that has run the first `cursor` entries of the live registry,
   * interrupted by any request, has run the first `cursor` entries of the
   * registry that request leaves: the batch goes on over the grown list.
   */
  lemma RequestMidBatch(st: State, env: Env, request: string, start: Disk, runs: Runs)
    requires Valid(st)
    requires st.server.disk == Cycle(st.server.registry, env.root, start, runs, st.cursor)
    ensures var after := Serve(st, env, request).state;
      after.server.disk == Cycle(after.server.registry, env.root, start, runs, after.cursor)
  {
    var after := Serve(st, env, request).state;
    var extra := after.server.registry[|st.server.registry|..];
    assert after.server.registry == st.server.registry + extra;
    CycleExtends(st.server.registry, extra, env.root, start, runs, st.cursor);
  }
}
