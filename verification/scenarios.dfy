/** End-to-end consequences of the model, each over all states that satisfy its premises. */
module Scenarios {
  import opened Common
  import opened Protocol
  import opened Storage
  import opened Engine
  import opened Scheduler
  import opened Handler
  import opened Service

  /** Registering the same runnable program twice appends it twice, after everything already registered. */
  lemma RegisterTwice(s: Server, env: Env, p: string)
    requires Runnable(env.programs, p) && ' ' !in p
    ensures var first := Handle(s, env, Format(Add(p)));
      && first.effects[0] == Reply(ProgramAdded)
      && Handle(first.server, env, Format(Add(p))).server.registry == s.registry + [p, p]
  {
    ParseFormat(Add(p));
    var first := Handle(s, env, Format(Add(p)));
    var second := Handle(first.server, env, Format(Add(p)));
    assert first.server.registry == s.registry + [p];
    assert second.server.registry == first.server.registry + [p];
  }

  /**
   * Registering a name that is missing or not executable fails, and a fetch
   * after a whole batch still finds no output for it.
   */
  lemma MissingProgramHasNoOutput(st: State, env: Env, p: string, runs: Runs)
    requires Valid(st) && st.cursor == 0 && !Runnable(env.programs, p) && ' ' !in p
    requires p !in st.server.registry && !HasRecord(st.server.disk, env.root, p)
    ensures var added := Serve(st, env, Format(Add(p)));
      && added.effects == [Reply(NotFoundOrNoExec)]
      && Serve(Batch(added.state, env, runs), env, Format(Get(p))).effects == [Reply(OutputNotFound), Close]
  {
    ParseFormat(Add(p));
    ParseFormat(Get(p));
    var added := Serve(st, env, Format(Add(p)));
    assert added.state.server == st.server;
    var registry := st.server.registry;
    CycleCreates(registry, env.root, st.server.disk, runs, |registry|);
    assert !OpenedFor(registry, runs, p, |registry|);
  }

  /**
   * A program registered and then run by a whole batch, whose run prints
   * `out`, is fetched as its earlier record followed by `out`, and the
   * connection is closed.
   */
  lemma FetchShowsLatestRun(st: State, env: Env, p: string, runs: Runs, out: Bytes)
    requires Valid(st) && st.cursor == 0
    requires Runnable(env.programs, p) && ' ' !in p
    requires runs(|st.server.registry|) == Exited(out)
    ensures var added := Serve(st, env, Format(Add(p)));
      var fetched := Serve(Batch(added.state, env, runs), env, Format(Get(p)));
      && added.effects[0] == Reply(ProgramAdded)
      && |fetched.effects| == 2 && fetched.effects[1] == Close
      && fetched.effects[0].Reply? && EndsWith(fetched.effects[0].data, out)
  {
    ParseFormat(Add(p));
    ParseFormat(Get(p));
    var added := Serve(st, env, Format(Add(p)));
    var registry := added.state.server.registry;
    assert registry == st.server.registry + [p];
    var done := Batch(added.state, env, runs);
    var n := |st.server.registry|;
    assert Appended(registry, runs, p, n + 1) == Appended(registry, runs, p, n) + out;
    CycleCreates(registry, env.root, added.state.server.disk, runs, n + 1);
    assert OpenedFor(registry, runs, p, n + 1);
    assert HasRecord(done.server.disk, env.root, p);
    assert Record(done.server.disk, env.root, p) == Record(added.state.server.disk, env.root, p) + Appended(registry, runs, p, n + 1);
  }
}
