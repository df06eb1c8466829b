# Program-runner server: registry, dispatch and scheduler model

A Dafny model of the core of `server.py`, a small service that keeps a
registry of programs, runs every registered program once per interval with
its output appended to a per-program output record, and answers two
requests over a socket: `ADD <program>` registers a program that exists and
is executable, and `GET <program>` sends back the program's whole output
record and closes the connection.

The model is functional. The file system is reduced to three things:
- the snapshot file (`Storage.Snapshot`: absent, a stored list, or unreadable);
- the facts ADD checks about a program path (`Storage.ProgramFiles`);
- the output tree under the output root (`Storage.Disk`: directories and files with their bytes).

A child process is foreign code. Each run is therefore given its outcome
(`Engine.RunOutcome`) by the environment: `os.makedirs` failed, the record
could not be opened, the launch failed, or the child exited having written
some bytes.

Modules, one per part of `server.py`:
- `Fields`: `str.split(" ")`, with `Join` as its inverse.
- `Protocol`: request parsing and the reply texts.
- `Storage`: `load_programs`, `save_programs`, output paths.
- `Engine`: `run_program`.
- `Scheduler`: one batch of `run_programs`.
- `Handler`: `handle_client`.
- `Startup`: the `__main__` seeding.
- `Service`: requests and scheduler runs interleaved one at a time.
- `Scenarios`: end-to-end consequences.

In these places the model follows the code where a reader might expect otherwise:
- A request that starts with neither `"ADD "` nor `"GET "` gets no reply. The code does not close the connection for it and does not log it (server.py:57-81). It has no `else` branch.
- The scheduler iterates the live registry list, not a copy (server.py:100). A program registered while a batch is under way is run later in that same batch. `Service.Serve` and `Service.RequestMidBatch` state this.
- A failed ADD has one reply text for both a missing file and a missing execute permission (server.py:68).
- Commands are `ADD` and `GET` and are case-sensitive (server.py:57, 71).
- An unreadable snapshot stops start-up, because `json.load` raises and nothing catches it (server.py:29). `Startup.Seed` returns a `Failure` for it.

## Model

| member | source | states |
|---|---|---|
| Fields.Split | server.py:58 | splitting gives at least one field, and no field contains the separator |
| Fields.JoinSplit | server.py:58 | joining the fields of `split(" ")` with single spaces gives back the request, so splitting loses no text |
| Fields.SplitJoin | server.py:58 | splitting joined separator-free fields gives the same fields back, so the field list is determined by the text |
| Fields.SplitFirst | server.py:58 | the first field `split` returns is the text before the first separator, or the whole text when there is none |
| Fields.SplitAt | server.py:58 | a separator after a separator-free head closes the first field there; the fields after it are those of the rest |
| Protocol.CommandFields | server.py:57-58 | a request starting with a three-letter command and a space always has a second field (index 1 never fails), and that field is the text after the prefix up to the next space |
| Protocol.Argument | server.py:58 | the name is a prefix of the text after `"ADD "`/`"GET "`, holds no space, and ends at the end of the request or at a space (possibly empty) |
| Protocol.Parse | server.py:57-72 | ADD exactly when the request starts with `"ADD "`, GET exactly when it starts with `"GET "`, otherwise invalid; the name is the text after the prefix up to the next space |
| Protocol.ParseFormat | client.py:22-28 | a command a client types, with a name free of spaces, is parsed back by the server as the same command |
| Protocol.ParseIgnoresTrailingFields | server.py:58 | anything after a space following the name is ignored |
| Protocol.FormatParse | server.py:57-72 | every valid request is the formatted command followed by nothing or by a space and more text |
| Storage.Load | server.py:24-30 | loading fails exactly on an unreadable snapshot, and a missing snapshot loads as the empty list |
| Storage.Save | server.py:33-35 | loading a saved snapshot gives back exactly the saved list |
| Storage.OutputFileInjective | server.py:73 | distinct programs have distinct output paths `join(dir, p, p + "_output.txt")` |
| Engine.RunProgram | server.py:39-40 | the corrected run (a failing `os.makedirs` is caught like the other failures; see Findings) creates `p`'s output directory unless `os.makedirs` fails, and no other directory |
| Engine.RunProgramRecord | server.py:44-45 | a run appends its output bytes to `p`'s record and leaves every other program's record unchanged |
| Engine.RunProgramCreates | server.py:41-49 | a run creates `p`'s record exactly when it gets as far as opening it, even if the launch then fails, and creates no other record |
| Engine.RunProgramFrame | server.py:38-49 | a run changes no file other than `p`'s record |
| Engine.RunProgramWellFormed | server.py:39-44 | the record is opened only inside the directory made for it, so no file is left outside an existing directory |
| Engine.RunProgramAsWritten | server.py:38-49 | as written, a failing `os.makedirs` escapes `run_program` as an exception naming `p`; every other outcome behaves as the corrected run |
| Scheduler.CycleRecord | server.py:100-101 | after the first n runs of a batch, a program's record is its old bytes followed by the output of each of its own runs in registry order |
| Scheduler.CycleRecords | server.py:100-101 | the same, for every program at once; programs outside the registry keep their records. With the corrected run a failed run does not stop later entries; as written, a failing `os.makedirs` does (see Findings) |
| Scheduler.CycleCreates | server.py:100-101 | after the first n runs, a record exists exactly when it existed before or one of its program's runs opened it |
| Scheduler.CycleFrame | server.py:98-102 | a batch changes no file that is not some entry's record, removes no directory, and keeps every file inside an existing directory |
| Scheduler.RunCycle | server.py:98-102 | the batch loop runs each entry once, in order, and leaves every record as the old bytes followed by the outputs of that program's runs |
| Scheduler.CycleExtends | server.py:100 | entries appended after position n do not change what the first n runs of the batch did |
| Scheduler.CycleAsWrittenAgrees | server.py:98-102 | when no `os.makedirs` fails, the batch as written completes and equals the corrected batch |
| Scheduler.CycleAsWrittenStops | server.py:38-49 | as written, for every registry, a batch whose first failing `os.makedirs` is at position i ends there crashed, with the disk the first i runs left and no later entry run |
| Scheduler.CrashStopsBatch | server.py:39-41 | as written, a failing `os.makedirs` for the first entry ends the batch and the second entry never runs; the corrected batch runs it |
| Handler.AddProgram | server.py:57-68 | a runnable name is appended at the end and nothing earlier changes; duplicates are allowed. Success leaves a snapshot that reloads to the new registry, and its effects are exactly the reply "Program added" followed by persisting the new registry. Failure changes neither registry nor snapshot, and its only effect is the reply "Program not found or no execute permission". ADD never closes the connection |
| Handler.FetchOutput | server.py:71-81 | GET changes no state; it replies with the full record at the path `run_program` writes when it exists, otherwise with "Output not found", and then closes |
| Handler.Handle | server.py:53-81 | a request is dispatched on its prefix; any other request has no effect; only GET closes; no request touches the output tree; the registry only grows; a snapshot that reloads to the registry still does afterwards |
| Startup.Seed | server.py:136-140 | the starting registry is the persisted list (empty when there is no snapshot) followed by the command-line programs, unchecked; afterwards the snapshot reloads to it; without arguments the snapshot is left alone; an unreadable snapshot stops start-up |
| Service.Start | server.py:92 | the service starts at the head of its first batch with the seeded registry, and the invariant holds when the output tree is well formed |
| Service.Serve | server.py:104-109 | a request handled during a batch keeps the batch's position. What is left to run only grows, and a successful ADD adds its program at the end of what this batch has still to run. The invariant is kept |
| Service.RunNext | server.py:100-101 | the scheduler runs the entry at its position in the live registry with the corrected run: only that program's record gains its output, the registry and snapshot stay, and the invariant is kept |
| Service.RunNextAsWritten | server.py:38-49 | as written, the scheduler step fails exactly when `os.makedirs` fails, with the crash naming the entry, leaving no state to continue from; otherwise it is `RunNext` |
| Service.RunSteps | server.py:100-101 | running the next k entries moves the cursor by k and leaves the registry and snapshot alone |
| Service.RunNextIsCycleStep | server.py:100-101 | one scheduler step extends a batch in progress by exactly the entry at the cursor |
| Service.RunStepsIsCycle | server.py:100-101 | the next k scheduler steps of a batch in progress are the next k runs of that batch |
| Service.BatchIsSteps | server.py:98-102 | a whole batch equals the scheduler's steps from the head of the registry to its end followed by the restart |
| Service.Restart | server.py:99-102 | after the last entry the next batch starts at the head of the registry |
| Service.Batch | server.py:98-102 | a whole batch, started at the head of the registry, leaves registry and snapshot unchanged, appends to each record the outputs of its own runs, and keeps the invariant |
| Service.RequestMidBatch | server.py:100 | a batch interrupted by a request continues as the same batch over the registry the request leaves |
| Scenarios.RegisterTwice | server.py:60-61 | registering one runnable program twice appends it twice after the existing entries |
| Scenarios.MissingProgramHasNoOutput | server.py:66-81 | registering a missing or non-executable program fails with the failure reply, and a fetch after a whole batch replies "Output not found" and closes |
| Scenarios.FetchShowsLatestRun | server.py:57-81 | after registering a program and one whole batch in which its run prints some bytes, a fetch returns a record ending in those bytes and closes |

## Left out

- Sockets: `recv(1024)` truncation, UTF-8 decoding, `sendfile` and the accept loop. A request is an already-received text, and a reply is the bytes sent.
- Threads and the unsynchronised shared list. The model covers only executions in which each request and each scheduler run happens as a whole (`Service`); finer interleavings are not modelled. Nothing in server.py makes a request or a run atomic: two concurrent successful ADDs each call `save_programs`, which opens the snapshot in 'w' mode (server.py:33-35), and their writes can interleave into an unreadable snapshot.
- The child process: `subprocess.run(["python", name])`, its exit code and its log line. Each run's outcome is an input.
- The exact output of `os.path.join` and JSON serialisation. Paths are segment lists keyed by the name, and `load(save(x)) == x` holds by construction. Names containing `/` or `..` are not modelled: a relative name such as `jobs/a.py` gets a record path whose parent `os.makedirs` never made, so its `open` fails and the run is a caught `CannotOpen`, which the model only reaches as an input outcome. An absolute name that is an existing file is the `DirFailed` case (see Findings). Any other absolute name (a searchable directory passes ADD; a missing command-line name is never checked) makes `join` discard the output root, so the directory and the record land outside the output tree; the model does not represent that.
- A `save_programs` that raises after a successful ADD. That exception ends the handler thread with the registry grown. If `open` itself fails, the snapshot is stale. If `json.dump` or the close fails after `open` has truncated the file (server.py:34-35), the snapshot is empty or partial, so the next start-up fails at `json.load` (server.py:29, 92).
- The KeyboardInterrupt path that saves the registry on shutdown, together with logging, argument parsing and `time.sleep`.
- client.py beyond the command text it sends (`Protocol.Format`). Its local files and receive loop are not part of this model.

- Service.RunNext: uses the corrected `run_program`, so a `DirFailed` run moves the cursor on; as written the scheduler thread ends there (`Service.RunNextAsWritten` gives no next state). A stopped scheduler is not a state of `Service.State`.
- Service.Batch: uses the corrected `run_program` through `Scheduler.Cycle`; as written the batch stops at the first failing `os.makedirs` (`Scheduler.CycleAsWritten`).
- `ProgramFiles` is otherwise unconstrained: which paths exist and are executable is an input. Only the empty name is excluded by `Storage.Runnable`, as `os.path.exists("")` is always false.

## Findings

| source | as written | input that shows it | evidently intended | confidence | as-written member | corrected member |
|---|---|---|---|---|---|---|
| server.py:39-41 | `os.makedirs` runs before the `try`, so its exception leaves `run_program` and `run_programs`, ending the scheduler thread for good | a registered absolute path to an existing executable file, such as `/srv/jobs/report.py`: `os.path.join` returns that file's own path and `os.makedirs(..., exist_ok=True)` raises `FileExistsError`; `Scheduler.CrashStopsBatch` shows the next entry never runs | a failure to prepare one program's output is logged like any other run failure, and the batch goes on | medium, not executed | Scheduler.CycleAsWritten | Scheduler.Cycle |
