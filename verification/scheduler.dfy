/**
 * One batch of `run_programs`: every registry entry is run once, in
 * registry order, by `run_program`. The environment decides the outcome of
 * the run at each position of the batch.
 */
module Scheduler {
  import opened Common
  import opened Storage
  import opened Engine

  /** The outcome of the run at position k of a batch. */
  type Runs = nat -> RunOutcome

  /** The disk after the first `n` entries of the registry have run. */
  function Cycle(registry: seq<string>, root: string, disk: Disk, runs: Runs, n: nat): Disk
    requires n <= |registry|
    decreases n
  {
    if n == 0 then disk
    else RunProgram(Cycle(registry, root, disk, runs, n - 1), root, registry[n - 1], runs(n - 1))
  }

  /** What `q`'s record should gain from the first `n` runs: the output of each run of `q`, in order. */
  function Appended(registry: seq<string>, runs: Runs, q: string, n: nat): Bytes
    requires n <= |registry|
    decreases n
  {
    if n == 0 then []
    else Appended(registry, runs, q, n - 1) + (if registry[n - 1] == q then Written(runs(n - 1)) else [])
  }

  /** Some run of `q` among the first `n` opened its record. */
  predicate OpenedFor(registry: seq<string>, runs: Runs, q: string, n: nat)
    requires n <= |registry|
  {
    exists i :: 0 <= i < n && registry[i] == q && Opened(runs(i))
  }

  /** The output records of the first `n` entries. */
  function Touched(registry: seq<string>, root: string, n: nat): set<Path>
    requires n <= |registry|
    decreases n
  {
    if n == 0 then {} else Touched(registry, root, n - 1) + {OutputFile(root, registry[n - 1])}
  }

  /** After the first `n` runs, each record is its old bytes followed by the output of its own runs, in registry order. */
  lemma {:induction false} CycleRecords(registry: seq<string>, root: string, disk: Disk, runs: Runs, n: nat)
    requires n <= |registry|
    ensures forall q :: Record(Cycle(registry, root, disk, runs, n), root, q) == Record(disk, root, q) + Appended(registry, runs, q, n)
  {
    forall q
      ensures Record(Cycle(registry, root, disk, runs, n), root, q) == Record(disk, root, q) + Appended(registry, runs, q, n)
    {
      CycleRecord(registry, root, disk, runs, n, q);
    }
  }

  lemma {:induction false} CycleRecord(registry: seq<string>, root: string, disk: Disk, runs: Runs, n: nat, q: string)
    requires n <= |registry|
    ensures Record(Cycle(registry, root, disk, runs, n), root, q) == Record(disk, root, q) + Appended(registry, runs, q, n)
    decreases n
  {
    if n > 0 {
      CycleRecord(registry, root, disk, runs, n - 1, q);
      var before := Cycle(registry, root, disk, runs, n - 1);
      var step := if q == registry[n - 1] then Written(runs(n - 1)) else [];
      RunProgramRecord(before, root, registry[n - 1], runs(n - 1), q);
      assert Record(Cycle(registry, root, disk, runs, n), root, q) == Record(before, root, q) + step;
      assert Appended(registry, runs, q, n) == Appended(registry, runs, q, n - 1) + step;
    }
  }

  /** After the first `n` runs, a record exists exactly when it did before or one of its program's runs opened it. */
  lemma {:induction false} CycleCreates(registry: seq<string>, root: string, disk: Disk, runs: Runs, n: nat)
    requires n <= |registry|
    ensures forall q :: HasRecord(Cycle(registry, root, disk, runs, n), root, q) <==> HasRecord(disk, root, q) || OpenedFor(registry, runs, q, n)
    decreases n
  {
    if n > 0 {
      CycleCreates(registry, root, disk, runs, n - 1);
      var before := Cycle(registry, root, disk, runs, n - 1);
      var p := registry[n - 1];
      var after := RunProgram(before, root, p, runs(n - 1));
      assert after == Cycle(registry, root, disk, runs, n);
      forall q
        ensures HasRecord(after, root, q) <==> HasRecord(disk, root, q) || OpenedFor(registry, runs, q, n)
      {
        RunProgramCreates(before, root, p, runs(n - 1), q);
        if OpenedFor(registry, runs, q, n) && !OpenedFor(registry, runs, q, n - 1) {
          var i :| 0 <= i < n && registry[i] == q && Opened(runs(i));
          assert i == n - 1;
        }
        if q == p && Opened(runs(n - 1)) {
          assert OpenedFor(registry, runs, q, n);
        }
      }
    }
  }

  /** Files that are no entry's record keep their presence and bytes; no directory disappears; well-formedness is kept. */
  lemma {:induction false} CycleFrame(registry: seq<string>, root: string, disk: Disk, runs: Runs, n: nat)
    requires n <= |registry|
    ensures forall f :: f !in Touched(registry, root, n) ==> (f in Cycle(registry, root, disk, runs, n).files <==> f in disk.files)
    ensures forall f :: f !in Touched(registry, root, n) && f in disk.files ==> Cycle(registry, root, disk, runs, n).files[f] == disk.files[f]
    ensures disk.dirs <= Cycle(registry, root, disk, runs, n).dirs
    ensures WellFormed(disk) ==> WellFormed(Cycle(registry, root, disk, runs, n))
    decreases n
  {
    if n > 0 {
      CycleFrame(registry, root, disk, runs, n - 1);
      var before := Cycle(registry, root, disk, runs, n - 1);
      var after := RunProgram(before, root, registry[n - 1], runs(n - 1));
      assert after == Cycle(registry, root, disk, runs, n);
      assert Touched(registry, root, n) == Touched(registry, root, n - 1) + {OutputFile(root, registry[n - 1])};
      forall f | f !in Touched(registry, root, n) {
        RunProgramFrame(before, root, registry[n - 1], runs(n - 1), f);
      }
      RunProgramWellFormed(before, root, registry[n - 1], runs(n - 1));
    }
  }

  /** The batch loop of `run_programs` over a registry no request changes meanwhile. */
  method RunCycle(registry: seq<string>, root: string, disk: Disk, runs: Runs) returns (after: Disk)
    ensures after == Cycle(registry, root, disk, runs, |registry|)
    ensures forall q :: Record(after, root, q) == Record(disk, root, q) + Appended(registry, runs, q, |registry|)
    ensures forall q :: HasRecord(after, root, q) <==> HasRecord(disk, root, q) || OpenedFor(registry, runs, q, |registry|)
  {
    after := disk;
    var i := 0;
    while i < |registry|
      invariant i <= |registry|
      invariant after == Cycle(registry, root, disk, runs, i)
    {
      after := RunProgram(after, root, registry[i], runs(i));
      i := i + 1;
    }
    CycleRecords(registry, root, disk, runs, |registry|);
    CycleCreates(registry, root, disk, runs, |registry|);
  }

  /**
   * Entries appended to the registry after position `n` do not change what
   * the first `n` runs did: a batch that has reached position `n` carries on
   * the same way after a registration.
   */
  lemma {:induction false} CycleExtends(registry: seq<string>, extra: seq<string>, root: string, disk: Disk, runs: Runs, n: nat)
    requires n <= |registry|
    ensures Cycle(registry + extra, root, disk, runs, n) == Cycle(registry, root, disk, runs, n)
    decreases n
  {
    if n > 0 {
      CycleExtends(registry, extra, root, disk, runs, n - 1);
      assert (registry + extra)[n - 1] == registry[n - 1];
    }
  }

  /** How a batch ends as written: finished, or stopped by an exception at some position. */
  datatype Halt = Completed | Crashed(at: nat)

  datatype CycleEnd = CycleEnd(disk: Disk, halt: Halt)

  /** The first `n` positions of a batch with `run_program` as written: the first crash ends the thread. */
  function CycleAsWritten(registry: seq<string>, root: string, disk: Disk, runs: Runs, n: nat): CycleEnd
    requires n <= |registry|
    decreases n
  {
    if n == 0 then CycleEnd(disk, Completed)
    else
      var prev := CycleAsWritten(registry, root, disk, runs, n - 1);
      if prev.halt.Crashed? then prev
      else
        match RunProgramAsWritten(prev.disk, root, registry[n - 1], runs(n - 1))
        case Success(d) => CycleEnd(d, Completed)
        case Failure(_) => CycleEnd(prev.disk, Crashed(n - 1))
  }

  /** Without a failing `os.makedirs`, the batch as written and the corrected batch agree. */
  lemma {:induction false} CycleAsWrittenAgrees(registry: seq<string>, root: string, disk: Disk, runs: Runs, n: nat)
    requires n <= |registry|
    requires forall i :: 0 <= i < n ==> !runs(i).DirFailed?
    ensures CycleAsWritten(registry, root, disk, runs, n) == CycleEnd(Cycle(registry, root, disk, runs, n), Completed)
    decreases n
  {
    if n > 0 {
      CycleAsWrittenAgrees(registry, root, disk, runs, n - 1);
      var prev := CycleAsWritten(registry, root, disk, runs, n - 1);
      assert prev.halt == Completed;
      var r := RunProgramAsWritten(prev.disk, root, registry[n - 1], runs(n - 1));
      assert !runs(n - 1).DirFailed?;
      assert r.Success?;
    }
  }

  /**
   * As written, the batch ends at the first position whose `os.makedirs`
   * fails: the disk is what the runs before it left, and nothing after it runs.
   */
  lemma {:induction false} CycleAsWrittenStops(registry: seq<string>, root: string, disk: Disk, runs: Runs, n: nat, i: nat)
    requires i < n <= |registry|
    requires runs(i).DirFailed?
    requires forall j :: 0 <= j < i ==> !runs(j).DirFailed?
    ensures CycleAsWritten(registry, root, disk, runs, n) == CycleEnd(Cycle(registry, root, disk, runs, i), Crashed(i))
    decreases n
  {
    if n == i + 1 {
      CycleAsWrittenAgrees(registry, root, disk, runs, i);
    } else {
      CycleAsWrittenStops(registry, root, disk, runs, n - 1, i);
    }
  }

  /** An entry whose output path is an existing file; `join` returns that file's own path. */
  const AbsoluteJob: string := "/srv/jobs/report.py"

  /**
   * The batch as written stops at the first failing `os.makedirs`, and the
   * entry after it never runs; the corrected batch runs it.
   */
  lemma CrashStopsBatch(root: string, disk: Disk, runs: Runs, out: Bytes)
    requires runs(0) == DirFailed && runs(1) == Exited(out)
    requires !HasRecord(disk, root, "backup.py")
    ensures var registry := [AbsoluteJob, "backup.py"];
      && CycleAsWritten(registry, root, disk, runs, 2).halt == Crashed(0)
      && !HasRecord(CycleAsWritten(registry, root, disk, runs, 2).disk, root, "backup.py")
      && Record(Cycle(registry, root, disk, runs, 2), root, "backup.py") == out
  {
    var registry := [AbsoluteJob, "backup.py"];
    CycleRecords(registry, root, disk, runs, 2);
    assert Appended(registry, runs, "backup.py", 1) == [];
  }
}
