/**
 * `run_program`: make the program's output directory, open its output
 * record for appending, run the program with both output streams going to
 * the record, and log the exit status. The child process is foreign code,
 * so each run is given its outcome by the environment.
 */
module Engine {
  import opened Common
  import opened Storage

  datatype RunOutcome =
    | DirFailed             // `os.makedirs` raised
    | CannotOpen            // the record could not be opened for appending
    | CannotLaunch          // the record was opened, then `subprocess.run` raised
    | Exited(output: Bytes) // the child ran; the bytes it wrote to stdout and stderr

  /** The bytes a run appends to the record. */
  function Written(o: RunOutcome): Bytes {
    if o.Exited? then o.output else []
  }

  /** Whether the run got as far as opening (and so creating) the record. */
  predicate Opened(o: RunOutcome) {
    o.CannotLaunch? || o.Exited?
  }

  /**
   * One run of `p`, with every failure caught and logged. Only `p`'s
   * directory and `p`'s record change, and the record only grows.
   */
  function RunProgram(disk: Disk, root: string, p: string, o: RunOutcome): (after: Disk)
    ensures after.dirs == if o.DirFailed? then disk.dirs else disk.dirs + {ProgramDir(root, p)}
  {
    if o.DirFailed? then disk
    else
      var dirs := disk.dirs + {ProgramDir(root, p)};
      if o.CannotOpen? then Disk(dirs, disk.files)
      else
        var f := OutputFile(root, p);
        Disk(dirs, disk.files[f := Record(disk, root, p) + Written(o)])
  }

  /** A run appends its output to `p`'s record and to no other record. */
  lemma RunProgramRecord(disk: Disk, root: string, p: string, o: RunOutcome, q: string)
    ensures Record(RunProgram(disk, root, p, o), root, q) == Record(disk, root, q) + (if q == p then Written(o) else [])
  {
    OutputFileInjective(root);
  }

  /** A run creates `p`'s record exactly when it gets as far as opening it, and creates no other. */
  lemma RunProgramCreates(disk: Disk, root: string, p: string, o: RunOutcome, q: string)
    ensures HasRecord(RunProgram(disk, root, p, o), root, q) <==> HasRecord(disk, root, q) || (q == p && Opened(o))
  {
    OutputFileInjective(root);
  }

  /** A run leaves every file other than `p`'s record as it was. */
  lemma RunProgramFrame(disk: Disk, root: string, p: string, o: RunOutcome, f: Path)
    requires f != OutputFile(root, p)
    ensures f in RunProgram(disk, root, p, o).files <==> f in disk.files
    ensures f in disk.files ==> RunProgram(disk, root, p, o).files[f] == disk.files[f]
  {
  }

  /** A run never leaves a file outside an existing directory. */
  lemma RunProgramWellFormed(disk: Disk, root: string, p: string, o: RunOutcome)
    ensures WellFormed(disk) ==> WellFormed(RunProgram(disk, root, p, o))
  {
    if WellFormed(disk) && !o.DirFailed? && !o.CannotOpen? {
      assert Parent(OutputFile(root, p)) == ProgramDir(root, p);
    }
  }

  /** The exception that leaves `run_program` when `os.makedirs` fails. */
  datatype Crash = Crash(program: string)

  /**
   * `run_program` as written: `os.makedirs` sits before the `try`, so its
   * failure escapes to the caller; everything after it behaves as above.
   */
  function RunProgramAsWritten(disk: Disk, root: string, p: string, o: RunOutcome): (r: Result<Disk, Crash>)
    ensures r.Failure? <==> o.DirFailed?
    ensures r.Failure? ==> r.error == Crash(p)
    ensures r.Success? ==> r.value == RunProgram(disk, root, p, o)
  {
    if o.DirFailed? then Failure(Crash(p)) else Success(RunProgram(disk, root, p, o))
  }
}
