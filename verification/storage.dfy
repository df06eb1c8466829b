/**
 * What the service keeps on disk: the registry snapshot written by
 * `save_programs` and read by `load_programs`, the program files that ADD
 * inspects, and the per-program output records under the output root.
 */
module Storage {
  import opened Common

  /** The snapshot file: missing, holding a list of program names, or unreadable as such. */
  datatype Snapshot = Absent | Stored(programs: seq<string>) | Corrupt

  datatype LoadError = MalformedSnapshot

  /** `load_programs`: the stored list, the empty list when there is no file, an error when it does not parse. */
  function Load(snapshot: Snapshot): (r: Result<seq<string>, LoadError>)
    ensures r.Failure? <==> snapshot.Corrupt?
    ensures snapshot.Absent? ==> r == Success([])
  {
    match snapshot
    case Absent => Success([])
    case Stored(programs) => Success(programs)
    case Corrupt => Failure(MalformedSnapshot)
  }

  /** `save_programs`: overwrites the snapshot so that loading it gives back the list. */
  function Save(programs: seq<string>): (snapshot: Snapshot)
    ensures Load(snapshot) == Success(programs)
  {
    Stored(programs)
  }

  /** The two facts ADD asks of a program path: it exists, and it carries execute permission. */
  datatype ProgramFiles = ProgramFiles(existing: set<string>, executable: set<string>)

  /** `os.path.exists("")` is always false, so the empty name is never runnable. */
  predicate Runnable(files: ProgramFiles, p: string) {
    p != "" && p in files.existing && p in files.executable
  }

  /** A path as its segments, as `os.path.join` receives them. */
  type Path = seq<string>

  const OutputSuffix: string := "_output.txt"

  /** `join(root, p)`: the directory `run_program` creates for `p`. */
  function ProgramDir(root: string, p: string): Path {
    [root, p]
  }

  /** `join(root, p, p + "_output.txt")`: where `p`'s output record lives. */
  function OutputFile(root: string, p: string): Path {
    ProgramDir(root, p) + [p + OutputSuffix]
  }

  /** Distinct programs have distinct output records. */
  lemma OutputFileInjective(root: string)
    ensures forall p, q :: OutputFile(root, p) == OutputFile(root, q) ==> p == q
  {
    forall p, q | OutputFile(root, p) == OutputFile(root, q)
      ensures p == q
    {
      assert OutputFile(root, p)[1] == p;
    }
  }

  /** The output directory tree: the directories made so far and the files with their bytes. */
  datatype Disk = Disk(dirs: set<Path>, files: map<Path, Bytes>)

  function Parent(f: Path): Path
    requires |f| > 0
  {
    f[..|f| - 1]
  }

  /** Every file sits in a directory that exists. */
  predicate WellFormed(disk: Disk) {
    forall f :: f in disk.files ==> |f| > 0 && Parent(f) in disk.dirs
  }

  predicate HasRecord(disk: Disk, root: string, p: string) {
    OutputFile(root, p) in disk.files
  }

  /** The bytes of `p`'s output record, empty when there is none. */
  function Record(disk: Disk, root: string, p: string): Bytes {
    if HasRecord(disk, root, p) then disk.files[OutputFile(root, p)] else []
  }
}
