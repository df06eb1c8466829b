/**
 * `handle_client`: one received request is dispatched on its prefix. ADD
 * appends a program that exists and is executable and persists the
 * registry; GET replies with the program's output record and closes the
 * connection; any other request is dropped without a reply.
 */
module Handler {
  import opened Common
  import opened Fields
  import opened Protocol
  import opened Storage

  /** The state a request can see: the live registry, the snapshot file, the output tree. */
  datatype Server = Server(registry: seq<string>, snapshot: Snapshot, disk: Disk)

  /** What the handler may look at besides the server state: the program files and the output root. */
  datatype Env = Env(programs: ProgramFiles, root: string)

  /** Observable effects of a request, in the order they happen. */
  datatype Effect =
    | Reply(data: Bytes)                // bytes sent on the client socket
    | Persist(programs: seq<string>)    // the registry written to the snapshot file
    | Close                             // the connection is closed

  datatype Handled = Handled(server: Server, effects: seq<Effect>)

  /**
   * ADD: a program that exists and is executable is appended at the end of
   * the registry (duplicates allowed), acknowledged, and then persisted;
   * any other name changes nothing and gets the failure reply. The
   * connection stays open either way.
   */
  function AddProgram(s: Server, files: ProgramFiles, name: string): (r: Handled)
    ensures s.registry <= r.server.registry
    ensures r.server.registry[|s.registry|..] == if Runnable(files, name) then [name] else []
    ensures Runnable(files, name) ==> Load(r.server.snapshot) == Success(r.server.registry)
    ensures !Runnable(files, name) ==> r.server.snapshot == s.snapshot
    ensures r.effects == if Runnable(files, name) then [Reply(ProgramAdded), Persist(r.server.registry)] else [Reply(NotFoundOrNoExec)]
    ensures Close !in r.effects
    ensures r.server.disk == s.disk
  {
    if Runnable(files, name) then
      var registry := s.registry + [name];
      Handled(Server(registry, Save(registry), s.disk), [Reply(ProgramAdded), Persist(registry)])
    else
      Handled(s, [Reply(NotFoundOrNoExec)])
  }

  /**
   * GET: replies with the whole of the program's output record when there
   * is one, otherwise with the not-found text, and always closes. It reads
   * the record at the path `run_program` writes and changes nothing.
   */
  function FetchOutput(s: Server, root: string, name: string): (r: Handled)
    ensures r.server == s
    ensures |r.effects| == 2 && r.effects[1] == Close
    ensures HasRecord(s.disk, root, name) ==> r.effects[0] == Reply(s.disk.files[OutputFile(root, name)])
    ensures !HasRecord(s.disk, root, name) ==> r.effects[0] == Reply(OutputNotFound)
  {
    var data := if HasRecord(s.disk, root, name) then Record(s.disk, root, name) else OutputNotFound;
    Handled(s, [Reply(data), Close])
  }

  /** One request, dispatched on its prefix. */
  function Handle(s: Server, env: Env, request: string): (r: Handled)
    ensures !StartsWith(request, AddPrefix) && !StartsWith(request, GetPrefix) ==> r == Handled(s, [])
    ensures StartsWith(request, AddPrefix) ==> r == AddProgram(s, env.programs, Parse(request).name)
    ensures StartsWith(request, GetPrefix) ==> r == FetchOutput(s, env.root, Parse(request).name)
    ensures Close in r.effects <==> StartsWith(request, GetPrefix)
    ensures r.server.disk == s.disk
    ensures s.registry <= r.server.registry
    ensures Load(s.snapshot) == Success(s.registry) ==> Load(r.server.snapshot) == Success(r.server.registry)
  {
    match Parse(request)
    case Add(name) => AddProgram(s, env.programs, name)
    case Get(name) => FetchOutput(s, env.root, name)
    case Invalid => Handled(s, [])
  }
}
