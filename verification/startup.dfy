/**
 * Start-up: `__main__` extends the snapshot with the programs named on the
 * command line and saves it, then `server` loads the snapshot again to get
 * the live registry. Command-line programs are not checked for existence
 * or execute permission.
 */
module Startup {
  import opened Common
  import opened Storage

  datatype Boot = Boot(registry: seq<string>, snapshot: Snapshot)

  /**
   * The registry the service starts with: the persisted list (empty when
   * there is no snapshot) followed by the command-line programs in order.
   * An unreadable snapshot stops start-up.
   */
  function Seed(persisted: Snapshot, args: seq<string>): (r: Result<Boot, LoadError>)
    ensures r.Failure? <==> persisted.Corrupt?
    ensures r.Success? ==> r.value.registry == Load(persisted).value + args
    ensures r.Success? ==> Load(r.value.snapshot) == Success(r.value.registry)
    ensures r.Success? && args == [] ==> r.value.snapshot == persisted
  {
    if |args| > 0 then
      var programs :- Load(persisted);
      var saved := Save(programs + args);
      Success(Boot(Load(saved).value, saved))
    else
      var registry :- Load(persisted);
      Success(Boot(registry, persisted))
  }
}
