/** The stored schema version and the version-aware write path (`version.rs`, `store.rs`). */
module Version {
  import opened Host
  import opened KeyLog
  import opened Storage
  import Index

  const INITIAL_VERSION: u32 := 1

  /** `version::require`: the stored version must be exactly the expected one. */
  function Gate(version: Option<u32>, expected: u32): Result<()> {
    match version
    case None => Err(NotInitialized)
    case Some(actual) =>
      if actual == expected then Ok(())
      else if actual > expected then Err(StateNewerThanContract)
      else Err(VersionMismatch)
  }

  function InitializeStep(s: Snapshot, version: u32): Attempt<u32> {
    if version == 0 then Err(InvalidVersion)
    else match s.version
      case Some(existing) => if existing == version then Ok((s, existing)) else Err(VersionMismatch)
      case None => Ok((s.(version := Some(version)), version))
  }

  function AdoptStep(s: Snapshot, version: u32): Attempt<u32> {
    if version == 0 then Err(InvalidVersion)
    else if s.record.Some? && s.record.value.IsActive() then Err(MigrationAlreadyActive)
    else Ok((s.(version := Some(version)), version))
  }

  /** The version an entry written right now conforms to. */
  function CurrentVersion(s: Snapshot): u32 {
    if s.record.Some? && s.record.value.status.Running? then s.record.value.to
    else if s.version.Some? then s.version.value
    else INITIAL_VERSION
  }

  /** `store::put`: write the entry and log its key under the current version. */
  function PutStep(s: Snapshot, key: Val, value: Val): Attempt<()> {
    match Registered(s.logs, CurrentVersion(s), key)
    case Err(e) => Err(e)
    case Ok(logs) => Ok((s.(logs := logs, entries := Stored(s.entries, key, Some(value))), ()))
  }

  method Require(env: Env, expected: u32) returns (r: Result<()>)
    ensures r == Gate(env.version, expected)
    ensures r.Ok? <==> env.version == Some(expected)
    ensures r == Err(NotInitialized) <==> env.version.None?
    ensures r == Err(StateNewerThanContract) <==> env.version.Some? && env.version.value > expected
    ensures r == Err(VersionMismatch) <==> env.version.Some? && env.version.value < expected
  {
    match env.version {
      case None => r := Err(NotInitialized);
      case Some(actual) =>
        r := if actual == expected then Ok(())
             else if actual > expected then Err(StateNewerThanContract)
             else Err(VersionMismatch);
    }
  }

  method Initialize(env: Env, version: u32) returns (r: Result<u32>)
    modifies env
    ensures r == Returned(InitializeStep(old(env.View()), version))
    ensures env.View() == Committed(old(env.View()), InitializeStep(old(env.View()), version))
  {
    if version == 0 {
      return Err(InvalidVersion);
    }
    match env.version {
      case Some(existing) =>
        r := if existing == version then Ok(existing) else Err(VersionMismatch);
      case None =>
        env.version := Some(version);
        r := Ok(version);
    }
  }

  method Adopt(env: Env, version: u32) returns (r: Result<u32>)
    modifies env
    ensures r == Returned(AdoptStep(old(env.View()), version))
    ensures env.View() == Committed(old(env.View()), AdoptStep(old(env.View()), version))
  {
    if version == 0 {
      return Err(InvalidVersion);
    }
    if env.record.Some? && env.record.value.IsActive() {
      return Err(MigrationAlreadyActive);
    }
    env.version := Some(version);
    r := Ok(version);
  }

  method Put(env: Env, key: Val, value: Val) returns (r: Result<()>)
    modifies env
    ensures r == Returned(PutStep(old(env.View()), key, value))
    ensures env.View() == Committed(old(env.View()), PutStep(old(env.View()), key, value))
  {
    ghost var before := env.View();
    var saved := env.View();
    env.entries := env.entries[key := value];
    var version := if env.record.Some? && env.record.value.status.Running? then env.record.value.to
                   else if env.version.Some? then env.version.value
                   else INITIAL_VERSION;
    r := Index.Register(env, version, key);
    if r.Err? {
      env.Restore(saved);
    }
  }

  method Remove(env: Env, key: Val)
    modifies env
    ensures env.View() == old(env.View()).(entries := Stored(old(env.View()).entries, key, None))
  {
    env.entries := env.entries - {key};
  }
}
