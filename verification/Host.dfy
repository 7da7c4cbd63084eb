/** What the framework takes from the Soroban host: 32-bit arithmetic that traps on
    overflow, dynamically typed values, and the errors an invocation can end with. */
module Host {

  const U32_MAX := 0xFFFF_FFFF

  /** Rust's `u32`. The contract is built with overflow checks on, so arithmetic that
      leaves this range is a trap and never a wrap-around. */
  type u32 = x: int | 0 <= x <= U32_MAX

  function Min(a: int, b: int): int {
    if a <= b then a else b
  }

  function Max(a: int, b: int): int {
    if a >= b then a else b
  }

  function SaturatingAdd(a: u32, b: u32): u32 {
    if a + b <= U32_MAX then a + b else U32_MAX
  }

  /** A host value. `Record` is the symbol-keyed map a `#[contracttype]` struct encodes to
      and `Vector` the list a `#[contracttype]` enum encodes to. */
  datatype Val =
    | Void
    | Word(bits: int)
    | Symbol(name: string)
    | Vector(items: seq<Val>)
    | Record(fields: map<string, Val>)

  datatype Option<+T> = None | Some(value: T)

  /** `MigrationError`, plus the trap that aborts an invocation without naming an error. */
  datatype MigrationError =
    | NotInitialized
    | StateNewerThanContract
    | VersionMismatch
    | MigrationAlreadyActive
    | NoActiveMigration
    | WrongMigration
    | BatchTooLarge
    | BatchSizeZero
    | CorruptIndex
    | OrphanedEntries
    | MigrationNotComplete
    | DownNotSupported
    | InvalidVersion
    | NotSequential
    | AlreadyCompleted
    | UnknownExecutableTag
    | Trap

  datatype Result<+T> = Ok(value: T) | Err(error: MigrationError)

  /** What storage holds at `key`, if anything. */
  function Lookup(entries: map<Val, Val>, key: Val): Option<Val> {
    if key in entries then Some(entries[key]) else None
  }

  /** Stores `entry` at `key`, or removes what is there. */
  function Stored(entries: map<Val, Val>, key: Val, entry: Option<Val>): (after: map<Val, Val>)
    ensures forall k :: Lookup(after, k) == if k == key then entry else Lookup(entries, k)
  {
    match entry
    case Some(value) => entries[key := value]
    case None => entries - {key}
  }

  /** Two stores that answer every read alike are the same store. */
  lemma SameReadsSameEntries(a: map<Val, Val>, b: map<Val, Val>)
    requires forall k :: Lookup(a, k) == Lookup(b, k)
    ensures a == b
  {
    forall k ensures k in a <==> k in b {
      assert Lookup(a, k) == Lookup(b, k);
    }
    forall k | k in a ensures a[k] == b[k] {
      assert Lookup(a, k) == Lookup(b, k);
    }
  }
}
