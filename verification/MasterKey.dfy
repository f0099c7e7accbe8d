/**
The life of the master key (src-tauri/src/state.rs, src-tauri/src/adapters/keyring.rs): found in
the keychain or created, cached for the process, lost and reset. One keychain entry, commands one
after the other. A secret opens only under the key it was sealed with.
*/
module MasterKey {
  import opened Prelude

  type Key = nat

  type SecretId = nat

  /** The keychain entry. */
  datatype Slot = Empty | Holds(key: Key) | Corrupt

  /** Where a secret is stored. The last kind is the key of an assistant profile, kept under `ai_key:<id>`. */
  datatype Kind = Password | SshSecret | SignIn | SingleAiKey | WorkflowSecret | ProfileAiKey

  datatype Sealed = Sealed(kind: Kind, key: Key)

  /** Whether the keychain can be read, and written, during one command. */
  datatype Env = Env(readable: bool, writable: bool)

  datatype KeyError = CredentialsLost(sealed: nat) | Unreadable | CorruptEntry | NotStored | NothingToReset

  datatype Lookup = Found(key: Key) | Missing | Unavailable

  datatype Resolved = Usable(key: Key) | Lost(sealed: nat)

  datatype Status = Status(lost: bool, lostSecrets: nat)

  /** `next` is the next key that would be generated. */
  datatype State = State(cache: Option<Key>, slot: Slot, secrets: map<SecretId, Sealed>, next: Key)

  const FRESH := State(None, Empty, map[], 0)

  // ------------------------------------------------------------------ the store's count

  /** The kinds that the count of sealed secrets, and the clearing of them, look at. */
  predicate Counted(kind: Kind) { kind != ProfileAiKey }

  function CountedIds(s: State): set<SecretId> {
    set id | id in s.secrets && Counted(s.secrets[id].kind)
  }

  function SealedCount(s: State): nat {
    if |CountedIds(s)| > U32_MAX then U32_MAX else |CountedIds(s)|
  }

  function Cleared(s: State): State {
    s.(secrets := map id | id in s.secrets && !Counted(s.secrets[id].kind) :: s.secrets[id])
  }

  // ------------------------------------------------------------------ the commands

  function LookedUp(s: State, env: Env): Result<Lookup, KeyError> {
    if !env.readable then Ok(Unavailable)
    else
      match s.slot
      case Holds(key) => Ok(Found(key))
      case Empty => Ok(Missing)
      case Corrupt => Err(CorruptEntry)
  }

  function Created(s: State, env: Env): (State, Result<Key, KeyError>) {
    if env.writable then (s.(slot := Holds(s.next), next := s.next + 1), Ok(s.next))
      else (s.(next := s.next + 1), Err(NotStored))
  }

  function Minted(s: State, env: Env): (State, Result<Resolved, KeyError>) {
    match Created(s, env)
    case (t, Ok(key)) => (t, Ok(Usable(key)))
    case (t, Err(e)) => (t, Err(e))
  }

  function Resolve(s: State, env: Env): (State, Result<Resolved, KeyError>) {
    match LookedUp(s, env)
    case Err(e) => (s, Err(e))
    case Ok(Found(key)) => (s, Ok(Usable(key)))
    case Ok(Missing) => if SealedCount(s) == 0 then Minted(s, env) else (s, Ok(Lost(SealedCount(s))))
    case Ok(Unavailable) => if SealedCount(s) == 0 then Minted(s, env) else (s, Err(Unreadable))
  }

  /** `master_key`: the cached key, or the one found or created, which is then cached. */
  function Obtained(s: State, env: Env): (State, Result<Key, KeyError>) {
    if s.cache.Some? then (s, Ok(s.cache.value))
    else
      match Resolve(s, env)
      case (t, Ok(Usable(key))) => (t.(cache := Some(key)), Ok(key))
      case (t, Ok(Lost(sealed))) => (t, Err(CredentialsLost(sealed)))
      case (t, Err(e)) => (t, Err(e))
  }

  function StatusOf(s: State, env: Env): (State, Result<Status, KeyError>) {
    if s.cache.Some? then (s, Ok(Status(false, 0)))
    else
      match Resolve(s, env)
      case (t, Ok(Usable(key))) => (t.(cache := Some(key)), Ok(Status(false, 0)))
      case (t, Ok(Lost(sealed))) => (t, Ok(Status(true, sealed)))
      case (t, Err(e)) => (t, Err(e))
  }

  function ResetKey(s: State, env: Env): (State, Result<Status, KeyError>) {
    match StatusOf(s, env)
    case (t, Err(e)) => (t, Err(e))
    case (t, Ok(status)) =>
      if !status.lost then (t, Err(NothingToReset))
      else
        match Created(Cleared(t), env)
        case (u, Err(e)) => (u, Err(e))
        case (u, Ok(key)) => StatusOf(u.(cache := if u.cache.Some? then u.cache else Some(key)), env)
  }

  /** A secret is saved: sealed under the key that `master_key` gives. */
  function SealedIn(s: State, env: Env, id: SecretId, kind: Kind): (State, Result<Key, KeyError>) {
    match Obtained(s, env)
    case (t, Err(e)) => (t, Err(e))
    case (t, Ok(key)) => (t.(secrets := t.secrets[id := Sealed(kind, key)]), Ok(key))
  }
}
