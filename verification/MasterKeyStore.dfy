/**
The process state that holds the master key and the sealed secrets. The object keeps the
invariant of `MasterKeySafety`: what is counted is under one key, and a key handed out opens it.
*/
module MasterKeyStore {
  import opened Prelude
  import opened MasterKey
  import opened MasterKeySafety

  /** Every counted secret is under this key. */
  ghost predicate OpensCounted(s: State, key: Key) {
    forall id :: id in s.secrets && Counted(s.secrets[id].kind) ==> s.secrets[id].key == key
  }

  /** The key in the entry, or in the cache, opens what is counted. */
  lemma KeyInUseOpens(s: State, key: Key)
    requires Inv(s) && (s.slot == Holds(key) || s.cache == Some(key))
    ensures OpensCounted(s, key)
  {
    CountedKinds(s);
  }

  class AppState {
    var cache: Option<Key>
    var slot: Slot
    var secrets: map<SecretId, Sealed>
    var next: Key

    ghost function Now(): State
      reads this
    {
      State(cache, slot, secrets, next)
    }

    ghost predicate Valid()
      reads this
    {
      Inv(Now())
    }

    constructor ()
      ensures Valid()
      ensures cache.None? && slot == Empty && secrets == map[]
    {
      cache, slot, secrets, next := None, Empty, map[], 0;
    }

    method LookUp(env: Env) returns (r: Result<Lookup, KeyError>)
      requires Valid()
      ensures r == LookedUp(Now(), env)
      ensures r.Ok? && r.value.Found? ==> OpensCounted(Now(), r.value.key)
      ensures r == Ok(Missing) <==> env.readable && slot == Empty
      ensures !env.readable ==> r == Ok(Unavailable)
    {
      if !env.readable {
        return Ok(Unavailable);
      }
      match slot {
        case Holds(key) =>
          KeyInUseOpens(Now(), key);
          return Ok(Found(key));
        case Empty => return Ok(Missing);
        case Corrupt => return Err(CorruptEntry);
      }
    }

    /** A stored key is new; the invariant survives it exactly when nothing counted and nothing cached is orphaned. */
    method Create(env: Env) returns (r: Result<Key, KeyError>)
      requires Valid()
      modifies this
      ensures Valid() <==> r.Err? || (old(cache).None? && SealedCount(old(Now())) == 0)
      ensures secrets == old(secrets) && cache == old(cache)
      ensures (Now(), r) == Created(old(Now()), env)
      ensures r.Ok? ==> slot == Holds(r.value) && forall id :: id in secrets ==> secrets[id].key != r.value
      ensures r.Err? ==> slot == old(slot)
    {
      CountedKinds(Now());
      var key := next;
      next := next + 1;
      if !env.writable {
        return Err(NotStored);
      }
      slot := Holds(key);
      r := Ok(key);
    }

    method SealedSecretCount() returns (n: nat)
      ensures n == SealedCount(Now())
      ensures n == 0 <==> forall id :: id in secrets ==> secrets[id].kind == ProfileAiKey
    {
      CountedKinds(Now());
      var counted := set id | id in secrets && Counted(secrets[id].kind);
      assert counted == CountedIds(Now());
      n := if |counted| > U32_MAX then U32_MAX else |counted|;
    }

    /** Everything counted goes; the keys of assistant profiles stay as they are. */
    method ClearSealedSecrets()
      requires Valid()
      modifies this`secrets
      ensures Valid() && SealedCount(Now()) == 0
      ensures Now() == Cleared(old(Now()))
      ensures secrets == map id | id in old(secrets) && old(secrets)[id].kind == ProfileAiKey :: old(secrets)[id]
    {
      ClearedIs(Now());
      secrets := map id | id in secrets && !Counted(secrets[id].kind) :: secrets[id];
      CountedKinds(Now());
    }

    method ResolveMasterKey(env: Env) returns (r: Result<Resolved, KeyError>)
      requires Valid()
      modifies this
      ensures old(cache).None? ==> Valid()
      ensures secrets == old(secrets) && cache == old(cache)
      ensures (Now(), r) == Resolve(old(Now()), env)
      ensures r.Ok? && r.value.Usable? ==> slot == Holds(r.value.key) && OpensCounted(Now(), r.value.key)
      ensures r.Ok? && r.value.Lost? <==> env.readable && old(slot) == Empty && SealedCount(old(Now())) > 0
      ensures SealedCount(old(Now())) > 0 ==> Now() == old(Now())
    {
      var found := LookUp(env);
      if found.Err? {
        return Err(found.error);
      }
      if found.value.Found? {
        return Ok(Usable(found.value.key));
      }
      var sealed := SealedSecretCount();
      if sealed == 0 {
        var key := Create(env);
        if key.Err? {
          return Err(key.error);
        }
        return Ok(Usable(key.value));
      }
      return if found.value.Missing? then Ok(Lost(sealed)) else Err(Unreadable);
    }

    method MasterKey(env: Env) returns (r: Result<Key, KeyError>)
      requires Valid()
      modifies this
      ensures Valid() && secrets == old(secrets)
      ensures (Now(), r) == Obtained(old(Now()), env)
      ensures r.Ok? ==> cache == Some(r.value) && OpensCounted(Now(), r.value)
      ensures old(cache).Some? ==> r == Ok(old(cache).value) && Now() == old(Now())
    {
      if cache.Some? {
        KeyInUseOpens(Now(), cache.value);
        return Ok(cache.value);
      }
      var resolved := ResolveMasterKey(env);
      if resolved.Err? {
        return Err(resolved.error);
      }
      if resolved.value.Lost? {
        return Err(CredentialsLost(resolved.value.sealed));
      }
      ObtainedKept(old(Now()), env);
      cache := Some(resolved.value.key);
      r := Ok(resolved.value.key);
    }

    method CredentialStatus(env: Env) returns (r: Result<Status, KeyError>)
      requires Valid()
      modifies this
      ensures Valid() && secrets == old(secrets)
      ensures (Now(), r) == StatusOf(old(Now()), env)
      ensures r.Ok? && !r.value.lost ==> cache.Some? && OpensCounted(Now(), cache.value)
      ensures r.Ok? && r.value.lost ==>
        Now() == old(Now()) && cache.None? && slot == Empty && r.value.lostSecrets == SealedCount(Now()) > 0
    {
      if cache.Some? {
        KeyInUseOpens(Now(), cache.value);
        return Ok(Status(false, 0));
      }
      var resolved := ResolveMasterKey(env);
      if resolved.Err? {
        return Err(resolved.error);
      }
      if resolved.value.Lost? {
        return Ok(Status(true, resolved.value.sealed));
      }
      ObtainedKept(old(Now()), env);
      cache := Some(resolved.value.key);
      r := Ok(Status(false, 0));
    }

    method ResetCredentials(env: Env) returns (r: Result<Status, KeyError>)
      requires Valid()
      modifies this
      ensures Valid()
      ensures (Now(), r) == ResetKey(old(Now()), env)
      ensures r.Ok? <==>
        old(cache).None? && old(slot) == Empty && env.readable && SealedCount(old(Now())) > 0 && env.writable
      ensures r.Ok? ==> SealedCount(Now()) == 0 && cache.Some? && slot == Holds(cache.value)
      ensures r.Ok? || r.error == NotStored || secrets == old(secrets)
    {
      ResetExactly(Now(), env);
      ResetKeeps(Now(), env);
      var status := CredentialStatus(env);
      if status.Err? {
        return status;
      }
      if !status.value.lost {
        return Err(NothingToReset);
      }
      ClearSealedSecrets();
      var key := Create(env);
      if key.Err? {
        return Err(key.error);
      }
      if cache.None? {
        cache := Some(key.value);
      }
      r := CredentialStatus(env);
    }

    method Seal(env: Env, id: SecretId, kind: Kind) returns (r: Result<Key, KeyError>)
      requires Valid()
      modifies this
      ensures Valid()
      ensures (Now(), r) == SealedIn(old(Now()), env, id, kind)
      ensures r.Ok? ==>
        secrets == old(secrets)[id := Sealed(kind, r.value)] && cache == Some(r.value) && OpensCounted(Now(), r.value)
      ensures r.Err? ==> secrets == old(secrets)
    {
      SealKeeps(Now(), env, id, kind);
      r := MasterKey(env);
      if r.Ok? {
        secrets := secrets[id := Sealed(kind, r.value)];
      }
    }
  }

  /** Caching the key just resolved keeps the invariant. */
  lemma ObtainedKept(s: State, env: Env)
    requires Inv(s)
    ensures Inv(Obtained(s, env).0)
    ensures Obtained(s, env).1.Ok? ==> OpensCounted(Obtained(s, env).0, Obtained(s, env).1.value)
  {
    CountedKinds(s);
    ObtainedKeeps(s, env, COUNTED);
    var (t, r) := Obtained(s, env);
    if r.Ok? {
      KeyInUseOpens(t, r.value);
    }
  }
}
