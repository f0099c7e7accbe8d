/**
Every run of commands on the master key, with restarts, outages and a keychain entry that goes
missing or turns to garbage from outside. The promise that a new key never orphans a secret holds
for the secrets that are counted; the keys of assistant profiles are not.
*/
module MasterKeySafety {
  import opened Prelude
  import opened MasterKey

  datatype Event =
    | Obtain(env: Env)
    | Ask(env: Env)
    | Reset(env: Env)
    | Seal(env: Env, id: SecretId, kind: Kind)
    | Remove(id: SecretId)
    | Restart
    | Lose
    | Garble

  function Do(s: State, e: Event): State {
    match e
    case Obtain(env) => Obtained(s, env).0
    case Ask(env) => StatusOf(s, env).0
    case Reset(env) => ResetKey(s, env).0
    case Seal(env, id, kind) => SealedIn(s, env, id, kind).0
    case Remove(id) => s.(secrets := s.secrets - {id})
    case Restart => s.(cache := None)
    case Lose => s.(slot := Empty)
    case Garble => s.(slot := Corrupt)
  }

  function Run(s: State, events: seq<Event>): State
    decreases |events|
  {
    if events == [] then s else Run(Do(s, events[0]), events[1..])
  }

  // ------------------------------------------------------------------ the invariant

  /** The secrets of some kinds are under one key, which is the cached key and the stored key, where there is one. */
  ghost predicate OneKey(s: State, kinds: set<Kind>) {
    && (forall id :: id in s.secrets && s.secrets[id].kind in kinds ==> Agrees(s, s.secrets[id].key))
    && (forall a, b :: a in s.secrets && b in s.secrets && s.secrets[a].kind in kinds && s.secrets[b].kind in kinds ==>
          s.secrets[a].key == s.secrets[b].key)
  }

  predicate Agrees(s: State, key: Key) {
    (s.cache.Some? ==> s.cache.value == key) && (s.slot.Holds? ==> s.slot.key == key)
  }

  /** Keys are generated in order, and the cached key is the stored one, where both are there. */
  ghost predicate Sound(s: State) {
    && (s.cache.Some? ==> s.cache.value < s.next && Agrees(s, s.cache.value))
    && (s.slot.Holds? ==> s.slot.key < s.next)
    && (forall id :: id in s.secrets ==> s.secrets[id].key < s.next)
  }

  const COUNTED: set<Kind> := {Password, SshSecret, SignIn, SingleAiKey, WorkflowSecret}

  const ALL: set<Kind> := {Password, SshSecret, SignIn, SingleAiKey, WorkflowSecret, ProfileAiKey}

  lemma CountedKinds(s: State)
    ensures forall kind: Kind :: Counted(kind) <==> kind in COUNTED
    ensures forall kind: Kind :: kind in ALL
    ensures SealedCount(s) == 0 <==> forall id :: id in s.secrets ==> s.secrets[id].kind !in COUNTED
  {
    if SealedCount(s) == 0 {
      assert CountedIds(s) == {};
      forall id | id in s.secrets ensures s.secrets[id].kind !in COUNTED {
        assert id !in CountedIds(s);
      }
    } else {
      var id :| id in CountedIds(s);
    }
  }

  /** A key was generated and stored in this step. */
  predicate Stored(s: State, t: State) { t.slot == Holds(s.next) }

  // ------------------------------------------------------------------ one command

  /** What `resolve_master_key` may do to the state. */
  lemma ResolveIs(s: State, env: Env)
    requires Sound(s)
    ensures var (t, r) := Resolve(s, env);
      && t.cache == s.cache && t.secrets == s.secrets && t.next >= s.next
      && (t.slot != s.slot ==> Stored(s, t) && t.next == s.next + 1 && SealedCount(s) == 0)
      && (r.Ok? && r.value.Usable? ==> t.slot == Holds(r.value.key))
      && (r.Ok? && r.value.Lost? ==> t == s && s.slot == Empty && env.readable && r.value.sealed == SealedCount(s) > 0)
  {
  }

  /** A command that caches what was resolved. */
  lemma CachedSound(s: State, env: Env)
    requires Sound(s) && s.cache.None?
    ensures var (t, r) := Resolve(s, env);
      Sound(t) && (r.Ok? && r.value.Usable? ==> Sound(t.(cache := Some(r.value.key))))
  {
    ResolveIs(s, env);
  }

  lemma CachedOneKey(s: State, env: Env, kinds: set<Kind>)
    requires Sound(s) && OneKey(s, kinds) && s.cache.None?
    requires Stored(s, Resolve(s, env).0) ==> forall id :: id in s.secrets ==> s.secrets[id].kind !in kinds
    ensures var (t, r) := Resolve(s, env);
      OneKey(t, kinds) && (r.Ok? && r.value.Usable? ==> OneKey(t.(cache := Some(r.value.key)), kinds))
  {
    ResolveIs(s, env);
  }

  /** `master_key` and `credential_status` do the same to the state. */
  lemma ObtainedIsStatus(s: State, env: Env)
    ensures Obtained(s, env).0 == StatusOf(s, env).0
    ensures Obtained(s, env).1.Ok? <==> StatusOf(s, env).1.Ok? && !StatusOf(s, env).1.value.lost
  {
  }

  lemma ObtainedKeeps(s: State, env: Env, kinds: set<Kind>)
    requires Sound(s) && OneKey(s, kinds)
    requires Stored(s, Obtained(s, env).0) ==> forall id :: id in s.secrets ==> s.secrets[id].kind !in kinds
    ensures var (t, r) := Obtained(s, env);
      && Sound(t) && OneKey(t, kinds) && t.secrets == s.secrets && (r.Ok? ==> t.cache == Some(r.value))
      && (t.slot != s.slot ==> Stored(s, t) && SealedCount(s) == 0)
  {
    if s.cache.None? {
      ResolveIs(s, env);
      CachedSound(s, env);
      CachedOneKey(s, env, kinds);
    }
  }

  lemma ClearedIs(s: State)
    ensures SealedCount(Cleared(s)) == 0
    ensures forall id :: id in Cleared(s).secrets <==> id in s.secrets && s.secrets[id].kind == ProfileAiKey
    ensures forall id :: id in Cleared(s).secrets ==> Cleared(s).secrets[id] == s.secrets[id]
  {
    CountedKinds(Cleared(s));
  }

  /**
  Reset goes through exactly when the entry is seen to be missing while secrets are counted, and a new key can
  be stored; it ends with that key and none of those secrets.
  */
  lemma ResetExactly(s: State, env: Env)
    requires Sound(s)
    ensures var (t, r) := ResetKey(s, env);
      && (r.Ok? <==> s.cache.None? && s.slot == Empty && env.readable && SealedCount(s) > 0 && env.writable)
      && (r.Ok? ==>
        && r.value == Status(false, 0)
        && t == Cleared(s).(cache := Some(s.next), slot := Holds(s.next), next := s.next + 1))
      && (r.Err? && SealedCount(t) < SealedCount(s) ==> r.error == NotStored && t == Cleared(s).(next := s.next + 1))
  {
    ClearedIs(s);
    ResolveIs(s, env);
  }

  // ------------------------------------------------------------------ each command keeps the secrets under one key

  ghost predicate Inv(s: State) { Sound(s) && OneKey(s, COUNTED) }

  lemma ResetKeeps(s: State, env: Env)
    requires Inv(s)
    ensures Inv(ResetKey(s, env).0)
  {
    var status := StatusOf(s, env).1;
    CountedKinds(s);
    ObtainedIsStatus(s, env);
    ObtainedKeeps(s, env, COUNTED);
    if status.Ok? && status.value.lost {
      ResolveIs(s, env);
      ClearedIs(s);
      CountedKinds(Cleared(s));
    }
  }

  lemma SealKeeps(s: State, env: Env, id: SecretId, kind: Kind)
    requires Inv(s)
    ensures Inv(SealedIn(s, env, id, kind).0)
  {
    CountedKinds(s);
    ObtainedKeeps(s, env, COUNTED);
  }

  lemma DoKeepsInv(s: State, e: Event)
    requires Inv(s)
    ensures Inv(Do(s, e))
  {
    CountedKinds(s);
    match e
    case Obtain(env) => ObtainedKeeps(s, env, COUNTED);
    case Ask(env) => ObtainedIsStatus(s, env); ObtainedKeeps(s, env, COUNTED);
    case Reset(env) => ResetKeeps(s, env);
    case Seal(env, id, kind) => SealKeeps(s, env, id, kind);
    case _ =>
  }

  lemma {:induction false} RunKeepsInv(s: State, events: seq<Event>)
    requires Inv(s)
    ensures Inv(Run(s, events))
    decreases |events|
  {
    if events != [] {
      DoKeepsInv(s, events[0]);
      RunKeepsInv(Do(s, events[0]), events[1..]);
    }
  }

  /** Whatever has happened, a key that `master_key` hands out opens every counted secret. */
  lemma KeyOpensCounted(events: seq<Event>, env: Env, id: SecretId)
    ensures var s := Run(FRESH, events);
      var (t, r) := Obtained(s, env);
      r.Ok? && id in s.secrets && Counted(s.secrets[id].kind) ==> s.secrets[id].key == r.value
  {
    RunKeepsInv(FRESH, events);
    var s := Run(FRESH, events);
    CountedKinds(s);
    ObtainedKeeps(s, env, COUNTED);
  }

  /** A new key is stored only when no counted secret is there, or by a reset of what was lost, which clears them. */
  lemma CreatedOnlyWhenNothingSealed(events: seq<Event>, e: Event)
    ensures var s := Run(FRESH, events);
      var t := Do(s, e);
      Stored(s, t) ==>
        || SealedCount(s) == 0
        || (e.Reset? && s.cache.None? && s.slot == Empty && e.env.readable && SealedCount(t) == 0)
  {
    RunKeepsInv(FRESH, events);
    var s := Run(FRESH, events);
    match e
    case Obtain(env) => CountedKinds(s); ObtainedKeeps(s, env, {});
    case Ask(env) => ObtainedIsStatus(s, env); ObtainedKeeps(s, env, {});
    case Seal(env, _, _) => ObtainedKeeps(s, env, {});
    case Reset(env) => ResetExactly(s, env); if Stored(s, Do(s, e)) { ResetStores(s, env); }
    case _ =>
  }

  lemma ResetStores(s: State, env: Env)
    requires Sound(s) && Stored(s, ResetKey(s, env).0)
    ensures SealedCount(s) == 0 || (ResetKey(s, env).1.Ok? && SealedCount(ResetKey(s, env).0) == 0)
  {
    var (t, status) := StatusOf(s, env);
    ObtainedIsStatus(s, env);
    ClearedIs(s);
    ResolveIs(s, env);
    if status.Ok? && status.value.lost {
      var u := Cleared(s).(cache := Some(s.next), slot := Holds(s.next), next := s.next + 1);
      assert t == s;
      assert CountedIds(u) == CountedIds(Cleared(s));
    }
  }

  // ------------------------------------------------------------------ the secrets that are not counted

  /** A new key would be made and stored: nothing found, nothing counted, and the entry can be written. */
  predicate MintsIn(s: State, env: Env) {
    s.cache.None? && env.writable && SealedCount(s) == 0 && !(env.readable && s.slot != Empty)
  }

  /** The event stores a new key. All of this can be asked before it. */
  predicate Mints(s: State, e: Event) {
    match e
    case Obtain(env) => MintsIn(s, env)
    case Ask(env) => MintsIn(s, env)
    case Seal(env, _, _) => MintsIn(s, env)
    case Reset(env) =>
      MintsIn(s, env) || (s.cache.None? && env.writable && SealedCount(s) > 0 && env.readable && s.slot == Empty)
    case _ => false
  }

  /** Some profile has a key that the event does not replace. */
  ghost predicate ProfileStays(s: State, e: Event) {
    exists id :: id in s.secrets && s.secrets[id].kind == ProfileAiKey && !(e.Seal? && e.id == id)
  }

  /** An event stores a new key exactly when it says so beforehand. */
  lemma StoresExactly(s: State, e: Event)
    requires Sound(s)
    ensures Stored(s, Do(s, e)) <==> Mints(s, e)
  {
    match e
    case Reset(env) =>
      ClearedIs(s);
      ResetExactly(s, env);
    case _ =>
  }

  /**
  All secrets, profile keys included, stay under one key if and only if it is not the case that a
  new key is made while a profile has a key that stays.
  */
  lemma AllUnderOneKeyExactly(s: State, e: Event)
    requires Sound(s) && OneKey(s, ALL)
    ensures OneKey(Do(s, e), ALL) <==> !(Mints(s, e) && ProfileStays(s, e))
  {
    CountedKinds(s);
    if Mints(s, e) {
      StoresExactly(s, e);
      if ProfileStays(s, e) {
        StaysUnderOldKey(s, e);
      } else {
        NothingStays(s, e);
      }
    } else {
      NotMinted(s, e);
    }
  }

  /** A profile's key that stays while a new key is stored is under the old one. */
  lemma StaysUnderOldKey(s: State, e: Event)
    requires Sound(s) && Mints(s, e) && ProfileStays(s, e)
    ensures !OneKey(Do(s, e), ALL)
  {
    StoresExactly(s, e);
    var id :| id in s.secrets && s.secrets[id].kind == ProfileAiKey && !(e.Seal? && e.id == id);
    var t := Do(s, e);
    ClearedIs(s);
    assert id in t.secrets && t.secrets[id] == s.secrets[id] by {
      if e.Reset? {
        ResetExactly(s, e.env);
      }
    }
    assert !Agrees(t, t.secrets[id].key);
  }

  /** With no profile key staying, a new key meets no secret, or only the one just sealed under it. */
  lemma NothingStays(s: State, e: Event)
    requires Sound(s) && Mints(s, e) && !ProfileStays(s, e)
    ensures OneKey(Do(s, e), ALL)
  {
    CountedKinds(s);
    ClearedIs(s);
    var t := Do(s, e);
    if e.Reset? {
      ResetExactly(s, e.env);
    }
    if e.Seal? {
      SealedAlone(s, e);
    } else {
      assert t.secrets.Keys == {};
    }
  }

  lemma SealedAlone(s: State, e: Event)
    requires Sound(s) && e.Seal? && Mints(s, e) && !ProfileStays(s, e)
    ensures OneKey(Do(s, e), ALL)
  {
    CountedKinds(s);
    var (t, r) := Obtained(s, e.env);
    assert t.cache == Some(s.next) && t.slot == Holds(s.next) && r == Ok(s.next);
    assert forall id :: id in s.secrets ==> id == e.id;
  }

  /** Where no key is made, all secrets stay under the one they are under. */
  lemma NotMinted(s: State, e: Event)
    requires Sound(s) && OneKey(s, ALL) && !Mints(s, e)
    ensures OneKey(Do(s, e), ALL)
  {
    StoresExactly(s, e);
    CountedKinds(s);
    match e
    case Obtain(env) => ObtainedKeeps(s, env, ALL);
    case Ask(env) =>
      ObtainedIsStatus(s, env);
      ObtainedKeeps(s, env, ALL);
    case Reset(env) =>
      ObtainedIsStatus(s, env);
      ObtainedKeeps(s, env, {});
      ResetExactly(s, env);
      ClearedIs(s);
      NotReset(s, env);
    case Seal(env, id, kind) =>
      ObtainedKeeps(s, env, ALL);
      var (t, r) := Obtained(s, env);
      if r.Ok? {
        SealUnder(t, id, Sealed(kind, r.value));
      }
    case _ =>
  }

  lemma NotReset(s: State, env: Env)
    requires Sound(s) && OneKey(s, ALL) && !Mints(s, Reset(env))
    ensures OneKey(ResetKey(s, env).0, ALL)
  {
    ObtainedIsStatus(s, env);
    CountedKinds(s);
    ClearedIs(s);
    ObtainedKeeps(s, env, ALL);
    var status := StatusOf(s, env).1;
    if status.Ok? && status.value.lost {
      ResolveIs(s, env);
    }
  }

  /** A secret sealed under the key in use. */
  lemma SealUnder(t: State, id: SecretId, sealed: Sealed)
    requires Sound(t) && OneKey(t, ALL) && t.cache == Some(sealed.key)
    ensures OneKey(t.(secrets := t.secrets[id := sealed]), ALL)
  {
    CountedKinds(t);
  }

  const WORKING := Env(true, true)

  /**
  A run that orphans a secret: with the key of an assistant profile as the only secret, the entry
  goes missing and the app restarts. A new key is created without a word, the profile's key no
  longer opens, nothing is reported lost, and a reset is refused.
  */
  lemma ProfileKeyOrphaned()
    ensures var s := Run(FRESH, [Seal(WORKING, 0, ProfileAiKey)] + ([Lose] + ([Restart] + [Obtain(WORKING)])));
      && 0 in s.secrets && s.secrets[0].key == 0 && s.cache == Some(1)
      && StatusOf(s, WORKING).1 == Ok(Status(false, 0)) && ResetKey(s, WORKING).1 == Err(NothingToReset)
  {
    CountedKinds(FRESH);
    var a := Do(FRESH, Seal(WORKING, 0, ProfileAiKey));
    assert a == State(Some(0), Holds(0), map[0 := Sealed(ProfileAiKey, 0)], 1);
    var b := Do(Do(a, Lose), Restart);
    CountedKinds(b);
    assert Do(b, Obtain(WORKING)) == State(Some(1), Holds(1), map[0 := Sealed(ProfileAiKey, 0)], 2);
    RunOne(FRESH, Seal(WORKING, 0, ProfileAiKey), [Lose] + ([Restart] + [Obtain(WORKING)]));
    RunOne(a, Lose, [Restart] + [Obtain(WORKING)]);
    RunOne(Do(a, Lose), Restart, [Obtain(WORKING)]);
    RunOne(b, Obtain(WORKING), []);
    assert [Obtain(WORKING)] + [] == [Obtain(WORKING)];
  }

  lemma RunOne(s: State, e: Event, rest: seq<Event>)
    ensures Run(s, [e] + rest) == Run(Do(s, e), rest)
  {
    assert ([e] + rest)[1..] == rest;
  }
}
