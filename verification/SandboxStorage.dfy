/** `SandboxStorage` (internal/cli/sandbox_storage.go): the in-memory session map, its dirty flag, the
    re-keying and migration of its keys, and what the saves made or skipped leave on disk. Loading succeeds; a
    save may fail. */
module SandboxStorage {
  import opened Collections
  import opened Options
  import opened SessionKeys

  datatype Session = Session(runID: string, configFile: string, scopedToken: string, runURL: string,
                             configHash: string, createdAt: Option<int>, lastExecAt: Option<int>,
                             execCount: int, resetNagShown: bool)

  type Store = map<string, Session>

  const VERSION := 1

  datatype StoreFile = StoreFile(version: int, sandboxes: Store)

  /** Some migration of a store: keys are converted in any order, so when two collide either may win. */
  ghost predicate IsMigration(before: Store, after: Store) {
    && (forall k <- before :: MigrateKey(k) in after)
    && (forall k <- after :: exists k0 <- before :: MigrateKey(k0) == k && before[k0] == after[k])
  }

  ghost predicate IsLoaded(file: Option<StoreFile>, loaded: Store) {
    match file
    case None => loaded == map[]
    case Some(f) => if f.version < VERSION then IsMigration(f.sandboxes, loaded) else loaded == f.sandboxes
  }

  class Disk {
    var file: Option<StoreFile>

    constructor (file: Option<StoreFile>)
      ensures this.file == file
    {
      this.file := file;
    }
  }

  /** The fields of a loaded storage. */
  datatype Memory = Memory(version: int, sandboxes: Store, changed: bool, migrated: bool)

  /** How far a save gets: up to the directory, up to the temporary file and its renaming, or to the end. */
  datatype SaveFault = NoDirectory | NotWritten | NoFault

  function SavedFile(file: Option<StoreFile>, m: Memory, fault: SaveFault): Option<StoreFile> {
    if fault.NoFault? then Some(StoreFile(VERSION, m.sandboxes)) else file
  }

  function SavedMemory(m: Memory, fault: SaveFault): Memory {
    match fault
    case NoDirectory => m
    case NotWritten => m.(version := VERSION)
    case NoFault => Memory(VERSION, m.sandboxes, false, false)
  }

  function WithSession(m: Memory, key: string, session: Session): Memory {
    if key in m.sandboxes && m.sandboxes[key] == session then m
    else m.(sandboxes := m.sandboxes[key := session], changed := true)
  }

  function WithoutKey(m: Memory, key: string): Memory {
    if key !in m.sandboxes then m else m.(sandboxes := m.sandboxes - {key}, changed := true)
  }

  function Rekeyed(m: Memory, oldKey: string, newKey: string, session: Session): Memory {
    m.(sandboxes := (m.sandboxes - {oldKey})[newKey := session], changed := true)
  }

  /** The session is under the new key and no longer under the old one, and all others are where they were. */
  ghost predicate IsMoved(before: Store, after: Store, oldKey: string, newKey: string, session: Session) {
    && newKey in after && after[newKey] == session
    && (oldKey != newKey ==> oldKey !in after)
    && forall k | k != oldKey && k != newKey ::
      (k in after <==> k in before) && (k in after ==> after[k] == before[k])
  }

  lemma MovesOne(m: Memory, oldKey: string, newKey: string, session: Session)
    ensures Rekeyed(m, oldKey, newKey, session).changed
    ensures IsMoved(m.sandboxes, Rekeyed(m, oldKey, newKey, session).sandboxes, oldKey, newKey, session)
  {
  }

  /** A branch that stands for a detached HEAD. */
  predicate IsDetachedBranch(branch: string) { branch == "detached" || "detached@" <= branch }

  function DetachedShortSHA(branch: string): string {
    if "detached@" <= branch then branch[|"detached@"|..] else ""
  }

  /** The branch stands for a known position without a branch name. */
  predicate IsAnonymous(branch: string) {
    IsDetachedBranch(branch) && DetachedShortSHA(branch) != ""
  }

  predicate IsAncestorKey(key: string, isAncestor: string -> bool) {
    var branch := ParseSessionKey(key).0;
    IsAnonymous(branch) && isAncestor(DetachedShortSHA(branch))
  }

  predicate IsAncestorKeyFor(key: string, configFile: string, isAncestor: string -> bool) {
    ParseSessionKey(key).1 == configFile && IsAncestorKey(key, isAncestor)
  }

  /** The first matching key, in whatever order the map is visited. */
  method FindAncestorKey(sandboxes: Store, configFile: string, isAncestor: string -> bool) returns (key: Option<string>)
    ensures key.Some? ==> key.value in sandboxes && IsAncestorKeyFor(key.value, configFile, isAncestor)
    ensures key.None? ==> forall k <- sandboxes :: !IsAncestorKeyFor(k, configFile, isAncestor)
  {
    var todo := sandboxes.Keys;
    while todo != {}
      invariant todo <= sandboxes.Keys
      invariant forall k <- sandboxes.Keys - todo :: !IsAncestorKeyFor(k, configFile, isAncestor)
      decreases |todo|
    {
      var k :| k in todo;
      if IsAncestorKeyFor(k, configFile, isAncestor) {
        return Some(k);
      }
      todo := todo - {k};
    }
    return None;
  }

  /** All matching keys, each once, in whatever order the map is visited. */
  method CollectAncestorKeys(sandboxes: Store, isAncestor: string -> bool) returns (keys: seq<string>)
    ensures forall k :: k in keys <==> k in sandboxes && IsAncestorKey(k, isAncestor)
    ensures Distinct(keys)
  {
    keys := [];
    var todo := sandboxes.Keys;
    while todo != {}
      invariant todo <= sandboxes.Keys
      invariant forall k :: k in keys <==> k in sandboxes.Keys - todo && IsAncestorKey(k, isAncestor)
      invariant Distinct(keys)
      decreases |todo|
    {
      var k :| k in todo;
      if IsAncestorKey(k, isAncestor) {
        keys := keys + [k];
      }
      todo := todo - {k};
    }
  }

  predicate Distinct(keys: seq<string>) {
    forall i, j | 0 <= i < j < |keys| :: keys[i] != keys[j]
  }

  /** ParseSessionKey may return a config file that is not absolute; SessionKey would panic on it. */
  predicate RekeyablePath(key: string) {
    var config := ParseSessionKey(key).1;
    config == "" || IsAbs(config)
  }

  function NewKey(branch: string, key: string): string
    requires RekeyablePath(key)
  {
    SessionKey(branch, ParseSessionKey(key).1)
  }

  function NewKeys(branch: string, order: seq<string>): map<string, string>
    requires forall k <- order :: RekeyablePath(k)
  {
    map k | k in order :: NewKey(branch, k)
  }

  /** The sessions once the first n keys have been moved, one after another. */
  function RekeyedUpTo(original: Store, newKeys: map<string, string>, order: seq<string>, n: nat): Store
    requires n <= |order| && forall k <- order :: k in original && k in newKeys
  {
    if n == 0 then original
    else
      var key := order[n - 1];
      (RekeyedUpTo(original, newKeys, order, n - 1) - {key})[newKeys[key] := original[key]]
  }

  function Picked(store: Store, keys: seq<string>, n: nat): (sessions: seq<Session>)
    requires n <= |keys| && forall k <- keys :: k in store
    ensures |sessions| == n && forall i | 0 <= i < n :: sessions[i] == store[keys[i]]
  {
    if n == 0 then [] else Picked(store, keys, n - 1) + [store[keys[n - 1]]]
  }

  function RekeyAll(original: Store, branch: string, order: seq<string>): Store
    requires forall k <- order :: k in original && RekeyablePath(k)
  {
    RekeyedUpTo(original, NewKeys(branch, order), order, |order|)
  }

  class Storage {
    var version: int
    var sandboxes: Store
    var changed: bool
    var migrated: bool

    function View(): Memory
      reads this
    {
      Memory(version, sandboxes, changed, migrated)
    }

    constructor (view: Memory)
      ensures View() == view
    {
      version, sandboxes, changed, migrated := view.version, view.sandboxes, view.changed, view.migrated;
    }

    /** A save that fails leaves the file as it was and the flags raised. */
    method Save(disk: Disk, fault: SaveFault) returns (ok: bool)
      modifies this, disk
      ensures ok <==> fault.NoFault?
      ensures disk.file == SavedFile(old(disk.file), old(View()), fault)
      ensures View() == SavedMemory(old(View()), fault)
      ensures sandboxes == old(sandboxes)
      ensures ok ==> disk.file == Some(StoreFile(VERSION, old(sandboxes))) && !changed && !migrated
      ensures !ok ==> disk.file == old(disk.file) && changed == old(changed) && migrated == old(migrated)
      ensures version == VERSION || (fault.NoDirectory? && version == old(version))
    {
      if fault.NoDirectory? {
        return false;
      }
      version := VERSION;
      if fault.NotWritten? {
        return false;
      }
      disk.file := Some(StoreFile(version, sandboxes));
      changed, migrated := false, false;
      ok := true;
    }

    /** saveSandboxStorageWithTelemetry. */
    method SaveWithTelemetry(disk: Disk, skipUnchanged: bool, fault: SaveFault) returns (ok: bool)
      modifies this, disk
      ensures skipUnchanged && !old(changed) ==> ok && disk.file == old(disk.file) && View() == old(View())
      ensures !(skipUnchanged && !old(changed)) ==>
        && (ok <==> fault.NoFault?)
        && disk.file == SavedFile(old(disk.file), old(View()), fault) && View() == SavedMemory(old(View()), fault)
    {
      if skipUnchanged && !changed {
        return true;
      }
      ok := Save(disk, fault);
    }

    method SetSession(branch: string, configFile: string, session: Session)
      requires configFile == "" || IsAbs(configFile)
      modifies this
      ensures View() == WithSession(old(View()), SessionKey(branch, configFile), session)
      ensures sandboxes == old(sandboxes)[SessionKey(branch, configFile) := session]
      ensures changed <==> old(changed) || sandboxes != old(sandboxes)
    {
      var key := SessionKey(branch, configFile);
      if key in sandboxes && sandboxes[key] == session {
        return;
      }
      sandboxes := sandboxes[key := session];
      changed := true;
    }

    method DeleteSession(branch: string, configFile: string)
      requires configFile == "" || IsAbs(configFile)
      modifies this
      ensures View() == WithoutKey(old(View()), SessionKey(branch, configFile))
      ensures sandboxes == old(sandboxes) - {SessionKey(branch, configFile)}
      ensures changed <==> old(changed) || SessionKey(branch, configFile) in old(sandboxes)
    {
      var key := SessionKey(branch, configFile);
      if key !in sandboxes {
        return;
      }
      sandboxes := sandboxes - {key};
      changed := true;
    }

    /** Ranging over a map visits its keys in no fixed order. */
    method DeleteSessionByRunID(runID: string) returns (deleted: bool, ghost key: string)
      modifies this
      ensures deleted <==> exists k <- old(sandboxes) :: old(sandboxes)[k].runID == runID
      ensures deleted ==> key in old(sandboxes) && old(sandboxes)[key].runID == runID
      ensures View() == if deleted then WithoutKey(old(View()), key) else old(View())
      ensures deleted ==> sandboxes == old(sandboxes) - {key} && changed
    {
      var todo := sandboxes.Keys;
      while todo != {}
        invariant todo <= sandboxes.Keys
        invariant forall k <- sandboxes.Keys - todo :: sandboxes[k].runID != runID
        invariant View() == old(View())
        decreases |todo|
      {
        var k :| k in todo;
        if sandboxes[k].runID == runID {
          sandboxes := sandboxes - {k};
          changed := true;
          return true, k;
        }
        todo := todo - {k};
      }
      return false, "";
    }

    method GetSessionByAncestry(branch: string, configFile: string, isAncestor: string -> bool)
      returns (session: Option<Session>, ghost key: string)
      requires configFile == "" || IsAbs(configFile)
      modifies this
      ensures session.None? ==> View() == old(View())
      ensures session.None? <==>
        (!IsAnonymous(branch) || forall k <- old(sandboxes) :: !IsAncestorKeyFor(k, configFile, isAncestor))
      ensures session.Some? ==>
        && key in old(sandboxes) && IsAncestorKeyFor(key, configFile, isAncestor)
        && session.value == old(sandboxes)[key]
        && View() == Rekeyed(old(View()), key, SessionKey(branch, configFile), session.value)
      ensures session.Some? ==>
        changed && IsMoved(old(sandboxes), sandboxes, key, SessionKey(branch, configFile), session.value)
    {
      if !IsAnonymous(branch) {
        return None, "";
      }
      var found := FindAncestorKey(sandboxes, configFile, isAncestor);
      if found.None? {
        return None, "";
      }
      key := found.value;
      session := Some(sandboxes[found.value]);
      MovesOne(View(), found.value, SessionKey(branch, configFile), session.value);
      sandboxes := (sandboxes - {found.value})[SessionKey(branch, configFile) := session.value];
      changed := true;
    }

    method GetSessionsForBranchByAncestry(branch: string, isAncestor: string -> bool)
      returns (sessions: seq<Session>, ghost order: seq<string>)
      requires forall k <- sandboxes | IsAncestorKey(k, isAncestor) :: RekeyablePath(k)
      modifies this
      ensures Distinct(order) && forall k <- order :: k in old(sandboxes) && RekeyablePath(k)
      ensures forall k :: k in order <==> IsAnonymous(branch) && k in old(sandboxes) && IsAncestorKey(k, isAncestor)
      ensures |sessions| == |order| && forall i | 0 <= i < |order| :: sessions[i] == old(sandboxes)[order[i]]
      ensures View() == Memory(old(version), RekeyAll(old(sandboxes), branch, order),
                               old(changed) || order != [], old(migrated))
    {
      sessions, order := [], [];
      if !IsAnonymous(branch) {
        return;
      }
      var toRekey := CollectAncestorKeys(sandboxes, isAncestor);
      order := toRekey;
      sessions := Rekey(branch, toRekey);
    }

    /** The loop that moves the collected sessions to the current position. */
    method Rekey(branch: string, toRekey: seq<string>) returns (sessions: seq<Session>)
      requires forall k <- toRekey :: k in sandboxes && RekeyablePath(k)
      modifies this`sandboxes, this`changed
      ensures |sessions| == |toRekey| && forall i | 0 <= i < |toRekey| :: sessions[i] == old(sandboxes)[toRekey[i]]
      ensures sandboxes == RekeyAll(old(sandboxes), branch, toRekey)
      ensures changed == (old(changed) || toRekey != [])
    {
      var before := sandboxes;
      ghost var newKeys := NewKeys(branch, toRekey);
      sessions := [];
      for i := 0 to |toRekey|
        invariant sandboxes == RekeyedUpTo(before, newKeys, toRekey, i)
        invariant changed == (old(changed) || i > 0)
        invariant sessions == Picked(before, toRekey, i)
      {
        assert newKeys[toRekey[i]] == NewKey(branch, toRekey[i]);
        sandboxes := (sandboxes - {toRekey[i]})[NewKey(branch, toRekey[i]) := before[toRekey[i]]];
        changed := true;
        sessions := sessions + [before[toRekey[i]]];
      }
    }
  }

  method LoadSandboxStorage(disk: Disk) returns (storage: Storage)
    ensures fresh(storage)
    ensures IsLoaded(disk.file, storage.sandboxes)
    ensures storage.changed == storage.migrated == (disk.file.Some? && disk.file.value.version < VERSION)
    ensures storage.version >= VERSION
  {
    if disk.file.None? {
      storage := new Storage(Memory(VERSION, map[], false, false));
      return;
    }
    var file := disk.file.value;
    if file.version < VERSION {
      var sandboxes := MigrateOldSessionKeys(file.sandboxes);
      storage := new Storage(Memory(VERSION, sandboxes, true, true));
    } else {
      storage := new Storage(Memory(file.version, file.sandboxes, false, false));
    }
  }

  /** The key conversion loop of migrateOldSessionKeys. */
  method MigrateOldSessionKeys(legacy: Store) returns (migrated: Store)
    ensures IsMigration(legacy, migrated)
  {
    migrated := map[];
    var todo := legacy.Keys;
    while todo != {}
      invariant todo <= legacy.Keys
      invariant forall k <- legacy.Keys - todo :: MigrateKey(k) in migrated
      invariant forall k <- migrated ::
        exists k0 <- legacy.Keys - todo :: MigrateKey(k0) == k && legacy[k0] == migrated[k]
      decreases |todo|
    {
      var key :| key in todo;
      ghost var before, was := migrated, todo;
      migrated := migrated[MigrateKey(key) := legacy[key]];
      todo := todo - {key};
      forall k | k in migrated
        ensures exists k0 <- legacy.Keys - todo :: MigrateKey(k0) == k && legacy[k0] == migrated[k]
      {
        if k == MigrateKey(key) {
          assert key in legacy.Keys - todo;
        } else {
          var k0 :| k0 in legacy.Keys - was && MigrateKey(k0) == k && legacy[k0] == before[k];
          assert k0 in legacy.Keys - todo;
        }
      }
    }
  }

  // ---------------------------------------------------------------- the dirty flag

  /** One process working on the store file. */
  datatype World = World(disk: Option<StoreFile>, memory: Memory)

  /** The storage methods, with the choices map iteration leaves open. */
  datatype Op =
    | Load(loaded: Store)
    | Set(key: string, session: Session)
    | Delete(key: string)
    | Rekey(oldKey: string, newKey: string, session: Session)
    | SaveUnlessUnchanged(fault: SaveFault)

  ghost predicate Enabled(w: World, op: Op) {
    op.Load? ==> IsLoaded(w.disk, op.loaded)
  }

  predicate IsLegacy(disk: Option<StoreFile>) { disk.Some? && disk.value.version < VERSION }

  /** `skipping` says whether an unchanged storage is left unsaved. */
  function Next(w: World, op: Op, skipping: bool): World {
    var m := w.memory;
    match op
    case Load(loaded) =>
      var legacy := IsLegacy(w.disk);
      var version := if w.disk.Some? && !legacy then w.disk.value.version else VERSION;
      w.(memory := Memory(version, loaded, legacy, legacy))
    case Set(key, session) => w.(memory := WithSession(m, key, session))
    case Delete(key) => w.(memory := WithoutKey(m, key))
    case Rekey(oldKey, newKey, session) => w.(memory := Rekeyed(m, oldKey, newKey, session))
    case SaveUnlessUnchanged(fault) =>
      if skipping && !m.changed then w else World(SavedFile(w.disk, m, fault), SavedMemory(m, fault))
  }

  ghost predicate IsRun(w: World, ops: seq<Op>, skipping: bool)
    decreases ops
  {
    ops == [] || (Enabled(w, ops[0]) && IsRun(Next(w, ops[0], skipping), ops[1..], skipping))
  }

  ghost function After(w: World, ops: seq<Op>, skipping: bool): World
    decreases ops
  {
    if ops == [] then w else After(Next(w, ops[0], skipping), ops[1..], skipping)
  }

  function Contents(disk: Option<StoreFile>): Store {
    if disk.None? then map[] else disk.value.sandboxes
  }

  /** An unset flag means that the map in memory is the one on disk. */
  ghost predicate InSync(w: World) {
    !w.memory.changed ==> !IsLegacy(w.disk) && w.memory.sandboxes == Contents(w.disk)
  }

  lemma {:induction false} UnchangedMeansOnDisk(w: World, ops: seq<Op>, skipping: bool)
    requires InSync(w) && IsRun(w, ops, skipping)
    ensures InSync(After(w, ops, skipping))
    decreases ops
  {
    if ops != [] {
      UnchangedMeansOnDisk(Next(w, ops[0], skipping), ops[1..], skipping);
    }
  }

  /** The same for a reader: equal contents, both in the current format or neither. */
  predicate SameDisk(a: Option<StoreFile>, b: Option<StoreFile>) {
    Contents(a) == Contents(b) && IsLegacy(a) == IsLegacy(b)
  }

  predicate SameWorld(a: World, b: World) {
    SameDisk(a.disk, b.disk) && a.memory.sandboxes == b.memory.sandboxes && a.memory.changed == b.memory.changed
  }

  lemma {:induction false} LoadedFromEither(a: Option<StoreFile>, b: Option<StoreFile>, loaded: Store)
    requires SameDisk(a, b) && IsLoaded(a, loaded)
    ensures IsLoaded(b, loaded)
    ensures !IsLegacy(a) ==> loaded == Contents(a)
  {
    if IsLegacy(a) {
      assert a.value.sandboxes == b.value.sandboxes;
    }
  }

  lemma {:induction false} OneStepSame(a: World, b: World, op: Op)
    requires SameWorld(a, b) && InSync(a) && Enabled(a, op)
    ensures Enabled(b, op) && SameWorld(Next(a, op, true), Next(b, op, false)) && InSync(Next(a, op, true))
  {
    if op.Load? {
      LoadedFromEither(a.disk, b.disk, op.loaded);
    }
  }

  /** Skipping unchanged saves leaves the same sessions on disk as saving every time, over any sequence of
      loads, changes and saves, failing ones included. */
  lemma {:induction false} SkippingEqualsSaving(a: World, b: World, ops: seq<Op>)
    requires SameWorld(a, b) && InSync(a) && IsRun(a, ops, true)
    ensures IsRun(b, ops, false)
    ensures SameWorld(After(a, ops, true), After(b, ops, false))
    decreases ops
  {
    if ops != [] {
      OneStepSame(a, b, ops[0]);
      SkippingEqualsSaving(Next(a, ops[0], true), Next(b, ops[0], false), ops[1..]);
    }
  }

  /** From one state of affairs, with nothing between the two runs but the policy. */
  lemma {:induction false} PoliciesAgree(w: World, ops: seq<Op>)
    requires InSync(w) && IsRun(w, ops, true)
    ensures IsRun(w, ops, false)
    ensures var a, b := After(w, ops, true), After(w, ops, false);
      && Contents(a.disk) == Contents(b.disk) && (IsLegacy(a.disk) <==> IsLegacy(b.disk))
      && a.memory.sandboxes == b.memory.sandboxes && a.memory.changed == b.memory.changed
  {
    SkippingEqualsSaving(w, w, ops);
  }

  // ---------------------------------------------------------------- what each operation does

  /** Loading takes what the file holds and raises the flags exactly for an old file; changes touch one key and
      raise the flag; none of them touches the disk. */
  lemma {:induction false} ChangeEffects(w: World, op: Op, skipping: bool)
    requires Enabled(w, op) && !op.SaveUnlessUnchanged?
    ensures var m, m' := w.memory, Next(w, op, skipping).memory;
      && Next(w, op, skipping).disk == w.disk
      && (op.Load? ==>
            && m'.sandboxes == op.loaded && m'.changed == m'.migrated == IsLegacy(w.disk)
            && m'.version == (if w.disk.Some? && w.disk.value.version > VERSION then w.disk.value.version else VERSION))
      && (op.Set? ==>
            m'.sandboxes == m.sandboxes[op.key := op.session]
            && m'.changed == (m.changed || m'.sandboxes != m.sandboxes))
      && (op.Delete? ==>
            m'.sandboxes == m.sandboxes - {op.key} && m'.changed == (m.changed || op.key in m.sandboxes))
      && (op.Rekey? ==> IsMoved(m.sandboxes, m'.sandboxes, op.oldKey, op.newKey, op.session) && m'.changed)
      && (!op.Load? ==> m'.version == m.version && m'.migrated == m.migrated)
  {
    if op.Set? && op.key in w.memory.sandboxes {
      var m := w.memory.sandboxes;
      assert m[op.key] == op.session ==> m[op.key := op.session] == m;
      assert m[op.key] != op.session ==> m[op.key := op.session][op.key] != m[op.key];
    }
    if op.Delete? && op.key !in w.memory.sandboxes {
      assert w.memory.sandboxes - {op.key} == w.memory.sandboxes;
    }
  }

  /** A save that happens and succeeds leaves exactly the memory on disk; any other leaves the disk alone. */
  lemma SaveEffects(w: World, fault: SaveFault, skipping: bool)
    ensures var w' := Next(w, SaveUnlessUnchanged(fault), skipping);
      && w'.memory.sandboxes == w.memory.sandboxes
      && (skipping && !w.memory.changed ==> w' == w)
      && (!(skipping && !w.memory.changed) && fault.NoFault? ==>
            w'.disk == Some(StoreFile(VERSION, w.memory.sandboxes)) && !w'.memory.changed && !w'.memory.migrated)
      && (!fault.NoFault? ==> w'.disk == w.disk && w'.memory.changed == w.memory.changed)
  {
  }

  /** A sequence of operations is its parts one after another. */
  lemma {:induction false} AfterBoth(w: World, a: seq<Op>, b: seq<Op>, skipping: bool)
    ensures After(w, a + b, skipping) == After(After(w, a, skipping), b, skipping)
    ensures forall op :: After(w, [op], skipping) == Next(w, op, skipping)
    decreases a
  {
    assert forall op: Op :: [op][1..] == [];
    if a == [] {
      assert a + b == b;
    } else {
      assert (a + b)[1..] == a[1..] + b;
      AfterBoth(Next(w, a[0], skipping), a[1..], b, skipping);
    }
  }

  // ---------------------------------------------------------------- which keys are ancestors'

  /** The key of a session at a detached position is an ancestor's exactly when its commit is; no key of a
      named branch, or of a detached position without a commit, ever is. */
  lemma {:induction false} AncestorKeys(sha: string, branch: string, config: string, configFile: string,
                                        isAncestor: string -> bool)
    requires sha != "" && ':' !in sha && IsAbs(config)
    requires branch != "" && ':' !in branch && (branch == "detached" || branch[0] != 'd')
    ensures IsAncestorKeyFor("detached@" + sha + ":" + config, configFile, isAncestor)
       <==> isAncestor(sha) && config == configFile
    ensures RekeyablePath("detached@" + sha + ":" + config)
    ensures !IsAncestorKey(branch + ":" + config, isAncestor)
    ensures IsAnonymous("detached@" + sha) && !IsAnonymous(branch)
  {
    OfDetached(sha, config);
    ParseUndoesSessionKey(branch, config);
    assert SessionKey(DetachedAt(sha), config) == "detached@" + sha + ":" + config;
    assert SessionKey(branch, config) == branch + ":" + config;
  }

  /** Keys without a config file may be moved too. */
  lemma {:induction false} KeyWithoutConfig(branch: string)
    requires branch != "" && !HasColonSlash(branch)
    ensures RekeyablePath(branch + ":")
  {
    ParseUndoesSessionKey(branch, "");
    assert SessionKey(branch, "") == branch + ":";
  }

  /** Each once: as many keys as there are different ones. */
  lemma {:induction false} DistinctMeans(keys: seq<string>)
    requires Distinct(keys)
    ensures |Elements(keys)| == |keys|
  {
    if keys != [] {
      var n := |keys| - 1;
      assert forall i, j | 0 <= i < j < n :: keys[..n][i] != keys[..n][j];
      DistinctMeans(keys[..n]);
      assert keys[n] !in keys[..n];
      assert Elements(keys) == Elements(keys[..n]) + {keys[n]};
    }
  }

  // ---------------------------------------------------------------- when re-keying keeps every session

  /** A migration keeps as many sessions as there were exactly when no two old keys migrate to one. */
  lemma {:induction false} MigrationKeepsSessions(before: Store, after: Store)
    requires IsMigration(before, after)
    ensures |after| <= |before|
    ensures |after| == |before| <==>
      forall k <- before, k' <- before | MigrateKey(k) == MigrateKey(k') :: k == k'
  {
    var keys := map k | k in before :: MigrateKey(k);
    assert keys.Keys == before.Keys;
    ValueCount(keys);
    MigratedKeys(before, after, keys);
    assert |keys| == |keys.Keys| && |before| == |before.Keys| && |after| == |after.Keys|;
  }

  lemma {:induction false} MigratedKeys(before: Store, after: Store, keys: map<string, string>)
    requires IsMigration(before, after) && keys.Keys == before.Keys && forall k <- keys :: keys[k] == MigrateKey(k)
    ensures keys.Values == after.Keys
    ensures Injective(keys) <==> forall k <- before, k' <- before | MigrateKey(k) == MigrateKey(k') :: k == k'
  {
    forall v | v in keys.Values ensures v in after.Keys {
      var k := KeyOf(keys, v);
    }
    forall k | k in after ensures k in keys.Values {
      var k0 :| k0 in before && MigrateKey(k0) == k;
      assert keys[k0] in keys.Values;
    }
    SameInjectivity(before, keys);
  }

  lemma {:induction false} SameInjectivity(before: Store, keys: map<string, string>)
    requires keys.Keys == before.Keys && forall k <- keys :: keys[k] == MigrateKey(k)
    ensures Injective(keys) <==> forall k <- before, k' <- before | MigrateKey(k) == MigrateKey(k') :: k == k'
  {
    forall k, k' | k in before && k' in before ensures keys[k] == keys[k'] <==> MigrateKey(k) == MigrateKey(k') {}
  }

  lemma {:induction false} NewKeyIsStable(branch: string, order: seq<string>, key: string)
    requires (forall k <- order :: RekeyablePath(k)) && RekeyablePath(key)
    requires branch != "" && !HasColonSlash(branch)
    requires key in NewKeys(branch, order).Values
    ensures NewKey(branch, key) == key
  {
    var k := KeyOf(NewKeys(branch, order), key);
    ParseUndoesSessionKey(branch, ParseSessionKey(k).1);
  }

  /** The new keys of the first n entries. */
  function Taken(newKeys: map<string, string>, order: seq<string>, n: nat): set<string>
    requires n <= |order| && forall k <- order :: k in newKeys
  {
    set i | 0 <= i < n :: newKeys[order[i]]
  }

  lemma {:induction false} RekeyedKeys(sandboxes: Store, newKeys: map<string, string>, order: seq<string>, n: nat)
    requires n <= |order| && forall k <- order :: k in sandboxes && k in newKeys
    requires forall k <- order :: k in newKeys.Values ==> newKeys[k] == k
    ensures RekeyedUpTo(sandboxes, newKeys, order, n).Keys
      == (sandboxes.Keys - Elements(order[..n])) + Taken(newKeys, order, n)
    decreases n
  {
    if n == 0 {
      assert order[..0] == [] && Taken(newKeys, order, 0) == {};
    } else {
      var last := order[n - 1];
      RekeyedKeys(sandboxes, newKeys, order, n - 1);
      assert Taken(newKeys, order, n) == Taken(newKeys, order, n - 1) + {newKeys[last]};
      assert Taken(newKeys, order, n - 1) <= newKeys.Values;
      MoveLast(sandboxes.Keys, order, n, Taken(newKeys, order, n - 1), newKeys[last]);
      var keys := RekeyedUpTo(sandboxes, newKeys, order, n - 1).Keys;
      assert RekeyedUpTo(sandboxes, newKeys, order, n).Keys == (keys - {last}) + {newKeys[last]};
    }
  }

  lemma MoveLast(all: set<string>, order: seq<string>, n: nat, taken: set<string>, key: string)
    requires 0 < n <= |order| && (order[n - 1] in taken ==> key == order[n - 1])
    ensures ((all - Elements(order[..n - 1])) + taken - {order[n - 1]}) + {key}
      == (all - Elements(order[..n])) + (taken + {key})
  {
    assert order[..n] == order[..n - 1] + [order[n - 1]];
    assert Elements(order[..n]) == Elements(order[..n - 1]) + {order[n - 1]};
  }

  /** Re-keying the ancestors' sessions to the current position keeps every session exactly when their
      config files are pairwise distinct and none of the new keys is taken by a session left in place;
      otherwise a session is overwritten although it is returned to the caller. */
  lemma {:induction false} RekeyKeepsSessions(sandboxes: Store, branch: string, order: seq<string>)
    requires forall k <- order :: k in sandboxes && RekeyablePath(k)
    requires Distinct(order) && branch != "" && !HasColonSlash(branch)
    ensures |RekeyAll(sandboxes, branch, order)| == |sandboxes| <==>
      && (forall k <- order, k' <- order | ParseSessionKey(k).1 == ParseSessionKey(k').1 :: k == k')
      && (forall k <- order :: NewKey(branch, k) in sandboxes ==> NewKey(branch, k) in order)
  {
    var moved, new' := Elements(order), NewKeys(branch, order);
    assert order[..|order|] == order;
    forall k | k in order && k in new'.Values ensures new'[k] == k {
      NewKeyIsStable(branch, order, k);
    }
    RekeyedKeys(sandboxes, new', order, |order|);
    TakenByAll(new', order);
    ValueCount(new');
    assert new'.Keys == moved && |new'| == |moved|;
    SameSize(sandboxes.Keys, moved, new'.Values);
    assert |RekeyAll(sandboxes, branch, order)| == |RekeyAll(sandboxes, branch, order).Keys|;
    NewKeysInjective(branch, order);
    NewKeysTaken(sandboxes, branch, order);
  }

  lemma TakenByAll(newKeys: map<string, string>, order: seq<string>)
    requires newKeys.Keys == Elements(order)
    ensures Taken(newKeys, order, |order|) == newKeys.Values
  {
    forall v | v in newKeys.Values ensures v in Taken(newKeys, order, |order|) {
      var k := KeyOf(newKeys, v);
      var i :| 0 <= i < |order| && order[i] == k;
    }
  }

  lemma {:induction false} SameSize(all: set<string>, moved: set<string>, fresh': set<string>)
    requires moved <= all && |fresh'| <= |moved|
    ensures |(all - moved) + fresh'| == |all| <==> |fresh'| == |moved| && (all - moved) * fresh' == {}
  {
    assert (all - moved) + moved == all;
    UnionSize(all - moved, moved);
    UnionSize(all - moved, fresh');
    assert (all - moved) * moved == {};
  }

  lemma {:induction false} NewKeysInjective(branch: string, order: seq<string>)
    requires (forall k <- order :: RekeyablePath(k)) && branch != "" && !HasColonSlash(branch)
    ensures Injective(NewKeys(branch, order)) <==>
      forall k <- order, k' <- order | ParseSessionKey(k).1 == ParseSessionKey(k').1 :: k == k'
  {
    var new' := NewKeys(branch, order);
    forall k, k' | k in order && k' in order
      ensures new'[k] == new'[k'] <==> ParseSessionKey(k).1 == ParseSessionKey(k').1
    {
      ParseUndoesSessionKey(branch, ParseSessionKey(k).1);
      ParseUndoesSessionKey(branch, ParseSessionKey(k').1);
    }
  }

  lemma {:induction false} NewKeysTaken(sandboxes: Store, branch: string, order: seq<string>)
    requires forall k <- order :: RekeyablePath(k)
    ensures (sandboxes.Keys - Elements(order)) * NewKeys(branch, order).Values == {} <==>
      forall k <- order :: NewKey(branch, k) in sandboxes ==> NewKey(branch, k) in order
  {
    var new', left := NewKeys(branch, order), sandboxes.Keys - Elements(order);
    forall k | k in order ensures NewKey(branch, k) in new'.Values {
      assert new'[k] in new'.Values;
    }
    forall v | v in new'.Values ensures exists k <- order :: NewKey(branch, k) == v {
      var k := KeyOf(new', v);
    }
    forall k | k in order ensures NewKey(branch, k) in left <==> NewKey(branch, k) in left * new'.Values {}
  }

  /** The callers re-key only when no session has a key for the current position. Then no new key is in the
      way, and every session is kept exactly when the moved ones have distinct config files. */
  lemma {:induction false} RekeyAtFreshPosition(sandboxes: Store, branch: string, order: seq<string>)
    requires forall k <- order :: k in sandboxes && RekeyablePath(k)
    requires Distinct(order) && branch != "" && !HasColonSlash(branch)
    requires forall k <- sandboxes :: !(branch + ":" <= k)
    ensures |RekeyAll(sandboxes, branch, order)| == |sandboxes| <==>
      forall k <- order, k' <- order | ParseSessionKey(k).1 == ParseSessionKey(k').1 :: k == k'
  {
    RekeyKeepsSessions(sandboxes, branch, order);
    forall k | k in order ensures NewKey(branch, k) !in sandboxes {
      assert branch + ":" <= NewKey(branch, k);
    }
  }

  function DetachedAt(sha: string): string { "detached@" + sha }

  /** Two sessions of one config file, left at two earlier positions: only the one moved last survives. */
  lemma {:induction false} RekeyLosesASession(x: string, y: string, z: string, config: string, s: Session, t: Session)
    requires x != "" && y != "" && z != "" && ':' !in x + y + z && x != y && x != z && y != z && IsAbs(config)
    ensures var a, b := SessionKey(DetachedAt(x), config), SessionKey(DetachedAt(y), config);
      && IsAncestorKey(a, sha => true) && IsAncestorKey(b, sha => true) && RekeyablePath(a) && RekeyablePath(b)
      && RekeyAll(map[a := s, b := t], DetachedAt(z), [a, b]) == map[SessionKey(DetachedAt(z), config) := t]
  {
    var a, b, c := SessionKey(DetachedAt(x), config), SessionKey(DetachedAt(y), config),
      SessionKey(DetachedAt(z), config);
    OfDetached(x, config);
    OfDetached(y, config);
    OfDetached(z, config);
    DistinctPositions(x, y);
    DistinctPositions(x, z);
    DistinctPositions(y, z);
    TwoMovedToOne(a, b, c, s, t, NewKeys(DetachedAt(z), [a, b]));
  }

  lemma {:induction false} DistinctPositions(x: string, y: string)
    requires x != y
    ensures DetachedAt(x) != DetachedAt(y)
  {
    assert DetachedAt(x)[9..] == x && DetachedAt(y)[9..] == y;
  }

  lemma {:induction false} OfDetached(sha: string, config: string)
    requires sha != "" && ':' !in sha && IsAbs(config)
    ensures ParseSessionKey(SessionKey(DetachedAt(sha), config)) == (DetachedAt(sha), config)
    ensures IsAnonymous(DetachedAt(sha)) && DetachedShortSHA(DetachedAt(sha)) == sha
  {
    ParseUndoesSessionKey(DetachedAt(sha), config);
  }

  lemma {:induction false} TwoMovedToOne(a: string, b: string, c: string, s: Session, t: Session,
                                         newKeys: map<string, string>)
    requires a != b && a != c && b != c && a in newKeys && b in newKeys && newKeys[a] == newKeys[b] == c
    ensures RekeyedUpTo(map[a := s, b := t], newKeys, [a, b], 2) == map[c := t]
  {
    var store, order := map[a := s, b := t], [a, b];
    assert RekeyedUpTo(store, newKeys, order, 0) == store;
    assert RekeyedUpTo(store, newKeys, order, 1) == (store - {a})[c := s];
    assert RekeyedUpTo(store, newKeys, order, 2) == ((store - {a})[c := s] - {b})[c := t];
  }
}
