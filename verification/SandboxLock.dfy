/** The lock protocol of `prepareSandboxOperation` and `StartSandbox`
    (internal/cli/service_sandbox.go): any number of CLI processes resolve, create, update, list and remove
    sandbox sessions in one version-1 store under one file lock. Each load, save, lock, unlock and API call is
    a step of its own; a run is any interleaving. A session may be found expired, stopped, reset or unusable,
    and be removed, by any process that has loaded it under the lock. Storage I/O succeeds and requests name a
    branch. A process may crash anywhere. */
module SandboxLock {
  import Collections
  import opened Options
  import opened SessionKeys
  import opened SandboxStorage
  import opened SandboxList

  /** `config` is the config file given on the command line, `fallback` the default one. */
  datatype Request = Request(branch: string, config: Option<string>, fallback: string, requireExisting: bool)

  function ConfigOf(q: Request): string {
    if q.config.Some? then q.config.value else q.fallback
  }

  /** Branch names hold no colon (git check-ref-format). */
  predicate NamedBranch(branch: string) {
    branch != "" && ':' !in branch && !IsDetachedBranch(branch)
  }

  predicate ValidRequest(q: Request) { NamedBranch(q.branch) && IsAbs(ConfigOf(q)) }

  function KeyOf(q: Request): string
    requires ValidRequest(q)
  {
    SessionKey(q.branch, ConfigOf(q))
  }

  datatype Process =
    | Start(q: Request)
    | Locked(q: Request)
    | Loaded(q: Request, mem: Store)
    | Found(q: Request, run: string)
    | Missing(q: Request)
    | Created(q: Request, run: string)               // run initiated, nothing saved yet
    | Merging(q: Request, run: string, mem: Store)   // store reloaded, about to save
    | Recorded(q: Request, run: string)
    | AwaitingToken(q: Request, run: string)         // lock released between the two saves
    | Relocked(q: Request, run: string)
    | Reloaded(q: Request, run: string, mem: Store)
    | TokenSaved(q: Request, run: string)
    | Using(q: Request, run: string)
    | Updating(q: Request, run: string)              // reconnection hint, execution count
    | UpdateLoaded(q: Request, run: string, mem: Store)
    | Updated(q: Request, run: string)
    | Failing
    | ListStart
    | ListLocked
    | ListLoaded(mem: Store)
    | ListSaved
    | Ended

  predicate HoldsLock(p: Process) {
    p.Locked? || p.Loaded? || p.Found? || p.Missing? || p.Created? || p.Merging? || p.Recorded? || p.Relocked?
    || p.Reloaded? || p.TokenSaved? || p.Updating? || p.UpdateLoaded? || p.Updated? || p.Failing?
    || p.ListLocked? || p.ListLoaded? || p.ListSaved?
  }

  predicate HasRequest(p: Process) {
    !p.Failing? && !p.ListStart? && !p.ListLocked? && !p.ListLoaded? && !p.ListSaved? && !p.Ended?
  }

  /** `runs` maps every run ever initiated to the branch and config it was initiated for; `lost` holds the
      runs whose creator crashed before its first save; `removed` has one copy of a key for each time its
      session was removed. */
  datatype World = World(disk: Store, lock: Option<nat>, procs: map<nat, Process>,
                         runs: map<string, (string, string)>, lost: set<string>, removed: multiset<string>)

  datatype Event =
    | Arrive(p: nat, process: Process)
    | Lock(p: nat)
    | Load(p: nat)
    | Resolve(p: nat)
    | Initiate(p: nat, id: string, ok: bool)
    | Save(p: nat, session: Session)
    | SaveList(p: nat, listed: seq<Run>)
    | Remove(p: nat, key: string)                    // expired, reset, stopped or unusable
    | Unlock(p: nat)
    | Crash(p: nat)

  // ---------------------------------------------------------------- lookup

  /** The session a request resolves to: by key when a config file was given, otherwise any session of the
      branch whose own config file is the default one. */
  predicate Resolves(mem: Store, q: Request, key: string)
    requires ValidRequest(q)
  {
    key in mem &&
    if q.config.Some? then key == KeyOf(q)
    else q.branch + ":" <= key && mem[key].configFile == q.fallback
  }

  /** A key and the config file inside its session agree, and the key has the current form. */
  predicate WellKeyed(key: string, s: Session) {
    var (branch, config) := ParseSessionKey(key);
    branch != "" && ':' !in branch && IsAbs(config) && config == s.configFile && SessionKey(branch, config) == key
  }

  predicate WellKeyedStore(store: Store) { forall k <- store :: WellKeyed(k, store[k]) }

  /** The scan over a branch finds what the lookup by key finds. */
  lemma {:induction false} ScanAgreesWithKey(mem: Store, q: Request, key: string)
    requires ValidRequest(q) && WellKeyedStore(mem)
    ensures Resolves(mem, q, key) <==> key in mem && key == KeyOf(q)
  {
    if key in mem {
      var (branch, config) := ParseSessionKey(key);
      assert WellKeyed(key, mem[key]);
      if q.branch + ":" <= key {
        assert key == q.branch + ":" + key[|q.branch| + 1..];
        SameBeforeColon(branch, config, q.branch, key[|q.branch| + 1..]);
      }
      if key == KeyOf(q) {
        ParseUndoesSessionKey(q.branch, ConfigOf(q));
        assert q.branch + ":" <= key;
      }
    }
  }

  // ---------------------------------------------------------------- steps

  predicate At(w: World, p: nat) { p in w.procs }

  /** A listing may name runs of any origin, on named branches or detached positions. */
  predicate IsListing(listed: seq<Run>) {
    forall r <- listed | r.cliState.Some? ::
      r.cliState.value.0 != "" && ':' !in r.cliState.value.0 && IsAbs(r.cliState.value.1)
  }

  /** What a locked update may do to a session: anything but its run and config file. */
  predicate SameRun(s: Session, t: Session) { s.runID == t.runID && s.configFile == t.configFile }

  /** Who may remove which session: a resolving process those it resolves among, a process using a sandbox
      those of its run, and a process that lists or stops sandboxes any. */
  predicate MayRemove(x: Process, disk: Store, key: string) {
    match x
    case Loaded(q, mem) =>
      key in mem && ValidRequest(q) && (if q.config.Some? then key == KeyOf(q) else q.branch + ":" <= key)
    case UpdateLoaded(q, run, mem) => key in mem && mem[key].runID == run
    case ListSaved => key in disk
    case _ => false
  }

  /** The session is removed from the store loaded and, by the save that follows under the same lock, from disk. */
  function AfterRemove(x: Process, key: string): Process {
    match x
    case Loaded(q, mem) => Loaded(q, mem - {key})
    case UpdateLoaded(q, run, mem) => UpdateLoaded(q, run, mem - {key})
    case _ => x
  }

  function RemovedDisk(x: Process, disk: Store, key: string): Store {
    (if HasMemory(x) then x.mem else disk) - {key}
  }

  ghost predicate Enabled(w: World, e: Event) {
    match e
    case Arrive(p, x) => !At(w, p) && (x.ListStart? || (x.Start? && ValidRequest(x.q)))
    case Lock(p) => At(w, p) && w.lock.None? &&
      (w.procs[p].Start? || w.procs[p].AwaitingToken? || w.procs[p].Using? || w.procs[p].ListStart?)
    case Load(p) => At(w, p) &&
      (w.procs[p].Locked? || w.procs[p].Created? || w.procs[p].Relocked? || w.procs[p].Updating?
        || w.procs[p].ListLocked?)
    case Resolve(p) => At(w, p) && w.procs[p].Loaded? && ValidRequest(w.procs[p].q)
    case Initiate(p, id, ok) => At(w, p) && w.procs[p].Missing? && id !in w.runs
      && forall k <- w.disk :: w.disk[k].runID != id
    case Save(p, s) => At(w, p) && IsSaving(w.procs[p]) && ValidRequest(w.procs[p].q) && MaySave(w.procs[p], s)
    case SaveList(p, listed) => At(w, p) && w.procs[p].ListLoaded? && IsListing(listed)
    case Remove(p, key) => At(w, p) && MayRemove(w.procs[p], w.disk, key)
    case Unlock(p) => At(w, p) &&
      (w.procs[p].Found? || w.procs[p].Recorded? || w.procs[p].TokenSaved? || w.procs[p].Updated?
        || w.procs[p].Failing? || w.procs[p].ListSaved?)
    case Crash(p) => At(w, p) && !w.procs[p].Ended?
  }

  function AfterLock(x: Process): Process {
    match x
    case Start(q) => Locked(q)
    case AwaitingToken(q, run) => Relocked(q, run)
    case Using(q, run) => Updating(q, run)
    case _ => ListLocked
  }

  function AfterLoad(x: Process, disk: Store): Process {
    match x
    case Locked(q) => Loaded(q, disk)
    case Created(q, run) => Merging(q, run, disk)
    case Relocked(q, run) => Reloaded(q, run, disk)
    case Updating(q, run) => UpdateLoaded(q, run, disk)
    case _ => ListLoaded(disk)
  }

  ghost function AfterResolve(x: Process): Process
    requires x.Loaded? && ValidRequest(x.q)
  {
    if exists k :: Resolves(x.mem, x.q, k) then var k :| Resolves(x.mem, x.q, k); Found(x.q, x.mem[k].runID)
    else if x.q.requireExisting then Failing
    else Missing(x.q)
  }

  function AfterSave(x: Process): Process
    requires IsSaving(x)
  {
    match x
    case Merging(q, run, _) => Recorded(q, run)
    case Reloaded(q, run, _) => TokenSaved(q, run)
    case UpdateLoaded(q, run, _) => Updated(q, run)
  }

  function AfterUnlock(x: Process): Process {
    match x
    case Found(q, run) => Using(q, run)
    case Recorded(q, run) => AwaitingToken(q, run)
    case TokenSaved(q, run) => Using(q, run)
    case Updated(q, run) => Using(q, run)
    case _ => Ended
  }

  function SavedDisk(x: Process, s: Session): Store
    requires IsSaving(x) && ValidRequest(x.q)
  {
    if x.UpdateLoaded? && KeyOf(x.q) !in x.mem then x.mem else x.mem[KeyOf(x.q) := s]
  }

  ghost function Next(w: World, e: Event): World
    requires Enabled(w, e)
  {
    match e
    case Arrive(p, x) => w.(procs := w.procs[p := x])
    case Lock(p) => w.(lock := Some(p), procs := w.procs[p := AfterLock(w.procs[p])])
    case Load(p) => w.(procs := w.procs[p := AfterLoad(w.procs[p], w.disk)])
    case Resolve(p) => w.(procs := w.procs[p := AfterResolve(w.procs[p])])
    case Initiate(p, id, ok) =>
      var q := w.procs[p].q;
      if ok then w.(procs := w.procs[p := Created(q, id)], runs := w.runs[id := (q.branch, ConfigOf(q))])
      else w.(procs := w.procs[p := Failing])
    case Save(p, s) => w.(disk := SavedDisk(w.procs[p], s), procs := w.procs[p := AfterSave(w.procs[p])])
    case SaveList(p, listed) =>
      w.(disk := Merged(w.procs[p].mem, listed), procs := w.procs[p := ListSaved])
    case Remove(p, key) =>
      w.(disk := RemovedDisk(w.procs[p], w.disk, key), procs := w.procs[p := AfterRemove(w.procs[p], key)],
         removed := w.removed + multiset{key})
    case Unlock(p) => w.(lock := None, procs := w.procs[p := AfterUnlock(w.procs[p])])
    case Crash(p) =>
      w.(procs := w.procs[p := Ended], lock := if w.lock == Some(p) then None else w.lock,
         lost := if InWindow(w.procs[p]) then w.lost + {w.procs[p].run} else w.lost)
  }

  predicate InWindow(x: Process) { x.Created? || x.Merging? }

  // ---------------------------------------------------------------- the invariant

  ghost predicate OneHolder(w: World) {
    && (forall p <- w.procs :: HoldsLock(w.procs[p]) <==> w.lock == Some(p))
    && (w.lock.Some? ==> w.lock.value in w.procs)
  }

  predicate HasMemory(x: Process) { x.Loaded? || x.Merging? || x.Reloaded? || x.UpdateLoaded? || x.ListLoaded? }

  ghost predicate MemoryIsDisk(w: World) {
    forall p <- w.procs | HasMemory(w.procs[p]) :: w.procs[p].mem == w.disk
  }

  predicate KnowsRecordedRun(x: Process) {
    x.Found? || x.Recorded? || x.AwaitingToken? || x.Relocked? || x.Reloaded? || x.TokenSaved? || x.Using?
    || x.Updating? || x.UpdateLoaded? || x.Updated?
  }

  predicate RecordedAs(disk: Store, key: string, run: string) { key in disk && disk[key].runID == run }

  /** What a process may rely on, whatever the other processes are doing. */
  predicate RequestFine(x: Process, w: World)
    requires HasRequest(x)
  {
    && ValidRequest(x.q)
    && (x.Missing? || InWindow(x) ==> KeyOf(x.q) !in w.disk)
    && (InWindow(x) ==> x.run in w.runs && w.runs[x.run] == (x.q.branch, ConfigOf(x.q)) && x.run !in w.lost)
    && (KnowsRecordedRun(x) && KeyOf(x.q) !in w.removed ==> RecordedAs(w.disk, KeyOf(x.q), x.run))
  }

  ghost predicate Requests(w: World) {
    forall p <- w.procs | HasRequest(w.procs[p]) :: RequestFine(w.procs[p], w)
  }

  /** Every run that is not lost is on disk under its key, or its creator still holds the lock, or a session
      with that key has been removed. */
  ghost predicate Runs(w: World) {
    && w.lost <= w.runs.Keys
    && (forall id <- w.runs :: NamedBranch(w.runs[id].0) && IsAbs(w.runs[id].1))
    && (forall id <- w.runs | id !in w.lost ::
          || SessionKey(w.runs[id].0, w.runs[id].1) in w.removed
          || RecordedAs(w.disk, SessionKey(w.runs[id].0, w.runs[id].1), id)
          || (w.lock.Some? && w.lock.value in w.procs
              && InWindow(w.procs[w.lock.value]) && w.procs[w.lock.value].run == id))
  }

  ghost predicate Inv(w: World) {
    OneHolder(w) && MemoryIsDisk(w) && WellKeyedStore(w.disk) && Requests(w) && Runs(w)
  }

  /** No session disappears or moves to another run, except under keys with a session removed. */
  ghost predicate Extends(before: Store, after: Store, removed: multiset<string>) {
    forall k <- before | k !in removed :: RecordedAs(after, k, before[k].runID)
  }

  lemma {:induction false} WellKeyedKey(q: Request, s: Session)
    requires ValidRequest(q) && s.configFile == ConfigOf(q)
    ensures WellKeyed(KeyOf(q), s)
  {
    ParseUndoesSessionKey(q.branch, ConfigOf(q));
  }

  /** One process moves on; the store and the runs stay. */
  lemma {:induction false} OneMoves(w: World, p: nat, x: Process, lock: Option<nat>)
    requires Inv(w)
    requires HoldsLock(x) <==> lock == Some(p)
    requires lock == w.lock || (w.lock.None? && lock == Some(p)) || (w.lock == Some(p) && lock.None?)
    requires HasMemory(x) ==> x.mem == w.disk
    requires HasRequest(x) ==> RequestFine(x, w)
    requires p in w.procs && InWindow(w.procs[p]) ==> InWindow(x) && x.run == w.procs[p].run && lock == w.lock
    ensures Inv(w.(procs := w.procs[p := x], lock := lock))
  {
    var w' := w.(procs := w.procs[p := x], lock := lock);
    assert OneHolder(w') && MemoryIsDisk(w') && Requests(w');
    forall id | id in w'.runs && id !in w'.lost && SessionKey(w.runs[id].0, w.runs[id].1) !in w.removed
        && !RecordedAs(w.disk, SessionKey(w.runs[id].0, w.runs[id].1), id)
      ensures w'.lock.Some? && w'.lock.value in w'.procs && InWindow(w'.procs[w'.lock.value])
        && w'.procs[w'.lock.value].run == id
    {
      assert w.lock.Some? && InWindow(w.procs[w.lock.value]);
    }
  }

  lemma {:induction false} LockedFine(w: World, x: Process)
    requires x.Start? || x.AwaitingToken? || x.Using? || x.ListStart?
    requires HasRequest(x) ==> RequestFine(x, w)
    ensures var x' := AfterLock(x);
      HoldsLock(x') && !HasMemory(x') && !InWindow(x) && (HasRequest(x') ==> RequestFine(x', w))
  {
  }

  lemma {:induction false} LoadedFine(w: World, x: Process)
    requires x.Locked? || x.Created? || x.Relocked? || x.Updating? || x.ListLocked?
    requires HasRequest(x) ==> RequestFine(x, w)
    ensures var x' := AfterLoad(x, w.disk);
      && HoldsLock(x) && HoldsLock(x') && HasMemory(x') && x'.mem == w.disk
      && (HasRequest(x') ==> RequestFine(x', w))
      && (InWindow(x) ==> InWindow(x') && x'.run == x.run)
  {
  }

  lemma {:induction false} UnlockedFine(w: World, x: Process)
    requires x.Found? || x.Recorded? || x.TokenSaved? || x.Updated? || x.Failing? || x.ListSaved?
    requires HasRequest(x) ==> RequestFine(x, w)
    ensures var x' := AfterUnlock(x);
      && HoldsLock(x) && !HoldsLock(x') && !HasMemory(x') && !InWindow(x)
      && (HasRequest(x') ==> RequestFine(x', w))
  {
  }

  predicate IsSaving(x: Process) { x.Merging? || x.Reloaded? || x.UpdateLoaded? }

  /** The session a process may save: its own, or the one it loaded with other details. */
  predicate MaySave(x: Process, s: Session)
    requires IsSaving(x) && ValidRequest(x.q)
  {
    if x.UpdateLoaded? then KeyOf(x.q) in x.mem ==> SameRun(s, x.mem[KeyOf(x.q)])
    else s.runID == x.run && s.configFile == ConfigOf(x.q)
  }

  /** A removed session is not brought back by an update; any other save sets the key of the request, to the run
      recorded there unless a session has been removed. */
  lemma {:induction false} SavedSession(w: World, x: Process, s: Session)
    requires IsSaving(x) && x.mem == w.disk && WellKeyedStore(w.disk) && RequestFine(x, w) && MaySave(x, s)
    ensures var key := KeyOf(x.q);
      if x.UpdateLoaded? && key !in w.disk then SavedDisk(x, s) == w.disk && key in w.removed
      else
        && SavedDisk(x, s) == w.disk[key := s] && s.configFile == ConfigOf(x.q)
        && (x.UpdateLoaded? ==> s.runID == w.disk[key].runID)
        && (key !in w.removed ==> s.runID == x.run && (key in w.disk ==> w.disk[key].runID == x.run))
  {
    if x.UpdateLoaded? && KeyOf(x.q) in w.disk {
      assert WellKeyed(KeyOf(x.q), w.disk[KeyOf(x.q)]);
      ParseUndoesSessionKey(x.q.branch, ConfigOf(x.q));
    }
  }

  lemma {:induction false} SavedFine(w: World, x: Process, s: Session)
    requires IsSaving(x) && x.mem == w.disk && WellKeyedStore(w.disk) && RequestFine(x, w) && MaySave(x, s)
    ensures Extends(w.disk, SavedDisk(x, s), w.removed) && WellKeyedStore(SavedDisk(x, s))
    ensures RequestFine(AfterSave(x), w.(disk := SavedDisk(x, s)))
    ensures InWindow(x) ==> RecordedAs(SavedDisk(x, s), KeyOf(x.q), x.run)
  {
    SavedSession(w, x, s);
    if x.UpdateLoaded? && KeyOf(x.q) !in w.disk {
      RecordedFine(AfterSave(x), w);
    } else {
      WellKeyedKey(x.q, s);
      UpdateExtends(w.disk, KeyOf(x.q), s, w.removed);
      RecordedFine(AfterSave(x), w.(disk := SavedDisk(x, s)));
    }
  }

  lemma {:induction false} RecordedFine(x: Process, w: World)
    requires HasRequest(x) && KnowsRecordedRun(x) && ValidRequest(x.q)
    requires KeyOf(x.q) !in w.removed ==> RecordedAs(w.disk, KeyOf(x.q), x.run)
    ensures RequestFine(x, w)
  {
  }

  lemma {:induction false} UpdateExtends(disk: Store, key: string, s: Session, removed: multiset<string>)
    requires WellKeyedStore(disk) && WellKeyed(key, s)
    requires key in disk && key !in removed ==> disk[key].runID == s.runID
    ensures Extends(disk, disk[key := s], removed) && WellKeyedStore(disk[key := s])
    ensures RecordedAs(disk[key := s], key, s.runID)
  {
  }

  lemma {:induction false} ResolvedFine(w: World, x: Process)
    requires x.Loaded? && x.mem == w.disk && WellKeyedStore(w.disk) && RequestFine(x, w)
    ensures var x' := AfterResolve(x);
      && HoldsLock(x') && !HasMemory(x') && (HasRequest(x') ==> RequestFine(x', w))
  {
    forall k ensures Resolves(x.mem, x.q, k) <==> k in x.mem && k == KeyOf(x.q) {
      ScanAgreesWithKey(x.mem, x.q, k);
    }
  }

  lemma {:induction false} StepResolve(w: World, p: nat)
    requires Inv(w) && Enabled(w, Event.Resolve(p))
    ensures Inv(Next(w, Event.Resolve(p))) && Next(w, Event.Resolve(p)).disk == w.disk
  {
    var x := w.procs[p];
    assert HasRequest(x) && HoldsLock(x) && RequestFine(x, w);
    ResolvedFine(w, x);
    OneMoves(w, p, AfterResolve(x), w.lock);
  }

  /** The lock holder may extend the store: nobody else relies on anything an extension breaks. */
  lemma {:induction false} OthersUnaffected(w: World, p: nat, disk: Store)
    requires Inv(w) && w.lock == Some(p) && Extends(w.disk, disk, w.removed)
    ensures forall o <- w.procs | o != p && HasRequest(w.procs[o]) :: RequestFine(w.procs[o], w.(disk := disk))
    ensures forall o <- w.procs | o != p :: !HasMemory(w.procs[o])
  {
    forall o | o in w.procs && o != p ensures !HoldsLock(w.procs[o]) {}
  }

  lemma {:induction false} StepSave(w: World, p: nat, s: Session)
    requires Inv(w) && Enabled(w, Event.Save(p, s))
    ensures var x := w.procs[p];
      && Inv(w.(disk := SavedDisk(x, s), procs := w.procs[p := AfterSave(x)]))
      && Extends(w.disk, SavedDisk(x, s), w.removed)
  {
    var x := w.procs[p];
    assert HoldsLock(x) && HasRequest(x) && HasMemory(x);
    SavedFine(w, x, s);
    SavedHolds(x);
    HolderSaves(w, p, AfterSave(x), SavedDisk(x, s));
  }

  lemma {:induction false} SavedHolds(x: Process)
    requires IsSaving(x)
    ensures HoldsLock(AfterSave(x)) && !HasMemory(AfterSave(x))
  {
  }

  /** The lock holder extends the store and moves on. */
  lemma {:induction false} HolderSaves(w: World, p: nat, x: Process, disk: Store)
    requires Inv(w) && w.lock == Some(p) && p in w.procs
    requires Extends(w.disk, disk, w.removed) && WellKeyedStore(disk)
    requires HoldsLock(x) && !HasMemory(x) && (HasRequest(x) ==> RequestFine(x, w.(disk := disk)))
    requires InWindow(w.procs[p]) ==> RecordedAs(disk, KeyOf(w.procs[p].q), w.procs[p].run)
    ensures Inv(w.(disk := disk, procs := w.procs[p := x]))
  {
    var w' := w.(disk := disk, procs := w.procs[p := x]);
    OthersUnaffected(w, p, disk);
    AllRecorded(w, p, disk);
    HolderMoves(w, p, x, disk);
    RequestsAfterSave(w, p, x, disk);
    assert Runs(w');
  }

  lemma {:induction false} HolderMoves(w: World, p: nat, x: Process, disk: Store)
    requires OneHolder(w) && w.lock == Some(p) && p in w.procs && HoldsLock(x) && !HasMemory(x)
    requires forall o <- w.procs | o != p :: !HasMemory(w.procs[o])
    ensures var w' := w.(disk := disk, procs := w.procs[p := x]); OneHolder(w') && MemoryIsDisk(w')
  {
  }

  lemma {:induction false} RequestsAfterSave(w: World, p: nat, x: Process, disk: Store)
    requires HasRequest(x) ==> RequestFine(x, w.(disk := disk))
    requires forall o <- w.procs | o != p && HasRequest(w.procs[o]) :: RequestFine(w.procs[o], w.(disk := disk))
    ensures Requests(w.(disk := disk, procs := w.procs[p := x]))
  {
    var w1, w2 := w.(disk := disk), w.(disk := disk, procs := w.procs[p := x]);
    forall o | o in w2.procs && HasRequest(w2.procs[o]) ensures RequestFine(w2.procs[o], w2) {
      assert RequestFine(w2.procs[o], w1);
    }
  }

  /** After a save by the lock holder every run that is not lost is on disk, but for removed sessions. */
  lemma {:induction false} AllRecorded(w: World, p: nat, disk: Store)
    requires Inv(w) && w.lock == Some(p) && p in w.procs && Extends(w.disk, disk, w.removed)
    requires InWindow(w.procs[p]) ==> RecordedAs(disk, KeyOf(w.procs[p].q), w.procs[p].run)
    ensures forall id <- w.runs | id !in w.lost && SessionKey(w.runs[id].0, w.runs[id].1) !in w.removed ::
      RecordedAs(disk, SessionKey(w.runs[id].0, w.runs[id].1), id)
  {
    forall id | id in w.runs && id !in w.lost && SessionKey(w.runs[id].0, w.runs[id].1) !in w.removed
      ensures RecordedAs(disk, SessionKey(w.runs[id].0, w.runs[id].1), id)
    {
      var key := SessionKey(w.runs[id].0, w.runs[id].1);
      if RecordedAs(w.disk, key, id) {
        assert RecordedAs(disk, key, w.disk[key].runID);
      } else {
        assert RequestFine(w.procs[p], w);
      }
    }
  }

  lemma {:induction false} StepSaveList(w: World, p: nat, listed: seq<Run>)
    requires Inv(w) && Enabled(w, Event.SaveList(p, listed))
    ensures var w' := Next(w, Event.SaveList(p, listed)); Inv(w') && Extends(w.disk, w'.disk, w.removed)
  {
    var w' := Next(w, Event.SaveList(p, listed));
    assert HoldsLock(w.procs[p]) && w.procs[p].mem == w.disk;
    MergeFacts(w.disk, listed);
    forall k | k in w'.disk ensures WellKeyed(k, w'.disk[k]) {
      if k !in w.disk {
        var r :| r in listed && r.cliState.Some? && KeyOfRun(r) == k && w'.disk[k] == SessionOfRun(r);
        ParseUndoesSessionKey(r.cliState.value.0, r.cliState.value.1);
      }
    }
    HolderSaves(w, p, ListSaved, w'.disk);
  }

  /** The lock holder removes a session; whoever relied on it knows that it may be gone. */
  lemma {:induction false} StepRemove(w: World, p: nat, key: string)
    requires Inv(w) && Enabled(w, Event.Remove(p, key))
    ensures var w' := Next(w, Event.Remove(p, key));
      Inv(w') && w'.disk == w.disk - {key} && key in w.disk && Extends(w.disk, w'.disk, w'.removed)
  {
    var x, w' := w.procs[p], Next(w, Event.Remove(p, key));
    RemovesFromDisk(w, p, key);
    OthersAfterRemove(w, p, w', key);
    HolderRemoves(w, p, w', key);
  }

  lemma {:induction false} RemovesFromDisk(w: World, p: nat, key: string)
    requires Inv(w) && p in w.procs && MayRemove(w.procs[p], w.disk, key)
    ensures w.lock == Some(p) && !InWindow(w.procs[p])
    ensures RemovedDisk(w.procs[p], w.disk, key) == w.disk - {key} && key in w.disk
  {
    assert HoldsLock(w.procs[p]);
  }

  lemma {:induction false} OthersAfterRemove(w: World, p: nat, w': World, key: string)
    requires Inv(w) && p in w.procs && w' == AfterRemoval(w, p, key)
    ensures Requests(w')
  {
    forall o | o in w'.procs && HasRequest(w'.procs[o]) ensures RequestFine(w'.procs[o], w') {
      assert HasRequest(w.procs[o]) ==> RequestFine(w.procs[o], w);
      RemovedFine(w, w', w.procs[o], key);
    }
  }

  function AfterRemoval(w: World, p: nat, key: string): World
    requires p in w.procs
  {
    w.(disk := w.disk - {key}, procs := w.procs[p := AfterRemove(w.procs[p], key)],
       removed := w.removed + multiset{key})
  }

  lemma {:induction false} RemovedFine(w: World, w': World, x: Process, key: string)
    requires HasRequest(x) && RequestFine(x, w)
    requires w'.disk == w.disk - {key} && w'.removed == w.removed + multiset{key}
    requires w'.runs == w.runs && w'.lost == w.lost
    ensures RequestFine(x, w') && HasRequest(AfterRemove(x, key)) && RequestFine(AfterRemove(x, key), w')
  {
  }

  lemma {:induction false} HolderRemoves(w: World, p: nat, w': World, key: string)
    requires Inv(w) && w.lock == Some(p) && p in w.procs && MayRemove(w.procs[p], w.disk, key)
    requires w' == AfterRemoval(w, p, key) && Requests(w')
    ensures Inv(w')
  {
    MemoryAfterRemove(w, p, key);
    RunsAfterRemove(w, p, key);
    assert OneHolder(w');
  }

  lemma {:induction false} MemoryAfterRemove(w: World, p: nat, key: string)
    requires Inv(w) && w.lock == Some(p) && p in w.procs && MayRemove(w.procs[p], w.disk, key)
    ensures MemoryIsDisk(AfterRemoval(w, p, key))
  {
    var procs := w.procs[p := AfterRemove(w.procs[p], key)];
    forall o | o in procs && HasMemory(procs[o]) ensures procs[o].mem == w.disk - {key} {
      assert o == p || HoldsLock(w.procs[o]);
    }
  }

  lemma {:induction false} RunsAfterRemove(w: World, p: nat, key: string)
    requires Inv(w) && w.lock == Some(p) && p in w.procs && MayRemove(w.procs[p], w.disk, key)
    ensures Runs(AfterRemoval(w, p, key))
  {
    forall id | id in w.runs && id !in w.lost && SessionKey(w.runs[id].0, w.runs[id].1) !in w.removed + multiset{key}
      ensures RecordedAs(w.disk - {key}, SessionKey(w.runs[id].0, w.runs[id].1), id)
    {
      assert !InWindow(w.procs[w.lock.value]);
    }
  }

  lemma {:induction false} StepArrive(w: World, p: nat, x: Process)
    requires Inv(w) && Enabled(w, Event.Arrive(p, x))
    ensures Inv(Next(w, Event.Arrive(p, x))) && Next(w, Event.Arrive(p, x)).disk == w.disk
  {
    OneMoves(w, p, x, w.lock);
  }

  lemma {:induction false} StepLock(w: World, p: nat)
    requires Inv(w) && Enabled(w, Event.Lock(p))
    ensures Inv(Next(w, Event.Lock(p))) && Next(w, Event.Lock(p)).disk == w.disk
  {
    LockedFine(w, w.procs[p]);
    OneMoves(w, p, AfterLock(w.procs[p]), Some(p));
  }

  lemma {:induction false} StepLoad(w: World, p: nat)
    requires Inv(w) && Enabled(w, Event.Load(p))
    ensures Inv(Next(w, Event.Load(p))) && Next(w, Event.Load(p)).disk == w.disk
  {
    LoadedFine(w, w.procs[p]);
    OneMoves(w, p, AfterLoad(w.procs[p], w.disk), w.lock);
  }

  lemma {:induction false} StepInitiate(w: World, p: nat, id: string, ok: bool)
    requires Inv(w) && Enabled(w, Event.Initiate(p, id, ok))
    ensures Inv(Next(w, Event.Initiate(p, id, ok))) && Next(w, Event.Initiate(p, id, ok)).disk == w.disk
  {
    if ok {
      RunCreated(w, p, id);
    } else {
      OneMoves(w, p, Failing, w.lock);
    }
  }

  function WithRun(w: World, p: nat, q: Request, id: string): World {
    w.(procs := w.procs[p := Created(q, id)], runs := w.runs[id := (q.branch, ConfigOf(q))])
  }

  /** A run nobody else knows: every other process and every earlier run is unaffected. */
  lemma {:induction false} RunCreated(w: World, p: nat, id: string)
    requires Inv(w) && p in w.procs && w.procs[p].Missing? && id !in w.runs
    ensures Inv(WithRun(w, p, w.procs[p].q, id))
  {
    assert HoldsLock(w.procs[p]) && RequestFine(w.procs[p], w);
    RequestsWithRun(w, p, w.procs[p].q, id);
    RunsWithRun(w, p, w.procs[p].q, id);
  }

  lemma {:induction false} RequestsWithRun(w: World, p: nat, q: Request, id: string)
    requires Inv(w) && ValidRequest(q) && KeyOf(q) !in w.disk && id !in w.runs
    ensures Requests(WithRun(w, p, q, id))
  {
    var w' := WithRun(w, p, q, id);
    forall o | o in w.procs && o != p && HasRequest(w.procs[o]) ensures RequestFine(w.procs[o], w') {
      KnowsMoreRuns(w.procs[o], w, w');
    }
    CreatedFine(w, q, id);
  }

  lemma {:induction false} RunsWithRun(w: World, p: nat, q: Request, id: string)
    requires Inv(w) && w.lock == Some(p) && p in w.procs && !InWindow(w.procs[p]) && ValidRequest(q)
    ensures Runs(WithRun(w, p, q, id))
  {
  }

  lemma {:induction false} KnowsMoreRuns(x: Process, w: World, w': World)
    requires HasRequest(x) && RequestFine(x, w) && w'.disk == w.disk && w'.lost == w.lost && w'.removed == w.removed
    requires forall id <- w.runs :: id in w'.runs && w'.runs[id] == w.runs[id]
    ensures RequestFine(x, w')
  {
  }

  lemma {:induction false} CreatedFine(w: World, q: Request, id: string)
    requires ValidRequest(q) && KeyOf(q) !in w.disk && id !in w.lost
    ensures RequestFine(Created(q, id), w.(runs := w.runs[id := (q.branch, ConfigOf(q))]))
  {
  }

  lemma {:induction false} StepUnlock(w: World, p: nat)
    requires Inv(w) && Enabled(w, Event.Unlock(p))
    ensures Inv(Next(w, Event.Unlock(p))) && Next(w, Event.Unlock(p)).disk == w.disk
  {
    UnlockedFine(w, w.procs[p]);
    OneMoves(w, p, AfterUnlock(w.procs[p]), None);
  }

  lemma StepCrash(w: World, p: nat)
    requires Inv(w) && Enabled(w, Event.Crash(p))
    ensures Inv(Next(w, Event.Crash(p))) && Next(w, Event.Crash(p)).disk == w.disk
  {
  }

  lemma {:induction false} StepKeepsInv(w: World, e: Event)
    requires Inv(w) && Enabled(w, e)
    ensures Inv(Next(w, e)) && Extends(w.disk, Next(w, e).disk, Next(w, e).removed)
  {
    match e
    case Arrive(p, x) => StepArrive(w, p, x);
    case Lock(p) => StepLock(w, p);
    case Load(p) => StepLoad(w, p);
    case Resolve(p) => StepResolve(w, p);
    case Initiate(p, id, ok) => StepInitiate(w, p, id, ok);
    case Save(p, s) => StepSave(w, p, s);
    case SaveList(p, listed) => StepSaveList(w, p, listed);
    case Remove(p, key) => StepRemove(w, p, key);
    case Unlock(p) => StepUnlock(w, p);
    case Crash(p) => StepCrash(w, p);
  }

  // ---------------------------------------------------------------- whole runs

  ghost predicate IsRun(w: World, events: seq<Event>)
    decreases events
  {
    events == [] || (Enabled(w, events[0]) && IsRun(Next(w, events[0]), events[1..]))
  }

  ghost function After(w: World, events: seq<Event>): World
    requires IsRun(w, events)
    decreases events
  {
    if events == [] then w else After(Next(w, events[0]), events[1..])
  }

  function Begin(disk: Store): World { World.World(disk, None, map[], map[], {}, multiset{}) }

  lemma {:induction false} RunKeepsInv(w: World, events: seq<Event>)
    requires Inv(w) && IsRun(w, events)
    ensures var w' := After(w, events);
      Inv(w') && w.removed <= w'.removed && Extends(w.disk, w'.disk, w'.removed)
    decreases events
  {
    if events != [] {
      var next := Next(w, events[0]);
      StepKeepsInv(w, events[0]);
      assert w.removed <= next.removed;
      RunKeepsInv(next, events[1..]);
      var w' := After(next, events[1..]);
      assert forall k <- w.disk | k !in w'.removed ::
        (k !in next.removed && RecordedAs(next.disk, k, w.disk[k].runID) && RecordedAs(w'.disk, k, next.disk[k].runID));
    }
  }

  // ---------------------------------------------------------------- how many runs

  /** The runs initiated for the branch and config of a request, but for the lost ones. */
  ghost function RunsFor(w: World, q: Request): set<string> {
    set id | id in w.runs && id !in w.lost && w.runs[id] == (q.branch, ConfigOf(q))
  }

  predicate SameTarget(q: Request, r: Request) { q.branch == r.branch && ConfigOf(q) == ConfigOf(r) }

  /** The key has a session, or a process that holds the lock is about to save one. */
  ghost predicate Taken(w: World, q: Request)
    requires ValidRequest(q)
  {
    KeyOf(q) in w.disk || TakenBy(w, q)
  }

  ghost predicate TakenBy(w: World, q: Request) {
    && w.lock.Some? && w.lock.value in w.procs && InWindow(w.procs[w.lock.value])
    && SameTarget(w.procs[w.lock.value].q, q)
  }

  /** How many more runs the removals so far and the free key allow. */
  ghost function Spare(w: World, q: Request): int
    requires ValidRequest(q)
  {
    w.removed[KeyOf(q)] + (if Taken(w, q) then 1 else 0) - |RunsFor(w, q)|
  }

  lemma {:induction false} SameRuns(w: World, w': World, q: Request)
    requires ValidRequest(q) && RunsFor(w', q) == RunsFor(w, q) && w'.removed == w.removed
    requires Taken(w, q) ==> Taken(w', q)
    ensures Spare(w', q) >= Spare(w, q)
  {
  }

  lemma {:induction false} SpareInitiate(w: World, e: Event, q: Request)
    requires Inv(w) && Enabled(w, e) && ValidRequest(q) && e.Initiate? && e.ok
    ensures Spare(Next(w, e), q) >= Spare(w, q)
  {
    NothingTaken(w, e.p);
    if SameTarget(w.procs[e.p].q, q) {
      OneMoreRun(w, e.p, e.id, q);
    } else {
      assert RunsFor(Next(w, e), q) == RunsFor(w, q);
      SameRuns(w, Next(w, e), q);
    }
  }

  lemma {:induction false} OneMoreRun(w: World, p: nat, id: string, q: Request)
    requires p in w.procs && w.procs[p].Missing? && w.lock == Some(p) && id !in w.runs
    requires ValidRequest(q) && SameTarget(w.procs[p].q, q) && !Taken(w, q)
    ensures var w' := w.(procs := w.procs[p := Created(w.procs[p].q, id)],
                         runs := w.runs[id := (w.procs[p].q.branch, ConfigOf(w.procs[p].q))]);
      Spare(w', q) >= Spare(w, q)
  {
    var w' := w.(procs := w.procs[p := Created(w.procs[p].q, id)],
                 runs := w.runs[id := (w.procs[p].q.branch, ConfigOf(w.procs[p].q))]);
    assert RunsFor(w', q) <= RunsFor(w, q) + {id};
    Collections.SubsetSize(RunsFor(w', q), RunsFor(w, q) + {id});
    assert TakenBy(w', q);
  }

  /** The process about to initiate a run holds the lock, and its key has no session. */
  lemma {:induction false} NothingTaken(w: World, p: nat)
    requires Inv(w) && p in w.procs && w.procs[p].Missing?
    ensures w.lock == Some(p) && ValidRequest(w.procs[p].q) && KeyOf(w.procs[p].q) !in w.disk
    ensures forall q :: !TakenBy(w, q)
  {
    assert RequestFine(w.procs[p], w) && HoldsLock(w.procs[p]);
  }

  lemma {:induction false} SpareSave(w: World, e: Event, q: Request)
    requires Inv(w) && Enabled(w, e) && ValidRequest(q) && (e.Save? || e.SaveList?)
    ensures Spare(Next(w, e), q) >= Spare(w, q)
  {
    var x, w' := w.procs[e.p], Next(w, e);
    assert HoldsLock(x) && RunsFor(w', q) == RunsFor(w, q);
    if e.SaveList? {
      MergeFacts(w.disk, e.listed);
    }
    SameRuns(w, w', q);
  }

  lemma {:induction false} SpareRemove(w: World, e: Event, q: Request)
    requires Inv(w) && Enabled(w, e) && ValidRequest(q) && e.Remove?
    ensures Spare(Next(w, e), q) >= Spare(w, q)
  {
    RemovesFromDisk(w, e.p, e.key);
    SpareAfterRemoval(w, e.p, e.key, q);
  }

  lemma {:induction false} SpareAfterRemoval(w: World, p: nat, key: string, q: Request)
    requires p in w.procs && w.lock == Some(p) && !InWindow(w.procs[p]) && ValidRequest(q)
    ensures Spare(AfterRemoval(w, p, key), q) >= Spare(w, q)
  {
    assert RunsFor(AfterRemoval(w, p, key), q) == RunsFor(w, q);
    if key != KeyOf(q) {
      assert Taken(w, q) ==> Taken(AfterRemoval(w, p, key), q);
    }
  }

  lemma {:induction false} SpareCrash(w: World, e: Event, q: Request)
    requires Inv(w) && Enabled(w, e) && ValidRequest(q) && e.Crash?
    ensures Spare(Next(w, e), q) >= Spare(w, q)
  {
    if InWindow(w.procs[e.p]) {
      WindowFine(w, e.p);
      RunLost(w, e.p, Next(w, e), q);
    } else {
      CrashElsewhere(w, e.p, Next(w, e), q);
    }
  }

  lemma {:induction false} WindowFine(w: World, p: nat)
    requires Inv(w) && p in w.procs && InWindow(w.procs[p])
    ensures RequestFine(w.procs[p], w) && w.lock == Some(p)
  {
    assert HoldsLock(w.procs[p]);
  }

  lemma {:induction false} CrashElsewhere(w: World, p: nat, w': World, q: Request)
    requires p in w.procs && !InWindow(w.procs[p]) && ValidRequest(q)
    requires w' == w.(procs := w.procs[p := Ended], lock := if w.lock == Some(p) then None else w.lock)
    ensures Spare(w', q) >= Spare(w, q)
  {
    assert RunsFor(w', q) == RunsFor(w, q);
    SameRuns(w, w', q);
  }

  /** A run lost with its creator no longer counts, and its key is free again. */
  lemma {:induction false} RunLost(w: World, p: nat, w': World, q: Request)
    requires p in w.procs && InWindow(w.procs[p]) && w.lock == Some(p) && ValidRequest(q)
    requires RequestFine(w.procs[p], w)
    requires w'.disk == w.disk && w'.removed == w.removed && w'.runs == w.runs && w'.lost == w.lost + {w.procs[p].run}
    ensures Spare(w', q) >= Spare(w, q)
  {
    var x := w.procs[p];
    if SameTarget(x.q, q) {
      var lost := {x.run};
      assert x.run in RunsFor(w, q) && RunsFor(w', q) == RunsFor(w, q) - lost;
      assert |RunsFor(w', q)| == |RunsFor(w, q)| - 1;
    } else {
      assert RunsFor(w', q) == RunsFor(w, q);
      SameRuns(w, w', q);
    }
  }

  lemma {:induction false} SpareStays(w: World, e: Event, q: Request)
    requires Inv(w) && Enabled(w, e) && ValidRequest(q)
    ensures Spare(Next(w, e), q) >= Spare(w, q)
  {
    if e.Initiate? && e.ok {
      SpareInitiate(w, e, q);
    } else if e.Save? || e.SaveList? {
      SpareSave(w, e, q);
    } else if e.Remove? {
      SpareRemove(w, e, q);
    } else if e.Crash? {
      SpareCrash(w, e, q);
    } else {
      assert RunsFor(Next(w, e), q) == RunsFor(w, q);
      if TakenBy(w, q) {
        WindowStays(w, e, q);
      }
      SameRuns(w, Next(w, e), q);
    }
  }

  lemma {:induction false} WindowStays(w: World, e: Event, q: Request)
    requires Inv(w) && Enabled(w, e) && TakenBy(w, q)
    requires e.Arrive? || e.Lock? || e.Load? || e.Resolve? || e.Initiate? || e.Unlock?
    ensures TakenBy(Next(w, e), q)
  {
    if !e.Arrive? && !e.Lock? {
      HolderActs(w, e);
    }
  }

  lemma {:induction false} HolderActs(w: World, e: Event)
    requires Inv(w) && Enabled(w, e) && (e.Load? || e.Resolve? || e.Initiate? || e.Unlock?)
    ensures w.lock == Some(e.p)
  {
    assert HoldsLock(w.procs[e.p]);
  }

  lemma {:induction false} SpareGrows(w: World, events: seq<Event>, q: Request)
    requires Inv(w) && IsRun(w, events) && ValidRequest(q)
    ensures Spare(After(w, events), q) >= Spare(w, q)
    decreases events
  {
    if events != [] {
      StepKeepsInv(w, events[0]);
      SpareStays(w, events[0], q);
      SpareGrows(Next(w, events[0]), events[1..], q);
    }
  }

  /** However the processes interleave, each removal of a session allows one more run for its branch and config
      file, and without one there is at most one: none beside a session recorded before. Runs whose creator
      crashed between initiating them and its first save do not count. */
  lemma {:induction false} RunsAreBounded(disk: Store, events: seq<Event>, q: Request)
    requires WellKeyedStore(disk) && IsRun(Begin(disk), events) && ValidRequest(q)
    ensures var w := After(Begin(disk), events);
      |RunsFor(w, q)| <= w.removed[KeyOf(q)] + if KeyOf(q) in disk then 0 else 1
  {
    assert RunsFor(Begin(disk), q) == {};
    SpareGrows(Begin(disk), events, q);
  }

  /** So at most one run is ever initiated for a branch and config file whose session is never removed. */
  lemma {:induction false} AtMostOneRun(disk: Store, events: seq<Event>, q: Request)
    requires WellKeyedStore(disk) && IsRun(Begin(disk), events) && ValidRequest(q)
    requires KeyOf(q) !in After(Begin(disk), events).removed
    ensures var w := After(Begin(disk), events);
      forall id <- RunsFor(w, q), id' <- RunsFor(w, q) :: id == id'
  {
    RunsAreBounded(disk, events, q);
    Collections.AtMostOne(RunsFor(After(Begin(disk), events), q));
  }

  /** A session recorded before stays on its run until it is removed, and no run is initiated beside it. */
  lemma {:induction false} RecordedSessionsStay(disk: Store, events: seq<Event>, q: Request)
    requires WellKeyedStore(disk) && IsRun(Begin(disk), events) && ValidRequest(q) && KeyOf(q) in disk
    requires KeyOf(q) !in After(Begin(disk), events).removed
    ensures var w := After(Begin(disk), events);
      RecordedAs(w.disk, KeyOf(q), disk[KeyOf(q)].runID) && RunsFor(w, q) == {}
  {
    RunKeepsInv(Begin(disk), events);
    RunsAreBounded(disk, events, q);
  }

  lemma {:induction false} SameTargetSameRun(w: World, x: Process, y: Process)
    requires x.Using? && y.Using? && SameTarget(x.q, y.q)
    requires RequestFine(x, w) && RequestFine(y, w) && KeyOf(x.q) !in w.removed
    ensures x.run == y.run
  {
  }

  /** All processes that end up using a sandbox for one branch and config file use the same run, unless a
      session under its key has been removed. */
  lemma {:induction false} UsersShareTheRun(disk: Store, events: seq<Event>, p: nat, r: nat)
    requires WellKeyedStore(disk) && IsRun(Begin(disk), events)
    requires var w := After(Begin(disk), events);
      && At(w, p) && At(w, r) && w.procs[p].Using? && w.procs[r].Using? && SameTarget(w.procs[p].q, w.procs[r].q)
      && (ValidRequest(w.procs[p].q) ==> KeyOf(w.procs[p].q) !in w.removed)
    ensures After(Begin(disk), events).procs[p].run == After(Begin(disk), events).procs[r].run
  {
    RunKeepsInv(Begin(disk), events);
    var w := After(Begin(disk), events);
    assert RequestFine(w.procs[p], w) && RequestFine(w.procs[r], w);
    SameTargetSameRun(w, w.procs[p], w.procs[r]);
  }

  // ---------------------------------------------------------------- nobody is stuck

  /** A step other than a crash that the process can take, whatever the store and the API answer. */
  ghost predicate CanMove(w: World, p: nat) {
    || Enabled(w, Lock(p)) || Enabled(w, Event.Load(p)) || Enabled(w, Resolve(p)) || Enabled(w, Unlock(p))
    || (exists s :: Enabled(w, Event.Save(p, s))) || Enabled(w, SaveList(p, []))
    || (forall id, ok | id !in w.runs && (forall k <- w.disk :: w.disk[k].runID != id) ::
          Enabled(w, Initiate(p, id, ok)))
  }

  /** In every reachable state the holder of the lock can go on, and when the lock is free so can every other
      process that has not ended. So nobody waits for ever unless the holder stops of its own accord, and then
      its crash frees the lock. */
  lemma {:induction false} NobodyIsStuck(w: World, p: nat)
    requires Inv(w) && p in w.procs
    ensures !w.procs[p].Ended? && (w.lock.None? || w.lock == Some(p)) <==> CanMove(w, p)
    ensures !w.procs[p].Ended? <==> Enabled(w, Crash(p))
    ensures w.lock == Some(p) ==> Enabled(w, Crash(p)) && Next(w, Crash(p)).lock == None
  {
    assert HoldsLock(w.procs[p]) <==> w.lock == Some(p);
    if w.procs[p].Ended? || (w.lock.Some? && w.lock != Some(p)) {
      WaitsForTheLock(w, p);
    } else if w.lock == Some(p) {
      assert HasRequest(w.procs[p]) ==> RequestFine(w.procs[p], w);
      HolderCanMove(w, p);
    } else {
      assert Enabled(w, Lock(p));
    }
  }

  lemma {:induction false} HolderCanMove(w: World, p: nat)
    requires p in w.procs && HoldsLock(w.procs[p]) && (HasRequest(w.procs[p]) ==> RequestFine(w.procs[p], w))
    ensures CanMove(w, p)
  {
    var x := w.procs[p];
    if IsSaving(x) {
      SomeSave(x);
      var s :| MaySave(x, s);
      assert Enabled(w, Event.Save(p, s));
    } else if x.Missing? {
      assert forall id, ok | id !in w.runs && (forall k <- w.disk :: w.disk[k].runID != id) ::
        Enabled(w, Initiate(p, id, ok));
    }
  }

  lemma {:induction false} WaitsForTheLock(w: World, p: nat)
    requires p in w.procs && !HoldsLock(w.procs[p]) && (w.procs[p].Ended? || w.lock.Some?)
    ensures !CanMove(w, p)
  {
    FreshRun(w);
    var id :| id !in w.runs && forall k <- w.disk :: w.disk[k].runID != id;
    assert !Enabled(w, Initiate(p, id, true));
  }

  lemma SomeSave(x: Process)
    requires IsSaving(x) && ValidRequest(x.q)
    ensures exists s :: MaySave(x, s)
  {
    var s := if x.UpdateLoaded? && KeyOf(x.q) in x.mem then x.mem[KeyOf(x.q)]
      else Session(x.run, ConfigOf(x.q), "", "", "", None, None, 0, false);
    assert MaySave(x, s);
  }

  /** There is always a run id nobody has used. */
  lemma {:induction false} FreshRun(w: World)
    ensures exists id :: id !in w.runs && forall k <- w.disk :: w.disk[k].runID != id
  {
    var used := w.runs.Keys + set k | k in w.disk :: w.disk[k].runID;
    var id := Longer(used);
    assert id !in used;
  }

  lemma {:induction false} Longer(used: set<string>) returns (id: string)
    ensures forall u <- used :: |u| < |id|
  {
    if used == {} {
      id := "";
    } else {
      var u :| u in used;
      var rest := Longer(used - {u});
      id := (if |u| < |rest| then rest else u) + "x";
    }
  }

  /** New processes come at any time, to list or with any request for a named branch. */
  lemma AnybodyMayCome(w: World, p: nat, branch: string, config: Option<string>, fallback: string, existing: bool)
    requires p !in w.procs && branch != "" && ':' !in branch && branch[0] != 'd'
    requires IsAbs(if config.Some? then config.value else fallback)
    ensures Enabled(w, Arrive(p, ListStart))
    ensures Enabled(w, Arrive(p, Start(Request(branch, config, fallback, existing))))
    ensures KeyOf(Request(branch, config, fallback, existing))
         == branch + ":" + if config.Some? then config.value else fallback
  {
  }

  /** The scan goes by the config file inside a session, not by its key: for a store whose keys and sessions
      disagree, it finds what the lookup by key does not. */
  lemma {:induction false} ScanGoesByField(branch: string, config: string, s: Session)
    requires branch != "" && ':' !in branch && branch[0] != 'd' && IsAbs(config) && s.configFile == config
    ensures var q := Request(branch, None, config, false);
      ValidRequest(q) && Resolves(map[branch + ":" := s], q, branch + ":") && KeyOf(q) != branch + ":"
    ensures !WellKeyedStore(map[branch + ":" := s])
  {
    var key := branch + ":";
    assert |KeyOf(Request(branch, None, config, false))| > |key|;
    ParseUndoesSessionKey(branch, "");
    assert SessionKey(branch, "") == key && ParseSessionKey(key) == (branch, "");
    assert !WellKeyed(key, s);
  }

  /** A resolving process with a config file may remove the session of its own key only; one that scans its
      branch, any of the branch. */
  lemma {:induction false} WhatIsRemoved(q: Request, mem: Store, disk: Store, key: string, rest: string)
    requires ValidRequest(q)
    ensures q.config.Some? ==> (MayRemove(Loaded(q, mem), disk, key) <==> key in mem && key == KeyOf(q))
    ensures q.config.None? && q.branch + ":" + rest in mem ==> MayRemove(Loaded(q, mem), disk, q.branch + ":" + rest)
    ensures q.config.None? && MayRemove(Loaded(q, mem), disk, key) ==> q.branch + ":" <= key && key in mem
  {
  }

  /** A store as the first version writes it. */
  lemma {:induction false} WellKeyedExample(branch: string, config: string, s: Session)
    requires branch != "" && ':' !in branch && IsAbs(config) && s.configFile == config
    ensures WellKeyedStore(map[branch + ":" + config := s])
  {
    ParseUndoesSessionKey(branch, config);
    assert SessionKey(branch, config) == branch + ":" + config;
  }

  // ---------------------------------------------------------------- what resolution decides

  /** A resolved request finds the run recorded under its key; without one it fails when a sandbox is required
      to exist, and goes on to initiate a run otherwise. */
  lemma {:induction false} ResolvesByKey(x: Process)
    requires x.Loaded? && ValidRequest(x.q) && WellKeyedStore(x.mem)
    ensures AfterResolve(x).Found? <==> KeyOf(x.q) in x.mem
    ensures AfterResolve(x).Found? ==> AfterResolve(x) == Found(x.q, x.mem[KeyOf(x.q)].runID)
    ensures AfterResolve(x) == Missing(x.q) <==> KeyOf(x.q) !in x.mem && !x.q.requireExisting
    ensures AfterResolve(x) == Failing <==> KeyOf(x.q) !in x.mem && x.q.requireExisting
  {
    forall k ensures Resolves(x.mem, x.q, k) <==> k in x.mem && k == KeyOf(x.q) {
      ScanAgreesWithKey(x.mem, x.q, k);
    }
  }

  /** Past the lookup, a request that requires a sandbox only ever uses one. */
  predicate InitiatesNothing(x: Process) {
    HasRequest(x) && x.q.requireExisting ==>
      x.Start? || x.Locked? || x.Loaded? || x.Found? || x.Using? || x.Updating? || x.UpdateLoaded? || x.Updated?
  }

  lemma StepInitiatesNothing(w: World, e: Event)
    requires Enabled(w, e) && forall p <- w.procs :: InitiatesNothing(w.procs[p])
    ensures forall p <- Next(w, e).procs :: InitiatesNothing(Next(w, e).procs[p])
  {
  }

  /** In no run does a request that requires a sandbox to exist initiate one or save a run of its own. */
  lemma {:induction false} RequiringInitiatesNothing(w: World, events: seq<Event>)
    requires IsRun(w, events) && forall p <- w.procs :: InitiatesNothing(w.procs[p])
    ensures forall p <- After(w, events).procs :: InitiatesNothing(After(w, events).procs[p])
    ensures forall i | 0 <= i < |events| && events[i].Initiate? ::
      IsRun(w, events[..i]) && events[i].p in After(w, events[..i]).procs
      && After(w, events[..i]).procs[events[i].p].Missing?
      && !After(w, events[..i]).procs[events[i].p].q.requireExisting
    decreases events
  {
    if events != [] {
      var next := Next(w, events[0]);
      StepInitiatesNothing(w, events[0]);
      RequiringInitiatesNothing(next, events[1..]);
      forall i | 0 <= i < |events| && events[i].Initiate?
        ensures IsRun(w, events[..i]) && events[i].p in After(w, events[..i]).procs
          && After(w, events[..i]).procs[events[i].p].Missing?
          && !After(w, events[..i]).procs[events[i].p].q.requireExisting
      {
        if i > 0 {
          assert events[..i] == [events[0]] + events[1..][..i - 1] && events[1..][i - 1] == events[i];
          OneMoreEvent(w, events[0], events[1..][..i - 1]);
        }
      }
    }
  }

  // ---------------------------------------------------------------- the second save

  /** A session under the key before and after, of two different runs. */
  ghost predicate Displaces(w: World, w': World, key: string) {
    key in w.disk && key in w'.disk && w'.disk[key].runID != w.disk[key].runID
  }

  /** The step is the second save of a process whose run is no longer the one recorded. */
  ghost predicate IsLateSave(w: World, e: Event, key: string)
    requires Enabled(w, e)
  {
    && e.Save? && w.procs[e.p].Reloaded? && key == KeyOf(w.procs[e.p].q) && key in w.disk
    && w.disk[key].runID != w.procs[e.p].run
  }

  /** The second save, with the token, sets the key without looking at what is recorded there. It takes the key
      from another run exactly when one is recorded there by then; no other step ever does, and it can only
      happen under a key with a session removed. */
  lemma {:induction false} LateSaveDisplaces(w: World, e: Event, key: string)
    requires Inv(w) && Enabled(w, e)
    ensures Displaces(w, Next(w, e), key) <==> IsLateSave(w, e, key)
    ensures IsLateSave(w, e, key) ==> key in w.removed && Next(w, e).disk[key].runID == w.procs[e.p].run
  {
    if e.Save? {
      assert HasMemory(w.procs[e.p]) && RequestFine(w.procs[e.p], w);
      SaveDisplaces(w, w.procs[e.p], e.session, key);
    } else if e.SaveList? {
      assert HasMemory(w.procs[e.p]);
      MergeFacts(w.disk, e.listed);
    } else if e.Remove? {
      RemovesFromDisk(w, e.p, e.key);
    }
  }

  lemma {:induction false} SaveDisplaces(w: World, x: Process, s: Session, key: string)
    requires IsSaving(x) && x.mem == w.disk && WellKeyedStore(w.disk) && RequestFine(x, w) && MaySave(x, s)
    ensures var disk := SavedDisk(x, s);
      && (key in w.disk && key in disk && disk[key].runID != w.disk[key].runID
          <==> x.Reloaded? && key == KeyOf(x.q) && key in w.disk && w.disk[key].runID != x.run)
      && (x.Reloaded? && key == KeyOf(x.q) ==> RecordedAs(disk, key, x.run))
      && (x.Reloaded? && key == KeyOf(x.q) && key !in w.removed ==> RecordedAs(w.disk, key, x.run))
  {
    SavedSession(w, x, s);
  }

  // ---------------------------------------------------------------- such runs exist

  lemma {:induction false} OneMoreEvent(w: World, e: Event, rest: seq<Event>)
    requires Enabled(w, e) && IsRun(Next(w, e), rest)
    ensures IsRun(w, [e] + rest) && After(w, [e] + rest) == After(Next(w, e), rest)
  {
    assert ([e] + rest)[1..] == rest;
  }

  lemma {:induction false} RunOn(w: World, a: seq<Event>, b: seq<Event>)
    requires IsRun(w, a) && IsRun(After(w, a), b)
    ensures IsRun(w, a + b) && After(w, a + b) == After(After(w, a), b)
    decreases a
  {
    if a == [] {
      assert a + b == b;
    } else {
      assert (a + b)[1..] == a[1..] + b;
      RunOn(Next(w, a[0]), a[1..], b);
    }
  }

  /** A new process loads the store. */
  lemma {:induction false} LooksUp(w: World, p: nat, q: Request)
    requires ValidRequest(q) && w.lock.None? && p !in w.procs
    ensures var events := [Arrive(p, Start(q)), Lock(p), Event.Load(p)];
      IsRun(w, events) && After(w, events) == w.(lock := Some(p), procs := w.procs[p := Loaded(q, w.disk)])
  {
    var w1 := w.(procs := w.procs[p := Start(q)]);
    var w2 := w.(lock := Some(p), procs := w.procs[p := Locked(q)]);
    assert Next(w, Arrive(p, Start(q))) == w1 && Next(w1, Lock(p)) == w2;
    OneMoreEvent(w2, Event.Load(p), []);
    OneMoreEvent(w1, Lock(p), [Event.Load(p)]);
    OneMoreEvent(w, Arrive(p, Start(q)), [Lock(p), Event.Load(p)]);
    assert [Arrive(p, Start(q))] + [Lock(p), Event.Load(p)] == [Arrive(p, Start(q)), Lock(p), Event.Load(p)];
  }

  /** With nothing in the store it initiates a run. */
  lemma {:induction false} Initiates(w: World, p: nat, q: Request, id: string)
    requires ValidRequest(q) && !q.requireExisting && id !in w.runs && w.disk == map[]
    requires p in w.procs && w.procs[p] == Loaded(q, map[])
    ensures var events := [Resolve(p), Initiate(p, id, true)];
      IsRun(w, events)
      && After(w, events) == w.(procs := w.procs[p := Created(q, id)], runs := w.runs[id := (q.branch, ConfigOf(q))])
  {
    var w1 := w.(procs := w.procs[p := Missing(q)]);
    assert Next(w, Resolve(p)) == w1;
    assert w1.procs[p := Created(q, id)] == w.procs[p := Created(q, id)];
    OneMoreEvent(w1, Initiate(p, id, true), []);
    OneMoreEvent(w, Resolve(p), [Initiate(p, id, true)]);
    assert [Resolve(p)] + [Initiate(p, id, true)] == [Resolve(p), Initiate(p, id, true)];
  }

  /** It records the run and releases the lock: another process may take it before the second save. */
  lemma {:induction false} RecordsItsRun(w: World, p: nat, q: Request, id: string, s: Session)
    requires ValidRequest(q) && s.runID == id && s.configFile == ConfigOf(q)
    requires p in w.procs && w.procs[p] == Created(q, id)
    ensures var events := [Event.Load(p), Event.Save(p, s), Unlock(p)];
      IsRun(w, events)
      && After(w, events)
         == w.(disk := w.disk[KeyOf(q) := s], lock := None, procs := w.procs[p := AwaitingToken(q, id)])
  {
    var w1 := w.(procs := w.procs[p := Merging(q, id, w.disk)]);
    var w2 := w.(disk := w.disk[KeyOf(q) := s], procs := w.procs[p := Recorded(q, id)]);
    assert Next(w, Event.Load(p)) == w1;
    assert w1.procs[p := Recorded(q, id)] == w2.procs;
    assert Next(w1, Event.Save(p, s)) == w2;
    assert w2.procs[p := AwaitingToken(q, id)] == w.procs[p := AwaitingToken(q, id)];
    OneMoreEvent(w2, Unlock(p), []);
    OneMoreEvent(w1, Event.Save(p, s), [Unlock(p)]);
    OneMoreEvent(w, Event.Load(p), [Event.Save(p, s), Unlock(p)]);
    assert [Event.Load(p)] + [Event.Save(p, s), Unlock(p)] == [Event.Load(p), Event.Save(p, s), Unlock(p)];
  }

  function Awaiting(q: Request, a: string, s: Session): World
    requires ValidRequest(q)
  {
    Begin(map[KeyOf(q) := s]).(procs := map[0 := AwaitingToken(q, a)], runs := map[a := (q.branch, ConfigOf(q))])
  }

  /** From an empty store to a recorded run whose token is still to come. */
  lemma {:induction false} FindsNothing(q: Request, a: string, s: Session) returns (events: seq<Event>)
    requires ValidRequest(q) && !q.requireExisting && s.runID == a && s.configFile == ConfigOf(q)
    ensures IsRun(Begin(map[]), events) && After(Begin(map[]), events) == Awaiting(q, a, s)
  {
    var w0 := Begin(map[]);
    LooksUp(w0, 0, q);
    var load := [Arrive(0, Start(q)), Lock(0), Event.Load(0)];
    var w1 := After(w0, load);
    Initiates(w1, 0, q, a);
    var initiate := [Resolve(0), Initiate(0, a, true)];
    var w2 := After(w1, initiate);
    RecordsItsRun(w2, 0, q, a, s);
    RunOn(w0, load, initiate);
    events := load + initiate + [Event.Load(0), Event.Save(0, s), Unlock(0)];
    RunOn(w0, load + initiate, [Event.Load(0), Event.Save(0, s), Unlock(0)]);
  }

  lemma KeyStartsWithBranch(q: Request)
    requires ValidRequest(q)
    ensures q.branch + ":" <= KeyOf(q)
  {
  }

  /** Another process finds that run ended, removes its session and records one of its own. */
  lemma {:induction false} ReplacesIt(q: Request, a: string, s: Session, b: string, t: Session)
    returns (events: seq<Event>)
    requires ValidRequest(q) && !q.requireExisting && a != b && t.runID == b && t.configFile == ConfigOf(q)
    ensures var w := Awaiting(q, a, s);
      IsRun(w, events)
      && After(w, events) == w.(disk := map[KeyOf(q) := t], procs := w.procs[1 := AwaitingToken(q, b)],
                                runs := w.runs[b := (q.branch, ConfigOf(q))], removed := multiset{KeyOf(q)})
  {
    var w0 := Awaiting(q, a, s);
    LooksUp(w0, 1, q);
    var load := [Arrive(1, Start(q)), Lock(1), Event.Load(1)];
    var w1 := After(w0, load);
    KeyStartsWithBranch(q);
    var w2 := Next(w1, Event.Remove(1, KeyOf(q)));
    assert w2 == w0.(disk := map[], lock := Some(1), procs := w0.procs[1 := Loaded(q, map[])],
                     removed := multiset{KeyOf(q)});
    Initiates(w2, 1, q, b);
    var initiate := [Resolve(1), Initiate(1, b, true)];
    var w3 := After(w2, initiate);
    RecordsItsRun(w3, 1, q, b, t);
    OneMoreEvent(w1, Event.Remove(1, KeyOf(q)), initiate);
    RunOn(w0, load, [Event.Remove(1, KeyOf(q))] + initiate);
    var record := [Event.Load(1), Event.Save(1, t), Unlock(1)];
    events := load + ([Event.Remove(1, KeyOf(q))] + initiate) + record;
    RunOn(w0, load + ([Event.Remove(1, KeyOf(q))] + initiate), record);
    assert w3.procs[1 := AwaitingToken(q, b)] == w0.procs[1 := AwaitingToken(q, b)];
  }

  /** And the first one, its token at hand, is about to put the ended run back in place of the new one. */
  lemma {:induction false} LateSaveExists(q: Request, a: string, s: Session, b: string, t: Session)
    returns (events: seq<Event>)
    requires ValidRequest(q) && !q.requireExisting && a != b
    requires s.runID == a && s.configFile == ConfigOf(q) && t.runID == b && t.configFile == ConfigOf(q)
    ensures IsRun(Begin(map[]), events)
    ensures var w := After(Begin(map[]), events);
      && Enabled(w, Event.Save(0, s)) && IsLateSave(w, Event.Save(0, s), KeyOf(q))
      && w.disk == map[KeyOf(q) := t] && Next(w, Event.Save(0, s)).disk == map[KeyOf(q) := s]
      && 1 in w.procs && w.procs[1] == AwaitingToken(q, b)
  {
    var first := FindsNothing(q, a, s);
    var second := ReplacesIt(q, a, s, b, t);
    RunOn(Begin(map[]), first, second);
    LocksAgain(After(Awaiting(q, a, s), second), 0, q, a);
    events := first + second + [Lock(0), Event.Load(0)];
    RunOn(Begin(map[]), first + second, [Lock(0), Event.Load(0)]);
  }

  /** Two runs after one removal: the bound is reached. */
  lemma {:induction false} BoundIsReached(q: Request, a: string, s: Session, b: string, t: Session)
    returns (events: seq<Event>)
    requires ValidRequest(q) && !q.requireExisting && a != b
    requires s.runID == a && s.configFile == ConfigOf(q) && t.runID == b && t.configFile == ConfigOf(q)
    ensures IsRun(Begin(map[]), events)
    ensures var w := After(Begin(map[]), events);
      RunsFor(w, q) == {a, b} && |RunsFor(w, q)| == w.removed[KeyOf(q)] + 1
  {
    var first := FindsNothing(q, a, s);
    var second := ReplacesIt(q, a, s, b, t);
    RunOn(Begin(map[]), first, second);
    events := first + second;
    assert RunsFor(After(Begin(map[]), events), q) == {a, b};
  }

  lemma {:induction false} LocksAgain(w: World, p: nat, q: Request, id: string)
    requires w.lock.None? && p in w.procs && w.procs[p] == AwaitingToken(q, id)
    ensures var events := [Lock(p), Event.Load(p)];
      IsRun(w, events) && After(w, events) == w.(lock := Some(p), procs := w.procs[p := Reloaded(q, id, w.disk)])
  {
    var w1 := w.(lock := Some(p), procs := w.procs[p := Relocked(q, id)]);
    assert Next(w, Lock(p)) == w1 && w1.procs[p := Reloaded(q, id, w.disk)] == w.procs[p := Reloaded(q, id, w.disk)];
    OneMoreEvent(w1, Event.Load(p), []);
    OneMoreEvent(w, Lock(p), [Event.Load(p)]);
    assert [Lock(p)] + [Event.Load(p)] == [Lock(p), Event.Load(p)];
  }
}
