/** `ListSandboxes` (internal/cli/service_sandbox.go): one reconciliation pass between the session store
    and the API's list of runs, and what repeating the pass converges to. */
module SandboxList {
  import opened Options
  import opened SandboxStorage
  import opened SessionKeys

  /** A listed run; `cliState` is the decoded branch and config file, if the run carries any. */
  datatype Run = Run(id: string, url: string, cliState: Option<(string, string)>)

  /** The run carries a state, and a session key can be made of it. */
  predicate Recoverable(r: Run) {
    r.cliState.Some? && (r.cliState.value.1 == "" || IsAbs(r.cliState.value.1))
  }

  predicate AbsoluteConfigs(runs: seq<Run>) {
    forall r <- runs | r.cliState.Some? :: Recoverable(r)
  }

  function KeyOfRun(r: Run): string
    requires Recoverable(r)
  {
    SessionKey(r.cliState.value.0, r.cliState.value.1)
  }

  function SessionOfRun(r: Run): Session
    requires Recoverable(r)
  {
    Session(r.id, r.cliState.value.1, "", r.url, "", None, None, 0, false)
  }

  /** The API's answers, fixed for the time considered: the listed runs, and whether a run that is not
      listed is individually confirmed to be alive. */
  datatype Answers = Answers(runs: seq<Run>, confirmed: (string, string) -> bool)

  predicate Active(s: Session, a: Answers) {
    (exists r <- a.runs :: r.id == s.runID) || a.confirmed(s.runID, s.scopedToken)
  }

  function Merged(store: Store, runs: seq<Run>): Store
    requires AbsoluteConfigs(runs)
    decreases runs
  {
    if runs == [] then store
    else
      var r := runs[0];
      var rest := runs[1..];
      if r.cliState.None? || KeyOfRun(r) in store then Merged(store, rest)
      else Merged(store[KeyOfRun(r) := SessionOfRun(r)], rest)
  }

  function Pruned(store: Store, a: Answers): Store {
    map k | k in store && Active(store[k], a) :: store[k]
  }

  function Pass(store: Store, a: Answers): Store
    requires AbsoluteConfigs(a.runs)
  {
    Pruned(Merged(store, a.runs), a)
  }

  /** The loop over the listed runs. */
  method MergeRuns(storage: Storage, runs: seq<Run>) returns (added: bool)
    requires AbsoluteConfigs(runs)
    modifies storage
    ensures storage.sandboxes == Merged(old(storage.sandboxes), runs)
    ensures added <==> storage.sandboxes != old(storage.sandboxes)
  {
    added := false;
    ghost var loaded := storage.sandboxes;
    for i := 0 to |runs|
      invariant Merged(storage.sandboxes, runs[i..]) == Merged(loaded, runs)
      invariant loaded.Keys <= storage.sandboxes.Keys
      invariant if added then loaded.Keys != storage.sandboxes.Keys else storage.sandboxes == loaded
    {
      var run := runs[i];
      assert runs[i..][0] == run && runs[i..][1..] == runs[i + 1..];
      if run.cliState.Some? {
        var state := run.cliState.value;
        if SessionKey(state.0, state.1) !in storage.sandboxes {
          storage.SetSession(state.0, state.1, SessionOfRun(run));
          added := true;
        }
      }
    }
    assert runs[|runs|..] == [];
  }

  /** The walk over the local sessions, in any order. */
  method Classify(store: Store, a: Answers) returns (listed: set<string>, expired: set<string>)
    ensures listed == Pruned(store, a).Keys
    ensures store - expired == Pruned(store, a)
    ensures expired == {} <==> Pruned(store, a) == store
  {
    var todo := store.Keys;
    listed, expired := {}, {};
    while todo != {}
      invariant todo <= store.Keys
      invariant forall k :: k in expired <==> k in store.Keys - todo && !Active(store[k], a)
      invariant forall k :: k in listed <==> k in store.Keys - todo && Active(store[k], a)
      decreases |todo|
    {
      var key :| key in todo;
      if Active(store[key], a) {
        listed := listed + {key};
      } else {
        expired := expired + {key};
      }
      todo := todo - {key};
    }
    assert store - expired == Pruned(store, a);
    assert expired == {} ==> store - expired == store;
    if expired != {} {
      var k :| k in expired;
      assert k in store && k !in Pruned(store, a);
    }
  }

  /** A failing save is only a warning: the sessions are listed all the same. */
  method ListSandboxes(disk: Disk, a: Answers, fault: SaveFault) returns (ghost loaded: Store, listed: set<string>)
    requires AbsoluteConfigs(a.runs)
    modifies disk
    ensures IsLoaded(old(disk.file), loaded)
    ensures listed == Pass(loaded, a).Keys
    ensures Merged(loaded, a.runs) == loaded == Pass(loaded, a) || !fault.NoFault? ==> disk.file == old(disk.file)
    ensures !(Merged(loaded, a.runs) == loaded == Pass(loaded, a)) && fault.NoFault? ==>
      disk.file == Some(StoreFile(VERSION, Pass(loaded, a)))
  {
    var storage := LoadSandboxStorage(disk);
    loaded := storage.sandboxes;
    var storageChanged := MergeRuns(storage, a.runs);
    var expired;
    listed, expired := Classify(storage.sandboxes, a);
    if expired != {} {
      storage.sandboxes := storage.sandboxes - expired;
      storageChanged := true;
    }
    if storageChanged {
      var saved := storage.Save(disk, fault);
    }
  }

  // ---------------------------------------------------------------- convergence

  /** The merge only adds, only for keys that were free, and leaves every run's key taken. */
  lemma MergeFacts(store: Store, runs: seq<Run>)
    requires AbsoluteConfigs(runs)
    ensures forall k <- store :: k in Merged(store, runs) && Merged(store, runs)[k] == store[k]
    ensures forall r <- runs | r.cliState.Some? :: KeyOfRun(r) in Merged(store, runs)
    ensures forall k <- Merged(store, runs) | k !in store ::
      exists r <- runs :: r.cliState.Some? && KeyOfRun(r) == k && Merged(store, runs)[k] == SessionOfRun(r)
    decreases runs
  {
    if runs != [] {
      var r := runs[0];
      if r.cliState.None? || KeyOfRun(r) in store {
        MergeFacts(store, runs[1..]);
      } else {
        MergeFacts(store[KeyOfRun(r) := SessionOfRun(r)], runs[1..]);
      }
      assert runs == [r] + runs[1..];
    }
  }

  /** Of several runs listed for a free key, the first one gets it: the session has the run's id, URL and config
      file, and nothing it cannot know. */
  lemma {:induction false} FirstRunWins(store: Store, runs: seq<Run>, i: nat)
    requires AbsoluteConfigs(runs) && i < |runs| && runs[i].cliState.Some? && KeyOfRun(runs[i]) !in store
    requires forall j | 0 <= j < i && runs[j].cliState.Some? :: KeyOfRun(runs[j]) != KeyOfRun(runs[i])
    ensures KeyOfRun(runs[i]) in Merged(store, runs)
    ensures var s := Merged(store, runs)[KeyOfRun(runs[i])];
      && s.runID == runs[i].id && s.configFile == runs[i].cliState.value.1 && s.runURL == runs[i].url
      && s.scopedToken == "" && s.configHash == "" && s.createdAt.None? && s.lastExecAt.None?
      && s.execCount == 0 && !s.resetNagShown
    decreases runs
  {
    var r, rest := runs[0], runs[1..];
    assert runs == [r] + rest && r in runs && runs[i] in runs;
    if i == 0 {
      MergeFacts(store[KeyOfRun(r) := SessionOfRun(r)], rest);
    } else {
      assert forall j | 0 <= j < |rest| :: rest[j] == runs[j + 1] && rest[j] in runs;
      FirstRunWins(if r.cliState.None? || KeyOfRun(r) in store then store else store[KeyOfRun(r) := SessionOfRun(r)],
                   rest, i - 1);
    }
  }

  /** A merge with nothing to add. */
  lemma MergeNothing(store: Store, runs: seq<Run>)
    requires AbsoluteConfigs(runs)
    requires forall r <- runs | r.cliState.Some? :: KeyOfRun(r) in store
    ensures Merged(store, runs) == store
  {
  }

  ghost predicate AllActive(store: Store, a: Answers) {
    forall k <- store :: Active(store[k], a)
  }

  lemma {:induction false} MergeKeepsActive(store: Store, a: Answers)
    requires AbsoluteConfigs(a.runs) && AllActive(store, a)
    ensures Pass(store, a) == Merged(store, a.runs) && AllActive(Merged(store, a.runs), a)
  {
    MergeFacts(store, a.runs);
  }

  /** No pass drops or overwrites a session that is confirmed active. */
  lemma {:induction false} PassKeepsActive(store: Store, a: Answers, k: string)
    requires AbsoluteConfigs(a.runs) && k in store && Active(store[k], a)
    ensures k in Pass(store, a) && Pass(store, a)[k] == store[k]
  {
    MergeFacts(store, a.runs);
  }

  /** After one pass nothing expired is left; after two every listed run with a state has its key taken by
      an active session; a third pass changes nothing. */
  lemma {:induction false} TwoPassesConverge(store: Store, a: Answers)
    requires AbsoluteConfigs(a.runs)
    ensures var once := Pass(store, a); var twice := Pass(once, a);
      && AllActive(once, a) && AllActive(twice, a)
      && (forall r <- a.runs | r.cliState.Some? :: KeyOfRun(r) in twice)
      && Pass(twice, a) == twice
  {
    var once := Pass(store, a);
    MergeKeepsActive(once, a);
    MergeFacts(once, a.runs);
    MergeKeepsActive(Merged(once, a.runs), a);
    MergeNothing(Merged(once, a.runs), a.runs);
  }

  /** One pass is enough exactly when no listed run's key is held by an expired session. */
  lemma {:induction false} OnePassSuffices(store: Store, a: Answers)
    requires AbsoluteConfigs(a.runs)
    ensures Pass(Pass(store, a), a) == Pass(store, a) <==>
      forall r <- a.runs | r.cliState.Some? :: KeyOfRun(r) in store ==> Active(store[KeyOfRun(r)], a)
  {
    var once := Pass(store, a);
    MergeFacts(store, a.runs);
    MergeKeepsActive(once, a);
    MergeFacts(once, a.runs);
    if forall r <- a.runs | r.cliState.Some? :: KeyOfRun(r) in store ==> Active(store[KeyOfRun(r)], a) {
      forall r | r in a.runs && r.cliState.Some? ensures KeyOfRun(r) in once {}
      MergeNothing(once, a.runs);
    }
  }

  /** A listed run whose key an expired session holds: the first pass only frees the key, the second
      recovers the run. */
  lemma {:induction false} OnePassIsNotEnough(expired: Session)
    requires expired.runID == "old"
    ensures var run := Run("new", "", Some(("main", "/c.yml")));
      var a := Answers([run], (id, token) => false);
      && AbsoluteConfigs(a.runs)
      && Pass(map["main:/c.yml" := expired], a) == map[]
      && Pass(map[], a) == map["main:/c.yml" := SessionOfRun(run)]
  {
    var run := Run("new", "", Some(("main", "/c.yml")));
    var a := Answers([run], (id, token) => false);
    var store := map["main:/c.yml" := expired];
    assert KeyOfRun(run) == "main:/c.yml" && a.runs[1..] == [];
    assert run.id[0] != expired.runID[0];
    assert !Active(expired, a) && Active(SessionOfRun(run), a) by {
      assert run in a.runs;
    }
    assert Merged(store, a.runs) == store;
    assert Merged(map[], a.runs) == Merged(map[KeyOfRun(run) := SessionOfRun(run)], []);
  }
}
