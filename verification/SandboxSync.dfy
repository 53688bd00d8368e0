/** The sync protocol of internal/cli/service_sandbox.go and the patch generation of
    internal/git/client.go: `syncLocalChangesToSandbox` pushes the local state into a sandbox,
    `snapshotSandboxSyncRef` records a baseline there, `pullChangesFromSandbox` brings back what
    changed since. The set of ignored paths is fixed. */
module SandboxSync {
  import opened Git
  import opened Options

  const SYNC_REF := "refs/rwx-sync"

  // ---------------------------------------------------------------- the local side

  /** `AddUntrackedFilesForPatch`, before the cleanup it returns has run. */
  function WithUntracked(local: Repo, ignored: Path -> bool): Repo {
    IntendingToAdd(local, Untracked(local, ignored))
  }

  /** Its cleanup: `git reset HEAD --` on the files it had added. */
  function CleanedUp(local: Repo, ignored: Path -> bool): Repo {
    PathsReset(WithUntracked(local, ignored), Untracked(local, ignored))
  }

  datatype DirtyPatches = DirtyPatches(staged: Patch, unstaged: Patch, files: set<Path>, newFiles: set<Path>)

  function DirtyPatchesOf(local: Repo, ignored: Path -> bool): DirtyPatches {
    var r := WithUntracked(local, ignored);
    var staged, unstaged := StagedDiff(r), UnstagedDiff(r);
    DirtyPatches(staged, unstaged, staged.Keys + unstaged.Keys, Additions(staged) + Additions(unstaged))
  }

  /** The cleanup restores the local index exactly when no untracked file is still in HEAD: a file
      removed from the index but kept on disk has its staged deletion undone. */
  lemma {:induction false} CleanupRestoresIndex(local: Repo, ignored: Path -> bool)
    ensures CleanedUp(local, ignored) == local.(index := CleanedUp(local, ignored).index)
    ensures CleanedUp(local, ignored).index == local.index <==> Untracked(local, ignored) !! local.head.tree.Keys
  {
    var after := CleanedUp(local, ignored).index;
    if Untracked(local, ignored) !! local.head.tree.Keys {
      assert after.Keys == local.index.Keys;
    } else {
      var p :| p in Untracked(local, ignored) && p in local.head.tree;
      assert p in after && p !in local.index;
    }
  }

  /** Such a state: file "a" removed from the index only. */
  lemma {:induction false} CleanupCanLoseAStagedDeletion()
    ensures var local := Repo(Commit(map["a" := "x"], None), "main", map[], map["a" := "y"], map[]);
      CleanedUp(local, p => false).index == map["a" := Staged("x")]
  {
    var local := Repo(Commit(map["a" := "x"], None), "main", map[], map["a" := "y"], map[]);
    assert Untracked(local, p => false) == {"a"};
  }

  // ---------------------------------------------------------------- push

  /** The baseline script: what `snapshotSandboxSyncRef` does to the sandbox. */
  function Snapshot(r: Repo, ignored: Path -> bool, isNew: bool, localPaths: set<Path>): Repo {
    var indexTree := Tracked(r.index);
    var r1 := RefDeleted(r, SYNC_REF);
    var r2 := if !isNew then AllAdded(r1, ignored) else IndexUpdated(r1, localPaths);
    var r3 := Committed(r2);
    var r4 := RefUpdated(r3, SYNC_REF, r3.head);
    TreeRead(ResetToParent(r4), indexTree)
  }

  /** The sandbox once it is checked out at the local commit and cleared for the patches. */
  function Prepared(local: Repo, sandbox: Repo, ignored: Path -> bool, isNew: bool): Repo {
    var r := HardReset(CheckedOut(sandbox, local.branch, local.head), local.head);
    CleanedPaths(if isNew then r else Cleaned(r, ignored), DirtyPatchesOf(local, ignored).newFiles)
  }

  function WithPatches(r: Repo, patches: DirtyPatches): Repo {
    Applied(AppliedToIndex(r, patches.staged), patches.unstaged)
  }

  function Pushed(local: Repo, sandbox: Repo, ignored: Path -> bool, isNew: bool): Repo {
    var patches := DirtyPatchesOf(local, ignored);
    Snapshot(WithPatches(Prepared(local, sandbox, ignored, isNew), patches), ignored, isNew, patches.files)
  }

  /** Untracked files of the sandbox that outlive the preparation: only ignored ones on a reused
      sandbox, also the ones its setup created on a new one. */
  function Leftovers(local: Repo, sandbox: Repo, ignored: Path -> bool, isNew: bool): Tree {
    map p | p in sandbox.work && p !in sandbox.index && p !in local.head.tree && (isNew || ignored(p))
            && p !in DirtyPatchesOf(local, ignored).newFiles :: sandbox.work[p]
  }

  /** The local files a push carries: everything in the index once untracked files are added to it. */
  function Carried(local: Repo, ignored: Path -> bool): Tree { WorkInIndex(WithUntracked(local, ignored)) }

  lemma {:induction false} CheckoutThenReset(sandbox: Repo, branch: string, c: Commit)
    ensures HardReset(CheckedOut(sandbox, branch, c), c) == CheckedOut(sandbox, branch, c)
  {
    var once := (sandbox.work - sandbox.index.Keys) + c.tree;
    assert (once - IndexOf(c.tree).Keys) + c.tree == once;
  }

  lemma {:induction false} PreparedIs(local: Repo, sandbox: Repo, ignored: Path -> bool, isNew: bool)
    ensures Prepared(local, sandbox, ignored, isNew) == Repo(local.head, local.branch, IndexOf(local.head.tree),
                Leftovers(local, sandbox, ignored, isNew) + local.head.tree, sandbox.refs)
  {
    CheckoutThenReset(sandbox, local.branch, local.head);
    var newFiles := DirtyPatchesOf(local, ignored).newFiles;
    PreparedWork(sandbox, local.branch, local.head, ignored, isNew, newFiles,
      Leftovers(local, sandbox, ignored, isNew));
  }

  lemma {:induction false} PreparedWork(sandbox: Repo, branch: string, head: Commit, ignored: Path -> bool, isNew: bool,
                                        newFiles: set<Path>, leftovers: Tree)
    requires leftovers == map p | p in sandbox.work && p !in sandbox.index && p !in head.tree && (isNew || ignored(p))
                                  && p !in newFiles :: sandbox.work[p]
    ensures var r := CheckedOut(sandbox, branch, head);
      CleanedPaths(if isNew then r else Cleaned(r, ignored), newFiles) == r.(work := leftovers + head.tree)
  {
    var r := CheckedOut(sandbox, branch, head);
    ClearedWork(r, ignored, isNew, newFiles);
    var work := CleanedPaths(if isNew then r else Cleaned(r, ignored), newFiles).work;
    forall p ensures Get(work, p) == Get(leftovers + head.tree, p) {
      assert p in r.index <==> p in head.tree;
      assert Get(r.work, p) == if p in head.tree then Get(head.tree, p) else if p in sandbox.index then None
        else Get(sandbox.work, p);
    }
    TreesEqual(work, leftovers + head.tree);
  }

  /** What the two cleans leave of a worktree. */
  lemma {:induction false} ClearedWork(r: Repo, ignored: Path -> bool, isNew: bool, newFiles: set<Path>)
    ensures var r' := CleanedPaths(if isNew then r else Cleaned(r, ignored), newFiles);
      && r' == r.(work := r'.work)
      && forall p ::
        Get(r'.work, p) == if p in r.index || ((isNew || ignored(p)) && p !in newFiles) then Get(r.work, p) else None
  {
  }

  lemma TrackedUnchanged(local: Repo, ignored: Path -> bool)
    ensures Tracked(WithUntracked(local, ignored).index) == Tracked(local.index)
  {
  }

  /** No path the local state knows about has a leftover in the sandbox. */
  lemma {:induction false} LeftoversApart(local: Repo, sandbox: Repo, ignored: Path -> bool, isNew: bool)
    ensures Leftovers(local, sandbox, ignored, isNew).Keys
         !! local.head.tree.Keys + Tracked(local.index).Keys + Carried(local, ignored).Keys
  {
    var r, patches := WithUntracked(local, ignored), DirtyPatchesOf(local, ignored);
    TrackedUnchanged(local, ignored);
    forall p | p in Tracked(local.index) && p !in local.head.tree ensures p in patches.newFiles {
      assert p in Additions(patches.staged);
    }
    forall p | p in Carried(local, ignored) && p !in Tracked(local.index) ensures p in patches.newFiles {
      assert p in Additions(patches.unstaged);
    }
  }

  /** Both patches apply to the prepared sandbox, whatever the sandbox looked like before, and leave it
      with the local index and worktree. */
  lemma {:induction false} PatchesApply(local: Repo, sandbox: Repo, ignored: Path -> bool, isNew: bool)
    ensures var r, patches := Prepared(local, sandbox, ignored, isNew), DirtyPatchesOf(local, ignored);
      && CanApplyToIndex(r, patches.staged)
      && CanApply(patches.unstaged, AppliedToIndex(r, patches.staged).work)
      && WithPatches(r, patches) == Repo(local.head, local.branch, IndexOf(Tracked(local.index)),
                Leftovers(local, sandbox, ignored, isNew) + Carried(local, ignored), sandbox.refs)
  {
    PreparedIs(local, sandbox, ignored, isNew);
    TrackedUnchanged(local, ignored);
    LeftoversApart(local, sandbox, ignored, isNew);
    TwoPatches(Prepared(local, sandbox, ignored, isNew), Leftovers(local, sandbox, ignored, isNew),
               local.head.tree, Tracked(local.index), Carried(local, ignored));
  }

  /** A checkout of `a` besides other files takes the patches from a to b and, in the worktree, on to c. */
  lemma {:induction false} TwoPatches(r: Repo, others: Tree, a: Tree, b: Tree, c: Tree)
    requires r.index == IndexOf(a) && r.work == others + a && others.Keys !! a.Keys + b.Keys + c.Keys
    ensures CanApplyToIndex(r, Diff(a, b))
    ensures CanApply(Diff(b, c), AppliedToIndex(r, Diff(a, b)).work)
    ensures Applied(AppliedToIndex(r, Diff(a, b)), Diff(b, c)) == r.(index := IndexOf(b), work := others + c)
  {
    assert Tracked(IndexOf(a)) == a;
    DiffPatches(a, b);
    PatchBesides(others, a, b);
    PatchBesides(others, b, c);
  }

  /** A patch between two trees works the same beside files neither of them has. */
  lemma {:induction false} PatchBesides(others: Tree, a: Tree, b: Tree)
    requires others.Keys !! a.Keys + b.Keys
    ensures CanApply(Diff(a, b), others + a) && Patched(others + a, Diff(a, b)) == others + b
  {
    forall p ensures Get(Patched(others + a, Diff(a, b)), p) == Get(others + b, p) {
      assert Get(Patched(others + a, Diff(a, b)), p) == Resulting(others + a, Diff(a, b), p);
    }
    TreesEqual(Patched(others + a, Diff(a, b)), others + b);
  }

  /** The snapshot changes nothing but the ref: HEAD, branch and worktree stay, and the index keeps
      every staged content. */
  lemma {:induction false} SnapshotOnlyMovesTheRef(r: Repo, ignored: Path -> bool, isNew: bool, localPaths: set<Path>)
    ensures var r' := Snapshot(r, ignored, isNew, localPaths);
      && SYNC_REF in r'.refs && r'.refs[SYNC_REF].parent == Some(r.head)
      && r' == Repo(r.head, r.branch, IndexOf(Tracked(r.index)), r.work, r.refs[SYNC_REF := r'.refs[SYNC_REF]])
      && r'.refs[SYNC_REF].tree == Tracked((if isNew then IndexUpdated(r, localPaths) else AllAdded(r, ignored)).index)
  {
    var r' := Snapshot(r, ignored, isNew, localPaths);
    assert r'.refs == (r.refs - {SYNC_REF})[SYNC_REF := r'.refs[SYNC_REF]] == r.refs[SYNC_REF := r'.refs[SYNC_REF]];
  }

  /** What the recorded baseline is: the pushed local files, less ignored ones that are not staged when
      the sandbox is reused. */
  function Baseline(local: Repo, ignored: Path -> bool, isNew: bool): Tree {
    map p | p in Carried(local, ignored) && (isNew || p in Tracked(local.index) || !ignored(p)) :: local.work[p]
  }

  lemma {:induction false} SnapshotOfPatched(local: Repo, w: Repo, ignored: Path -> bool, isNew: bool, leftovers: Tree)
    requires w == Repo(local.head, local.branch, IndexOf(Tracked(local.index)), leftovers + Carried(local, ignored),
      w.refs)
    requires leftovers.Keys !! local.head.tree.Keys + Tracked(local.index).Keys + Carried(local, ignored).Keys
    requires isNew || forall p <- leftovers :: ignored(p)
    ensures Snapshot(w, ignored, isNew, DirtyPatchesOf(local, ignored).files)
         == w.(refs := w.refs[SYNC_REF := Commit(Baseline(local, ignored, isNew), Some(local.head))])
  {
    assert Tracked(w.index) == Tracked(local.index);
    SnapshotOnlyMovesTheRef(w, ignored, isNew, DirtyPatchesOf(local, ignored).files);
    BaselineTree(local, w, ignored, isNew, leftovers);
  }

  /** The push theorem. From any earlier sandbox state the push ends with the local HEAD, branch and
      index, exactly the local files besides the leftovers, and the local files as the baseline. */
  lemma {:induction false} PushMirrorsLocal(local: Repo, sandbox: Repo, ignored: Path -> bool, isNew: bool)
    ensures Pushed(local, sandbox, ignored, isNew) == Repo(
        local.head, local.branch, IndexOf(Tracked(local.index)),
        Leftovers(local, sandbox, ignored, isNew) + Carried(local, ignored),
        sandbox.refs[SYNC_REF := Commit(Baseline(local, ignored, isNew), Some(local.head))])
  {
    var w := WithPatches(Prepared(local, sandbox, ignored, isNew), DirtyPatchesOf(local, ignored));
    PatchesApply(local, sandbox, ignored, isNew);
    LeftoversApart(local, sandbox, ignored, isNew);
    SnapshotOfPatched(local, w, ignored, isNew, Leftovers(local, sandbox, ignored, isNew));
  }

  lemma {:induction false} BaselineTree(local: Repo, r: Repo, ignored: Path -> bool, isNew: bool, leftovers: Tree)
    requires r.index == IndexOf(Tracked(local.index)) && r.work == leftovers + Carried(local, ignored)
    requires leftovers.Keys !! local.head.tree.Keys + Tracked(local.index).Keys + Carried(local, ignored).Keys
    requires isNew || forall p <- leftovers :: ignored(p)
    ensures var r' := if isNew then IndexUpdated(r, DirtyPatchesOf(local, ignored).files) else AllAdded(r, ignored);
      Tracked(r'.index) == Baseline(local, ignored, isNew)
  {
    if isNew {
      NewBaseline(local, r, ignored, leftovers);
    } else {
      var tree := Tracked(AllAdded(r, ignored).index);
      assert tree.Keys == Baseline(local, ignored, isNew).Keys;
    }
  }

  lemma {:induction false} NewBaseline(local: Repo, r: Repo, ignored: Path -> bool, leftovers: Tree)
    requires r.index == IndexOf(Tracked(local.index)) && r.work == leftovers + Carried(local, ignored)
    requires leftovers.Keys !! local.head.tree.Keys + Tracked(local.index).Keys + Carried(local, ignored).Keys
    ensures Tracked(IndexUpdated(r, DirtyPatchesOf(local, ignored).files).index) == Baseline(local, ignored, true)
  {
    DirtyFiles(local, ignored);
    UpdatedPaths(r, Tracked(local.index), Carried(local, ignored), leftovers, DirtyPatchesOf(local, ignored).files);
    CarriedIsBaseline(local, ignored);
  }

  lemma {:induction false} DirtyFiles(local: Repo, ignored: Path -> bool)
    ensures var index, carried, files := Tracked(local.index), Carried(local, ignored),
      DirtyPatchesOf(local, ignored).files;
      Diff(index, carried).Keys <= files <= local.head.tree.Keys + index.Keys + carried.Keys
  {
    TrackedUnchanged(local, ignored);
  }

  lemma {:induction false} CarriedIsBaseline(local: Repo, ignored: Path -> bool)
    ensures Baseline(local, ignored, true) == Carried(local, ignored)
  {
  }

  lemma {:induction false} UpdatedPaths(r: Repo, index: Tree, carried: Tree, leftovers: Tree, files: set<Path>)
    requires r.index == IndexOf(index) && r.work == leftovers + carried
    requires leftovers.Keys !! files + carried.Keys
    requires Diff(index, carried).Keys <= files
    ensures Tracked(IndexUpdated(r, files).index) == carried
  {
    var tree := Tracked(IndexUpdated(r, files).index);
    forall p ensures Get(tree, p) == Get(carried, p) {
      if p !in files {
        assert p !in Diff(index, carried);
        assert Get(index, p) == Get(carried, p);
      }
    }
    TreesEqual(tree, carried);
  }

  /** On a reused sandbox the push leaves no file that is neither local nor ignored: the two worktrees
      agree wherever a path is staged or not ignored. */
  lemma {:induction false} PushedWorktreeIsLocal(local: Repo, sandbox: Repo, ignored: Path -> bool, p: Path)
    requires !ignored(p) || p in Tracked(local.index)
    ensures Get(Pushed(local, sandbox, ignored, false).work, p) == Get(local.work, p)
  {
    PushMirrorsLocal(local, sandbox, ignored, false);
    LeftoversApart(local, sandbox, ignored, false);
  }

  /** Every path after a push, in terms of the two checkouts before it: the local file where it is carried,
      nothing where the path was committed or staged, and elsewhere an untracked file of the sandbox, which
      survives exactly when it is ignored or the sandbox is new. */
  lemma {:induction false} PushedPath(local: Repo, sandbox: Repo, ignored: Path -> bool, isNew: bool, p: Path)
    ensures Get(Pushed(local, sandbox, ignored, isNew).work, p)
         == if p in local.work && (p in local.index || !ignored(p)) then Some(local.work[p])
            else if p in local.head.tree || (p in local.index && local.index[p].Staged?) then None
            else if p !in sandbox.index && (isNew || ignored(p)) then Get(sandbox.work, p)
            else None
  {
    PushMirrorsLocal(local, sandbox, ignored, isNew);
    LeftoversApart(local, sandbox, ignored, isNew);
    CarriedPath(local, ignored, p);
    if p !in Carried(local, ignored) && p !in local.head.tree && p !in Tracked(local.index) {
      LeftoverPath(local, sandbox, ignored, isNew, p);
    }
    EitherTree(Leftovers(local, sandbox, ignored, isNew), Carried(local, ignored),
               local.head.tree.Keys + Tracked(local.index).Keys, p);
  }

  lemma EitherTree(leftovers: Tree, carried: Tree, known: set<Path>, p: Path)
    requires leftovers.Keys !! known + carried.Keys
    ensures Get(leftovers + carried, p) == if p in carried then Get(carried, p) else Get(leftovers, p)
    ensures p in known ==> Get(leftovers, p) == None
  {
  }

  lemma {:induction false} CarriedPath(local: Repo, ignored: Path -> bool, p: Path)
    ensures Get(Carried(local, ignored), p)
         == if p in local.work && (p in local.index || !ignored(p)) then Some(local.work[p]) else None
  {
  }

  /** What a push does not bring it does not clean. */
  lemma {:induction false} LeftoverPath(local: Repo, sandbox: Repo, ignored: Path -> bool, isNew: bool, p: Path)
    requires p !in Carried(local, ignored) && p !in local.head.tree && p !in Tracked(local.index)
    ensures Get(Leftovers(local, sandbox, ignored, isNew), p)
         == if p !in sandbox.index && (isNew || ignored(p)) then Get(sandbox.work, p) else None
  {
    TrackedUnchanged(local, ignored);
    assert p !in DirtyPatchesOf(local, ignored).newFiles;
  }

  datatype Command = Checkout | Clean | CleanPaths | ApplyStaged | ApplyUnstaged | TakeSnapshot | PullDiff | PullReset

  /** A git checkout on one machine. */
  class Machine {
    var repo: Repo

    constructor (repo: Repo)
      ensures this.repo == repo
    {
      this.repo := repo;
    }
  }

  /** `GenerateDirtyPatches`: intent-to-add, the two diffs, cleanup. */
  method GenerateDirtyPatches(local: Machine, ignored: Path -> bool) returns (patches: DirtyPatches)
    modifies local
    ensures patches == DirtyPatchesOf(old(local.repo), ignored)
    ensures local.repo == CleanedUp(old(local.repo), ignored)
  {
    var untracked := Untracked(local.repo, ignored);
    local.repo := IntendingToAdd(local.repo, untracked);
    var staged := StagedDiff(local.repo);
    var unstaged := UnstagedDiff(local.repo);
    patches := DirtyPatches(staged, unstaged, staged.Keys + unstaged.Keys, Additions(staged) + Additions(unstaged));
    local.repo := PathsReset(local.repo, untracked);
  }

  lemma CleaningNothing(r: Repo)
    ensures CleanedPaths(r, {}) == r
  {
    assert CleanedPaths(r, {}).work == r.work;
  }

  lemma ApplyingNothing(r: Repo)
    ensures Applied(r, map[]) == r
    ensures r.index == IndexOf(Tracked(r.index)) ==> AppliedToIndex(r, map[]) == r
  {
    TreesEqual(Patched(r.work, map[]), r.work);
    TreesEqual(Patched(Tracked(r.index), map[]), Tracked(r.index));
  }

  /** The checkout and the clean. `faults` holds the remote commands that fail for reasons of their
      own; such a command leaves the sandbox in any state whatever. */
  method ResetSandbox(local: Machine, sandbox: Machine, ignored: Path -> bool, isNew: bool, faults: set<Command>)
    returns (ok: bool)
    requires local != sandbox
    modifies sandbox
    ensures ok <==> Checkout !in faults && (isNew || Clean !in faults)
    ensures ok ==> var r := CheckedOut(old(sandbox.repo), local.repo.branch, local.repo.head);
      sandbox.repo == if isNew then r else Cleaned(r, ignored)
  {
    CheckoutThenReset(sandbox.repo, local.repo.branch, local.repo.head);
    if Checkout in faults {
      sandbox.repo := *;
      return false;
    }
    sandbox.repo := CheckedOut(sandbox.repo, local.repo.branch, local.repo.head);
    sandbox.repo := HardReset(sandbox.repo, local.repo.head);
    if !isNew {
      if Clean in faults {
        sandbox.repo := *;
        return false;
      }
      sandbox.repo := Cleaned(sandbox.repo, ignored);
    }
    ok := true;
  }

  method RemovePreAppliedNewFiles(sandbox: Machine, patches: DirtyPatches, faults: set<Command>) returns (ok: bool)
    modifies sandbox
    ensures ok <==> patches.newFiles == {} || CleanPaths !in faults
    ensures ok ==> sandbox.repo == CleanedPaths(old(sandbox.repo), patches.newFiles)
  {
    if patches.newFiles == {} {
      CleaningNothing(sandbox.repo);
      return true;
    }
    if CleanPaths in faults {
      sandbox.repo := *;
      return false;
    }
    sandbox.repo := CleanedPaths(sandbox.repo, patches.newFiles);
    ok := true;
  }

  method ApplyDirtyPatches(sandbox: Machine, patches: DirtyPatches, faults: set<Command>) returns (ok: bool)
    requires sandbox.repo.index == IndexOf(Tracked(sandbox.repo.index))
    modifies sandbox
    ensures ok ==> sandbox.repo == WithPatches(old(sandbox.repo), patches)
    ensures ok <==>
      && (patches.staged == map[]
          || (ApplyStaged !in faults && CanApplyToIndex(old(sandbox.repo), patches.staged)))
      && (patches.unstaged == map[]
          || (ApplyUnstaged !in faults
              && CanApply(patches.unstaged, AppliedToIndex(old(sandbox.repo), patches.staged).work)))
  {
    if patches.staged != map[] {
      if ApplyStaged in faults || !CanApplyToIndex(sandbox.repo, patches.staged) {
        return false;
      }
      sandbox.repo := AppliedToIndex(sandbox.repo, patches.staged);
    } else {
      ApplyingNothing(sandbox.repo);
    }
    if patches.unstaged != map[] {
      if ApplyUnstaged in faults || !CanApply(patches.unstaged, sandbox.repo.work) {
        return false;
      }
      sandbox.repo := Applied(sandbox.repo, patches.unstaged);
    } else {
      ApplyingNothing(sandbox.repo);
    }
    ok := true;
  }

  /** A push. Without a fault of the transport it succeeds, so neither patch is ever refused. */
  method SyncLocalChangesToSandbox(local: Machine, sandbox: Machine, ignored: Path -> bool, isNew: bool,
                                   faults: set<Command>)
    returns (ok: bool)
    requires local != sandbox
    modifies local, sandbox
    ensures var patches := DirtyPatchesOf(old(local.repo), ignored);
      ok <==>
      && Checkout !in faults && (isNew || Clean !in faults)
      && (patches.newFiles == {} || CleanPaths !in faults)
      && (patches.staged == map[] || ApplyStaged !in faults)
      && (patches.unstaged == map[] || ApplyUnstaged !in faults) && TakeSnapshot !in faults
    ensures ok ==> sandbox.repo == Pushed(old(local.repo), old(sandbox.repo), ignored, isNew)
    ensures local.repo == if Checkout in faults || (!isNew && Clean in faults) then old(local.repo)
      else CleanedUp(old(local.repo), ignored)
  {
    ghost var local0, sandbox0 := local.repo, sandbox.repo;
    PatchesApply(local0, sandbox0, ignored, isNew);
    PreparedIs(local0, sandbox0, ignored, isNew);
    CheckoutThenReset(sandbox0, local0.branch, local0.head);
    ok := ResetSandbox(local, sandbox, ignored, isNew, faults);
    if !ok { return; }
    var patches := GenerateDirtyPatches(local, ignored);
    ok := RemovePreAppliedNewFiles(sandbox, patches, faults);
    if !ok { return; }
    assert sandbox.repo == Prepared(local0, sandbox0, ignored, isNew);
    assert Tracked(sandbox.repo.index) == local0.head.tree;
    ok := ApplyDirtyPatches(sandbox, patches, faults);
    if !ok { return; }
    if TakeSnapshot in faults {
      sandbox.repo := *;
      return false;
    }
    sandbox.repo := Snapshot(sandbox.repo, ignored, isNew, patches.files);
  }

  // ---------------------------------------------------------------- pull

  /** The patch `pullChangesFromSandbox` fetches: untracked files are marked intent-to-add first. */
  function PullPatch(sandbox: Repo, ignored: Path -> bool, baseline: Commit): Patch {
    DiffAgainst(WithUntracked(sandbox, ignored), baseline)
  }

  datatype PullResult = Pulled(files: set<Path>) | RemoteFailure | Conflict

  /** A pull. A refused patch is retried hunk by hunk, which is not part of this model: the local
      worktree is then arbitrary. */
  method PullChangesFromSandbox(local: Machine, sandbox: Machine, ignored: Path -> bool, faults: set<Command>)
    returns (result: PullResult)
    requires local != sandbox
    modifies local, sandbox
    ensures sandbox.repo == if PullReset in faults then WithUntracked(old(sandbox.repo), ignored)
      else CleanedUp(old(sandbox.repo), ignored)
    ensures result.RemoteFailure? <==> PullDiff in faults || SYNC_REF !in old(sandbox.repo).refs
    ensures result.RemoteFailure? ==> local.repo == old(local.repo)
    ensures !result.RemoteFailure? ==>
      var patch := PullPatch(old(sandbox.repo), ignored, old(sandbox.repo).refs[SYNC_REF]);
      if CanApply(patch, old(local.repo).work)
      then result == Pulled(patch.Keys) && local.repo == Applied(old(local.repo), patch)
      else result == Conflict && local.repo == old(local.repo).(work := local.repo.work)
  {
    var untracked := Untracked(sandbox.repo, ignored);
    sandbox.repo := IntendingToAdd(sandbox.repo, untracked);
    var failed := PullDiff in faults || SYNC_REF !in sandbox.repo.refs;
    var patch := if failed then map[] else DiffAgainst(sandbox.repo, sandbox.repo.refs[SYNC_REF]);
    if PullReset !in faults {
      sandbox.repo := PathsReset(sandbox.repo, untracked);
    }
    if failed {
      return RemoteFailure;
    }
    if patch == map[] {
      ApplyingNothing(local.repo);
      return Pulled({});
    }
    if CanApply(patch, local.repo.work) {
      local.repo := Applied(local.repo, patch);
      result := Pulled(patch.Keys);
    } else {
      var work: Tree := *;
      local.repo := local.repo.(work := work);
      result := Conflict;
    }
  }

  /** The baseline is contained in the local worktree and covers every file that is not ignored. */
  ghost predicate BaselineFits(baseline: Tree, work: Tree, ignored: Path -> bool) {
    && (forall p <- baseline :: Get(work, p) == Some(baseline[p]))
    && (forall p <- work | !ignored(p) :: p in baseline)
  }

  lemma {:induction false} PushedBaselineFits(local: Repo, ignored: Path -> bool, isNew: bool)
    ensures BaselineFits(Baseline(local, ignored, isNew), local.work, ignored)
  {
  }

  /** An ignored file the sandbox has put under version control and the local worktree also has. */
  predicate Clash(baseline: Tree, sandbox: Repo, local: Tree, p: Path) {
    p !in baseline && p in sandbox.index && p in sandbox.work && p in local
  }

  function PulledContent(baseline: Tree, sandbox: Repo, local: Tree, ignored: Path -> bool, p: Path): Option<Blob> {
    if !ignored(p) || (p in sandbox.index && p in sandbox.work) then Get(sandbox.work, p)
    else if p in baseline then None
    else Get(local, p)
  }

  /** The pull theorem, for any state the remote command may have left in the sandbox. The patch applies
      exactly when no file clashes. It then makes the local worktree equal to the sandbox on every path
      that is not ignored; an ignored path follows the sandbox only where it is tracked there. */
  lemma {:induction false} PullReproducesSandbox(local: Repo, sandbox: Repo, ignored: Path -> bool, baseline: Commit)
    requires BaselineFits(baseline.tree, local.work, ignored)
    ensures var patch := PullPatch(sandbox, ignored, baseline);
      && (CanApply(patch, local.work) <==> forall p <- local.work :: !Clash(baseline.tree, sandbox, local.work, p))
      && (CanApply(patch, local.work) ==>
            forall p :: Get(Patched(local.work, patch), p)
              == PulledContent(baseline.tree, sandbox, local.work, ignored, p))
  {
    var seen := WorkInIndex(WithUntracked(sandbox, ignored));
    var patch := PullPatch(sandbox, ignored, baseline);
    assert patch == Diff(baseline.tree, seen);
    forall p
      ensures p in patch && patch[p].before != Get(local.work, p) <==> Clash(baseline.tree, sandbox, local.work, p)
    {
      SeenInSandbox(sandbox, ignored, p);
      assert p in baseline.tree ==> Get(local.work, p) == Some(baseline.tree[p]);
    }
    if CanApply(patch, local.work) {
      forall p
        ensures Get(Patched(local.work, patch), p) == PulledContent(baseline.tree, sandbox, local.work, ignored, p)
      {
        SeenInSandbox(sandbox, ignored, p);
        PulledPath(local.work, sandbox, seen, baseline.tree, p);
      }
    }
  }

  /** What the diff sees of the sandbox worktree: all files that are not ignored, and the tracked ones. */
  lemma {:induction false} SeenInSandbox(sandbox: Repo, ignored: Path -> bool, p: Path)
    ensures Get(WorkInIndex(WithUntracked(sandbox, ignored)), p)
         == if !ignored(p) || p in sandbox.index then Get(sandbox.work, p) else None
  {
  }

  /** One path of the pulled worktree. */
  lemma {:induction false} PulledPath(work: Tree, sandbox: Repo, seen: Tree, baseline: Tree, p: Path)
    requires p in baseline ==> Get(work, p) == Get(baseline, p)
    requires p in Diff(baseline, seen) ==> Diff(baseline, seen)[p].before == Get(work, p)
    ensures Get(Patched(work, Diff(baseline, seen)), p)
      == if p in baseline || p in seen then Get(seen, p) else Get(work, p)
  {
    assert Get(Patched(work, Diff(baseline, seen)), p) == Resulting(work, Diff(baseline, seen), p);
  }

  // ---------------------------------------------------------------- push, run, pull

  /** What a remote command does to files: new contents, or None for a deletion. */
  type Edit = map<Path, Option<Blob>>

  function Edited(t: Tree, e: Edit): (r: Tree)
    ensures forall p :: Get(r, p) == if p in e then e[p] else Get(t, p)
  {
    map p | p in t.Keys + e.Keys && (if p in e then e[p] else Get(t, p)).Some? ::
      (if p in e then e[p] else Get(t, p)).value
  }

  /** The command edited files that are tracked or not ignored. It may also have staged, committed or switched
      branches, as long as it kept the sync ref and did not start or stop tracking an ignored file. */
  ghost predicate RanIn(before: Repo, after: Repo, e: Edit, ignored: Path -> bool) {
    && (forall p <- e :: !ignored(p) || p in before.index)
    && after.work == Edited(before.work, e)
    && (forall p | ignored(p) :: p in before.index <==> p in after.index)
    && SYNC_REF in before.refs && SYNC_REF in after.refs && after.refs[SYNC_REF] == before.refs[SYNC_REF]
  }

  /** The round-trip theorem. Push to a reused sandbox in any state, let the command run, pull: the pull
      applies and the local files, ignored ones included, are exactly those the edit would have left had
      it been made locally. */
  lemma {:induction false} RemoteEditIsLocalEdit(local: Repo, sandbox: Repo, after: Repo, e: Edit,
                                                 ignored: Path -> bool)
    requires RanIn(Pushed(local, sandbox, ignored, false), after, e, ignored)
    ensures var patch := PullPatch(after, ignored, after.refs[SYNC_REF]);
      CanApply(patch, local.work) && Patched(local.work, patch) == Edited(local.work, e)
  {
    var pushed := Pushed(local, sandbox, ignored, false);
    var baseline := Commit(Baseline(local, ignored, false), Some(local.head));
    PushMirrorsLocal(local, sandbox, ignored, false);
    assert after.refs[SYNC_REF] == baseline && pushed.index == IndexOf(Tracked(local.index));
    PushedBaselineFits(local, ignored, false);
    forall p | !ignored(p) || p in Tracked(local.index) ensures Get(pushed.work, p) == Get(local.work, p) {
      PushedWorktreeIsLocal(local, sandbox, ignored, p);
    }
    EditedSandboxPulls(local, pushed, after, e, ignored, baseline);
  }

  /** One path of a sandbox in which the command has run. */
  lemma {:induction false} EditedPath(local: Repo, pushed: Repo, after: Repo, e: Edit, ignored: Path -> bool,
                                      baseline: Commit, p: Path)
    requires RanIn(pushed, after, e, ignored) && pushed.index == IndexOf(Tracked(local.index))
    requires baseline.tree == Baseline(local, ignored, false) && BaselineFits(baseline.tree, local.work, ignored)
    requires !ignored(p) || p in Tracked(local.index) ==> Get(pushed.work, p) == Get(local.work, p)
    ensures !Clash(baseline.tree, after, local.work, p)
    ensures PulledContent(baseline.tree, after, local.work, ignored, p) == Get(Edited(local.work, e), p)
  {
    assert Get(after.work, p) == if p in e then e[p] else Get(pushed.work, p);
    assert ignored(p) ==> (p in after.index <==> p in Tracked(local.index));
    assert p in baseline.tree ==> Get(local.work, p) == Some(baseline.tree[p]);
  }

  lemma {:induction false} EditedSandboxPulls(local: Repo, pushed: Repo, after: Repo, e: Edit,
                                              ignored: Path -> bool, baseline: Commit)
    requires RanIn(pushed, after, e, ignored) && pushed.index == IndexOf(Tracked(local.index))
    requires baseline.tree == Baseline(local, ignored, false) && BaselineFits(baseline.tree, local.work, ignored)
    requires forall p | !ignored(p) || p in Tracked(local.index) :: Get(pushed.work, p) == Get(local.work, p)
    ensures var patch := PullPatch(after, ignored, baseline);
      CanApply(patch, local.work) && Patched(local.work, patch) == Edited(local.work, e)
  {
    PullReproducesSandbox(local, after, ignored, baseline);
    var patch := PullPatch(after, ignored, baseline);
    forall p ensures !Clash(baseline.tree, after, local.work, p)
      ensures PulledContent(baseline.tree, after, local.work, ignored, p) == Get(Edited(local.work, e), p)
    {
      EditedPath(local, pushed, after, e, ignored, baseline, p);
    }
    forall p ensures Get(Patched(local.work, patch), p) == Get(Edited(local.work, e), p) {
      assert Get(Patched(local.work, patch), p) == PulledContent(baseline.tree, after, local.work, ignored, p);
    }
    TreesEqual(Patched(local.work, patch), Edited(local.work, e));
  }

  /** One `sandbox exec`: whatever happened to the sandbox since the last one, and the edit made by the command. */
  datatype Exec = Exec(found: Repo, left: Repo, edit: Edit)

  ghost predicate IsSession(local: Repo, execs: seq<Exec>, ignored: Path -> bool)
    decreases execs
  {
    execs != [] ==>
      && RanIn(Pushed(local, execs[0].found, ignored, false), execs[0].left, execs[0].edit, ignored)
      && IsSession(AfterExec(local, execs[0], ignored), execs[1..], ignored)
  }

  /** The local machine after push, remote command and pull. */
  ghost function AfterExec(local: Repo, x: Exec, ignored: Path -> bool): Repo
    requires SYNC_REF in x.left.refs
  {
    Applied(CleanedUp(local, ignored), PullPatch(x.left, ignored, x.left.refs[SYNC_REF]))
  }

  ghost function AfterSession(local: Repo, execs: seq<Exec>, ignored: Path -> bool): Repo
    requires IsSession(local, execs, ignored)
    decreases execs
  {
    if execs == [] then local else AfterSession(AfterExec(local, execs[0], ignored), execs[1..], ignored)
  }

  function EditedBy(t: Tree, execs: seq<Exec>): Tree
    decreases execs
  {
    if execs == [] then t else EditedBy(Edited(t, execs[0].edit), execs[1..])
  }

  /** Over a whole session of any length, with the sandbox in an arbitrary state before every push, working
      remotely leaves the same files, HEAD and branch as making the edits locally one after another. */
  lemma {:induction false} SessionRefinesLocalWork(local: Repo, execs: seq<Exec>, ignored: Path -> bool)
    requires IsSession(local, execs, ignored)
    ensures var end := AfterSession(local, execs, ignored);
      end.work == EditedBy(local.work, execs) && end.head == local.head && end.branch == local.branch
    decreases execs
  {
    if execs != [] {
      RemoteEditIsLocalEdit(local, execs[0].found, execs[0].left, execs[0].edit, ignored);
      SessionRefinesLocalWork(AfterExec(local, execs[0], ignored), execs[1..], ignored);
    }
  }
}
