/** The effects of the git commands the sandbox sync runs, on paths and file contents. */
module Git {
  import opened Options

  type Path = string
  type Blob = string
  type Tree = map<Path, Blob>

  datatype Commit = Commit(tree: Tree, parent: Option<Commit>)

  datatype Entry = Staged(blob: Blob) | IntentToAdd

  /** A checkout; `branch` is "" when HEAD is detached. */
  datatype Repo = Repo(head: Commit, branch: string, index: map<Path, Entry>, work: Tree, refs: map<string, Commit>)

  function Get(t: Tree, p: Path): Option<Blob> {
    if p in t then Some(t[p]) else None
  }

  /** `git write-tree`: intent-to-add entries are not part of the tree. */
  function Tracked(index: map<Path, Entry>): Tree {
    map p | p in index && index[p].Staged? :: index[p].blob
  }

  function IndexOf(t: Tree): map<Path, Entry> {
    map p | p in t :: Staged(t[p])
  }

  /** The part of the worktree git looks at when it compares it with a tree. */
  function WorkInIndex(r: Repo): Tree {
    map p | p in r.work && p in r.index :: r.work[p]
  }

  // ---------------------------------------------------------------- patches

  datatype Change = Change(before: Option<Blob>, after: Option<Blob>)
  type Patch = map<Path, Change>

  /** `git diff --no-renames` between two trees, with the full contents as pre- and post-image. */
  function Diff(a: Tree, b: Tree): Patch {
    map p | p in a.Keys + b.Keys && Get(a, p) != Get(b, p) :: Change(Get(a, p), Get(b, p))
  }

  /** Paths a patch creates (`--diff-filter=A`). */
  function Additions(patch: Patch): set<Path> {
    set p | p in patch && patch[p].before.None?
  }

  /** `git apply` refuses a patch unless every pre-image matches; a created file must not exist. */
  predicate CanApply(patch: Patch, t: Tree) {
    forall p <- patch :: Get(t, p) == patch[p].before
  }

  function Resulting(t: Tree, patch: Patch, p: Path): Option<Blob> {
    if p in patch then patch[p].after else Get(t, p)
  }

  function Patched(t: Tree, patch: Patch): (r: Tree)
    ensures forall p :: Get(r, p) == Resulting(t, patch, p)
  {
    map p | p in t.Keys + patch.Keys && Resulting(t, patch, p).Some? :: Resulting(t, patch, p).value
  }

  lemma TreesEqual(a: Tree, b: Tree)
    requires forall p :: Get(a, p) == Get(b, p)
    ensures a == b
  {
    forall p ensures p in a <==> p in b {
      assert Get(a, p) == Get(b, p);
    }
    forall p | p in a ensures a[p] == b[p] {
      assert Get(a, p) == Get(b, p);
    }
  }

  /** A patch between two trees takes the first to the second. */
  lemma {:induction false} DiffPatches(a: Tree, b: Tree)
    ensures CanApply(Diff(a, b), a) && Patched(a, Diff(a, b)) == b
  {
    TreesEqual(Patched(a, Diff(a, b)), b);
  }

  // ---------------------------------------------------------------- commands

  function StagedDiff(r: Repo): Patch { Diff(r.head.tree, Tracked(r.index)) }

  function UnstagedDiff(r: Repo): Patch { Diff(Tracked(r.index), WorkInIndex(r)) }

  /** `git diff <commit>`: worktree against a commit, for the paths either of them tracks. */
  function DiffAgainst(r: Repo, c: Commit): Patch { Diff(c.tree, WorkInIndex(r)) }

  /** `git ls-files --others --exclude-standard`. */
  function Untracked(r: Repo, ignored: Path -> bool): set<Path> {
    set p | p in r.work && p !in r.index && !ignored(p)
  }

  /** `git checkout -f` of a commit: tracked files follow, untracked ones stay unless overwritten. */
  function CheckedOut(r: Repo, branch: string, c: Commit): Repo {
    r.(head := c, branch := branch, index := IndexOf(c.tree), work := (r.work - r.index.Keys) + c.tree)
  }

  /** `git reset --hard <commit>`. */
  function HardReset(r: Repo, c: Commit): Repo { CheckedOut(r, r.branch, c) }

  /** `git clean -fd`. */
  function Cleaned(r: Repo, ignored: Path -> bool): Repo {
    r.(work := map p | p in r.work && (p in r.index || ignored(p)) :: r.work[p])
  }

  /** `git clean -fdx -- <paths>`. */
  function CleanedPaths(r: Repo, paths: set<Path>): Repo {
    r.(work := map p | p in r.work && (p in r.index || p !in paths) :: r.work[p])
  }

  /** `git add -N -- <paths>` of paths not in the index. */
  function IntendingToAdd(r: Repo, paths: set<Path>): Repo {
    r.(index := map p | p in r.index.Keys + paths :: if p in r.index then r.index[p] else IntentToAdd)
  }

  /** `git reset HEAD -- <paths>`. */
  function PathsReset(r: Repo, paths: set<Path>): Repo {
    r.(index := map p | p in r.index.Keys + paths && (p in paths ==> p in r.head.tree) ::
         if p in paths then Staged(r.head.tree[p]) else r.index[p])
  }

  /** `git apply --index`. */
  predicate CanApplyToIndex(r: Repo, patch: Patch) {
    CanApply(patch, Tracked(r.index)) && CanApply(patch, r.work)
  }

  function AppliedToIndex(r: Repo, patch: Patch): Repo {
    r.(index := IndexOf(Patched(Tracked(r.index), patch)), work := Patched(r.work, patch))
  }

  /** `git apply`. */
  function Applied(r: Repo, patch: Patch): Repo { r.(work := Patched(r.work, patch)) }

  /** `git add -A`. */
  function AllAdded(r: Repo, ignored: Path -> bool): Repo {
    r.(index := map p | p in r.work && (p in r.index || !ignored(p)) :: Staged(r.work[p]))
  }

  /** `git update-index --add --remove -- <paths>`. */
  function IndexUpdated(r: Repo, paths: set<Path>): Repo {
    r.(index := map p | p in r.index.Keys + paths && (p in paths ==> p in r.work) ::
         if p in paths then Staged(r.work[p]) else r.index[p])
  }

  function Committed(r: Repo): Repo { r.(head := Commit(Tracked(r.index), Some(r.head))) }

  function RefUpdated(r: Repo, name: string, c: Commit): Repo { r.(refs := r.refs[name := c]) }

  function RefDeleted(r: Repo, name: string): Repo { r.(refs := r.refs - {name}) }

  /** `git reset --mixed HEAD~1`. */
  function ResetToParent(r: Repo): Repo
    requires r.head.parent.Some?
  {
    r.(head := r.head.parent.value, index := IndexOf(r.head.parent.value.tree))
  }

  function TreeRead(r: Repo, t: Tree): Repo { r.(index := IndexOf(t)) }

  // ---------------------------------------------------------------- what they do, path by path

  /** A diff names exactly the paths that differ, and adds those only the second tree has. */
  lemma DiffAt(a: Tree, b: Tree, p: Path)
    ensures p in Diff(a, b) <==> Get(a, p) != Get(b, p)
    ensures p in Diff(a, b) ==> Diff(a, b)[p] == Change(Get(a, p), Get(b, p))
    ensures p in Additions(Diff(a, b)) <==> p !in a && p in b
  {
  }

  /** A checkout brings the files of the commit, takes away what was tracked besides, and leaves the rest. */
  lemma CheckoutAt(r: Repo, branch: string, c: Commit, p: Path)
    ensures var r' := CheckedOut(r, branch, c);
      && r'.head == c && r'.branch == branch && r'.refs == r.refs && Tracked(r'.index) == c.tree
      && Get(r'.work, p) == if p in c.tree then Some(c.tree[p]) else if p in r.index then None else Get(r.work, p)
  {
  }

  /** A hard reset does the same without changing the branch. */
  lemma HardResetAt(r: Repo, c: Commit, p: Path)
    ensures var r' := HardReset(r, c);
      && r'.head == c && r'.branch == r.branch && r'.refs == r.refs && Tracked(r'.index) == c.tree
      && Get(r'.work, p) == if p in c.tree then Some(c.tree[p]) else if p in r.index then None else Get(r.work, p)
  {
  }

  /** Both cleans only take untracked files: one those not ignored, the other the paths given. */
  lemma CleanAt(r: Repo, ignored: Path -> bool, paths: set<Path>, p: Path)
    ensures Cleaned(r, ignored) == r.(work := Cleaned(r, ignored).work)
    ensures Get(Cleaned(r, ignored).work, p) == if p !in r.index && !ignored(p) then None else Get(r.work, p)
    ensures CleanedPaths(r, paths) == r.(work := CleanedPaths(r, paths).work)
    ensures Get(CleanedPaths(r, paths).work, p) == if p !in r.index && p in paths then None else Get(r.work, p)
  {
  }

  /** Marking adds entries without content, where there are none; resetting paths puts what HEAD has. */
  lemma MarkAt(r: Repo, paths: set<Path>, p: Path)
    ensures IntendingToAdd(r, paths) == r.(index := IntendingToAdd(r, paths).index)
    ensures p in IntendingToAdd(r, paths).index <==> p in r.index || p in paths
    ensures p in r.index ==> IntendingToAdd(r, paths).index[p] == r.index[p]
    ensures p in paths && p !in r.index ==> IntendingToAdd(r, paths).index[p].IntentToAdd?
    ensures PathsReset(r, paths) == r.(index := PathsReset(r, paths).index)
    ensures p in paths ==> Get(Tracked(PathsReset(r, paths).index), p) == Get(r.head.tree, p)
    ensures p in paths ==> (p in PathsReset(r, paths).index <==> p in r.head.tree)
    ensures p !in paths ==> (p in PathsReset(r, paths).index <==> p in r.index)
    ensures p !in paths && p in r.index ==> PathsReset(r, paths).index[p] == r.index[p]
  {
  }

  /** A patch is refused unless index and worktree both have its pre-images, and puts its post-images in both. */
  lemma ApplyToIndexAt(r: Repo, patch: Patch, p: Path)
    ensures CanApplyToIndex(r, patch) <==>
      forall q <- patch :: Get(Tracked(r.index), q) == patch[q].before && Get(r.work, q) == patch[q].before
    ensures var r' := AppliedToIndex(r, patch);
      && r' == r.(index := r'.index, work := r'.work)
      && Get(Tracked(r'.index), p) == (if p in patch then patch[p].after else Get(Tracked(r.index), p))
      && Get(r'.work, p) == (if p in patch then patch[p].after else Get(r.work, p))
  {
    assert Get(Patched(Tracked(r.index), patch), p) == Resulting(Tracked(r.index), patch, p);
    assert Tracked(IndexOf(Patched(Tracked(r.index), patch))) == Patched(Tracked(r.index), patch);
  }

  lemma ApplyAt(r: Repo, patch: Patch, p: Path)
    ensures Applied(r, patch) == r.(work := Applied(r, patch).work)
    ensures Get(Applied(r, patch).work, p) == if p in patch then patch[p].after else Get(r.work, p)
  {
    assert Get(Patched(r.work, patch), p) == Resulting(r.work, patch, p);
  }

  /** Staging everything takes the worktree but for ignored files that are not tracked; staging paths takes what
      the worktree has of them. */
  lemma StageAt(r: Repo, ignored: Path -> bool, paths: set<Path>, p: Path)
    ensures AllAdded(r, ignored) == r.(index := AllAdded(r, ignored).index)
    ensures Get(Tracked(AllAdded(r, ignored).index), p)
         == if p in r.index || !ignored(p) then Get(r.work, p) else None
    ensures IndexUpdated(r, paths) == r.(index := IndexUpdated(r, paths).index)
    ensures Get(Tracked(IndexUpdated(r, paths).index), p)
         == if p in paths then Get(r.work, p) else Get(Tracked(r.index), p)
  {
  }

  /** Commits and refs. */
  lemma CommitAndRefs(r: Repo, name: string, other: string, c: Commit)
    ensures Committed(r).head == Commit(Tracked(r.index), Some(r.head))
    ensures Committed(r) == r.(head := Committed(r).head)
    ensures ResetToParent(Committed(r)) == r.(index := IndexOf(r.head.tree))
    ensures name in RefUpdated(r, name, c).refs && RefUpdated(r, name, c).refs[name] == c
    ensures name !in RefDeleted(r, name).refs
    ensures other != name ==>
      && (other in RefUpdated(r, name, c).refs <==> other in r.refs)
      && (other in RefDeleted(r, name).refs <==> other in r.refs)
      && (other in r.refs ==>
            RefUpdated(r, name, c).refs[other] == RefDeleted(r, name).refs[other] == r.refs[other])
    ensures RefUpdated(r, name, c) == r.(refs := RefUpdated(r, name, c).refs)
    ensures RefDeleted(r, name) == r.(refs := RefDeleted(r, name).refs)
  {
  }
}
