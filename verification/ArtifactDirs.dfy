/** `artifactOutputDirs` (internal/cli/service_artifacts.go) with `safePathComponent`
    (internal/cli/service_download_output.go): one output directory per downloaded artifact. */
module ArtifactDirs {
  import opened Characters
  import opened Collections
  import opened Decimals
  import opened Options

  // ---------------------------------------------------------------- path components

  function ReplaceSeparators(s: string): (r: string)
    ensures '/' !in r && '\\' !in r
    ensures |r| == |s| && forall i | 0 <= i < |s| :: r[i] == if s[i] in {'/', '\\'} then '_' else s[i]
  {
    if s == "" then "" else [if s[0] == '/' || s[0] == '\\' then '_' else s[0]] + ReplaceSeparators(s[1..])
  }

  function Trim(s: string, cut: char -> bool): (r: string)
    ensures r == "" || (!cut(r[0]) && !cut(r[|r| - 1]))
    ensures forall c <- r :: c in s
  {
    TrimRight(TrimLeft(s, cut), cut)
  }

  /** One ordinary component of a path: no separator, not empty, not "." or "..". */
  predicate IsComponent(name: string) {
    name != "" && '/' !in name && '\\' !in name && name[0] != '.'
  }

  function SafePathComponent(name: string, fallback: string): (r: string)
    requires IsComponent(fallback)
    ensures IsComponent(r)
  {
    var component := Trim(Trim(ReplaceSeparators(name), IsUnicodeSpace), c => c == '.');
    if component == "" then fallback else component
  }

  /** A name that needs no cleaning is kept. */
  lemma {:induction false} CleanNameIsKept(name: string, fallback: string)
    requires name != "" && '/' !in name && '\\' !in name && IsComponent(fallback)
    requires forall c | c == name[0] || c == name[|name| - 1] :: !IsUnicodeSpace(c) && c != '.'
    ensures SafePathComponent(name, fallback) == name
  {
    NothingToReplace(name);
  }

  predicate IsClean(name: string) {
    && name != "" && '/' !in name && '\\' !in name && name[0] != '.' && name[|name| - 1] != '.'
    && !IsUnicodeSpace(name[0]) && !IsUnicodeSpace(name[|name| - 1])
  }

  lemma {:induction false} NothingToReplace(s: string)
    requires '/' !in s && '\\' !in s
    ensures ReplaceSeparators(s) == s
  {
    if s != "" {
      NothingToReplace(s[1..]);
    }
  }

  lemma DigitsAreNoSeparators(n: nat)
    ensures '/' !in Decimal(n) && '\\' !in Decimal(n)
  {
    assert forall c <- Decimal(n) :: IsDigit(c);
  }

  function BaseName(key: string, i: nat): (r: string)
    ensures IsComponent(r)
  {
    DigitsAreNoSeparators(i + 1);
    SafePathComponent(key, "artifact-" + Decimal(i + 1))
  }

  /** A key with nothing but spaces and then dots leaves no name, and the request gets its number, from one. */
  lemma {:induction false} NumberedName(spaces: string, dots: string, i: nat)
    requires (forall c <- spaces :: IsUnicodeSpace(c)) && (forall c <- dots :: c == '.')
    requires '/' !in spaces && '\\' !in spaces
    ensures BaseName(spaces + dots, i) == "artifact-" + Decimal(i + 1)
  {
    DigitsAreNoSeparators(i + 1);
    NothingToReplace(spaces + dots);
    SpacesGo(spaces, dots);
    DotsGo(dots);
  }

  lemma {:induction false} SpacesGo(spaces: string, dots: string)
    requires (forall c <- spaces :: IsUnicodeSpace(c)) && (forall c <- dots :: c == '.')
    ensures Trim(spaces + dots, IsUnicodeSpace) == dots
  {
    assert dots != "" ==> dots[0] in dots && dots[|dots| - 1] in dots;
    TrimsAll(spaces, dots, IsUnicodeSpace);
  }

  lemma {:induction false} DotsGo(dots: string)
    requires forall c <- dots :: c == '.'
    ensures Trim(dots, c => c == '.') == ""
  {
    TrimsAll(dots, "", c => c == '.');
    assert dots + "" == dots;
  }

  lemma {:induction false} TrimsAll(a: string, b: string, cut: char -> bool)
    requires (forall c <- a :: cut(c)) && (b == "" || !cut(b[0]))
    ensures TrimLeft(a + b, cut) == b
  {
    if a == "" {
      assert a + b == b;
    } else {
      assert (a + b)[1..] == a[1..] + b && a[0] in a;
      TrimsAll(a[1..], b, cut);
    }
  }

  function BaseNames(keys: seq<string>): (names: seq<string>)
    ensures |names| == |keys| && forall n <- names :: IsComponent(n)
  {
    seq(|keys|, i requires 0 <= i < |keys| => BaseName(keys[i], i))
  }

  // ---------------------------------------------------------------- the reference allocation

  function Suffixed(base: string, k: nat): string { base + "-" + Decimal(k) }

  lemma {:induction false} SuffixedInjective(base: string, j: nat, k: nat)
    requires Suffixed(base, j) == Suffixed(base, k)
    ensures j == k
  {
    assert Suffixed(base, j)[|base| + 1..] == Decimal(j) && Suffixed(base, k)[|base| + 1..] == Decimal(k);
    DecimalInjective(j, k);
  }

  /** The taken names a search from k on could still run into. */
  ghost function Ahead(base: string, taken: set<string>, k: nat): set<string> {
    set n | n in taken && exists j: nat :: j >= k && n == Suffixed(base, j)
  }

  lemma {:induction false} AheadShrinks(base: string, taken: set<string>, k: nat)
    requires Suffixed(base, k) in taken
    ensures Ahead(base, taken, k + 1) < Ahead(base, taken, k)
  {
    assert Suffixed(base, k) in Ahead(base, taken, k);
    forall j: nat | j >= k + 1 ensures Suffixed(base, j) != Suffixed(base, k) {
      if Suffixed(base, j) == Suffixed(base, k) { SuffixedInjective(base, j, k); }
    }
  }

  /** The least suffix from k on that is free: it exists, as only finitely many names are taken. */
  function FreeSuffix(base: string, taken: set<string>, k: nat): (r: nat)
    ensures r >= k && Suffixed(base, r) !in taken
    ensures forall j: nat | k <= j < r :: Suffixed(base, j) in taken
    decreases Ahead(base, taken, k)
  {
    if Suffixed(base, k) !in taken then k
    else
      AheadShrinks(base, taken, k);
      FreeSuffix(base, taken, k + 1)
  }

  /** Names for the first n requests, every search starting afresh at suffix 2. */
  function Allocated(bases: seq<string>, n: nat): (names: seq<string>)
    requires n <= |bases|
    ensures |names| == n
  {
    if n == 0 then []
    else
      var earlier := Allocated(bases, n - 1);
      var base := bases[n - 1];
      earlier + [if base in earlier then Suffixed(base, FreeSuffix(base, Elements(bases) + Elements(earlier), 2))
        else base]
  }

  /** filepath.Join of a cleaned directory and one ordinary component. */
  function OutputDir(collectionDir: string, name: string): string { collectionDir + "/" + name }

  /** A search that starts at a suffix below which everything is taken ends at the same place. */
  lemma {:induction false} ResumedSearch(base: string, taken: set<string>, from: nat, k: nat)
    requires from <= k && forall j: nat | from <= j < k :: Suffixed(base, j) in taken
    ensures FreeSuffix(base, taken, from) == FreeSuffix(base, taken, k)
    decreases k - from
  {
    if from < k {
      ResumedSearch(base, taken, from + 1, k);
    }
  }

  // ---------------------------------------------------------------- the program

  /** The inner search loop. `suffix` is where the next search for this base resumes. */
  method NextFreeName(baseName: string, reservedNames: set<string>, usedNames: set<string>, start: nat)
    returns (name: string, suffix: nat)
    ensures name == Suffixed(baseName, FreeSuffix(baseName, reservedNames + usedNames, start))
    ensures suffix == FreeSuffix(baseName, reservedNames + usedNames, start) + 1
  {
    ghost var taken := reservedNames + usedNames;
    suffix := start;
    name := Suffixed(baseName, suffix);
    suffix := suffix + 1;
    while name in reservedNames || name in usedNames
      invariant suffix > start && name == Suffixed(baseName, suffix - 1)
      invariant FreeSuffix(baseName, taken, start) == FreeSuffix(baseName, taken, suffix - 1)
      decreases Ahead(baseName, taken, suffix - 1)
    {
      AheadShrinks(baseName, taken, suffix - 1);
      name := Suffixed(baseName, suffix);
      suffix := suffix + 1;
    }
  }

  /** The suffixes a later search for each base may skip. */
  ghost predicate MemoSound(nextSuffix: map<string, nat>, taken: set<string>) {
    forall b <- nextSuffix :: nextSuffix[b] >= 2 && forall j: nat | 2 <= j < nextSuffix[b] :: Suffixed(b, j) in taken
  }

  /** The body of the outer loop up to the name: a base already used gets a suffix, and the memo moves on. */
  method ChooseName(baseNames: seq<string>, i: nat, reservedNames: set<string>, usedNames: set<string>,
                    memo: map<string, nat>)
    returns (name: string, nextSuffix: map<string, nat>)
    requires i < |baseNames| && reservedNames == Elements(baseNames) && usedNames == Elements(Allocated(baseNames, i))
    requires MemoSound(memo, reservedNames + usedNames)
    ensures name == Allocated(baseNames, |baseNames|)[i]
    ensures usedNames + {name} == Elements(Allocated(baseNames, i + 1))
    ensures MemoSound(nextSuffix, reservedNames + (usedNames + {name}))
  {
    var baseName := baseNames[i];
    name, nextSuffix := baseName, memo;
    ghost var taken := reservedNames + usedNames;
    if name in usedNames {
      var suffix := if baseName in memo then memo[baseName] else 0;
      if suffix == 0 {
        suffix := 2;
      }
      ghost var start := suffix;
      ResumedSearch(baseName, taken, 2, start);
      name, suffix := NextFreeName(baseName, reservedNames, usedNames, suffix);
      forall j: nat | 2 <= j < suffix ensures Suffixed(baseName, j) in taken + {name} {
        assert j < start ==> Suffixed(baseName, j) in taken;
      }
      nextSuffix := memo[baseName := suffix];
    }
    NextAllocated(baseNames, i, name);
    assert reservedNames + (usedNames + {name}) == taken + {name};
  }

  function OutputDirs(collectionDir: string, names: seq<string>): (dirs: seq<string>)
    ensures |dirs| == |names|
    ensures forall i | 0 <= i < |names| :: dirs[i] == OutputDir(collectionDir, names[i])
  {
    if names == [] then []
    else OutputDirs(collectionDir, names[..|names| - 1]) + [OutputDir(collectionDir, names[|names| - 1])]
  }

  /** `failing` holds the directories that cannot be prepared. */
  method ArtifactOutputDirs(collectionDir: string, keys: seq<string>, failing: set<string>)
    returns (dirs: Option<seq<string>>)
    ensures var expected := OutputDirs(collectionDir, Allocated(BaseNames(keys), |keys|));
      && (dirs.Some? <==> forall d <- expected :: d !in failing)
      && (dirs.Some? ==> dirs.value == expected)
  {
    var baseNames := BaseNames(keys);
    var reservedNames := Elements(baseNames);
    var usedNames: set<string> := {};
    var nextSuffix: map<string, nat> := map[];
    var result: seq<string> := [];
    for i := 0 to |baseNames|
      invariant usedNames == Elements(Allocated(baseNames, i))
      invariant MemoSound(nextSuffix, reservedNames + usedNames)
      invariant result == OutputDirs(collectionDir, Allocated(baseNames, i))
      invariant forall d <- result :: d !in failing
    {
      var name;
      name, nextSuffix := ChooseName(baseNames, i, reservedNames, usedNames, nextSuffix);
      usedNames := usedNames + {name};
      var dir := OutputDir(collectionDir, name);
      OutputDirsStep(collectionDir, baseNames, i, name);
      if dir in failing {
        return None;
      }
      result := result + [dir];
    }
    dirs := Some(result);
  }

  lemma {:induction false} OutputDirsStep(collectionDir: string, bases: seq<string>, i: nat, name: string)
    requires i < |bases| && name == Allocated(bases, |bases|)[i]
    ensures OutputDirs(collectionDir, Allocated(bases, i + 1))
      == OutputDirs(collectionDir, Allocated(bases, i)) + [OutputDir(collectionDir, name)]
    ensures OutputDir(collectionDir, name) in OutputDirs(collectionDir, Allocated(bases, |bases|))
  {
    AllocatedPrefix(bases, i + 1, |bases|);
    AllocatedPrefix(bases, i, i + 1);
    assert Allocated(bases, i + 1)[i] == name;
    assert OutputDirs(collectionDir, Allocated(bases, |bases|))[i] == OutputDir(collectionDir, name);
  }

  lemma {:induction false} NextAllocated(bases: seq<string>, i: nat, name: string)
    requires i < |bases|
    requires name == var earlier := Allocated(bases, i);
      if bases[i] in earlier then Suffixed(bases[i], FreeSuffix(bases[i], Elements(bases) + Elements(earlier), 2))
        else bases[i]
    ensures Allocated(bases, i + 1) == Allocated(bases, i) + [name]
    ensures Allocated(bases, |bases|)[i] == name
    ensures Elements(Allocated(bases, i + 1)) == Elements(Allocated(bases, i)) + {name}
  {
    AllocatedPrefix(bases, i + 1, |bases|);
    assert Allocated(bases, |bases|)[..i + 1][i] == name;
  }

  lemma AllocatedPrefix(bases: seq<string>, m: nat, n: nat)
    requires m <= n <= |bases|
    ensures Allocated(bases, m) == Allocated(bases, n)[..m]
  {
  }

  // ---------------------------------------------------------------- what the allocation guarantees

  predicate FirstOccurrence(bases: seq<string>, i: nat)
    requires i < |bases|
  {
    bases[i] !in bases[..i]
  }

  /** A generated name never equals a base name, so a base counts as used exactly when it occurred before. */
  lemma UsedMeansRepeated(bases: seq<string>, n: nat)
    requires n <= |bases|
    ensures forall b <- bases :: b in Allocated(bases, n) <==> b in bases[..n]
  {
    if n > 0 {
      UsedMeansRepeated(bases, n - 1);
      assert bases[..n] == bases[..n - 1] + [bases[n - 1]];
      assert bases[n - 1] in bases;
    }
  }

  /** The complete description of each name: first occurrences keep their base name; a repeated one gets
      the least suffix from 2 on whose name is neither any request's base name nor already given out. */
  lemma {:induction false} NameOf(bases: seq<string>, i: nat)
    requires i < |bases|
    ensures var names := Allocated(bases, |bases|);
      && (FirstOccurrence(bases, i) ==> names[i] == bases[i])
      && (!FirstOccurrence(bases, i) ==>
            && names[i] !in bases && names[i] !in names[..i]
            && exists k: nat | k >= 2 && names[i] == Suffixed(bases[i], k) ::
                 forall j: nat | 2 <= j < k :: Suffixed(bases[i], j) in bases || Suffixed(bases[i], j) in names[..i])
  {
    var names := Allocated(bases, |bases|);
    AllocatedPrefix(bases, i + 1, |bases|);
    AllocatedPrefix(bases, i, |bases|);
    UsedMeansRepeated(bases, i);
    assert bases[i] in bases;
    assert names[..i + 1][i] == names[i];
    if !FirstOccurrence(bases, i) {
      var k := FreeSuffix(bases[i], Elements(bases) + Elements(names[..i]), 2);
      assert names[i] == Suffixed(bases[i], k);
      assert forall j: nat | 2 <= j < k :: Suffixed(bases[i], j) in bases || Suffixed(bases[i], j) in names[..i];
    }
  }

  /** The suffix of the first repetition is "-2". */
  lemma {:induction false} SecondGetsTwo(base: string)
    requires base + "-2" != base
    ensures Allocated([base, base], 2) == [base, base + "-2"]
  {
    var bases := [base, base];
    assert Decimal(2) == "2";
    assert Allocated(bases, 0) == [] && Allocated(bases, 1) == [base];
    var taken := Elements(bases) + Elements([base]);
    assert taken == {base} && Suffixed(base, 2) == base + "-2";
    assert FreeSuffix(base, taken, 2) == 2;
  }

  /** No two artifacts share a directory. */
  lemma {:induction false} NamesAreDistinct(bases: seq<string>, i: nat, j: nat)
    requires i < j < |bases|
    ensures Allocated(bases, |bases|)[i] != Allocated(bases, |bases|)[j]
  {
    var names := Allocated(bases, |bases|);
    NameOf(bases, i);
    NameOf(bases, j);
    assert names[i] in names[..j];
    assert bases[i] in bases[..j];
    assert bases[j] in bases;
  }

  lemma {:induction false} DirsAreDistinct(collectionDir: string, keys: seq<string>, i: nat, j: nat)
    requires i < j < |keys|
    ensures var names := Allocated(BaseNames(keys), |keys|);
      OutputDir(collectionDir, names[i]) != OutputDir(collectionDir, names[j])
  {
    var names := Allocated(BaseNames(keys), |keys|);
    NamesAreDistinct(BaseNames(keys), i, j);
    assert OutputDir(collectionDir, names[i])[|collectionDir| + 1..] == names[i];
    assert OutputDir(collectionDir, names[j])[|collectionDir| + 1..] == names[j];
  }

  /** Requests with clean keys, all different, get directories named after their keys; an unusable key gets the
      number of its own request. */
  lemma {:induction false} CleanKeysNameDirs(collectionDir: string, keys: seq<string>, i: nat)
    requires i < |keys| && IsClean(keys[i]) && forall j | 0 <= j < i :: keys[j] != keys[i] && IsClean(keys[j])
    ensures OutputDirs(collectionDir, Allocated(BaseNames(keys), |keys|))[i] == collectionDir + "/" + keys[i]
  {
    var bases := BaseNames(keys);
    forall j | 0 <= j <= i ensures bases[j] == keys[j] {
      CleanBase(keys[j], j);
    }
    assert FirstOccurrence(bases, i);
    NameOf(bases, i);
    DirOf(collectionDir, Allocated(bases, |bases|), i, keys[i]);
  }

  lemma {:induction false} CleanBase(key: string, i: nat)
    requires IsClean(key)
    ensures BaseName(key, i) == key
  {
    DigitsAreNoSeparators(i + 1);
    CleanNameIsKept(key, "artifact-" + Decimal(i + 1));
  }

  lemma DirOf(collectionDir: string, names: seq<string>, i: nat, name: string)
    requires i < |names| && names[i] == name
    ensures OutputDirs(collectionDir, names)[i] == collectionDir + "/" + name
  {
  }

  lemma {:induction false} DotsGetTheirNumber(keys: seq<string>, i: nat)
    requires i < |keys| && forall c <- keys[i] :: c == '.'
    ensures BaseNames(keys)[i] == "artifact-" + Decimal(i + 1)
  {
    NumberedName("", keys[i], i);
    assert "" + keys[i] == keys[i];
  }

  /** Every directory is an immediate child of the collection directory. */
  lemma {:induction false} NamesAreComponents(keys: seq<string>, i: nat)
    requires i < |keys|
    ensures IsComponent(Allocated(BaseNames(keys), |keys|)[i])
  {
    var bases := BaseNames(keys);
    NameOf(bases, i);
    assert bases[i] in bases;
    forall k: nat ensures IsComponent(Suffixed(bases[i], k)) {
      DigitsAreNoSeparators(k);
    }
  }
}
