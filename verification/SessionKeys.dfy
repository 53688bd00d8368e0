/** The session keys of internal/cli/sandbox_storage.go: `SessionKey`, `ParseSessionKey` and the
    migration of keys written before version 1 of the store. */
module SessionKeys {
  import opened Options

  predicate IsAbs(path: string) { "/" <= path }

  predicate HasSuffix(s: string, suffix: string) {
    |suffix| <= |s| && s[|s| - |suffix|..] == suffix
  }

  /** strings.Index(s, ":/"). */
  function IndexColonSlash(s: string): (i: int)
    ensures -1 <= i < |s| - 1 || i == -1
    ensures i >= 0 ==> s[i] == ':' && s[i + 1] == '/'
    ensures forall j | 0 <= j < (if i == -1 then |s| - 1 else i) :: !(s[j] == ':' && s[j + 1] == '/')
  {
    if |s| < 2 then -1
    else if s[0] == ':' && s[1] == '/' then 0
    else var i := IndexColonSlash(s[1..]);
      assert forall j | 1 <= j < |s| - 1 :: s[j] == s[1..][j - 1] && s[j + 1] == s[1..][j];
      if i == -1 then -1 else i + 1
  }

  /** strings.LastIndex(s, ":"). */
  function LastColon(s: string): (i: int)
    ensures -1 <= i < |s|
    ensures i >= 0 ==> s[i] == ':'
    ensures forall j | i < j < |s| :: s[j] != ':'
  {
    if s == "" then -1 else if s[|s| - 1] == ':' then |s| - 1 else LastColon(s[..|s| - 1])
  }

  lemma LastColonIs(a: string, b: string)
    requires ':' !in b
    ensures LastColon(a + ":" + b) == |a|
  {
    if b == "" {
      assert a + ":" + "" == a + ":";
    } else {
      assert (a + ":" + b)[..|a + ":" + b| - 1] == a + ":" + b[..|b| - 1];
      LastColonIs(a, b[..|b| - 1]);
    }
  }

  predicate HasColonSlash(s: string) {
    exists j :: 0 <= j < |s| - 1 && s[j] == ':' && s[j + 1] == '/'
  }

  /** The code panics on a relative config file. */
  function SessionKey(branch: string, configFile: string): string
    requires configFile == "" || IsAbs(configFile)
  {
    (if branch == "" then "detached" else branch) + ":" + configFile
  }

  function ParseSessionKey(key: string): (string, string) {
    var i := IndexColonSlash(key);
    if i != -1 then (key[..i], key[i + 1..])
    else
      var last := LastColon(key);
      if last == -1 then (key, "") else (key[..last], key[last + 1..])
  }

  /** Parsing undoes key construction exactly for the non-empty branches without ":/". */
  lemma {:induction false} ParseUndoesSessionKey(branch: string, configFile: string)
    requires configFile == "" || IsAbs(configFile)
    ensures ParseSessionKey(SessionKey(branch, configFile)) == (branch, configFile)
       <==> branch != "" && !HasColonSlash(branch)
  {
    var b := if branch == "" then "detached" else branch;
    if HasColonSlash(branch) {
      CutTooEarly(branch, configFile);
    } else if IsAbs(configFile) {
      CutAtConfig(b, configFile);
    } else {
      CutAtLastColon(b);
      assert b + ":" + "" == b + ":";
    }
  }

  lemma {:induction false} CutTooEarly(b: string, rest: string)
    requires HasColonSlash(b)
    ensures |ParseSessionKey(b + ":" + rest).0| < |b|
  {
    var key := b + ":" + rest;
    var j :| 0 <= j < |b| - 1 && b[j] == ':' && b[j + 1] == '/';
    assert key[j] == ':' && key[j + 1] == '/';
    var i := IndexColonSlash(key);
    assert 0 <= i <= j;
  }

  lemma {:induction false} CutAtConfig(b: string, configFile: string)
    requires !HasColonSlash(b) && IsAbs(configFile)
    ensures ParseSessionKey(b + ":" + configFile) == (b, configFile)
  {
    var key := b + ":" + configFile;
    var i := IndexColonSlash(key);
    assert key[|b|] == ':' && key[|b| + 1] == '/' && key[..|b|] == b && key[|b| + 1..] == configFile;
    assert 0 <= i <= |b|;
    assert forall j | 0 <= j < |b| :: key[j] == b[j];
    assert forall j | 0 <= j < |b| && key[j] == ':' :: j == |b| - 1 || key[j + 1] != '/';
    assert i == |b|;
  }

  lemma {:induction false} CutAtLastColon(b: string)
    requires !HasColonSlash(b)
    ensures ParseSessionKey(b + ":") == (b, "")
  {
    var key := b + ":";
    assert forall j | 0 <= j < |b| :: key[j] == b[j];
    assert IndexColonSlash(key) == -1;
    assert LastColon(key) == |b| && key[..|b|] == b && key[|b| + 1..] == "";
  }

  /** So distinct sessions have distinct keys. */
  lemma {:induction false} SessionKeyInjective(b: string, c: string, b': string, c': string)
    requires (c == "" || IsAbs(c)) && (c' == "" || IsAbs(c'))
    requires b != "" && b' != "" && !HasColonSlash(b) && !HasColonSlash(b')
    requires SessionKey(b, c) == SessionKey(b', c')
    ensures b == b' && c == c'
  {
    ParseUndoesSessionKey(b, c);
    ParseUndoesSessionKey(b', c');
  }

  // ---------------------------------------------------------------- migration

  /** Path components: the text between slashes. */
  function Components(path: string): (parts: seq<string>)
    ensures forall part <- parts :: '/' !in part
    ensures ':' !in path ==> forall part <- parts :: ':' !in part
  {
    if path == "" then [""]
    else
      var rest := Components(path[1..]);
      if path[0] == '/' || rest == [] then [""] + rest else [[path[0]] + rest[0]] + rest[1..]
  }

  /** filepath.Clean of a rooted path, component by component. */
  function Resolve(done: seq<string>, parts: seq<string>): (resolved: seq<string>)
    ensures (forall part <- done + parts :: ':' !in part) ==> forall part <- resolved :: ':' !in part
    decreases parts
  {
    if parts == [] then done
    else if parts[0] == "" || parts[0] == "." then Resolve(done, parts[1..])
    else if parts[0] == ".." then Resolve(if done == [] then [] else done[..|done| - 1], parts[1..])
    else Resolve(done + [parts[0]], parts[1..])
  }

  function Rooted(parts: seq<string>): (path: string)
    ensures (forall part <- parts :: ':' !in part) ==> ':' !in path
  {
    if parts == [] then "" else "/" + parts[0] + Rooted(parts[1..])
  }

  /** filepath.Join(cwd, configFile) for an absolute cwd. */
  function Join(cwd: string, configFile: string): (path: string)
    requires IsAbs(cwd)
    ensures IsAbs(path)
    ensures ':' !in cwd && ':' !in configFile ==> ':' !in path
  {
    var parts := Resolve([], Components(cwd + "/" + configFile));
    if parts == [] then "/" else Rooted(parts)
  }

  predicate IsYAML(configFile: string) {
    HasSuffix(configFile, ".yml") || HasSuffix(configFile, ".yaml")
  }

  /** Such a name ends in one of the two suffixes, whatever comes before. */
  lemma YAMLNames(configFile: string, base: string)
    ensures IsYAML(base + ".yml") && IsYAML(base + ".yaml")
    ensures IsYAML(configFile) ==>
      exists base' :: configFile == base' + ".yml" || configFile == base' + ".yaml"
  {
    assert (base + ".yml")[|base|..] == ".yml" && (base + ".yaml")[|base|..] == ".yaml";
    if IsYAML(configFile) {
      var n := if HasSuffix(configFile, ".yml") then 4 else 5;
      var base' := configFile[..|configFile| - n];
      assert configFile == base' + configFile[|configFile| - n..];
    }
  }

  /** The three parts of a key of the old form cwd:branch:configFile. */
  function OldParts(key: string): Option<(string, string, string)> {
    var last := LastColon(key);
    if last == -1 then None
    else
      var secondLast := LastColon(key[..last]);
      if secondLast == -1 then None
      else Some((key[..secondLast], key[secondLast + 1..last], key[last + 1..]))
  }

  predicate IsOldKey(key: string) {
    match OldParts(key)
    case None => false
    case Some((cwd, branch, configFile)) => IsAbs(cwd) && IsYAML(configFile)
  }

  function MigrateKey(key: string): string {
    if !IsOldKey(key) then key
    else
      var (cwd, branch, configFile) := OldParts(key).value;
      SessionKey(branch, ResolvedConfig(key))
  }

  /** The config path of an old key, made absolute against its working directory. */
  function ResolvedConfig(key: string): (path: string)
    requires IsOldKey(key)
    ensures IsAbs(path)
  {
    var (cwd, branch, configFile) := OldParts(key).value;
    if IsAbs(configFile) then configFile else Join(cwd, configFile)
  }

  // ---------------------------------------------------------------- migrating twice

  function Colons(s: string): nat {
    if s == "" then 0 else (if s[0] == ':' then 1 else 0) + Colons(s[1..])
  }

  function ColonsIn(parts: seq<string>): nat {
    if parts == [] then 0 else Colons(parts[0]) + ColonsIn(parts[1..])
  }

  lemma {:induction false} ColonsConcat(a: string, b: string)
    ensures Colons(a + b) == Colons(a) + Colons(b)
  {
    if a == "" {
      assert a + b == b;
    } else {
      assert (a + b)[1..] == a[1..] + b;
      ColonsConcat(a[1..], b);
    }
  }

  lemma {:induction false} ColonsInConcat(a: seq<string>, b: seq<string>)
    ensures ColonsIn(a + b) == ColonsIn(a) + ColonsIn(b)
  {
    if a == [] {
      assert a + b == b;
    } else {
      assert (a + b)[1..] == a[1..] + b;
      ColonsInConcat(a[1..], b);
    }
  }

  lemma {:induction false} ColonsOfComponents(path: string)
    ensures Components(path) != []
    ensures ColonsIn(Components(path)) == Colons(path)
  {
    if path != "" {
      ColonsOfComponents(path[1..]);
      var rest := Components(path[1..]);
      if path[0] == '/' {
        assert ([""] + rest)[1..] == rest;
      } else {
        assert ([[path[0]] + rest[0]] + rest[1..])[1..] == rest[1..];
        assert ([path[0]] + rest[0])[1..] == rest[0];
      }
    }
  }

  lemma {:induction false} ColonsOfResolve(done: seq<string>, parts: seq<string>)
    ensures ColonsIn(Resolve(done, parts)) <= ColonsIn(done) + ColonsIn(parts)
    decreases parts
  {
    if parts != [] {
      var shorter := if done == [] then [] else done[..|done| - 1];
      if done != [] {
        assert done == shorter + [done[|done| - 1]];
        ColonsInConcat(shorter, [done[|done| - 1]]);
      }
      ColonsInConcat(done, [parts[0]]);
      assert ColonsIn([parts[0]]) == Colons(parts[0]);
      ColonsOfResolve(done, parts[1..]);
      ColonsOfResolve(shorter, parts[1..]);
      ColonsOfResolve(done + [parts[0]], parts[1..]);
    }
  }

  lemma {:induction false} ColonsOfRooted(parts: seq<string>)
    ensures Colons(Rooted(parts)) == ColonsIn(parts)
  {
    if parts != [] {
      ColonsConcat("/" + parts[0], Rooted(parts[1..]));
      assert ("/" + parts[0])[1..] == parts[0];
      ColonsOfRooted(parts[1..]);
    }
  }

  /** Resolving a path brings no colon in. */
  lemma {:induction false} ColonsOfJoin(cwd: string, configFile: string)
    requires IsAbs(cwd)
    ensures Colons(Join(cwd, configFile)) <= Colons(cwd) + Colons(configFile)
  {
    var path := cwd + "/" + configFile;
    ColonsConcat(cwd + "/", configFile);
    ColonsConcat(cwd, "/");
    assert Colons("/") == 0;
    ColonsOfComponents(path);
    ColonsOfResolve([], Components(path));
    ColonsOfRooted(Resolve([], Components(path)));
  }

  /** A key is its three parts again. */
  lemma {:induction false} PartsOfOldKey(key: string)
    requires OldParts(key).Some?
    ensures var (cwd, branch, configFile) := OldParts(key).value;
      key == cwd + ":" + (branch + ":" + configFile) && ':' !in branch && ':' !in configFile
  {
    var last := LastColon(key);
    var second := LastColon(key[..last]);
    assert key == key[..second] + ":" + (key[second + 1..last] + ":" + key[last + 1..]);
    assert forall j | second < j < last :: key[..last][j] == key[j];
  }

  /** Migrating an old key leaves it with fewer colons, so it always changes it. */
  lemma {:induction false} MigrationDropsAColon(key: string)
    requires IsOldKey(key)
    ensures Colons(MigrateKey(key)) < Colons(key)
  {
    var (cwd, branch, configFile) := OldParts(key).value;
    PartsOfOldKey(key);
    ColonsOfKey(branch, configFile);
    ColonsOfKey(cwd, branch + ":" + configFile);
    ColonsOfJoin(cwd, configFile);
    ColonsOfKey("detached", ResolvedConfig(key));
    ColonsOfKey(branch, ResolvedConfig(key));
    NoColons("detached");
  }

  lemma {:induction false} ColonsOfKey(a: string, b: string)
    ensures Colons(a + ":" + b) == Colons(a) + 1 + Colons(b)
  {
    ColonsConcat(a + ":", b);
    ColonsConcat(a, ":");
    assert Colons(":") == 1 + Colons("");
  }

  lemma {:induction false} NoColons(s: string)
    ensures Colons(s) == 0 <==> ':' !in s
  {
    if s != "" {
      NoColons(s[1..]);
      assert s == [s[0]] + s[1..];
    }
  }

  lemma {:induction false} SuffixOfComponents(path: string, suffix: string)
    requires suffix != "" && '/' !in suffix && HasSuffix(path, suffix)
    ensures Components(path) != [] && HasSuffix(Components(path)[|Components(path)| - 1], suffix)
  {
    ColonsOfComponents(path[1..]);
    var rest := Components(path[1..]);
    if |path| > |suffix| {
      assert path[1..][|path| - 1 - |suffix|..] == path[|path| - |suffix|..];
      SuffixOfComponents(path[1..], suffix);
      if |rest| == 1 && path[0] != '/' {
        SuffixExtends([path[0]], rest[0], suffix);
      }
    } else {
      assert path == suffix;
      ComponentsPlain(path);
    }
  }

  lemma {:induction false} SuffixOfResolve(done: seq<string>, parts: seq<string>)
    requires parts != []
    requires var last := parts[|parts| - 1]; last != "" && last != "." && last != ".."
    ensures var resolved := Resolve(done, parts); resolved != [] && resolved[|resolved| - 1] == parts[|parts| - 1]
    decreases parts
  {
    if |parts| > 1 {
      SuffixOfResolve(done, parts[1..]);
      SuffixOfResolve(if done == [] then [] else done[..|done| - 1], parts[1..]);
      SuffixOfResolve(done + [parts[0]], parts[1..]);
    } else {
      assert parts[1..] == [];
    }
  }

  lemma {:induction false} SuffixOfRooted(parts: seq<string>, suffix: string)
    requires parts != [] && HasSuffix(parts[|parts| - 1], suffix)
    ensures HasSuffix(Rooted(parts), suffix)
  {
    if |parts| == 1 {
      assert Rooted(parts[1..]) == "";
      SuffixExtends("/", parts[0], suffix);
      assert Rooted(parts) == "/" + parts[0];
    } else {
      SuffixOfRooted(parts[1..], suffix);
      SuffixExtends("/" + parts[0], Rooted(parts[1..]), suffix);
    }
  }

  /** A resolved config path is still a YAML file. */
  lemma {:induction false} JoinKeepsSuffix(cwd: string, configFile: string, suffix: string)
    requires IsAbs(cwd) && HasSuffix(configFile, suffix) && (suffix == ".yml" || suffix == ".yaml")
    ensures HasSuffix(Join(cwd, configFile), suffix)
  {
    var path := cwd + "/" + configFile;
    SuffixExtends(cwd + "/", configFile, suffix);
    SuffixOfComponents(path, suffix);
    SuffixOfResolve([], Components(path));
    SuffixOfRooted(Resolve([], Components(path)), suffix);
  }

  lemma {:induction false} ResolvedIsYAML(key: string)
    requires IsOldKey(key)
    ensures IsYAML(ResolvedConfig(key))
  {
    var (cwd, branch, configFile) := OldParts(key).value;
    JoinKeepsSuffix(cwd, configFile, if HasSuffix(configFile, ".yml") then ".yml" else ".yaml");
  }

  lemma {:induction false} LastColonShift(a: string, b: string)
    requires ':' in b
    ensures LastColon(a + b) == |a| + LastColon(b)
  {
    var i := LastColon(a + b);
    var j := LastColon(b);
    assert forall k | 0 <= k < |b| :: (a + b)[|a| + k] == b[k];
    assert (a + b)[|a| + j] == ':';
  }

  lemma {:induction false} CutTwice(branch: string, config: string)
    requires branch != "" && ':' in config
    ensures OldParts(branch + ":" + config).Some?
    ensures var (cwd, _, configFile) := OldParts(branch + ":" + config).value;
      cwd != "" && cwd[0] == branch[0] && configFile == config[LastColon(config) + 1..]
  {
    var key, l := branch + ":" + config, LastColon(config);
    LastColonShift(branch + ":", config);
    var last := LastColon(key);
    assert key[..last] == branch + ":" + config[..l];
    var second := LastColon(key[..last]);
    assert key[..last][|branch|] == ':';
    assert key[..last][0] == branch[0];
  }

  lemma {:induction false} LooksOldWithColon(branch: string, config: string, suffix: string)
    requires branch != "" && ':' in config
    requires HasSuffix(config, suffix) && (suffix == ".yml" || suffix == ".yaml")
    ensures IsOldKey(branch + ":" + config) <==> IsAbs(branch)
  {
    CutTwice(branch, config);
    SuffixAfterColon(config, LastColon(config), suffix);
  }

  /** When a key of the current form passes for an old one. */
  lemma {:induction false} LooksOld(branch: string, config: string)
    requires branch != "" && ':' !in branch && IsYAML(config)
    ensures IsOldKey(branch + ":" + config) <==> IsAbs(branch) && ':' in config
  {
    if ':' in config {
      LooksOldWithColon(branch, config, if HasSuffix(config, ".yml") then ".yml" else ".yaml");
    } else {
      LastColonIs(branch, config);
      assert (branch + ":" + config)[..|branch|] == branch;
    }
  }

  lemma {:induction false} SuffixAfterColon(s: string, i: nat, suffix: string)
    requires i < |s| && s[i] == ':' && ':' !in suffix && HasSuffix(s, suffix)
    ensures HasSuffix(s[i + 1..], suffix)
  {
    forall k | |s| - |suffix| <= k < |s|
      ensures s[k] != ':'
    {
      assert s[k] == suffix[k - (|s| - |suffix|)];
    }
    assert s[i + 1..][|s| - i - 1 - |suffix|..] == s[|s| - |suffix|..];
  }

  /** A second migration changes nothing, except for exactly the old keys whose branch part starts with "/"
      and whose resolved config path holds a colon: there the branch is taken for a working directory. */
  lemma {:induction false} MigrationIsIdempotent(key: string)
    ensures MigrateKey(MigrateKey(key)) == MigrateKey(key)
       <==> !(IsOldKey(key) && IsAbs(OldParts(key).value.1) && ':' in ResolvedConfig(key))
  {
    if IsOldKey(key) {
      var branch := OldParts(key).value.1;
      PartsOfOldKey(key);
      ResolvedIsYAML(key);
      LooksOld(if branch == "" then "detached" else branch, ResolvedConfig(key));
      if IsOldKey(MigrateKey(key)) {
        MigrationDropsAColon(MigrateKey(key));
      }
    }
  }

  lemma {:induction false} OldPartsOf(cwd: string, branch: string, configFile: string)
    requires ':' !in branch && ':' !in configFile
    ensures OldParts(cwd + ":" + branch + ":" + configFile) == Some((cwd, branch, configFile))
  {
    var rest := cwd + ":" + branch;
    var key := rest + ":" + configFile;
    LastColonIs(rest, configFile);
    LastColonIs(cwd, branch);
    assert key[..|rest|] == rest && key[|rest| + 1..] == configFile;
    assert rest[..|cwd|] == cwd && rest[|cwd| + 1..] == branch;
    assert key[|cwd| + 1..|rest|] == branch && key[..|cwd|] == cwd;
  }

  /** A name that is one ordinary path component and holds no colon. */
  predicate IsPlain(part: string) { part != "" && part != "." && part != ".." && '/' !in part }

  predicate Plain(name: string) { IsPlain(name) && ':' !in name }

  lemma PlainNames(name: string)
    requires name != "" && name[0] != '.' && '/' !in name
    ensures IsPlain(name) && (':' !in name ==> Plain(name)) && !IsPlain("..") && !IsPlain(".")
  {
  }

  /** Such keys exist. */
  lemma {:induction false} SlashBranchMigratesTwice(a: string, b: string, branch: string, f: string)
    requires Plain(a) && Plain(b) && Plain(f) && IsYAML(f)
    requires IsAbs(branch) && ':' !in branch && branch != "/" + a
    ensures var cwd := "/" + (a + ":" + b);
      && MigrateKey(cwd + ":" + branch + ":" + f) == branch + ":" + ("/" + a) + ":" + (b + "/" + f)
      && MigrateKey(branch + ":" + ("/" + a) + ":" + (b + "/" + f)) != branch + ":" + ("/" + a) + ":" + (b + "/" + f)
  {
    var cwd := "/" + (a + ":" + b);
    MigrateOld(cwd, branch, f);
    JoinPlain(a + ":" + b, f);
    MovedColon(a, b, f);
    Regroup(branch, "/" + a, b + "/" + f, cwd + "/" + f);
    SuffixExtends(b + "/", f, if HasSuffix(f, ".yml") then ".yml" else ".yaml");
    AbsoluteBranchMoves(branch, "/" + a, b + "/" + f);
  }

  lemma MovedColon(a: string, b: string, f: string)
    ensures "/" + (a + ":" + b) + "/" + f == ("/" + a) + ":" + (b + "/" + f)
  {
  }

  lemma Regroup(x: string, y: string, z: string, yz: string)
    requires yz == y + ":" + z
    ensures x + ":" + yz == x + ":" + y + ":" + z
  {
  }

  lemma {:induction false} AbsoluteBranchMoves(cwd: string, branch: string, configFile: string)
    requires IsAbs(cwd) && ':' !in cwd && ':' !in branch && cwd != branch && branch != ""
    requires ':' !in configFile && IsYAML(configFile)
    ensures MigrateKey(cwd + ":" + branch + ":" + configFile) != cwd + ":" + branch + ":" + configFile
  {
    MigrateOld(cwd, branch, configFile);
    var config := if IsAbs(configFile) then configFile else Join(cwd, configFile);
    Regroup(cwd, branch, configFile, branch + ":" + configFile);
    if branch + ":" + config == cwd + ":" + (branch + ":" + configFile) {
      SameBeforeColon(branch, config, cwd, branch + ":" + configFile);
    }
  }

  lemma {:induction false} MigrateOld(cwd: string, branch: string, configFile: string)
    requires ':' !in branch && ':' !in configFile && IsAbs(cwd) && IsYAML(configFile)
    ensures MigrateKey(cwd + ":" + branch + ":" + configFile)
         == SessionKey(branch, if IsAbs(configFile) then configFile else Join(cwd, configFile))
  {
    OldPartsOf(cwd, branch, configFile);
  }

  lemma SuffixExtends(a: string, b: string, suffix: string)
    requires HasSuffix(b, suffix)
    ensures HasSuffix(a + b, suffix)
  {
    assert (a + b)[|a + b| - |suffix|..] == b[|b| - |suffix|..];
  }

  lemma SameBeforeColon(x: string, rest: string, x': string, rest': string)
    requires ':' !in x && ':' !in x' && x + ":" + rest == x' + ":" + rest'
    ensures x == x'
  {
    var s, s' := x + ":" + rest, x' + ":" + rest';
    assert s[0] == s'[0];
    if x != "" && x' != "" {
      assert s[1..] == x[1..] + ":" + rest && s'[1..] == x'[1..] + ":" + rest';
      SameBeforeColon(x[1..], rest, x'[1..], rest');
      assert x == [x[0]] + x[1..] && x' == [x'[0]] + x'[1..];
    }
  }

  lemma {:induction false} JoinPlain(a: string, f: string)
    requires '/' !in a && '/' !in f && a != "" && a != "." && a != ".." && f != "" && f != "." && f != ".."
    ensures Join("/" + a, f) == "/" + a + "/" + f
  {
    ComponentsOfPath(a, f);
    ResolveTwo(a, f);
    RootedTwo(a, f);
  }

  lemma {:induction false} ComponentsOfPath(a: string, f: string)
    requires '/' !in a && '/' !in f
    ensures Components("/" + a + "/" + f) == [""] + ([a] + [f])
  {
    assert "/" + a + "/" + f == "" + "/" + (a + "/" + f);
    ComponentsSplit("", a + "/" + f);
    ComponentsSplit(a, f);
    ComponentsPlain(f);
  }

  /** An absolute path in its shortest form, but for the root itself. */
  lemma {:induction false} ComponentsOfRooted(parts: seq<string>, rest: string)
    requires forall part <- parts :: IsPlain(part)
    ensures Components(Rooted(parts) + "/" + rest) == [""] + (parts + Components(rest))
    decreases parts
  {
    if parts == [] {
      ComponentsSplit("", rest);
      assert Rooted([]) + "/" + rest == "" + "/" + rest && [] + Components(rest) == Components(rest);
    } else {
      var more := Rooted(parts[1..]) + "/" + rest;
      assert parts[0] in parts && forall part <- parts[1..] :: part in parts;
      ComponentsOfRooted(parts[1..], rest);
      assert more[0] == '/';
      OneMoreComponent(parts[0], more, parts[1..] + Components(rest));
      FirstPart(parts, rest, Components(rest));
    }
  }

  lemma {:induction false} FirstPart(parts: seq<string>, rest: string, more: seq<string>)
    requires parts != []
    ensures Rooted(parts) + "/" + rest == "/" + parts[0] + (Rooted(parts[1..]) + "/" + rest)
    ensures [parts[0]] + (parts[1..] + more) == parts + more
  {
  }

  lemma {:induction false} OneMoreComponent(part: string, more: string, rest: seq<string>)
    requires '/' !in part && more != "" && more[0] == '/' && Components(more) == [""] + rest
    ensures Components("/" + part + more) == [""] + ([part] + rest)
  {
    var after := more[1..];
    assert more == "" + "/" + after;
    ComponentsSplit("", after);
    assert Components(after) == Components(more)[1..] == rest;
    ComponentsSplit(part, after);
    ComponentsSplit("", part + "/" + after);
    assert "/" + part + more == "" + "/" + (part + "/" + after);
  }

  lemma {:induction false} ResolvesPlain(done: seq<string>, parts: seq<string>, more: seq<string>)
    requires forall part <- parts :: IsPlain(part)
    ensures Resolve(done, parts + more) == Resolve(done + parts, more)
    decreases parts
  {
    if parts == [] {
      assert parts + more == more && done + parts == done;
    } else {
      assert parts[0] in parts && (parts + more)[1..] == parts[1..] + more;
      ResolvesPlain(done + [parts[0]], parts[1..], more);
      assert done + [parts[0]] + parts[1..] == done + parts;
    }
  }

  /** Joining a file name to a directory, to the directory itself and to its parent; the root is its own parent. */
  lemma {:induction false} JoinResolves(parts: seq<string>, f: string)
    requires parts != [] && (forall part <- parts :: IsPlain(part)) && IsPlain(f)
    ensures Join(Rooted(parts), f) == Rooted(parts) + "/" + f
    ensures Join(Rooted(parts), "./" + f) == Rooted(parts) + "/" + f
    ensures Join(Rooted(parts), "../" + f) == Rooted(parts[..|parts| - 1]) + "/" + f
    ensures Join("/", "../" + f) == "/" + f
  {
    FileComponents(f);
    ResolvesSteps(parts, f);
    JoinWith(parts, f, [f]);
    JoinWith(parts, "./" + f, [".", f]);
    RootedAppend(parts, f);
    JoinParent(parts, f);
    FromRoot(f);
  }

  lemma {:induction false} FileComponents(f: string)
    requires IsPlain(f)
    ensures Components(f) == [f] && Components("./" + f) == [".", f] && Components("../" + f) == ["..", f]
  {
    ComponentsPlain(f);
    ComponentsSplit(".", f);
    ComponentsSplit("..", f);
    assert "." + "/" + f == "./" + f && ".." + "/" + f == "../" + f;
  }

  lemma {:induction false} JoinParent(parts: seq<string>, f: string)
    requires parts != [] && (forall part <- parts :: IsPlain(part)) && IsPlain(f)
    ensures Join(Rooted(parts), "../" + f) == Rooted(parts[..|parts| - 1]) + "/" + f
  {
    FileComponents(f);
    ResolvesSteps(parts, f);
    JoinWith(parts, "../" + f, ["..", f]);
    RootedAppend(parts[..|parts| - 1], f);
  }

  lemma {:induction false} JoinWith(parts: seq<string>, path: string, more: seq<string>)
    requires parts != [] && (forall part <- parts :: IsPlain(part)) && Components(path) == more
    ensures IsAbs(Rooted(parts))
    ensures var resolved := Resolve(parts, more);
      Join(Rooted(parts), path) == if resolved == [] then "/" else Rooted(resolved)
  {
    ComponentsOfRooted(parts, path);
    assert ([""] + (parts + more))[1..] == parts + more;
    ResolvesPlain([], parts, more);
    assert [] + parts == parts;
  }

  lemma {:induction false} ResolvesSteps(done: seq<string>, f: string)
    requires IsPlain(f)
    ensures Resolve(done, [f]) == Resolve(done, [".", f]) == done + [f]
    ensures Resolve(done, ["..", f]) == (if done == [] then [] else done[..|done| - 1]) + [f]
  {
    assert [f][1..] == [] && [".", f][1..] == [f] && ["..", f][1..] == [f];
    var up := if done == [] then [] else done[..|done| - 1];
    assert Resolve(up, [f]) == Resolve(up + [f], []) == up + [f];
    assert Resolve(done, [f]) == Resolve(done + [f], []) == done + [f];
  }

  lemma {:induction false} RootedAppend(parts: seq<string>, f: string)
    ensures Rooted(parts + [f]) == Rooted(parts) + "/" + f
    decreases parts
  {
    if parts == [] {
      assert [] + [f] == [f] && [f][1..] == [] && Rooted([f]) == "/" + f + "";
    } else {
      assert (parts + [f])[1..] == parts[1..] + [f];
      RootedAppend(parts[1..], f);
      assert "/" + parts[0] + (Rooted(parts[1..]) + "/" + f) == "/" + parts[0] + Rooted(parts[1..]) + "/" + f;
    }
  }

  lemma {:induction false} FromRoot(f: string)
    requires IsPlain(f)
    ensures Join("/", "../" + f) == "/" + f
  {
    ComponentsPlain(f);
    ComponentsSplit("..", f);
    assert ".." + "/" + f == "../" + f;
    ComponentsOfRooted([], "../" + f);
    assert Rooted([]) + "/" + ("../" + f) == "/" + ("../" + f);
    ComponentsSplit("", "/" + ("../" + f));
    assert "" + "/" + ("/" + ("../" + f)) == "/" + "/" + ("../" + f);
    FromRootParts(f, Components("../" + f));
  }

  lemma {:induction false} FromRootParts(f: string, more: seq<string>)
    requires IsPlain(f) && more == ["..", f] && Components("/" + "/" + ("../" + f)) == [""] + ([""] + ([] + more))
    ensures Join("/", "../" + f) == "/" + f
  {
    ResolvesSteps([], f);
    assert [] + more == more && ([""] + more)[1..] == more && ([""] + ([""] + more))[1..] == [""] + more;
    assert Resolve([], [""] + ([""] + more)) == Resolve([], more) == [] + [f] == [f];
    assert [f][1..] == [] && Rooted([f]) == "/" + f + "";
  }

  lemma {:induction false} RootedTwo(a: string, f: string)
    ensures Rooted([a, f]) == "/" + a + "/" + f
  {
    assert [a, f][1..] == [f] && [f][1..] == [];
    assert Rooted([f]) == "/" + f + Rooted([]) == "/" + f;
    assert Rooted([a, f]) == "/" + a + Rooted([f]);
  }

  lemma {:induction false} ResolveTwo(a: string, f: string)
    requires a != "" && a != "." && a != ".." && f != "" && f != "." && f != ".."
    ensures Resolve([], [""] + ([a] + [f])) == [a, f]
  {
    var parts := [""] + ([a] + [f]);
    assert parts[1..] == [a] + [f] && ([a] + [f])[1..] == [f] && [f][1..] == [];
    assert Resolve([a] + [f], []) == [a, f];
    assert [] + [a] == [a];
    assert Resolve([a], [f]) == Resolve([a] + [f], []);
    assert Resolve([], [a] + [f]) == Resolve([a], [f]);
  }

  lemma ComponentsPlain(s: string)
    requires '/' !in s
    ensures Components(s) == [s]
  {
    if s != "" {
      ComponentsPlain(s[1..]);
      assert s == [s[0]] + s[1..];
    }
  }

  lemma ComponentsSplit(a: string, b: string)
    requires '/' !in a
    ensures Components(a + "/" + b) == [a] + Components(b)
  {
    if a != "" {
      assert (a + "/" + b)[1..] == a[1..] + "/" + b;
      ComponentsSplit(a[1..], b);
      assert a == [a[0]] + a[1..];
    } else {
      assert ("" + "/" + b)[1..] == b;
    }
  }

  /** An ordinary old key. */
  lemma {:induction false} OldKeyExample(dir: string, branch: string, name: string)
    requires dir != "" && dir[0] != '.' && '/' !in dir && name != "" && name[0] != '.' && '/' !in name
    requires branch != "" && ':' !in branch && ':' !in name
    ensures MigrateKey("/" + dir + ":" + branch + ":" + (name + ".yml"))
         == branch + ":" + ("/" + dir + "/" + (name + ".yml"))
  {
    var f := name + ".yml";
    YAMLNames(f, name);
    assert f[0] == name[0];
    MigrateOld("/" + dir, branch, f);
    JoinPlain(dir, f);
  }

  /** An old key whose branch and config hold no colon migrates to a key that parses back to that branch
      and to the config made absolute. The working directory may hold colons. */
  lemma {:induction false} OldKeyMigratesToItsParts(cwd: string, branch: string, configFile: string)
    requires IsAbs(cwd) && IsYAML(configFile)
    requires branch != "" && ':' !in branch && ':' !in configFile
    ensures ParseSessionKey(MigrateKey(cwd + ":" + branch + ":" + configFile))
         == (branch, if IsAbs(configFile) then configFile else Join(cwd, configFile))
  {
    MigrateOld(cwd, branch, configFile);
    ParseUndoesSessionKey(branch, if IsAbs(configFile) then configFile else Join(cwd, configFile));
  }
}
