/**
 * `Config` and `Config::try_from` (src/lib.rs:47-80): six tunables looked up
 * under `preprocessor.build-annotations.<field>`, each defaulted when the key
 * is missing. The host's configuration is modelled as a map from the full
 * dotted key to an already-parsed TOML value; looking a key up with the wrong
 * type fails the whole resolution, as the `?` after each `get` does.
 */
module Settings {
  import opened Wrappers

  /** `usize` on a 64-bit host. */
  const UsizeLimit: int := 0x1_0000_0000_0000_0000

  /** The TOML values a configuration key can hold, as far as the six lookups distinguish them. */
  datatype TomlValue = Integer(i: int) | Str(s: string) | Boolean(b: bool) | Other

  datatype ConfigError = TypeError(key: string)

  datatype Config = Config(
    commitCharacters: nat,
    workspaceDir: string,
    gitDir: string,
    packageName: bool,
    packageVersion: bool,
    gitCommit: bool)

  const Namespace: string := "preprocessor.build-annotations."

  /** The `cfg_key` closure. */
  function CfgKey(field: string): (r: string)
    ensures Namespace <= r && r[|Namespace|..] == field
  {
    Namespace + field
  }

  const CommitCharactersKey: string := CfgKey("commit_characters")
  const WorkspaceDirKey: string := CfgKey("workspace_dir")
  const GitDirKey: string := CfgKey("git_dir")
  const PackageNameKey: string := CfgKey("package_name")
  const PackageVersionKey: string := CfgKey("package_version")
  const GitCommitKey: string := CfgKey("git_commit")

  /** The kind of value a field deserializes from. */
  datatype Kind = UsizeKind | PathKind | BoolKind

  predicate HasKind(v: TomlValue, k: Kind) {
    match k
    case UsizeKind => v.Integer? && 0 <= v.i < UsizeLimit
    case PathKind => v.Str?
    case BoolKind => v.Boolean?
  }

  /** A key is acceptable when it is missing or holds a value of its field's kind. */
  predicate WellShaped(src: map<string, TomlValue>, key: string, k: Kind) {
    key in src ==> HasKind(src[key], k)
  }

  /** The six lookups, in the order `try_from` performs them. */
  const Lookups: seq<(string, Kind)> := [
    (CommitCharactersKey, UsizeKind), (WorkspaceDirKey, PathKind), (GitDirKey, PathKind),
    (PackageNameKey, BoolKind), (PackageVersionKey, BoolKind), (GitCommitKey, BoolKind)]

  /** `ctx.config.get(key)?` for each kind: `Ok(None)` when missing, the value when well-typed, an error naming the key when mistyped. */
  function GetUsize(src: map<string, TomlValue>, key: string): (r: Result<Option<nat>, ConfigError>)
    ensures r.Ok? <==> WellShaped(src, key, UsizeKind)
    ensures r == Ok(None) <==> key !in src
    ensures r.Ok? && r.value.Some? ==> src[key] == Integer(r.value.value)
    ensures r.Err? ==> r.error == TypeError(key)
  {
    if key !in src then Ok(None)
    else if HasKind(src[key], UsizeKind) then Ok(Some(src[key].i))
    else Err(TypeError(key))
  }

  function GetPath(src: map<string, TomlValue>, key: string): (r: Result<Option<string>, ConfigError>)
    ensures r.Ok? <==> WellShaped(src, key, PathKind)
    ensures r == Ok(None) <==> key !in src
    ensures r.Ok? && r.value.Some? ==> src[key] == Str(r.value.value)
    ensures r.Err? ==> r.error == TypeError(key)
  {
    if key !in src then Ok(None)
    else if src[key].Str? then Ok(Some(src[key].s))
    else Err(TypeError(key))
  }

  function GetBool(src: map<string, TomlValue>, key: string): (r: Result<Option<bool>, ConfigError>)
    ensures r.Ok? <==> WellShaped(src, key, BoolKind)
    ensures r == Ok(None) <==> key !in src
    ensures r.Ok? && r.value.Some? ==> src[key] == Boolean(r.value.value)
    ensures r.Err? ==> r.error == TypeError(key)
  {
    if key !in src then Ok(None)
    else if src[key].Boolean? then Ok(Some(src[key].b))
    else Err(TypeError(key))
  }

  /** `Option::unwrap_or`. */
  function GetOr<T>(o: Option<T>, default: T): (r: T)
    ensures o.Some? ==> r == o.value
    ensures o.None? ==> r == default
  {
    if o.Some? then o.value else default
  }

  /** The key of the first lookup in `ls` whose value has the wrong kind, if any. */
  function FirstIllShaped(src: map<string, TomlValue>, ls: seq<(string, Kind)>): (r: Option<string>)
    ensures r.None? <==> forall j :: 0 <= j < |ls| ==> WellShaped(src, ls[j].0, ls[j].1)
    ensures r.Some? ==> exists j :: (0 <= j < |ls| && r.value == ls[j].0 && !WellShaped(src, ls[j].0, ls[j].1))
  {
    if ls == [] then None
    else if !WellShaped(src, ls[0].0, ls[0].1) then Some(ls[0].0)
    else
      var rest := FirstIllShaped(src, ls[1..]);
      assert forall j :: 1 <= j < |ls| ==> ls[j] == ls[1..][j - 1];
      rest
  }

  /** `FirstIllShaped` over the six lookups, unrolled. */
  lemma FirstIllShapedUnrolled(src: map<string, TomlValue>)
    ensures FirstIllShaped(src, Lookups) ==
      if !WellShaped(src, CommitCharactersKey, UsizeKind) then Some(CommitCharactersKey)
      else if !WellShaped(src, WorkspaceDirKey, PathKind) then Some(WorkspaceDirKey)
      else if !WellShaped(src, GitDirKey, PathKind) then Some(GitDirKey)
      else if !WellShaped(src, PackageNameKey, BoolKind) then Some(PackageNameKey)
      else if !WellShaped(src, PackageVersionKey, BoolKind) then Some(PackageVersionKey)
      else if !WellShaped(src, GitCommitKey, BoolKind) then Some(GitCommitKey)
      else None
  {
    var t5 := [(GitCommitKey, BoolKind)];
    var t4 := [(PackageVersionKey, BoolKind)] + t5;
    var t3 := [(PackageNameKey, BoolKind)] + t4;
    var t2 := [(GitDirKey, PathKind)] + t3;
    var t1 := [(WorkspaceDirKey, PathKind)] + t2;
    assert Lookups == [(CommitCharactersKey, UsizeKind)] + t1;
    assert t5[1..] == [];
    assert FirstIllShaped(src, t5) == if !WellShaped(src, GitCommitKey, BoolKind) then Some(GitCommitKey) else None;
    assert t4[1..] == t5;
    assert FirstIllShaped(src, t4) == if !WellShaped(src, PackageVersionKey, BoolKind) then Some(PackageVersionKey) else FirstIllShaped(src, t5);
    assert t3[1..] == t4;
    assert FirstIllShaped(src, t3) == if !WellShaped(src, PackageNameKey, BoolKind) then Some(PackageNameKey) else FirstIllShaped(src, t4);
    assert t2[1..] == t3;
    assert FirstIllShaped(src, t2) == if !WellShaped(src, GitDirKey, PathKind) then Some(GitDirKey) else FirstIllShaped(src, t3);
    assert t1[1..] == t2;
    assert FirstIllShaped(src, t1) == if !WellShaped(src, WorkspaceDirKey, PathKind) then Some(WorkspaceDirKey) else FirstIllShaped(src, t2);
    assert Lookups[1..] == t1;
  }

  /**
   * `Config::try_from`: the first mistyped key, in lookup order, is the error;
   * otherwise each field is the key's value when present and its default when
   * missing.
   */
  function TryFrom(src: map<string, TomlValue>): (r: Result<Config, ConfigError>)
    ensures r.Err? <==> FirstIllShaped(src, Lookups).Some?
    ensures r.Err? ==> r.error == TypeError(FirstIllShaped(src, Lookups).value)
    ensures r.Ok? ==> (CommitCharactersKey in src ==> src[CommitCharactersKey] == Integer(r.value.commitCharacters))
    ensures r.Ok? ==> (CommitCharactersKey !in src ==> r.value.commitCharacters == 10)
    ensures r.Ok? ==> (WorkspaceDirKey in src ==> src[WorkspaceDirKey] == Str(r.value.workspaceDir))
    ensures r.Ok? ==> (WorkspaceDirKey !in src ==> r.value.workspaceDir == "../")
    ensures r.Ok? ==> (GitDirKey in src ==> src[GitDirKey] == Str(r.value.gitDir))
    ensures r.Ok? ==> (GitDirKey !in src ==> r.value.gitDir == "../")
    ensures r.Ok? ==> (PackageNameKey in src ==> src[PackageNameKey] == Boolean(r.value.packageName))
    ensures r.Ok? ==> (PackageNameKey !in src ==> r.value.packageName)
    ensures r.Ok? ==> (PackageVersionKey in src ==> src[PackageVersionKey] == Boolean(r.value.packageVersion))
    ensures r.Ok? ==> (PackageVersionKey !in src ==> r.value.packageVersion)
    ensures r.Ok? ==> (GitCommitKey in src ==> src[GitCommitKey] == Boolean(r.value.gitCommit))
    ensures r.Ok? ==> (GitCommitKey !in src ==> r.value.gitCommit)
  {
    FirstIllShapedUnrolled(src);
    var commitCharacters :- GetUsize(src, CommitCharactersKey);
    var workspaceDir :- GetPath(src, WorkspaceDirKey);
    var gitDir :- GetPath(src, GitDirKey);
    var packageName :- GetBool(src, PackageNameKey);
    var packageVersion :- GetBool(src, PackageVersionKey);
    var gitCommit :- GetBool(src, GitCommitKey);
    Ok(Config(
      GetOr(commitCharacters, 10),
      GetOr(workspaceDir, "../"),
      GetOr(gitDir, "../"),
      GetOr(packageName, true),
      GetOr(packageVersion, true),
      GetOr(gitCommit, true)))
  }

  /** With none of the keys set, every field takes its documented default. */
  lemma DefaultsWhenUnset(src: map<string, TomlValue>)
    requires forall j :: 0 <= j < |Lookups| ==> Lookups[j].0 !in src
    ensures TryFrom(src) == Ok(Config(10, "../", "../", true, true, true))
  {
    assert Lookups[0].0 !in src && Lookups[1].0 !in src && Lookups[2].0 !in src;
    assert Lookups[3].0 !in src && Lookups[4].0 !in src && Lookups[5].0 !in src;
  }
}
