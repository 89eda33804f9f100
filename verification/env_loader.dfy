/**
 * The environment loader: finds the first existing `.env` among three nested
 * project directories (or, failing that, the first `.env` above the loader's
 * own directory), merges it into the process environment without
 * overriding, and offers a checked accessor over the result.
 */
module EnvLoader {
  import opened Outcomes
  import opened Paths

  /** The process environment, or the parsed contents of one `.env` file. */
  type Env = map<string, string>

  /** The files that exist, each with its contents already parsed into a map. */
  datatype FileSystem = FileSystem(files: map<Path, Env>) {
    predicate Exists(p: Path) { p in files }
  }

  /** Where the merged values came from. */
  datatype Origin =
    | Candidate(path: Path)
      /** No candidate existed; `found` is the file the fallback search found, if any. */
    | Fallback(found: Option<Path>)

  /**
   * What one call of the loader leaves behind: the environment, where its
   * new values came from and the parsed file that was merged (empty when
   * the fallback found nothing).
   */
  datatype Resolution = Resolution(env: Env, origin: Origin, supplied: Env) {
    /** The flag `load_environment` returns. */
    predicate Loaded() { origin.Candidate? }
  }

  /**
   * The three candidate files, nearest first: the project directory is three
   * levels above the loader's own file, then its parent, then its grandparent.
   */
  function Candidates(loaderFile: Path): (cs: seq<Path>)
    ensures |cs| == 3
    ensures forall i :: 0 <= i < 3 ==> cs[i].Child? && cs[i].name == EnvFileName
  {
    var currentDir := Parent(Parent(Parent(loaderFile)));
    var parentDir := Parent(currentDir);
    var rootDir := Parent(parentDir);
    [Join(currentDir, EnvFileName), Join(parentDir, EnvFileName), Join(rootDir, EnvFileName)]
  }

  /**
   * Candidate `i` sits `3 + i` levels above the loader's file, so each
   * candidate's directory encloses the directories of those before it.
   */
  lemma {:induction false} CandidatesNearestFirst(loaderFile: Path)
    ensures Parent(Candidates(loaderFile)[0]) == Ancestor(loaderFile, 3)
    ensures Parent(Candidates(loaderFile)[1]) == Ancestor(loaderFile, 4)
    ensures Parent(Candidates(loaderFile)[2]) == Ancestor(loaderFile, 5)
    ensures Encloses(Ancestor(loaderFile, 5), Ancestor(loaderFile, 4))
    ensures Encloses(Ancestor(loaderFile, 4), Ancestor(loaderFile, 3))
  {
    assert Ancestor(loaderFile, 3) == Parent(Parent(Parent(loaderFile))) by {
      assert Ancestor(loaderFile, 1) == Parent(loaderFile);
      assert Ancestor(loaderFile, 2) == Parent(Parent(loaderFile));
    }
  }

  /** The index of the first candidate that exists, scanning in order. */
  function FirstExisting(cs: seq<Path>, fs: FileSystem): (r: Option<nat>)
    ensures r.Some? ==> r.value < |cs| && fs.Exists(cs[r.value])
    ensures r.Some? ==> forall j :: 0 <= j < r.value ==> !fs.Exists(cs[j])
    ensures r.None? <==> forall j :: 0 <= j < |cs| ==> !fs.Exists(cs[j])
  {
    if |cs| == 0 then None
    else if fs.Exists(cs[0]) then Some(0)
    else match FirstExisting(cs[1..], fs)
      case None => None
      case Some(i) => Some(i + 1)
  }

  /**
   * `load_dotenv(..., override=False)`: every key of the file is added unless
   * the environment already holds it.
   */
  function MergeNoOverride(env: Env, file: Env): (r: Env)
    ensures r.Keys == env.Keys + file.Keys
    ensures forall k :: k in env ==> r[k] == env[k]
    ensures forall k :: k in file && k !in env ==> r[k] == file[k]
  {
    map k | k in env.Keys + file.Keys :: if k in env then env[k] else file[k]
  }

  /** Merging the same file a second time changes nothing. */
  lemma MergeIdempotent(env: Env, file: Env)
    ensures MergeNoOverride(MergeNoOverride(env, file), file) == MergeNoOverride(env, file)
  {
    var once := MergeNoOverride(env, file);
    var twice := MergeNoOverride(once, file);
    assert twice.Keys == once.Keys;
    forall k | k in twice ensures twice[k] == once[k] {
    }
  }

  /**
   * The search an argument-less `load_dotenv()` performs (python-dotenv's
   * `find_dotenv`): starting in `dir`, it walks up to the root and returns
   * the first `.env` file it meets.
   */
  function FindUpward(dir: Path, fs: FileSystem): (r: Option<Path>)
    ensures r.Some? ==> r.value.Child? && r.value.name == EnvFileName && fs.Exists(r.value)
    ensures r.Some? ==> Encloses(r.value.dir, dir)
    ensures r.Some? ==> forall d :: Encloses(d, dir) && Depth(d) > Depth(r.value.dir) ==> !fs.Exists(Join(d, EnvFileName))
    ensures r.None? <==> forall d :: Encloses(d, dir) ==> !fs.Exists(Join(d, EnvFileName))
    decreases dir
  {
    if fs.Exists(Join(dir, EnvFileName)) then
      EnclosersNoDeeper(dir);
      Some(Join(dir, EnvFileName))
    else
      match dir
      case Anchor => None
      case Child(parent, _) => FindUpward(parent, fs)
  }

  /**
   * `load_environment` as a function of the loader's location, the existing
   * files and the environment before the call. The argument-less fallback
   * call sits in the loader module, so its upward search starts in the
   * loader's own directory.
   */
  function Resolve(loaderFile: Path, fs: FileSystem, env: Env): (r: Resolution)
    ensures r.Loaded() <==> exists i :: 0 <= i < 3 && fs.Exists(Candidates(loaderFile)[i])
    ensures r.origin.Candidate? ==>
              exists i :: 0 <= i < 3 && r.origin.path == Candidates(loaderFile)[i]
                && fs.Exists(r.origin.path)
                && forall j :: 0 <= j < i ==> !fs.Exists(Candidates(loaderFile)[j])
    ensures r.origin.Candidate? ==> r.supplied == fs.files[r.origin.path]
    ensures r.origin.Fallback? ==> r.origin.found == FindUpward(Parent(loaderFile), fs)
    ensures r.origin.Fallback? && r.origin.found.Some? ==> r.supplied == fs.files[r.origin.found.value]
    ensures r.origin.Fallback? && r.origin.found.None? ==> r.supplied == map[]
    ensures r.env.Keys == env.Keys + r.supplied.Keys
    ensures forall k :: k in env ==> r.env[k] == env[k]
    ensures forall k :: k in r.supplied && k !in env ==> r.env[k] == r.supplied[k]
  {
    var cs := Candidates(loaderFile);
    match FirstExisting(cs, fs)
    case Some(i) =>
      var file := fs.files[cs[i]];
      Resolution(MergeNoOverride(env, file), Candidate(cs[i]), file)
    case None =>
      var found := FindUpward(Parent(loaderFile), fs);
      var file := if found.Some? then fs.files[found.value] else map[];
      Resolution(MergeNoOverride(env, file), Fallback(found), file)
  }

  /**
   * Farther candidates never contribute: once candidate `i` is chosen, any
   * other filesystem that agrees on which of the first `i + 1` candidates
   * exist and on the chosen file's contents gives the same result, whatever
   * lies beyond.
   */
  lemma {:induction false} LaterCandidatesIgnored(loaderFile: Path, fs1: FileSystem, fs2: FileSystem, env: Env, i: nat)
    requires i < 3
    requires Resolve(loaderFile, fs1, env).origin == Candidate(Candidates(loaderFile)[i])
    requires forall j :: 0 <= j <= i ==> (fs1.Exists(Candidates(loaderFile)[j]) <==> fs2.Exists(Candidates(loaderFile)[j]))
    requires fs2.Exists(Candidates(loaderFile)[i]) ==>
               fs2.files[Candidates(loaderFile)[i]] == fs1.files[Candidates(loaderFile)[i]]
    ensures Resolve(loaderFile, fs2, env) == Resolve(loaderFile, fs1, env)
  {
    var cs := Candidates(loaderFile);
    var first := FirstExisting(cs, fs1).value;
    assert first <= i;
    assert FirstExisting(cs, fs2) == Some(first);
  }

  /**
   * When no candidate exists, the fallback's walk passes the three candidate
   * directories without finding anything there: the file it loads lies in
   * the loader's own directory or the one above it, or above the farthest
   * candidate's directory.
   */
  lemma {:induction false} FallbackSkipsCandidates(loaderFile: Path, fs: FileSystem, env: Env)
    requires Resolve(loaderFile, fs, env).origin.Fallback?
    requires Resolve(loaderFile, fs, env).origin.found.Some?
    ensures var p := Resolve(loaderFile, fs, env).origin.found.value;
            && (forall i :: 0 <= i < 3 ==> p != Candidates(loaderFile)[i])
            && (|| p.dir == Ancestor(loaderFile, 1)
                || p.dir == Ancestor(loaderFile, 2)
                || (Encloses(p.dir, Ancestor(loaderFile, 5)) && Depth(p.dir) < Depth(Ancestor(loaderFile, 5))))
  {
    var cs := Candidates(loaderFile);
    var p := FindUpward(Parent(loaderFile), fs).value;
    var d := p.dir;
    assert FirstExisting(cs, fs).None?;
    CandidatesNearestFirst(loaderFile);
    var a1, a2, a3 := Ancestor(loaderFile, 1), Ancestor(loaderFile, 2), Ancestor(loaderFile, 3);
    var a4, a5 := Ancestor(loaderFile, 4), Ancestor(loaderFile, 5);
    assert a1 == Parent(loaderFile) by {
      assert Ancestor(loaderFile, 0) == loaderFile;
    }
    if d != a1 && d != a2 {
      assert d != a3 && d != a4 && d != a5 by {
        assert cs[0] == Join(a3, EnvFileName) && cs[1] == Join(a4, EnvFileName) && cs[2] == Join(a5, EnvFileName);
      }
      assert Encloses(d, a2);
      assert Encloses(d, a3);
      assert Encloses(d, a4);
      assert Encloses(d, a5);
      assert Encloses(d, a5.dir);
      EnclosersNoDeeper(a5.dir);
    }
  }

  /**
   * Loading again over the environment a load produced changes nothing, so the
   * import-time call followed by an explicit call acts as a single call.
   */
  lemma {:induction false} ResolveIdempotent(loaderFile: Path, fs: FileSystem, env: Env)
    ensures Resolve(loaderFile, fs, Resolve(loaderFile, fs, env).env) == Resolve(loaderFile, fs, env)
  {
    var r := Resolve(loaderFile, fs, env);
    assert r.env == MergeNoOverride(env, r.supplied);
    MergeIdempotent(env, r.supplied);
  }

  /**
   * `load_environment` as the source writes it: scan the candidates in order,
   * load the first one that exists and stop, else fall back.
   */
  method LoadEnvironment(loaderFile: Path, fs: FileSystem, env: Env)
    returns (envAfter: Env, loaded: bool)
    ensures envAfter == Resolve(loaderFile, fs, env).env
    ensures loaded == Resolve(loaderFile, fs, env).Loaded()
  {
    var envPaths := Candidates(loaderFile);
    envAfter := env;
    loaded := false;
    var i := 0;
    while i < |envPaths|
      invariant 0 <= i <= |envPaths|
      invariant !loaded && envAfter == env
      invariant forall j :: 0 <= j < i ==> !fs.Exists(envPaths[j])
    {
      if fs.Exists(envPaths[i]) {
        envAfter := MergeNoOverride(env, fs.files[envPaths[i]]);
        loaded := true;
        assert FirstExisting(envPaths, fs) == Some(i);
        break;
      }
      i := i + 1;
    }
    if !loaded {
      assert FirstExisting(envPaths, fs) == None;
      var found := FindUpward(Parent(loaderFile), fs);
      envAfter := MergeNoOverride(env, if found.Some? then fs.files[found.value] else map[]);
    }
  }

  /** Why `get_env_var` raises (a `ValueError` naming the variable). */
  datatype ConfigError = MissingConfig(key: string)

  /**
   * `get_env_var(key, default, required)`: the environment value if the key is
   * set (even to the empty string), else `default`; raises only when
   * `required` is set and both are missing.
   */
  function GetEnvVar(env: Env, key: string, default: Option<string>, required: bool)
    : (r: Result<Option<string>, ConfigError>)
    ensures r.Err? <==> required && key !in env && default.None?
    ensures r.Err? ==> r.error == MissingConfig(key)
    ensures key in env ==> r == Ok(Some(env[key]))
    ensures key !in env && r.Ok? ==> r.value == default
  {
    var value := if key in env then Some(env[key]) else default;
    if required && value.None? then Err(MissingConfig(key)) else Ok(value)
  }

  /**
   * Reading after a load: a value set before the load reads back unchanged,
   * a key only the merged file defines reads the file's value, and a key
   * neither defines reads the default, raising only if it is required and
   * there is no default.
   */
  lemma {:induction false} GetAfterLoad(loaderFile: Path, fs: FileSystem, env: Env,
                                        key: string, default: Option<string>, required: bool)
    ensures var r := Resolve(loaderFile, fs, env);
            var got := GetEnvVar(r.env, key, default, required);
            && (key in env ==> got == Ok(Some(env[key])))
            && (key !in env && key in r.supplied ==> got == Ok(Some(r.supplied[key])))
            && (key !in env && key !in r.supplied ==> (got.Err? <==> required && default.None?))
            && (key !in env && key !in r.supplied && got.Ok? ==> got.value == default)
  {
    var r := Resolve(loaderFile, fs, env);
    assert key !in env && key !in r.supplied ==> key !in r.env;
  }
}
