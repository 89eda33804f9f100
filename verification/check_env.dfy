/**
 * The configuration check script: loads the environment, classifies each
 * registered variable as present or missing, masks secrets for display,
 * lists the probed `.env` locations and derives the exit code.
 */
module CheckEnv {
  import opened Outcomes
  import opened Paths
  import opened EnvLoader
  import opened Masking

  /** One registered variable and whether the check demands it. */
  datatype VarSpec = VarSpec(name: string, required: bool)

  /** The variables the check inspects, in the order it reports them. */
  const Registry: seq<VarSpec> := [
    VarSpec("OPENAI_API_KEY", true),
    VarSpec("SERPER_API_KEY", false),
    VarSpec("QDRANT_URL", false),
    VarSpec("DATABASE_URL", false)
  ]

  /** Only the OpenAI key is required. */
  lemma RegistryRequired()
    ensures |Registry| == 4
    ensures forall i :: 0 <= i < |Registry| ==>
              (Registry[i].required <==> Registry[i].name == "OPENAI_API_KEY")
  {
  }

  /** The two keys of the registry are masked; the two URLs are shown as they are. */
  lemma RegistrySensitivity(i: nat)
    requires i < |Registry|
    ensures IsSensitive(Registry[i].name) <==> i < 2
  {
    var name := Registry[i].name;
    if i == 0 {
      assert name == "OPENAI_API_KEY";
      RegistryKeysSensitive();
    } else if i == 1 {
      assert name == "SERPER_API_KEY";
      RegistryKeysSensitive();
    } else if i == 2 {
      assert name == "QDRANT_URL";
      QdrantUrlPlain();
    } else {
      assert name == "DATABASE_URL";
      DatabaseUrlPlain();
    }
  }

  /** The registry's verdict: every required variable is configured exactly when the OpenAI key is. */
  lemma RegistryVerdict(env: Env)
    ensures RequiredSatisfied(Registry, env) <==> Configured(env, "OPENAI_API_KEY")
  {
    assert Registry[0] == VarSpec("OPENAI_API_KEY", true);
    RegistryRequired();
  }

  /**
   * `os.getenv(name)` is truthy: the unchecked read (no default, not
   * required) yields a value, and that value is not the empty string.
   */
  predicate Configured(env: Env, name: string): (b: bool)
    ensures b <==> var got := GetEnvVar(env, name, None, false);
                   got.Ok? && got.value.Some? && got.value.value != ""
  {
    name in env && env[name] != ""
  }

  /** The four kinds of report row: required and present, optional and present, required and missing (the one fault), optional and missing. */
  datatype Status = RequiredPresent | OptionalPresent | RequiredMissing | OptionalMissing

  /** One report row: the variable, its class and, when configured, its display. */
  datatype Row = Row(name: string, status: Status, display: Option<string>)

  /** Classifies one registered variable against the environment. */
  function ClassifyRow(spec: VarSpec, env: Env): (row: Row)
    ensures row.name == spec.name
    ensures row.status == RequiredPresent <==> spec.required && Configured(env, spec.name)
    ensures row.status == OptionalPresent <==> !spec.required && Configured(env, spec.name)
    ensures row.status == RequiredMissing <==> spec.required && !Configured(env, spec.name)
    ensures row.status == OptionalMissing <==> !spec.required && !Configured(env, spec.name)
    ensures row.display.Some? <==> Configured(env, spec.name)
    ensures row.display.Some? ==> row.display.value == Mask(spec.name, env[spec.name])
  {
    if spec.name in env && env[spec.name] != "" then
      Row(spec.name, if spec.required then RequiredPresent else OptionalPresent,
          Some(Mask(spec.name, env[spec.name])))
    else
      Row(spec.name, if spec.required then RequiredMissing else OptionalMissing, None)
  }

  /** Every required variable of the registry is configured. */
  predicate RequiredSatisfied(registry: seq<VarSpec>, env: Env)
  {
    forall i :: 0 <= i < |registry| && registry[i].required ==> Configured(env, registry[i].name)
  }

  /**
   * The loop over the registry: one row per variable, in order; `all_ok`
   * drops to false on the first required variable that is missing.
   */
  method CheckVariables(registry: seq<VarSpec>, env: Env) returns (rows: seq<Row>, allOk: bool)
    ensures |rows| == |registry|
    ensures forall i :: 0 <= i < |registry| ==> rows[i] == ClassifyRow(registry[i], env)
    ensures allOk <==> RequiredSatisfied(registry, env)
    ensures allOk <==> forall i :: 0 <= i < |rows| ==> rows[i].status != RequiredMissing
  {
    rows := [];
    allOk := true;
    for i := 0 to |registry|
      invariant |rows| == i
      invariant forall j :: 0 <= j < i ==> rows[j] == ClassifyRow(registry[j], env)
      invariant allOk <==> forall j :: 0 <= j < i && registry[j].required ==> Configured(env, registry[j].name)
    {
      var row := ClassifyRow(registry[i], env);
      if row.status == RequiredMissing {
        allOk := false;
      }
      rows := rows + [row];
    }
  }

  /**
   * The loader module the script imports: `<project>/src/utils/env_loader.py`,
   * where `<project>` is the directory above the script's own directory.
   */
  function LoaderFileFor(scriptFile: Path): (loaderFile: Path)
    ensures loaderFile.Child? && loaderFile.name == "env_loader.py"
    ensures Parent(loaderFile).Child? && Parent(loaderFile).name == "utils"
    ensures Ancestor(loaderFile, 2).Child? && Ancestor(loaderFile, 2).name == "src"
    ensures Ancestor(loaderFile, 3) == Ancestor(scriptFile, 2)
  {
    var loaderFile := Join(Join(Join(Parent(Parent(scriptFile)), "src"), "utils"), "env_loader.py");
    AncestorsUpToFive(scriptFile);
    AncestorsUpToFive(loaderFile);
    loaderFile
  }

  /** The `.env` locations the script lists: two, three and four levels up. */
  function ListedLocations(scriptFile: Path): (ls: seq<Path>)
    ensures |ls| == 3
    ensures forall i :: 0 <= i < 3 ==> ls[i] == Join(Ancestor(scriptFile, 2 + i), EnvFileName)
  {
    AncestorsUpToFive(scriptFile);
    [ Join(Parent(Parent(scriptFile)), EnvFileName),
      Join(Parent(Parent(Parent(scriptFile))), EnvFileName),
      Join(Parent(Parent(Parent(Parent(scriptFile)))), EnvFileName) ]
  }

  /** The listing probes exactly the candidates the loader scans, in the same order. */
  lemma {:induction false} ListingProbesLoaderCandidates(scriptFile: Path)
    ensures ListedLocations(scriptFile) == Candidates(LoaderFileFor(scriptFile))
  {
  }

  /** One line of the location listing: a path and whether it exists. */
  datatype Location = Location(path: Path, found: bool)

  /**
   * The diagnostic listing: each probed path, in order, flagged found or
   * not found.
   */
  function Listing(paths: seq<Path>, fs: FileSystem): (ls: seq<Location>)
    ensures |ls| == |paths|
    ensures forall i :: 0 <= i < |paths| ==> ls[i].path == paths[i] && (ls[i].found <==> fs.Exists(paths[i]))
  {
    seq(|paths|, i requires 0 <= i < |paths| => Location(paths[i], fs.Exists(paths[i])))
  }

  /** What the script reports: the variable rows, the location listing and the exit code. */
  datatype EnvReport = EnvReport(rows: seq<Row>, locations: seq<Location>, exitCode: int)

  /**
   * The script's `main`, preceded by the load the loader module performs
   * when it is imported. The exit code depends only on the environment the
   * loads leave behind: it is 0 exactly when the OpenAI key is configured,
   * and the location listing plays no part in it.
   */
  method CheckConfiguration(scriptFile: Path, fs: FileSystem, env: Env)
    returns (report: EnvReport, envAfter: Env)
    ensures envAfter == Resolve(LoaderFileFor(scriptFile), fs, env).env
    ensures report.exitCode == 0 || report.exitCode == 1
    ensures report.exitCode == 0 <==> Configured(envAfter, "OPENAI_API_KEY")
    ensures |report.rows| == |Registry|
    ensures forall i :: 0 <= i < |Registry| ==> report.rows[i] == ClassifyRow(Registry[i], envAfter)
    ensures forall i :: 0 <= i < 2 && Configured(envAfter, Registry[i].name) ==>
              report.rows[i].display == Some(Hide(envAfter[Registry[i].name]))
    ensures forall i :: 2 <= i < |Registry| && Configured(envAfter, Registry[i].name) ==>
              report.rows[i].display == Some(envAfter[Registry[i].name])
    ensures report.locations == Listing(Candidates(LoaderFileFor(scriptFile)), fs)
  {
    var loaderFile := LoaderFileFor(scriptFile);
    var envImported, _ := LoadEnvironment(loaderFile, fs, env);
    var loaded;
    envAfter, loaded := LoadEnvironment(loaderFile, fs, envImported);
    ResolveIdempotent(loaderFile, fs, env);

    var rows, allOk := CheckVariables(Registry, envAfter);
    RegistryVerdict(envAfter);
    forall i | 0 <= i < |Registry| {
      RegistrySensitivity(i);
    }

    var locations := Listing(ListedLocations(scriptFile), fs);
    report := EnvReport(rows, locations, if allOk then 0 else 1);
  }
}
