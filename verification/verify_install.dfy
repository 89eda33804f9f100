/**
 * The installation check script: a fixed, ordered registry of import probes,
 * each recorded as OK or FAIL, a success count, and the exit code.
 */
module VerifyInstall {
  import opened Outcomes

  /** What a successful probe reports: the module's `__version__`, or the word `installed`. */
  datatype Detail = ModuleVersion | InstalledMarker

  /** One registry entry: the package name shown and what it reports on success. */
  datatype Probe = Probe(package: string, detail: Detail)

  /** The probes, in the order the script runs and reports them. */
  const Registry: seq<Probe> := [
    Probe("crewai", ModuleVersion),
    Probe("crewai-tools", InstalledMarker),
    Probe("tenacity", InstalledMarker),
    Probe("aiolimiter", InstalledMarker),
    Probe("httpx", ModuleVersion),
    Probe("sentence-transformers", InstalledMarker),
    Probe("qdrant-client", InstalledMarker),
    Probe("structlog", InstalledMarker),
    Probe("opentelemetry", InstalledMarker),
    Probe("prometheus-client", InstalledMarker),
    Probe("pydantic", ModuleVersion),
    Probe("python-dotenv", InstalledMarker),
    Probe("pytest", ModuleVersion),
    Probe("respx", InstalledMarker),
    Probe("rich", InstalledMarker)
  ]

  /** What running one probe's import statement did. */
  datatype ImportOutcome =
    | Imported(version: Option<string>)  // the import worked; the module's `__version__`, if it has one
    | ImportFailed(message: string)      // an `ImportError`, with its message
    | Raised(message: string)            // any other `Exception`, which the probe does not catch

  /** The status column of a result. */
  datatype Status = OK | FAIL

  /** One line of the report: status, package name and detail. */
  datatype ProbeResult = ProbeResult(status: Status, package: string, info: string)

  /** Why a probe let an exception escape. */
  datatype AbortReason = UncaughtError(message: string) | NoVersionAttribute

  /** An exception that escaped a probe, ending the whole check. */
  datatype Abort = Abort(package: string, reason: AbortReason)

  const ErrorPrefix: string := "Error: "
  const InstalledText: string := "installed"

  /**
   * The probe lets an exception escape: a non-import error, or a module that
   * imported but lacks the `__version__` the probe reads.
   */
  predicate Aborts(p: Probe, o: ImportOutcome)
  {
    o.Raised? || (o.Imported? && p.detail == ModuleVersion && o.version.None?)
  }

  /** One `try: import ... except ImportError` block. */
  function RunProbe(p: Probe, o: ImportOutcome): (r: Result<ProbeResult, Abort>)
    ensures r.Err? <==> Aborts(p, o)
    ensures r.Err? ==> r.error.package == p.package
    ensures r.Ok? ==> r.value.package == p.package
    ensures r.Ok? ==> (r.value.status == OK <==> o.Imported?)
    ensures r.Ok? && r.value.status == FAIL ==>
              ErrorPrefix <= r.value.info && r.value.info[|ErrorPrefix|..] == o.message
    ensures r.Ok? && r.value.status == OK && p.detail == InstalledMarker ==> r.value.info == InstalledText
    ensures r.Ok? && r.value.status == OK && p.detail == ModuleVersion ==> r.value.info == o.version.value
  {
    match o
    case Imported(version) =>
      if p.detail == InstalledMarker then Ok(ProbeResult(OK, p.package, InstalledText))
      else if version.Some? then Ok(ProbeResult(OK, p.package, version.value))
      else Err(Abort(p.package, NoVersionAttribute))
    case ImportFailed(message) => Ok(ProbeResult(FAIL, p.package, ErrorPrefix + message))
    case Raised(message) => Err(Abort(p.package, UncaughtError(message)))
  }

  /**
   * Runs the probes in order, collecting one result each; the first exception
   * that escapes a probe ends the run and no later probe runs.
   */
  function RunProbes(probes: seq<Probe>, outcomes: seq<ImportOutcome>): (r: Result<seq<ProbeResult>, Abort>)
    requires |outcomes| == |probes|
    ensures r.Ok? <==> forall i :: 0 <= i < |probes| ==> !Aborts(probes[i], outcomes[i])
    ensures r.Ok? ==> |r.value| == |probes|
    ensures r.Ok? ==> forall i :: 0 <= i < |probes| ==> RunProbe(probes[i], outcomes[i]) == Ok(r.value[i])
    ensures r.Err? ==> exists k :: 0 <= k < |probes| && RunProbe(probes[k], outcomes[k]) == Err(r.error)
                          && forall j :: 0 <= j < k ==> !Aborts(probes[j], outcomes[j])
    decreases |probes|
  {
    if |probes| == 0 then Ok([])
    else match RunProbe(probes[0], outcomes[0])
      case Err(abort) => Err(abort)
      case Ok(first) =>
        match RunProbes(probes[1..], outcomes[1..])
        case Err(abort) =>
          assert forall j :: 1 <= j < |probes| ==> probes[1..][j - 1] == probes[j] && outcomes[1..][j - 1] == outcomes[j];
          Err(abort)
        case Ok(rest) => Ok([first] + rest)
  }

  /**
   * `check_imports`: with one outcome per registry entry, one result per
   * entry in registry order, each being exactly what that entry's probe
   * reports: OK with the version or `installed`, or FAIL with the error.
   */
  function CheckImports(outcomes: seq<ImportOutcome>): (r: Result<seq<ProbeResult>, Abort>)
    requires |outcomes| == |Registry|
    ensures r.Ok? ==> |r.value| == |Registry| == 15
    ensures r.Ok? ==> forall i :: 0 <= i < |Registry| ==> r.value[i].package == Registry[i].package
    ensures r.Ok? ==> forall i :: 0 <= i < |Registry| ==> (r.value[i].status == OK <==> outcomes[i].Imported?)
    ensures r.Ok? ==> forall i :: 0 <= i < |Registry| ==> RunProbe(Registry[i], outcomes[i]) == Ok(r.value[i])
  {
    RunProbes(Registry, outcomes)
  }

  /** The number of OK results. */
  function CountOk(results: seq<ProbeResult>): (n: nat)
    ensures n <= |results|
    ensures n == |results| <==> forall i :: 0 <= i < |results| ==> results[i].status == OK
    decreases |results|
  {
    if |results| == 0 then 0
    else (if results[0].status == OK then 1 else 0) + CountOk(results[1..])
  }

  /** Counting a result appended at the end. */
  lemma {:induction false} CountOkAppend(results: seq<ProbeResult>, last: ProbeResult)
    ensures CountOk(results + [last]) == CountOk(results) + (if last.status == OK then 1 else 0)
    decreases |results|
  {
    if |results| > 0 {
      assert (results + [last])[1..] == results[1..] + [last];
      CountOkAppend(results[1..], last);
    }
  }

  /** Exactly one failed result leaves the count one short of the total. */
  lemma {:induction false} CountOkOneFailure(results: seq<ProbeResult>, k: nat)
    requires k < |results| && results[k].status == FAIL
    requires forall i :: 0 <= i < |results| && i != k ==> results[i].status == OK
    ensures CountOk(results) == |results| - 1
    decreases |results|
  {
    if k > 0 {
      CountOkOneFailure(results[1..], k - 1);
    } else {
      assert forall i :: 0 <= i < |results[1..]| ==> results[1..][i].status == OK by {
        forall i | 0 <= i < |results[1..]| ensures results[1..][i].status == OK {
          assert results[1..][i] == results[i + 1];
        }
      }
    }
  }

  /** The success count of `main`: one pass over the results, counting those whose status is OK. */
  method CountSuccesses(results: seq<ProbeResult>) returns (success: nat)
    ensures success == CountOk(results)
    ensures success <= |results|
  {
    success := 0;
    for i := 0 to |results|
      invariant success == CountOk(results[..i])
    {
      assert results[..i + 1] == results[..i] + [results[i]];
      CountOkAppend(results[..i], results[i]);
      if results[i].status == OK {
        success := success + 1;
      }
    }
    assert results[..|results|] == results;
  }

  /** What `main` reports when it runs to the end. */
  datatype InstallReport = InstallReport(results: seq<ProbeResult>, success: nat, total: nat,
                                         loaderCheck: Status, exitCode: int)

  /** A run of the script: it completes, or an escaped exception ends it. */
  datatype InstallRun = Completed(report: InstallReport) | Crashed(abort: Abort)

  /**
   * The script's `main` over a probe registry: run the probes, count the
   * successes, run the loader check (whose outcome is only displayed) and
   * derive the exit code, 0 exactly when every probe succeeded.
   */
  function RunReport(probes: seq<Probe>, outcomes: seq<ImportOutcome>, loaderCheck: Status): (run: InstallRun)
    requires |outcomes| == |probes|
    ensures run.Crashed? <==> exists i :: 0 <= i < |probes| && Aborts(probes[i], outcomes[i])
    ensures run.Completed? ==> RunProbes(probes, outcomes) == Ok(run.report.results)
    ensures run.Completed? ==> run.report.success == CountOk(run.report.results)
    ensures run.Completed? ==> run.report.total == |run.report.results| == |probes|
    ensures run.Completed? ==> run.report.success <= run.report.total
    ensures run.Completed? ==> (run.report.exitCode == 0 || run.report.exitCode == 1)
    ensures run.Completed? ==> (run.report.exitCode == 0 <==> run.report.success == run.report.total)
    ensures run.Completed? ==> (run.report.exitCode == 0 <==> forall i :: 0 <= i < |probes| ==> outcomes[i].Imported?)
  {
    match RunProbes(probes, outcomes)
    case Err(abort) => Crashed(abort)
    case Ok(results) =>
      var success := CountOk(results);
      var total := |results|;
      Completed(InstallReport(results, success, total, loaderCheck, if success == total then 0 else 1))
  }

  /** The script's `main` over the fixed registry: a completed run reports 15 probes. */
  function VerifyInstallation(outcomes: seq<ImportOutcome>, loaderCheck: Status): (run: InstallRun)
    requires |outcomes| == |Registry|
    ensures run.Completed? ==> run.report.total == 15
    ensures run.Completed? <==> CheckImports(outcomes).Ok?
    ensures run.Completed? ==> CheckImports(outcomes) == Ok(run.report.results)
  {
    RunReport(Registry, outcomes, loaderCheck)
  }

  /**
   * The process exit status: `sys.exit` passes on what `main` returns, and an
   * `Exception` escaping `main` ends Python with status 1, so a crash never
   * reports success.
   */
  function ExitStatus(run: InstallRun): (status: int)
    ensures run.Completed? ==> status == run.report.exitCode
    ensures run.Crashed? ==> status == 1
    ensures status == 0 ==> run.Completed?
  {
    match run
    case Completed(report) => report.exitCode
    case Crashed(_) => 1
  }

  /**
   * The script exits with 0 exactly when every import worked and every
   * version it reads exists; the loader check never changes that.
   */
  lemma ExitZeroIffAllImported(probes: seq<Probe>, outcomes: seq<ImportOutcome>, loaderCheck: Status)
    requires |outcomes| == |probes|
    ensures ExitStatus(RunReport(probes, outcomes, loaderCheck)) == 0 <==>
              forall i :: 0 <= i < |probes| ==>
                outcomes[i].Imported? && (probes[i].detail == ModuleVersion ==> outcomes[i].version.Some?)
  {
    var run := RunReport(probes, outcomes, loaderCheck);
    if run.Crashed? {
      var i :| 0 <= i < |probes| && Aborts(probes[i], outcomes[i]);
    }
  }

  /**
   * Probe isolation: changing one probe's outcome, without letting an
   * exception escape, changes no other probe's result.
   */
  lemma ProbeIsolation(probes: seq<Probe>, outcomes1: seq<ImportOutcome>, outcomes2: seq<ImportOutcome>, k: nat)
    requires |outcomes1| == |outcomes2| == |probes|
    requires k < |probes|
    requires forall i :: 0 <= i < |probes| && i != k ==> outcomes1[i] == outcomes2[i]
    requires RunProbes(probes, outcomes1).Ok? && RunProbes(probes, outcomes2).Ok?
    ensures forall i :: 0 <= i < |probes| && i != k ==>
              RunProbes(probes, outcomes1).value[i] == RunProbes(probes, outcomes2).value[i]
  {
    var r1, r2 := RunProbes(probes, outcomes1).value, RunProbes(probes, outcomes2).value;
    forall i | 0 <= i < |probes| && i != k
      ensures r1[i] == r2[i]
    {
      assert RunProbe(probes[i], outcomes1[i]) == Ok(r1[i]);
      assert RunProbe(probes[i], outcomes2[i]) == Ok(r2[i]);
    }
  }

  /**
   * With one import failing and every other succeeding, the run completes
   * with one success short of the total and exit code 1; the failing entry
   * carries `Error: ` and the import error's message.
   */
  lemma {:induction false} SingleFailure(probes: seq<Probe>, outcomes: seq<ImportOutcome>, k: nat, loaderCheck: Status)
    requires |outcomes| == |probes|
    requires k < |probes| && outcomes[k].ImportFailed?
    requires forall i :: 0 <= i < |probes| && i != k ==>
               outcomes[i].Imported? && (probes[i].detail == ModuleVersion ==> outcomes[i].version.Some?)
    ensures RunReport(probes, outcomes, loaderCheck).Completed?
    ensures var report := RunReport(probes, outcomes, loaderCheck).report;
            && report.success == report.total - 1
            && report.exitCode == 1
            && report.results[k] == ProbeResult(FAIL, probes[k].package, ErrorPrefix + outcomes[k].message)
            && forall i :: 0 <= i < |probes| && i != k ==> report.results[i].status == OK
  {
    var results := RunProbes(probes, outcomes).value;
    assert RunProbe(probes[k], outcomes[k]) == Ok(results[k]);
    forall i | 0 <= i < |probes| && i != k
      ensures results[i].status == OK
    {
      assert RunProbe(probes[i], outcomes[i]) == Ok(results[i]);
    }
    CountOkOneFailure(results, k);
  }
}
