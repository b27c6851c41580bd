/**
 * `deploy_file`, `deploy_all` and the exit-code mapping of `main`.
 *
 * The file system is a map from plan-relative path to file contents, the
 * operator's answer to the production prompt is a string parameter, and the
 * Snowflake CLI is a collaborator that, given the step index and the SQL text,
 * answers with an `ExecOutcome`.
 */
module Deployment {
  import opened Results
  import opened Environments
  import opened Substitution

  /** One entry of the deployment plan. */
  datatype Step = Step(path: string, description: string)

  /** `DEPLOYMENT_ORDER`: the fixed plan, layer by layer. */
  const DeploymentOrder: seq<Step> := [
    Step("sql/00_database_setup/01_create_roles.sql", "Creating roles"),
    Step("sql/00_database_setup/02_create_database.sql", "Creating database"),
    Step("sql/00_database_setup/03_create_schemas.sql", "Creating schemas"),
    Step("sql/00_database_setup/04_create_warehouse.sql", "Creating warehouse"),
    Step("sql/01_ingestion_setup/00_create_storage_integration.sql", "Setting up storage integration"),
    Step("sql/01_ingestion_setup/01_create_file_format.sql", "Creating file format"),
    Step("sql/01_ingestion_setup/02_create_stage.sql", "Creating stage"),
    Step("sql/02_bronze/00_create_bronze_tables.sql", "Creating bronze tables"),
    Step("sql/02_bronze/01_create_bronze_streams.sql", "Creating bronze streams"),
    Step("sql/02_bronze/02_procedure_load_bronze_data.sql", "Creating bronze procedures"),
    Step("sql/02_bronze/03_create_daily_load_task.sql", "Creating bronze tasks"),
    Step("sql/03_silver/00_create_silver_tables.sql", "Creating silver tables"),
    Step("sql/03_silver/01_create_silver_streams.sql", "Creating silver streams"),
    Step("sql/03_silver/02_procedure_bronze_to_silver.sql", "Creating silver procedures"),
    Step("sql/03_silver/03_task_bronze_to_silver.sql", "Creating silver tasks"),
    Step("sql/04_gold/create_metrics_tables.sql", "Creating gold tables"),
    Step("sql/04_gold/01_procedure_silver_to_gold.sql", "Creating gold procedures"),
    Step("sql/04_gold/02_task_gold_metrics.sql", "Creating gold tasks"),
    Step("sql/06_governance/masking_policies.sql", "Creating masking policies"),
    Step("sql/06_governance/row_access_policies.sql", "Creating RLS policies")
  ]

  /**
   * Plan-relative path to contents; a path is present exactly when the file exists.
   * The contents are the text `f.read()` returns in text mode: decoded, with `\r\n`
   * and `\r` already translated to `\n`, not the raw bytes of the file.
   */
  type FileSystem = map<string, string>

  /** What `subprocess.run(['snow', 'sql', '-q', sql], check=True, timeout=300)` does. */
  datatype ExecOutcome =
    | Completed                 // the CLI exited with status 0
    | CliNotFound               // `FileNotFoundError`: no `snow` executable
    | ExecError(reason: string) // non-zero status, timeout or any other exception

  /** The collaborator as the whole run sees it: step index and SQL text to outcome. */
  type Collaborator = (nat, string) -> ExecOutcome

  /** How one call of `deploy_file` ends. */
  datatype StepResult =
    | Prepared(sql: string)                        // dry run: content prepared, not executed
    | Executed(sql: string)                        // the CLI ran the SQL
    | PreparedWithoutCli(sql: string)              // the CLI is missing: degraded to a dry run
    | FileMissing(path: string)                    // `read_and_substitute` raised
    | ExecutionFailed(sql: string, reason: string) // the CLI reported an error
  {
    /** The boolean `deploy_file` returns. */
    predicate Succeeded() {
      Prepared? || Executed? || PreparedWithoutCli?
    }

    /** The SQL text was handed to the CLI. */
    predicate InvokedCollaborator() {
      Executed? || PreparedWithoutCli? || ExecutionFailed?
    }
  }

  /** `read_and_substitute`: `None` where it raises `FileNotFoundError`. */
  function ReadAndSubstitute(d: Deployer, files: FileSystem, path: string): (r: Option<string>)
    requires ValidDeployer(d)
    ensures r.None? <==> path !in files
    ensures r.Some? ==> r.value == Reference(files[path], d.databaseName)
    ensures r.Some? ==> NoOccurrence(r.value)
  {
    if path !in files then None
    else
      DatabaseNameIsSafe(d.environment);
      NoOccurrenceAfterSubstitute(files[path], d.databaseName);
      Some(Substitute(files[path], d.databaseName))
  }

  /** `deploy_file`: every exception is caught and turned into a failed step. */
  function DeployFile(d: Deployer, files: FileSystem, path: string, dryRun: bool,
                      exec: string -> ExecOutcome): (r: StepResult)
    requires ValidDeployer(d)
    ensures path !in files ==> r == FileMissing(path)
    ensures path in files ==> !r.FileMissing? && r.sql == Substitute(files[path], d.databaseName)
    ensures r.InvokedCollaborator() <==> path in files && !dryRun
    ensures r.Succeeded() <==> path in files && (dryRun || !exec(r.sql).ExecError?)
    ensures r.PreparedWithoutCli? <==> path in files && !dryRun && exec(r.sql) == CliNotFound
  {
    match ReadAndSubstitute(d, files, path)
    case None => FileMissing(path)
    case Some(sql) =>
      if dryRun then Prepared(sql)
      else
        match exec(sql)
        case Completed => Executed(sql)
        case CliNotFound => PreparedWithoutCli(sql)
        case ExecError(reason) => ExecutionFailed(sql, reason)
  }

  /** In a dry run the outcome does not depend on the collaborator at all. */
  lemma DryRunIgnoresCollaborator(d: Deployer, files: FileSystem, path: string,
                                  exec1: string -> ExecOutcome, exec2: string -> ExecOutcome)
    requires ValidDeployer(d)
    ensures DeployFile(d, files, path, true, exec1) == DeployFile(d, files, path, true, exec2)
    ensures path in files <==> DeployFile(d, files, path, true, exec1).Prepared?
  {
  }

  // ---------------------------------------------------------------------------
  // The run

  /** Step `k` of `plan`, run against the collaborator's answers for that step. */
  function StepAt(d: Deployer, files: FileSystem, plan: seq<Step>, dryRun: bool,
                  exec: Collaborator, k: nat): StepResult
    requires ValidDeployer(d)
    requires k < |plan|
  {
    DeployFile(d, files, plan[k].path, dryRun, sql => exec(k, sql))
  }

  /** What each step of `plan` gives when it is run; steps share no state. */
  function PlannedResults(d: Deployer, files: FileSystem, plan: seq<Step>, dryRun: bool,
                          exec: Collaborator): (rs: seq<StepResult>)
    requires ValidDeployer(d)
    ensures |rs| == |plan|
    ensures forall k {:trigger StepAt(d, files, plan, dryRun, exec, k)} :: 0 <= k < |plan| ==>
              rs[k] == StepAt(d, files, plan, dryRun, exec, k)
  {
    seq(|plan|, k requires 0 <= k < |plan| => StepAt(d, files, plan, dryRun, exec, k))
  }

  /** The fail-fast loop: the steps up to and including the first failure. */
  function TakeThroughFailure(steps: seq<StepResult>): (rs: seq<StepResult>)
    ensures |rs| <= |steps| && rs == steps[..|rs|]
    ensures forall j :: 0 <= j < |rs| - 1 ==> rs[j].Succeeded()
    ensures |rs| < |steps| ==> rs != [] && !rs[|rs| - 1].Succeeded()
  {
    if steps == [] then []
    else if steps[0].Succeeded() then [steps[0]] + TakeThroughFailure(steps[1..])
    else [steps[0]]
  }

  /** When the first `k` steps succeed and step `k` fails, exactly `k + 1` steps are attempted. */
  lemma TakeStopsAtFirstFailure(steps: seq<StepResult>, k: nat)
    requires k < |steps|
    requires forall j :: 0 <= j < k ==> steps[j].Succeeded()
    requires !steps[k].Succeeded()
    ensures TakeThroughFailure(steps) == steps[..k + 1]
  {
    var rs := TakeThroughFailure(steps);
    assert |rs| > k ==> rs[k] == steps[k];
    assert |rs| < |steps| ==> rs[|rs| - 1] == steps[|rs| - 1];
  }

  /** When every step succeeds, all of them are attempted. */
  lemma TakeAllWhenAllSucceed(steps: seq<StepResult>)
    requires forall j :: 0 <= j < |steps| ==> steps[j].Succeeded()
    ensures TakeThroughFailure(steps) == steps
  {
  }

  /** Number of successful steps among `rs`. */
  function CountSucceeded(rs: seq<StepResult>): nat {
    if rs == [] then 0
    else (if rs[0].Succeeded() then 1 else 0) + CountSucceeded(rs[1..])
  }

  /** Where every step but possibly the last succeeded, the count is the length, less one for a failed last step. */
  lemma {:induction false} CountSucceededOfRun(rs: seq<StepResult>)
    requires forall j :: 0 <= j < |rs| - 1 ==> rs[j].Succeeded()
    ensures rs != [] && !rs[|rs| - 1].Succeeded() ==> CountSucceeded(rs) == |rs| - 1
    ensures (rs == [] || rs[|rs| - 1].Succeeded()) ==> CountSucceeded(rs) == |rs|
    decreases |rs|
  {
    if rs != [] {
      CountSucceededOfRun(rs[1..]);
    }
  }

  /** The whole plan is counted exactly when every step of it succeeds. */
  lemma CountsAllIffAllSucceed(steps: seq<StepResult>)
    ensures CountSucceeded(TakeThroughFailure(steps)) <= |steps|
    ensures CountSucceeded(TakeThroughFailure(steps)) == |steps|
            <==> forall j :: 0 <= j < |steps| ==> steps[j].Succeeded()
  {
    var rs := TakeThroughFailure(steps);
    CountSucceededOfRun(rs);
    if CountSucceeded(rs) == |steps| {
      assert rs == steps;
    }
  }

  /** How `deploy_all` ends: cancelled at the prompt, or after running steps. */
  datatype RunResult =
    | Cancelled
    | Finished(results: seq<StepResult>, successCount: nat, totalCount: nat)
  {
    /** The boolean `deploy_all` returns. */
    predicate Ok() {
      Finished? && successCount == totalCount
    }
  }

  function LowerChar(c: char): char {
    if 'A' <= c <= 'Z' then (c as int + ('a' as int - 'A' as int)) as char else c
  }

  /** `str.lower()` on ASCII letters; other characters are kept. */
  function AsciiLower(s: string): string {
    seq(|s|, i requires 0 <= i < |s| => LowerChar(s[i]))
  }

  /** `confirm.lower() == 'yes'`. */
  predicate ConfirmAccepted(confirm: string) {
    AsciiLower(confirm) == "yes"
  }

  /** The prompt accepts `yes` in any letter case and nothing else: no trimming. */
  lemma ConfirmAcceptedIff(confirm: string)
    ensures ConfirmAccepted(confirm) <==>
      && |confirm| == 3
      && (confirm[0] == 'y' || confirm[0] == 'Y')
      && (confirm[1] == 'e' || confirm[1] == 'E')
      && (confirm[2] == 's' || confirm[2] == 'S')
  {
    var lower := AsciiLower(confirm);
    if |confirm| == 3 {
      assert lower == [LowerChar(confirm[0]), LowerChar(confirm[1]), LowerChar(confirm[2])];
    }
  }

  /** The production prompt blocks the run. */
  predicate NeedsConfirmation(d: Deployer) {
    d.environment == "prod"
  }

  /** The loop of `deploy_all` and its tally, once past the prompt. */
  function Attempt(d: Deployer, plan: seq<Step>, dryRun: bool, files: FileSystem,
                   exec: Collaborator): (r: RunResult)
    requires ValidDeployer(d)
    ensures r.Finished? && r.totalCount == |plan|
    ensures |r.results| <= |plan| && r.successCount <= r.totalCount
    ensures forall j :: 0 <= j < |r.results| ==> r.results[j] == StepAt(d, files, plan, dryRun, exec, j)
    ensures r.Ok() <==> forall j :: 0 <= j < |plan| ==> StepAt(d, files, plan, dryRun, exec, j).Succeeded()
  {
    var planned := PlannedResults(d, files, plan, dryRun, exec);
    var rs := TakeThroughFailure(planned);
    CountsAllIffAllSucceed(planned);
    Finished(rs, CountSucceeded(rs), |plan|)
  }

  /** `deploy_all` for a given plan: the production prompt, then the attempt. */
  function RunPlan(d: Deployer, plan: seq<Step>, confirm: string, dryRun: bool,
                   files: FileSystem, exec: Collaborator): (r: RunResult)
    requires ValidDeployer(d)
    ensures r.Cancelled? <==> NeedsConfirmation(d) && !ConfirmAccepted(confirm)
    ensures r.Finished? ==> r == Attempt(d, plan, dryRun, files, exec)
  {
    if NeedsConfirmation(d) && !ConfirmAccepted(confirm) then Cancelled
    else Attempt(d, plan, dryRun, files, exec)
  }

  /** Fail-fast: when step `k` is the first to fail, steps after it are never attempted. */
  lemma FailFast(d: Deployer, plan: seq<Step>, dryRun: bool, files: FileSystem,
                 exec: Collaborator, k: nat)
    requires ValidDeployer(d)
    requires k < |plan|
    requires forall j :: 0 <= j < k ==> StepAt(d, files, plan, dryRun, exec, j).Succeeded()
    requires !StepAt(d, files, plan, dryRun, exec, k).Succeeded()
    ensures var r := Attempt(d, plan, dryRun, files, exec);
      && |r.results| == k + 1
      && r.successCount == k
      && !r.Ok()
  {
    var planned := PlannedResults(d, files, plan, dryRun, exec);
    forall j | 0 <= j <= k
      ensures planned[j] == StepAt(d, files, plan, dryRun, exec, j)
    {
    }
    TakeStopsAtFirstFailure(planned, k);
    CountSucceededOfRun(planned[..k + 1]);
  }

  /** When every step succeeds the whole plan is run and counted. */
  lemma AllStepsSucceed(d: Deployer, plan: seq<Step>, dryRun: bool, files: FileSystem,
                        exec: Collaborator)
    requires ValidDeployer(d)
    requires forall j :: 0 <= j < |plan| ==> StepAt(d, files, plan, dryRun, exec, j).Succeeded()
    ensures var r := Attempt(d, plan, dryRun, files, exec);
      && r.Ok()
      && |r.results| == |plan|
      && r.successCount == |plan|
  {
    var planned := PlannedResults(d, files, plan, dryRun, exec);
    TakeAllWhenAllSucceed(planned);
    CountSucceededOfRun(planned);
  }

  /** Only production prompts: elsewhere the answer is never looked at. */
  lemma ConfirmationOnlyForProd(d: Deployer, plan: seq<Step>, confirm1: string, confirm2: string,
                                dryRun: bool, files: FileSystem, exec: Collaborator)
    requires ValidDeployer(d)
    ensures d.environment != "prod" ==>
      RunPlan(d, plan, confirm1, dryRun, files, exec) == RunPlan(d, plan, confirm2, dryRun, files, exec)
  {
  }

  /** A dry run succeeds exactly when every planned file exists, and never calls the CLI. */
  lemma DryRunSucceedsIffFilesExist(d: Deployer, plan: seq<Step>, files: FileSystem, exec: Collaborator)
    requires ValidDeployer(d)
    ensures var r := Attempt(d, plan, true, files, exec);
      && (r.Ok() <==> forall j :: 0 <= j < |plan| ==> plan[j].path in files)
      && (forall j :: 0 <= j < |r.results| ==> !r.results[j].InvokedCollaborator())
  {
    forall j | 0 <= j < |plan|
      ensures StepAt(d, files, plan, true, exec, j).Succeeded() <==> plan[j].path in files
    {
    }
  }

  /** A declined production prompt ends the run before any step. */
  lemma ProdDeclinedRunsNothing(d: Deployer, plan: seq<Step>, confirm: string, dryRun: bool,
                                files: FileSystem, exec: Collaborator)
    requires ValidDeployer(d)
    requires d.environment == "prod"
    requires !ConfirmAccepted(confirm)
    ensures RunPlan(d, plan, confirm, dryRun, files, exec) == Cancelled
    ensures !RunPlan(d, plan, confirm, dryRun, files, exec).Ok()
  {
  }

  // ---------------------------------------------------------------------------
  // The run as an algorithm

  /** The loop of `deploy_all`, with its success counter and its `break`. */
  method RunSteps(d: Deployer, plan: seq<Step>, dryRun: bool, files: FileSystem, exec: Collaborator)
    returns (successCount: nat, results: seq<StepResult>)
    requires ValidDeployer(d)
    ensures results == TakeThroughFailure(PlannedResults(d, files, plan, dryRun, exec))
    ensures successCount == CountSucceeded(results)
  {
    ghost var planned := PlannedResults(d, files, plan, dryRun, exec);
    successCount := 0;
    results := [];
    var k := 0;
    while k < |plan|
      invariant k <= |plan|
      invariant successCount == k == |results|
      invariant results == planned[..k]
      invariant forall j :: 0 <= j < k ==> planned[j].Succeeded()
    {
      var step := StepAt(d, files, plan, dryRun, exec, k);
      assert step == planned[k];
      assert planned[..k + 1] == planned[..k] + [step];
      results := results + [step];
      if step.Succeeded() {
        successCount := successCount + 1;
      } else {
        TakeStopsAtFirstFailure(planned, k);
        CountSucceededOfRun(results);
        break;
      }
      k := k + 1;
    }
    if k == |plan| {
      assert results == planned;
      TakeAllWhenAllSucceed(planned);
      CountSucceededOfRun(results);
    }
  }

  /**
   * `deploy_all` as written: the production prompt, then the loop. The script
   * always runs `DEPLOYMENT_ORDER`; `MainStatus` passes that plan.
   */
  method DeployAll(d: Deployer, plan: seq<Step>, confirm: string, dryRun: bool,
                   files: FileSystem, exec: Collaborator)
    returns (ok: bool, r: RunResult)
    requires ValidDeployer(d)
    ensures r == RunPlan(d, plan, confirm, dryRun, files, exec)
    ensures ok <==> r.Ok()
  {
    if NeedsConfirmation(d) && !ConfirmAccepted(confirm) {
      return false, Cancelled;
    }
    var successCount, results := RunSteps(d, plan, dryRun, files, exec);
    var totalCount := |plan|;
    r := Finished(results, successCount, totalCount);
    ok := successCount == totalCount;
  }

  // ---------------------------------------------------------------------------
  // The fixed plan and the process exit code

  /** The plan has twenty steps. */
  lemma DeploymentOrderLength()
    ensures |DeploymentOrder| == 20
  {
  }

  /** `sys.exit(0 if success else 1)`. */
  function ExitCode(ok: bool): (code: int)
    ensures code == 0 <==> ok
    ensures code == 0 || code == 1
  {
    if ok then 0 else 1
  }

  /** `main` after argument parsing: construct, run the fixed plan, map the result to a status. */
  function MainStatus(environment: string, confirm: string, dryRun: bool,
                      files: FileSystem, exec: Collaborator): (code: int)
    ensures code == 0 || code == 1
    ensures code == 0 <==>
      && NewDeployer(environment).Ok?
      && RunPlan(NewDeployer(environment).value, DeploymentOrder, confirm, dryRun, files, exec).Ok()
  {
    match NewDeployer(environment)
    case Err(_) => 1
    case Ok(d) => ExitCode(RunPlan(d, DeploymentOrder, confirm, dryRun, files, exec).Ok())
  }

  // ---------------------------------------------------------------------------
  // Scenarios

  /** A file missing from the plan stops the run at that step, even in a dry run. */
  lemma MissingFileStopsRun(d: Deployer, plan: seq<Step>, dryRun: bool, files: FileSystem,
                            exec: Collaborator, k: nat)
    requires ValidDeployer(d)
    requires k < |plan|
    requires forall j :: 0 <= j < k ==> StepAt(d, files, plan, dryRun, exec, j).Succeeded()
    requires plan[k].path !in files
    ensures var r := Attempt(d, plan, dryRun, files, exec);
      && |r.results| == k + 1
      && r.successCount == k
      && r.results[k] == FileMissing(plan[k].path)
      && !r.Ok()
  {
    FailFast(d, plan, dryRun, files, exec, k);
  }

  /** `dev`, every file present, dry run: status 0 with all twenty steps prepared and none executed. */
  lemma DevDryRunScenario(confirm: string, files: FileSystem, exec: Collaborator)
    requires forall k :: 0 <= k < |DeploymentOrder| ==> DeploymentOrder[k].path in files
    ensures MainStatus("dev", confirm, true, files, exec) == 0
    ensures var r := RunPlan(Deployer("dev", "SAAS_ANALYTICS_DEV"), DeploymentOrder, confirm, true, files, exec);
      && r.Finished?
      && r.successCount == |r.results| == 20
      && forall k :: 0 <= k < |r.results| ==> r.results[k].Prepared?
  {
    var d := Deployer("dev", "SAAS_ANALYTICS_DEV");
    DeploymentOrderLength();
    DryRunSucceedsIffFilesExist(d, DeploymentOrder, files, exec);
    forall j | 0 <= j < |DeploymentOrder|
      ensures StepAt(d, files, DeploymentOrder, true, exec, j).Succeeded()
    {
    }
    AllStepsSucceed(d, DeploymentOrder, true, files, exec);
  }

  /** `prod` answered `no`, or ` yes` with a leading space: status 1 and nothing run. */
  lemma ProdDeclinedScenario(dryRun: bool, files: FileSystem, exec: Collaborator)
    ensures MainStatus("prod", "no", dryRun, files, exec) == 1
    ensures MainStatus("prod", " yes", dryRun, files, exec) == 1
    ensures RunPlan(Deployer("prod", "SAAS_ANALYTICS_PROD"), DeploymentOrder, "no", dryRun, files, exec) == Cancelled
    ensures RunPlan(Deployer("prod", "SAAS_ANALYTICS_PROD"), DeploymentOrder, " yes", dryRun, files, exec) == Cancelled
  {
    ConfirmAcceptedIff("no");
    ConfirmAcceptedIff(" yes");
  }

  /** `YES` passes the production prompt. */
  lemma ProdAcceptsUpperCase(dryRun: bool, files: FileSystem, exec: Collaborator)
    ensures var d := Deployer("prod", "SAAS_ANALYTICS_PROD");
      RunPlan(d, DeploymentOrder, "YES", dryRun, files, exec) == Attempt(d, DeploymentOrder, dryRun, files, exec)
  {
    ConfirmAcceptedIff("YES");
  }
}
