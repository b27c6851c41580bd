# Snowflake deployer, modelled in Dafny

This project models the decision logic of `SnowflakeDeployer`, the environment-aware
deployment script of the SaaS analytics platform. The script:

- picks a target database from the environment name (`dev`, `qa`, `prod`);
- reads each SQL file of a fixed twenty-step plan;
- replaces every whole-word `SAAS_ANALYTICS` in the file with the target database name;
- hands the text to the Snowflake CLI, or only prepares it in a dry run;
- stops at the first failing step;
- maps the outcome to the process exit status.

A production run first asks the operator to confirm.

The modules follow the script:

- `Results`: `Option` and `Result`, which stand in for the exceptions the script raises and catches.
- `Environments`: `DATABASE_MAP` and the constructor, which rejects unknown environments.
- `Substitution`: the rewrite `re.sub(r'\bSAAS_ANALYTICS\b', database_name, content)`.
  - `SubstituteFrom` scans the text index by index, as the regular-expression engine does.
    Both `\b` anchors look at the original text, and scanning resumes after a match.
  - `Reference` is an independent word-level definition. It splits the text into maximal runs
    of word characters and single other characters, renames the runs that are exactly the
    placeholder, and glues the pieces back together.
  - The two are proved equal. Idempotence and "unchanged exactly when there is no
    occurrence" are proved from the round trip between splitting and gluing.
- `Deployment`: `deploy_file`, `deploy_all` and the exit-status mapping of `main`.
  - The file system is a map from plan path to contents.
  - The operator's answer at the prompt is a string parameter.
  - The Snowflake CLI is a collaborator function from step index and SQL text to an outcome:
    `Completed`, `CliNotFound` or `ExecError`.
  - `RunSteps` and `DeployAll` are the loop and the gate as methods. `TakeThroughFailure`,
    `Attempt` and `RunPlan` are the same run as functions, and the lemmas are stated about
    those functions.

## Model

| member | source | states |
|---|---|---|
| Environments.NewDeployer | deployment/deploy.py:60-66 | the constructor succeeds exactly for `dev`, `qa` and `prod` and then holds the mapped database (`SAAS_ANALYTICS_DEV`/`_QA`/`_PROD`); any other name gives the `Invalid environment: <name>. Must be: dev, qa, prod` error |
| Environments.DatabaseMapIsClosed | deployment/deploy.py:19-23 | the table's key set is exactly the names `dev`, `qa`, `prod` that the constructor's error message joins, with no name repeated, so the table has three entries |
| Environments.DatabaseNamesDistinct | deployment/deploy.py:19-23 | distinct environments deploy to distinct databases |
| Environments.DatabaseNameIsSafe | deployment/deploy.py:19-23 | every target database is `SAAS_ANALYTICS_` plus a suffix of word characters, so it is a word of its own and never the placeholder |
| Substitution.Substitute | deployment/deploy.py:80-87 | the scanning rewrite equals the word-level reference: placeholder words renamed, everything else kept character for character |
| Substitution.TokenizeWellFormed | deployment/deploy.py:83-87 | splitting yields non-empty maximal word runs and single non-word characters, with no two word runs side by side |
| Substitution.FlattenTokenize | deployment/deploy.py:83-87 | gluing the pieces of any text gives that text back |
| Substitution.TokenizeFlatten | deployment/deploy.py:83-87 | splitting the glued text of a well-formed token list gives that list back |
| Substitution.OccurrenceIsPlaceholderWord | deployment/deploy.py:83-87 | a `\bSAAS_ANALYTICS\b` match at offset `i` is a word token that is exactly the placeholder and starts at `i`: the tokens before it glue to `i` characters |
| Substitution.OccurrencesDoNotOverlap | deployment/deploy.py:83-87 | two whole-word matches never overlap and never touch |
| Substitution.TokenizeSubstitute | deployment/deploy.py:83-87 | splitting the rewritten text gives the original tokens with placeholder words renamed |
| Substitution.UnchangedWithoutOccurrence | deployment/deploy.py:83-87 | a text without a whole-word placeholder is returned unchanged |
| Substitution.NoOccurrenceAfterSubstitute | deployment/deploy.py:83-87 | after one pass no whole-word placeholder is left, for any safe database name |
| Substitution.UnchangedIffNoOccurrence | deployment/deploy.py:83-87 | the rewrite leaves the text as it is if and only if the text holds no whole-word placeholder |
| Substitution.SubstituteIdempotent | deployment/deploy.py:83-87 | a second pass changes nothing |
| Substitution.LongerIdentifierUntouched | deployment/deploy.py:80-87 | `SAAS_ANALYTICS_ARCHIVE` is left untouched |
| Substitution.PrefixedIdentifierUntouched | deployment/deploy.py:80-87 | `XSAAS_ANALYTICS` is left untouched |
| Substitution.QualifiedNameRenamed | deployment/deploy.py:80-87 | in `USE SAAS_ANALYTICS.GOLD;` the placeholder, bounded by a space and a dot, becomes the database name and nothing else changes |
| Deployment.ReadAndSubstitute | deployment/deploy.py:70-89 | a missing file gives no content; a present file gives its contents with placeholder words renamed and no whole-word placeholder left |
| Deployment.DeployFile | deployment/deploy.py:91-124 | a missing file fails the step even in a dry run; the CLI is called exactly when the file exists and the run is not dry; the step succeeds exactly when the file exists and the run is dry or the CLI reports no error; a missing CLI counts as success |
| Deployment.DryRunIgnoresCollaborator | deployment/deploy.py:99-103 | in a dry run the step's outcome does not depend on the CLI, and it is `Prepared` exactly when the file exists |
| Deployment.TakeThroughFailure | deployment/deploy.py:143-148 | the fail-fast loop attempts a prefix of the plan in which every step but the last succeeded, and it stops early only at a failure |
| Deployment.TakeStopsAtFirstFailure | deployment/deploy.py:143-148 | when step `k` is the first to fail, exactly steps `0..k` are attempted |
| Deployment.TakeAllWhenAllSucceed | deployment/deploy.py:143-148 | when every step succeeds, every step is attempted |
| Deployment.CountSucceededOfRun | deployment/deploy.py:140-148 | along such a prefix the success counter is its length, less one if the last step failed |
| Deployment.CountsAllIffAllSucceed | deployment/deploy.py:140-160 | the counter never exceeds the plan length, and it reaches it if and only if every step succeeds |
| Deployment.Attempt | deployment/deploy.py:140-160 | past the prompt: `total_count` is the plan length, `success_count <= total_count`, each attempted step is that plan step's result, and the run succeeds if and only if every step succeeds |
| Deployment.RunPlan | deployment/deploy.py:133-160 | the run is cancelled exactly in production with an answer other than `yes`, and otherwise it is the attempt |
| Deployment.FailFast | deployment/deploy.py:143-160 | if step `k` (0-based) is the first to fail, `k + 1` steps are attempted, `success_count == k`, and the result is false |
| Deployment.AllStepsSucceed | deployment/deploy.py:143-160 | if every step succeeds, all steps are attempted and counted and the result is true |
| Deployment.MissingFileStopsRun | deployment/deploy.py:143-148 | a missing file at step `k`, which `read_and_substitute` reports and `deploy_file` turns into a failed step, ends the run there with `FileMissing`, `k` successes and result false, dry run or not |
| Deployment.DryRunSucceedsIffFilesExist | deployment/deploy.py:99-103 | a dry run succeeds if and only if every planned file exists, and it never calls the CLI |
| Deployment.ConfirmAcceptedIff | deployment/deploy.py:136 | `confirm.lower() == 'yes'` holds exactly for three-letter answers spelling yes in any letter case; there is no trimming |
| Deployment.ConfirmationOnlyForProd | deployment/deploy.py:134-138 | outside production the operator's answer is never consulted |
| Deployment.ProdDeclinedRunsNothing | deployment/deploy.py:134-138 | a declined production prompt returns false before any step runs |
| Deployment.RunSteps | deployment/deploy.py:140-148 | the loop with its counter and `break` computes exactly the fail-fast prefix and its success count |
| Deployment.DeployAll | deployment/deploy.py:126-160 | `deploy_all` returns the run of the gate plus loop, and returns true exactly when that run succeeded |
| Deployment.DeploymentOrderLength | deployment/deploy.py:26-58 | the fixed plan has twenty steps |
| Deployment.ExitCode | deployment/deploy.py:184 | the status is 0 exactly on success and 1 otherwise |
| Deployment.MainStatus | deployment/deploy.py:181-188 | `main` exits 0 if and only if the constructor accepts the environment and the fixed plan runs to success; otherwise it exits 1 |
| Deployment.DevDryRunScenario | deployment/deploy.py:181-184 | `dev` as a dry run with all files present exits 0, with all twenty steps prepared and none executed |
| Deployment.ProdDeclinedScenario | deployment/deploy.py:134-138 | `prod` answered `no`, or ` yes` with a leading space, exits 1 with nothing run |
| Deployment.ProdAcceptsUpperCase | deployment/deploy.py:136 | `YES` passes the production prompt |

## Left out

- Console I/O is not modelled: the banner, per-step and summary `print`s, and the `input()` of the production prompt, whose answer is a string parameter.
  - The 0/1 status of `MainStatus` assumes that every `print` and the `input()` succeed.
  - When they fail, the real status is 1 through the generic handler of `main`, or 120 when CPython cannot flush standard output at exit.
- The real file system and `project_root` are a map from plan path to contents. A present key stands for a file that exists and can be read.
  - The contents are the text `f.read()` returns in text mode: decoded, with `\r\n` and `\r` translated to `\n`. Decoding and newline translation are not modelled.
  - Read errors other than a missing file are not modelled separately: a directory at the path, a permission error, a decoding error.
  - `deploy_file` catches all of these as failed steps, as the model does for a missing file.
- `subprocess.run` of `snow sql -q` is a collaborator function of step index and SQL text. The model has no timeout or capture, and it records no process state between steps.
  - A non-zero exit status, a timeout and any other exception are all one `ExecError` outcome.
- Argument parsing is not modelled.
  - `argparse` restricts the environment to `dev|qa|prod` and rejects anything else with its own usage error and status 2, before the constructor runs.
  - `MainStatus` starts after parsing. It still takes the constructor's error path, which `main` maps to status 1.
- Substitution.Substitute: word characters are the ASCII set `[A-Za-z0-9_]`. Python's `\b` on `str` patterns also treats non-ASCII letters and digits as word characters. So next to such a character the script leaves the placeholder alone, while the model renames it.
- Deployment.ConfirmAcceptedIff: `str.lower` is modelled on ASCII letters only. No other character lowers to `y`, `e` or `s`, so the accepted answers are the same.
- The layer order of `DEPLOYMENT_ORDER` is kept verbatim in `DeploymentOrder`. No lemma states that setup comes before ingestion, bronze, silver, gold and governance.
- The generic `except Exception` of `main` is modelled only for the constructor's error. Exceptions from the console I/O above are not modelled.
