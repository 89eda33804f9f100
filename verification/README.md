# Environment and installation checks of the enterprise ticket assistant

This project is a Dafny model of the configuration core of the
`enterprise_ticket_assistant` package in the `ai-lab` repository. The core has
three parts, each with its own module.

- `EnvLoader` (`env_loader.dfy`) models `load_environment` and `get_env_var`.
  The loader works out three candidate `.env` files from its own location:
  the project directory, its parent and its grandparent. It loads the first
  one that exists and never overwrites a variable that is already set. When
  none exists it falls back to an argument-less `load_dotenv()`. That call
  loads the first `.env` found by walking up from the loader's own directory
  (`src/utils`) to the root. The loader reports whether a candidate was
  found. `get_env_var` reads one variable and fails when a required variable
  is missing and there is no default.
- `Masking` (`masking.dfy`) models how `check_env` decides that a variable
  is sensitive (its name contains `KEY` or `SECRET`) and how it masks the value.
- `CheckEnv` (`check_env.dfy`) models `check_env.main`. It loads twice: once
  when the loader module is imported and once in `main`. It classifies the
  four registered variables into four kinds of row and lists the three `.env`
  locations. The exit code is 0 exactly when the one required variable,
  `OPENAI_API_KEY`, is set to a non-empty value.
- `VerifyInstall` (`verify_install.dfy`) models `check_imports` and
  `verify_install.main`. There are fifteen import probes in a fixed order. A
  failed import becomes a `FAIL` row with an `Error: ` message. Any other
  error aborts the whole run. The script counts its successes and exits with
  0 exactly when every probe succeeded.

Two support modules complete it. `Paths` (`paths.dfy`) models filesystem
paths as a chain of named children, with parent and ancestor operations.
`Outcomes` (`outcomes.dfy`) defines `Option` and `Result`.

Outside effects become parameters:
- The filesystem is a map from existing `.env` paths to their parsed contents.
- The process environment is a map from names to values.
- Each `import` is given as an `ImportOutcome`.
- The environment-loader smoke test is given as a `Status`.

## Model

| member | source | states |
|---|---|---|
| Paths.Ancestor | ai-lab/enterprise_ticket_assistant/src/utils/env_loader.py:24-26 | taking `.parent` n times gives a directory that encloses the start, n levels shallower (it stops at the anchor) |
| EnvLoader.Candidates | ai-lab/enterprise_ticket_assistant/src/utils/env_loader.py:24-33 | there are exactly three candidates, and each one is a file named `.env` |
| EnvLoader.CandidatesNearestFirst | ai-lab/enterprise_ticket_assistant/src/utils/env_loader.py:24-33 | the candidates sit in the third, fourth and fifth ancestors of the loader file, nearest first, and each directory encloses the one before it |
| EnvLoader.FirstExisting | ai-lab/enterprise_ticket_assistant/src/utils/env_loader.py:35-41 | the search picks an existing candidate with no existing candidate before it, and finds nothing exactly when no candidate exists |
| EnvLoader.MergeNoOverride | ai-lab/enterprise_ticket_assistant/src/utils/env_loader.py:38 | loading without override keeps every variable already set and adds only the file's new names |
| EnvLoader.MergeIdempotent | ai-lab/enterprise_ticket_assistant/src/utils/env_loader.py:38 | loading the same file twice without override is the same as loading it once |
| EnvLoader.FindUpward | ai-lab/enterprise_ticket_assistant/src/utils/env_loader.py:45 | the argument-less `load_dotenv()` search: the file it returns is an existing `.env` in a directory enclosing the start, and no nearer enclosing directory holds one; it finds nothing exactly when no enclosing directory holds a `.env` |
| EnvLoader.Resolve | ai-lab/enterprise_ticket_assistant/src/utils/env_loader.py:14-48 | the loaded flag is true exactly when some candidate exists; the merged file is the first existing candidate, or else what the upward search from the loader's directory finds (nothing when it finds none); existing variables are untouched; new names take the merged file's values, and no other names appear |
| EnvLoader.LaterCandidatesIgnored | ai-lab/enterprise_ticket_assistant/src/utils/env_loader.py:36-41 | once candidate i is loaded, changing whether later candidates exist or what they hold changes nothing, because the loop stops at the first hit |
| EnvLoader.FallbackSkipsCandidates | ai-lab/enterprise_ticket_assistant/src/utils/env_loader.py:43-45 | when no candidate exists, the fallback's file is none of the candidates: it lies in the loader's directory, the one above it, or above the farthest candidate's directory |
| EnvLoader.ResolveIdempotent | ai-lab/enterprise_ticket_assistant/src/utils/env_loader.py:77-78 | running the loader a second time, as the scripts do after the import-time load, changes nothing |
| EnvLoader.LoadEnvironment | ai-lab/enterprise_ticket_assistant/src/utils/env_loader.py:14-48 | the loop with its early exit and the fallback produce the environment and flag that `Resolve` describes |
| EnvLoader.GetEnvVar | ai-lab/enterprise_ticket_assistant/src/utils/env_loader.py:51-74 | it fails exactly when the variable is required, unset and has no default, and the error names the key; otherwise it returns the set value (even an empty one) or the default |
| EnvLoader.GetAfterLoad | ai-lab/enterprise_ticket_assistant/src/utils/env_loader.py:66-74 | a read after a load sees the value that was set before, else the merged file's value, else the default, else the missing-variable error |
| Masking.Contains | ai-lab/enterprise_ticket_assistant/scripts/check_env.py:41 | Python's `in` on strings: the suffix scan holds exactly when the pattern occurs at some index of the name |
| Masking.IsSensitive | ai-lab/enterprise_ticket_assistant/scripts/check_env.py:41 | a name is sensitive exactly when `KEY` or `SECRET` occurs in it at some index, with case mattering |
| Masking.RegistryKeysSensitive | ai-lab/enterprise_ticket_assistant/scripts/check_env.py:41 | `OPENAI_API_KEY` and `SERPER_API_KEY` count as sensitive |
| Masking.QdrantUrlPlain | ai-lab/enterprise_ticket_assistant/scripts/check_env.py:41 | `QDRANT_URL` is not sensitive, so it is shown in full |
| Masking.DatabaseUrlPlain | ai-lab/enterprise_ticket_assistant/scripts/check_env.py:41 | `DATABASE_URL` is not sensitive, so it is shown in full |
| Masking.Hide | ai-lab/enterprise_ticket_assistant/scripts/check_env.py:42 | a secret of 12 characters or fewer is shown as `***`; a longer one as its first 8 characters, `...` and its last 4, 15 characters in all |
| Masking.Mask | ai-lab/enterprise_ticket_assistant/scripts/check_env.py:41-44 | non-sensitive values are shown unchanged; sensitive values of 12 characters or fewer become `***`; longer ones show the first 8 characters, `...` and the last 4, 15 characters in all |
| Masking.MaskRevealsOnlyEnds | ai-lab/enterprise_ticket_assistant/scripts/check_env.py:42 | two sensitive values are displayed the same exactly when both are short, or both are long with the same first 8 and last 4 characters |
| CheckEnv.RegistryRequired | ai-lab/enterprise_ticket_assistant/scripts/check_env.py:26-31 | the registry has four variables, and only `OPENAI_API_KEY` is required |
| CheckEnv.RegistrySensitivity | ai-lab/enterprise_ticket_assistant/scripts/check_env.py:26-41 | of the registry, the two keys (rows 0 and 1) are masked and the two URLs (rows 2 and 3) are shown as they are |
| CheckEnv.Configured | ai-lab/enterprise_ticket_assistant/scripts/check_env.py:38-39 | a variable counts as configured exactly when `os.getenv` (an unchecked read with no default) yields a non-empty value |
| CheckEnv.RegistryVerdict | ai-lab/enterprise_ticket_assistant/scripts/check_env.py:26-31 | every required variable of the registry is configured exactly when `OPENAI_API_KEY` is set to a non-empty value |
| CheckEnv.ClassifyRow | ai-lab/enterprise_ticket_assistant/scripts/check_env.py:38-53 | the row is required-present, optional-present, required-missing or optional-missing exactly as the flag and a non-empty value say; a value is displayed, masked, only when it is set and non-empty |
| CheckEnv.CheckVariables | ai-lab/enterprise_ticket_assistant/scripts/check_env.py:36-53 | one row per registry entry in order, and the all-ok flag is true exactly when no row is a missing required variable |
| CheckEnv.LoaderFileFor | ai-lab/enterprise_ticket_assistant/scripts/check_env.py:9-11 | the imported loader is `src/utils/env_loader.py` under the script's project directory, so its third ancestor is the script's second |
| CheckEnv.ListedLocations | ai-lab/enterprise_ticket_assistant/scripts/check_env.py:59-63 | the script lists three `.env` paths, in the second, third and fourth ancestors of the script file |
| CheckEnv.Listing | ai-lab/enterprise_ticket_assistant/scripts/check_env.py:65-70 | one listing line per path, in order, marked found exactly when a file exists there |
| CheckEnv.ListingProbesLoaderCandidates | ai-lab/enterprise_ticket_assistant/scripts/check_env.py:59-63 | the three locations that the script lists are exactly the loader's three candidates |
| CheckEnv.CheckConfiguration | ai-lab/enterprise_ticket_assistant/scripts/check_env.py:14-81 | the environment after both loads is one load's result; the exit code is 0 or 1, and 0 exactly when `OPENAI_API_KEY` is set and non-empty; the rows classify the registry, with the keys' values hidden and the URLs' shown as they are; the listing marks which loader candidates exist |
| VerifyInstall.RunProbe | ai-lab/enterprise_ticket_assistant/scripts/verify_install.py:14-25 | a probe aborts exactly on an error other than a failed import (or on a missing `__version__`); otherwise it is `OK` exactly when the import succeeded, with the version or `installed`, or `FAIL` with `Error: ` and the message |
| VerifyInstall.RunProbes | ai-lab/enterprise_ticket_assistant/scripts/verify_install.py:10-112 | the run completes exactly when no probe aborts, with one result per probe in order; otherwise the abort is the one from an aborting probe |
| VerifyInstall.CheckImports | ai-lab/enterprise_ticket_assistant/scripts/verify_install.py:10-112 | a completed run has fifteen rows in registry order; each is exactly its probe's result: `OK` with the version or `installed` when the import succeeded, `FAIL` with `Error: ` and the message when it failed |
| VerifyInstall.CountOk | ai-lab/enterprise_ticket_assistant/scripts/verify_install.py:132 | the success count never exceeds the number of rows, and equals it exactly when every row is `OK` |
| VerifyInstall.CountOkOneFailure | ai-lab/enterprise_ticket_assistant/scripts/verify_install.py:132 | with exactly one `FAIL` row, the success count is one less than the total |
| VerifyInstall.CountSuccesses | ai-lab/enterprise_ticket_assistant/scripts/verify_install.py:132-133 | the counting loop computes the number of `OK` rows |
| VerifyInstall.RunReport | ai-lab/enterprise_ticket_assistant/scripts/verify_install.py:115-156 | the script crashes exactly when a probe aborts; otherwise the printed rows are the probe results, the success count is the number of `OK` rows, the total is the number of probes, and the exit code is 0 or 1, 0 exactly when every import succeeded, whatever the smoke test says |
| VerifyInstall.VerifyInstallation | ai-lab/enterprise_ticket_assistant/scripts/verify_install.py:115-156 | the script completes exactly when `check_imports` returns, with its fifteen rows |
| VerifyInstall.ExitStatus | ai-lab/enterprise_ticket_assistant/scripts/verify_install.py:159-160 | a completed run exits with `main`'s return value; an `Exception` escaping `main` exits with 1, so a crash never exits with 0 |
| VerifyInstall.ExitZeroIffAllImported | ai-lab/enterprise_ticket_assistant/scripts/verify_install.py:151-160 | the process exit status is 0 exactly when every import succeeded and every version it reads exists; a crash exits with 1, and the smoke test never matters |
| VerifyInstall.ProbeIsolation | ai-lab/enterprise_ticket_assistant/scripts/verify_install.py:10-112 | changing one import's failure changes only that probe's row |
| VerifyInstall.SingleFailure | ai-lab/enterprise_ticket_assistant/scripts/verify_install.py:132-156 | one failed import gives success = total - 1 and exit code 1; its row is `FAIL` with `Error: ` and the message, and every other row is `OK` |

## Left out

- The `.env` file syntax belongs to python-dotenv and is not modelled: quoting, comments, `export`, variable expansion and names without values. A file is given as its parsed map of names to values.
- The fallback's search is python-dotenv's `find_dotenv`. It starts in the directory of the file that calls `load_dotenv()`, which is the loader's own directory (`src/utils`), and it walks up to the root. The model covers that walk. python-dotenv starts from the working directory instead in an interactive session or a frozen application. That case is not modelled.
- A `.env` that exists but cannot be read is not modelled. A `.env` that is a directory is not modelled either. In the source, `exists()` is true for both and the load then fails or loads nothing. The model's filesystem holds only readable files.
- Paths are taken as written. The source does not resolve `Path(__file__)`. Symbolic links and `..` segments are not modelled.
- All console output is left out: banners, the `[OK]` and `[WARN]` loader messages, column widths and the characters that mark row kinds.
- `sys.path` manipulation is left out, and so is the module import machinery. Each import is given as an `ImportOutcome`.
- The smoke test of `verify_install` is given as a `Status`, because it catches every `Exception`. Its outcome is only printed, and the exit code does not depend on it.
- Variable names are compared case-sensitively, as on POSIX systems. This affects `EnvLoader.MergeNoOverride`, `EnvLoader.GetEnvVar` and `CheckEnv.Configured`. On Windows, `os.environ` upper-cases names. So the non-override test of `load_dotenv` and every `os.getenv` read ignore case there. That is not modelled.
- Concurrency is not modelled. The process environment is global state in the source.
- The other files of the repository are not part of this model: `postLinkedin.py`, `test.py`, `src/main.py`, `src/mainhello.py`, `src/crew/crew.py` and `src/tasks/tasks.py`.
- `VerifyInstall.ExitStatus`: only an `Exception` is modelled as exiting with status 1. A `BaseException` that is not an `Exception` can escape `main`. It can come from a package's import, or from the environment-loader smoke test, which catches only `Exception`. For `SystemExit(n)` the process ends with status n. An uncaught `KeyboardInterrupt` ends the process through `SIGINT`. These are not modelled.
- `EnvLoader.GetEnvVar`: the source raises a `ValueError`. The model returns `Err(MissingConfig(key))`. The message text is left out.
- `VerifyInstall.CheckImports`: it does not restate the "completes exactly when no probe aborts" equivalence. That is stated by `VerifyInstall.RunProbes` and `VerifyInstall.VerifyInstallation`.

## Design notes

- A probe's isolation covers only `ImportError`. Any other exception raised while importing escapes `check_imports` and ends the script. So does a package without `__version__` among the version-reporting probes (`crewai`, `httpx`, `pydantic`, `pytest`). The model represents that run as `Crashed`.
- The source's comment and its warning message for the fallback both say it uses the current directory. The argument-less `load_dotenv()` in fact searches upward from the loader's directory, and that is what the model follows. By the time the fallback runs, the three candidate directories are known to hold no `.env`. So it can only load `src/utils/.env`, `src/.env`, or a `.env` above the farthest candidate's directory (`EnvLoader.FallbackSkipsCandidates`).
- `check_env` ignores the flag that `load_environment` returns. Its verdict depends only on `OPENAI_API_KEY`.
- The two scripts decide their exit codes independently. A missing optional variable never affects `check_env`. A failed environment-loader smoke test never affects `verify_install`.
- An empty value counts as unset in `check_env`, which uses Python truthiness. The same empty value counts as set in `get_env_var`, which only tests for `None`.
