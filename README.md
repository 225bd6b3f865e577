# automation-framework: the decision logic, in Dafny

The automation framework is a small web service that receives a request
("set up CI for my repository"), asks an LLM (Claude) to classify it into one
of five automation kinds, runs the matching automation script and streams
the script's output back. One of those scripts, `setup_github_actions.py`,
clones the repository, asks a local model (through Ollama) for a GitHub
Actions workflow, pulls the YAML out of the answer, checks it with `act`,
and tries at most three rounds: after an invalid round it retries with the
validator's complaint, so there are at most two retries.

Almost all of this is I/O. This project models the decisions around it and
proves what they guarantee:

- `backend.dfy` (module `Backend`, from `backend/main.py`): the request
  gate, the closed set of five intent labels, the label-to-script mapping
  with its fallback, and the two in-memory dictionaries `task_status` and
  `llm_outputs`, held by the class `TaskRegistry` whose methods update them.
- `utils.dfy` (module `Utils`, from `automation_scripts/utils/utils.py`):
  the result shapes of `run_command`, the git user-name lookup, and
  `clone_repo` (local directory, remote URL per platform, the skip when a
  checkout exists, and its two errors).
- `github_actions.dfy` (module `GithubActions`, from
  `automation_scripts/setup_github_actions.py`): `extract_yaml`, the
  error-message choice of `validate_yaml`, the bounded retry recursion of
  `generate_workflow` with its prompt selection, the workflow file path and
  the Actions page URL.
- `pipes.dfy` (module `Pipes`): a child's stdout pipe in text mode as a
  class, with `readline()` and `read()`, and the two line-by-line loops the
  script runs over such pipes.
- `text.dfy` (module `Text`): the Python `str` operations used:
  `strip()` (with Python's full `isspace` set), `replace("\t", "    ")`,
  substring search, `split("/")` and `lower()`.
- `wrappers.dfy` (module `Wrappers`): `Option` and `Result`.

Inputs from the outside world are parameters: the classifier's reply, the
fresh task id, the script's output lines, a child's exit code and output,
the "checkout exists" test, the directory listing and the model's answers.

Two consequences of the code that are easy to overlook:
- `user_input` is tested without being stripped (backend/main.py:36-39),
  so a whitespace-only `user_input` is accepted
  (`Backend.BlankUserInputAccepted`), while `repo_name` is stripped first.
- `cancel_automation` never writes a status (backend/main.py:126-130), so
  `Status` has only `Running` and `Completed`, and `CancelAutomation`
  leaves the registry untouched.

## Model

| member | source | states |
|---|---|---|
| Text.Strip | automation_scripts/utils/utils.py:27 | `strip()` removes exactly the leading and trailing whitespace: the result is an infix, everything cut off is whitespace, the result neither starts nor ends with whitespace, and it is empty iff the text is all whitespace |
| Text.StripIdempotent | automation_scripts/setup_github_actions.py:49-51 | stripping twice is stripping once |
| Text.ReplaceTabs | automation_scripts/setup_github_actions.py:53 | `replace("\t", "    ")` leaves no tab and never shortens the text |
| Text.ReplaceTabsWithoutTabs | automation_scripts/setup_github_actions.py:53 | a text without tabs is left unchanged |
| Text.ReplaceTabsAppend | automation_scripts/setup_github_actions.py:53 | replacing tabs distributes over concatenation |
| Text.OccurrenceBeforeReplace | automation_scripts/setup_github_actions.py:53 | a word without blanks that occurs after replacing tabs already occurred, at the matching position, before |
| Text.Split | automation_scripts/utils/utils.py:45 | `split(sep)` gives at least one piece, no piece holds the separator, and joining the pieces with it gives the text back |
| Text.SplitJoin | automation_scripts/utils/utils.py:45 | splitting a join of separator-free pieces gives the pieces back |
| Text.SplitLast | automation_scripts/utils/utils.py:45 | the last piece of a split is a suffix that is the whole text or follows a separator |
| Text.ToLower | automation_scripts/utils/utils.py:51-53 | the model of `lower()` maps character for character: each ASCII capital becomes its small letter and every other character is kept |
| Pipes.NextLine | automation_scripts/setup_github_actions.py:120 | `readline()` returns an empty line exactly at end of stream |
| Pipes.NextLineStopsAtNewline | automation_scripts/setup_github_actions.py:120 | the line holds no newline before its last character, and ends in one unless it is the whole rest of the stream |
| Pipes.LineThenRest | automation_scripts/setup_github_actions.py:120 | the line is a prefix of the stream: the line followed by what is left is the stream |
| Pipes.Pipe.ReadLine | automation_scripts/setup_github_actions.py:120 | reading a line consumes exactly that line from the front of the stream |
| Pipes.Pipe.ReadRest | automation_scripts/setup_github_actions.py:31 | `read()` returns everything not yet read and leaves the stream at its end |
| Pipes.CollectOutput | automation_scripts/setup_github_actions.py:119-122 | the `llm_output += line` loop gathers the child's whole output, in order, and drains the pipe |
| Pipes.DrainLines | automation_scripts/setup_github_actions.py:28-29 | the logging-only readline loop leaves the pipe empty |
| Utils.RunCommand | automation_scripts/utils/utils.py:22-34 | the code is the child's exit code; capturing gives both streams stripped; not capturing gives `(0, None, None)` on success and `(code, None, message)` on failure, so a non-zero exit never raises |
| Utils.GithubUsername | automation_scripts/utils/utils.py:8-14 | a name comes back iff the child ran and exited 0, and it is the stripped stdout; otherwise `None` |
| Utils.ConfiguredUser | automation_scripts/utils/utils.py:18 | `GITHUB_USER` is the git user name when it is present and non-empty, and otherwise the stripped name typed at the prompt |
| Utils.RepoDir | automation_scripts/utils/utils.py:45 | the local directory is the suffix of `repo_name` after its last `/` (all of it when there is none), holding no `/` |
| Utils.RepoDirWholeName | automation_scripts/utils/utils.py:45 | the directory is the whole name iff the name has no `/` |
| Utils.RepoDirAfterSlash | automation_scripts/utils/utils.py:45 | a group path before the last `/` never changes the directory |
| Utils.RepoDirOfName | automation_scripts/utils/utils.py:45 | a name without `/` after a group is the directory |
| Utils.RemoteUrl | automation_scripts/utils/utils.py:51-56 | a URL exists iff the lowered platform is "github" or "gitlab"; GitHub uses the configured user and the directory, GitLab the full group path |
| Utils.CloneRepo | automation_scripts/utils/utils.py:37-67 | an existing checkout returns the directory with no command run and no platform check; an unknown platform raises the invalid-platform error only when a clone is needed; otherwise `git clone <url>` runs and a non-zero exit raises with the stripped stderr; success returns the directory |
| Utils.PlatformCaseInsensitive | automation_scripts/utils/utils.py:51-53 | two platform spellings equal after lowering clone identically |
| Utils.CloneIdempotent | automation_scripts/utils/utils.py:48-49 | once a clone succeeded, calling again with the checkout present issues no clone and returns the same directory |
| Utils.GithubUrlDropsGroup | automation_scripts/utils/utils.py:51-52 | for GitHub the group path is dropped from the URL |
| Backend.ValidateRequest | backend/main.py:36-42 | 400 "User input and repo name are required" iff `user_input` is empty or `repo_name` is all whitespace; otherwise `user_input` as given and `repo_name` stripped and non-empty |
| Backend.BlankUserInputAccepted | backend/main.py:36-39 | a whitespace-only `user_input` passes, a whitespace-only `repo_name` does not |
| Backend.Decide | backend/main.py:33-82 | a refused request is decided before the classifier is consulted; a classifier failure gives 500 with its cause; the intent is the stripped reply; it is accepted iff it is one of the five labels, and otherwise the error payload carries that stripped text |
| Backend.ScriptFor | backend/main.py:91-102 | each label selects its own script, anything else the GitHub Actions script |
| Backend.ScriptForInjective | backend/main.py:91-100 | different labels select different scripts |
| Backend.FallbackIsGithubActions | backend/main.py:101-102 | an unknown label falls back to the script of "GitHub Actions" |
| Backend.TaskRegistry.constructor | backend/main.py:24-25 | both dictionaries start empty |
| Backend.TaskRegistry.RunAutomation | backend/main.py:33-87 | only an accepted request registers the fresh id, as Running with its label, keeping every other entry; a refused or unrecognised request leaves both dictionaries unchanged; both keep the same keys and hold only labels |
| Backend.TaskRegistry.LogStream | backend/main.py:89-111 | the script for the label runs with the repository name and the user's text; the stream is the script's lines verbatim followed by exactly one completion marker; while script lines are sent the task keeps the status it had when the stream started (Running for a stream `RunAutomation` hands out, see `DockerRequestEndToEnd`), and it is Completed for the marker |
| Backend.TaskRegistry.GetLlmOutput | backend/main.py:116-123 | 404 iff the id was never registered, otherwise exactly the stored label; nothing changes |
| Backend.TaskRegistry.CancelAutomation | backend/main.py:126-130 | always "Automation cancelled", and the registry is not touched |
| Backend.DockerRequestEndToEnd | backend/main.py:33-123 | a Docker request on a fresh service runs `dockerize_app.py`, relays the lines then the marker with the task Running for every line and Completed for the marker, stores "Docker", and an unknown id still gives 404 |
| GithubActions.ExtractYaml | automation_scripts/setup_github_actions.py:44-53 | the extracted YAML has no tab and no surrounding whitespace |
| GithubActions.YamlBlockIsFirstMatch | automation_scripts/setup_github_actions.py:46-49 | searching for the first opener and the next fence finds exactly the regex's first non-greedy match, and nothing iff there is no match |
| GithubActions.ExtractYamlTakesFirstBlock | automation_scripts/setup_github_actions.py:46-53 | with a block, the result is its text stripped with tabs replaced; without one, the whole text stripped with tabs replaced |
| GithubActions.ExtractedHasNoBlock | automation_scripts/setup_github_actions.py:44-53 | the extracted YAML never contains a fenced block |
| GithubActions.ExtractYamlIdempotent | automation_scripts/setup_github_actions.py:44-53 | extracting from extracted YAML changes nothing |
| GithubActions.ValidateYaml | automation_scripts/setup_github_actions.py:15-40 | as written: valid iff the exit code is 0 (with no message); after the readline loop drains stdout, a failure's message is the stripped stderr only |
| GithubActions.ValidationVerdict | automation_scripts/setup_github_actions.py:34-37 | as intended: a failure's message is the stripped stderr, or the stripped stdout when stderr is blank; it is blank only when both are |
| GithubActions.AsWrittenIsVerdictWithoutStdout | automation_scripts/setup_github_actions.py:28-37 | the as-written verdict is the intended verdict on a run whose stdout is empty, so validator runs reporting empty stdout make the model run the code as written |
| GithubActions.ValidateYamlCapturing | automation_scripts/setup_github_actions.py:27-40 | keeping the streamed lines gives exactly the intended verdict on the child's whole stdout |
| GithubActions.StdoutFallbackLost | automation_scripts/setup_github_actions.py:28-35 | a run failing with empty stderr and "workflow is invalid" on stdout yields an empty message as written, the validator's text as intended |
| GithubActions.ErrorContext | automation_scripts/setup_github_actions.py:69 | the error context is empty iff the last error is `None` or empty, and otherwise quotes it verbatim |
| GithubActions.SelectPrompt | automation_scripts/setup_github_actions.py:71-95 | attempt 1 gets the initial prompt with the listing and the user's text, any other attempt the correction prompt with the error context |
| GithubActions.GenerateWorkflow | automation_scripts/setup_github_actions.py:55-158 | past attempt 3 it returns `last_yaml` and builds no prompt; from attempt `a` at most `4 - a` rounds run, the first one with the prompt this attempt selects from its listing and `last_error`; an exception escapes iff the listing of the current attempt fails, and then no round runs; any YAML other than `last_yaml` that it returns is left unchanged by extraction |
| GithubActions.ValidRoundReturnsIt | automation_scripts/setup_github_actions.py:153-154 | at any attempt, a round whose YAML validates returns that extracted YAML and ends the run |
| GithubActions.CrashedRoundReturnsLastYaml | automation_scripts/setup_github_actions.py:156-158 | at any attempt, a round that raises returns the `last_yaml` it was given and ends the run |
| GithubActions.RetriesSendCorrections | automation_scripts/setup_github_actions.py:71-95 | from any attempt after the first, every prompt of the run is a correction |
| GithubActions.LaterPromptsAreCorrections | automation_scripts/setup_github_actions.py:71-95 | in every run, every prompt after the first is a correction |
| GithubActions.GenerateFromScratch | automation_scripts/setup_github_actions.py:55-64 | the script's call runs at most three rounds, the first being the initial prompt with the listing and the user's text; it raises iff the first listing fails; the YAML it returns holds no tab and extraction leaves it unchanged |
| GithubActions.InvalidRoundRetries | automation_scripts/setup_github_actions.py:144-151 | an invalid round retries with the next attempt, the validator's message and the YAML just extracted, and its own prompt comes first |
| GithubActions.AllRoundsInvalid | automation_scripts/setup_github_actions.py:60-64 | when every round is invalid, exactly three prompts go out, each correction carrying the previous failure, and the third round's YAML is returned |
| GithubActions.CrashKeepsPreviousYaml | automation_scripts/setup_github_actions.py:156-158 | an exception in the second round returns the YAML of the first |
| GithubActions.LateListingFailureGivesCallersYaml | automation_scripts/setup_github_actions.py:66-67 | a listing that fails in a retry is caught by the caller, which returns its own `last_yaml` (the empty text from scratch) |
| GithubActions.FirstValidRoundWins | automation_scripts/setup_github_actions.py:153-154 | a valid first round returns its YAML after one prompt |
| GithubActions.WorkflowPath | automation_scripts/setup_github_actions.py:160-162 | the workflow file lies inside `repo_name`, under `.github/workflows`, and its last path piece is `github-actions-pipeline.yml` |
| GithubActions.ActionsPageUrl | automation_scripts/setup_github_actions.py:193-195 | the Actions page is the repository page of the user name followed by `/actions`, and a missing user name shows as "None" |
| GithubActions.ActionsPageMatchesClone | automation_scripts/setup_github_actions.py:193-197 | for a name without a group, the GitHub clone URL of a user is that user's repository page followed by `.git` |
| GithubActions.ScriptPageMatchesClone | automation_scripts/setup_github_actions.py:204-233 | for a `repo_name` without `/`, when `git config` gives a non-empty name, the clone and the page opened at the end belong to the same repository |
| GithubActions.MissingGitNameOpensOtherPage | automation_scripts/setup_github_actions.py:204-233 | for a `repo_name` without `/`, when `git config` gives no name or an empty one, the clone uses the typed name but the page names "None" (or nobody), so unless that was typed the page belongs to another repository |
| GithubActions.IntendedActionsPage | automation_scripts/setup_github_actions.py:193-195 | the corrected page is the as-written page for `GITHUB_USER` |
| GithubActions.IntendedPageMatchesClone | automation_scripts/setup_github_actions.py:193-233 | for a `repo_name` without `/`, the corrected page belongs to the repository cloned from GitHub whatever `git config` reports |

## Left out

- Child processes (`subprocess.run`, `Popen`, `act`, `ollama`, `git clone`, the `gh` CLI): not run; their exit codes and output are inputs.
- The text of a `CalledProcessError`: library code outside the repository, so it is the input `diagnostic`.
- `run_script` and `cancel_execution`: backend/services/executor.py is not part of this model; the script's output lines are an input, and process killing is not modelled.
- The Claude and Ollama clients: network or foreign calls; each answer is an arbitrary string, and the prompt wording is not modelled beyond which kind of prompt is sent and what it carries.
- FastAPI routing, CORS, `StreamingResponse` and async scheduling: transport plumbing; a stream is consumed at once, in one `LogStream` call.
- Backend.TaskRegistry.RunAutomation: `uuid4` is replaced by a fresh id the caller supplies (a precondition that it is unused).
- Filesystem effects (`os.makedirs`, the write in `save_workflow`, `os.chdir`, `os.listdir`), git commit and push, and `webbrowser.open`: the listing is an input, only the paths and URLs are modelled.
- Utils.CloneRepo: the `change_dir` flag only calls `os.chdir`, so it has no parameter; the "directory exists and holds `.git`" test is an input.
- Module-level setup in utils.py (`GITHUB_TOKEN`, `MODEL_NAME`, logging configuration): constants with no decision. The name typed at the `input()` prompt behind `GITHUB_USER` is a parameter, and both calls of `get_github_username()` are taken to see the same git configuration.
- Logging: the root logger is set to ERROR, so `logging.info(line, end="")` never formats its arguments and cannot raise; the loops are modelled as doing nothing but reading.
- GithubActions.GenerateWorkflow: the Ollama exit code is only logged, so it is not part of `Round`; every exception inside the `try` (model start, saving, validation) is one `Crashed` round.
- GithubActions.GenerateWorkflow: `prompts` lists the prompt of every round that ran, including a round that crashed before its prompt was written to the model (`Popen` failing); the number of prompts actually delivered can be smaller.
- GithubActions.GenerateWorkflow: it uses the intended verdict `ValidationVerdict`, not the as-written one (see Findings).
- Text.ToLower: only ASCII letters are lowered. That is enough for its one use, comparing the platform with "github" and "gitlab": outside ASCII only U+212A KELVIN SIGN (to "k", in neither word) and U+0130 (to "i" plus a combining dot, which cannot equal either word) lower into ASCII letters, so the comparison answers as in Python; the length-preserving, character-for-character form is not Python's for U+0130.
- Utils.RunCommand: only `CalledProcessError` is caught; any other exception (a command that cannot be started, undecodable output under `text=True`) escapes, and the model has no path for it.
- GithubActions.ScriptPageMatchesClone: stated for a `repo_name` without `/`. With a group ("g/r") the clone drops the group (utils.py:52) but the page keeps it (setup_github_actions.py:195); the script never gets that far, because `commit_and_push_workflow` raises when `g/r` holds no `.git` (setup_github_actions.py:169-170).
- GithubActions.IntendedPageMatchesClone: stated for a `repo_name` without `/`, for the same reason.
- GithubActions.MissingGitNameOpensOtherPage: stated for a `repo_name` without `/`, for the same reason.
- Deadlock when a child fills its stderr pipe while stdout is being read: a concurrency effect, not modelled.
- `install_github_cli`, `authenticate_github`, `trigger_workflow`, `commit_and_push_workflow` and the `__main__` sequence: CLI and git calls whose few decisions lie outside the modelled core: `brew install gh` runs only when `gh --version` exits non-zero (setup_github_actions.py:181-182), `gh auth login` only when `gh auth status` does (:186-187), and `commit_and_push_workflow` raises `InvalidGitRepositoryError` when `repo_name` holds no `.git` (:169-170).

## Findings

| source | as written | input that shows it | evidently intended | confidence | as-written member | corrected member |
|---|---|---|---|---|---|---|
| automation_scripts/setup_github_actions.py:28-35 | the readline loop reads stdout to its end before `communicate()`, so `stdout_output` is always empty and the `or stdout_output.strip()` fallback never applies | `act` exits 1 with empty stderr and "workflow is invalid\n" on stdout: the message is "" (`GithubActions.StdoutFallbackLost`) | the message falls back on the stdout text, "workflow is invalid" | high, not executed | GithubActions.ValidateYaml | GithubActions.ValidationVerdict |
| automation_scripts/setup_github_actions.py:204-233 | the Actions page is opened for `get_github_username()` while the clone used `GITHUB_USER`, which falls back on the typed name when git gives none | `git config` fails and "alice" is typed: the clone is `https://github.com/alice/r.git`, the page `https://github.com/None/r/actions` (`GithubActions.MissingGitNameOpensOtherPage`) | for a `repo_name` without `/`, the page of the cloned repository, `https://github.com/alice/r/actions` | medium, not executed | GithubActions.ActionsPageUrl | GithubActions.IntendedActionsPage |
