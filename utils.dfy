/** `automation_scripts/utils/utils.py`: running a shell command, reading the
    git user name and cloning a repository. The child processes are not run:
    what they report (exit code, output) is an input, and so is the result of
    the "is there already a checkout" filesystem test. */
module Utils {
  import opened Wrappers
  import opened Text

  /** What a finished child process reports. `diagnostic` is the text of the
      `CalledProcessError` the subprocess library raises for a non-zero exit
      when output is not captured. */
  datatype ProcessOutcome = ProcessOutcome(returnCode: int, stdout: string, stderr: string, diagnostic: string)

  /** The triple `run_command` returns: `(code, stdout, stderr)`, where
      `None` stands for Python's `None`. */
  datatype CommandResult = CommandResult(code: int, stdout: Option<string>, stderr: Option<string>)

  /** `run_command(command, capture_output)` for a child that reported `p`.
      Capturing, both streams come back stripped and the call never fails;
      not capturing, the output went to the terminal, success is
      `(0, None, None)` and a failure is reported, not raised. */
  function RunCommand(captureOutput: bool, p: ProcessOutcome): (r: CommandResult)
    ensures r.code == p.returnCode
    ensures r.stdout.Some? <==> captureOutput
    ensures captureOutput ==> r.stdout == Some(Strip(p.stdout)) && r.stderr == Some(Strip(p.stderr))
    ensures !captureOutput && p.returnCode == 0 ==> r == CommandResult(0, None, None)
    ensures !captureOutput && p.returnCode != 0 ==> r.stderr == Some(p.diagnostic)
  {
    if captureOutput then
      CommandResult(p.returnCode, Some(Strip(p.stdout)), Some(Strip(p.stderr)))
    else if p.returnCode == 0 then
      CommandResult(0, None, None)
    else
      CommandResult(p.returnCode, None, Some(p.diagnostic))
  }

  /** `get_github_username()`: `git config --global user.name` reported `run`,
      or `None` when the child could not be started at all. The name is the
      stripped output of a successful run; anything else gives `None`. */
  function GithubUsername(run: Option<ProcessOutcome>): (r: Option<string>)
    ensures r.Some? <==> run.Some? && run.value.returnCode == 0
    ensures r.Some? ==> r.value == Strip(run.value.stdout) && IsStripped(r.value)
  {
    match run
    case None => None
    case Some(p) => if p.returnCode == 0 then Some(Strip(p.stdout)) else None
  }

  /** `GITHUB_USER = get_github_username() or input(...).strip()`: Python's
      `or` keeps the git user name only when there is one and it is not
      empty; otherwise the name typed at the prompt is used, stripped. */
  function ConfiguredUser(gitName: Option<string>, typed: string): (user: string)
    ensures gitName.Some? && gitName.value != [] ==> user == gitName.value
    ensures gitName.None? || gitName.value == [] ==> user == Strip(typed)
  {
    if gitName.Some? && gitName.value != [] then gitName.value else Strip(typed)
  }

  /** The local directory a repository is cloned into:
      `repo_name.split("/")[-1]`. */
  function RepoDir(repoName: string): (dir: string)
    ensures '/' !in dir
    ensures |dir| <= |repoName| && dir == repoName[|repoName| - |dir|..]
    ensures |dir| == |repoName| || repoName[|repoName| - |dir| - 1] == '/'
  {
    var parts := Split(repoName, '/');
    SplitLast(repoName, '/');
    parts[|parts| - 1]
  }

  /** The directory is the whole name exactly when the name has no `/`; only
      then is the clone directory the same path as `repo_name` itself. */
  lemma RepoDirWholeName(repoName: string)
    ensures RepoDir(repoName) == repoName <==> '/' !in repoName
  {
  }

  /** Any text after a last `/` decides the directory alone: whatever the
      group path in front of it, the directory is the same. */
  lemma RepoDirAfterSlash(group: string, name: string)
    ensures RepoDir(group + "/" + name) == RepoDir(name)
  {
    var s := group + "/" + name;
    var r := RepoDir(name);
    assert s[|s| - |r|..] == name[|name| - |r|..];
    if |r| == |name| {
      assert s[|s| - |r| - 1] == '/';
    } else {
      assert s[|s| - |r| - 1] == name[|name| - |r| - 1];
    }
    LastPieceUnique(s, '/', RepoDir(s), r);
  }

  /** A name after the last `/` is the directory. */
  lemma RepoDirOfName(group: string, name: string)
    requires '/' !in name
    ensures RepoDir(group + "/" + name) == name
  {
    RepoDirAfterSlash(group, name);
    RepoDirWholeName(name);
  }

  /** The error `clone_repo` raises. */
  datatype CloneError =
    | InvalidPlatform(message: string)   // ValueError
    | CloneFailed(message: string)       // RuntimeError

  /** What a successful `clone_repo` did: the directory it returns and the
      clone command it issued, if any. */
  datatype Clone = Clone(repoDir: string, command: Option<string>)

  const InvalidPlatformMessage := "❌ Invalid platform. Choose either 'github' or 'gitlab'."
  const CloneFailedPrefix := "❌ Failed to clone repository: "

  /** The remote URL for `platform`, compared without regard to case:
      GitHub repositories live under the configured user and only the last
      path piece is used; GitLab keeps the full group path. */
  function RemoteUrl(repoName: string, platform: string, githubUser: string): (url: Option<string>)
    ensures url.Some? <==> ToLower(platform) == "github" || ToLower(platform) == "gitlab"
    ensures ToLower(platform) == "github" ==>
      url == Some("https://github.com/" + githubUser + "/" + RepoDir(repoName) + ".git")
    ensures ToLower(platform) == "gitlab" ==>
      url == Some("https://gitlab.com/" + repoName + ".git")
  {
    var p := ToLower(platform);
    if p == "github" then Some("https://github.com/" + githubUser + "/" + RepoDir(repoName) + ".git")
    else if p == "gitlab" then Some("https://gitlab.com/" + repoName + ".git")
    else None
  }

  /** `clone_repo(repo_name, platform)`. `checkedOut` is the result of the
      test "the directory exists and holds `.git`"; `cloneRun` is what
      `git clone` reports if it is run (its output is captured). */
  function CloneRepo(repoName: string, platform: string, githubUser: string,
                     checkedOut: bool, cloneRun: ProcessOutcome): (r: Result<Clone, CloneError>)
    // an existing checkout is used as it is: nothing runs, the platform is not looked at
    ensures checkedOut ==> r == Ok(Clone(RepoDir(repoName), None))
    // success always returns the local directory name
    ensures r.Ok? ==> r.value.repoDir == RepoDir(repoName)
    // an unknown platform is an error only when a clone is needed
    ensures r.Err? && r.error.InvalidPlatform? <==> !checkedOut && RemoteUrl(repoName, platform, githubUser).None?
    ensures r.Err? && r.error.InvalidPlatform? ==> r.error.message == InvalidPlatformMessage
    // otherwise `git clone <url>` is issued, and fails exactly when git does
    ensures !checkedOut && RemoteUrl(repoName, platform, githubUser).Some? ==>
      var command := "git clone " + RemoteUrl(repoName, platform, githubUser).value;
      if cloneRun.returnCode != 0
      then r == Err(CloneFailed(CloneFailedPrefix + Strip(cloneRun.stderr)))
      else r == Ok(Clone(RepoDir(repoName), Some(command)))
  {
    var repoDir := RepoDir(repoName);
    if checkedOut then Ok(Clone(repoDir, None))
    else
      match RemoteUrl(repoName, platform, githubUser)
      case None => Err(InvalidPlatform(InvalidPlatformMessage))
      case Some(url) =>
        var command := "git clone " + url;
        var result := RunCommand(true, cloneRun);
        if result.code != 0 then Err(CloneFailed(CloneFailedPrefix + result.stderr.value))
        else Ok(Clone(repoDir, Some(command)))
  }

  /** The platform is compared case-insensitively: two spellings that lower
      to the same text clone the same way. */
  lemma PlatformCaseInsensitive(repoName: string, p1: string, p2: string, githubUser: string,
                                checkedOut: bool, cloneRun: ProcessOutcome)
    requires ToLower(p1) == ToLower(p2)
    ensures CloneRepo(repoName, p1, githubUser, checkedOut, cloneRun)
         == CloneRepo(repoName, p2, githubUser, checkedOut, cloneRun)
  {
  }

  /** Calling `clone_repo` again once the checkout exists issues no second
      clone and returns the same directory. */
  lemma CloneIdempotent(repoName: string, platform: string, githubUser: string, cloneRun: ProcessOutcome)
    requires CloneRepo(repoName, platform, githubUser, false, cloneRun).Ok?
    ensures CloneRepo(repoName, platform, githubUser, true, cloneRun)
         == Ok(Clone(CloneRepo(repoName, platform, githubUser, false, cloneRun).value.repoDir, None))
  {
  }

  /** For a GitHub clone the group part of `repo_name` is dropped: the URL
      names the configured user and the last path piece only. */
  lemma GithubUrlDropsGroup(group: string, name: string, githubUser: string)
    ensures RemoteUrl(group + "/" + name, "GitHub", githubUser)
         == RemoteUrl(name, "github", githubUser)
  {
    assert ToLower("GitHub") == "github";
    LowerOfLower("github");
    RepoDirAfterSlash(group, name);
  }
}
