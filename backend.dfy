/** `backend/main.py`: the web service that classifies a request, registers
    a task and streams the chosen script's output. The classifier's reply,
    the fresh task id and the script's output lines are inputs; the two
    module-level dictionaries become the fields of `TaskRegistry`. */
module Backend {
  import opened Wrappers
  import opened Text

  /** The JSON body of `POST /run-automation`. */
  datatype Request = Request(userInput: string, repoName: string)

  /** An `HTTPException` raised by a handler. */
  datatype HttpError = HttpError(status: nat, detail: string)

  /** What `claude.chat` did: answered with a text, or raised. */
  datatype ClassifierReply = Reply(text: string) | ApiError(cause: string)

  /** The value stored in `task_status`. */
  datatype Status = Running | Completed

  /** The five labels the classifier may answer with, in the source's order. */
  const Intents: seq<string> := ["GitHub Actions", "Docker", "GitLab CI/CD", "Kubernetes", "Cloud"]

  /** The scripts they select, in the same order. */
  const Scripts: seq<string> := ["setup_github_actions.py", "dockerize_app.py", "setup_gitlab_ci.py",
                                 "setup_kubernetes.py", "deploy_to_cloud.py"]

  const MissingInputDetail := "User input and repo name are required"
  const UnrecognizedIntentError := "LLM returned an unrecognized intent."
  const UnknownTaskDetail := "Task ID not found or no LLM output available."
  const CompletionMarker := "✅ Task Completed!"
  const CancelledMessage := "Automation cancelled"

  /** The request gate. `repo_name` is stripped, `user_input` is not: a
      request is refused with 400 when `user_input` is empty or `repo_name`
      is blank; otherwise the request goes on with the stripped name. */
  function ValidateRequest(req: Request): (r: Result<Request, HttpError>)
    ensures r.Err? <==> req.userInput == [] || forall i :: 0 <= i < |req.repoName| ==> IsSpace(req.repoName[i])
    ensures r.Err? ==> r.error == HttpError(400, MissingInputDetail)
    ensures r.Ok? ==> r.value.userInput == req.userInput && r.value.repoName == Strip(req.repoName)
    ensures r.Ok? ==> r.value.repoName != [] && IsStripped(r.value.repoName)
  {
    var repoName := Strip(req.repoName);
    if req.userInput == [] || repoName == [] then Err(HttpError(400, MissingInputDetail))
    else Ok(Request(req.userInput, repoName))
  }

  /** A whitespace-only `user_input` passes the gate (it is not stripped),
      while a whitespace-only `repo_name` does not. */
  lemma BlankUserInputAccepted(repoName: string)
    requires Strip(repoName) != []
    ensures ValidateRequest(Request(" ", repoName)).Ok?
    ensures ValidateRequest(Request("x", " ")).Err?
  {
    assert forall i :: 0 <= i < |" "| ==> IsSpace(" "[i]);
  }

  /** How `run_automation` answers before any stream starts. */
  datatype Decision =
    | Reject(error: HttpError)                          // 400 or 500
    | Unrecognized(message: string, llmOutput: string)  // JSON `{error, llm_output}`, status 200
    | Accept(intent: string, repoName: string, userInput: string)

  /** The decision part of `run_automation`: validate, classify, check the
      label. The gate comes first, so a refused request does not depend on
      the classifier at all; a reply is trimmed and must be one of the five
      exact labels. */
  function Decide(req: Request, reply: ClassifierReply): (d: Decision)
    ensures ValidateRequest(req).Err? ==> d == Reject(ValidateRequest(req).error)
    ensures d.Reject? && d.error.status == 400 <==> ValidateRequest(req).Err?
    ensures ValidateRequest(req).Ok? && reply.ApiError? ==>
      d == Reject(HttpError(500, "Claude API error: " + reply.cause))
    ensures d.Unrecognized? <==> ValidateRequest(req).Ok? && reply.Reply? && Strip(reply.text) !in Intents
    ensures d.Unrecognized? ==> d.message == UnrecognizedIntentError && d.llmOutput == Strip(reply.text)
    ensures d.Accept? <==> ValidateRequest(req).Ok? && reply.Reply? && Strip(reply.text) in Intents
    ensures d.Accept? ==> d.intent in Intents && d.intent == Strip(reply.text)
    ensures d.Accept? ==> Request(d.userInput, d.repoName) == ValidateRequest(req).value
  {
    match ValidateRequest(req)
    case Err(e) => Reject(e)
    case Ok(valid) =>
      match reply
      case ApiError(cause) => Reject(HttpError(500, "Claude API error: " + cause))
      case Reply(text) =>
        var intent := Strip(text);
        if intent in Intents then Accept(intent, valid.repoName, valid.userInput)
        else Unrecognized(UnrecognizedIntentError, intent)
  }

  /** The `if`/`elif` chain in `log_stream`: each label selects its own
      script, and anything else falls back to the GitHub Actions one. */
  function ScriptFor(intent: string): (script: string)
    ensures script in Scripts
    ensures forall i :: 0 <= i < |Intents| && intent == Intents[i] ==> script == Scripts[i]
    ensures intent !in Intents ==> script == "setup_github_actions.py"
  {
    if intent == "GitHub Actions" then "setup_github_actions.py"
    else if intent == "Docker" then "dockerize_app.py"
    else if intent == "GitLab CI/CD" then "setup_gitlab_ci.py"
    else if intent == "Kubernetes" then "setup_kubernetes.py"
    else if intent == "Cloud" then "deploy_to_cloud.py"
    else "setup_github_actions.py"
  }

  /** Different labels never run the same script. */
  lemma ScriptForInjective(a: string, b: string)
    requires a in Intents && b in Intents && a != b
    ensures ScriptFor(a) != ScriptFor(b)
  {
  }

  /** The fallback is reachable only by a label outside the closed set, and
      it coincides with the script of "GitHub Actions". */
  lemma FallbackIsGithubActions(intent: string)
    requires intent !in Intents
    ensures ScriptFor(intent) == ScriptFor("GitHub Actions") == Scripts[0]
  {
  }

  /** The stream `run_automation` hands back: the closure `log_stream` with
      the values it captured. */
  datatype Stream = Stream(taskId: string, intent: string, repoName: string, userInput: string)

  /** The script `run_script` is asked to run, with its two arguments. */
  datatype ScriptCall = ScriptCall(script: string, repoName: string, userInput: string)

  /** The module-level `task_status` and `llm_outputs` dictionaries. */
  class TaskRegistry {
    var taskStatus: map<string, Status>
    var llmOutputs: map<string, string>

    /** Both dictionaries are written together, so they hold the same task
        ids, and only a label from the closed set is ever stored. */
    ghost predicate Valid()
      reads this
    {
      && taskStatus.Keys == llmOutputs.Keys
      && forall id :: id in llmOutputs ==> llmOutputs[id] in Intents
    }

    constructor ()
      ensures Valid() && taskStatus == map[] && llmOutputs == map[]
    {
      taskStatus := map[];
      llmOutputs := map[];
    }

    /** `POST /run-automation` up to the point where the stream is returned.
        `freshId` stands for `str(uuid.uuid4())`: an id not in use. Only an
        accepted request registers a task, as Running with its label; a
        refused or unrecognized one leaves both dictionaries as they were. */
    method RunAutomation(req: Request, reply: ClassifierReply, freshId: string)
      returns (d: Decision, stream: Option<Stream>)
      requires Valid() && freshId !in taskStatus
      modifies this
      ensures Valid()
      ensures d == Decide(req, reply)
      ensures stream.Some? <==> d.Accept?
      ensures d.Accept? ==>
        && stream.value == Stream(freshId, d.intent, d.repoName, d.userInput)
        && taskStatus == old(taskStatus)[freshId := Running]
        && llmOutputs == old(llmOutputs)[freshId := d.intent]
      ensures !d.Accept? ==> taskStatus == old(taskStatus) && llmOutputs == old(llmOutputs)
    {
      d := Decide(req, reply);
      if d.Accept? {
        taskStatus := taskStatus[freshId := Running];
        llmOutputs := llmOutputs[freshId := d.intent];
        stream := Some(Stream(freshId, d.intent, d.repoName, d.userInput));
      } else {
        stream := None;
      }
    }

    /** Consuming the stream (`log_stream`): run the script for the label
        with the repository name and the user's text, relay its lines as
        they are, then mark the task Completed and add the completion
        marker. `statuses[i]` is the task's status when `out[i]` is sent:
        the task turns Completed only after the script's last line. */
    method LogStream(s: Stream, scriptOutput: seq<string>)
      returns (call: ScriptCall, out: seq<string>, ghost statuses: seq<Status>)
      requires Valid() && s.taskId in taskStatus
      modifies this
      ensures Valid()
      ensures call == ScriptCall(ScriptFor(s.intent), s.repoName, s.userInput)
      ensures out == scriptOutput + [CompletionMarker]
      ensures |statuses| == |out|
      ensures forall i :: 0 <= i < |scriptOutput| ==> statuses[i] == old(taskStatus)[s.taskId]
      ensures statuses[|scriptOutput|] == Completed
      ensures taskStatus == old(taskStatus)[s.taskId := Completed] && llmOutputs == old(llmOutputs)
    {
      call := ScriptCall(ScriptFor(s.intent), s.repoName, s.userInput);
      out, statuses := [], [];
      var i := 0;
      while i < |scriptOutput|
        invariant 0 <= i <= |scriptOutput|
        invariant out == scriptOutput[..i] && |statuses| == i
        invariant forall k :: 0 <= k < i ==> statuses[k] == old(taskStatus)[s.taskId]
        invariant taskStatus == old(taskStatus) && llmOutputs == old(llmOutputs)
      {
        out, statuses := out + [scriptOutput[i]], statuses + [taskStatus[s.taskId]];
        i := i + 1;
      }
      taskStatus := taskStatus[s.taskId := Completed];
      out, statuses := out + [CompletionMarker], statuses + [taskStatus[s.taskId]];
    }

    /** `GET /get-llm-output/{task_id}`: 404 for an id never registered,
        otherwise exactly the stored label. Nothing is changed. */
    method GetLlmOutput(taskId: string) returns (r: Result<string, HttpError>)
      requires Valid()
      ensures r.Err? <==> taskId !in llmOutputs
      ensures r.Err? ==> r.error == HttpError(404, UnknownTaskDetail)
      ensures r.Ok? ==> r.value == llmOutputs[taskId] && r.value in Intents
    {
      if taskId !in llmOutputs {
        r := Err(HttpError(404, UnknownTaskDetail));
      } else {
        r := Ok(llmOutputs[taskId]);
      }
    }

    /** `POST /cancel-automation`: always the same reply, whatever the
        registry holds; the registry is not touched (no task is marked
        cancelled). */
    method CancelAutomation() returns (message: string)
      ensures message == CancelledMessage
    {
      message := CancelledMessage;
    }
  }

  /** The request of `DockerRequestEndToEnd` passes the gate unchanged. */
  lemma DockerRequestValid()
    ensures ValidateRequest(Request("deploy with docker", "my-repo")) == Ok(Request("deploy with docker", "my-repo"))
  {
    StripStripped("my-repo");
  }

  /** The reply "Docker" is one of the labels, already trimmed. */
  lemma DockerLabel()
    ensures Strip("Docker") == "Docker" && "Docker" in Intents
  {
    StripStripped("Docker");
    assert Intents[1] == "Docker";
  }

  /** The Docker request of `DockerRequestEndToEnd` is accepted as is. */
  lemma DockerRequestAccepted()
    ensures Decide(Request("deploy with docker", "my-repo"), Reply("Docker"))
         == Accept("Docker", "my-repo", "deploy with docker")
  {
    DockerRequestValid();
    DockerLabel();
  }

  /** A request from a fresh service: `{user_input: "deploy with docker",
      repo_name: "my-repo"}` classified as "Docker" runs the Docker script
      with `("my-repo", "deploy with docker")`, relays its lines verbatim
      followed by the marker, with the task Running while the lines go out
      and Completed for the marker, and the stored label is "Docker". */
  method DockerRequestEndToEnd(scriptOutput: seq<string>)
    returns (call: ScriptCall, out: seq<string>, ghost statuses: seq<Status>,
             stored: Result<string, HttpError>, unknown: Result<string, HttpError>)
    ensures call == ScriptCall("dockerize_app.py", "my-repo", "deploy with docker")
    ensures out == scriptOutput + [CompletionMarker]
    ensures |statuses| == |out|
    ensures forall i :: 0 <= i < |scriptOutput| ==> statuses[i] == Running
    ensures statuses[|scriptOutput|] == Completed
    ensures stored == Ok("Docker")
    ensures unknown == Err(HttpError(404, UnknownTaskDetail))
  {
    var registry := new TaskRegistry();
    DockerRequestAccepted();
    var d, stream := registry.RunAutomation(Request("deploy with docker", "my-repo"), Reply("Docker"), "task-1");
    call, out, statuses := registry.LogStream(stream.value, scriptOutput);
    stored := registry.GetLlmOutput("task-1");
    unknown := registry.GetLlmOutput("task-2");
  }
}
