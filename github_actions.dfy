/** `automation_scripts/setup_github_actions.py`: asking a local model for a
    GitHub Actions workflow, pulling the YAML out of its answer, validating
    it and retrying with the validator's complaint. The model's answers, the
    directory listing and the validator's run are inputs (an `Oracle`). */
module GithubActions {
  import opened Wrappers
  import opened Text
  import opened Pipes
  import Utils

  // ---------------------------------------------------------------------
  // extract_yaml
  // ---------------------------------------------------------------------

  const Opener := "```yaml"
  const Fence := "```"

  /** The pattern "```yaml(.*?)```" (with DOTALL) can match at index `p`:
      an opener there and a fence somewhere after it. */
  ghost predicate MatchesAt(s: string, p: nat)
  {
    IsAt(s, p, Opener) && exists q: nat :: p + |Opener| <= q && IsAt(s, q, Fence)
  }

  /** `re.findall` finds at least one block. */
  ghost predicate HasBlock(s: string)
  {
    exists p: nat :: MatchesAt(s, p)
  }

  /** The regex's first match starts at `p` (the leftmost index where it can
      match) and its lazy group ends at `q` (the first fence after the
      opener). */
  ghost predicate FirstMatch(s: string, p: nat, q: nat)
  {
    && MatchesAt(s, p)
    && (forall p': nat :: p' < p ==> !MatchesAt(s, p'))
    && p + |Opener| <= q && IsAt(s, q, Fence)
    && (forall q': nat :: p + |Opener| <= q' < q ==> !IsAt(s, q', Fence))
  }

  /** `w` occurs nowhere in `s`. */
  ghost predicate Absent(s: string, w: string)
  {
    forall k: nat :: !IsAt(s, k, w)
  }

  /** The first group of `re.findall(r"```yaml(.*?)```", text, re.DOTALL)`,
      found by searching for the first opener and the first fence after it. */
  function YamlBlock(text: string): Option<string>
  {
    match FindFrom(text, Opener, 0)
    case None => None
    case Some(p) =>
      match FindFrom(text, Fence, p + |Opener|)
      case None => None
      case Some(q) => Some(text[p + |Opener|..q])
  }

  /** `extract_yaml(text)`: the first fenced block, or else the whole text,
      stripped, with every tab turned into four spaces. */
  function ExtractYaml(text: string): (r: string)
    ensures '\t' !in r
    ensures IsStripped(r)
  {
    var yamlText := match YamlBlock(text) case Some(b) => Strip(b) case None => Strip(text);
    ReplaceTabsKeepsEnds(yamlText);
    ReplaceTabs(yamlText)
  }

  /** The search in `YamlBlock` finds what the regex finds: nothing when the
      pattern matches nowhere, and otherwise the text between the leftmost
      match's opener and the first fence after it. */
  lemma YamlBlockIsFirstMatch(text: string)
    ensures YamlBlock(text).None? <==> !HasBlock(text)
    ensures HasBlock(text) ==> exists p: nat, q: nat :: FirstMatch(text, p, q)
    ensures forall p: nat, q: nat :: FirstMatch(text, p, q) ==> YamlBlock(text) == Some(text[p + |Opener|..q])
  {
    match FindFrom(text, Opener, 0)
    case None =>
    case Some(p0) =>
      match FindFrom(text, Fence, p0 + |Opener|)
      case None =>
      case Some(q0) =>
        assert MatchesAt(text, p0);
        assert FirstMatch(text, p0, q0);
        forall p: nat, q: nat | FirstMatch(text, p, q) ensures p == p0 && q == q0 {
          assert p <= p0;
          assert p0 <= p;
        }
  }

  /** `extract_yaml` as the regex defines it. */
  lemma ExtractYamlTakesFirstBlock(text: string)
    ensures !HasBlock(text) ==> ExtractYaml(text) == ReplaceTabs(Strip(text))
    ensures forall p: nat, q: nat :: FirstMatch(text, p, q) ==>
      ExtractYaml(text) == ReplaceTabs(Strip(text[p + |Opener|..q]))
  {
    YamlBlockIsFirstMatch(text);
  }

  /** A text without any fence cannot hold a block. */
  lemma NoFenceNoBlock(s: string)
    requires Absent(s, Fence)
    ensures !HasBlock(s)
  {
    forall p: nat | IsAt(s, p, Opener) ensures false {
      assert s[p..p + |Fence|] == s[p..p + |Opener|][..|Fence|];
      assert IsAt(s, p, Fence);
    }
  }

  /** Nothing absent from a text appears in its stripped form. */
  lemma AbsentAfterStrip(s: string, w: string)
    requires Absent(s, w)
    ensures Absent(Strip(s), w)
  {
    var a := LeadingSpace(s);
    forall k: nat | IsAt(Strip(s), k, w) ensures false {
      IsAtInfix(s, a, a + |Strip(s)|, k, w);
    }
  }

  /** A fence does not appear when tabs are replaced. */
  lemma FenceAbsentAfterReplace(s: string)
    requires Absent(s, Fence)
    ensures Absent(ReplaceTabs(s), Fence)
  {
    forall k: nat | IsAt(ReplaceTabs(s), k, Fence) ensures false {
      var i := OccurrenceBeforeReplace(s, k, Fence);
    }
  }

  /** The block between the first opener and the next fence holds no fence. */
  lemma BlockHasNoFence(text: string)
    requires YamlBlock(text).Some?
    ensures Absent(YamlBlock(text).value, Fence)
  {
    var p := FindFrom(text, Opener, 0).value;
    var q := FindFrom(text, Fence, p + |Opener|).value;
    var b := text[p + |Opener|..q];
    forall k: nat | IsAt(b, k, Fence) ensures false {
      IsAtInfix(text, p + |Opener|, q, k, Fence);
    }
  }

  /** A match inside an infix `s[a..b]` is a match in `s`. */
  lemma MatchesAtInfix(s: string, a: nat, b: nat, p: nat)
    requires a <= b <= |s| && MatchesAt(s[a..b], p)
    ensures MatchesAt(s, a + p)
  {
    var q: nat :| p + |Opener| <= q && IsAt(s[a..b], q, Fence);
    IsAtInfix(s, a, b, p, Opener);
    IsAtInfix(s, a, b, q, Fence);
    assert a + p + |Opener| <= a + q && IsAt(s, a + q, Fence);
  }

  /** Stripping cannot create a block. */
  lemma NoBlockAfterStrip(s: string)
    requires !HasBlock(s)
    ensures !HasBlock(Strip(s))
  {
    var a := LeadingSpace(s);
    var r := Strip(s);
    assert a + |r| <= |s| && r == s[a..a + |r|];
    forall p: nat | MatchesAt(r, p) ensures false {
      MatchesAtInfix(s, a, a + |r|, p);
    }
  }

  /** A block in `ReplaceTabs(s)` comes from a block in `s`: neither
      marker holds a blank, so both were there before the tabs grew. */
  lemma MatchBeforeReplace(s: string, k1: nat) returns (i1: nat)
    requires MatchesAt(ReplaceTabs(s), k1)
    ensures MatchesAt(s, i1)
  {
    var r := ReplaceTabs(s);
    var k2: nat :| k1 + |Opener| <= k2 && IsAt(r, k2, Fence);
    i1 := OccurrenceBeforeReplace(s, k1, Opener);
    var i2 := OccurrenceBeforeReplace(s, k2, Fence);
    OffsetGrowth(s, i1, i1 + |Opener|);
    if i2 < i1 + |Opener| {
      OffsetGrowth(s, i2, i1 + |Opener|);
      assert false;
    }
    assert i1 + |Opener| <= i2 && IsAt(s, i2, Fence);
  }

  /** Replacing tabs cannot create a block: the opener and the fence hold
      no blanks, so both come from the text before replacement, in the same
      order and without overlapping. */
  lemma NoBlockAfterReplace(s: string)
    requires !HasBlock(s)
    ensures !HasBlock(ReplaceTabs(s))
  {
    forall k1: nat | MatchesAt(ReplaceTabs(s), k1) ensures false {
      var i1 := MatchBeforeReplace(s, k1);
    }
  }

  /** What `extract_yaml` returns holds no block. */
  lemma ExtractedHasNoBlock(text: string)
    ensures !HasBlock(ExtractYaml(text))
  {
    YamlBlockIsFirstMatch(text);
    match YamlBlock(text)
    case Some(b) =>
      BlockHasNoFence(text);
      AbsentAfterStrip(b, Fence);
      FenceAbsentAfterReplace(Strip(b));
      NoFenceNoBlock(ReplaceTabs(Strip(b)));
    case None =>
      NoBlockAfterStrip(text);
      NoBlockAfterReplace(Strip(text));
  }

  /** Extracting from extracted YAML changes nothing: the result holds no
      fenced block, no surrounding whitespace and no tab. */
  lemma ExtractYamlIdempotent(text: string)
    ensures ExtractYaml(ExtractYaml(text)) == ExtractYaml(text)
  {
    var r := ExtractYaml(text);
    ExtractedHasNoBlock(text);
    YamlBlockIsFirstMatch(r);
    StripStripped(r);
    ReplaceTabsWithoutTabs(r);
  }

  // ---------------------------------------------------------------------
  // validate_yaml
  // ---------------------------------------------------------------------

  /** What a run of `act -n` in the repository reports. */
  datatype ActRun = ActRun(returnCode: int, stdout: string, stderr: string)

  /** `(is_valid, error_message)`. */
  datatype Validation = Validation(valid: bool, message: Option<string>)

  /** `validate_yaml` as written. The loop reads stdout to its end before
      `communicate()` is called, so `communicate()` hands back an empty
      stdout and the failure message can only be the stripped stderr. */
  method ValidateYaml(stdout: Pipe, stderr: string, returnCode: int) returns (v: Validation)
    requires stdout.Valid()
    modifies stdout
    ensures stdout.Valid() && stdout.Remaining() == []
    ensures v.valid <==> returnCode == 0
    ensures v.valid ==> v.message.None?
    ensures !v.valid ==> v.message == Some(Strip(stderr))
  {
    DrainLines(stdout);
    var stdoutOutput := stdout.ReadRest();
    if returnCode != 0 {
      var message := Strip(stderr);
      if message == [] {
        message := Strip(stdoutOutput);
      }
      v := Validation(false, Some(message));
    } else {
      v := Validation(true, None);
    }
  }

  /** The verdict `validate_yaml` is evidently meant to give: on failure, the
      stripped stderr, or the stripped stdout when stderr is blank. The
      message is blank only when both streams are. */
  function ValidationVerdict(run: ActRun): (v: Validation)
    ensures v.valid <==> run.returnCode == 0
    ensures v.valid ==> v.message.None?
    ensures !v.valid ==> v.message.Some?
    ensures !v.valid ==> (v.message.value == [] <==> Strip(run.stderr) == [] && Strip(run.stdout) == [])
    ensures !v.valid && Strip(run.stderr) != [] ==> v.message.value == Strip(run.stderr)
    ensures !v.valid && Strip(run.stderr) == [] ==> v.message.value == Strip(run.stdout)
  {
    if run.returnCode != 0 then
      var fromStderr := Strip(run.stderr);
      Validation(false, Some(if fromStderr != [] then fromStderr else Strip(run.stdout)))
    else
      Validation(true, None)
  }

  /** The verdict as written is the intended verdict on a run whose stdout
      is empty: draining stdout first is exactly forgetting it. So an oracle
      whose validator runs report empty stdout makes `GenerateWorkflow` run
      the program as written. */
  lemma AsWrittenIsVerdictWithoutStdout(returnCode: int, stderr: string)
    ensures var v := ValidationVerdict(ActRun(returnCode, "", stderr));
      && (v.valid <==> returnCode == 0)
      && (v.valid ==> v.message.None?)
      && (!v.valid ==> v.message == Some(Strip(stderr)))
  {
    assert Strip("") == "" by {
      StripStripped("");
    }
  }

  /** `validate_yaml` with the intended behaviour: the streaming loop keeps
      what it reads, and that text is the stdout the message falls back on. */
  method ValidateYamlCapturing(stdout: Pipe, stderr: string, returnCode: int) returns (v: Validation)
    requires stdout.Valid()
    modifies stdout
    ensures stdout.Valid() && stdout.Remaining() == []
    ensures v == ValidationVerdict(ActRun(returnCode, old(stdout.Remaining()), stderr))
  {
    var stdoutOutput := CollectOutput(stdout);
    if returnCode != 0 {
      var message := Strip(stderr);
      if message == [] {
        message := Strip(stdoutOutput);
      }
      v := Validation(false, Some(message));
    } else {
      v := Validation(true, None);
    }
  }

  /** A failing validation that explains itself only on stdout: as written
      the message is empty, as intended it is the validator's text. */
  method StdoutFallbackLost() returns (asWritten: Validation, intended: Validation)
    ensures asWritten == Validation(false, Some(""))
    ensures intended == Validation(false, Some("workflow is invalid"))
  {
    var text := "workflow is invalid";
    StripNewline(text);
    assert Strip("") == "";
    var stdout := new Pipe(text + "\n");
    asWritten := ValidateYaml(stdout, "", 1);
    var stdout' := new Pipe(text + "\n");
    intended := ValidateYamlCapturing(stdout', "", 1);
    assert intended == ValidationVerdict(ActRun(1, text + "\n", ""));
  }

  // ---------------------------------------------------------------------
  // generate_workflow
  // ---------------------------------------------------------------------

  const MaxRetries := 3

  /** The prompt sent to the model: the initial request (built from the
      repository listing and the user's text) or the error-correction one
      (built from the error context). */
  datatype Prompt = Initial(files: seq<string>, userInput: string) | Correction(errorContext: string)

  /** What happens in one round once its prompt is built: either something
      inside the `try` raises (the model cannot be started, the file cannot
      be saved, the validator cannot be run), or the model answers with
      `llmOutput` and the validator reports `check`. */
  datatype Round = Crashed | Produced(llmOutput: string, check: ActRun)

  /** The world `generate_workflow` talks to: the listing of the repository
      at each attempt (`None` when `os.listdir` raises) and the round that
      follows a prompt at each attempt. */
  datatype Oracle = Oracle(listDir: int -> Option<seq<string>>, round: (int, Prompt) -> Round)

  /** What `generate_workflow` did: the YAML it returned (`None` when an
      exception left it) and the prompts its rounds built, in order. A round
      that crashes counts its prompt even when the crash (the model failing
      to start) came before the prompt was written, so these are the prompts
      sent or about to be sent: the number actually delivered can be smaller. */
  datatype Generation = Generation(yaml: Option<string>, prompts: seq<Prompt>)

  const ErrorContextLead := "\n**Previous YAML attempt had this error:** "

  /** The error context: empty when `last_error` is `None` or empty (falsy),
      and otherwise a note that quotes the error verbatim. */
  function ErrorContext(lastError: Option<string>): (ctx: string)
    ensures ctx == [] <==> lastError.None? || lastError.value == []
    ensures ctx != [] ==> IsAt(ctx, |ErrorContextLead|, lastError.value)
  {
    if lastError.None? || lastError.value == [] then []
    else
      var ctx := ErrorContextLead + lastError.value + "\n";
      assert ctx[|ErrorContextLead|..|ErrorContextLead| + |lastError.value|] == lastError.value;
      ctx
  }

  /** Attempt 1 gets the initial prompt, every other attempt the
      error-correction prompt. */
  function SelectPrompt(attempt: int, files: seq<string>, userInput: string, lastError: Option<string>): (p: Prompt)
    ensures p.Initial? <==> attempt == 1
    ensures p.Initial? ==> p.files == files && p.userInput == userInput
    ensures p.Correction? ==> p.errorContext == ErrorContext(lastError)
  {
    if attempt == 1 then Initial(files, userInput) else Correction(ErrorContext(lastError))
  }

  /** `generate_workflow(repo_name, user_input, attempt, last_error, last_yaml)`.
      Past the retry bound it returns `last_yaml` untouched. Otherwise the
      listing happens outside the `try`, so its failure escapes; inside the
      `try`, a valid YAML is returned, an invalid one is retried with the
      next attempt number, the validator's message and that YAML, and any
      exception (including one escaping from the retry) gives `last_yaml`. */
  function GenerateWorkflow(userInput: string, attempt: int, lastError: Option<string>,
                            lastYaml: string, o: Oracle): (g: Generation)
    ensures attempt > MaxRetries ==> g == Generation(Some(lastYaml), [])
    ensures |g.prompts| <= if attempt <= MaxRetries then MaxRetries + 1 - attempt else 0
    ensures g.prompts != [] ==>
      attempt <= MaxRetries && o.listDir(attempt).Some?
      && g.prompts[0] == SelectPrompt(attempt, o.listDir(attempt).value, userInput, lastError)
    ensures g.yaml.Some? && g.yaml.value != lastYaml ==> ExtractYaml(g.yaml.value) == g.yaml.value
    ensures g.yaml.None? <==> attempt <= MaxRetries && o.listDir(attempt).None?
    ensures g.yaml.None? ==> g.prompts == []
    decreases if attempt <= MaxRetries then MaxRetries + 1 - attempt else 0
  {
    if attempt > MaxRetries then Generation(Some(lastYaml), [])
    else
      match o.listDir(attempt)
      case None => Generation(None, [])
      case Some(files) =>
        var prompt := SelectPrompt(attempt, files, userInput, lastError);
        match o.round(attempt, prompt)
        case Crashed => Generation(Some(lastYaml), [prompt])
        case Produced(llmOutput, check) =>
          var yamlOutput := ExtractYaml(llmOutput);
          ExtractYamlIdempotent(llmOutput);
          var verdict := ValidationVerdict(check);
          if verdict.valid then Generation(Some(yamlOutput), [prompt])
          else
            var retry := GenerateWorkflow(userInput, attempt + 1, verdict.message, yamlOutput, o);
            Generation(if retry.yaml.None? then Some(lastYaml) else retry.yaml, [prompt] + retry.prompts)
  }

  /** The call the script makes: `generate_workflow(repo_name, user_input)`.
      At most three prompts go out, the first being the initial one; an
      exception escapes only when the first listing fails; and what comes
      back is always extracted YAML, which extracting again leaves as is. */
  lemma GenerateFromScratch(userInput: string, o: Oracle)
    ensures var g := GenerateWorkflow(userInput, 1, None, "", o);
      && |g.prompts| <= MaxRetries
      && (g.prompts != [] ==> g.prompts[0] == Initial(o.listDir(1).value, userInput))
      && (g.yaml.None? <==> o.listDir(1).None?)
      && (g.yaml.Some? ==> ExtractYaml(g.yaml.value) == g.yaml.value && '\t' !in g.yaml.value)
  {
    assert ExtractYaml("") == "" by {
      YamlBlockIsFirstMatch("");
    }
  }

  /** One round whose YAML fails validation hands over to the next attempt
      with the validator's message and the YAML just extracted; the round's
      own prompt goes out first. */
  lemma InvalidRoundRetries(userInput: string, attempt: int, lastError: Option<string>, lastYaml: string, o: Oracle)
    returns (p: Prompt, nextError: Option<string>, nextYaml: string)
    requires 1 <= attempt <= MaxRetries && o.listDir(attempt).Some?
    requires var p := SelectPrompt(attempt, o.listDir(attempt).value, userInput, lastError);
      o.round(attempt, p).Produced? && o.round(attempt, p).check.returnCode != 0
    ensures p == SelectPrompt(attempt, o.listDir(attempt).value, userInput, lastError)
    ensures nextError == ValidationVerdict(o.round(attempt, p).check).message
    ensures nextYaml == ExtractYaml(o.round(attempt, p).llmOutput)
    ensures var retry := GenerateWorkflow(userInput, attempt + 1, nextError, nextYaml, o);
      GenerateWorkflow(userInput, attempt, lastError, lastYaml, o)
        == Generation(if retry.yaml.None? then Some(lastYaml) else retry.yaml, [p] + retry.prompts)
  {
    p := SelectPrompt(attempt, o.listDir(attempt).value, userInput, lastError);
    nextError := ValidationVerdict(o.round(attempt, p).check).message;
    nextYaml := ExtractYaml(o.round(attempt, p).llmOutput);
  }

  /** When every round produces YAML that fails validation, three prompts go
      out (the initial one, then corrections carrying the first and the
      second failure) and the YAML extracted in the third round is kept. */
  lemma AllRoundsInvalid(userInput: string, o: Oracle) returns (g: Generation)
    requires forall a :: 1 <= a <= MaxRetries ==> o.listDir(a).Some?
    requires forall a, p :: 1 <= a <= MaxRetries ==> o.round(a, p).Produced? && o.round(a, p).check.returnCode != 0
    ensures g == GenerateWorkflow(userInput, 1, None, "", o)
    ensures |g.prompts| == 3
    ensures g.prompts[0] == Initial(o.listDir(1).value, userInput)
    ensures g.prompts[1] == Correction(ErrorContext(ValidationVerdict(o.round(1, g.prompts[0]).check).message))
    ensures g.prompts[2] == Correction(ErrorContext(ValidationVerdict(o.round(2, g.prompts[1]).check).message))
    ensures g.yaml == Some(ExtractYaml(o.round(3, g.prompts[2]).llmOutput))
  {
    var p1, e1, y1 := InvalidRoundRetries(userInput, 1, None, "", o);
    var p2, e2, y2 := InvalidRoundRetries(userInput, 2, e1, y1, o);
    var p3, e3, y3 := InvalidRoundRetries(userInput, 3, e2, y2, o);
    var g3 := GenerateWorkflow(userInput, 3, e2, y2, o);
    assert g3 == Generation(Some(y3), [p3]);
    var g2 := GenerateWorkflow(userInput, 2, e1, y1, o);
    assert g2.yaml == Some(y3) && g2.prompts == [p2] + g3.prompts;
    g := GenerateWorkflow(userInput, 1, None, "", o);
    assert g.yaml == Some(y3) && g.prompts == [p1] + g2.prompts;
  }

  /** A round that raises after an invalid first round gives back the YAML
      of the first round: each retry carries the YAML just extracted. */
  lemma CrashKeepsPreviousYaml(userInput: string, o: Oracle)
    requires o.listDir(1).Some? && o.listDir(2).Some?
    requires forall p :: o.round(1, p).Produced? && o.round(1, p).check.returnCode != 0
    requires forall p :: o.round(2, p).Crashed?
    ensures var g := GenerateWorkflow(userInput, 1, None, "", o);
      g.yaml == Some(ExtractYaml(o.round(1, Initial(o.listDir(1).value, userInput)).llmOutput))
  {
  }

  /** A listing that fails in a retry is caught by the caller's `except`, so
      the caller's own `last_yaml` comes back: from scratch, the empty text,
      not the YAML of the first round. */
  lemma LateListingFailureGivesCallersYaml(userInput: string, o: Oracle)
    requires o.listDir(1).Some? && o.listDir(2).None?
    requires forall p :: o.round(1, p).Produced? && o.round(1, p).check.returnCode != 0
    ensures GenerateWorkflow(userInput, 1, None, "", o) == Generation(Some(""), [Initial(o.listDir(1).value, userInput)])
  {
  }

  /** At any attempt within the bound, a round whose YAML validates returns
      that YAML, and its prompt is the last one. */
  lemma ValidRoundReturnsIt(userInput: string, attempt: int, lastError: Option<string>, lastYaml: string, o: Oracle)
    requires 1 <= attempt <= MaxRetries && o.listDir(attempt).Some?
    requires var p := SelectPrompt(attempt, o.listDir(attempt).value, userInput, lastError);
      o.round(attempt, p).Produced? && o.round(attempt, p).check.returnCode == 0
    ensures var p := SelectPrompt(attempt, o.listDir(attempt).value, userInput, lastError);
      GenerateWorkflow(userInput, attempt, lastError, lastYaml, o)
        == Generation(Some(ExtractYaml(o.round(attempt, p).llmOutput)), [p])
  {
  }

  /** At any attempt within the bound, a round that raises returns the
      `last_yaml` it was given, and its prompt is the last one. */
  lemma CrashedRoundReturnsLastYaml(userInput: string, attempt: int, lastError: Option<string>, lastYaml: string, o: Oracle)
    requires 1 <= attempt <= MaxRetries && o.listDir(attempt).Some?
    requires o.round(attempt, SelectPrompt(attempt, o.listDir(attempt).value, userInput, lastError)).Crashed?
    ensures var p := SelectPrompt(attempt, o.listDir(attempt).value, userInput, lastError);
      GenerateWorkflow(userInput, attempt, lastError, lastYaml, o) == Generation(Some(lastYaml), [p])
  {
  }

  /** Every prompt in `ps` is a correction. */
  ghost predicate AllCorrections(ps: seq<Prompt>)
    decreases |ps|
  {
    ps == [] || (ps[0].Correction? && AllCorrections(ps[1..]))
  }

  /** `AllCorrections` read position by position. */
  lemma {:induction false} AllCorrectionsAt(ps: seq<Prompt>)
    requires AllCorrections(ps)
    ensures forall i :: 0 <= i < |ps| ==> ps[i].Correction?
    decreases |ps|
  {
    if ps != [] {
      AllCorrectionsAt(ps[1..]);
      forall i | 1 <= i < |ps| ensures ps[i].Correction? {
        assert ps[i] == ps[1..][i - 1];
      }
    }
  }

  /** A retry (any attempt after the first) sends only corrections, in its
      own round and in every retry it makes. */
  lemma {:induction false} RetriesSendCorrections(userInput: string, attempt: int, lastError: Option<string>,
                                                  lastYaml: string, o: Oracle)
    requires attempt >= 2
    ensures AllCorrections(GenerateWorkflow(userInput, attempt, lastError, lastYaml, o).prompts)
    decreases if attempt <= MaxRetries then MaxRetries + 1 - attempt else 0
  {
    if attempt <= MaxRetries && o.listDir(attempt).Some? {
      var p := SelectPrompt(attempt, o.listDir(attempt).value, userInput, lastError);
      var r := o.round(attempt, p);
      if r.Crashed? {
        CrashedRoundReturnsLastYaml(userInput, attempt, lastError, lastYaml, o);
        assert [p][1..] == [];
      } else if r.check.returnCode == 0 {
        ValidRoundReturnsIt(userInput, attempt, lastError, lastYaml, o);
        assert [p][1..] == [];
      } else {
        var _, nextError, nextYaml := InvalidRoundRetries(userInput, attempt, lastError, lastYaml, o);
        RetriesSendCorrections(userInput, attempt + 1, nextError, nextYaml, o);
        var retry := GenerateWorkflow(userInput, attempt + 1, nextError, nextYaml, o);
        assert ([p] + retry.prompts)[1..] == retry.prompts;
      }
    }
  }

  /** Only the first prompt of a run can be the initial one: every prompt
      after it belongs to a retry, and a retry sends only corrections
      (`AllCorrectionsAt` reads this position by position). */
  lemma LaterPromptsAreCorrections(userInput: string, attempt: int, lastError: Option<string>,
                                   lastYaml: string, o: Oracle)
    requires attempt >= 1
    ensures var g := GenerateWorkflow(userInput, attempt, lastError, lastYaml, o);
      g.prompts == [] || AllCorrections(g.prompts[1..])
  {
    var g := GenerateWorkflow(userInput, attempt, lastError, lastYaml, o);
    if attempt >= 2 {
      RetriesSendCorrections(userInput, attempt, lastError, lastYaml, o);
    } else if o.listDir(1).Some? {
      var p := SelectPrompt(1, o.listDir(1).value, userInput, lastError);
      var r := o.round(1, p);
      if r.Crashed? {
        CrashedRoundReturnsLastYaml(userInput, 1, lastError, lastYaml, o);
        assert g.prompts[1..] == [];
      } else if r.check.returnCode == 0 {
        ValidRoundReturnsIt(userInput, 1, lastError, lastYaml, o);
        assert g.prompts[1..] == [];
      } else {
        var _, nextError, nextYaml := InvalidRoundRetries(userInput, 1, lastError, lastYaml, o);
        RetriesSendCorrections(userInput, 2, nextError, nextYaml, o);
        var retry := GenerateWorkflow(userInput, 2, nextError, nextYaml, o);
        assert g.prompts[1..] == retry.prompts;
      }
    }
  }

  /** A valid first round ends the run with its YAML, after one prompt. */
  lemma FirstValidRoundWins(userInput: string, o: Oracle)
    requires o.listDir(1).Some?
    requires forall p :: o.round(1, p).Produced? && o.round(1, p).check.returnCode == 0
    ensures var p1 := Initial(o.listDir(1).value, userInput);
      GenerateWorkflow(userInput, 1, None, "", o) == Generation(Some(ExtractYaml(o.round(1, p1).llmOutput)), [p1])
  {
  }

  // ---------------------------------------------------------------------
  // save_workflow and open_github_actions_page
  // ---------------------------------------------------------------------

  const WorkflowFile := "github-actions-pipeline.yml"
  const WorkflowDir := "/.github/workflows"

  /** Where `save_workflow` writes: inside `repo_name`, under
      `.github/workflows`, in a file named `github-actions-pipeline.yml`. */
  function WorkflowPath(repoName: string): (path: string)
    ensures |repoName| <= |path| && path[..|repoName|] == repoName
    ensures path[|repoName|..] == WorkflowDir + "/" + WorkflowFile
    ensures Utils.RepoDir(path) == WorkflowFile
  {
    var path := (repoName + WorkflowDir) + "/" + WorkflowFile;
    Utils.RepoDirOfName(repoName + WorkflowDir, WorkflowFile);
    path
  }

  /** How an f-string shows an optional name: a missing one prints as
      `None`. */
  function Shown(name: Option<string>): string
  {
    if name.None? then "None" else name.value
  }

  /** The page `open_github_actions_page(repo_name, user_name)` opens. The
      script passes `get_github_username()`, which is `None` when the git
      user name cannot be read; the page then belongs to a user "None". */
  function ActionsPageUrl(userName: Option<string>, repoName: string): (url: string)
    ensures userName.Some? ==> url == RepositoryPage(userName.value, repoName) + "/actions"
    ensures userName.None? ==> url == RepositoryPage("None", repoName) + "/actions"
  {
    "https://github.com/" + Shown(userName) + "/" + repoName + "/actions"
  }

  function RepositoryPage(userName: string, repoName: string): string
  {
    "https://github.com/" + userName + "/" + repoName
  }

  /** For a repository name without a group, the GitHub clone URL of a
      user is that user's repository page followed by `.git`. */
  lemma ActionsPageMatchesClone(userName: string, repoName: string)
    requires '/' !in repoName
    ensures Utils.RemoteUrl(repoName, "github", userName) == Some(RepositoryPage(userName, repoName) + ".git")
  {
    Utils.RepoDirWholeName(repoName);
    LowerOfLower("github");
    var url := "https://github.com/" + userName + "/" + repoName + ".git";
    assert Utils.RemoteUrl(repoName, "github", userName) == Some(url);
    assert url == RepositoryPage(userName, repoName) + ".git";
  }

  /** Two repository pages of the same repository are equal only for the
      same user. */
  lemma RepositoryPageNamesUser(a: string, b: string, repoName: string)
    requires RepositoryPage(a, repoName) == RepositoryPage(b, repoName)
    ensures a == b
  {
    var page := RepositoryPage(a, repoName);
    var n := |"https://github.com/"|;
    assert |a| == |b|;
    assert a == page[n..n + |a|];
    assert b == RepositoryPage(b, repoName)[n..n + |b|];
  }

  /** When `git config` gives a non-empty user name, the script clones from
      that user (it is `GITHUB_USER`) and opens the Actions page of the
      repository it cloned. */
  lemma ScriptPageMatchesClone(gitName: Option<string>, typed: string, repoName: string)
    requires '/' !in repoName && gitName.Some? && gitName.value != []
    ensures Utils.RemoteUrl(repoName, "github", Utils.ConfiguredUser(gitName, typed))
         == Some(RepositoryPage(gitName.value, repoName) + ".git")
    ensures ActionsPageUrl(gitName, repoName) == RepositoryPage(gitName.value, repoName) + "/actions"
  {
    ActionsPageMatchesClone(gitName.value, repoName);
  }

  /** For a `repo_name` without `/`: when `git config` gives no user name or
      an empty one, the clone uses the name typed at the prompt, but the
      page opened names the user as `str(user_name)` ("None" or ""):
      unless that is what was typed, the page belongs to another repository
      than the one cloned. */
  lemma MissingGitNameOpensOtherPage(gitName: Option<string>, typed: string, repoName: string)
    requires '/' !in repoName
    requires gitName.None? || gitName.value == []
    requires Strip(typed) != Shown(gitName)
    ensures ActionsPageUrl(gitName, repoName) == RepositoryPage(Shown(gitName), repoName) + "/actions"
    ensures Utils.RemoteUrl(repoName, "github", Utils.ConfiguredUser(gitName, typed))
         != Some(RepositoryPage(Shown(gitName), repoName) + ".git")
  {
    var user := Utils.ConfiguredUser(gitName, typed);
    ActionsPageMatchesClone(user, repoName);
    if RepositoryPage(user, repoName) + ".git" == RepositoryPage(Shown(gitName), repoName) + ".git" {
      assert RepositoryPage(user, repoName) == (RepositoryPage(user, repoName) + ".git")[..|RepositoryPage(user, repoName)|];
      assert RepositoryPage(user, repoName) == RepositoryPage(Shown(gitName), repoName);
      RepositoryPageNamesUser(user, Shown(gitName), repoName);
    }
  }

  /** The page the script evidently means to open: the Actions page of the
      user it cloned from, `GITHUB_USER`. */
  function IntendedActionsPage(gitName: Option<string>, typed: string, repoName: string): (url: string)
    ensures url == ActionsPageUrl(Some(Utils.ConfiguredUser(gitName, typed)), repoName)
  {
    "https://github.com/" + Utils.ConfiguredUser(gitName, typed) + "/" + repoName + "/actions"
  }

  /** For a `repo_name` without `/`, the intended page belongs to the
      repository the script cloned from GitHub, whatever `git config`
      reports. */
  lemma IntendedPageMatchesClone(gitName: Option<string>, typed: string, repoName: string)
    requires '/' !in repoName
    ensures var user := Utils.ConfiguredUser(gitName, typed);
      && Utils.RemoteUrl(repoName, "github", user) == Some(RepositoryPage(user, repoName) + ".git")
      && IntendedActionsPage(gitName, typed, repoName) == RepositoryPage(user, repoName) + "/actions"
  {
    ActionsPageMatchesClone(Utils.ConfiguredUser(gitName, typed), repoName);
  }
}
