/** The conversation and execution protocol of `EMGAnalyser`, stated on
    values: what each step does to the session state, given the answers of
    the operator, the completion service and the child process. */
module Protocol {
  import opened Wrappers
  import Strings
  import CodeFences

  datatype Role = System | User | Assistant

  datatype Message = Message(role: Role, content: string)

  /** The model, the response format and the sampling parameters sent
      with every request. */
  datatype Sampling = Sampling(model: string, responseFormat: string, temperature: int, maxCompletionTokens: int,
                               topP: int, frequencyPenalty: int, presencePenalty: int)

  const DefaultSampling := Sampling("gpt-4o", "text", 1, 2048, 1, 0, 0)

  const Instructions :=
    "Use the EMG dataset for developing motion decoding models. Col 1 is labels, and the " +
    "other columns are the corresponding EMG data.\n\n"

  /** What the agent fixes at construction: the system instruction and sampling. */
  datatype Setup = Setup(instructions: string, sampling: Sampling)

  datatype Request = Request(messages: seq<Message>, sampling: Sampling)

  /** The completion service's answer: the text of the first choice, a
      response without content, or an exception raised by the client. */
  datatype Reply = Content(text: string) | NoContent | ServiceError(reason: string)

  /** The child process: its exit status and captured streams, or the
      exception raised while writing the program file or starting it. */
  datatype ProcessResult = Exited(returncode: int, stdout: string, stderr: string) | CannotRun(reason: string)

  /** The services outside the agent, as total functions of the call's
      sequence number and its argument. */
  datatype Oracles = Oracles(complete: (nat, Request) -> Reply, run: (nat, string) -> ProcessResult)

  /** Everything the protocol reads and changes: the conversation history,
      the operator's remaining input lines, and logs of the requests sent,
      the programs handed to the interpreter and the execution results shown. */
  datatype State = State(questions: seq<string>, answers: seq<string>, inputs: seq<string>,
                         requests: seq<Request>, programs: seq<string>, reports: seq<string>)

  datatype SessionEnd = ExitRequested | InputClosed | Aborted(reason: string)

  const NoContentText := "Error: No content returned in the response."
  const SkippedText := "Execution skipped by user."
  /** The message of the `EOFError` that `input()` raises when the operator's input ends. */
  const EndOfInput := "EOF when reading a line"

  function Min(a: nat, b: nat): nat
  {
    if a <= b then a else b
  }

  /** The first `n` stored exchanges as alternating user and assistant turns. */
  function Exchanges(qs: seq<string>, ans: seq<string>, n: nat): (r: seq<Message>)
    requires n <= |qs| && n <= |ans|
    ensures |r| == 2 * n
  {
    if n == 0 then [] else Exchanges(qs, ans, n - 1) + [Message(User, qs[n - 1]), Message(Assistant, ans[n - 1])]
  }

  /** The message list of `get_response`: the system instruction, one
      user/assistant pair per entry of `zip(questions, answers)`, the new question. */
  function BuildMessages(instructions: string, qs: seq<string>, ans: seq<string>, q: string): (r: seq<Message>)
    ensures |r| == 2 * Min(|qs|, |ans|) + 2
    ensures r[0] == Message(System, instructions) && r[|r| - 1] == Message(User, q)
  {
    [Message(System, instructions)] + Exchanges(qs, ans, Min(|qs|, |ans|)) + [Message(User, q)]
  }

  lemma {:induction false} ExchangesShape(qs: seq<string>, ans: seq<string>, n: nat)
    requires n <= |qs| && n <= |ans|
    ensures |Exchanges(qs, ans, n)| == 2 * n
    ensures forall j :: 0 <= j < n ==> Exchanges(qs, ans, n)[2 * j] == Message(User, qs[j])
    ensures forall j :: 0 <= j < n ==> Exchanges(qs, ans, n)[2 * j + 1] == Message(Assistant, ans[j])
  {
    if n > 0 {
      ExchangesShape(qs, ans, n - 1);
    }
  }

  /** The assembled request opens with the system instruction, replays the
      stored exchanges in insertion order as far as both lists reach, and
      closes with the new question as a user turn. */
  lemma MessagesShape(instructions: string, qs: seq<string>, ans: seq<string>, q: string)
    ensures var m := BuildMessages(instructions, qs, ans, q);
      var n := Min(|qs|, |ans|);
      |m| == 2 * n + 2 && m[0] == Message(System, instructions) && m[|m| - 1] == Message(User, q) &&
      (forall j :: 0 <= j < n ==> m[2 * j + 1] == Message(User, qs[j]) && m[2 * j + 2] == Message(Assistant, ans[j]))
  {
    var n := Min(|qs|, |ans|);
    ExchangesShape(qs, ans, n);
    var m := BuildMessages(instructions, qs, ans, q);
    forall j | 0 <= j < n
      ensures m[2 * j + 1] == Message(User, qs[j]) && m[2 * j + 2] == Message(Assistant, ans[j])
    {
      assert m[2 * j + 1] == Exchanges(qs, ans, n)[2 * j];
      assert m[2 * j + 2] == Exchanges(qs, ans, n)[2 * j + 1];
    }
  }

  /** The prompt of the one-shot correction: the fixed introduction, the
      code in a `python` fence, and the error message at the very end. */
  function DebugPrompt(code: string, error: string): (r: string)
    ensures |r| == |DebugIntro| + |code| + |error| + 31
    ensures r[..|DebugIntro|] == DebugIntro
    ensures r[|DebugIntro| + 10..|DebugIntro| + 10 + |code|] == code
    ensures r[|r| - |error|..] == error
  {
    DebugIntro + "```python\n" + code + "\n```" + "\n\nError Message:\n" + error
  }

  /** The text before the fenced code.  It is the one sentence of the
      prompt followed by `Code:` on a line of its own, written here as short
      fragments: the verifier can check a short literal character by
      character, which `ProtocolProperties.DebugIntroHasNoBacktick` needs,
      but not a literal of this whole length. */
  const DebugIntro :=
    "The following Python " + "code resulted in an " + "error. Please identify " + "the issue and suggest " +
    "a corrected version:\n\n" + "Code:\n"

  function FailureReport(error: string, correction: string): string
  {
    "Execution failed:\n" + error + "\n\nLLM Suggestion:\n" + correction
  }

  function ExecutionError(reason: string): string
  {
    "Execution failed: " + reason
  }

  /** The execution gate: the stripped, lower-cased answer is exactly "yes". */
  predicate Confirms(line: string): (b: bool)
    ensures b ==> |Strings.Strip(line)| == 3
  {
    Strings.Lower(Strings.Strip(line)) == "yes"
  }

  /** The end of the session: the lower-cased line is exactly "exit". */
  predicate IsExit(line: string): (b: bool)
    ensures b ==> |line| == 4
  {
    Strings.Lower(line) == "exit"
  }

  /** `st2` is a later state than `st`: input is only consumed, and the
      history and every log are only appended to. */
  predicate Follows(st: State, st2: State)
  {
    |st2.inputs| <= |st.inputs| && st2.inputs == st.inputs[|st.inputs| - |st2.inputs|..] &&
    st.questions <= st2.questions && st.answers <= st2.answers &&
    st.requests <= st2.requests && st.programs <= st2.programs && st.reports <= st2.reports
  }

  /** Every request in `reqs` from index `from` on carries the agent's
      sampling and opens with its system instruction and closes with a user turn. */
  predicate RequestsFrom(setup: Setup, reqs: seq<Request>, from: nat)
  {
    forall k :: from <= k < |reqs| ==>
      reqs[k].sampling == setup.sampling && |reqs[k].messages| >= 2 &&
      reqs[k].messages[0] == Message(System, setup.instructions) &&
      reqs[k].messages[|reqs[k].messages| - 1].role == User
  }

  lemma SuffixTrans(a: seq<string>, b: seq<string>, c: seq<string>)
    requires |b| <= |a| && b == a[|a| - |b|..]
    requires |c| <= |b| && c == b[|b| - |c|..]
    ensures c == a[|a| - |c|..]
  {
    assert |a[|a| - |c|..]| == |c|;
    forall k | 0 <= k < |c|
      ensures c[k] == a[|a| - |c| + k]
    {
      assert c[k] == b[|b| - |c| + k];
    }
  }

  /** Successive steps compose: a state two steps later is still a later
      state, and every request sent in between is well formed. */
  lemma Chain(setup: Setup, a: State, b: State, c: State)
    requires Follows(a, b) && RequestsFrom(setup, b.requests, |a.requests|)
    requires Follows(b, c) && RequestsFrom(setup, c.requests, |b.requests|)
    ensures Follows(a, c) && RequestsFrom(setup, c.requests, |a.requests|)
  {
    SuffixTrans(a.inputs, b.inputs, c.inputs);
    forall k | |a.requests| <= k < |b.requests|
      ensures c.requests[k] == b.requests[k]
    {
    }
  }

  /** `get_response(q)`: one request built from the current history.
      Asking reads no operator input. */
  function GetResponse(o: Oracles, setup: Setup, st: State, q: string): (r: (Outcome<string>, State))
    ensures r.1.inputs == st.inputs
  {
    var request := Request(BuildMessages(setup.instructions, st.questions, st.answers, q), setup.sampling);
    var st' := st.(requests := st.requests + [request]);
    match o.complete(|st.requests|, request)
    case Content(text) => (Return(text), st')
    case NoContent => (Return(NoContentText), st')
    case ServiceError(reason) => (Raise(reason), st')
  }

  /** `execute_code(code)`: the gate, then the attempt.  Only the
      operator's input can raise out of it. */
  function ExecuteCode(o: Oracles, setup: Setup, st: State, code: string): (r: (Outcome<string>, State))
    ensures |r.1.inputs| <= |st.inputs|
  {
    if st.inputs == [] then (Raise(EndOfInput), st)
    else if !Confirms(st.inputs[0]) then (Return(SkippedText), st.(inputs := st.inputs[1..]))
    else
      var a := Attempt(o, setup, st.(inputs := st.inputs[1..]), code);
      (Return(a.0), a.1)
  }

  /** The guarded part of `execute_code`: hand the program to the
      interpreter; a clean exit yields its standard output, a nonzero exit
      status the correction, and a failure to write or start it the
      exception's text.  Nothing raises out of it. */
  function Attempt(o: Oracles, setup: Setup, st: State, code: string): (r: (string, State))
    ensures r.1.inputs == st.inputs
  {
    var st1 := st.(programs := st.programs + [code]);
    match o.run(|st.programs|, code)
    case CannotRun(reason) => (ExecutionError(reason), st1)
    case Exited(returncode, stdout, stderr) =>
      if returncode == 0 then (stdout, st1) else Correction(o, setup, st1, code, stderr)
  }

  /** The one-shot correction after a nonzero exit status: one request with
      the debug prompt, whose answer is reported and never executed. */
  function Correction(o: Oracles, setup: Setup, st: State, code: string, error: string): (r: (string, State))
    ensures r.1.inputs == st.inputs
  {
    var c := GetResponse(o, setup, st, DebugPrompt(code, error));
    match c.0
    case Return(correction) => (FailureReport(error, correction), c.1)
    case Raise(reason) => (ExecutionError(reason), c.1)
  }

  /** The loop over the extracted blocks: each block is executed and its
      result shown before the next one starts; an exception stops the loop. */
  function RunBlocks(o: Oracles, setup: Setup, st: State, blocks: seq<string>): (r: (Outcome<()>, State))
    decreases |blocks|
    ensures |r.1.inputs| <= |st.inputs|
  {
    if blocks == [] then (Return(()), st)
    else
      var e := ExecuteCode(o, setup, st, blocks[0]);
      match e.0
      case Raise(reason) => (Raise(reason), e.1)
      case Return(result) => RunBlocks(o, setup, e.1.(reports := e.1.reports + [result]), blocks[1..])
  }

  /** One turn of `converse` after the exit check: ask, record the exchange,
      then execute the code blocks of the answer in order. */
  function Turn(o: Oracles, setup: Setup, st: State, q: string): (r: (Outcome<()>, State))
    ensures |r.1.inputs| <= |st.inputs|
  {
    var g := GetResponse(o, setup, st, q);
    match g.0
    case Raise(reason) => (Raise(reason), g.1)
    case Return(answer) =>
      RunBlocks(o, setup, g.1.(questions := g.1.questions + [q], answers := g.1.answers + [answer]),
                CodeFences.ExtractCode(answer))
  }

  /** `converse`: read a line; "exit" in any case ends the session; otherwise
      run a turn, and end the session if it raised. */
  function Session(o: Oracles, setup: Setup, st: State): (r: (SessionEnd, State))
    decreases |st.inputs|
    ensures |r.1.inputs| <= |st.inputs|
    ensures r.0 == InputClosed ==> r.1.inputs == []
  {
    if st.inputs == [] then (InputClosed, st)
    else
      var q := st.inputs[0];
      var st1 := st.(inputs := st.inputs[1..]);
      if IsExit(q) then (ExitRequested, st1)
      else
        var t := Turn(o, setup, st1, q);
        match t.0
        case Raise(reason) => (Aborted(reason), t.1)
        case Return(_) => Session(o, setup, t.1)
  }

  /** A request changes nothing but the request log, to which it adds one
      well-formed request, and raises exactly when the service does. */
  lemma GetResponseSendsOne(o: Oracles, setup: Setup, st: State, q: string)
    ensures var r := GetResponse(o, setup, st, q);
      Follows(st, r.1) && r.1.(requests := st.requests) == st &&
      |r.1.requests| == |st.requests| + 1 && RequestsFrom(setup, r.1.requests, |st.requests|) &&
      r.1.requests[|st.requests|] == Request(BuildMessages(setup.instructions, st.questions, st.answers, q), setup.sampling) &&
      r.0 == match o.complete(|st.requests|, r.1.requests[|st.requests|])
             case Content(text) => Return(text)
             case NoContent => Return(NoContentText)
             case ServiceError(reason) => Raise(reason)
  {
  }

  /** The correction sends one well-formed request and changes nothing else. */
  lemma CorrectionSendsOne(o: Oracles, setup: Setup, st: State, code: string, error: string)
    ensures var r := Correction(o, setup, st, code, error);
      r.1.(requests := st.requests) == st && |r.1.requests| == |st.requests| + 1 &&
      RequestsFrom(setup, r.1.requests, |st.requests|)
  {
    GetResponseSendsOne(o, setup, st, DebugPrompt(code, error));
  }

  /** An attempt logs the program once, keeps the history, the input and
      the shown results, and sends only well-formed requests. */
  lemma AttemptFollows(o: Oracles, setup: Setup, st: State, code: string)
    ensures var r := Attempt(o, setup, st, code);
      Follows(st, r.1) && r.1.(requests := st.requests, programs := st.programs) == st &&
      r.1.programs == st.programs + [code] && RequestsFrom(setup, r.1.requests, |st.requests|)
  {
    var p := o.run(|st.programs|, code);
    if p.Exited? && p.returncode != 0 {
      CorrectionSendsOne(o, setup, st.(programs := st.programs + [code]), code, p.stderr);
    }
  }

  /** Executing a block consumes exactly one operator line when there is
      one, keeps the history and the shown results, sends only well-formed
      requests, and raises exactly when the operator's input has ended. */
  lemma ExecuteCodeFollows(o: Oracles, setup: Setup, st: State, code: string)
    ensures var r := ExecuteCode(o, setup, st, code);
      Follows(st, r.1) && r.1.questions == st.questions && r.1.answers == st.answers &&
      r.1.reports == st.reports && RequestsFrom(setup, r.1.requests, |st.requests|) &&
      |r.1.inputs| == (if st.inputs == [] then 0 else |st.inputs| - 1) &&
      (r.0.Raise? <==> st.inputs == [])
  {
    if st.inputs != [] && Confirms(st.inputs[0]) {
      var st1 := st.(inputs := st.inputs[1..]);
      AttemptFollows(o, setup, st1, code);
      SuffixTrans(st.inputs, st1.inputs, st1.inputs);
    }
  }

  /** The block loop keeps the history and sends only well-formed requests. */
  lemma {:induction false} RunBlocksFollows(o: Oracles, setup: Setup, st: State, blocks: seq<string>)
    decreases |blocks|
    ensures var r := RunBlocks(o, setup, st, blocks);
      Follows(st, r.1) && r.1.questions == st.questions && r.1.answers == st.answers &&
      RequestsFrom(setup, r.1.requests, |st.requests|)
  {
    if blocks != [] {
      var e := ExecuteCode(o, setup, st, blocks[0]);
      ExecuteCodeFollows(o, setup, st, blocks[0]);
      if e.0.Return? {
        var st1 := e.1.(reports := e.1.reports + [e.0.value]);
        RunBlocksFollows(o, setup, st1, blocks[1..]);
        Chain(setup, st, st1, RunBlocks(o, setup, st1, blocks[1..]).1);
      }
    }
  }

  /** A turn only consumes input, only appends to the history and the logs,
      and sends only well-formed requests. */
  lemma TurnFollows(o: Oracles, setup: Setup, st: State, q: string)
    ensures var r := Turn(o, setup, st, q);
      Follows(st, r.1) && RequestsFrom(setup, r.1.requests, |st.requests|)
  {
    var g := GetResponse(o, setup, st, q);
    GetResponseSendsOne(o, setup, st, q);
    if g.0.Return? {
      var st1 := g.1.(questions := g.1.questions + [q], answers := g.1.answers + [g.0.value]);
      RunBlocksFollows(o, setup, st1, CodeFences.ExtractCode(g.0.value));
      Chain(setup, st, st1, RunBlocks(o, setup, st1, CodeFences.ExtractCode(g.0.value)).1);
    }
  }

  /** A whole session only consumes input, only appends to the history and
      the logs, and every request it sends carries the agent's sampling,
      opens with its instruction and ends with a user turn. */
  lemma {:induction false} SessionFollows(o: Oracles, setup: Setup, st: State)
    decreases |st.inputs|
    ensures var r := Session(o, setup, st);
      Follows(st, r.1) && RequestsFrom(setup, r.1.requests, |st.requests|)
  {
    if st.inputs != [] && !IsExit(st.inputs[0]) {
      var st1 := st.(inputs := st.inputs[1..]);
      var t := Turn(o, setup, st1, st.inputs[0]);
      TurnFollows(o, setup, st1, st.inputs[0]);
      Chain(setup, st, st1, t.1);
      if t.0.Return? {
        SessionFollows(o, setup, t.1);
        Chain(setup, st, t.1, Session(o, setup, t.1).1);
      }
    }
  }

  /** One step of `converse` on a line that is not "exit". */
  lemma SessionStep(o: Oracles, setup: Setup, st: State)
    requires st.inputs != [] && !IsExit(st.inputs[0])
    ensures var t := Turn(o, setup, st.(inputs := st.inputs[1..]), st.inputs[0]);
      Session(o, setup, st) == if t.0.Raise? then (Aborted(t.0.reason), t.1) else Session(o, setup, t.1)
  {
  }

  /** One step of the block loop. */
  lemma RunBlocksStep(o: Oracles, setup: Setup, st: State, blocks: seq<string>)
    requires blocks != []
    ensures var e := ExecuteCode(o, setup, st, blocks[0]);
      RunBlocks(o, setup, st, blocks) ==
        if e.0.Raise? then (Raise(e.0.reason), e.1)
        else RunBlocks(o, setup, e.1.(reports := e.1.reports + [e.0.value]), blocks[1..])
  {
  }
}
