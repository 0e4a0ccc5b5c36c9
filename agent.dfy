/** `EMGAnalyser` as the object it is: a history that its methods append to,
    and a console, a completion service and an interpreter that it talks to.
    Every method is proved to do what the protocol of module `Protocol`
    says, so the properties proved there hold of the running agent. */
module Agent {
  import opened Wrappers
  import Strings
  import CodeFences
  import opened Protocol

  /** What the agent sees of the world: the operator's remaining lines, and
      logs of the requests sent, the programs handed to the interpreter and
      the execution results printed.  The services answer as `oracles` says. */
  class Environment {
    const oracles: Oracles
    var inputs: seq<string>
    var requests: seq<Request>
    var programs: seq<string>
    var reports: seq<string>

    constructor (oracles: Oracles, inputs: seq<string>)
      ensures this.oracles == oracles && this.inputs == inputs
      ensures requests == [] && programs == [] && reports == []
    {
      this.oracles := oracles;
      this.inputs := inputs;
      requests, programs, reports := [], [], [];
    }

    /** `input()`: the next line, or the `EOFError` once the input has ended. */
    method ReadLine() returns (r: Outcome<string>)
      modifies this`inputs
      ensures old(inputs) == [] ==> r == Raise(EndOfInput) && inputs == []
      ensures old(inputs) != [] ==> r == Return(old(inputs)[0]) && inputs == old(inputs)[1..]
    {
      if inputs == [] {
        r := Raise(EndOfInput);
      } else {
        r := Return(inputs[0]);
        inputs := inputs[1..];
      }
    }

    /** `client.chat.completions.create`: the request is sent and answered. */
    method Complete(request: Request) returns (reply: Reply)
      modifies this`requests
      ensures requests == old(requests) + [request]
      ensures reply == oracles.complete(|old(requests)|, request)
    {
      reply := oracles.complete(|requests|, request);
      requests := requests + [request];
    }

    /** Writing `temp_code.py` and `subprocess.run` on it. */
    method Run(code: string) returns (result: ProcessResult)
      modifies this`programs
      ensures programs == old(programs) + [code]
      ensures result == oracles.run(|old(programs)|, code)
    {
      result := oracles.run(|programs|, code);
      programs := programs + [code];
    }

    /** Printing an execution result. */
    method ShowResult(result: string)
      modifies this`reports
      ensures reports == old(reports) + [result]
    {
      reports := reports + [result];
    }
  }

  class EMGAnalyser {
    const instructions: string
    const sampling: Sampling
    var questionHistory: seq<string>
    var answerHistory: seq<string>

    constructor ()
      ensures instructions == Instructions && sampling == DefaultSampling
      ensures questionHistory == [] && answerHistory == []
    {
      instructions := Instructions;
      sampling := DefaultSampling;
      questionHistory, answerHistory := [], [];
    }

    function Config(): Setup
    {
      Setup(instructions, sampling)
    }

    /** The protocol state made of this agent's history and its environment. */
    function Snapshot(env: Environment): State
      reads this, env
    {
      State(questionHistory, answerHistory, env.inputs, env.requests, env.programs, env.reports)
    }

    /** `update_history`: each argument that is present is appended to its list. */
    method UpdateHistory(question: Option<string>, answer: Option<string>)
      modifies this
      ensures questionHistory == old(questionHistory) + (if question.Some? then [question.value] else [])
      ensures answerHistory == old(answerHistory) + (if answer.Some? then [answer.value] else [])
    {
      if question.Some? {
        questionHistory := questionHistory + [question.value];
      }
      if answer.Some? {
        answerHistory := answerHistory + [answer.value];
      }
    }

    /** The message list of `get_response`, built by the loop over
      `zip(question_history, answer_history)`. */
    method BuildMessages(question: string) returns (messages: seq<Message>)
      ensures messages == Protocol.BuildMessages(instructions, questionHistory, answerHistory, question)
    {
      var n := Min(|questionHistory|, |answerHistory|);
      messages := [Message(System, instructions)];
      var i := 0;
      while i < n
        invariant i <= n
        invariant messages == [Message(System, instructions)] + Exchanges(questionHistory, answerHistory, i)
      {
        messages := messages + [Message(User, questionHistory[i]), Message(Assistant, answerHistory[i])];
        i := i + 1;
      }
      messages := messages + [Message(User, question)];
    }

    /** `get_response`: one request; a service exception propagates. */
    method GetResponse(env: Environment, question: string) returns (r: Outcome<string>)
      modifies env
      ensures (r, Snapshot(env)) == Protocol.GetResponse(env.oracles, Config(), old(Snapshot(env)), question)
    {
      var messages := BuildMessages(question);
      var reply := env.Complete(Request(messages, sampling));
      match reply
      case Content(text) => r := Return(text);
      case NoContent => r := Return(NoContentText);
      case ServiceError(reason) => r := Raise(reason);
    }

    /** `execute_code`: the confirmation gate, the run, and on a nonzero
        exit status the one-shot correction. */
    method ExecuteCode(env: Environment, code: string) returns (r: Outcome<string>)
      modifies env
      ensures (r, Snapshot(env)) == Protocol.ExecuteCode(env.oracles, Config(), old(Snapshot(env)), code)
    {
      var line := env.ReadLine();
      if line.Raise? {
        return Raise(line.reason);
      }
      if Strings.Lower(Strings.Strip(line.value)) != "yes" {
        return Return(SkippedText);
      }
      var result := env.Run(code);
      match result
      case CannotRun(reason) =>
        r := Return(ExecutionError(reason));
      case Exited(returncode, stdout, stderr) =>
        if returncode == 0 {
          r := Return(stdout);
        } else {
          var correction := GetResponse(env, DebugPrompt(code, stderr));
          match correction
          case Return(text) => r := Return(FailureReport(stderr, text));
          case Raise(reason) => r := Return(ExecutionError(reason));
        }
    }

    /** The `for code in code_blocks` loop of `converse`: each block is
        executed and its result printed; an exception leaves the loop. */
    method ExecuteBlocks(env: Environment, blocks: seq<string>) returns (r: Outcome<()>)
      modifies env
      ensures (r, Snapshot(env)) == RunBlocks(env.oracles, Config(), old(Snapshot(env)), blocks)
    {
      var i := 0;
      while i < |blocks|
        invariant i <= |blocks|
        invariant questionHistory == old(questionHistory) && answerHistory == old(answerHistory)
        invariant RunBlocks(env.oracles, Config(), Snapshot(env), blocks[i..]) ==
                  RunBlocks(env.oracles, Config(), old(Snapshot(env)), blocks)
      {
        RunBlocksStep(env.oracles, Config(), Snapshot(env), blocks[i..]);
        assert blocks[i..][1..] == blocks[i + 1..];
        var result := ExecuteCode(env, blocks[i]);
        if result.Raise? {
          return Raise(result.reason);
        }
        env.ShowResult(result.value);
        i := i + 1;
      }
      assert blocks[i..] == [];
      r := Return(());
    }

    /** `converse`: read a line; stop on "exit"; otherwise ask, record the
        exchange, and execute the answer's code blocks one by one.  An
        exception inside a turn ends the conversation. */
    method Converse(env: Environment) returns (end: SessionEnd)
      modifies this, env
      ensures (end, Snapshot(env)) == Session(env.oracles, Config(), old(Snapshot(env)))
    {
      while true
        invariant Session(env.oracles, Config(), Snapshot(env)) == Session(env.oracles, Config(), old(Snapshot(env)))
        decreases |env.inputs|
      {
        ghost var before := Snapshot(env);
        var line := env.ReadLine();
        if line.Raise? {
          return InputClosed;
        }
        var question := line.value;
        if Strings.Lower(question) == "exit" {
          return ExitRequested;
        }
        SessionStep(env.oracles, Config(), before);
        var response := GetResponse(env, question);
        if response.Raise? {
          return Aborted(response.reason);
        }
        UpdateHistory(Some(question), Some(response.value));
        var blocks := CodeFences.ExtractCode(response.value);
        var outcome := ExecuteBlocks(env, blocks);
        if outcome.Raise? {
          return Aborted(outcome.reason);
        }
      }
    }
  }
}
