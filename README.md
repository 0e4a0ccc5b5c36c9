# EMG Analyser agent and cross-validation indices in Dafny

This project models the core of an interactive analysis agent for
electromyography (EMG) data. The agent is the `EMGAnalyser` class in
`src/GPT_Analyser.py`. In a loop, it:

- reads a question from the operator;
- sends the question, together with the whole stored conversation, to a
  chat-completion service;
- records the question and the answer;
- extracts the fenced Python code blocks from the answer;
- for each block, asks the operator for confirmation, runs the block in a
  child process and shows the result;
- when a block exits with a nonzero status, makes one extra request asking
  the model for a correction.

The project also models the index logic of the offline experiment in
`src/GPT_code.py`:

- the sliding windows of `extract_features`;
- the ten-fold leave-three-out split of `main`.

Files:

- `wrappers.dfy` (`Wrappers`): `Option`, and `Outcome`, which stands for a
  Python call that either returns a value or raises an exception with a
  message.
- `strings.dfy` (`Strings`): `str.strip()` over Python's whitespace set, and
  `str.lower()`.
- `fences.dfy` (`CodeFences`): `extract_code`. It is written as the scan that
  `re.findall` performs with the pattern ```` ```(?:python)?\n(.*?)``` ```` under
  `re.DOTALL`:
  - the pattern is tried at each index;
  - the `python` tag is optional, and the engine backtracks to an empty tag
    when the tag is not followed by a newline;
  - the body is lazy and stops at the first fence;
  - after a match, the scan resumes just past the closing fence.

  The module proves the round trip, ordering, completeness and
  unterminated-fence properties about this scan.
- `protocol.dfy` (`Protocol`): the agent's behaviour as functions on a `State`
  value. The state holds:
  - the question and answer histories;
  - the operator's remaining input lines;
  - a log of the requests sent;
  - a log of the programs handed to the interpreter;
  - a log of the execution results shown.

  The chat service and the interpreter are `Oracles`: total functions of the
  call's sequence number and its argument. Python exceptions are `Outcome.Raise`
  values and follow the source's `try`/`except` structure:
  - running out of operator input is the `EOFError` of `input()`;
  - at the top-level prompt (`src/GPT_Analyser.py:125`) the `input()` call
    lies outside the `try`, so the `EOFError` leaves `converse` uncaught; the
    model ends the session with `InputClosed`, which stands for that escaping
    exception;
  - inside `execute_code` it is caught by the `except` of `converse`
    (`Aborted`);
  - a failure of the correction request is caught by `execute_code`'s own
    `except`.
- `protocol_properties.dfy` (`ProtocolProperties`): properties that relate
  several steps: the gate, the correction, block order, and history pairing.
- `agent.dfy` (`Agent`): the classes `Environment` and `EMGAnalyser`.
  - `Environment` holds the console, the service and the interpreter, with
    their logs.
  - `EMGAnalyser` holds the two history lists, which its methods update in
    place.
  - Each method, including the loops that build the message list and run
    the blocks, is proved to produce exactly the result and the new state
    that the `Protocol` function gives. Everything proved about `Protocol`
    therefore holds of the running object.
- `windows.dfy` (`Windows`) and `folds.dfy` (`Folds`): `extract_features`
  window indices and the fold split of `main`.

Some of the code's behaviour differs from what its own text or a first
reading suggests. The model follows the code:

- **Empty fence.** One might expect an empty fence ```` ```\n``` ```` to be
  skipped. `re.findall` returns its empty capture, so the block list holds
  one empty body (`CodeFences.EmptyFenceYieldsEmptyBody`).
- **History append.** `update_history` checks its arguments only against
  `None`, so an empty answer is stored like any other.
- **Termination word.** The banner printed at `src/GPT_Analyser.py:122` asks
  the operator to type `end`. The loop at line 126 stops only on a line
  whose lower-case form is `exit`, and `end` is sent to the service as a
  question.
- **Service error.** The `except` of `converse` ends with `break`, so a
  service error during a turn ends the whole conversation rather than that
  turn only.
- **Failure to write or start the program.** This is not reported as a
  nonzero exit status. `execute_code` returns the exception text
  `Execution failed: <reason>`, and no correction is requested.

## Model

| member | source | states |
|---|---|---|
| Strings.TrimStart | src/GPT_Analyser.py:79-80 | `strip()` drops a prefix that is all whitespace and leaves a suffix that is empty or starts with a non-space |
| Strings.TrimEnd | src/GPT_Analyser.py:79-80 | the same for the end of the line: what is dropped is all whitespace, and what remains ends with a non-space |
| Strings.StripPadding | src/GPT_Analyser.py:79-80 | whitespace around a word that neither starts nor ends with whitespace is exactly what `strip()` removes |
| Strings.Strip | src/GPT_Analyser.py:79-80 | the stripped line is no longer than the line and neither starts nor ends with whitespace |
| Strings.Lower | src/GPT_Analyser.py:80 | the lower-cased line has the same length and holds no upper-case ASCII letter: each one becomes its lower-case partner, and every other character stays where it was |
| Strings.LowerIdempotent | src/GPT_Analyser.py:80 | lower-casing an already lower-cased line changes nothing |
| Strings.LowerMatchesIgnoringCase | src/GPT_Analyser.py:80-81 | a string lower-cases to an all-lower-case word if and only if it spells that word with any letters in upper case |
| CodeFences.OpeningEndsWithNewline | src/GPT_Analyser.py:69 | `OpeningAt`, the opening `` ``` `` plus the optional `python` tag and the newline, matches only at a fence, and the body it gives starts right after a newline inside the text |
| CodeFences.ClosingFrom | src/GPT_Analyser.py:69 | the closing fence found for a body is a fence at or after the body's start |
| CodeFences.ClosingIsFirst | src/GPT_Analyser.py:69 | the lazy body ends at the first fence after its start, and finds none only if there is no fence from there on |
| CodeFences.MatchAt | src/GPT_Analyser.py:69 | a match at `i` starts with a fence at `i`, has its body after the opening, and ends with a closing fence inside the text |
| CodeFences.MatchBodyClear | src/GPT_Analyser.py:69 | no fence starts inside a match's body |
| CodeFences.Scan | src/GPT_Analyser.py:69 | every match reported from index `i` starts at or after `i` and lies inside the text |
| CodeFences.ScanOrdered | src/GPT_Analyser.py:69 | the matches come out in order of appearance and do not overlap |
| CodeFences.ScanSpansAreMatches | src/GPT_Analyser.py:69 | every reported match is what the pattern matches at its start |
| CodeFences.ScanFindsEveryUncoveredMatch | src/GPT_Analyser.py:69 | every index where the pattern matches, outside any earlier match, is reported |
| CodeFences.ExtractCode | src/GPT_Analyser.py:67-70 | `extract_code` returns one block per match of the scan. `ScanSpansAreMatches`, `ScanOrdered` and `ScanFindsEveryUncoveredMatch` fix those matches |
| CodeFences.ExtractedBodiesHaveNoFence | src/GPT_Analyser.py:69 | no extracted block contains three backticks |
| CodeFences.NoFenceNoBlocks | src/GPT_Analyser.py:69 | text without a fence yields the empty list |
| CodeFences.FenceWithoutNewline | src/GPT_Analyser.py:69 | a fence followed by neither `python` plus a newline nor a newline does not match, even when `python` follows without a newline |
| CodeFences.UnterminatedFence | src/GPT_Analyser.py:69 | an opening fence with no closing fence after it yields nothing from there on and raises nothing |
| CodeFences.SkipPlain | src/GPT_Analyser.py:69 | text without backticks is skipped by the scan |
| CodeFences.RoundTrip | src/GPT_Analyser.py:69 | a body with no fence and no trailing backtick, fenced with or without the `python` tag, is extracted as exactly that one body |
| CodeFences.JoinRoundTrip | src/GPT_Analyser.py:69 | a concatenation of such fenced blocks is extracted as the list of their bodies, in order |
| CodeFences.JoinThenUnterminated | src/GPT_Analyser.py:69 | an unterminated trailing fence after such blocks adds nothing to their bodies |
| CodeFences.EmptyFenceYieldsEmptyBody | src/GPT_Analyser.py:69 | the empty fence yields one empty block |
| Protocol.BuildMessages | src/GPT_Analyser.py:39-47 | the message list has 2·min(Q, A) + 2 entries. It opens with the system instruction and ends with the new question as a user turn. `MessagesShape` states the pairs in between |
| Protocol.ExchangesShape | src/GPT_Analyser.py:42-44 | the zipped history becomes alternating user and assistant turns, one pair per stored exchange, in insertion order |
| Protocol.MessagesShape | src/GPT_Analyser.py:39-47 | the message list is the system instruction, one user/assistant pair per `zip` entry in order, then the new question as a user turn, so its length is 2·min(Q, A) + 2 |
| Protocol.GetResponse | src/GPT_Analyser.py:36-65 | `get_response`: asking reads no operator input. `GetResponseSendsOne` states the request it sends and the result |
| Protocol.GetResponseSendsOne | src/GPT_Analyser.py:36-65 | `get_response` changes nothing but the request log. It adds exactly one request: the message list of the stored history and the question, with the fixed sampling. It returns the first choice's text, or the no-content text, or raises the client's exception |
| Protocol.DebugPrompt | src/GPT_Analyser.py:107-110 | the debug prompt opens with the fixed introduction, holds the code verbatim right after the `python` fence, and ends with the error message. Its length is that of the code and the error plus the fixed text |
| Protocol.Confirms | src/GPT_Analyser.py:79-81 | a confirming line strips to three characters. `ConfirmsIgnoresCase` states exactly which lines confirm |
| Protocol.IsExit | src/GPT_Analyser.py:126 | only a line of exactly four characters ends the conversation, because nothing is stripped. `IsExitIgnoresCase` states exactly which lines do |
| Protocol.ExecuteCode | src/GPT_Analyser.py:72-118 | `execute_code` reads at most one operator line. `ExecuteCodeFollows`, `UnconfirmedRunsNothing`, `ConfirmedRunsOnce`, `CleanExitReturnsOutput` and `FailureIsCorrectedOnce` state what it does in each case |
| Protocol.Attempt | src/GPT_Analyser.py:85-118 | the guarded part of `execute_code` reads no operator input, and nothing raises out of it. `AttemptFollows` states its effect on the state |
| Protocol.Correction | src/GPT_Analyser.py:101-115 | the correction reads no operator input. `CorrectionSendsOne` states its single request |
| Protocol.RunBlocks | src/GPT_Analyser.py:136-141 | the block loop never gives input back. `RunBlocksFollows`, `RunBlocksInOrder` and `RunBlocksOneAnswerEach` state its effect |
| Protocol.Turn | src/GPT_Analyser.py:130-141 | a turn never gives input back. `TurnAsksFirst`, `TurnRecordsExchange` and `TurnFollows` state its effect |
| Protocol.Session | src/GPT_Analyser.py:120-144 | the conversation never gives input back, and it ends for lack of input only once every line is read. `SessionFollows`, `SessionHistoryInPairs`, `ExitEndsSession` and `OtherLineIsAsked` state the rest |
| Protocol.CorrectionSendsOne | src/GPT_Analyser.py:106-115 | the correction is exactly one well-formed request and changes nothing else |
| Protocol.AttemptFollows | src/GPT_Analyser.py:85-118 | a confirmed block is handed to the interpreter once. The history, the input and the shown results do not change. Only well-formed requests are sent |
| Protocol.ExecuteCodeFollows | src/GPT_Analyser.py:72-118 | `execute_code` reads exactly one operator line when there is one. It never touches the history. It raises exactly when the input has ended |
| Protocol.RunBlocksFollows | src/GPT_Analyser.py:139-141 | the block loop leaves the history unchanged, only consumes input, and only appends to the logs |
| Protocol.TurnFollows | src/GPT_Analyser.py:130-141 | a turn only consumes input, only appends to the history and the logs, and sends only well-formed requests |
| Protocol.SessionFollows | src/GPT_Analyser.py:120-144 | the same over a whole conversation: every request carries the fixed sampling, opens with the instruction and ends with a user turn |
| ProtocolProperties.ConfirmsIgnoresCase | src/GPT_Analyser.py:79-81 | the gate accepts a line if and only if, after stripping, it spells `yes` in any mix of cases |
| ProtocolProperties.ConfirmsWithPadding | src/GPT_Analyser.py:79-81 | surrounding whitespace around such a spelling still confirms |
| ProtocolProperties.IsExitIgnoresCase | src/GPT_Analyser.py:126 | the termination check holds if and only if the whole line spells `exit` in any mix of cases; whitespace is not stripped |
| ProtocolProperties.ExitEndsSession | src/GPT_Analyser.py:125-128 | an exit line ends the conversation at once: the line is consumed, nothing is sent and nothing is run |
| ProtocolProperties.OtherLineIsAsked | src/GPT_Analyser.py:125-131 | any other line is sent as the next request, with the whole stored history before it |
| ProtocolProperties.TurnAsksFirst | src/GPT_Analyser.py:130-131 | a turn's first request is its question, asked against the stored history |
| ProtocolProperties.UnconfirmedRunsNothing | src/GPT_Analyser.py:79-83 | without a confirmation, nothing is run and nothing is sent, and the result is the skip notice; at the end of input the `EOFError` propagates |
| ProtocolProperties.ConfirmedRunsOnce | src/GPT_Analyser.py:79-95 | a block is handed to the interpreter once if it is confirmed, and not at all otherwise |
| ProtocolProperties.CleanExitReturnsOutput | src/GPT_Analyser.py:98-100 | on exit status 0 the result is the captured standard output and nothing is sent |
| ProtocolProperties.FailureIsCorrectedOnce | src/GPT_Analyser.py:101-118 | on a nonzero status exactly one request is sent: the debug prompt for this code and its standard error, against the unchanged history. The result is the failure report with the correction, or the exception text if that request fails. Nothing is stored |
| ProtocolProperties.DebugPromptEmbedsCode | src/GPT_Analyser.py:107-110 | the failing code reaches the model verbatim: the first block extracted from the debug prompt is the code plus the newline the prompt adds |
| ProtocolProperties.RunBlocksInOrder | src/GPT_Analyser.py:136-141 | the programs run in a turn are some of the extracted blocks, in their order |
| ProtocolProperties.RunBlocksOneAnswerEach | src/GPT_Analyser.py:139-144 | each block considered consumes one operator answer and shows one result. The loop stops early only when the input has ended, with the `EOFError` |
| ProtocolProperties.ExecuteCodeAsksAgainst | src/GPT_Analyser.py:101-111 | the correction request that executing a block may send replays the history as it stands when the block runs |
| ProtocolProperties.RunBlocksAsksAgainst | src/GPT_Analyser.py:139-141 | every request sent by the block loop replays the history the loop started with |
| ProtocolProperties.TurnRecordsExchange | src/GPT_Analyser.py:131-141 | a successful request stores exactly one (question, answer) pair before any block runs, so every correction request sent while the blocks run replays the new exchange; a failed request stores nothing |
| ProtocolProperties.SessionHistoryInPairs | src/GPT_Analyser.py:120-144 | over a whole conversation the two histories stay equally long, so the `zip` replays everything. No exit line is ever stored. The conversation ends for lack of input only once all input is read |
| Agent.Environment.ReadLine | src/GPT_Analyser.py:79-80 | `input()` consumes and returns the next operator line, or raises the `EOFError` once the input has ended |
| Agent.Environment.Complete | src/GPT_Analyser.py:50-59 | the client call appends the request to the log and returns the service's answer to it |
| Agent.Environment.Run | src/GPT_Analyser.py:87-95 | writing `temp_code.py` and `subprocess.run` append the program to the log and return the interpreter's result for it |
| Agent.Environment.ShowResult | src/GPT_Analyser.py:141 | printing an execution result appends it to the log of shown results |
| Agent.EMGAnalyser.constructor | src/GPT_Analyser.py:9-27 | the agent starts with the fixed instruction, `gpt-4o`, the `text` response format and its sampling parameters, and empty histories |
| Agent.EMGAnalyser.UpdateHistory | src/GPT_Analyser.py:29-34 | each argument that is present is appended to its own list; the other list and all earlier entries are unchanged |
| Agent.EMGAnalyser.BuildMessages | src/GPT_Analyser.py:39-47 | the loop over `zip` builds exactly the message list whose shape `Protocol.MessagesShape` states |
| Agent.EMGAnalyser.GetResponse | src/GPT_Analyser.py:36-65 | the method's result and new state are those of `Protocol.GetResponse` |
| Agent.EMGAnalyser.ExecuteCode | src/GPT_Analyser.py:72-118 | the method's result and new state are those of `Protocol.ExecuteCode` |
| Agent.EMGAnalyser.ExecuteBlocks | src/GPT_Analyser.py:137-141 | the loop over the blocks produces the outcome and state of `Protocol.RunBlocks` |
| Agent.EMGAnalyser.Converse | src/GPT_Analyser.py:120-144 | the conversation loop ends as, and leaves the state that, `Protocol.Session` gives |
| Windows.Range | src/GPT_code.py:14 | every element of `range(start, stop, step)` lies in `[start, stop)`; `RangeElements` fixes each one |
| Windows.Starts | src/GPT_code.py:14 | a window at any start fits inside the data |
| Windows.RangeElements | src/GPT_code.py:14 | the k-th element of `range(start, stop, step)` is `start + k·step` and lies below `stop`; there are ⌈(stop − start)/step⌉ elements |
| Windows.StartsFit | src/GPT_code.py:14-17 | window starts are 0, step, 2·step, …; every window fits in the data, and its label row `end` is a row of the data |
| Windows.NoWindowsWhenShort | src/GPT_code.py:14 | data shorter than one window yields no window |
| Windows.WindowCount | src/GPT_code.py:14 | otherwise there are (len − window_size) div step + 1 windows |
| Windows.DefaultWindowCount | src/GPT_code.py:7-14 | the defaults at 1200 Hz are a window of 240 rows and a step of 12 rows, and there are (len − 240) div 12 + 1 windows |
| Windows.ExtractFeatures | src/GPT_code.py:7-26 | one window and one label per start, in order. The window is rows `start .. end - 1`, so `window_size - 1` rows without the label row. The label is row `end` |
| Folds.Picked | src/GPT_code.py:51-52 | a comprehension over `enumerate` picks at most one index per recording; `PickedExactly` states which |
| Folds.TestData | src/GPT_code.py:52 | `test_data` holds, in order, the recording at each test index of the fold, and nothing else |
| Folds.TrainData | src/GPT_code.py:51 | `train_data` holds, in order, the recording at each training index of the fold, and nothing else |
| Folds.PickedExactly | src/GPT_code.py:51-52 | a comprehension picks exactly the indices on its side of the fold, each once, in load order |
| Folds.FoldPartitions | src/GPT_code.py:51-52 | a fold's test and training sets are disjoint, together hold every recording, and keep the load order |
| Folds.EachRecordingTestedOnce | src/GPT_code.py:50-52 | with 30 recordings, each one is tested in exactly one of the ten folds, fold `idx mod 10` |
| Folds.FoldSizesOfThirty | src/GPT_code.py:50-52 | with 30 recordings, fold `i` tests on recordings `i`, `i + 10` and `i + 20`, and trains on the other 27 |
| Folds.TestIndicesBelow | src/GPT_code.py:52 | a fold's test indices are those of `i`, `i + 10` and `i + 20` that exist |
| Folds.CrossValidationSplits | src/GPT_code.py:50-52 | the fold loop yields the training and test recordings of folds 0 to 9, in order |

## Left out

- The chat-completion client:
  - the OpenAI client, its credentials and the network call are an oracle,
    `Oracles.complete`;
  - an exception of the client is `Reply.ServiceError`;
  - a response without choices is `Reply.NoContent`, which gives the fixed
    no-content text;
  - a first choice whose content is `None` is not modelled: the source would
    return `None`, and printing it raises in `converse`.
- Writing `temp_code.py` and `subprocess.run` are an oracle,
  `Oracles.run`, which gives the exit status and the captured streams, or
  `CannotRun` with the exception text. File contents, the working
  directory and process timing are not modelled.
- Printing, colours and prompt texts are not modelled. The only output kept
  is the log of shown execution results. `input()` is a finite list of
  lines, and its end is the `EOFError`.
- Exceptions other than those named above (for example `KeyboardInterrupt`)
  are not modelled.
- Strings.Lower: only ASCII letters are lowered. That covers every character
  the comparisons with `yes` and `exit` can accept. Python also lowers other
  Unicode letters, which this model leaves unchanged.
- Windows.ExtractFeatures:
  - it requires `window_size >= 1` and `step_size > 0`;
  - a zero step makes `range` raise, and a window size below 1 makes pandas
    index from the end of the frame, which is not modelled;
  - sizes are integers: the float products `int(0.2 * 1200)` and
    `int(0.01 * 1200)` are the constants 240 and 12;
  - a window is a slice of whole rows: the column selections `1:17` (EMG
    channels) and `0` (label) are not modelled.
- The feature values (RMS, zero crossings, waveform length), `calculate_nmse`,
  `RandomForestRegressor`, `pearsonr`, and the mean summaries are floating
  point and library code.
- `load_data` lists directories and reads CSV files. The model takes the
  loaded recordings as a sequence in load order.
