/** Properties of the conversation protocol that relate several steps:
    the execution gate, the one-shot correction, the order in which code
    blocks are run, and the shape of the history over a whole session. */
module ProtocolProperties {
  import opened Wrappers
  import Strings
  import CodeFences
  import opened Protocol

  /** `t` is `w` with any of its lower-case ASCII letters written in upper case. */
  predicate SpellsIgnoringCase(t: string, w: string)
  {
    |t| == |w| && forall k :: 0 <= k < |t| ==> t[k] == w[k] || t[k] as int == w[k] as int - 32
  }

  /** The gate accepts a line exactly when, once stripped of surrounding
      whitespace, it spells "yes" in any mix of cases. */
  lemma ConfirmsIgnoresCase(line: string)
    ensures Confirms(line) <==> SpellsIgnoringCase(Strings.Strip(line), "yes")
  {
    var t := Strings.Strip(line);
    LowerCaseWords();
    SpellsLower(t, "yes");
  }

  predicate LowerCaseWord(w: string)
  {
    forall k :: 0 <= k < |w| ==> 'a' <= w[k] <= 'z'
  }

  lemma LowerCaseWords()
    ensures LowerCaseWord("yes") && LowerCaseWord("exit")
  {
    assert "yes"[0] == 'y' && "yes"[1] == 'e' && "yes"[2] == 's';
    assert "exit"[0] == 'e' && "exit"[1] == 'x' && "exit"[2] == 'i' && "exit"[3] == 't';
  }

  lemma SpellsLower(t: string, w: string)
    requires LowerCaseWord(w)
    ensures Strings.Lower(t) == w <==> SpellsIgnoringCase(t, w)
  {
    Strings.LowerMatchesIgnoringCase(t, w);
  }

  /** Surrounding whitespace, including a trailing newline, does not stop a confirmation. */
  lemma ConfirmsWithPadding(a: string, w: string, b: string)
    requires Strings.AllSpace(a) && Strings.AllSpace(b)
    requires SpellsIgnoringCase(w, "yes")
    ensures Confirms(a + w + b)
  {
    assert "yes"[0] == 'y' && "yes"[1] == 'e' && "yes"[2] == 's';
    assert w[0] == 'y' || w[0] == 'Y';
    assert w[2] == 's' || w[2] == 'S';
    Strings.StripPadding(a, w, b);
    ConfirmsIgnoresCase(a + w + b);
  }

  /** "exit" ends the session only when it is the whole line, in any mix of
      cases; surrounding whitespace is not removed before the comparison. */
  lemma IsExitIgnoresCase(line: string)
    ensures IsExit(line) <==> SpellsIgnoringCase(line, "exit")
  {
    LowerCaseWords();
    SpellsLower(line, "exit");
  }

  /** An exit line ends the session at once: it is consumed, nothing is
      sent and nothing is run. */
  lemma ExitEndsSession(o: Oracles, setup: Setup, st: State)
    requires st.inputs != [] && SpellsIgnoringCase(st.inputs[0], "exit")
    ensures Session(o, setup, st) == (ExitRequested, st.(inputs := st.inputs[1..]))
  {
    IsExitIgnoresCase(st.inputs[0]);
  }

  /** Any other line is sent as the next question, with the whole stored
      history before it. */
  lemma OtherLineIsAsked(o: Oracles, setup: Setup, st: State)
    requires st.inputs != [] && !IsExit(st.inputs[0])
    ensures var r := Session(o, setup, st);
      |r.1.requests| > |st.requests| &&
      r.1.requests[|st.requests|] ==
        Request(BuildMessages(setup.instructions, st.questions, st.answers, st.inputs[0]), setup.sampling)
  {
    var st1 := st.(inputs := st.inputs[1..]);
    var t := Turn(o, setup, st1, st.inputs[0]);
    TurnAsksFirst(o, setup, st1, st.inputs[0]);
    SessionStep(o, setup, st);
    if t.0.Return? {
      SessionFollows(o, setup, t.1);
    }
  }

  /** A turn's first request is the question with the history before it. */
  lemma TurnAsksFirst(o: Oracles, setup: Setup, st: State, q: string)
    ensures var t := Turn(o, setup, st, q);
      |t.1.requests| > |st.requests| &&
      t.1.requests[|st.requests|] == Request(BuildMessages(setup.instructions, st.questions, st.answers, q), setup.sampling)
  {
    var g := GetResponse(o, setup, st, q);
    GetResponseSendsOne(o, setup, st, q);
    if g.0.Return? {
      var st1 := g.1.(questions := g.1.questions + [q], answers := g.1.answers + [g.0.value]);
      RunBlocksFollows(o, setup, st1, CodeFences.ExtractCode(g.0.value));
    }
  }

  /** Without a confirmation nothing is run and nothing is sent: the
      operator's line is consumed and the skip notice is the result, and
      when the input has ended the `EOFError` propagates. */
  lemma UnconfirmedRunsNothing(o: Oracles, setup: Setup, st: State, code: string)
    requires st.inputs == [] || !Confirms(st.inputs[0])
    ensures ExecuteCode(o, setup, st, code) ==
      if st.inputs == [] then (Raise(EndOfInput), st)
      else (Return(SkippedText), st.(inputs := st.inputs[1..]))
  {
  }

  /** A confirmed block is handed to the interpreter exactly once, and only
      a confirmed block is. */
  lemma ConfirmedRunsOnce(o: Oracles, setup: Setup, st: State, code: string)
    ensures var r := ExecuteCode(o, setup, st, code);
      if st.inputs != [] && Confirms(st.inputs[0]) then r.1.programs == st.programs + [code]
      else r.1.programs == st.programs
  {
    if st.inputs != [] && Confirms(st.inputs[0]) {
      AttemptFollows(o, setup, st.(inputs := st.inputs[1..]), code);
    }
  }

  /** A clean exit returns the captured standard output and sends nothing. */
  lemma CleanExitReturnsOutput(o: Oracles, setup: Setup, st: State, code: string, out: string, err: string)
    requires st.inputs != [] && Confirms(st.inputs[0])
    requires o.run(|st.programs|, code) == Exited(0, out, err)
    ensures ExecuteCode(o, setup, st, code) ==
      (Return(out), st.(inputs := st.inputs[1..], programs := st.programs + [code]))
  {
  }

  /** A nonzero exit status triggers exactly one correction request, whose
      question is the debug prompt for this code and its standard error,
      asked against the unchanged history; its answer is never executed and
      never stored, and a failure of that request becomes the result text. */
  lemma FailureIsCorrectedOnce(o: Oracles, setup: Setup, st: State, code: string, rc: int, out: string, err: string)
    requires st.inputs != [] && Confirms(st.inputs[0])
    requires o.run(|st.programs|, code) == Exited(rc, out, err) && rc != 0
    ensures var r := ExecuteCode(o, setup, st, code);
      var req := Request(BuildMessages(setup.instructions, st.questions, st.answers, DebugPrompt(code, err)), setup.sampling);
      r.1 == st.(inputs := st.inputs[1..], programs := st.programs + [code], requests := st.requests + [req]) &&
      r.0 == match o.complete(|st.requests|, req)
             case Content(text) => Return(FailureReport(err, text))
             case NoContent => Return(FailureReport(err, NoContentText))
             case ServiceError(reason) => Return(ExecutionError(reason))
  {
    var st1 := st.(inputs := st.inputs[1..]);
    var st2 := st1.(programs := st1.programs + [code]);
    assert Attempt(o, setup, st1, code) == Correction(o, setup, st2, code, err);
  }

  predicate NoBacktick(t: string)
  {
    forall k :: 0 <= k < |t| ==> t[k] != '`'
  }

  lemma NoBacktickConcat(a: string, b: string)
    requires NoBacktick(a) && NoBacktick(b)
    ensures NoBacktick(a + b)
  {
  }

  /** The text before the fenced code holds no backtick, so no fence. */
  lemma DebugIntroHasNoBacktick()
    ensures NoBacktick(DebugIntro)
  {
    assert NoBacktick("The following Python ");
    assert NoBacktick("code resulted in an ");
    assert NoBacktick("error. Please identify ");
    assert NoBacktick("the issue and suggest ");
    assert NoBacktick("a corrected version:\n\n");
    assert NoBacktick("Code:\n");
    NoBacktickConcat("The following Python ", "code resulted in an ");
    NoBacktickConcat("The following Python " + "code resulted in an ", "error. Please identify ");
    NoBacktickConcat("The following Python " + "code resulted in an " + "error. Please identify ",
                     "the issue and suggest ");
    NoBacktickConcat("The following Python " + "code resulted in an " + "error. Please identify " +
                     "the issue and suggest ", "a corrected version:\n\n");
    NoBacktickConcat("The following Python " + "code resulted in an " + "error. Please identify " +
                     "the issue and suggest " + "a corrected version:\n\n", "Code:\n");
  }

  /** The failing code reaches the model verbatim: read back with the
      extractor, the debug prompt's first block is the code and the
      newline the prompt puts after it. */
  lemma DebugPromptEmbedsCode(code: string, err: string)
    requires !CodeFences.HasFence(code)
    ensures var x := CodeFences.ExtractCode(DebugPrompt(code, err));
      |x| >= 1 && x[0] == code + "\n"
  {
    var b := CodeFences.Block(code + "\n", true);
    var tail := "\n\nError Message:\n" + err;
    var s := DebugPrompt(code, err);
    DebugPromptLayout(DebugIntro, code, err, b, tail);
    CodeLineIsWellFormed(code);
    DebugIntroHasNoBacktick();
    SkipPlainPrefix(s, DebugIntro, CodeFences.Wrap(b) + tail);
    ExtractWrappedFirst(s, |DebugIntro|, b, tail);
  }

  /** The debug prompt after any introduction is the code wrapped as a
      tagged block, then the error text. */
  lemma DebugPromptLayout(intro: string, code: string, err: string, b: CodeFences.Block, tail: string)
    requires b == CodeFences.Block(code + "\n", true) && tail == "\n\nError Message:\n" + err
    ensures intro + "```python\n" + code + "\n```" + "\n\nError Message:\n" + err == intro + (CodeFences.Wrap(b) + tail)
  {
    assert CodeFences.Wrap(b) == "```python\n" + (code + "\n") + "```";
    assert "\n```" == "\n" + "```";
  }

  /** A prefix without backticks contributes no block. */
  lemma SkipPlainPrefix(s: string, pre: string, rest: string)
    requires s == pre + rest && NoBacktick(pre)
    ensures CodeFences.ExtractCode(s) == CodeFences.ExtractFrom(s, |pre|)
  {
    forall k | 0 <= k < |pre|
      ensures s[k] != '`'
    {
      assert s[k] == pre[k];
    }
    CodeFences.SkipPlain(s, 0, |pre|);
  }

  /** A well-formed fenced block at `i` is the first block read from `i`. */
  lemma ExtractWrappedFirst(s: string, i: nat, b: CodeFences.Block, tail: string)
    requires CodeFences.WellFormed(b)
    requires i <= |s| && s[i..] == CodeFences.Wrap(b) + tail
    ensures var x := CodeFences.ExtractFrom(s, i); |x| >= 1 && x[0] == b.body
  {
    assert s[i..i + |CodeFences.Wrap(b)|] == s[i..][..|CodeFences.Wrap(b)|];
    CodeFences.ScanWrapped(s, i, b);
  }

  lemma CodeLineIsWellFormed(code: string)
    requires !CodeFences.HasFence(code)
    ensures CodeFences.WellFormed(CodeFences.Block(code + "\n", true))
  {
    forall k | 0 <= k < |code + "\n"|
      ensures !CodeFences.FenceAt(code + "\n", k)
    {
      if k + 3 <= |code + "\n"| {
        assert (code + "\n")[|code|] == '\n';
        assert !CodeFences.FenceAt(code, k);
      }
    }
  }

  /** `p` keeps some of the elements of `b`, in their order in `b`. */
  predicate Subsequence<T(==)>(p: seq<T>, b: seq<T>)
    decreases |b|
  {
    p == [] || (b != [] && ((p[0] == b[0] && Subsequence(p[1..], b[1..])) || Subsequence(p, b[1..])))
  }

  /** The extracted blocks are run in order: the programs handed to the
      interpreter are some of the blocks, in their order. */
  lemma {:induction false} RunBlocksInOrder(o: Oracles, setup: Setup, st: State, blocks: seq<string>)
    decreases |blocks|
    ensures var r := RunBlocks(o, setup, st, blocks);
      |st.programs| <= |r.1.programs| && Subsequence(r.1.programs[|st.programs|..], blocks)
  {
    if blocks != [] {
      var e := ExecuteCode(o, setup, st, blocks[0]);
      ConfirmedRunsOnce(o, setup, st, blocks[0]);
      RunBlocksStep(o, setup, st, blocks);
      if e.0.Raise? {
        assert e.1.programs[|st.programs|..] == [];
      } else {
        var st1 := e.1.(reports := e.1.reports + [e.0.value]);
        var r2 := RunBlocks(o, setup, st1, blocks[1..]);
        RunBlocksInOrder(o, setup, st1, blocks[1..]);
        RunBlocksFollows(o, setup, st1, blocks[1..]);
        ProgramsAfterFirstBlock(st.programs, st1.programs, r2.1.programs, blocks);
      }
    }
  }

  /** The programs run from the second block on, after the first block was
      run or skipped, extend to the programs run from the first block on. */
  lemma ProgramsAfterFirstBlock(p0: seq<string>, p1: seq<string>, p2: seq<string>, blocks: seq<string>)
    requires blocks != [] && (p1 == p0 || p1 == p0 + [blocks[0]]) && p1 <= p2
    requires Subsequence(p2[|p1|..], blocks[1..])
    ensures Subsequence(p2[|p0|..], blocks)
  {
    if p1 == p0 {
      SubsequenceSkip(p2[|p1|..], blocks);
    } else {
      AppendedThenExtended(p0, blocks[0], p2);
      SubsequenceTake(p2[|p1|..], blocks);
    }
  }

  /** Each block considered consumes one operator answer and shows one
      result; the loop stops before the last block only when the
      operator's input has ended. */
  lemma {:induction false} RunBlocksOneAnswerEach(o: Oracles, setup: Setup, st: State, blocks: seq<string>)
    decreases |blocks|
    ensures var r := RunBlocks(o, setup, st, blocks);
      |st.inputs| - |r.1.inputs| == |r.1.reports| - |st.reports| <= |blocks| &&
      (r.0.Return? ==> |r.1.reports| == |st.reports| + |blocks|) &&
      (r.0.Raise? ==> r.1.inputs == [] && r.0 == Raise(EndOfInput))
  {
    if blocks != [] {
      var e := ExecuteCode(o, setup, st, blocks[0]);
      ExecuteCodeFollows(o, setup, st, blocks[0]);
      RunBlocksStep(o, setup, st, blocks);
      if e.0.Return? {
        var st1 := e.1.(reports := e.1.reports + [e.0.value]);
        RunBlocksOneAnswerEach(o, setup, st1, blocks[1..]);
      }
    }
  }

  lemma AppendedThenExtended<T>(a: seq<T>, x: T, c: seq<T>)
    requires a + [x] <= c
    ensures c[|a|..] == [x] + c[|a| + 1..]
  {
  }

  lemma SubsequenceTake<T>(p: seq<T>, b: seq<T>)
    requires b != [] && Subsequence(p, b[1..])
    ensures Subsequence([b[0]] + p, b)
  {
    assert ([b[0]] + p)[1..] == p;
  }

  lemma {:induction false} SubsequenceSkip<T>(p: seq<T>, b: seq<T>)
    requires b != [] && Subsequence(p, b[1..])
    ensures Subsequence(p, b)
  {
  }

  /** Every request in `reqs` from index `from` on replays the history
      `qs`, `ans`: it is the message list of that history and of the
      question it ends with. */
  predicate AskedAgainst(setup: Setup, reqs: seq<Request>, from: nat, qs: seq<string>, ans: seq<string>)
  {
    forall k :: from <= k < |reqs| ==>
      reqs[k].messages != [] &&
      reqs[k] == Request(BuildMessages(setup.instructions, qs, ans, reqs[k].messages[|reqs[k].messages| - 1].content),
                         setup.sampling)
  }

  /** Requests that replay a history keep doing so once later ones, which
      replay it too, are appended. */
  lemma AskedAgainstChain(setup: Setup, a: seq<Request>, b: seq<Request>, from: nat, qs: seq<string>, ans: seq<string>)
    requires from <= |a| && a <= b
    requires AskedAgainst(setup, a, from, qs, ans) && AskedAgainst(setup, b, |a|, qs, ans)
    ensures AskedAgainst(setup, b, from, qs, ans)
  {
    forall k | from <= k < |a|
      ensures b[k] == a[k]
    {
    }
  }

  /** The correction that executing a block may send replays the history
      as it stands when the block runs. */
  lemma ExecuteCodeAsksAgainst(o: Oracles, setup: Setup, st: State, code: string)
    ensures AskedAgainst(setup, ExecuteCode(o, setup, st, code).1.requests, |st.requests|, st.questions, st.answers)
  {
    if st.inputs != [] && Confirms(st.inputs[0]) {
      var st1 := st.(inputs := st.inputs[1..]);
      var st2 := st1.(programs := st1.programs + [code]);
      var p := o.run(|st.programs|, code);
      if p.Exited? && p.returncode != 0 {
        assert Attempt(o, setup, st1, code) == Correction(o, setup, st2, code, p.stderr);
        CorrectionAsksAgainst(o, setup, st2, code, p.stderr);
      } else {
        assert ExecuteCode(o, setup, st, code).1.requests == st.requests;
      }
    }
  }

  lemma CorrectionAsksAgainst(o: Oracles, setup: Setup, st: State, code: string, error: string)
    ensures AskedAgainst(setup, Correction(o, setup, st, code, error).1.requests, |st.requests|, st.questions, st.answers)
  {
    var d := DebugPrompt(code, error);
    GetResponseSendsOne(o, setup, st, d);
  }

  /** Every request sent by the block loop replays the history it started with. */
  lemma {:induction false} RunBlocksAsksAgainst(o: Oracles, setup: Setup, st: State, blocks: seq<string>)
    decreases |blocks|
    ensures AskedAgainst(setup, RunBlocks(o, setup, st, blocks).1.requests, |st.requests|, st.questions, st.answers)
  {
    if blocks != [] {
      var e := ExecuteCode(o, setup, st, blocks[0]);
      ExecuteCodeFollows(o, setup, st, blocks[0]);
      ExecuteCodeAsksAgainst(o, setup, st, blocks[0]);
      if e.0.Return? {
        var st1 := e.1.(reports := e.1.reports + [e.0.value]);
        RunBlocksAsksAgainst(o, setup, st1, blocks[1..]);
        RunBlocksFollows(o, setup, st1, blocks[1..]);
        AskedAgainstChain(setup, e.1.requests, RunBlocks(o, setup, st1, blocks[1..]).1.requests,
                          |st.requests|, st.questions, st.answers);
      }
    }
  }

  /** A turn stores the question and the answer as one more pair before
      any block runs, so every correction sent while its blocks run replays
      the new exchange; if the request failed the history is unchanged. */
  lemma TurnRecordsExchange(o: Oracles, setup: Setup, st: State, q: string)
    ensures var g := GetResponse(o, setup, st, q);
      var r := Turn(o, setup, st, q);
      match g.0
      case Return(answer) =>
        r.1.questions == st.questions + [q] && r.1.answers == st.answers + [answer] &&
        AskedAgainst(setup, r.1.requests, |st.requests| + 1, st.questions + [q], st.answers + [answer])
      case Raise(reason) => r == (Raise(reason), g.1) && r.1.questions == st.questions && r.1.answers == st.answers
  {
    var g := GetResponse(o, setup, st, q);
    GetResponseSendsOne(o, setup, st, q);
    if g.0.Return? {
      var st1 := g.1.(questions := g.1.questions + [q], answers := g.1.answers + [g.0.value]);
      RunBlocksFollows(o, setup, st1, CodeFences.ExtractCode(g.0.value));
      RunBlocksAsksAgainst(o, setup, st1, CodeFences.ExtractCode(g.0.value));
    }
  }

  /** No question stored from index `from` on is an exit line. */
  predicate NoExitFrom(qs: seq<string>, from: nat)
  {
    forall k :: from <= k < |qs| ==> !IsExit(qs[k])
  }

  /** Over a whole session the history grows in pairs, so the zip in
      `get_response` replays all of it; no exit line is ever stored as a
      question; and the session ends for lack of input only when all of it
      has been read. */
  lemma {:induction false} SessionHistoryInPairs(o: Oracles, setup: Setup, st: State)
    requires |st.questions| == |st.answers|
    decreases |st.inputs|
    ensures var r := Session(o, setup, st);
      |r.1.questions| == |r.1.answers| && NoExitFrom(r.1.questions, |st.questions|) &&
      (r.0 == InputClosed ==> r.1.inputs == [])
  {
    if st.inputs != [] && !IsExit(st.inputs[0]) {
      var q := st.inputs[0];
      var st1 := st.(inputs := st.inputs[1..]);
      var t := Turn(o, setup, st1, q);
      TurnRecordsExchange(o, setup, st1, q);
      SessionStep(o, setup, st);
      NoExitAppended(st.questions, t.1.questions, q);
      if t.0.Return? {
        SessionHistoryInPairs(o, setup, t.1);
        SessionFollows(o, setup, t.1);
        NoExitExtended(st.questions, t.1.questions, Session(o, setup, t.1).1.questions);
      }
    }
  }

  lemma NoExitAppended(qs: seq<string>, qs2: seq<string>, q: string)
    requires !IsExit(q) && (qs2 == qs || qs2 == qs + [q])
    ensures NoExitFrom(qs2, |qs|)
  {
  }

  lemma NoExitExtended(a: seq<string>, b: seq<string>, c: seq<string>)
    requires |a| <= |b| && b <= c && NoExitFrom(b, |a|) && NoExitFrom(c, |b|)
    ensures NoExitFrom(c, |a|)
  {
    forall k | |a| <= k < |c|
      ensures !IsExit(c[k])
    {
      if k < |b| {
        assert c[k] == b[k];
      }
    }
  }
}
