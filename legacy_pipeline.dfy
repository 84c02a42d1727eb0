/** The older `run_pipeline` (src/pipeline.py:48-153). Each pass after the
    first starts by asking for a refinement of the previous reply, a test
    passes only on an exact match of the trimmed output, and every pass
    sends its rows to a validation call of the language model. The
    execution service of that version catches every error itself, so it
    is a total function here; the language-model calls may raise. */
module LegacyPipeline {
  import opened Wrappers
  import opened PassRules
  import opened ReplyParser
  import Executor

  /** `CodeExecutionResult` of that version. */
  datatype ExecutionResult = ExecutionResult(output: string, error: string)

  /** The row built at lines 97-103. */
  datatype TestCaseResult = TestCaseResult(
    input: string, expectedOutput: Option<string>, actualOutput: string, passed: bool, error: string)

  /** One entry of `history` (lines 109-115). */
  datatype IterationRecord = IterationRecord(
    iteration: int, chainOfThought: seq<string>, code: string,
    executionResult: ExecutionResult, testResults: seq<TestCaseResult>)

  /** What `run_pipeline` returns (lines 145-153). */
  datatype PipelineResult = PipelineResult(
    cot: seq<string>, finalCode: string, finalResult: ExecutionResult,
    testResults: seq<TestCaseResult>, iterations: int,
    history: seq<IterationRecord>, success: bool)

  /** An exception and its text: `httpx.HTTPStatusError` has a handler of
      its own (line 124), every other exception reaches line 134. */
  datatype Raise = HttpStatusError(message: string) | OtherError(message: string)

  /** A call that answers or raises. */
  datatype Call<T> = Answer(value: T) | Raises(exception: Raise)

  /** The exceptions that leave `run_pipeline`: the test generator raised
      (that call is outside the `try`), or a handler read a variable that
      was never assigned. */
  datatype PipelineError = TestSynthesisFailed(exception: Raise) | UnboundLocal

  /** The outside world. `refine` receives the pass number, the previous
      reply and the previous pass's output and error; `validate` receives
      the pass number and the rows, and only whether it raises matters. */
  datatype Oracles = Oracles(
    synthesize: Call<seq<Executor.TestCase>>,
    initial: Call<string>,
    refine: (int, string, string, string) -> Call<string>,
    execute: (string, string, string) -> ExecutionResult,
    validate: (int, seq<TestCaseResult>) -> Call<string>)

  /** What stays fixed during the loop. */
  datatype Env = Env(oracles: Oracles, parse: Parser, language: string, userInput: string,
                     tests: seq<Executor.TestCase>)

  /** The loop's variables; `None` is a variable not yet assigned. */
  datatype State = State(
    iteration: int, currentCode: Option<string>, parsed: Option<Parsed>,
    exec: Option<ExecutionResult>, results: Option<seq<TestCaseResult>>,
    history: seq<IterationRecord>)

  const Initial := State(0, None, None, None, None, [])

  datatype Outcome = Continue(next: State) | Stop(last: State) | Escape(error: PipelineError)

  datatype LoopOutcome = Finished(state: State) | Escaped(error: PipelineError)

  /** The text of the exception raised when a local variable is read before
      it is assigned. */
  function UnboundMessage(name: string): string
  {
    "local variable '" + name + "' referenced before assignment"
  }

  /** The error text of the record a handler appends (lines 130 and 140). */
  function Describe(e: Raise): (r: string)
    ensures e.HttpStatusError? ==> "HTTP error: " <= r
    ensures e.OtherError? ==> "Execution error: " <= r
    ensures |e.message| <= |r| && r[|r| - |e.message|..] == e.message
  {
    match e
    case HttpStatusError(m) => "HTTP error: " + m
    case OtherError(m) => "Execution error: " + m
  }

  /** The error text tells which handler ran and with which message. */
  lemma DescribeInjective(a: Raise, b: Raise)
    requires Describe(a) == Describe(b)
    ensures a == b
  {
    var da, db := Describe(a), Describe(b);
    assert da[0] == (if a.HttpStatusError? then 'H' else 'E');
    assert db[0] == (if b.HttpStatusError? then 'H' else 'E');
    if a.HttpStatusError? && b.HttpStatusError? {
      assert a.message == da[|"HTTP error: "|..];
      assert b.message == db[|"HTTP error: "|..];
    } else if a.OtherError? && b.OtherError? {
      assert a.message == da[|"Execution error: "|..];
      assert b.message == db[|"Execution error: "|..];
    }
  }

  /** The row of lines 95-103 for one test and its run. */
  function TestRow(test: Executor.TestCase, run: ExecutionResult): TestCaseResult
  {
    TestCaseResult(test.input, test.expectedOutput, run.output,
      LegacyPassed(run.output, test.expectedOutput), run.error)
  }

  /** The rows of lines 93-103: one per test, in order. */
  function TestResults(env: Env, code: string, tests: seq<Executor.TestCase>): (r: seq<TestCaseResult>)
    ensures |r| == |tests|
  {
    if tests == [] then []
    else
      var last := tests[|tests| - 1];
      TestResults(env, code, tests[..|tests| - 1])
      + [TestRow(last, env.oracles.execute(code, env.language, last.input))]
  }

  /** Row `i` is test `i` run and compared: one row per test, in test
      order. */
  lemma {:induction false} TestResultsAt(env: Env, code: string, tests: seq<Executor.TestCase>, i: nat)
    requires i < |tests|
    ensures TestResults(env, code, tests)[i] == TestRow(tests[i], env.oracles.execute(code, env.language, tests[i].input))
    decreases |tests|
  {
    var n := |tests| - 1;
    if i < n {
      TestResultsAt(env, code, tests[..n], i);
    }
  }

  predicate AllPassed(results: seq<TestCaseResult>)
  {
    forall i :: 0 <= i < |results| ==> results[i].passed
  }

  /** The record the handlers append. */
  function ErrorRecord(st: State, e: Raise): IterationRecord
    requires st.parsed.Some?
  {
    IterationRecord(st.iteration + 1, st.parsed.value.reasoning, st.parsed.value.code,
                    ExecutionResult("", Describe(e)), [])
  }

  /** The handlers of lines 124-143: reading `cot` when it was never
      assigned raises from inside the handler; otherwise one error record
      is appended and the loop stops. */
  function Handle(st: State, e: Raise): (r: Outcome)
    ensures r.Escape? <==> st.parsed.None?
  {
    if st.parsed.None? then Escape(UnboundLocal)
    else Stop(st.(history := st.history + [ErrorRecord(st, e)]))
  }

  /** Lines 70-77: the first reply, or the refinement of the previous one
      from the previous pass's output and error. */
  function Generate(env: Env, st: State): Call<string>
  {
    if st.currentCode.None? then env.oracles.initial
    else if st.exec.None? then Raises(OtherError(UnboundMessage("execution_result")))
    else env.oracles.refine(st.iteration, st.currentCode.value, st.exec.value.output, st.exec.value.error)
  }

  /** One pass of the loop body (lines 68-143). */
  function Pass(env: Env, st: State): (r: Outcome)
    ensures r.Continue? ==> r.next.iteration == st.iteration + 1
  {
    match Generate(env, st)
    case Raises(e) => Handle(st, e)
    case Answer(reply) => Execute(env, st.(currentCode := Some(reply), parsed := Reparse(env.parse, reply, st.parsed)))
  }

  /** Lines 88-106: reading `code` before it was ever assigned raises;
      otherwise the code runs on the user's input and on every test, and
      the rows go to the validation call. */
  function Execute(env: Env, st: State): (r: Outcome)
    ensures r.Continue? ==> r.next.iteration == st.iteration + 1
  {
    if st.parsed.None? then Handle(st, OtherError(UnboundMessage("code")))
    else
      var code := st.parsed.value.code;
      var rows := TestResults(env, code, env.tests);
      var ran := st.(exec := Some(env.oracles.execute(code, env.language, env.userInput)), results := Some(rows));
      match env.oracles.validate(st.iteration, rows)
      case Raises(e) => Handle(ran, e)
      case Answer(_) => Judge(ran)
  }

  /** Lines 109-122: record the pass, then stop if every test passed or
      count the pass. */
  function Judge(st: State): (r: Outcome)
    requires st.parsed.Some? && st.exec.Some? && st.results.Some?
    ensures r.Continue? ==> r.next.iteration == st.iteration + 1
  {
    var record := IterationRecord(st.iteration + 1, st.parsed.value.reasoning, st.parsed.value.code,
                                  st.exec.value, st.results.value);
    var recorded := st.(history := st.history + [record]);
    if AllPassed(st.results.value) then Stop(recorded)
    else Continue(recorded.(iteration := st.iteration + 1))
  }

  /** The `while` loop of line 67, from state `st` on. */
  function Loop(env: Env, maxIterations: int, st: State): LoopOutcome
    decreases maxIterations - st.iteration
  {
    if st.iteration >= maxIterations then Finished(st)
    else
      match Pass(env, st)
      case Continue(next) => Loop(env, maxIterations, next)
      case Stop(last) => Finished(last)
      case Escape(e) => Escaped(e)
  }

  /** The `return` of lines 145-153. */
  function Report(st: State): Result<PipelineResult, PipelineError>
  {
    if st.parsed.None? || st.exec.None? || st.results.None? then Err(UnboundLocal)
    else Ok(PipelineResult(st.parsed.value.reasoning, st.parsed.value.code, st.exec.value,
      st.results.value, st.iteration + 1, st.history, AllPassed(st.results.value)))
  }

  /** Lines 63-65. */
  function ResolveTests(oracles: Oracles, tests: seq<Executor.TestCase>): Call<seq<Executor.TestCase>>
  {
    if tests == [] then oracles.synthesize else Answer(tests)
  }

  /** What the pipeline returns or raises with a given reply parser. */
  function RunWith(parse: Parser, oracles: Oracles, language: string, userInput: string,
                   tests: seq<Executor.TestCase>, maxIterations: int): Result<PipelineResult, PipelineError>
  {
    match ResolveTests(oracles, tests)
    case Raises(e) => Err(TestSynthesisFailed(e))
    case Answer(resolved) =>
      match Loop(Env(oracles, parse, language, userInput, resolved), maxIterations, Initial)
      case Escaped(e) => Err(e)
      case Finished(st) => Report(st)
  }

  /** What `run_pipeline` returns or raises. */
  function RunSpec(oracles: Oracles, language: string, userInput: string,
                   tests: seq<Executor.TestCase>, maxIterations: int): Result<PipelineResult, PipelineError>
  {
    RunWith(Parse, oracles, language, userInput, tests, maxIterations)
  }

  /** Lines 93-103: run every test and compare exactly. */
  method CompareTests(env: Env, code: string) returns (results: seq<TestCaseResult>)
    ensures results == TestResults(env, code, env.tests)
  {
    results := [];
    for i := 0 to |env.tests|
      invariant results == TestResults(env, code, env.tests[..i])
    {
      var run := env.oracles.execute(code, env.language, env.tests[i].input);
      assert env.tests[..i + 1][..i] == env.tests[..i];
      results := results + [TestRow(env.tests[i], run)];
    }
    assert env.tests[..|env.tests|] == env.tests;
  }

  /** One pass of the loop body. */
  method PassStep(env: Env, st: State) returns (o: Outcome)
    ensures o == Pass(env, st)
  {
    var generated: Call<string>;
    if st.currentCode.None? {
      generated := env.oracles.initial;
    } else if st.exec.None? {
      generated := Raises(OtherError(UnboundMessage("execution_result")));
    } else {
      generated := env.oracles.refine(st.iteration, st.currentCode.value, st.exec.value.output, st.exec.value.error);
    }
    if generated.Raises? {
      return Handle(st, generated.exception);
    }
    var reply := generated.value;
    var parsed := Reparse(env.parse, reply, st.parsed);
    o := ExecuteStep(env, st.(currentCode := Some(reply), parsed := parsed));
  }

  /** Lines 88-122 of one pass. */
  method ExecuteStep(env: Env, st: State) returns (o: Outcome)
    ensures o == Execute(env, st)
  {
    if st.parsed.None? {
      return Handle(st, OtherError(UnboundMessage("code")));
    }
    var code := st.parsed.value.code;
    var exec := env.oracles.execute(code, env.language, env.userInput);
    var rows := CompareTests(env, code);
    var ran := st.(exec := Some(exec), results := Some(rows));
    var validated := env.oracles.validate(st.iteration, rows);
    if validated.Raises? {
      return Handle(ran, validated.exception);
    }
    var record := IterationRecord(st.iteration + 1, st.parsed.value.reasoning, code, exec, rows);
    var recorded := ran.(history := st.history + [record]);
    if AllPassed(rows) {
      return Stop(recorded);
    }
    o := Continue(recorded.(iteration := st.iteration + 1));
  }

  /** `run_pipeline` itself: the tests are resolved, then the loop of lines
      67-143 runs one pass at a time over its local variables. */
  method RunPipeline(oracles: Oracles, language: string, userInput: string,
                     tests: seq<Executor.TestCase>, maxIterations: int)
    returns (r: Result<PipelineResult, PipelineError>)
    ensures r == RunSpec(oracles, language, userInput, tests, maxIterations)
  {
    var testCases := tests;
    if testCases == [] {
      if oracles.synthesize.Raises? {
        return Err(TestSynthesisFailed(oracles.synthesize.exception));
      }
      testCases := oracles.synthesize.value;
    }
    var env := Env(oracles, Parse, language, userInput, testCases);
    var st := Initial;
    while st.iteration < maxIterations
      invariant Loop(env, maxIterations, st) == Loop(env, maxIterations, Initial)
      decreases maxIterations - st.iteration
    {
      var o := PassStep(env, st);
      if o.Escape? {
        return Err(o.error);
      }
      if o.Stop? {
        st := o.last;
        break;
      }
      st := o.next;
    }
    r := Report(st);
  }
}
