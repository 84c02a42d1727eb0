/** `run_pipeline` of the back end (backend/src/pipeline.py:67-187): the
    bounded generate, execute, compare and refine loop. The language model
    and the execution service are parameters: `initial` is what the first
    generation call returns or that it raised, `refine` answers the
    refinement call made after pass `iteration`, and `synthesize` is the
    test-generation call used when no tests are given. */
module Pipeline {
  import opened Wrappers
  import opened Text
  import opened JsonValue
  import opened PassRules
  import opened ReplyParser
  import opened Executor

  /** One entry of `history`. */
  datatype IterationRecord = IterationRecord(
    iteration: int, chainOfThought: seq<string>, code: string,
    executionResult: ExecResult, testResults: seq<TestCaseResult>)

  /** What `run_pipeline` returns. */
  datatype PipelineResult = PipelineResult(
    cot: seq<string>, finalCode: string, finalResult: ExecResult,
    testResults: seq<TestCaseResult>, iterations: int,
    history: seq<IterationRecord>, success: bool)

  /** The exceptions that leave `run_pipeline`: the test generator raised,
      or a local variable was read before it was ever assigned. */
  datatype PipelineError = TestSynthesisFailed | UnboundLocal

  /** The outside world: the execution service and the language model. */
  datatype Oracles = Oracles(
    service: Request -> Response,
    synthesize: Attempt<seq<TestCase>>,
    initial: Attempt<string>,
    refine: (int, string, seq<TestCaseResult>) -> Attempt<string>)

  /** What stays fixed during the loop. The reply parser is a field so that
      the loop's properties are stated for any parser; `run_pipeline` uses
      `ReplyParser.Parse`. */
  datatype Env = Env(oracles: Oracles, parse: Parser,
                     language: string, userInput: string, tests: seq<TestCase>)

  /** The loop's variables. A Python variable that is not yet assigned is
      `None`; `cot` and `code` are always assigned together, as `parsed`. */
  datatype State = State(
    iteration: int, currentCode: Option<string>, parsed: Option<Parsed>,
    exec: Option<ExecResult>, results: Option<seq<TestCaseResult>>,
    history: seq<IterationRecord>)

  const Initial := State(0, None, None, None, None, [])

  /** How one pass of the loop ends. */
  datatype Outcome = Continue(next: State) | Stop(last: State) | Escape(error: PipelineError)

  /** How the whole loop ends. */
  datatype LoopOutcome = Finished(state: State) | Escaped(error: PipelineError)

  /** The row of lines 126-135 for one test and its run, with the pass rule
      of lines 116-124. */
  function TestRow(test: TestCase, run: ExecResult): TestCaseResult
  {
    TestCaseResult(test.input, test.expectedOutput, run.output,
      BackendPassed(run.output, test.expectedOutput),
      run.stderror, run.compilerErrors, run.time, run.memory)
  }

  /** The rows of lines 111-135: one per test, in order. */
  function TestResults(service: Request -> Response, id: nat, code: string, tests: seq<TestCase>)
    : (r: seq<TestCaseResult>)
    ensures |r| == |tests|
  {
    if tests == [] then []
    else
      var last := tests[|tests| - 1];
      TestResults(service, id, code, tests[..|tests| - 1])
      + [TestRow(last, Run(service, code, id, last.input))]
  }

  /** Row `i` is test `i` run and judged: one row per test, in test order. */
  lemma {:induction false} TestResultsAt(service: Request -> Response, id: nat, code: string,
                                         tests: seq<TestCase>, i: nat)
    requires i < |tests|
    ensures TestResults(service, id, code, tests)[i] == TestRow(tests[i], Run(service, code, id, tests[i].input))
    decreases |tests|
  {
    var n := |tests| - 1;
    if i < n {
      TestResultsAt(service, id, code, tests[..n], i);
    }
  }

  /** `all(test_case.passed for ...)`: true for an empty list. */
  predicate AllPassed(results: seq<TestCaseResult>)
  {
    forall i :: 0 <= i < |results| ==> results[i].passed
  }

  /** The record the exception handlers append (lines 158-177). */
  function ErrorRecord(st: State): IterationRecord
    requires st.parsed.Some?
  {
    IterationRecord(st.iteration + 1, st.parsed.value.reasoning, st.parsed.value.code, ZeroResult, [])
  }

  /** The exception handlers: they read `cot` and `code`, so when those were
      never assigned the handler itself raises and the error escapes;
      otherwise one error record is appended and the loop stops. */
  function Handle(st: State): (r: Outcome)
    ensures r.Escape? <==> st.parsed.None?
    ensures r.Stop? ==> (r.last.history == st.history + [ErrorRecord(st)]
                         && r.last.iteration == st.iteration)
  {
    if st.parsed.None? then Escape(UnboundLocal)
    else Stop(st.(history := st.history + [ErrorRecord(st)]))
  }

  /** One pass of the loop body (lines 87-177): generate on the first
      pass, reuse the refined reply afterwards, then parse. */
  function Pass(env: Env, st: State): (r: Outcome)
    ensures r.Continue? ==> r.next.iteration == st.iteration + 1
  {
    var generated := if st.currentCode.None? then env.oracles.initial else Returned(st.currentCode.value);
    match generated
    case Raised => Handle(st)
    case Returned(reply) => Execute(env, st.(currentCode := Some(reply), parsed := Reparse(env.parse, reply, st.parsed)))
  }

  /** Lines 106-135: reading `code` before it was ever assigned raises, and
      so does an unknown language; otherwise the code runs on the user's
      input and on every test. */
  function Execute(env: Env, st: State): (r: Outcome)
    ensures r.Continue? ==> r.next.iteration == st.iteration + 1
  {
    if st.parsed.None? then Handle(st)
    else
      var code := st.parsed.value.code;
      match ExecuteCode(env.oracles.service, code, env.language, env.userInput)
      case Err(_) => Handle(st)
      case Ok(exec) =>
        Judge(env, st.(exec := Some(exec)),
              TestResults(env.oracles.service, LanguageId(env.language).value, code, env.tests))
  }

  /** Lines 141-156: record the pass, stop if every test passed, otherwise
      count the pass and ask for a refinement. */
  function Judge(env: Env, st: State, results: seq<TestCaseResult>): (r: Outcome)
    requires st.parsed.Some? && st.exec.Some?
    ensures r.Continue? ==> r.next.iteration == st.iteration + 1
  {
    var code := st.parsed.value.code;
    var record := IterationRecord(st.iteration + 1, st.parsed.value.reasoning, code, st.exec.value, results);
    var recorded := st.(results := Some(results), history := st.history + [record]);
    if AllPassed(results) then Stop(recorded)
    else Refine(env, recorded.(iteration := st.iteration + 1), code, results)
  }

  /** Line 156: the refinement call, made with the already incremented
      counter. */
  function Refine(env: Env, st: State, code: string, results: seq<TestCaseResult>): (r: Outcome)
    requires st.parsed.Some?
    ensures r.Continue? ==> r.next.iteration == st.iteration
  {
    match env.oracles.refine(st.iteration, code, results)
    case Raised => Handle(st)
    case Returned(next) => Continue(st.(currentCode := Some(next)))
  }

  /** The `while` loop of line 86, from state `st` on. */
  function Loop(env: Env, maxIterations: int, st: State): LoopOutcome
    decreases maxIterations - st.iteration
  {
    if st.iteration >= maxIterations then Finished(st)
    else
      match Pass(env, st)
      case Continue(next) => Loop(env, maxIterations, next)
      case Stop(last) => Finished(last)
      case Escape(e) => Escaped(e)
  }

  /** The `return` of lines 179-187: every variable it reads must have been
      assigned. */
  function Report(st: State): Result<PipelineResult, PipelineError>
  {
    if st.parsed.None? || st.exec.None? || st.results.None? then Err(UnboundLocal)
    else Ok(PipelineResult(st.parsed.value.reasoning, st.parsed.value.code, st.exec.value,
      st.results.value, st.iteration + 1, st.history, AllPassed(st.results.value)))
  }

  /** The tests the loop runs (lines 81-84). */
  function ResolveTests(oracles: Oracles, tests: seq<TestCase>): Attempt<seq<TestCase>>
  {
    if tests == [] then oracles.synthesize else Returned(tests)
  }

  /** What the pipeline returns or raises with a given reply parser. */
  function RunWith(parse: Parser, oracles: Oracles, language: string,
                   userInput: string, tests: seq<TestCase>, maxIterations: int)
    : Result<PipelineResult, PipelineError>
  {
    match ResolveTests(oracles, tests)
    case Raised => Err(TestSynthesisFailed)
    case Returned(resolved) =>
      match Loop(Env(oracles, parse, language, userInput, resolved), maxIterations, Initial)
      case Escaped(e) => Err(e)
      case Finished(st) => Report(st)
  }

  /** What `run_pipeline` returns or raises. */
  function RunSpec(oracles: Oracles, language: string, userInput: string,
                   tests: seq<TestCase>, maxIterations: int): Result<PipelineResult, PipelineError>
  {
    RunWith(Parse, oracles, language, userInput, tests, maxIterations)
  }

  /** Lines 112-135: run every test and apply the pass rule. */
  method CompareTests(service: Request -> Response, code: string, language: string, tests: seq<TestCase>)
    returns (results: seq<TestCaseResult>)
    requires LanguageId(language).Ok?
    ensures results == TestResults(service, LanguageId(language).value, code, tests)
  {
    results := [];
    for i := 0 to |tests|
      invariant results == TestResults(service, LanguageId(language).value, code, tests[..i])
    {
      var run := ExecuteCode(service, code, language, tests[i].input);
      assert tests[..i + 1][..i] == tests[..i];
      results := results + [TestRow(tests[i], run.value)];
    }
    assert tests[..|tests|] == tests;
  }

  /** One pass of the loop body: generation, or reuse of the refined
      reply, then the parse of line 98. */
  method PassStep(env: Env, st: State) returns (o: Outcome)
    ensures o == Pass(env, st)
  {
    var generated := if st.currentCode.None? then env.oracles.initial else Returned(st.currentCode.value);
    if generated.Raised? {
      return Handle(st);
    }
    var reply := generated.value;
    var parsed := Reparse(env.parse, reply, st.parsed);
    o := ExecuteStep(env, st.(currentCode := Some(reply), parsed := parsed));
  }

  /** Lines 106-135 of one pass: run the code on the user's input, then on
      every test. */
  method ExecuteStep(env: Env, st: State) returns (o: Outcome)
    ensures o == Execute(env, st)
  {
    if st.parsed.None? {
      return Handle(st);
    }
    var code := st.parsed.value.code;
    var run := ExecuteCode(env.oracles.service, code, env.language, env.userInput);
    if run.Err? {
      return Handle(st);
    }
    var rows := CompareTests(env.oracles.service, code, env.language, env.tests);
    o := JudgeStep(env, st.(exec := Some(run.value)), rows);
  }

  /** Lines 141-156 of one pass: record it, then stop or ask for a
      refinement. */
  method JudgeStep(env: Env, st: State, results: seq<TestCaseResult>) returns (o: Outcome)
    requires st.parsed.Some? && st.exec.Some?
    ensures o == Judge(env, st, results)
  {
    var code := st.parsed.value.code;
    var record := IterationRecord(st.iteration + 1, st.parsed.value.reasoning, code, st.exec.value, results);
    var recorded := st.(results := Some(results), history := st.history + [record]);
    if AllPassed(results) {
      return Stop(recorded);
    }
    recorded := recorded.(iteration := st.iteration + 1);
    var next := env.oracles.refine(recorded.iteration, code, results);
    if next.Raised? {
      return Handle(recorded);
    }
    o := Continue(recorded.(currentCode := Some(next.value)));
  }

  /** `run_pipeline` itself: the tests are resolved, then the loop of lines
      86-177 runs one pass at a time over its local variables. */
  method RunPipeline(oracles: Oracles, language: string, userInput: string,
                     tests: seq<TestCase>, maxIterations: int)
    returns (r: Result<PipelineResult, PipelineError>)
    ensures r == RunSpec(oracles, language, userInput, tests, maxIterations)
  {
    var testCases := tests;
    if testCases == [] {
      if oracles.synthesize.Raised? {
        return Err(TestSynthesisFailed);
      }
      testCases := oracles.synthesize.value;
    }
    var env := Env(oracles, Parse, language, userInput, testCases);
    var st := Initial;
    while st.iteration < maxIterations
      invariant Loop(env, maxIterations, st) == Loop(env, maxIterations, Initial)
      decreases maxIterations - st.iteration
    {
      var o := PassStep(env, st);
      if o.Escape? {
        return Err(o.error);
      }
      if o.Stop? {
        st := o.last;
        break;
      }
      st := o.next;
    }
    r := Report(st);
  }
}
