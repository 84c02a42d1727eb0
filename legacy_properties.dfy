/** What the older `run_pipeline` (src/pipeline.py:48-153) guarantees about
    its history and its result, proved from the loop's invariant. */
module LegacyProperties {
  import opened Wrappers
  import opened ReplyParser
  import Executor
  import opened LegacyPipeline

  /** The final code's run on the user's input and on every test, as the
      loop's variables hold them. */
  predicate Ran(env: Env, st: State)
  {
    st.parsed.Some? && st.exec.Some? && st.results.Some?
    && st.exec.value == env.oracles.execute(st.parsed.value.code, env.language, env.userInput)
    && st.results.value == TestResults(env, st.parsed.value.code, env.tests)
  }

  /** A record of a pass that ran its code on the user's input and on every
      test. */
  predicate FullPass(env: Env, rec: IterationRecord)
  {
    rec.executionResult == env.oracles.execute(rec.code, env.language, env.userInput)
    && rec.testResults == TestResults(env, rec.code, env.tests)
  }

  /** Records that are full passes with at least one failing test. */
  predicate AllFailed(env: Env, history: seq<IterationRecord>)
  {
    forall k :: 0 <= k < |history| ==> FullPass(env, history[k]) && !AllPassed(history[k].testResults)
  }

  /** Record `k` carries the pass number `k + 1`. */
  predicate Numbered(history: seq<IterationRecord>)
  {
    forall k :: 0 <= k < |history| ==> history[k].iteration == k + 1
  }

  /** The record of the pass the loop's variables describe. */
  function LastRecord(st: State): IterationRecord
    requires st.parsed.Some? && st.exec.Some? && st.results.Some?
  {
    IterationRecord(|st.history|, st.parsed.value.reasoning, st.parsed.value.code, st.exec.value, st.results.value)
  }

  /** An error record of pass `n` for the final reasoning and code. */
  ghost predicate IsErrorRecord(rec: IterationRecord, n: int, p: Parsed)
  {
    exists e :: rec == IterationRecord(n, p.reasoning, p.code, ExecutionResult("", Describe(e)), [])
  }

  /** What holds at the top of every pass. */
  predicate Inv(env: Env, st: State)
  {
    |st.history| == st.iteration && Numbered(st.history) && AllFailed(env, st.history)
    && (st.iteration == 0 ==> st == Initial)
    && (st.iteration > 0 ==> st.currentCode.Some? && Ran(env, st) && st.history[|st.history| - 1] == LastRecord(st))
  }

  /** The finished loop, whenever every variable the `return` reads is
      assigned: the final code ran in full, and either every test passed,
      the passes ran out, or a call raised and an error record ends the
      history. */
  ghost predicate Final(env: Env, maxIterations: int, f: State)
  {
    f.parsed.Some? && f.exec.Some? && f.results.Some? ==>
      1 <= |f.history| <= maxIterations && Numbered(f.history)
      && AllFailed(env, f.history[..|f.history| - 1]) && Ran(env, f)
      && ((|f.history| == f.iteration + 1 && f.history[|f.history| - 1] == LastRecord(f)
           && AllPassed(f.results.value))
       || (|f.history| == f.iteration == maxIterations && f.history[|f.history| - 1] == LastRecord(f)
           && !AllPassed(f.results.value))
       || (|f.history| == f.iteration + 1
           && IsErrorRecord(f.history[|f.history| - 1], |f.history|, f.parsed.value)))
  }

  lemma NumberedExtend(history: seq<IterationRecord>, rec: IterationRecord)
    requires Numbered(history) && rec.iteration == |history| + 1
    ensures Numbered(history + [rec])
  {
    assert forall k :: 0 <= k < |history| ==> (history + [rec])[k] == history[k];
  }

  lemma AllFailedExtend(env: Env, history: seq<IterationRecord>, rec: IterationRecord)
    requires AllFailed(env, history) && FullPass(env, rec) && !AllPassed(rec.testResults)
    ensures AllFailed(env, history + [rec])
  {
    assert forall k :: 0 <= k < |history| ==> (history + [rec])[k] == history[k];
  }

  /** A handler run after `k` completed passes ends in a `Final` state. */
  lemma HandleFinal(env: Env, maxIterations: int, st: State, e: Raise)
    requires st.iteration < maxIterations && |st.history| == st.iteration
    requires Numbered(st.history) && AllFailed(env, st.history)
    requires st.parsed.Some? && st.exec.Some? && st.results.Some? ==> Ran(env, st)
    requires Handle(st, e).Stop?
    ensures Final(env, maxIterations, Handle(st, e).last)
  {
    var last := Handle(st, e).last;
    var error := ErrorRecord(st, e);
    NumberedExtend(st.history, error);
    assert last.history[..|last.history| - 1] == st.history;
    assert IsErrorRecord(error, |last.history|, last.parsed.value);
  }

  /** Lines 88-122 keep the invariant, or finish as `Final` describes. */
  lemma ExecuteKeeps(env: Env, maxIterations: int, st: State)
    requires st.iteration < maxIterations && |st.history| == st.iteration
    requires Numbered(st.history) && AllFailed(env, st.history)
    requires st.parsed.Some? && st.currentCode.Some?
    ensures !Execute(env, st).Escape?
    ensures Execute(env, st).Continue? ==> Inv(env, Execute(env, st).next)
    ensures Execute(env, st).Stop? ==> Final(env, maxIterations, Execute(env, st).last)
  {
    var code := st.parsed.value.code;
    var rows := TestResults(env, code, env.tests);
    var ran := st.(exec := Some(env.oracles.execute(code, env.language, env.userInput)), results := Some(rows));
    assert Ran(env, ran);
    match env.oracles.validate(st.iteration, rows)
    case Raises(e) =>
      HandleFinal(env, maxIterations, ran, e);
    case Answer(_) =>
      var record := IterationRecord(st.iteration + 1, st.parsed.value.reasoning, code, ran.exec.value, rows);
      var recorded := ran.(history := st.history + [record]);
      NumberedExtend(st.history, record);
      assert recorded.history[..|recorded.history| - 1] == st.history;
      assert record == LastRecord(recorded);
      if !AllPassed(rows) {
        AllFailedExtend(env, st.history, record);
      }
  }

  /** One pass keeps the invariant, or finishes as `Final` describes. */
  lemma PassKeeps(env: Env, maxIterations: int, st: State)
    requires Inv(env, st) && st.iteration < maxIterations
    ensures Pass(env, st).Continue? ==> Inv(env, Pass(env, st).next)
    ensures Pass(env, st).Stop? ==> Final(env, maxIterations, Pass(env, st).last)
  {
    match Generate(env, st)
    case Raises(e) =>
      if st.parsed.Some? {
        HandleFinal(env, maxIterations, st, e);
      }
    case Answer(reply) =>
      var st1 := st.(currentCode := Some(reply), parsed := Reparse(env.parse, reply, st.parsed));
      if st1.parsed.Some? {
        ExecuteKeeps(env, maxIterations, st1);
      }
  }

  /** Every finished loop started from an invariant state is `Final`. */
  lemma {:induction false} LoopFinal(env: Env, maxIterations: int, st: State)
    requires Inv(env, st) && (st.iteration == 0 || st.iteration <= maxIterations)
    ensures Loop(env, maxIterations, st).Finished? ==> Final(env, maxIterations, Loop(env, maxIterations, st).state)
    decreases maxIterations - st.iteration
  {
    if st.iteration < maxIterations {
      PassKeeps(env, maxIterations, st);
      match Pass(env, st)
      case Continue(next) =>
        LoopFinal(env, maxIterations, next);
      case Stop(last) =>
      case Escape(_) =>
    } else if st.iteration > 0 {
      var h := st.history;
      assert forall k :: 0 <= k < |h| - 1 ==> h[..|h| - 1][k] == h[k];
    }
  }

  /** The environment the loop runs in once the tests are resolved. */
  function RunEnv(parse: Parser, oracles: Oracles, language: string, userInput: string,
                  tests: seq<Executor.TestCase>): Env
    requires ResolveTests(oracles, tests).Answer?
  {
    Env(oracles, parse, language, userInput, ResolveTests(oracles, tests).value)
  }

  /** A result of the pipeline comes from a `Final` state. */
  lemma RunFinal(parse: Parser, oracles: Oracles, language: string, userInput: string,
                 tests: seq<Executor.TestCase>, maxIterations: int)
    returns (f: State)
    requires RunWith(parse, oracles, language, userInput, tests, maxIterations).Ok?
    ensures ResolveTests(oracles, tests).Answer?
    ensures f.parsed.Some? && f.exec.Some? && f.results.Some?
    ensures Final(RunEnv(parse, oracles, language, userInput, tests), maxIterations, f)
    ensures RunWith(parse, oracles, language, userInput, tests, maxIterations) == Report(f)
  {
    var env := RunEnv(parse, oracles, language, userInput, tests);
    LoopFinal(env, maxIterations, Initial);
    f := Loop(env, maxIterations, Initial).state;
  }

  /** Record `k` of the history is numbered `k + 1`, and there is at least
      one record and at most one per allowed pass. */
  lemma RunHistoryShape(parse: Parser, oracles: Oracles, language: string, userInput: string,
                        tests: seq<Executor.TestCase>, maxIterations: int)
    requires RunWith(parse, oracles, language, userInput, tests, maxIterations).Ok?
    ensures var h := RunWith(parse, oracles, language, userInput, tests, maxIterations).value.history;
            1 <= |h| <= maxIterations && forall k :: 0 <= k < |h| ==> h[k].iteration == k + 1
  {
    var f := RunFinal(parse, oracles, language, userInput, tests, maxIterations);
  }

  /** Every record but the last is a full pass with a failing test. */
  lemma RunEarlierPassesFailed(parse: Parser, oracles: Oracles, language: string, userInput: string,
                               tests: seq<Executor.TestCase>, maxIterations: int)
    requires RunWith(parse, oracles, language, userInput, tests, maxIterations).Ok?
    ensures var h := RunWith(parse, oracles, language, userInput, tests, maxIterations).value.history;
            forall k :: 0 <= k < |h| - 1 ==>
              FullPass(RunEnv(parse, oracles, language, userInput, tests), h[k]) && !AllPassed(h[k].testResults)
  {
    var f := RunFinal(parse, oracles, language, userInput, tests, maxIterations);
    var h := f.history;
    assert forall k :: 0 <= k < |h| - 1 ==> h[..|h| - 1][k] == h[k];
  }

  /** The reported result and rows are those of the final code, and
      `success` says whether all of those rows passed. */
  lemma RunReportsFinalCode(parse: Parser, oracles: Oracles, language: string, userInput: string,
                            tests: seq<Executor.TestCase>, maxIterations: int)
    requires RunWith(parse, oracles, language, userInput, tests, maxIterations).Ok?
    ensures var res := RunWith(parse, oracles, language, userInput, tests, maxIterations).value;
            var env := RunEnv(parse, oracles, language, userInput, tests);
            res.finalResult == oracles.execute(res.finalCode, language, userInput)
            && res.testResults == TestResults(env, res.finalCode, env.tests)
            && (res.success <==> AllPassed(res.testResults))
  {
    var f := RunFinal(parse, oracles, language, userInput, tests, maxIterations);
  }

  /** How a run ends: its last record is a full pass whose tests all
      passed, or the passes ran out on a failing one (and the run reports
      one pass more than it made), or a call raised and the last record is
      an error record. */
  lemma RunEndings(parse: Parser, oracles: Oracles, language: string, userInput: string,
                   tests: seq<Executor.TestCase>, maxIterations: int)
    requires RunWith(parse, oracles, language, userInput, tests, maxIterations).Ok?
    ensures var res := RunWith(parse, oracles, language, userInput, tests, maxIterations).value;
            var n := |res.history|;
            1 <= n
            && ((res.success && res.iterations == n
                 && res.history[n - 1] == IterationRecord(n, res.cot, res.finalCode, res.finalResult, res.testResults))
             || (!res.success && n == maxIterations && res.iterations == n + 1
                 && res.history[n - 1] == IterationRecord(n, res.cot, res.finalCode, res.finalResult, res.testResults))
             || (res.iterations == n
                 && exists e :: res.history[n - 1]
                                == IterationRecord(n, res.cot, res.finalCode, ExecutionResult("", Describe(e)), [])))
  {
    var f := RunFinal(parse, oracles, language, userInput, tests, maxIterations);
  }

  /** Test generation that raises ends the run with that exception. */
  lemma RunSynthesisFails(parse: Parser, oracles: Oracles, language: string, userInput: string,
                          maxIterations: int)
    requires oracles.synthesize.Raises?
    ensures RunWith(parse, oracles, language, userInput, [], maxIterations)
            == Err(TestSynthesisFailed(oracles.synthesize.exception))
  {
  }

  /** No pass allowed, a first generation call that raises, or a first reply
      that does not parse: the `return` or a handler reads a variable that
      was never assigned. */
  lemma RunUnbound(parse: Parser, oracles: Oracles, language: string, userInput: string,
                   tests: seq<Executor.TestCase>, maxIterations: int)
    requires ResolveTests(oracles, tests).Answer?
    requires maxIterations <= 0 || oracles.initial.Raises? || parse(oracles.initial.value).Err?
    ensures RunWith(parse, oracles, language, userInput, tests, maxIterations) == Err(UnboundLocal)
  {
    var env := RunEnv(parse, oracles, language, userInput, tests);
    if 0 < maxIterations {
      match oracles.initial
      case Raises(e) =>
        assert Pass(env, Initial) == Escape(UnboundLocal);
      case Answer(reply) =>
        var st1 := Initial.(currentCode := Some(reply), parsed := Reparse(parse, reply, None));
        assert Pass(env, Initial) == Execute(env, st1) == Escape(UnboundLocal);
    }
  }

  /** The validation call raising on a first pass whose tests all passed:
      the only record is an error record, yet the run reports success. */
  lemma ValidateRaisesAfterPassing(parse: Parser, oracles: Oracles, language: string, userInput: string,
                                   tests: seq<Executor.TestCase>, maxIterations: int, reply: string, e: Raise)
    requires ResolveTests(oracles, tests).Answer? && 1 <= maxIterations
    requires oracles.initial == Answer(reply) && parse(reply).Ok?
    requires AllPassed(TestResults(RunEnv(parse, oracles, language, userInput, tests), parse(reply).value.code,
                                   ResolveTests(oracles, tests).value))
    requires oracles.validate(0, TestResults(RunEnv(parse, oracles, language, userInput, tests),
                                             parse(reply).value.code, ResolveTests(oracles, tests).value))
             == Raises(e)
    ensures var p := parse(reply).value;
            var env := RunEnv(parse, oracles, language, userInput, tests);
            RunWith(parse, oracles, language, userInput, tests, maxIterations)
            == Ok(PipelineResult(p.reasoning, p.code, oracles.execute(p.code, language, userInput),
                                 TestResults(env, p.code, env.tests), 1,
                                 [IterationRecord(1, p.reasoning, p.code, ExecutionResult("", Describe(e)), [])],
                                 true))
  {
    var env := RunEnv(parse, oracles, language, userInput, tests);
    var p := parse(reply).value;
    var st1 := Initial.(currentCode := Some(reply), parsed := Some(p));
    var rows := TestResults(env, p.code, env.tests);
    var ran := st1.(exec := Some(oracles.execute(p.code, language, userInput)), results := Some(rows));
    assert Pass(env, Initial) == Execute(env, st1) == Handle(ran, e);
    var last := ran.(history := [IterationRecord(1, p.reasoning, p.code, ExecutionResult("", Describe(e)), [])]);
    assert Handle(ran, e) == Stop(last);
    assert Loop(env, maxIterations, Initial) == Finished(last);
  }

  /** The first pass asks for the first reply; every later pass asks for a
      refinement of the previous reply from the output and error its
      recorded pass produced. */
  lemma RefineUsesPreviousPass(env: Env, st: State)
    requires Inv(env, st)
    ensures st.iteration == 0 ==> Generate(env, st) == env.oracles.initial
    ensures st.iteration > 0 ==>
              var last := st.history[|st.history| - 1];
              last.executionResult == env.oracles.execute(last.code, env.language, env.userInput)
              && Generate(env, st)
                 == env.oracles.refine(st.iteration, st.currentCode.value,
                                       last.executionResult.output, last.executionResult.error)
  {
  }

  /** A refined reply that does not parse leaves the pass running the
      previous pass's code and reasoning. */
  lemma PassReusesCode(env: Env, st: State, reply: string)
    requires st.currentCode.Some? && st.exec.Some? && st.parsed.Some?
    requires Generate(env, st) == Answer(reply) && env.parse(reply).Err?
    ensures Pass(env, st) == Execute(env, st.(currentCode := Some(reply)))
  {
  }
}
