/** What `run_pipeline` (backend/src/pipeline.py:67-187) guarantees about
    its history and its result, proved from the loop's invariant. */
module PipelineProperties {
  import opened Wrappers
  import opened ReplyParser
  import opened Executor
  import opened Pipeline

  /** A record of a pass that ran its code on the user's input and on every
      test. */
  predicate FullPass(env: Env, rec: IterationRecord)
  {
    LanguageId(env.language).Ok?
    && rec.executionResult == Run(env.oracles.service, rec.code, LanguageId(env.language).value, env.userInput)
    && rec.testResults == TestResults(env.oracles.service, LanguageId(env.language).value, rec.code, env.tests)
  }

  /** Records that are full passes with at least one failing test. */
  predicate AllFailed(env: Env, history: seq<IterationRecord>)
  {
    forall k :: 0 <= k < |history| ==> FullPass(env, history[k]) && !AllPassed(history[k].testResults)
  }

  /** Record `k` carries the pass number `k + 1`. */
  predicate Numbered(history: seq<IterationRecord>)
  {
    forall k :: 0 <= k < |history| ==> history[k].iteration == k + 1
  }

  /** The loop's variables hold what the last record holds. */
  predicate LastAgrees(st: State)
  {
    |st.history| > 0 && st.parsed.Some? && st.exec.Some? && st.results.Some?
    && st.history[|st.history| - 1]
       == IterationRecord(|st.history|, st.parsed.value.reasoning, st.parsed.value.code, st.exec.value, st.results.value)
  }

  /** What holds at the top of every pass: one failing full pass recorded
      per completed pass, and the refined reply waiting in `currentCode`. */
  predicate Inv(env: Env, st: State)
  {
    |st.history| == st.iteration && Numbered(st.history) && AllFailed(env, st.history)
    && (st.iteration == 0 ==> st == Initial)
    && (st.iteration > 0 ==> st.currentCode.Some? && LastAgrees(st))
  }

  /** The finished loop, whenever every variable the `return` reads is
      assigned: either every test passed, the passes ran out, or the
      refinement call raised and an error record follows the last pass. */
  predicate Final(env: Env, maxIterations: int, f: State)
  {
    f.parsed.Some? && f.exec.Some? && f.results.Some? ==>
      1 <= |f.history| && Numbered(f.history) && AllFailed(env, f.history[..|f.history| - 1])
      && ((|f.history| == f.iteration + 1 <= maxIterations && LastAgrees(f)
           && FullPass(env, f.history[|f.history| - 1]) && AllPassed(f.results.value))
       || (|f.history| == f.iteration == maxIterations && LastAgrees(f)
           && FullPass(env, f.history[|f.history| - 1]) && !AllPassed(f.results.value))
       || (2 <= |f.history| == f.iteration + 1 <= maxIterations + 1 && !AllPassed(f.results.value)
           && f.history[|f.history| - 1]
              == IterationRecord(|f.history|, f.parsed.value.reasoning, f.parsed.value.code, ZeroResult, [])
           && !FullPass(env, f.history[|f.history| - 1])
           && LastAgrees(f.(history := f.history[..|f.history| - 1]))))
  }

  lemma NumberedExtend(history: seq<IterationRecord>, rec: IterationRecord)
    requires Numbered(history) && rec.iteration == |history| + 1
    ensures Numbered(history + [rec])
  {
    assert forall k :: 0 <= k < |history| ==> (history + [rec])[k] == history[k];
  }

  lemma AllFailedExtend(env: Env, history: seq<IterationRecord>, rec: IterationRecord)
    requires AllFailed(env, history) && FullPass(env, rec) && !AllPassed(rec.testResults)
    ensures AllFailed(env, history + [rec])
  {
    assert forall k :: 0 <= k < |history| ==> (history + [rec])[k] == history[k];
  }

  /** Lines 141-156 keep the invariant, or finish as `Final` describes. */
  lemma JudgeKeeps(env: Env, maxIterations: int, st: State, results: seq<TestCaseResult>)
    requires st.parsed.Some? && st.exec.Some? && st.iteration < maxIterations
    requires |st.history| == st.iteration && Numbered(st.history) && AllFailed(env, st.history)
    requires FullPass(env, IterationRecord(st.iteration + 1, st.parsed.value.reasoning, st.parsed.value.code,
                                           st.exec.value, results))
    ensures !Judge(env, st, results).Escape?
    ensures Judge(env, st, results).Continue? ==> Inv(env, Judge(env, st, results).next)
    ensures Judge(env, st, results).Stop? ==> Final(env, maxIterations, Judge(env, st, results).last)
  {
    var code := st.parsed.value.code;
    var record := IterationRecord(st.iteration + 1, st.parsed.value.reasoning, code, st.exec.value, results);
    var recorded := st.(results := Some(results), history := st.history + [record]);
    NumberedExtend(st.history, record);
    assert recorded.history[..|recorded.history| - 1] == st.history;
    if AllPassed(results) {
      PassedFinal(env, maxIterations, recorded);
    } else {
      AllFailedExtend(env, st.history, record);
      var counted := recorded.(iteration := st.iteration + 1);
      assert Judge(env, st, results) == Refine(env, counted, code, results);
      match env.oracles.refine(counted.iteration, code, results)
      case Raised =>
        assert Judge(env, st, results) == Handle(counted);
        RaisedFinal(env, maxIterations, counted);
      case Returned(next) =>
        assert LastAgrees(counted.(currentCode := Some(next)));
    }
  }

  /** Lines 141-145: a pass whose tests all passed ends the loop with that
      pass as the last record. */
  lemma PassedFinal(env: Env, maxIterations: int, recorded: State)
    requires recorded.parsed.Some? && recorded.exec.Some? && recorded.results.Some?
    requires 1 <= |recorded.history| == recorded.iteration + 1 <= maxIterations
    requires Numbered(recorded.history) && AllFailed(env, recorded.history[..|recorded.history| - 1])
    requires recorded.history[|recorded.history| - 1]
      == IterationRecord(|recorded.history|, recorded.parsed.value.reasoning, recorded.parsed.value.code,
                         recorded.exec.value, recorded.results.value)
    requires FullPass(env, recorded.history[|recorded.history| - 1]) && AllPassed(recorded.results.value)
    ensures Final(env, maxIterations, recorded)
  {
    assert LastAgrees(recorded);
  }

  /** Lines 157-177: when refining after a failing pass raises, the error
      record follows that pass and the loop ends. */
  lemma RaisedFinal(env: Env, maxIterations: int, counted: State)
    requires counted.parsed.Some? && counted.exec.Some? && counted.results.Some?
    requires 1 <= |counted.history| == counted.iteration <= maxIterations
    requires Numbered(counted.history) && AllFailed(env, counted.history) && LastAgrees(counted)
    ensures Final(env, maxIterations, counted.(history := counted.history + [ErrorRecord(counted)]))
  {
    var error := ErrorRecord(counted);
    var last := counted.(history := counted.history + [error]);
    var pass := counted.history[|counted.history| - 1];
    assert FullPass(env, pass) && !AllPassed(pass.testResults);
    // A failing pass had tests, so the error record's empty list of rows is
    // not what a full pass produces.
    assert |pass.testResults| == |env.tests| > 0;
    assert !FullPass(env, error);
    NumberedExtend(counted.history, error);
    assert last.history[..|last.history| - 1] == counted.history;
    assert last.(history := last.history[..|last.history| - 1]) == counted;
  }

  /** One pass keeps the invariant, or finishes as `Final` describes. */
  lemma PassKeeps(env: Env, maxIterations: int, st: State)
    requires Inv(env, st) && st.iteration < maxIterations
    ensures Pass(env, st).Continue? ==> Inv(env, Pass(env, st).next)
    ensures Pass(env, st).Stop? ==> Final(env, maxIterations, Pass(env, st).last)
  {
    var generated := if st.currentCode.None? then env.oracles.initial else Returned(st.currentCode.value);
    match generated
    case Raised =>
    case Returned(reply) =>
      var st1 := st.(currentCode := Some(reply), parsed := Reparse(env.parse, reply, st.parsed));
      if st.iteration > 0 {
        assert FullPass(env, st.history[|st.history| - 1]);
      }
      if st1.parsed.Some? {
        var code := st1.parsed.value.code;
        var run := ExecuteCode(env.oracles.service, code, env.language, env.userInput);
        if run.Ok? {
          var results := TestResults(env.oracles.service, LanguageId(env.language).value, code, env.tests);
          JudgeKeeps(env, maxIterations, st1.(exec := Some(run.value)), results);
        }
      }
  }

  /** Every finished loop started from an invariant state is `Final`. */
  lemma {:induction false} LoopFinal(env: Env, maxIterations: int, st: State)
    requires Inv(env, st) && (st.iteration == 0 || st.iteration <= maxIterations)
    ensures Loop(env, maxIterations, st).Finished? ==> Final(env, maxIterations, Loop(env, maxIterations, st).state)
    decreases maxIterations - st.iteration
  {
    if st.iteration < maxIterations {
      PassKeeps(env, maxIterations, st);
      match Pass(env, st)
      case Continue(next) =>
        LoopFinal(env, maxIterations, next);
      case Stop(last) =>
      case Escape(_) =>
    } else if st.iteration > 0 {
      assert st.history[..|st.history| - 1] + [st.history[|st.history| - 1]] == st.history;
    }
  }

  /** The environment the loop runs in once the tests are resolved. */
  function RunEnv(parse: Parser, oracles: Oracles, language: string, userInput: string, tests: seq<TestCase>): Env
    requires ResolveTests(oracles, tests).Returned?
  {
    Env(oracles, parse, language, userInput, ResolveTests(oracles, tests).value)
  }

  /** A result of `run_pipeline` comes from a `Final` state. */
  lemma RunFinal(parse: Parser, oracles: Oracles, language: string, userInput: string, tests: seq<TestCase>, maxIterations: int)
    returns (f: State)
    requires RunWith(parse, oracles, language, userInput, tests, maxIterations).Ok?
    ensures ResolveTests(oracles, tests).Returned?
    ensures f.parsed.Some? && f.exec.Some? && f.results.Some?
    ensures Final(RunEnv(parse, oracles, language, userInput, tests), maxIterations, f)
    ensures RunWith(parse, oracles, language, userInput, tests, maxIterations) == Report(f)
  {
    var env := RunEnv(parse, oracles, language, userInput, tests);
    LoopFinal(env, maxIterations, Initial);
    f := Loop(env, maxIterations, Initial).state;
  }

  /** Record `k` of the history is numbered `k + 1`. */
  lemma RunHistoryNumbered(parse: Parser, oracles: Oracles, language: string, userInput: string,
                           tests: seq<TestCase>, maxIterations: int)
    requires RunWith(parse, oracles, language, userInput, tests, maxIterations).Ok?
    ensures var h := RunWith(parse, oracles, language, userInput, tests, maxIterations).value.history;
            forall k :: 0 <= k < |h| ==> h[k].iteration == k + 1
  {
    var f := RunFinal(parse, oracles, language, userInput, tests, maxIterations);
  }

  /** At least one record and at most one per allowed pass, plus the error
      record of a refinement call that raised after the last pass. */
  lemma RunHistoryBounded(parse: Parser, oracles: Oracles, language: string, userInput: string,
                          tests: seq<TestCase>, maxIterations: int)
    requires RunWith(parse, oracles, language, userInput, tests, maxIterations).Ok?
    ensures 1 <= |RunWith(parse, oracles, language, userInput, tests, maxIterations).value.history| <= maxIterations + 1
  {
    var f := RunFinal(parse, oracles, language, userInput, tests, maxIterations);
  }

  /** Every record but the last is a full pass with a failing test. */
  predicate EarlierPassesFailed(env: Env, h: seq<IterationRecord>)
  {
    |h| >= 1 && AllFailed(env, h[..|h| - 1])
  }

  lemma RunEarlierPassesFailed(parse: Parser, oracles: Oracles, language: string, userInput: string,
                               tests: seq<TestCase>, maxIterations: int)
    requires RunWith(parse, oracles, language, userInput, tests, maxIterations).Ok?
    ensures ResolveTests(oracles, tests).Returned?
    ensures EarlierPassesFailed(RunEnv(parse, oracles, language, userInput, tests),
                                RunWith(parse, oracles, language, userInput, tests, maxIterations).value.history)
  {
    var f := RunFinal(parse, oracles, language, userInput, tests, maxIterations);
    FinalEarlierPassesFailed(RunEnv(parse, oracles, language, userInput, tests), maxIterations, f,
                             RunWith(parse, oracles, language, userInput, tests, maxIterations).value.history);
  }

  /** `RunEarlierPassesFailed` for the state the loop finished in. */
  lemma FinalEarlierPassesFailed(env: Env, maxIterations: int, f: State, h: seq<IterationRecord>)
    requires f.parsed.Some? && f.exec.Some? && f.results.Some? && Final(env, maxIterations, f)
    requires h == Report(f).value.history
    ensures EarlierPassesFailed(env, h)
  {
  }

  /** `success` holds exactly when the last record is a full pass whose
      tests all passed; the result then repeats that record. */
  predicate SuccessReported(env: Env, res: PipelineResult)
  {
    |res.history| > 0
    && var last := res.history[|res.history| - 1];
    (res.success <==> FullPass(env, last) && AllPassed(last.testResults))
    && (res.success ==>
          res.iterations == |res.history| && res.finalCode == last.code && res.cot == last.chainOfThought
          && res.finalResult == last.executionResult && res.testResults == last.testResults)
  }

  lemma RunSuccess(parse: Parser, oracles: Oracles, language: string, userInput: string,
                   tests: seq<TestCase>, maxIterations: int)
    requires RunWith(parse, oracles, language, userInput, tests, maxIterations).Ok?
    ensures ResolveTests(oracles, tests).Returned?
    ensures SuccessReported(RunEnv(parse, oracles, language, userInput, tests),
                            RunWith(parse, oracles, language, userInput, tests, maxIterations).value)
  {
    var f := RunFinal(parse, oracles, language, userInput, tests, maxIterations);
    FinalSuccess(RunEnv(parse, oracles, language, userInput, tests), maxIterations, f,
                 RunWith(parse, oracles, language, userInput, tests, maxIterations).value);
  }

  /** `RunSuccess` for the state the loop finished in. */
  lemma FinalSuccess(env: Env, maxIterations: int, f: State, res: PipelineResult)
    requires f.parsed.Some? && f.exec.Some? && f.results.Some? && Final(env, maxIterations, f)
    requires res == Report(f).value
    ensures SuccessReported(env, res)
  {
    if LastAgrees(f) {
      AgreeingSuccess(env, f, res);
    } else {
      ErrorRecordSuccess(env, f, res);
    }
  }

  /** The loop's variables hold the last record: `success` is its verdict. */
  lemma AgreeingSuccess(env: Env, f: State, res: PipelineResult)
    requires f.parsed.Some? && f.exec.Some? && f.results.Some? && LastAgrees(f)
    requires res == Report(f).value
    requires AllPassed(f.results.value) ==>
               |f.history| == f.iteration + 1 && FullPass(env, f.history[|f.history| - 1])
    ensures SuccessReported(env, res)
  {
    assert res.history == f.history && res.success == AllPassed(f.results.value);
  }

  /** The run ended on an error record, which is not a full pass. */
  lemma ErrorRecordSuccess(env: Env, f: State, res: PipelineResult)
    requires f.parsed.Some? && f.exec.Some? && f.results.Some? && |f.history| > 0
    requires res == Report(f).value
    requires !AllPassed(f.results.value) && !FullPass(env, f.history[|f.history| - 1])
    ensures SuccessReported(env, res)
  {
  }

  /** How a run that did not succeed ends: either it used up every pass
      (and then reports one pass more than it ran), or it ended on the
      error record of a refinement call that raised, after a failing pass. */
  predicate FailedEnding(env: Env, maxIterations: int, res: PipelineResult)
  {
    var n := |res.history|;
    1 <= n
    && ((n == maxIterations && res.iterations == maxIterations + 1
         && FullPass(env, res.history[n - 1])
         && res.testResults == res.history[n - 1].testResults)
     || (2 <= n && res.iterations == n
         && res.history[n - 1] == IterationRecord(n, res.cot, res.finalCode, ZeroResult, [])
         && res.history[n - 2].code == res.finalCode
         && res.testResults == res.history[n - 2].testResults))
  }

  /** A run that did not succeed ends as `FailedEnding` describes. */
  lemma RunFailure(parse: Parser, oracles: Oracles, language: string, userInput: string,
                   tests: seq<TestCase>, maxIterations: int)
    requires RunWith(parse, oracles, language, userInput, tests, maxIterations).Ok?
    requires !RunWith(parse, oracles, language, userInput, tests, maxIterations).value.success
    ensures ResolveTests(oracles, tests).Returned?
    ensures FailedEnding(RunEnv(parse, oracles, language, userInput, tests), maxIterations,
                         RunWith(parse, oracles, language, userInput, tests, maxIterations).value)
  {
    var f := RunFinal(parse, oracles, language, userInput, tests, maxIterations);
    FinalFailure(RunEnv(parse, oracles, language, userInput, tests), maxIterations, f,
                 RunWith(parse, oracles, language, userInput, tests, maxIterations).value);
  }

  /** `RunFailure` for the state the loop finished in. */
  lemma FinalFailure(env: Env, maxIterations: int, f: State, res: PipelineResult)
    requires f.parsed.Some? && f.exec.Some? && f.results.Some? && Final(env, maxIterations, f)
    requires res == Report(f).value && !res.success
    ensures FailedEnding(env, maxIterations, res)
  {
    var h := f.history;
    if |h| != f.iteration {
      assert LastAgrees(f.(history := h[..|h| - 1]));
      assert h[..|h| - 1][|h| - 2] == h[|h| - 2];
    }
  }

  /** Test generation that raises ends the run with that error. */
  lemma RunSynthesisFails(parse: Parser, oracles: Oracles, language: string, userInput: string, maxIterations: int)
    requires oracles.synthesize.Raised?
    ensures RunWith(parse, oracles, language, userInput, [], maxIterations) == Err(TestSynthesisFailed)
  {
  }

  /** No pass allowed, a first generation call that raises, a first reply
      that does not parse, or an unknown language: the `return` reads a
      variable that was never assigned. */
  lemma RunUnbound(parse: Parser, oracles: Oracles, language: string, userInput: string,
                   tests: seq<TestCase>, maxIterations: int)
    requires ResolveTests(oracles, tests).Returned?
    requires maxIterations <= 0 || oracles.initial.Raised?
             || parse(oracles.initial.value).Err? || LanguageId(language).Err?
    ensures RunWith(parse, oracles, language, userInput, tests, maxIterations) == Err(UnboundLocal)
  {
    var env := RunEnv(parse, oracles, language, userInput, tests);
    if 0 < maxIterations {
      match oracles.initial
      case Raised =>
        assert Pass(env, Initial) == Escape(UnboundLocal);
      case Returned(reply) =>
        var st1 := Initial.(currentCode := Some(reply), parsed := Reparse(parse, reply, None));
        assert Pass(env, Initial) == Execute(env, st1);
        if st1.parsed.Some? {
          assert ExecuteCode(oracles.service, st1.parsed.value.code, language, userInput).Err?;
          assert Execute(env, st1) == Handle(st1);
        }
    }
  }

  /** A first reply that parses, in a known language, whose tests all pass
      ends the run after one pass with that pass as its only record. */
  lemma RunFirstPassSucceeds(parse: Parser, oracles: Oracles, language: string, userInput: string,
                             tests: seq<TestCase>, maxIterations: int, reply: string)
    requires ResolveTests(oracles, tests).Returned? && 1 <= maxIterations
    requires oracles.initial == Returned(reply) && parse(reply).Ok? && LanguageId(language).Ok?
    requires AllPassed(TestResults(oracles.service, LanguageId(language).value, parse(reply).value.code,
                                   ResolveTests(oracles, tests).value))
    ensures var p := parse(reply).value;
            var id := LanguageId(language).value;
            var exec := Run(oracles.service, p.code, id, userInput);
            var results := TestResults(oracles.service, id, p.code, ResolveTests(oracles, tests).value);
            RunWith(parse, oracles, language, userInput, tests, maxIterations)
            == Ok(PipelineResult(p.reasoning, p.code, exec, results, 1,
                                 [IterationRecord(1, p.reasoning, p.code, exec, results)], true))
  {
    var env := RunEnv(parse, oracles, language, userInput, tests);
    var p := parse(reply).value;
    var id := LanguageId(language).value;
    var exec := Run(oracles.service, p.code, id, userInput);
    var results := TestResults(oracles.service, id, p.code, env.tests);
    var st1 := Initial.(currentCode := Some(reply), parsed := Some(p));
    assert Pass(env, Initial) == Execute(env, st1);
    assert Execute(env, st1) == Judge(env, st1.(exec := Some(exec)), results);
    var last := st1.(exec := Some(exec), results := Some(results),
                     history := [IterationRecord(1, p.reasoning, p.code, exec, results)]);
    assert Judge(env, st1.(exec := Some(exec)), results) == Stop(last);
    assert Loop(env, maxIterations, Initial) == Finished(last);
  }

  /** The refinement call follows even the last allowed pass: with one
      pass allowed, a failing first pass and a refinement call that raises,
      the history holds that pass and an error record numbered 2. */
  lemma RunRefinesAfterLastPass(parse: Parser, oracles: Oracles, language: string, userInput: string,
                                tests: seq<TestCase>, reply: string)
    requires ResolveTests(oracles, tests).Returned?
    requires oracles.initial == Returned(reply) && parse(reply).Ok? && LanguageId(language).Ok?
    requires !AllPassed(TestResults(oracles.service, LanguageId(language).value, parse(reply).value.code,
                                    ResolveTests(oracles, tests).value))
    requires oracles.refine(1, parse(reply).value.code,
                            TestResults(oracles.service, LanguageId(language).value, parse(reply).value.code,
                                        ResolveTests(oracles, tests).value)) == Raised
    ensures var p := parse(reply).value;
            var id := LanguageId(language).value;
            var exec := Run(oracles.service, p.code, id, userInput);
            var results := TestResults(oracles.service, id, p.code, ResolveTests(oracles, tests).value);
            RunWith(parse, oracles, language, userInput, tests, 1)
            == Ok(PipelineResult(p.reasoning, p.code, exec, results, 2,
                                 [IterationRecord(1, p.reasoning, p.code, exec, results),
                                  IterationRecord(2, p.reasoning, p.code, ZeroResult, [])], false))
  {
    var env := RunEnv(parse, oracles, language, userInput, tests);
    var p := parse(reply).value;
    var id := LanguageId(language).value;
    var exec := Run(oracles.service, p.code, id, userInput);
    var results := TestResults(oracles.service, id, p.code, env.tests);
    var st1 := Initial.(currentCode := Some(reply), parsed := Some(p));
    assert Pass(env, Initial) == Execute(env, st1);
    assert Execute(env, st1) == Judge(env, st1.(exec := Some(exec)), results);
    var counted := st1.(iteration := 1, exec := Some(exec), results := Some(results),
                        history := [IterationRecord(1, p.reasoning, p.code, exec, results)]);
    assert Judge(env, st1.(exec := Some(exec)), results) == Refine(env, counted, p.code, results);
    var last := counted.(history := counted.history + [IterationRecord(2, p.reasoning, p.code, ZeroResult, [])]);
    assert Refine(env, counted, p.code, results) == Stop(last);
    assert Loop(env, 1, Initial) == Finished(last);
    assert last.history == [IterationRecord(1, p.reasoning, p.code, exec, results),
                            IterationRecord(2, p.reasoning, p.code, ZeroResult, [])];
  }

  /** With no tests to run (test generation returned none), the first pass
      that runs succeeds. */
  lemma RunNoTestsSucceeds(parse: Parser, oracles: Oracles, language: string, userInput: string,
                           maxIterations: int, reply: string)
    requires oracles.synthesize == Returned([]) && 1 <= maxIterations
    requires oracles.initial == Returned(reply) && parse(reply).Ok? && LanguageId(language).Ok?
    ensures RunWith(parse, oracles, language, userInput, [], maxIterations).Ok?
    ensures RunWith(parse, oracles, language, userInput, [], maxIterations).value.success
    ensures RunWith(parse, oracles, language, userInput, [], maxIterations).value.iterations == 1
  {
    RunFirstPassSucceeds(parse, oracles, language, userInput, [], maxIterations, reply);
  }

  /** A refined reply that does not parse leaves the pass running the
      previous pass's code and reasoning (the parse error is only logged). */
  lemma PassReusesCode(env: Env, st: State, reply: string)
    requires st.currentCode == Some(reply) && st.parsed.Some? && env.parse(reply).Err?
    ensures Pass(env, st) == Execute(env, st)
  {
  }
}
