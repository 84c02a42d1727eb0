/** The client of the code-execution service (backend/src/executor.py): the
    language table, the mapping from the service's reply to an execution
    result, and `validate_test_cases`. The HTTP exchange itself is a
    parameter, `service`, from the request to what came back. */
module Executor {
  import opened Wrappers
  import opened Text
  import opened JsonValue
  import opened PassRules

  /** The service's language ids, keyed by lower-case language name, in the
      order the dictionary lists them. */
  const LanguageIds: seq<(string, nat)> := [
    ("python", 71), ("cpp", 54), ("c", 50), ("javascript", 63),
    ("java", 62), ("ruby", 72), ("rust", 73), ("r", 80), ("go", 60),
    ("swift", 83), ("typescript", 74), ("php", 68)]

  /** `dict.get(key)` on a dictionary listed as key-value pairs: the value
      of the first pair with that key. */
  function Get(pairs: seq<(string, nat)>, key: string): Option<nat>
  {
    if pairs == [] then None
    else if pairs[0].0 == key then Some(pairs[0].1)
    else Get(pairs[1..], key)
  }

  /** The keys are distinct. */
  predicate DistinctKeys(pairs: seq<(string, nat)>)
  {
    forall i, j :: 0 <= i < j < |pairs| ==> pairs[i].0 != pairs[j].0
  }

  /** With distinct keys, `Get` finds a value exactly for a listed key, and
      it is that key's value. */
  lemma {:induction false} GetFinds(pairs: seq<(string, nat)>, key: string)
    requires DistinctKeys(pairs)
    ensures Get(pairs, key).Some? <==> exists i :: 0 <= i < |pairs| && pairs[i].0 == key
    ensures forall i :: 0 <= i < |pairs| && pairs[i].0 == key ==> Get(pairs, key) == Some(pairs[i].1)
  {
    if pairs != [] {
      var rest := pairs[1..];
      assert forall i :: 0 <= i < |rest| ==> rest[i] == pairs[i + 1];
      assert DistinctKeys(rest);
      GetFinds(rest, key);
      if pairs[0].0 != key {
        forall i | 0 < i < |pairs| && pairs[i].0 == key
          ensures Get(pairs, key) == Some(pairs[i].1)
        {
          assert rest[i - 1] == pairs[i];
        }
        if Get(pairs, key).Some? {
          var i :| 0 <= i < |rest| && rest[i].0 == key;
          assert pairs[i + 1].0 == key;
        }
      }
    }
  }

  /** A test case: an input and, possibly, the output it should produce. */
  datatype TestCase = TestCase(input: string, expectedOutput: Option<string>)

  /** What one run of a program produced. `time` and `memory` are passed on
      as the service sent them. */
  datatype ExecResult = ExecResult(
    output: string, stderror: string, compilerErrors: string, time: Json, memory: Json)

  /** One row of test results, as both the validator and the pipeline build it. */
  datatype TestCaseResult = TestCaseResult(
    input: string, expectedOutput: Option<string>, actualOutput: string, passed: bool,
    stderror: string, compilerErrors: string, time: Json, memory: Json)

  /** The body sent to the service. */
  datatype Request = Request(code: string, languageId: nat, stdin: string)

  /** What came back: an HTTP error status, a transport error or a body that
      is not JSON all count as `Failed`. */
  datatype Response = Failed | Answered(body: Json)

  /** The exceptions the client raises. `MissingExpectedOutput` is the
      `AttributeError` of calling `strip` on an absent expected output. */
  datatype Failure = UnsupportedLanguage(language: string) | MissingExpectedOutput(index: nat)

  /** The result returned when anything goes wrong in the request block. */
  const ZeroResult := ExecResult("", "", "", JString("0"), JString("0"))

  /** The id for `language`, looked up lower-cased; an unknown language is
      an error raised before any request is made. */
  function LanguageId(language: string): (r: Result<nat, Failure>)
    ensures r.Err? ==> r.error == UnsupportedLanguage(language)
  {
    var id := Get(LanguageIds, Lower(language));
    if id.Some? && id.value != 0 then Ok(id.value)
    else Err(UnsupportedLanguage(language))
  }

  /** The lookup succeeds exactly for the table's keys, lower-cased, and
      gives that key's id, which is positive. */
  lemma LanguageIdLooksUp(language: string)
    ensures LanguageId(language).Ok? <==> exists i :: 0 <= i < |LanguageIds| && LanguageIds[i].0 == Lower(language)
    ensures forall i :: 0 <= i < |LanguageIds| && LanguageIds[i].0 == Lower(language) ==>
      LanguageId(language) == Ok(LanguageIds[i].1) && LanguageIds[i].1 > 0
  {
    LanguageIdsWellFormed();
    GetFinds(LanguageIds, Lower(language));
  }

  /** No key is listed twice, no two languages share an id, and every id is
      positive. */
  lemma LanguageIdsWellFormed()
    ensures DistinctKeys(LanguageIds)
    ensures forall i, j :: 0 <= i < j < |LanguageIds| ==> LanguageIds[i].1 != LanguageIds[j].1
    ensures forall i :: 0 <= i < |LanguageIds| ==> LanguageIds[i].1 > 0
  {
  }

  /** The lookup only sees the lower-cased name. */
  lemma LanguageIdLowerCases(language: string)
    ensures LanguageId(Lower(language)).Ok? == LanguageId(language).Ok?
    ensures LanguageId(language).Ok? ==> LanguageId(Lower(language)) == LanguageId(language)
  {
    LowerIdempotent(language);
  }

  /** The table is looked up whatever the case of the name. */
  lemma LanguageIdExamples()
    ensures LanguageId("Python") == Ok(71)
    ensures LanguageId("TypeScript") == Ok(74)
    ensures LanguageId("Kotlin") == Err(UnsupportedLanguage("Kotlin"))
  {
    ExampleNames();
    LanguageIdLooksUp("Python");
    LanguageIdLooksUp("TypeScript");
    LanguageIdLooksUp("Kotlin");
  }

  lemma ExampleNames()
    ensures Lower("Python") == LanguageIds[0].0
    ensures Lower("TypeScript") == LanguageIds[10].0
    ensures Lower("Kotlin") == "kotlin"
    ensures forall i :: 0 <= i < |LanguageIds| ==> LanguageIds[i].0 != "kotlin"
  {
    assert Lower("Python") == "python";
    assert Lower("TypeScript") == "typescript";
    assert Lower("Kotlin") == "kotlin";
  }

  /** A text field of the reply: absent or falsy gives `""`, a string is
      kept, and any other value is rejected (`None`) by the result model. */
  function TextField(m: map<string, Json>, key: string): (r: Option<string>)
    ensures r == Some("") <== (key !in m || !Truthy(m[key]))
    ensures r.Some? && r.value != "" ==> key in m && m[key] == JString(r.value)
    ensures r.None? ==> key in m && Truthy(m[key]) && !m[key].JString?
  {
    if key !in m || !Truthy(m[key]) then Some("")
    else if m[key].JString? then Some(m[key].s)
    else None
  }

  /** `time` and `memory`: the value as sent, and `"0"` only when absent. */
  function RawField(m: map<string, Json>, key: string): (r: Json)
    ensures key in m ==> r == m[key]
    ensures key !in m ==> r == JString("0")
  {
    if key in m then m[key] else JString("0")
  }

  /** The reply is a JSON object holding `value` under `key`. */
  predicate SentAs(response: Response, key: string, value: Json)
  {
    response.Answered? && response.body.JObject?
    && key in response.body.members && response.body.members[key] == value
  }

  /** The reply mapped to a result, never failing: an error, a body that is
      not an object, or a text field the result model rejects all give
      `ZeroResult`. Where each field comes from is stated by
      `ResultOfSent`. */
  function ResultOf(response: Response): (r: ExecResult)
    ensures response.Failed? || !response.body.JObject? ==> r == ZeroResult
  {
    match response
    case Failed => ZeroResult
    case Answered(body) =>
      match body
      case JObject(m) =>
        var stderr := TextField(m, "stderr");
        var stdout := TextField(m, "stdout");
        var compilerErrors := TextField(m, "compile_output");
        if stderr.Some? && stdout.Some? && compilerErrors.Some? then
          ExecResult(stdout.value, stderr.value, compilerErrors.value,
                     RawField(m, "time"), RawField(m, "memory"))
        else ZeroResult
      case _ => ZeroResult
  }

  /** Every non-empty text of the result comes from the matching key, and
      `time`/`memory` are either the default or the value sent. */
  lemma ResultOfSent(response: Response)
    ensures var r := ResultOf(response);
      && (r.output != "" ==> SentAs(response, "stdout", JString(r.output)))
      && (r.stderror != "" ==> SentAs(response, "stderr", JString(r.stderror)))
      && (r.compilerErrors != "" ==> SentAs(response, "compile_output", JString(r.compilerErrors)))
      && (r.time != JString("0") ==> SentAs(response, "time", r.time))
      && (r.memory != JString("0") ==> SentAs(response, "memory", r.memory))
  {
  }

  /** A reply whose text fields are strings or missing is copied field by
      field; only a missing `time`/`memory` becomes `"0"`, so a `null` one
      stays `null` (the result model is taken to accept any value for these
      two fields). */
  lemma ResultOfWellFormed(m: map<string, Json>, out: string, err: string, compiled: string)
    requires TextField(m, "stdout") == Some(out)
    requires TextField(m, "stderr") == Some(err)
    requires TextField(m, "compile_output") == Some(compiled)
    ensures ResultOf(Answered(JObject(m))) == ExecResult(out, err, compiled, RawField(m, "time"), RawField(m, "memory"))
    ensures "time" in m && m["time"] == JNull ==> ResultOf(Answered(JObject(m))).time == JNull
  {
  }

  /** An empty reply object and a failed request give the same result. */
  lemma EmptyReplyIsZero()
    ensures ResultOf(Answered(JObject(map[]))) == ResultOf(Failed) == ZeroResult
  {
    assert TextField(map[], "stdout") == Some("");
  }

  /** The result of running `code` on `input` with language id `id`. */
  function Run(service: Request -> Response, code: string, id: nat, input: string): ExecResult
  {
    ResultOf(service(Request(code, id, input)))
  }

  /** `execute_code`: fails only on an unknown language; otherwise the
      service is asked with the language's id and its reply is mapped. */
  function ExecuteCode(service: Request -> Response, code: string, language: string, input: string)
    : (r: Result<ExecResult, Failure>)
    ensures r.Err? <==> LanguageId(language).Err?
    ensures r.Err? ==> r.error == UnsupportedLanguage(language)
    ensures r.Ok? ==> r.value == Run(service, code, LanguageId(language).value, input)
  {
    match LanguageId(language)
    case Err(e) => Err(e)
    case Ok(id) => Ok(Run(service, code, id, input))
  }

  /** The row `validate_test_cases` builds for one test. */
  function ValidationRow(parse: string -> Option<Json>, test: TestCase, run: ExecResult): TestCaseResult
    requires test.expectedOutput.Some?
  {
    TestCaseResult(test.input, test.expectedOutput, run.output,
      ValidatorPassed(parse, run.output, test.expectedOutput.value),
      run.stderror, run.compilerErrors, run.time, run.memory)
  }

  predicate AllExpected(tests: seq<TestCase>)
  {
    forall i :: 0 <= i < |tests| ==> tests[i].expectedOutput.Some?
  }

  /** The rows for all tests, in order: row `i` copies test `i`'s input
      and expected output and that test's run, and records the validator's
      verdict. */
  function ValidationRows(service: Request -> Response, parse: string -> Option<Json>,
                          code: string, id: nat, tests: seq<TestCase>): seq<TestCaseResult>
    requires AllExpected(tests)
  {
    seq(|tests|, i requires 0 <= i < |tests| => TestRow(service, parse, code, id, tests[i]))
  }

  /** The row of one test whose expected output is given. */
  function TestRow(service: Request -> Response, parse: string -> Option<Json>,
                   code: string, id: nat, test: TestCase): TestCaseResult
    requires test.expectedOutput.Some?
  {
    ValidationRow(parse, test, Run(service, code, id, test.input))
  }

  /** What `validate_test_cases` returns or raises: the tests are run in
      order, and the first one whose run fails (an unknown language) or that
      has no expected output ends the call with that error. `parse` is
      `json.loads`. */
  function Validate(service: Request -> Response, parse: string -> Option<Json>,
                    code: string, language: string, tests: seq<TestCase>): Result<seq<TestCaseResult>, Failure>
    decreases |tests|
  {
    if tests == [] then Ok([])
    else
      var last := tests[|tests| - 1];
      match Validate(service, parse, code, language, tests[..|tests| - 1])
      case Err(e) => Err(e)
      case Ok(rows) =>
        match ExecuteCode(service, code, language, last.input)
        case Err(e) => Err(e)
        case Ok(run) =>
          if last.expectedOutput.None? then Err(MissingExpectedOutput(|tests| - 1))
          else Ok(rows + [ValidationRow(parse, last, run)])
  }

  /** `validate_test_cases` (backend/src/executor.py:75-103). */
  method ValidateTestCases(service: Request -> Response, parse: string -> Option<Json>,
                           code: string, language: string, tests: seq<TestCase>)
    returns (r: Result<seq<TestCaseResult>, Failure>)
    ensures r == Validate(service, parse, code, language, tests)
  {
    var rows: seq<TestCaseResult> := [];
    for i := 0 to |tests|
      invariant Validate(service, parse, code, language, tests[..i]) == Ok(rows)
    {
      var run := ExecuteCode(service, code, language, tests[i].input);
      assert tests[..i + 1][..i] == tests[..i] && tests[..i + 1][i] == tests[i];
      if run.Err? {
        ValidateErrorStays(service, parse, code, language, tests, i + 1);
        return Err(run.error);
      }
      if tests[i].expectedOutput.None? {
        ValidateErrorStays(service, parse, code, language, tests, i + 1);
        return Err(MissingExpectedOutput(i));
      }
      rows := rows + [ValidationRow(parse, tests[i], run.value)];
    }
    assert tests[..|tests|] == tests;
    return Ok(rows);
  }

  /** An error on a prefix of the tests is the error of the whole call: no
      later test runs. */
  lemma {:induction false} ValidateErrorStays(service: Request -> Response, parse: string -> Option<Json>,
                                              code: string, language: string, tests: seq<TestCase>, k: nat)
    requires k <= |tests| && Validate(service, parse, code, language, tests[..k]).Err?
    ensures Validate(service, parse, code, language, tests) == Validate(service, parse, code, language, tests[..k])
    decreases |tests|
  {
    if k == |tests| {
      assert tests[..k] == tests;
    } else {
      var prefix := tests[..|tests| - 1];
      assert prefix[..k] == tests[..k];
      ValidateErrorStays(service, parse, code, language, prefix, k);
    }
  }

  /** With no tests the result is `[]` whatever the language; with tests,
      an unknown language fails on the first one. */
  lemma {:induction false} ValidateUnknownLanguage(service: Request -> Response, parse: string -> Option<Json>,
                                                   code: string, language: string, tests: seq<TestCase>)
    ensures tests == [] ==> Validate(service, parse, code, language, tests) == Ok([])
    ensures tests != [] && LanguageId(language).Err? ==>
      Validate(service, parse, code, language, tests) == Err(UnsupportedLanguage(language))
    decreases |tests|
  {
    if tests != [] && LanguageId(language).Err? {
      ValidateUnknownLanguage(service, parse, code, language, tests[..|tests| - 1]);
    }
  }

  /** A call that returns rows saw an expected output on every test, and
      returns one row per test. */
  lemma {:induction false} ValidateOkExpected(service: Request -> Response, parse: string -> Option<Json>,
                                              code: string, language: string, tests: seq<TestCase>)
    ensures Validate(service, parse, code, language, tests).Ok? ==>
      AllExpected(tests) && |Validate(service, parse, code, language, tests).value| == |tests|
    decreases |tests|
  {
    if tests != [] {
      ValidateOkExpected(service, parse, code, language, tests[..|tests| - 1]);
      AllExpectedSnoc(tests);
    }
  }

  /** Every test has an expected output exactly when all but the last do
      and the last does. */
  lemma AllExpectedSnoc(tests: seq<TestCase>)
    requires tests != []
    ensures AllExpected(tests)
      <==> AllExpected(tests[..|tests| - 1]) && tests[|tests| - 1].expectedOutput.Some?
  {
    var prefix := tests[..|tests| - 1];
    assert forall j :: 0 <= j < |prefix| ==> prefix[j] == tests[j];
  }

  /** A test without an expected output fails the call with its own index,
      after every earlier test had one. */
  lemma {:induction false} ValidateMissing(service: Request -> Response, parse: string -> Option<Json>,
                                           code: string, language: string, tests: seq<TestCase>)
    ensures var r := Validate(service, parse, code, language, tests);
      r.Err? && r.error.MissingExpectedOutput? ==>
        var k := r.error.index;
        k < |tests| && tests[k].expectedOutput.None? && AllExpected(tests[..k])
    decreases |tests|
  {
    if tests != [] {
      var prefix := tests[..|tests| - 1];
      ValidateMissing(service, parse, code, language, prefix);
      ValidateOkExpected(service, parse, code, language, prefix);
      var r := Validate(service, parse, code, language, prefix);
      if r.Err? && r.error.MissingExpectedOutput? {
        var k := r.error.index;
        assert prefix[k] == tests[k] && prefix[..k] == tests[..k];
      }
    }
  }

  /** With a known language the call fails exactly when some test has no
      expected output, and otherwise returns `ValidationRows`: one row per
      test, in order, with the validator's verdict on that test's run. */
  lemma {:induction false} ValidateKnownLanguage(service: Request -> Response, parse: string -> Option<Json>,
                                                 code: string, language: string, tests: seq<TestCase>)
    requires LanguageId(language).Ok?
    ensures var r := Validate(service, parse, code, language, tests);
      && (r.Err? <==> !AllExpected(tests))
      && (r.Ok? ==> r.value == ValidationRows(service, parse, code, LanguageId(language).value, tests))
    decreases |tests|
  {
    if tests != [] {
      ValidateKnownLanguage(service, parse, code, language, tests[..|tests| - 1]);
      AllExpectedSnoc(tests);
      if Validate(service, parse, code, language, tests).Ok? {
        ValidationRowsUnfold(service, parse, code, LanguageId(language).value, tests);
      }
    }
  }

  /** The rows of all tests are the rows of all but the last, then the
      last test's row. */
  lemma ValidationRowsUnfold(service: Request -> Response, parse: string -> Option<Json>,
                             code: string, id: nat, tests: seq<TestCase>)
    requires AllExpected(tests) && tests != []
    ensures AllExpected(tests[..|tests| - 1])
    ensures var last := tests[|tests| - 1];
      ValidationRows(service, parse, code, id, tests)
      == ValidationRows(service, parse, code, id, tests[..|tests| - 1])
         + [ValidationRow(parse, last, Run(service, code, id, last.input))]
  {
    var prefix := tests[..|tests| - 1];
    var last := tests[|tests| - 1];
    AllExpectedSnoc(tests);
    var rows := ValidationRows(service, parse, code, id, prefix);
    var row := TestRow(service, parse, code, id, last);
    forall j | 0 <= j < |tests|
      ensures ValidationRows(service, parse, code, id, tests)[j] == (rows + [row])[j]
    {
      ValidationRowSnoc(service, parse, code, id, tests, j);
    }
  }

  lemma ValidationRowSnoc(service: Request -> Response, parse: string -> Option<Json>,
                          code: string, id: nat, tests: seq<TestCase>, j: nat)
    requires AllExpected(tests) && j < |tests|
    requires AllExpected(tests[..|tests| - 1])
    ensures var last := tests[|tests| - 1];
      ValidationRows(service, parse, code, id, tests)[j]
      == (ValidationRows(service, parse, code, id, tests[..|tests| - 1])
          + [TestRow(service, parse, code, id, last)])[j]
  {
    var prefix := tests[..|tests| - 1];
    var rows := ValidationRows(service, parse, code, id, prefix);
    var row := TestRow(service, parse, code, id, tests[|tests| - 1]);
    if j < |prefix| {
      calc {
        ValidationRows(service, parse, code, id, tests)[j];
        TestRow(service, parse, code, id, tests[j]);
        { assert prefix[j] == tests[j]; }
        TestRow(service, parse, code, id, prefix[j]);
        rows[j];
        (rows + [row])[j];
      }
    } else {
      calc {
        ValidationRows(service, parse, code, id, tests)[j];
        row;
        (rows + [row])[j];
      }
    }
  }
}
