# Code-generation pipeline: a Dafny model

This project models the core of a code-generation service. An LLM is
asked for a program. The program's reply is parsed into a chain of thought
and a fenced code block. The code is run on every test case through a
Judge0 execution service, and the outputs are compared with the expected
ones. The LLM is asked to refine the code until every test passes or the
pass budget runs out.

Two versions of the loop are modelled:

- **The current back end** (`backend/src/pipeline.py`,
  `backend/src/executor.py`). Module `Pipeline` holds the loop and
  `PipelineProperties` holds what is proved about it. It uses the four-way
  pass rule (`PassRules.BackendPassed`) and calls the refinement step at
  the end of each failing pass.
- **The older design** (`src/pipeline.py`). Module `LegacyPipeline` holds
  the loop and `LegacyProperties` the proofs. It uses the exact-match rule
  (`PassRules.LegacyPassed`), refines at the top of each later pass, and
  calls an LLM validation step after the tests. This file does not run as
  written:
  - it imports `TestCase` and `TestCaseResult`, which `src/models.py` does
    not define, and passes fields that the models there do not declare
    (see "## Left out");
  - `src/generator.py` has no `generate_test_cases` or
    `validate_test_cases`, and its `generate_initial_code`/`refine_code`
    take other arguments than the calls pass.

  The model follows the data flow of `run_pipeline`'s own text. Each
  generator call is an oracle with the arguments the loop has at hand.

The other modules:

| module | file | what it holds |
|---|---|---|
| `Wrappers` | wrappers.dfy | `Option`, `Result`, and `Attempt` (a call that returns or raises) |
| `JsonValue` | json.dfy | JSON values and Python truthiness |
| `Text` | text.dfy | the Python `str` operations used: `strip`, `lower`, `find`, slicing, `split`, `join` |
| `ArrayNormalizer` | normalize.dfy | `normalize_array_string`, a scanner over characters |
| `PassRules` | passrules.dfy | the three pass rules: back-end loop, older loop, `validate_test_cases` |
| `ReplyParser` | reply_parser.dfy | `parse_llm_response` (both copies are the same code) |
| `CodeCleaner` | clean_code.dfy | `clean_code`, four regular-expression substitutions |
| `Executor` | executor.dfy | `execute_code`'s language table, response mapping and `validate_test_cases` |

Outside effects are parameters:

- **The Judge0 service** is a function `service: Request -> Response`. A
  response is either a JSON body or a failed request.
- **The LLM calls** are values in `Oracles`:
  - test synthesis;
  - the first reply;
  - refinement, which receives the pass number so that each call may
    answer differently;
  - in the older loop, the execution of code (`src/executor.py`) and the
    validation call.
- **`json.loads`** is a parameter `parse: string -> Option<Json>`.

The reply parser is a field of the loop's environment. The loops are
stated for any parser (`RunWith`). `RunSpec` instantiates them with
`ReplyParser.Parse`, and each imperative `RunPipeline` is proved equal to
its `RunSpec`.

Python's unbound local variables are modelled as `Option` fields. Reading
one that was never assigned ends the run with `Err(UnboundLocal)`, the
`UnboundLocalError` that escapes `run_pipeline`.

## Model

| member | source | states |
|---|---|---|
| `ArrayNormalizer.NormalizeArrayString` | backend/src/pipeline.py:17-43 | The loop with its `in_string`/`escape_next` flags computes `Normalize(s)`; a string that does not start with `[` and end with `]` comes back unchanged |
| `ArrayNormalizer.NormalizeDeletesOnlySpaces` | backend/src/pipeline.py:24-43 | The result is the input with some `' '` characters deleted and nothing else changed or reordered; it is no longer, and both agree once all spaces are removed |
| `ArrayNormalizer.ScanKeepsExactly` | backend/src/pipeline.py:28-41 | Reading character `i` appends it to the output built so far unless it is a space and the flags left by the characters before it say "outside a string"; the flags then advance by that character alone |
| `ArrayNormalizer.ScanConcat` | backend/src/pipeline.py:28-41 | Scanning a concatenation scans the first part, then the second from the flags the first leaves |
| `ArrayNormalizer.NormalizeIdempotent` | backend/src/pipeline.py:17-43 | Normalizing twice is normalizing once |
| `ArrayNormalizer.NormalizeLower` | backend/src/pipeline.py:122-123 | Lower-casing commutes with normalizing, so the fourth disjunct of the pass rule normalizes the lower-cased text |
| `ArrayNormalizer.ScanUnquoted` | backend/src/pipeline.py:37-38 | Outside quotes every space is deleted and the flags stay unset |
| `ArrayNormalizer.ScanQuotedBody` | backend/src/pipeline.py:29-40 | Inside a string, text without quotes or backslashes is copied whole |
| `ArrayNormalizer.QuotedSpacesSurvive` | backend/src/pipeline.py:29-38 | In `[u"q"v]` the spaces of `u` and `v` go and those of `q` stay |
| `ArrayNormalizer.EscapedQuoteStaysQuoted` | backend/src/pipeline.py:30-35 | A quote right after a backslash inside a string does not close it: `["x\"y"]` comes back unchanged, spaces in `x` and `y` included |
| `ArrayNormalizer.MixedQuotesShareOneFlag` | backend/src/pipeline.py:29-31 | `"` and `'` toggle the same flag: in `["x'y"]` the `'` closes the string, so the spaces of `y` are deleted and those of `x` kept |
| `PassRules.BackendPassedIff` | backend/src/pipeline.py:116-124 | A test passes iff its stripped expected output is non-empty and the outputs agree after strip, after lower-casing, after array normalization, or after both |
| `PassRules.BackendPassedSymmetric` | backend/src/pipeline.py:119-124 | For non-blank outputs the rule is symmetric and reflexive |
| `PassRules.BackendBlankExpectedFails` | backend/src/pipeline.py:117-124 | A missing or blank expected output always fails |
| `PassRules.PassesByLower` | backend/src/pipeline.py:121 | Equal lower-cased stripped outputs pass |
| `PassRules.PassesByNormalize` | backend/src/pipeline.py:122 | Equal normalized stripped outputs pass |
| `PassRules.BackendPassedArraySpacing` | backend/src/pipeline.py:122 | `[1, 2]` passes against `[1,2]` |
| `PassRules.BackendPassedCase` | backend/src/pipeline.py:116-124 | ` Hello\n` passes against `hello`, which the older rule rejects |
| `PassRules.BackendPassedQuotedSpacing` | backend/src/pipeline.py:122-123 | Spaces around quoted elements are ignored, spaces inside them are not |
| `PassRules.LegacyImpliesBackend` | src/pipeline.py:96 | With a non-blank expected output, passing the older rule implies passing the back-end rule |
| `PassRules.WhitespaceExpected` | src/pipeline.py:96 | The older rule passes a whitespace-only expected output against blank output; the back-end rule does not |
| `PassRules.ValidatorPassedShape` | backend/src/executor.py:81-91 | The validator's rule is symmetric and reflexive; when both sides decode it is Python's `==` on the decoded values (`PyEqual`), and otherwise it is equality of the whitespace-collapsed texts |
| `PassRules.ValidatorBoolNumber` | backend/src/executor.py:85-88 | Under Python's `==`, a decoded `true` passes against `1` in both directions, but not against the string `"true"` |
| `JsonValue.PyEqualReflexive` | backend/src/executor.py:88 | Every decoded value is `==` to itself (there is no `NaN` among the modelled values) |
| `JsonValue.PyEqualSymmetric` | backend/src/executor.py:88 | `==` on decoded values is symmetric, through arrays and objects |
| `PassRules.CollapseStrip` | backend/src/executor.py:81-91 | Collapsing whitespace makes the strip before it irrelevant |
| `PassRules.ValidatorJsonExamples` | backend/src/executor.py:85-88 | With JSON parsed structurally, `[1,2]` equals `[1, 2]` and not `[2,1]`, and objects compare ignoring key order |
| `PassRules.ValidatorCollapseExample` | backend/src/executor.py:89-91 | Text that is not JSON is compared by its whitespace-separated words: `a  b` passes against ` a b\n` |
| `Text.CollapseIdempotent` | backend/src/executor.py:91 | `" ".join(s.split())` is idempotent |
| `Text.SplitJoin` | backend/src/pipeline.py:55 | Splitting the join of separator-free pieces gives the pieces back |
| `ReplyParser.Parse` | backend/src/pipeline.py:45-65 | Fails with a missing section iff a marker is absent; fails with no code block iff both markers are present and the fence pattern matches nowhere; otherwise the code is the stripped body of the leftmost block, and the reasoning lines are the corrected lines of the text between the markers (see "## Findings"): trimmed and non-empty |
| `ReplyParser.CodeBlock` | backend/src/pipeline.py:59-63 | No block iff no position starts an opening fence followed later by a closing fence; a block is the shortest body up to the next fence and holds no fence |
| `ReplyParser.FirstBlock` | backend/src/pipeline.py:59 | The leftmost position where the pattern matches |
| `ReplyParser.RenderParses` | backend/src/pipeline.py:45-65 | A reply laid out as `CHAIN_OF_THOUGHT:`, bullets, `CODE:` and a fenced block parses back into its steps and code |
| `ReplyParser.CodeMarkerFirstGivesNoReasoning` | backend/src/pipeline.py:55 | When `CODE:` starts before the end of the first thought marker, the slice is empty and there are no reasoning lines |
| `ReplyParser.ReasoningLinesConcat` | backend/src/pipeline.py:56 | The comprehension works line by line and keeps source order |
| `ReplyParser.BareBulletGivesEmptyLine` | backend/src/pipeline.py:56 | As written, a line `-` yields an empty reasoning line |
| `ReplyParser.CleanReasoningLines` | backend/src/pipeline.py:56 | The corrected comprehension gives trimmed, non-empty lines, at most one per input line |
| `ReplyParser.CleanReasoningLinesDropEmpty` | backend/src/pipeline.py:56 | The corrected lines are the written ones with the empty lines removed |
| `ReplyParser.CleanLine` | backend/src/pipeline.py:56 | `line.lstrip("- ").strip()` has no surrounding whitespace |
| `ReplyParser.TabBulletKeepsDash` | backend/src/pipeline.py:56 | A bullet indented with a tab keeps its dash: `"\t- x"` gives the reasoning line `"- x"`, because the dash trim stops at the tab |
| `CodeCleaner.CleanCode` | src/pipeline.py:17-24 | The result has no leading or trailing whitespace |
| `CodeCleaner.FirstPassRemovesFences` | src/pipeline.py:19 | No triple backtick survives the first substitution |
| `CodeCleaner.CleanCodeIsFirstPass` | src/pipeline.py:19-24 | The three later substitutions change nothing: the result is the first substitution, stripped |
| `CodeCleaner.CleanCodeWithoutFence` | src/pipeline.py:19-24 | Code without a triple backtick is only stripped |
| `CodeCleaner.FirstPassCopies` | src/pipeline.py:19 | Text without backticks is copied unchanged |
| `CodeCleaner.CleanJsonBlock` | src/pipeline.py:19-24 | A fenced `json` block `[1,2]` cleans to `[1,2]` |
| `CodeCleaner.CleanTaggedBlock` | src/pipeline.py:19-23 | A fenced `python` block cleans to `python\nprint(1)`: the tag pattern comes too late to match |
| `CodeCleaner.Sub` | src/pipeline.py:19-23 | A substitution never lengthens the text |
| `Executor.LanguageId` | backend/src/executor.py:36-38 | An unknown language fails with an error naming the language as given |
| `Executor.LanguageIdLooksUp` | backend/src/executor.py:15-38 | The lookup succeeds iff the lower-cased name is one of the twelve table keys, and then gives that key's id, which is positive |
| `Executor.LanguageIdLowerCases` | backend/src/executor.py:36 | The lookup only sees the lower-cased name |
| `Executor.LanguageIdExamples` | backend/src/executor.py:15-38 | `Python` is 71, `TypeScript` is 74, `Kotlin` is unsupported |
| `Executor.LanguageIdsWellFormed` | backend/src/executor.py:15-28 | No language is listed twice, no two languages share an id, and every id is positive |
| `Executor.GetFinds` | backend/src/executor.py:36 | In a table without repeated keys, `get` finds a value iff the key is listed, and then gives that key's value |
| `Executor.TextField` | backend/src/executor.py:54-58 | A missing or falsy text field becomes `""`; a string is kept |
| `Executor.RawField` | backend/src/executor.py:56-57 | `time`/`memory` are the value sent, or `"0"` only when the key is absent |
| `Executor.ResultOf` | backend/src/executor.py:54-73 | A failed request or a body that is not an object gives the zero result |
| `Executor.ResultOfSent` | backend/src/executor.py:56-66 | Every non-empty text of the result was sent under its key, and `time`/`memory` are the value sent unless they are the default |
| `Executor.ResultOfWellFormed` | backend/src/executor.py:54-66 | A reply with string or missing text fields is copied field by field; `time`/`memory` are passed on as sent (a `null` time stays `null`), under the result-model assumption stated for `Executor.RawField` below |
| `Executor.EmptyReplyIsZero` | backend/src/executor.py:54-73 | An empty reply object and a failed request give the same zero result |
| `Executor.ExecuteCode` | backend/src/executor.py:30-73 | Fails exactly for an unsupported language, before any request; otherwise maps the service's reply for the language's id |
| `Executor.ValidateTestCases` | backend/src/executor.py:75-103 | The `for` loop computes `Validate`: the rows of the tests it ran, or the first error raised |
| `Executor.ValidateErrorStays` | backend/src/executor.py:78-82 | An error raised on some test is the result of the whole call: no later test changes it |
| `Executor.ValidateUnknownLanguage` | backend/src/executor.py:78-79 | No tests give `[]` whatever the language; with tests, an unknown language fails naming that language |
| `Executor.ValidateOkExpected` | backend/src/executor.py:78-103 | A call that returns saw an expected output on every test and returns one row per test |
| `Executor.ValidateMissing` | backend/src/executor.py:78-81 | A missing expected output fails the call with that test's index, after every earlier test had one |
| `Executor.ValidateKnownLanguage` | backend/src/executor.py:75-103 | With a known language the call fails iff some test has no expected output, and otherwise returns `ValidationRows`: row `i` copies test `i`'s input and expected output and that test's run, with the validator's verdict |
| `Pipeline.TestResults` | backend/src/pipeline.py:111-135 | One row per test case |
| `Pipeline.TestResultsAt` | backend/src/pipeline.py:112-135 | Row `i` belongs to test `i` and carries the pass rule's verdict on its run |
| `Pipeline.CompareTests` | backend/src/pipeline.py:111-135 | The loop over the tests builds exactly the rows `TestResults` describes |
| `Pipeline.Handle` | backend/src/pipeline.py:158-177 | An exception escapes iff `cot`/`code` were never bound; otherwise one error record is appended and the loop stops |
| `Pipeline.Pass` | backend/src/pipeline.py:86-156 | A pass that continues advances the counter by one |
| `Pipeline.Judge` | backend/src/pipeline.py:141-156 | A pass that continues advances the counter by one |
| `Pipeline.Refine` | backend/src/pipeline.py:154-156 | Refinement keeps the already advanced counter |
| `Pipeline.PassStep` | backend/src/pipeline.py:88-104 | The imperative pass computes `Pass` |
| `Pipeline.ExecuteStep` | backend/src/pipeline.py:106-135 | The imperative execution step computes `Execute` |
| `Pipeline.JudgeStep` | backend/src/pipeline.py:141-156 | The imperative record-and-decide step computes `Judge` |
| `Pipeline.RunPipeline` | backend/src/pipeline.py:67-187 | The `while` loop computes `RunSpec`, the run whose properties follow |
| `PipelineProperties.RunFinal` | backend/src/pipeline.py:86-187 | Every successful run is reported from a final state of the loop's invariant |
| `PipelineProperties.RunHistoryNumbered` | backend/src/pipeline.py:141-147 | `history[k].iteration == k + 1` |
| `PipelineProperties.RunHistoryBounded` | backend/src/pipeline.py:86-177 | At least one record and at most `max_iterations + 1` |
| `PipelineProperties.RunEarlierPassesFailed` | backend/src/pipeline.py:140-156 | Every record before the last is a full pass with a failing test |
| `PipelineProperties.RunSuccess` | backend/src/pipeline.py:150-187 | `success` iff the last record is a full pass whose tests all passed; then `iterations` equals the history length and the result repeats that record |
| `PipelineProperties.RunFailure` | backend/src/pipeline.py:154-187 | A failed run either used every pass, ending on a full pass with `max_iterations` records, reporting `max_iterations + 1` iterations and that pass's rows; or it ended on the zeroed error record of a refinement that raised, reporting as many iterations as records and the previous pass's code and rows |
| `PipelineProperties.RunSynthesisFails` | backend/src/pipeline.py:82-84 | Test synthesis that raises ends the run with that error |
| `PipelineProperties.RunUnbound` | backend/src/pipeline.py:86-187 | No pass allowed, a first reply that raises or does not parse, or an unknown language: `UnboundLocalError` escapes |
| `PipelineProperties.RunFirstPassSucceeds` | backend/src/pipeline.py:86-152 | A first reply that parses and passes every test gives a one-record successful run |
| `PipelineProperties.RunRefinesAfterLastPass` | backend/src/pipeline.py:154-177 | With one pass allowed, a failing pass still calls refinement; if it raises, a second record numbered 2 is appended |
| `PipelineProperties.RunNoTestsSucceeds` | backend/src/pipeline.py:150-186 | With no test cases the first parsed pass succeeds, vacuously |
| `PipelineProperties.PassReusesCode` | backend/src/pipeline.py:97-108 | A refined reply that does not parse leaves the pass running the previous pass's code |
| `LegacyPipeline.Describe` | src/pipeline.py:130-140 | The error text starts with `HTTP error: ` or `Execution error: ` and ends with the exception's message |
| `LegacyPipeline.DescribeInjective` | src/pipeline.py:124-143 | Different exceptions give different error texts |
| `LegacyPipeline.TestResults` | src/pipeline.py:93-103 | One row per test case |
| `LegacyPipeline.TestResultsAt` | src/pipeline.py:94-103 | Row `i` belongs to test `i` and carries the exact-match verdict on its run |
| `LegacyPipeline.CompareTests` | src/pipeline.py:93-103 | The loop over the tests builds exactly the rows `TestResults` describes |
| `LegacyPipeline.Handle` | src/pipeline.py:124-143 | An exception escapes iff `cot`/`code` were never bound; otherwise one error record is appended and the loop stops |
| `LegacyPipeline.Pass` | src/pipeline.py:67-122 | A pass that continues advances the counter by one |
| `LegacyPipeline.Execute` | src/pipeline.py:88-122 | A pass that continues advances the counter by one |
| `LegacyPipeline.Judge` | src/pipeline.py:108-122 | A pass that continues advances the counter by one |
| `LegacyPipeline.PassStep` | src/pipeline.py:69-86 | The imperative pass computes `Pass` |
| `LegacyPipeline.ExecuteStep` | src/pipeline.py:88-122 | The imperative execution step computes `Execute` |
| `LegacyPipeline.RunPipeline` | src/pipeline.py:48-153 | The `while` loop computes `RunSpec`, the run whose properties follow |
| `LegacyProperties.RunFinal` | src/pipeline.py:67-153 | Every successful run is reported from a final state of the loop's invariant |
| `LegacyProperties.RunHistoryShape` | src/pipeline.py:67-115 | Between one and `max_iterations` records, numbered 1, 2, … |
| `LegacyProperties.RunEarlierPassesFailed` | src/pipeline.py:108-122 | Every record before the last is a full pass with a failing test |
| `LegacyProperties.RunReportsFinalCode` | src/pipeline.py:145-153 | The reported result and rows are those of the final code, and `success` iff all those rows passed |
| `LegacyProperties.RunEndings` | src/pipeline.py:117-153 | A run ends on an all-passing record, or on the last allowed failing pass reporting one iteration more, or on an error record |
| `LegacyProperties.RunSynthesisFails` | src/pipeline.py:63-65 | Test synthesis that raises ends the run with that exception |
| `LegacyProperties.RunUnbound` | src/pipeline.py:67-153 | No pass allowed, or a first reply that raises or does not parse: `UnboundLocalError` escapes |
| `LegacyProperties.ValidateRaisesAfterPassing` | src/pipeline.py:106-153 | If the validation call raises after every test passed, the only record is an error record and yet `success` is true |
| `LegacyProperties.RefineUsesPreviousPass` | src/pipeline.py:69-77 | The first pass asks for the first reply; each later pass refines the previous reply from the output and error of its recorded run |
| `LegacyProperties.PassReusesCode` | src/pipeline.py:77-90 | A refined reply that does not parse leaves the pass running the previous pass's code |

## Left out

- HTTP and `async`: the `httpx` POST of `execute_code` is the `service` parameter, and `await` is a plain call. A request that fails in any way (HTTP status, timeout, invalid JSON) is the single `Failed` response.
- The LLM client and prompts (`src/generator.py`, `src/prompts.py`, the back-end generator) are `Oracles` values. Their results are taken as given.
- `src/executor.py` is not part of this model. The older loop's `execute` oracle is total, because that file catches every exception and returns an error result.
- `json.loads` is the `parse` parameter. Decoded values are compared with `JsonValue.PyEqual`, Python's `==`, under which `true == 1` and `false == 0`.
- `PassRules.ValidatorPassedShape`: JSON numbers are integers, so floats are not modelled. That leaves out `1 == 1.0` and the non-finite values `NaN`, `Infinity` and `-Infinity` that `json.loads` accepts. Because `NaN != NaN` in Python, an expected output `NaN` fails against an actual `NaN` in the program. The model has no such value, so its validator rule is reflexive.
- `Executor.RawField`: `backend/src/models.py` is not part of this model, so the types of `CodeExecutionResult.time` and `.memory` are unknown. The model assumes that the result model accepts whatever JSON value was sent for them (`null`, a number, a string). If the fields are typed `str`, as the handlers' `'0'` defaults suggest, a `null` or numeric value would be rejected inside the `try`, and the program would return the zero result instead.
- `backend/src/models.py` is not part of this model. `Executor.TextField` assumes that a truthy non-string `stdout`/`stderr`/`compile_output` is rejected by the result model inside the `try`, which gives the zero result.
- `\w` is taken as ASCII letters, digits and `_`. `lower()` is ASCII only. `strip()`, `split()` and `\s` use the characters of `str.isspace()`.
- `LegacyPipeline.UnboundMessage`: the wording of `UnboundLocalError` depends on the Python version. The text used is the wording of Python 3.10 and earlier; from 3.11 on it reads `cannot access local variable 'x' where it is not associated with a value`.
- `src/models.py` defines neither `TestCase` nor `TestCaseResult`. Its `CodeIterationHistory` has the `iteration`, `code` and `execution_result` fields but no `chain_of_thought` or `test_results`, and its `PipelineResult` has no `cot` or `test_results`. Pydantic ignores extra fields by default, so the program would drop the values `run_pipeline` passes for them. The older model keeps these fields as `run_pipeline` writes them: its history records and result carry them, and `LegacyProperties.RunEndings` and `LegacyProperties.RunReportsFinalCode` state their values.
- The service is a deterministic function of the request, and every oracle call is identified by its arguments and the pass number. Two calls with the same arguments in the same pass give the same answer.
- Persistence, the FastAPI handlers (`llama_agent.py`), database migrations, the front end, logging and `print` have no part in the loop's results.
- `LANGUAGE_IDS` is a list of key-value pairs searched from the front. Its keys are distinct (`Executor.LanguageIdsWellFormed`), so this gives what the dictionary gives.
- `ReplyParser.Parse`: its reasoning lines are the corrected `CleanReasoningLines`, not the lines the program returns. For a thought section holding the line `-`, backend/src/pipeline.py:56 and src/pipeline.py:37 give the reasoning `[""]` while the model gives `[]`. Both loops (`Pipeline.RunSpec` and `LegacyPipeline.RunSpec`) parse through `Parse` and inherit this difference in their `cot`. The as-written lines are `ReplyParser.ReasoningLines`, and `ReplyParser.CleanReasoningLinesDropEmpty` relates the two.
- `max_iterations` is any integer. The front end's bound of 1 to 5 is not imposed.

## Findings

| source | as written | input that shows it | evidently intended | confidence | as-written member | corrected member |
|---|---|---|---|---|---|---|
| backend/src/pipeline.py:56 (and src/pipeline.py:37) | The blank test `if line.strip()` looks at the line before `lstrip("- ")`, so a line holding only a bullet is kept and cleans to `""` | a reply whose thought section holds the line `-` | Lines that are empty after cleaning are dropped, so every reasoning line is non-empty | not executed | `ReplyParser.BareBulletGivesEmptyLine` | `ReplyParser.CleanReasoningLines` |

`ReplyParser.Parse`, and the loops through it, use the corrected lines.
`ReplyParser.CleanReasoningLinesDropEmpty` shows that the corrected lines
are the written ones with the empty lines removed, so the two differ only
on such bare-bullet lines.

Dashes are trimmed only where they open the line: `lstrip("- ")` stops at
any other character, tab included, and the later `strip()` removes the tab
but not the dash behind it. `ReplyParser.TabBulletKeepsDash` shows this for
`"\t- x"`, which gives `"- x"`. This is why `ReplyParser.Parse` promises
trimmed, non-empty reasoning lines but not lines free of a leading dash.
