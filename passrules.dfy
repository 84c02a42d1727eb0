/** The three rules the repository uses to decide whether a test case
    passed: the backend loop's four-way rule (backend/src/pipeline.py:116-124),
    the older exact-match rule (src/pipeline.py:96) and the JSON-or-collapsed
    rule of `validate_test_cases` (backend/src/executor.py:81-91). */
module PassRules {
  import opened Wrappers
  import opened Text
  import opened ArrayNormalizer
  import opened JsonValue

  /** The stripped expected output, or `""` when it is absent or empty. */
  function ExpectedText(expectedOutput: Option<string>): string
  {
    if expectedOutput.Some? && expectedOutput.value != [] then Strip(expectedOutput.value) else []
  }

  /** The backend loop's pass rule: equal after strip, equal lower-cased,
      equal after array normalization, or equal after array normalization of
      the lower-cased texts; never when the stripped expected output is empty. */
  predicate BackendPassed(output: string, expectedOutput: Option<string>)
  {
    var actual, expected := Strip(output), ExpectedText(expectedOutput);
    if expected != [] then
      || actual == expected
      || Lower(actual) == Lower(expected)
      || Normalize(actual) == Normalize(expected)
      || Normalize(Lower(actual)) == Normalize(Lower(expected))
    else
      false
  }

  /** The four tests collapse into the last one: each of the first three
      implies it, because lower-casing commutes with the array normalizer.
      So a test passes exactly when the expected output is not blank and the
      two stripped texts agree once lower-cased and array-normalized. */
  lemma BackendPassedIff(output: string, expectedOutput: Option<string>)
    ensures BackendPassed(output, expectedOutput) <==>
      && expectedOutput.Some?
      && Strip(expectedOutput.value) != []
      && Normalize(Lower(Strip(output))) == Normalize(Lower(Strip(expectedOutput.value)))
  {
    var actual, expected := Strip(output), ExpectedText(expectedOutput);
    NormalizeLower(actual);
    NormalizeLower(expected);
  }

  /** Once both sides are non-blank the backend rule is symmetric, and it is
      reflexive on every non-blank text. */
  lemma BackendPassedSymmetric(a: string, b: string)
    requires Strip(a) != [] && Strip(b) != []
    ensures BackendPassed(a, Some(b)) == BackendPassed(b, Some(a))
    ensures BackendPassed(a, Some(a))
  {
  }

  /** Expected output that is absent or only whitespace never passes. */
  lemma BackendBlankExpectedFails(output: string, expectedOutput: Option<string>)
    requires expectedOutput.None? || Strip(expectedOutput.value) == []
    ensures !BackendPassed(output, expectedOutput)
  {
  }

  /** Any one of the four comparisons is enough once the expected output is
      not blank; the examples below go through these two. */
  lemma PassesByLower(output: string, expected: string)
    requires Strip(expected) != [] && Lower(Strip(output)) == Lower(Strip(expected))
    ensures BackendPassed(output, Some(expected))
  {
  }

  lemma PassesByNormalize(output: string, expected: string)
    requires Strip(expected) != [] && Normalize(Strip(output)) == Normalize(Strip(expected))
    ensures BackendPassed(output, Some(expected))
  {
  }

  /** Examples: array spacing outside quotes and letter case do not matter
      to the backend rule; spacing inside quotes does. */
  lemma BackendPassedArraySpacing()
    ensures BackendPassed("[1, 2]", Some("[1,2]"))
  {
    ArraySpacingFacts();
    PassesByNormalize("[1, 2]", "[1,2]");
  }

  lemma ArraySpacingFacts()
    ensures Strip("[1, 2]") == "[1, 2]" && Strip("[1,2]") == "[1,2]"
    ensures Normalize("[1, 2]") == "[1,2]" && Normalize("[1,2]") == "[1,2]"
  {
    StripAround("", "[1, 2]", "");
    assert "" + "[1, 2]" + "" == "[1, 2]";
    StripAround("", "[1,2]", "");
    assert "" + "[1,2]" + "" == "[1,2]";
    ArrayNormalizeFacts();
  }

  lemma ArrayNormalizeFacts()
    ensures Normalize("[1, 2]") == "[1,2]" && Normalize("[1,2]") == "[1,2]"
  {
    SpacedArrayNormalizes();
    TightArrayNormalizes();
  }

  lemma SpacedArrayNormalizes()
    ensures Normalize("[1, 2]") == "[1,2]"
  {
    SpaceDropped("[1,", "2]");
    assert "[1," + " " + "2]" == "[1, 2]";
    assert "[1," + "2]" == "[1,2]";
  }

  /** One space between two quote-free, space-free halves of an array
      literal is deleted. */
  lemma SpaceDropped(a: string, b: string)
    requires a != [] && a[0] == '[' && b != [] && b[|b| - 1] == ']'
    requires ' ' !in a && ' ' !in b
    requires forall i :: 0 <= i < |a| ==> !IsQuote(a[i])
    requires forall i :: 0 <= i < |b| ==> !IsQuote(b[i])
    ensures Normalize(a + " " + b) == a + b
  {
    UnquotedJoin(a, b);
    SpaceDroppedText(a, b);
    NormalizeUnquoted(a + " " + b);
  }

  lemma SpaceDroppedText(a: string, b: string)
    requires ' ' !in a && ' ' !in b
    ensures WithoutSpaces(a + " " + b) == a + b
  {
    calc {
      WithoutSpaces(a + " " + b);
    == { assert a + " " + b == a + (" " + b); }
      WithoutSpaces(a + (" " + b));
    == { WithoutSpacesConcat(a, " " + b); }
      WithoutSpaces(a) + WithoutSpaces(" " + b);
    == { LeadingSpaceDropped(b); WithoutSpacesKeeps(a); WithoutSpacesKeeps(b); }
      a + b;
    }
  }

  lemma LeadingSpaceDropped(b: string)
    ensures WithoutSpaces(" " + b) == WithoutSpaces(b)
  {
    assert (" " + b)[1..] == b;
  }

  lemma UnquotedJoin(a: string, b: string)
    requires forall i :: 0 <= i < |a| ==> !IsQuote(a[i])
    requires forall i :: 0 <= i < |b| ==> !IsQuote(b[i])
    ensures var t := a + " " + b; forall i :: 0 <= i < |t| ==> !IsQuote(t[i])
  {
    var t := a + " " + b;
    forall i | 0 <= i < |t|
      ensures !IsQuote(t[i])
    {
      if i < |a| {
        assert t[i] == a[i];
      } else if i > |a| {
        assert t[i] == b[i - |a| - 1];
      }
    }
  }

  lemma TightArrayNormalizes()
    ensures Normalize("[1,2]") == "[1,2]"
  {
    NormalizeUnquoted("[1,2]");
    WithoutSpacesKeeps("[1,2]");
  }

  /** The backend rule ignores case and surrounding whitespace; the older
      rule ignores only the whitespace. */
  lemma BackendPassedCase()
    ensures BackendPassed(" Hello\n", Some("hello"))
    ensures !LegacyPassed(" Hello\n", Some("hello"))
  {
    CaseFacts();
    PassesByLower(" Hello\n", "hello");
  }

  lemma CaseFacts()
    ensures Strip(" Hello\n") == "Hello" && Strip("hello") == "hello"
    ensures Lower("Hello") == "hello" && Lower("hello") == "hello"
    ensures "Hello" != "hello"
  {
    StripAround(" ", "Hello", "\n");
    assert " " + "Hello" + "\n" == " Hello\n";
    StripAround("", "hello", "");
    assert "" + "hello" + "" == "hello";
    CaseLowerFacts();
  }

  lemma CaseLowerFacts()
    ensures Lower("Hello") == "hello" && Lower("hello") == "hello"
    ensures "Hello" != "hello"
  {
    assert "Hello"[0] != "hello"[0];
  }

  lemma BackendPassedQuotedSpacing()
    ensures BackendPassed("[\"a b\"]", Some("[ \"a b\" ]"))
    ensures !BackendPassed("[\"a b\"]", Some("[\"ab\"]"))
  {
    var x, y, z := "[\"a b\"]", "[ \"a b\" ]", "[\"ab\"]";
    QuotedSpacingFacts();
    PassesByNormalize(x, y);
    BackendPassedIff(x, Some(z));
  }

  lemma QuotedSpacingFacts()
    ensures Strip("[\"a b\"]") == "[\"a b\"]" && Strip("[ \"a b\" ]") == "[ \"a b\" ]"
    ensures Strip("[\"ab\"]") == "[\"ab\"]"
    ensures Normalize("[ \"a b\" ]") == "[\"a b\"]" && Normalize("[\"a b\"]") == "[\"a b\"]"
    ensures Normalize(Lower("[\"a b\"]")) != Normalize(Lower("[\"ab\"]"))
  {
    QuotedStripFacts();
    QuotedNormalizeFacts();
    QuotedLowerFacts();
  }

  lemma QuotedLowerFacts()
    ensures Lower("[\"a b\"]") == "[\"a b\"]" && Lower("[\"ab\"]") == "[\"ab\"]"
    ensures "[\"a b\"]" != "[\"ab\"]"
  {
    assert "[\"a b\"]"[3] != "[\"ab\"]"[3];
  }

  lemma QuotedStripFacts()
    ensures Strip("[\"a b\"]") == "[\"a b\"]" && Strip("[ \"a b\" ]") == "[ \"a b\" ]"
    ensures Strip("[\"ab\"]") == "[\"ab\"]"
  {
    StripAround("", "[\"a b\"]", "");
    assert "" + "[\"a b\"]" + "" == "[\"a b\"]";
    StripAround("", "[ \"a b\" ]", "");
    assert "" + "[ \"a b\" ]" + "" == "[ \"a b\" ]";
    StripAround("", "[\"ab\"]", "");
    assert "" + "[\"ab\"]" + "" == "[\"ab\"]";
  }

  lemma QuotedNormalizeFacts()
    ensures Normalize("[ \"a b\" ]") == "[\"a b\"]" && Normalize("[\"a b\"]") == "[\"a b\"]"
    ensures Normalize("[\"ab\"]") == "[\"ab\"]"
  {
    SpacedQuotedNormalizes();
    QuotedNormalizes("a b");
    assert "[\"" + "a b" + "\"]" == "[\"a b\"]";
    QuotedNormalizes("ab");
    assert "[\"" + "ab" + "\"]" == "[\"ab\"]";
  }

  lemma SpacedQuotedNormalizes()
    ensures Normalize("[ \"a b\" ]") == "[\"a b\"]"
  {
    assert "[ \"a b\" ]" == "[" + " " + "\"" + "a b" + "\"" + " " + "]";
    assert "[" + "" + "\"" + "a b" + "\"" + "" + "]" == "[\"a b\"]";
    assert WithoutSpaces(" ") == "";
    QuotedSpacesSurvive(" ", "a b", " ");
  }

  lemma QuotedNormalizes(q: string)
    requires q == "a b" || q == "ab"
    ensures Normalize("[\"" + q + "\"]") == "[\"" + q + "\"]"
  {
    QuotedSpacesSurvive("", q, "");
    assert "[\"" + q + "\"]" == "[" + "" + "\"" + q + "\"" + "" + "]";
  }

  /** The older rule: the expected output is truthy and the stripped texts
      are equal. */
  predicate LegacyPassed(output: string, expectedOutput: Option<string>)
  {
    expectedOutput.Some? && expectedOutput.value != [] && Strip(output) == Strip(expectedOutput.value)
  }

  /** Where the expected output is not blank, the backend rule accepts
      everything the older rule accepts. */
  lemma LegacyImpliesBackend(output: string, expected: string)
    requires Strip(expected) != []
    requires LegacyPassed(output, Some(expected))
    ensures BackendPassed(output, Some(expected))
  {
  }

  /** A whitespace-only expected output is the other way round: the older
      rule lets blank actual output pass against it, the backend rule never
      does. */
  lemma WhitespaceExpected()
    ensures LegacyPassed("", Some(" ")) && !BackendPassed("", Some(" "))
  {
    assert Strip(" ") == [];
  }

  /** The rule of `validate_test_cases`: when both stripped texts decode as
      JSON, the decoded values are compared with Python's `==` (`PyEqual`);
      otherwise the texts are compared
      with whitespace runs collapsed. `parse` stands for `json.loads`, with
      `None` for a `JSONDecodeError`. */
  predicate ValidatorPassed(parse: string -> Option<Json>, output: string, expectedOutput: string)
  {
    var expected, actual := Strip(expectedOutput), Strip(output);
    var e := parse(expected);
    if e.None? then Collapse(actual) == Collapse(expected)
    else
      var a := parse(actual);
      if a.None? then Collapse(actual) == Collapse(expected) else PyEqual(a.value, e.value)
  }

  /** The validator's rule is symmetric and reflexive, and it compares by
      decoded value exactly when both sides decode. */
  lemma ValidatorPassedShape(parse: string -> Option<Json>, a: string, b: string)
    ensures ValidatorPassed(parse, a, b) == ValidatorPassed(parse, b, a)
    ensures ValidatorPassed(parse, a, a)
    ensures parse(Strip(a)).Some? && parse(Strip(b)).Some? ==>
      (ValidatorPassed(parse, a, b) <==> PyEqual(parse(Strip(a)).value, parse(Strip(b)).value))
    ensures parse(Strip(a)).None? || parse(Strip(b)).None? ==>
      (ValidatorPassed(parse, a, b) <==> Collapse(a) == Collapse(b))
  {
    CollapseStrip(a);
    CollapseStrip(b);
    if parse(Strip(a)).Some? {
      PyEqualReflexive(parse(Strip(a)).value);
      if parse(Strip(b)).Some? {
        PyEqualSymmetric(parse(Strip(a)).value, parse(Strip(b)).value);
      }
    }
  }

  /** Stripping before collapsing changes nothing, so the strip at
      backend/src/executor.py:81-82 does not affect the fallback comparison. */
  lemma CollapseStrip(s: string)
    ensures Collapse(Strip(s)) == Collapse(s)
  {
    var t := TrimStart(s);
    WordsTrimStart(s);
    WordsTrimEnd(t);
  }

  lemma {:induction false} WordsTrimStart(s: string)
    ensures Words(TrimStart(s)) == Words(s)
    decreases |s|
  {
    if s != [] && IsSpace(s[0]) {
      WordsTrimStart(s[1..]);
    }
  }

  lemma {:induction false} WordsTrimEnd(s: string)
    ensures Words(TrimEnd(s)) == Words(s)
  {
    var r := TrimEnd(s);
    var t := s[|r|..];
    TrimEndIsPrefix(s);
    assert s == r + t;
    WordsSpaceSuffix(r, t);
  }

  /** Trailing whitespace contributes no words. */
  lemma {:induction false} WordsSpaceSuffix(s: string, t: string)
    requires forall i :: 0 <= i < |t| ==> IsSpace(t[i])
    ensures Words(s + t) == Words(s)
    decreases |s|
  {
    if s == [] {
      assert s + t == t;
      WordsAllSpace(t);
    } else {
      assert (s + t)[1..] == s[1..] + t;
      if IsSpace(s[0]) {
        WordsSpaceSuffix(s[1..], t);
      } else {
        var n := NonSpaceRun(s);
        NonSpaceRunStable(s, t);
        assert (s + t)[..n] == s[..n];
        assert (s + t)[n..] == s[n..] + t;
        WordsSpaceSuffix(s[n..], t);
      }
    }
  }

  lemma {:induction false} WordsAllSpace(t: string)
    requires forall i :: 0 <= i < |t| ==> IsSpace(t[i])
    ensures Words(t) == []
  {
    if t != [] {
      WordsAllSpace(t[1..]);
    }
  }

  lemma {:induction false} NonSpaceRunStable(s: string, t: string)
    requires forall i :: 0 <= i < |t| ==> IsSpace(t[i])
    ensures NonSpaceRun(s + t) == NonSpaceRun(s)
  {
    if s != [] {
      assert (s + t)[1..] == s[1..] + t;
      NonSpaceRunStable(s[1..], t);
    } else {
      assert s + t == t;
    }
  }

  /** Examples of the JSON strategy: arrays compare in order, and objects
      compare by members whatever their order. */
  lemma ValidatorJsonExamples(parse: string -> Option<Json>)
    requires parse("[1,2]") == Some(JArray([JNumber(1), JNumber(2)]))
    requires parse("[1, 2]") == Some(JArray([JNumber(1), JNumber(2)]))
    requires parse("[2,1]") == Some(JArray([JNumber(2), JNumber(1)]))
    requires parse("{\"a\":1,\"b\":2}") == Some(JObject(map["a" := JNumber(1), "b" := JNumber(2)]))
    requires parse("{\"b\":2,\"a\":1}") == Some(JObject(map["b" := JNumber(2), "a" := JNumber(1)]))
    ensures ValidatorPassed(parse, "[1, 2]", "[1,2]")
    ensures !ValidatorPassed(parse, "[2,1]", "[1,2]")
    ensures ValidatorPassed(parse, "{\"b\":2,\"a\":1}", "{\"a\":1,\"b\":2}")
  {
    JsonStripFacts();
    PyEqualReflexive(JArray([JNumber(1), JNumber(2)]));
    var swapped, ordered := JArray([JNumber(2), JNumber(1)]), JArray([JNumber(1), JNumber(2)]);
    assert !PyEqual(swapped, ordered) by {
      assert swapped.items[0] == JNumber(2) && ordered.items[0] == JNumber(1);
      assert !PyEqual(swapped.items[0], ordered.items[0]);
    }
    assert map["b" := JNumber(2), "a" := JNumber(1)] == map["a" := JNumber(1), "b" := JNumber(2)];
    PyEqualReflexive(JObject(map["a" := JNumber(1), "b" := JNumber(2)]));
  }

  /** Python's `==` lets a decoded `true` equal `1` and `false` equal `0`,
      so `true` passes against `1`, while `true` against `"true"` does not. */
  lemma ValidatorBoolNumber(parse: string -> Option<Json>)
    requires parse("true") == Some(JBool(true))
    requires parse("1") == Some(JNumber(1))
    requires parse("\"true\"") == Some(JString("true"))
    ensures ValidatorPassed(parse, "true", "1") && ValidatorPassed(parse, "1", "true")
    ensures !ValidatorPassed(parse, "true", "\"true\"")
  {
    BoolStripFacts();
  }

  lemma BoolStripFacts()
    ensures Strip("true") == "true" && Strip("1") == "1" && Strip("\"true\"") == "\"true\""
  {
    StripAround("", "true", "");
    assert "" + "true" + "" == "true";
    StripAround("", "1", "");
    assert "" + "1" + "" == "1";
    StripAround("", "\"true\"", "");
    assert "" + "\"true\"" + "" == "\"true\"";
  }

  lemma JsonStripFacts()
    ensures Strip("[1,2]") == "[1,2]" && Strip("[1, 2]") == "[1, 2]" && Strip("[2,1]") == "[2,1]"
    ensures Strip("{\"a\":1,\"b\":2}") == "{\"a\":1,\"b\":2}"
    ensures Strip("{\"b\":2,\"a\":1}") == "{\"b\":2,\"a\":1}"
  {
    StripAround("", "[1,2]", "");
    assert "" + "[1,2]" + "" == "[1,2]";
    StripAround("", "[1, 2]", "");
    assert "" + "[1, 2]" + "" == "[1, 2]";
    StripAround("", "[2,1]", "");
    assert "" + "[2,1]" + "" == "[2,1]";
    StripAround("", "{\"a\":1,\"b\":2}", "");
    assert "" + "{\"a\":1,\"b\":2}" + "" == "{\"a\":1,\"b\":2}";
    StripAround("", "{\"b\":2,\"a\":1}", "");
    assert "" + "{\"b\":2,\"a\":1}" + "" == "{\"b\":2,\"a\":1}";
  }

  /** Text that does not decode falls back to the whitespace-collapsed
      comparison. */
  lemma ValidatorCollapseExample(parse: string -> Option<Json>)
    requires parse("a b") == None
    ensures ValidatorPassed(parse, "a  b", " a b\n")
  {
    StripAround(" ", "a b", "\n");
    assert " " + "a b" + "\n" == " a b\n";
    StripAround("", "a  b", "");
    assert "" + "a  b" + "" == "a  b";
    CollapseFacts();
  }

  lemma CollapseFacts()
    ensures Collapse("a  b") == "a b" && Collapse("a b") == "a b"
  {
    CollapseSingleSpace();
    CollapseDoubleSpace();
  }

  lemma CollapseSingleSpace()
    ensures Collapse("a b") == "a b"
  {
    var w := ["a", "b"];
    WordsOfJoin(w);
    assert JoinWith(w, ' ') == "a b";
  }

  lemma CollapseDoubleSpace()
    ensures Collapse("a  b") == "a b"
  {
    var s := "a  b";
    assert NonSpaceRun(s) == 1;
    assert s[..1] == "a" && s[1..] == "  b";
    calc {
      Words(s);
      ["a"] + Words("  b");
      { assert "  b"[1..] == " b"; }
      ["a"] + Words(" b");
      { assert " b"[1..] == "b"; }
      ["a"] + Words("b");
      { WordsOfWord("b"); }
      ["a", "b"];
    }
    assert JoinWith(["a", "b"], ' ') == "a b";
  }
}
