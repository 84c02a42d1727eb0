/** `clean_code` (src/pipeline.py:17-24): four regular-expression
    substitutions that delete Markdown fences, then a strip. Each `re.sub`
    scans left to right, deletes every non-overlapping match and copies the
    other characters; `\s` is the whitespace of `str.isspace`. */
module CodeCleaner {
  import opened Wrappers
  import opened Text
  import opened ReplyParser

  /** The three patterns the function uses. */
  datatype Pattern =
    | FenceOptJson         // ```(json)?\s*          (line 19)
    | SpacedFence          // \s*```\s*              (lines 20 and 23)
    | FenceTag(tag: string) // ```<language>\s*      (line 22, after re.escape)

  /** The length of the whitespace run at the start of `s` (`\s*`, greedy). */
  function SpaceRun(s: string): (n: nat)
    ensures n <= |s| && s[n..] == TrimStart(s)
  {
    TrimStartIsSuffix(s);
    |s| - |TrimStart(s)|
  }

  /** The length of the match of `p` at the start of `s`, if it matches
      there. Every match holds a fence. For `\s*```\s*` the greedy leading
      run can give nothing back usefully: a shorter run is followed by
      whitespace, not a backtick. */
  function MatchLen(p: Pattern, s: string): (r: Option<nat>)
    ensures r.Some? ==> |Fence| <= r.value <= |s| && Contains(s, Fence)
  {
    match p
    case FenceOptJson =>
      if OccursAt(s, Fence, 0) then
        var rest := s[|Fence|..];
        var json := if |rest| >= 4 && rest[..4] == "json" then 4 else 0;
        Some(|Fence| + json + SpaceRun(rest[json..]))
      else None
    case SpacedFence =>
      var lead := SpaceRun(s);
      if OccursAt(s, Fence, lead) then
        Some(lead + |Fence| + SpaceRun(s[lead + |Fence|..]))
      else None
    case FenceTag(tag) =>
      var open := Fence + tag;
      if OccursAt(s, open, 0) then
        assert s[..|open|][..|Fence|] == Fence;
        assert OccursAt(s, Fence, 0);
        Some(|open| + SpaceRun(s[|open|..]))
      else None
  }

  /** `re.sub(p, '', s)`. */
  function Sub(p: Pattern, s: string): (r: string)
    ensures |r| <= |s|
    decreases |s|
  {
    if s == [] then []
    else
      match MatchLen(p, s)
      case Some(n) => Sub(p, s[n..])
      case None => [s[0]] + Sub(p, s[1..])
  }

  /** `clean_code(code, language)`. */
  function CleanCode(code: string, language: string): (r: string)
    ensures IsTrimmed(r)
  {
    var first := Sub(FenceOptJson, code);
    var second := Sub(SpacedFence, first);
    var third := Sub(FenceTag(language), second);
    var fourth := Sub(SpacedFence, third);
    Strip(fourth)
  }

  /** A substitution whose every match holds a fence leaves text without a
      fence alone. */
  lemma {:induction false} SubWithoutFence(p: Pattern, s: string)
    requires !Contains(s, Fence)
    ensures Sub(p, s) == s
    decreases |s|
  {
    if s != [] {
      SuffixWithoutFence(s, 1);
      SubWithoutFence(p, s[1..]);
      assert [s[0]] + s[1..] == s;
    }
  }

  lemma SuffixWithoutFence(s: string, k: nat)
    requires k <= |s| && !Contains(s, Fence)
    ensures !Contains(s[k..], Fence)
  {
    forall i | 0 <= i <= |s| - k ensures !OccursAt(s[k..], Fence, i) {
      if i + |Fence| <= |s| - k {
        SliceOfSlice(s, k, |s|, i, i + |Fence|);
        assert !OccursAt(s, Fence, k + i);
      }
    }
  }

  /** After line 19 no fence is left: a backtick it copies is not followed
      by two more, since they would have been a match. */
  lemma {:induction false} FirstPassRemovesFences(s: string)
    ensures !Contains(Sub(FenceOptJson, s), Fence)
    decreases |s|
  {
    if s != [] {
      var m := MatchLen(FenceOptJson, s);
      if m.Some? {
        SubDeletes(FenceOptJson, s);
        FirstPassRemovesFences(s[m.value..]);
      } else {
        SubCopies(FenceOptJson, s);
        var rest := Sub(FenceOptJson, s[1..]);
        FirstPassRemovesFences(s[1..]);
        if s[0] == '`' {
          NoJsonMatch(s);
          FirstPassLead2(s[1..]);
        }
        ConsWithoutFence(s[0], rest);
      }
    }
  }

  /** A match is deleted and the scan goes on after it. */
  lemma SubDeletes(p: Pattern, s: string)
    requires s != [] && MatchLen(p, s).Some?
    ensures Sub(p, s) == Sub(p, s[MatchLen(p, s).value..])
  {
  }

  /** Where nothing matches, the character is copied. */
  lemma SubCopies(p: Pattern, s: string)
    requires s != [] && MatchLen(p, s).None?
    ensures Sub(p, s) == [s[0]] + Sub(p, s[1..])
  {
  }

  /** The pattern of line 19 fails only where no fence starts. */
  lemma NoJsonMatch(s: string)
    requires MatchLen(FenceOptJson, s).None?
    ensures !(|s| >= 3 && s[0] == '`' && s[1] == '`' && s[2] == '`')
  {
    assert |s| >= 3 ==> (s[..3] == Fence <==> s[0] == '`' && s[1] == '`' && s[2] == '`');
  }

  /** The output starts with a backtick only if the input does. */
  lemma FirstPassLead1(s: string)
    requires s == [] || s[0] != '`'
    ensures var r := Sub(FenceOptJson, s); r == [] || r[0] != '`'
  {
    if s != [] {
      assert !OccursAt(s, Fence, 0);
    }
  }

  /** The output starts with two backticks only if the input does. */
  lemma FirstPassLead2(s: string)
    requires |s| < 2 || s[0] != '`' || s[1] != '`'
    ensures var r := Sub(FenceOptJson, s); |r| < 2 || r[0] != '`' || r[1] != '`'
  {
    if s != [] && s[0] == '`' {
      assert !OccursAt(s, Fence, 0);
      FirstPassLead1(s[1..]);
    } else {
      FirstPassLead1(s);
    }
  }

  /** Putting one character in front adds no fence unless the character is
      a backtick and the text starts with two more. */
  lemma ConsWithoutFence(c: char, r: string)
    requires !Contains(r, Fence)
    requires c == '`' ==> |r| < 2 || r[0] != '`' || r[1] != '`'
    ensures !Contains([c] + r, Fence)
  {
    var t := [c] + r;
    forall i | 0 <= i <= |t| ensures !OccursAt(t, Fence, i) {
      if i > 0 && i + |Fence| <= |t| {
        assert t[i..i + |Fence|] == r[i - 1..i - 1 + |Fence|];
        assert !OccursAt(r, Fence, i - 1);
      } else if i == 0 && |Fence| <= |t| {
        assert t[..|Fence|][0] == c;
        if c == '`' {
          assert t[..|Fence|][1] == r[0] && t[..|Fence|][2] == r[1];
        }
      }
    }
  }

  /** Lines 20-23 never change anything: after line 19 there is no fence
      for them to match. So `clean_code` is the first substitution followed
      by a strip, and its result never has whitespace at either end. */
  lemma CleanCodeIsFirstPass(code: string, language: string)
    ensures CleanCode(code, language) == Strip(Sub(FenceOptJson, code))
  {
    var first := Sub(FenceOptJson, code);
    FirstPassRemovesFences(code);
    SubWithoutFence(SpacedFence, first);
    SubWithoutFence(FenceTag(language), first);
  }

  /** Text without a fence is only stripped. */
  lemma CleanCodeWithoutFence(code: string, language: string)
    requires !Contains(code, Fence)
    ensures CleanCode(code, language) == Strip(code)
  {
    CleanCodeIsFirstPass(code, language);
    SubWithoutFence(FenceOptJson, code);
  }

  predicate NoBacktick(u: string)
  {
    forall i :: 0 <= i < |u| ==> u[i] != '`'
  }

  /** Line 19 copies text without backticks unchanged. */
  lemma {:induction false} FirstPassCopies(u: string, v: string)
    requires NoBacktick(u)
    ensures Sub(FenceOptJson, u + v) == u + Sub(FenceOptJson, v)
    decreases |u|
  {
    if u != [] {
      FirstPassCopies(u[1..], v);
      CopyStep(u, v, Sub(FenceOptJson, v));
    } else {
      assert u + v == v;
    }
  }

  lemma CopyStep(u: string, v: string, x: string)
    requires u != [] && u[0] != '`'
    requires Sub(FenceOptJson, u[1..] + v) == u[1..] + x
    ensures Sub(FenceOptJson, u + v) == u + x
  {
    ConsSplit(u, v, x);
    CopiedChar(u + v);
  }

  lemma ConsSplit(u: string, v: string, x: string)
    requires u != []
    ensures (u + v)[0] == u[0] && (u + v)[1..] == u[1..] + v
    ensures [u[0]] + (u[1..] + x) == u + x
  {
    assert u == [u[0]] + u[1..];
  }

  /** Line 19 copies a first character that is not a backtick. */
  lemma CopiedChar(t: string)
    requires t != [] && t[0] != '`'
    ensures Sub(FenceOptJson, t) == [t[0]] + Sub(FenceOptJson, t[1..])
  {
    if |Fence| <= |t| {
      assert t[..|Fence|][0] == t[0];
    }
    assert MatchLen(FenceOptJson, t) == None;
  }

  /** Line 19 deletes an opening "```json" together with the newline after it. */
  lemma JsonOpening(v: string)
    requires v == [] || !IsSpace(v[0])
    ensures Sub(FenceOptJson, Fence + "json\n" + v) == Sub(FenceOptJson, v)
  {
    var t := Fence + "json\n" + v;
    JsonOpeningMatch(v);
    SubDeletes(FenceOptJson, t);
    assert t[8..] == v;
  }

  lemma JsonOpeningMatch(v: string)
    requires v == [] || !IsSpace(v[0])
    ensures MatchLen(FenceOptJson, Fence + "json\n" + v) == Some(8)
  {
    var t := Fence + "json\n" + v;
    assert t[..|Fence|] == Fence;
    var rest := t[|Fence|..];
    assert rest == "json\n" + v;
    assert rest[..4] == "json";
    assert rest[4..] == "\n" + v;
    NewlineRun(v);
  }

  /** A newline before a non-space is a whitespace run of one. */
  lemma NewlineRun(v: string)
    requires v == [] || !IsSpace(v[0])
    ensures SpaceRun("\n" + v) == 1
  {
    assert ("\n" + v)[1..] == v;
  }

  /** Line 19 deletes a bare "```" that is not followed by whitespace or "json". */
  lemma BareFence(v: string)
    requires v == [] || !IsSpace(v[0])
    requires |v| >= 4 ==> v[..4] != "json"
    ensures Sub(FenceOptJson, Fence + v) == Sub(FenceOptJson, v)
  {
    var t := Fence + v;
    assert OccursAt(t, Fence, 0) by {
      assert t[..|Fence|] == Fence;
    }
    assert t[|Fence|..] == v;
    NoSpaceRun(v);
    assert MatchLen(FenceOptJson, t) == Some(3);
    SubDeletes(FenceOptJson, t);
  }

  /** Text that does not start with whitespace has an empty whitespace run. */
  lemma NoSpaceRun(v: string)
    requires v == [] || !IsSpace(v[0])
    ensures SpaceRun(v) == 0
  {
    assert TrimStart(v) == v;
  }

  /** A JSON-tagged block cleans to its body. */
  lemma CleanJsonBlock(language: string)
    ensures CleanCode("```json\n[1,2]\n```", language) == "[1,2]"
  {
    CleanCodeIsFirstPass("```json\n[1,2]\n```", language);
    JsonBlockFirstPass();
    JsonBlockStrip();
  }

  lemma JsonBlockFirstPass()
    ensures Sub(FenceOptJson, "```json\n[1,2]\n```") == "[1,2]\n"
  {
    JsonBlockLayout();
    JsonOpening("[1,2]\n" + Fence);
    FirstPassCopies("[1,2]\n", Fence);
    ClosingFence();
    AppendNothing("[1,2]\n");
  }

  lemma JsonBlockLayout()
    ensures "```json\n[1,2]\n```" == Fence + "json\n" + ("[1,2]\n" + Fence)
    ensures !IsSpace(("[1,2]\n" + Fence)[0]) && NoBacktick("[1,2]\n")
  {
  }

  lemma AppendNothing(s: string)
    ensures s + [] == s
  {
  }

  lemma JsonBlockStrip()
    ensures Strip("[1,2]\n") == "[1,2]"
  {
    StripAround("", "[1,2]", "\n");
    assert "" + "[1,2]" + "\n" == "[1,2]\n";
  }

  lemma ClosingFence()
    ensures Sub(FenceOptJson, Fence) == []
  {
    BareFence([]);
    assert Fence + [] == Fence;
  }

  /** In a block tagged with another language, line 19 takes only the
      backticks, so the tag stays as the first line of the result. */
  lemma CleanTaggedBlock(language: string)
    ensures CleanCode("```python\nprint(1)\n```", language) == "python\nprint(1)"
  {
    CleanCodeIsFirstPass("```python\nprint(1)\n```", language);
    TaggedBlockFirstPass();
    TaggedBlockStrip();
  }

  lemma TaggedBlockFirstPass()
    ensures Sub(FenceOptJson, "```python\nprint(1)\n```") == "python\nprint(1)\n"
  {
    TaggedBlockLayout();
    BareFence("python\nprint(1)\n" + Fence);
    FirstPassCopies("python\nprint(1)\n", Fence);
    ClosingFence();
    AppendNothing("python\nprint(1)\n");
  }

  lemma TaggedBlockLayout()
    ensures "```python\nprint(1)\n```" == Fence + ("python\nprint(1)\n" + Fence)
    ensures ("python\nprint(1)\n" + Fence)[..4] == "pyth"
    ensures !IsSpace(("python\nprint(1)\n" + Fence)[0]) && NoBacktick("python\nprint(1)\n")
  {
  }

  lemma TaggedBlockStrip()
    ensures Strip("python\nprint(1)\n") == "python\nprint(1)"
  {
    StripAround("", "python\nprint(1)", "\n");
    assert "" + "python\nprint(1)" + "\n" == "python\nprint(1)\n";
  }
}
