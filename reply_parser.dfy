/** `parse_llm_response`, which appears with the same text in
    backend/src/pipeline.py:45-65 and src/pipeline.py:26-46: it locates the
    `CHAIN_OF_THOUGHT:` and `CODE:` markers, turns the text between them into
    cleaned reasoning lines, and takes the body of the first fenced block that
    the pattern ```` ```(?:\w+)?\n(.*?)``` ```` (with `re.DOTALL`) matches
    anywhere in the reply. */
module ReplyParser {
  import opened Wrappers
  import opened Text

  const ThoughtMarker: string := "CHAIN_OF_THOUGHT:"
  const CodeMarker: string := "CODE:"
  const Fence: string := "```"

  datatype Parsed = Parsed(reasoning: seq<string>, code: string)

  /** The two `ValueError`s the parser raises. */
  datatype ParseError = MissingSection | NoCodeBlock

  /** A reply parser, such as `Parse` below. */
  type Parser = string -> Result<Parsed, ParseError>

  /** The `try` around the parse in both loops: a reply that does not parse
      leaves the previous reasoning and code in place (the error is only
      logged). */
  function Reparse(parse: Parser, reply: string, previous: Option<Parsed>): Option<Parsed>
  {
    match parse(reply)
    case Ok(p) => Some(p)
    case Err(_) => previous
  }

  /** The regular expression class `\w`, taken as ASCII letters, digits and `_`. */
  predicate IsWordChar(c: char)
  {
    ('a' <= c <= 'z') || ('A' <= c <= 'Z') || ('0' <= c <= '9') || c == '_'
  }

  /** The length of the longest run of word characters starting at `i`. */
  function WordRun(s: string, i: nat): (n: nat)
    requires i <= |s|
    ensures i + n <= |s|
    ensures forall k :: i <= k < i + n ==> IsWordChar(s[k])
    ensures i + n == |s| || !IsWordChar(s[i + n])
    decreases |s| - i
  {
    if i < |s| && IsWordChar(s[i]) then 1 + WordRun(s, i + 1) else 0
  }

  /** The opening part ```` ```(?:\w+)?\n ```` matches at `i`. The optional
      group is greedy and a newline is not a word character, so the only way
      to match is three backticks, the whole run of word characters after
      them, and a newline. */
  predicate OpensAt(s: string, i: nat)
  {
    && OccursAt(s, Fence, i)
    && var j := i + |Fence| + WordRun(s, i + |Fence|);
       j < |s| && s[j] == '\n'
  }

  /** Where the captured group starts when the opening part matches at `i`. */
  function BodyStart(s: string, i: nat): (b: nat)
    requires OpensAt(s, i)
    ensures i + |Fence| < b <= |s|
  {
    i + |Fence| + WordRun(s, i + |Fence|) + 1
  }

  /** The whole pattern matches at `i`: an opening part, then a closing fence
      somewhere after it (the lazy `.*?` with `re.DOTALL` accepts any text in
      between, newlines included). */
  predicate BlockAt(s: string, i: nat)
  {
    OpensAt(s, i) && FindFrom(s, Fence, BodyStart(s, i)) != -1
  }

  /** `re.search`: the leftmost position at or after `from` where the pattern
      matches. */
  function FirstBlock(s: string, from: nat): (r: Option<nat>)
    ensures r.Some? ==> from <= r.value && BlockAt(s, r.value)
    ensures r.Some? ==> forall j :: from <= j < r.value ==> !BlockAt(s, j)
    ensures r.None? ==> forall j :: from <= j ==> !BlockAt(s, j)
    decreases |s| - from
  {
    if from + |Fence| > |s| then None
    else if BlockAt(s, from) then Some(from)
    else FirstBlock(s, from + 1)
  }

  /** `code_match.group(1)`: the text from the leftmost match's opening part
      up to the first fence after it. It never contains a fence itself, it is
      followed by one, and it is `None` exactly when the pattern matches
      nowhere. */
  function CodeBlock(s: string): (r: Option<string>)
    ensures r.None? <==> forall i :: !BlockAt(s, i)
    ensures r.Some? ==> !Contains(r.value, Fence)
    ensures r.Some? ==>
      var i := FirstBlock(s, 0).value;
      var b := BodyStart(s, i);
      b + |r.value| <= |s| && s[b..b + |r.value|] == r.value && OccursAt(s, Fence, b + |r.value|)
  {
    match FirstBlock(s, 0)
    case None => None
    case Some(i) =>
      var b := BodyStart(s, i);
      var e := FindFrom(s, Fence, b);
      NoFenceInside(s, b, e);
      Some(s[b..e])
  }

  /** A stretch of `s` in which no fence starts contains no fence. */
  lemma NoFenceInside(s: string, b: nat, e: int)
    requires b <= e <= |s|
    requires forall i :: b <= i < e ==> !OccursAt(s, Fence, i)
    ensures !Contains(s[b..e], Fence)
  {
    forall j | 0 <= j <= e - b ensures !OccursAt(s[b..e], Fence, j) {
      if j + |Fence| <= e - b {
        SliceOfSlice(s, b, e, j, j + |Fence|);
        assert !OccursAt(s, Fence, b + j);
      }
    }
  }

  /** `line.lstrip("- ").strip()`. */
  function CleanLine(line: string): (r: string)
    ensures IsTrimmed(r)
  {
    Strip(TrimStartChars(line, {'-', ' '}))
  }

  /** The comprehension at backend/src/pipeline.py:56: blank lines are
      dropped, the others are cleaned, in order. The blank test looks at the
      line before it is cleaned. */
  function ReasoningLines(lines: seq<string>): (r: seq<string>)
    ensures |r| <= |lines| && AllTrimmed(r)
  {
    if lines == [] then []
    else
      var head, rest := KeepLine(lines[0]), ReasoningLines(lines[1..]);
      AllTrimmedConcat(head, rest);
      head + rest
  }

  /** What one line contributes: nothing when it is blank, otherwise the
      cleaned line. */
  function KeepLine(line: string): (r: seq<string>)
    ensures |r| <= 1 && AllTrimmed(r)
  {
    if Strip(line) != [] then [CleanLine(line)] else []
  }

  predicate AllTrimmed(lines: seq<string>)
  {
    forall k :: 0 <= k < |lines| ==> IsTrimmed(lines[k])
  }

  predicate NoneEmpty(lines: seq<string>)
  {
    forall k :: 0 <= k < |lines| ==> lines[k] != []
  }

  lemma AllTrimmedConcat(a: seq<string>, b: seq<string>)
    requires AllTrimmed(a) && AllTrimmed(b)
    ensures AllTrimmed(a + b)
  {
    forall k | 0 <= k < |a + b| ensures IsTrimmed((a + b)[k]) {
      if k < |a| {
        assert (a + b)[k] == a[k];
      } else {
        assert (a + b)[k] == b[k - |a|];
      }
    }
  }

  lemma NoneEmptyConcat(a: seq<string>, b: seq<string>)
    requires NoneEmpty(a) && NoneEmpty(b)
    ensures NoneEmpty(a + b)
  {
    forall k | 0 <= k < |a + b| ensures (a + b)[k] != [] {
      if k < |a| {
        assert (a + b)[k] == a[k];
      } else {
        assert (a + b)[k] == b[k - |a|];
      }
    }
  }

  /** The comprehension works line by line: the lines of two pieces of text
      give the reasoning lines of each, in order. */
  lemma {:induction false} ReasoningLinesConcat(a: seq<string>, b: seq<string>)
    ensures ReasoningLines(a + b) == ReasoningLines(a) + ReasoningLines(b)
  {
    if a == [] {
      assert a + b == b;
    } else {
      assert (a + b)[1..] == a[1..] + b;
      ReasoningLinesConcat(a[1..], b);
    }
  }

  /** The reasoning lines of the text between the markers
      (backend/src/pipeline.py:55-56), with the empty lines that the written
      comprehension lets through dropped (see `BareBulletGivesEmptyLine`).
      Python slicing gives `""` when the `CODE:` marker comes before the end
      of the first one. */
  function Reasoning(text: string, thoughtStart: nat, codeStart: nat): seq<string>
    requires thoughtStart + |ThoughtMarker| <= |text| && codeStart <= |text|
  {
    CleanReasoningLines(SplitOn(Strip(Slice(text, thoughtStart + |ThoughtMarker|, codeStart)), '\n'))
  }

  /** `parse_llm_response`. It fails with `MissingSection` exactly when a
      marker is absent, with `NoCodeBlock` exactly when both are present but
      the fence pattern matches nowhere in the reply, and otherwise returns
      trimmed reasoning lines and the trimmed body of the leftmost block. */
  function Parse(text: string): (r: Result<Parsed, ParseError>)
    ensures r == Err(MissingSection) <==> !Contains(text, ThoughtMarker) || !Contains(text, CodeMarker)
    ensures r == Err(NoCodeBlock) <==>
      Contains(text, ThoughtMarker) && Contains(text, CodeMarker) && forall i :: !BlockAt(text, i)
    ensures r.Ok? ==> CodeBlock(text).Some? && r.value.code == Strip(CodeBlock(text).value)
    ensures r.Ok? ==>
      var thoughtStart, codeStart := Find(text, ThoughtMarker), Find(text, CodeMarker);
      && 0 <= thoughtStart && 0 <= codeStart
      && r.value.reasoning == Reasoning(text, thoughtStart, codeStart)
    ensures r.Ok? ==> IsTrimmed(r.value.code)
    ensures r.Ok? ==> AllTrimmed(r.value.reasoning) && NoneEmpty(r.value.reasoning)
  {
    var thoughtStart, codeStart := Find(text, ThoughtMarker), Find(text, CodeMarker);
    if thoughtStart == -1 || codeStart == -1 then Err(MissingSection)
    else
      match CodeBlock(text)
      case None => Err(NoCodeBlock)
      case Some(body) => Ok(Parsed(Reasoning(text, thoughtStart, codeStart), Strip(body)))
  }

  /** When `CODE:` first occurs before the end of the first thought marker
      the slice between them is empty, so there are no reasoning lines. */
  lemma CodeMarkerFirstGivesNoReasoning(text: string, t: nat, c: nat)
    requires t + |ThoughtMarker| <= |text| && c <= |text|
    requires c < t + |ThoughtMarker|
    ensures Reasoning(text, t, c) == []
  {
    assert Slice(text, t + |ThoughtMarker|, c) == [];
    assert Strip([]) == [];
    assert SplitOn([], '\n') == [[]];
    assert CleanLine([]) == [];
    assert CleanReasoningLines([[]]) == [];
  }

  // ---------------------------------------------------------------------
  // Round trip: a reply laid out as the prompt asks parses back into its
  // parts.

  /** A reasoning step that survives the round trip unchanged. */
  predicate CleanStep(s: string)
  {
    && s != [] && IsTrimmed(s) && s[0] != '-'
    && '\n' !in s && ':' !in s && '`' !in s
  }

  function Bullets(steps: seq<string>): (r: seq<string>)
    ensures |r| == |steps|
    ensures forall k :: 0 <= k < |r| ==> r[k] == "- " + steps[k]
  {
    seq(|steps|, k requires 0 <= k < |steps| => "- " + steps[k])
  }

  /** A reply in the shape the prompts ask for: the reasoning steps as
      bullets, then a fenced block tagged with `lang`. */
  function Render(steps: seq<string>, lang: string, code: string): string
  {
    ThoughtSection(JoinWith(Bullets(steps), '\n')) + CodeSection(lang, code)
  }

  function ThoughtSection(bullets: string): string
  {
    ThoughtMarker + "\n" + bullets + "\n"
  }

  function CodeSection(lang: string, code: string): string
  {
    CodeMarker + "\n" + Fence + lang + "\n" + code + "\n" + Fence
  }

  /** Parsing a rendered reply gives back its steps and its code. */
  lemma RenderParses(steps: seq<string>, lang: string, code: string)
    requires |steps| > 0 && forall k :: 0 <= k < |steps| ==> CleanStep(steps[k])
    requires forall k :: 0 <= k < |lang| ==> IsWordChar(lang[k])
    requires code != [] && IsTrimmed(code) && '`' !in code
    ensures Parse(Render(steps, lang, code)) == Ok(Parsed(steps, code))
  {
    var bl := JoinWith(Bullets(steps), '\n');
    var p := ThoughtSection(bl);
    var text := Render(steps, lang, code);
    BulletsShape(steps);
    RenderMarkers(bl, CodeSection(lang, code));
    RenderReasoning(steps, bl);
    SectionBetweenMarkers(bl, CodeSection(lang, code));
    NoBacktickBeforeFence(bl);
    RenderBlock(p + CodeMarker + "\n", lang, code);
    SectionsJoin(p, lang, code);
  }

  lemma SectionsJoin(p: string, lang: string, code: string)
    ensures p + CodeSection(lang, code) == p + CodeMarker + "\n" + Fence + lang + "\n" + code + "\n" + Fence
  {
  }

  lemma SectionBetweenMarkers(bl: string, q: string)
    ensures Slice(ThoughtSection(bl) + q, |ThoughtMarker|, |ThoughtSection(bl)|) == "\n" + bl + "\n"
  {
    var p := ThoughtSection(bl);
    assert (p + q)[|ThoughtMarker|..|p|] == p[|ThoughtMarker|..];
  }

  lemma NoBacktickBeforeFence(bl: string)
    requires '`' !in bl
    ensures '`' !in ThoughtSection(bl) + CodeMarker + "\n"
  {
  }

  /** The bullets joined by newlines: non-empty, trimmed, without `:`,
      backticks, or any newline inside a bullet. */
  lemma BulletsShape(steps: seq<string>)
    requires |steps| > 0 && forall k :: 0 <= k < |steps| ==> CleanStep(steps[k])
    ensures var bl := JoinWith(Bullets(steps), '\n');
      && bl != [] && IsTrimmed(bl) && ':' !in bl && '`' !in bl
  {
    var bs := Bullets(steps);
    forall k | 0 <= k < |bs| ensures ':' !in bs[k] && '`' !in bs[k] && bs[k] != [] {
      assert bs[k] == "- " + steps[k];
    }
    JoinWithout(bs, '\n', ':');
    JoinWithout(bs, '\n', '`');
    JoinWithEnds(bs, '\n');
    assert bs[0][0] == '-';
    var last := steps[|steps| - 1];
    assert bs[|bs| - 1][|bs[|bs| - 1]| - 1] == last[|last| - 1];
  }

  /** A character in no part and different from the separator is not in
      the joined text. */
  lemma {:induction false} JoinWithout(parts: seq<string>, sep: char, c: char)
    requires c != sep && forall k :: 0 <= k < |parts| ==> c !in parts[k]
    ensures c !in JoinWith(parts, sep)
  {
    if |parts| > 1 {
      JoinWithout(parts[1..], sep, c);
    }
  }

  /** The joined text starts with the first part and ends with the last. */
  lemma {:induction false} JoinWithEnds(parts: seq<string>, sep: char)
    requires |parts| > 0 && forall k :: 0 <= k < |parts| ==> parts[k] != []
    ensures var j := JoinWith(parts, sep);
      && |j| > 0 && j[0] == parts[0][0]
      && j[|j| - 1] == parts[|parts| - 1][|parts[|parts| - 1]| - 1]
  {
    if |parts| > 1 {
      var rest := parts[1..];
      assert forall k :: 0 <= k < |rest| ==> rest[k] == parts[k + 1];
      JoinWithEnds(rest, sep);
      var head, tail := parts[0] + [sep], JoinWith(rest, sep);
      assert JoinWith(parts, sep) == head + tail;
      assert (head + tail)[0] == head[0];
      assert (head + tail)[|head| + |tail| - 1] == tail[|tail| - 1];
      assert rest[|rest| - 1] == parts[|parts| - 1];
    }
  }

  /** Both markers are found where the layout puts them: the thought marker
      at the start, the code marker right after the bullets. */
  lemma RenderMarkers(bl: string, q: string)
    requires ':' !in bl
    requires |q| >= |CodeMarker| && q[..|CodeMarker|] == CodeMarker
    ensures var text := ThoughtSection(bl) + q;
      && Find(text, ThoughtMarker) == 0
      && Find(text, CodeMarker) == |ThoughtSection(bl)|
  {
    var p := ThoughtSection(bl);
    var text := p + q;
    assert text[..|ThoughtMarker|] == ThoughtMarker;
    assert OccursAt(text, ThoughtMarker, 0);
    assert text[|p|..|p| + |CodeMarker|] == CodeMarker;
    assert OccursAt(text, CodeMarker, |p|);
    forall j | 0 <= j < |p| ensures !OccursAt(text, CodeMarker, j) {
      CodeMarkerNotAt(bl, q, j);
    }
  }

  /** No window of the thought section spells the code marker: its only
      colon is the thought marker's, and its last character is a newline. */
  lemma CodeMarkerNotAt(bl: string, q: string, j: nat)
    requires ':' !in bl
    requires j < |ThoughtSection(bl)|
    ensures !OccursAt(ThoughtSection(bl) + q, CodeMarker, j)
  {
    var p := ThoughtSection(bl);
    var text := p + q;
    if j + 4 < |p| {
      if text[j + 4] == ':' {
        ColonInLayout(bl, j + 4);
        assert text[j] == 'U';
      }
      assert j + 5 <= |text| ==> text[j..j + 5][4] == text[j + 4];
      assert j + 5 <= |text| ==> text[j..j + 5][0] == text[j];
    } else {
      assert text[|p| - 1] == '\n';
      assert j + 5 <= |text| ==> text[j..j + 5][|p| - 1 - j] == '\n';
    }
  }

  /** The only colon before the code marker is the thought marker's own. */
  lemma ColonInLayout(bl: string, k: nat)
    requires ':' !in bl
    requires k < |ThoughtMarker| + |bl| + 2
    requires (ThoughtMarker + "\n" + bl + "\n")[k] == ':'
    ensures k == |ThoughtMarker| - 1
  {
  }

  /** The text between the markers gives back the steps. */
  lemma RenderReasoning(steps: seq<string>, bl: string)
    requires |steps| > 0 && forall k :: 0 <= k < |steps| ==> CleanStep(steps[k])
    requires bl == JoinWith(Bullets(steps), '\n') && bl != [] && IsTrimmed(bl)
    ensures CleanReasoningLines(SplitOn(Strip("\n" + bl + "\n"), '\n')) == steps
  {
    StripAround("\n", bl, "\n");
    var bs := Bullets(steps);
    forall k | 0 <= k < |bs| ensures '\n' !in bs[k] {
      assert bs[k] == "- " + steps[k];
    }
    SplitJoin(bs, '\n');
    BulletsReasoning(steps);
    CleanReasoningLinesDropEmpty(bs);
    WithoutEmptyKeeps(steps);
  }

  lemma BulletsReasoning(steps: seq<string>)
    requires forall k :: 0 <= k < |steps| ==> CleanStep(steps[k])
    ensures ReasoningLines(Bullets(steps)) == steps
  {
    var bs := Bullets(steps);
    forall k | 0 <= k < |bs| ensures KeepLine(bs[k]) == [steps[k]] {
      BulletLine(steps[k]);
    }
    LinesOneEach(bs, steps);
  }

  /** Lines that each give exactly one reasoning line give those, in order. */
  lemma {:induction false} LinesOneEach(lines: seq<string>, out: seq<string>)
    requires |lines| == |out|
    requires forall k :: 0 <= k < |lines| ==> KeepLine(lines[k]) == [out[k]]
    ensures ReasoningLines(lines) == out
  {
    if lines != [] {
      LinesOneEach(lines[1..], out[1..]);
      assert KeepLine(lines[0]) == [out[0]];
      assert [out[0]] + out[1..] == out;
    }
  }

  /** One bullet gives back its step. */
  lemma BulletLine(s: string)
    requires CleanStep(s)
    ensures KeepLine("- " + s) == [s]
  {
    BulletNotBlank(s);
    BulletCleaned(s);
  }

  lemma BulletNotBlank(s: string)
    requires CleanStep(s)
    ensures Strip("- " + s) != []
  {
    var b := "- " + s;
    BlankIffAllSpaces(b);
    assert !IsSpace(b[0]);
  }

  lemma BulletCleaned(s: string)
    requires CleanStep(s)
    ensures CleanLine("- " + s) == s
  {
    BulletUnmarked(s);
    StripTrimmed(s);
  }

  lemma BulletUnmarked(s: string)
    requires CleanStep(s)
    ensures TrimStartChars("- " + s, {'-', ' '}) == s
  {
    var cs := {'-', ' '};
    var spaced := " " + s;
    assert ("- " + s)[0] == '-' && ("- " + s)[1..] == spaced;
    assert spaced[0] == ' ' && spaced[1..] == s;
    assert s[0] !in cs;
    calc {
      TrimStartChars("- " + s, cs);
      TrimStartChars(spaced, cs);
      TrimStartChars(s, cs);
      s;
    }
  }

  /** The leftmost fence is the one after the code marker, and its body is
      the code followed by one newline. */
  lemma RenderBlock(pre: string, lang: string, code: string)
    requires '`' !in pre
    requires forall k :: 0 <= k < |lang| ==> IsWordChar(lang[k])
    requires code != [] && IsTrimmed(code) && '`' !in code
    ensures CodeBlock(pre + Fence + lang + "\n" + code + "\n" + Fence) == Some(code + "\n")
    ensures Strip(code + "\n") == code
  {
    var text := pre + Fence + lang + "\n" + code + "\n" + Fence;
    var head := pre + Fence + lang + "\n";
    var rest := Fence + lang + "\n" + code + "\n" + Fence;
    var b := |head|;
    assert text == pre + rest;
    assert text == head + code + "\n" + Fence;
    NoFenceBefore(pre, rest);
    OpeningFence(text, pre, lang, code);
    assert BodyStart(text, |pre|) == b;
    ClosingFence(text, head, code);
    BlockBody(text, head, code);
    FirstBlockAt(text, |pre|);
    assert CodeBlock(text) == Some(text[b..b + |code| + 1]);
    StripNewline(code);
  }

  lemma StripNewline(code: string)
    requires code != [] && IsTrimmed(code)
    ensures Strip(code + "\n") == code
  {
    StripAround("", code, "\n");
    assert "" + code + "\n" == code + "\n";
  }

  /** The pattern matches first at `f` when it matches there and no fence
      starts before it. */
  lemma FirstBlockAt(s: string, f: nat)
    requires BlockAt(s, f)
    requires forall j :: 0 <= j < f ==> !OccursAt(s, Fence, j)
    ensures FirstBlock(s, 0) == Some(f)
  {
  }

  /** Text without backticks holds no fence start, whatever follows it. */
  lemma NoFenceBefore(pre: string, rest: string)
    requires '`' !in pre
    ensures forall j :: 0 <= j < |pre| ==> !OccursAt(pre + rest, Fence, j)
  {
    forall i | 0 <= i < |pre| ensures (pre + rest)[i] != '`' {
      assert (pre + rest)[i] == pre[i];
    }
    NoOccurrenceWithout(pre + rest, Fence, 0, |pre|);
  }

  lemma BlockBody(text: string, head: string, code: string)
    requires text == head + code + "\n" + Fence
    ensures text[|head|..|head| + |code| + 1] == code + "\n"
  {
  }

  /** Three backticks, a word and a newline open a block whose body starts
      right after the newline. */
  lemma OpeningFence(text: string, pre: string, lang: string, code: string)
    requires forall k :: 0 <= k < |lang| ==> IsWordChar(lang[k])
    requires text == pre + Fence + lang + "\n" + code + "\n" + Fence
    ensures OpensAt(text, |pre|) && BodyStart(text, |pre|) == |pre| + |Fence| + |lang| + 1
  {
    var f := |pre| + |Fence|;
    assert text[|pre|..f] == Fence;
    assert text[f + |lang|] == '\n';
    assert forall k :: f <= k < f + |lang| ==> text[k] == lang[k - f];
  }

  lemma ClosingFence(text: string, head: string, code: string)
    requires '`' !in code && text == head + code + "\n" + Fence
    ensures FindFrom(text, Fence, |head|) == |head| + |code| + 1
  {
    NoFenceInBody(text, head, code);
    FenceAfterBody(text, head, code);
    FindFromAt(text, Fence, |head|, |head| + |code| + 1);
  }

  lemma NoFenceInBody(text: string, head: string, code: string)
    requires '`' !in code && text == head + code + "\n" + Fence
    ensures forall i :: |head| <= i < |head| + |code| + 1 ==> !OccursAt(text, Fence, i)
  {
    var e := |head| + |code| + 1;
    var body := code + "\n";
    assert text == head + body + Fence;
    forall i | |head| <= i < e ensures text[i] != '`' {
      assert text[i] == body[i - |head|];
    }
    NoOccurrenceWithout(text, Fence, |head|, e);
  }

  lemma FenceAfterBody(text: string, head: string, code: string)
    requires text == head + code + "\n" + Fence
    ensures OccursAt(text, Fence, |head| + |code| + 1)
  {
    assert text[|head| + |code| + 1..] == Fence;
  }

  // ---------------------------------------------------------------------
  // Blank bullets.

  /** As written, a line holding only a bullet passes the blank test (which
      looks at the line before the bullet is removed) and yields an empty
      reasoning line. */
  lemma BareBulletGivesEmptyLine()
    ensures ReasoningLines(["-"]) == [""]
  {
    BareBulletLine();
    ReasoningLinesSingle("-");
  }

  lemma ReasoningLinesSingle(line: string)
    ensures ReasoningLines([line]) == KeepLine(line)
  {
    assert [line][1..] == [];
  }

  lemma BareBulletLine()
    ensures KeepLine("-") == [""]
  {
    StripAround("", "-", "");
    assert "" + "-" + "" == "-";
    assert TrimStartChars("-", {'-', ' '}) == [];
  }

  /** Dashes are only trimmed from the very start of the line: a bullet
      indented with a tab keeps its dash, because the trim of `-` and space
      stops at the tab and the tab itself is whitespace only to `Strip`. So
      a cleaned line may still begin with `-`. */
  lemma TabBulletKeepsDash()
    ensures KeepLine("\t- x") == ["- x"]
  {
    var line := "\t- x";
    assert line[0] == '\t' && '\t' !in {'-', ' '};
    assert TrimStartChars(line, {'-', ' '}) == line;
    assert IsTrimmed("- x") && AllSpaces("\t") && AllSpaces("");
    assert "\t" + "- x" + "" == line;
    StripAround("\t", "- x", "");
  }

  /** The evidently intended comprehension: lines are cleaned first and the
      empty results dropped, so every reasoning line is non-empty. */
  function CleanReasoningLines(lines: seq<string>): (r: seq<string>)
    ensures |r| <= |lines| && AllTrimmed(r) && NoneEmpty(r)
  {
    if lines == [] then []
    else
      var c := CleanLine(lines[0]);
      var head, rest := if c != [] then [c] else [], CleanReasoningLines(lines[1..]);
      AllTrimmedConcat(head, rest);
      NoneEmptyConcat(head, rest);
      head + rest
  }

  /** The intended lines are the written ones with the empty lines removed. */
  lemma {:induction false} CleanReasoningLinesDropEmpty(lines: seq<string>)
    ensures CleanReasoningLines(lines) == WithoutEmpty(ReasoningLines(lines))
  {
    if lines != [] {
      var l := lines[0];
      var head := if Strip(l) != [] then [CleanLine(l)] else [];
      CleanReasoningLinesDropEmpty(lines[1..]);
      WithoutEmptyConcat(head, ReasoningLines(lines[1..]));
      if Strip(l) == [] {
        BlankCleansEmpty(l);
      }
    }
  }

  /** A line that is blank is still blank after the bullet is removed. */
  lemma BlankCleansEmpty(l: string)
    requires Strip(l) == []
    ensures CleanLine(l) == []
  {
    var t := TrimStartChars(l, {'-', ' '});
    BlankIffAllSpaces(l);
    forall i | 0 <= i < |t| ensures IsSpace(t[i]) {
      assert t[i] == l[|l| - |t| + i];
    }
    BlankIffAllSpaces(t);
  }

  function WithoutEmpty(lines: seq<string>): (r: seq<string>)
    ensures |r| <= |lines| && NoneEmpty(r)
  {
    if lines == [] then []
    else
      var head, rest := if lines[0] != [] then [lines[0]] else [], WithoutEmpty(lines[1..]);
      NoneEmptyConcat(head, rest);
      head + rest
  }

  lemma {:induction false} WithoutEmptyKeeps(lines: seq<string>)
    requires NoneEmpty(lines)
    ensures WithoutEmpty(lines) == lines
  {
    if lines != [] {
      WithoutEmptyKeeps(lines[1..]);
      assert [lines[0]] + lines[1..] == lines;
    }
  }

  lemma {:induction false} WithoutEmptyConcat(a: seq<string>, b: seq<string>)
    ensures WithoutEmpty(a + b) == WithoutEmpty(a) + WithoutEmpty(b)
  {
    if a == [] {
      assert a + b == b;
    } else {
      assert (a + b)[1..] == a[1..] + b;
      WithoutEmptyConcat(a[1..], b);
    }
  }
}
