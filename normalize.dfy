/** `normalize_array_string` (backend/src/pipeline.py:17-43): a character
    scanner with two flags, `in_string` and `escape_next`, that deletes the
    spaces lying outside quoted substrings of an array literal. */
module ArrayNormalizer {
  import opened Text

  /** The scanner's two flags. */
  datatype ScanState = ScanState(inString: bool, escapeNext: bool)

  /** The flags before the first character. */
  const Start := ScanState(false, false)

  predicate IsQuote(c: char)
  {
    c == '"' || c == '\''
  }

  /** Whether the scanner appends `c` when it reads it in state `st`. */
  predicate Keeps(st: ScanState, c: char)
  {
    !(c == ' ' && !st.inString)
  }

  /** The flags after reading `c` in state `st`. */
  function Next(st: ScanState, c: char): ScanState
  {
    if IsQuote(c) then ScanState(if st.escapeNext then st.inString else !st.inString, false)
    else if c == '\\' && st.inString then ScanState(true, true)
    else if c == ' ' && !st.inString then st
    else ScanState(st.inString, false)
  }

  /** The characters the scanner appends while reading `s` from state `st`. */
  function Scan(s: string, st: ScanState): string
  {
    if s == [] then []
    else (if Keeps(st, s[0]) then [s[0]] else []) + Scan(s[1..], Next(st, s[0]))
  }

  /** The flags after reading all of `s` from state `st`. */
  function After(s: string, st: ScanState): ScanState
  {
    if s == [] then st else After(s[1..], Next(st, s[0]))
  }

  /** `s.startswith("[") and s.endswith("]")`. */
  predicate IsArrayLiteral(s: string)
  {
    |s| > 0 && s[0] == '[' && s[|s| - 1] == ']'
  }

  /** What `normalize_array_string(s)` returns. */
  function Normalize(s: string): string
  {
    if IsArrayLiteral(s) then Scan(s, Start) else s
  }

  /** The loop of backend/src/pipeline.py:24-43, appending to `result`. */
  method NormalizeArrayString(s: string) returns (r: string)
    ensures r == Normalize(s)
    ensures !IsArrayLiteral(s) ==> r == s
  {
    if !(|s| > 0 && s[0] == '[' && s[|s| - 1] == ']') {
      return s;
    }
    var inString, escapeNext := false, false;
    var result := "";
    for i := 0 to |s|
      invariant result + Scan(s[i..], ScanState(inString, escapeNext)) == Scan(s, Start)
    {
      ghost var st, before := ScanState(inString, escapeNext), result;
      var c := s[i];
      if c == '"' || c == '\'' {
        if !escapeNext {
          inString := !inString;
        }
      } else if c == '\\' && inString {
        escapeNext := true;
        result := result + [c];
        ScanAdvance(s, i, st, before, result, ScanState(inString, escapeNext));
        continue;
      }
      if c == ' ' && !inString {
        ScanAdvance(s, i, st, before, result, ScanState(inString, escapeNext));
        continue;
      }
      result := result + [c];
      escapeNext := false;
      ScanAdvance(s, i, st, before, result, ScanState(inString, escapeNext));
    }
    r := result;
  }

  /** One character of the loop keeps its invariant. */
  lemma ScanAdvance(s: string, i: nat, st: ScanState, before: string, after: string, next: ScanState)
    requires i < |s| && before + Scan(s[i..], st) == Scan(s, Start)
    requires after == before + (if Keeps(st, s[i]) then [s[i]] else [])
    requires next == Next(st, s[i])
    ensures after + Scan(s[i + 1..], next) == Scan(s, Start)
  {
    ScanStep(s, i, st);
  }

  lemma ScanStep(s: string, i: nat, st: ScanState)
    requires i < |s|
    ensures Scan(s[i..], st) == (if Keeps(st, s[i]) then [s[i]] else []) + Scan(s[i + 1..], Next(st, s[i]))
  {
    assert s[i..][1..] == s[i + 1..];
  }

  /** `r` is `s` with some of its `' '` characters deleted and nothing else
      changed or reordered. */
  predicate SpacesDeleted(r: string, s: string)
    decreases |s|
  {
    if s == [] then r == []
    else
      || (s[0] == ' ' && SpacesDeleted(r, s[1..]))
      || (r != [] && r[0] == s[0] && SpacesDeleted(r[1..], s[1..]))
  }

  /** `s` with every `' '` deleted. */
  function WithoutSpaces(s: string): (r: string)
    ensures ' ' !in r
  {
    if s == [] then [] else (if s[0] == ' ' then [] else [s[0]]) + WithoutSpaces(s[1..])
  }

  /** Deleting some spaces keeps the non-space characters in order and never
      makes the text longer. */
  lemma {:induction false} SpacesDeletedKeepsTheRest(r: string, s: string)
    requires SpacesDeleted(r, s)
    ensures WithoutSpaces(r) == WithoutSpaces(s)
    ensures |r| <= |s|
    decreases |s|
  {
    if s != [] {
      if s[0] == ' ' && SpacesDeleted(r, s[1..]) {
        SpacesDeletedKeepsTheRest(r, s[1..]);
      } else {
        SpacesDeletedKeepsTheRest(r[1..], s[1..]);
        assert r == [r[0]] + r[1..];
      }
    }
  }

  lemma {:induction false} SpacesDeletedRefl(s: string)
    ensures SpacesDeleted(s, s)
  {
    if s != [] {
      SpacesDeletedRefl(s[1..]);
    }
  }

  /** The scanner only ever drops `' '` characters. */
  lemma {:induction false} ScanDeletesOnlySpaces(s: string, st: ScanState)
    ensures SpacesDeleted(Scan(s, st), s)
  {
    if s != [] {
      ScanDeletesOnlySpaces(s[1..], Next(st, s[0]));
      if Keeps(st, s[0]) {
        assert Scan(s, st)[1..] == Scan(s[1..], Next(st, s[0]));
      } else {
        assert Scan(s, st) == Scan(s[1..], Next(st, s[0]));
      }
    }
  }

  /** The normalized text is the input with some spaces deleted, so it is at
      most as long as the input and has the same non-space characters in the
      same order. */
  lemma NormalizeDeletesOnlySpaces(s: string)
    ensures SpacesDeleted(Normalize(s), s)
    ensures |Normalize(s)| <= |s|
    ensures WithoutSpaces(Normalize(s)) == WithoutSpaces(s)
  {
    if IsArrayLiteral(s) {
      ScanDeletesOnlySpaces(s, Start);
    } else {
      SpacesDeletedRefl(s);
    }
    SpacesDeletedKeepsTheRest(Normalize(s), s);
  }

  /** Reading character `i` appends it to what the scanner built from the
      characters before it, unless it is a space read outside a quoted
      substring; the flags then move on by that one character. */
  lemma ScanKeepsExactly(s: string, st: ScanState, i: nat)
    requires i < |s|
    ensures Scan(s[..i + 1], st)
      == Scan(s[..i], st) + (if s[i] == ' ' && !After(s[..i], st).inString then [] else [s[i]])
    ensures After(s[..i + 1], st) == Next(After(s[..i], st), s[i])
  {
    var c := s[i];
    assert s[..i + 1] == s[..i] + [c];
    ScanConcat(s[..i], [c], st);
    assert [c][1..] == [];
  }

  /** Reading `a + b` is reading `a` and then `b` from where `a` left off. */
  lemma {:induction false} ScanConcat(a: string, b: string, st: ScanState)
    ensures Scan(a + b, st) == Scan(a, st) + Scan(b, After(a, st))
    ensures After(a + b, st) == After(b, After(a, st))
  {
    if a != [] {
      var h := if Keeps(st, a[0]) then [a[0]] else [];
      var n := Next(st, a[0]);
      assert (a + b)[0] == a[0] && (a + b)[1..] == a[1..] + b;
      ScanConcat(a[1..], b, n);
      calc {
        Scan(a + b, st);
      ==
        h + Scan(a[1..] + b, n);
      ==
        h + (Scan(a[1..], n) + Scan(b, After(a[1..], n)));
      == { assert h + Scan(a[1..], n) == Scan(a, st); }
        Scan(a, st) + Scan(b, After(a, st));
      }
      assert After(a, st) == After(a[1..], n);
    } else {
      assert a + b == b;
    }
  }

  /** Re-reading the scanner's own output from the same state yields the
      same output and the same final state: a dropped space leaves the
      flags untouched, and every kept character is read in the same state
      both times. */
  lemma {:induction false} ScanIdempotent(s: string, st: ScanState)
    ensures Scan(Scan(s, st), st) == Scan(s, st)
    ensures After(Scan(s, st), st) == After(s, st)
  {
    if s != [] {
      var c, st' := s[0], Next(st, s[0]);
      ScanIdempotent(s[1..], st');
      if Keeps(st, c) {
        var out := Scan(s, st);
        assert out == [c] + Scan(s[1..], st');
        assert out[1..] == Scan(s[1..], st');
      } else {
        assert st' == st;
        assert Scan(s, st) == Scan(s[1..], st);
      }
    }
  }

  lemma {:induction false} ScanKeepsEnds(s: string, st: ScanState)
    requires |s| >= 2 && s[0] != ' ' && s[|s| - 1] != ' '
    ensures var r := Scan(s, st); |r| >= 2 && r[0] == s[0] && r[|r| - 1] == s[|s| - 1]
  {
    var body, last := s[..|s| - 1], s[|s| - 1..];
    assert s == body + last;
    ScanConcat(body, last, st);
    assert Scan(last, After(body, st)) == [s[|s| - 1]];
    assert Scan(body, st)[0] == s[0];
  }

  /** `normalize_array_string` is idempotent. */
  lemma NormalizeIdempotent(s: string)
    ensures Normalize(Normalize(s)) == Normalize(s)
  {
    if IsArrayLiteral(s) {
      ScanIdempotent(s, Start);
      if |s| >= 2 {
        ScanKeepsEnds(s, Start);
      }
    }
  }

  /** Lower-casing leaves quotes, backslashes, spaces and brackets alone, so
      it commutes with the scanner. */
  lemma {:induction false} ScanLower(s: string, st: ScanState)
    ensures Scan(Lower(s), st) == Lower(Scan(s, st))
    ensures After(Lower(s), st) == After(s, st)
  {
    if s != [] {
      var c := s[0];
      var n := Next(st, c);
      var kept := if Keeps(st, c) then [c] else [];
      assert Lower(s)[0] == LowerChar(c) && Lower(s)[1..] == Lower(s[1..]);
      assert Next(st, LowerChar(c)) == n && Keeps(st, LowerChar(c)) == Keeps(st, c);
      ScanLower(s[1..], n);
      calc {
        Scan(Lower(s), st);
        (if Keeps(st, c) then [LowerChar(c)] else []) + Scan(Lower(s[1..]), n);
        { assert Lower(kept) == if Keeps(st, c) then [LowerChar(c)] else []; }
        Lower(kept) + Lower(Scan(s[1..], n));
        { LowerConcat(kept, Scan(s[1..], n)); }
        Lower(kept + Scan(s[1..], n));
      }
      assert After(Lower(s), st) == After(Lower(s[1..]), n);
    }
  }

  /** Normalizing lower-cased text equals lower-casing normalized text. */
  lemma NormalizeLower(s: string)
    ensures Normalize(Lower(s)) == Lower(Normalize(s))
  {
    ScanLower(s, Start);
  }

  /** Text without quotes keeps the scanner outside strings throughout, so
      every space in it is deleted. */
  lemma {:induction false} ScanUnquoted(t: string)
    requires forall i :: 0 <= i < |t| ==> !IsQuote(t[i])
    ensures Scan(t, Start) == WithoutSpaces(t)
    ensures After(t, Start) == Start
  {
    if t != [] {
      ScanUnquoted(t[1..]);
    }
  }

  /** Without quotes, normalizing an array literal deletes all its spaces. */
  lemma NormalizeUnquoted(t: string)
    requires forall i :: 0 <= i < |t| ==> !IsQuote(t[i])
    ensures Normalize(t) == if IsArrayLiteral(t) then WithoutSpaces(t) else t
  {
    ScanUnquoted(t);
  }

  /** Text without spaces has nothing for `WithoutSpaces` to delete. */
  lemma {:induction false} WithoutSpacesKeeps(s: string)
    requires ' ' !in s
    ensures WithoutSpaces(s) == s
  {
    if s != [] {
      assert s == [s[0]] + s[1..];
      WithoutSpacesKeeps(s[1..]);
    }
  }

  /** Inside a string, text without quotes or backslashes is kept whole and
      leaves the scanner inside the string. */

  lemma {:induction false} ScanQuotedBody(t: string)
    requires forall i :: 0 <= i < |t| ==> !IsQuote(t[i]) && t[i] != '\\'
    ensures Scan(t, ScanState(true, false)) == t
    ensures After(t, ScanState(true, false)) == ScanState(true, false)
  {
    if t != [] {
      ScanQuotedBody(t[1..]);
      assert [t[0]] + t[1..] == t;
    }
  }

  /** An array literal with one quoted element: the spaces outside the quotes
      are deleted and those inside are kept. */
  lemma QuotedSpacesSurvive(u: string, q: string, v: string)
    requires forall i :: 0 <= i < |u| ==> !IsQuote(u[i])
    requires forall i :: 0 <= i < |v| ==> !IsQuote(v[i])
    requires forall i :: 0 <= i < |q| ==> !IsQuote(q[i]) && q[i] != '\\'
    ensures Normalize("[" + u + "\"" + q + "\"" + v + "]")
         == "[" + WithoutSpaces(u) + "\"" + q + "\"" + WithoutSpaces(v) + "]"
  {
    var a, b, d := "[" + u, "\"", v + "]";
    UnquotedAround(u, v);
    ScanUnquoted(a);
    ScanQuotedBody(q);
    ScanUnquoted(d);
    QuoteToggles();
    ScanFive(a, b, q, d, WithoutSpaces(a), WithoutSpaces(d));
    WithoutSpacesConcat("[", u);
    WithoutSpacesConcat(v, "]");
    QuotedLayout(u, q, v);
  }

  lemma UnquotedAround(u: string, v: string)
    requires forall i :: 0 <= i < |u| ==> !IsQuote(u[i])
    requires forall i :: 0 <= i < |v| ==> !IsQuote(v[i])
    ensures forall i :: 0 <= i < |"[" + u| ==> !IsQuote(("[" + u)[i])
    ensures forall i :: 0 <= i < |v + "]"| ==> !IsQuote((v + "]")[i])
  {
    var a, d := "[" + u, v + "]";
    forall i | 0 <= i < |a| ensures !IsQuote(a[i]) {
      if i > 0 { assert a[i] == u[i - 1]; }
    }
    forall i | 0 <= i < |d| ensures !IsQuote(d[i]) {
      if i < |v| { assert d[i] == v[i]; }
    }
  }

  /** A quote opens a string from outside and closes it from inside. */
  lemma QuoteToggles()
    ensures Scan("\"", Start) == "\"" && After("\"", Start) == ScanState(true, false)
    ensures Scan("\"", ScanState(true, false)) == "\"" && After("\"", ScanState(true, false)) == Start
  {
  }

  lemma QuotedLayout(u: string, q: string, v: string)
    ensures var x := ("[" + u) + "\"" + q + "\"" + (v + "]");
      && "[" + u + "\"" + q + "\"" + v + "]" == x
      && IsArrayLiteral(x)
  {
  }

  /** Scanning a quoted section between two unquoted parts. */
  lemma ScanFive(a: string, b: string, q: string, d: string, sa: string, sd: string)
    requires Scan(a, Start) == sa && After(a, Start) == Start
    requires Scan(b, Start) == b && After(b, Start) == ScanState(true, false)
    requires Scan(q, ScanState(true, false)) == q && After(q, ScanState(true, false)) == ScanState(true, false)
    requires Scan(b, ScanState(true, false)) == b && After(b, ScanState(true, false)) == Start
    requires Scan(d, Start) == sd
    ensures Scan(a + b + q + b + d, Start) == sa + b + q + b + sd
  {
    ScanConcat(a, b, Start);
    ScanConcat(a + b, q, Start);
    ScanConcat(a + b + q, b, Start);
    ScanConcat(a + b + q + b, d, Start);
  }

  lemma {:induction false} WithoutSpacesConcat(a: string, b: string)
    ensures WithoutSpaces(a + b) == WithoutSpaces(a) + WithoutSpaces(b)
  {
    if a != [] {
      var h := if a[0] == ' ' then [] else [a[0]];
      calc {
        WithoutSpaces(a + b);
      == { assert (a + b)[0] == a[0]; assert (a + b)[1..] == a[1..] + b; }
        h + WithoutSpaces(a[1..] + b);
      == { WithoutSpacesConcat(a[1..], b); }
        h + (WithoutSpaces(a[1..]) + WithoutSpaces(b));
      == { assert h + WithoutSpaces(a[1..]) == WithoutSpaces(a); }
        WithoutSpaces(a) + WithoutSpaces(b);
      }
    } else {
      assert a + b == b;
    }
  }

  /** Inside a string, a quote right after a backslash does not end the
      string: the spaces after it are still read as quoted and kept. */
  lemma EscapedQuoteStaysQuoted(x: string, y: string)
    requires forall i :: 0 <= i < |x| ==> !IsQuote(x[i]) && x[i] != '\\'
    requires forall i :: 0 <= i < |y| ==> !IsQuote(y[i]) && y[i] != '\\'
    ensures var s := "[\"" + x + "\\\"" + y + "\"]"; Normalize(s) == s
  {
    var inside := ScanState(true, false);
    var open, escaped, close := "[\"", "\\\"", "\"]";
    BracketQuote();
    ScanQuotedBody(x);
    ScanQuotedBody(y);
    EscapedQuote();
    ScanJoin(open, x, Start, inside, open, x, inside);
    ScanJoin(open + x, escaped, Start, inside, open + x, escaped, inside);
    ScanJoin(open + x + escaped, y, Start, inside, open + x + escaped, y, inside);
    ScanJoin(open + x + escaped + y, close, Start, inside, open + x + escaped + y, close, Start);
    var s := open + x + escaped + y + close;
    assert s[0] == '[' && s[|s| - 1] == ']';
  }

  /** `"` and `'` toggle the same flag: a `'` inside a `"`-quoted string
      ends it, and the spaces after it are deleted. */
  lemma MixedQuotesShareOneFlag(x: string, y: string)
    requires forall i :: 0 <= i < |x| ==> !IsQuote(x[i]) && x[i] != '\\'
    requires forall i :: 0 <= i < |y| ==> !IsQuote(y[i])
    ensures Normalize("[\"" + x + "'" + y + "\"]") == "[\"" + x + "'" + WithoutSpaces(y) + "\"]"
  {
    var t := "[\"" + x + "'" + y;
    ClosedBySingleQuote(x, y);
    QuoteBracketAfter(t, "[\"" + x + "'" + WithoutSpaces(y));
  }

  /** `"]` read outside a string opens one and keeps both characters. */
  lemma QuoteBracketAfter(t: string, r: string)
    requires |t| > 0 && t[0] == '['
    requires Scan(t, Start) == r && After(t, Start) == Start
    ensures Normalize(t + "\"]") == r + "\"]"
  {
    BracketQuote();
    ScanJoin(t, "\"]", Start, Start, r, "\"]", ScanState(true, false));
    var s := t + "\"]";
    assert s[0] == '[' && s[|s| - 1] == ']';
  }

  /** After `["x'` the string is closed again, and the spaces of `y` go. */
  lemma ClosedBySingleQuote(x: string, y: string)
    requires forall i :: 0 <= i < |x| ==> !IsQuote(x[i]) && x[i] != '\\'
    requires forall i :: 0 <= i < |y| ==> !IsQuote(y[i])
    ensures Scan("[\"" + x + "'" + y, Start) == "[\"" + x + "'" + WithoutSpaces(y)
    ensures After("[\"" + x + "'" + y, Start) == Start
  {
    var inside := ScanState(true, false);
    var open := "[\"";
    OpenedString(x);
    SingleQuoteCloses();
    ScanJoin(open + x, "'", Start, inside, open + x, "'", Start);
    ScanUnquoted(y);
    ScanJoin(open + x + "'", y, Start, Start, open + x + "'", WithoutSpaces(y), Start);
  }

  /** `["x` leaves the scanner inside a string, with `x` copied. */
  lemma OpenedString(x: string)
    requires forall i :: 0 <= i < |x| ==> !IsQuote(x[i]) && x[i] != '\\'
    ensures Scan("[\"" + x, Start) == "[\"" + x && After("[\"" + x, Start) == ScanState(true, false)
  {
    BracketQuote();
    ScanQuotedBody(x);
    ScanJoin("[\"", x, Start, ScanState(true, false), "[\"", x, ScanState(true, false));
  }

  /** Scanning `a` then `b`, given what each does on its own. */
  lemma ScanJoin(a: string, b: string, st: ScanState, mid: ScanState,
                 ra: string, rb: string, last: ScanState)
    requires Scan(a, st) == ra && After(a, st) == mid
    requires Scan(b, mid) == rb && After(b, mid) == last
    ensures Scan(a + b, st) == ra + rb && After(a + b, st) == last
  {
    ScanConcat(a, b, st);
  }

  /** `[` then `"` opens a string; `"` then `]` closes one. */
  lemma BracketQuote()
    ensures Scan("[\"", Start) == "[\"" && After("[\"", Start) == ScanState(true, false)
    ensures Scan("\"]", ScanState(true, false)) == "\"]" && After("\"]", ScanState(true, false)) == Start
    ensures Scan("\"]", Start) == "\"]" && After("\"]", Start) == ScanState(true, false)
  {
  }

  lemma EscapedQuote()
    ensures Scan("\\\"", ScanState(true, false)) == "\\\""
    ensures After("\\\"", ScanState(true, false)) == ScanState(true, false)
  {
  }

  lemma SingleQuoteCloses()
    ensures Scan("'", ScanState(true, false)) == "'" && After("'", ScanState(true, false)) == Start
  {
  }
}
