/** The Python `str` operations the core relies on, on `seq<char>`:
    whitespace (`str.isspace`, which is also what `str.strip()`,
    `str.split()` and the regular-expression class `\s` use), `strip`,
    `lower` (ASCII letters only), `find`, `split("\n")` and `split()`. */
module Text {

  /** `c.isspace()` in Python 3. */
  predicate IsSpace(c: char)
  {
    ('\t' <= c <= '\r') || ('\U{1C}' <= c <= ' ') || c == '\U{85}' || c == '\U{A0}'
    || c == '\U{1680}' || ('\U{2000}' <= c <= '\U{200A}') || c == '\U{2028}'
    || c == '\U{2029}' || c == '\U{202F}' || c == '\U{205F}' || c == '\U{3000}'
  }

  predicate NoSpaces(s: string)
  {
    forall i :: 0 <= i < |s| ==> !IsSpace(s[i])
  }

  /** No whitespace at either end (what `str.strip()` produces). */
  predicate IsTrimmed(s: string)
  {
    s == [] || (!IsSpace(s[0]) && !IsSpace(s[|s| - 1]))
  }

  /** `s.lstrip()`: the longest suffix of `s` that does not start with whitespace. */
  function TrimStart(s: string): (r: string)
    ensures |r| <= |s|
    ensures r == [] || !IsSpace(r[0])
    ensures forall i :: 0 <= i < |s| - |r| ==> IsSpace(s[i])
  {
    if s != [] && IsSpace(s[0]) then TrimStart(s[1..]) else s
  }

  /** The left-stripped text is a suffix of the original. */
  lemma {:induction false} TrimStartIsSuffix(s: string)
    ensures TrimStart(s) == s[|s| - |TrimStart(s)|..]
  {
    if s != [] && IsSpace(s[0]) {
      TrimStartIsSuffix(s[1..]);
    }
  }

  /** `s.rstrip()`: the longest prefix of `s` that does not end with whitespace. */
  function TrimEnd(s: string): (r: string)
    ensures |r| <= |s|
    ensures r == [] || !IsSpace(r[|r| - 1])
    ensures forall i :: |r| <= i < |s| ==> IsSpace(s[i])
  {
    if s != [] && IsSpace(s[|s| - 1]) then TrimEnd(s[..|s| - 1]) else s
  }

  /** The right-stripped text is a prefix of the original. */
  lemma {:induction false} TrimEndIsPrefix(s: string)
    ensures TrimEnd(s) == s[..|TrimEnd(s)|]
  {
    if s != [] && IsSpace(s[|s| - 1]) {
      TrimEndIsPrefix(s[..|s| - 1]);
    }
  }

  /** `s.strip()`. */
  function Strip(s: string): (r: string)
    ensures IsTrimmed(r)
    ensures |r| <= |s|
  {
    var t := TrimStart(s);
    var r := TrimEnd(t);
    TrimEndIsPrefix(t);
    assert r != [] ==> r[0] == t[0];
    r
  }

  /** Stripping text that has no whitespace at its ends changes nothing. */
  lemma StripTrimmed(s: string)
    requires IsTrimmed(s)
    ensures Strip(s) == s
  {
  }

  predicate AllSpaces(s: string)
  {
    forall i :: 0 <= i < |s| ==> IsSpace(s[i])
  }

  /** A text strips to nothing exactly when it is all whitespace. */
  lemma BlankIffAllSpaces(s: string)
    ensures Strip(s) == [] <==> AllSpaces(s)
  {
    TrimStartIsSuffix(s);
  }

  /** Stripping removes exactly the whitespace around a trimmed core. */
  lemma StripAround(pre: string, core: string, post: string)
    requires AllSpaces(pre) && AllSpaces(post) && IsTrimmed(core) && core != []
    ensures Strip(pre + core + post) == core
  {
    TrimStartSpaces(pre, core + post);
    assert pre + core + post == pre + (core + post);
    TrimEndSpaces(core, post);
  }

  lemma {:induction false} TrimStartSpaces(pre: string, rest: string)
    requires AllSpaces(pre) && (rest == [] || !IsSpace(rest[0]))
    ensures TrimStart(pre + rest) == rest
  {
    if pre == [] {
      assert pre + rest == rest;
    } else {
      assert (pre + rest)[1..] == pre[1..] + rest;
      TrimStartSpaces(pre[1..], rest);
    }
  }

  lemma {:induction false} TrimEndSpaces(rest: string, post: string)
    requires AllSpaces(post) && (rest == [] || !IsSpace(rest[|rest| - 1]))
    ensures TrimEnd(rest + post) == rest
  {
    if post == [] {
      assert rest + post == rest;
    } else {
      var p' := post[..|post| - 1];
      assert (rest + post)[..|rest + post| - 1] == rest + p';
      TrimEndSpaces(rest, p');
    }
  }

  /** `s.lstrip(chars)` for the character set `chars`. */
  function TrimStartChars(s: string, chars: set<char>): (r: string)
    ensures |r| <= |s| && r == s[|s| - |r|..]
    ensures r == [] || r[0] !in chars
  {
    if s != [] && s[0] in chars then TrimStartChars(s[1..], chars) else s
  }

  /** `c.lower()` for ASCII letters; every other character is left alone. */
  function LowerChar(c: char): char
  {
    if 'A' <= c <= 'Z' then (c as int + 32) as char else c
  }

  /** `s.lower()`, character by character. */
  function Lower(s: string): (r: string)
    ensures |r| == |s|
    ensures forall i :: 0 <= i < |s| ==> r[i] == LowerChar(s[i])
  {
    seq(|s|, i requires 0 <= i < |s| => LowerChar(s[i]))
  }

  lemma {:induction false} LowerIdempotent(s: string)
    ensures Lower(Lower(s)) == Lower(s)
  {
    forall i | 0 <= i < |s|
      ensures Lower(Lower(s))[i] == Lower(s)[i]
    {
      var c := s[i];
      assert Lower(s)[i] == LowerChar(c);
      if 'A' <= c <= 'Z' {
        assert 'a' <= LowerChar(c) <= 'z';
      }
    }
  }

  lemma LowerConcat(a: string, b: string)
    ensures Lower(a + b) == Lower(a) + Lower(b)
  {
  }

  /** `pat` occurs in `s` starting at index `i`. */
  predicate OccursAt(s: string, pat: string, i: int)
  {
    0 <= i && i + |pat| <= |s| && s[i..i + |pat|] == pat
  }

  /** `find` from `b` gives `e` when the pattern occurs at `e` and nowhere
      between. */
  lemma FindFromAt(s: string, pat: string, b: nat, e: nat)
    requires |pat| > 0 && b <= e && OccursAt(s, pat, e)
    requires forall i :: b <= i < e ==> !OccursAt(s, pat, i)
    ensures FindFrom(s, pat, b) == e
  {
  }

  /** A slice of a slice is a slice of the whole. */
  lemma SliceOfSlice(s: string, b: nat, e: nat, lo: nat, hi: nat)
    requires b <= e <= |s| && lo <= hi <= e - b
    ensures s[b..e][lo..hi] == s[b + lo..b + hi]
  {
    var x, y := s[b..e][lo..hi], s[b + lo..b + hi];
    forall m | 0 <= m < |x| ensures x[m] == y[m] {
      assert x[m] == s[b..e][lo + m] == s[b + lo + m];
    }
  }

  /** A pattern can only start at a position holding its first character. */
  lemma NoOccurrenceWithout(s: string, pat: string, lo: nat, hi: nat)
    requires |pat| > 0 && hi <= |s|
    requires forall i :: lo <= i < hi ==> s[i] != pat[0]
    ensures forall i :: lo <= i < hi ==> !OccursAt(s, pat, i)
  {
    forall i | lo <= i < hi ensures !OccursAt(s, pat, i) {
      if i + |pat| <= |s| {
        assert s[i..i + |pat|][0] == s[i];
      }
    }
  }

  /** `pat in s`. */
  predicate Contains(s: string, pat: string)
  {
    exists i | 0 <= i <= |s| :: OccursAt(s, pat, i)
  }

  /** `s.find(pat, start)` for a non-empty `pat`: the leftmost occurrence at
      or after `start`, or -1 when there is none. */
  function FindFrom(s: string, pat: string, start: nat): (r: int)
    requires |pat| > 0
    ensures r == -1 || (start <= r && OccursAt(s, pat, r))
    ensures r == -1 ==> forall i :: start <= i ==> !OccursAt(s, pat, i)
    ensures r != -1 ==> forall i :: start <= i < r ==> !OccursAt(s, pat, i)
    decreases |s| - start
  {
    if start + |pat| > |s| then -1
    else if s[start..start + |pat|] == pat then start
    else FindFrom(s, pat, start + 1)
  }

  /** `s.find(pat)`. */
  function Find(s: string, pat: string): (r: int)
    requires |pat| > 0
    ensures r == -1 <==> !Contains(s, pat)
    ensures r != -1 ==> OccursAt(s, pat, r) && forall i :: 0 <= i < r ==> !OccursAt(s, pat, i)
  {
    FindFrom(s, pat, 0)
  }

  /** Python's slice `s[lo:hi]` for `0 <= lo, hi <= |s|`: empty when `lo >= hi`. */
  function Slice(s: string, lo: nat, hi: nat): (r: string)
    requires lo <= |s| && hi <= |s|
    ensures lo <= hi ==> r == s[lo..hi]
    ensures hi < lo ==> r == []
  {
    if lo <= hi then s[lo..hi] else []
  }

  /** `s.split(sep)` for a one-character separator: always at least one part,
      and no part contains the separator. */
  function SplitOn(s: string, sep: char): (r: seq<string>)
    ensures |r| >= 1
    ensures forall k :: 0 <= k < |r| ==> sep !in r[k]
  {
    if s == [] then [[]]
    else if s[0] == sep then [[]] + SplitOn(s[1..], sep)
    else
      var rest := SplitOn(s[1..], sep);
      [[s[0]] + rest[0]] + rest[1..]
  }

  /** `sep.join(parts)` for a one-character separator. */
  function JoinWith(parts: seq<string>, sep: char): string
  {
    if |parts| == 0 then []
    else if |parts| == 1 then parts[0]
    else parts[0] + [sep] + JoinWith(parts[1..], sep)
  }

  /** Splitting undoes joining when no part contains the separator. */
  lemma {:induction false} SplitJoin(parts: seq<string>, sep: char)
    requires |parts| >= 1
    requires forall k :: 0 <= k < |parts| ==> sep !in parts[k]
    ensures SplitOn(JoinWith(parts, sep), sep) == parts
  {
    if |parts| == 1 {
      SplitNoSep(parts[0], sep);
    } else {
      SplitJoin(parts[1..], sep);
      SplitPrefix(parts[0], JoinWith(parts[1..], sep), sep);
    }
  }

  lemma {:induction false} SplitNoSep(s: string, sep: char)
    requires sep !in s
    ensures SplitOn(s, sep) == [s]
  {
    if s != [] {
      assert s[0] != sep;
      SplitNoSep(s[1..], sep);
      assert [s[0]] + s[1..] == s;
    }
  }

  lemma {:induction false} SplitPrefix(w: string, rest: string, sep: char)
    requires sep !in w
    ensures SplitOn(w + [sep] + rest, sep) == [w] + SplitOn(rest, sep)
  {
    if w == [] {
      assert w + [sep] + rest == [sep] + rest;
      assert ([sep] + rest)[1..] == rest;
    } else {
      assert (w + [sep] + rest)[1..] == w[1..] + [sep] + rest;
      SplitPrefix(w[1..], rest, sep);
      assert [w[0]] + w[1..] == w;
    }
  }

  /** The length of the leading run of non-whitespace characters. */
  function NonSpaceRun(s: string): (n: nat)
    ensures n <= |s|
    ensures forall i :: 0 <= i < n ==> !IsSpace(s[i])
    ensures n == |s| || IsSpace(s[n])
  {
    if s == [] || IsSpace(s[0]) then 0 else 1 + NonSpaceRun(s[1..])
  }

  /** `s.split()`: the maximal runs of non-whitespace characters, in order. */
  function Words(s: string): (r: seq<string>)
    ensures forall k :: 0 <= k < |r| ==> r[k] != [] && NoSpaces(r[k])
    decreases |s|
  {
    if s == [] then []
    else if IsSpace(s[0]) then Words(s[1..])
    else
      var n := NonSpaceRun(s);
      [s[..n]] + Words(s[n..])
  }

  /** `" ".join(s.split())`: whitespace runs collapsed to one space, ends stripped. */
  function Collapse(s: string): string
  {
    JoinWith(Words(s), ' ')
  }

  /** Splitting on whitespace undoes joining with single spaces when every
      part is a non-empty run of non-whitespace. */
  lemma {:induction false} WordsOfJoin(ws: seq<string>)
    requires forall k :: 0 <= k < |ws| ==> ws[k] != [] && NoSpaces(ws[k])
    ensures Words(JoinWith(ws, ' ')) == ws
  {
    if |ws| == 0 {
    } else if |ws| == 1 {
      WordsOfWord(ws[0]);
    } else {
      var w, rest := ws[0], JoinWith(ws[1..], ' ');
      var s := w + [' '] + rest;
      assert s[0] == w[0];
      NonSpaceRunPrefix(w, [' '] + rest);
      assert s == w + ([' '] + rest);
      assert s[..|w|] == w;
      assert s[|w|..] == [' '] + rest;
      assert ([' '] + rest)[1..] == rest;
      WordsOfJoin(ws[1..]);
    }
  }

  lemma {:induction false} WordsOfWord(w: string)
    requires w != [] && NoSpaces(w)
    ensures Words(w) == [w]
  {
    NonSpaceRunPrefix(w, []);
    assert w + [] == w;
  }

  lemma {:induction false} NonSpaceRunPrefix(w: string, t: string)
    requires NoSpaces(w)
    requires t == [] || IsSpace(t[0])
    ensures NonSpaceRun(w + t) == |w|
  {
    if w != [] {
      assert (w + t)[1..] == w[1..] + t;
      NonSpaceRunPrefix(w[1..], t);
    }
  }

  /** Collapsing whitespace twice is the same as collapsing it once. */
  lemma CollapseIdempotent(s: string)
    ensures Collapse(Collapse(s)) == Collapse(s)
  {
    WordsOfJoin(Words(s));
  }

  /** Every whitespace character is a single space standing between two
      non-whitespace characters. */
  predicate SingleSpaced(r: string)
  {
    forall i :: 0 <= i < |r| && IsSpace(r[i]) ==> r[i] == ' ' && 0 < i < |r| - 1 && !IsSpace(r[i + 1])
  }

  /** Collapsed text has no whitespace at its ends and no whitespace other
      than single spaces between words. */
  lemma {:induction false} CollapseShape(ws: seq<string>)
    requires forall k :: 0 <= k < |ws| ==> ws[k] != [] && NoSpaces(ws[k])
    ensures IsTrimmed(JoinWith(ws, ' '))
    ensures SingleSpaced(JoinWith(ws, ' '))
  {
    if |ws| > 1 {
      CollapseShape(ws[1..]);
      var w, rest := ws[0], JoinWith(ws[1..], ' ');
      var r := w + [' '] + rest;
      assert rest != [] by { JoinNonEmpty(ws[1..]); }
      forall i | 0 <= i < |r| && IsSpace(r[i])
        ensures r[i] == ' ' && 0 < i < |r| - 1 && !IsSpace(r[i + 1])
      {
        if i < |w| {
          assert false;
        } else if i == |w| {
          assert r[i + 1] == rest[0] == ws[1][0];
          assert !IsSpace(ws[1][0]);
        } else {
          var j := i - |w| - 1;
          assert r[i] == rest[j];
          assert IsSpace(rest[j]);
          assert SingleSpaced(rest);
          assert rest[j] == ' ' && 0 < j < |rest| - 1 && !IsSpace(rest[j + 1]);
          assert r[i + 1] == rest[j + 1];
        }
      }
    }
  }

  lemma {:induction false} JoinNonEmpty(ws: seq<string>)
    requires |ws| >= 1 && ws[0] != []
    ensures JoinWith(ws, ' ') != [] && JoinWith(ws, ' ')[0] == ws[0][0]
  {
  }
}
