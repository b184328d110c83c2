/** Character-level string routines the bot relies on: Python's `str.isspace`,
    `str.strip`, `str.lower`, `str.title` and `str.splitlines`. */
module Text {

  /** Python's `str.isspace` for one character: the characters of Unicode
      category Zs and the bidirectional classes B, S and WS. */
  predicate IsSpace(c: char) {
    || ('\t' <= c <= '\r')
    || ('\U{1C}' <= c <= ' ')
    || c == '\U{85}' || c == '\U{A0}' || c == '\U{1680}'
    || ('\U{2000}' <= c <= '\U{200A}')
    || c == '\U{2028}' || c == '\U{2029}' || c == '\U{202F}' || c == '\U{205F}'
    || c == '\U{3000}'
  }

  /** The characters at which Python's `str.splitlines` breaks a line. */
  predicate IsLineBreak(c: char) {
    || c == '\n' || c == '\r' || c == '\U{0B}' || c == '\U{0C}'
    || ('\U{1C}' <= c <= '\U{1E}')
    || c == '\U{85}' || c == '\U{2028}' || c == '\U{2029}'
  }

  /** `s.lstrip()`: the suffix left after dropping leading white space. */
  function TrimStart(s: string): (r: string)
    ensures |r| <= |s|
  {
    if s != [] && IsSpace(s[0]) then TrimStart(s[1..]) else s
  }

  /** `s.rstrip()`: the prefix left after dropping trailing white space. */
  function TrimEnd(s: string): (r: string)
    ensures |r| <= |s|
  {
    if s != [] && IsSpace(s[|s| - 1]) then TrimEnd(s[..|s| - 1]) else s
  }

  /** `lstrip()` removes exactly the leading white space. */
  lemma {:induction false} TrimStartRemovesSpace(s: string)
    ensures var r := TrimStart(s);
      && r == s[|s| - |r|..]
      && (forall i :: 0 <= i < |s| - |r| ==> IsSpace(s[i]))
      && (r != [] ==> !IsSpace(r[0]))
  {
    if s != [] && IsSpace(s[0]) {
      TrimStartRemovesSpace(s[1..]);
    }
  }

  /** `rstrip()` removes exactly the trailing white space. */
  lemma {:induction false} TrimEndRemovesSpace(s: string)
    ensures var r := TrimEnd(s);
      && r == s[..|r|]
      && (forall i :: |r| <= i < |s| ==> IsSpace(s[i]))
      && (r != [] ==> !IsSpace(r[|r| - 1]))
  {
    if s != [] && IsSpace(s[|s| - 1]) {
      TrimEndRemovesSpace(s[..|s| - 1]);
    }
  }

  /** `s.strip()`. */
  function Strip(s: string): string {
    TrimEnd(TrimStart(s))
  }

  /** What `s.strip()` leaves: an infix of `s`, with white space alone around
      it, that neither starts nor ends with white space. */
  lemma StripIsTrimmedInfix(s: string)
    ensures var i, r := |s| - |TrimStart(s)|, Strip(s);
      && i + |r| <= |s| && r == s[i..i + |r|]
      && (forall k :: 0 <= k < i ==> IsSpace(s[k]))
      && (forall k :: i + |r| <= k < |s| ==> IsSpace(s[k]))
      && (r != [] ==> !IsSpace(r[0]) && !IsSpace(r[|r| - 1]))
  {
    var t := TrimStart(s);
    var r := TrimEnd(t);
    var i := |s| - |t|;
    TrimStartRemovesSpace(s);
    TrimEndRemovesSpace(t);
    assert r == s[i..i + |r|];
    SpaceAfterInfix(s, t, i, |r|);
    if r != [] {
      assert r[0] == t[0];
    }
  }

  lemma SpaceAfterInfix(s: string, t: string, i: nat, n: nat)
    requires i + |t| == |s| && t == s[i..] && n <= |t|
    requires forall j :: n <= j < |t| ==> IsSpace(t[j])
    ensures forall k :: i + n <= k < |s| ==> IsSpace(s[k])
  {
    forall k | i + n <= k < |s| ensures IsSpace(s[k]) {
      assert s[k] == t[k - i];
    }
  }

  /** Stripping twice strips nothing more. */
  lemma StripIdempotent(s: string)
    ensures Strip(Strip(s)) == Strip(s)
  {
    var r := Strip(s);
    StripIsTrimmedInfix(s);
    assert TrimStart(r) == r;
    assert TrimEnd(r) == r;
  }

  /** Leading white space before a core that neither starts nor ends with
      white space is all that `strip()` removes. */
  lemma StripPadded(pad: string, core: string)
    requires forall k :: 0 <= k < |pad| ==> IsSpace(pad[k])
    requires core != [] ==> !IsSpace(core[0]) && !IsSpace(core[|core| - 1])
    ensures Strip(pad + core) == core
  {
    TrimStartPadded(pad, core);
  }

  lemma {:induction false} TrimStartPadded(pad: string, core: string)
    requires forall k :: 0 <= k < |pad| ==> IsSpace(pad[k])
    requires core != [] ==> !IsSpace(core[0])
    ensures TrimStart(pad + core) == core
  {
    if pad == [] {
      assert pad + core == core;
    } else {
      assert (pad + core)[1..] == pad[1..] + core;
      TrimStartPadded(pad[1..], core);
    }
  }

  function LowerChar(c: char): char {
    if 'A' <= c <= 'Z' then (c as int + 32) as char else c
  }

  function UpperChar(c: char): char {
    if 'a' <= c <= 'z' then (c as int - 32) as char else c
  }

  predicate IsCased(c: char) {
    ('A' <= c <= 'Z') || ('a' <= c <= 'z')
  }

  /** `s.lower()` on the ASCII letters; every other character is kept. */
  function Lower(s: string): (r: string)
    ensures |r| == |s|
    ensures forall i :: 0 <= i < |s| ==> r[i] == LowerChar(s[i])
  {
    if s == [] then [] else [LowerChar(s[0])] + Lower(s[1..])
  }

  /** `lower()` works character by character, so it distributes over `+`. */
  lemma LowerAppend(a: string, b: string)
    ensures Lower(a + b) == Lower(a) + Lower(b)
  {
    var l, r := Lower(a + b), Lower(a) + Lower(b);
    assert |l| == |r|;
    forall i | 0 <= i < |l| ensures l[i] == r[i] {
      if i < |a| { assert (a + b)[i] == a[i]; } else { assert (a + b)[i] == b[i - |a|]; }
    }
  }

  /** `s.title()` on ASCII text: a letter that follows a non-letter (or starts
      the string) is upper-cased, every other letter lower-cased. */
  function Title(s: string): (r: string)
    ensures |r| == |s|
  {
    TitleAfter(s, false)
  }

  /** `Title` of the rest of a string whose previous character was a letter
      (`afterLetter`) or was not. */
  function TitleAfter(s: string, afterLetter: bool): (r: string)
    ensures |r| == |s|
  {
    if s == [] then []
    else [if afterLetter then LowerChar(s[0]) else UpperChar(s[0])] + TitleAfter(s[1..], IsCased(s[0]))
  }

  predicate IsLowerWord(w: string) {
    forall k :: 0 <= k < |w| ==> 'a' <= w[k] <= 'z'
  }

  /** A lower-case word keeps its letters and has only its first one raised. */
  lemma {:induction false} TitleAfterLowerWord(w: string)
    requires IsLowerWord(w)
    ensures TitleAfter(w, true) == w
    ensures w != [] ==> TitleAfter(w, false) == [UpperChar(w[0])] + w[1..]
  {
    if w != [] {
      TitleAfterLowerWord(w[1..]);
    }
  }

  /** `Title` works left to right: a split point only passes on whether the
      character before it was a letter. */
  lemma {:induction false} TitleAfterAppend(a: string, b: string, afterLetter: bool)
    ensures TitleAfter(a + b, afterLetter)
      == TitleAfter(a, afterLetter) + TitleAfter(b, if a == [] then afterLetter else IsCased(a[|a| - 1]))
  {
    if a == [] {
      assert a + b == b;
    } else {
      var ab, t := a + b, a[1..];
      assert ab[0] == a[0] && ab[1..] == t + b;
      TitleAfterAppend(t, b, IsCased(a[0]));
      if t != [] {
        assert t[|t| - 1] == a[|a| - 1];
      }
    }
  }

  /** `title()` of two lower-case words joined by a space raises the first
      letter of each. */
  lemma TitleTwoWords(a: string, b: string)
    requires a != [] && b != [] && IsLowerWord(a) && IsLowerWord(b)
    ensures Title(a + " " + b) == [UpperChar(a[0])] + a[1..] + " " + [UpperChar(b[0])] + b[1..]
  {
    var sb := " " + b;
    assert a + " " + b == a + sb;
    TitleAfterAppend(a, sb, false);
    TitleAfterLowerWord(a);
    TitleAfterSpace(b);
    TitleAfterLowerWord(b);
  }

  /** A space is not cased, so the word after it starts afresh. */
  lemma TitleAfterSpace(b: string)
    ensures TitleAfter(" " + b, true) == " " + TitleAfter(b, false)
  {
    var sb := " " + b;
    assert sb[0] == ' ' && sb[1..] == b;
  }

  /** The index of the first `c` in `s`, or `|s|` when there is none. */
  function IndexOf(s: string, c: char): (i: nat)
    ensures i <= |s|
    ensures i < |s| ==> s[i] == c
    ensures forall k :: 0 <= k < i ==> s[k] != c
  {
    if s == [] then 0
    else if s[0] == c then 0
    else 1 + IndexOf(s[1..], c)
  }

  /** The index of the first line break in `s`, or `|s|` when there is none. */
  function FirstBreak(s: string): (i: nat)
    ensures i <= |s|
    ensures i < |s| ==> IsLineBreak(s[i])
    ensures forall k :: 0 <= k < i ==> !IsLineBreak(s[k])
  {
    if s == [] then 0
    else if IsLineBreak(s[0]) then 0
    else 1 + FirstBreak(s[1..])
  }

  /** `s.splitlines()`: the lines of `s` without their terminators; "\r\n"
      ends one line, and a final terminator does not start an empty line. */
  function SplitLines(s: string): (lines: seq<string>)
    ensures lines == [] <==> s == []
    ensures forall j, k :: 0 <= j < |lines| && 0 <= k < |lines[j]| ==> !IsLineBreak(lines[j][k])
    decreases |s|
  {
    if s == [] then []
    else
      var i := FirstBreak(s);
      if i == |s| then [s]
      else
        var width := if s[i] == '\r' && i + 1 < |s| && s[i + 1] == '\n' then 2 else 1;
        [s[..i]] + SplitLines(s[i + width..])
  }

  /** Splitting a line off the front: a break-free `a` followed by "\n". */
  lemma SplitLinesCons(a: string, rest: string)
    requires forall k :: 0 <= k < |a| ==> !IsLineBreak(a[k])
    ensures SplitLines(a + "\n" + rest) == [a] + SplitLines(rest)
  {
    var s := a + "\n" + rest;
    assert FirstBreak(s) == |a| by {
      assert s == a + ("\n" + rest);
      assert ("\n" + rest)[0] == '\n';
      FirstBreakAfterClean(a, "\n" + rest);
    }
    assert s[..|a|] == a;
    assert s[|a| + 1..] == rest;
  }

  /** Splitting a line off the front at any of the line boundaries: a
      break-free `a` followed by the boundary `b`. A '\r' counts alone only
      when no '\n' follows it. */
  lemma SplitLinesBreak(a: string, b: char, rest: string)
    requires forall k :: 0 <= k < |a| ==> !IsLineBreak(a[k])
    requires IsLineBreak(b)
    requires b == '\r' ==> rest == [] || rest[0] != '\n'
    ensures SplitLines(a + [b] + rest) == [a] + SplitLines(rest)
  {
    var s := a + [b] + rest;
    assert FirstBreak(s) == |a| by {
      assert s == a + ([b] + rest);
      assert ([b] + rest)[0] == b;
      FirstBreakAfterClean(a, [b] + rest);
    }
    assert s[|a|] == b;
    assert s[..|a|] == a;
    assert s[|a| + 1..] == rest;
    if |a| + 1 < |s| {
      assert s[|a| + 1] == rest[0];
    }
  }

  /** "\r\n" ends one line, not two. */
  lemma SplitLinesCrLf(a: string, rest: string)
    requires forall k :: 0 <= k < |a| ==> !IsLineBreak(a[k])
    ensures SplitLines(a + "\r\n" + rest) == [a] + SplitLines(rest)
  {
    var s := a + "\r\n" + rest;
    assert FirstBreak(s) == |a| by {
      assert s == a + ("\r\n" + rest);
      assert ("\r\n" + rest)[0] == '\r';
      FirstBreakAfterClean(a, "\r\n" + rest);
    }
    assert s[|a|] == '\r' && s[|a| + 1] == '\n';
    assert s[..|a|] == a;
    assert s[|a| + 2..] == rest;
  }

  /** A break-free, non-empty string is one line. */
  lemma SplitLinesSingle(a: string)
    requires a != []
    requires forall k :: 0 <= k < |a| ==> !IsLineBreak(a[k])
    ensures SplitLines(a) == [a]
  {
    FirstBreakAfterClean(a, []);
    assert a + [] == a;
  }

  lemma {:induction false} FirstBreakAfterClean(a: string, b: string)
    requires forall k :: 0 <= k < |a| ==> !IsLineBreak(a[k])
    ensures FirstBreak(a + b) == |a| + FirstBreak(b)
    decreases |a|
  {
    if a != [] {
      assert (a + b)[1..] == a[1..] + b;
      FirstBreakAfterClean(a[1..], b);
    } else {
      assert a + b == b;
    }
  }
}
