/**
 The string operations the watcher relies on, stated over `seq<char>`:
 Python's `str.strip()`, `str.lower()`, `str.endswith()`, the line stream a
 text-mode file yields, and `'\n'.join(...)` with its inverse `str.split('\n')`.
 */
module Text {

  /** The characters Python's `str.isspace()` accepts, which is the set `str.strip()` removes. */
  predicate IsWhitespace(c: char) {
    var n := c as int;
    (9 <= n <= 13) || (28 <= n <= 32) || n == 0x85 || n == 0xA0 || n == 0x1680
    || (0x2000 <= n <= 0x200A) || n == 0x2028 || n == 0x2029 || n == 0x202F
    || n == 0x205F || n == 0x3000
  }

  /** `s.lstrip()`. */
  function TrimStart(s: string): string {
    if s != [] && IsWhitespace(s[0]) then TrimStart(s[1..]) else s
  }

  /** `s.rstrip()`. */
  function TrimEnd(s: string): string {
    if s != [] && IsWhitespace(s[|s| - 1]) then TrimEnd(s[..|s| - 1]) else s
  }

  /** `s.strip()`. */
  function Strip(s: string): string {
    TrimEnd(TrimStart(s))
  }

  /** `lstrip` removes the longest all-whitespace prefix: what remains is a suffix that does not start with whitespace. */
  lemma {:induction false} TrimStartSpec(s: string)
    ensures |TrimStart(s)| <= |s| && TrimStart(s) == s[|s| - |TrimStart(s)|..]
    ensures forall i :: 0 <= i < |s| - |TrimStart(s)| ==> IsWhitespace(s[i])
    ensures TrimStart(s) != [] ==> !IsWhitespace(TrimStart(s)[0])
    decreases |s|
  {
    if s != [] && IsWhitespace(s[0]) {
      TrimStartSpec(s[1..]);
    }
  }

  /** `rstrip` removes the longest all-whitespace suffix: what remains is a prefix that does not end with whitespace. */
  lemma {:induction false} TrimEndSpec(s: string)
    ensures |TrimEnd(s)| <= |s| && TrimEnd(s) == s[..|TrimEnd(s)|]
    ensures forall i :: |TrimEnd(s)| <= i < |s| ==> IsWhitespace(s[i])
    ensures TrimEnd(s) != [] ==> !IsWhitespace(TrimEnd(s)[|TrimEnd(s)| - 1])
    decreases |s|
  {
    if s != [] && IsWhitespace(s[|s| - 1]) {
      TrimEndSpec(s[..|s| - 1]);
    }
  }

  /** `strip` leaves a slice of its input that neither starts nor ends with whitespace. */
  lemma StripSpec(s: string)
    ensures |Strip(s)| <= |s|
    ensures Strip(s) != [] ==> !IsWhitespace(Strip(s)[0]) && !IsWhitespace(Strip(s)[|Strip(s)| - 1])
    ensures exists i, j :: 0 <= i <= j <= |s| && Strip(s) == s[i..j]
  {
    var t := TrimStart(s);
    TrimStartSpec(s);
    TrimEndSpec(t);
    assert TrimEnd(t) != [] ==> TrimEnd(t)[0] == t[0];
    var i := |s| - |t|;
    assert Strip(s) == s[i..i + |Strip(s)|];
  }

  /** A line or paragraph is blank when `strip()` leaves nothing, i.e. when `if x.strip():` is false. */
  predicate IsBlank(s: string) {
    Strip(s) == []
  }

  /** Blank means: made of whitespace only (the empty string included). */
  lemma BlankIffAllWhitespace(s: string)
    ensures IsBlank(s) <==> forall i :: 0 <= i < |s| ==> IsWhitespace(s[i])
  {
    var t := TrimStart(s);
    TrimStartSpec(s);
    TrimEndSpec(t);
    if !forall i :: 0 <= i < |s| ==> IsWhitespace(s[i]) {
      var i :| 0 <= i < |s| && !IsWhitespace(s[i]);
      assert |s| - |t| <= i;
      assert t[i - (|s| - |t|)] == s[i];
    }
  }

  /** A string holding a character other than whitespace is not blank. */
  lemma NotBlankWhenVisible(s: string, i: nat)
    requires i < |s| && !IsWhitespace(s[i])
    ensures !IsBlank(s) && s != []
  {
    BlankIffAllWhitespace(s);
  }

  /** ASCII case folding, as `str.lower()` does for ASCII letters. */
  function LowerChar(c: char): char {
    if 'A' <= c <= 'Z' then (c as int - 'A' as int + 'a' as int) as char else c
  }

  /** `s.lower()`, character by character. */
  function Lower(s: string): (r: string)
    ensures |r| == |s|
    ensures forall i :: 0 <= i < |s| ==> r[i] == LowerChar(s[i])
  {
    if s == [] then [] else [LowerChar(s[0])] + Lower(s[1..])
  }

  /** Lowering twice is lowering once. */
  lemma LowerIdempotent(s: string)
    ensures Lower(Lower(s)) == Lower(s)
  {
  }

  /** Lowering commutes with taking a suffix. */
  lemma LowerSuffix(s: string, k: nat)
    requires k <= |s|
    ensures Lower(s)[k..] == Lower(s[k..])
  {
  }

  /** `s.endswith(suffix)`. */
  predicate EndsWith(s: string, suffix: string) {
    |suffix| <= |s| && s[|s| - |suffix|..] == suffix
  }

  /** `s.lower().endswith(suffix)` looks only at the last `|suffix|` characters, lowered. */
  lemma LowerEndsWith(s: string, suffix: string)
    ensures EndsWith(Lower(s), suffix)
            <==> |suffix| <= |s| && Lower(s[|s| - |suffix|..]) == suffix
  {
    if |suffix| <= |s| {
      LowerSuffix(s, |s| - |suffix|);
    }
  }

  /** Concatenation of a sequence of strings (writing each in turn to one file). */
  function Concat(parts: seq<string>): string {
    if parts == [] then [] else Concat(parts[..|parts| - 1]) + parts[|parts| - 1]
  }

  lemma {:induction false} ConcatAppend(a: seq<string>, b: seq<string>)
    ensures Concat(a + b) == Concat(a) + Concat(b)
    decreases |b|
  {
    if b == [] {
      assert a + b == a;
    } else {
      var b' := b[..|b| - 1];
      assert (a + b)[..|a + b| - 1] == a + b';
      ConcatAppend(a, b');
    }
  }

  /** Writing one part before the others. */
  lemma ConcatCons(x: string, xs: seq<string>)
    ensures Concat([x] + xs) == x + Concat(xs)
  {
    ConcatAppend([x], xs);
    assert Concat([x]) == x by {
      assert [x][..0] == [];
    }
  }

  /** A prefix of `s` written before parts that make up the rest of `s` gives back `s`. */
  lemma ConcatStep(s: string, n: nat, rest: seq<string>)
    requires n <= |s| && Concat(rest) == s[n..]
    ensures Concat([s[..n]] + rest) == s
  {
    ConcatCons(s[..n], rest);
    assert s == s[..n] + s[n..];
  }

  /** A line as a text-mode file yields it: non-empty, with a line break at most at its end. */
  predicate IsLine(l: string) {
    l != [] && forall i :: 0 <= i < |l| - 1 ==> l[i] != '\n'
  }

  /**
   A sequence of lines as iteration over a file yields them: each an `IsLine`, and
   every line but the last ends with its line break.
   */
  predicate WellFormedLines(lines: seq<string>) {
    forall k :: 0 <= k < |lines| ==>
      IsLine(lines[k]) && (k < |lines| - 1 ==> lines[k][|lines[k]| - 1] == '\n')
  }

  /** Length of the first line of `s`, its line break included. */
  function FirstLineLength(s: string): (n: nat)
    requires s != []
    ensures 1 <= n <= |s|
    ensures forall i :: 0 <= i < n - 1 ==> s[i] != '\n'
    ensures s[n - 1] == '\n' || n == |s|
  {
    if s[0] == '\n' || |s| == 1 then 1 else 1 + FirstLineLength(s[1..])
  }

  /** The lines `for line in infile` yields for a file whose text is `s`. */
  function SplitLines(s: string): (lines: seq<string>)
    ensures WellFormedLines(lines)
    decreases |s|
  {
    if s == [] then []
    else
      var n := FirstLineLength(s);
      [s[..n]] + SplitLines(s[n..])
  }

  /** Iterating over a file and concatenating what it yields gives back its text. */
  lemma {:induction false} ConcatSplitLines(s: string)
    ensures Concat(SplitLines(s)) == s
    decreases |s|
  {
    if s != [] {
      var n := FirstLineLength(s);
      ConcatSplitLines(s[n..]);
      ConcatStep(s, n, SplitLines(s[n..]));
    }
  }

  /** The first line of a text that starts with a line `l` (followed by more, only if `l` ends with a break) is `l`. */
  lemma FirstLineOf(l: string, rest: string)
    requires IsLine(l)
    requires rest != [] ==> l[|l| - 1] == '\n'
    ensures FirstLineLength(l + rest) == |l|
  {
    var s := l + rest;
    assert forall i :: 0 <= i < |l| ==> s[i] == l[i];
  }

  /** Dropping the first of well-formed lines leaves well-formed lines. */
  lemma WellFormedTail(lines: seq<string>)
    requires lines != [] && WellFormedLines(lines)
    ensures WellFormedLines(lines[1..])
  {
    var rest := lines[1..];
    forall k | 0 <= k < |rest|
      ensures IsLine(rest[k]) && (k < |rest| - 1 ==> rest[k][|rest[k]| - 1] == '\n')
    {
      assert rest[k] == lines[k + 1];
    }
  }

  /** Parts whose first one is a line are not written as nothing. */
  lemma ConcatNotEmpty(parts: seq<string>)
    requires parts != [] && IsLine(parts[0])
    ensures Concat(parts) != []
  {
    assert parts == [parts[0]] + parts[1..];
    ConcatCons(parts[0], parts[1..]);
  }

  /** Splitting well-formed lines written one after the other gives them back. */
  lemma {:induction false} SplitLinesConcat(lines: seq<string>)
    requires WellFormedLines(lines)
    ensures SplitLines(Concat(lines)) == lines
    decreases |lines|
  {
    if lines != [] {
      var l, rest := lines[0], lines[1..];
      assert lines == [l] + rest;
      ConcatCons(l, rest);
      WellFormedTail(lines);
      SplitLinesConcat(rest);
      var tail := Concat(rest);
      if rest != [] {
        ConcatNotEmpty(rest);
      }
      FirstLineOf(l, tail);
      SplitLinesCons(l, tail);
    }
  }

  /** A text made of a first line `l` and a rest splits into `l` and the rest's lines. */
  lemma SplitLinesCons(l: string, tail: string)
    requires l != [] && FirstLineLength(l + tail) == |l|
    ensures SplitLines(l + tail) == [l] + SplitLines(tail)
  {
    var s := l + tail;
    assert s[..|l|] == l;
    assert s[|l|..] == tail;
  }

  /** `'\n'.join(parts)`. */
  function JoinLines(parts: seq<string>): (r: string)
    ensures |parts| == 1 ==> r == parts[0]
    ensures |parts| > 0 ==> |r| >= |parts[0]| && r[..|parts[0]|] == parts[0]
  {
    if |parts| == 0 then []
    else if |parts| == 1 then parts[0]
    else parts[0] + "\n" + JoinLines(parts[1..])
  }

  /** Index of the first `c` in `s`, or `|s|` when there is none (`str.find`, with `|s|` for -1). */
  function Find(s: string, c: char): (k: nat)
    ensures k <= |s| && (k < |s| ==> s[k] == c)
    ensures forall i :: 0 <= i < k ==> s[i] != c
  {
    if s == [] then 0 else if s[0] == c then 0 else 1 + Find(s[1..], c)
  }

  /** `s.split('\n')`. */
  function SplitAtBreaks(s: string): (pieces: seq<string>)
    ensures |pieces| >= 1
    decreases |s|
  {
    var k := Find(s, '\n');
    if k == |s| then [s] else [s[..k]] + SplitAtBreaks(s[k + 1..])
  }

  /** When no part holds a line break, splitting the joined text at line breaks gives the parts back. */
  lemma {:induction false} SplitJoinLines(parts: seq<string>)
    requires parts != []
    requires forall k :: 0 <= k < |parts| ==> '\n' !in parts[k]
    ensures SplitAtBreaks(JoinLines(parts)) == parts
    decreases |parts|
  {
    var p := parts[0];
    if |parts| == 1 {
      assert Find(p, '\n') == |p|;
    } else {
      var rest := parts[1..];
      SplitJoinLines(rest);
      var j := JoinLines(rest);
      var s := p + "\n" + j;
      assert JoinLines(parts) == s;
      assert s[|p|] == '\n';
      assert forall i :: 0 <= i < |p| ==> s[i] == p[i];
      assert Find(s, '\n') == |p|;
      assert s[..|p|] == p;
      assert s[|p| + 1..] == j;
      assert SplitAtBreaks(s) == [p] + SplitAtBreaks(j);
      assert parts == [p] + rest;
    }
  }
}
