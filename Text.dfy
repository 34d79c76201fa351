/** The .NET string operations the score store relies on: Char.IsWhiteSpace,
    String.Trim, String.ToUpper (ASCII only), String.Split on one character,
    String.Replace with an empty replacement, and the line splitting done by
    File.ReadAllLines. */
module Text {

  /** Char.IsWhiteSpace: the Unicode space, line and paragraph separators
      plus the controls U+0009..U+000D and U+0085. */
  predicate IsWhiteSpace(c: char) {
    ('\U{0009}' <= c <= '\U{000D}') || c == ' ' || c == '\U{0085}' || c == '\U{00A0}'
    || c == '\U{1680}' || ('\U{2000}' <= c <= '\U{200A}') || c == '\U{2028}'
    || c == '\U{2029}' || c == '\U{202F}' || c == '\U{205F}' || c == '\U{3000}'
  }

  predicate AllWhiteSpace(s: string) {
    forall i :: 0 <= i < |s| ==> IsWhiteSpace(s[i])
  }

  /** Neither end of `s` is white space (what Trim leaves behind). */
  predicate NoSurroundingWhiteSpace(s: string) {
    s == [] || (!IsWhiteSpace(s[0]) && !IsWhiteSpace(s[|s| - 1]))
  }

  /** Number of white-space characters at the start of `s`. */
  function LeadingWhiteSpace(s: string): (n: nat)
    ensures n <= |s| && AllWhiteSpace(s[..n])
    ensures n < |s| ==> !IsWhiteSpace(s[n])
  {
    if s == [] || !IsWhiteSpace(s[0]) then 0
    else
      var n := 1 + LeadingWhiteSpace(s[1..]);
      assert s[..n] == [s[0]] + s[1..][..n - 1];
      n
  }

  /** Number of white-space characters at the end of `s`. */
  function TrailingWhiteSpace(s: string): (n: nat)
    ensures n <= |s| && AllWhiteSpace(s[|s| - n..])
    ensures n < |s| ==> !IsWhiteSpace(s[|s| - n - 1])
  {
    if s == [] || !IsWhiteSpace(s[|s| - 1]) then 0
    else
      var n := 1 + TrailingWhiteSpace(s[..|s| - 1]);
      assert s[|s| - n..] == s[..|s| - 1][|s| - n..] + [s[|s| - 1]];
      n
  }

  /** String.Trim(): `s` with its leading and trailing white space removed.
      The result is the middle of `s`, white space is all that was cut
      off, and no white space is left at either end. */
  function Trim(s: string): (r: string)
    ensures NoSurroundingWhiteSpace(r)
    ensures exists i, j :: 0 <= i <= j <= |s| && r == s[i..j] && AllWhiteSpace(s[..i]) && AllWhiteSpace(s[j..])
  {
    var i := LeadingWhiteSpace(s);
    if i == |s| then
      assert s[..i] == s && s[i..] == [];
      []
    else
      var j := |s| - TrailingWhiteSpace(s[i..]);
      assert s[j..] == s[i..][|s[i..]| - (|s| - j)..];
      assert s[i..][0] == s[i];
      s[i..j]
  }

  /** Trim recovers a string that had nothing but white space added around it. */
  lemma {:induction false} TrimPadded(a: string, r: string, b: string)
    requires AllWhiteSpace(a) && AllWhiteSpace(b) && NoSurroundingWhiteSpace(r)
    ensures Trim(a + r + b) == r
  {
    var s := a + r + b;
    if r == [] {
      assert s[..|s|] == s;
      assert AllWhiteSpace(s) by {
        forall k | 0 <= k < |s| ensures IsWhiteSpace(s[k]) {
          if k < |a| { assert s[k] == a[k]; } else { assert s[k] == b[k - |a|]; }
        }
      }
      LeadingCount(s, |s|);
    } else {
      assert s[..|a|] == a && s[|a|] == r[0];
      LeadingCount(s, |a|);
      var t := s[|a|..];
      assert t == r + b;
      assert t[|t| - |b|..] == b && t[|t| - |b| - 1] == r[|r| - 1];
      TrailingCount(t, |b|);
      assert s[|a|..|s| - |b|] == r;
    }
  }

  /** The white space at the start of `s` is exactly its first `n` characters
      when those are white space and the next one is not. */
  lemma {:induction false} LeadingCount(s: string, n: nat)
    requires n <= |s| && AllWhiteSpace(s[..n]) && (n < |s| ==> !IsWhiteSpace(s[n]))
    ensures LeadingWhiteSpace(s) == n
  {
  }

  /** The white space at the end of `s` is exactly its last `n` characters
      when those are white space and the one before them is not. */
  lemma {:induction false} TrailingCount(s: string, n: nat)
    requires n <= |s| && AllWhiteSpace(s[|s| - n..]) && (n < |s| ==> !IsWhiteSpace(s[|s| - n - 1]))
    ensures TrailingWhiteSpace(s) == n
  {
  }

  /** Trim changes nothing when there is no white space at either end. */
  lemma {:induction false} TrimIdentity(s: string)
    requires NoSurroundingWhiteSpace(s)
    ensures Trim(s) == s
  {
    TrimPadded([], s, []);
    assert [] + s + [] == s;
  }

  predicate IsAsciiLower(c: char) { 'a' <= c <= 'z' }

  function ToUpperChar(c: char): char {
    if IsAsciiLower(c) then (c as int - 32) as char else c
  }

  /** String.ToUpper() restricted to ASCII letters: same length, no lower-case
      ASCII letter remains, every other character is left as it was. */
  function Upper(s: string): (r: string)
    ensures |r| == |s|
    ensures forall i :: 0 <= i < |r| ==> !IsAsciiLower(r[i])
    ensures forall i :: 0 <= i < |r| ==> IsAsciiLower(s[i]) || r[i] == s[i]
    ensures forall i :: 0 <= i < |r| && IsAsciiLower(s[i]) ==> r[i] as int == s[i] as int - 32
    ensures forall i :: 0 <= i < |r| ==> IsWhiteSpace(r[i]) == IsWhiteSpace(s[i])
  {
    seq(|s|, i requires 0 <= i < |s| => ToUpperChar(s[i]))
  }

  /** Upper-casing twice is upper-casing once. */
  lemma {:induction false} UpperIdempotent(s: string)
    ensures Upper(Upper(s)) == Upper(s)
  {
    assert forall i :: 0 <= i < |s| ==> Upper(Upper(s))[i] == Upper(s)[i];
  }

  /** Upper-casing keeps every character that is not a lower-case letter
      where it was, so it adds no separator, line break or end white space. */
  lemma {:induction false} UpperKeeps(s: string, c: char)
    requires !IsAsciiLower(c) && !('A' <= c <= 'Z')
    ensures c in Upper(s) <==> c in s
    ensures NoSurroundingWhiteSpace(Upper(s)) <==> NoSurroundingWhiteSpace(s)
  {
    var u := Upper(s);
    if c in u {
      var i :| 0 <= i < |u| && u[i] == c;
      assert u[i] == ToUpperChar(s[i]);
    }
    if c in s {
      var i :| 0 <= i < |s| && s[i] == c;
      assert u[i] == c;
    }
  }

  function Count(s: string, c: char): nat {
    if s == [] then 0 else (if s[0] == c then 1 else 0) + Count(s[1..], c)
  }

  /** Joins the parts with one `sep` between neighbours (String.Join). */
  function Join(parts: seq<string>, sep: char): string
    requires |parts| >= 1
  {
    if |parts| == 1 then parts[0] else parts[0] + [sep] + Join(parts[1..], sep)
  }

  /** String.Split(sep): the pieces between the occurrences of `sep`, empty
      pieces included. There is one more piece than there are separators,
      no piece holds the separator, and joining the pieces gives back `s`. */
  function Split(s: string, sep: char): (parts: seq<string>)
    ensures |parts| == Count(s, sep) + 1
    ensures forall k :: 0 <= k < |parts| ==> sep !in parts[k]
    ensures Join(parts, sep) == s
  {
    if s == [] then [[]]
    else
      var rest := Split(s[1..], sep);
      if s[0] == sep then
        assert Join([[]] + rest, sep) == [] + [sep] + Join(rest, sep);
        [[]] + rest
      else
        var parts := [[s[0]] + rest[0]] + rest[1..];
        assert forall k :: 1 <= k < |parts| ==> parts[k] == rest[k];
        assert |rest| > 1 ==> Join(rest, sep) == rest[0] + [sep] + Join(rest[1..], sep);
        assert |parts| > 1 ==> parts[1..] == rest[1..];
        parts
  }

  /** Splitting a string that starts with a separator-free piece and a separator. */
  lemma {:induction false} SplitFirst(a: string, sep: char, rest: string)
    requires sep !in a
    ensures Split(a + [sep] + rest, sep) == [a] + Split(rest, sep)
    decreases |a|
  {
    var s := a + [sep] + rest;
    if a == [] {
      assert s == [sep] + rest && s[1..] == rest;
    } else {
      assert s[0] == a[0] && s[1..] == a[1..] + [sep] + rest;
      SplitFirst(a[1..], sep, rest);
      var tail := Split(s[1..], sep);
      assert tail[0] == a[1..] && tail[1..] == Split(rest, sep);
      assert [a[0]] + a[1..] == a;
    }
  }

  /** The inverse of Join: splitting joined separator-free pieces gives them back. */
  lemma {:induction false} SplitJoin(parts: seq<string>, sep: char)
    requires |parts| >= 1
    requires forall k :: 0 <= k < |parts| ==> sep !in parts[k]
    ensures Split(Join(parts, sep), sep) == parts
  {
    if |parts| == 1 {
      SplitNoSeparator(parts[0], sep);
    } else {
      SplitJoin(parts[1..], sep);
      SplitFirst(parts[0], sep, Join(parts[1..], sep));
      assert [parts[0]] + parts[1..] == parts;
    }
  }

  /** A string without the separator splits into itself alone. */
  lemma {:induction false} SplitNoSeparator(s: string, sep: char)
    requires sep !in s
    ensures Split(s, sep) == [s]
  {
    if s != [] {
      SplitNoSeparator(s[1..], sep);
      assert [s[0]] + s[1..] == s;
    }
  }

  /** String.Replace(pat, ""): removes the occurrences of `pat` found by one
      left-to-right scan; occurrences formed by the removal stay. */
  function RemoveAll(s: string, pat: string): (r: string)
    requires |pat| > 0
    ensures |r| <= |s|
    decreases |s|
  {
    if |s| < |pat| then s
    else if s[..|pat|] == pat then RemoveAll(s[|pat|..], pat)
    else [s[0]] + RemoveAll(s[1..], pat)
  }

  /** A prefix that cannot start an occurrence is kept as it is. */
  lemma {:induction false} RemoveAllKeepsPrefix(a: string, b: string, pat: string)
    requires |pat| > 0 && pat[0] !in a
    ensures RemoveAll(a + b, pat) == a + RemoveAll(b, pat)
  {
    if a != [] {
      var s := a + b;
      assert s[0] == a[0];
      if |s| >= |pat| { assert s[..|pat|][0] != pat[0]; }
      RemoveAllKeepsPrefix(a[1..], b, pat);
      assert s[1..] == a[1..] + b;
    } else {
      assert a + b == b;
    }
  }

  predicate IsLineBreak(c: char) { c == '\n' || c == '\r' }

  /** Index of the first line break in `t`, or |t| when there is none. */
  function LineEnd(t: string): (k: nat)
    ensures k <= |t|
    ensures forall i :: 0 <= i < k ==> !IsLineBreak(t[i])
    ensures k < |t| ==> IsLineBreak(t[k])
  {
    if t == [] || IsLineBreak(t[0]) then 0 else 1 + LineEnd(t[1..])
  }

  /** Length of the line terminator at index k: 2 for "\r\n", 1 otherwise. */
  function BreakLength(t: string, k: nat): (n: nat)
    requires k < |t|
    ensures 1 <= n <= 2 && k + n <= |t|
  {
    if t[k] == '\r' && k + 1 < |t| && t[k + 1] == '\n' then 2 else 1
  }

  /** File.ReadAllLines on the file's text: lines end at "\r\n", "\r" or "\n";
      the last line needs no terminator, and a final terminator does not
      start an empty line. */
  function ReadLines(t: string): seq<string>
    decreases |t|
  {
    if t == [] then []
    else if LineEnd(t) == |t| then [t]
    else
      var k := LineEnd(t);
      [t[..k]] + ReadLines(t[k + BreakLength(t, k)..])
  }

  predicate HasLineBreak(l: string) {
    exists i :: 0 <= i < |l| && IsLineBreak(l[i])
  }

  /** No line read back holds a line break. */
  lemma {:induction false} ReadLinesNoBreaks(t: string)
    ensures forall k :: 0 <= k < |ReadLines(t)| ==> !HasLineBreak(ReadLines(t)[k])
    decreases |t|
  {
    if t != [] && LineEnd(t) < |t| {
      var k := LineEnd(t);
      ReadLinesNoBreaks(t[k + BreakLength(t, k)..]);
    }
  }

  predicate EndsWithLineBreak(t: string) {
    t == [] || IsLineBreak(t[|t| - 1])
  }

  /** Text appended after a completed last line is read as lines of its own
      (provided it does not start with the "\n" of a "\r\n" pair). */
  lemma {:induction false} ReadLinesAppend(t: string, x: string)
    requires EndsWithLineBreak(t)
    requires x == [] || x[0] != '\n'
    ensures ReadLines(t + x) == ReadLines(t) + ReadLines(x)
    decreases |t|
  {
    if t == [] {
      assert t + x == x;
    } else {
      var u := ReadLinesAppendStep(t, x);
      ReadLinesAppend(u, x);
      SeqAssoc([t[..LineEnd(t)]], ReadLines(u), ReadLines(x));
    }
  }

  /** The first line of `t + x` is that of `t`, and the rest of both is read
      from what follows its terminator, `u`. */
  lemma {:induction false} ReadLinesAppendStep(t: string, x: string) returns (u: string)
    requires t != [] && EndsWithLineBreak(t)
    requires x == [] || x[0] != '\n'
    ensures |u| < |t| && EndsWithLineBreak(u)
    ensures ReadLines(t) == [t[..LineEnd(t)]] + ReadLines(u)
    ensures ReadLines(t + x) == [t[..LineEnd(t)]] + ReadLines(u + x)
  {
    var k := LineEnd(t);
    var n := BreakLength(t, k);
    u := t[k + n..];
    AppendFirstLine(t, x);
    ReadLinesStepAt(t, k, n);
    var s := t + x;
    assert s[..k] == t[..k] && s[k + n..] == u + x;
    ReadLinesStepAt(s, k, n);
  }

  /** ReadLines unfolded once, at a line break `k` of length `n`. */
  lemma {:induction false} ReadLinesStepAt(t: string, k: nat, n: nat)
    requires k == LineEnd(t) && k < |t| && n == BreakLength(t, k)
    ensures ReadLines(t) == [t[..k]] + ReadLines(t[k + n..])
  {
  }

  lemma {:induction false} SeqAssoc<T>(a: seq<T>, b: seq<T>, c: seq<T>)
    ensures a + (b + c) == (a + b) + c
  {
  }

  /** The first line of `t + x` and its terminator are those of `t`. */
  lemma {:induction false} AppendFirstLine(t: string, x: string)
    requires t != [] && EndsWithLineBreak(t)
    requires x == [] || x[0] != '\n'
    ensures LineEnd(t) < |t|
    ensures LineEnd(t + x) == LineEnd(t)
    ensures BreakLength(t + x, LineEnd(t)) == BreakLength(t, LineEnd(t))
    ensures (t + x)[..LineEnd(t)] == t[..LineEnd(t)]
    ensures (t + x)[LineEnd(t) + BreakLength(t, LineEnd(t))..] == t[LineEnd(t) + BreakLength(t, LineEnd(t))..] + x
    ensures EndsWithLineBreak(t[LineEnd(t) + BreakLength(t, LineEnd(t))..])
  {
    var k := LineEnd(t);
    LineEndPrefix(t, x);
    SameBreakLength(t, x, k);
    SliceAppend(t, x, k, BreakLength(t, k));
  }

  lemma {:induction false} SameBreakLength(t: string, x: string, k: nat)
    requires k < |t| && IsLineBreak(t[|t| - 1])
    requires x == [] || x[0] != '\n'
    ensures BreakLength(t + x, k) == BreakLength(t, k)
  {
    if k + 1 == |t| && x != [] { assert (t + x)[k + 1] == x[0]; }
  }

  lemma {:induction false} SliceAppend(t: string, x: string, k: nat, n: nat)
    requires 1 <= n && k + n <= |t| && EndsWithLineBreak(t)
    ensures (t + x)[..k] == t[..k]
    ensures (t + x)[k + n..] == t[k + n..] + x
    ensures EndsWithLineBreak(t[k + n..])
  {
  }

  /** Appending text does not move a line break that is already there. */
  lemma {:induction false} LineEndPrefix(t: string, x: string)
    requires LineEnd(t) < |t|
    ensures LineEnd(t + x) == LineEnd(t)
  {
    var s := t + x;
    var k := LineEnd(t);
    var m := LineEnd(s);
    assert s[k] == t[k];
    assert forall i :: 0 <= i < k ==> s[i] == t[i];
  }

  /** One line followed by a line break reads back as that one line. */
  lemma {:induction false} ReadOneLine(l: string)
    requires !HasLineBreak(l)
    ensures ReadLines(l + "\n") == [l]
  {
    var t := l + "\n";
    assert t[|l|] == '\n';
    assert LineEnd(t) == |l|;
    assert t[..|l|] == l;
    assert t[|l| + 1..] == [];
  }
}
