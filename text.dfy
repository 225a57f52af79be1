/**
 * The three string operations the block scanner relies on, with Python's
 * semantics: `str.splitlines(keepends=True)`, `str.strip()` (no argument) and
 * `''.join`, here `Concat`.
 */
module Text {

  /** The characters `str.splitlines` treats as line boundaries ("\r\n" counts as one). */
  predicate IsLineBreak(c: char)
  {
    c == '\n' || c == '\r' || c == '\U{000B}' || c == '\U{000C}' ||
    c == '\U{001C}' || c == '\U{001D}' || c == '\U{001E}' ||
    c == '\U{0085}' || c == '\U{2028}' || c == '\U{2029}'
  }

  /** The characters `str.isspace` accepts, which `str.strip()` removes at both ends. */
  predicate IsSpace(c: char)
  {
    c == ' ' || c == '\t' || c == '\n' || c == '\r' || c == '\U{000B}' || c == '\U{000C}' ||
    ('\U{001C}' <= c <= '\U{001F}') || c == '\U{0085}' || c == '\U{00A0}' || c == '\U{1680}' ||
    ('\U{2000}' <= c <= '\U{200A}') || c == '\U{2028}' || c == '\U{2029}' ||
    c == '\U{202F}' || c == '\U{205F}' || c == '\U{3000}'
  }

  /** The concatenation of a sequence of strings, in order. */
  function Concat(xs: seq<string>): string
  {
    if xs == [] then [] else xs[0] + Concat(xs[1..])
  }

  lemma {:induction false} ConcatAppend(xs: seq<string>, x: string)
    ensures Concat(xs + [x]) == Concat(xs) + x
  {
    if xs == [] {
      assert [x][1..] == [];
    } else {
      assert (xs + [x])[1..] == xs[1..] + [x];
      ConcatAppend(xs[1..], x);
    }
  }

  /**
   * The index just past the line that contains position `i`: past its line
   * break (both characters of "\r\n"), or the end of `s` when the line has none.
   */
  function LineEnd(s: string, i: nat): (n: nat)
    requires i <= |s|
    ensures i <= n <= |s|
    ensures i < |s| ==> i < n
    ensures n == |s| || IsLineBreak(s[n - 1])
    ensures forall j :: i <= j < n - 1 ==> !IsLineBreak(s[j]) || (j == n - 2 && s[j] == '\r' && s[n - 1] == '\n')
    ensures i < n < |s| && s[n - 1] == '\r' ==> s[n] != '\n'
    decreases |s| - i
  {
    if i == |s| then |s|
    else if s[i] == '\r' && i + 1 < |s| && s[i + 1] == '\n' then i + 2
    else if IsLineBreak(s[i]) then i + 1
    else
      var n := LineEnd(s, i + 1);
      n
  }

  /** `s.splitlines(keepends=True)`: the lines of `s`, each keeping its line break. */
  function SplitLines(s: string): (lines: seq<string>)
    ensures forall k :: 0 <= k < |lines| ==> lines[k] != []
    decreases |s|
  {
    if s == [] then [] else
    var n := LineEnd(s, 0);
    [s[..n]] + SplitLines(s[n..])
  }

  /** Splitting loses nothing: joining the lines gives back the text. */
  lemma {:induction false} SplitLinesConcat(s: string)
    ensures Concat(SplitLines(s)) == s
    decreases |s|
  {
    if s != [] {
      var n := LineEnd(s, 0);
      var rest := SplitLines(s[n..]);
      assert SplitLines(s) == [s[..n]] + rest;
      assert ([s[..n]] + rest)[1..] == rest;
      SplitLinesConcat(s[n..]);
      assert s[..n] + s[n..] == s;
    }
  }

  /** One line of `splitlines(keepends=True)`: no line break before its last character, except the '\r' of a closing "\r\n". */
  predicate IsLine(l: string)
  {
    l != [] && forall j :: 0 <= j < |l| - 1 ==> !IsLineBreak(l[j]) || (j == |l| - 2 && l[j] == '\r' && l[j + 1] == '\n')
  }

  /** The line ends with a line break. */
  predicate LastIsBreak(l: string)
  {
    l != [] && IsLineBreak(l[|l| - 1])
  }

  /** The line ends with '\r'. */
  predicate LastIsCr(l: string)
  {
    l != [] && l[|l| - 1] == '\r'
  }

  /**
   * Each piece is one line; every piece but the last ends with a line break,
   * and a piece that ends with '\r' is not followed by one that starts with
   * '\n', so "\r\n" is never split.
   */
  lemma {:induction false} SplitLinesAreLines(s: string)
    ensures forall k :: 0 <= k < |SplitLines(s)| ==> IsLine(SplitLines(s)[k])
    ensures forall k :: 0 <= k < |SplitLines(s)| - 1 ==> LastIsBreak(SplitLines(s)[k])
    ensures forall k :: 0 <= k < |SplitLines(s)| - 1 && LastIsCr(SplitLines(s)[k]) ==> SplitLines(s)[k + 1][0] != '\n'
    decreases |s|
  {
    if s != [] {
      var n := LineEnd(s, 0);
      var rest := SplitLines(s[n..]);
      var lines := SplitLines(s);
      assert lines == [s[..n]] + rest;
      SplitLinesAreLines(s[n..]);
      assert IsLine(s[..n]);
      forall k | 1 <= k < |lines| ensures lines[k] == rest[k - 1] {
      }
      if rest != [] {
        assert n < |s|;
        assert lines[0][|lines[0]| - 1] == s[n - 1];
        assert LastIsBreak(lines[0]);
        assert rest[0][0] == s[n] by {
          assert rest[0] == s[n..][..LineEnd(s[n..], 0)];
        }
      }
      forall k | 1 <= k < |lines| - 1
        ensures LastIsBreak(lines[k])
        ensures LastIsCr(lines[k]) ==> lines[k + 1][0] != '\n'
      {
        assert lines[k] == rest[k - 1] && lines[k + 1] == rest[k];
      }
    }
  }

  /** `s.lstrip()`. */
  function TrimLeft(s: string): string
  {
    if s != [] && IsSpace(s[0]) then TrimLeft(s[1..]) else s
  }

  /** `s.rstrip()`. */
  function TrimRight(s: string): string
  {
    if s != [] && IsSpace(s[|s| - 1]) then TrimRight(s[..|s| - 1]) else s
  }

  /** `s.strip()`: `s` without its leading and trailing whitespace. */
  function Strip(s: string): string
  {
    TrimRight(TrimLeft(s))
  }

  lemma {:induction false} TrimLeftSpec(s: string)
    ensures var r := TrimLeft(s);
      && |r| <= |s| && r == s[|s| - |r|..]
      && (forall j :: 0 <= j < |s| - |r| ==> IsSpace(s[j]))
      && (r == [] || !IsSpace(r[0]))
  {
    if s != [] && IsSpace(s[0]) {
      var tail := s[1..];
      TrimLeftSpec(tail);
      var r := TrimLeft(tail);
      assert TrimLeft(s) == r;
      assert tail[|tail| - |r|..] == s[|s| - |r|..];
      forall j | 0 <= j < |s| - |r| ensures IsSpace(s[j]) {
        if j > 0 {
          assert s[j] == tail[j - 1];
        }
      }
    }
  }

  lemma {:induction false} TrimRightSpec(s: string)
    ensures var r := TrimRight(s);
      && |r| <= |s| && r == s[..|r|]
      && (forall j :: |r| <= j < |s| ==> IsSpace(s[j]))
      && (r == [] || !IsSpace(r[|r| - 1]))
  {
    if s != [] && IsSpace(s[|s| - 1]) {
      var init := s[..|s| - 1];
      TrimRightSpec(init);
      var r := TrimRight(init);
      assert TrimRight(s) == r;
      assert init[..|r|] == s[..|r|];
      forall j | |r| <= j < |s| ensures IsSpace(s[j]) {
        if j < |s| - 1 {
          assert s[j] == init[j];
        }
      }
    }
  }

  /** The stripped text is a slice of `s` that neither starts nor ends with whitespace, and only whitespace was cut. */
  lemma StripIsInnerSlice(s: string)
    ensures exists i, j ::
      && 0 <= i <= j <= |s| && Strip(s) == s[i..j]
      && (forall k :: 0 <= k < i ==> IsSpace(s[k]))
      && (forall k :: j <= k < |s| ==> IsSpace(s[k]))
    ensures Strip(s) == [] || (!IsSpace(Strip(s)[0]) && !IsSpace(Strip(s)[|Strip(s)| - 1]))
  {
    var t := TrimLeft(s);
    var r := TrimRight(t);
    TrimLeftSpec(s);
    TrimRightSpec(t);
    var i := |s| - |t|;
    assert Strip(s) == s[i..i + |r|];
    if r != [] {
      assert r[0] == t[0];
    }
  }
}
