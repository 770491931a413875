/** String operations of JavaScript that the engine and the sanitisers rely on:
    `String.prototype.trim` and `String.prototype.split("\n")`. */
module Text {

  /** The characters `trim` removes: ECMAScript WhiteSpace (including every Unicode
      space separator) and LineTerminator. */
  predicate IsWhiteSpace(ch: char)
  {
    || ch == '\t' || ch == '\n' || ch == '\U{000B}' || ch == '\U{000C}' || ch == '\r'
    || ch == ' ' || ch == '\U{00A0}' || ch == '\U{1680}'
    || ('\U{2000}' <= ch <= '\U{200A}')
    || ch == '\U{2028}' || ch == '\U{2029}' || ch == '\U{202F}' || ch == '\U{205F}'
    || ch == '\U{3000}' || ch == '\U{FEFF}'
  }

  /** `s` without its leading white space. */
  function TrimStart(s: string): (r: string)
    ensures |r| <= |s| && r == s[|s| - |r|..]
    ensures r == [] || !IsWhiteSpace(r[0])
    ensures forall i :: 0 <= i < |s| - |r| ==> IsWhiteSpace(s[i])
  {
    if s == [] || !IsWhiteSpace(s[0]) then s else TrimStart(s[1..])
  }

  /** `s` without its trailing white space. */
  function TrimEnd(s: string): (r: string)
    ensures |r| <= |s| && r == s[..|r|]
    ensures r == [] || !IsWhiteSpace(r[|r| - 1])
    ensures forall i :: |r| <= i < |s| ==> IsWhiteSpace(s[i])
  {
    if s == [] || !IsWhiteSpace(s[|s| - 1]) then s else TrimEnd(s[..|s| - 1])
  }

  /** `s.trim()`. */
  function Trim(s: string): (r: string)
  {
    TrimEnd(TrimStart(s))
  }

  /** The trimmed string is the slice of `s` left after dropping white space at both ends,
      and neither end of it is white space. */
  lemma TrimIsCore(s: string)
    ensures exists a, b ::
              && 0 <= a <= b <= |s| && Trim(s) == s[a..b]
              && (forall i :: 0 <= i < a ==> IsWhiteSpace(s[i]))
              && (forall i :: b <= i < |s| ==> IsWhiteSpace(s[i]))
    ensures Trim(s) == [] || (!IsWhiteSpace(Trim(s)[0]) && !IsWhiteSpace(Trim(s)[|Trim(s)| - 1]))
  {
    var t := TrimStart(s);
    var a := |s| - |t|;
    var r := TrimEnd(t);
    assert r == s[a..a + |r|];
    forall i | a + |r| <= i < |s| ensures IsWhiteSpace(s[i]) {
      assert s[i] == t[i - a];
    }
    if r != [] {
      assert r[0] == t[0];
    }
  }

  /** Trimming twice is trimming once. */
  lemma TrimIdempotent(s: string)
    ensures Trim(Trim(s)) == Trim(s)
  {
    TrimIsCore(s);
    var r := Trim(s);
    assert TrimStart(r) == r;
    assert TrimEnd(r) == r;
  }

  /** Index of the first `ch` in `s`, or -1. */
  function IndexOf(s: string, ch: char): (i: int)
    ensures -1 <= i < |s|
    ensures i == -1 <==> ch !in s
    ensures i >= 0 ==> s[i] == ch && ch !in s[..i]
  {
    if s == [] then -1
    else if s[0] == ch then 0
    else
      var j := IndexOf(s[1..], ch);
      if j == -1 then -1 else (assert s[1..][..j] == s[1..j + 1]; j + 1)
  }

  /** `s.split("\n")`: the pieces between line breaks; there is always at least one. */
  function SplitLines(s: string): (r: seq<string>)
    ensures |r| >= 1
    ensures forall k :: 0 <= k < |r| ==> '\n' !in r[k]
    decreases |s|
  {
    var i := IndexOf(s, '\n');
    if i == -1 then [s] else [s[..i]] + SplitLines(s[i + 1..])
  }

  /** `lines.join("\n")`. */
  function JoinLines(lines: seq<string>): string
    requires |lines| >= 1
  {
    if |lines| == 1 then lines[0] else lines[0] + "\n" + JoinLines(lines[1..])
  }

  /** Splitting at line breaks loses nothing: joining the pieces gives back the input. */
  lemma {:induction false} SplitJoin(s: string)
    ensures JoinLines(SplitLines(s)) == s
    decreases |s|
  {
    var i := IndexOf(s, '\n');
    if i != -1 {
      var head, tail := s[..i], s[i + 1..];
      var rest := SplitLines(tail);
      SplitJoin(tail);
      assert SplitLines(s) == [head] + rest;
      assert ([head] + rest)[1..] == rest;
      assert JoinLines([head] + rest) == head + "\n" + JoinLines(rest);
      assert s == head + "\n" + tail by {
        assert s == s[..i] + [s[i]] + s[i + 1..];
      }
    } else {
      assert SplitLines(s) == [s];
    }
  }
}
