/** The input sanitisers (src/lib/security.ts): trim, delete control characters, cut to a
    length; and a block list of markup and script patterns, matched case-insensitively. */
module Security {
  import opened Text

  const MAX_TRACK_NAME_LENGTH: int := 200
  const MAX_TICKET_TITLE_LENGTH: int := 50
  const MAX_TRACKS: int := 90

  // ---- deleting control characters ----

  /** The characters of the class `[\x00-\x08\x0B\x0C\x0E-\x1F]`: every C0 control character
      except tab, line feed and carriage return. */
  predicate IsRemovedControl(ch: char)
  {
    ch <= '\U{0008}' || ch == '\U{000B}' || ch == '\U{000C}' || ('\U{000E}' <= ch <= '\U{001F}')
  }

  /** `s.replace(/[\x00-\x08\x0B\x0C\x0E-\x1F]/g, '')`. */
  function StripControl(s: string): (r: string)
    ensures |r| <= |s|
    ensures forall i :: 0 <= i < |r| ==> !IsRemovedControl(r[i])
  {
    if s == [] then []
    else (if IsRemovedControl(s[0]) then [] else [s[0]]) + StripControl(s[1..])
  }

  /** Deleting works character by character: it commutes with concatenation. */
  lemma {:induction false} StripControlConcat(a: string, b: string)
    ensures StripControl(a + b) == StripControl(a) + StripControl(b)
  {
    if a != [] {
      var head := if IsRemovedControl(a[0]) then [] else [a[0]];
      assert (a + b)[1..] == a[1..] + b;
      StripControlConcat(a[1..], b);
      calc {
        StripControl(a + b);
        head + StripControl(a[1..] + b);
        head + (StripControl(a[1..]) + StripControl(b));
        (head + StripControl(a[1..])) + StripControl(b);
        StripControl(a) + StripControl(b);
      }
    } else {
      assert a + b == b;
    }
  }

  /** Every other character is kept, as often as it occurs; tab, line feed and carriage
      return among them. */
  lemma {:induction false} StripControlKeeps(s: string, ch: char)
    ensures multiset(StripControl(s))[ch] == if IsRemovedControl(ch) then 0 else multiset(s)[ch]
  {
    if s != [] {
      StripControlKeeps(s[1..], ch);
      assert s == [s[0]] + s[1..];
    }
  }

  /** A string without such characters is left as it is, so deleting twice is deleting once. */
  lemma {:induction false} StripControlClean(s: string)
    requires forall i :: 0 <= i < |s| ==> !IsRemovedControl(s[i])
    ensures StripControl(s) == s
  {
    if s != [] {
      StripControlClean(s[1..]);
    }
  }

  // ---- cutting ----

  /** `s.slice(0, end)`: a negative `end` counts from the end of the string. */
  function SliceTo(s: string, end: int): (r: string)
    ensures |r| <= |s| && r == s[..|r|]
    ensures end >= 0 ==> |r| == if end <= |s| then end else |s|
    ensures end < 0 ==> |r| == if |s| + end >= 0 then |s| + end else 0
  {
    var stop := if end < 0 then (if |s| + end >= 0 then |s| + end else 0) else (if end <= |s| then end else |s|);
    s[..stop]
  }

  // ---- the sanitisers ----

  /** The chain `input.trim().replace(control characters, '').slice(0, maxLength)` that the
      three sanitisers share. */
  function Sanitize(input: string, maxLength: int): (r: string)
    ensures maxLength >= 0 ==> |r| <= maxLength
    ensures forall i :: 0 <= i < |r| ==> !IsRemovedControl(r[i])
    ensures |r| <= |StripControl(Trim(input))| && r == StripControl(Trim(input))[..|r|]
    ensures maxLength >= |StripControl(Trim(input))| ==> r == StripControl(Trim(input))
    ensures 0 <= maxLength <= |StripControl(Trim(input))| ==> |r| == maxLength
    ensures maxLength < 0 ==> |r| == if |StripControl(Trim(input))| + maxLength >= 0 then |StripControl(Trim(input))| + maxLength else 0
  {
    SliceTo(StripControl(Trim(input)), maxLength)
  }

  /** `sanitizeTrackName`. */
  function SanitizeTrackName(name: string): (r: string)
    ensures |r| <= MAX_TRACK_NAME_LENGTH
    ensures forall i :: 0 <= i < |r| ==> !IsRemovedControl(r[i])
    ensures |r| <= |StripControl(Trim(name))| && r == StripControl(Trim(name))[..|r|]
    ensures |r| == if |StripControl(Trim(name))| <= MAX_TRACK_NAME_LENGTH then |StripControl(Trim(name))| else MAX_TRACK_NAME_LENGTH
  {
    Sanitize(name, MAX_TRACK_NAME_LENGTH)
  }

  /** `sanitizeTicketTitle`. */
  function SanitizeTicketTitle(title: string): (r: string)
    ensures |r| <= MAX_TICKET_TITLE_LENGTH
    ensures forall i :: 0 <= i < |r| ==> !IsRemovedControl(r[i])
    ensures |r| <= |StripControl(Trim(title))| && r == StripControl(Trim(title))[..|r|]
    ensures |r| == if |StripControl(Trim(title))| <= MAX_TICKET_TITLE_LENGTH then |StripControl(Trim(title))| else MAX_TICKET_TITLE_LENGTH
  {
    Sanitize(title, MAX_TICKET_TITLE_LENGTH)
  }

  /** A clean, trimmed name within the limit passes through unchanged. */
  lemma SanitizeKeepsCleanName(name: string)
    requires Trim(name) == name && |name| <= MAX_TRACK_NAME_LENGTH
    requires forall i :: 0 <= i < |name| ==> !IsRemovedControl(name[i])
    ensures SanitizeTrackName(name) == name
  {
    StripControlClean(name);
  }

  /** Trimming comes before deleting, so a control character can shield white space from
      the trim: the sanitised name may start with a space. */
  lemma SanitizeMayStartWithSpace()
    ensures SanitizeTrackName("\U{0001} x") == " x"
  {
    ShieldedTrim();
    ShieldedStrip();
  }

  lemma ShieldedTrim()
    ensures Trim("\U{0001} x") == "\U{0001} x"
  {
    var s := "\U{0001} x";
    assert !IsWhiteSpace(s[0]) && !IsWhiteSpace(s[|s| - 1]);
  }

  lemma ShieldedStrip()
    ensures StripControl("\U{0001} x") == " x"
  {
    var s := "\U{0001} x";
    assert IsRemovedControl(s[0]) && s[1..] == " x";
    assert StripControl(" x") == " x" by {
      assert " x"[1..] == "x" && "x"[1..] == [];
    }
  }

  // ---- the block list ----

  /** The case folding of the `i` flag, which without the `u` flag never maps a non-ASCII
      character to an ASCII one. */
  function FoldCase(ch: char): char
  {
    if 'A' <= ch <= 'Z' then (ch as int + 32) as char else ch
  }

  /** `pat` occurs in `s` at `i`, ignoring ASCII case. */
  predicate MatchesAt(s: string, i: int, pat: string)
  {
    0 <= i && i + |pat| <= |s| && forall k :: 0 <= k < |pat| ==> FoldCase(s[i + k]) == FoldCase(pat[k])
  }

  /** `\w`. */
  predicate IsWordChar(ch: char)
  {
    ('a' <= ch <= 'z') || ('A' <= ch <= 'Z') || ('0' <= ch <= '9') || ch == '_'
  }

  /** `/<script/i` matches at `i`. */
  predicate ScriptAt(s: string, i: int)
  {
    MatchesAt(s, i, "<script")
  }

  /** `/javascript:/i` matches at `i`. */
  predicate JavascriptAt(s: string, i: int)
  {
    MatchesAt(s, i, "javascript:")
  }

  /** `/data:\s*text\/html/i` matches at `i`. */
  predicate DataHtmlAt(s: string, i: int)
  {
    && MatchesAt(s, i, "data:")
    && exists j :: i + 5 <= j <= |s| && (forall k :: i + 5 <= k < j ==> IsWhiteSpace(s[k])) && MatchesAt(s, j, "text/html")
  }

  /** `/\bon\w+\s*=/i` matches at `i`: a word boundary, "on", one or more word characters,
      white space, then "=". */
  predicate EventHandlerAt(s: string, i: int)
  {
    && MatchesAt(s, i, "on")
    && (i == 0 || !IsWordChar(s[i - 1]))
    && HandlerTail(s, i + 2)
  }

  /** `\w+\s*=` matches at `a`. */
  predicate HandlerTail(s: string, a: int)
  {
    exists k :: a < k < |s| && WordRun(s, a, k) &&
      exists m :: k <= m < |s| && SpaceRun(s, k, m) && s[m] == '='
  }

  /** `s[a..b]` is made of word characters. */
  predicate WordRun(s: string, a: int, b: int)
  {
    0 <= a <= b <= |s| && forall x :: a <= x < b ==> IsWordChar(s[x])
  }

  /** `s[a..b]` is made of white space. */
  predicate SpaceRun(s: string, a: int, b: int)
  {
    0 <= a <= b <= |s| && forall x :: a <= x < b ==> IsWhiteSpace(s[x])
  }

  /** The search of `RegExp.prototype.test`: the leftmost position from `from` on where `p`
      matches, or -1. */
  function Search(s: string, from: nat, p: (string, int) -> bool): (r: int)
    ensures r == -1 || (from <= r <= |s| && p(s, r))
    ensures r == -1 <==> forall i :: from <= i <= |s| ==> !p(s, i)
    ensures r != -1 ==> forall i :: from <= i < r ==> !p(s, i)
    decreases |s| + 1 - from
  {
    if from > |s| then -1
    else if p(s, from) then from
    else Search(s, from + 1, p)
  }

  /** `isInputSafe`: none of the four patterns matches anywhere. */
  function IsInputSafe(input: string): (safe: bool)
    ensures safe <==> forall i :: 0 <= i <= |input| ==>
      !ScriptAt(input, i) && !JavascriptAt(input, i) && !DataHtmlAt(input, i) && !EventHandlerAt(input, i)
  {
    if Search(input, 0, ScriptAt) != -1 then false
    else if Search(input, 0, JavascriptAt) != -1 then false
    else if Search(input, 0, DataHtmlAt) != -1 then false
    else if Search(input, 0, EventHandlerAt) != -1 then false
    else true
  }

  /** An input holding "<script" or "javascript:", in any mix of case, is blocked. */
  lemma ScriptIsUnsafe(input: string, i: int)
    requires MatchesAt(input, i, "<script") || MatchesAt(input, i, "javascript:")
    ensures !IsInputSafe(input)
  {
    assert 0 <= i <= |input| && (ScriptAt(input, i) || JavascriptAt(input, i));
  }

  /** Text made of letters, digits and spaces only is never blocked: every pattern needs a
      '<', ':' or '='. */
  lemma PlainTextIsSafe(input: string)
    requires forall k :: 0 <= k < |input| ==> IsWordChar(input[k]) || input[k] == ' '
    ensures IsInputSafe(input)
  {
    forall i | 0 <= i <= |input|
      ensures !ScriptAt(input, i) && !JavascriptAt(input, i) && !DataHtmlAt(input, i) && !EventHandlerAt(input, i)
    {
      assert ScriptAt(input, i) ==> FoldCase(input[i + 0]) == FoldCase("<script"[0]);
      assert JavascriptAt(input, i) ==> FoldCase(input[i + 10]) == FoldCase("javascript:"[10]);
      assert DataHtmlAt(input, i) ==> FoldCase(input[i + 4]) == FoldCase("data:"[4]);
      assert !HandlerTail(input, i + 2) by {
        forall k, m | i + 2 < k <= m < |input| && WordRun(input, i + 2, k) && SpaceRun(input, k, m)
          ensures input[m] != '='
        {
          assert IsWordChar(input[m]) || input[m] == ' ';
        }
      }
    }
  }

  /** `sanitizeAndValidate`: the sanitised input when it is safe, else "". */
  function SanitizeAndValidate(input: string, maxLength: int): (r: string)
    ensures r == "" || r == Sanitize(input, maxLength)
    ensures r == Sanitize(input, maxLength) <==> IsInputSafe(Sanitize(input, maxLength)) || Sanitize(input, maxLength) == ""
    ensures r != "" ==> IsInputSafe(r)
    ensures maxLength >= 0 ==> |r| <= maxLength
  {
    var sanitized := Sanitize(input, maxLength);
    if !IsInputSafe(sanitized) then "" else sanitized
  }
}
