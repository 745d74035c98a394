/** The part of JavaScript's String.prototype.trim that the task list relies on:
    `addTask` trims the draft only to decide whether it is empty. */
module Text {

  /** A character that String.prototype.trim strips: the ECMAScript WhiteSpace
      and LineTerminator code points. */
  predicate IsWhitespace(c: char)
    ensures IsWhitespace(c) ==> c <= '\U{FEFF}'
  {
    c == '\t' || c == '\n' || c == '\U{B}' || c == '\U{C}' || c == '\r' || c == ' '
    || c == '\U{A0}' || c == '\U{1680}' || ('\U{2000}' <= c <= '\U{200A}')
    || c == '\U{2028}' || c == '\U{2029}' || c == '\U{202F}' || c == '\U{205F}'
    || c == '\U{3000}' || c == '\U{FEFF}'
  }

  /** Every character of `s` is whitespace (the empty string included). */
  predicate Blank(s: string)
  {
    forall i :: 0 <= i < |s| ==> IsWhitespace(s[i])
  }

  /** `s` without its leading whitespace: a suffix of `s` that starts with a
      non-whitespace character (or is empty), and all it drops is whitespace. */
  function TrimStart(s: string): (r: string)
    ensures |r| <= |s| && r == s[|s| - |r|..]
    ensures r == [] || !IsWhitespace(r[0])
    ensures Blank(s[..|s| - |r|])
  {
    if s != [] && IsWhitespace(s[0]) then
      var r := TrimStart(s[1..]);
      assert s[..|s| - |r|] == [s[0]] + s[1..][..|s| - 1 - |r|];
      r
    else
      s
  }

  /** `s` without its trailing whitespace: a prefix of `s` that ends with a
      non-whitespace character (or is empty), and all it drops is whitespace. */
  function TrimEnd(s: string): (r: string)
    ensures |r| <= |s| && r == s[..|r|]
    ensures r == [] || !IsWhitespace(r[|r| - 1])
    ensures Blank(s[|r|..])
  {
    if s != [] && IsWhitespace(s[|s| - 1]) then
      var r := TrimEnd(s[..|s| - 1]);
      assert s[|r|..] == s[..|s| - 1][|r|..] + [s[|s| - 1]];
      r
    else
      s
  }

  /** String.prototype.trim: `s` with its leading and trailing whitespace cut
      off. What is left is a contiguous piece of `s`, everything cut off is
      whitespace, and what is left starts and ends with a non-whitespace
      character. */
  function Trim(s: string): (r: string)
    ensures r != [] ==> !IsWhitespace(r[0]) && !IsWhitespace(r[|r| - 1])
    ensures exists i, j :: 0 <= i <= j <= |s| && r == s[i..j] && Blank(s[..i]) && Blank(s[j..])
  {
    var t := TrimStart(s);
    var r := TrimEnd(t);
    TrimmedPiece(s, t, r);
    r
  }

  /** Cutting a blank prefix off `s`, leaving `t`, and then a blank suffix off
      `t`, leaving `r`, leaves a slice of `s` with blank text on both sides. */
  lemma TrimmedPiece(s: string, t: string, r: string)
    requires |t| <= |s| && t == s[|s| - |t|..] && Blank(s[..|s| - |t|])
    requires |r| <= |t| && r == t[..|r|] && Blank(t[|r|..])
    requires t == [] || !IsWhitespace(t[0])
    requires r == [] || !IsWhitespace(r[|r| - 1])
    ensures r != [] ==> !IsWhitespace(r[0]) && !IsWhitespace(r[|r| - 1])
    ensures exists i, j :: 0 <= i <= j <= |s| && r == s[i..j] && Blank(s[..i]) && Blank(s[j..])
  {
    var i, j := |s| - |t|, |s| - |t| + |r|;
    assert r != [] ==> r[0] == t[0];
    assert s[i..][..|r|] == s[i..j];
    assert s[j..] == t[|r|..];
    assert r == s[i..j] && Blank(s[..i]) && Blank(s[j..]);
  }

  /** `s.trim() !== ""` holds exactly when `s` is not blank. */
  lemma TrimEmptyIffBlank(s: string)
    ensures Trim(s) == [] <==> Blank(s)
  {
    var t := TrimStart(s);
    var r := TrimEnd(t);
    if r == [] {
      assert s[..|s| - |t|] == s;
    }
  }

  /** A draft of spaces only is blank; an ordinary description is not. */
  lemma BlankExamples()
    ensures Blank("   ") && Trim("   ") == ""
    ensures !Blank("Buy milk") && Trim("Buy milk") != ""
  {
    assert !IsWhitespace("Buy milk"[0]);
    TrimEmptyIffBlank("   ");
    TrimEmptyIffBlank("Buy milk");
  }
}
