/** JavaScript's `String.prototype.trim`, as used by every blank-input test of
    the client (`s.trim() === ""`). */
module Text {

  /** ECMAScript WhiteSpace and LineTerminator code points: the characters
      `trim` strips from both ends of a string. */
  predicate IsJsWhitespace(c: char)
  {
    var n := c as int;
    n == 0x09 || n == 0x0A || n == 0x0B || n == 0x0C || n == 0x0D || n == 0x20
    || n == 0xA0 || n == 0x1680 || (0x2000 <= n <= 0x200A)
    || n == 0x2028 || n == 0x2029 || n == 0x202F || n == 0x205F
    || n == 0x3000 || n == 0xFEFF
  }

  predicate AllWhitespace(s: string)
  {
    forall i :: 0 <= i < |s| ==> IsJsWhitespace(s[i])
  }

  /** Drops leading whitespace and nothing else; what is left is empty or
      starts with a non-whitespace character. */
  function TrimStart(s: string): (r: string)
    ensures |r| <= |s| && r == s[|s| - |r|..]
    ensures AllWhitespace(s[..|s| - |r|])
    ensures r == [] <==> AllWhitespace(s)
    ensures r != [] ==> !IsJsWhitespace(r[0])
  {
    if s != [] && IsJsWhitespace(s[0]) then
      var r := TrimStart(s[1..]);
      var dropped := s[..|s| - |r|];
      forall i | 0 <= i < |dropped| ensures IsJsWhitespace(dropped[i]) {
        if i > 0 { assert dropped[i] == s[1..][..|s| - 1 - |r|][i - 1]; }
      }
      r
    else s
  }

  /** Drops trailing whitespace and nothing else; what is left is empty or
      ends with a non-whitespace character. */
  function TrimEnd(s: string): (r: string)
    ensures |r| <= |s| && r == s[..|r|]
    ensures AllWhitespace(s[|r|..])
    ensures r == [] <==> AllWhitespace(s)
    ensures r != [] ==> !IsJsWhitespace(r[|r| - 1])
  {
    if s != [] && IsJsWhitespace(s[|s| - 1]) then
      var r := TrimEnd(s[..|s| - 1]);
      var dropped := s[|r|..];
      forall i | 0 <= i < |dropped| ensures IsJsWhitespace(dropped[i]) {
        if i < |dropped| - 1 { assert dropped[i] == s[..|s| - 1][|r|..][i]; }
      }
      r
    else s
  }

  function Trim(s: string): string
  {
    TrimEnd(TrimStart(s))
  }

  /** `s.trim() === ""`. */
  predicate IsBlank(s: string)
  {
    Trim(s) == ""
  }

  /** A string trims to the empty string exactly when every character of it is
      whitespace: the empty string and whitespace-only strings are blank,
      anything holding one visible character is not. */
  lemma {:induction false} BlankIffAllWhitespace(s: string)
    ensures IsBlank(s) <==> AllWhitespace(s)
  {
    var t := TrimStart(s);
    if t != [] {
      // t starts with a visible character, so TrimEnd keeps at least it
      assert !AllWhitespace(t) by { assert !IsJsWhitespace(t[0]); }
    }
  }
}
