/** JavaScript's `String.prototype.trim`, which both repository readers apply
    to the output of git. */
module JsString {

  /** The code points `trim` strips: the WhiteSpace and LineTerminator
      productions of the ECMAScript language specification (ECMA-262,
      sections 12.2 and 12.3), i.e. TAB, VT, FF, SP, NBSP, ZWNBSP, every
      Unicode "Zs" space separator, LF, CR, LS and PS. All of them lie in the
      Basic Multilingual Plane, so stripping them never splits a UTF-16
      surrogate pair, and none is a hexadecimal digit, so a commit hash
      keeps every character. */
  predicate IsSpace(c: char)
    ensures IsSpace(c) ==> c as int < 0x1_0000
    ensures IsSpace(c) ==> !('0' <= c <= '9' || 'a' <= c <= 'f' || 'A' <= c <= 'F')
    ensures c == ' ' || c == '\t' || c == '\n' || c == '\r' ==> IsSpace(c)
  {
    || c == '\t' || c == '\n' || c == '\U{B}' || c == '\U{C}' || c == '\r'
    || c == ' ' || c == '\U{A0}' || c == '\U{1680}'
    || ('\U{2000}' <= c <= '\U{200A}')
    || c == '\U{2028}' || c == '\U{2029}' || c == '\U{202F}' || c == '\U{205F}'
    || c == '\U{3000}' || c == '\U{FEFF}'
  }

  /** Every character of `s` is one `trim` would strip. */
  predicate AllSpace(s: string) {
    forall k :: 0 <= k < |s| ==> IsSpace(s[k])
  }

  /** `s` has nothing left for `trim` to strip at either end. */
  predicate Trimmed(s: string) {
    s == [] || (!IsSpace(s[0]) && !IsSpace(s[|s| - 1]))
  }

  /** Length of the longest all-space prefix of `s`. */
  function LeadingSpace(s: string): (i: nat)
    ensures i <= |s|
    ensures AllSpace(s[..i])
    ensures i < |s| ==> !IsSpace(s[i])
  {
    if s == [] || !IsSpace(s[0]) then 0 else 1 + LeadingSpace(s[1..])
  }

  /** Start of the longest all-space suffix of `s`. */
  function TrailingSpace(s: string): (j: nat)
    ensures j <= |s|
    ensures AllSpace(s[j..])
    ensures 0 < j ==> !IsSpace(s[j - 1])
  {
    if s == [] || !IsSpace(s[|s| - 1]) then |s| else TrailingSpace(s[..|s| - 1])
  }

  /** `s.trim()`: `s` without its leading and trailing white space. */
  function Trim(s: string): (r: string)
    ensures |r| <= |s|
    ensures Trimmed(r)
    ensures r == [] <==> AllSpace(s)
  {
    var i := LeadingSpace(s);
    if i == |s| then
      assert s[..i] == s;
      []
    else
      var j := TrailingSpace(s);
      assert !IsSpace(s[i]);
      assert i < j;
      s[i..j]
  }

  /** The result of `trim` is a slice of its input that only white space
      surrounds. */
  lemma TrimIsInfix(s: string)
    ensures exists i :: 0 <= i <= |s| - |Trim(s)| && s[i..i + |Trim(s)|] == Trim(s)
                        && AllSpace(s[..i]) && AllSpace(s[i + |Trim(s)|..])
  {
    var i := LeadingSpace(s);
    if i == |s| {
      assert s[0..0] == [] && s[..0] == [] && s[0..] == s;
    } else {
      assert s[i..i + |Trim(s)|] == Trim(s);
    }
  }

  /** Conversely, a slice of `s` with nothing to strip, surrounded only by
      white space, is the result of `trim`: the characterisation above
      determines `trim` completely. */
  lemma TrimUnique(s: string, i: nat, j: nat)
    requires i <= j <= |s|
    requires AllSpace(s[..i]) && AllSpace(s[j..]) && Trimmed(s[i..j])
    ensures Trim(s) == s[i..j]
  {
    if i == j {
      assert AllSpace(s) by {
        forall k | 0 <= k < |s| ensures IsSpace(s[k]) {
          if k < i { assert s[k] == s[..i][k]; } else { assert s[k] == s[j..][k - j]; }
        }
      }
    } else {
      assert !IsSpace(s[i]) && !IsSpace(s[j - 1]) by {
        assert s[i..j][0] == s[i] && s[i..j][j - i - 1] == s[j - 1];
      }
      assert LeadingSpace(s) == i && TrailingSpace(s) == j;
    }
  }

  /** `trim` leaves a string with nothing to strip unchanged ... */
  lemma TrimFixesTrimmed(t: string)
    requires Trimmed(t)
    ensures Trim(t) == t
  {
  }

  /** ... so trimming twice is trimming once. */
  lemma TrimIdempotent(s: string)
    ensures Trim(Trim(s)) == Trim(s)
  {
  }

  /** A line as git prints it, with its terminating newline, trims to the
      line itself. */
  lemma TrimDropsNewline(t: string)
    requires Trimmed(t)
    ensures Trim(t + "\n") == t
  {
  }
}
