/** mongoc_lowercase: ASCII-lowercases a string into a caller's buffer. */
module Lowercase {
  import opened CStrings

  predicate IsUpper(c: char) {
    'A' <= c <= 'Z'
  }

  /** tolower in the "C" locale: upper-case ASCII letters become lower case,
      every other character is returned as it is. */
  function ToLower(c: char): (r: char)
    ensures !IsUpper(r)
  {
    if IsUpper(c) then (c as int + ('a' as int - 'A' as int)) as char else c
  }

  /** The whole string, lowered character by character. */
  function Lower(s: string): (r: string)
    ensures |r| == |s|
    ensures forall i :: 0 <= i < |s| ==> r[i] == ToLower(s[i])
  {
    seq(|s|, i requires 0 <= i < |s| => ToLower(s[i]))
  }

  /** mongoc_lowercase(src, buf): writes tolower of each character of `src`
      into the matching position of `buf`. It writes no terminator and does
      not touch `buf` beyond the first |src| positions; the caller's buffer
      must be at least that long. */
  method LowercaseInto(src: CString, buf: string) returns (out: string)
    requires |src| <= |buf|
    ensures |out| == |buf|
    ensures forall i :: 0 <= i < |src| ==> out[i] == ToLower(src[i])
    ensures forall i :: |src| <= i < |buf| ==> out[i] == buf[i]
    ensures out[..|src|] == Lower(src)
  {
    out := buf;
    var k := 0;
    while k < |src|
      invariant 0 <= k <= |src|
      invariant |out| == |buf|
      invariant forall i :: 0 <= i < k ==> out[i] == ToLower(src[i])
      invariant forall i :: k <= i < |buf| ==> out[i] == buf[i]
    {
      out := out[k := ToLower(src[k])];
      k := k + 1;
    }
  }

  /** Lowering a lowered string changes nothing. */
  lemma LowerIdempotent(s: string)
    ensures Lower(Lower(s)) == Lower(s)
  {
  }

  /** A string is left unchanged exactly when it holds no upper-case letter. */
  lemma LowerFixesExactlyLowerCase(s: string)
    ensures Lower(s) == s <==> forall i :: 0 <= i < |s| ==> !IsUpper(s[i])
  {
    if Lower(s) == s {
      forall i | 0 <= i < |s|
        ensures !IsUpper(s[i])
      {
        assert Lower(s)[i] == s[i];
      }
    }
  }

  /** Two strings lower to the same string exactly when they agree
      position by position up to the case of ASCII letters. */
  lemma LowerEqualIffCaseInsensitive(a: string, b: string)
    ensures Lower(a) == Lower(b) <==> |a| == |b| && forall i :: 0 <= i < |a| ==> ToLower(a[i]) == ToLower(b[i])
  {
    if Lower(a) == Lower(b) {
      forall i | 0 <= i < |a|
        ensures ToLower(a[i]) == ToLower(b[i])
      {
        assert Lower(a)[i] == Lower(b)[i];
      }
    }
  }
}
