/** C strings as the driver's helpers see them: the characters in front of
    a NUL terminator, or a whole buffer in memory that holds a terminator
    somewhere. */
module CStrings {
  import opened Wrappers

  const NUL: char := '\0'

  /** The characters of a NUL-terminated string, terminator excluded. */
  type CString = s: string | NUL !in s witness ""

  /** A buffer size handed to bson_strncpy; the driver only ever passes
      positive sizes. */
  type Positive = n: nat | 1 <= n witness 1

  /** A buffer that holds a terminator somewhere, so strlen stops inside it. */
  predicate Terminated(buf: string) {
    NUL in buf
  }

  /** Lays a C string out in memory: its characters, its terminator, then
      whatever the buffer holds after it. */
  function InMemory(s: CString, tail: string): (buf: string)
    ensures Terminated(buf)
  {
    assert (s + [NUL] + tail)[|s|] == NUL;
    s + [NUL] + tail
  }

  /** strlen: the number of characters in front of the first terminator. */
  function Strlen(buf: string): (n: nat)
    requires Terminated(buf)
    ensures n < |buf| && buf[n] == NUL
    ensures NUL !in buf[..n]
  {
    if buf[0] == NUL then 0
    else
      var n := 1 + Strlen(buf[1..]);
      assert buf[..n] == [buf[0]] + buf[1..][..n - 1];
      n
  }

  /** Reading back the length of a string laid out in memory gives the
      string's own length, whatever follows the terminator. */
  lemma StrlenInMemory(s: CString, tail: string)
    ensures Strlen(InMemory(s, tail)) == |s|
  {
    var buf := InMemory(s, tail);
    assert buf[|s|] == NUL;
    assert buf[..|s|] == s;
  }

  /** _mongoc_strlen_or_zero: the length of the string a pointer refers to,
      and 0 for a NULL pointer. */
  function StrlenOrZero(p: Option<string>): (n: nat)
    requires p.Some? ==> Terminated(p.value)
    ensures p.None? ==> n == 0
    ensures p.Some? ==> n < |p.value| && p.value[n] == NUL && NUL !in p.value[..n]
  {
    match p
    case None => 0
    case Some(buf) => Strlen(buf)
  }

  /** For a non-NULL pointer to a string laid out in memory, the length read
      back is the string's own length. */
  lemma StrlenOrZeroInMemory(s: CString, tail: string)
    ensures StrlenOrZero(Some(InMemory(s, tail))) == |s|
  {
    StrlenInMemory(s, tail);
  }

  /** The result of bson_strncpy(dst, src, size), which lies outside this
      model and is taken on trust: it copies at most size - 1 characters and
      always writes a terminator, so the destination holds the longest
      prefix of `src` shorter than `size`. */
  function StrNCopy(src: CString, size: Positive): (dst: CString)
    ensures dst <= src
    ensures |dst| == Min(|src|, size - 1)
  {
    src[..Min(|src|, size - 1)]
  }
}
