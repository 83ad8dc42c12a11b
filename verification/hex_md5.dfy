/** _mongoc_hex_md5: the MD5 digest of a string, written out in hex. The
    digest itself comes from libbson's MD5, which is not part of this model:
    it is a function the caller supplies. Only the formatting is modelled. */
module HexMd5 {
  import opened Wrappers
  import opened CStrings

  type byte = x: int | 0 <= x < 256

  /** A 16-byte MD5 digest. */
  type Digest = d: seq<byte> | |d| == 16 witness seq(16, _ => 0)

  /** The "%x" digit for a nibble: 0-9 then lower-case a-f. */
  function HexDigit(n: nat): (c: char)
    requires n < 16
    ensures IsHexDigit(c)
  {
    if n < 10 then ('0' as int + n) as char else ('a' as int + n - 10) as char
  }

  predicate IsHexDigit(c: char) {
    '0' <= c <= '9' || 'a' <= c <= 'f'
  }

  /** The nibble a lower-case hex digit stands for. */
  function HexValue(c: char): (n: nat)
    requires IsHexDigit(c)
    ensures n < 16 && HexDigit(n) == c
  {
    if c <= '9' then c as int - '0' as int else c as int - 'a' as int + 10
  }

  /** "%02x" of each byte in turn: two digits per byte, high nibble first. */
  function Hex(bytes: seq<byte>): (s: string)
    ensures |s| == 2 * |bytes|
  {
    if |bytes| == 0 then ""
    else [HexDigit(bytes[0] / 16), HexDigit(bytes[0] % 16)] + Hex(bytes[1..])
  }

  /** Characters 2i and 2i+1 of the text are the high and low nibble of
      byte i. */
  lemma {:induction false} HexNibbles(bytes: seq<byte>)
    ensures forall i :: 0 <= i < |bytes| ==>
      Hex(bytes)[2 * i] == HexDigit(bytes[i] / 16) && Hex(bytes)[2 * i + 1] == HexDigit(bytes[i] % 16)
  {
    if |bytes| > 0 {
      HexNibbles(bytes[1..]);
      var s := Hex(bytes);
      forall i | 0 <= i < |bytes|
        ensures s[2 * i] == HexDigit(bytes[i] / 16) && s[2 * i + 1] == HexDigit(bytes[i] % 16)
      {
        if i > 0 {
          assert s[2 * i] == Hex(bytes[1..])[2 * (i - 1)];
          assert s[2 * i + 1] == Hex(bytes[1..])[2 * (i - 1) + 1];
        }
      }
    }
  }

  /** Every character of the text is a lower-case hex digit. */
  lemma HexIsLowerHex(bytes: seq<byte>)
    ensures forall k :: 0 <= k < |Hex(bytes)| ==> IsHexDigit(Hex(bytes)[k])
  {
    HexNibbles(bytes);
    forall k | 0 <= k < |Hex(bytes)|
      ensures IsHexDigit(Hex(bytes)[k])
    {
      var i := k / 2;
      if k % 2 == 0 {
        assert k == 2 * i;
        assert Hex(bytes)[k] == HexDigit(bytes[i] / 16);
      } else {
        assert k == 2 * i + 1;
        assert Hex(bytes)[k] == HexDigit(bytes[i] % 16);
      }
    }
  }

  /** Reads a string of hex digit pairs back into bytes; None when the
      length is odd or a character is not a lower-case hex digit. */
  function Unhex(s: string): (r: Option<seq<byte>>)
    ensures r.Some? ==> |r.value| * 2 == |s|
    decreases |s|
  {
    if |s| == 0 then Some([])
    else if |s| == 1 || !IsHexDigit(s[0]) || !IsHexDigit(s[1]) then None
    else
      match Unhex(s[2..])
      case None => None
      case Some(rest) => Some([HexValue(s[0]) * 16 + HexValue(s[1])] + rest)
  }

  /** A nibble's digit reads back as the nibble. */
  lemma HexValueOfDigit(n: nat)
    requires n < 16
    ensures HexValue(HexDigit(n)) == n
  {
  }

  /** Reading a digit pair in front of more text. */
  lemma UnhexPair(h: char, l: char, t: string)
    requires IsHexDigit(h) && IsHexDigit(l)
    ensures Unhex([h, l] + t) ==
      if Unhex(t).Some? then Some([HexValue(h) * 16 + HexValue(l)] + Unhex(t).value) else None
  {
    assert ([h, l] + t)[2..] == t;
  }

  /** The two digits of a byte read back as the byte. */
  lemma ByteDigits(b: byte)
    ensures HexValue(HexDigit(b / 16)) * 16 + HexValue(HexDigit(b % 16)) == b
  {
    HexValueOfDigit(b / 16);
    HexValueOfDigit(b % 16);
  }

  /** Reading the hex text gives the bytes back. */
  lemma {:induction false} UnhexHex(bytes: seq<byte>)
    ensures Unhex(Hex(bytes)) == Some(bytes)
  {
    if |bytes| > 0 {
      var b := bytes[0];
      var h, l := HexDigit(b / 16), HexDigit(b % 16);
      assert Hex(bytes) == [h, l] + Hex(bytes[1..]);
      UnhexHex(bytes[1..]);
      UnhexPair(h, l, Hex(bytes[1..]));
      ByteDigits(b);
      assert [b] + bytes[1..] == bytes;
    }
  }

  /** Writing read-back bytes gives the same text: lower-case hex has one
      spelling per byte string. */
  lemma {:induction false} HexUnhex(s: string)
    requires Unhex(s).Some?
    ensures Hex(Unhex(s).value) == s
  {
    if |s| > 0 {
      HexUnhex(s[2..]);
      var rest := Unhex(s[2..]).value;
      var b := HexValue(s[0]) * 16 + HexValue(s[1]);
      assert b / 16 == HexValue(s[0]) && b % 16 == HexValue(s[1]);
      assert ([b] + rest)[1..] == rest;
      assert s == s[..2] + s[2..];
    }
  }

  /** The formatting loop of _mongoc_hex_md5: digit pairs for each of the
      16 digest bytes, giving 32 characters. */
  method FormatDigest(digest: Digest) returns (s: string)
    ensures |s| == 32
    ensures forall k :: 0 <= k < 32 ==> IsHexDigit(s[k])
    ensures forall i :: 0 <= i < 16 ==> s[2 * i] == HexDigit(digest[i] / 16) && s[2 * i + 1] == HexDigit(digest[i] % 16)
    ensures Unhex(s) == Some(digest)
  {
    s := "";
    var i := 0;
    while i < 16
      invariant 0 <= i <= 16
      invariant s == Hex(digest[..i])
    {
      assert digest[..i + 1] == digest[..i] + [digest[i]];
      HexAppend(digest[..i], digest[i]);
      s := s + [HexDigit(digest[i] / 16), HexDigit(digest[i] % 16)];
      i := i + 1;
    }
    assert digest[..16] == digest;
    HexNibbles(digest);
    HexIsLowerHex(digest);
    UnhexHex(digest);
  }

  lemma {:induction false} HexAppend(bytes: seq<byte>, b: byte)
    ensures Hex(bytes + [b]) == Hex(bytes) + [HexDigit(b / 16), HexDigit(b % 16)]
  {
    if |bytes| > 0 {
      assert (bytes + [b])[1..] == bytes[1..] + [b];
      HexAppend(bytes[1..], b);
    }
  }

  /** _mongoc_hex_md5(input), with `md5` standing for libbson's digest: the
      32 lower-case hex characters of the digest, from which the digest can
      be read back. */
  method HexMd5(input: CString, md5: CString -> Digest) returns (s: CString)
    ensures |s| == 32
    ensures forall k :: 0 <= k < 32 ==> IsHexDigit(s[k])
    ensures Unhex(s) == Some(md5(input))
  {
    var digest := md5(input);
    var text := FormatDigest(digest);
    assert forall k :: 0 <= k < |text| ==> text[k] != NUL;
    s := text;
  }
}
