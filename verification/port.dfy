/** mongoc_parse_port: reads a decimal TCP port number with strtoul and
    range-checks it. unsigned long is taken to be 64 bits wide (LP64). */
module Port {
  import opened CStrings

  const UInt16Max: nat := 0xFFFF

  /** ULONG_MAX for a 64-bit unsigned long. */
  const ULongMax: nat := 0xFFFF_FFFF_FFFF_FFFF

  type uint16 = x: int | 0 <= x <= 0xFFFF

  /** isspace in the "C" locale. */
  predicate IsSpace(c: char) {
    c == ' ' || c == '\t' || c == '\n' || c == '\U{B}' || c == '\U{C}' || c == '\r'
  }

  predicate IsDigit(c: char) {
    '0' <= c <= '9'
  }

  predicate AllSpaces(s: string) {
    forall i :: 0 <= i < |s| ==> IsSpace(s[i])
  }

  predicate AllDigits(s: string) {
    forall i :: 0 <= i < |s| ==> IsDigit(s[i])
  }

  function DigitValue(c: char): nat
    requires IsDigit(c)
  {
    c as int - '0' as int
  }

  function Digit(d: nat): (c: char)
    requires d < 10
    ensures IsDigit(c) && DigitValue(c) == d
  {
    "0123456789"[d]
  }

  /** The value of a run of decimal digits, most significant digit first;
      the empty run is worth 0. */
  function DecimalValue(ds: string): nat
    requires AllDigits(ds)
  {
    if |ds| == 0 then 0
    else 10 * DecimalValue(ds[..|ds| - 1]) + DigitValue(ds[|ds| - 1])
  }

  /** `n` written in decimal without leading zeros. */
  function Decimal(n: nat): (ds: string)
    ensures |ds| > 0 && AllDigits(ds)
  {
    if n < 10 then [Digit(n)] else Decimal(n / 10) + [Digit(n % 10)]
  }

  /** Reading a rendered number gives the number back. */
  lemma {:induction false} DecimalValueOfDecimal(n: nat)
    ensures DecimalValue(Decimal(n)) == n
  {
    if n >= 10 {
      var ds := Decimal(n);
      assert ds[..|ds| - 1] == Decimal(n / 10);
      DecimalValueOfDecimal(n / 10);
    }
  }

  /** What is left of `s` once its leading white space is skipped. */
  function SkipSpaces(s: string): (r: string)
    ensures |r| <= |s| && r == s[|s| - |r|..]
    ensures AllSpaces(s[..|s| - |r|])
    ensures |r| == 0 || !IsSpace(r[0])
  {
    if |s| > 0 && IsSpace(s[0]) then
      var r := SkipSpaces(s[1..]);
      assert s[..|s| - |r|] == [s[0]] + s[1..][..|s| - 1 - |r|];
      r
    else s
  }

  /** The maximal run of digits at the front of `s`. */
  function LeadingDigits(s: string): (ds: string)
    ensures ds <= s && AllDigits(ds)
    ensures |ds| == |s| || !IsDigit(s[|ds|])
  {
    if |s| > 0 && IsDigit(s[0]) then [s[0]] + LeadingDigits(s[1..]) else []
  }

  /** The numeral strtoul(s, NULL, 10) reads: white space, an optional sign,
      then the longest run of digits, which may be empty. */
  datatype Numeral = Numeral(negative: bool, digits: string)

  function ScanNumeral(s: string): (n: Numeral)
    ensures AllDigits(n.digits)
  {
    ScanSigned(SkipSpaces(s))
  }

  /** The sign and digit run at the front of `t`, which starts after the
      white space. */
  function ScanSigned(t: string): (n: Numeral)
    ensures AllDigits(n.digits)
  {
    if |t| > 0 && (t[0] == '+' || t[0] == '-') then
      Numeral(t[0] == '-', LeadingDigits(t[1..]))
    else
      Numeral(false, LeadingDigits(t))
  }

  /** strtoul(s, NULL, 10): a value too large for unsigned long saturates to
      ULONG_MAX; a negative numeral is negated in unsigned arithmetic; no
      digits at all reads as 0. */
  function StrToUL(s: string): (r: nat)
    ensures r <= ULongMax
    ensures var n := ScanNumeral(s); var v := DecimalValue(n.digits);
      && (v > ULongMax ==> r == ULongMax)
      && (v <= ULongMax && !n.negative ==> r == v)
      && (v <= ULongMax && n.negative ==> r + v == 0 || r + v == ULongMax + 1)
  {
    var n := ScanNumeral(s);
    var v := DecimalValue(n.digits);
    if v > ULongMax then ULongMax
    else if n.negative then (if v == 0 then 0 else ULongMax + 1 - v)
    else v
  }

  /** The outcome of mongoc_parse_port: its return value, and what `*port`
      holds afterwards. */
  datatype PortParse = PortParse(ok: bool, port: uint16)

  /** mongoc_parse_port(&port, s) as written. It succeeds exactly when the
      number strtoul reads lies in 1..65535 once unsigned negation has been
      applied, which lets a few very large negative numerals through. On
      failure `*port` keeps its previous value. */
  function ParsePort(port: uint16, s: CString): (r: PortParse)
    ensures var n := ScanNumeral(s); var v := DecimalValue(n.digits);
      && (r.ok <==> if n.negative then ULongMax - UInt16Max < v <= ULongMax else 1 <= v <= UInt16Max)
      && (r.ok && !n.negative ==> r.port == v)
      && (r.ok && n.negative ==> r.port == ULongMax + 1 - v)
    ensures !r.ok ==> r.port == port
  {
    var ul := StrToUL(s);
    if ul == 0 || ul > UInt16Max then PortParse(false, port)
    else PortParse(true, ul)
  }

  /** mongoc_parse_port as evidently intended: a negative numeral is out of
      range whatever its magnitude. */
  function ParsePortStrict(port: uint16, s: CString): (r: PortParse)
    ensures var n := ScanNumeral(s); var v := DecimalValue(n.digits);
      && (r.ok <==> !n.negative && 1 <= v <= UInt16Max)
      && (r.ok ==> r.port == v)
    ensures !r.ok ==> r.port == port
  {
    if ScanNumeral(s).negative then PortParse(false, port) else ParsePort(port, s)
  }

  lemma {:induction false} SkipSpacesPrefix(spaces: string, s: string)
    requires AllSpaces(spaces)
    requires |s| == 0 || !IsSpace(s[0])
    ensures SkipSpaces(spaces + s) == s
  {
    if |spaces| > 0 {
      assert (spaces + s)[1..] == spaces[1..] + s;
      SkipSpacesPrefix(spaces[1..], s);
    }
  }

  lemma {:induction false} LeadingDigitsPrefix(ds: string, tail: string)
    requires AllDigits(ds)
    requires |tail| == 0 || !IsDigit(tail[0])
    ensures LeadingDigits(ds + tail) == ds
  {
    if |ds| > 0 {
      assert (ds + tail)[1..] == ds[1..] + tail;
      LeadingDigitsPrefix(ds[1..], tail);
    }
  }

  lemma SkipSpacesBeforeNumeral(spaces: string, sign: string, ds: string, tail: string)
    requires AllSpaces(spaces)
    requires sign == "" || sign == "+" || sign == "-"
    requires |ds| > 0 && AllDigits(ds)
    ensures SkipSpaces(spaces + sign + ds + tail) == sign + ds + tail
  {
    var rest := sign + ds + tail;
    assert spaces + sign + ds + tail == spaces + rest;
    assert IsDigit(ds[0]);
    if sign == "" {
      assert rest == ds + tail;
      assert rest[0] == ds[0];
    } else {
      assert rest[0] == sign[0];
    }
    SkipSpacesPrefix(spaces, rest);
  }

  lemma ScanSignedDigits(sign: string, ds: string, tail: string)
    requires sign == "" || sign == "+" || sign == "-"
    requires |ds| > 0 && AllDigits(ds)
    requires |tail| == 0 || !IsDigit(tail[0])
    ensures ScanSigned(sign + ds + tail) == Numeral(sign == "-", ds)
  {
    LeadingDigitsPrefix(ds, tail);
    var t := sign + ds + tail;
    if sign == "" {
      assert t == ds + tail;
      assert t[0] == ds[0] && IsDigit(ds[0]);
    } else {
      assert t[0] == sign[0];
      assert t[1..] == ds + tail;
    }
  }

  /** How strtoul reads a run of digits preceded by white space and an
      optional sign, and followed by anything that is not a digit. */
  lemma ScanDigits(spaces: string, sign: string, ds: string, tail: string)
    requires AllSpaces(spaces)
    requires sign == "" || sign == "+" || sign == "-"
    requires |ds| > 0 && AllDigits(ds)
    requires |tail| == 0 || !IsDigit(tail[0])
    ensures ScanNumeral(spaces + sign + ds + tail) == Numeral(sign == "-", ds)
  {
    SkipSpacesBeforeNumeral(spaces, sign, ds, tail);
    ScanSignedDigits(sign, ds, tail);
  }

  /** A numeral after white space and a sign, followed by a C string, is
      itself a C string. */
  lemma NumeralIsCString(spaces: string, sign: string, ds: string, tail: CString)
    requires AllSpaces(spaces)
    requires sign == "" || sign == "+" || sign == "-"
    requires AllDigits(ds)
    ensures NUL !in spaces + sign + ds + tail
  {
  }

  /** A port written in decimal, after optional white space and an optional
      '+', and followed by anything that does not continue the number, parses
      back to itself. */
  lemma ParsePortOfDecimal(port: uint16, spaces: string, sign: string, p: uint16, tail: CString)
    requires AllSpaces(spaces)
    requires sign == "" || sign == "+"
    requires 1 <= p
    requires |tail| == 0 || !IsDigit(tail[0])
    ensures NUL !in spaces + sign + Decimal(p) + tail
    ensures ParsePort(port, spaces + sign + Decimal(p) + tail) == PortParse(true, p)
  {
    NumeralIsCString(spaces, sign, Decimal(p), tail);
    ScanDigits(spaces, sign, Decimal(p), tail);
    DecimalValueOfDecimal(p);
  }

  /** A string with no digits where strtoul looks for them (the empty
      string, "abc", "+", " -x") is refused, and the caller's port is left
      as it was. */
  lemma ParsePortRejectsNonNumeric(port: uint16, s: CString)
    requires ScanNumeral(s).digits == ""
    ensures ParsePort(port, s) == PortParse(false, port)
  {
  }

  /** Port 0 and values above 65535 are refused, and the caller's port is
      left as it was. */
  lemma ParsePortRejectsOutOfRange(port: uint16, spaces: string, sign: string, p: nat, tail: CString)
    requires AllSpaces(spaces)
    requires sign == "" || sign == "+"
    requires p == 0 || UInt16Max < p
    requires |tail| == 0 || !IsDigit(tail[0])
    ensures NUL !in spaces + sign + Decimal(p) + tail
    ensures ParsePort(port, spaces + sign + Decimal(p) + tail) == PortParse(false, port)
  {
    NumeralIsCString(spaces, sign, Decimal(p), tail);
    ScanDigits(spaces, sign, Decimal(p), tail);
    DecimalValueOfDecimal(p);
  }

  /** The discrepancy: a '-' followed by 2^64 - k, for any k in 1..65535, is
      accepted as port k. With k = 1 the string is "-18446744073709551615". */
  lemma ParsePortAcceptsNegated(port: uint16, spaces: string, k: uint16, tail: CString)
    requires AllSpaces(spaces)
    requires 1 <= k
    requires |tail| == 0 || !IsDigit(tail[0])
    ensures NUL !in spaces + "-" + Decimal(ULongMax + 1 - k) + tail
    ensures ParsePort(port, spaces + "-" + Decimal(ULongMax + 1 - k) + tail) == PortParse(true, k)
  {
    var ds := Decimal(ULongMax + 1 - k);
    NumeralIsCString(spaces, "-", ds, tail);
    ScanDigits(spaces, "-", ds, tail);
    DecimalValueOfDecimal(ULongMax + 1 - k);
  }

  /** The corrected parser still parses every rendered port back to itself. */
  lemma ParsePortStrictOfDecimal(port: uint16, spaces: string, sign: string, p: uint16, tail: CString)
    requires AllSpaces(spaces)
    requires sign == "" || sign == "+"
    requires 1 <= p
    requires |tail| == 0 || !IsDigit(tail[0])
    ensures NUL !in spaces + sign + Decimal(p) + tail
    ensures ParsePortStrict(port, spaces + sign + Decimal(p) + tail) == PortParse(true, p)
  {
    ParsePortOfDecimal(port, spaces, sign, p, tail);
    ScanDigits(spaces, sign, Decimal(p), tail);
  }

  /** The corrected parser refuses every negative numeral, including the
      ones ParsePort lets through. */
  lemma ParsePortStrictRefusesNegated(port: uint16, spaces: string, q: nat, tail: CString)
    requires AllSpaces(spaces)
    requires |tail| == 0 || !IsDigit(tail[0])
    ensures NUL !in spaces + "-" + Decimal(q) + tail
    ensures ParsePortStrict(port, spaces + "-" + Decimal(q) + tail) == PortParse(false, port)
  {
    NumeralIsCString(spaces, "-", Decimal(q), tail);
    ScanDigits(spaces, "-", Decimal(q), tail);
  }
}
