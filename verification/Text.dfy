/** Rust string operations on text kept as its UTF-8 bytes. */
module Text {
  import opened ByteStrings

  // ------------------------------------------------------------ UTF-8 validity

  predicate Continuation(b: Byte) {
    0x80 <= b < 0xC0
  }

  /** Width of the well-formed character at the start of `s`; 0 when there is none. */
  function CharWidth(s: Bytes): (w: nat)
    ensures w <= |s|
  {
    if s == [] then 0
    else if s[0] < 0x80 then 1
    else if |s| >= 2 && 0xC2 <= s[0] < 0xE0 && Continuation(s[1]) then 2
    else if |s| >= 3 && 0xE0 <= s[0] < 0xF0 && Continuation(s[1]) && Continuation(s[2])
            && (s[0] == 0xE0 ==> s[1] >= 0xA0) && (s[0] == 0xED ==> s[1] < 0xA0) then 3
    else if |s| >= 4 && 0xF0 <= s[0] < 0xF5 && Continuation(s[1]) && Continuation(s[2]) && Continuation(s[3])
            && (s[0] == 0xF0 ==> s[1] >= 0x90) && (s[0] == 0xF4 ==> s[1] < 0x90) then 4
    else 0
  }

  predicate ValidUtf8(s: Bytes) {
    s == [] || (CharWidth(s) > 0 && ValidUtf8(s[CharWidth(s)..]))
  }

  // ---------------------------------------------------------------- whitespace

  /** `c` is the encoding of one Unicode White_Space character. */
  predicate IsSpace(c: Bytes) {
    || (|c| == 1 && (9 <= c[0] <= 13 || c[0] == 32))
    || (|c| == 2 && c[0] == 0xC2 && (c[1] == 0x85 || c[1] == 0xA0))
    || (|c| == 3 && (c == [0xE1, 0x9A, 0x80] || c == [0xE2, 0x81, 0x9F] || c == [0xE3, 0x80, 0x80]
                     || (c[0] == 0xE2 && c[1] == 0x80 && (0x80 <= c[2] <= 0x8A || c[2] in {0xA8, 0xA9, 0xAF}))))
  }

  function LeadingSpace(s: Bytes): (w: nat)
    ensures w <= |s| && (w > 0 ==> IsSpace(s[..w]))
  {
    if |s| >= 1 && IsSpace(s[..1]) then 1
    else if |s| >= 2 && IsSpace(s[..2]) then 2
    else if |s| >= 3 && IsSpace(s[..3]) then 3
    else 0
  }

  function TrailingSpace(s: Bytes): (w: nat)
    ensures w <= |s| && (w > 0 ==> IsSpace(s[|s| - w..]))
  {
    if |s| >= 1 && IsSpace(s[|s| - 1..]) then 1
    else if |s| >= 2 && IsSpace(s[|s| - 2..]) then 2
    else if |s| >= 3 && IsSpace(s[|s| - 3..]) then 3
    else 0
  }

  function TrimStart(s: Bytes): Bytes {
    if LeadingSpace(s) == 0 then s else TrimStart(s[LeadingSpace(s)..])
  }

  function TrimEnd(s: Bytes): Bytes
    decreases |s|
  {
    if TrailingSpace(s) == 0 then s else TrimEnd(s[..|s| - TrailingSpace(s)])
  }

  function Trim(s: Bytes): Bytes {
    TrimEnd(TrimStart(s))
  }

  /** Length of the longest prefix of `s` without whitespace. */
  function WordLength(s: Bytes): (n: nat)
    ensures n <= |s|
    ensures s != [] && LeadingSpace(s) == 0 ==> n > 0
  {
    if s == [] || LeadingSpace(s) > 0 then 0 else 1 + WordLength(s[1..])
  }

  function Words(s: Bytes): seq<Bytes>
    decreases |s|
  {
    if s == [] then []
    else if LeadingSpace(s) > 0 then Words(s[LeadingSpace(s)..])
    else [s[..WordLength(s)]] + Words(s[WordLength(s)..])
  }

  // ------------------------------------------------------ splitting and matching

  function SplitOnce(s: Bytes, separator: Byte): (r: Option<(Bytes, Bytes)>)
    ensures r.Some? ==> s == r.value.0 + [separator] + r.value.1 && separator !in r.value.0
    ensures r.None? ==> separator !in s
  {
    if s == [] then None
    else if s[0] == separator then Some(([], s[1..]))
    else match SplitOnce(s[1..], separator)
         case None => None
         case Some((before, after)) => Some(([s[0]] + before, after))
  }

  function SplitOn(s: Bytes, separator: Byte): (r: seq<Bytes>)
    ensures |r| > 0
    decreases |s|
  {
    match SplitOnce(s, separator)
    case None => [s]
    case Some((before, after)) => [before] + SplitOn(after, separator)
  }

  /** The pieces between successive CRLFs. */
  function Lines(s: Bytes): (r: seq<Bytes>)
    ensures |r| > 0
    decreases |s|
  {
    match Find(s, CRLF)
    case None => [s]
    case Some(k) => [s[..k]] + Lines(s[k + 2..])
  }

  function Lower(b: Byte): Byte {
    if 'A' as int <= b <= 'Z' as int then b + 32 else b
  }

  function LowerAll(s: Bytes): Bytes {
    seq(|s|, i requires 0 <= i < |s| => Lower(s[i]))
  }

  predicate EqIgnoreCase(a: Bytes, b: Bytes) {
    LowerAll(a) == LowerAll(b)
  }

  /** The value of the first header with this name, in any case. */
  function HeaderValue(headers: seq<(Bytes, Bytes)>, name: Bytes): Option<Bytes> {
    if headers == [] then None
    else if EqIgnoreCase(headers[0].0, name) then Some(headers[0].1)
    else HeaderValue(headers[1..], name)
  }

  /** The texts in order with a separator between them. */
  function JoinTexts(texts: seq<Bytes>, separator: Bytes): Bytes {
    if texts == [] then [] else if |texts| == 1 then texts[0]
    else texts[0] + separator + JoinTexts(texts[1..], separator)
  }

  // ------------------------------------------------------------------- numbers

  function DigitOf(b: Byte, radix: nat): Option<nat> {
    var d := if '0' as int <= b <= '9' as int then b - '0' as int
             else if 'a' as int <= Lower(b) <= 'z' as int then Lower(b) - 'a' as int + 10
             else 99;
    if d < radix then Some(d) else None
  }

  function HexDigit(n: nat): (b: Byte)
    requires n < 16
    ensures DigitOf(b, 16) == Some(n) && 48 <= b < 103
  {
    if n < 10 then '0' as int + n else 'a' as int + n - 10
  }

  function Hex2(b: Byte): Bytes {
    [HexDigit(b / 16), HexDigit(b % 16)]
  }

  predicate AllDigits(s: Bytes, radix: nat) {
    forall i :: 0 <= i < |s| ==> DigitOf(s[i], radix).Some?
  }

  function DigitsValue(s: Bytes, radix: nat): nat
    requires AllDigits(s, radix)
  {
    if s == [] then 0
    else
      assert AllDigits(s[..|s| - 1], radix);
      DigitsValue(s[..|s| - 1], radix) * radix + DigitOf(s[|s| - 1], radix).value
  }

  /** `from_str_radix` for an unsigned type: at least one digit, one optional '+', no overflow. */
  function ParseUnsigned(s: Bytes, radix: nat, max: nat): Option<nat> {
    var digits := if s != [] && s[0] == '+' as int then s[1..] else s;
    if digits != [] && AllDigits(digits, radix) && DigitsValue(digits, radix) <= max
    then Some(DigitsValue(digits, radix)) else None
  }

  /** Decimal digits of `n`, without leading zeros. */
  function Decimal(n: nat): (s: Bytes)
    ensures s != [] && AllDigits(s, 10) && DigitsValue(s, 10) == n
  {
    if n < 10 then
      var s: Bytes := ['0' as int + n];
      assert DigitsValue(s[..0], 10) == 0;
      s
    else
      var s: Bytes := Decimal(n / 10) + ['0' as int + n % 10];
      assert s[..|s| - 1] == Decimal(n / 10);
      s
  }
}
