/** The SQL scanner of the redactor: tokens, and what each is replaced by. */
module SqlScanner {
  import opened ByteStrings

  const QUOTE: Byte := 34
  const APOSTROPHE: Byte := 39
  const DOLLAR: Byte := 36
  const QUESTION: Byte := 63
  const NEWLINE: Byte := 10
  const DASHES: Bytes := [45, 45]
  const OPEN_COMMENT: Bytes := [47, 42]
  const CLOSE_COMMENT: Bytes := [42, 47]
  const MASKED_LITERAL: Bytes := [39, 63, 39]
  const MASKED_LINE: Bytes := Ascii("-- [REDACTED]")
  const MASKED_BLOCK: Bytes := Ascii("/* [REDACTED] */")

  predicate IsDigit(b: Byte) {
    '0' as int <= b <= '9' as int
  }

  predicate IsLetter(b: Byte) {
    'a' as int <= b <= 'z' as int || 'A' as int <= b <= 'Z' as int
  }

  /** Bytes of a dollar-quote tag. */
  predicate IsTag(b: Byte) {
    IsDigit(b) || IsLetter(b) || b == '_' as int
  }

  datatype Token =
    | Quoted(text: Bytes)
    | Literal(text: Bytes)
    | LineComment(text: Bytes)
    | BlockComment(text: Bytes)
    | DollarQuoted(delimiter: Bytes, content: Bytes)
    | Number(text: Bytes)
    | Other(byte: Byte)

  function TextOf(t: Token): Bytes {
    match t
    case DollarQuoted(delimiter, content) => delimiter + content + delimiter
    case Other(b) => [b]
    case _ => t.text
  }

  // ------------------------------------------------------------------- token ends

  /** End of a quoted run: a doubled quote stays inside, an unterminated run takes the rest. */
  function QuoteEnd(s: Bytes, quote: Byte, i: nat): (n: nat)
    requires i <= |s|
    ensures i <= n <= |s|
    ensures n < |s| ==> i < n && s[n - 1] == quote && s[n] != quote
    decreases |s| - i
  {
    if i == |s| then i
    else if s[i] != quote then QuoteEnd(s, quote, i + 1)
    else if i + 1 < |s| && s[i + 1] == quote then QuoteEnd(s, quote, i + 2)
    else i + 1
  }

  function NewlineIndex(s: Bytes): (n: nat)
    ensures n <= |s| && NEWLINE !in s[..n] && (n < |s| ==> s[n] == NEWLINE)
  {
    if s == [] || s[0] == NEWLINE then 0 else 1 + NewlineIndex(s[1..])
  }

  /** A line comment takes its newline along. */
  function LineEnd(s: Bytes): nat {
    Min(NewlineIndex(s) + 1, |s|)
  }

  function BlockEnd(s: Bytes): (n: nat)
    requires |s| >= 2
    ensures 2 <= n <= |s|
  {
    match Find(s[2..], CLOSE_COMMENT)
    case None => |s|
    case Some(k) => k + 4
  }

  function TagLength(s: Bytes): (n: nat)
    ensures n <= |s| && (forall i :: 0 <= i < n ==> IsTag(s[i])) && (n < |s| ==> !IsTag(s[n]))
  {
    if s == [] || !IsTag(s[0]) then 0 else 1 + TagLength(s[1..])
  }

  /** Length of a `$tag$` delimiter at the start of `s`. */
  function DelimiterEnd(s: Bytes): (r: Option<nat>)
    ensures r.Some? ==> 2 <= r.value <= |s| && s[0] == DOLLAR && s[r.value - 1] == DOLLAR
  {
    if s == [] || s[0] != DOLLAR then None
    else
      var n := TagLength(s[1..]);
      if n + 1 < |s| && s[n + 1] == DOLLAR then Some(n + 2) else None
  }

  function DollarToken(s: Bytes): (r: Option<Token>)
    ensures r.Some? ==> r.value.DollarQuoted? && s != [] && s[0] == DOLLAR && |r.value.delimiter| >= 2 && TextOf(r.value) <= s
  {
    match DelimiterEnd(s)
    case None => None
    case Some(n) =>
      match Find(s[n..], s[..n])
      case None => None
      case Some(k) =>
        QuotedPrefix(s, n, k);
        Some(DollarQuoted(s[..n], s[n..n + k]))
  }

  lemma QuotedPrefix(s: Bytes, n: nat, k: nat)
    requires n <= |s| && At(s[n..], s[..n], k)
    ensures n + k + n <= |s| && s[..n] + s[n..n + k] + s[..n] <= s
  {
    assert s[n..][k..k + n] == s[n + k..n + k + n];
    assert s[..n] + s[n..n + k] + s[..n] == s[..n + k + n];
  }

  predicate BlocksNumber(b: Byte) {
    IsTag(b) || b == DOLLAR
  }

  predicate IsNumberStart(previous: Option<Byte>, s: Bytes) {
    && s != [] && IsDigit(s[0])
    && !(previous.Some? && BlocksNumber(previous.value))
    && !(|s| > 1 && (IsLetter(s[1]) || s[1] == '_' as int || s[1] == DOLLAR))
  }

  predicate IsNumberByte(b: Byte) {
    IsDigit(b) || b in {'.' as int, 'e' as int, 'E' as int, '+' as int, '-' as int}
  }

  function NumberEnd(s: Bytes, i: nat): (n: nat)
    requires i <= |s|
    ensures i <= n <= |s| && (n < |s| ==> !IsNumberByte(s[n]))
    decreases |s| - i
  {
    if i == |s| || !IsNumberByte(s[i]) then i else NumberEnd(s, i + 1)
  }

  // ---------------------------------------------------------------------- scanning

  /** The token at the start of `s`, given the byte before it. */
  function Next(previous: Option<Byte>, s: Bytes): (t: Token)
    requires s != []
    ensures TextOf(t) != [] && TextOf(t) <= s
  {
    if s[0] == QUOTE then Quoted(s[..QuoteEnd(s, QUOTE, 1)])
    else if s[0] == APOSTROPHE then Literal(s[..QuoteEnd(s, APOSTROPHE, 1)])
    else if StartsWith(s, DASHES) then LineComment(s[..LineEnd(s)])
    else if StartsWith(s, OPEN_COMMENT) then BlockComment(s[..BlockEnd(s)])
    else if DollarToken(s).Some? then DollarToken(s).value
    else if IsNumberStart(previous, s) then Number(s[..NumberEnd(s, 1)])
    else Other(s[0])
  }

  function LastOf(s: Bytes): Option<Byte>
    requires s != []
  {
    Some(s[|s| - 1])
  }

  function Tokens(previous: Option<Byte>, s: Bytes): seq<Token>
    decreases |s|
  {
    if s == [] then []
    else
      var t := Next(previous, s);
      [t] + Tokens(LastOf(TextOf(t)), s[|TextOf(t)|..])
  }

  // ----------------------------------------------------------------------- masking

  /** What a token is replaced by. */
  function Mask(t: Token): Token {
    match t
    case Quoted(_) => t
    case Literal(_) => Literal(MASKED_LITERAL)
    case LineComment(text) => LineComment(MASKED_LINE + if text != [] && text[|text| - 1] == NEWLINE then [NEWLINE] else [])
    case BlockComment(_) => BlockComment(MASKED_BLOCK)
    case DollarQuoted(delimiter, _) => DollarQuoted(delimiter, [QUESTION])
    case Number(_) => Other(QUESTION)
    case Other(_) => t
  }

  function MaskAll(ts: seq<Token>): seq<Token> {
    seq(|ts|, i requires 0 <= i < |ts| => Mask(ts[i]))
  }

  function Concat(ts: seq<Token>): Bytes {
    if ts == [] then [] else TextOf(ts[0]) + Concat(ts[1..])
  }

  predicate IsSecret(t: Token) {
    !t.Quoted? && !t.Other?
  }

  /** The redacted text from a scanning position on. */
  function RedactFrom(previous: Option<Byte>, s: Bytes): Bytes
    decreases |s|
  {
    if s == [] then []
    else
      var t := Next(previous, s);
      TextOf(Mask(t)) + RedactFrom(LastOf(TextOf(t)), s[|TextOf(t)|..])
  }

  function Redact(s: Bytes): Bytes {
    RedactFrom(None, s)
  }

  function Scan(s: Bytes): seq<Token> {
    Tokens(None, s)
  }

  /** Tokens cover the text, and redaction joins their masks. */
  lemma {:induction false} TokensCover(previous: Option<Byte>, s: Bytes)
    ensures Concat(Tokens(previous, s)) == s
    ensures Concat(MaskAll(Tokens(previous, s))) == RedactFrom(previous, s)
    decreases |s|
  {
    hide Next, Mask, TextOf;
    if s == [] {
      assert MaskAll([]) == [];
    } else {
      var t := Next(previous, s);
      var rest := Tokens(LastOf(TextOf(t)), s[|TextOf(t)|..]);
      TokensCover(LastOf(TextOf(t)), s[|TextOf(t)|..]);
      assert ([t] + rest)[1..] == rest;
      assert MaskAll([t] + rest) == [Mask(t)] + MaskAll(rest);
      assert MaskAll([t] + rest)[1..] == MaskAll(rest);
      assert s == TextOf(t) + s[|TextOf(t)|..];
    }
  }
}
