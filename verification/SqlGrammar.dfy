/** SQL text by a grammar of its own: names, literals, comments, dollar quotes, numbers and everything else.
    The scanner reads every text the one way the grammar allows, and redaction shows only what is not secret. */
module SqlGrammar {
  import opened ByteStrings
  import opened SqlScanner
  import opened SqlRedaction

  datatype Piece =
    | Name(text: Bytes)
    | Text(text: Bytes)
    | Line(text: Bytes, ended: bool)
    | Block(text: Bytes)
    | Dollar(tag: Bytes, text: Bytes)
    | Figure(text: Bytes)
    | Plain(byte: Byte)
    | OpenName(text: Bytes)
    | OpenText(text: Bytes)
    | OpenBlock(text: Bytes)

  // ------------------------------------------------------------------------- writing

  /** Text with every quote in it written twice. */
  function Doubled(text: Bytes, quote: Byte): Bytes {
    if text == [] then []
    else (if text[0] == quote then [quote, quote] else [text[0]]) + Doubled(text[1..], quote)
  }

  function Quote(text: Bytes, quote: Byte): Bytes {
    [quote] + Doubled(text, quote) + [quote]
  }

  function Delimiter(tag: Bytes): Bytes {
    Ascii("$") + tag + Ascii("$")
  }

  function Write(p: Piece): Bytes {
    match p
    case Name(text) => Quote(text, '"' as int)
    case Text(text) => Quote(text, '\'' as int)
    case Line(text, ended) => Ascii("--") + text + if ended then ['\n' as int] else []
    case Block(text) => Ascii("/*") + text + Ascii("*/")
    case Dollar(tag, text) => Delimiter(tag) + text + Delimiter(tag)
    case Figure(text) => text
    case Plain(b) => [b]
    case OpenName(text) => ['"' as int] + Doubled(text, '"' as int)
    case OpenText(text) => ['\'' as int] + Doubled(text, '\'' as int)
    case OpenBlock(text) => Ascii("/*") + text
  }

  /** What may be seen of a piece: names and plain text as they are, anything else only by its kind, and a dollar
      quote by its tag. */
  function Show(p: Piece): Bytes {
    match p
    case Name(_) => Write(p)
    case OpenName(_) => Write(p)
    case Plain(_) => Write(p)
    case Text(_) => Ascii("'?'")
    case OpenText(_) => Ascii("'?'")
    case Line(_, ended) => Ascii("-- [REDACTED]") + if ended then ['\n' as int] else []
    case Block(_) => Ascii("/* [REDACTED] */")
    case OpenBlock(_) => Ascii("/* [REDACTED] */")
    case Dollar(tag, _) => Delimiter(tag) + Ascii("?") + Delimiter(tag)
    case Figure(_) => Ascii("?")
  }

  function WriteAll(ps: seq<Piece>): Bytes {
    if ps == [] then [] else Write(ps[0]) + WriteAll(ps[1..])
  }

  function ShowAll(ps: seq<Piece>): Bytes {
    if ps == [] then [] else Show(ps[0]) + ShowAll(ps[1..])
  }

  // --------------------------------------------------------------------- what may stand where

  predicate IsAsciiDigit(b: Byte) {
    48 <= b <= 57
  }

  predicate IsWordByte(b: Byte) {
    48 <= b <= 57 || 65 <= b <= 90 || b == 95 || 97 <= b <= 122
  }

  /** A byte right after a digit that makes the digit part of a word or parameter. */
  predicate Joins(s: Bytes) {
    s != [] && ((IsWordByte(s[0]) && !IsAsciiDigit(s[0])) || s[0] == '$' as int)
  }

  /** A byte right before a digit that makes the digit part of a word or parameter. */
  predicate JoinedBy(p: Previous) {
    p.Some? && (IsWordByte(p.value) || p.value == '$' as int)
  }

  predicate IsFigureByte(b: Byte) {
    48 <= b <= 57 || b == 46 || b == 101 || b == 69 || b == 43 || b == 45
  }

  predicate AllWord(tag: Bytes) {
    forall i :: 0 <= i < |tag| ==> IsWordByte(tag[i])
  }

  ghost predicate Nowhere(needle: Bytes, s: Bytes, before: nat) {
    forall j: nat :: j < before ==> !At(s, needle, j)
  }

  /** No dollar quote starts here: whatever delimiter does, it does not come again. */
  ghost predicate OpensNothing(s: Bytes) {
    forall tag: Bytes, j: nat :: AllWord(tag) && Delimiter(tag) <= s && j >= |Delimiter(tag)| ==> !At(s, Delimiter(tag), j)
  }

  predicate Begins(s: Bytes, b: Byte) {
    s != [] && s[0] == b
  }

  /** A piece may stand between the byte before it and the text after it. */
  ghost predicate Fits(prev: Previous, p: Piece, rest: Bytes) {
    match p
    case Name(_) => !Begins(rest, '"' as int)
    case Text(_) => !Begins(rest, '\'' as int)
    case Line(text, ended) => '\n' as int !in text && (ended || rest == [])
    case Block(text) => Nowhere(Ascii("*/"), text, |text|)
    case Dollar(tag, text) => AllWord(tag) && Nowhere(Delimiter(tag), text + Delimiter(tag), |text|)
    case Figure(text) =>
      && text != [] && IsAsciiDigit(text[0]) && !JoinedBy(prev) && !Joins((text + rest)[1..])
      && (forall i :: 0 <= i < |text| ==> IsFigureByte(text[i])) && !(rest != [] && IsFigureByte(rest[0]))
    case Plain(b) =>
      && b != '"' as int && b != '\'' as int
      && !(b == '-' as int && Begins(rest, '-' as int)) && !(b == '/' as int && Begins(rest, '*' as int))
      && (b == '$' as int ==> OpensNothing([b] + rest))
      && (IsAsciiDigit(b) ==> JoinedBy(prev) || Joins(rest))
    case OpenName(_) => rest == []
    case OpenText(_) => rest == []
    case OpenBlock(text) => rest == [] && Nowhere(Ascii("*/"), text, |text|)
  }

  function LastByte(p: Piece): Previous {
    if Write(p) == [] then None else Some(Write(p)[|Write(p)| - 1])
  }

  /** Every piece may stand where it stands. */
  ghost predicate WellWritten(prev: Previous, ps: seq<Piece>)
    decreases |ps|
  {
    ps == [] || (Fits(prev, ps[0], WriteAll(ps[1..])) && WellWritten(LastByte(ps[0]), ps[1..]))
  }

  function TokenOf(p: Piece): Token {
    match p
    case Name(_) => Quoted(Write(p))
    case OpenName(_) => Quoted(Write(p))
    case Text(_) => Literal(Write(p))
    case OpenText(_) => Literal(Write(p))
    case Line(_, _) => LineComment(Write(p))
    case Block(_) => BlockComment(Write(p))
    case OpenBlock(_) => BlockComment(Write(p))
    case Dollar(tag, text) => DollarQuoted(Delimiter(tag), text)
    case Figure(text) => Number(text)
    case Plain(b) => Other(b)
  }

  function TokensOf(ps: seq<Piece>): seq<Token> {
    seq(|ps|, i requires 0 <= i < |ps| => TokenOf(ps[i]))
  }

  // -------------------------------------------------------------------------- quotes

  function Closing(quote: Byte, closed: bool): Bytes {
    if closed then [quote] else []
  }

  lemma {:induction false} QuoteEndsAt(s: Bytes, quote: Byte, i: nat, text: Bytes, closed: bool, rest: Bytes)
    requires i <= |s| && s[i..] == Doubled(text, quote) + Closing(quote, closed) + rest
    requires if closed then !Begins(rest, quote) else rest == []
    ensures QuoteEnd(s, quote, i) == |s| - |rest|
    decreases |text|
  {
    var tail := s[i..];
    if text != [] {
      var n := if text[0] == quote then 2 else 1;
      DoubledTail(text, quote, Closing(quote, closed) + rest);
      assert Doubled(text, quote) + Closing(quote, closed) + rest == Doubled(text, quote) + (Closing(quote, closed) + rest);
      assert s[i + n..] == tail[n..];
      assert s[i] == tail[0] && (n == 2 ==> s[i + 1] == tail[1]);
      assert Doubled(text[1..], quote) + (Closing(quote, closed) + rest) == Doubled(text[1..], quote) + Closing(quote, closed) + rest;
      QuoteEndsAt(s, quote, i + n, text[1..], closed, rest);
    } else if closed {
      assert tail == [quote] + rest;
      assert s[i] == tail[0];
      assert rest != [] ==> s[i + 1] == tail[1];
    }
  }

  lemma {:induction false} DoubledTail(text: Bytes, quote: Byte, more: Bytes)
    requires text != []
    ensures var n := if text[0] == quote then 2 else 1;
            var s := Doubled(text, quote) + more;
            && |s| >= n && s[n..] == Doubled(text[1..], quote) + more
            && s[0] == text[0] && (n == 2 ==> s[1] == quote)
  {
    var first: Bytes := if text[0] == quote then [quote, quote] else [text[0]];
    var more' := Doubled(text[1..], quote) + more;
    assert Doubled(text, quote) + more == first + more';
  }

  lemma QuotedIsRead(prev: Previous, text: Bytes, quote: Byte, closed: bool, rest: Bytes)
    requires quote == QUOTE || quote == APOSTROPHE
    requires if closed then !Begins(rest, quote) else rest == []
    ensures var w := [quote] + Doubled(text, quote) + Closing(quote, closed);
            Next(prev, w + rest) == if quote == QUOTE then Quoted(w) else Literal(w)
  {
    hide QuoteEnd, Doubled, Closing, LineEnd, BlockEnd, DollarToken, IsNumberStart, NumberEnd, StartsWith;
    var w := [quote] + Doubled(text, quote) + Closing(quote, closed);
    var s := w + rest;
    assert s[1..] == Doubled(text, quote) + Closing(quote, closed) + rest;
    QuoteEndsAt(s, quote, 1, text, closed, rest);
    assert s[..|w|] == w;
  }

  // -------------------------------------------------------------------- other pieces

  lemma Spellings()
    ensures Ascii("--") == DASHES && Ascii("/*") == OPEN_COMMENT && Ascii("*/") == CLOSE_COMMENT
    ensures Ascii("'?'") == MASKED_LITERAL && Ascii("?") == [QUESTION] && Ascii("$") == [DOLLAR]
    ensures Ascii("-- [REDACTED]") == MASKED_LINE && Ascii("/* [REDACTED] */") == MASKED_BLOCK
  {
  }

  lemma LineIsRead(prev: Previous, text: Bytes, ended: bool, rest: Bytes)
    requires NEWLINE !in text && (ended || rest == [])
    ensures var w := DASHES + text + if ended then [NEWLINE] else []; Next(prev, w + rest) == LineComment(w)
  {
    hide NewlineIndex;
    var w := DASHES + text + if ended then [NEWLINE] else [];
    var s := w + rest;
    var n := 2 + |text|;
    assert s[..2] == DASHES;
    assert s[..n] == DASHES + text;
    NewlineAt(s, n);
    assert s[..|w|] == w;
  }

  lemma BlockIsRead(prev: Previous, text: Bytes, closed: bool, rest: Bytes)
    requires Nowhere(CLOSE_COMMENT, text, |text|) && (closed || rest == [])
    ensures var w := OPEN_COMMENT + text + if closed then CLOSE_COMMENT else []; Next(prev, w + rest) == BlockComment(w)
  {
    hide Find;
    var w := OPEN_COMMENT + text + if closed then CLOSE_COMMENT else [];
    var s := w + rest;
    assert s[..2] == OPEN_COMMENT;
    if closed {
      var b := s[2..];
      assert b == text + CLOSE_COMMENT + rest;
      CloseIsFirst(text, rest);
      assert s[..|w|] == w;
    } else {
      assert s[2..] == text;
      forall j: nat ensures !At(text, CLOSE_COMMENT, j) {}
      assert s == w && s[..|s|] == s;
    }
  }

  lemma CloseIsFirst(text: Bytes, rest: Bytes)
    requires Nowhere(CLOSE_COMMENT, text, |text|)
    ensures Find(text + CLOSE_COMMENT + rest, CLOSE_COMMENT) == Some(|text|)
  {
    hide Find;
    var b := text + CLOSE_COMMENT + rest;
    assert b[|text|..|text| + 2] == CLOSE_COMMENT;
    forall j: nat | j < |text| ensures !At(b, CLOSE_COMMENT, j) {
      if j + 2 <= |text| {
        assert b == text + (CLOSE_COMMENT + rest);
        AtAppend(text, CLOSE_COMMENT + rest, CLOSE_COMMENT, j);
      } else {
        assert b[j..j + 2][1] == b[j + 1] == 42;
      }
    }
    FindIs(b, CLOSE_COMMENT, |text|);
  }

  lemma SameBytes()
    ensures forall b: Byte :: IsWordByte(b) == IsTag(b)
    ensures forall b: Byte :: IsFigureByte(b) == IsNumberByte(b)
  {
  }

  lemma DelimiterOfTag(tag: Bytes)
    requires AllWord(tag)
    ensures IsDelimiter(Delimiter(tag)) && |Delimiter(tag)| == |tag| + 2
  {
    Spellings();
    SameBytes();
    var e := Delimiter(tag);
    assert forall i :: 0 < i < |e| - 1 ==> e[i] == tag[i - 1];
  }

  lemma TagOfDelimiter(e: Bytes)
    requires IsDelimiter(e)
    ensures AllWord(e[1..|e| - 1]) && Delimiter(e[1..|e| - 1]) == e
  {
    Spellings();
    SameBytes();
  }

  lemma DollarIsRead(prev: Previous, tag: Bytes, text: Bytes, rest: Bytes)
    requires AllWord(tag) && Nowhere(Delimiter(tag), text + Delimiter(tag), |text|)
    ensures Next(prev, Delimiter(tag) + text + Delimiter(tag) + rest) == DollarQuoted(Delimiter(tag), text)
  {
    hide DollarToken, Delimiter, QuoteEnd, LineEnd, BlockEnd, NumberEnd, IsDelimiter, IsNumberStart;
    DelimiterOfTag(tag);
    DollarTokenIs(Delimiter(tag), text, rest);
  }

  lemma DollarTokenIs(e: Bytes, text: Bytes, rest: Bytes)
    requires IsDelimiter(e) && Nowhere(e, text + e, |text|)
    ensures DollarToken(e + text + e + rest) == Some(DollarQuoted(e, text))
  {
    hide Find, DelimiterEnd, IsDelimiter, At;
    var s := e + text + e + rest;
    DelimiterEnds(e);
    assert s[..|e|] == e;
    DelimiterIs(s, e);
    assert s[|e|..] == text + e + rest;
    ComesAgain(e, text, rest);
    assert s[|e|..|e| + |text|] == text;
  }

  lemma ComesAgain(e: Bytes, text: Bytes, rest: Bytes)
    requires Nowhere(e, text + e, |text|)
    ensures Find(text + e + rest, e) == Some(|text|)
  {
    hide Find;
    var b := text + e + rest;
    assert b[|text|..|text| + |e|] == e;
    forall j: nat | j < |text| ensures !At(b, e, j) {
      AtAppend(text + e, rest, e, j);
    }
    FindIs(b, e, |text|);
  }

  lemma {:induction false} FigureEndsAt(s: Bytes, i: nat, n: nat)
    requires i <= n <= |s| && (forall k :: i <= k < n ==> IsNumberByte(s[k])) && (n < |s| ==> !IsNumberByte(s[n]))
    ensures NumberEnd(s, i) == n
    decreases n - i
  {
    if i < n { FigureEndsAt(s, i + 1, n); }
  }

  lemma FigureIsRead(prev: Previous, text: Bytes, rest: Bytes)
    requires Fits(prev, Figure(text), rest)
    ensures Next(prev, text + rest) == Number(text)
  {
    hide NumberEnd;
    SameBytes();
    var s := text + rest;
    if |s| > 1 { assert s[1] == s[1..][0]; }
    assert forall k :: 0 <= k < |text| ==> s[k] == text[k];
    FigureEndsAt(s, 1, |text|);
    assert s[..|text|] == text;
    NotDollar(s);
  }

  lemma NotDollar(s: Bytes)
    requires s != [] && s[0] != DOLLAR
    ensures DollarToken(s).None?
  {
  }

  lemma PlainIsRead(prev: Previous, b: Byte, rest: Bytes)
    requires Fits(prev, Plain(b), rest)
    ensures Next(prev, [b] + rest) == Other(b)
  {
    hide DollarToken, QuoteEnd, LineEnd, BlockEnd, NumberEnd;
    SameBytes();
    var s := [b] + rest;
    assert s[1..] == rest;
    if |s| > 1 { assert s[1] == rest[0]; }
    if |s| >= 2 { assert s[..2] == [s[0], s[1]]; }
    if b == DOLLAR { NothingOpens(s); } else { NotDollar(s); }
  }

  lemma NothingOpens(s: Bytes)
    requires OpensNothing(s)
    ensures DollarToken(s).None?
  {
    hide Find, Delimiter, IsDelimiter;
    if DelimiterEnd(s).Some? {
      var n := DelimiterEnd(s).value;
      var e := s[..n];
      DelimiterShape(s);
      TagOfDelimiter(e);
      var tag := e[1..|e| - 1];
      forall j: nat ensures !At(s[n..], e, j) {
        AtDrop(s, e, n, j);
        assert Delimiter(tag) <= s && n + j >= |Delimiter(tag)|;
      }
    }
  }

  // ------------------------------------------------------------------------- reading

  /** A piece that may stand where it stands is read as the token it is. */
  lemma PieceIsRead(prev: Previous, p: Piece, rest: Bytes)
    requires Fits(prev, p, rest)
    ensures Write(p) != [] && Next(prev, Write(p) + rest) == TokenOf(p) && TextOf(TokenOf(p)) == Write(p)
  {
    hide Next, Nowhere, OpensNothing, Delimiter, Doubled;
    Spellings();
    match p
    case Name(text) => QuotedIsRead(prev, text, QUOTE, true, rest);
    case Text(text) => QuotedIsRead(prev, text, APOSTROPHE, true, rest);
    case OpenName(text) =>
      QuotedIsRead(prev, text, QUOTE, false, rest);
      assert [QUOTE] + Doubled(text, QUOTE) + [] == [QUOTE] + Doubled(text, QUOTE);
    case OpenText(text) =>
      QuotedIsRead(prev, text, APOSTROPHE, false, rest);
      assert [APOSTROPHE] + Doubled(text, APOSTROPHE) + [] == [APOSTROPHE] + Doubled(text, APOSTROPHE);
    case Line(text, ended) => LineIsRead(prev, text, ended, rest);
    case Block(text) => BlockIsRead(prev, text, true, rest);
    case OpenBlock(text) =>
      BlockIsRead(prev, text, false, rest);
      assert OPEN_COMMENT + text + [] == OPEN_COMMENT + text;
    case Dollar(tag, text) =>
      DelimiterOfTag(tag);
      DollarIsRead(prev, tag, text, rest);
    case Figure(text) => FigureIsRead(prev, text, rest);
    case Plain(b) => PlainIsRead(prev, b, rest);
  }

  lemma MaskIsShown(p: Piece)
    requires p.Line? ==> '\n' as int !in p.text
    ensures TextOf(Mask(TokenOf(p))) == Show(p)
  {
    hide Delimiter, Doubled, MASKED_LINE, MASKED_BLOCK;
    Spellings();
    if p.Line? {
      var w := Write(p);
      assert p.ended ==> w[|w| - 1] == NEWLINE;
      assert !p.ended && p.text != [] ==> w[|w| - 1] == p.text[|p.text| - 1];
      assert !p.ended && p.text == [] ==> w[|w| - 1] == 45;
    }
  }

  /** Wherever a piece stands, redaction puts what may be seen of it and goes on after it. */
  lemma PieceIsMasked(prev: Previous, p: Piece, rest: Bytes)
    requires Fits(prev, p, rest)
    ensures RedactFrom(prev, Write(p) + rest) == Show(p) + RedactFrom(LastByte(p), rest)
    ensures Tokens(prev, Write(p) + rest) == [TokenOf(p)] + Tokens(LastByte(p), rest)
  {
    hide Next, Write, Show, TokenOf, Mask, TextOf, OpensNothing, Nowhere;
    PieceIsRead(prev, p, rest);
    MaskIsShown(p);
    var s := Write(p) + rest;
    assert s[|Write(p)|..] == rest;
  }

  /** The scanner reads written text as exactly the pieces written, and redaction shows exactly what may be
      seen of each. */
  lemma {:induction false} WrittenIsRead(prev: Previous, ps: seq<Piece>)
    requires WellWritten(prev, ps)
    ensures Tokens(prev, WriteAll(ps)) == TokensOf(ps)
    ensures RedactFrom(prev, WriteAll(ps)) == ShowAll(ps)
    decreases |ps|
  {
    hide Tokens, RedactFrom, Fits, Write, Show, TokenOf, LastByte;
    if ps == [] {
      NothingToRead(prev);
    } else {
      PieceIsMasked(prev, ps[0], WriteAll(ps[1..]));
      WrittenIsRead(LastByte(ps[0]), ps[1..]);
      assert TokensOf(ps) == [TokenOf(ps[0])] + TokensOf(ps[1..]);
    }
  }

  lemma NothingToRead(prev: Previous)
    ensures Tokens(prev, []) == [] && RedactFrom(prev, []) == []
  {
  }

  /** Two texts whose pieces look alike redact to the same text, whatever the secrets in them. */
  lemma SecretsDoNotShow(ps: seq<Piece>, qs: seq<Piece>)
    requires WellWritten(None, ps) && WellWritten(None, qs) && ShowAll(ps) == ShowAll(qs)
    ensures Redact(WriteAll(ps)) == Redact(WriteAll(qs))
  {
    hide WellWritten, RedactFrom, Tokens;
    WrittenIsRead(None, ps);
    WrittenIsRead(None, qs);
  }

  /** A literal is masked whole, with every apostrophe written twice inside it, before any text that does not
      begin with one more. */
  lemma LiteralsDoNotShow(prev: Previous, a: Bytes, b: Bytes, rest: Bytes)
    requires !Begins(rest, '\'' as int)
    ensures var quoted := Quote(a, '\'' as int);
            && Next(prev, quoted + rest) == Literal(quoted)
            && RedactFrom(prev, quoted + rest) == Ascii("'?'") + RedactFrom(Some('\'' as int), rest)
            && RedactFrom(prev, quoted + rest) == RedactFrom(prev, Quote(b, '\'' as int) + rest)
  {
    hide Next, RedactFrom, Tokens, Doubled;
    PieceIsRead(prev, Text(a), rest);
    PieceIsMasked(prev, Text(a), rest);
    PieceIsMasked(prev, Text(b), rest);
  }

  // ------------------------------------------------------------------------ every text

  lemma {:induction false} QuotedWasWritten(s: Bytes, quote: Byte, i: nat) returns (text: Bytes, closed: bool)
    requires i <= |s|
    ensures var n := QuoteEnd(s, quote, i);
            && s[i..n] == Doubled(text, quote) + (if closed then [quote] else [])
            && (closed ==> !Begins(s[n..], quote)) && (!closed ==> n == |s|)
    decreases |s| - i
  {
    if i == |s| {
      text, closed := [], false;
    } else if s[i] != quote {
      text, closed := QuotedWasWritten(s, quote, i + 1);
      var n := QuoteEnd(s, quote, i + 1);
      assert ([s[i]] + text)[1..] == text;
      assert s[i..n] == [s[i]] + s[i + 1..n];
      text := [s[i]] + text;
    } else if i + 1 < |s| && s[i + 1] == quote {
      text, closed := QuotedWasWritten(s, quote, i + 2);
      var n := QuoteEnd(s, quote, i + 2);
      assert ([quote] + text)[1..] == text;
      assert s[i..n] == [quote, quote] + s[i + 2..n];
      text := [quote] + text;
    } else {
      text, closed := [], true;
    }
  }

  lemma QuotePieces(s: Bytes, quote: Byte) returns (text: Bytes, closed: bool)
    requires s != [] && s[0] == quote
    ensures var n := QuoteEnd(s, quote, 1);
            && s[..n] == [quote] + Doubled(text, quote) + (if closed then [quote] else [])
            && (closed ==> !Begins(s[n..], quote)) && (!closed ==> s[n..] == [])
  {
    hide QuoteEnd, Doubled;
    text, closed := QuotedWasWritten(s, quote, 1);
    var n := QuoteEnd(s, quote, 1);
    assert s[..n] == [quote] + s[1..n];
    assert [quote] + (Doubled(text, quote) + if closed then [quote] else []) == [quote] + Doubled(text, quote) + if closed then [quote] else [];
  }

  lemma BlockPiece(s: Bytes) returns (p: Piece)
    requires StartsWith(s, OPEN_COMMENT)
    ensures (p.Block? || p.OpenBlock?) && Write(p) == s[..BlockEnd(s)] && Nowhere(Ascii("*/"), p.text, |p.text|)
    ensures p.OpenBlock? ==> BlockEnd(s) == |s|
  {
    hide Find;
    Spellings();
    var b := s[2..];
    match Find(b, CLOSE_COMMENT)
    case None =>
      p := OpenBlock(b);
      assert OPEN_COMMENT + b == s;
    case Some(k) =>
      p := Block(b[..k]);
      assert b[k..k + 2] == CLOSE_COMMENT;
      assert s[..k + 4] == OPEN_COMMENT + b[..k] + CLOSE_COMMENT;
      forall j: nat | j < k ensures !At(b[..k], CLOSE_COMMENT, j) {
        if j + 2 <= k {
          assert b == b[..k] + b[k..];
          AtAppend(b[..k], b[k..], CLOSE_COMMENT, j);
        }
      }
  }

  lemma DollarPiece(s: Bytes) returns (p: Piece)
    requires DollarToken(s).Some?
    ensures p.Dollar? && AllWord(p.tag) && Nowhere(Delimiter(p.tag), p.text + Delimiter(p.tag), |p.text|)
    ensures DollarToken(s).value == DollarQuoted(Delimiter(p.tag), p.text)
  {
    hide Find, IsDelimiter, Delimiter;
    var n := DelimiterEnd(s).value;
    var e := s[..n];
    DelimiterShape(s);
    TagOfDelimiter(e);
    var b := s[n..];
    var k := Find(b, e).value;
    assert b[k..k + n] == e && s[n..n + k] == b[..k];
    p := Dollar(e[1..|e| - 1], b[..k]);
    var shown := b[..k] + e;
    assert b == shown + b[k + n..];
    forall j: nat | j < k ensures !At(shown, e, j) {
      if j + n <= |shown| { AtAppend(shown, b[k + n..], e, j); }
    }
  }

  lemma OtherPiece(prev: Previous, s: Bytes)
    requires s != [] && Next(prev, s).Other?
    ensures Fits(prev, Plain(s[0]), s[1..])
  {
    hide QuoteEnd, LineEnd, BlockEnd, NumberEnd, DollarToken, Delimiter;
    SameBytes();
    var rest := s[1..];
    assert [s[0]] + rest == s;
    if rest != [] { assert s[..2] == [s[0], rest[0]] && s[1] == rest[0]; }
    if s[0] == DOLLAR { NoQuoteOpens(s); }
  }

  lemma NoQuoteOpens(s: Bytes)
    requires DollarToken(s).None?
    ensures OpensNothing(s)
  {
    hide Find, Delimiter, IsDelimiter, DelimiterEnd;
    forall tag: Bytes, j: nat | AllWord(tag) && Delimiter(tag) <= s && j >= |Delimiter(tag)|
      ensures !At(s, Delimiter(tag), j)
    {
      var e := Delimiter(tag);
      DelimiterOfTag(tag);
      DelimiterIs(s, e);
      assert s[..|e|] == e;
      AtDrop(s, e, |e|, j - |e|);
    }
  }

  lemma FigurePiece(prev: Previous, s: Bytes)
    requires IsNumberStart(prev, s)
    ensures var n := NumberEnd(s, 1); Fits(prev, Figure(s[..n]), s[n..])
  {
    SameBytes();
    var n := NumberEnd(s, 1);
    var text, rest := s[..n], s[n..];
    assert text + rest == s;
    NumberBytes(s, 1);
    if |s| > 1 { assert s[1..][0] == s[1]; }
    assert forall i :: 0 <= i < n ==> IsFigureByte(text[i]) by {
      forall i | 0 <= i < n ensures IsFigureByte(text[i]) { if i > 0 { assert IsNumberByte(s[i]); } }
    }
  }

  lemma {:induction false} NumberBytes(s: Bytes, i: nat)
    requires i <= |s|
    ensures forall k :: i <= k < NumberEnd(s, i) ==> IsNumberByte(s[k])
    decreases |s| - i
  {
    if i < |s| && IsNumberByte(s[i]) { NumberBytes(s, i + 1); }
  }

  /** The first token of any text is a piece that may stand there. */
  lemma FirstPiece(prev: Previous, s: Bytes) returns (p: Piece)
    requires s != []
    ensures Write(p) != [] && Write(p) <= s && Fits(prev, p, s[|Write(p)|..])
  {
    hide QuoteEnd, NumberEnd, DollarToken, NewlineIndex, BlockEnd, Nowhere, OpensNothing, Delimiter, Doubled, IsNumberStart, Next;
    Spellings();
    if s[0] == QUOTE {
      var text, closed := QuotePieces(s, QUOTE);
      p := if closed then Name(text) else OpenName(text);
      assert [QUOTE] + Doubled(text, QUOTE) + [] == [QUOTE] + Doubled(text, QUOTE);
    } else if s[0] == APOSTROPHE {
      var text, closed := QuotePieces(s, APOSTROPHE);
      p := if closed then Text(text) else OpenText(text);
      assert [APOSTROPHE] + Doubled(text, APOSTROPHE) + [] == [APOSTROPHE] + Doubled(text, APOSTROPHE);
    } else if StartsWith(s, DASHES) {
      p := LinePiece(s);
    } else if StartsWith(s, OPEN_COMMENT) {
      p := BlockPiece(s);
    } else if DollarToken(s).Some? {
      p := DollarPiece(s);
    } else if IsNumberStart(prev, s) {
      FigurePiece(prev, s);
      p := Figure(s[..NumberEnd(s, 1)]);
    } else {
      LeftOver(prev, s);
      OtherPiece(prev, s);
      p := Plain(s[0]);
    }
  }

  lemma LeftOver(prev: Previous, s: Bytes)
    requires s != [] && s[0] != QUOTE && s[0] != APOSTROPHE && !StartsWith(s, DASHES) && !StartsWith(s, OPEN_COMMENT)
    requires DollarToken(s).None? && !IsNumberStart(prev, s)
    ensures Next(prev, s).Other?
  {
    hide DollarToken, IsNumberStart;
  }

  lemma LinePiece(s: Bytes) returns (p: Piece)
    requires StartsWith(s, DASHES)
    ensures p.Line? && Write(p) != [] && Write(p) <= s && '\n' as int !in p.text && (p.ended || Write(p) == s)
  {
    hide NewlineIndex;
    Spellings();
    var n := NewlineIndex(s);
    assert n >= 2 by { assert s[..2] == DASHES; assert s[0] == 45 && s[1] == 45; }
    p := Line(s[2..n], n < |s|);
    assert s[..n] == DASHES + s[2..n];
    assert forall b :: b in s[2..n] ==> b in s[..n];
    if n < |s| { assert s[..n + 1] == s[..n] + [NEWLINE]; } else { assert s[..n] == s; }
  }

  /** Every text is written by some list of pieces, so the grammar leaves nothing out. */
  lemma {:induction false} EveryTextIsWritten(prev: Previous, s: Bytes) returns (ps: seq<Piece>)
    ensures WellWritten(prev, ps) && WriteAll(ps) == s
    decreases |s|
  {
    hide Fits, Write;
    if s == [] {
      ps := [];
    } else {
      var p := FirstPiece(prev, s);
      var rest := s[|Write(p)|..];
      var more := EveryTextIsWritten(LastByte(p), rest);
      ps := [p] + more;
      assert ps[1..] == more;
      assert s == Write(p) + rest;
    }
  }
}
