/** Chunked bodies (section 7.1 of RFC 9112): every encoding decodes to its payload and leaves what follows. */
module Http1Chunked {
  import opened ByteStrings
  import opened Streaming
  import opened Text
  import opened TextLemmas
  import opened LineText
  import opened Http1
  import Http1Fragmentation

  /** One chunk as sent: hexadecimal size, optional blanks and extension, data. */
  datatype Chunk = Chunk(digits: Bytes, blanks: Bytes, extension: Bytes, data: Bytes)

  predicate HexSize(digits: Bytes, size: nat) {
    digits != [] && AllDigits(digits, 16) && DigitsValue(digits, 16) == size && size <= USIZE_MAX
  }

  predicate Blank(s: Bytes) {
    forall i :: 0 <= i < |s| ==> s[i] == 32 || s[i] == 9
  }

  predicate Extension(s: Bytes) {
    s == [] || (s[0] == ';' as int && CR !in s && ValidUtf8(s))
  }

  predicate SizeLine(digits: Bytes, blanks: Bytes, extension: Bytes, size: nat) {
    HexSize(digits, size) && Blank(blanks) && Extension(extension)
  }

  predicate ValidChunk(c: Chunk) {
    c.data != [] && SizeLine(c.digits, c.blanks, c.extension, |c.data|)
  }

  /** A body: chunks, the zero-size line, and trailer lines. */
  datatype Body = Body(chunks: seq<Chunk>, zero: Bytes, blanks: Bytes, extension: Bytes, trailers: seq<Bytes>)

  ghost predicate ValidBody(b: Body) {
    && (forall i :: 0 <= i < |b.chunks| ==> ValidChunk(b.chunks[i]))
    && SizeLine(b.zero, b.blanks, b.extension, 0)
    && GoodLines(b.trailers)
  }

  function EncodeChunk(c: Chunk): Bytes {
    c.digits + c.blanks + c.extension + CRLF + c.data + CRLF
  }

  function EncodeBody(b: Body): Bytes
    decreases b.chunks
  {
    if b.chunks == [] then b.zero + b.blanks + b.extension + CRLF + JoinLines(b.trailers) + CRLF
    else EncodeChunk(b.chunks[0]) + EncodeBody(b.(chunks := b.chunks[1..]))
  }

  function Payload(chunks: seq<Chunk>): Bytes {
    if chunks == [] then [] else chunks[0].data + Payload(chunks[1..])
  }

  // ------------------------------------------------------------- size lines

  lemma DigitIsPlain(b: Byte)
    requires DigitOf(b, 16).Some?
    ensures b < 0x80 && b != CR && b != ';' as int && b != '+' as int && b != 32 && !(9 <= b <= 13)
  {
  }

  lemma LastByteDecides(s: Bytes)
    requires s != [] && s[|s| - 1] < 0x80
    ensures TrailingSpace(s) == if IsSpace([s[|s| - 1]]) then 1 else 0
  {
    assert s[|s| - 1..] == [s[|s| - 1]];
  }

  lemma {:induction false} TrimBlanks(digits: Bytes, blanks: Bytes)
    requires digits != [] && AllDigits(digits, 16) && Blank(blanks)
    ensures TrimEnd(digits + blanks) == digits
    decreases |blanks|
  {
    hide TrailingSpace;
    var s := digits + blanks;
    DigitIsPlain(digits[|digits| - 1]);
    LastByteDecides(s);
    if blanks == [] {
      assert s == digits;
    } else {
      assert s[..|s| - 1] == digits + blanks[..|blanks| - 1];
      TrimBlanks(digits, blanks[..|blanks| - 1]);
    }
  }

  lemma LineIsText(digits: Bytes, blanks: Bytes, extension: Bytes)
    requires AllDigits(digits, 16) && Blank(blanks) && Extension(extension)
    ensures ValidUtf8(digits + blanks + extension) && NoCrlf(digits + blanks + extension)
    ensures ';' as int !in digits + blanks
  {
    var plain := digits + blanks;
    forall i | 0 <= i < |digits| ensures digits[i] < 0x80 && digits[i] != CR && digits[i] != ';' as int {
      DigitIsPlain(digits[i]);
    }
    AsciiIsUtf8(plain);
    Utf8Append(plain, extension);
    forall j: nat ensures !At(plain + extension, CRLF, j) { CrlfAt(plain + extension, j); }
  }

  lemma SizeText(digits: Bytes, blanks: Bytes, extension: Bytes)
    requires AllDigits(digits, 16) && Blank(blanks) && Extension(extension)
    ensures SplitOn(digits + blanks + extension, ';' as int)[0] == digits + blanks
  {
    var plain := digits + blanks;
    LineIsText(digits, blanks, extension);
    if extension == [] {
      assert plain + extension == plain;
    } else {
      assert plain + extension == plain + [';' as int] + extension[1..];
      SplitOnceIs(plain, ';' as int, extension[1..]);
    }
  }

  lemma ChunkLineParses(digits: Bytes, blanks: Bytes, extension: Bytes, size: nat)
    requires SizeLine(digits, blanks, extension, size)
    ensures ParseChunkLine(digits + blanks + extension) == ChunkSize(size)
  {
    LineIsText(digits, blanks, extension);
    SizeText(digits, blanks, extension);
    DigitIsPlain(digits[0]);
    assert LeadingSpace(digits + blanks) == 0;
    TrimBlanks(digits, blanks);
  }

  // ------------------------------------------------------------------ decoding

  /** A size line takes the decoder to the data, or to the trailers when the size is zero. */
  lemma ReadSize(cap: Option<nat>, x: Exchange, d: Direction, m: DecodedMessage, line: Bytes, size: nat, rest: Bytes)
    requires NoCrlf(line) && ParseChunkLine(line) == ChunkSize(size)
    ensures DrainStream(cap, d, WithPending(x, d, Chunked(m, Size)), line + CRLF + rest)
            == DrainStream(cap, d, WithPending(x, d, Chunked(m, if size == 0 then Trailers else Data(size))), rest)
  {
    hide ParseChunkLine, DrainStream, NoCrlf, StepHead, Capture, Track, At, Find;
    var x' := WithPending(x, d, Chunked(m, Size));
    var b := line + CRLF + rest;
    FindLineEnd(line, rest);
    assert b[..|line|] == line && b[|line| + 2..] == rest;
    QuietAdvance(cap, d, x', b);
  }

  /** The data and its CRLF take the decoder to the next size line. */
  lemma ReadData(cap: Option<nat>, x: Exchange, d: Direction, m: DecodedMessage, data: Bytes, rest: Bytes)
    requires data != []
    ensures DrainStream(cap, d, WithPending(x, d, Chunked(m, Data(|data|))), data + CRLF + rest)
            == DrainStream(cap, d, WithPending(x, d, Chunked(Capture(m, data, cap), Size)), rest)
  {
    hide ParseChunkLine, DrainStream, StepHead, Capture, Track, Find;
    var m' := Capture(m, data, cap);
    var b, b' := data + CRLF + rest, CRLF + rest;
    assert b[..|data|] == data && b[|data|..] == b' && b'[..2] == CRLF && b'[2..] == rest;
    QuietAdvance(cap, d, WithPending(x, d, Chunked(m, Data(|data|))), b);
    QuietAdvance(cap, d, WithPending(x, d, Chunked(m', DataCrlf)), b');
  }

  /** The end of the body emits the message and leaves what follows. */
  lemma ReadTrailers(cap: Option<nat>, x: Exchange, d: Direction, m: DecodedMessage, trailers: seq<Bytes>, rest: Bytes)
    requires GoodLines(trailers)
    ensures DrainStream(cap, d, WithPending(x, d, Chunked(m, Trailers)), JoinLines(trailers) + CRLF + rest)
            == Prepend(Batch([m], None), DrainStream(cap, d, Track(WithPending(x, d, Idle), m), rest))
  {
    hide ParseChunkLine, DrainStream, StepHead, Capture, Track, Find, GoodLines, JoinLines, StartsWith;
    TrailersEnd(trailers, rest);
    DrainUnfolds(cap, d, WithPending(x, d, Chunked(m, Trailers)), JoinLines(trailers) + CRLF + rest);
  }

  /** Trailer lines and the empty line after them end where the scanner looks. */
  lemma TrailersEnd(trailers: seq<Bytes>, rest: Bytes)
    requires GoodLines(trailers)
    ensures var b := JoinLines(trailers) + CRLF + rest;
            if StartsWith(b, CRLF) then b[2..] == rest
            else Find(b, CRLFCRLF).Some? && b[Find(b, CRLFCRLF).value + 4..] == rest
  {
    hide Find, NoCrlf;
    var text := JoinLines(trailers);
    var b := text + CRLF + rest;
    if trailers == [] {
      assert b == CRLF + rest;
    } else {
      FindBlankLine(trailers, rest);
      var beyond := JoinLines(trailers[1..]) + CRLF + rest;
      assert b == trailers[0] + CRLF + beyond;
      LineNotBlank(trailers[0], beyond);
      assert At(b, CRLF, 0) <==> StartsWith(b, CRLF);
      assert b[|text| - 2 + 4..] == rest;
    }
  }

  lemma {:induction false} ReadBody(cap: Option<nat>, x: Exchange, d: Direction, m: DecodedMessage, b: Body, rest: Bytes)
    requires ValidBody(b)
    ensures var done := Capture(m, Payload(b.chunks), cap);
            DrainStream(cap, d, WithPending(x, d, Chunked(m, Size)), EncodeBody(b) + rest)
            == Prepend(Batch([done], None), DrainStream(cap, d, Track(WithPending(x, d, Idle), done), rest))
    decreases |b.chunks|
  {
    hide ParseChunkLine, DrainStream, Track, NoCrlf;
    if b.chunks == [] {
      hide Capture;
      var line := b.zero + b.blanks + b.extension;
      var after := JoinLines(b.trailers) + CRLF + rest;
      assert EncodeBody(b) + rest == line + CRLF + after;
      LineIsText(b.zero, b.blanks, b.extension);
      ChunkLineParses(b.zero, b.blanks, b.extension, 0);
      ReadSize(cap, x, d, m, line, 0, after);
      ReadTrailers(cap, x, d, m, b.trailers, rest);
      NothingCaptured(m, cap);
    } else {
      hide Capture;
      var c, next := b.chunks[0], b.(chunks := b.chunks[1..]);
      var line := c.digits + c.blanks + c.extension;
      var m' := Capture(m, c.data, cap);
      var after := EncodeBody(next) + rest;
      assert EncodeBody(b) + rest == line + CRLF + (c.data + CRLF + after);
      LineIsText(c.digits, c.blanks, c.extension);
      ChunkLineParses(c.digits, c.blanks, c.extension, |c.data|);
      ReadSize(cap, x, d, m, line, |c.data|, c.data + CRLF + after);
      ReadData(cap, x, d, m, c.data, after);
      ReadBody(cap, x, d, m', next, rest);
      Http1Fragmentation.CaptureAppend(m, c.data, Payload(next.chunks), cap);
    }
  }

  lemma NothingCaptured(m: DecodedMessage, cap: Option<nat>)
    ensures Capture(m, [], cap) == m
  {
    assert m.body + [] == m.body;
  }

  /** Whatever follows it, a chunked body with its head read yields one message holding the first
      `n` payload bytes, truncated exactly when there are more, and the loop continues at the
      first byte after the body. */
  lemma ChunkedBodyDecodes(n: nat, x: Exchange, d: Direction, head: ParsedHead, b: Body, rest: Bytes)
    requires ValidBody(b)
    ensures var payload := Payload(b.chunks);
            var m := DecodedMessage(d, head.startLine, head.headers, payload[..Min(n, |payload|)], |payload| > n);
            DrainStream(Some(n), d, WithPending(x, d, Chunked(Headed(d, head), Size)), EncodeBody(b) + rest)
            == Prepend(Batch([m], None), DrainStream(Some(n), d, Track(WithPending(x, d, Idle), m), rest))
  {
    hide DrainStream, ValidBody, EncodeBody, Track;
    ReadBody(Some(n), x, d, Headed(d, head), b, rest);
    var payload := Payload(b.chunks);
    assert [] + payload[..Min(n, |payload|)] == payload[..Min(n, |payload|)];
  }
}
