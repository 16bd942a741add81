/** Rendering a message for storage and reading it back for replay. */
module Replay {
  import opened ByteStrings
  import opened Streaming
  import opened Text
  import opened TextLemmas
  import opened LineText

  const COLON: Byte := ':' as int
  const SEPARATOR: Bytes := [58, 32]

  function HeaderLine(h: Header): Bytes {
    h.0 + SEPARATOR + h.1
  }

  function HeaderLines(headers: seq<Header>): seq<Bytes> {
    seq(|headers|, i requires 0 <= i < |headers| => HeaderLine(headers[i]))
  }

  function Rendered(m: DecodedMessage): Bytes {
    JoinLines(HeaderLines(m.headers)) + CRLF + m.body
  }

  datatype ReplayError = NoBoundary | HeadersNotUtf8 | BadLine
  datatype WireResult = Wire(headers: seq<Header>, body: Bytes) | WireError(error: ReplayError)

  function ReadLines(lines: seq<Bytes>): Option<seq<Header>> {
    if lines == [] then Some([])
    else match SplitOnce(lines[0], COLON)
         case None => None
         case Some((name, value)) =>
           match ReadLines(lines[1..])
           case None => None
           case Some(headers) => Some([(Trim(name), Trim(value))] + headers)
  }

  function ReadWire(wire: Bytes): WireResult {
    match Find(wire, CRLFCRLF)
    case None => WireError(NoBoundary)
    case Some(k) =>
      if !ValidUtf8(wire[..k]) then WireError(HeadersNotUtf8)
      else if k == 0 then Wire([], wire[4..])
      else match ReadLines(Lines(wire[..k]))
           case None => WireError(BadLine)
           case Some(headers) => Wire(headers, wire[k + 4..])
  }

  /** The rendering loop. */
  method Render(m: DecodedMessage) returns (rendered: Bytes)
    ensures rendered == Rendered(m)
  {
    rendered := [];
    for i := 0 to |m.headers|
      invariant rendered + JoinLines(HeaderLines(m.headers)[i..]) == JoinLines(HeaderLines(m.headers))
    {
      var (name, value) := m.headers[i];
      ghost var lines := HeaderLines(m.headers);
      assert lines[i..][1..] == lines[i + 1..] && lines[i..][0] == name + SEPARATOR + value;
      ghost var before := rendered;
      rendered := rendered + name + SEPARATOR + value + CRLF;
      assert rendered == before + (HeaderLine(m.headers[i]) + CRLF);
    }
    assert rendered == JoinLines(HeaderLines(m.headers));
    rendered := rendered + CRLF + m.body;
  }

  /** The headers read so far followed by what the remaining lines give. */
  function ReadMore(headers: seq<Header>, lines: seq<Bytes>): Option<seq<Header>> {
    match ReadLines(lines)
    case None => None
    case Some(more) => Some(headers + more)
  }

  lemma ReadAllLines(lines: seq<Bytes>)
    ensures ReadMore([], lines[0..]) == ReadLines(lines)
  {
    assert lines[0..] == lines;
    if ReadLines(lines).Some? { assert [] + ReadLines(lines).value == ReadLines(lines).value; }
  }

  lemma ReadOneMore(headers: seq<Header>, lines: seq<Bytes>)
    requires lines != [] && SplitOnce(lines[0], COLON).Some?
    ensures var (name, value) := SplitOnce(lines[0], COLON).value;
            ReadMore(headers, lines) == ReadMore(headers + [(Trim(name), Trim(value))], lines[1..])
  {
    hide SplitOnce, Trim;
    var (name, value) := SplitOnce(lines[0], COLON).value;
    if ReadLines(lines[1..]).Some? {
      var more := ReadLines(lines[1..]).value;
      assert headers + ([(Trim(name), Trim(value))] + more) == headers + [(Trim(name), Trim(value))] + more;
    }
  }

  /** The header loop of the replay reader. */
  method ParseWire(wire: Bytes) returns (result: WireResult)
    ensures result == ReadWire(wire)
  {
    hide Find, Lines, Trim, SplitOnce, ValidUtf8;
    var boundary := Find(wire, CRLFCRLF);
    if boundary.None? {
      return WireError(NoBoundary);
    }
    var head := wire[..boundary.value];
    if !ValidUtf8(head) {
      return WireError(HeadersNotUtf8);
    }
    var headers: seq<Header> := [];
    if head != [] {
      var lines := Lines(head);
      ReadAllLines(lines);
      for i := 0 to |lines|
        invariant ReadMore(headers, lines[i..]) == ReadLines(lines)
      {
        var split := SplitOnce(lines[i], COLON);
        if split.None? {
          return WireError(BadLine);
        }
        var (name, value) := split.value;
        ReadOneMore(headers, lines[i..]);
        headers := headers + [(Trim(name), Trim(value))];
        assert lines[i..][1..] == lines[i + 1..];
      }
      assert headers + [] == headers;
    }
    return Wire(headers, wire[boundary.value + 4..]);
  }

  // ------------------------------------------------------------------ round trip

  /** What a decoder guarantees of every header it reports. */
  ghost predicate GoodHeader(h: Header) {
    && IsTrimmed(h.0) && IsTrimmed(h.1) && COLON !in h.0
    && NoCrlf(h.0) && NoCrlf(h.1) && ValidUtf8(h.0) && ValidUtf8(h.1)
  }

  ghost predicate GoodHeaders(headers: seq<Header>) {
    forall i :: 0 <= i < |headers| ==> GoodHeader(headers[i])
  }

  lemma HeaderLineIsGood(h: Header)
    requires GoodHeader(h)
    ensures HeaderLine(h) != [] && NoCrlf(HeaderLine(h)) && ValidUtf8(HeaderLine(h))
    ensures SplitOnce(HeaderLine(h), COLON) == Some((h.0, [32] + h.1))
    ensures Trim(h.0) == h.0 && Trim([32] + h.1) == h.1
  {
    hide ValidUtf8, IsTrimmed, Trim, SplitOnce, At;
    var (name, value) := h;
    var line := HeaderLine(h);
    forall j: nat ensures !At(line, CRLF, j) {
      CrlfAt(line, j);
      CrlfAt(name, j);
      if j >= |name| + 2 { CrlfAt(value, j - |name| - 2); }
    }
    AsciiIsUtf8(SEPARATOR);
    Utf8Append(name, SEPARATOR);
    Utf8Append(name + SEPARATOR, value);
    assert line == name + [COLON] + ([32] + value);
    SplitOnceIs(name, COLON, [32] + value);
    TrimmedStays(name);
    TrimAfterSpace(value);
  }

  lemma {:induction false} JoinIsUtf8(headers: seq<Header>)
    requires GoodHeaders(headers)
    ensures ValidUtf8(JoinLines(HeaderLines(headers)))
    decreases headers
  {
    hide GoodHeader, HeaderLine;
    if headers == [] {
      assert HeaderLines(headers) == [];
    } else {
      var rest := headers[1..];
      assert HeaderLines(headers)[1..] == HeaderLines(rest);
      JoinIsUtf8(rest);
      HeaderLineIsGood(headers[0]);
      AsciiIsUtf8(CRLF);
      Utf8Append(HeaderLine(headers[0]), CRLF);
      Utf8Append(HeaderLine(headers[0]) + CRLF, JoinLines(HeaderLines(rest)));
    }
  }

  lemma {:induction false} ReadBack(headers: seq<Header>)
    requires GoodHeaders(headers)
    ensures ReadLines(HeaderLines(headers)) == Some(headers)
    decreases headers
  {
    hide GoodHeader, HeaderLine, Trim, SplitOnce;
    if headers == [] {
      assert HeaderLines(headers) == [];
    } else {
      HeaderLineIsGood(headers[0]);
      assert HeaderLines(headers)[1..] == HeaderLines(headers[1..]);
      ReadBack(headers[1..]);
      assert [headers[0]] + headers[1..] == headers;
    }
  }

  lemma HeaderLinesAreGood(headers: seq<Header>)
    requires GoodHeaders(headers)
    ensures GoodLines(HeaderLines(headers))
  {
    forall i | 0 <= i < |headers| ensures NoCrlf(HeaderLines(headers)[i]) && HeaderLines(headers)[i] != [] {
      HeaderLineIsGood(headers[i]);
    }
  }

  lemma WithHeaders(m: DecodedMessage)
    requires GoodHeaders(m.headers) && m.headers != []
    ensures ReadWire(Rendered(m)) == Wire(m.headers, m.body)
  {
    hide GoodHeaders, Find, ValidUtf8, Lines, NoCrlf, ReadLines;
    var lines := HeaderLines(m.headers);
    var text := JoinLines(lines);
    HeaderLinesAreGood(m.headers);
    FindBlankLine(lines, m.body);
    LinesOfJoin(lines);
    ReadBack(m.headers);
    JoinIsUtf8(m.headers);
    assert text == lines[0] + CRLF + JoinLines(lines[1..]);
    var wire := Rendered(m);
    var k := |text| - 2;
    assert wire[..k] == text[..k];
    assert wire[k + 4..] == m.body;
    AtAppend(text + CRLF, m.body, CRLFCRLF, k);
    BlankAt(wire, k);
    CrlfAt(wire, k);
    assert text[k] == wire[k] == CR;
    Utf8Cut(text, k);
  }

  /** A rendering without headers starts with CRLF, so the reader finds an empty first line or a
      boundary that swallows two body bytes. */
  lemma WithoutHeaders(m: DecodedMessage)
    requires m.headers == []
    ensures ReadWire(Rendered(m)) != Wire([], m.body)
  {
    hide Find, ValidUtf8;
    var wire := Rendered(m);
    assert HeaderLines(m.headers) == [];
    assert wire == CRLF + m.body;
    match Find(wire, CRLFCRLF)
    case None =>
    case Some(k) =>
      BlankAt(wire, k);
      CrlfAt(wire, k);
      if k > 0 {
        var head := wire[..k];
        assert head == [] + CRLF + head[2..];
        assert NoCrlf([]);
        LinesOfFirst([], head[2..]);
        assert Lines(head)[0] == [];
      }
  }

  /** What was rendered reads back unchanged exactly when there is at least one header. */
  lemma RoundTrip(m: DecodedMessage)
    requires GoodHeaders(m.headers)
    ensures ReadWire(Rendered(m)) == Wire(m.headers, m.body) <==> m.headers != []
  {
    hide GoodHeaders, ReadWire, Rendered;
    if m.headers == [] {
      WithoutHeaders(m);
    } else {
      WithHeaders(m);
    }
  }
}
