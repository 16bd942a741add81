/** What Redis values are reported as: escaped text, capped arguments, and one message per frame. */
module RedisMessages {
  import opened ByteStrings
  import opened Streaming
  import opened Text
  import opened TextLemmas
  import opened Redis
  import opened RedisDecoder

  const BACKSLASH: Byte := 92

  // --------------------------------------------------------------------------- escaping

  function EscapeByte(b: Byte): Bytes {
    if b == BACKSLASH then [BACKSLASH, BACKSLASH]
    else if 32 <= b <= 126 then [b]
    else if b == 10 then [BACKSLASH, 'n' as int]
    else if b == 13 then [BACKSLASH, 'r' as int]
    else if b == 9 then [BACKSLASH, 't' as int]
    else [BACKSLASH, 'x' as int] + Hex2(b)
  }

  function Escape(value: Bytes): Bytes {
    if value == [] then [] else EscapeByte(value[0]) + Escape(value[1..])
  }

  /** Reads escaped text back, from the front. */
  function Unescape(s: Bytes): Option<Bytes>
    decreases |s|
  {
    if s == [] then Some([])
    else if s[0] != BACKSLASH then Before(s[0], Unescape(s[1..]))
    else if |s| < 2 then None
    else if s[1] == BACKSLASH then Before(BACKSLASH, Unescape(s[2..]))
    else if s[1] == 'n' as int then Before(10, Unescape(s[2..]))
    else if s[1] == 'r' as int then Before(13, Unescape(s[2..]))
    else if s[1] == 't' as int then Before(9, Unescape(s[2..]))
    else if |s| < 4 || s[1] != 'x' as int || DigitOf(s[2], 16).None? || DigitOf(s[3], 16).None? then None
    else Before(DigitOf(s[2], 16).value * 16 + DigitOf(s[3], 16).value, Unescape(s[4..]))
  }

  function Before(b: Byte, rest: Option<Bytes>): Option<Bytes> {
    if rest.None? then None else Some([b] + rest.value)
  }

  predicate Printable(s: Bytes) {
    forall i :: 0 <= i < |s| ==> 32 <= s[i] <= 126
  }

  lemma ByteReadsBack(b: Byte, rest: Bytes)
    ensures Unescape(EscapeByte(b) + rest) == Before(b, Unescape(rest)) && Printable(EscapeByte(b))
  {
    var e := EscapeByte(b);
    assert (e + rest)[|e|..] == rest;
  }

  /** Escaped text is printable and reads back as the bytes it shows, so different bytes are shown differently. */
  lemma {:induction false} EscapedReadsBack(value: Bytes)
    ensures Unescape(Escape(value)) == Some(value) && Printable(Escape(value))
    decreases |value|
  {
    hide EscapeByte, Unescape;
    if value == [] {
      NothingReadsBack();
    } else {
      ByteReadsBack(value[0], Escape(value[1..]));
      assert [value[0]] + value[1..] == value;
      EscapedReadsBack(value[1..]);
    }
  }

  lemma NothingReadsBack()
    ensures Unescape([]) == Some([])
  {
  }

  lemma {:induction false} EscapeAppend(a: Bytes, b: Bytes)
    ensures Escape(a + b) == Escape(a) + Escape(b)
    decreases |a|
  {
    hide EscapeByte;
    if a == [] {
      assert a + b == b && [] + Escape(b) == Escape(b);
    } else {
      assert (a + b)[0] == a[0] && (a + b)[1..] == a[1..] + b;
      EscapeAppend(a[1..], b);
    }
  }

  lemma EscapeGrows(value: Bytes, b: Byte)
    ensures Escape(value + [b]) == Escape(value) + EscapeByte(b)
  {
    hide EscapeByte;
    EscapeAppend(value, [b]);
    assert [b][1..] == [];
    assert Escape([b]) == EscapeByte(b) + [] == EscapeByte(b);
  }

  lemma NothingIsEscaped()
    ensures Escape([]) == []
  {
  }

  /** The escaping loop. */
  method RenderBytes(value: Bytes) returns (rendered: Bytes)
    ensures rendered == Escape(value)
  {
    hide Hex2, Escape;
    rendered := [];
    NothingIsEscaped();
    for i := 0 to |value|
      invariant rendered == Escape(value[..i])
    {
      var byte := value[i];
      assert value[..i + 1] == value[..i] + [byte];
      EscapeGrows(value[..i], byte);
      if byte == BACKSLASH {
        rendered := rendered + [BACKSLASH, BACKSLASH];
      } else if 32 <= byte <= 126 {
        rendered := rendered + [byte];
      } else if byte == 10 {
        rendered := rendered + [BACKSLASH, 'n' as int];
      } else if byte == 13 {
        rendered := rendered + [BACKSLASH, 'r' as int];
      } else if byte == 9 {
        rendered := rendered + [BACKSLASH, 't' as int];
      } else {
        rendered := rendered + ([BACKSLASH, 'x' as int] + Hex2(byte));
      }
    }
    assert value[..|value|] == value;
  }

  // ------------------------------------------------------------------------- truncation

  /** The last character boundary at or before `end`. */
  function Boundary(s: Bytes, end: nat): (n: nat)
    requires end < |s|
    ensures n <= end && (n == 0 || !Continuation(s[n])) && forall i :: n < i <= end ==> Continuation(s[i])
  {
    if end == 0 || !Continuation(s[end]) then end else Boundary(s, end - 1)
  }

  function Truncate(s: Bytes, max: nat): (t: Bytes)
    ensures t <= s && |t| <= max
  {
    if |s| <= max then s else s[..Boundary(s, max)]
  }

  /** Truncated text is text, and no longer piece within the limit is. */
  lemma TruncatedIsLongest(s: Bytes, max: nat, k: nat)
    requires ValidUtf8(s) && |Truncate(s, max)| < k <= Min(max, |s|)
    ensures ValidUtf8(Truncate(s, max)) && !ValidUtf8(s[..k])
  {
    hide ValidUtf8;
    NothingIsText();
    var n := Boundary(s, max);
    assert n < k <= max && Continuation(s[k]);
    if n == 0 { PiecesEndAtCharacters([], s); assert [] + s == s; }
    Utf8Cut(s, n);
    assert s[..k] + s[k..] == s;
    PiecesEndAtCharacters(s[..k], s[k..]);
  }

  lemma NothingIsText()
    ensures ValidUtf8([])
  {
  }

  lemma {:induction false} PiecesEndAtCharacters(a: Bytes, b: Bytes)
    ensures ValidUtf8(a) && ValidUtf8(a + b) && b != [] ==> !Continuation(b[0])
    decreases |a|
  {
    if a == [] {
      assert a + b == b;
    } else if ValidUtf8(a) {
      var w := CharWidth(a);
      WidthOfPrefix(a, b);
      assert (a + b)[w..] == a[w..] + b;
      PiecesEndAtCharacters(a[w..], b);
    }
  }

  lemma PrintableCutsAnywhere(s: Bytes, max: nat)
    requires Printable(s)
    ensures Truncate(s, max) == s[..Min(|s|, max)]
  {
  }

  method TruncateUtf8(value: Bytes, max: nat) returns (kept: Bytes)
    ensures kept == Truncate(value, max)
  {
    if |value| <= max {
      return value;
    }
    var end := max;
    while end > 0 && Continuation(value[end])
      invariant 0 <= end <= max && Boundary(value, end) == Boundary(value, max)
    {
      end := end - 1;
    }
    return value[..end];
  }

  // ------------------------------------------------------------------------- arguments

  /** The bytes of a value that is not an aggregate, a null or a truth value. */
  function ScalarBytes(v: Value): Option<Bytes> {
    match v
    case Simple(text) => Some(text)
    case Error(text) => Some(text)
    case Integer(text) => Some(text)
    case Double(text) => Some(text)
    case BigNumber(text) => Some(text)
    case Bulk(blob) => Some(blob)
    case BulkError(blob) => Some(blob)
    case Verbatim(blob) => Some(blob)
    case _ => None
  }

  function Scalars(items: seq<Value>): seq<Bytes> {
    if items == [] then []
    else (if ScalarBytes(items[0]).Some? then [ScalarBytes(items[0]).value] else []) + Scalars(items[1..])
  }

  function Arguments(v: Value): seq<Bytes> {
    match v
    case Array(items) => Scalars(items)
    case Inline(words) => words
    case _ => []
  }

  function EscapeAll(values: seq<Bytes>): seq<Bytes> {
    seq(|values|, i requires 0 <= i < |values| => Escape(values[i]))
  }

  /** What is kept of texts that share one allowance, in order. */
  function Captured(texts: seq<Bytes>, room: nat): (kept: seq<Bytes>)
    ensures |kept| == |texts|
    decreases |texts|
  {
    if texts == [] then []
    else
      var first := Truncate(texts[0], room);
      [first] + Captured(texts[1..], room - |first|)
  }

  /** Something was left out. */
  predicate Cut(texts: seq<Bytes>, kept: seq<Bytes>)
    requires |kept| == |texts|
  {
    exists i :: 0 <= i < |texts| && |kept[i]| < |texts[i]|
  }

  predicate AllPrintable(texts: seq<Bytes>) {
    forall i :: 0 <= i < |texts| ==> Printable(texts[i])
  }

  /** Printable texts fill the allowance exactly: each is kept from its start, together they are the first `room`
      bytes of all of them, nothing is kept after one that was cut, and something was cut exactly when they do not fit. */
  lemma {:induction false} CapturedFillsTheRoom(texts: seq<Bytes>, room: nat)
    requires AllPrintable(texts)
    ensures var kept, all := Captured(texts, room), Flatten(texts);
            && Flatten(kept) == all[..Min(|all|, room)]
            && (Cut(texts, kept) <==> |all| > room)
            && (forall i :: 0 <= i < |texts| ==> kept[i] <= texts[i])
            && (forall i, j :: 0 <= i < j < |texts| && |kept[i]| < |texts[i]| ==> kept[j] == [])
    decreases |texts|
  {
    hide Truncate, Printable, Cut;
    if texts == [] {
      NothingIsCut();
    } else {
      var first, rest := Truncate(texts[0], room), texts[1..];
      PrintableCutsAnywhere(texts[0], room);
      CapturedFillsTheRoom(rest, room - |first|);
      var kept, later := Captured(texts, room), Captured(rest, room - |first|);
      assert kept[0] == first && kept[1..] == later;
      var all, most := Flatten(texts), Flatten(rest);
      assert all == texts[0] + most;
      if |first| < |texts[0]| {
        assert most[..0] == [];
        FlatEmpty(later);
        FirstIsCut(texts, kept);
        assert all[..Min(|all|, room)] == first + Flatten(later);
      } else {
        PrefixSplits(texts[0], most, room);
        CutShifts(texts, kept);
      }
    }
  }

  lemma NothingIsCut()
    ensures !Cut([], [])
  {
  }

  lemma FirstIsCut(texts: seq<Bytes>, kept: seq<Bytes>)
    requires |kept| == |texts| > 0 && |kept[0]| < |texts[0]|
    ensures Cut(texts, kept)
  {
  }

  lemma PrefixSplits(a: Bytes, b: Bytes, n: nat)
    requires |a| <= n
    ensures (a + b)[..Min(|a + b|, n)] == a + b[..Min(|b|, n - |a|)]
  {
  }

  lemma CutShifts(texts: seq<Bytes>, kept: seq<Bytes>)
    requires |kept| == |texts| > 0 && kept[0] == texts[0]
    ensures Cut(texts, kept) <==> Cut(texts[1..], kept[1..])
  {
    if Cut(texts, kept) {
      var i :| 0 <= i < |texts| && |kept[i]| < |texts[i]|;
      assert |kept[1..][i - 1]| < |texts[1..][i - 1]|;
    }
  }

  lemma {:induction false} FlatEmpty(texts: seq<Bytes>)
    ensures Flatten(texts) == [] ==> forall i :: 0 <= i < |texts| ==> texts[i] == []
    decreases |texts|
  {
    if texts != [] { FlatEmpty(texts[1..]); }
  }

  // -------------------------------------------------------------------------- requests

  function Upper(b: Byte): Byte {
    if 'a' as int <= b <= 'z' as int then b - 32 else b
  }

  function UpperAll(s: Bytes): Bytes {
    seq(|s|, i requires 0 <= i < |s| => Upper(s[i]))
  }

  type Lossy = Bytes -> Bytes

  function CommandOf(lossy: Lossy, arguments: seq<Bytes>): Bytes {
    if arguments == [] then Ascii("UNKNOWN") else UpperAll(lossy(arguments[0]))
  }

  function RequestHeaders(command: Bytes): seq<Header> {
    [(Ascii("lens-protocol"), Ascii("redis")), (Ascii("lens-boundary"), Ascii("request")), (Ascii("redis-command"), command)]
  }

  function ArgumentHeaders(kept: seq<Bytes>): seq<Header> {
    seq(|kept|, i requires 0 <= i < |kept| => (Ascii("redis-arg"), kept[i]))
  }

  /** The values of the argument headers, each after a space. */
  function Spaced(headers: seq<Header>): Bytes {
    if headers == [] then []
    else (if headers[0].0 == Ascii("redis-arg") then [32] + headers[0].1 else []) + Spaced(headers[1..])
  }

  function Summary(command: Bytes, headers: seq<Header>): Bytes {
    Ascii("Redis ") + command + Spaced(headers)
  }

  function RequestMessage(lossy: Lossy, v: Value, maxBody: nat): DecodedMessage {
    var arguments := Arguments(v);
    var command := CommandOf(lossy, arguments);
    var texts := if arguments == [] then [] else EscapeAll(arguments[1..]);
    var kept := Captured(texts, maxBody);
    var headers := RequestHeaders(command) + ArgumentHeaders(kept);
    DecodedMessage(ClientToServer, Summary(command, headers), headers, [], Cut(texts, kept))
  }

  /** Capturing one more text takes what the earlier ones left. */
  lemma {:induction false} CapturedGrows(texts: seq<Bytes>, text: Bytes, room: nat)
    ensures |Flatten(Captured(texts, room))| <= room
    ensures Captured(texts + [text], room) == Captured(texts, room) + [Truncate(text, room - |Flatten(Captured(texts, room))|)]
    decreases |texts|
  {
    hide Truncate;
    if texts == [] {
      assert texts + [text] == [text] && [text][1..] == [];
    } else {
      var first, rest := Truncate(texts[0], room), texts[1..];
      CapturedGrows(rest, text, room - |first|);
      assert (texts + [text])[1..] == rest + [text];
      assert Captured(texts, room)[1..] == Captured(rest, room - |first|);
    }
  }

  lemma CutGrows(texts: seq<Bytes>, kept: seq<Bytes>, text: Bytes, piece: Bytes)
    requires |kept| == |texts|
    ensures Cut(texts + [text], kept + [piece]) <==> Cut(texts, kept) || |piece| < |text|
  {
    var more, all := texts + [text], kept + [piece];
    assert forall i :: 0 <= i < |texts| ==> more[i] == texts[i] && all[i] == kept[i];
    assert more[|texts|] == text && all[|texts|] == piece;
    if Cut(texts, kept) {
      var i :| 0 <= i < |texts| && |kept[i]| < |texts[i]|;
      assert |all[i]| < |more[i]|;
    }
  }

  /** The request loop: escapes each argument and keeps what still fits the cap. */
  method BuildRequest(lossy: Lossy, v: Value, maxBody: nat) returns (m: DecodedMessage)
    ensures m == RequestMessage(lossy, v, maxBody)
  {
    hide Escape, Truncate, Captured, Cut, Flatten, Ascii, Arguments, Spaced;
    var arguments := Arguments(v);
    var command := CommandOf(lossy, arguments);
    var retained, truncated, headers := 0, false, RequestHeaders(command);
    ghost var texts, kept: seq<Bytes> := [], [];
    StartsEmpty(maxBody);
    assert headers == RequestHeaders(command) + ArgumentHeaders(kept);
    var rest := if arguments == [] then [] else arguments[1..];
    for i := 0 to |rest|
      invariant texts == EscapeAll(rest[..i]) && kept == Captured(texts, maxBody) && retained == |Flatten(kept)| <= maxBody
      invariant truncated == Cut(texts, kept)
      invariant headers == RequestHeaders(command) + ArgumentHeaders(kept)
    {
      var rendered := RenderBytes(rest[i]);
      var captured := TruncateUtf8(rendered, maxBody - retained);
      CapturedGrows(texts, rendered, maxBody);
      FlattenGrows(kept, captured);
      CutGrows(texts, kept, rendered, captured);
      assert rest[..i + 1] == rest[..i] + [rest[i]];
      assert EscapeAll(rest[..i + 1]) == texts + [rendered];
      assert ArgumentHeaders(kept + [captured]) == ArgumentHeaders(kept) + [(Ascii("redis-arg"), captured)];
      texts, kept := texts + [rendered], kept + [captured];
      CapturedGrows(texts, rendered, maxBody);
      retained := retained + |captured|;
      truncated := truncated || |captured| < |rendered|;
      headers := headers + [(Ascii("redis-arg"), captured)];
    }
    assert rest[..|rest|] == rest;
    m := DecodedMessage(ClientToServer, Summary(command, headers), headers, [], truncated);
  }

  lemma StartsEmpty(room: nat)
    ensures EscapeAll([]) == [] && Captured([], room) == [] && Flatten([]) == [] && !Cut([], []) && ArgumentHeaders([]) == []
  {
  }

  // ------------------------------------------------------------------------- responses

  function RenderValue(v: Value): Bytes
    decreases v
  {
    match v
    case NullBulk => Ascii("null")
    case NullArray => Ascii("null")
    case Null => Ascii("null")
    case Boolean(flag) => Ascii(if flag then "true" else "false")
    case Array(items) => Bracketed(RenderAll(items))
    case Map(items) => Bracketed(RenderAll(items))
    case Set(items) => Bracketed(RenderAll(items))
    case Push(items) => Bracketed(RenderAll(items))
    case Attribute(items) => Bracketed(RenderAll(items))
    case Inline(words) => JoinTexts(EscapeAll(words), [32])
    case _ => Escape(ScalarBytes(v).value)
  }

  function RenderAll(vs: seq<Value>): (texts: seq<Bytes>)
    ensures |texts| == |vs|
    decreases vs
  {
    if vs == [] then [] else [RenderValue(vs[0])] + RenderAll(vs[1..])
  }

  function Bracketed(texts: seq<Bytes>): Bytes {
    Ascii("[") + JoinTexts(texts, Ascii(", ")) + Ascii("]")
  }

  function ResponseKind(v: Value): (string, Bytes) {
    match v
    case Simple(text) => ("simple-string", Ascii("Redis ") + Escape(text))
    case Error(text) => ("error", Ascii("Redis error ") + Escape(text))
    case Integer(text) => ("integer", Ascii("Redis integer ") + Escape(text))
    case Double(text) => ("double", Ascii("Redis double ") + Escape(text))
    case BigNumber(text) => ("big-number", Ascii("Redis big number ") + Escape(text))
    case Bulk(blob) => ("bulk-string", Ascii("Redis bulk ") + Decimal(|blob|) + Ascii(" bytes"))
    case BulkError(blob) => ("bulk-error", Ascii("Redis bulk error ") + Decimal(|blob|) + Ascii(" bytes"))
    case Verbatim(blob) => ("verbatim", Ascii("Redis verbatim ") + Decimal(|blob|) + Ascii(" bytes"))
    case NullBulk => ("null", Ascii("Redis null"))
    case Null => ("null", Ascii("Redis null"))
    case NullArray => ("null", Ascii("Redis null array"))
    case Boolean(flag) => ("boolean", Ascii("Redis boolean ") + Ascii(if flag then "true" else "false"))
    case Array(items) => ("array", Ascii("Redis array ") + Decimal(|items|) + Ascii(" items"))
    case Map(items) => ("map", Ascii("Redis map ") + Decimal(|items| / 2) + Ascii(" pairs"))
    case Set(items) => ("set", Ascii("Redis set ") + Decimal(|items|) + Ascii(" items"))
    case Push(items) => ("push", Ascii("Redis push ") + Decimal(|items|) + Ascii(" items"))
    case Attribute(items) => ("attribute", Ascii("Redis attribute ") + Decimal(|items| / 2) + Ascii(" pairs"))
    case Inline(words) => ("inline", Ascii("Redis inline ") + Decimal(|words|) + Ascii(" items"))
  }

  function ResponseMessage(v: Value, maxBody: nat): DecodedMessage {
    var (kind, line) := ResponseKind(v);
    var rendered := RenderValue(v);
    DecodedMessage(ServerToClient, line,
                   [(Ascii("lens-protocol"), Ascii("redis")), (Ascii("redis-kind"), Ascii(kind)), (Ascii("lens-content"), Ascii("redis-value"))]
                   + if v.Push? then [] else [(Ascii("lens-boundary"), Ascii("response"))],
                   rendered[..Min(|rendered|, maxBody)], |rendered| > maxBody)
  }

  function ToMessage(lossy: Lossy, d: Direction, v: Value, maxBody: nat): DecodedMessage {
    if d == ClientToServer then RequestMessage(lossy, v, maxBody) else ResponseMessage(v, maxBody)
  }

  function Rendering(lossy: Lossy): Renderer {
    (d: Direction, v: Value, maxBody: nat) => ToMessage(lossy, d, v, maxBody)
  }

  // ---------------------------------------------------------------------- what they show

  function Bulks(values: seq<Bytes>): seq<Value> {
    seq(|values|, i requires 0 <= i < |values| => Bulk(values[i]))
  }

  lemma {:induction false} BulksAreScalars(values: seq<Bytes>)
    ensures Scalars(Bulks(values)) == values
    decreases |values|
  {
    if values != [] {
      BulksAreScalars(values[1..]);
      assert Bulks(values)[1..] == Bulks(values[1..]);
      assert [values[0]] + values[1..] == values;
    }
  }

  /** Texts one after the other, each after a space. */
  function WithSpaces(texts: seq<Bytes>): Bytes {
    if texts == [] then [] else WithSpaces(texts[..|texts| - 1]) + Ascii(" ") + texts[|texts| - 1]
  }

  lemma {:induction false} SpacedSplits(a: seq<Header>, b: seq<Header>)
    ensures Spaced(a + b) == Spaced(a) + Spaced(b)
    decreases |a|
  {
    hide Ascii;
    if a == [] {
      assert a + b == b && [] + Spaced(b) == Spaced(b);
    } else {
      assert (a + b)[0] == a[0] && (a + b)[1..] == a[1..] + b;
      SpacedSplits(a[1..], b);
    }
  }

  lemma {:induction false} ArgumentsAreSpaced(kept: seq<Bytes>)
    ensures Spaced(ArgumentHeaders(kept)) == WithSpaces(kept)
    decreases |kept|
  {
    if kept != [] {
      var most, last := kept[..|kept| - 1], kept[|kept| - 1];
      ArgumentsAreSpaced(most);
      var header: Header := (Ascii("redis-arg"), last);
      assert ArgumentHeaders(kept) == ArgumentHeaders(most) + [header];
      var one: seq<Header> := [header];
      SpacedSplits(ArgumentHeaders(most), one);
      assert one[1..] == [];
      assert Spaced(one) == [32] + last + [] == Ascii(" ") + last;
      assert WithSpaces(most) + (Ascii(" ") + last) == WithSpaces(most) + Ascii(" ") + last;
    }
  }

  lemma OtherHeadersAreNotArguments(command: Bytes)
    ensures Spaced(RequestHeaders(command)) == []
  {
    assert Ascii("lens-protocol")[0] != Ascii("redis-arg")[0] && Ascii("lens-boundary")[0] != Ascii("redis-arg")[0];
    assert |Ascii("redis-command")| != |Ascii("redis-arg")|;
    var h: seq<Header> := RequestHeaders(command);
    var more: seq<Header> := h[1..];
    var last: seq<Header> := more[1..];
    assert last[0] == h[2] && more[0] == h[1] && |last| == 1;
    assert Spaced(last) == [] && Spaced(more) == [];
  }

  /** A command is reported under its name in upper case with its arguments escaped, in order: the first `maxBody`
      bytes of them, flagged exactly when there are more. */
  lemma CommandIsReported(lossy: Lossy, v: Value, name: Bytes, arguments: seq<Bytes>, maxBody: nat)
    requires v == Array(Bulks([name] + arguments)) || v == Inline([name] + arguments)
    ensures var m := ToMessage(lossy, ClientToServer, v, maxBody);
            var texts := EscapeAll(arguments);
            var all, kept := Flatten(texts), Captured(texts, maxBody);
            && m.direction == ClientToServer && m.body == [] && (m.truncated <==> |all| > maxBody)
            && m.headers == [(Ascii("lens-protocol"), Ascii("redis")), (Ascii("lens-boundary"), Ascii("request")),
                             (Ascii("redis-command"), UpperAll(lossy(name)))] + ArgumentHeaders(kept)
            && m.startLine == Ascii("Redis ") + UpperAll(lossy(name)) + WithSpaces(kept)
            && Flatten(kept) == all[..Min(|all|, maxBody)]
            && forall i :: 0 <= i < |arguments| ==> kept[i] <= texts[i]
  {
    hide Ascii, Escape, Captured, Flatten, Cut, Printable, Spaced, WithSpaces, UpperAll;
    var all := [name] + arguments;
    BulksAreScalars(all);
    assert all[1..] == arguments;
    var texts := EscapeAll(arguments);
    forall i | 0 <= i < |texts| ensures Printable(texts[i]) { EscapedReadsBack(arguments[i]); }
    CapturedFillsTheRoom(texts, maxBody);
    var kept := Captured(texts, maxBody);
    var command := UpperAll(lossy(name));
    SpacedSplits(RequestHeaders(command), ArgumentHeaders(kept));
    OtherHeadersAreNotArguments(command);
    ArgumentsAreSpaced(kept);
    assert [] + WithSpaces(kept) == WithSpaces(kept);
  }

  /** A text shows a value: read back, it gives the value's bytes, or the texts of its items in order. */
  ghost predicate Shows(text: Bytes, v: Value)
    decreases v
  {
    match v
    case NullBulk => text == Ascii("null")
    case NullArray => text == Ascii("null")
    case Null => text == Ascii("null")
    case Boolean(flag) => text == Ascii(if flag then "true" else "false")
    case Array(items) => ShowsItems(text, items)
    case Map(items) => ShowsItems(text, items)
    case Set(items) => ShowsItems(text, items)
    case Push(items) => ShowsItems(text, items)
    case Attribute(items) => ShowsItems(text, items)
    case Inline(words) => exists texts :: ShowsWords(texts, words) && text == Listed(texts, Ascii(" "))
    case _ => ScalarBytes(v).Some? && Unescape(text) == ScalarBytes(v)
  }

  ghost predicate ShowsItems(text: Bytes, items: seq<Value>)
    decreases items
  {
    exists texts: seq<Bytes> ::
      && |texts| == |items| && text == Ascii("[") + Listed(texts, Ascii(", ")) + Ascii("]")
      && forall i :: 0 <= i < |items| ==> Shows(texts[i], items[i])
  }

  ghost predicate ShowsWords(texts: seq<Bytes>, words: seq<Bytes>) {
    |texts| == |words| && forall i :: 0 <= i < |words| ==> Unescape(texts[i]) == Some(words[i])
  }

  lemma {:induction false} RenderedShows(v: Value)
    ensures Shows(RenderValue(v), v)
    decreases v
  {
    hide Escape, Unescape, Ascii, Listed, JoinTexts, ShowsItems, ShowsWords, Bracketed, EscapeAll, RenderAll;
    match v
    case NullBulk =>
    case NullArray =>
    case Null =>
    case Boolean(_) =>
    case Array(items) => ItemsShow(items);
    case Map(items) => ItemsShow(items);
    case Set(items) => ItemsShow(items);
    case Push(items) => ItemsShow(items);
    case Attribute(items) => ItemsShow(items);
    case Inline(words) => WordsShow(words);
    case _ => EscapedReadsBack(ScalarBytes(v).value);
  }

  lemma {:induction false} ItemsShow(items: seq<Value>)
    ensures ShowsItems(Bracketed(RenderAll(items)), items)
    decreases items
  {
    hide Shows, RenderValue, Ascii, Listed, JoinTexts;
    var texts := RenderAll(items);
    forall i | 0 <= i < |items| ensures Shows(texts[i], items[i]) {
      RenderedShows(items[i]);
      RenderedAt(items, i);
    }
    ListedIsJoined(texts, Ascii(", "));
  }

  lemma {:induction false} RenderedAt(items: seq<Value>, i: nat)
    requires i < |items|
    ensures RenderAll(items)[i] == RenderValue(items[i])
    decreases |items|
  {
    hide RenderValue;
    if i > 0 { RenderedAt(items[1..], i - 1); }
  }

  lemma WordsShow(words: seq<Bytes>)
    ensures exists texts :: ShowsWords(texts, words) && JoinTexts(EscapeAll(words), [32]) == Listed(texts, Ascii(" "))
  {
    hide Escape, Unescape, Listed, JoinTexts;
    var texts := EscapeAll(words);
    forall i | 0 <= i < |words| ensures Unescape(texts[i]) == Some(words[i]) { EscapedReadsBack(words[i]); }
    ListedIsJoined(texts, [32]);
    assert Ascii(" ") == [32];
    assert ShowsWords(texts, words);
  }

  /** A response is reported as the first `maxBody` bytes of a text that shows it, flagged exactly when there are more;
      all but pushed values end a request. */
  lemma ResponseIsReported(lossy: Lossy, v: Value, maxBody: nat)
    ensures var m := ToMessage(lossy, ServerToClient, v, maxBody);
            && m.direction == ServerToClient
            && (exists text :: Shows(text, v) && m.body == text[..Min(|text|, maxBody)] && (m.truncated <==> |text| > maxBody))
            && ((Ascii("lens-boundary"), Ascii("response")) in m.headers <==> !v.Push?)
  {
    hide RenderValue, Shows, ResponseKind;
    RenderedShows(v);
    var m := ToMessage(lossy, ServerToClient, v, maxBody);
    var text := RenderValue(v);
    assert Shows(text, v) && m.body == text[..Min(|text|, maxBody)] && (m.truncated <==> |text| > maxBody);
    var boundary := (Ascii("lens-boundary"), Ascii("response"));
    assert Ascii("lens-boundary")[5] != Ascii("lens-protocol")[5] && Ascii("lens-boundary")[0] != Ascii("redis-kind")[0]
           && Ascii("lens-boundary")[5] != Ascii("lens-content")[5];
    if v.Push? {
      assert boundary !in m.headers;
    } else {
      assert m.headers[3] == boundary;
    }
  }

  /** Commands on the wire, cut in any way, are reported one by one, in order, each as its name and arguments say. */
  lemma CommandsCutAnywhere(lossy: Lossy, maxBody: nat, s: Decoder, commands: seq<(Bytes, seq<Bytes>)>, fragments: seq<Bytes>)
    requires BufferOf(s, ClientToServer) == [] && Observable(Commands(commands), maxBody) && Flatten(fragments) == PrintAll(Commands(commands))
    ensures var (s', r) := Feed(Pusher(Rendering(lossy), maxBody, ClientToServer), s, fragments);
            && s' == s && r.desynchronized.None? && |r.messages| == |commands|
            && forall i :: 0 <= i < |commands| ==>
                 r.messages[i] == ToMessage(lossy, ClientToServer, Array(Bulks([commands[i].0] + commands[i].1)), maxBody)
  {
    hide ToMessage, Print, WellFormed, Feed, PrintAll, Bulks, Pusher;
    var vs := Commands(commands);
    assert [] + Flatten(fragments) == Flatten(fragments);
    if vs != [] { FramesHaveBytes(vs[0]); }
    FramesCutAnywhere(Rendering(lossy), maxBody, ClientToServer, s, vs, fragments);
  }

  function Commands(commands: seq<(Bytes, seq<Bytes>)>): seq<Value> {
    seq(|commands|, i requires 0 <= i < |commands| => Array(Bulks([commands[i].0] + commands[i].1)))
  }

  lemma FramesHaveBytes(v: Value)
    ensures |Print(v)| > 0
  {
    hide PrintAll, Decimal, JoinWords;
  }
}
