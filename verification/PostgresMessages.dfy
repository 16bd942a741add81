/** What PostgreSQL messages say: every frame as its sender writes it decodes to the message described here. */
module PostgresMessages {
  import opened ByteStrings
  import opened Streaming
  import opened Text
  import opened TextLemmas
  import opened Postgres
  import opened PostgresPhases
  import opened PostgresOmission

  // -------------------------------------------------------------------- what is reported

  /** A reported message, written out: protocol and kind first, the frame's size last. */
  function Described(d: Direction, line: Bytes, kind: string, more: seq<Header>, body: Bytes, truncated: bool, size: nat): DecodedMessage {
    DecodedMessage(d, line,
                   [(Ascii("lens-protocol"), Ascii("postgres")), (Ascii("lens-kind"), Ascii(kind))] + more
                   + [(Ascii("wire-bytes"), Decimal(size))],
                   body, truncated)
  }

  const ASKS: Header := (Ascii("lens-boundary"), Ascii("request"))
  const ANSWERS: Header := (Ascii("lens-boundary"), Ascii("response"))
  const SQL: Header := (Ascii("lens-content"), Ascii("sql"))

  /** How a possibly empty name is shown. */
  function Called(lossy: Lossy, name: Bytes): Bytes {
    if |name| == 0 then Ascii("<unnamed>") else lossy(name)
  }

  function Encode16(n: nat): (b: Bytes)
    requires n < 65536
    ensures |b| == 2 && Be16(b) == n
  {
    [n / 256, n % 256]
  }

  function String(value: Bytes): Bytes {
    value + [0]
  }

  lemma Taken(value: Bytes, rest: Bytes)
    requires 0 !in value
    ensures TakeCString(String(value) + rest) == Ok((value, rest))
  {
    TakeTerminated(value, rest);
  }

  /** Headers added one by one are the list of them. */
  lemma Assembles(start: seq<Header>, a: Header, b: Header, more: seq<Header>, last: Header)
    ensures start + [last] == start + [] + [last]
    ensures start + [a] + [b] + [last] == start + [a, b] + [last]
    ensures (start + more) + [a] + [last] == start + (more + [a]) + [last]
  {
    assert start + [] == start;
    assert [a] + [b] == [a, b];
    assert start + [a] + [b] == start + [a, b];
    assert (start + more) + [a] == start + (more + [a]);
  }

  /** A message of a kind, with the headers given, once the frame's size is added. */
  lemma Framed(d: Direction, line: Bytes, kind: string, a: Header, b: Header, more: seq<Header>, size: nat)
    ensures var m, last := Kind(d, line, kind), (Ascii("wire-bytes"), Decimal(size));
            && m.headers + [last] == Described(d, line, kind, [], [], false, size).headers
            && m.headers + [a] + [last] == Described(d, line, kind, [a], [], false, size).headers
            && m.headers + [a] + [b] + [last] == Described(d, line, kind, [a, b], [], false, size).headers
            && m.headers + more + [last] == Described(d, line, kind, more, [], false, size).headers
            && m.headers + more + [a] + [last] == Described(d, line, kind, more + [a], [], false, size).headers
  {
    hide Ascii, Decimal;
    var m, last := Kind(d, line, kind), (Ascii("wire-bytes"), Decimal(size));
    assert m.headers == [(Ascii("lens-protocol"), Ascii("postgres")), (Ascii("lens-kind"), Ascii(kind))];
    Assembles(m.headers, a, b, more, last);
  }

  // ----------------------------------------------------------------------- client frames

  /** A simple query: its text up to the cap. */
  lemma QueryDecodes(lossy: Lossy, sql: Bytes, tail: Bytes, maxBody: nat)
    requires 0 !in sql
    ensures var p := String(sql) + tail;
            DecodeTyped(lossy, ClientToServer, 'Q' as int, p, maxBody)
            == Ok(Described(ClientToServer, Ascii("Query"), "query", [ASKS, SQL], sql[..Min(|sql|, maxBody)], |sql| > maxBody, |p| + 5))
  {
    hide TakeCString, Ascii, Decimal;
    Framed(ClientToServer, Ascii("Query"), "query", ASKS, SQL, [], |sql| + 1 + |tail| + 5);
    Taken(sql, tail);
  }

  /** A prepared statement: its name in the start line and its text, up to the cap, in the body. */
  lemma ParseDecodes(lossy: Lossy, name: Bytes, sql: Bytes, tail: Bytes, maxBody: nat)
    requires 0 !in name && 0 !in sql
    ensures var p := String(name) + String(sql) + tail;
            DecodeTyped(lossy, ClientToServer, 'P' as int, p, maxBody)
            == Ok(Described(ClientToServer, Ascii("Parse statement=") + Called(lossy, name), "parse", [SQL],
                         sql[..Min(|sql|, maxBody)], |sql| > maxBody, |p| + 5))
  {
    hide TakeCString, Ascii, Decimal;
    Framed(ClientToServer, Ascii("Parse statement=") + Called(lossy, name), "parse", SQL, SQL, [], |name| + |sql| + |tail| + 7);
    assert String(name) + String(sql) + tail == String(name) + (String(sql) + tail);
    Taken(name, String(sql) + tail);
    Taken(sql, tail);
  }

  /** What a binding is called: its portal, its statement and the number of its parameters. */
  function BindLine(lossy: Lossy, portal: Bytes, statement: Bytes, n: nat): Bytes {
    Ascii("Bind portal=") + Called(lossy, portal) + Ascii(" statement=") + Called(lossy, statement)
    + Ascii(" parameters=") + Decimal(n) + Ascii(" (values omitted)")
  }

  lemma BindIsRead(lossy: Lossy, portal: Bytes, statement: Bytes, formats: Bytes, n: nat, values: Bytes)
    requires 0 !in portal && 0 !in statement && |formats| % 2 == 0 && |formats| / 2 < 65536 && n < 65536
    ensures BindMessage(lossy, String(portal) + String(statement) + Encode16(|formats| / 2) + formats + Encode16(n) + values)
            == Ok(Kind(ClientToServer, BindLine(lossy, portal, statement, n), "bind"))
  {
    hide TakeCString, Ascii, Decimal, Encode16, Be16, Kind, String;
    var k := |formats| / 2;
    var rest := Encode16(k) + formats + Encode16(n) + values;
    assert String(portal) + String(statement) + Encode16(k) + formats + Encode16(n) + values == String(portal) + (String(statement) + rest);
    Taken(portal, String(statement) + rest);
    Taken(statement, rest);
    assert rest[..2] == Encode16(k);
    assert rest[2 * k + 2..2 * k + 4] == Encode16(n);
  }

  /** A binding: none of the values after the names and counts. */
  lemma BindDecodes(lossy: Lossy, portal: Bytes, statement: Bytes, formats: Bytes, n: nat, values: Bytes, maxBody: nat)
    requires 0 !in portal && 0 !in statement && |formats| % 2 == 0 && |formats| / 2 < 65536 && n < 65536
    ensures var p := String(portal) + String(statement) + Encode16(|formats| / 2) + formats + Encode16(n) + values;
            DecodeTyped(lossy, ClientToServer, 'B' as int, p, maxBody)
            == Ok(Described(ClientToServer, BindLine(lossy, portal, statement, n), "bind", [], [], false, |p| + 5))
  {
    hide BindMessage, Ascii, Decimal, Encode16, BindLine, String;
    var p := String(portal) + String(statement) + Encode16(|formats| / 2) + formats + Encode16(n) + values;
    BindIsRead(lossy, portal, statement, formats, n, values);
    Framed(ClientToServer, BindLine(lossy, portal, statement, n), "bind", SQL, SQL, [], |p| + 5);
  }

  /** An execution: portal and row limit. */
  lemma ExecuteDecodes(lossy: Lossy, portal: Bytes, rows: nat, maxBody: nat)
    requires 0 !in portal && rows < 0x1_0000_0000
    ensures var p := String(portal) + Encode32(rows);
            DecodeTyped(lossy, ClientToServer, 'E' as int, p, maxBody)
            == Ok(Described(ClientToServer, Ascii("Execute portal=") + Called(lossy, portal) + Ascii(" max_rows=") + Decimal(rows),
                         "execute", [ASKS], [], false, |p| + 5))
  {
    hide TakeCString, Ascii, Decimal, Encode32, Be32;
    Taken(portal, Encode32(rows));
    Framed(ClientToServer, Ascii("Execute portal=") + Called(lossy, portal) + Ascii(" max_rows=") + Decimal(rows), "execute", ASKS, ASKS, [], |portal| + 10);
  }

  /** Client frames reported by name alone. */
  function ClientLabel(tag: char): Option<(string, string)> {
    match tag
    case 'p' => Some(("AuthenticationResponse (credentials omitted)", "authentication-response"))
    case 'C' => Some(("Close", "close"))
    case 'D' => Some(("Describe", "describe"))
    case 'F' => Some(("FunctionCall (arguments omitted)", "function-call"))
    case 'd' => Some(("CopyData (payload omitted)", "copy-data"))
    case 'c' => Some(("CopyDone", "copy-done"))
    case 'f' => Some(("CopyFail (detail omitted)", "copy-fail"))
    case 'H' => Some(("Flush", "flush"))
    case 'S' => Some(("Sync", "sync"))
    case 'X' => Some(("Terminate", "terminate"))
    case _ => None
  }

  lemma ClientLabelsDecode(lossy: Lossy, tag: Byte, p: Bytes, maxBody: nat)
    requires ClientLabel(tag as char).Some?
    ensures var (line, kind) := ClientLabel(tag as char).value;
            DecodeTyped(lossy, ClientToServer, tag, p, maxBody) == Ok(Described(ClientToServer, Ascii(line), kind, [], [], false, |p| + 5))
  {
    hide Ascii, Decimal, ParseMessage, BindMessage, ExecuteMessage, TakeCString, Hex2;
    Framed(ClientToServer, Ascii(ClientLabel(tag as char).value.0), ClientLabel(tag as char).value.1, SQL, SQL, [], |p| + 5);
  }

  // ----------------------------------------------------------------------- server frames

  /** Server frames reported by name alone, and whether they end a response. */
  function ServerLabel(tag: char): Option<(string, string, bool)> {
    match tag
    case 'K' => Some(("BackendKeyData (key material omitted)", "backend-key-data", false))
    case '1' => Some(("ParseComplete", "parse-complete", false))
    case '2' => Some(("BindComplete", "bind-complete", false))
    case '3' => Some(("CloseComplete", "close-complete", false))
    case 'n' => Some(("NoData", "no-data", false))
    case 's' => Some(("PortalSuspended", "portal-suspended", true))
    case 'I' => Some(("EmptyQueryResponse", "empty-query", true))
    case 'A' => Some(("NotificationResponse (payload omitted)", "notification", false))
    case 'G' => Some(("CopyResponse", "copy-response", false))
    case 'H' => Some(("CopyResponse", "copy-response", false))
    case 'W' => Some(("CopyResponse", "copy-response", false))
    case 'd' => Some(("CopyData (payload omitted)", "copy-data", false))
    case 'c' => Some(("CopyDone", "copy-done", true))
    case _ => None
  }

  lemma ServerLabelsAreRead(lossy: Lossy, tag: Byte, p: Bytes, maxBody: nat)
    requires ServerLabel(tag as char).Some?
    ensures var (line, kind, ends) := ServerLabel(tag as char).value;
            var m := Kind(ServerToClient, Ascii(line), kind);
            Backend(lossy, tag as char, p, maxBody) == Ok(if ends then WithBoundary(m, "response") else m)
  {
    hide Ascii, Kind, WithBoundary, ParameterStatus, ErrorMessage, RowDescription, TakeCString, CharText, Hex2, AuthenticationName, Be16, Be32;
  }

  lemma ServerLabelsDecode(lossy: Lossy, tag: Byte, p: Bytes, maxBody: nat)
    requires ServerLabel(tag as char).Some?
    ensures var (line, kind, ends) := ServerLabel(tag as char).value;
            DecodeTyped(lossy, ServerToClient, tag, p, maxBody)
            == Ok(Described(ServerToClient, Ascii(line), kind, if ends then [ANSWERS] else [], [], false, |p| + 5))
  {
    hide Ascii, Decimal, Backend, ServerLabel;
    var (line, kind, ends) := ServerLabel(tag as char).value;
    ServerLabelsAreRead(lossy, tag, p, maxBody);
    Framed(ServerToClient, Ascii(line), kind, ANSWERS, SQL, [], |p| + 5);
  }

  lemma CommandCompleteDecodes(lossy: Lossy, text: Bytes, tail: Bytes, maxBody: nat)
    requires 0 !in text
    ensures var p := String(text) + tail;
            DecodeTyped(lossy, ServerToClient, 'C' as int, p, maxBody)
            == Ok(Described(ServerToClient, Ascii("CommandComplete ") + lossy(text), "command-complete", [ANSWERS], [], false, |p| + 5))
  {
    hide TakeCString, Ascii, Decimal;
    Framed(ServerToClient, Ascii("CommandComplete ") + lossy(text), "command-complete", ANSWERS, SQL, [], |text| + |tail| + 6);
    Taken(text, tail);
  }

  lemma DataRowDecodes(lossy: Lossy, columns: nat, values: Bytes, maxBody: nat)
    requires columns < 65536
    ensures var p := Encode16(columns) + values;
            DecodeTyped(lossy, ServerToClient, 'D' as int, p, maxBody)
            == Ok(Described(ServerToClient, Ascii("DataRow columns=") + Decimal(columns) + Ascii(" (values omitted)"), "data-row", [], [], false, |p| + 5))
  {
    hide Ascii, Decimal, Encode16, Be16;
    assert (Encode16(columns) + values)[..2] == Encode16(columns);
    Framed(ServerToClient, Ascii("DataRow columns=") + Decimal(columns) + Ascii(" (values omitted)"), "data-row", SQL, SQL, [], |values| + 7);
  }

  lemma ReadyDecodes(lossy: Lossy, status: Byte, tail: Bytes, maxBody: nat)
    requires status < 0x80
    ensures var p := [status] + tail;
            DecodeTyped(lossy, ServerToClient, 'Z' as int, p, maxBody)
            == Ok(Described(ServerToClient, Ascii("ReadyForQuery status=") + [status], "ready", [], [], false, |p| + 5))
  {
    hide Ascii, Decimal;
    Framed(ServerToClient, Ascii("ReadyForQuery status=") + [status], "ready", SQL, SQL, [], |tail| + 6);
  }

  /** A parameter's name and value, secret values replaced; an empty value desynchronizes. */
  lemma ParameterStatusDecodes(lossy: Lossy, name: Bytes, value: Bytes, maxBody: nat)
    requires 0 !in name && 0 !in value
    ensures var p := String(name) + String(value);
            DecodeTyped(lossy, ServerToClient, 'S' as int, p, maxBody)
            == if value == [] then Err(BadParameterStatus)
               else Ok(Described(ServerToClient, Ascii("ParameterStatus"), "parameter-status", [Shown(lossy, name, value)], [], false, |p| + 5))
  {
    hide Ascii, Decimal, CStrings, IsStartupSecret, IsSecretName;
    var values := [name, value];
    assert values[1..] == [value] && [value][1..] == [];
    assert Terminated([value]) == value + [0] + Terminated([]);
    assert Terminated([value]) == String(value);
    assert Terminated(values) == String(name) + String(value);
    OpenListReadsBack(values);
    SecretNames(lossy(name));
    Framed(ServerToClient, Ascii("ParameterStatus"), "parameter-status", Shown(lossy, name, value), SQL, [], |name| + |value| + 7);
  }

  // -------------------------------------------------------------------------- errors

  /** A field of an error or notice: its code and its text. */
  type Field = (Byte, Bytes)

  function WriteFields(fields: seq<Field>): Bytes {
    if fields == [] then [0] else [fields[0].0] + String(fields[0].1) + WriteFields(fields[1..])
  }

  predicate GoodFields(fields: seq<Field>) {
    forall i :: 0 <= i < |fields| ==> fields[i].0 != 0 && 0 !in fields[i].1
  }

  /** The codes that are reported, and under which name. */
  function Reported(code: Byte): Option<Bytes> {
    if code == 83 || code == 86 then Some(Ascii("severity"))
    else if code == 67 then Some(Ascii("sqlstate"))
    else if code == 77 then Some(Ascii("message"))
    else if code == 68 then Some(Ascii("detail"))
    else if code == 72 then Some(Ascii("hint"))
    else if code == 87 then Some(Ascii("where"))
    else None
  }

  function FieldHeaders(lossy: Lossy, fields: seq<Field>, maxBody: nat): seq<Header> {
    if fields == [] then []
    else
      var (code, value) := fields[0];
      (if Reported(code).Some? then [(Reported(code).value, lossy(value[..Min(|value|, maxBody)]))] else [])
      + FieldHeaders(lossy, fields[1..], maxBody)
  }

  predicate SomeLong(fields: seq<Field>, maxBody: nat) {
    exists i :: 0 <= i < |fields| && Reported(fields[i].0).Some? && |fields[i].1| > maxBody
  }

  lemma {:induction false} FieldsReadBack(fields: seq<Field>, tail: Bytes)
    requires GoodFields(fields)
    ensures ErrorFields(WriteFields(fields) + tail) == Ok(fields)
    decreases |fields|
  {
    hide TakeCString;
    if fields != [] {
      var rest := WriteFields(fields[1..]) + tail;
      var s := WriteFields(fields) + tail;
      assert s == [fields[0].0] + (String(fields[0].1) + rest);
      assert s[1..] == String(fields[0].1) + rest;
      Taken(fields[0].1, rest);
      FieldsReadBack(fields[1..], tail);
      assert [fields[0]] + fields[1..] == fields;
    }
  }

  lemma FieldNames(code: Byte)
    ensures Reported(code) == if ErrorFieldName(code as char) == "" then None else Some(Ascii(ErrorFieldName(code as char)))
  {
  }

  lemma {:induction false} FieldsAreAdded(lossy: Lossy, m: DecodedMessage, fields: seq<Field>, maxBody: nat)
    ensures AddErrorFields(lossy, m, fields, maxBody)
            == m.(headers := m.headers + FieldHeaders(lossy, fields, maxBody), truncated := m.truncated || SomeLong(fields, maxBody))
    decreases |fields|
  {
    hide ErrorFieldName, Ascii, Reported;
    if fields == [] {
      assert m.headers + [] == m.headers;
    } else {
      var (code, value) := fields[0];
      FieldNames(code);
      var rest := fields[1..];
      assert fields == [fields[0]] + rest;
      assert SomeLong(fields, maxBody) <==> (Reported(code).Some? && |value| > maxBody) || SomeLong(rest, maxBody) by { LongSplits(fields, maxBody); }
      var next := if Reported(code).None? then m
                  else With(m, Reported(code).value, lossy(value[..Min(|value|, maxBody)])).(truncated := m.truncated || |value| > maxBody);
      FieldsAreAdded(lossy, next, rest, maxBody);
      assert next.headers + FieldHeaders(lossy, rest, maxBody) == m.headers + FieldHeaders(lossy, fields, maxBody);
    }
  }

  lemma LongSplits(fields: seq<Field>, maxBody: nat)
    requires fields != []
    ensures SomeLong(fields, maxBody) <==> (Reported(fields[0].0).Some? && |fields[0].1| > maxBody) || SomeLong(fields[1..], maxBody)
  {
    hide Reported;
    var rest := fields[1..];
    assert forall i :: 0 <= i < |rest| ==> rest[i] == fields[i + 1];
    if SomeLong(fields, maxBody) {
      var i :| 0 <= i < |fields| && Reported(fields[i].0).Some? && |fields[i].1| > maxBody;
      if i > 0 { assert Reported(rest[i - 1].0).Some?; }
    }
  }

  /** Errors and notices: the known fields in order, each up to the cap, flagged when one was longer. */
  lemma ErrorsDecode(lossy: Lossy, isError: bool, fields: seq<Field>, tail: Bytes, maxBody: nat)
    requires GoodFields(fields)
    ensures var p := WriteFields(fields) + tail;
            var shown := FieldHeaders(lossy, fields, maxBody);
            DecodeTyped(lossy, ServerToClient, if isError then 'E' as int else 'N' as int, p, maxBody)
            == Ok(if isError then Described(ServerToClient, Ascii("ErrorResponse"), "error", shown + [ANSWERS], [], SomeLong(fields, maxBody), |p| + 5)
                  else Described(ServerToClient, Ascii("NoticeResponse"), "notice", shown, [], SomeLong(fields, maxBody), |p| + 5))
  {
    hide ErrorFields, AddErrorFields, Ascii, Decimal, FieldHeaders, SomeLong;
    FieldsReadBack(fields, tail);
    FieldsAreAdded(lossy, Kind(ServerToClient, Ascii("ErrorResponse"), "error"), fields, maxBody);
    FieldsAreAdded(lossy, Kind(ServerToClient, Ascii("NoticeResponse"), "notice"), fields, maxBody);
    var shown := FieldHeaders(lossy, fields, maxBody);
    Framed(ServerToClient, Ascii("ErrorResponse"), "error", ANSWERS, SQL, shown, |WriteFields(fields) + tail| + 5);
    Framed(ServerToClient, Ascii("NoticeResponse"), "notice", ANSWERS, SQL, shown, |WriteFields(fields) + tail| + 5);
  }

  // ------------------------------------------------------------------------- columns

  /** A described column: its name and eighteen bytes of type information. */
  datatype Column = Column(name: Bytes, info: Bytes)

  predicate GoodColumns(columns: seq<Column>) {
    forall i :: 0 <= i < |columns| ==> 0 !in columns[i].name && |columns[i].info| == 18
  }

  function WriteColumns(columns: seq<Column>): Bytes {
    if columns == [] then [] else String(columns[0].name) + columns[0].info + WriteColumns(columns[1..])
  }

  /** The names of the columns as they are shown. */
  function ShownNames(lossy: Lossy, columns: seq<Column>): seq<Bytes> {
    seq(|columns|, i requires 0 <= i < |columns| => lossy(columns[i].name))
  }

  function NamesOf(columns: seq<Column>): seq<Bytes> {
    seq(|columns|, i requires 0 <= i < |columns| => columns[i].name)
  }

  lemma {:induction false} ColumnsReadBack(columns: seq<Column>, tail: Bytes)
    requires GoodColumns(columns)
    ensures ColumnNames(WriteColumns(columns) + tail, |columns|) == Ok(NamesOf(columns))
    decreases |columns|
  {
    hide TakeCString;
    if columns != [] {
      var c := columns[0];
      var rest := WriteColumns(columns[1..]) + tail;
      assert WriteColumns(columns) + tail == String(c.name) + (c.info + rest);
      Taken(c.name, c.info + rest);
      assert (c.info + rest)[18..] == rest;
      ColumnsReadBack(columns[1..], tail);
      assert NamesOf(columns) == [c.name] + NamesOf(columns[1..]);
    } else {
      assert NamesOf(columns) == [];
    }
  }

  lemma NamesAreJoined(lossy: Lossy, columns: seq<Column>)
    ensures JoinComma(lossy, NamesOf(columns)) == JoinTexts(ShownNames(lossy, columns), Ascii(","))
  {
    hide JoinTexts, Ascii;
    var names := NamesOf(columns);
    assert seq(|names|, i requires 0 <= i < |names| => lossy(names[i])) == ShownNames(lossy, columns);
  }

  /** A row description: how many columns, and the names of the first 32. */
  lemma RowDescriptionDecodes(lossy: Lossy, columns: seq<Column>, tail: Bytes, maxBody: nat)
    requires GoodColumns(columns) && |columns| < 65536
    ensures var p := Encode16(|columns|) + WriteColumns(columns) + tail;
            var shown := columns[..Min(|columns|, 32)];
            DecodeTyped(lossy, ServerToClient, 'T' as int, p, maxBody)
            == Ok(Described(ServerToClient, Ascii("RowDescription columns=") + Decimal(|columns|), "row-description",
                         if columns == [] then [] else [(Ascii("columns"), Listed(ShownNames(lossy, shown), Ascii(",")))], [], false, |p| + 5))
  {
    hide ColumnNames, Ascii, Decimal, Encode16, Be16, JoinComma, JoinTexts, Listed, WriteColumns;
    var p := Encode16(|columns|) + WriteColumns(columns) + tail;
    assert p[..2] == Encode16(|columns|) && p[2..] == WriteColumns(columns) + tail;
    ColumnsReadBack(columns, tail);
    var shown := columns[..Min(|columns|, 32)];
    assert NamesOf(columns)[..Min(|columns|, 32)] == NamesOf(shown);
    ListedIsJoined(ShownNames(lossy, shown), Ascii(","));
    NamesAreJoined(lossy, shown);
    Framed(ServerToClient, Ascii("RowDescription columns=") + Decimal(|columns|), "row-description",
           (Ascii("columns"), Listed(ShownNames(lossy, shown), Ascii(","))), SQL, [], |p| + 5);
  }

  // ------------------------------------------------------------------------- startup

  /** Names, in any case, whose values are never shown. */
  predicate IsSecretName(name: Bytes) {
    || EqIgnoreCase(name, Ascii("password")) || EqIgnoreCase(name, Ascii("passfile")) || EqIgnoreCase(name, Ascii("sslpassword"))
    || EqIgnoreCase(name, Ascii("token")) || EqIgnoreCase(name, Ascii("secret")) || EqIgnoreCase(name, Ascii("options"))
  }

  lemma LowerWords()
    ensures forall w :: w in {"password", "passfile", "sslpassword", "token", "secret", "options"} ==> LowerAll(Ascii(w)) == Ascii(w)
  {
  }

  lemma SecretNames(name: Bytes)
    ensures IsStartupSecret(name) <==> IsSecretName(name)
  {
    hide LowerAll, Ascii;
    LowerWords();
  }

  /** A parameter as it is shown. */
  function Shown(lossy: Lossy, name: Bytes, value: Bytes): Header {
    (lossy(name), if IsSecretName(lossy(name)) then Ascii("[REDACTED]") else lossy(value))
  }

  datatype Parameter = Parameter(name: Bytes, value: Bytes)

  function Flat(parameters: seq<Parameter>): seq<Bytes> {
    if parameters == [] then [] else [parameters[0].name, parameters[0].value] + Flat(parameters[1..])
  }

  function ShownAll(lossy: Lossy, parameters: seq<Parameter>): seq<Header> {
    seq(|parameters|, i requires 0 <= i < |parameters| => Shown(lossy, parameters[i].name, parameters[i].value))
  }

  lemma {:induction false} ParametersPair(lossy: Lossy, parameters: seq<Parameter>)
    ensures |Flat(parameters)| % 2 == 0 && Pairs(lossy, Flat(parameters)) == ShownAll(lossy, parameters)
    decreases |parameters|
  {
    hide Ascii, IsStartupSecret, IsSecretName;
    if parameters == [] {
      assert ShownAll(lossy, parameters) == [];
    } else {
      var q := parameters[0];
      ParametersPair(lossy, parameters[1..]);
      SecretNames(lossy(q.name));
      assert Flat(parameters)[2..] == Flat(parameters[1..]);
      assert ShownAll(lossy, parameters) == [Shown(lossy, q.name, q.value)] + ShownAll(lossy, parameters[1..]);
    }
  }

  /** A startup message: its version and its parameters in order, secret values replaced. */
  lemma StartupDecodes(lossy: Lossy, minor: nat, parameters: seq<Parameter>)
    requires minor < 65536 && NulFree(Flat(parameters))
    ensures var p := Terminated(Flat(parameters)) + [0];
            StartupMessage(lossy, 3 * 65536 + minor, p)
            == Ok(DecodedMessage(ClientToServer, Ascii("StartupMessage protocol=") + Decimal(3) + Ascii(".") + Decimal(minor),
                                 [(Ascii("lens-protocol"), Ascii("postgres")), (Ascii("lens-kind"), Ascii("startup"))] + ShownAll(lossy, parameters),
                                 [], false))
  {
    hide CStrings, Ascii, Decimal, Pairs;
    ClosedListReadsBack(Flat(parameters));
    ParametersPair(lossy, parameters);
    var version := 3 * 65536 + minor;
    assert version / 65536 == 3 && version % 65536 == minor;
    assert Kind(ClientToServer, [], "startup").headers == [(Ascii("lens-protocol"), Ascii("postgres")), (Ascii("lens-kind"), Ascii("startup"))];
  }

  // ------------------------------------------------------------------- frames on the wire

  predicate Decodes(lossy: Lossy, maxBody: nat, d: Direction, u: Unit, m: DecodedMessage) {
    u.TypedUnit? && Fitting(u) && DecodeTyped(lossy, d, u.tag, u.body, maxBody) == Ok(m)
  }

  /** Typed frames are reported one by one, in order, and nothing is left. */
  lemma {:induction false} FramesDecode(lossy: Lossy, maxBody: nat, d: Direction, us: seq<Unit>, ms: seq<DecodedMessage>)
    requires |us| == |ms| && AllFitting(us) && forall i :: 0 <= i < |us| ==> Decodes(lossy, maxBody, d, us[i], ms[i])
    ensures DrainFrames(lossy, maxBody, d, Typed, EncodeAll(us)) == Drained(Typed, [], Batch(ms, None), false)
    decreases |us|
  {
    hide DrainFrames, Step, DecodeTyped, Encode, Fitting;
    if us == [] {
      DrainUnfolds(lossy, maxBody, d, Typed, []);
      EmptyWaits(lossy, maxBody, d, Typed);
    } else {
      assert Decodes(lossy, maxBody, d, us[0], ms[0]);
      TypedUnitSteps(lossy, maxBody, d, us[0], EncodeAll(us[1..]));
      DrainUnfolds(lossy, maxBody, d, Typed, EncodeAll(us));
      FramesDecode(lossy, maxBody, d, us[1..], ms[1..]);
      assert [ms[0]] + ms[1..] == ms;
    }
  }

  /** Either side of an established connection: its frames are reported one by one, however they are cut. */
  lemma TypedSideDecodes(lossy: Lossy, maxBody: nat, d: Direction, s: Decoder, us: seq<Unit>, ms: seq<DecodedMessage>, fragments: seq<Bytes>)
    requires s.phase == Typed && BufferOf(s, d) == [] && |us| == |ms| && AllFitting(us)
    requires forall i :: 0 <= i < |us| ==> Decodes(lossy, maxBody, d, us[i], ms[i])
    requires fragments != [] && Flatten(fragments) == EncodeAll(us) && |Flatten(fragments)| <= MAX_BUFFERED
    ensures Feed(Pusher(lossy, maxBody, d), s, fragments) == (s, Batch(ms, None))
  {
    hide DrainFrames, EncodeAll, Decodes;
    Fragmentation(lossy, maxBody, d, s, fragments);
    FramesDecode(lossy, maxBody, d, us, ms);
    assert [] + EncodeAll(us) == EncodeAll(us);
  }

  /** A connection's client side from its start: the startup frame, then typed frames, however cut. */
  lemma ClientDecodes(lossy: Lossy, maxBody: nat, minor: nat, parameters: seq<Parameter>, us: seq<Unit>, ms: seq<DecodedMessage>, fragments: seq<Bytes>)
    requires minor < 65536 && NulFree(Flat(parameters)) && |us| == |ms| && AllFitting(us)
    requires forall i :: 0 <= i < |us| ==> Decodes(lossy, maxBody, ClientToServer, us[i], ms[i])
    requires var start := StartupUnit(Encode32(3 * 65536 + minor) + Terminated(Flat(parameters)) + [0]);
             Fitting(start) && fragments != [] && Flatten(fragments) == Encode(start) + EncodeAll(us) && |Flatten(fragments)| <= MAX_BUFFERED
    ensures var m := StartupMessage(lossy, 3 * 65536 + minor, Terminated(Flat(parameters)) + [0]);
            m.Ok? && Feed(Pusher(lossy, maxBody, ClientToServer), Initial, fragments)
                     == (Decoder(Typed, [], []), Batch([m.value] + ms, None))
  {
    hide DrainFrames, Step, DecodeTyped, Encode, StartupMessage, Encode32, Terminated, EncodeAll, Decodes;
    var version := 3 * 65536 + minor;
    var list := Terminated(Flat(parameters)) + [0];
    var start := StartupUnit(Encode32(version) + Terminated(Flat(parameters)) + [0]);
    var b := Encode(start) + EncodeAll(us);
    StartupDecodes(lossy, minor, parameters);
    Fragmentation(lossy, maxBody, ClientToServer, Initial, fragments);
    StartupUnitSteps(lossy, maxBody, start, EncodeAll(us));
    StartupFrameIs(lossy, start, version, list, EncodeAll(us));
    DrainUnfolds(lossy, maxBody, ClientToServer, Startup, b);
    FramesDecode(lossy, maxBody, ClientToServer, us, ms);
    assert [] + b == b;
  }

  lemma StartupFrameIs(lossy: Lossy, start: Unit, version: nat, list: Bytes, rest: Bytes)
    requires version < 0x1_0000_0000 && version / 65536 == 3 && start.StartupUnit? && Fitting(start) && start.body == Encode32(version) + list
    requires StartupMessage(lossy, version, list).Ok?
    ensures |Encode(start)| >= 8 && StartupFrame(lossy, Encode(start), rest) == Advance(Typed, rest, Batch([StartupMessage(lossy, version, list).value], None))
  {
    hide StartupMessage, Encode32, Be32, Message;
    var frame := Encode(start);
    assert frame[4..8] == Encode32(version) && frame[8..] == list;
  }

  // ---------------------------------------------------------------- before the startup frame

  /** A message with nothing but its start line and protocol. */
  function Bare(d: Direction, line: string): DecodedMessage {
    DecodedMessage(d, Ascii(line), [(Ascii("lens-protocol"), Ascii("postgres"))], [], false)
  }

  /** The first frame of a client, by its code. */
  lemma CodeIsRead(lossy: Lossy, maxBody: nat, code: nat, tail: Bytes, rest: Bytes)
    requires code < 0x1_0000_0000 && Fitting(StartupUnit(Encode32(code) + tail))
    ensures var u := StartupUnit(Encode32(code) + tail);
            var frame := Encode(u);
            && |frame| >= 8 && Be32(frame[4..8]) == code
            && Step(lossy, maxBody, ClientToServer, Startup, frame + rest) == StartupFrame(lossy, frame, rest)
  {
    hide StartupFrame, Encode32, Be32, Step;
    var u := StartupUnit(Encode32(code) + tail);
    StartupUnitSteps(lossy, maxBody, u, rest);
    assert Encode(u)[4..8] == Encode32(code);
  }

  /** A request for encryption is reported and the server's answer awaited. */
  lemma EncryptionIsAsked(lossy: Lossy, maxBody: nat, gss: bool)
    ensures var code := if gss then GSSENC_REQUEST_CODE else SSL_REQUEST_CODE;
            Push(lossy, maxBody, Initial, ClientToServer, Encode(StartupUnit(Encode32(code))))
            == (Decoder(AwaitingEncryptionResponse, [], []), Batch([Bare(ClientToServer, if gss then "GSSENCRequest" else "SSLRequest")], None))
  {
    hide DrainFrames, Step, Encode32, Be32, Ascii, Encode;
    var code := if gss then GSSENC_REQUEST_CODE else SSL_REQUEST_CODE;
    assert Encode32(code) + [] == Encode32(code);
    var b := Encode(StartupUnit(Encode32(code)));
    CodeIsRead(lossy, maxBody, code, [], []);
    assert b + [] == b && [] + b == b;
    DrainUnfolds(lossy, maxBody, ClientToServer, Startup, b);
    EmptyWaits(lossy, maxBody, ClientToServer, AwaitingEncryptionResponse);
    var m := Bare(ClientToServer, if gss then "GSSENCRequest" else "SSLRequest");
    assert [m] + [] == [m];
    DrainUnfolds(lossy, maxBody, ClientToServer, AwaitingEncryptionResponse, []);
  }

  /** A refusal starts the conversation over: what follows is read as from the beginning. */
  lemma EncryptionIsRefused(lossy: Lossy, maxBody: nat)
    ensures Push(lossy, maxBody, Decoder(AwaitingEncryptionResponse, [], []), ServerToClient, ['N' as int])
            == (Initial, Batch([Bare(ServerToClient, "EncryptionResponse rejected")], None))
  {
    hide DrainFrames, Ascii;
    var b: Bytes := ['N' as int];
    var m := Bare(ServerToClient, "EncryptionResponse rejected");
    assert [] + b == b && b[1..] == [] && [m] + [] == [m];
    DrainUnfolds(lossy, maxBody, ServerToClient, AwaitingEncryptionResponse, b);
    DrainUnfolds(lossy, maxBody, ServerToClient, Startup, []);
  }

  /** An acceptance is reported, and nothing after it is read. */
  lemma EncryptionIsAccepted(lossy: Lossy, maxBody: nat, gss: bool, rest: Bytes)
    requires |rest| < MAX_BUFFERED
    ensures Push(lossy, maxBody, Decoder(AwaitingEncryptionResponse, [], []), ServerToClient, [if gss then 'G' as int else 'S' as int] + rest)
            == (Dark, Batch([Bare(ServerToClient, if gss then "GSSENCResponse accepted (traffic opaque)" else "EncryptionResponse accepted (traffic opaque)")], None))
  {
    hide DrainFrames, Ascii;
    var b: Bytes := [if gss then 'G' as int else 'S' as int] + rest;
    assert [] + b == b;
    DrainUnfolds(lossy, maxBody, ServerToClient, AwaitingEncryptionResponse, b);
  }

  /** A cancellation is reported without its key, and nothing after it is read. */
  lemma CancelGoesDark(lossy: Lossy, maxBody: nat, key: Bytes, rest: Bytes)
    requires |key| + 8 <= MAX_FRAME_BYTES && |key| + |rest| + 8 <= MAX_BUFFERED
    ensures Push(lossy, maxBody, Initial, ClientToServer, Encode(StartupUnit(Encode32(CANCEL_REQUEST_CODE) + key)) + rest)
            == (Dark, Batch([Bare(ClientToServer, "CancelRequest (key material omitted)")], None))
  {
    hide DrainFrames, Step, Encode32, Be32, Ascii, Encode;
    var b := Encode(StartupUnit(Encode32(CANCEL_REQUEST_CODE) + key)) + rest;
    CodeIsRead(lossy, maxBody, CANCEL_REQUEST_CODE, key, rest);
    assert [] + b == b;
    DrainUnfolds(lossy, maxBody, ClientToServer, Startup, b);
  }

  lemma AuthenticationDecodes(lossy: Lossy, code: nat, tail: Bytes, maxBody: nat)
    requires code < 0x1_0000_0000
    ensures var p := Encode32(code) + tail;
            DecodeTyped(lossy, ServerToClient, 'R' as int, p, maxBody)
            == Ok(Described(ServerToClient, Ascii("Authentication ") + Ascii(AuthenticationName(code)), "authentication", [], [], false, |p| + 5))
  {
    hide Ascii, Decimal, Encode32, Be32, AuthenticationName;
    assert (Encode32(code) + tail)[..4] == Encode32(code);
    Framed(ServerToClient, Ascii("Authentication ") + Ascii(AuthenticationName(code)), "authentication", SQL, SQL, [], |tail| + 9);
  }
}
