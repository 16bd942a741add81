/** The PostgreSQL decoder as functions: phases, framing, and messages that leave values out. */
module Postgres {
  import opened ByteStrings
  import opened Streaming
  import opened Text

  const MAX_FRAME_BYTES: nat := 16 * 1024 * 1024
  const MAX_BUFFERED: nat := MAX_FRAME_BYTES + 5
  const SSL_REQUEST_CODE: nat := 80_877_103
  const CANCEL_REQUEST_CODE: nat := 80_877_102
  const GSSENC_REQUEST_CODE: nat := 80_877_104

  datatype Phase = Startup | AwaitingEncryptionResponse | Typed | Opaque

  datatype Reason =
    | BufferTooLong | BadStartupLength(length: nat) | BadEncryptionResponse | BadMessageLength(length: nat, tag: Byte)
    | UnsupportedVersion(version: nat) | OddStartupParameters | UnterminatedString
    | TruncatedBind | TruncatedBindFormats | BadExecute | TruncatedAuthentication | BadParameterStatus
    | TruncatedDataRow | UnterminatedErrorFields | TruncatedRowDescription | TruncatedRowField
    | EndedIncomplete(remaining: nat)

  datatype Result<+T> = Ok(value: T) | Err(reason: Reason)

  // ------------------------------------------------------------------ C strings

  function NulIndex(s: Bytes): (n: nat)
    ensures n <= |s| && 0 !in s[..n] && (n < |s| ==> s[n] == 0)
  {
    if s == [] || s[0] == 0 then 0 else 1 + NulIndex(s[1..])
  }

  function TakeCString(s: Bytes): (r: Result<(Bytes, Bytes)>)
    ensures r.Ok? ==> s == r.value.0 + [0] + r.value.1 && 0 !in r.value.0
  {
    var n := NulIndex(s);
    if n == |s| then Err(UnterminatedString) else Ok((s[..n], s[n + 1..]))
  }

  /** NUL-terminated values up to the end, or up to a final lone terminator. */
  function CStrings(s: Bytes): Result<seq<Bytes>>
    decreases |s|
  {
    if s == [] || s == [0] then Ok([])
    else match TakeCString(s)
         case Err(reason) => Err(reason)
         case Ok((value, rest)) =>
           match CStrings(rest)
           case Err(reason) => Err(reason)
           case Ok(values) => Ok([value] + values)
  }

  function ErrorFields(s: Bytes): Result<seq<(Byte, Bytes)>>
    decreases |s|
  {
    if s == [] then Err(UnterminatedErrorFields)
    else if s[0] == 0 then Ok([])
    else match TakeCString(s[1..])
         case Err(reason) => Err(reason)
         case Ok((value, rest)) =>
           match ErrorFields(rest)
           case Err(reason) => Err(reason)
           case Ok(fields) => Ok([(s[0], value)] + fields)
  }

  /** Names of the described columns; each is followed by 18 bytes of type information. */
  function ColumnNames(s: Bytes, columns: nat): Result<seq<Bytes>>
    decreases columns
  {
    if columns == 0 then Ok([])
    else match TakeCString(s)
         case Err(reason) => Err(reason)
         case Ok((name, rest)) =>
           if |rest| < 18 then Err(TruncatedRowField)
           else match ColumnNames(rest[18..], columns - 1)
                case Err(reason) => Err(reason)
                case Ok(names) => Ok([name] + names)
  }

  // -------------------------------------------------------------------- messages

  type Lossy = Bytes -> Bytes

  function Message(d: Direction, startLine: Bytes): DecodedMessage {
    DecodedMessage(d, startLine, [(Ascii("lens-protocol"), Ascii("postgres"))], [], false)
  }

  function With(m: DecodedMessage, name: Bytes, value: Bytes): DecodedMessage {
    m.(headers := m.headers + [(name, value)])
  }

  function Kind(d: Direction, line: Bytes, kind: string): DecodedMessage {
    With(Message(d, line), Ascii("lens-kind"), Ascii(kind))
  }

  function WithBoundary(m: DecodedMessage, boundary: string): DecodedMessage {
    With(m, Ascii("lens-boundary"), Ascii(boundary))
  }

  function WithSql(m: DecodedMessage, sql: Bytes, maxBody: nat): DecodedMessage {
    With(m.(body := sql[..Min(|sql|, maxBody)], truncated := |sql| > maxBody), Ascii("lens-content"), Ascii("sql"))
  }

  function DisplayName(lossy: Lossy, name: Bytes): Bytes {
    if name == [] then Ascii("<unnamed>") else lossy(name)
  }

  /** A byte as a Latin-1 character in UTF-8. */
  function CharText(b: Byte): Bytes {
    if b < 0x80 then [b] else [0xC0 + b / 64, 0x80 + b % 64]
  }

  predicate IsStartupSecret(name: Bytes) {
    LowerAll(name) in {Ascii("password"), Ascii("passfile"), Ascii("sslpassword"), Ascii("token"), Ascii("secret"), Ascii("options")}
  }

  function SafeValue(lossy: Lossy, name: Bytes, value: Bytes): Bytes {
    if IsStartupSecret(lossy(name)) then Ascii("[REDACTED]") else lossy(value)
  }

  function Pairs(lossy: Lossy, fields: seq<Bytes>): seq<Header>
    requires |fields| % 2 == 0
  {
    if fields == [] then [] else [(lossy(fields[0]), SafeValue(lossy, fields[0], fields[1]))] + Pairs(lossy, fields[2..])
  }

  function StartupMessage(lossy: Lossy, version: nat, payload: Bytes): Result<DecodedMessage> {
    if version / 65536 != 3 then Err(UnsupportedVersion(version))
    else match CStrings(payload)
         case Err(reason) => Err(reason)
         case Ok(fields) =>
           if |fields| % 2 != 0 then Err(OddStartupParameters)
           else
             var m := Kind(ClientToServer, Ascii("StartupMessage protocol=") + Decimal(version / 65536) + Ascii(".") + Decimal(version % 65536), "startup");
             Ok(m.(headers := m.headers + Pairs(lossy, fields)))
  }

  /** Bind: names and counts, never the parameter values. */
  function BindMessage(lossy: Lossy, payload: Bytes): Result<DecodedMessage> {
    match TakeCString(payload)
    case Err(reason) => Err(reason)
    case Ok((portal, rest1)) =>
      match TakeCString(rest1)
      case Err(reason) => Err(reason)
      case Ok((statement, rest)) =>
        if |rest| < 2 then Err(TruncatedBind)
        else
          var formats := Be16(rest[..2]) * 2 + 2;
          if |rest| < formats + 2 then Err(TruncatedBindFormats)
          else Ok(Kind(ClientToServer,
                       Ascii("Bind portal=") + DisplayName(lossy, portal) + Ascii(" statement=") + DisplayName(lossy, statement)
                       + Ascii(" parameters=") + Decimal(Be16(rest[formats..formats + 2])) + Ascii(" (values omitted)"), "bind"))
  }

  function ParseMessage(lossy: Lossy, payload: Bytes, maxBody: nat): Result<DecodedMessage> {
    match TakeCString(payload)
    case Err(reason) => Err(reason)
    case Ok((name, rest)) =>
      match TakeCString(rest)
      case Err(reason) => Err(reason)
      case Ok((sql, _)) =>
        Ok(WithSql(Kind(ClientToServer, Ascii("Parse statement=") + DisplayName(lossy, name), "parse"), sql, maxBody))
  }

  function ExecuteMessage(lossy: Lossy, payload: Bytes): Result<DecodedMessage> {
    match TakeCString(payload)
    case Err(reason) => Err(reason)
    case Ok((portal, rest)) =>
      if |rest| != 4 then Err(BadExecute)
      else Ok(WithBoundary(Kind(ClientToServer, Ascii("Execute portal=") + DisplayName(lossy, portal)
                                                + Ascii(" max_rows=") + Decimal(Be32(rest)), "execute"), "request"))
  }

  function Frontend(lossy: Lossy, tag: char, payload: Bytes, maxBody: nat): Result<DecodedMessage> {
    var d := ClientToServer;
    match tag
    case 'Q' =>
      (match TakeCString(payload)
       case Err(reason) => Err(reason)
       case Ok((sql, _)) => Ok(WithSql(WithBoundary(Kind(d, Ascii("Query"), "query"), "request"), sql, maxBody)))
    case 'P' => ParseMessage(lossy, payload, maxBody)
    case 'B' => BindMessage(lossy, payload)
    case 'E' => ExecuteMessage(lossy, payload)
    case 'p' => Ok(Kind(d, Ascii("AuthenticationResponse (credentials omitted)"), "authentication-response"))
    case 'C' => Ok(Kind(d, Ascii("Close"), "close"))
    case 'D' => Ok(Kind(d, Ascii("Describe"), "describe"))
    case 'F' => Ok(Kind(d, Ascii("FunctionCall (arguments omitted)"), "function-call"))
    case 'd' => Ok(Kind(d, Ascii("CopyData (payload omitted)"), "copy-data"))
    case 'c' => Ok(Kind(d, Ascii("CopyDone"), "copy-done"))
    case 'f' => Ok(Kind(d, Ascii("CopyFail (detail omitted)"), "copy-fail"))
    case 'H' => Ok(Kind(d, Ascii("Flush"), "flush"))
    case 'S' => Ok(Kind(d, Ascii("Sync"), "sync"))
    case 'X' => Ok(Kind(d, Ascii("Terminate"), "terminate"))
    case _ => Ok(Kind(d, Ascii("FrontendMessage tag=0x") + Hex2(tag as int % 256) + Ascii(" bytes=") + Decimal(|payload|), "unknown"))
  }

  function AuthenticationName(code: nat): string {
    match code
    case 0 => "Ok"
    case 2 => "KerberosV5"
    case 3 => "CleartextPassword"
    case 5 => "MD5Password"
    case 6 => "SCMCredential"
    case 7 => "GSS"
    case 8 => "GSSContinue"
    case 9 => "SSPI"
    case 10 => "SASL"
    case 11 => "SASLContinue"
    case 12 => "SASLFinal"
    case _ => "Unknown"
  }

  function ParameterStatus(lossy: Lossy, payload: Bytes): Result<DecodedMessage> {
    match CStrings(payload)
    case Err(reason) => Err(reason)
    case Ok(fields) =>
      if |fields| < 2 then Err(BadParameterStatus)
      else Ok(With(Kind(ServerToClient, Ascii("ParameterStatus"), "parameter-status"),
                   lossy(fields[0]), SafeValue(lossy, fields[0], fields[1])))
  }

  function ErrorFieldName(code: char): string {
    match code
    case 'S' => "severity"
    case 'V' => "severity"
    case 'C' => "sqlstate"
    case 'M' => "message"
    case 'D' => "detail"
    case 'H' => "hint"
    case 'W' => "where"
    case _ => ""
  }

  function AddErrorFields(lossy: Lossy, m: DecodedMessage, fields: seq<(Byte, Bytes)>, maxBody: nat): DecodedMessage
    decreases fields
  {
    if fields == [] then m
    else
      var name, value := ErrorFieldName(fields[0].0 as char), fields[0].1;
      if name == "" then AddErrorFields(lossy, m, fields[1..], maxBody)
      else
        var kept := value[..Min(|value|, maxBody)];
        AddErrorFields(lossy, With(m, Ascii(name), lossy(kept)).(truncated := m.truncated || |value| > maxBody), fields[1..], maxBody)
  }

  function ErrorMessage(lossy: Lossy, isError: bool, payload: Bytes, maxBody: nat): Result<DecodedMessage> {
    match ErrorFields(payload)
    case Err(reason) => Err(reason)
    case Ok(fields) =>
      var titled := if isError then Kind(ServerToClient, Ascii("ErrorResponse"), "error")
                    else Kind(ServerToClient, Ascii("NoticeResponse"), "notice");
      var m := AddErrorFields(lossy, titled, fields, maxBody);
      Ok(if isError then WithBoundary(m, "response") else m)
  }

  function JoinComma(lossy: Lossy, names: seq<Bytes>): Bytes {
    JoinTexts(seq(|names|, i requires 0 <= i < |names| => lossy(names[i])), Ascii(","))
  }

  function RowDescription(lossy: Lossy, payload: Bytes): Result<DecodedMessage> {
    if |payload| < 2 then Err(TruncatedRowDescription)
    else
      var columns := Be16(payload[..2]);
      match ColumnNames(payload[2..], columns)
      case Err(reason) => Err(reason)
      case Ok(names) =>
        var m := Kind(ServerToClient, Ascii("RowDescription columns=") + Decimal(columns), "row-description");
        Ok(if names == [] then m else With(m, Ascii("columns"), JoinComma(lossy, names[..Min(|names|, 32)])))
  }

  function Backend(lossy: Lossy, tag: char, payload: Bytes, maxBody: nat): Result<DecodedMessage> {
    var d := ServerToClient;
    match tag
    case 'R' =>
      if |payload| < 4 then Err(TruncatedAuthentication)
      else Ok(Kind(d, Ascii("Authentication ") + Ascii(AuthenticationName(Be32(payload[..4]))), "authentication"))
    case 'S' => ParameterStatus(lossy, payload)
    case 'K' => Ok(Kind(d, Ascii("BackendKeyData (key material omitted)"), "backend-key-data"))
    case 'Z' =>
      Ok(Kind(d, Ascii("ReadyForQuery status=") + CharText(if payload == [] then '?' as int else payload[0]), "ready"))
    case 'C' =>
      (match TakeCString(payload)
       case Err(reason) => Err(reason)
       case Ok((text, _)) => Ok(WithBoundary(Kind(d, Ascii("CommandComplete ") + lossy(text), "command-complete"), "response")))
    case 'E' => ErrorMessage(lossy, true, payload, maxBody)
    case 'N' => ErrorMessage(lossy, false, payload, maxBody)
    case 'T' => RowDescription(lossy, payload)
    case 'D' =>
      if |payload| < 2 then Err(TruncatedDataRow)
      else Ok(Kind(d, Ascii("DataRow columns=") + Decimal(Be16(payload[..2])) + Ascii(" (values omitted)"), "data-row"))
    case '1' => Ok(Kind(d, Ascii("ParseComplete"), "parse-complete"))
    case '2' => Ok(Kind(d, Ascii("BindComplete"), "bind-complete"))
    case '3' => Ok(Kind(d, Ascii("CloseComplete"), "close-complete"))
    case 'n' => Ok(Kind(d, Ascii("NoData"), "no-data"))
    case 's' => Ok(WithBoundary(Kind(d, Ascii("PortalSuspended"), "portal-suspended"), "response"))
    case 'I' => Ok(WithBoundary(Kind(d, Ascii("EmptyQueryResponse"), "empty-query"), "response"))
    case 'A' => Ok(Kind(d, Ascii("NotificationResponse (payload omitted)"), "notification"))
    case 'G' => Ok(Kind(d, Ascii("CopyResponse"), "copy-response"))
    case 'H' => Ok(Kind(d, Ascii("CopyResponse"), "copy-response"))
    case 'W' => Ok(Kind(d, Ascii("CopyResponse"), "copy-response"))
    case 'd' => Ok(Kind(d, Ascii("CopyData (payload omitted)"), "copy-data"))
    case 'c' => Ok(WithBoundary(Kind(d, Ascii("CopyDone"), "copy-done"), "response"))
    case _ => Ok(Kind(d, Ascii("BackendMessage tag=0x") + Hex2(tag as int % 256) + Ascii(" bytes=") + Decimal(|payload|), "unknown"))
  }

  function DecodeTyped(lossy: Lossy, d: Direction, tag: Byte, payload: Bytes, maxBody: nat): Result<DecodedMessage> {
    match if d == ClientToServer then Frontend(lossy, tag as char, payload, maxBody) else Backend(lossy, tag as char, payload, maxBody)
    case Err(reason) => Err(reason)
    case Ok(m) => Ok(With(m, Ascii("wire-bytes"), Decimal(|payload| + 5)))
  }

  // ------------------------------------------------------------------------ steps

  type Report = Batch<DecodedMessage, Reason>
  type StepOutcome = Outcome<Phase, DecodedMessage, Reason>

  /** A desynchronization makes the flow opaque. */
  function Desync(reason: Reason): StepOutcome {
    Halt(Opaque, Batch([], Some(reason)))
  }

  function GoOpaque(m: DecodedMessage): StepOutcome {
    Halt(Opaque, Batch([m], None))
  }

  function StartupFrame(lossy: Lossy, frame: Bytes, rest: Bytes): StepOutcome
    requires |frame| >= 8
  {
    var code := Be32(frame[4..8]);
    var d := ClientToServer;
    if code == SSL_REQUEST_CODE then Advance(AwaitingEncryptionResponse, rest, Batch([Message(d, Ascii("SSLRequest"))], None))
    else if code == GSSENC_REQUEST_CODE then Advance(AwaitingEncryptionResponse, rest, Batch([Message(d, Ascii("GSSENCRequest"))], None))
    else if code == CANCEL_REQUEST_CODE then GoOpaque(Message(d, Ascii("CancelRequest (key material omitted)")))
    else match StartupMessage(lossy, code, frame[8..])
         case Err(reason) => Desync(reason)
         case Ok(m) => Advance(Typed, rest, Batch([m], None))
  }

  function StepStartup(lossy: Lossy, b: Bytes): (r: StepOutcome)
    ensures r.Advance? ==> |r.rest| < |b| && r.control != Opaque
  {
    if |b| < 4 then NeedMore(Startup, b)
    else
      var length := Be32(b[..4]);
      if !(8 <= length <= MAX_FRAME_BYTES) then Desync(BadStartupLength(length))
      else if |b| < length then NeedMore(Startup, b)
      else StartupFrame(lossy, b[..length], b[length..])
  }

  function StepEncryption(b: Bytes): (r: StepOutcome)
    ensures r.Advance? ==> |r.rest| < |b| && r.control != Opaque
  {
    var d := ServerToClient;
    if b == [] then NeedMore(AwaitingEncryptionResponse, b)
    else if b[0] == 'S' as int then GoOpaque(Message(d, Ascii("EncryptionResponse accepted (traffic opaque)")))
    else if b[0] == 'G' as int then GoOpaque(Message(d, Ascii("GSSENCResponse accepted (traffic opaque)")))
    else if b[0] == 'N' as int then Advance(Startup, b[1..], Batch([Message(d, Ascii("EncryptionResponse rejected"))], None))
    else Desync(BadEncryptionResponse)
  }

  function TypedFrame(lossy: Lossy, maxBody: nat, d: Direction, tag: Byte, payload: Bytes, rest: Bytes): StepOutcome {
    match DecodeTyped(lossy, d, tag, payload, maxBody)
    case Err(reason) => Desync(reason)
    case Ok(m) => Advance(Typed, rest, Batch([m], None))
  }

  function StepTyped(lossy: Lossy, maxBody: nat, d: Direction, b: Bytes): (r: StepOutcome)
    ensures r.Advance? ==> |r.rest| < |b| && r.control != Opaque
  {
    if |b| < 5 then NeedMore(Typed, b)
    else
      var length := Be32(b[1..5]);
      if !(4 <= length <= MAX_FRAME_BYTES) then Desync(BadMessageLength(length, b[0]))
      else if |b| < length + 1 then NeedMore(Typed, b)
      else TypedFrame(lossy, maxBody, d, b[0], b[5..length + 1], b[length + 1..])
  }

  function Step(lossy: Lossy, maxBody: nat, d: Direction, phase: Phase, b: Bytes): (r: StepOutcome)
    ensures r.Advance? ==> |r.rest| < |b| && r.control != Opaque
    ensures r.NeedMore? ==> r == NeedMore(phase, b)
    ensures r.Halt? ==> r.control == Opaque
  {
    if phase == Startup && d == ClientToServer then StepStartup(lossy, b)
    else if phase == AwaitingEncryptionResponse && d == ServerToClient then StepEncryption(b)
    else if phase == Typed then StepTyped(lossy, maxBody, d, b)
    else NeedMore(phase, b)
  }

  function Stepper(lossy: Lossy, maxBody: nat, d: Direction): (Phase, Bytes) -> StepOutcome {
    (phase, b) => Step(lossy, maxBody, d, phase, b)
  }

  lemma StepperProductive(lossy: Lossy, maxBody: nat, d: Direction)
    ensures Productive(Stepper(lossy, maxBody, d))
  {
    hide Step;
    forall p, b ensures ProductiveAt(Stepper(lossy, maxBody, d), p, b) {
    }
  }

  function DrainFrames(lossy: Lossy, maxBody: nat, d: Direction, phase: Phase, b: Bytes): Drained<Phase, DecodedMessage, Reason> {
    StepperProductive(lossy, maxBody, d);
    Drain(Stepper(lossy, maxBody, d), phase, b)
  }

  lemma DrainUnfolds(lossy: Lossy, maxBody: nat, d: Direction, phase: Phase, b: Bytes)
    ensures DrainFrames(lossy, maxBody, d, phase, b) ==
            match Step(lossy, maxBody, d, phase, b)
            case NeedMore(p', rest) => Drained(p', rest, Quiet(), false)
            case Halt(p', e) => Drained(p', [], e, true)
            case Advance(p', rest, e) => Prepend(e, DrainFrames(lossy, maxBody, d, p', rest))
  {
    hide Step;
    StepperProductive(lossy, maxBody, d);
  }

  // ---------------------------------------------------------------------- decoder

  datatype Decoder = Decoder(phase: Phase, client: Bytes, server: Bytes)

  const Initial: Decoder := Decoder(Startup, [], [])
  const Dark: Decoder := Decoder(Opaque, [], [])

  function BufferOf(s: Decoder, d: Direction): Bytes {
    if d == ClientToServer then s.client else s.server
  }

  function WithBuffer(s: Decoder, d: Direction, b: Bytes): Decoder {
    if d == ClientToServer then s.(client := b) else s.(server := b)
  }

  function Push(lossy: Lossy, maxBody: nat, s: Decoder, d: Direction, bytes: Bytes): (Decoder, Report) {
    var b := BufferOf(s, d) + bytes;
    if s.phase == Opaque then (s, Quiet())
    else if |b| > MAX_BUFFERED then (Dark, Batch([], Some(BufferTooLong)))
    else
      var r := DrainFrames(lossy, maxBody, d, s.phase, b);
      (if r.halted then Dark else WithBuffer(s, d, r.rest).(phase := r.control), r.batch)
  }

  function Finish(s: Decoder, d: Direction): (Decoder, Report) {
    var remaining := |BufferOf(s, d)|;
    (WithBuffer(s, d, []),
     if remaining == 0 || s.phase == Opaque then Quiet() else Batch([], Some(EndedIncomplete(remaining))))
  }
}
