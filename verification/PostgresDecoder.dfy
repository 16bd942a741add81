/** The PostgreSQL decoder with the state it updates in place, proved against the functions of `Postgres`. */
module PostgresDecoder {
  import opened ByteStrings
  import opened Streaming
  import opened Text
  import opened Postgres

  // ------------------------------------------------------------------ list loops

  /** What the values read so far and the rest of the list give together. */
  function AfterStrings(values: seq<Bytes>, rest: Result<seq<Bytes>>): Result<seq<Bytes>> {
    if rest.Ok? then Ok(values + rest.value) else rest
  }

  method ReadCStrings(s: Bytes) returns (r: Result<seq<Bytes>>)
    ensures r == CStrings(s)
  {
    hide TakeCString;
    var payload, values: seq<Bytes> := s, [];
    if CStrings(s).Ok? { assert [] + CStrings(s).value == CStrings(s).value; }
    while payload != []
      invariant CStrings(s) == AfterStrings(values, CStrings(payload))
      decreases |payload|
    {
      if payload == [0] {
        break;
      }
      var next := TakeCString(payload);
      if next.Err? {
        return Err(next.reason);
      }
      var (value, rest) := next.value;
      if CStrings(rest).Ok? { assert values + ([value] + CStrings(rest).value) == values + [value] + CStrings(rest).value; }
      values, payload := values + [value], rest;
    }
    assert values + [] == values;
    return Ok(values);
  }

  function AfterFields(fields: seq<(Byte, Bytes)>, rest: Result<seq<(Byte, Bytes)>>): Result<seq<(Byte, Bytes)>> {
    if rest.Ok? then Ok(fields + rest.value) else rest
  }

  method ReadErrorFields(s: Bytes) returns (r: Result<seq<(Byte, Bytes)>>)
    ensures r == ErrorFields(s)
  {
    hide TakeCString;
    var payload, fields: seq<(Byte, Bytes)> := s, [];
    if ErrorFields(s).Ok? { assert [] + ErrorFields(s).value == ErrorFields(s).value; }
    while payload != []
      invariant ErrorFields(s) == AfterFields(fields, ErrorFields(payload))
      decreases |payload|
    {
      var code := payload[0];
      if code == 0 {
        assert fields + [] == fields;
        return Ok(fields);
      }
      var next := TakeCString(payload[1..]);
      if next.Err? {
        return Err(next.reason);
      }
      var (value, rest) := next.value;
      if ErrorFields(rest).Ok? { assert fields + ([(code, value)] + ErrorFields(rest).value) == fields + [(code, value)] + ErrorFields(rest).value; }
      fields, payload := fields + [(code, value)], rest;
    }
    return Err(UnterminatedErrorFields);
  }

  /** Reads every column but keeps the names of the first 32 only. */
  method ReadColumns(s: Bytes, columns: nat) returns (r: Result<seq<Bytes>>)
    ensures var all := ColumnNames(s, columns);
            r == if all.Ok? then Ok(all.value[..Min(|all.value|, 32)]) else all
  {
    hide TakeCString;
    var rest, names: seq<Bytes> := s, [];
    ghost var all: seq<Bytes> := [];
    if ColumnNames(s, columns).Ok? { assert [] + ColumnNames(s, columns).value == ColumnNames(s, columns).value; }
    for i := 0 to columns
      invariant ColumnNames(s, columns) == AfterStrings(all, ColumnNames(rest, columns - i))
      invariant names == all[..Min(|all|, 32)]
    {
      var next := TakeCString(rest);
      if next.Err? {
        return Err(next.reason);
      }
      var (name, after) := next.value;
      if |after| < 18 {
        return Err(TruncatedRowField);
      }
      ghost var more := ColumnNames(after[18..], columns - i - 1);
      if more.Ok? { assert all + ([name] + more.value) == all + [name] + more.value; }
      if |names| < 32 {
        names := names + [name];
      }
      all, rest := all + [name], after[18..];
    }
    assert all + [] == all;
    return Ok(names);
  }

  // ------------------------------------------------------------- messages with lists

  method ReadStartup(lossy: Lossy, version: nat, payload: Bytes) returns (r: Result<DecodedMessage>)
    ensures r == StartupMessage(lossy, version, payload)
  {
    hide CStrings, Kind, SafeValue;
    if version / 65536 != 3 {
      return Err(UnsupportedVersion(version));
    }
    var fields := ReadCStrings(payload);
    if fields.Err? {
      return Err(fields.reason);
    }
    if |fields.value| % 2 != 0 {
      return Err(OddStartupParameters);
    }
    var m := Kind(ClientToServer, Ascii("StartupMessage protocol=") + Decimal(version / 65536) + Ascii(".") + Decimal(version % 65536), "startup");
    var pairs := ReadPairs(lossy, fields.value);
    return Ok(m.(headers := m.headers + pairs));
  }

  /** The startup parameters two by two, secret values replaced. */
  method ReadPairs(lossy: Lossy, fields: seq<Bytes>) returns (pairs: seq<Header>)
    requires |fields| % 2 == 0
    ensures pairs == Pairs(lossy, fields)
  {
    hide SafeValue;
    pairs := [];
    var i := 0;
    assert fields[0..] == fields && [] + Pairs(lossy, fields) == Pairs(lossy, fields);
    while i < |fields|
      invariant i <= |fields| && i % 2 == 0 && Pairs(lossy, fields) == pairs + Pairs(lossy, fields[i..])
    {
      var left := fields[i..];
      assert left[2..] == fields[i + 2..];
      pairs := pairs + [(lossy(left[0]), SafeValue(lossy, left[0], left[1]))];
      i := i + 2;
    }
    assert fields[i..] == [];
  }

  method ReadParameterStatus(lossy: Lossy, payload: Bytes) returns (r: Result<DecodedMessage>)
    ensures r == ParameterStatus(lossy, payload)
  {
    hide CStrings, Kind, SafeValue;
    var fields := ReadCStrings(payload);
    if fields.Err? {
      return Err(fields.reason);
    }
    var values := fields.value;
    if |values| < 2 {
      return Err(BadParameterStatus);
    }
    return Ok(With(Kind(ServerToClient, Ascii("ParameterStatus"), "parameter-status"),
                   lossy(values[0]), SafeValue(lossy, values[0], values[1])));
  }

  method ReadErrorMessage(lossy: Lossy, isError: bool, payload: Bytes, maxBody: nat) returns (r: Result<DecodedMessage>)
    ensures r == ErrorMessage(lossy, isError, payload, maxBody)
  {
    hide ErrorFields, Kind, With;
    var read := ReadErrorFields(payload);
    if read.Err? {
      return Err(read.reason);
    }
    var fields := read.value;
    var m := if isError then Kind(ServerToClient, Ascii("ErrorResponse"), "error")
             else Kind(ServerToClient, Ascii("NoticeResponse"), "notice");
    ghost var titled := m;
    assert fields[0..] == fields;
    for i := 0 to |fields|
      invariant AddErrorFields(lossy, titled, fields, maxBody) == AddErrorFields(lossy, m, fields[i..], maxBody)
    {
      assert fields[i..][0] == fields[i] && fields[i..][1..] == fields[i + 1..];
      var name, value := ErrorFieldName(fields[i].0 as char), fields[i].1;
      if name != "" {
        m := With(m, Ascii(name), lossy(value[..Min(|value|, maxBody)])).(truncated := m.truncated || |value| > maxBody);
      }
    }
    assert fields[|fields|..] == [];
    return Ok(if isError then WithBoundary(m, "response") else m);
  }

  method ReadRowDescription(lossy: Lossy, payload: Bytes) returns (r: Result<DecodedMessage>)
    ensures r == RowDescription(lossy, payload)
  {
    hide ColumnNames, Kind, With, JoinComma;
    if |payload| < 2 {
      return Err(TruncatedRowDescription);
    }
    var columns := Be16(payload[..2]);
    var names := ReadColumns(payload[2..], columns);
    if names.Err? {
      return Err(names.reason);
    }
    var m := Kind(ServerToClient, Ascii("RowDescription columns=") + Decimal(columns), "row-description");
    return Ok(if names.value == [] then m else With(m, Ascii("columns"), JoinComma(lossy, names.value)));
  }

  /** A typed frame, the lists in it read by the loops above. */
  method ReadTyped(lossy: Lossy, d: Direction, tag: Byte, payload: Bytes, maxBody: nat) returns (r: Result<DecodedMessage>)
    ensures r == DecodeTyped(lossy, d, tag, payload, maxBody)
  {
    hide Frontend, ParameterStatus, ErrorMessage, RowDescription, Kind, With, WithBoundary;
    if d == ClientToServer {
      r := Frontend(lossy, tag as char, payload, maxBody);
    } else if tag == 'S' as int {
      r := ReadParameterStatus(lossy, payload);
    } else if tag == 'E' as int || tag == 'N' as int {
      r := ReadErrorMessage(lossy, tag == 'E' as int, payload, maxBody);
    } else if tag == 'T' as int {
      r := ReadRowDescription(lossy, payload);
    } else {
      r := Backend(lossy, tag as char, payload, maxBody);
    }
    if r.Ok? {
      r := Ok(With(r.value, Ascii("wire-bytes"), Decimal(|payload| + 5)));
    }
  }

  // ----------------------------------------------------------------------- decoder

  datatype StepResult =
    | StepNeedMore
    | StepMessage(message: DecodedMessage)
    | StepPhase(message: DecodedMessage, phase: Phase)
    | StepDesync(reason: Reason)

  /** A step of the loop as the outcome function sees it; `rest` is the buffer after it. */
  function AsOutcome(r: StepResult, phase: Phase, rest: Bytes): StepOutcome {
    match r
    case StepNeedMore => NeedMore(phase, rest)
    case StepMessage(m) => Advance(phase, rest, Batch([m], None))
    case StepPhase(m, next) => if next == Opaque then GoOpaque(m) else Advance(next, rest, Batch([m], None))
    case StepDesync(reason) => Desync(reason)
  }

  class StreamDecoder {
    const lossy: Lossy
    const maxBody: nat
    var client: Bytes
    var server: Bytes
    var phase: Phase

    constructor (lossy: Lossy, maxBody: nat)
      requires maxBody > 0
      ensures this.lossy == lossy && this.maxBody == maxBody && State() == Initial
    {
      this.lossy, this.maxBody := lossy, maxBody;
      client, server, phase := [], [], Startup;
    }

    function State(): Decoder
      reads this
    {
      Decoder(phase, client, server)
    }

    function Buffer(d: Direction): Bytes
      reads this
    {
      BufferOf(State(), d)
    }

    method SetBuffer(d: Direction, b: Bytes)
      modifies this`client, this`server
      ensures State() == WithBuffer(old(State()), d, b)
    {
      if d == ClientToServer { client := b; } else { server := b; }
    }

    method StepStartup() returns (step: StepResult)
      modifies this`client, this`server
      ensures AsOutcome(step, Startup, client) == Postgres.StepStartup(lossy, old(client)) && server == old(server)
    {
      hide StartupMessage, Message;
      if |client| < 4 {
        return StepNeedMore;
      }
      var length := Be32(client[..4]);
      if !(8 <= length <= MAX_FRAME_BYTES) {
        return StepDesync(BadStartupLength(length));
      }
      if |client| < length {
        return StepNeedMore;
      }
      var frame := client[..length];
      client := client[length..];
      var code := Be32(frame[4..8]);
      if code == SSL_REQUEST_CODE {
        return StepPhase(Message(ClientToServer, Ascii("SSLRequest")), AwaitingEncryptionResponse);
      } else if code == GSSENC_REQUEST_CODE {
        return StepPhase(Message(ClientToServer, Ascii("GSSENCRequest")), AwaitingEncryptionResponse);
      } else if code == CANCEL_REQUEST_CODE {
        return StepPhase(Message(ClientToServer, Ascii("CancelRequest (key material omitted)")), Opaque);
      }
      var started := ReadStartup(lossy, code, frame[8..]);
      match started
      case Ok(m) => return StepPhase(m, Typed);
      case Err(reason) => return StepDesync(reason);
    }

    method StepEncryptionResponse() returns (step: StepResult)
      modifies this`client, this`server
      ensures AsOutcome(step, AwaitingEncryptionResponse, server) == StepEncryption(old(server)) && client == old(client)
    {
      hide Message;
      if server == [] {
        return StepNeedMore;
      }
      var response := server[0];
      server := server[1..];
      if response == 'S' as int {
        return StepPhase(Message(ServerToClient, Ascii("EncryptionResponse accepted (traffic opaque)")), Opaque);
      } else if response == 'G' as int {
        return StepPhase(Message(ServerToClient, Ascii("GSSENCResponse accepted (traffic opaque)")), Opaque);
      } else if response == 'N' as int {
        return StepPhase(Message(ServerToClient, Ascii("EncryptionResponse rejected")), Startup);
      }
      return StepDesync(BadEncryptionResponse);
    }

    method StepTyped(d: Direction) returns (step: StepResult)
      modifies this`client, this`server
      ensures AsOutcome(step, Typed, Buffer(d)) == Postgres.StepTyped(lossy, maxBody, d, old(Buffer(d)))
      ensures State() == WithBuffer(old(State()), d, Buffer(d))
    {
      hide DecodeTyped;
      var buffer := Buffer(d);
      if |buffer| < 5 {
        return StepNeedMore;
      }
      var tag, length := buffer[0], Be32(buffer[1..5]);
      if !(4 <= length <= MAX_FRAME_BYTES) {
        return StepDesync(BadMessageLength(length, tag));
      }
      if |buffer| < length + 1 {
        return StepNeedMore;
      }
      SetBuffer(d, buffer[length + 1..]);
      var decoded := ReadTyped(lossy, d, tag, buffer[5..length + 1], maxBody);
      match decoded
      case Ok(m) => return StepMessage(m);
      case Err(reason) => return StepDesync(reason);
    }

    method TakeStep(d: Direction) returns (step: StepResult)
      modifies this`client, this`server
      ensures AsOutcome(step, phase, Buffer(d)) == Step(lossy, maxBody, d, phase, old(Buffer(d)))
      ensures State() == WithBuffer(old(State()), d, Buffer(d))
    {
      hide Postgres.StepStartup, StepEncryption, Postgres.StepTyped;
      if phase == Startup && d == ClientToServer {
        step := StepStartup();
      } else if phase == AwaitingEncryptionResponse && d == ServerToClient {
        step := StepEncryptionResponse();
      } else if phase == Typed {
        step := StepTyped(d);
      } else {
        step := StepNeedMore;
      }
    }

    method GoDark()
      modifies this
      ensures State() == Dark
    {
      client, server, phase := [], [], Opaque;
    }

    method Push(d: Direction, bytes: Bytes) returns (batch: Report)
      modifies this
      ensures (State(), batch) == Postgres.Push(lossy, maxBody, old(State()), d, bytes)
    {
      hide Step, DrainFrames;
      if phase == Opaque {
        return Batch([], None);
      }
      SetBuffer(d, Buffer(d) + bytes);
      if |Buffer(d)| > MAX_BUFFERED {
        GoDark();
        return Batch([], Some(BufferTooLong));
      }
      ghost var whole := DrainFrames(lossy, maxBody, d, phase, Buffer(d));
      batch := Batch([], None);
      JoinAssociative(whole.batch, Quiet(), Quiet());
      while true
        invariant whole == Prepend(batch, DrainFrames(lossy, maxBody, d, phase, Buffer(d))) && batch.desynchronized.None?
        invariant State() == WithBuffer(old(State()), d, Buffer(d)).(phase := phase) && phase != Opaque
        decreases |Buffer(d)|
      {
        ghost var before := Buffer(d);
        DrainUnfolds(lossy, maxBody, d, phase, before);
        var step := TakeStep(d);
        match step
        case StepNeedMore =>
          JoinAssociative(batch, Quiet(), Quiet());
          return;
        case StepMessage(m) =>
          JoinAssociative(batch, Batch([m], None), DrainFrames(lossy, maxBody, d, phase, Buffer(d)).batch);
          batch := Batch(batch.messages + [m], None);
        case StepPhase(m, next) =>
          JoinAssociative(batch, Batch([m], None), DrainFrames(lossy, maxBody, d, next, Buffer(d)).batch);
          phase := next;
          batch := Batch(batch.messages + [m], None);
          if next == Opaque {
            GoDark();
            return;
          }
        case StepDesync(reason) =>
          GoDark();
          assert batch.messages + [] == batch.messages;
          batch := Batch(batch.messages, Some(reason));
          return;
      }
    }

    method Finish(d: Direction) returns (batch: Report)
      modifies this`client, this`server
      ensures (State(), batch) == Postgres.Finish(old(State()), d)
    {
      var remaining := |Buffer(d)|;
      SetBuffer(d, []);
      if remaining == 0 || phase == Opaque {
        return Batch([], None);
      }
      return Batch([], Some(EndedIncomplete(remaining)));
    }
  }
}
