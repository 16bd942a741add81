/** The RESP2/RESP3 parser and its printer. */
module Redis {
  import opened ByteStrings
  import opened Text
  import opened LineText

  const MAX_NESTING: nat := 32
  const MAX_AGGREGATE_ITEMS: nat := 4096
  const I64_MAX: nat := 0x7FFF_FFFF_FFFF_FFFF
  const USIZE_MAX: nat := 0xFFFF_FFFF_FFFF_FFFF

  datatype Value =
    | Simple(text: Bytes) | Error(text: Bytes) | Integer(text: Bytes) | Double(text: Bytes) | BigNumber(text: Bytes)
    | Bulk(blob: Bytes) | BulkError(blob: Bytes) | Verbatim(blob: Bytes)
    | NullBulk | NullArray | Null
    | Boolean(flag: bool)
    | Array(items: seq<Value>) | Map(items: seq<Value>) | Set(items: seq<Value>) | Push(items: seq<Value>) | Attribute(items: seq<Value>)
    | Inline(words: seq<Bytes>)

  datatype Reason =
    | NestingTooDeep | BadNull | BadBoolean | BadBlobLength | NegativeBlobLength | BlobOverflow | MissingCrlf
    | BadCount | NegativeCount | CountOverflow | TooManyItems | BadInline | EmptyInline
    | FrameTooLong | EndedInside

  datatype Parse = Complete(value: Value, consumed: nat) | Incomplete | Invalid(reason: Reason)

  datatype Items = ItemsComplete(values: seq<Value>, consumed: nat) | ItemsIncomplete | ItemsInvalid(reason: Reason)

  // ---------------------------------------------------------------------- lines

  datatype Line = Line(text: Bytes, consumed: nat)

  /** The text between the type byte and the first CRLF. */
  function ReadLine(bytes: Bytes): (r: Option<Line>)
    ensures r.Some? ==> 3 <= r.value.consumed <= |bytes| && r.value.consumed == |r.value.text| + 3
  {
    if bytes == [] then None
    else match Find(bytes[1..], CRLF)
         case None => None
         case Some(k) => Some(Line(bytes[1..k + 1], k + 3))
  }

  /** `parse::<i64>`: one optional sign, at least one digit, no overflow. */
  function ParseSigned(s: Bytes): (r: Option<int>)
    ensures r.Some? ==> -(I64_MAX + 1) <= r.value <= I64_MAX
  {
    var negative := s != [] && s[0] == '-' as int;
    var digits := if s != [] && (s[0] == '-' as int || s[0] == '+' as int) then s[1..] else s;
    if digits == [] || !AllDigits(digits, 10) then None
    else
      var magnitude: int := DigitsValue(digits, 10);
      if negative then if magnitude <= I64_MAX + 1 then Some(-magnitude) else None
      else if magnitude <= I64_MAX then Some(magnitude) else None
  }

  // -------------------------------------------------------------------- parsers

  predicate IsLineTag(tag: Byte) {
    tag in {'+' as int, '-' as int, ':' as int, ',' as int, '(' as int}
  }

  function LineValue(tag: Byte, text: Bytes): Value
    requires IsLineTag(tag)
  {
    if tag == '+' as int then Simple(text)
    else if tag == '-' as int then Error(text)
    else if tag == ':' as int then Integer(text)
    else if tag == ',' as int then Double(text)
    else BigNumber(text)
  }

  predicate IsBlobTag(tag: Byte) {
    tag in {'$' as int, '!' as int, '=' as int}
  }

  function BlobValue(tag: Byte, blob: Bytes): Value
    requires IsBlobTag(tag)
  {
    if tag == '$' as int then Bulk(blob) else if tag == '!' as int then BulkError(blob) else Verbatim(blob)
  }

  function NullBlob(tag: Byte): Value
    requires IsBlobTag(tag)
  {
    if tag == '$' as int then NullBulk else BlobValue(tag, [])
  }

  predicate IsAggregateTag(tag: Byte) {
    tag in {'*' as int, '%' as int, '~' as int, '>' as int, '|' as int}
  }

  /** Items per counted element: maps and attributes count pairs. */
  function ItemsPer(tag: Byte): nat {
    if tag == '%' as int || tag == '|' as int then 2 else 1
  }

  function AggregateValue(tag: Byte, items: seq<Value>): Value
    requires IsAggregateTag(tag)
  {
    if tag == '*' as int then Array(items)
    else if tag == '%' as int then Map(items)
    else if tag == '~' as int then Set(items)
    else if tag == '>' as int then Push(items)
    else Attribute(items)
  }

  function ParseLineValue(bytes: Bytes): Parse
    requires bytes != [] && IsLineTag(bytes[0])
  {
    match ReadLine(bytes)
    case None => Incomplete
    case Some(line) => Complete(LineValue(bytes[0], line.text), line.consumed)
  }

  function ParseNull(bytes: Bytes): Parse {
    if |bytes| < 3 then Incomplete
    else if bytes[1..3] == CRLF then Complete(Null, 3)
    else Invalid(BadNull)
  }

  function ParseBoolean(bytes: Bytes): Parse {
    match ReadLine(bytes)
    case None => Incomplete
    case Some(line) =>
      if line.text == ['t' as int] then Complete(Boolean(true), line.consumed)
      else if line.text == ['f' as int] then Complete(Boolean(false), line.consumed)
      else Invalid(BadBoolean)
  }

  function ParseBlob(bytes: Bytes): Parse
    requires bytes != [] && IsBlobTag(bytes[0])
  {
    match ReadLine(bytes)
    case None => Incomplete
    case Some(line) =>
      match ParseSigned(line.text)
      case None => Invalid(BadBlobLength)
      case Some(length) =>
        if length == -1 then Complete(NullBlob(bytes[0]), line.consumed)
        else if length < 0 then Invalid(NegativeBlobLength)
        else
          var end := line.consumed + length;
          if end + 2 > USIZE_MAX then Invalid(BlobOverflow)
          else if |bytes| < end + 2 then Incomplete
          else if bytes[end..end + 2] != CRLF then Invalid(MissingCrlf)
          else Complete(BlobValue(bytes[0], bytes[line.consumed..end]), end + 2)
  }

  /** The count line of an aggregate, before its items. */
  datatype Count = Count(items: nat, consumed: nat) | CountNull(consumed: nat) | CountIncomplete | CountInvalid(reason: Reason)

  function ParseCount(bytes: Bytes): (r: Count)
    requires bytes != []
    ensures r.Count? ==> 3 <= r.consumed <= |bytes| && r.items <= MAX_AGGREGATE_ITEMS
    ensures r.CountNull? ==> 3 <= r.consumed <= |bytes| && bytes[0] == '*' as int
  {
    match ReadLine(bytes)
    case None => CountIncomplete
    case Some(line) =>
      match ParseSigned(line.text)
      case None => CountInvalid(BadCount)
      case Some(count) =>
        if bytes[0] == '*' as int && count == -1 then CountNull(line.consumed)
        else if count < 0 then CountInvalid(NegativeCount)
        else if count * ItemsPer(bytes[0]) > USIZE_MAX then CountInvalid(CountOverflow)
        else if count * ItemsPer(bytes[0]) > MAX_AGGREGATE_ITEMS then CountInvalid(TooManyItems)
        else Count(count * ItemsPer(bytes[0]), line.consumed)
  }

  predicate IsControl(b: Byte) {
    b < 32 || b == 127
  }

  predicate IsBlank(b: Byte) {
    b in {9, 10, 12, 13, 32}
  }

  function BlankIndex(s: Bytes): (n: nat)
    ensures n <= |s| && (n < |s| ==> IsBlank(s[n])) && forall i :: 0 <= i < n ==> !IsBlank(s[i])
  {
    if s == [] || IsBlank(s[0]) then 0 else 1 + BlankIndex(s[1..])
  }

  /** The nonempty pieces between blanks. */
  function InlineWords(line: Bytes): seq<Bytes>
    decreases |line|
  {
    if line == [] then []
    else if IsBlank(line[0]) then InlineWords(line[1..])
    else [line[..BlankIndex(line)]] + InlineWords(line[BlankIndex(line)..])
  }

  function ParseInline(bytes: Bytes): Parse {
    match Find(bytes, CRLF)
    case None => Incomplete
    case Some(end) =>
      var line := bytes[..end];
      if exists i :: 0 <= i < |line| && IsControl(line[i]) && line[i] != 9 then Invalid(BadInline)
      else if InlineWords(line) == [] then Invalid(EmptyInline)
      else Complete(Inline(InlineWords(line)), end + 2)
  }

  /** One value at nesting depth `depth`. */
  function ParseValue(bytes: Bytes, depth: nat): (r: Parse)
    ensures r.Complete? ==> 0 < r.consumed <= |bytes|
    decreases Monus(MAX_NESTING, depth), 0, 0
  {
    if bytes == [] then Incomplete
    else if depth >= MAX_NESTING then Invalid(NestingTooDeep)
    else
      var tag := bytes[0];
      if IsLineTag(tag) then ParseLineValue(bytes)
      else if tag == '_' as int then ParseNull(bytes)
      else if tag == '#' as int then ParseBoolean(bytes)
      else if IsBlobTag(tag) then ParseBlob(bytes)
      else if IsAggregateTag(tag) then ParseAggregate(bytes, depth)
      else ParseInline(bytes)
  }

  function ParseAggregate(bytes: Bytes, depth: nat): (r: Parse)
    requires bytes != [] && IsAggregateTag(bytes[0]) && depth < MAX_NESTING
    ensures r.Complete? ==> 0 < r.consumed <= |bytes|
    decreases MAX_NESTING - depth - 1, 2, 0
  {
    match ParseCount(bytes)
    case CountIncomplete => Incomplete
    case CountInvalid(reason) => Invalid(reason)
    case CountNull(consumed) => Complete(NullArray, consumed)
    case Count(n, consumed) =>
      match ParseItems(bytes[consumed..], depth + 1, n)
      case ItemsIncomplete => Incomplete
      case ItemsInvalid(reason) => Invalid(reason)
      case ItemsComplete(values, used) => Complete(AggregateValue(bytes[0], values), consumed + used)
  }

  function ParseItems(bytes: Bytes, depth: nat, count: nat): (r: Items)
    ensures r.ItemsComplete? ==> r.consumed <= |bytes| && |r.values| == count
    decreases Monus(MAX_NESTING, depth), 1, count
  {
    if count == 0 then ItemsComplete([], 0)
    else match ParseValue(bytes, depth)
         case Incomplete => ItemsIncomplete
         case Invalid(reason) => ItemsInvalid(reason)
         case Complete(value, used) =>
           match ParseItems(bytes[used..], depth, count - 1)
           case ItemsIncomplete => ItemsIncomplete
           case ItemsInvalid(reason) => ItemsInvalid(reason)
           case ItemsComplete(values, more) => ItemsComplete([value] + values, used + more)
  }

  // -------------------------------------------------------------------- printing

  function PrintLine(tag: Byte, text: Bytes): Bytes {
    [tag] + text + CRLF
  }

  function PrintBlob(tag: Byte, blob: Bytes): Bytes {
    PrintLine(tag, Decimal(|blob|)) + blob + CRLF
  }

  function JoinWords(words: seq<Bytes>): Bytes {
    if words == [] then [] else [32] + words[0] + JoinWords(words[1..])
  }

  function Print(v: Value): Bytes
    decreases v
  {
    match v
    case Simple(t) => PrintLine('+' as int, t)
    case Error(t) => PrintLine('-' as int, t)
    case Integer(t) => PrintLine(':' as int, t)
    case Double(t) => PrintLine(',' as int, t)
    case BigNumber(t) => PrintLine('(' as int, t)
    case Bulk(b) => PrintBlob('$' as int, b)
    case BulkError(b) => PrintBlob('!' as int, b)
    case Verbatim(b) => PrintBlob('=' as int, b)
    case NullBulk => PrintLine('$' as int, Ascii("-1"))
    case NullArray => PrintLine('*' as int, Ascii("-1"))
    case Null => PrintLine('_' as int, [])
    case Boolean(b) => PrintLine('#' as int, if b then ['t' as int] else ['f' as int])
    case Array(vs) => PrintLine('*' as int, Decimal(|vs|)) + PrintAll(vs)
    case Map(vs) => PrintLine('%' as int, Decimal(|vs| / 2)) + PrintAll(vs)
    case Set(vs) => PrintLine('~' as int, Decimal(|vs|)) + PrintAll(vs)
    case Push(vs) => PrintLine('>' as int, Decimal(|vs|)) + PrintAll(vs)
    case Attribute(vs) => PrintLine('|' as int, Decimal(|vs| / 2)) + PrintAll(vs)
    case Inline(words) => JoinWords(words) + CRLF
  }

  function PrintAll(vs: seq<Value>): Bytes
    decreases vs
  {
    if vs == [] then [] else Print(vs[0]) + PrintAll(vs[1..])
  }

  predicate IsWord(w: Bytes) {
    w != [] && forall i :: 0 <= i < |w| ==> !IsControl(w[i]) && !IsBlank(w[i])
  }

  /** Values the wire can carry at nesting depth `depth`. */
  ghost predicate WellFormed(v: Value, depth: nat)
    decreases v
  {
    && depth < MAX_NESTING
    && match v
       case Simple(t) => NoCrlf(t)
       case Error(t) => NoCrlf(t)
       case Integer(t) => NoCrlf(t)
       case Double(t) => NoCrlf(t)
       case BigNumber(t) => NoCrlf(t)
       case Bulk(b) => |b| <= I64_MAX
       case BulkError(b) => |b| <= I64_MAX
       case Verbatim(b) => |b| <= I64_MAX
       case NullBulk => true
       case NullArray => true
       case Null => true
       case Boolean(_) => true
       case Array(vs) => WellFormedItems(vs, depth + 1, 1)
       case Map(vs) => WellFormedItems(vs, depth + 1, 2)
       case Set(vs) => WellFormedItems(vs, depth + 1, 1)
       case Push(vs) => WellFormedItems(vs, depth + 1, 1)
       case Attribute(vs) => WellFormedItems(vs, depth + 1, 2)
       case Inline(words) => words != [] && forall i :: 0 <= i < |words| ==> IsWord(words[i])
  }

  ghost predicate WellFormedItems(vs: seq<Value>, depth: nat, per: nat)
    requires per > 0
    decreases vs
  {
    |vs| <= MAX_AGGREGATE_ITEMS && |vs| % per == 0 && forall i :: 0 <= i < |vs| ==> WellFormed(vs[i], depth)
  }
}
