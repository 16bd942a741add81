/** RESP frames: more bytes never change a decision, and printing is undone by parsing. */
module RedisFrames {
  import opened ByteStrings
  import opened Text
  import opened LineText
  import opened Redis

  // ------------------------------------------------------------------- stability

  /** More input keeps a result that is not `Incomplete`. */
  predicate Settled(r: Parse, later: Parse) {
    r.Incomplete? || later == r
  }

  predicate ItemsSettled(r: Items, later: Items) {
    r.ItemsIncomplete? || later == r
  }

  lemma LineStable(a: Bytes, b: Bytes)
    ensures ReadLine(a).Some? ==> ReadLine(a + b) == ReadLine(a)
  {
    hide Find;
    if ReadLine(a).Some? {
      assert (a + b)[1..] == a[1..] + b;
      FindStable(a[1..], b, CRLF);
      var k := Find(a[1..], CRLF).value;
      assert (a + b)[1..k + 1] == a[1..k + 1];
    }
  }

  lemma BlobStable(a: Bytes, b: Bytes)
    requires a != [] && IsBlobTag(a[0])
    ensures Settled(ParseBlob(a), ParseBlob(a + b))
  {
    hide ReadLine, ParseSigned;
    LineStable(a, b);
    if ReadLine(a).Some? && ParseSigned(ReadLine(a).value.text).Some? {
      var header, length := ReadLine(a).value.consumed, ParseSigned(ReadLine(a).value.text).value;
      if length >= 0 && header + length + 2 <= |a| {
        assert (a + b)[header + length..header + length + 2] == a[header + length..header + length + 2];
        assert (a + b)[header..header + length] == a[header..header + length];
      }
    }
  }

  lemma InlineStable(a: Bytes, b: Bytes)
    ensures Settled(ParseInline(a), ParseInline(a + b))
  {
    hide Find, InlineWords, IsControl;
    if Find(a, CRLF).Some? {
      FindStable(a, b, CRLF);
      assert (a + b)[..Find(a, CRLF).value] == a[..Find(a, CRLF).value];
    }
  }

  lemma NullStable(a: Bytes, b: Bytes)
    ensures Settled(ParseNull(a), ParseNull(a + b))
  {
    if |a| >= 3 { assert (a + b)[1..3] == a[1..3]; }
  }

  lemma CountStable(a: Bytes, b: Bytes)
    requires a != []
    ensures ParseCount(a).CountIncomplete? || ParseCount(a + b) == ParseCount(a)
  {
    hide ReadLine, ParseSigned;
    LineStable(a, b);
  }

  /** A complete or invalid value stays so, with the same bytes consumed, whatever follows. */
  lemma {:induction false} ValueStable(a: Bytes, b: Bytes, depth: nat)
    ensures Settled(ParseValue(a, depth), ParseValue(a + b, depth))
    decreases Monus(MAX_NESTING, depth), 0, 0
  {
    hide ReadLine, ParseBlob, ParseInline, ParseNull, ParseAggregate;
    if a != [] && depth < MAX_NESTING {
      assert (a + b)[0] == a[0];
      LineStable(a, b);
      NullStable(a, b);
      InlineStable(a, b);
      if IsBlobTag(a[0]) { BlobStable(a, b); }
      if IsAggregateTag(a[0]) { AggregateStable(a, b, depth); }
    }
  }

  lemma {:induction false} AggregateStable(a: Bytes, b: Bytes, depth: nat)
    requires a != [] && IsAggregateTag(a[0]) && depth < MAX_NESTING
    ensures Settled(ParseAggregate(a, depth), ParseAggregate(a + b, depth))
    decreases MAX_NESTING - depth - 1, 2, 0
  {
    hide ParseCount, ParseItems;
    CountStable(a, b);
    match ParseCount(a)
    case Count(n, consumed) =>
      assert (a + b)[consumed..] == a[consumed..] + b;
      ItemsStable(a[consumed..], b, depth + 1, n);
    case _ =>
  }

  lemma {:induction false} ItemsStable(a: Bytes, b: Bytes, depth: nat, count: nat)
    ensures ItemsSettled(ParseItems(a, depth, count), ParseItems(a + b, depth, count))
    decreases Monus(MAX_NESTING, depth), 1, count
  {
    hide ParseValue;
    if count > 0 {
      ValueStable(a, b, depth);
      match ParseValue(a, depth)
      case Complete(_, used) =>
        assert (a + b)[used..] == a[used..] + b;
        ItemsStable(a[used..], b, depth, count - 1);
      case _ =>
    }
  }

  /** Nothing shorter than a complete frame is accepted or refused. */
  lemma StrictPrefixIncomplete(bytes: Bytes, depth: nat, k: nat)
    requires ParseValue(bytes, depth).Complete? && k < ParseValue(bytes, depth).consumed
    ensures ParseValue(bytes[..k], depth) == Incomplete
  {
    hide ParseValue;
    ValueStable(bytes[..k], bytes[k..], depth);
    assert bytes[..k] + bytes[k..] == bytes;
  }

  // ----------------------------------------------------------------- round trip

  lemma DecimalIsLine(n: nat)
    requires n <= I64_MAX
    ensures NoCrlf(Decimal(n)) && ParseSigned(Decimal(n)) == Some(n)
  {
    var s := Decimal(n);
    assert DigitOf(s[0], 10).Some?;
    forall j: nat ensures !At(s, CRLF, j) {
      CrlfAt(s, j);
      if j < |s| { assert DigitOf(s[j], 10).Some?; }
    }
  }

  lemma {:induction false} DecimalIsShort(n: nat)
    ensures |Decimal(n)| <= n / 10 + 1
  {
    if n >= 10 { DecimalIsShort(n / 10); }
  }

  lemma LinePrinted(tag: Byte, text: Bytes, rest: Bytes)
    requires NoCrlf(text)
    ensures ReadLine(PrintLine(tag, text) + rest) == Some(Line(text, |text| + 3))
    ensures PrintLine(tag, text) + rest != [] && (PrintLine(tag, text) + rest)[0] == tag
    ensures (PrintLine(tag, text) + rest)[|text| + 3..] == rest
  {
    hide Find, NoCrlf;
    var s := PrintLine(tag, text) + rest;
    assert s[1..] == text + CRLF + rest;
    FindLineEnd(text, rest);
    assert s[1..|text| + 1] == text;
  }

  lemma BlobPrinted(tag: Byte, blob: Bytes, rest: Bytes)
    requires IsBlobTag(tag) && |blob| <= I64_MAX
    ensures var s := PrintBlob(tag, blob) + rest;
            s != [] && s[0] == tag && ParseBlob(s) == Complete(BlobValue(tag, blob), |PrintBlob(tag, blob)|)
  {
    hide ReadLine, ParseSigned, NoCrlf, Decimal;
    var digits := Decimal(|blob|);
    var s := PrintBlob(tag, blob) + rest;
    DecimalIsLine(|blob|);
    DecimalIsShort(|blob|);
    assert s == PrintLine(tag, digits) + (blob + CRLF + rest);
    LinePrinted(tag, digits, blob + CRLF + rest);
    var header := |digits| + 3;
    assert s[header..header + |blob|] == blob;
    assert s[header + |blob|..header + |blob| + 2] == CRLF;
  }

  lemma CountPrinted(tag: Byte, count: nat, rest: Bytes)
    requires IsAggregateTag(tag) && count * ItemsPer(tag) <= MAX_AGGREGATE_ITEMS
    ensures var s := PrintLine(tag, Decimal(count)) + rest;
            && s != [] && s[0] == tag
            && ParseCount(s) == Count(count * ItemsPer(tag), |PrintLine(tag, Decimal(count))|)
            && s[|PrintLine(tag, Decimal(count))|..] == rest
  {
    hide ReadLine, ParseSigned, NoCrlf, Decimal;
    DecimalIsLine(count);
    LinePrinted(tag, Decimal(count), rest);
  }

  lemma MinusOne()
    ensures NoCrlf(Ascii("-1")) && ParseSigned(Ascii("-1")) == Some(-1)
  {
    var s := Ascii("-1");
    assert s == ['-' as int, '1' as int];
    var digits := s[1..];
    assert digits == ['1' as int];
    assert digits[..0] == [];
    assert DigitsValue(digits[..0], 10) == 0;
    assert DigitsValue(digits, 10) == 1;
    forall j: nat ensures !At(s, CRLF, j) { CrlfAt(s, j); }
  }

  lemma WordEndsAtBlank(word: Bytes, rest: Bytes)
    requires IsWord(word) && (rest != [] ==> IsBlank(rest[0]))
    ensures BlankIndex(word + rest) == |word|
  {
    hide BlankIndex, IsBlank;
    var s := word + rest;
    assert rest != [] ==> s[|word|] == rest[0];
    assert forall i :: 0 <= i < |word| ==> s[i] == word[i];
  }

  lemma {:induction false} WordsPrinted(words: seq<Bytes>)
    requires forall i :: 0 <= i < |words| ==> IsWord(words[i])
    ensures InlineWords(JoinWords(words)) == words
    ensures forall i :: 0 <= i < |JoinWords(words)| ==> !IsControl(JoinWords(words)[i])
    decreases words
  {
    hide BlankIndex;
    if words != [] {
      var word, rest := words[0], JoinWords(words[1..]);
      WordsPrinted(words[1..]);
      var s := JoinWords(words);
      assert s[1..] == word + rest;
      WordEndsAtBlank(word, rest);
      assert (word + rest)[..|word|] == word && (word + rest)[|word|..] == rest;
      assert words == [word] + words[1..];
    }
  }

  lemma InlinePrinted(words: seq<Bytes>, rest: Bytes)
    requires words != [] && forall i :: 0 <= i < |words| ==> IsWord(words[i])
    ensures var s := JoinWords(words) + CRLF + rest;
            s[0] == 32 && ParseInline(s) == Complete(Inline(words), |JoinWords(words)| + 2)
  {
    hide InlineWords, Find;
    var line := JoinWords(words);
    var s := line + CRLF + rest;
    WordsPrinted(words);
    forall j: nat ensures !At(line, CRLF, j) { CrlfAt(line, j); }
    FindLineEnd(line, rest);
    assert s[..|line|] == line;
  }

  lemma AggregatePrinted(tag: Byte, vs: seq<Value>, depth: nat, rest: Bytes)
    requires IsAggregateTag(tag) && depth < MAX_NESTING
    requires |vs| <= MAX_AGGREGATE_ITEMS && |vs| % ItemsPer(tag) == 0
    requires ParseItems(PrintAll(vs) + rest, depth + 1, |vs|) == ItemsComplete(vs, |PrintAll(vs)|)
    ensures var printed := PrintLine(tag, Decimal(|vs| / ItemsPer(tag))) + PrintAll(vs);
            var s := printed + rest;
            s != [] && s[0] == tag && ParseAggregate(s, depth) == Complete(AggregateValue(tag, vs), |printed|)
  {
    hide ParseCount, ParseItems, PrintAll, Decimal;
    var count := |vs| / ItemsPer(tag);
    assert count * ItemsPer(tag) == |vs|;
    var header := PrintLine(tag, Decimal(count));
    assert header + PrintAll(vs) + rest == header + (PrintAll(vs) + rest);
    CountPrinted(tag, count, PrintAll(vs) + rest);
  }

  /** Parsing undoes printing for every value within the limits, and consumes exactly the printed bytes. */
  lemma {:induction false} ParsePrinted(v: Value, depth: nat, rest: Bytes)
    requires WellFormed(v, depth)
    ensures ParseValue(Print(v) + rest, depth) == Complete(v, |Print(v)|)
    decreases v
  {
    hide ParseValue, Print, ParseItems, PrintAll, IsWord;
    match v
    case Array(vs) => ItemsPrinted(vs, depth + 1, rest); AggregateParses(v, vs, depth, rest);
    case Map(vs) => ItemsPrinted(vs, depth + 1, rest); AggregateParses(v, vs, depth, rest);
    case Set(vs) => ItemsPrinted(vs, depth + 1, rest); AggregateParses(v, vs, depth, rest);
    case Push(vs) => ItemsPrinted(vs, depth + 1, rest); AggregateParses(v, vs, depth, rest);
    case Attribute(vs) => ItemsPrinted(vs, depth + 1, rest); AggregateParses(v, vs, depth, rest);
    case NullBulk => NullsPrinted(depth, rest);
    case NullArray => NullsPrinted(depth, rest);
    case Null => NullsPrinted(depth, rest);
    case Boolean(_) => BooleansPrinted(depth, rest);
    case Inline(words) => InlineParses(words, depth, rest);
    case Bulk(_) => BlobParses(v, depth, rest);
    case BulkError(_) => BlobParses(v, depth, rest);
    case Verbatim(_) => BlobParses(v, depth, rest);
    case _ => LineParses(v, depth, rest);
  }

  lemma LineParses(v: Value, depth: nat, rest: Bytes)
    requires WellFormed(v, depth) && (v.Simple? || v.Error? || v.Integer? || v.Double? || v.BigNumber?)
    ensures ParseValue(Print(v) + rest, depth) == Complete(v, |Print(v)|)
  {
    hide ReadLine, ParseSigned, ParseBlob, ParseInline, ParseAggregate, NoCrlf, ParseNull, ParseBoolean;
    match v
    case Simple(t) => LinePrinted('+' as int, t, rest);
    case Error(t) => LinePrinted('-' as int, t, rest);
    case Integer(t) => LinePrinted(':' as int, t, rest);
    case Double(t) => LinePrinted(',' as int, t, rest);
    case BigNumber(t) => LinePrinted('(' as int, t, rest);
  }

  lemma BlobParses(v: Value, depth: nat, rest: Bytes)
    requires WellFormed(v, depth) && (v.Bulk? || v.BulkError? || v.Verbatim?)
    ensures ParseValue(Print(v) + rest, depth) == Complete(v, |Print(v)|)
  {
    hide ReadLine, ParseSigned, ParseBlob, ParseInline, ParseAggregate, PrintBlob, ParseNull, ParseBoolean;
    match v
    case Bulk(b) => BlobPrinted('$' as int, b, rest);
    case BulkError(b) => BlobPrinted('!' as int, b, rest);
    case Verbatim(b) => BlobPrinted('=' as int, b, rest);
  }

  lemma InlineParses(words: seq<Bytes>, depth: nat, rest: Bytes)
    requires WellFormed(Inline(words), depth)
    ensures ParseValue(Print(Inline(words)) + rest, depth) == Complete(Inline(words), |Print(Inline(words))|)
  {
    hide ReadLine, ParseSigned, ParseBlob, ParseInline, ParseAggregate, JoinWords, IsWord, ParseNull, ParseBoolean;
    InlinePrinted(words, rest);
  }

  lemma AggregateParses(v: Value, vs: seq<Value>, depth: nat, rest: Bytes)
    requires WellFormed(v, depth) && v in {Array(vs), Map(vs), Set(vs), Push(vs), Attribute(vs)}
    requires ParseItems(PrintAll(vs) + rest, depth + 1, |vs|) == ItemsComplete(vs, |PrintAll(vs)|)
    ensures ParseValue(Print(v) + rest, depth) == Complete(v, |Print(v)|)
  {
    hide ParseValue, ParseItems, PrintAll, Decimal, PrintLine, ParseAggregate;
    match v
    case Array(_) => TaggedParses('*' as int, vs, depth, rest);
    case Map(_) => TaggedParses('%' as int, vs, depth, rest);
    case Set(_) => TaggedParses('~' as int, vs, depth, rest);
    case Push(_) => TaggedParses('>' as int, vs, depth, rest);
    case Attribute(_) => TaggedParses('|' as int, vs, depth, rest);
  }

  lemma TaggedParses(tag: Byte, vs: seq<Value>, depth: nat, rest: Bytes)
    requires IsAggregateTag(tag) && depth < MAX_NESTING
    requires |vs| <= MAX_AGGREGATE_ITEMS && |vs| % ItemsPer(tag) == 0
    requires ParseItems(PrintAll(vs) + rest, depth + 1, |vs|) == ItemsComplete(vs, |PrintAll(vs)|)
    ensures var printed := PrintLine(tag, Decimal(|vs| / ItemsPer(tag))) + PrintAll(vs);
            ParseValue(printed + rest, depth) == Complete(AggregateValue(tag, vs), |printed|)
  {
    hide ParseLineValue, ParseBlob, ParseInline, ParseAggregate, ParseItems, PrintAll, Decimal, PrintLine, ParseNull, ParseBoolean, AggregateValue;
    AggregatePrinted(tag, vs, depth, rest);
  }

  lemma NullsPrinted(depth: nat, rest: Bytes)
    requires depth < MAX_NESTING
    ensures ParseValue(Print(NullBulk) + rest, depth) == Complete(NullBulk, |Print(NullBulk)|)
    ensures ParseValue(Print(NullArray) + rest, depth) == Complete(NullArray, |Print(NullArray)|)
    ensures ParseValue(Print(Null) + rest, depth) == Complete(Null, |Print(Null)|)
  {
    hide ReadLine, ParseSigned, NoCrlf, Ascii;
    MinusOne();
    LinePrinted('$' as int, Ascii("-1"), rest);
    LinePrinted('*' as int, Ascii("-1"), rest);
    var s := PrintLine('_' as int, []) + rest;
    assert s[1..3] == CRLF;
  }

  lemma BooleansPrinted(depth: nat, rest: Bytes)
    requires depth < MAX_NESTING
    ensures forall b :: ParseValue(Print(Boolean(b)) + rest, depth) == Complete(Boolean(b), |Print(Boolean(b))|)
  {
    hide ReadLine;
    forall b ensures ParseValue(Print(Boolean(b)) + rest, depth) == Complete(Boolean(b), |Print(Boolean(b))|) {
      var text: Bytes := if b then ['t' as int] else ['f' as int];
      forall j: nat ensures !At(text, CRLF, j) { CrlfAt(text, j); }
      LinePrinted('#' as int, text, rest);
    }
  }

  lemma {:induction false} ItemsPrinted(vs: seq<Value>, depth: nat, rest: Bytes)
    requires forall i :: 0 <= i < |vs| ==> WellFormed(vs[i], depth)
    ensures ParseItems(PrintAll(vs) + rest, depth, |vs|) == ItemsComplete(vs, |PrintAll(vs)|)
    decreases vs
  {
    hide ParseValue, Print, WellFormed;
    if vs != [] {
      var first, more := Print(vs[0]), PrintAll(vs[1..]);
      assert PrintAll(vs) + rest == first + (more + rest);
      ParsePrinted(vs[0], depth, more + rest);
      assert (first + (more + rest))[|first|..] == more + rest;
      ItemsPrinted(vs[1..], depth, rest);
      assert [vs[0]] + vs[1..] == vs;
    }
  }

  // ------------------------------------------------- what the parser can return

  lemma LineHasNoCrlf(bytes: Bytes)
    requires ReadLine(bytes).Some?
    ensures NoCrlf(ReadLine(bytes).value.text)
  {
    hide Find;
    var k := Find(bytes[1..], CRLF).value;
    var text := bytes[1..k + 1];
    forall j: nat ensures !At(text, CRLF, j) {
      CrlfAt(text, j);
      CrlfAt(bytes[1..], j);
      assert j < k ==> !At(bytes[1..], CRLF, j);
    }
  }

  lemma {:induction false} WordsAreWords(line: Bytes)
    requires forall i :: 0 <= i < |line| ==> !IsControl(line[i]) || line[i] == 9
    ensures forall i :: 0 <= i < |InlineWords(line)| ==> IsWord(InlineWords(line)[i])
    decreases |line|
  {
    hide BlankIndex;
    if line != [] {
      if IsBlank(line[0]) {
        WordsAreWords(line[1..]);
      } else {
        var n := BlankIndex(line);
        assert n > 0;
        WordsAreWords(line[n..]);
        assert IsWord(line[..n]);
      }
    }
  }

  lemma BlobIsWellFormed(bytes: Bytes, depth: nat)
    requires bytes != [] && IsBlobTag(bytes[0]) && depth < MAX_NESTING && ParseBlob(bytes).Complete?
    ensures WellFormed(ParseBlob(bytes).value, depth)
  {
    hide ReadLine, ParseSigned, NoCrlf;
  }

  /** Every value the parser returns is within the printer's domain, so printing and parsing it again
      returns it. */
  lemma {:induction false} ParsedIsWellFormed(bytes: Bytes, depth: nat)
    requires ParseValue(bytes, depth).Complete?
    ensures WellFormed(ParseValue(bytes, depth).value, depth)
    decreases Monus(MAX_NESTING, depth), 0, 0
  {
    hide ReadLine, ParseBlob, ParseAggregate, NoCrlf, InlineWords, Find;
    if IsLineTag(bytes[0]) {
      LineHasNoCrlf(bytes);
    } else if IsBlobTag(bytes[0]) {
      BlobIsWellFormed(bytes, depth);
    } else if IsAggregateTag(bytes[0]) {
      AggregateIsWellFormed(bytes, depth);
    } else if bytes[0] != '_' as int && bytes[0] != '#' as int {
      WordsAreWords(bytes[..Find(bytes, CRLF).value]);
    }
  }

  lemma {:induction false} AggregateIsWellFormed(bytes: Bytes, depth: nat)
    requires bytes != [] && IsAggregateTag(bytes[0]) && depth < MAX_NESTING && ParseAggregate(bytes, depth).Complete?
    ensures WellFormed(ParseAggregate(bytes, depth).value, depth)
    decreases MAX_NESTING - depth - 1, 2, 0
  {
    hide ReadLine, ParseSigned, ParseItems, NoCrlf;
    match ParseCount(bytes)
    case Count(n, consumed) =>
      ItemsAreWellFormed(bytes[consumed..], depth + 1, n);
      assert n % ItemsPer(bytes[0]) == 0;
    case _ =>
  }

  lemma {:induction false} ItemsAreWellFormed(bytes: Bytes, depth: nat, count: nat)
    requires ParseItems(bytes, depth, count).ItemsComplete?
    ensures var vs := ParseItems(bytes, depth, count).values;
            forall i :: 0 <= i < |vs| ==> WellFormed(vs[i], depth)
    decreases Monus(MAX_NESTING, depth), 1, count
  {
    hide ParseValue, WellFormed;
    if count > 0 {
      ParsedIsWellFormed(bytes, depth);
      ItemsAreWellFormed(bytes[ParseValue(bytes, depth).consumed..], depth, count - 1);
    }
  }

  /** Printing what was parsed and parsing it again returns the same value. */
  lemma ReprintParses(bytes: Bytes, depth: nat, rest: Bytes)
    requires ParseValue(bytes, depth).Complete?
    ensures var v := ParseValue(bytes, depth).value;
            ParseValue(Print(v) + rest, depth) == Complete(v, |Print(v)|)
  {
    hide ParseValue, Print, WellFormed;
    ParsedIsWellFormed(bytes, depth);
    ParsePrinted(ParseValue(bytes, depth).value, depth, rest);
  }
}
