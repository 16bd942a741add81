/** The redactor's index loop over SQL text, proved against the scanner. */
module SqlRedactor {
  import opened ByteStrings
  import opened Text
  import opened TextLemmas
  import opened SqlScanner
  import opened SqlRedaction

  predicate HasSecret(ts: seq<Token>) {
    exists i :: 0 <= i < |ts| && IsSecret(ts[i])
  }

  // ------------------------------------------------------------------ inner loops

  method FindQuoteEnd(s: Bytes, quote: Byte) returns (end: nat)
    requires s != []
    ensures end == QuoteEnd(s, quote, 1)
  {
    end := 1;
    while end < |s|
      invariant 1 <= end <= |s| && QuoteEnd(s, quote, end) == QuoteEnd(s, quote, 1)
      decreases |s| - end
    {
      if s[end] == quote {
        if end + 1 < |s| && s[end + 1] == quote {
          end := end + 2;
          continue;
        }
        end := end + 1;
        return;
      }
      end := end + 1;
    }
  }

  method FindNumberEnd(s: Bytes) returns (end: nat)
    requires s != []
    ensures end == NumberEnd(s, 1)
  {
    end := 1;
    while end < |s| && IsNumberByte(s[end])
      invariant 1 <= end <= |s| && NumberEnd(s, end) == NumberEnd(s, 1)
    {
      end := end + 1;
    }
  }

  method FindDelimiterEnd(s: Bytes) returns (r: Option<nat>)
    ensures r == DelimiterEnd(s)
  {
    if s == [] || s[0] != DOLLAR {
      return None;
    }
    for offset := 1 to |s|
      invariant TagLength(s[1..]) == offset - 1 + TagLength(s[offset..])
    {
      assert s[offset..][1..] == s[offset + 1..];
      if s[offset] == DOLLAR {
        return Some(offset + 1);
      }
      if !IsTag(s[offset]) {
        return None;
      }
    }
    return None;
  }

  // ---------------------------------------------------------------- token by token

  /** What a scanned token contributes. */
  lemma TokenSteps(p: Previous, s: Bytes)
    requires s != []
    ensures var t := Next(p, s);
            var rest := s[|TextOf(t)|..];
            && RedactFrom(p, s) == TextOf(Mask(t)) + RedactFrom(LastOf(TextOf(t)), rest)
            && (HasSecret(Tokens(p, s)) <==> IsSecret(t) || HasSecret(Tokens(LastOf(TextOf(t)), rest)))
  {
    hide Next, Mask, TextOf, IsSecret;
    var t := Next(p, s);
    var more := Tokens(LastOf(TextOf(t)), s[|TextOf(t)|..]);
    var ts := [t] + more;
    assert Tokens(p, s) == ts;
    assert ts[0] == t && forall i :: 0 <= i < |more| ==> ts[i + 1] == more[i];
    if HasSecret(ts) {
      var i :| 0 <= i < |ts| && IsSecret(ts[i]);
      if i > 0 { assert IsSecret(more[i - 1]); }
    }
  }

  lemma HighByteIsOther(p: Previous, s: Bytes)
    requires s != [] && s[0] >= 0x80
    ensures Next(p, s) == Other(s[0])
  {
    hide QuoteEnd, LineEnd, BlockEnd, NumberEnd;
  }

  lemma {:induction false} CopyHighBytes(p: Previous, s: Bytes, w: nat)
    requires 0 < w <= |s| && forall i :: 0 <= i < w ==> s[i] >= 0x80
    ensures RedactFrom(p, s) == s[..w] + RedactFrom(Some(s[w - 1]), s[w..])
    ensures HasSecret(Tokens(p, s)) <==> HasSecret(Tokens(Some(s[w - 1]), s[w..]))
    decreases w
  {
    hide RedactFrom, Tokens, Next, HasSecret;
    HighByteIsOther(p, s);
    TokenSteps(p, s);
    if w > 1 {
      var rest := s[1..];
      CopyHighBytes(Some(s[0]), rest, w - 1);
      assert rest[w - 1..] == s[w..];
      assert [s[0]] + rest[..w - 1] == s[..w];
      assert [s[0]] + (rest[..w - 1] + RedactFrom(Some(s[w - 1]), s[w..])) == s[..w] + RedactFrom(Some(s[w - 1]), s[w..]);
    }
  }

  /** A character of any width outside the other tokens is copied whole. */
  lemma CopyCharacter(p: Previous, s: Bytes)
    requires s != [] && ValidUtf8(s) && Next(p, s).Other?
    ensures var w := CharWidth(s);
            && 0 < w <= |s| && ValidUtf8(s[w..])
            && RedactFrom(p, s) == s[..w] + RedactFrom(Some(s[w - 1]), s[w..])
            && (HasSecret(Tokens(p, s)) <==> HasSecret(Tokens(Some(s[w - 1]), s[w..])))
  {
    hide RedactFrom, Tokens, Next, HasSecret;
    var w := CharWidth(s);
    if s[0] < 0x80 {
      TokenSteps(p, s);
      assert s[..1] == [s[0]];
    } else {
      CopyHighBytes(p, s, w);
    }
  }

  lemma AfterAscii(s: Bytes, k: nat)
    requires ValidUtf8(s) && 0 < k <= |s| && s[k - 1] < 0x80
    ensures ValidUtf8(s[k..])
  {
    hide ValidUtf8;
    Utf8Cut(s, k - 1);
    DropAscii(s[k - 1..]);
    assert s[k - 1..][1..] == s[k..];
  }

  lemma {:induction false} NumberIsAscii(s: Bytes, i: nat)
    requires 0 < i <= |s| && s[i - 1] < 0x80
    ensures s[NumberEnd(s, i) - 1] < 0x80
    decreases |s| - i
  {
    if i < |s| && IsNumberByte(s[i]) { NumberIsAscii(s, i + 1); }
  }

  lemma BlockIsAscii(s: Bytes)
    requires |s| >= 2 && BlockEnd(s) < |s|
    ensures s[BlockEnd(s) - 1] < 0x80
  {
    hide Find;
    BlockEndsSlash(s);
  }

  lemma DollarIsAscii(s: Bytes)
    requires DollarToken(s).Some?
    ensures var n := |TextOf(DollarToken(s).value)|; 0 < n <= |s| && s[n - 1] == DOLLAR
  {
    hide DollarToken;
    DollarTokenShape(s);
    var t := DollarToken(s).value;
    DelimiterEnds(t.delimiter);
    assert TextOf(t)[|TextOf(t)| - 1] == DOLLAR;
  }

  /** Text after any other token starts at a character boundary again. */
  lemma AfterToken(p: Previous, s: Bytes)
    requires s != [] && ValidUtf8(s) && !Next(p, s).Other?
    ensures ValidUtf8(s[|TextOf(Next(p, s))|..])
  {
    hide ValidUtf8, QuoteEnd, BlockEnd, NumberEnd, DollarToken, IsNumberStart, NewlineIndex;
    var t := Next(p, s);
    var n := |TextOf(t)|;
    if n == |s| {
      assert s[n..] == [];
      AsciiIsUtf8([]);
    } else {
      match t {
        case BlockComment(_) => BlockIsAscii(s);
        case DollarQuoted(_, _) => DollarIsAscii(s);
        case Number(_) => NumberStartsAscii(p, s); NumberIsAscii(s, 1);
        case _ =>
      }
      AfterAscii(s, n);
    }
  }

  lemma NumberStartsAscii(p: Previous, s: Bytes)
    requires IsNumberStart(p, s)
    ensures s[0] < 0x80
  {
  }

  function Before(sql: Bytes, index: nat): Previous
    requires index <= |sql|
  {
    if index == 0 then None else Some(sql[index - 1])
  }

  /** The redacted text and whether anything was masked. */
  method RedactSqlLiterals(sql: Bytes) returns (safe: Bytes, changed: bool)
    requires ValidUtf8(sql)
    ensures safe == Redact(sql)
    ensures changed <==> HasSecret(Scan(sql))
  {
    hide RedactFrom, Tokens, HasSecret, ValidUtf8;
    var index := 0;
    safe, changed := [], false;
    assert sql[0..] == sql && [] + Redact(sql) == Redact(sql);
    while index < |sql|
      invariant index <= |sql| && ValidUtf8(sql[index..])
      invariant safe + RedactFrom(Before(sql, index), sql[index..]) == Redact(sql)
      invariant HasSecret(Scan(sql)) <==> changed || HasSecret(Tokens(Before(sql, index), sql[index..]))
    {
      var s := sql[index..];
      var masked, length, secret := NextMasked(Before(sql, index), s);
      assert s[length..] == sql[index + length..] && s[length - 1] == sql[index + length - 1];
      ghost var rest := RedactFrom(Some(s[length - 1]), s[length..]);
      assert safe + (masked + rest) == safe + masked + rest;
      safe, index, changed := safe + masked, index + length, changed || secret;
    }
    Nothing(Before(sql, index));
    NoTokens(Before(sql, index));
    assert sql[index..] == [] && safe + [] == safe;
  }

  lemma NoTokens(p: Previous)
    ensures !HasSecret(Tokens(p, []))
  {
  }

  /** What one pass of the loop owes: the text to append, how far to move, and whether it was masked. */
  ghost predicate IsPass(p: Previous, s: Bytes, masked: Bytes, length: nat, secret: bool) {
    && 0 < length <= |s| && ValidUtf8(s[length..])
    && RedactFrom(p, s) == masked + RedactFrom(Some(s[length - 1]), s[length..])
    && (HasSecret(Tokens(p, s)) <==> secret || HasSecret(Tokens(Some(s[length - 1]), s[length..])))
  }

  lemma PassOverToken(p: Previous, s: Bytes)
    requires s != [] && ValidUtf8(s) && !Next(p, s).Other?
    ensures var t := Next(p, s); IsPass(p, s, TextOf(Mask(t)), |TextOf(t)|, IsSecret(t))
  {
    hide RedactFrom, Tokens, HasSecret, ValidUtf8, Next, Mask;
    TokenSteps(p, s);
    AfterToken(p, s);
  }

  predicate StartsComment(s: Bytes) {
    StartsWith(s, DASHES) || StartsWith(s, OPEN_COMMENT)
  }

  lemma QuotePass(p: Previous, s: Bytes)
    requires s != [] && ValidUtf8(s) && (s[0] == QUOTE || s[0] == APOSTROPHE)
    ensures var end := QuoteEnd(s, s[0], 1);
            IsPass(p, s, if s[0] == QUOTE then s[..end] else MASKED_LITERAL, end, s[0] == APOSTROPHE)
  {
    hide IsPass, ValidUtf8, QuoteEnd;
    PassOverToken(p, s);
  }

  /** A line comment keeps its newline, and only that. */
  lemma LinePass(p: Previous, s: Bytes)
    requires s != [] && ValidUtf8(s) && StartsWith(s, DASHES)
    ensures var end := NewlineIndex(s);
            IsPass(p, s, MASKED_LINE + (if end < |s| then [NEWLINE] else []), Min(end + 1, |s|), true)
  {
    hide IsPass, ValidUtf8, NewlineIndex, MASKED_LINE;
    var end := NewlineIndex(s);
    var text := s[..LineEnd(s)];
    assert end < |s| ==> text[|text| - 1] == NEWLINE;
    assert end == |s| ==> s[..end] == s && text[|text| - 1] in s[..end];
    assert Next(p, s) == LineComment(text);
    PassOverToken(p, s);
  }

  lemma BlockPass(p: Previous, s: Bytes)
    requires s != [] && ValidUtf8(s) && StartsWith(s, OPEN_COMMENT)
    ensures IsPass(p, s, MASKED_BLOCK, BlockEnd(s), true)
  {
    hide IsPass, ValidUtf8, BlockEnd, MASKED_BLOCK;
    assert Next(p, s) == BlockComment(s[..BlockEnd(s)]);
    PassOverToken(p, s);
  }

  lemma DollarPass(p: Previous, s: Bytes)
    requires s != [] && ValidUtf8(s) && DollarToken(s).Some?
    ensures var n := DelimiterEnd(s);
            && n.Some? && Find(s[n.value..], s[..n.value]).Some?
            && IsPass(p, s, s[..n.value] + [QUESTION] + s[..n.value],
                      n.value + Find(s[n.value..], s[..n.value]).value + n.value, true)
  {
    hide IsPass, ValidUtf8, Find, DelimiterEnd, DollarToken, QuoteEnd, LineEnd, BlockEnd, NumberEnd, IsNumberStart;
    DollarTokenParts(s);
    var n := DelimiterEnd(s).value;
    assert Next(p, s) == DollarToken(s).value;
    PassOverToken(p, s);
  }

  lemma DollarTokenParts(s: Bytes)
    requires DollarToken(s).Some?
    ensures var n := DelimiterEnd(s);
            && n.Some? && Find(s[n.value..], s[..n.value]).Some?
            && DollarToken(s).value == DollarQuoted(s[..n.value], s[n.value..n.value + Find(s[n.value..], s[..n.value]).value])
  {
    hide Find, DelimiterEnd;
  }

  lemma NumberPass(p: Previous, s: Bytes)
    requires s != [] && ValidUtf8(s) && IsNumberStart(p, s)
    ensures IsPass(p, s, [QUESTION], NumberEnd(s, 1), true)
  {
    hide IsPass, ValidUtf8, NumberEnd;
    assert Next(p, s) == Number(s[..NumberEnd(s, 1)]);
    PassOverToken(p, s);
  }

  lemma CopyPass(p: Previous, s: Bytes)
    requires s != [] && ValidUtf8(s) && s[0] != QUOTE && s[0] != APOSTROPHE && !StartsComment(s)
    requires DollarToken(s).None? && !IsNumberStart(p, s)
    ensures 0 < CharWidth(s) <= |s| && IsPass(p, s, s[..CharWidth(s)], CharWidth(s), false)
  {
    hide RedactFrom, Tokens, HasSecret, ValidUtf8, DollarToken, IsNumberStart;
    CopyCharacter(p, s);
  }

  lemma OpensDollar(s: Bytes)
    ensures var n := DelimiterEnd(s);
            DollarToken(s).Some? <==> s != [] && s[0] == DOLLAR && n.Some? && Find(s[n.value..], s[..n.value]).Some?
  {
    hide Find, DelimiterEnd;
  }

  lemma CommentsAreLong(s: Bytes)
    ensures StartsComment(s) ==> |s| >= 2
  {
  }

  method NextMasked(p: Previous, s: Bytes) returns (masked: Bytes, length: nat, secret: bool)
    requires s != [] && ValidUtf8(s)
    ensures IsPass(p, s, masked, length, secret)
  {
    hide IsPass, ValidUtf8, QuoteEnd, NumberEnd, NewlineIndex, Find, DelimiterEnd, DollarToken, StartsWith, MASKED_LINE, MASKED_BLOCK, MASKED_LITERAL, IsNumberStart, Next, CharWidth;
    OpensDollar(s);
    CommentsAreLong(s);
    if s[0] == QUOTE {
      QuotePass(p, s);
      length := FindQuoteEnd(s, QUOTE);
      return s[..length], length, false;
    }
    if s[0] == APOSTROPHE {
      QuotePass(p, s);
      length := FindQuoteEnd(s, APOSTROPHE);
      return MASKED_LITERAL, length, true;
    }
    if StartsWith(s, DASHES) {
      LinePass(p, s);
      var end := NewlineIndex(s);
      if end < |s| {
        return MASKED_LINE + [NEWLINE], end + 1, true;
      }
      assert MASKED_LINE + [] == MASKED_LINE;
      return MASKED_LINE, end, true;
    }
    if StartsWith(s, OPEN_COMMENT) {
      BlockPass(p, s);
      var close := Find(s[2..], CLOSE_COMMENT);
      return MASKED_BLOCK, if close.None? then |s| else close.value + 4, true;
    }
    if s[0] == DOLLAR {
      var delimiter := FindDelimiterEnd(s);
      if delimiter.Some? {
        var n := delimiter.value;
        var content := Find(s[n..], s[..n]);
        if content.Some? {
          DollarPass(p, s);
          return s[..n] + [QUESTION] + s[..n], n + content.value + n, true;
        }
      }
    }
    if IsNumberStart(p, s) {
      NumberPass(p, s);
      length := FindNumberEnd(s);
      return [QUESTION], length, true;
    }
    CopyPass(p, s);
    length := CharWidth(s);
    return s[..length], length, false;
  }
}
