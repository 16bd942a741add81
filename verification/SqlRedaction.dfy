/** Redacted SQL scans back to the masked tokens, so redaction is idempotent and hides what it masks. */
module SqlRedaction {
  import opened ByteStrings
  import opened SqlScanner

  type Previous = Option<Byte>

  function RestAfter(t: Token, s: Bytes): Bytes
    requires TextOf(t) <= s
  {
    s[|TextOf(t)|..]
  }

  /** One step of redaction. */
  lemma RedactSteps(p: Previous, s: Bytes)
    requires s != []
    ensures var t := Next(p, s);
            RedactFrom(p, s) == TextOf(Mask(t)) + RedactFrom(LastOf(TextOf(t)), RestAfter(t, s))
  {
    hide Next, Mask, TextOf;
  }

  lemma MaskKeepsStart(p: Previous, s: Bytes)
    requires s != []
    ensures var t := Next(p, s);
            TextOf(Mask(t)) != [] && TextOf(Mask(t))[0] == if t.Number? then QUESTION else s[0]
  {
    hide QuoteEnd, LineEnd, BlockEnd, DollarToken, NumberEnd, IsNumberStart;
    var t := Next(p, s);
    if t.DollarQuoted? { assert t.delimiter[0] == TextOf(t)[0] == s[0]; }
  }

  /** Redaction keeps the first byte, unless a number starts there. */
  lemma FirstByte(p: Previous, s: Bytes)
    ensures s == [] <==> RedactFrom(p, s) == []
    ensures s != [] ==> RedactFrom(p, s)[0] == if Next(p, s).Number? then QUESTION else s[0]
    ensures s != [] && Next(p, s).Number? ==> IsNumberStart(p, s)
  {
    hide RedactFrom, Mask, TextOf;
    if s != [] {
      RedactSteps(p, s);
      MaskKeepsStart(p, s);
    } else {
      Nothing(p);
    }
  }

  lemma Nothing(p: Previous)
    ensures RedactFrom(p, []) == []
  {
  }

  // -------------------------------------------------------------------- dollar tags

  predicate After(p: Previous) {
    p.Some? && BlocksNumber(p.value)
  }

  /** After a tag byte or a dollar, a tag byte is copied. */
  lemma TagIsCopied(p: Previous, s: Bytes)
    requires After(p) && s != [] && IsTag(s[0])
    ensures Next(p, s) == Other(s[0])
  {
    hide QuoteEnd, LineEnd, BlockEnd, NumberEnd, DollarToken;
  }

  /** Redaction copies a run of tag bytes and the byte that ends it. */
  lemma {:induction false} TagsAreKept(p: Previous, s: Bytes)
    requires After(p)
    ensures var k, r := TagLength(s), RedactFrom(p, s);
            && k <= |r| && r[..k] == s[..k] && TagLength(r) == k
            && (k < |s| <==> k < |r|) && (k < |s| ==> r[k] == s[k])
            && r[k..] == RedactFrom(if k == 0 then p else Some(s[k - 1]), s[k..])
    decreases |s|
  {
    hide RedactFrom, Next;
    if s == [] {
      Nothing(p);
    } else if !IsTag(s[0]) {
      FirstByte(p, s);
      assert s[0..] == s && RedactFrom(p, s)[0..] == RedactFrom(p, s);
    } else {
      TagIsCopied(p, s);
      RedactSteps(p, s);
      var b, rest := s[0], s[1..];
      var r' := RedactFrom(Some(b), rest);
      assert RedactFrom(p, s) == [b] + r';
      TagsAreKept(Some(b), rest);
      var k := TagLength(rest);
      assert ([b] + r')[1..] == r';
      assert ([b] + r')[k + 1..] == r'[k..];
      assert ([b] + r')[..k + 1] == [b] + r'[..k];
      assert s[..k + 1] == [b] + rest[..k];
      assert s[k + 1..] == rest[k..];
    }
  }

  /** A delimiter: `$`, tag bytes, `$`. */
  predicate IsDelimiter(e: Bytes) {
    |e| >= 2 && e[0] == DOLLAR && e[|e| - 1] == DOLLAR && forall i :: 0 < i < |e| - 1 ==> IsTag(e[i])
  }

  lemma TagThenDollar(s: Bytes, tag: Bytes)
    requires (forall i :: 0 <= i < |tag| ==> IsTag(tag[i])) && tag + [DOLLAR] <= s
    ensures TagLength(s) == |tag|
  {
    hide TagLength;
    var n := TagLength(s);
    assert s[|tag|] == DOLLAR;
    assert forall i :: 0 <= i < |tag| ==> s[i] == tag[i];
  }

  /** The delimiter at the start of a text is the only one that can be there. */
  lemma DelimiterIs(s: Bytes, e: Bytes)
    requires IsDelimiter(e) && e <= s
    ensures DelimiterEnd(s) == Some(|e|)
  {
    hide TagLength;
    var tag := e[1..|e| - 1];
    assert s[1..] == tag + [DOLLAR] + s[|e|..];
    TagThenDollar(s[1..], tag);
    assert s[|e| - 1] == DOLLAR;
  }

  lemma DelimiterShape(s: Bytes)
    requires DelimiterEnd(s).Some?
    ensures IsDelimiter(s[..DelimiterEnd(s).value])
  {
    hide TagLength;
    var n := DelimiterEnd(s).value;
    assert forall i :: 0 < i < n - 1 ==> s[i] == s[1..][i - 1];
  }

  /** A delimiter that starts at a dollar and continues into what follows it continues alike before and
      after redaction. */
  lemma DelimiterAcross(e: Bytes, rest: Bytes)
    requires IsDelimiter(e) && e <= [DOLLAR] + RedactFrom(Some(DOLLAR), rest)
    ensures e <= [DOLLAR] + rest
  {
    hide RedactFrom, TagLength;
    var r := RedactFrom(Some(DOLLAR), rest);
    var tag := e[1..|e| - 1];
    assert r[..|e| - 1] == ([DOLLAR] + r)[1..|e|] == e[1..];
    assert tag + [DOLLAR] == e[1..];
    assert tag + [DOLLAR] <= r;
    TagThenDollar(r, tag);
    TagsAreKept(Some(DOLLAR), rest);
    assert rest[..|tag|] == tag && rest[|tag|] == DOLLAR;
    assert ([DOLLAR] + rest)[..|e|] == [DOLLAR] + tag + [DOLLAR] == e;
  }

  // ------------------------------------------------------------- no new delimiters

  /** `e` occurs in `s` at or after position `from`. */
  ghost predicate Occurs(e: Bytes, s: Bytes, from: nat) {
    exists j: nat :: from <= j && At(s, e, j)
  }

  lemma OccursAt(e: Bytes, s: Bytes, from: nat, j: nat)
    requires from <= j && At(s, e, j)
    ensures Occurs(e, s, from)
  {
  }

  lemma MaskHasNoDollar(t: Token)
    requires t.Literal? || t.LineComment? || t.BlockComment? || t.Number?
    ensures DOLLAR !in TextOf(Mask(t))
  {
    hide MASKED_LINE, MASKED_BLOCK;
    PlainMasks();
  }

  lemma PlainMasks()
    ensures DOLLAR !in MASKED_LINE && DOLLAR !in MASKED_BLOCK
  {
    forall i | 0 <= i < |MASKED_LINE| ensures MASKED_LINE[i] != DOLLAR {
      assert "-- [REDACTED]"[i] in "-- [REDACTED]";
    }
  }

  lemma ByteOfMatch(s: Bytes, e: Bytes, j: nat, m: nat)
    requires At(s, e, j) && j <= m
    ensures m < j + |e| ==> e[m - j] == s[m]
    ensures j + |e| <= |s|
  {
    if m < j + |e| { assert s[j..j + |e|][m - j] == s[m]; }
  }

  /** A match that starts before a byte it does not contain ends before it. */
  lemma MatchEndsBefore(s: Bytes, e: Bytes, j: nat, m: nat)
    requires At(s, e, j) && j <= m < |s| && s[m] !in e
    ensures j + |e| <= m
  {
    ByteOfMatch(s, e, j, m);
  }

  lemma SameStartIsAt(s: Bytes, e: Bytes, j: nat)
    requires j <= |s| && e <= s[j..]
    ensures At(s, e, j)
  {
    assert s[j..j + |e|] == s[j..][..|e|] == e;
  }

  lemma AtIsStart(s: Bytes, e: Bytes, j: nat)
    requires At(s, e, j)
    ensures j <= |s| && e <= s[j..]
  {
    assert s[j..][..|e|] == s[j..j + |e|];
  }

  /** A match inside a common prefix is a match in both. */
  lemma MatchInPrefix(r: Bytes, s: Bytes, e: Bytes, j: nat, n: nat)
    requires n <= |r| && n <= |s| && r[..n] == s[..n] && At(r, e, j) && j + |e| <= n
    ensures At(s, e, j)
  {
    assert r[j..j + |e|] == r[..n][j..j + |e|] == s[..n][j..j + |e|] == s[j..j + |e|];
  }

  lemma QuotedEndsQuoted(p: Previous, s: Bytes)
    requires s != [] && Next(p, s).Quoted?
    ensures var text := Next(p, s).text;
            |text| < |s| ==> text[|text| - 1] == QUOTE && s[|text|] != QUOTE
  {
    hide DollarToken, BlockEnd, LineEnd, NumberEnd;
  }

  lemma StartsInCopy(p: Previous, s: Bytes, e: Bytes, j: nat)
    requires s != [] && IsDelimiter(e) && Next(p, s).Quoted? && At(RedactFrom(p, s), e, j) && j < |TextOf(Next(p, s))|
    ensures At(s, e, j)
  {
    hide RedactFrom, Next, At;
    var t := Next(p, s);
    var n, r := |t.text|, RedactFrom(p, s);
    RedactSteps(p, s);
    QuotedEndsQuoted(p, s);
    assert r[..n] == t.text == s[..n];
    if n == |s| {
      Nothing(LastOf(t.text));
      ByteOfMatch(r, e, j, j);
    } else {
      assert r[n - 1] == QUOTE;
      MatchEndsBefore(r, e, j, n - 1);
    }
    MatchInPrefix(r, s, e, j, n);
  }

  /** A dollar-quoted token masks to two delimiters around a question mark; a delimiter that starts inside is
      one of these two, or starts at the very last dollar. */
  lemma StartsInDollar(d: Bytes, after: Bytes, e: Bytes, j: nat)
    requires IsDelimiter(d) && IsDelimiter(e) && At(d + [QUESTION] + d + after, e, j) && j < 2 * |d| + 1
    ensures (e == d && (j == 0 || j == |d| + 1)) || (j == 2 * |d| && e <= [DOLLAR] + after)
  {
    hide At;
    var m := |d|;
    var r := d + [QUESTION] + d + after;
    AtIsStart(r, e, j);
    ByteOfMatch(r, e, j, j);
    ByteOfMatch(r, e, j, j + 1);
    assert r[m] == QUESTION;
    if j == 0 || j == m + 1 {
      assert d <= r[j..] by {
        if j == 0 { assert r[0..][..m] == d; } else { assert r[m + 1..] == d + after; }
      }
      DelimiterIs(r[j..], e);
      DelimiterIs(r[j..], d);
      assert e == r[j..][..m] == d;
    } else if j == 2 * m {
      assert r[j..] == [DOLLAR] + after;
    } else {
      DollarPlaces(d, after, j);
    }
  }

  lemma DollarPlaces(d: Bytes, after: Bytes, j: nat)
    requires IsDelimiter(d) && j < 2 * |d| + 1
    ensures var r := d + [QUESTION] + d + after;
            r[j] == DOLLAR ==> j == 0 || j == |d| - 1 || j == |d| + 1 || j == 2 * |d|
    ensures (d + [QUESTION] + d + after)[|d|] == QUESTION
  {
    var r := d + [QUESTION] + d + after;
    assert j < |d| ==> r[j] == d[j];
    assert |d| < j ==> r[j] == d[j - |d| - 1];
  }

  lemma DollarTokenShape(s: Bytes)
    requires DollarToken(s).Some?
    ensures var t := DollarToken(s).value;
            && IsDelimiter(t.delimiter) && TextOf(t) <= s
            && At(s, t.delimiter, 0) && At(s, t.delimiter, |t.delimiter| + |t.content|)
  {
    hide DelimiterEnd, Find, At;
    DelimiterShape(s);
    var n := DelimiterEnd(s).value;
    var d := s[..n];
    var k := Find(s[n..], d).value;
    ByteOfMatch(s[n..], d, k, k);
    assert DollarToken(s).value == DollarQuoted(d, s[n..n + k]);
    assert s[0..] == s;
    SameStartIsAt(s, d, 0);
    AtDrop(s, d, n, k);
  }

  lemma NextDollar(p: Previous, s: Bytes)
    requires s != [] && Next(p, s).DollarQuoted?
    ensures DollarToken(s) == Some(Next(p, s))
  {
    hide DollarToken, QuoteEnd, LineEnd, BlockEnd, NumberEnd;
  }

  lemma StartsInFirstDollar(p: Previous, s: Bytes, e: Bytes, from: nat, j: nat)
    requires s != [] && IsDelimiter(e) && from <= 1 && from <= j && Next(p, s).DollarQuoted?
    requires At(RedactFrom(p, s), e, j) && j < |TextOf(Mask(Next(p, s)))|
    ensures Occurs(e, s, from)
  {
    hide RedactFrom, Next, At, Occurs, DollarToken, IsDelimiter, TextOf, Mask;
    var t := Next(p, s);
    var d, n := t.delimiter, |TextOf(t)|;
    NextDollar(p, s);
    DollarTokenShape(s);
    DollarRedacts(p, s);
    var r' := RedactFrom(Some(DOLLAR), s[n..]);
    StartsInDollar(d, r', e, j);
    if e == d && j == 0 {
      OccursAt(e, s, from, 0);
    } else if e == d && j == |d| + 1 {
      OccursAt(e, s, from, |d| + |t.content|);
    } else {
      DelimiterAcross(e, s[n..]);
      SameStartIsAt(s, e, n - 1);
      OccursAt(e, s, from, n - 1);
    }
  }

  /** A redacted dollar-quoted token, and the dollar sign its text ends with. */
  lemma DollarRedacts(p: Previous, s: Bytes)
    requires s != [] && Next(p, s).DollarQuoted?
    ensures var t := Next(p, s);
            var n := |TextOf(t)|;
            && |t.delimiter| >= 2 && |t.delimiter| + |t.content| < n <= |s|
            && |TextOf(Mask(t))| == 2 * |t.delimiter| + 1
            && s[n - 1..] == [DOLLAR] + s[n..]
            && RedactFrom(p, s) == t.delimiter + [QUESTION] + t.delimiter + RedactFrom(Some(DOLLAR), s[n..])
  {
    hide RedactFrom, Next, At, DollarToken, IsDelimiter;
    var t := Next(p, s);
    var d, n := t.delimiter, |TextOf(t)|;
    NextDollar(p, s);
    DollarTokenShape(s);
    DelimiterEnds(d);
    RedactSteps(p, s);
    assert s[n - 1] == TextOf(t)[n - 1] == d[|d| - 1] == DOLLAR;
  }

  lemma DelimiterEnds(e: Bytes)
    requires IsDelimiter(e)
    ensures |e| >= 2 && e[0] == DOLLAR && e[|e| - 1] == DOLLAR
  {
  }

  lemma StartsAtCopied(p: Previous, s: Bytes, e: Bytes)
    requires s != [] && IsDelimiter(e) && Next(p, s).Other? && At(RedactFrom(p, s), e, 0)
    ensures At(s, e, 0)
  {
    hide RedactFrom, Next, At, IsDelimiter;
    var rest := s[1..];
    RedactSteps(p, s);
    var r := RedactFrom(p, s);
    DelimiterEnds(e);
    ByteOfMatch(r, e, 0, 0);
    AtIsStart(r, e, 0);
    assert s == [DOLLAR] + rest;
    assert r[0..] == [DOLLAR] + RedactFrom(Some(DOLLAR), rest);
    DelimiterAcross(e, rest);
    assert s[0..] == s;
    SameStartIsAt(s, e, 0);
  }

  /** Only copied text and dollar quotes can hold the start of a delimiter. */
  lemma StartsNowhereElse(p: Previous, s: Bytes, e: Bytes, j: nat)
    requires s != [] && IsDelimiter(e) && At(RedactFrom(p, s), e, j) && j < |TextOf(Mask(Next(p, s)))|
    ensures var t := Next(p, s); t.Quoted? || t.DollarQuoted? || t.Other?
  {
    hide RedactFrom, Next, At, Mask, TextOf;
    var t := Next(p, s);
    RedactSteps(p, s);
    ByteOfMatch(RedactFrom(p, s), e, j, j);
    var m := TextOf(Mask(t));
    assert m[j] == DOLLAR;
    if t.Literal? || t.LineComment? || t.BlockComment? || t.Number? {
      MaskHasNoDollar(t);
    }
  }

  /** A delimiter in redacted text that starts inside the first token was there before redaction. */
  lemma StartsInFirst(p: Previous, s: Bytes, e: Bytes, from: nat, j: nat)
    requires s != [] && IsDelimiter(e) && from <= 1 && from <= j
    requires At(RedactFrom(p, s), e, j) && j < |TextOf(Mask(Next(p, s)))|
    ensures Occurs(e, s, from)
  {
    hide RedactFrom, Next, At, Occurs, IsDelimiter;
    StartsNowhereElse(p, s, e, j);
    match Next(p, s)
    case Quoted(_) =>
      StartsInCopy(p, s, e, j);
      OccursAt(e, s, from, j);
    case DollarQuoted(_, _) => StartsInFirstDollar(p, s, e, from, j);
    case Other(_) =>
      StartsAtCopied(p, s, e);
      OccursAt(e, s, from, 0);
  }

  /** Redaction makes no new delimiter. */
  lemma {:induction false} NoNewDelimiter(p: Previous, s: Bytes, e: Bytes, from: nat)
    requires IsDelimiter(e) && from <= 1 && Occurs(e, RedactFrom(p, s), from)
    ensures Occurs(e, s, from)
    decreases |s|
  {
    hide RedactFrom, Next, At, Mask;
    var r := RedactFrom(p, s);
    var j: nat :| from <= j && At(r, e, j);
    ByteOfMatch(r, e, j, j);
    if s == [] {
      Nothing(p);
    } else {
      var t := Next(p, s);
      var rest := RestAfter(t, s);
      var n, k := |TextOf(Mask(t))|, |TextOf(t)|;
      RedactSteps(p, s);
      if j < n {
        StartsInFirst(p, s, e, from, j);
      } else {
        var r' := RedactFrom(LastOf(TextOf(t)), rest);
        assert r[n..] == r';
        AtDrop(r, e, n, j - n);
        OccursAt(e, r', 0, j - n);
        NoNewDelimiter(LastOf(TextOf(t)), rest, e, 0);
        var i: nat :| At(rest, e, i);
        AtDrop(s, e, k, i);
        OccursAt(e, s, from, k + i);
      }
    }
  }

  // ----------------------------------------------------------------- scanning again

  /** The two bytes before a scanning position, in the original and in the redacted text, may only differ
      where no digit follows. */
  predicate Agree(p: Previous, q: Previous, s: Bytes) {
    s != [] && IsDigit(s[0]) ==> p == q
  }

  lemma QuoteEndsSame(s: Bytes, quote: Byte, i: nat, y: Bytes)
    requires i <= |s| && QuoteEnd(s, quote, i) < |s| && y != [] && y[0] != quote
    ensures i <= QuoteEnd(s, quote, i) && QuoteEnd(s[..QuoteEnd(s, quote, i)] + y, quote, i) == QuoteEnd(s, quote, i)
    decreases |s| - i
  {
    var n := QuoteEnd(s, quote, i);
    var x := s[..n] + y;
    assert forall k :: 0 <= k < n ==> x[k] == s[k];
    assert x[n] == y[0];
    if s[i] != quote {
      QuoteEndsSame(s, quote, i + 1, y);
    } else if i + 1 < |s| && s[i + 1] == quote {
      QuoteEndsSame(s, quote, i + 2, y);
    }
  }

  lemma RescanQuoted(p: Previous, q: Previous, s: Bytes)
    requires s != [] && s[0] == QUOTE
    ensures Next(q, RedactFrom(p, s)) == Mask(Next(p, s))
  {
    hide RedactFrom, DollarToken, BlockEnd, LineEnd, NumberEnd, QuoteEnd;
    RedactSteps(p, s);
    var n := QuoteEnd(s, QUOTE, 1);
    var text, rest := s[..n], s[n..];
    var r' := RedactFrom(LastOf(text), rest);
    FirstByte(LastOf(text), rest);
    if n < |s| {
      assert rest[0] == s[n];
      QuoteEndsSame(s, QUOTE, 1, r');
      assert (text + r')[..n] == text;
    } else {
      assert text + r' == s;
    }
  }

  lemma RescanLiteral(p: Previous, q: Previous, s: Bytes)
    requires s != [] && s[0] == APOSTROPHE
    ensures Next(q, RedactFrom(p, s)) == Mask(Next(p, s))
  {
    hide RedactFrom, DollarToken, BlockEnd, LineEnd, NumberEnd;
    RedactSteps(p, s);
    var n := QuoteEnd(s, APOSTROPHE, 1);
    var text, rest := s[..n], s[n..];
    var r' := RedactFrom(LastOf(text), rest);
    FirstByte(LastOf(text), rest);
    var r := MASKED_LITERAL + r';
    assert n < |s| ==> rest[0] == s[n];
    assert r[0] == APOSTROPHE && r[1] == QUESTION && r[2] == APOSTROPHE;
    assert r' != [] ==> r[3] == r'[0];
    assert QuoteEnd(r, APOSTROPHE, 2) == 3;
    assert QuoteEnd(r, APOSTROPHE, 1) == 3;
    assert r[..3] == MASKED_LITERAL;
  }

  lemma MaskedLineIs()
    ensures |MASKED_LINE| == 13 && NEWLINE !in MASKED_LINE && MASKED_LINE[..2] == DASHES && MASKED_LINE[0] == 45
  {
    assert MASKED_LINE[0] == 45 && MASKED_LINE[1] == 45;
  }

  lemma NewlineAt(s: Bytes, n: nat)
    requires n <= |s| && NEWLINE !in s[..n] && (n < |s| ==> s[n] == NEWLINE)
    ensures NewlineIndex(s) == n
  {
    hide NewlineIndex;
    var k := NewlineIndex(s);
    assert k == n;
  }

  lemma RescanLine(p: Previous, q: Previous, s: Bytes)
    requires s != [] && s[0] != QUOTE && s[0] != APOSTROPHE && StartsWith(s, DASHES)
    ensures Next(q, RedactFrom(p, s)) == Mask(Next(p, s))
  {
    hide RedactFrom, DollarToken, BlockEnd, NumberEnd, QuoteEnd, MASKED_LINE, NewlineIndex;
    RedactSteps(p, s);
    MaskedLineIs();
    var k := NewlineIndex(s);
    var n := LineEnd(s);
    var text, rest := s[..n], s[n..];
    var r' := RedactFrom(LastOf(text), rest);
    assert Next(p, s) == LineComment(text);
    if k < |s| {
      assert text[n - 1] == NEWLINE;
      var r := MASKED_LINE + [NEWLINE] + r';
      assert RedactFrom(p, s) == r;
      assert r[..13] == MASKED_LINE && r[13] == NEWLINE && r[..14] == MASKED_LINE + [NEWLINE];
      assert r[..2] == MASKED_LINE[..2] && r[0] == MASKED_LINE[0];
      NewlineAt(r, 13);
    } else {
      assert text == s && rest == [];
      assert s[..k] == s;
      assert text[n - 1] != NEWLINE;
      Nothing(LastOf(text));
      var r := MASKED_LINE;
      assert RedactFrom(p, s) == r;
      assert r[..13] == r;
      NewlineAt(r, 13);
    }
  }

  lemma MaskedBlockIs()
    ensures |MASKED_BLOCK| == 16 && MASKED_BLOCK[..2] == OPEN_COMMENT && Find(MASKED_BLOCK[2..], CLOSE_COMMENT) == Some(12)
    ensures MASKED_BLOCK[0] == 47
  {
    hide Find;
    var b := MASKED_BLOCK[2..];
    assert MASKED_BLOCK[0] == 47 && MASKED_BLOCK[1] == 42;
    assert b[12] == 42 && b[13] == 47;
    assert b[12..14] == [b[12], b[13]];
    forall j: nat | j < 12 ensures !At(b, CLOSE_COMMENT, j) {
      assert b[j] == MASKED_BLOCK[j + 2] && b[j] != 42;
      assert b[j..j + 2][0] == b[j];
    }
    FindIs(b, CLOSE_COMMENT, 12);
  }

  lemma RescanBlock(p: Previous, q: Previous, s: Bytes)
    requires s != [] && s[0] != QUOTE && s[0] != APOSTROPHE && !StartsWith(s, DASHES) && StartsWith(s, OPEN_COMMENT)
    ensures Next(q, RedactFrom(p, s)) == Mask(Next(p, s))
  {
    hide RedactFrom, DollarToken, LineEnd, NumberEnd, QuoteEnd, MASKED_BLOCK, Find;
    RedactSteps(p, s);
    MaskedBlockIs();
    var t := Next(p, s);
    var r' := RedactFrom(LastOf(TextOf(t)), RestAfter(t, s));
    var r := MASKED_BLOCK + r';
    assert RedactFrom(p, s) == r;
    assert r[..2] == MASKED_BLOCK[..2] == OPEN_COMMENT && r[0] == 47;
    assert r[2..] == MASKED_BLOCK[2..] + r';
    FindStable(MASKED_BLOCK[2..], r', CLOSE_COMMENT);
    assert r[..16] == MASKED_BLOCK;
  }

  lemma MaskedDollarScans(d: Bytes, more: Bytes)
    requires IsDelimiter(d)
    ensures DollarToken(d + [QUESTION] + d + more) == Some(DollarQuoted(d, [QUESTION]))
  {
    hide Find, DelimiterEnd, At;
    var r, n := d + [QUESTION] + d + more, |d|;
    assert r[..n] == d;
    DelimiterIs(r, d);
    SecondDelimiter(d, more);
    assert r[n..] == [QUESTION] + d + more;
    assert r[n..n + 1] == [QUESTION];
  }

  lemma RescanDollar(p: Previous, q: Previous, s: Bytes)
    requires s != [] && Next(p, s).DollarQuoted?
    ensures Next(q, RedactFrom(p, s)) == Mask(Next(p, s))
  {
    hide RedactFrom, LineEnd, NumberEnd, QuoteEnd, BlockEnd, DollarToken, IsNumberStart, At;
    NextDollar(p, s);
    DollarTokenShape(s);
    RedactSteps(p, s);
    var t := Next(p, s);
    var d := t.delimiter;
    var r' := RedactFrom(LastOf(TextOf(t)), RestAfter(t, s));
    var r := d + [QUESTION] + d + r';
    assert RedactFrom(p, s) == r;
    MaskedDollarScans(d, r');
    assert r[0] == DOLLAR;
  }

  lemma SecondDelimiter(d: Bytes, more: Bytes)
    requires IsDelimiter(d)
    ensures Find([QUESTION] + d + more, d) == Some(1)
  {
    hide Find, At;
    var s := [QUESTION] + d + more;
    assert s[1..] == d + more;
    SameStartIsAt(s, d, 1);
    NotAtZero(s, d);
    FindIs(s, d, 1);
  }

  lemma NotAtZero(s: Bytes, d: Bytes)
    requires IsDelimiter(d) && s != [] && s[0] != DOLLAR
    ensures !At(s, d, 0)
  {
    assert |d| <= |s| ==> s[0..|d|][0] == s[0];
  }

  lemma RescanNumber(p: Previous, q: Previous, s: Bytes)
    requires s != [] && Next(p, s).Number?
    ensures Next(q, RedactFrom(p, s)) == Mask(Next(p, s))
  {
    hide RedactFrom, LineEnd, NumberEnd, QuoteEnd, BlockEnd, DollarToken;
    RedactSteps(p, s);
    assert RedactFrom(p, s)[0] == QUESTION;
  }

  /** A dollar that opens nothing still opens nothing. */
  lemma RescanLoneDollar(s: Bytes)
    requires s != [] && s[0] == DOLLAR && DollarToken(s).None?
    ensures DollarToken([DOLLAR] + RedactFrom(Some(DOLLAR), s[1..])).None?
  {
    hide RedactFrom, Find, TagLength;
    var rest := s[1..];
    var r := RedactFrom(Some(DOLLAR), rest);
    var out := [DOLLAR] + r;
    TagsAreKept(Some(DOLLAR), rest);
    assert out[1..] == r;
    var k := TagLength(rest);
    if DelimiterEnd(out).Some? {
      assert out[k + 1] == r[k] && s[k + 1] == rest[k];
      var n := k + 2;
      var e := s[..n];
      assert DelimiterEnd(s) == Some(n) == DelimiterEnd(out);
      DelimiterShape(s);
      assert out[..n] == [DOLLAR] + r[..k] + [r[k]] == [DOLLAR] + rest[..k] + [rest[k]] == e;
      // what follows the delimiter, before and after redaction, as the tail of a text starting at its last dollar
      var p := if k == 0 then Some(DOLLAR) else Some(rest[k - 1]);
      var u := rest[k..];
      var w := RedactFrom(p, u);
      assert r[k..] == w;
      assert u[1..] == s[n..] && w[1..] == out[n..];
      NoMatchAfter(p, u, e);
    }
  }

  lemma NoMatchAfter(p: Previous, u: Bytes, e: Bytes)
    requires IsDelimiter(e) && u != [] && RedactFrom(p, u) != [] && Find(u[1..], e).None?
    ensures Find(RedactFrom(p, u)[1..], e).None?
  {
    hide RedactFrom, Find, At, Occurs;
    var w := RedactFrom(p, u);
    match Find(w[1..], e)
    case None =>
    case Some(j) =>
      AtDrop(w, e, 1, j);
      OccursAt(e, w, 1, 1 + j);
      NoNewDelimiter(p, u, e, 1);
      OccursNowhere(e, u);
  }

  lemma OccursNowhere(e: Bytes, u: Bytes)
    requires u != [] && Find(u[1..], e).None?
    ensures !Occurs(e, u, 1)
  {
    hide Find, At;
    forall j: nat | 1 <= j ensures !At(u, e, j) {
      AtDrop(u, e, 1, j - 1);
    }
  }

  lemma RescanOther(p: Previous, q: Previous, s: Bytes)
    requires s != [] && Next(p, s).Other? && Agree(p, q, s)
    ensures Next(q, RedactFrom(p, s)) == Mask(Next(p, s))
  {
    hide RedactFrom, LineEnd, NumberEnd, QuoteEnd, BlockEnd, DollarToken;
    RedactSteps(p, s);
    var b, rest := s[0], s[1..];
    var r' := RedactFrom(Some(b), rest);
    var r := [b] + r';
    assert RedactFrom(p, s) == r;
    FirstByte(Some(b), rest);
    if b == DOLLAR {
      RescanLoneDollar(s);
    } else {
      NoDollarNoToken(r);
    }
    assert rest != [] ==> rest[0] == s[1] && r[1] == r'[0];
    TwoBytes(s, r);
  }

  lemma NoDollarNoToken(s: Bytes)
    requires s == [] || s[0] != DOLLAR
    ensures DollarToken(s).None?
  {
  }

  /** Comments open with two bytes; a copied first byte followed by the same byte or a question mark opens none. */
  lemma TwoBytes(s: Bytes, r: Bytes)
    requires s != [] && r != [] && s[0] == r[0] && (|s| > 1 <==> |r| > 1)
    requires |s| > 1 ==> r[1] == s[1] || r[1] == QUESTION
    ensures !StartsWith(s, DASHES) ==> !StartsWith(r, DASHES)
    ensures !StartsWith(s, OPEN_COMMENT) ==> !StartsWith(r, OPEN_COMMENT)
  {
    if |s| > 1 {
      assert s[..2] == [s[0], s[1]] && r[..2] == [r[0], r[1]];
    }
  }

  /** The token at the start of redacted text is the mask of the token at the start of the original. */
  lemma NextOfRedacted(p: Previous, q: Previous, s: Bytes)
    requires s != [] && Agree(p, q, s)
    ensures RedactFrom(p, s) != [] && Next(q, RedactFrom(p, s)) == Mask(Next(p, s))
  {
    hide RedactFrom, Mask, LineEnd, NumberEnd, QuoteEnd, BlockEnd, DollarToken, IsNumberStart;
    FirstByte(p, s);
    if s[0] == QUOTE {
      RescanQuoted(p, q, s);
    } else if s[0] == APOSTROPHE {
      RescanLiteral(p, q, s);
    } else if StartsWith(s, DASHES) {
      RescanLine(p, q, s);
    } else if StartsWith(s, OPEN_COMMENT) {
      RescanBlock(p, q, s);
    } else if DollarToken(s).Some? {
      RescanDollar(p, q, s);
    } else if IsNumberStart(p, s) {
      RescanNumber(p, q, s);
    } else {
      RescanOther(p, q, s);
    }
  }

  /** A token that is followed by something ends with the byte its mask ends with, except a number. */
  lemma SameLastByte(p: Previous, s: Bytes)
    requires s != [] && !Next(p, s).Number? && |TextOf(Next(p, s))| < |s|
    ensures var t := Next(p, s);
            TextOf(Mask(t)) != [] && LastOf(TextOf(Mask(t))) == LastOf(TextOf(t))
  {
    hide QuoteEnd, BlockEnd, NumberEnd, DollarToken, IsNumberStart, NewlineIndex, MASKED_LINE, MASKED_BLOCK;
    var t := Next(p, s);
    match t
    case LineComment(text) =>
      MaskedLineIs();
      assert text[|text| - 1] == NEWLINE;
    case BlockComment(text) => BlockEndsSlash(s);
    case DollarQuoted(d, content) =>
      assert LastOf(TextOf(t)) == LastOf(d) == LastOf(TextOf(Mask(t)));
    case _ =>
  }

  lemma BlockEndsSlash(s: Bytes)
    requires |s| >= 2 && BlockEnd(s) < |s|
    ensures s[..BlockEnd(s)] != [] && LastOf(s[..BlockEnd(s)]) == Some(47)
    ensures MASKED_BLOCK != [] && LastOf(MASKED_BLOCK) == Some(47)
  {
    hide Find;
    var k := Find(s[2..], CLOSE_COMMENT).value;
    ByteOfMatch(s[2..], CLOSE_COMMENT, k, k + 1);
    assert s[2..][k + 1] == s[k + 3];
  }

  lemma NumberThenNoDigit(p: Previous, s: Bytes)
    requires s != [] && Next(p, s).Number? && |TextOf(Next(p, s))| < |s|
    ensures !IsDigit(s[|TextOf(Next(p, s))|])
  {
    hide QuoteEnd, LineEnd, BlockEnd, DollarToken, IsNumberStart;
  }

  /** Scanning redacted text, from any corresponding position, gives the masks of the original tokens. */
  lemma {:induction false} RescanFrom(p: Previous, q: Previous, s: Bytes)
    requires Agree(p, q, s)
    ensures Tokens(q, RedactFrom(p, s)) == MaskAll(Tokens(p, s))
    decreases |s|
  {
    hide RedactFrom, Next, Mask, TextOf, IsDigit;
    if s == [] {
      Nothing(p);
      assert MaskAll([]) == [];
    } else {
      var t := Next(p, s);
      var rest := RestAfter(t, s);
      var r' := RedactFrom(LastOf(TextOf(t)), rest);
      RedactSteps(p, s);
      NextOfRedacted(p, q, s);
      var m := TextOf(Mask(t));
      MaskKeepsStart(p, s);
      assert RedactFrom(p, s)[|m|..] == r';
      if rest != [] {
        if t.Number? {
          NumberThenNoDigit(p, s);
        } else {
          SameLastByte(p, s);
        }
        assert rest[0] == s[|TextOf(t)|];
      }
      RescanFrom(LastOf(TextOf(t)), LastOf(m), rest);
      assert MaskAll([t] + Tokens(LastOf(TextOf(t)), rest)) == [Mask(t)] + MaskAll(Tokens(LastOf(TextOf(t)), rest));
    }
  }

  /** Redaction joins the masks of the scanned tokens, and scanning the result yields exactly those masks. */
  lemma RescanRedacted(s: Bytes)
    ensures Redact(s) == Concat(MaskAll(Scan(s)))
    ensures Scan(Redact(s)) == MaskAll(Scan(s))
  {
    hide RedactFrom, Tokens, Concat, MaskAll;
    TokensCover(None, s);
    RescanFrom(None, None, s);
  }

  lemma MaskIsFinal(ts: seq<Token>)
    ensures MaskAll(MaskAll(ts)) == MaskAll(ts)
  {
    hide MASKED_LINE;
    MaskedLineIs();
    forall i | 0 <= i < |ts| ensures Mask(Mask(ts[i])) == Mask(ts[i]) {
      MaskTwice(ts[i]);
    }
  }

  lemma MaskTwice(t: Token)
    ensures Mask(Mask(t)) == Mask(t)
  {
    hide MASKED_LINE;
    MaskedLineIs();
    if t.LineComment? {
      var m := Mask(t).text;
      assert m[|m| - 1] == if t.text != [] && t.text[|t.text| - 1] == NEWLINE then NEWLINE else MASKED_LINE[12];
    }
  }

  /** Redacting redacted text changes nothing. */
  lemma RedactIsIdempotent(s: Bytes)
    ensures Redact(Redact(s)) == Redact(s)
  {
    hide Redact, Scan, MaskAll, Concat;
    RescanRedacted(s);
    RescanRedacted(Redact(s));
    MaskIsFinal(Scan(s));
  }

  /** Two texts redact to the same text exactly when their masked tokens are the same: nothing inside a masked
      token shows, and nothing else is lost. */
  lemma RedactHidesExactlyTheMasked(s: Bytes, t: Bytes)
    ensures Redact(s) == Redact(t) <==> MaskAll(Scan(s)) == MaskAll(Scan(t))
  {
    hide Redact, Scan, MaskAll, Concat;
    RescanRedacted(s);
    RescanRedacted(t);
  }
}
