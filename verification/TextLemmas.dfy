/** Facts about UTF-8 text used by the chunk and header theorems. */
module TextLemmas {
  import opened ByteStrings
  import opened Text

  predicate IsAscii(s: Bytes) {
    forall i :: 0 <= i < |s| ==> s[i] < 0x80
  }

  lemma WidthOfPrefix(a: Bytes, b: Bytes)
    requires CharWidth(a) > 0
    ensures CharWidth(a + b) == CharWidth(a)
  {
  }

  lemma {:induction false} Utf8Append(a: Bytes, b: Bytes)
    requires ValidUtf8(a) && ValidUtf8(b)
    ensures ValidUtf8(a + b)
    decreases |a|
  {
    if a == [] {
      assert a + b == b;
    } else {
      WidthOfPrefix(a, b);
      var w := CharWidth(a);
      assert (a + b)[w..] == a[w..] + b;
      Utf8Append(a[w..], b);
    }
  }

  lemma {:induction false} AsciiIsUtf8(s: Bytes)
    requires IsAscii(s)
    ensures ValidUtf8(s)
    decreases |s|
  {
    if s != [] {
      assert CharWidth(s) == 1;
      AsciiIsUtf8(s[1..]);
    }
  }

  lemma DropAscii(s: Bytes)
    requires ValidUtf8(s) && s != [] && s[0] < 0x80
    ensures ValidUtf8(s[1..])
  {
  }

  lemma WidthSkipsContinuations(s: Bytes, k: nat)
    requires 0 < k < |s| && CharWidth(s) > 0 && !Continuation(s[k])
    ensures CharWidth(s) <= k && CharWidth(s[..k]) == CharWidth(s)
  {
  }

  lemma CutInTwo(s: Bytes, w: nat, k: nat)
    requires w <= k <= |s|
    ensures s[w..][..k - w] == s[..k][w..] && s[w..][k - w..] == s[k..]
    ensures k < |s| ==> s[w..][k - w] == s[k]
  {
  }

  /** Valid text may be cut before any byte that is not a continuation byte. */
  lemma {:induction false} Utf8Cut(s: Bytes, k: nat)
    requires ValidUtf8(s) && k <= |s|
    requires k < |s| ==> !Continuation(s[k])
    ensures ValidUtf8(s[..k]) && ValidUtf8(s[k..])
    decreases |s|
  {
    if k == |s| {
      assert s[..k] == s && s[k..] == [];
    } else if k == 0 {
      assert s[..0] == [] && s[0..] == s;
    } else {
      hide CharWidth, Continuation;
      var w := CharWidth(s);
      WidthSkipsContinuations(s, k);
      CutInTwo(s, w, k);
      Utf8Cut(s[w..], k - w);
    }
  }

  /** The split at the first separator is the only one whose left part avoids it. */
  lemma SplitOnceIs(before: Bytes, separator: Byte, after: Bytes)
    requires separator !in before
    ensures SplitOnce(before + [separator] + after, separator) == Some((before, after))
  {
    hide SplitOnce;
    var s := before + [separator] + after;
    assert s[|before|] == separator;
    var r := SplitOnce(s, separator);
    assert r.Some?;
    var (b, a) := r.value;
    assert s[|b|] == (b + [separator] + a)[|b|] == separator;
    assert b == s[..|b|] == before;
    assert a == s[|b| + 1..] == after;
  }

  // ------------------------------------------------------------------ trimming

  lemma SpaceIsUtf8(c: Bytes)
    requires IsSpace(c)
    ensures CharWidth(c) == |c| && ValidUtf8(c) && !Continuation(c[0])
  {
    assert c[|c|..] == [];
  }

  lemma DropSpace(s: Bytes)
    requires LeadingSpace(s) > 0
    ensures ValidUtf8(s) ==> ValidUtf8(s[LeadingSpace(s)..])
  {
    hide IsSpace;
    var w := LeadingSpace(s);
    SpaceIsUtf8(s[..w]);
    WidthOfPrefix(s[..w], s[w..]);
    assert s[..w] + s[w..] == s;
  }

  lemma {:induction false} TrimStartKeeps(s: Bytes)
    ensures LeadingSpace(TrimStart(s)) == 0
    ensures |TrimStart(s)| <= |s| && TrimStart(s) == s[|s| - |TrimStart(s)|..]
    ensures ValidUtf8(s) ==> ValidUtf8(TrimStart(s))
    decreases |s|
  {
    hide LeadingSpace, ValidUtf8;
    var w := LeadingSpace(s);
    if w > 0 {
      TrimStartKeeps(s[w..]);
      DropSpace(s);
    }
  }

  lemma {:induction false} TrimEndKeeps(s: Bytes)
    ensures TrailingSpace(TrimEnd(s)) == 0
    ensures TrimEnd(s) <= s
    ensures ValidUtf8(s) ==> ValidUtf8(TrimEnd(s))
    decreases |s|
  {
    var w := TrailingSpace(s);
    if w > 0 {
      TrimEndKeeps(s[..|s| - w]);
      SpaceIsUtf8(s[|s| - w..]);
      if ValidUtf8(s) {
        Utf8Cut(s, |s| - w);
      }
    }
  }

  /** A prefix ending where no whitespace starts keeps its leading character. */
  lemma LeadingSpaceOfPrefix(s: Bytes, k: nat)
    requires k <= |s| && LeadingSpace(s) == 0
    ensures LeadingSpace(s[..k]) == 0
  {
    if k >= 1 { assert s[..k][..1] == s[..1]; }
    if k >= 2 { assert s[..k][..2] == s[..2]; }
    if k >= 3 { assert s[..k][..3] == s[..3]; }
  }

  /** Trimmed text: a contiguous piece without surrounding whitespace, which trimming keeps. */
  ghost predicate IsTrimmed(s: Bytes) {
    LeadingSpace(s) == 0 && TrailingSpace(s) == 0
  }

  lemma TrimIsTrimmed(s: Bytes)
    ensures IsTrimmed(Trim(s))
    ensures var i := |s| - |TrimStart(s)|;
            0 <= i && i + |Trim(s)| <= |s| && Trim(s) == s[i..i + |Trim(s)|]
    ensures ValidUtf8(s) ==> ValidUtf8(Trim(s))
  {
    hide LeadingSpace, TrailingSpace, ValidUtf8;
    TrimStartKeeps(s);
    TrimEndKeeps(TrimStart(s));
    LeadingSpaceOfPrefix(TrimStart(s), |Trim(s)|);
    assert TrimStart(s)[..|Trim(s)|] == Trim(s);
  }

  lemma TrimmedStays(s: Bytes)
    requires IsTrimmed(s)
    ensures Trim(s) == s
  {
  }

  lemma TrailingAfterSpace(s: Bytes)
    requires IsTrimmed(s)
    ensures TrimStart([32] + s) == s
  {
    var t: Bytes := [32] + s;
    assert t[..1] == [32];
    assert t[1..] == s;
  }

  /** A space in front of trimmed text disappears again. */
  lemma TrimAfterSpace(s: Bytes)
    requires IsTrimmed(s)
    ensures Trim([32] + s) == s
  {
    TrailingAfterSpace(s);
  }

  // ------------------------------------------------------------------- joining

  /** The same, from the last text back. */
  function Listed(texts: seq<Bytes>, separator: Bytes): Bytes {
    if texts == [] then []
    else
      var last := |texts| - 1;
      (if last == 0 then [] else Listed(texts[..last], separator) + separator) + texts[last]
  }

  lemma {:induction false} JoinSplits(texts: seq<Bytes>, separator: Bytes)
    requires |texts| > 1
    ensures JoinTexts(texts, separator) == JoinTexts(texts[..|texts| - 1], separator) + separator + texts[|texts| - 1]
    decreases |texts|
  {
    if |texts| > 2 {
      JoinSplits(texts[1..], separator);
      assert texts[1..][..|texts| - 2] == texts[..|texts| - 1][1..];
    } else {
      assert texts[1..] == [texts[1]] && texts[..1] == [texts[0]];
    }
  }

  lemma {:induction false} ListedIsJoined(texts: seq<Bytes>, separator: Bytes)
    ensures JoinTexts(texts, separator) == Listed(texts, separator)
    decreases |texts|
  {
    if |texts| > 1 {
      JoinSplits(texts, separator);
      ListedIsJoined(texts[..|texts| - 1], separator);
    } else if |texts| == 1 {
      assert [] + texts[0] == texts[0];
    }
  }
}
