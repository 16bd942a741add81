/** CRLF-terminated lines: where they end, where a blank line ends them, and how they split back. */
module LineText {
  import opened ByteStrings
  import opened Text

  ghost predicate NoCrlf(line: Bytes) {
    forall j: nat :: !At(line, CRLF, j)
  }

  function JoinLines(lines: seq<Bytes>): Bytes {
    if lines == [] then [] else lines[0] + CRLF + JoinLines(lines[1..])
  }

  ghost predicate GoodLines(lines: seq<Bytes>) {
    forall i :: 0 <= i < |lines| ==> NoCrlf(lines[i]) && lines[i] != []
  }

  lemma CrlfAt(s: Bytes, k: nat)
    ensures At(s, CRLF, k) <==> k + 2 <= |s| && s[k] == CR && s[k + 1] == LF
  {
    if k + 2 <= |s| { assert s[k..k + 2] == [s[k], s[k + 1]]; }
  }

  lemma BlankAt(s: Bytes, k: nat)
    ensures At(s, CRLFCRLF, k) <==> At(s, CRLF, k) && At(s, CRLF, k + 2)
  {
    CrlfAt(s, k);
    CrlfAt(s, k + 2);
    if k + 4 <= |s| { assert s[k..k + 4] == [s[k], s[k + 1], s[k + 2], s[k + 3]]; }
  }

  /** The first CRLF after a line free of CRLF is its own terminator. */
  lemma FindLineEnd(line: Bytes, rest: Bytes)
    requires NoCrlf(line)
    ensures Find(line + CRLF + rest, CRLF) == Some(|line|)
    ensures At(line + CRLF + rest, CRLF, |line|) && forall j: nat :: j < |line| ==> !At(line + CRLF + rest, CRLF, j)
  {
    hide At, Find;
    var s := line + CRLF + rest;
    CrlfAt(s, |line|);
    forall j: nat | j < |line| ensures !At(s, CRLF, j) {
      CrlfAt(s, j);
      CrlfAt(line, j);
    }
    FindIs(s, CRLF, |line|);
  }

  lemma LinesOfOne(line: Bytes)
    requires NoCrlf(line)
    ensures Lines(line) == [line]
  {
  }

  lemma LinesOfFirst(line: Bytes, rest: Bytes)
    requires NoCrlf(line)
    ensures Lines(line + CRLF + rest) == [line] + Lines(rest)
  {
    hide At, Find;
    FindLineEnd(line, rest);
    assert (line + CRLF + rest)[..|line|] == line;
    assert (line + CRLF + rest)[|line| + 2..] == rest;
  }

  /** Splitting at CRLF undoes joining with CRLF. */
  lemma {:induction false} LinesOfJoin(lines: seq<Bytes>)
    requires lines != [] && forall i :: 0 <= i < |lines| ==> NoCrlf(lines[i])
    ensures var text := JoinLines(lines);
            |text| >= 2 && Lines(text[..|text| - 2]) == lines
    decreases lines
  {
    hide Find, NoCrlf, Lines;
    var line, tail := lines[0], JoinLines(lines[1..]);
    if |lines| == 1 {
      assert JoinLines(lines)[..|line|] == line;
      LinesOfOne(line);
    } else {
      LinesOfJoin(lines[1..]);
      var text := JoinLines(lines);
      assert text[..|text| - 2] == line + CRLF + tail[..|tail| - 2];
      LinesOfFirst(line, tail[..|tail| - 2]);
    }
  }

  /** No blank line ends inside a line, nor at its terminator when the next line is not empty. */
  lemma BlankLineIsLater(line: Bytes, after: Bytes, j: nat)
    requires NoCrlf(line) && !At(after, CRLF, 0) && j < |line| + 2
    ensures !At(line + CRLF + after, CRLFCRLF, j)
  {
    hide At, Find;
    var s := line + CRLF + after;
    FindLineEnd(line, after);
    BlankAt(s, j);
    CrlfAt(s, j);
    CrlfAt(s, j + 2);
    CrlfAt(after, 0);
  }

  lemma BlankLineAfter(line: Bytes, after: Bytes, k: nat)
    requires NoCrlf(line) && !At(after, CRLF, 0) && Find(after, CRLFCRLF) == Some(k)
    ensures Find(line + CRLF + after, CRLFCRLF) == Some(|line| + 2 + k)
  {
    hide At, Find, NoCrlf;
    var s := line + CRLF + after;
    var n := |line| + 2;
    assert s[n..] == after;
    AtDrop(s, CRLFCRLF, n, k);
    forall j: nat | j < n + k ensures !At(s, CRLFCRLF, j) {
      if j < n {
        BlankLineIsLater(line, after, j);
      } else {
        AtDrop(s, CRLFCRLF, n, j - n);
      }
    }
    FindIs(s, CRLFCRLF, n + k);
  }

  lemma LineNotBlank(line: Bytes, rest: Bytes)
    requires NoCrlf(line) && line != []
    ensures !At(line + CRLF + rest, CRLF, 0)
  {
    FindLineEnd(line, rest);
  }

  lemma BlankLineHere(line: Bytes, rest: Bytes)
    requires NoCrlf(line)
    ensures Find(line + CRLF + (CRLF + rest), CRLFCRLF) == Some(|line|)
  {
    hide At, Find, NoCrlf;
    var s := line + CRLF + (CRLF + rest);
    FindLineEnd(line, CRLF + rest);
    CrlfAt(s, |line| + 2);
    BlankAt(s, |line|);
    forall j: nat | j < |line| ensures !At(s, CRLFCRLF, j) {
      BlankAt(s, j);
    }
    FindIs(s, CRLFCRLF, |line|);
  }

  /** The blank line after a nonempty list of nonempty lines is the first one. */
  lemma {:induction false} FindBlankLine(lines: seq<Bytes>, rest: Bytes)
    requires lines != [] && GoodLines(lines)
    ensures var text := JoinLines(lines);
            |text| >= 2 && Find(text + CRLF + rest, CRLFCRLF) == Some(|text| - 2)
    decreases lines
  {
    hide At, Find, NoCrlf;
    var line, tail := lines[0], JoinLines(lines[1..]);
    var after := tail + CRLF + rest;
    assert JoinLines(lines) + CRLF + rest == line + CRLF + after;
    if |lines| == 1 {
      assert after == CRLF + rest;
      BlankLineHere(line, rest);
    } else {
      FindBlankLine(lines[1..], rest);
      var next := lines[1];
      var beyond := JoinLines(lines[1..][1..]) + CRLF + rest;
      assert after == next + CRLF + beyond;
      LineNotBlank(next, beyond);
      BlankLineAfter(line, after, |tail| - 2);
    }
  }
}
