/** Which spellings of a host share one cached configuration. */
module LeafHosts {
  import opened ByteStrings
  import opened Streaming
  import opened Text
  import opened TextLemmas
  import opened LeafCache

  /** A host as it may be written: spaces around, brackets at either end, dots after the name itself. */
  datatype Host = Host(before: seq<Bytes>, left: Bytes, core: Bytes, dots: Bytes, right: Bytes, after: seq<Bytes>)

  function Inner(h: Host): Bytes {
    h.left + (h.core + h.dots) + h.right
  }

  function Write(h: Host): Bytes {
    Flatten(h.before) + (Inner(h) + Flatten(h.after))
  }

  const DOT: Byte := '.' as int

  predicate IsBracket(b: Byte) {
    b in {'[' as int, ']' as int}
  }

  predicate Spaces(cs: seq<Bytes>) {
    forall c :: c in cs ==> IsSpace(c)
  }

  predicate Brackets(s: Bytes) {
    forall i :: 0 <= i < |s| ==> IsBracket(s[i])
  }

  predicate Dots(s: Bytes) {
    forall i :: 0 <= i < |s| ==> s[i] == DOT
  }

  predicate Bare(s: Bytes) {
    s != [] ==> !IsBracket(s[0]) && !IsBracket(s[|s| - 1])
  }

  /** Each part is what it is called, and the name is as long as it can be. */
  ghost predicate Proper(h: Host) {
    && Spaces(h.before) && Spaces(h.after) && Brackets(h.left) && Brackets(h.right) && Dots(h.dots)
    && IsTrimmed(Inner(h)) && (Inner(h) == [] ==> h.after == [])
    && Bare(h.core + h.dots) && (h.core != [] ==> h.core[|h.core| - 1] != DOT)
  }

  // ------------------------------------------------------------------------- spaces

  lemma SpaceLeads(c: Bytes, rest: Bytes)
    requires IsSpace(c)
    ensures LeadingSpace(c + rest) == |c| && (c + rest)[|c|..] == rest
  {
    var s := c + rest;
    assert s[..|c|] == c;
    assert s[0] == c[0];
    if |c| >= 2 { assert s[1] == c[1]; }
  }

  lemma SpaceTrails(front: Bytes, c: Bytes)
    requires IsSpace(c)
    ensures TrailingSpace(front + c) == |c| && (front + c)[..|front|] == front
  {
    var s := front + c;
    assert s[|s| - |c|..] == c;
    assert s[|s| - 1..] == [c[|c| - 1]];
    if |c| >= 2 { assert s[|s| - 2..] == [c[|c| - 2], c[|c| - 1]]; }
  }

  lemma {:induction false} SpacesBefore(cs: seq<Bytes>, rest: Bytes)
    requires Spaces(cs) && LeadingSpace(rest) == 0
    ensures TrimStart(Flatten(cs) + rest) == rest
    decreases |cs|
  {
    hide LeadingSpace, IsSpace;
    if cs == [] {
      assert [] + rest == rest;
    } else {
      assert Flatten(cs) + rest == cs[0] + (Flatten(cs[1..]) + rest);
      assert IsSpace(cs[0]);
      SpaceHasBytes(cs[0]);
      SpaceLeads(cs[0], Flatten(cs[1..]) + rest);
      SpacesBefore(cs[1..], rest);
    }
  }

  lemma SpaceHasBytes(c: Bytes)
    requires IsSpace(c)
    ensures 1 <= |c| <= 3
  {
  }

  lemma {:induction false} SpacesAfter(front: Bytes, cs: seq<Bytes>)
    requires Spaces(cs) && TrailingSpace(front) == 0
    ensures TrimEnd(front + Flatten(cs)) == front
    decreases |cs|
  {
    hide TrailingSpace, IsSpace;
    if cs == [] {
      assert front + [] == front;
    } else {
      var most, c := cs[..|cs| - 1], cs[|cs| - 1];
      assert cs == most + [c];
      FlattenGrows(most, c);
      assert front + Flatten(cs) == (front + Flatten(most)) + c;
      assert IsSpace(c);
      SpaceHasBytes(c);
      SpaceTrails(front + Flatten(most), c);
      SpacesAfter(front, most);
    }
  }

  /** Text that does not start with a space still does not when spaces follow. */
  lemma NoSpaceAppears(s: Bytes, cs: seq<Bytes>)
    requires s != [] && LeadingSpace(s) == 0 && Spaces(cs)
    ensures LeadingSpace(s + Flatten(cs)) == 0
  {
    var t := s + Flatten(cs);
    assert t[..1] == s[..1];
    if |s| >= 2 { assert t[..2] == s[..2]; }
    if |s| >= 3 { assert t[..3] == s[..3]; }
    if |s| < 3 && cs != [] {
      assert IsSpace(cs[0]);
      assert t[|s|] == cs[0][0];
    }
  }

  lemma SpacesTrim(h: Host)
    requires Proper(h)
    ensures Trim(Write(h)) == Inner(h)
  {
    hide LeadingSpace, TrailingSpace, Inner, TrimStart, TrimEnd, Bare, Brackets, Dots, IsSpace;
    var x := Inner(h) + Flatten(h.after);
    if Inner(h) == [] {
      assert x == [];
      EmptyIsTrimmed();
    } else {
      NoSpaceAppears(Inner(h), h.after);
    }
    SpacesBefore(h.before, x);
    SpacesAfter(Inner(h), h.after);
  }

  lemma EmptyIsTrimmed()
    ensures LeadingSpace([]) == 0 && TrailingSpace([]) == 0
  {
  }

  // ----------------------------------------------------------------- brackets and dots

  lemma {:induction false} BracketsTrim(left: Bytes, middle: Bytes, right: Bytes)
    requires Brackets(left) && Brackets(right) && Bare(middle)
    ensures TrimBrackets(left + middle + right) == middle
    decreases |left| + |right|
  {
    var s := left + middle + right;
    if left != [] {
      assert s[1..] == left[1..] + middle + right;
      BracketsTrim(left[1..], middle, right);
    } else if middle == [] {
      assert s == right;
      if right != [] { BracketsTrim([], [], right[1..]); assert [] + [] + right[1..] == right[1..]; }
    } else if right != [] {
      assert s[0] == middle[0];
      assert s[..|s| - 1] == [] + middle + right[..|right| - 1];
      BracketsTrim([], middle, right[..|right| - 1]);
    } else {
      assert s == middle;
    }
  }

  lemma {:induction false} DotsTrim(core: Bytes, dots: Bytes)
    requires Dots(dots) && (core != [] ==> core[|core| - 1] != DOT)
    ensures TrimDots(core + dots) == core
    decreases |dots|
  {
    if dots == [] {
      assert core + [] == core;
    } else {
      assert (core + dots)[..|core + dots| - 1] == core + dots[..|dots| - 1];
      DotsTrim(core, dots[..|dots| - 1]);
    }
  }

  /** A properly written host is cached under its name in lower case, and refused when it has none. */
  lemma WrittenHostIsNormalized(h: Host)
    requires Proper(h)
    ensures Normalize(Write(h)) == if h.core == [] then None else Some(LowerAll(h.core))
  {
    hide Trim, TrimBrackets, TrimDots, Bare, Brackets, Dots, Spaces, IsTrimmed, LowerAll;
    SpacesTrim(h);
    BracketsTrim(h.left, h.core + h.dots, h.right);
    DotsTrim(h.core, h.dots);
  }

  // ------------------------------------------------------------- every text is some host

  lemma {:induction false} StartSplits(s: Bytes) returns (cs: seq<Bytes>)
    ensures Spaces(cs) && s == Flatten(cs) + TrimStart(s)
    decreases |s|
  {
    hide IsSpace, LeadingSpace;
    var w := LeadingSpace(s);
    if w == 0 {
      cs := [];
      assert [] + s == s;
    } else {
      var rest := StartSplits(s[w..]);
      cs := [s[..w]] + rest;
      assert s == s[..w] + (Flatten(rest) + TrimStart(s));
      assert s[..w] + (Flatten(rest) + TrimStart(s)) == s[..w] + Flatten(rest) + TrimStart(s);
    }
  }

  lemma {:induction false} EndSplits(s: Bytes) returns (cs: seq<Bytes>)
    ensures Spaces(cs) && s == TrimEnd(s) + Flatten(cs) && (cs == [] <==> TrimEnd(s) == s)
    decreases |s|
  {
    hide IsSpace, TrailingSpace, TrimEnd, Flatten;
    var w := TrailingSpace(s);
    if w == 0 {
      cs := [];
      NoSpaceLess(s);
      assert s + [] == s;
    } else {
      var most, c := s[..|s| - w], s[|s| - w..];
      var rest := EndSplits(most);
      cs := rest + [c];
      FlattenGrows(rest, c);
      OneSpaceLess(s);
      assert s == most + c;
      assert (TrimEnd(most) + Flatten(rest)) + c == TrimEnd(most) + (Flatten(rest) + c);
    }
  }

  lemma NoSpaceLess(s: Bytes)
    requires TrailingSpace(s) == 0
    ensures TrimEnd(s) == s && Flatten([]) == []
  {
  }

  lemma OneSpaceLess(s: Bytes)
    requires TrailingSpace(s) > 0
    ensures var most := s[..|s| - TrailingSpace(s)];
            TrimEnd(s) == TrimEnd(most) && |TrimEnd(most)| <= |most| < |s|
  {
    hide IsSpace, ValidUtf8;
    TrimEndKeeps(s[..|s| - TrailingSpace(s)]);
  }

  lemma {:induction false} BracketsSplit(s: Bytes) returns (left: Bytes, right: Bytes)
    ensures Brackets(left) && Brackets(right) && Bare(TrimBrackets(s)) && s == left + TrimBrackets(s) + right
    decreases |s|
  {
    if s != [] && IsBracket(s[0]) {
      var l, r := BracketsSplit(s[1..]);
      left, right := [s[0]] + l, r;
      assert s == [s[0]] + (l + TrimBrackets(s) + r);
      assert [s[0]] + (l + TrimBrackets(s) + r) == left + TrimBrackets(s) + right;
    } else if s != [] && IsBracket(s[|s| - 1]) {
      var last := s[|s| - 1];
      var l, r := BracketsSplit(s[..|s| - 1]);
      left, right := l, r + [last];
      assert s == (l + TrimBrackets(s) + r) + [last];
      assert (l + TrimBrackets(s) + r) + [last] == left + TrimBrackets(s) + right;
    } else {
      left, right := [], [];
      assert [] + s + [] == s;
    }
  }

  lemma {:induction false} DotsSplit(s: Bytes) returns (dots: Bytes)
    ensures Dots(dots) && s == TrimDots(s) + dots && (TrimDots(s) != [] ==> TrimDots(s)[|TrimDots(s)| - 1] != DOT)
    decreases |s|
  {
    if s != [] && s[|s| - 1] == DOT {
      var d := DotsSplit(s[..|s| - 1]);
      dots := d + [DOT];
      assert s == (TrimDots(s) + d) + [DOT];
      assert (TrimDots(s) + d) + [DOT] == TrimDots(s) + dots;
    } else {
      dots := [];
      assert s + [] == s;
    }
  }

  /** Every text is a properly written host. */
  lemma EveryTextIsAHost(s: Bytes) returns (h: Host)
    ensures Proper(h) && Write(h) == s
  {
    hide TrimStart, TrimEnd, TrimBrackets, TrimDots, Bare, Brackets, Dots, Spaces, IsTrimmed;
    var start := TrimStart(s);
    var inner := Trim(s);
    var before := StartSplits(s);
    var after := EndSplits(start);
    var left, right := BracketsSplit(inner);
    var dots := DotsSplit(TrimBrackets(inner));
    h := Host(before, left, TrimDots(TrimBrackets(inner)), dots, right, after);
    TrimIsTrimmed(s);
    NothingIsLeft(s);
  }

  lemma NothingIsLeft(s: Bytes)
    ensures Trim(s) == [] ==> TrimEnd(TrimStart(s)) == TrimStart(s)
  {
    hide LeadingSpace, TrailingSpace;
    TrimStartKeeps(s);
    if Trim(s) == [] && TrimStart(s) != [] {
      AllSpace(TrimStart(s));
    }
  }

  lemma AllSpace(s: Bytes)
    requires LeadingSpace(s) == 0 && s != []
    ensures TrimEnd(s) != []
  {
    var cs := EndSplits(s);
    if TrimEnd(s) == [] {
      assert [] + Flatten(cs) == Flatten(cs);
      assert cs != [];
      assert IsSpace(cs[0]);
      SpaceLeads(cs[0], Flatten(cs[1..]));
    }
  }

  // --------------------------------------------------------------------- shared entries

  /** Two spellings share an entry exactly when their names differ at most in case. */
  lemma SpellingsShareAnEntry(a: Host, b: Host)
    requires Proper(a) && Proper(b)
    ensures Normalize(Write(a)) == Normalize(Write(b)) <==> EqIgnoreCase(a.core, b.core)
  {
    hide Normalize, Proper, Write;
    WrittenHostIsNormalized(a);
    WrittenHostIsNormalized(b);
    assert |LowerAll(a.core)| == |a.core| && |LowerAll(b.core)| == |b.core|;
  }

  /** A dot after a closing bracket keeps the bracket in the name: such a spelling has an entry of its own. */
  lemma DotAfterBracketKeepsIt(name: Bytes)
    requires name != [] && Bare(name) && name[|name| - 1] != DOT
    ensures Normalize(['[' as int] + name + [']' as int]) == Some(LowerAll(name))
    ensures Normalize(['[' as int] + name + [']' as int, DOT]) == Some(LowerAll(name + [']' as int]))
  {
    hide Normalize, IsSpace, LowerAll;
    var a := Host([], ['[' as int], name, [], [']' as int], []);
    var b := Host([], ['[' as int], name + [']' as int], [DOT], [], []);
    assert Write(a) == ['[' as int] + name + [']' as int];
    assert Write(b) == ['[' as int] + name + [']' as int, DOT];
    NoSpacesAround(Inner(a));
    NoSpacesAround(Inner(b));
    WrittenHostIsNormalized(a);
    WrittenHostIsNormalized(b);
  }

  lemma NoSpacesAround(s: Bytes)
    requires s != [] && s[0] == '[' as int && s[|s| - 1] in {']' as int, DOT}
    ensures IsTrimmed(s)
  {
    hide IsSpace;
    var lead, trail := LeadingSpace(s), TrailingSpace(s);
    if lead > 0 { SpaceBytes(s[..lead]); }
    if trail > 0 { SpaceBytes(s[|s| - trail..]); }
  }

  lemma SpaceBytes(c: Bytes)
    requires IsSpace(c)
    ensures c != [] && c[0] != '[' as int && c[|c| - 1] !in {']' as int, DOT}
  {
  }

  predicate SameCall<C(==)>(x: Call<C>, y: Call<C>) {
    x.issued == y.issued && Normalize(x.host) == Normalize(y.host)
  }

  /** Runs of requests that differ only in how hosts are spelled leave the same cache. */
  lemma {:induction false} SpellingsLeaveTheSameCache<C>(capacity: nat, xs: seq<Call<C>>, ys: seq<Call<C>>)
    requires |xs| == |ys| && forall i :: 0 <= i < |xs| ==> SameCall(xs[i], ys[i])
    ensures Run(capacity, xs) == Run(capacity, ys) && Uses(capacity, xs) == Uses(capacity, ys)
    decreases |xs|
  {
    hide Normalize;
    if xs != [] {
      var n := |xs| - 1;
      SpellingsLeaveTheSameCache(capacity, xs[..n], ys[..n]);
      assert SameCall(xs[n], ys[n]);
    }
  }
}
