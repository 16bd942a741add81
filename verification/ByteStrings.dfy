/** Byte strings and the searches and number formats the decoders share. */
module ByteStrings {
  type Byte = n: int | 0 <= n < 256
  type Bytes = seq<Byte>

  datatype Option<+T> = None | Some(value: T)

  const CR: Byte := 13
  const LF: Byte := 10
  const CRLF: Bytes := [13, 10]
  const CRLFCRLF: Bytes := [13, 10, 13, 10]

  function Min(a: nat, b: nat): nat {
    if a < b then a else b
  }

  /** Subtraction that stops at zero, Rust's `saturating_sub` on unsigned integers. */
  function Monus(a: nat, b: nat): nat {
    if a < b then 0 else a - b
  }

  /** The bytes of an ASCII literal. */
  function Ascii(s: string): Bytes {
    seq(|s|, i requires 0 <= i < |s| => s[i] as int % 256)
  }

  predicate StartsWith(s: Bytes, prefix: Bytes) {
    prefix <= s
  }

  // ------------------------------------------------------- big-endian numbers

  function Be16(b: Bytes): nat
    requires |b| == 2
  {
    var high: int := b[0];
    high * 256 + b[1]
  }

  function Be32(b: Bytes): (n: nat)
    requires |b| == 4
    ensures n < 0x1_0000_0000
  {
    Be16(b[..2]) * 65536 + Be16(b[2..])
  }

  function Encode32(n: nat): (b: Bytes)
    requires n < 0x1_0000_0000
    ensures |b| == 4 && Be32(b) == n
  {
    var b: Bytes := [n / 0x100_0000, n / 0x1_0000 % 256, n / 0x100 % 256, n % 256];
    assert b[..2] == [b[0], b[1]] && b[2..] == [b[2], b[3]];
    b
  }

  // ---------------------------------------------------------------- searching

  predicate At(s: Bytes, needle: Bytes, k: nat) {
    k + |needle| <= |s| && s[k..k + |needle|] == needle
  }

  /** First position of `needle`, as `windows(n).position(..)` finds it. */
  function Find(s: Bytes, needle: Bytes): (r: Option<nat>)
    ensures r.Some? ==> At(s, needle, r.value) && forall j: nat :: j < r.value ==> !At(s, needle, j)
    ensures r.None? ==> forall j: nat :: !At(s, needle, j)
  {
    if At(s, needle, 0) then Some(0)
    else if s == [] then None
    else
      assert forall j: nat :: j > 0 ==> At(s, needle, j) == At(s[1..], needle, j - 1) by {
        forall j: nat | j > 0 ensures At(s, needle, j) == At(s[1..], needle, j - 1) { AtDrop(s, needle, 1, j - 1); }
      }
      match Find(s[1..], needle)
      case None => None
      case Some(k) => Some(k + 1)
  }

  lemma AtDrop(s: Bytes, needle: Bytes, d: nat, k: nat)
    requires d <= |s|
    ensures At(s, needle, d + k) == At(s[d..], needle, k)
  {
    if d + k + |needle| <= |s| {
      assert s[d..][k..k + |needle|] == s[d + k..d + k + |needle|];
    }
  }

  lemma AtAppend(x: Bytes, y: Bytes, needle: Bytes, k: nat)
    requires k + |needle| <= |x|
    ensures At(x + y, needle, k) == At(x, needle, k)
  {
    assert (x + y)[k..k + |needle|] == x[k..k + |needle|];
  }

  /** A position that matches with no earlier match is the one `Find` returns. */
  lemma FindIs(s: Bytes, needle: Bytes, k: nat)
    requires At(s, needle, k)
    requires forall j: nat :: j < k ==> !At(s, needle, j)
    ensures Find(s, needle) == Some(k)
  {
  }

  /** A match already visible stays the first match whatever follows. */
  lemma FindStable(x: Bytes, y: Bytes, needle: Bytes)
    requires Find(x, needle).Some?
    ensures Find(x + y, needle) == Find(x, needle)
  {
    var k := Find(x, needle).value;
    AtAppend(x, y, needle, k);
    forall j: nat | j < k ensures !At(x + y, needle, j) {
      AtAppend(x, y, needle, j);
    }
    FindIs(x + y, needle, k);
  }
}
