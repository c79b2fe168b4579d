/** Bytes as the C code sees them: unsigned octets, NUL-terminated strings and
    multi-byte integers laid out in the memory of a little-endian host. */
module Bytes {

  newtype byte = x: int | 0 <= x < 256

  const TWO_32: int := 0x1_0000_0000
  const TWO_31: int := 0x8000_0000

  /** `n` bytes cleared by memset. */
  function Zeros(n: nat): (z: seq<byte>)
    ensures |z| == n
    ensures forall i :: 0 <= i < n ==> z[i] == 0
  {
    seq(n, _ => 0 as byte)
  }

  /** The string a `std::string` built from a char buffer sees: the bytes before
      the first NUL, or all of them when there is none. */
  function CString(s: seq<byte>): (r: seq<byte>)
    ensures r <= s
    ensures forall i :: 0 <= i < |r| ==> r[i] != 0
    ensures |r| < |s| ==> s[|r|] == 0
  {
    if s == [] || s[0] == 0 then [] else [s[0]] + CString(s[1..])
  }

  /** Zero padding after a name does not change the string it spells. */
  lemma {:induction false} CStringPadded(s: seq<byte>, n: nat)
    requires n > 0
    ensures CString(s + Zeros(n)) == CString(s)
  {
    if s == [] {
      assert (s + Zeros(n))[0] == 0;
    } else if s[0] != 0 {
      assert (s + Zeros(n))[1..] == s[1..] + Zeros(n);
      CStringPadded(s[1..], n);
    }
  }

  /** A string without NUL bytes is its own C string. */
  lemma {:induction false} CStringOfText(s: seq<byte>)
    requires forall i :: 0 <= i < |s| ==> s[i] != 0
    ensures CString(s) == s
  {
    if s != [] {
      CStringOfText(s[1..]);
    }
  }

  /** The value of a 16-bit field sent most significant byte first. */
  function BigEndian16(hi: byte, lo: byte): (v: nat)
    ensures v < 0x1_0000
    ensures v / 256 == hi as int && v % 256 == lo as int
  {
    hi as int * 256 + lo as int
  }

  /** The two bytes of a `uint16_t` in the memory of a little-endian host. */
  function HostBytes16(v: nat): (b: seq<byte>)
    requires v < 0x1_0000
    ensures |b| == 2 && b[0] as int + 256 * b[1] as int == v
  {
    [(v % 256) as byte, (v / 256) as byte]
  }

  predicate IsInt32(x: int) { -TWO_31 <= x < TWO_31 }

  /** The `int32_t` whose little-endian bytes start at `b[at]` (two's complement). */
  function Int32At(b: seq<byte>, at: nat): (x: int)
    requires at + 4 <= |b|
    ensures IsInt32(x)
  {
    var u := b[at] as int + 256 * b[at + 1] as int + 0x1_0000 * b[at + 2] as int + 0x100_0000 * b[at + 3] as int;
    if u >= TWO_31 then u - TWO_32 else u
  }

  /** The four bytes of an `int32_t` in the memory of a little-endian host. */
  function Int32Bytes(x: int): (b: seq<byte>)
    requires IsInt32(x)
    ensures |b| == 4
  {
    var u := if x < 0 then x + TWO_32 else x;
    [(u % 256) as byte, (u / 256 % 256) as byte, (u / 0x1_0000 % 256) as byte, (u / 0x100_0000) as byte]
  }

  lemma Split256(u: nat)
    ensures u == u % 256 + 256 * (u / 256)
  {
  }

  /** Reading back the bytes of an `int32_t` gives the same value. */
  lemma Int32RoundTrip(x: int, pre: seq<byte>, post: seq<byte>)
    requires IsInt32(x)
    ensures Int32At(pre + Int32Bytes(x) + post, |pre|) == x
  {
    var u: nat := if x < 0 then x + TWO_32 else x;
    var b := pre + Int32Bytes(x) + post;
    var k := |pre|;
    assert b[k] as int == u % 256 && b[k + 1] as int == u / 256 % 256;
    assert b[k + 2] as int == u / 0x1_0000 % 256 && b[k + 3] as int == u / 0x100_0000;
    var u1 := u / 256;
    var u2 := u1 / 256;
    var u3 := u2 / 256;
    assert u / 0x1_0000 == u2 && u / 0x100_0000 == u3;
    Split256(u);
    Split256(u1);
    Split256(u2);
    assert u == b[k] as int + 256 * b[k + 1] as int + 0x1_0000 * b[k + 2] as int + 0x100_0000 * b[k + 3] as int;
  }
}
