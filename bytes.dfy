/** Go's 8-bit `byte` and the little-endian integer fields of the header.
    A byte is an integer in [0, 256); Go's byte-typed arithmetic, which wraps
    modulo 256, is written out with `Byte`. */
module Bytes {

  type byte = x: int | 0 <= x < 256

  /** Go's conversion `byte(x)` of an `int`, and the result of any byte-typed
      `+`, `-` or `<<`: the low eight bits, which for a two's-complement value
      is the Euclidean remainder modulo 256. */
  function Byte(x: int): byte
  {
    x % 256
  }

  /** The bytes `binary.LittleEndian` writes for `uint16(v)`: the low 16 bits
      of `v`, least significant byte first. */
  function LittleEndian16(v: int): (r: seq<byte>)
    ensures |r| == 2
    ensures r[0] as int + 256 * r[1] as int == v % 65536
  {
    [Byte(v), Byte(v / 256)]
  }

  /** The `uint16` stored little-endian at `pos`. */
  function ReadLittleEndian16(s: seq<byte>, pos: nat): (v: nat)
    requires pos + 2 <= |s|
    ensures v < 65536
  {
    s[pos] as int + 256 * s[pos + 1] as int
  }

  /** The `uint32` stored little-endian at `pos`. */
  function ReadLittleEndian32(s: seq<byte>, pos: nat): (v: nat)
    requires pos + 4 <= |s|
    ensures v < 0x1_0000_0000
  {
    ReadLittleEndian16(s, pos) + 65536 * ReadLittleEndian16(s, pos + 2)
  }

  /** Reading back a written `uint16` gives its low 16 bits. */
  lemma LittleEndian16RoundTrip(v: int, t: seq<byte>, pos: nat)
    requires pos + 2 <= |t| && t[pos..pos + 2] == LittleEndian16(v)
    ensures ReadLittleEndian16(t, pos) == v % 65536
  {
    assert t[pos] == LittleEndian16(v)[0] && t[pos + 1] == LittleEndian16(v)[1];
  }
}
