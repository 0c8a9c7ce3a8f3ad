/** Octets and big-endian fixed-width fields, as the IENA wire format uses them. */
module Bytes {

  /** One octet, read unsigned (Java's `b & 0xFF`, Python's `bytes` items). */
  type Byte = b: int | 0 <= b < 0x100

  /** A 16-bit unsigned header field. */
  type U16 = x: int | 0 <= x < 0x1_0000

  /** A 32-bit unsigned field; also the raw bit pattern of one float32 payload slot. */
  type U32 = x: int | 0 <= x < 0x1_0000_0000

  /** The big-endian 16-bit word at `off` (`ByteBuffer.getShort() & 0xFFFF`, struct `>H`). */
  function BE16(s: seq<Byte>, off: nat): U16
    requires off + 2 <= |s|
  {
    (s[off] as int) * 0x100 + s[off + 1]
  }

  /** The big-endian 32-bit word at `off` (`ByteBuffer.getFloat` bits, struct `>I` / `>f` bits). */
  function BE32(s: seq<Byte>, off: nat): U32
    requires off + 4 <= |s|
  {
    (((s[off] as int) * 0x100 + s[off + 1]) * 0x100 + s[off + 2]) * 0x100 + s[off + 3]
  }

  /** struct.pack('>H', v). */
  function Put16(v: U16): (r: seq<Byte>)
    ensures |r| == 2 && BE16(r, 0) == v
  {
    [v / 0x100, v % 0x100]
  }

  /** struct.pack('>I', v), and the bytes of a float32 whose bit pattern is v. */
  function Put32(v: U32): (r: seq<Byte>)
    ensures |r| == 4 && BE32(r, 0) == v
  {
    var hi := v / 0x1_0000;
    var lo := v % 0x1_0000;
    assert hi * 0x1_0000 + lo == v;
    [hi / 0x100, hi % 0x100, lo / 0x100, lo % 0x100]
  }

  /** Reading a word back from where it was written, inside a larger buffer. */
  lemma BE32Within(a: seq<Byte>, b: seq<Byte>, c: seq<Byte>, off: nat)
    requires off + 4 <= |b|
    ensures BE32(a + b + c, |a| + off) == BE32(b, off)
  {
    assert (a + b + c)[|a| + off] == b[off];
    assert (a + b + c)[|a| + off + 1] == b[off + 1];
    assert (a + b + c)[|a| + off + 2] == b[off + 2];
    assert (a + b + c)[|a| + off + 3] == b[off + 3];
  }

  /** A big-endian word depends only on the bytes it covers. */
  lemma BE32Local(s: seq<Byte>, t: seq<Byte>, off: nat)
    requires off + 4 <= |s| && off + 4 <= |t|
    requires s[off..off + 4] == t[off..off + 4]
    ensures BE32(s, off) == BE32(t, off)
  {
    assert s[off] == s[off..off + 4][0] == t[off..off + 4][0] == t[off];
    assert s[off + 1] == s[off..off + 4][1] == t[off..off + 4][1] == t[off + 1];
    assert s[off + 2] == s[off..off + 4][2] == t[off..off + 4][2] == t[off + 2];
    assert s[off + 3] == s[off..off + 4][3] == t[off..off + 4][3] == t[off + 3];
  }
}
