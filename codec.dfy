/** Decoding of the IENA wire layout: a 16-byte big-endian header (key, size,
    time_high, time_low, status, sequence, n2), N four-byte float32 slots, and the
    16-bit trailer 0xDEAD. Java: `parseIenaPacket`, `parseIenaKey`; Python:
    `parse_iena_packet`. Payload slots stay raw 32-bit patterns. */
module Codec {
  import opened Bytes
  import opened Wrappers
  import opened Schema

  const IENA_TRAILER: U16 := 0xDEAD

  /** Offset of payload slot `i`. */
  function SlotOffset(i: nat): nat { HEADER_SIZE + 4 * i }

  /** Offset of the trailer for an `n`-slot schema. */
  function TrailerOffset(n: nat): nat { HEADER_SIZE + PayloadSize(n) }

  /** The `n` payload words, slot i read big-endian at offset 16 + 4i. */
  function Slots(data: seq<Byte>, n: nat): (r: seq<U32>)
    requires TrailerOffset(n) <= |data|
  {
    seq(n, i requires 0 <= i < n => BE32(data, SlotOffset(i)))
  }

  /** Whether the first `length` bytes form a packet of the `n`-slot schema:
      long enough, and 0xDEAD right after the payload. */
  predicate WellFormed(data: seq<Byte>, length: nat, n: nat)
    requires length <= |data|
  {
    ExpectedPacketSize(n) <= length && BE16(data, TrailerOffset(n)) == IENA_TRAILER
  }

  /** What `parseIenaPacket(data, length)` returns; None stands for null. */
  function ParseJava(data: seq<Byte>, length: nat, n: nat): Option<seq<U32>>
    requires length <= |data|
  {
    if WellFormed(data, length, n) then Some(Slots(data, n)) else None
  }

  /** `parseIenaPacket`: the length check, then a cursor that starts after the header
      and reads one float per slot, then the trailer check. Java's buffer is wrapped
      with limit `length`, and the receive loop never passes a length beyond it. */
  method ParseIenaPacket(data: seq<Byte>, length: nat, numParams: nat) returns (r: Option<seq<U32>>)
    requires length <= |data|
    ensures r.None? <==> (length < ExpectedPacketSize(numParams)
                          || BE16(data, TrailerOffset(numParams)) != IENA_TRAILER)
    ensures r.Some? ==> |r.value| == numParams
    ensures r.Some? ==> forall i :: 0 <= i < numParams ==> r.value[i] == BE32(data, SlotOffset(i))
    ensures r == ParseJava(data, length, numParams)
  {
    if length < ExpectedPacketSize(numParams) {
      return None;
    }
    var pos := HEADER_SIZE;
    var vals := new U32[numParams];
    var i := 0;
    while i < numParams
      invariant 0 <= i <= numParams
      invariant pos == SlotOffset(i)
      invariant forall j :: 0 <= j < i ==> vals[j] == BE32(data, SlotOffset(j))
    {
      vals[i] := BE32(data, pos);
      pos := pos + 4;
      i := i + 1;
    }
    var trailer := BE16(data, pos);
    if trailer != IENA_TRAILER {
      return None;
    }
    assert vals[..] == Slots(data, numParams);
    r := Some(vals[..]);
  }

  /** `parseIenaKey`: the big-endian key in the first two bytes, or -1 for a datagram
      shorter than two bytes. */
  function ParseIenaKey(data: seq<Byte>, length: nat): (k: int)
    requires length <= |data|
    ensures k == -1 <==> length < 2
    ensures -1 <= k < 0x1_0000
    ensures k >= 0 ==> k == BE16(data, 0)
  {
    if length < 2 then -1 else BE16(data, 0)
  }

  /** Only the bytes at offsets 16 .. 16+4N+2 decide the outcome: header contents and
      anything after the trailer (transport padding) are ignored. */
  lemma ParseJavaIgnoresHeaderAndPadding(a: seq<Byte>, la: nat, b: seq<Byte>, lb: nat, n: nat)
    requires la <= |a| && lb <= |b|
    requires ExpectedPacketSize(n) <= la && ExpectedPacketSize(n) <= lb
    requires a[HEADER_SIZE..ExpectedPacketSize(n)] == b[HEADER_SIZE..ExpectedPacketSize(n)]
    ensures ParseJava(a, la, n) == ParseJava(b, lb, n)
  {
    var e := ExpectedPacketSize(n);
    forall j | HEADER_SIZE <= j < e ensures a[j] == b[j] {
      assert a[j] == a[HEADER_SIZE..e][j - HEADER_SIZE];
      assert b[j] == b[HEADER_SIZE..e][j - HEADER_SIZE];
    }
    assert BE16(a, TrailerOffset(n)) == BE16(b, TrailerOffset(n));
    forall i | 0 <= i < n ensures Slots(a, n)[i] == Slots(b, n)[i] {
      var off := SlotOffset(i);
      assert a[off..off + 4] == b[off..off + 4];
      BE32Local(a, b, off);
    }
    assert Slots(a, n) == Slots(b, n);
  }

  /** Bytes of the receive buffer beyond `length` (left over from earlier, longer
      datagrams) never influence the key or the decoded packet. */
  lemma JavaReadsOnlyDatagram(data: seq<Byte>, length: nat, n: nat)
    requires length <= |data|
    ensures ParseJava(data, length, n) == ParseJava(data[..length], length, n)
    ensures ParseIenaKey(data, length) == ParseIenaKey(data[..length], length)
  {
    var d := data[..length];
    if ExpectedPacketSize(n) <= length {
      assert BE16(data, TrailerOffset(n)) == BE16(d, TrailerOffset(n));
      assert Slots(data, n) == Slots(d, n);
    }
    if 2 <= length {
      assert BE16(data, 0) == BE16(d, 0);
    }
  }

  /** The dictionary `parse_iena_packet` returns: time_low is unpacked but not returned,
      and `time_us` is time_high. */
  datatype IenaPacket = IenaPacket(key: U16, size: U16, timeUs: U32, status: U16,
                                   sequence: U16, nParams: U16, values: seq<U32>)

  /** `parse_iena_packet(data, num_params)`. */
  function ParsePy(data: seq<Byte>, numParams: nat): (r: Option<IenaPacket>)
    ensures r.None? <==> |data| < ExpectedPacketSize(numParams) || BE16(data, TrailerOffset(numParams)) != IENA_TRAILER
    ensures r.Some? ==>
              && r.value.key == BE16(data, 0) && r.value.size == BE16(data, 2)
              && r.value.timeUs == BE32(data, 4) && r.value.status == BE16(data, 10)
              && r.value.sequence == BE16(data, 12) && r.value.nParams == BE16(data, 14)
              && |r.value.values| == numParams
              && forall i :: 0 <= i < numParams ==> r.value.values[i] == BE32(data, SlotOffset(i))
  {
    if |data| < ExpectedPacketSize(numParams) then None
    else if BE16(data, TrailerOffset(numParams)) != IENA_TRAILER then None
    else Some(IenaPacket(BE16(data, 0), BE16(data, 2), BE32(data, 4), BE16(data, 10),
                         BE16(data, 12), BE16(data, 14), Slots(data, numParams)))
  }

  /** Java and Python agree on every datagram: Python accepts exactly the packets Java
      accepts, decodes the same slots, and its `key` is Java's `parseIenaKey`. */
  lemma ParsersAgree(data: seq<Byte>, length: nat, n: nat)
    requires length <= |data|
    ensures ParsePy(data[..length], n).Some? <==> ParseJava(data, length, n).Some?
    ensures ParsePy(data[..length], n).Some? ==>
              && ParsePy(data[..length], n).value.values == ParseJava(data, length, n).value
              && ParsePy(data[..length], n).value.key == ParseIenaKey(data, length)
              && |ParsePy(data[..length], n).value.values| == n
  {
    JavaReadsOnlyDatagram(data, length, n);
  }

  /** The time_low field (bytes 8-9) never shows in Python's result. */
  lemma ParsePyIgnoresTimeLow(a: seq<Byte>, b: seq<Byte>, n: nat)
    requires |a| == |b| && 10 <= |a|
    requires a[..8] == b[..8] && a[10..] == b[10..]
    ensures ParsePy(a, n) == ParsePy(b, n)
  {
    forall j | 0 <= j < |a| && (j < 8 || 10 <= j) ensures a[j] == b[j] {
      if j < 8 {
        assert a[j] == a[..8][j] && b[j] == b[..8][j];
      } else {
        assert a[j] == a[10..][j - 10] && b[j] == b[10..][j - 10];
      }
    }
    if ExpectedPacketSize(n) <= |a| {
      assert Slots(a, n) == Slots(b, n);
    }
  }
}
