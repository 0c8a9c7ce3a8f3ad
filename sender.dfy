/** The Python sender's packet builder, `build_iena_packet`, with the wall clock
    passed in as microseconds since midnight and the payload given as float32 bit
    patterns. Every `struct.pack` failure is an error result. */
module Sender {
  import opened Bytes
  import opened Wrappers
  import opened Schema
  import opened Codec

  /** Why `struct.pack` raises: the payload format does not match the values (a
      negative count or a count different from `len(values)`), or a header field
      does not fit its 16-bit `H` slot. */
  datatype PackError = BadPayload | FieldOutOfRange

  /** `us_since_midnight & 0xFFFFFFFF` (Python's `&` on a negative int agrees with
      the Euclidean remainder). */
  function TimeHigh(usSinceMidnight: int): U32 { usSinceMidnight % 0x1_0000_0000 }

  /** `sequence & 0xFFFF`. */
  function SequenceField(sequence: int): U16 { sequence % 0x1_0000 }

  /** `struct.pack('>{n}f', *values)` on float32 bit patterns. */
  function PackWords(vs: seq<U32>): (r: seq<Byte>)
    ensures |r| == 4 * |vs|
  {
    if vs == [] then [] else Put32(vs[0]) + PackWords(vs[1..])
  }

  /** `struct.pack('>HH I HH HH', key, size_words, time_high, 0, 0, seq, num_params)`. */
  function Header(key: U16, sizeWords: U16, timeHigh: U32, seqField: U16, n: U16): (h: seq<Byte>)
    ensures |h| == HEADER_SIZE
  {
    Put16(key) + Put16(sizeWords) + Put32(timeHigh) + Put16(0) + Put16(0) + Put16(seqField) + Put16(n)
  }

  /** `build_iena_packet(key, sequence, values, num_params)`. The payload is packed
      first, so a payload mismatch is reported before a header field overflow. */
  function BuildIenaPacket(key: int, sequence: int, values: seq<U32>, numParams: int,
                           usSinceMidnight: int): (r: Result<seq<Byte>, PackError>)
    ensures r.Success? <==> && 0 <= numParams == |values|
                            && 0 <= key < 0x1_0000
                            && 9 + 2 * numParams < 0x1_0000
    ensures r.Failure? ==> (r.error == BadPayload <==> !(0 <= numParams == |values|))
    ensures r.Success? ==> |r.value| == ExpectedPacketSize(numParams)
  {
    if numParams < 0 || |values| != numParams then Failure(BadPayload)
    else
      var payload := PackWords(values);
      var totalBytes := HEADER_SIZE + |payload| + TRAILER_SIZE;
      var sizeWords := totalBytes / 2;
      if !(0 <= key < 0x1_0000) || !(sizeWords < 0x1_0000) || !(numParams < 0x1_0000) then
        Failure(FieldOutOfRange)
      else
        Success(Header(key, sizeWords, TimeHigh(usSinceMidnight), SequenceField(sequence), numParams)
                + payload + Put16(IENA_TRAILER))
  }

  lemma {:induction false} PackWordsAt(vs: seq<U32>, i: nat)
    requires i < |vs|
    ensures BE32(PackWords(vs), 4 * i) == vs[i]
  {
    var head, tail := Put32(vs[0]), PackWords(vs[1..]);
    if i == 0 {
      BE32Within([], head, tail, 0);
      assert [] + head + tail == PackWords(vs);
    } else {
      PackWordsAt(vs[1..], i - 1);
      BE32Within(head, tail, [], 4 * (i - 1));
      assert head + tail + [] == PackWords(vs);
    }
  }

  lemma HeaderFields(key: U16, sizeWords: U16, timeHigh: U32, seqField: U16, n: U16)
    ensures var h := Header(key, sizeWords, timeHigh, seqField, n);
      && BE16(h, 0) == key && BE16(h, 2) == sizeWords && BE32(h, 4) == timeHigh
      && BE16(h, 8) == 0 && BE16(h, 10) == 0 && BE16(h, 12) == seqField && BE16(h, 14) == n
  {
    var h := Header(key, sizeWords, timeHigh, seqField, n);
    var k, z, w, t := Put16(key), Put16(sizeWords), Put32(timeHigh), Put16(0);
    var q, m := Put16(seqField), Put16(n);
    assert h[0] == k[0] && h[1] == k[1];
    assert h[2] == z[0] && h[3] == z[1];
    assert h[4] == w[0] && h[5] == w[1] && h[6] == w[2] && h[7] == w[3];
    assert h[8] == t[0] && h[9] == t[1] && h[10] == t[0] && h[11] == t[1];
    assert h[12] == q[0] && h[13] == q[1];
    assert h[14] == m[0] && h[15] == m[1];
  }

  /** The layout of a built packet: header fields at offsets 0..15 (size = length/2 =
      9 + 2N, time_low and status zero, sequence wrapped to 16 bits), slot i at
      16 + 4i, and the last two bytes 0xDE 0xAD. */
  lemma PacketLayout(key: int, sequence: int, values: seq<U32>, numParams: int, us: int)
    requires BuildIenaPacket(key, sequence, values, numParams, us).Success?
    ensures var p := BuildIenaPacket(key, sequence, values, numParams, us).value;
      && BE16(p, 0) == key
      && BE16(p, 2) == |p| / 2 == 9 + 2 * numParams
      && BE32(p, 4) == TimeHigh(us)
      && BE16(p, 8) == 0 && BE16(p, 10) == 0
      && BE16(p, 12) == SequenceField(sequence)
      && BE16(p, 14) == numParams
      && (forall i :: 0 <= i < numParams ==> BE32(p, SlotOffset(i)) == values[i])
      && p[|p| - 2..] == [0xDE, 0xAD]
  {
    var p := BuildIenaPacket(key, sequence, values, numParams, us).value;
    var n: nat := numParams;
    var h := Header(key, 9 + 2 * n, TimeHigh(us), SequenceField(sequence), n);
    var payload := PackWords(values);
    var t := Put16(IENA_TRAILER);
    LayoutPartition(n);
    assert (HEADER_SIZE + |payload| + TRAILER_SIZE) / 2 == 9 + 2 * n;
    assert p == h + payload + t;
    HeaderFields(key, 9 + 2 * n, TimeHigh(us), SequenceField(sequence), n);
    HeaderPrefix(h, payload + t);
    assert h + payload + t == h + (payload + t);
    SlotsInPacket(h, values, t);
    assert p[|p| - 2..] == t;
  }

  /** The header's fields read the same at the front of the whole packet. */
  lemma HeaderPrefix(h: seq<Byte>, rest: seq<Byte>)
    requires |h| == HEADER_SIZE
    ensures forall off: nat :: off + 2 <= HEADER_SIZE ==> BE16(h + rest, off) == BE16(h, off)
    ensures BE32(h + rest, 4) == BE32(h, 4)
  {
    assert forall i :: 0 <= i < HEADER_SIZE ==> (h + rest)[i] == h[i];
  }

  /** Slot i of the payload reads back at 16 + 4i of the packet. */
  lemma SlotsInPacket(h: seq<Byte>, values: seq<U32>, t: seq<Byte>)
    requires |h| == HEADER_SIZE
    ensures forall i :: 0 <= i < |values| ==> BE32(h + PackWords(values) + t, SlotOffset(i)) == values[i]
  {
    forall i | 0 <= i < |values| ensures BE32(h + PackWords(values) + t, SlotOffset(i)) == values[i] {
      PackWordsAt(values, i);
      BE32Within(h, PackWords(values), t, 4 * i);
    }
  }

  /** Round trip through the Python decoder: a packet built for N parameters decodes
      with N parameters to the key, the size 9 + 2N, the masked clock, status 0, the
      wrapped sequence number, N, and exactly the words that were packed. */
  lemma RoundTripPy(key: int, sequence: int, values: seq<U32>, numParams: int, us: int)
    requires BuildIenaPacket(key, sequence, values, numParams, us).Success?
    ensures ParsePy(BuildIenaPacket(key, sequence, values, numParams, us).value, numParams)
         == Some(IenaPacket(key, 9 + 2 * numParams, TimeHigh(us), 0,
                            SequenceField(sequence), numParams, values))
  {
    var p := BuildIenaPacket(key, sequence, values, numParams, us).value;
    PacketLayout(key, sequence, values, numParams, us);
    TrailerAtEnd(p, numParams);
    assert Slots(p, numParams) == values;
  }

  lemma TrailerAtEnd(p: seq<Byte>, n: nat)
    requires |p| == ExpectedPacketSize(n) && p[|p| - 2..] == [0xDE, 0xAD]
    ensures BE16(p, TrailerOffset(n)) == IENA_TRAILER
  {
    assert p[TrailerOffset(n)] == p[|p| - 2..][0];
    assert p[TrailerOffset(n) + 1] == p[|p| - 2..][1];
  }

  /** Round trip through the Java decoder: whatever stale bytes follow the datagram in
      the receive buffer, `parseIenaPacket` returns exactly the packed words and
      `parseIenaKey` returns the key. */
  lemma RoundTripJava(key: int, sequence: int, values: seq<U32>, numParams: int, us: int,
                      buf: seq<Byte>, length: nat)
    requires BuildIenaPacket(key, sequence, values, numParams, us).Success?
    requires length <= |buf| && buf[..length] == BuildIenaPacket(key, sequence, values, numParams, us).value
    ensures ParseJava(buf, length, numParams) == Some(values)
    ensures ParseIenaKey(buf, length) == key
  {
    RoundTripPy(key, sequence, values, numParams, us);
    ParsersAgree(buf, length, numParams);
  }

  /** The sequence field is the sender's unbounded counter modulo 65536: adding 65536
      to the counter changes nothing, and consecutive counters give consecutive fields
      with 65535 followed by 0. */
  lemma SequenceWraps(key: int, sequence: int, values: seq<U32>, numParams: int, us: int)
    ensures BuildIenaPacket(key, sequence + 0x1_0000, values, numParams, us)
         == BuildIenaPacket(key, sequence, values, numParams, us)
    ensures SequenceField(sequence + 1) == (SequenceField(sequence) + 1) % 0x1_0000
    ensures SequenceField(sequence) == 0xFFFF ==> SequenceField(sequence + 1) == 0
  {
    var q, r := sequence / 0x1_0000, sequence % 0x1_0000;
    assert sequence == q * 0x1_0000 + r;
    assert sequence + 0x1_0000 == (q + 1) * 0x1_0000 + r;
    ModUnique(sequence + 0x1_0000, q + 1, r);
    assert SequenceField(sequence + 0x1_0000) == SequenceField(sequence);
    if r < 0xFFFF {
      ModUnique(sequence + 1, q, r + 1);
    } else {
      ModUnique(sequence + 1, q + 1, 0);
    }
  }

  lemma ModUnique(x: int, q: int, r: int)
    requires 0 <= r < 0x1_0000 && x == q * 0x1_0000 + r
    ensures x % 0x1_0000 == r
  {
  }

  /** A receiver whose schema has more parameters than the sender's drops every packet. */
  lemma LongerSchemaRejects(key: int, sequence: int, values: seq<U32>, numParams: int, us: int, m: nat)
    requires BuildIenaPacket(key, sequence, values, numParams, us).Success?
    requires numParams < m
    ensures ParsePy(BuildIenaPacket(key, sequence, values, numParams, us).value, m) == None
  {
  }
}
