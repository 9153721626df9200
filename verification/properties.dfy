/**
  Properties that relate several operations of the stack: what a master
  writes, a slave with the matching identifier reads back; a header and a
  response together form a full frame; a stream read returns what a stream
  write sent; and frames with a foreign identifier or a corrupted checksum
  are rejected.

  On the receiving side the first byte the bus delivers is the one the
  poll consumes (the break, seen by the UART as a byte); it is `lead`
  below.
 */
module Properties {
  import opened Bytes
  import opened Checksums
  import opened Trace
  import opened Power
  import opened Frames

  /** A full frame written by `write` with identifier `ident` is read back
      by a stack bound to `ident`: status 1, the payload in the buffer, and
      the bus consumed up to the end of the frame. */
  lemma WriteThenRead(master: Stack, slave: Stack, ident: byte, payload: seq<byte>, n: byte,
                      lead: byte, tail: seq<byte>, buf: seq<byte>)
    requires n <= |payload| && n <= |buf|
    requires slave.identByte == Some(ident)
    ensures Read(slave, [lead] + Wire(Write(master, ident, payload, n).trace) + tail, buf, n)
         == Received(1, payload[..n] + buf[n..], tail)
  {
    ValidFrameAccepted(slave, lead, ident, payload[..n], tail, buf);
  }

  /** A window built as sync, the stack's own identifier, a payload and the
      checksum of that payload always validates, whatever the sync byte. */
  lemma ValidFrameAccepted(slave: Stack, lead: byte, ident: byte, payload: seq<byte>,
                           tail: seq<byte>, buf: seq<byte>)
    requires slave.identByte == Some(ident)
    requires |payload| <= |buf| && |payload| + 3 < UIntModulus
    ensures Read(slave, [lead] + ([0x55, ident] + payload + [Checksum(payload)]) + tail, buf, |payload|)
         == Received(1, payload + buf[|payload|..], tail)
  {
    var n := |payload|;
    var bus := [lead] + ([0x55, ident] + payload + [Checksum(payload)]) + tail;
    assert bus[2] == ident;
    assert bus[3..n + 3] == payload;
    assert bus[n + 3] == Checksum(payload);
    assert bus[n + 4..] == tail;
    var r := Read(slave, bus, buf, n);
    assert r.data == payload + buf[n..];
  }

  /** A header from `writeRequest` followed by a response from
      `writeResponse` puts on the wire exactly the bytes of the full frame
      `write` sends. */
  lemma RequestThenResponseIsFrame(st: Stack, st': Stack, ident: byte, payload: seq<byte>, n: byte)
    requires n <= |payload|
    ensures Wire(WriteRequest(st, ident).trace) + Wire(WriteResponse(st', payload, n).trace)
         == Wire(Write(st, ident, payload, n).trace)
  {
  }

  /** What `writeStream` sends, `readStream` returns verbatim. */
  lemma StreamRoundTrip(st: Stack, data: seq<byte>, n: uint, lead: byte, tail: seq<byte>, buf: seq<byte>)
    requires n <= |data| && n <= |buf|
    ensures ReadStream([lead] + Wire(WriteStream(st, data, n).trace) + tail, buf, n)
         == Received(1, data[..n] + buf[n..], tail)
  {
    var bus := [lead] + data[..n] + tail;
    assert bus[1..n + 1] == data[..n];
    assert bus[n + 1..] == tail;
    var r := ReadStream(bus, buf, n);
    assert r.data == data[..n] + buf[n..];
  }

  /** A frame addressed to another identifier is rejected whatever its
      checksum, and the buffer is left as it was. */
  lemma ForeignIdentifierRejected(slave: Stack, bus: seq<byte>, buf: seq<byte>, n: uint)
    requires n <= |buf| && n + 3 < UIntModulus
    requires |bus| >= n + 4 && slave.identByte.Some?
    requires bus[2] != slave.identByte.value
    ensures Read(slave, bus, buf, n) == Received(-1, buf, bus[n + 4..])
  {
  }

  /** Changing the checksum byte of a valid frame makes it rejected. */
  lemma CorruptedChecksumRejected(slave: Stack, lead: byte, payload: seq<byte>, bad: byte,
                                  tail: seq<byte>, buf: seq<byte>)
    requires slave.identByte.Some?
    requires |payload| <= |buf| && |payload| + 3 < UIntModulus
    requires bad != Checksum(payload)
    ensures Read(slave, [lead] + ([0x55, slave.identByte.value] + payload + [bad]) + tail, buf, |payload|)
         == Received(-1, buf, tail)
  {
    var n := |payload|;
    var bus := [lead] + ([0x55, slave.identByte.value] + payload + [bad]) + tail;
    assert bus[3..n + 3] == payload;
    assert bus[n + 3] == bad;
    assert bus[n + 4..] == tail;
  }

  /** A sender that uses the plain inverted modulo-256 sum, without the bias
      of one, never gets a frame accepted. */
  lemma PlainInvertedSumRejected(slave: Stack, lead: byte, payload: seq<byte>,
                                 tail: seq<byte>, buf: seq<byte>)
    requires slave.identByte.Some?
    requires |payload| <= |buf| && |payload| + 3 < UIntModulus
    ensures Read(slave, [lead] + ([0x55, slave.identByte.value] + payload + [0xFF - Sum(payload) % 0x100]) + tail,
                 buf, |payload|).status == -1
  {
    var plain: byte := 0xFF - Sum(payload) % 0x100;
    BiasedDiffersFromInvertedSum(payload);
    CorruptedChecksumRejected(slave, lead, payload, plain, tail, buf);
  }

  /** An empty bus yields "no data" from both reads, with the buffer
      unchanged and nothing consumed. */
  lemma EmptyBusNoData(st: Stack, buf: seq<byte>, n: uint)
    requires n <= |buf| && n + 3 < UIntModulus
    ensures Read(st, [], buf, n) == Received(0, buf, [])
    ensures ReadStream([], buf, n) == Received(0, buf, [])
  {
  }

  /** `write` of [0x01, 0x02, 0x03] sends sync, identifier, the payload and
      0xF8 after the break. */
  lemma WriteScenario(st: Stack, ident: byte)
    ensures Wire(Write(st, ident, [0x01, 0x02, 0x03], 3).trace) == [0x55, ident, 0x01, 0x02, 0x03, 0xF8]
  {
    ChecksumExample();
    var r := Write(st, ident, [0x01, 0x02, 0x03], 3);
    assert [0x01, 0x02, 0x03][..3] == [0x01, 0x02, 0x03];
  }

  /** A slave bound to 0x10 accepts [0x55, 0x10, 0xAA, checksum] and returns
      [0xAA]; with identifier 0x11 the same window is rejected. */
  lemma ReadScenario(lead: byte)
    ensures Checksum([0xAA]) == 0x54
    ensures Read(NewSlave(true, 0x10).stack, [lead, 0x55, 0x10, 0xAA, 0x54], [0x00], 1)
         == Received(1, [0xAA], [])
    ensures Read(NewSlave(true, 0x10).stack, [lead, 0x55, 0x11, 0xAA, 0x54], [0x00], 1)
         == Received(-1, [0x00], [])
  {
    assert [0xAA][..0] == [];
    var bus := [lead, 0x55, 0x10, 0xAA, 0x54];
    assert bus[3..4] == [0xAA];
    assert bus[5..] == [];
    var bus' := [lead, 0x55, 0x11, 0xAA, 0x54];
    assert bus'[5..] == [];
  }

  /** Every write leaves the transceiver in sleep mode when power control is
      enabled, and does not touch the line otherwise. */
  lemma WritesEndAsleep(st: Stack, ident: byte, data: seq<byte>, n: byte)
    requires n <= |data|
    ensures st.sleepEnable ==> Write(st, ident, data, n).stack.line == Low
    ensures st.sleepEnable ==> WriteRequest(st, ident).stack.line == Low
    ensures st.sleepEnable ==> WriteResponse(st, data, n).stack.line == Low
    ensures st.sleepEnable ==> WriteStream(st, data, n).stack.line == Low
    ensures !st.sleepEnable ==> Write(st, ident, data, n).stack == st
  {
  }
}
