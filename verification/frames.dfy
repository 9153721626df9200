/**
  Frame serialisation and parsing. Each write is a pure function from the
  stack state and its arguments to the new state, the trace of hardware
  events and the returned status; each read is a pure function from the
  stack state, the bytes pending on the bus and the caller's buffer to the
  status, the new buffer contents and the bytes left on the bus.

  Wire layout of a full frame (after the break): sync 0x55, identifier,
  payload, checksum.
 */
module Frames {
  import opened Bytes
  import opened Checksums
  import opened Timing
  import opened Trace
  import opened Power

  /** The synch byte every framed transmission starts with. */
  const SyncByte: byte := 0x55

  /** The result of a write: new stack state, events, returned status. */
  datatype Written = Written(stack: Stack, trace: seq<Event>, status: int)

  /** The result of a read: returned status (0 no data, 1 success, -1
      validation failure), the caller's buffer afterwards, and the bytes
      still pending on the bus. */
  datatype Received = Received(status: int, data: seq<byte>, rest: seq<byte>)

  /** Transport activity bracketed by the power mode switch: normal mode
      with its settle delay before, sleep mode with its settle delay after,
      both only when power control is enabled. */
  function Session(sleepEnable: bool, body: seq<Event>): seq<Event>
  {
    (if sleepEnable then [NormalMode, Delay(SettleDelay)] else [])
    + body
    + (if sleepEnable then [SleepMode, Delay(SettleDelay)] else [])
  }

  /** The control line after a bracketed write: LOW when power control is
      enabled, untouched otherwise. */
  function AfterSession(st: Stack): Stack
  {
    if st.sleepEnable then st.(line := Low) else st
  }

  /** `write(ident, data, data_size)`: a full frame. The length is a `byte`,
      so at most 255 payload bytes are sent. */
  function Write(st: Stack, ident: byte, data: seq<byte>, n: byte): (r: Written)
    requires n <= |data|
    ensures r.status == 1
    ensures r.stack == AfterSession(st)
    ensures r.trace == Session(st.sleepEnable,
      [Break(1248), Byte(0x55), Byte(ident)] + Send(data[..n]) + [Byte(Checksum(data[..n]))])
    ensures Wire(r.trace) == [0x55, ident] + data[..n] + [Checksum(data[..n])]
    ensures |Wire(r.trace)| == n + 3 <= 258
  {
    var checksum := BuilderChecksum(data[..n]);
    var up := Sleep(st, 1);
    var body := SerialPause(BreakBits) + [Byte(SyncByte), Byte(ident)] + Send(data[..n]) + [Byte(checksum)];
    var down := Sleep(up.stack, 0);
    FrameBody(ident, data[..n]);
    Bracket(st, body);
    Written(down.stack, up.trace + body + down.trace, 1)
  }

  /** `writeRequest(ident)`: the header only, break then sync and identifier,
      with no checksum. */
  function WriteRequest(st: Stack, ident: byte): (r: Written)
    ensures r.status == 1
    ensures r.stack == AfterSession(st)
    ensures r.trace == Session(st.sleepEnable, [Break(1248), Byte(0x55), Byte(ident)])
    ensures Wire(r.trace) == [0x55, ident]
  {
    var header := [SyncByte, ident];
    var up := Sleep(st, 1);
    var body := SerialPause(BreakBits) + Send(header);
    var down := Sleep(up.stack, 0);
    HeaderBody(ident);
    Bracket(st, body);
    Written(down.stack, up.trace + body + down.trace, 1)
  }

  /** `writeResponse(data, data_size)`: the payload followed by its checksum,
      with no break and no sync. */
  function WriteResponse(st: Stack, data: seq<byte>, n: uint): (r: Written)
    requires n <= |data|
    ensures r.status == 1
    ensures r.stack == AfterSession(st)
    ensures r.trace == Session(st.sleepEnable, Send(data[..n]) + [Byte(Checksum(data[..n]))])
    ensures Wire(r.trace) == data[..n] + [Checksum(data[..n])]
  {
    var checksum := BuilderChecksum(data[..n]);
    var up := Sleep(st, 1);
    var body := Send(data[..n]) + [Byte(checksum)];
    var down := Sleep(up.stack, 0);
    ResponseBody(data[..n]);
    Bracket(st, body);
    Written(down.stack, up.trace + body + down.trace, 1)
  }

  /** `writeStream(data, data_size)`: the break, then the bytes verbatim, with
      no sync and no checksum. */
  function WriteStream(st: Stack, data: seq<byte>, n: uint): (r: Written)
    requires n <= |data|
    ensures r.status == 1
    ensures r.stack == AfterSession(st)
    ensures r.trace == Session(st.sleepEnable, [Break(1248)] + Send(data[..n]))
    ensures Wire(r.trace) == data[..n]
  {
    var up := Sleep(st, 1);
    var body := SerialPause(BreakBits) + Send(data[..n]);
    var down := Sleep(up.stack, 0);
    StreamBody(data[..n]);
    Bracket(st, body);
    Written(down.stack, up.trace + body + down.trace, 1)
  }

  /** Switching to normal mode, doing `body`, and switching to sleep mode
      is a session, which puts on the wire exactly the bytes of `body` and
      leaves the line as `AfterSession` says. */
  lemma Bracket(st: Stack, body: seq<Event>)
    ensures Sleep(st, 1).trace + body + Sleep(Sleep(st, 1).stack, 0).trace == Session(st.sleepEnable, body)
    ensures Sleep(Sleep(st, 1).stack, 0).stack == AfterSession(st)
    ensures Wire(Session(st.sleepEnable, body)) == Wire(body)
  {
    var pre: seq<Event> := if st.sleepEnable then [NormalMode, Delay(SettleDelay)] else [];
    var post: seq<Event> := if st.sleepEnable then [SleepMode, Delay(SettleDelay)] else [];
    WireAppend(pre, body);
    WireAppend(pre + body, post);
    WireSilent(pre);
    WireSilent(post);
  }

  /** The bytes on the wire of a sequence of events made of a prefix, a
      sent byte sequence and a suffix. */
  lemma FrameWire(prefix: seq<Event>, payload: seq<byte>, suffix: seq<Event>)
    ensures Wire(prefix + Send(payload) + suffix) == Wire(prefix) + payload + Wire(suffix)
  {
    WireAppend(prefix, Send(payload));
    WireAppend(prefix + Send(payload), suffix);
    WireSend(payload);
  }

  /** The body of `write`: the 1248 µs break, sync, identifier, payload and
      the reference checksum; on the wire, all but the break. */
  lemma FrameBody(ident: byte, payload: seq<byte>)
    ensures SerialPause(BreakBits) + [Byte(SyncByte), Byte(ident)] + Send(payload) + [Byte(BuilderChecksum(payload))]
         == [Break(1248), Byte(0x55), Byte(ident)] + Send(payload) + [Byte(Checksum(payload))]
    ensures Wire([Break(1248), Byte(0x55), Byte(ident)] + Send(payload) + [Byte(Checksum(payload))])
         == [0x55, ident] + payload + [Checksum(payload)]
  {
    StandardBreak();
    var head := [Break(1248)] + Send([0x55, ident]);
    assert head == [Break(1248), Byte(0x55), Byte(ident)];
    FrameWire([Break(1248)], [0x55, ident], []);
    WireSilent([Break(1248)]);
    WireSilent([]);
    assert head + [] == head;
    FrameWire(head, payload, [Byte(Checksum(payload))]);
    FrameWire([], [Checksum(payload)], []);
    assert [] + Send([Checksum(payload)]) + [] == [Byte(Checksum(payload))];
  }

  /** The body of `writeRequest`: the 1248 µs break, sync and identifier. */
  lemma HeaderBody(ident: byte)
    ensures SerialPause(BreakBits) + Send([SyncByte, ident]) == [Break(1248), Byte(0x55), Byte(ident)]
    ensures Wire([Break(1248), Byte(0x55), Byte(ident)]) == [0x55, ident]
  {
    StandardBreak();
    FrameWire([Break(1248)], [0x55, ident], []);
    WireSilent([Break(1248)]);
    WireSilent([]);
    assert [Break(1248)] + Send([0x55, ident]) + [] == [Break(1248), Byte(0x55), Byte(ident)];
  }

  /** The body of `writeResponse`: the payload and the reference checksum. */
  lemma ResponseBody(payload: seq<byte>)
    ensures Send(payload) + [Byte(BuilderChecksum(payload))] == Send(payload) + [Byte(Checksum(payload))]
    ensures Wire(Send(payload) + [Byte(Checksum(payload))]) == payload + [Checksum(payload)]
  {
    FrameWire([], payload, [Byte(Checksum(payload))]);
    FrameWire([], [Checksum(payload)], []);
    WireSilent([]);
    assert [] + Send([Checksum(payload)]) + [] == [Byte(Checksum(payload))];
    assert [] + Send(payload) + [Byte(Checksum(payload))] == Send(payload) + [Byte(Checksum(payload))];
  }

  /** The body of `writeStream`: the 1248 µs break and the bytes verbatim. */
  lemma StreamBody(payload: seq<byte>)
    ensures SerialPause(BreakBits) + Send(payload) == [Break(1248)] + Send(payload)
    ensures Wire([Break(1248)] + Send(payload)) == payload
  {
    StandardBreak();
    FrameWire([Break(1248)], payload, []);
    WireSilent([Break(1248)]);
    WireSilent([]);
    assert [Break(1248)] + Send(payload) + [] == [Break(1248)] + Send(payload);
  }

  /** `validateParity(ident)`: despite its name, an exact comparison with the
      stored identifier; no parity bits are computed. */
  function ValidateParity(st: Stack, ident: byte): (ok: bool)
    requires st.identByte.Some?
    ensures ok <==> st.identByte == Some(ident)
  {
    ident == st.identByte.value
  }

  /** `validateChecksum(w, len)`: accepts exactly when the last byte of the
      first `len` equals the checksum of the bytes from index 2 up to, but
      not including, the last. */
  function ValidateChecksum(w: seq<byte>, len: nat): (ok: bool)
    requires 1 <= len <= |w|
    ensures 3 <= len ==> (ok <==> w[len - 1] == Checksum(w[2..len - 1]))
    ensures len < 3 ==> (ok <==> w[len - 1] == 0xFE)
  {
    var checksum := w[len - 1];
    var region := if 3 <= len then w[2..len - 1] else [];
    assert Sum([]) == 0;
    var vChecksum := ValidatorChecksum(region);
    checksum == vChecksum
  }

  /** `read(data, data_size)`. The poll consumes one byte when the bus has
      any; the next `n + 3` bytes are the window (sync, identifier, payload,
      checksum). The payload is copied into the buffer only when both the
      identifier and the checksum match; otherwise the buffer is untouched. */
  function Read(st: Stack, bus: seq<byte>, data: seq<byte>, n: uint): (r: Received)
    requires n <= |data|
    requires n + 3 < UIntModulus
    requires bus == [] || (|bus| >= n + 4 && st.identByte.Some?)
    ensures bus == [] ==> r == Received(0, data, [])
    ensures bus != [] ==> r.status in {1, -1} && r.rest == bus[n + 4..]
    ensures r.status == 1 <==>
      bus != [] && st.identByte == Some(bus[2]) && bus[n + 3] == Checksum(bus[3..n + 3])
    ensures |r.data| == |data| && r.data[n..] == data[n..]
    ensures r.status == 1 ==> forall j :: 0 <= j < n ==> r.data[j] == bus[j + 3]
    ensures r.status != 1 ==> r.data == data
  {
    if bus == [] then
      Received(0, data, [])
    else
      var rec := bus[1..n + 4];
      var rest := bus[n + 4..];
      assert rec[1] == bus[2] && rec[n + 2] == bus[n + 3];
      SliceOfSlice(bus, 1, n + 4, 2, n + 2);
      if ValidateParity(st, rec[1]) && ValidateChecksum(rec, n + 3) then
        Received(1, rec[2..n + 2] + data[n..], rest)
      else
        Received(-1, data, rest)
  }

  /** A slice of a slice is a slice of the original sequence. */
  lemma SliceOfSlice(s: seq<byte>, lo: nat, hi: nat, a: nat, b: nat)
    requires lo <= hi <= |s| && a <= b <= hi - lo
    ensures s[lo..hi][a..b] == s[lo + a..lo + b]
  {
    var t := s[lo..hi][a..b];
    assert forall k :: 0 <= k < b - a ==> t[k] == s[lo + a + k];
  }

  /** `readStream(data, data_size)`: after the poll consumes one byte, the
      next `n` bytes are copied verbatim, with no validation. */
  function ReadStream(bus: seq<byte>, data: seq<byte>, n: uint): (r: Received)
    requires n <= |data|
    requires bus == [] || |bus| >= n + 1
    ensures bus == [] ==> r == Received(0, data, [])
    ensures bus != [] ==> r.status == 1 && r.rest == bus[n + 1..]
    ensures |r.data| == |data| && r.data[n..] == data[n..]
    ensures bus != [] ==> forall j :: 0 <= j < n ==> r.data[j] == bus[j + 1]
  {
    if bus == [] then
      Received(0, data, [])
    else
      var rec := bus[1..n + 1];
      Received(1, rec + data[n..], bus[n + 1..])
  }
}
