/**
  Observable effects of the stack on its hardware, as a trace of events.
  The serial transport, the GPIO pins and the delays are not modelled
  beyond these events.
 */
module Trace {
  import opened Bytes

  datatype Event =
    | NormalMode      // transceiver control line (pin 2) driven HIGH
    | SleepMode       // transceiver control line (pin 2) driven LOW
    | TxLow           // TX line (pin 1) made an output and driven LOW
    | Delay(us: nat)  // busy wait of `us` microseconds
    | Break(us: nat)  // TX line held dominant for `us` microseconds, then released
    | Byte(b: byte)   // one byte written to the serial transport

  /** The events of writing a byte sequence to the transport, in order. */
  function Send(s: seq<byte>): (t: seq<Event>)
    ensures |t| == |s|
    ensures forall i :: 0 <= i < |s| ==> t[i] == Byte(s[i])
  {
    if s == [] then [] else [Byte(s[0])] + Send(s[1..])
  }

  /** The bytes that reach the wire: the `Byte` events of a trace, in order. */
  function Wire(t: seq<Event>): (w: seq<byte>)
    ensures |w| <= |t|
  {
    if t == [] then []
    else (if t[0].Byte? then [t[0].b] else []) + Wire(t[1..])
  }

  /** A trace that writes no byte to the transport. */
  predicate Silent(t: seq<Event>)
  {
    forall i :: 0 <= i < |t| ==> !t[i].Byte?
  }

  /** A silent trace puts nothing on the wire. */
  lemma {:induction false} WireSilent(t: seq<Event>)
    requires Silent(t)
    ensures Wire(t) == []
    decreases |t|
  {
    if t != [] {
      assert !t[0].Byte?;
      WireSilent(t[1..]);
    }
  }

  /** The wire of a concatenation is the concatenation of the wires. */
  lemma {:induction false} WireAppend(a: seq<Event>, b: seq<Event>)
    ensures Wire(a + b) == Wire(a) + Wire(b)
    decreases |a|
  {
    if a == [] {
      assert a + b == b;
    } else {
      var head: seq<byte> := if a[0].Byte? then [a[0].b] else [];
      assert (a + b)[0] == a[0];
      assert (a + b)[1..] == a[1..] + b;
      assert Wire(a + b) == head + Wire(a[1..] + b);
      WireAppend(a[1..], b);
      assert Wire(a) == head + Wire(a[1..]);
    }
  }

  /** Sending a byte sequence puts exactly that sequence on the wire. */
  lemma {:induction false} WireSend(s: seq<byte>)
    ensures Wire(Send(s)) == s
    decreases |s|
  {
    if s != [] {
      WireSend(s[1..]);
    }
  }
}
