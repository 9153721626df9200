/**
  Bit timing: the fixed baud rate, the bit period derived from it, the
  settle delays of the transceiver, and the duration of the break that
  `serial_pause` holds before a framed transmission.
 */
module Timing {
  import opened Bytes
  import opened Trace

  /** Serial baud rate of the LIN bus. */
  const BaudRate: nat := 10417
  /** One bit time in microseconds (1 s / 10417, rounded). */
  const Period: nat := 96
  /** Length of the synch break in bit times. */
  const BreakBits: nat := 13
  /** Settle delay after every transceiver mode change, in microseconds. */
  const SettleDelay: nat := 20
  /** Settle delay of the pin configuration at start-up, in microseconds. */
  const ConfigDelay: nat := 200

  /** `serial_pause`'s hold time `period * no_bits`, computed in `unsigned
      int`: the product wraps modulo the width of the type and is otherwise
      exactly linear in the number of bits. */
  function BreakDuration(noBits: int): (us: uint)
    ensures (us - Period * noBits) % UIntModulus == 0
    ensures 0 <= Period * noBits < UIntModulus ==> us == Period * noBits
  {
    ToUInt(Period * noBits)
  }

  /** `serial_pause(no_bits)`: the synch break, a single hold of the TX
      line that lasts `period * no_bits` microseconds, wrapped like
      `unsigned int`, and sends no byte. */
  function SerialPause(noBits: int): (r: seq<Event>)
    ensures |r| == 1 && r[0].Break? && Wire(r) == []
    ensures (r[0].us - Period * noBits) % UIntModulus == 0 && r[0].us < UIntModulus
    ensures 0 <= noBits && Period * noBits < UIntModulus ==> r[0].us == Period * noBits
  {
    [Break(BreakDuration(noBits))]
  }

  /** The break duration is additive in the number of bits, as long as the
      product does not wrap. */
  lemma BreakDurationLinear(a: nat, b: nat)
    requires Period * (a + b) < UIntModulus
    ensures BreakDuration(a + b) == BreakDuration(a) + BreakDuration(b)
  {
  }

  /** The standard 13-bit break lasts 1248 microseconds. */
  lemma StandardBreak()
    ensures BreakDuration(BreakBits) == 1248
  {
  }

  /** The period is the bit time of the baud rate rounded to the nearest
      microsecond. */
  lemma PeriodMatchesBaudRate()
    ensures 2 * (Period * BaudRate - 1_000_000) <= BaudRate
    ensures Period * BaudRate >= 1_000_000
  {
  }
}
