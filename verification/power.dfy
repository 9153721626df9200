/**
  Node identity and transceiver power control: the state a `lin_stack`
  object keeps, the `sleep` mode switch, the start-up pin configuration
  and the two constructors.
 */
module Power {
  import opened Bytes
  import opened Timing
  import opened Trace

  datatype Option<T> = None | Some(value: T)

  /** Level of the transceiver control line (pin 2); `Floating` before the
      pin is configured as an output. */
  datatype Line = Floating | Low | High

  /** The state of one stack object. `identByte` is set only by the slave
      constructor; the master constructor leaves it unset. The baud rate
      and period are constants (see module Timing). */
  datatype Stack = Stack(sleepEnable: bool, identByte: Option<byte>, line: Line)

  /** A stack state together with the events that produced it. */
  datatype Step = Step(stack: Stack, trace: seq<Event>)

  /** `sleep(sleep_state)`: when power control is enabled, state 1 drives
      the control line HIGH (normal mode), state 0 drives it LOW (sleep
      mode), any other value leaves it alone, and in all three cases the
      settle delay follows. When disabled, nothing happens. */
  function Sleep(st: Stack, state: byte): (r: Step)
    ensures r.stack.sleepEnable == st.sleepEnable && r.stack.identByte == st.identByte
    ensures !st.sleepEnable ==> r.stack == st && r.trace == []
    ensures st.sleepEnable && state == 1 ==> r.stack.line == High && r.trace == [NormalMode, Delay(20)]
    ensures st.sleepEnable && state == 0 ==> r.stack.line == Low && r.trace == [SleepMode, Delay(20)]
    ensures st.sleepEnable && state > 1 ==> r.stack == st && r.trace == [Delay(20)]
  {
    if st.sleepEnable then
      var s :=
        if state == 1 then Step(st.(line := High), [NormalMode])
        else if state == 0 then Step(st.(line := Low), [SleepMode])
        else Step(st, []);
      Step(s.stack, s.trace + [Delay(SettleDelay)])
    else
      Step(st, [])
  }

  /** Repeating a mode request changes nothing further. */
  lemma SleepIdempotent(st: Stack, state: byte)
    ensures Sleep(Sleep(st, state).stack, state).stack == Sleep(st, state).stack
  {
  }

  /** The line level depends only on the last of two mode requests when
      that request is 0 or 1. */
  lemma LastModeRequestWins(st: Stack, first: byte, second: byte)
    requires second <= 1
    ensures Sleep(Sleep(st, first).stack, second).stack == Sleep(st, second).stack
  {
  }

  /** `sleep_config`: TX is driven LOW and the control line HIGH, each
      followed by the start-up delay, which puts the transceiver in its
      normal (TX off) state. The control line is driven regardless of
      whether power control is enabled. */
  function SleepConfig(st: Stack): (r: Step)
    ensures r.stack.line == High
    ensures r.stack.sleepEnable == st.sleepEnable && r.stack.identByte == st.identByte
    ensures NormalMode in r.trace && SleepMode !in r.trace && Wire(r.trace) == []
    ensures r.trace[0] == TxLow && r.trace[|r.trace| - 1] == Delay(200)
  {
    var t := [TxLow, Delay(ConfigDelay), NormalMode, Delay(ConfigDelay)];
    WireSilent(t);
    Step(st.(line := High), t)
  }

  /** The master constructor: pins configured, no identifier. */
  function NewMaster(sleepEn: bool): (r: Step)
    ensures r.stack == Stack(sleepEn, None, High)
    ensures r.trace == [TxLow, Delay(200), NormalMode, Delay(200)]
  {
    var config := SleepConfig(Stack(sleepEn, None, Floating));
    Step(config.stack, config.trace)
  }

  /** The slave constructor: pins configured, identifier stored, and the
      transceiver put in normal mode. */
  function NewSlave(sleepEn: bool, ident: byte): (r: Step)
    ensures r.stack == Stack(sleepEn, Some(ident), High)
    ensures sleepEn ==> r.trace == [TxLow, Delay(200), NormalMode, Delay(200), NormalMode, Delay(20)]
    ensures !sleepEn ==> r.trace == [TxLow, Delay(200), NormalMode, Delay(200)]
  {
    var config := SleepConfig(Stack(sleepEn, None, Floating));
    var wake := Sleep(config.stack.(identByte := Some(ident)), 1);
    Step(wake.stack, config.trace + wake.trace)
  }
}
