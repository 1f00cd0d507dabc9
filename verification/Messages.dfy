/** The protocol messages the two controllers exchange, after routing and payload decoding. */
module Messages {
  import opened Words
  import opened ReliableReceiver

  type Token = x: int | 0 <= x < 0x1_0000_0000_0000_0000
  type i16 = x: int | -0x8000 <= x < 0x8000

  const UNSYNCHRONIZED: u8 := 0x00
  const SYNCHRONIZED: u8 := 0x01
  const ACCEPTED: u8 := 0x00

  datatype CommandBody = CommandBody(command: u8, sessionId: u32)

  datatype Wheels = Wheels(sessionId: u32, left: i16, right: i16)

  /** Raspberry Pi to STM32. A body of None is a payload of the wrong length for its message type. */
  datatype ToStm =
    | LinkSync(sequence: u16, token: Option<Token>)
    | Heartbeat(sequence: u16, linkState: Option<u8>)
    | MotionCommand(sequence: u16, body: Option<CommandBody>)
    | WheelVelocity(sequence: u16, wheels: Option<Wheels>)
    | OtherToStm

  /** STM32 to Raspberry Pi; OtherToPi stands for everything the Pi handlers do not recognise. */
  datatype ToPi =
    | LinkSyncOk(sequence: u16, token: Token)
    | HeartbeatReply(sequence: u16, linkState: u8)
    | MotionAck(sequence: u16, status: u8)
    | MotionResponse(sequence: u16, command: u8, sessionId: u32, result: Result)
    | OtherToPi

  /** The frame that carries a lifecycle transaction. */
  function CommandFrame(t: Transaction): ToStm
  {
    MotionCommand(t.sequence, Some(CommandBody(t.command, t.sessionId)))
  }

  /** The frame that carries a terminal answer. */
  function ResponseFrame(a: Terminal): ToPi
  {
    MotionResponse(a.transaction.sequence, a.transaction.command, a.transaction.sessionId, a.result)
  }

  /** What a transmission reports and does: a reported failure may still have delivered the frame. */
  datatype Fate = Sent | Failed(delivered: bool)

  function OnWire<T>(f: T, fate: Fate): seq<T>
  {
    if fate.Sent? || fate.delivered then [f] else []
  }
}
