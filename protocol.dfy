/** The wire vocabulary of the serial protocol (src/protocol.rs): the
    start-of-frame byte, the message-type, sensor-tag and actuator-tag codes
    with their byte conversions, the fixed-size TLV item and the message
    records that travel between the firmware's tasks. */
module Protocol {
  import opened Common

  /** Start-of-frame marker. */
  const SOF: Byte := 0xAA

  datatype MessageType =
    | SensorReport
    | ActuatorStatus
    | Command
    | CommandAck
    | Heartbeat
    | Unknown

  /** `impl From<u8> for MessageType`: the five known codes map to their
      variants and every other byte, 0xFF included, to Unknown. */
  function MessageTypeFrom(b: Byte): (t: MessageType)
    ensures t == SensorReport <==> b == 0x01
    ensures t == ActuatorStatus <==> b == 0x02
    ensures t == Command <==> b == 0x10
    ensures t == MessageType.CommandAck <==> b == 0x11
    ensures t == MessageType.Heartbeat <==> b == 0x20
    ensures t == Unknown <==> b != 0x01 && b != 0x02 && b != 0x10 && b != 0x11 && b != 0x20
  {
    if b == 0x01 then SensorReport
    else if b == 0x02 then ActuatorStatus
    else if b == 0x10 then Command
    else if b == 0x11 then MessageType.CommandAck
    else if b == 0x20 then MessageType.Heartbeat
    else Unknown
  }

  /** `t as u8` (the `#[repr(u8)]` discriminant). Converting it back gives
      the same variant, Unknown = 0xFF included. */
  function MessageTypeCode(t: MessageType): (b: Byte)
    ensures MessageTypeFrom(b) == t
  {
    match t
    case SensorReport => 0x01
    case ActuatorStatus => 0x02
    case Command => 0x10
    case CommandAck => 0x11
    case Heartbeat => 0x20
    case Unknown => 0xFF
  }

  datatype SensorTag = SoilMoisture | Temperature | Humidity | LightIntensity

  /** `t as u8` for a sensor tag: a code in 0x01..0x04. */
  function SensorCode(t: SensorTag): (b: Byte)
    ensures 0x01 <= b <= 0x04
  {
    match t
    case SoilMoisture => 0x01
    case Temperature => 0x02
    case Humidity => 0x03
    case LightIntensity => 0x04
  }

  datatype ActuatorTag = Fan | Pump | Light | Buzzer

  /** `impl From<u8> for ActuatorTag`: 0x10..0x13 select an actuator; every
      other byte silently becomes Fan. */
  function ActuatorFrom(b: Byte): (a: ActuatorTag)
    ensures a == Pump <==> b == 0x11
    ensures a == Light <==> b == 0x12
    ensures a == Buzzer <==> b == 0x13
    ensures a == Fan <==> !(0x11 <= b <= 0x13)
  {
    if b == 0x10 then Fan
    else if b == 0x11 then Pump
    else if b == 0x12 then Light
    else if b == 0x13 then Buzzer
    else Fan
  }

  /** `a as u8` for an actuator tag: a code in 0x10..0x13 that converts
      back to the same actuator. */
  function ActuatorCode(a: ActuatorTag): (b: Byte)
    ensures 0x10 <= b <= 0x13
    ensures ActuatorFrom(b) == a
  {
    match a
    case Fan => 0x10
    case Pump => 0x11
    case Light => 0x12
    case Buzzer => 0x13
  }

  /** Any byte outside 0x10..0x13 is read as Fan. */
  lemma UnknownActuatorIsFan(b: Byte)
    requires b < 0x10 || 0x13 < b
    ensures ActuatorFrom(b) == Fan
  {
  }

  /** Sensor and actuator tags never share a code, and each family's codes
      are pairwise distinct. */
  lemma TagCodesDistinct(s: SensorTag, s': SensorTag, a: ActuatorTag, a': ActuatorTag)
    ensures SensorCode(s) != ActuatorCode(a)
    ensures SensorCode(s) == SensorCode(s') ==> s == s'
    ensures ActuatorCode(a) == ActuatorCode(a') ==> a == a'
  {
  }

  /** Generic TLV item with room for eight value bytes, of which `length`
      are meaningful. */
  datatype TlvItem = TlvItem(tag: Byte, length: Byte, value: seq<Byte>)

  /** `TlvItem::new_u16`: length 2, big-endian value, remaining bytes zero. */
  function NewU16(tag: Byte, val: U16): (t: TlvItem)
    ensures t.tag == tag && t.length == 2 && |t.value| == 8
    ensures FromBeBytes(t.value[0], t.value[1]) == val
    ensures forall i :: 2 <= i < 8 ==> t.value[i] == 0
  {
    BeBytesRoundTrip(val);
    TlvItem(tag, 2, [HighByte(val), LowByte(val), 0, 0, 0, 0, 0, 0])
  }

  /** `TlvItem::new_i16`: length 2, big-endian two's-complement value,
      remaining bytes zero; reading the two bytes back as an `i16` gives the
      same number. */
  function NewI16(tag: Byte, val: I16): (t: TlvItem)
    ensures t.tag == tag && t.length == 2 && |t.value| == 8
    ensures ToI16(FromBeBytes(t.value[0], t.value[1])) == val
    ensures forall i :: 2 <= i < 8 ==> t.value[i] == 0
  {
    var bits := I16Bits(val);
    BeBytesRoundTrip(bits);
    TlvItem(tag, 2, [HighByte(bits), LowByte(bits), 0, 0, 0, 0, 0, 0])
  }

  /** `TlvItem::new_u8`: length 1, the value in the first byte, the rest
      zero. */
  function NewU8(tag: Byte, val: Byte): (t: TlvItem)
    ensures t.tag == tag && t.length == 1 && |t.value| == 8
    ensures t.value[0] == val
    ensures forall i :: 1 <= i < 8 ==> t.value[i] == 0
  {
    TlvItem(tag, 1, [val, 0, 0, 0, 0, 0, 0, 0])
  }

  /** A sensor reading as reported to the transmit task. */
  datatype SensorData =
    | SoilMoistureData(soil: U16)
    | TemperatureData(centiCelsius: I16)
    | HumidityData(centiPercent: U16)
    | LightIntensityData(lux: U16)

  /** `duration_ms == 0` means a sustained level, `> 0` a pulse when
      `state` is ON. */
  datatype ControlCommand = ControlCommand(actuator: ActuatorTag, state: bool, durationMs: U16)

  datatype ActuatorFeedback = ActuatorFeedback(actuator: ActuatorTag, state: bool)

  datatype CommandAck = CommandAck(actuator: ActuatorTag, success: bool)

  /** Everything the transmit task serialises. */
  datatype TxMessage =
    | Sensor(data: SensorData)
    | Actuator(status: ActuatorFeedback)
    | Ack(ack: CommandAck)
    | Heartbeat
}
