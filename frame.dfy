/** The frame codec of src/uart.rs: the XOR checksum, the four-outcome frame
    validator, the TLV appenders and the frame encoder used by the transmit
    task. A frame is SOF | LEN | TYPE | PAYLOAD (LEN - 1 bytes) | XOR, where
    XOR is the exclusive-or of every byte before it. */
module Frame {
  import opened Common
  import opened Protocol

  /** SOF + LEN + TYPE + CRC, the shortest frame the receiver looks at. */
  const MinFrameLen: nat := 4

  /** The verdict of `check_frame`. */
  datatype FrameError = HeaderError | Incomplete | CrcError | Valid(len: nat)

  /** The checksum: XOR of all bytes, folded from the first byte on. */
  function Xor(s: seq<Byte>): Byte
  {
    if s == [] then 0 else ByteXor(Xor(s[..|s| - 1]), s[|s| - 1])
  }

  lemma XorSingle(b: Byte)
    ensures Xor([b]) == b
  {
    assert [b][..0] == [];
    XorLaws(b, b, b);
  }

  /** The checksum of a concatenation is the XOR of the parts' checksums. */
  lemma {:induction false} XorConcat(a: seq<Byte>, b: seq<Byte>)
    ensures Xor(a + b) == ByteXor(Xor(a), Xor(b))
  {
    if b == [] {
      assert a + b == a;
      XorLaws(Xor(a), 0, 0);
    } else {
      var b' := b[..|b| - 1];
      assert (a + b)[..|a + b| - 1] == a + b';
      XorConcat(a, b');
      XorLaws(Xor(a), Xor(b'), b[|b| - 1]);
    }
  }

  /** Replacing one byte x by y changes the checksum by x ^ y. */
  lemma XorReplace(p: seq<Byte>, x: Byte, y: Byte, q: seq<Byte>)
    ensures Xor(p + [y] + q) == ByteXor(Xor(p + [x] + q), ByteXor(x, y))
  {
    XorConcat(p + [x], q);
    XorConcat(p + [y], q);
    XorConcat(p, [x]);
    XorConcat(p, [y]);
    XorSingle(x);
    XorSingle(y);
    var a, c, d := Xor(p), Xor(q), ByteXor(x, y);
    calc {
      ByteXor(ByteXor(ByteXor(a, x), c), d);
      { XorLaws(ByteXor(a, x), c, d); }
      ByteXor(ByteXor(a, x), ByteXor(c, d));
      { XorLaws(c, d, 0); }
      ByteXor(ByteXor(a, x), ByteXor(d, c));
      { XorLaws(ByteXor(a, x), d, c); }
      ByteXor(ByteXor(ByteXor(a, x), d), c);
      { XorLaws(a, x, d); XorLaws(x, x, y); XorLaws(y, 0, 0); }
      ByteXor(ByteXor(a, y), c);
    }
  }

  /** `check_frame`. Incomplete below four bytes or while the announced
      length LEN + 3 has not arrived; HeaderError when the first byte is not
      SOF; otherwise CrcError or Valid(LEN + 3) by the trailing checksum.
      Only four bytes are required before LEN is trusted, so LEN == 0 gives
      Valid(3), a frame shorter than the minimum. */
  function CheckFrame(data: seq<Byte>): (r: FrameError)
    ensures r == Incomplete <==>
              |data| < MinFrameLen || (data[0] == SOF && |data| < data[1] as int + 3)
    ensures r == HeaderError <==> |data| >= MinFrameLen && data[0] != SOF
    ensures r.Valid? ==>
              && |data| >= MinFrameLen && data[0] == SOF
              && r.len == data[1] as int + 3
              && r.len <= |data|
              && Xor(data[..r.len - 1]) == data[r.len - 1]
    ensures r == CrcError ==>
              && |data| >= MinFrameLen && data[0] == SOF
              && data[1] as int + 3 <= |data|
              && Xor(data[..data[1] as int + 2]) != data[data[1] as int + 2]
  {
    if |data| < MinFrameLen then Incomplete
    else if data[0] != SOF then HeaderError
    else
      var expected := 1 + 1 + data[1] as int + 1;
      if |data| < expected then Incomplete
      else if Xor(data[..expected - 1]) != data[expected - 1] then CrcError
      else Valid(expected)
  }

  /** The validator as the receive loop needs it: a frame with LEN == 0 has
      no TYPE byte and is rejected as a bad header, so every Valid frame is
      at least four bytes long and its payload slice is well defined. In
      every other case it agrees with CheckFrame. */
  function CheckFrameFixed(data: seq<Byte>): (r: FrameError)
    ensures r.Valid? ==>
              && MinFrameLen <= r.len <= |data|
              && data[0] == SOF
              && r.len == data[1] as int + 3
              && Xor(data[..r.len - 1]) == data[r.len - 1]
    ensures |data| < MinFrameLen || data[0] != SOF || data[1] != 0 ==> r == CheckFrame(data)
    ensures |data| >= MinFrameLen && data[0] == SOF && data[1] == 0 ==> r == HeaderError
  {
    if |data| >= MinFrameLen && data[0] == SOF && data[1] == 0 then HeaderError
    else CheckFrame(data)
  }

  /** As written, `check_frame` accepts [SOF, 0, SOF, x] for any x as a
      three-byte frame: shorter than the header, type and checksum the
      receive loop slices it into, so its payload length
      `frame[1] as usize - 1` underflows and `&frame[3..len - 1]` ends
      before it starts. */
  lemma EmptyBodyAcceptedAsWritten(x: Byte)
    ensures CheckFrame([SOF, 0x00, SOF, x]) == Valid(3)
    ensures CheckFrame([SOF, 0x00, SOF, x]).len < MinFrameLen
    ensures CheckFrameFixed([SOF, 0x00, SOF, x]) == HeaderError
  {
    var f := [SOF, 0x00, SOF, x];
    assert f[..2] == [SOF] + [0x00];
    XorConcat([SOF], [0x00]);
    XorSingle(SOF);
    XorSingle(0x00);
    XorLaws(SOF, 0, 0);
  }

  /** The verdict on a complete frame does not depend on what follows it. */
  lemma ValidFramePrefix(f: seq<Byte>, rest: seq<Byte>)
    requires CheckFrameFixed(f) == Valid(|f|)
    ensures CheckFrameFixed(f + rest) == Valid(|f|)
  {
    var w := f + rest;
    assert w[..|f| - 1] == f[..|f| - 1];
    assert w[|f| - 1] == f[|f| - 1];
  }

  /** Changing any one byte from TYPE on (the type, the payload or the
      checksum) of a valid frame turns it into a CrcError, never into
      another Valid. */
  lemma CrcDetectsCorruption(f: seq<Byte>, i: nat, y: Byte)
    requires CheckFrame(f) == Valid(|f|)
    requires 2 <= i < |f| && y != f[i]
    ensures CheckFrame(f[i := y]) == CrcError
  {
    var n := |f|;
    var g := f[i := y];
    assert f[0] == SOF && f[1] as int + 3 == n && Xor(f[..n - 1]) == f[n - 1];
    assert g[0] == SOF && g[1] == f[1];
    ChangeBreaksChecksum(f, i, y);
    BadChecksumIsCrcError(g);
  }

  /** A sequence whose last byte is the checksum of the others no longer
      is once any one of its bytes is changed. */
  lemma ChangeBreaksChecksum(f: seq<Byte>, i: nat, y: Byte)
    requires i < |f| && y != f[i]
    requires Xor(f[..|f| - 1]) == f[|f| - 1]
    ensures var g := f[i := y]; Xor(g[..|g| - 1]) != g[|g| - 1]
  {
    var n := |f|;
    var g := f[i := y];
    if i == n - 1 {
      assert g[..n - 1] == f[..n - 1];
    } else {
      ChangeBeforeChecksum(f, i, y);
      XorDistinct(f[i], y);
      XorMaskChanges(f[n - 1], ByteXor(f[i], y));
    }
  }

  lemma ChangeBeforeChecksum(f: seq<Byte>, i: nat, y: Byte)
    requires i < |f| - 1
    ensures var g := f[i := y];
              && Xor(g[..|g| - 1]) == ByteXor(Xor(f[..|f| - 1]), ByteXor(f[i], y))
              && g[|g| - 1] == f[|f| - 1]
  {
    var n := |f|;
    var p, q := f[..i], f[i + 1..n - 1];
    assert f[..n - 1] == p + [f[i]] + q;
    assert f[i := y][..n - 1] == p + [y] + q;
    XorReplace(p, f[i], y, q);
  }

  /** Two bytes are equal exactly when their XOR is zero. */
  lemma XorDistinct(x: Byte, y: Byte)
    ensures ByteXor(x, y) == 0 <==> x == y
  {
    XorLaws(x, x, y);
    XorLaws(y, 0, 0);
    assert ByteXor(x, ByteXor(x, y)) == y;
  }

  lemma BadChecksumIsCrcError(g: seq<Byte>)
    requires |g| >= MinFrameLen && g[0] == SOF && g[1] as int + 3 == |g|
    requires Xor(g[..|g| - 1]) != g[|g| - 1]
    ensures CheckFrame(g) == CrcError
  {
  }

  /** The message-type byte each outbound message is sent with. */
  function TypeOf(m: TxMessage): MessageType
  {
    match m
    case Sensor(_) => SensorReport
    case Actuator(_) => ActuatorStatus
    case Ack(_) => MessageType.CommandAck
    case Heartbeat => MessageType.Heartbeat
  }

  /** The four bytes `append_tlv_u16` writes: tag, length 2, big-endian value. */
  function TlvU16Bytes(tag: Byte, val: U16): seq<Byte>
  {
    [tag, 2, HighByte(val), LowByte(val)]
  }

  /** The four bytes `append_tlv_i16` writes: the two's-complement pattern. */
  function TlvI16Bytes(tag: Byte, val: I16): seq<Byte>
  {
    TlvU16Bytes(tag, I16Bits(val))
  }

  /** What goes on the wire for a TLV item is its tag, its length and its
      first two value bytes, as built by the TlvItem constructors. */
  lemma TlvBytesMatchItems(tag: Byte, u: U16, i: I16)
    ensures var t := NewU16(tag, u); TlvU16Bytes(tag, u) == [t.tag, t.length] + t.value[..2]
    ensures var t := NewI16(tag, i); TlvI16Bytes(tag, i) == [t.tag, t.length] + t.value[..2]
  {
  }

  /** The single TLV item of a sensor report. */
  function SensorTlv(d: SensorData): seq<Byte>
  {
    match d
    case SoilMoistureData(v) => TlvU16Bytes(SensorCode(SoilMoisture), v)
    case TemperatureData(v) => TlvI16Bytes(SensorCode(Temperature), v)
    case HumidityData(v) => TlvU16Bytes(SensorCode(Humidity), v)
    case LightIntensityData(v) => TlvU16Bytes(SensorCode(LightIntensity), v)
  }

  /** The payload bytes of each outbound message. */
  function PayloadOf(m: TxMessage): seq<Byte>
  {
    match m
    case Sensor(d) => SensorTlv(d)
    case Actuator(fb) => [ActuatorCode(fb.actuator), 1, BoolByte(fb.state)]
    case Ack(a) => [ActuatorCode(a.actuator), 1, BoolByte(a.success)]
    case Heartbeat => []
  }

  /** SOF, LEN (`total_body_len as u8`) and TYPE of a message's frame. */
  function Header(m: TxMessage): seq<Byte>
  {
    [SOF, (|PayloadOf(m)| + 1) % 0x100, MessageTypeCode(TypeOf(m))]
  }

  /** The frame `encode_msg` produces for a message. */
  function Encoding(m: TxMessage): seq<Byte>
  {
    var body := Header(m) + PayloadOf(m);
    body + [Xor(body)]
  }

  /** The header and payload of an encoding, byte for byte. */
  lemma EncodingBytes(m: TxMessage)
    ensures var f := Encoding(m); var p := PayloadOf(m);
              && |p| <= 4 && |f| == |p| + 4
              && f[0] == SOF && f[1] as int == |p| + 1 && f[2] == MessageTypeCode(TypeOf(m))
              && f[3..|f| - 1] == p
  {
  }

  /** 0xAA ^ 0x01 ^ 0x20 == 0x8B, bit by bit. */
  lemma HeartbeatChecksum()
    ensures ByteXor(ByteXor(0xAA, 0x01), 0x20) == 0x8B
  {
    BitXorZero(0x55);
    BitXorZero(2);
    assert BitXor(0xAA, 0x01) == 0xAB;
    assert BitXor(5, 1) == 4;
    assert BitXor(0x0A, 2) == 8;
    assert BitXor(0x15, 4) == 0x11;
    assert BitXor(0x2A, 8) == 0x22;
    assert BitXor(0x55, 0x10) == 0x45;
  }

  /** The checksum of a three-byte body. */
  lemma Xor3(a: Byte, b: Byte, c: Byte)
    ensures Xor([a, b, c]) == ByteXor(ByteXor(a, b), c)
  {
    var s := [a, b, c];
    assert s[..2] == [a, b] && [a, b][..1] == [a];
    XorSingle(a);
  }

  /** The heartbeat frame, byte for byte: SOF, LEN 1, TYPE 0x20 and the
      checksum 0xAA ^ 0x01 ^ 0x20. */
  lemma HeartbeatFrame()
    ensures Encoding(TxMessage.Heartbeat) == [0xAA, 0x01, 0x20, 0x8B]
  {
    assert Header(TxMessage.Heartbeat) + PayloadOf(TxMessage.Heartbeat) == [SOF, 0x01, 0x20];
    Xor3(SOF, 0x01, 0x20);
    HeartbeatChecksum();
  }

  /** Round trip: every encoded message is accepted by both validators as
      one whole frame, its LEN byte is the frame length minus three and its
      TYPE byte is the message's type code. */
  lemma EncodeRoundTrip(m: TxMessage)
    ensures var f := Encoding(m);
              && 4 <= |f| <= 8
              && CheckFrame(f) == Valid(|f|)
              && CheckFrameFixed(f) == Valid(|f|)
              && f[1] as int == |f| - 3
              && f[2] == MessageTypeCode(TypeOf(m))
  {
    EncodingBytes(m);
    var f := Encoding(m);
    assert f[..f[1] as int + 2] == Header(m) + PayloadOf(m);
  }

  /** A reference reader for outbound frames: the message a receiver on the
      host side would reconstruct from one whole frame. */
  ghost function Interpret(f: seq<Byte>): Option<TxMessage>
  {
    if CheckFrameFixed(f) != Valid(|f|) then None
    else
      var p := f[3..|f| - 1];
      match MessageTypeFrom(f[2])
      case SensorReport =>
        if |p| != 4 || p[1] != 2 then None
        else
          var v := FromBeBytes(p[2], p[3]);
          if p[0] == 0x01 then Some(Sensor(SoilMoistureData(v)))
          else if p[0] == 0x02 then Some(Sensor(TemperatureData(ToI16(v))))
          else if p[0] == 0x03 then Some(Sensor(HumidityData(v)))
          else if p[0] == 0x04 then Some(Sensor(LightIntensityData(v)))
          else None
      case ActuatorStatus =>
        if |p| != 3 || p[1] != 1 || !(0x10 <= p[0] <= 0x13) then None
        else Some(Actuator(ActuatorFeedback(ActuatorFrom(p[0]), p[2] != 0)))
      case CommandAck =>
        if |p| != 3 || p[1] != 1 || !(0x10 <= p[0] <= 0x13) then None
        else Some(Ack(CommandAck.CommandAck(ActuatorFrom(p[0]), p[2] != 0)))
      case Heartbeat =>
        if |p| == 0 then Some(TxMessage.Heartbeat) else None
      case _ => None
  }

  /** Decoding an encoded message recovers its type and its value. */
  lemma InterpretEncoding(m: TxMessage)
    ensures Interpret(Encoding(m)) == Some(m)
  {
    EncodeRoundTrip(m);
    EncodingBytes(m);
    match m
    case Sensor(d) =>
      match d {
        case SoilMoistureData(v) => BeBytesRoundTrip(v);
        case TemperatureData(v) => BeBytesRoundTrip(I16Bits(v));
        case HumidityData(v) => BeBytesRoundTrip(v);
        case LightIntensityData(v) => BeBytesRoundTrip(v);
      }
    case Actuator(fb) =>
    case Ack(a) =>
    case Heartbeat =>
  }

  /** Actuator feedback and acknowledgement frames are seven bytes carrying
      the TLV (actuator code, 1, 0 or 1). */
  lemma StatusFrameLayout(m: TxMessage)
    requires m.Actuator? || m.Ack?
    ensures var f := Encoding(m);
              && |f| == 7 && f[1] == 4
              && f[2] == (if m.Actuator? then 0x02 else 0x11)
              && f[3] == ActuatorCode(if m.Actuator? then m.status.actuator else m.ack.actuator)
              && f[4] == 1
              && f[5] == BoolByte(if m.Actuator? then m.status.state else m.ack.success)
  {
    EncodingBytes(m);
    var f := Encoding(m);
    assert f[3] == f[3..6][0] && f[4] == f[3..6][1] && f[5] == f[3..6][2];
  }

  /** Sensor frames are eight bytes carrying the TLV (sensor code, 2, high
      byte, low byte) of the reading's 16-bit pattern. */
  lemma SensorFrameLayout(d: SensorData)
    ensures var f := Encoding(Sensor(d));
              && |f| == 8 && f[1] == 5 && f[2] == 0x01
              && f[3] == SensorCode(SensorTagOf(d)) && f[4] == 2
              && FromBeBytes(f[5], f[6]) == SensorBits(d)
  {
    var m := Sensor(d);
    EncodingBytes(m);
    var f := Encoding(m);
    assert PayloadOf(m) == TlvU16Bytes(SensorCode(SensorTagOf(d)), SensorBits(d));
    assert f[3] == f[3..7][0] && f[4] == f[3..7][1] && f[5] == f[3..7][2] && f[6] == f[3..7][3];
    BeBytesRoundTrip(SensorBits(d));
  }

  function SensorTagOf(d: SensorData): SensorTag
  {
    match d
    case SoilMoistureData(_) => SoilMoisture
    case TemperatureData(_) => Temperature
    case HumidityData(_) => Humidity
    case LightIntensityData(_) => LightIntensity
  }

  /** The 16-bit pattern a reading is sent as. */
  function SensorBits(d: SensorData): U16
  {
    match d
    case SoilMoistureData(v) => v
    case TemperatureData(v) => I16Bits(v)
    case HumidityData(v) => v
    case LightIntensityData(v) => v
  }

  /** `calculate_crc`: folds XOR over the bytes from the first to the
      last, which is the checksum Xor defines. */
  method CalculateCrc(data: seq<Byte>) returns (crc: Byte)
    ensures crc == Xor(data)
  {
    crc := 0;
    var i := 0;
    while i < |data|
      invariant 0 <= i <= |data|
      invariant crc == Xor(data[..i])
    {
      assert data[..i + 1][..i] == data[..i];
      crc := ByteXor(crc, data[i]);
      i := i + 1;
    }
    assert data[..i] == data;
  }

  /** `append_tlv_u16`: writes tag, 2 and the big-endian value at `idx` and
      advances the index by four; nothing else in the buffer changes. */
  method AppendTlvU16(buffer: array<Byte>, idx: nat, tag: Byte, val: U16) returns (next: nat)
    requires idx + 4 <= buffer.Length
    modifies buffer
    ensures next == idx + 4
    ensures buffer[idx..next] == TlvU16Bytes(tag, val)
    ensures forall j :: 0 <= j < buffer.Length && !(idx <= j < next) ==> buffer[j] == old(buffer[j])
  {
    next := idx;
    buffer[next] := tag;
    next := next + 1;
    buffer[next] := 2;
    next := next + 1;
    buffer[next] := HighByte(val);
    next := next + 1;
    buffer[next] := LowByte(val);
    next := next + 1;
  }

  /** `append_tlv_i16`: as AppendTlvU16 with the two's-complement bytes. */
  method AppendTlvI16(buffer: array<Byte>, idx: nat, tag: Byte, val: I16) returns (next: nat)
    requires idx + 4 <= buffer.Length
    modifies buffer
    ensures next == idx + 4
    ensures buffer[idx..next] == TlvI16Bytes(tag, val)
    ensures forall j :: 0 <= j < buffer.Length && !(idx <= j < next) ==> buffer[j] == old(buffer[j])
  {
    var bits := I16Bits(val);
    next := idx;
    buffer[next] := tag;
    next := next + 1;
    buffer[next] := 2;
    next := next + 1;
    buffer[next] := HighByte(bits);
    next := next + 1;
    buffer[next] := LowByte(bits);
    next := next + 1;
  }

  /** The `match msg` of `encode_msg`: writes the payload from index 3 on
      and picks the message type; bytes outside the payload are left alone. */
  method WritePayload(msg: TxMessage, buffer: array<Byte>) returns (payloadIdx: nat, msgType: MessageType)
    requires 3 + |PayloadOf(msg)| <= buffer.Length
    modifies buffer
    ensures msgType == TypeOf(msg)
    ensures payloadIdx == 3 + |PayloadOf(msg)|
    ensures buffer[3..payloadIdx] == PayloadOf(msg)
    ensures forall j :: 0 <= j < buffer.Length && !(3 <= j < payloadIdx) ==> buffer[j] == old(buffer[j])
  {
    payloadIdx := 3;
    match msg {
      case Sensor(data) =>
        msgType := SensorReport;
        match data {
          case SoilMoistureData(v) =>
            payloadIdx := AppendTlvU16(buffer, payloadIdx, SensorCode(SoilMoisture), v);
          case TemperatureData(v) =>
            payloadIdx := AppendTlvI16(buffer, payloadIdx, SensorCode(Temperature), v);
          case HumidityData(v) =>
            payloadIdx := AppendTlvU16(buffer, payloadIdx, SensorCode(Humidity), v);
          case LightIntensityData(v) =>
            payloadIdx := AppendTlvU16(buffer, payloadIdx, SensorCode(LightIntensity), v);
        }
      case Actuator(status) =>
        msgType := ActuatorStatus;
        buffer[payloadIdx] := ActuatorCode(status.actuator);
        payloadIdx := payloadIdx + 1;
        buffer[payloadIdx] := 1;
        payloadIdx := payloadIdx + 1;
        buffer[payloadIdx] := if status.state then 1 else 0;
        payloadIdx := payloadIdx + 1;
      case Ack(ack) =>
        msgType := MessageType.CommandAck;
        buffer[payloadIdx] := ActuatorCode(ack.actuator);
        payloadIdx := payloadIdx + 1;
        buffer[payloadIdx] := 1;
        payloadIdx := payloadIdx + 1;
        buffer[payloadIdx] := if ack.success then 1 else 0;
        payloadIdx := payloadIdx + 1;
      case Heartbeat =>
        msgType := MessageType.Heartbeat;
    }
  }

  /** `encode_msg`: writes the frame of `msg` at the start of `buffer` and
      returns its length; bytes after the frame are left alone. */
  method EncodeMsg(msg: TxMessage, buffer: array<Byte>) returns (len: nat)
    requires |Encoding(msg)| <= buffer.Length
    modifies buffer
    ensures len == |Encoding(msg)|
    ensures buffer[..len] == Encoding(msg)
    ensures forall j :: len <= j < buffer.Length ==> buffer[j] == old(buffer[j])
  {
    buffer[0] := SOF;
    var payloadIdx, msgType := WritePayload(msg, buffer);
    ghost var payload := buffer[3..payloadIdx];
    buffer[2] := MessageTypeCode(msgType);
    var payloadLen := payloadIdx - 3;
    var totalBodyLen := 1 + payloadLen;
    buffer[1] := totalBodyLen % 0x100;
    var crcIdx := payloadIdx;
    assert buffer[..3] == Header(msg);
    assert buffer[3..crcIdx] == payload;
    assert buffer[0..crcIdx] == Header(msg) + payload by {
      assert buffer[0..crcIdx] == buffer[..3] + buffer[3..crcIdx];
    }
    var crc := CalculateCrc(buffer[0..crcIdx]);
    buffer[crcIdx] := crc;
    len := crcIdx + 1;
    assert buffer[..len] == Header(msg) + payload + [crc] by {
      assert buffer[..len] == buffer[..crcIdx] + [crc];
    }
  }
}
