/** The receive side of src/uart.rs: `parse_and_send_commands`, which turns
    the TLV payload of a Command frame into control commands, and
    `uart_rx_task`, which keeps a 128-byte window of received bytes, drains
    every complete frame from its front and compacts it. */
module Receiver {
  import opened Common
  import opened Protocol
  import opened Frame

  /** Size of the receive buffer. */
  const RxBufferLen: nat := 128

  /** The window is moved to the front once its end passes this index. */
  const CompactThreshold: nat := 100

  /** The command one TLV with tag `tag` and value `v` sends: length 1
      sets the state to value != 0 with no duration; length 2 is a
      big-endian duration and implies ON; other lengths send nothing. The
      tag goes through ActuatorFrom, so an unknown tag drives the fan. */
  function TlvCommand(tag: Byte, v: seq<Byte>): seq<ControlCommand>
  {
    if |v| == 1 then [ControlCommand(ActuatorFrom(tag), v[0] != 0, 0)]
    else if |v| == 2 then [ControlCommand(ActuatorFrom(tag), true, FromBeBytes(v[0], v[1]))]
    else []
  }

  /** The commands `parse_and_send_commands` sends for a payload, in order:
      one TLV (tag, length, value) after another, until a TLV whose header
      or value runs past the payload ends the parse. */
  function CommandsIn(p: seq<Byte>): seq<ControlCommand>
    decreases |p|
  {
    if |p| < 2 || 2 + p[1] as int > |p| then []
    else TlvCommand(p[0], p[2..2 + p[1] as int]) + CommandsIn(p[2 + p[1] as int..])
  }

  /** One TLV of the parse: its command joins those already sent. */
  lemma ParseStep(p: seq<Byte>, i: nat, valEnd: nat, cmds: seq<ControlCommand>)
    requires i + 2 <= |p| && valEnd == i + 2 + p[i + 1] as int <= |p|
    requires cmds + CommandsIn(p[i..]) == CommandsIn(p)
    ensures (cmds + TlvCommand(p[i], p[i + 2..valEnd])) + CommandsIn(p[valEnd..]) == CommandsIn(p)
  {
    assert p[i..][2..2 + p[i + 1] as int] == p[i + 2..valEnd];
    assert p[i..][2 + p[i + 1] as int..] == p[valEnd..];
    ConcatAssoc(cmds, TlvCommand(p[i], p[i + 2..valEnd]), CommandsIn(p[valEnd..]));
  }

  /** A TLV that runs past the payload ends the parse. */
  lemma ParseStop(p: seq<Byte>, i: nat, cmds: seq<ControlCommand>)
    requires i <= |p| && (i + 2 > |p| || i + 2 + p[i + 1] as int > |p|)
    requires cmds + CommandsIn(p[i..]) == CommandsIn(p)
    ensures cmds == CommandsIn(p)
  {
    assert cmds + [] == cmds;
  }

  /** `parse_and_send_commands`: walks the payload TLV by TLV and returns
      the commands it sends to the command channel, in sending order. */
  method ParseCommands(payload: seq<Byte>) returns (cmds: seq<ControlCommand>)
    ensures cmds == CommandsIn(payload)
  {
    cmds := [];
    var i := 0;
    while i < |payload|
      invariant 0 <= i <= |payload|
      invariant cmds + CommandsIn(payload[i..]) == CommandsIn(payload)
      decreases |payload| - i
    {
      if i + 2 > |payload| {
        ParseStop(payload, i, cmds);
        return;
      }
      var tag := payload[i];
      var len := payload[i + 1];
      var valStart := i + 2;
      var valEnd := valStart + len as int;
      if valEnd > |payload| {
        ParseStop(payload, i, cmds);
        return;
      }
      var valueBytes := payload[valStart..valEnd];
      ParseStep(payload, i, valEnd, cmds);
      var actuator := ActuatorFrom(tag);
      var c: seq<ControlCommand> := [];
      if len == 1 {
        c := [ControlCommand(actuator, valueBytes[0] != 0, 0)];
      } else if len == 2 {
        var val := FromBeBytes(valueBytes[0], valueBytes[1]);
        c := [ControlCommand(actuator, true, val)];
      }
      assert c == TlvCommand(tag, valueBytes);
      cmds := cmds + c;
      i := valEnd;
    }
    ParseStop(payload, i, cmds);
  }

  /** Every command sent takes at least three payload bytes. */
  lemma {:induction false} CommandsBound(p: seq<Byte>)
    ensures 3 * |CommandsIn(p)| <= |p|
    decreases |p|
  {
    if |p| >= 2 && 2 + p[1] as int <= |p| {
      CommandsBound(p[2 + p[1] as int..]);
    }
  }

  /** A TLV for one command as a host would send it: a plain ON/OFF is
      (tag, 1, 0|1); an ON pulse is (tag, 2, duration high, duration low). */
  function CommandTlv(c: ControlCommand): seq<Byte>
  {
    if c.state && c.durationMs > 0 then [ActuatorCode(c.actuator), 2, HighByte(c.durationMs), LowByte(c.durationMs)]
    else [ActuatorCode(c.actuator), 1, BoolByte(c.state)]
  }

  function CommandsTlv(cs: seq<ControlCommand>): seq<Byte>
  {
    if cs == [] then [] else CommandTlv(cs[0]) + CommandsTlv(cs[1..])
  }

  /** A command a host can express: a duration only accompanies ON. */
  predicate Expressible(c: ControlCommand)
  {
    !c.state ==> c.durationMs == 0
  }

  /** Round trip: parsing the TLVs of expressible commands gives those
      commands back, in order. */
  lemma {:induction false} ParseCommandsTlv(cs: seq<ControlCommand>)
    requires forall k :: 0 <= k < |cs| ==> Expressible(cs[k])
    ensures CommandsIn(CommandsTlv(cs)) == cs
  {
    if cs != [] {
      var c := cs[0];
      var t := CommandTlv(c);
      var rest := CommandsTlv(cs[1..]);
      var p := t + rest;
      assert p[2 + p[1] as int..] == rest;
      ParseCommandsTlv(cs[1..]);
      if c.state && c.durationMs > 0 {
        BeBytesRoundTrip(c.durationMs);
      }
    }
  }

  /** An unknown tag is not rejected: it becomes a command for the fan. */
  lemma UnknownTagDrivesFan(tag: Byte, v: Byte)
    requires tag < 0x10 || 0x13 < tag
    ensures CommandsIn([tag, 1, v]) == [ControlCommand(Fan, v != 0, 0)]
  {
    assert [tag, 1, v][3..] == [];
  }

  /** A TLV that announces more value bytes than remain ends the parse:
      nothing after it is sent either. */
  lemma TruncatedTlvStops(tag: Byte, len: Byte, v: seq<Byte>)
    requires |v| < len as int
    ensures CommandsIn([tag, len] + v) == []
  {
  }

  /** The commands a valid frame carries: those of its payload when its
      TYPE is Command, none otherwise. */
  function FrameCommands(f: seq<Byte>): seq<ControlCommand>
    requires |f| >= MinFrameLen
  {
    if f[2] == MessageTypeCode(Command) then CommandsIn(f[3..|f| - 1]) else []
  }

  /** The `Valid` arm of the receive loop for one frame: the payload of a
      Command frame goes to `parse_and_send_commands`; other frames send
      nothing. */
  method FrameCommandsOf(frame: seq<Byte>) returns (cmds: seq<ControlCommand>)
    requires |frame| >= MinFrameLen && frame[1] as int + 3 == |frame|
    ensures cmds == FrameCommands(frame)
  {
    var msgTypeByte := frame[2];
    var payloadLen := frame[1] as int - 1;
    var payload := frame[3..3 + payloadLen];
    if msgTypeByte == MessageTypeCode(Command) {
      cmds := ParseCommands(payload);
    } else {
      cmds := [];
    }
  }

  /** What one drain pass does to a window: how many bytes it consumes and
      which commands it sends. */
  datatype Drained = Drained(consumed: nat, commands: seq<ControlCommand>)

  /** The inner `while` of `uart_rx_task` on the window of valid data,
      with the corrected validator: a Valid frame is consumed whole (and its
      commands sent), a bad header or checksum skips one byte, and an
      incomplete frame or fewer than four bytes stop the pass. What is left
      never starts with a complete frame. */
  function Drain(w: seq<Byte>): (r: Drained)
    ensures r.consumed <= |w|
    decreases |w|
  {
    if |w| < MinFrameLen then Drained(0, [])
    else
      match CheckFrameFixed(w)
      case Valid(len) =>
        var d := Drain(w[len..]);
        Drained(len + d.consumed, FrameCommands(w[..len]) + d.commands)
      case HeaderError =>
        var d := Drain(w[1..]);
        Drained(1 + d.consumed, d.commands)
      case CrcError =>
        var d := Drain(w[1..]);
        Drained(1 + d.consumed, d.commands)
      case Incomplete => Drained(0, [])
  }

  /** One turn of the receive loop's inner `while` on the window `data`
      (the arms of its `match`): a Valid frame is consumed and its commands
      are sent, a bad header or checksum skips one byte, and an incomplete
      frame consumes nothing and ends the pass. */
  method DrainOnce(data: seq<Byte>) returns (advance: nat, cmds: seq<ControlCommand>)
    requires |data| >= MinFrameLen
    ensures advance <= |data|
    ensures advance == 0 <==> CheckFrameFixed(data) == Incomplete
    ensures advance == 0 ==> cmds == [] && Drain(data) == Drained(0, [])
    ensures Drain(data) == Drained(advance + Drain(data[advance..]).consumed, cmds + Drain(data[advance..]).commands)
  {
    match CheckFrameFixed(data) {
      case Valid(len) =>
        var frame := data[..len];
        cmds := FrameCommandsOf(frame);
        advance := len;
      case HeaderError =>
        advance, cmds := 1, [];
      case CrcError =>
        advance, cmds := 1, [];
      case Incomplete =>
        advance, cmds := 0, [];
    }
  }

  /** A drain pass stops only where no complete frame starts: what it
      leaves is shorter than a minimal frame or an incomplete frame. */
  lemma {:induction false} DrainLeavesNoFrame(w: seq<Byte>)
    ensures var k := Drain(w).consumed;
            |w| - k < MinFrameLen || CheckFrameFixed(w[k..]) == Incomplete
    decreases |w|
  {
    if |w| >= MinFrameLen && CheckFrameFixed(w) != Incomplete {
      var r := CheckFrameFixed(w);
      var a := if r.Valid? then r.len else 1;
      var rest := w[a..];
      DrainLeavesNoFrame(rest);
      var k := Drain(rest).consumed;
      assert Drain(w).consumed == a + k;
      assert rest[k..] == w[a + k..];
    }
  }

  /** One iteration of the drain pass, on the running totals: the bytes
      the iteration consumes and the commands it sends join the totals, and
      an iteration that consumes nothing leaves nothing more to drain. */
  method DrainStep(w: seq<Byte>, start: nat, out: seq<ControlCommand>) returns (advance: nat, out': seq<ControlCommand>)
    requires start + MinFrameLen <= |w|
    requires Drain(w).consumed == start + Drain(w[start..]).consumed
    requires Drain(w).commands == out + Drain(w[start..]).commands
    ensures start + advance <= |w|
    ensures advance == 0 ==> Drain(w) == Drained(start, out)
    ensures Drain(w).consumed == start + advance + Drain(w[start + advance..]).consumed
    ensures Drain(w).commands == out' + Drain(w[start + advance..]).commands
  {
    var cmds;
    advance, cmds := DrainOnce(w[start..]);
    assert w[start..][advance..] == w[start + advance..];
    ConcatAssoc(out, cmds, Drain(w[start + advance..]).commands);
    out' := out + cmds;
    if advance == 0 {
      assert out + [] == out;
    }
  }

  /** The drain pass over a window, as the loop of `uart_rx_task` runs it:
      it consumes and sends exactly what Drain does. */
  method DrainPass(w: seq<Byte>) returns (consumed: nat, out: seq<ControlCommand>)
    ensures Drained(consumed, out) == Drain(w)
  {
    var start := 0;
    out := [];
    ghost var total := Drain(w);
    while |w| - start >= MinFrameLen
      invariant start <= |w|
      invariant total.consumed == start + Drain(w[start..]).consumed
      invariant total.commands == out + Drain(w[start..]).commands
      decreases |w| - start
    {
      var advance, out' := DrainStep(w, start, out);
      if advance == 0 {
        consumed := start;
        return;
      }
      out := out';
      start := start + advance;
    }
    DrainStop(w, start, out);
    consumed := start;
  }

  /** The drain pass ends when less than a frame's header and checksum
      remain: the totals then are the whole of Drain. */
  lemma DrainStop(w: seq<Byte>, start: nat, out: seq<ControlCommand>)
    requires start <= |w| < start + MinFrameLen
    requires Drain(w).consumed == start + Drain(w[start..]).consumed
    requires Drain(w).commands == out + Drain(w[start..]).commands
    ensures Drain(w) == Drained(start, out)
  {
    assert Drain(w[start..]) == Drained(0, []);
    assert out + [] == out;
  }

  lemma DrainUnfoldSkip(w: seq<Byte>)
    requires |w| >= MinFrameLen && (CheckFrameFixed(w) == HeaderError || CheckFrameFixed(w) == CrcError)
    ensures Drain(w) == Drained(1 + Drain(w[1..]).consumed, Drain(w[1..]).commands)
  {
  }

  /** Frames are drained one after another: a valid frame at the front is
      consumed whole and its commands come before those of what follows. */
  lemma DrainFrameFirst(f: seq<Byte>, rest: seq<Byte>)
    requires CheckFrameFixed(f) == Valid(|f|)
    ensures Drain(f + rest) == Drained(|f| + Drain(rest).consumed, FrameCommands(f) + Drain(rest).commands)
  {
    ValidFramePrefix(f, rest);
    var w := f + rest;
    assert w[|f|..] == rest;
    assert w[..|f|] == f;
  }

  /** Bytes that cannot start a frame are skipped one at a time, as long as
      a full frame header's worth of data follows them. */
  lemma {:induction false} DrainSkipsNoise(g: seq<Byte>, rest: seq<Byte>)
    requires forall k :: 0 <= k < |g| ==> g[k] != SOF
    requires |rest| >= MinFrameLen
    ensures Drain(g + rest) == Drained(|g| + Drain(rest).consumed, Drain(rest).commands)
    decreases |g|
  {
    if g != [] {
      var w := g + rest;
      assert w[0] == g[0] != SOF;
      assert w[1..] == g[1..] + rest;
      DrainUnfoldSkip(w);
      DrainSkipsNoise(g[1..], rest);
    } else {
      assert g + rest == rest;
    }
  }

  /** A valid frame whose type is not Command is consumed whole and sends
      nothing. */
  lemma DrainNonCommand(f: seq<Byte>, rest: seq<Byte>)
    requires CheckFrameFixed(f) == Valid(|f|) && f[2] != MessageTypeCode(Command)
    ensures Drain(f + rest) == Drained(|f| + Drain(rest).consumed, Drain(rest).commands)
  {
    DrainFrameFirst(f, rest);
    var cmds := Drain(rest).commands;
    assert FrameCommands(f) == [];
    assert [] + cmds == cmds;
  }

  /** Every encoded outbound message that reaches this receiver is consumed
      whole and sends nothing: none of the outbound types is Command. */
  lemma DrainEncoded(m: TxMessage, rest: seq<Byte>)
    ensures Drain(Encoding(m) + rest) == Drained(|Encoding(m)| + Drain(rest).consumed, Drain(rest).commands)
  {
    EncodeRoundTrip(m);
    DrainNonCommand(Encoding(m), rest);
  }

  /** A SOF whose LEN announces 126 bytes or more can never complete inside
      the 128-byte buffer: the pass stops on it and sends nothing. */
  lemma LongFrameStalls(w: seq<Byte>)
    requires MinFrameLen <= |w| <= RxBufferLen && w[0] == SOF && w[1] >= 126
    ensures Drain(w) == Drained(0, [])
  {
  }

  /** The compaction rule, on positions: an emptied window restarts at 0; a
      window whose end passed the threshold moves to the front; any other
      window stays where it is. */
  function Compacted(start: nat, end: nat): (r: (nat, nat))
    requires start <= end
    ensures r.0 <= r.1 && r.1 - r.0 == end - start
    ensures start == end ==> r == (0, 0)
    ensures start < end <= CompactThreshold ==> r == (start, end)
    ensures start < end && CompactThreshold < end ==> r == (0, end - start)
    ensures r.0 != 0 ==> r == (start, end)
  {
    if start > 0 then
      if start == end then (0, 0)
      else if end > CompactThreshold then (0, end - start)
      else (start, end)
    else (start, end)
  }

  /** One result of `with_timeout(read_until_idle(..))`. */
  datatype ReadOutcome =
    | Data(bytes: seq<Byte>)
    | ReadError
    | TimedOut

  /** The bytes a read outcome adds to the window. */
  function Incoming(o: ReadOutcome): seq<Byte>
  {
    if o.Data? then o.bytes else []
  }

  /** Whether the loop goes on to drain after the read: a zero-length read
      and a read error `continue` straight to the next iteration; a timeout
      still drains what is buffered. */
  predicate Proceeds(o: ReadOutcome)
  {
    !(o.ReadError? || (o.Data? && |o.bytes| == 0))
  }

  /** The state of `uart_rx_task` as a value: the window bounds, the bytes
      in the window and the commands sent so far. */
  datatype RxView = RxView(start: nat, end: nat, window: seq<Byte>, sent: seq<ControlCommand>)

  /** The bounds fit the buffer and agree with the window's contents. */
  predicate Bounded(v: RxView)
  {
    v.start <= v.end <= RxBufferLen && |v.window| == v.end - v.start
  }

  /** Bounded, and after every pass the window starts at 0 or ends at or
      before the compaction threshold. */
  predicate ViewValid(v: RxView)
  {
    Bounded(v) && (v.start == 0 || v.end <= CompactThreshold)
  }

  /** The guard at the top of the loop: a full buffer is dropped. */
  function AfterReset(v: RxView): (r: RxView)
    requires Bounded(v)
    ensures Bounded(r) && r.end < RxBufferLen
    ensures v.end >= RxBufferLen ==> r == RxView(0, 0, [], v.sent)
    ensures v.end < RxBufferLen ==> r == v
  {
    if v.end >= RxBufferLen then RxView(0, 0, [], v.sent) else v
  }

  /** Room for a read after the full-buffer reset. */
  function Room(v: RxView): nat
    requires Bounded(v)
  {
    RxBufferLen - AfterReset(v).end
  }

  /** The bytes read land after the window and extend it. */
  function AfterRead(v: RxView, bytes: seq<Byte>): (r: RxView)
    requires Bounded(v) && |bytes| <= RxBufferLen - v.end
    ensures Bounded(r)
  {
    RxView(v.start, v.end + |bytes|, v.window + bytes, v.sent)
  }

  /** The drain pass: the window loses what Drain consumes and the
      commands Drain finds are sent. */
  function AfterDrain(v: RxView): (r: RxView)
    requires Bounded(v)
    ensures Bounded(r)
  {
    var d := Drain(v.window);
    RxView(v.start + d.consumed, v.end, v.window[d.consumed..], v.sent + d.commands)
  }

  /** The compaction: the bounds move, the contents stay. */
  function AfterCompact(v: RxView): (r: RxView)
    requires Bounded(v)
    ensures ViewValid(r)
  {
    var bounds := Compacted(v.start, v.end);
    RxView(bounds.0, bounds.1, v.window, v.sent)
  }

  /** One iteration of the receive loop as a state transition: drop a full
      buffer, append the bytes read, and unless the read says `continue`,
      drain complete frames from the front and compact. */
  function StepSpec(v: RxView, o: ReadOutcome): RxView
    requires Bounded(v) && |Incoming(o)| <= Room(v)
  {
    var v1 := AfterReset(v);
    if Proceeds(o) then AfterCompact(AfterDrain(AfterRead(v1, Incoming(o)))) else v1
  }

  /** Every iteration keeps the receive state valid. */
  lemma StepKeepsValid(v: RxView, o: ReadOutcome)
    requires ViewValid(v) && |Incoming(o)| <= Room(v)
    ensures ViewValid(StepSpec(v, o))
  {
    var v1 := AfterReset(v);
    assert v1 == v || v1.start == 0;
  }

  /** After an iteration that drains, no complete frame is left at the
      front of the window. */
  lemma StepLeavesNoFrame(v: RxView, o: ReadOutcome)
    requires ViewValid(v) && |Incoming(o)| <= Room(v) && Proceeds(o)
    ensures var w := StepSpec(v, o).window;
            |w| < MinFrameLen || CheckFrameFixed(w) == Incomplete
  {
    DrainLeavesNoFrame(AfterReset(v).window + Incoming(o));
  }

  /** A frame that arrives whole in one read into an empty window is
      handled in that iteration: its commands are sent and the window is
      empty again. */
  lemma StepDeliversFrame(v: RxView, f: seq<Byte>)
    requires ViewValid(v) && v.window == [] && |f| <= Room(v)
    requires CheckFrameFixed(f) == Valid(|f|)
    ensures StepSpec(v, Data(f)).sent == v.sent + FrameCommands(f)
    ensures StepSpec(v, Data(f)).window == []
  {
    assert v.window + f == f;
    DrainWholeFrame(f);
  }

  /** A window holding exactly one valid frame is drained completely. */
  lemma DrainWholeFrame(f: seq<Byte>)
    requires CheckFrameFixed(f) == Valid(|f|)
    ensures Drain(f) == Drained(|f|, FrameCommands(f))
  {
    DrainFrameFirst(f, []);
    assert f + [] == f;
    assert FrameCommands(f) + [] == FrameCommands(f);
  }

  /** The state of `uart_rx_task`: its buffer, the window of valid data
      [validStart, validEnd) and the commands it has sent to the command
      channel so far. */
  class RxTask {
    const buffer: array<Byte>
    var validStart: nat
    var validEnd: nat
    var sent: seq<ControlCommand>

    predicate Valid()
      reads this
    {
      && buffer.Length == RxBufferLen
      && validStart <= validEnd <= RxBufferLen
      && (validStart == 0 || validEnd <= CompactThreshold)
    }

    function Window(): seq<Byte>
      reads this, buffer
      requires validStart <= validEnd <= buffer.Length
    {
      buffer[validStart..validEnd]
    }

    function View(): RxView
      reads this, buffer
      requires validStart <= validEnd <= buffer.Length
    {
      RxView(validStart, validEnd, Window(), sent)
    }

    constructor ()
      ensures Valid() && fresh(buffer)
      ensures View() == RxView(0, 0, [], [])
    {
      buffer := new Byte[RxBufferLen](_ => 0);
      validStart := 0;
      validEnd := 0;
      sent := [];
    }

    /** The guard at the top of the loop: a full buffer is dropped. */
    method ResetIfFull()
      requires Valid()
      modifies this`validStart, this`validEnd
      ensures Valid() && validEnd < RxBufferLen
      ensures View() == AfterReset(old(View()))
    {
      if validEnd >= buffer.Length {
        validStart := 0;
        validEnd := 0;
      }
    }

    /** The read: data lands after the window and extends it. */
    method Receive(outcome: ReadOutcome) returns (proceed: bool)
      requires Valid() && validEnd < RxBufferLen
      requires |Incoming(outcome)| <= RxBufferLen - validEnd
      modifies this`validEnd, buffer
      ensures proceed == Proceeds(outcome)
      ensures validStart <= validEnd <= buffer.Length
      ensures View() == if proceed then AfterRead(old(View()), Incoming(outcome)) else old(View())
    {
      match outcome {
        case Data(bytes) =>
          if |bytes| == 0 {
            return false;
          }
          AppendRead(bytes);
          proceed := true;
        case ReadError =>
          proceed := false;
        case TimedOut =>
          proceed := true;
          assert old(Window()) + [] == old(Window());
      }
    }

    /** `read_until_idle` into `buffer[valid_end..]`, then `valid_end +=
        len`: the bytes read land right after the window and extend it. */
    method AppendRead(bytes: seq<Byte>)
      requires validStart <= validEnd && validEnd + |bytes| <= buffer.Length
      modifies this`validEnd, buffer
      ensures validEnd == old(validEnd) + |bytes|
      ensures Window() == old(Window()) + bytes
    {
      forall k | 0 <= k < |bytes| {
        buffer[validEnd + k] := bytes[k];
      }
      validEnd := validEnd + |bytes|;
      assert buffer[old(validStart)..old(validEnd)] == old(Window());
      assert buffer[old(validEnd)..validEnd] == bytes;
    }

    /** The drain pass: consumes what Drain consumes and sends what it
        sends; the end of the window does not move. */
    method DrainWindow()
      requires buffer.Length == RxBufferLen && validStart <= validEnd <= RxBufferLen
      modifies this`validStart, this`sent
      ensures validStart <= validEnd == old(validEnd)
      ensures View() == AfterDrain(old(View()))
    {
      var consumed, out := DrainPass(Window());
      assert buffer[validStart + consumed..validEnd] == Window()[consumed..];
      validStart := validStart + consumed;
      sent := sent + out;
    }

    /** The compaction after the pass; the window's contents do not change. */
    method Compact()
      requires buffer.Length == RxBufferLen && validStart <= validEnd <= RxBufferLen
      modifies this`validStart, this`validEnd, buffer
      ensures Valid()
      ensures View() == AfterCompact(old(View()))
    {
      if validStart > 0 {
        if validStart == validEnd {
          validStart := 0;
          validEnd := 0;
        } else {
          if validEnd > CompactThreshold {
            var len := validEnd - validStart;
            CopyToFront();
            validStart := 0;
            validEnd := len;
          }
        }
      }
    }

    /** `buffer.copy_within(validStart..validEnd, 0)`, front to back. */
    method CopyToFront()
      requires validStart <= validEnd <= buffer.Length
      modifies buffer
      ensures buffer[..validEnd - validStart] == old(Window())
      ensures forall j :: validEnd - validStart <= j < buffer.Length ==> buffer[j] == old(buffer[j])
    {
      var len := validEnd - validStart;
      var k := 0;
      while k < len
        invariant 0 <= k <= len
        invariant buffer[..k] == old(Window())[..k]
        invariant forall j :: k <= j < buffer.Length ==> buffer[j] == old(buffer[j])
      {
        buffer[k] := buffer[validStart + k];
        k := k + 1;
      }
    }

    /** One iteration of the receive loop: the full-buffer reset, the read,
        and, unless the read says `continue`, the drain and the compaction. */
    method Step(outcome: ReadOutcome)
      requires Valid() && |Incoming(outcome)| <= Room(View())
      modifies this`validStart, this`validEnd, this`sent, buffer
      ensures Valid()
      ensures View() == StepSpec(old(View()), outcome)
    {
      ResetIfFull();
      var proceed := Receive(outcome);
      if !proceed {
        return;
      }
      DrainWindow();
      Compact();
    }
  }
}
