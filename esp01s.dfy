/** src/esp01s.rs: the frames exchanged with the ESP-01S Wi-Fi module, the
    hand-written `Action` parser ("On", "Off", "Pulse(N)"), the `FrameType`
    projections, and the relay bank that executes actions on its pins. */
module Esp01s {
  import opened Common

  datatype FrameTypeError = NotReport | NotCommand | NotReceipt

  datatype Target = Water | Light | Fan | Buzzer

  /** `Duration(n)` holds its pulse length in seconds. */
  datatype Action = On | Off | Duration(seconds: U64)

  datatype DataReportFrame = DataReportFrame(
    temp: Byte, humi: Byte, soil: Byte, lux: U16,
    water: bool, light: bool, fan: bool, buzzer: bool)

  datatype CommandExecuteFrame = CommandExecuteFrame(target: Target, action: Action)

  datatype ExecutionReceiptFrame = ExecutionReceiptFrame(target: Target, action: Action, result: bool)

  datatype FrameType =
    | DataReport(report: DataReportFrame)
    | CommandExecute(command: CommandExecuteFrame)
    | ExecutionReceipt(receipt: ExecutionReceiptFrame)

  /** `FrameType::analysis_report`. */
  function AnalysisReport(f: FrameType): (r: Result<DataReportFrame, FrameTypeError>)
    ensures r.Ok? <==> f.DataReport?
    ensures r.Ok? ==> f == DataReport(r.value)
    ensures r.Err? ==> r.error == NotReport
  {
    if f.DataReport? then Ok(f.report) else Err(NotReport)
  }

  /** `FrameType::analysis_command`. */
  function AnalysisCommand(f: FrameType): (r: Result<CommandExecuteFrame, FrameTypeError>)
    ensures r.Ok? <==> f.CommandExecute?
    ensures r.Ok? ==> f == CommandExecute(r.value)
    ensures r.Err? ==> r.error == NotCommand
  {
    if f.CommandExecute? then Ok(f.command) else Err(NotCommand)
  }

  /** `FrameType::analysis_receipt`. */
  function AnalysisReceipt(f: FrameType): (r: Result<ExecutionReceiptFrame, FrameTypeError>)
    ensures r.Ok? <==> f.ExecutionReceipt?
    ensures r.Ok? ==> f == ExecutionReceipt(r.value)
    ensures r.Err? ==> r.error == NotReceipt
  {
    if f.ExecutionReceipt? then Ok(f.receipt) else Err(NotReceipt)
  }

  // ----- Decimal text and `u64::from_str` -----

  const U64Max: nat := 0xFFFF_FFFF_FFFF_FFFF

  predicate IsDigit(c: char)
  {
    '0' <= c <= '9'
  }

  /** The value of an ASCII digit. */
  function DigitOf(c: char): Digit
    requires IsDigit(c)
  {
    c as int - '0' as int
  }

  /** The ASCII digit for a value below ten. */
  function DigitChar(d: nat): (c: char)
    requires d < 10
    ensures IsDigit(c) && DigitOf(c) == d
  {
    ('0' as int + d) as char
  }

  /** The digit values of a string of ASCII digits. */
  function DigitValues(s: string): (ds: seq<Digit>)
    requires forall i :: 0 <= i < |s| ==> IsDigit(s[i])
    ensures |ds| == |s|
    ensures forall i :: 0 <= i < |s| ==> ds[i] == DigitOf(s[i])
  {
    if s == [] then [] else [DigitOf(s[0])] + DigitValues(s[1..])
  }

  /** The decimal text of `n`, without sign or leading zeros. */
  function DecimalText(n: nat): (s: string)
    ensures 1 <= |s|
    ensures forall i :: 0 <= i < |s| ==> IsDigit(s[i])
  {
    var ds := Digits(n);
    seq(|ds|, i requires 0 <= i < |ds| => DigitChar(ds[i]))
  }

  /** `str::parse::<u64>`: an optional leading '+', then one or more ASCII
      digits whose value fits in 64 bits. An empty string, a lone '+', any
      other character and an overflowing value are errors. */
  function ParseU64(s: string): (r: Option<U64>)
    ensures r.Some? ==> |s| > 0 && (s[0] == '+' ==> |s| > 1)
  {
    var body := if |s| > 0 && s[0] == '+' then s[1..] else s;
    if body == [] then None
    else if !(forall i :: 0 <= i < |body| ==> IsDigit(body[i])) then None
    else
      var v := DigitsValue(DigitValues(body));
      if v > U64Max then None else Some(v)
  }

  /** The decimal text of any 64-bit value parses back to that value, with
      or without a leading '+'. */
  lemma ParseDecimalText(n: U64)
    ensures ParseU64(DecimalText(n)) == Some(n)
    ensures ParseU64("+" + DecimalText(n)) == Some(n)
  {
    var s := DecimalText(n);
    assert DigitValues(s) == Digits(n);
    DigitsDenote(n);
    assert ("+" + s)[1..] == s;
  }

  /** A digit string denoting more than 64 bits is refused. */
  lemma ParseOverflow(s: string)
    requires |s| > 0 && forall i :: 0 <= i < |s| ==> IsDigit(s[i])
    requires DigitsValue(DigitValues(s)) > U64Max
    ensures ParseU64(s) == None
  {
  }

  // ----- The `Action` parser -----

  datatype ActionError = InvalidPulseDuration | InvalidAction

  const PulsePrefix: string := "Pulse("

  /** `s.starts_with("Pulse(") && s.ends_with(')')`. */
  predicate PulseShaped(s: string)
  {
    |s| >= |PulsePrefix| && s[..|PulsePrefix|] == PulsePrefix && |s| > 0 && s[|s| - 1] == ')'
  }

  /** `impl Deserialize for Action`, given the string value. */
  function ParseAction(s: string): (r: Result<Action, ActionError>)
    ensures r == Ok(On) <==> s == "On"
    ensures r == Ok(Off) <==> s == "Off"
    ensures r.Ok? && r.value.Duration? <==>
              PulseShaped(s) && ParseU64(s[|PulsePrefix|..|s| - 1]).Some?
    ensures r.Ok? && r.value.Duration? ==> r.value.seconds == ParseU64(s[|PulsePrefix|..|s| - 1]).value
    ensures r == Err(InvalidPulseDuration) <==>
              PulseShaped(s) && ParseU64(s[|PulsePrefix|..|s| - 1]).None?
    ensures r == Err(InvalidAction) <==> s != "On" && s != "Off" && !PulseShaped(s)
  {
    if s == "On" then Ok(On)
    else if s == "Off" then Ok(Off)
    else if PulseShaped(s) then
      match ParseU64(s[|PulsePrefix|..|s| - 1])
      case Some(n) => Ok(Duration(n))
      case None => Err(InvalidPulseDuration)
    else Err(InvalidAction)
  }

  /** The string form the parser accepts for each action (its inverse). */
  function ActionText(a: Action): string
  {
    match a
    case On => "On"
    case Off => "Off"
    case Duration(n) => PulsePrefix + DecimalText(n) + ")"
  }

  /** The text of a pulse is pulse-shaped, is neither "On" nor "Off", and
      carries the decimal text of its duration between the parentheses. */
  lemma PulseTextShape(n: U64)
    ensures var s := PulsePrefix + DecimalText(n) + ")";
            && PulseShaped(s) && s != "On" && s != "Off"
            && s[|PulsePrefix|..|s| - 1] == DecimalText(n)
  {
    var t := DecimalText(n);
    var s := PulsePrefix + t + ")";
    assert |s| == |PulsePrefix| + |t| + 1;
    assert s[..|PulsePrefix|] == PulsePrefix;
    assert s[|s| - 1] == ')';
    assert s[|PulsePrefix|..|s| - 1] == t;
  }

  /** Every action survives printing and parsing. */
  lemma ParseActionText(a: Action)
    ensures ParseAction(ActionText(a)) == Ok(a)
  {
    if a.Duration? {
      PulseTextShape(a.seconds);
      ParseDecimalText(a.seconds);
    }
  }

  /** "Pulse()" carries no number: an invalid pulse duration, not an invalid
      action. */
  lemma EmptyPulseRejected()
    ensures ParseAction("Pulse()") == Err(InvalidPulseDuration)
  {
    assert "Pulse()"[6..6] == [];
  }

  // ----- Executing actions on the relay pins -----

  /** The level `Action::execution` leaves its pin at: High for On and for a
      pulse (which is never switched back off), Low for Off. */
  function ExecutedLevel(a: Action): (l: Level)
    ensures l == Low <==> a == Off
  {
    match a
    case On => High
    case Off => Low
    case Duration(_) => High
  }

  /** `Action::execution`: drive the pin, wait out a pulse, and report the
      same action. */
  method Execution(action: Action, pin: Pin) returns (executed: Action)
    modifies pin
    ensures executed == action
    ensures pin.level == ExecutedLevel(action)
  {
    match action
    case On =>
      pin.level := High;
      executed := On;
    case Off =>
      pin.level := Low;
      executed := Off;
    case Duration(seconds) =>
      pin.level := High;
      executed := Duration(seconds);
  }

  /** `Relay`: the four relay pins. */
  class Relay {
    const fan: Pin
    const buzzer: Pin
    const water: Pin
    const light: Pin

    ghost predicate Valid()
      reads this
    {
      fan != buzzer && fan != water && fan != light && buzzer != water && buzzer != light && water != light
    }

    ghost function Pins(): set<Pin>
      reads this
    {
      {fan, buzzer, water, light}
    }

    function PinFor(t: Target): Pin
      reads this
    {
      match t
      case Fan => fan
      case Buzzer => buzzer
      case Water => water
      case Light => light
    }

    constructor (fan: Pin, buzzer: Pin, water: Pin, light: Pin)
      requires fan != buzzer && fan != water && fan != light && buzzer != water && buzzer != light && water != light
      ensures Valid()
      ensures this.fan == fan && this.buzzer == buzzer && this.water == water && this.light == light
    {
      this.fan := fan;
      this.buzzer := buzzer;
      this.water := water;
      this.light := light;
    }

    /** `Relay::execute_action`: only the target's pin changes, and the
        receipt names the target and the action and reports success. */
    method ExecuteAction(target: Target, action: Action) returns (receipt: ExecutionReceiptFrame)
      requires Valid()
      modifies PinFor(target)
      ensures receipt == ExecutionReceiptFrame(target, action, true)
      ensures PinFor(target).level == ExecutedLevel(action)
      ensures forall t :: t != target ==> PinFor(t).level == old(PinFor(t).level)
    {
      var executedAction;
      match target {
        case Fan => executedAction := Execution(action, fan);
        case Buzzer => executedAction := Execution(action, buzzer);
        case Water => executedAction := Execution(action, water);
        case Light => executedAction := Execution(action, light);
      }
      receipt := ExecutionReceiptFrame(target, executedAction, true);
    }
  }

  /** `Esp01s::command_execute`: a frame that is not a command is refused
      with NotCommand and touches no pin; a command is executed. */
  method ExecuteCommand(command: FrameType, relay: Relay) returns (r: Result<ExecutionReceiptFrame, FrameTypeError>)
    requires relay.Valid()
    modifies relay.Pins()
    ensures !command.CommandExecute? ==> r == Err(NotCommand)
    ensures !command.CommandExecute? ==> forall t :: relay.PinFor(t).level == old(relay.PinFor(t).level)
    ensures command.CommandExecute? ==>
              && r == Ok(ExecutionReceiptFrame(command.command.target, command.command.action, true))
              && relay.PinFor(command.command.target).level == ExecutedLevel(command.command.action)
              && forall t :: t != command.command.target ==> relay.PinFor(t).level == old(relay.PinFor(t).level)
  {
    var frame := AnalysisCommand(command);
    if frame.Err? {
      return Err(frame.error);
    }
    var receipt := relay.ExecuteAction(frame.value.target, frame.value.action);
    return Ok(receipt);
  }
}
