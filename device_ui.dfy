/** src/device_ui.rs: the display task's cache of the latest readings and
    actuator states (`UiState`), updated from the `TxMessage`s it receives,
    and the whole/fraction split that `draw_temp` and `draw_humid` print as
    "{whole}.{frac:02}". */
module DeviceUi {
  import opened Common
  import opened Protocol

  /** The cached state as a value. */
  datatype UiView = UiView(
    temp: Option<I16>, humid: Option<U16>, light: Option<U16>, soil: Option<U16>,
    fan: bool, pump: bool, lightAct: bool, buzzer: bool)

  /** `UiState::default()`: nothing read yet, every actuator shown OFF. */
  const DefaultView := UiView(None, None, None, None, false, false, false, false)

  /** One arm of the `ui_task` match: a sensor reading replaces its own
      field, an actuator feedback its own flag; acknowledgements and
      heartbeats are ignored. */
  function Apply(v: UiView, m: TxMessage): UiView
  {
    match m
    case Sensor(d) =>
      (match d
       case TemperatureData(t) => v.(temp := Some(t))
       case HumidityData(h) => v.(humid := Some(h))
       case LightIntensityData(l) => v.(light := Some(l))
       case SoilMoistureData(s) => v.(soil := Some(s)))
    case Actuator(status) =>
      (match status.actuator
       case Fan => v.(fan := status.state)
       case Pump => v.(pump := status.state)
       case Light => v.(lightAct := status.state)
       case Buzzer => v.(buzzer := status.state))
    case Ack(_) => v
    case Heartbeat => v
  }

  /** Whether the arm draws: a reading only when it differs from the cached
      one, a feedback always. */
  function Redraws(v: UiView, m: TxMessage): bool
  {
    match m
    case Sensor(d) =>
      (match d
       case TemperatureData(t) => v.temp != Some(t)
       case HumidityData(h) => v.humid != Some(h)
       case LightIntensityData(l) => v.light != Some(l)
       case SoilMoistureData(s) => v.soil != Some(s))
    case Actuator(_) => true
    case Ack(_) => false
    case Heartbeat => false
  }

  /** `ui_task`'s state: one field per cached value, updated in place. */
  class UiState {
    var temp: Option<I16>
    var humid: Option<U16>
    var light: Option<U16>
    var soil: Option<U16>
    var fan: bool
    var pump: bool
    var lightAct: bool
    var buzzer: bool

    function View(): UiView
      reads this
    {
      UiView(temp, humid, light, soil, fan, pump, lightAct, buzzer)
    }

    /** `UiState::default()`. */
    constructor ()
      ensures View() == DefaultView
    {
      temp := None;
      humid := None;
      light := None;
      soil := None;
      fan := false;
      pump := false;
      lightAct := false;
      buzzer := false;
    }

    /** One iteration of the receive loop; `redraw` says whether anything
        is drawn. */
    method Update(msg: TxMessage) returns (redraw: bool)
      modifies this
      ensures View() == Apply(old(View()), msg)
      ensures redraw == Redraws(old(View()), msg)
    {
      redraw := false;
      match msg {
        case Sensor(data) =>
          match data {
            case TemperatureData(v) =>
              if temp != Some(v) {
                temp := Some(v);
                redraw := true;
              }
            case HumidityData(v) =>
              if humid != Some(v) {
                humid := Some(v);
                redraw := true;
              }
            case LightIntensityData(v) =>
              if light != Some(v) {
                light := Some(v);
                redraw := true;
              }
            case SoilMoistureData(v) =>
              if soil != Some(v) {
                soil := Some(v);
                redraw := true;
              }
          }
        case Actuator(status) =>
          match status.actuator {
            case Fan => fan := status.state;
            case Pump => pump := status.state;
            case Light => lightAct := status.state;
            case Buzzer => buzzer := status.state;
          }
          redraw := true;
        case Ack(_) =>
        case Heartbeat =>
      }
    }
  }

  // ----- Slots: which cached value a message is about -----

  datatype Slot = TempSlot | HumidSlot | LightSlot | SoilSlot | FlagSlot(actuator: ActuatorTag)

  /** The cached value a message writes, if any. */
  function SlotOf(m: TxMessage): Option<Slot>
  {
    match m
    case Sensor(d) =>
      (match d
       case TemperatureData(_) => Some(TempSlot)
       case HumidityData(_) => Some(HumidSlot)
       case LightIntensityData(_) => Some(LightSlot)
       case SoilMoistureData(_) => Some(SoilSlot))
    case Actuator(status) => Some(FlagSlot(status.actuator))
    case Ack(_) => None
    case Heartbeat => None
  }

  datatype SlotValue = Reading(reading: Option<int>) | Switch(on: bool)

  /** The value the view holds in a slot. */
  function Get(v: UiView, s: Slot): SlotValue
  {
    match s
    case TempSlot => Reading(if v.temp.Some? then Some(v.temp.value as int) else None)
    case HumidSlot => Reading(if v.humid.Some? then Some(v.humid.value as int) else None)
    case LightSlot => Reading(if v.light.Some? then Some(v.light.value as int) else None)
    case SoilSlot => Reading(if v.soil.Some? then Some(v.soil.value as int) else None)
    case FlagSlot(a) =>
      Switch(match a
             case Fan => v.fan
             case Pump => v.pump
             case Light => v.lightAct
             case Buzzer => v.buzzer)
  }

  /** The value a message carries for its slot. */
  function Carried(m: TxMessage): SlotValue
    requires SlotOf(m).Some?
  {
    match m
    case Sensor(d) =>
      (match d
       case TemperatureData(t) => Reading(Some(t as int))
       case HumidityData(h) => Reading(Some(h as int))
       case LightIntensityData(l) => Reading(Some(l as int))
       case SoilMoistureData(s) => Reading(Some(s as int)))
    case Actuator(status) => Switch(status.state)
  }

  /** A reading sets its own slot to the value it carries and leaves every
      other slot as it was. */
  lemma ApplySensorFrame(v: UiView, d: SensorData, s: Slot)
    ensures SlotOf(Sensor(d)) == Some(s) ==> Get(Apply(v, Sensor(d)), s) == Carried(Sensor(d))
    ensures SlotOf(Sensor(d)) != Some(s) ==> Get(Apply(v, Sensor(d)), s) == Get(v, s)
  {
    match d
    case TemperatureData(_) =>
    case HumidityData(_) =>
    case LightIntensityData(_) =>
    case SoilMoistureData(_) =>
  }

  /** A feedback sets its own flag and leaves every other slot as it was. */
  lemma ApplyActuatorFrame(v: UiView, status: ActuatorFeedback, s: Slot)
    ensures SlotOf(Actuator(status)) == Some(s) ==> Get(Apply(v, Actuator(status)), s) == Carried(Actuator(status))
    ensures SlotOf(Actuator(status)) != Some(s) ==> Get(Apply(v, Actuator(status)), s) == Get(v, s)
  {
    if s.FlagSlot? {
      match status.actuator
      case Fan =>
      case Pump =>
      case Light =>
      case Buzzer =>
    }
  }

  /** A message sets its own slot to the value it carries and leaves every
      other slot as it was; a message without a slot changes nothing. */
  lemma ApplyFrame(v: UiView, m: TxMessage, s: Slot)
    ensures SlotOf(m) == Some(s) ==> Get(Apply(v, m), s) == Carried(m)
    ensures SlotOf(m) != Some(s) ==> Get(Apply(v, m), s) == Get(v, s)
    ensures SlotOf(m).None? ==> Apply(v, m) == v
  {
    match m
    case Sensor(d) => ApplySensorFrame(v, d, s);
    case Actuator(status) => ApplyActuatorFrame(v, status, s);
    case Ack(_) =>
    case Heartbeat =>
  }

  /** Views that agree on every slot are equal. */
  lemma SlotsDetermineView(v: UiView, w: UiView)
    requires forall s :: Get(v, s) == Get(w, s)
    ensures v == w
  {
    assert Get(v, TempSlot) == Get(w, TempSlot);
    assert Get(v, HumidSlot) == Get(w, HumidSlot);
    assert Get(v, LightSlot) == Get(w, LightSlot);
    assert Get(v, SoilSlot) == Get(w, SoilSlot);
    assert Get(v, FlagSlot(Fan)) == Get(w, FlagSlot(Fan));
    assert Get(v, FlagSlot(Pump)) == Get(w, FlagSlot(Pump));
    assert Get(v, FlagSlot(Light)) == Get(w, FlagSlot(Light));
    assert Get(v, FlagSlot(Buzzer)) == Get(w, FlagSlot(Buzzer));
  }

  /** Applying the same message twice is applying it once, and the second
      time draws nothing unless it is a feedback. */
  lemma ApplyIdempotent(v: UiView, m: TxMessage)
    ensures Apply(Apply(v, m), m) == Apply(v, m)
    ensures !m.Actuator? ==> !Redraws(Apply(v, m), m)
  {
    match m
    case Sensor(d) =>
      match d {
        case TemperatureData(_) =>
        case HumidityData(_) =>
        case LightIntensityData(_) =>
        case SoilMoistureData(_) =>
      }
    case Actuator(status) =>
      match status.actuator {
        case Fan =>
        case Pump =>
        case Light =>
        case Buzzer =>
      }
    case Ack(_) =>
    case Heartbeat =>
  }

  /** The state after a sequence of messages. */
  function ApplyAll(v: UiView, ms: seq<TxMessage>): UiView
  {
    if ms == [] then v else Apply(ApplyAll(v, ms[..|ms| - 1]), ms[|ms| - 1])
  }

  /** The value of the last message in `ms` about slot `s`, if any. */
  function LastFor(ms: seq<TxMessage>, s: Slot): Option<SlotValue>
  {
    if ms == [] then None
    else if SlotOf(ms[|ms| - 1]) == Some(s) then Some(Carried(ms[|ms| - 1]))
    else LastFor(ms[..|ms| - 1], s)
  }

  /** The cache holds, in each slot, the value of the latest message about
      that slot, or what it held before if there was none. */
  lemma {:induction false} ApplyAllLatest(v: UiView, ms: seq<TxMessage>, s: Slot)
    ensures Get(ApplyAll(v, ms), s) == if LastFor(ms, s).Some? then LastFor(ms, s).value else Get(v, s)
  {
    if ms != [] {
      ApplyAllLatest(v, ms[..|ms| - 1], s);
      ApplyFrame(ApplyAll(v, ms[..|ms| - 1]), ms[|ms| - 1], s);
    }
  }

  // ----- Whole and fraction of fixed-point readings -----

  /** Rust's `/` on integers: the quotient truncated toward zero. */
  function TruncDiv(a: int, b: int): (q: int)
    requires b > 0
    ensures a >= 0 ==> q == a / b
    ensures a < 0 ==> q == -((-a) / b)
  {
    if a >= 0 then a / b else -((-a) / b)
  }

  /** Rust's `%` on integers: the remainder has the sign of `a`. */
  function TruncRem(a: int, b: int): (r: int)
    requires b > 0
    ensures a == TruncDiv(a, b) * b + r
    ensures a >= 0 ==> 0 <= r < b
    ensures a < 0 ==> -b < r <= 0
  {
    a - TruncDiv(a, b) * b
  }

  /** `i16::abs` as the release build computes it: `i16::MIN` has no
      positive counterpart and wraps to itself (a debug build panics). */
  function WrappingAbs(v: I16): (a: I16)
    ensures v != -0x8000 ==> a >= 0 && (a == v || a == -v)
  {
    if v == -0x8000 then -0x8000 else if v < 0 then -v else v
  }

  /** `draw_temp` as written: `whole = val / 100`, `frac = val.abs() % 100`;
      the text shows `whole` with its sign, then `frac` with two digits. */
  function TempPartsAsWritten(val: I16): (p: (int, int))
  {
    (TruncDiv(val, 100), TruncRem(WrappingAbs(val), 100))
  }

  /** Away from `i16::MIN` the as-written split has a two-digit fraction and
      the parts rebuild the magnitude. */
  lemma TempPartsAsWrittenBounds(val: I16)
    requires val != -0x8000
    ensures 0 <= TempPartsAsWritten(val).1 < 100
    ensures var (whole, frac) := TempPartsAsWritten(val);
            (if whole < 0 then -whole else whole) * 100 + frac == (if val < 0 then -val else val)
  {
  }

  /** Finding: between -0.99 and -0.01 degrees `whole` is 0 and the minus
      sign is lost; -0.50 and +0.50 give the same parts, so the same text. */
  lemma TempSignLost()
    ensures TempPartsAsWritten(-50) == TempPartsAsWritten(50) == (0, 50)
  {
  }

  /** Finding: at `i16::MIN` the wrapped absolute value leaves a negative
      fraction. */
  lemma TempAbsOverflow()
    ensures TempPartsAsWritten(-0x8000) == (-327, -68)
  {
  }

  /** The reading as `draw_temp` evidently means to show it: a sign, then
      the whole degrees and two fraction digits of the magnitude. */
  datatype TempReading = TempReading(negative: bool, whole: nat, frac: nat)

  function TempParts(val: I16): (r: TempReading)
  {
    var magnitude: int := if val < 0 then -(val as int) else val as int;
    TempReading(val < 0, magnitude / 100, magnitude % 100)
  }

  /** The corrected split denotes exactly `val` for every `i16`, and so
      tells any two readings apart. */
  lemma TempReadingExact(val: I16, other: I16)
    ensures TempParts(val).frac < 100
    ensures TempParts(val).negative <==> val < 0
    ensures val == (if TempParts(val).negative then -1 else 1) * (TempParts(val).whole * 100 + TempParts(val).frac)
    ensures TempParts(val) == TempParts(other) ==> val == other
  {
    var r, q := TempParts(val), TempParts(other);
    assert val == (if r.negative then -1 else 1) * (r.whole * 100 + r.frac);
    assert other == (if q.negative then -1 else 1) * (q.whole * 100 + q.frac);
  }

  /** `draw_humid`: `whole = val / 100`, `frac = val % 100`; the parts
      rebuild the reading and the fraction has two digits. */
  function HumidParts(val: U16): (p: (nat, nat))
    ensures p.0 * 100 + p.1 == val
    ensures p.1 < 100
  {
    (val / 100, val % 100)
  }
}
