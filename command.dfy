/** src/command.rs: `command_task`, which acknowledges every command and
    routes it to its actuator's queue, and `actuator_task`, which drives
    one output pin from the commands in its queue and reports feedback.
    Each `.await` on a channel is a step that is enabled once the channel
    can complete it; the pulse timer is the step between a pulse's ON and
    its OFF. */
module Command {
  import opened Common
  import opened Protocol
  import opened Channels

  /** The acknowledgement `command_task` sends for a command: success,
      unconditionally, for the command's actuator. */
  function AckFor(c: ControlCommand): (m: TxMessage)
    ensures m.Ack? && m.ack.actuator == c.actuator && m.ack.success
  {
    Ack(CommandAck.CommandAck(c.actuator, true))
  }

  /** The dispatch loop of `command_task`. `current` is the command taken
      from the command channel and not yet forwarded, `acked` whether its
      acknowledgement has been sent. The ghost logs record every command
      received, every acknowledgement sent and every command forwarded. */
  class Dispatcher {
    const commands: Queue<ControlCommand>
    const tx: Queue<TxMessage>
    const fan: Queue<ControlCommand>
    const pump: Queue<ControlCommand>
    const light: Queue<ControlCommand>
    const buzzer: Queue<ControlCommand>
    var current: Option<ControlCommand>
    var acked: bool
    ghost var received: seq<ControlCommand>
    ghost var acks: seq<TxMessage>
    ghost var forwarded: seq<ControlCommand>

    /** The exhaustive match that picks the target sender. */
    function Route(a: ActuatorTag): Queue<ControlCommand>
      reads this
    {
      match a
      case Fan => fan
      case Pump => pump
      case Light => light
      case Buzzer => buzzer
    }

    /** The five command queues are distinct, and the logs say: exactly one
        acknowledgement per received command, sent before it is forwarded,
        and every completed command forwarded unchanged. */
    ghost predicate Valid()
      reads this, commands, tx, fan, pump, light, buzzer
    {
      && commands.Valid() && tx.Valid() && fan.Valid() && pump.Valid() && light.Valid() && buzzer.Valid()
      && commands != fan && commands != pump && commands != light && commands != buzzer
      && fan != pump && fan != light && fan != buzzer && pump != light && pump != buzzer && light != buzzer
      && |acks| <= |received|
      && (forall i :: 0 <= i < |acks| ==> acks[i] == AckFor(received[i]))
      && (current.None? ==> !acked && |acks| == |received| && forwarded == received)
      && (current.Some? ==>
            && received == forwarded + [current.value]
            && |acks| == (if acked then |received| else |forwarded|))
    }

    constructor (commands: Queue<ControlCommand>, tx: Queue<TxMessage>,
                 fan: Queue<ControlCommand>, pump: Queue<ControlCommand>,
                 light: Queue<ControlCommand>, buzzer: Queue<ControlCommand>)
      requires commands.Valid() && tx.Valid() && fan.Valid() && pump.Valid() && light.Valid() && buzzer.Valid()
      requires commands != fan && commands != pump && commands != light && commands != buzzer
      requires fan != pump && fan != light && fan != buzzer && pump != light && pump != buzzer && light != buzzer
      ensures Valid() && current == None
      ensures this.commands == commands && this.tx == tx
      ensures this.fan == fan && this.pump == pump && this.light == light && this.buzzer == buzzer
      ensures received == [] && acks == [] && forwarded == []
    {
      this.commands := commands;
      this.tx := tx;
      this.fan := fan;
      this.pump := pump;
      this.light := light;
      this.buzzer := buzzer;
      current := None;
      acked := false;
      received := [];
      acks := [];
      forwarded := [];
    }

    /** `receiver.receive().await`: the oldest command becomes current. */
    method TakeCommand()
      requires Valid() && current.None? && |commands.items| > 0
      modifies this, commands
      ensures Valid()
      ensures current.Some? && [current.value] + commands.items == old(commands.items)
      ensures !acked && received == old(received) + [current.value]
      ensures acks == old(acks) && forwarded == old(forwarded)
    {
      var cmd := commands.Receive();
      current := Some(cmd);
      received := received + [cmd];
    }

    /** `tx_sender.send(TxMessage::Ack(ack)).await`. */
    method SendAck()
      requires Valid() && current.Some? && !acked && |tx.items| < tx.capacity
      modifies this, tx
      ensures Valid()
      ensures tx.items == old(tx.items) + [AckFor(old(current).value)]
      ensures current == old(current) && acked
      ensures received == old(received) && acks == old(acks) + [AckFor(old(current).value)] && forwarded == old(forwarded)
    {
      var cmd := current.value;
      var ack := CommandAck.CommandAck(cmd.actuator, true);
      tx.Send(Ack(ack));
      acked := true;
      acks := acks + [Ack(ack)];
    }

    /** `target_sender.send(cmd).await`: the command goes, unchanged, to
        the queue its actuator selects; the other actuator queues and the
        command queue are untouched. */
    method Forward()
      requires Valid() && current.Some? && acked
      requires |Route(current.value.actuator).items| < Route(current.value.actuator).capacity
      modifies this, Route(current.value.actuator)
      ensures Valid() && current.None?
      ensures var c := old(current.value);
              && Route(c.actuator).items == old(Route(c.actuator).items) + [c]
              && (forall a :: a != c.actuator ==> Route(a).items == old(Route(a).items))
              && commands.items == old(commands.items)
              && forwarded == old(forwarded) + [c]
      ensures received == old(received) && acks == old(acks)
    {
      var cmd := current.value;
      var target := match cmd.actuator
        case Fan => fan
        case Pump => pump
        case Light => light
        case Buzzer => buzzer;
      target.Send(cmd);
      current := None;
      acked := false;
      forwarded := forwarded + [cmd];
    }
  }

  /** The electrical level that means ON (`on`) or OFF for a polarity. */
  function LevelFor(on: bool, activeHigh: bool): (l: Level)
    ensures l == High <==> on == activeHigh
  {
    if on then (if activeHigh then High else Low)
    else (if activeHigh then Low else High)
  }

  /** The polarity each actuator is wired with: all trigger on high except
      the buzzer, which triggers on low. */
  function ActiveHigh(a: ActuatorTag): (b: bool)
    ensures b <==> a != Buzzer
  {
    match a
    case Fan => true
    case Pump => true
    case Light => true
    case Buzzer => false
  }

  /** An ON command with a nonzero duration is a pulse. */
  predicate IsPulse(c: ControlCommand)
  {
    c.state && c.durationMs > 0
  }

  /** The feedback an executor reports for one command, in order: the
      commanded state, then OFF again if the command is a pulse. */
  function FeedbacksFor(c: ControlCommand): (fs: seq<ActuatorFeedback>)
    ensures 1 <= |fs| <= 2
    ensures fs[0] == ActuatorFeedback(c.actuator, c.state)
    ensures |fs| == 2 <==> IsPulse(c)
    ensures forall k :: 1 <= k < |fs| ==> fs[k] == ActuatorFeedback(c.actuator, false)
  {
    var first := ActuatorFeedback(c.actuator, c.state);
    if IsPulse(c) then [first, ActuatorFeedback(c.actuator, false)] else [first]
  }

  /** All feedback for a sequence of commands handled to completion. */
  function AllFeedbacks(cs: seq<ControlCommand>): seq<ActuatorFeedback>
  {
    if cs == [] then [] else AllFeedbacks(cs[..|cs| - 1]) + FeedbacksFor(cs[|cs| - 1])
  }

  /** The state in the most recent feedback; OFF before any. */
  function LastState(fs: seq<ActuatorFeedback>): bool
  {
    if fs == [] then false else fs[|fs| - 1].state
  }

  /** The level a command leaves the pin at once it is fully handled: OFF
      after a pulse, the commanded state otherwise. */
  function SettledLevel(c: ControlCommand, activeHigh: bool): Level
  {
    if IsPulse(c) then LevelFor(false, activeHigh) else LevelFor(c.state, activeHigh)
  }

  /** The last feedback of a fully handled command names the level the
      pin settles at: feedback and pin never disagree once a command is
      done. */
  lemma {:induction false} FeedbackMatchesLevel(cs: seq<ControlCommand>, activeHigh: bool)
    requires cs != []
    ensures LevelFor(LastState(AllFeedbacks(cs)), activeHigh) == SettledLevel(cs[|cs| - 1], activeHigh)
  {
    var c := cs[|cs| - 1];
    var fs := AllFeedbacks(cs);
    assert fs[|fs| - 1] == FeedbacksFor(c)[|FeedbacksFor(c)| - 1];
  }

  /** Each handled command adds one feedback, or two for a pulse. */
  lemma {:induction false} AllFeedbacksLength(cs: seq<ControlCommand>)
    ensures |cs| <= |AllFeedbacks(cs)| <= 2 * |cs|
  {
    if cs != [] {
      AllFeedbacksLength(cs[..|cs| - 1]);
    }
  }

  /** Where `actuator_task` is suspended: at `receiver.receive().await`,
      at the `send` of the commanded state's feedback, at the pulse's
      `Timer::after` and at the `send` of the pulse's OFF feedback. The
      command being handled is the loop's local `cmd`. */
  datatype ExecutorPhase =
    | AwaitCommand
    | AwaitReport(cmd: ControlCommand)
    | AwaitTimer(cmd: ControlCommand)
    | AwaitReportOff(cmd: ControlCommand)

  /** `actuator_task` for one actuator, one method per `.await`. The
      ghost logs record the commands taken and every feedback sent. */
  class Executor {
    const pin: Pin
    const activeHigh: bool
    const inbox: Queue<ControlCommand>
    const tx: Queue<TxMessage>
    var phase: ExecutorPhase
    ghost var handled: seq<ControlCommand>
    ghost var reported: seq<ActuatorFeedback>

    /** The feedback log is that of the commands handled so far, the
        current one's feedback still to come while it waits to be sent.
        The pin's level is the one the last feedback reports while the
        task waits for a command or for a pulse's timer; while a feedback
        waits for room in the TX queue, the pin already has the new
        level and the log does not yet say so. */
    ghost predicate Valid()
      reads this, pin, inbox, tx
    {
      && inbox.Valid() && tx.Valid()
      && match phase
         case AwaitCommand =>
           && reported == AllFeedbacks(handled)
           && pin.level == LevelFor(LastState(reported), activeHigh)
         case AwaitReport(c) =>
           && handled != [] && handled[|handled| - 1] == c
           && reported == AllFeedbacks(handled[..|handled| - 1])
           && pin.level == LevelFor(c.state, activeHigh)
         case AwaitTimer(c) =>
           && handled != [] && handled[|handled| - 1] == c && IsPulse(c)
           && reported == AllFeedbacks(handled[..|handled| - 1]) + [ActuatorFeedback(c.actuator, true)]
           && pin.level == LevelFor(LastState(reported), activeHigh)
         case AwaitReportOff(c) =>
           && handled != [] && handled[|handled| - 1] == c && IsPulse(c)
           && reported == AllFeedbacks(handled[..|handled| - 1]) + [ActuatorFeedback(c.actuator, true)]
           && pin.level == LevelFor(false, activeHigh)
    }

    /** Start-up: the pin is driven to logical OFF. */
    constructor (activeHigh: bool, inbox: Queue<ControlCommand>, tx: Queue<TxMessage>)
      requires inbox.Valid() && tx.Valid()
      ensures Valid() && fresh(pin)
      ensures pin.level == (if activeHigh then Low else High)
      ensures this.activeHigh == activeHigh && this.inbox == inbox && this.tx == tx
      ensures phase == AwaitCommand && handled == [] && reported == []
    {
      var initialLevel := if activeHigh then Level.Low else Level.High;
      pin := new Pin(initialLevel);
      this.activeHigh := activeHigh;
      this.inbox := inbox;
      this.tx := tx;
      phase := AwaitCommand;
      handled := [];
      reported := [];
    }

    /** `receiver.receive().await`, then the level the command asks for. */
    method ReceiveCommand() returns (cmd: ControlCommand)
      requires Valid() && phase == AwaitCommand && |inbox.items| > 0
      modifies this, pin, inbox
      ensures Valid() && phase == AwaitReport(cmd)
      ensures [cmd] + inbox.items == old(inbox.items)
      ensures pin.level == LevelFor(cmd.state, activeHigh)
      ensures handled == old(handled) + [cmd] && reported == old(reported)
    {
      cmd := inbox.Receive();
      var targetLevel := if cmd.state then (if activeHigh then Level.High else Level.Low)
                         else (if activeHigh then Level.Low else Level.High);
      pin.level := targetLevel;
      phase := AwaitReport(cmd);
      handled := handled + [cmd];
      assert handled[..|handled| - 1] == old(handled);
    }

    /** `tx_sender.send(TxMessage::Actuator(feedback)).await`, once the TX
        queue has room; a pulse then waits for its timer. */
    method ReportState()
      requires Valid() && phase.AwaitReport? && |tx.items| < tx.capacity
      modifies this, tx
      ensures Valid()
      ensures var c := old(phase).cmd;
              && tx.items == old(tx.items) + [Actuator(ActuatorFeedback(c.actuator, c.state))]
              && reported == old(reported) + [ActuatorFeedback(c.actuator, c.state)]
              && phase == (if IsPulse(c) then AwaitTimer(c) else AwaitCommand)
      ensures handled == old(handled)
      ensures pin.level == LevelFor(LastState(reported), activeHigh)
    {
      var cmd := phase.cmd;
      var feedback := ActuatorFeedback(cmd.actuator, cmd.state);
      tx.Send(Actuator(feedback));
      reported := reported + [feedback];
      if cmd.state && cmd.durationMs > 0 {
        phase := AwaitTimer(cmd);
      } else {
        phase := AwaitCommand;
      }
    }

    /** The pulse's `Timer::after` has expired: back to OFF. */
    method EndPulse()
      requires Valid() && phase.AwaitTimer?
      modifies this, pin
      ensures Valid() && phase == AwaitReportOff(old(phase).cmd)
      ensures pin.level == LevelFor(false, activeHigh)
      ensures handled == old(handled) && reported == old(reported)
    {
      var offLevel := if activeHigh then Level.Low else Level.High;
      pin.level := offLevel;
      phase := AwaitReportOff(phase.cmd);
    }

    /** `tx_sender.send(TxMessage::Actuator(feedback_off)).await`, once the
        TX queue has room; the command is then fully handled. */
    method ReportOff()
      requires Valid() && phase.AwaitReportOff? && |tx.items| < tx.capacity
      modifies this, tx
      ensures Valid() && phase == AwaitCommand
      ensures var a := old(phase).cmd.actuator;
              && tx.items == old(tx.items) + [Actuator(ActuatorFeedback(a, false))]
              && reported == old(reported) + [ActuatorFeedback(a, false)]
      ensures handled == old(handled)
      ensures pin.level == LevelFor(LastState(reported), activeHigh)
    {
      var actuator := phase.cmd.actuator;
      var feedbackOff := ActuatorFeedback(actuator, false);
      tx.Send(Actuator(feedbackOff));
      ConcatAssoc(AllFeedbacks(handled[..|handled| - 1]), [ActuatorFeedback(actuator, true)], [feedbackOff]);
      reported := reported + [feedbackOff];
      phase := AwaitCommand;
    }
  }

  /** The wiring in `main`: the TX and command channels and one channel
      per actuator, with their capacities; an executor per actuator with
      its polarity, reading that actuator's channel; the dispatcher
      sending to them. */
  method Wire() returns (d: Dispatcher, fan: Executor, pump: Executor, light: Executor, buzzer: Executor)
    ensures d.Valid() && d.current == None
    ensures d.tx.capacity == UartTxCapacity && d.commands.capacity == CommandCapacity
    ensures d.fan.capacity == ActuatorCapacity && d.pump.capacity == ActuatorCapacity
    ensures d.light.capacity == ActuatorCapacity && d.buzzer.capacity == ActuatorCapacity
    ensures fan.Valid() && fan.inbox == d.fan && fan.tx == d.tx && fan.activeHigh == ActiveHigh(Fan)
    ensures pump.Valid() && pump.inbox == d.pump && pump.tx == d.tx && pump.activeHigh == ActiveHigh(Pump)
    ensures light.Valid() && light.inbox == d.light && light.tx == d.tx && light.activeHigh == ActiveHigh(Light)
    ensures buzzer.Valid() && buzzer.inbox == d.buzzer && buzzer.tx == d.tx && buzzer.activeHigh == ActiveHigh(Buzzer)
  {
    var tx := new Queue<TxMessage>(UartTxCapacity);
    var commands := new Queue<ControlCommand>(CommandCapacity);
    var fanQueue := new Queue<ControlCommand>(ActuatorCapacity);
    var pumpQueue := new Queue<ControlCommand>(ActuatorCapacity);
    var lightQueue := new Queue<ControlCommand>(ActuatorCapacity);
    var buzzerQueue := new Queue<ControlCommand>(ActuatorCapacity);
    fan := new Executor(true, fanQueue, tx);
    pump := new Executor(true, pumpQueue, tx);
    light := new Executor(true, lightQueue, tx);
    buzzer := new Executor(false, buzzerQueue, tx);
    d := new Dispatcher(commands, tx, fanQueue, pumpQueue, lightQueue, buzzerQueue);
  }
}
