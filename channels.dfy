/** The bounded FIFO channels the firmware's tasks talk through
    (`embassy_sync::channel::Channel`), and their capacities. */
module Channels {

  /** `UART_TX_CHANNEL`: messages for the UART transmitter. */
  const UartTxCapacity: nat := 8

  /** `COMMAND_CHANNEL`: commands from the UART receiver to the dispatcher. */
  const CommandCapacity: nat := 4

  /** `ActuatorChannel`: one per actuator, from the dispatcher to its
      executor. */
  const ActuatorCapacity: nat := 2

  /** A bounded FIFO queue. A `send` on a full queue and a `receive` on an
      empty one wait in the firmware; here they are steps that are only
      enabled when they can complete, which their preconditions state. */
  class Queue<T> {
    var items: seq<T>
    const capacity: nat

    predicate Valid()
      reads this
    {
      0 < capacity && |items| <= capacity
    }

    constructor (cap: nat)
      requires 0 < cap
      ensures Valid() && items == [] && capacity == cap
    {
      items := [];
      capacity := cap;
    }

    /** `sender.send(x).await`, once there is room. */
    method Send(x: T)
      requires Valid() && |items| < capacity
      modifies this
      ensures Valid() && items == old(items) + [x]
    {
      items := items + [x];
    }

    /** `receiver.receive().await`, once there is an item: the oldest. */
    method Receive() returns (x: T)
      requires Valid() && |items| > 0
      modifies this
      ensures Valid() && [x] + items == old(items)
    {
      x := items[0];
      items := items[1..];
    }
  }
}
