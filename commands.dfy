/**
 * The values exchanged by the master/slave dispatch protocol: the commands a
 * master sends, the dispatchers that address one destination each, the
 * messages a bus delivers, and the failures a dispatch round can end with.
 */
module Commands {

  datatype Option<+T> = None | Some(value: T)

  /** A named destination of the message bus (a topic, a queue, a reply-to address). */
  type Destination = string

  /** A member of the slave group is known by its reply-to destination. */
  type MemberId = string

  /**
   * A command is a value naming an operation and its parameters; the receiver
   * executes it, never the dispatcher that sends it.
   */
  datatype Command =
    | RequestMembers
    | StartTestNode(xml: string, jvmName: string)

  /** A dispatcher binds one destination to the "deliver this command" operation. */
  datatype Dispatcher = Dispatcher(destination: Destination)

  /** One delivery performed by the bus: a command sent to a destination. */
  datatype Message = Message(destination: Destination, command: Command)

  /**
   * How a dispatch can fail:
   * IndexOutOfBounds is the array access `dispatchers[idx]` of the round with
   * an index outside the snapshot (the round has no other empty-cluster check);
   * DispatchFailed is a dispatch that could not reach its destination.
   */
  datatype Failure =
    | IndexOutOfBounds(index: int, length: int)
    | DispatchFailed(destination: Destination, command: Command)

  /**
   * The outcome of handing `cmd` to dispatcher `d` on a bus that cannot reach
   * the destinations in `unreachable`: None when the command is delivered.
   */
  function Deliver(d: Dispatcher, cmd: Command, unreachable: set<Destination>): (r: Option<Failure>)
    ensures r.None? <==> d.destination !in unreachable
    ensures r.Some? ==> r.value.DispatchFailed? && r.value.destination == d.destination && r.value.command == cmd
  {
    if d.destination in unreachable then Some(DispatchFailed(d.destination, cmd)) else None
  }
}
