/**
 * The message bus the dispatchers send over, reduced to what the dispatch
 * protocol needs: fire-and-forget delivery to named destinations, which
 * either succeeds (and is recorded in the bus's log) or fails.
 */
module Transport {
  import opened Commands

  class Bus {
    /** Every message delivered so far, in delivery order. */
    var log: seq<Message>
    /** The destinations this bus cannot reach; a dispatch to one of them fails. */
    const unreachable: set<Destination>

    constructor (unreachable: set<Destination>)
      ensures log == [] && this.unreachable == unreachable
    {
      log := [];
      this.unreachable := unreachable;
    }

    /**
     * `d.dispatch(cmd)`: delivers `cmd` to `d`'s destination and appends it
     * to the log, or fails with DispatchFailed and leaves the log as it was.
     */
    method Dispatch(d: Dispatcher, cmd: Command) returns (err: Option<Failure>)
      modifies this
      ensures err == Deliver(d, cmd, unreachable)
      ensures log == if err.None? then old(log) + [Message(d.destination, cmd)] else old(log)
    {
      err := Deliver(d, cmd, unreachable);
      if err.None? {
        log := log + [Message(d.destination, cmd)];
      }
    }
  }
}
