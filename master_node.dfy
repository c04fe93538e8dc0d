/**
 * The master node of the dispatch protocol: it advertises on the slave group,
 * waits through a registration window while slaves enter its member map, then
 * hands one StartTestNode command per JVM name round-robin to the members.
 */
module Master {
  import opened Commands
  import opened Transport
  import opened RoundRobin

  /** The script reference and the work list of the master's fixed round. */
  const DemoScript: string := "fooSystemTest.jelly"
  const DemoJvms: seq<string> := ["a", "b", "c"]

  /** Length of the registration window, in milliseconds. */
  const DefaultWaitTime: nat := 2000

  class MasterNode {
    /** The master server's member map: member id to the dispatcher bound to it. */
    var memberMap: map<MemberId, Dispatcher>
    const slaveGroupDispatcher: Dispatcher
    /** The bus every dispatcher of this node sends over. */
    const bus: Bus

    constructor (bus: Bus, slaveGroupDestination: Destination, memberMap: map<MemberId, Dispatcher>)
      ensures this.bus == bus && this.memberMap == memberMap
      ensures slaveGroupDispatcher == Dispatcher(slaveGroupDestination)
    {
      this.bus := bus;
      this.memberMap := memberMap;
      slaveGroupDispatcher := Dispatcher(slaveGroupDestination);
    }

    /**
     * One round: snapshots the member map's dispatchers (in the map's
     * iteration order `order`) into an array of exactly as many entries as
     * the map has, then distributes `jvmNames` over that array. The member
     * map is only read.
     */
    method RoundRobinJvms(xml: string, jvmNames: seq<string>, order: seq<MemberId>)
      returns (err: Option<Failure>)
      requires IsIterationOrder(order, memberMap)
      modifies bus
      ensures memberMap == old(memberMap)
      ensures var r := Round(xml, jvmNames, Snapshot(memberMap, order), bus.unreachable);
        bus.log == old(bus.log) + r.sent && err == r.failure
    {
      var values := Snapshot(memberMap, order);
      var size := |memberMap|;
      var dispatchers := new Dispatcher[size](j requires 0 <= j < size => values[j]);
      assert dispatchers[..] == values;
      err := Distribute(xml, jvmNames, dispatchers);
    }

    /**
     * The dispatch loop of a round: sends StartTestNode(xml, name) for each
     * name of `jvmNames`, in order, to the dispatcher at a running index that
     * goes back to 0 when it reaches the array's size. The first failure, a
     * dispatch that fails or the access to an empty array, ends the loop
     * and is returned; the array is only read.
     */
    method Distribute(xml: string, jvmNames: seq<string>, dispatchers: array<Dispatcher>)
      returns (err: Option<Failure>)
      modifies bus
      ensures var r := Round(xml, jvmNames, dispatchers[..], bus.unreachable);
        bus.log == old(bus.log) + r.sent && err == r.failure
    {
      ghost var values := dispatchers[..];
      ghost var whole := Round(xml, jvmNames, values, bus.unreachable);
      var size := dispatchers.Length;
      var idx := 0;
      var i := 0;
      while i < |jvmNames|
        invariant 0 <= i <= |jvmNames|
        invariant size == 0 ==> i == 0 && idx == 0
        invariant size > 0 ==> 0 <= idx <= size
        invariant size > 0 && idx < size ==> idx == i % size
        invariant size > 0 && idx == size ==> i % size == 0
        invariant bus.log + RoundFrom(xml, jvmNames, values, bus.unreachable, i).sent
                  == old(bus.log) + whole.sent
        invariant RoundFrom(xml, jvmNames, values, bus.unreachable, i).failure == whole.failure
      {
        var jvmName := jvmNames[i];
        if idx >= size {
          idx := 0;
        }
        if idx >= dispatchers.Length {
          err := Some(IndexOutOfBounds(idx, dispatchers.Length));
          return;
        }
        assert dispatchers[idx] == Target(values, i);
        ghost var before := bus.log;
        ghost var rest := RoundFrom(xml, jvmNames, values, bus.unreachable, i + 1);
        err := bus.Dispatch(dispatchers[idx], StartTestNode(xml, jvmName));
        if err.Some? {
          RoundStepFailed(xml, jvmNames, values, bus.unreachable, i);
          return;
        }
        RoundStepDelivered(xml, jvmNames, values, bus.unreachable, i);
        assert bus.log + rest.sent == before + RoundFrom(xml, jvmNames, values, bus.unreachable, i).sent;
        ResetMatchesModulo(i, size);
        i, idx := i + 1, idx + 1;
      }
      err := None;
    }

    /**
     * Advertises with RequestMembers on the slave group, lets the slaves that
     * answer during the registration window (`arrivals`) enter the member
     * map, then runs the fixed round of DemoJvms with DemoScript. A failed
     * advertisement ends the run before anything else happens.
     */
    method Start(arrivals: map<MemberId, Dispatcher>, order: seq<MemberId>) returns (err: Option<Failure>)
      requires IsIterationOrder(order, memberMap + arrivals)
      modifies this, bus
      ensures var advert := Deliver(slaveGroupDispatcher, RequestMembers, bus.unreachable);
        advert.Some? ==> err == advert && bus.log == old(bus.log) && memberMap == old(memberMap)
      ensures var advert := Deliver(slaveGroupDispatcher, RequestMembers, bus.unreachable);
        advert.None? ==>
          memberMap == old(memberMap) + arrivals &&
          var r := Round(DemoScript, DemoJvms, Snapshot(memberMap, order), bus.unreachable);
          bus.log == old(bus.log) + [Message(slaveGroupDispatcher.destination, RequestMembers)] + r.sent &&
          err == r.failure
      ensures forall j :: |old(bus.log)| <= j < |bus.log| ==>
        (bus.log[j].command == RequestMembers <==> j == |old(bus.log)|)
    {
      err := bus.Dispatch(slaveGroupDispatcher, RequestMembers);
      if err.Some? {
        return;
      }
      // the registration window of DefaultWaitTime milliseconds
      memberMap := memberMap + arrivals;
      err := RoundRobinJvms(DemoScript, DemoJvms, order);
      OnlyStartCommands(DemoScript, DemoJvms, Snapshot(memberMap, order), bus.unreachable);
    }
  }
}
