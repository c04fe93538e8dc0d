# SysUnit master node: round-robin work distribution

This project models the master node of SysUnit's distributed dispatch protocol
(`MasterNode` in the JMS transport). The master first advertises on the slave
group with a `RequestMembersCommand`. It then waits through a registration
window, while answering slaves enter the member map of its `MasterServer`.
Finally it runs a round (`roundRobbinJvms`). The round snapshots the member
map's dispatchers into an array. It then sends one
`StartTestNodeCommand(xml, jvmName)` per JVM name of the work list, in list
order, to the dispatcher at a running index. That index is incremented after
each name and put back to 0 when it reaches the array's size.

Layout:

- `commands.dfy` (module `Commands`): commands, dispatchers, delivered messages, failures, and `Deliver`, the outcome of one dispatch.
- `transport.dfy` (module `Transport`): the message bus as a class. It has a log of delivered messages and a fixed set of unreachable destinations. `Dispatch` either appends to the log or fails.
- `round_robin.dfy` (module `RoundRobin`): the reference definition of a round, stated with `i mod k` (`RoundFrom`, `Round`), the member-map snapshot (`Snapshot`), and the lemmas about them.
- `master_node.dfy` (module `Master`): the `MasterNode` class. `RoundRobinJvms` and `Distribute` together are `roundRobbinJvms`: the snapshot and then the loop with the reset-to-0 index. `Start` is `start()`. Each method's postcondition ties the bus log and the returned failure to the reference definition.

Modelling decisions:

- The iteration order of the member map's `HashMap` is not specified. It is an input `order` that lists every member id of the map exactly once (`IsIterationOrder`).
- Which dispatches fail is a property of the bus: `Deliver` is the send-or-fail abstraction of `Dispatcher.dispatch`. A dispatch to a destination in `unreachable` fails with `DispatchFailed`, and every other dispatch is delivered. A failure propagates out of the round at once, as the `DispatchException` does.
- The round has no dedicated empty-cluster check. With an empty member map and a non-empty work list, the access `dispatchers[0]` fails with an array index out of bounds before anything is sent. The code has no distinct empty-cluster error; the model returns `IndexOutOfBounds(0, 0)` with an empty trace, as the array access does.
- The registration window (`Thread.sleep(waitTime)`, 2000 ms by default, `DefaultWaitTime`) is the step where the slaves that answered (`arrivals`) enter the member map. A later answer from the same member id overwrites the earlier one.

## Model

| member | source | states |
|---|---|---|
| Transport.Bus.Dispatch | sysunit-old/src/java/org/sysunit/transport/jms/MasterNode.java:108 | a delivered command is appended to the bus log; a failed one leaves the log unchanged and is returned |
| RoundRobin.Snapshot | sysunit-old/src/java/org/sysunit/transport/jms/MasterNode.java:96-99 | the dispatcher array has exactly as many entries as the member map, every member's dispatcher is in it, and every entry is some member's dispatcher |
| RoundRobin.SnapshotOnePerMember | sysunit-old/src/java/org/sysunit/transport/jms/MasterNode.java:96-99 | the array's entries match the member ids one-to-one: each entry is the dispatcher of its own member id, so a dispatcher two members share occurs once for each of them |
| RoundRobin.RoundFrom | sysunit-old/src/java/org/sysunit/transport/jms/MasterNode.java:101-109 | a round never sends more commands than there are names; it completes without failure exactly when it has sent one command per name |
| RoundRobin.ResetMatchesModulo | sysunit-old/src/java/org/sysunit/transport/jms/MasterNode.java:102-107 | incrementing the index and resetting it to 0 when it reaches the size counts modulo the size |
| RoundRobin.SentAt | sysunit-old/src/java/org/sysunit/transport/jms/MasterNode.java:101-108 | the j-th message sent goes to dispatcher j mod k. It carries the same script reference and the j-th name, and its target was reachable |
| RoundRobin.RoundAssignsModulo | sysunit-old/src/java/org/sysunit/transport/jms/MasterNode.java:101-108 | over a whole round, message j is StartTestNode(xml, jvms[j]) sent to dispatcher j mod k, in list order |
| RoundRobin.CompletesIff | sysunit-old/src/java/org/sysunit/transport/jms/MasterNode.java:97-108 | a round completes if and only if the work list is empty, or there are members and every item's target is reachable |
| RoundRobin.FailsAtFirstUndeliverable | sysunit-old/src/java/org/sysunit/transport/jms/MasterNode.java:94-108 | a failed round stops at the first item it cannot hand over. With no members, nothing is sent and the failure is the out-of-bounds access at index 0. Otherwise the failure is that item's DispatchFailed |
| RoundRobin.FiveItemsOverThreeMembers | sysunit-old/src/java/org/sysunit/transport/jms/MasterNode.java:101-108 | five items over three reachable members go to members 0, 1, 2, 0, 1 |
| RoundRobin.OnlyStartCommands | sysunit-old/src/java/org/sysunit/transport/jms/MasterNode.java:103-108 | every message of a round is StartTestNode carrying the script reference and the name of its own item |
| Master.MasterNode.constructor | sysunit-old/src/java/org/sysunit/transport/jms/MasterNode.java:67-72 | the node keeps its bus and member map; its slave-group dispatcher is bound to the slave-group destination |
| Master.MasterNode.RoundRobinJvms | sysunit-old/src/java/org/sysunit/transport/jms/MasterNode.java:94-110 | the bus log grows by exactly the reference round over the snapshot, the returned failure is the round's, and the member map is unchanged |
| Master.MasterNode.Distribute | sysunit-old/src/java/org/sysunit/transport/jms/MasterNode.java:101-109 | the loop with the reset-to-0 index sends exactly what the reference round sends over the array, and returns its failure |
| Master.MasterNode.Start | sysunit-old/src/java/org/sysunit/transport/jms/MasterNode.java:74-87 | RequestMembers goes to the slave group first. A failed advertisement ends the run with nothing else changed. Otherwise the arrivals join the member map and the round of a, b, c with fooSystemTest.jelly follows, and no later message is a RequestMembers |

## Left out

- JMS plumbing: `Messenger`, `MessengerManager`, `Destination` lookup, `JmsDispatcher`, the reply-to destination of the slave-group dispatcher, and the group destination the constructor hands to the `Node` superclass. These are foreign library calls; a dispatcher is modelled as the destination it is bound to.
- The `main` entry point: the messenger lookup, its console output, and the argument that overrides the slave-group subject. These are I/O.
- `Thread.sleep(waitTime)`: wall-clock time and an `InterruptedException` are not modelled. The window is only the step where arrivals join the member map.
- How the member map is filled by `MasterServer` from asynchronous slave replies. That code is not part of this model; its effect is the `arrivals` parameter of `Start`.
- Start: the member map is assumed frozen from the end of the registration window through the snapshot. The code has no such cutoff: a reply that arrives after the sleep but before the map's values are read joins the round, and the model does not capture that.
- RoundRobinJvms: the race between `size()` and `toArray` is not modelled. A map that grows in between makes `toArray` return a new array that the code discards, so the array keeps null entries and the first dispatch throws a NullPointerException.
- Failures that depend on time or on the order of sends. The set of unreachable destinations is fixed for the lifetime of a bus.
- The local test-bean manager and the synchronizer are not modelled: what they do is thread scheduling and wall-clock timeouts.
