/**
 * The reference definition of one work-distribution round of the master node:
 * the snapshot of the member map into a fixed-order dispatcher array, and the
 * round-robin assignment of one StartTestNode command per JVM name, stated
 * with `i % k` rather than with the running index the master keeps.
 */
module RoundRobin {
  import opened Commands

  /** No element of `s` occurs twice. */
  predicate Distinct<T(==)>(s: seq<T>) {
    forall a, b :: 0 <= a < b < |s| ==> s[a] != s[b]
  }

  /**
   * `order` is an iteration order of `members`: it lists every member id of
   * the map exactly once (the map's own iteration order is not specified).
   */
  predicate IsIterationOrder(order: seq<MemberId>, members: map<MemberId, Dispatcher>) {
    && Distinct(order)
    && (forall id :: id in order ==> id in members)
    && (forall id :: id in members ==> id in order)
  }

  lemma {:induction false} DistinctCardinality<T>(s: seq<T>)
    requires Distinct(s)
    ensures |set x | x in s| == |s|
  {
    if s != [] {
      DistinctCardinality(s[1..]);
      assert (set x | x in s) == {s[0]} + (set x | x in s[1..]);
      assert s[0] !in (set x | x in s[1..]);
    }
  }

  /**
   * The dispatcher array the round builds from the member map's values, in
   * the map's iteration order: one entry per member, every member's
   * dispatcher is in it, and every entry is some member's dispatcher.
   */
  function Snapshot(members: map<MemberId, Dispatcher>, order: seq<MemberId>): (s: seq<Dispatcher>)
    requires IsIterationOrder(order, members)
    ensures |s| == |members|
    ensures forall id :: id in members ==> members[id] in s
    ensures forall d :: d in s <==> d in members.Values
  {
    DistinctCardinality(order);
    assert (set x | x in order) == members.Keys;
    var s := seq(|order|, j requires 0 <= j < |order| => members[order[j]]);
    assert forall id :: id in members ==> exists j :: 0 <= j < |order| && order[j] == id && s[j] == members[id];
    s
  }

  /**
   * The snapshot's entries match the member ids one-to-one: entry `j` is the
   * dispatcher of a member id of its own, so a dispatcher that two members
   * share occurs once for each of them.
   */
  lemma SnapshotOnePerMember(members: map<MemberId, Dispatcher>, order: seq<MemberId>)
    requires IsIterationOrder(order, members)
    ensures var s := Snapshot(members, order);
      exists ids: seq<MemberId> ::
        && |ids| == |s| && Distinct(ids)
        && forall j :: 0 <= j < |s| ==> ids[j] in members && s[j] == members[ids[j]]
  {
    var s := Snapshot(members, order);
    assert |order| == |s| && Distinct(order) &&
      forall j :: 0 <= j < |s| ==> order[j] in members && s[j] == members[order[j]];
  }

  /** The dispatcher of `members` that work item `i` goes to. */
  function Target(members: seq<Dispatcher>, i: nat): Dispatcher
    requires |members| > 0
  {
    members[i % |members|]
  }

  /** A non-zero multiple of `k` is at least `k`. */
  lemma {:induction false} MulAtLeast(k: int, d: int)
    requires k > 0 && d > 0
    ensures k * d >= k
    decreases d
  {
    if d > 1 {
      MulAtLeast(k, d - 1);
      assert k * d == k * (d - 1) + k;
    }
  }

  /** The remainder of `a` by `k` is the `r` of any split `a == k * q + r` with `0 <= r < k`. */
  lemma ModUnique(a: int, k: int, q: int, r: int)
    requires k > 0 && a == k * q + r && 0 <= r < k
    ensures a % k == r
  {
    var q', r' := a / k, a % k;
    assert a == k * q' + r';
    assert k * (q - q') == r' - r;
    if q > q' {
      MulAtLeast(k, q - q');
    } else if q < q' {
      MulAtLeast(k, q' - q);
    }
  }

  /**
   * The master's running index, incremented after each item and put back to
   * 0 when it reaches `k`, counts modulo `k`: from item `i` to item `i + 1`
   * the residue moves on by one, or wraps to 0.
   */
  lemma {:induction false} ResetMatchesModulo(i: nat, k: nat)
    requires k > 0
    ensures (i + 1) % k == if i % k + 1 == k then 0 else i % k + 1
  {
    var q, r := i / k, i % k;
    assert i == k * q + r;
    if r + 1 == k {
      ModUnique(i + 1, k, q + 1, 0);
    } else {
      ModUnique(i + 1, k, q, r + 1);
    }
  }

  /** What a round sends, in order, and the failure it ends with, if any. */
  datatype RoundResult = RoundResult(sent: seq<Message>, failure: Option<Failure>)

  /**
   * The round over the work items from position `i` on: item `j` goes to
   * `Target(members, j)` as StartTestNode(xml, jvms[j]); the round stops at
   * the first item whose dispatch fails, and with no members at all the very
   * first item fails on the array access at index 0.
   */
  function RoundFrom(xml: string, jvms: seq<string>, members: seq<Dispatcher>,
                     unreachable: set<Destination>, i: nat): (r: RoundResult)
    requires i <= |jvms|
    ensures i + |r.sent| <= |jvms|
    ensures r.failure.None? <==> i + |r.sent| == |jvms|
    decreases |jvms| - i
  {
    if i == |jvms| then RoundResult([], None)
    else if |members| == 0 then RoundResult([], Some(IndexOutOfBounds(0, 0)))
    else
      var d := Target(members, i);
      var cmd := StartTestNode(xml, jvms[i]);
      match Deliver(d, cmd, unreachable)
      case Some(e) => RoundResult([], Some(e))
      case None =>
        var rest := RoundFrom(xml, jvms, members, unreachable, i + 1);
        RoundResult([Message(d.destination, cmd)] + rest.sent, rest.failure)
  }

  /** One step of a round whose item `i` is handed to a reachable member. */
  lemma RoundStepDelivered(xml: string, jvms: seq<string>, members: seq<Dispatcher>,
                           unreachable: set<Destination>, i: nat)
    requires i < |jvms| && |members| > 0
    requires Target(members, i).destination !in unreachable
    ensures var rest := RoundFrom(xml, jvms, members, unreachable, i + 1);
      RoundFrom(xml, jvms, members, unreachable, i)
      == RoundResult([Message(Target(members, i).destination, StartTestNode(xml, jvms[i]))] + rest.sent, rest.failure)
  {
  }

  /** One step of a round whose item `i` cannot be handed over: the round ends there. */
  lemma RoundStepFailed(xml: string, jvms: seq<string>, members: seq<Dispatcher>,
                        unreachable: set<Destination>, i: nat)
    requires i < |jvms| && |members| > 0
    requires Target(members, i).destination in unreachable
    ensures RoundFrom(xml, jvms, members, unreachable, i)
      == RoundResult([], Deliver(Target(members, i), StartTestNode(xml, jvms[i]), unreachable))
  {
  }

  /** A whole round over the work list `jvms`. */
  function Round(xml: string, jvms: seq<string>, members: seq<Dispatcher>,
                 unreachable: set<Destination>): RoundResult
  {
    RoundFrom(xml, jvms, members, unreachable, 0)
  }

  /**
   * The message sent for work item `j`: the command carries `xml` and the
   * item's own name, and it went to member `j mod k`, which was reachable.
   */
  lemma {:induction false} SentAt(xml: string, jvms: seq<string>, members: seq<Dispatcher>,
                                  unreachable: set<Destination>, i: nat, j: nat)
    requires i <= j && i <= |jvms|
    requires j < i + |RoundFrom(xml, jvms, members, unreachable, i).sent|
    ensures |members| > 0 && j < |jvms|
    ensures RoundFrom(xml, jvms, members, unreachable, i).sent[j - i]
            == Message(Target(members, j).destination, StartTestNode(xml, jvms[j]))
    ensures Target(members, j).destination !in unreachable
    decreases j - i
  {
    if j > i {
      SentAt(xml, jvms, members, unreachable, i + 1, j);
    }
  }

  /**
   * The round assigns work item `j` to dispatcher `j mod k`, in the order of
   * the work list, with the script reference and the name unchanged.
   */
  lemma RoundAssignsModulo(xml: string, jvms: seq<string>, members: seq<Dispatcher>,
                           unreachable: set<Destination>)
    ensures var r := Round(xml, jvms, members, unreachable);
      forall j :: 0 <= j < |r.sent| ==>
        |members| > 0 && j < |jvms| &&
        r.sent[j] == Message(Target(members, j).destination, StartTestNode(xml, jvms[j]))
  {
    var r := Round(xml, jvms, members, unreachable);
    forall j | 0 <= j < |r.sent|
      ensures |members| > 0 && j < |jvms|
      ensures r.sent[j] == Message(Target(members, j).destination, StartTestNode(xml, jvms[j]))
    {
      SentAt(xml, jvms, members, unreachable, 0, j);
    }
  }

  /**
   * A round from `i` completes exactly when there is nothing left to send, or
   * there are members and every remaining item's target is reachable.
   */
  lemma {:induction false} CompletesIff(xml: string, jvms: seq<string>, members: seq<Dispatcher>,
                                        unreachable: set<Destination>, i: nat)
    requires i <= |jvms|
    ensures RoundFrom(xml, jvms, members, unreachable, i).failure.None?
        <==> i == |jvms| ||
             (|members| > 0 &&
              forall j :: i <= j < |jvms| ==> Target(members, j).destination !in unreachable)
    decreases |jvms| - i
  {
    if i < |jvms| && |members| > 0 {
      CompletesIff(xml, jvms, members, unreachable, i + 1);
    }
  }

  /**
   * A round that fails stops at the first item it cannot hand over: nothing
   * after it is sent, and the failure names that item's dispatch, or the
   * out-of-bounds access at index 0 when there are no members (in which case
   * nothing at all is sent).
   */
  lemma {:induction false} FailsAtFirstUndeliverable(xml: string, jvms: seq<string>, members: seq<Dispatcher>,
                                                     unreachable: set<Destination>, i: nat)
    requires i <= |jvms|
    requires RoundFrom(xml, jvms, members, unreachable, i).failure.Some?
    ensures var r := RoundFrom(xml, jvms, members, unreachable, i);
      var f := i + |r.sent|;
      f < |jvms| &&
      (|members| == 0 ==> r.sent == [] && r.failure == Some(IndexOutOfBounds(0, 0))) &&
      (|members| > 0 ==>
         Target(members, f).destination in unreachable &&
         r.failure == Some(DispatchFailed(Target(members, f).destination, StartTestNode(xml, jvms[f]))))
    decreases |jvms| - i
  {
    if |members| > 0 && Target(members, i).destination !in unreachable {
      FailsAtFirstUndeliverable(xml, jvms, members, unreachable, i + 1);
    }
  }

  /**
   * Five work items over three reachable members go to members 0, 1, 2, 0, 1.
   */
  lemma FiveItemsOverThreeMembers(xml: string, jvms: seq<string>, members: seq<Dispatcher>,
                                  unreachable: set<Destination>)
    requires |jvms| == 5 && |members| == 3
    requires forall m :: m in members ==> m.destination !in unreachable
    ensures var r := Round(xml, jvms, members, unreachable);
      r.failure == None &&
      r.sent == [Message(members[0].destination, StartTestNode(xml, jvms[0])),
                 Message(members[1].destination, StartTestNode(xml, jvms[1])),
                 Message(members[2].destination, StartTestNode(xml, jvms[2])),
                 Message(members[0].destination, StartTestNode(xml, jvms[3])),
                 Message(members[1].destination, StartTestNode(xml, jvms[4]))]
  {
    CompletesIff(xml, jvms, members, unreachable, 0);
    RoundAssignsModulo(xml, jvms, members, unreachable);
  }

  /** Every message a round sends is a StartTestNode command. */
  lemma OnlyStartCommands(xml: string, jvms: seq<string>, members: seq<Dispatcher>,
                          unreachable: set<Destination>)
    ensures var r := Round(xml, jvms, members, unreachable);
      forall j :: 0 <= j < |r.sent| ==> r.sent[j].command == StartTestNode(xml, jvms[j])
  {
    RoundAssignsModulo(xml, jvms, members, unreachable);
  }
}
