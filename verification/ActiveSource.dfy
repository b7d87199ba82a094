/**
 * The active-source protocol among any number of daemons on one bus: each runs handle_message,
 * set_active and pending_activate (cecd/src/device.rs) against a totally ordered log of messages.
 */
module ActiveSource {
  import opened Wire
  import opened Reactions

  /** A message on the bus; a daemon is named by its node number, any other device by nothing. */
  datatype Entry = Entry(event: Event, sender: Option<nat>, to: Option<nat>)

  /** What can go wrong at a node: a spawned request or a decided reply is not sent, a message is not handled. */
  datatype Fault = RequestLost | ReplyLost | MessageMissed

  /** The nodes' physical addresses, all that clients and other devices may send, and what may fail. */
  datatype Net = Net(addresses: seq<Address>, sendable: iset<Entry>, faults: set<Fault>) {
    ghost predicate Valid() {
      forall i, j :: 0 <= i < j < |addresses| ==> addresses[i] != addresses[j]
    }
  }

  datatype Node = Node(
    read: nat,                // how much of the log it has seen
    routing: Routing,
    requests: nat,            // spawned RequestActiveSource tasks that have not sent yet
    reply: Option<Address>,   // an ActiveSource decided on and not sent yet
    since: nat)               // how much of the log was there when it started

  datatype State = State(log: seq<Entry>, nodes: seq<Node>)

  const FRESH := Node(0, Routing(false, false), 0, None, 0)

  ghost predicate Init(net: Net, s: State) {
    s == State([], seq(|net.addresses|, i => FRESH))
  }

  /** A node hears what is broadcast or sent to it, but never its own messages. */
  predicate Hears(i: nat, entry: Entry) {
    entry.sender != Some(i) && (entry.to.None? || entry.to == Some(i))
  }

  function Request(i: nat): Entry { Entry(SourceRequest, Some(i), None) }

  function Announcement(net: Net, i: nat): Entry
    requires i < |net.addresses|
  {
    Entry(SourceAnnounced(net.addresses[i]), Some(i), None)
  }

  // ---------------------------------------------------------------- moves of one node

  /** handle_message on the next message. */
  function Delivered(n: Node, i: nat, entry: Entry, c: Context): Node {
    if !Hears(i, entry) then n.(read := n.read + 1)
    else
      var answer := Answer(n.routing, entry.event, c);
      n.(read := n.read + 1, routing := Route(n.routing, entry.event, c.own),
         reply := if answer.Some? && answer.value.0.Source? then Some(answer.value.0.address) else None)
  }

  ghost predicate Delivers(net: Net, log: seq<Entry>, i: nat, n: Node, n': Node, c: Context) {
    && i < |net.addresses| && n.read < |log| && n.reply.None?
    && c.own == net.addresses[i] && c.direct == log[n.read].to.Some?
    && n' == Delivered(n, i, log[n.read], c)
  }

  /** The message is lost, or handling fails before it reaches the routing state. */
  ghost predicate Misses(net: Net, log: seq<Entry>, n: Node, n': Node) {
    MessageMissed in net.faults && n.read < |log| && n.reply.None? && n' == n.(read := n.read + 1)
  }

  /** The spawned task finds no logical address, or its transmission fails. */
  ghost predicate LosesRequest(net: Net, n: Node, n': Node) {
    RequestLost in net.faults && n.requests > 0 && n' == n.(requests := n.requests - 1)
  }

  /** A signal or an address lookup fails after the decision, or the transmission does. */
  ghost predicate LosesReply(net: Net, n: Node, n': Node) {
    ReplyLost in net.faults && n.reply.Some? && n' == n.(reply := None)
  }

  /** pending_activate: the request is left to a spawned task, the node turns active at once. */
  ghost predicate Activates(n: Node, n': Node) {
    n.reply.None? && n' == n.(routing := n.routing.(active := true), requests := n.requests + 1)
  }

  /** Waking the television sets the flag; losing the device during a wake clears it. */
  ghost predicate Waits(n: Node, n': Node) {
    n' == n.(routing := n.routing.(awaitingWake := true)) || n' == n.(routing := n.routing.(awaitingWake := false))
  }

  /** The daemon starts, or starts again: it hears nothing of what was sent before. */
  ghost predicate Starts(log: seq<Entry>, n': Node) {
    n' == FRESH.(read := |log|, since := |log|)
  }

  /** The moves a node makes on its own account until it has nothing left to do. */
  ghost predicate WorksOff(net: Net, log: seq<Entry>, i: nat, n: Node, n': Node) {
    || (exists c :: Delivers(net, log, i, n, n', c))
    || Misses(net, log, n, n') || LosesRequest(net, n, n') || LosesReply(net, n, n')
  }

  ghost predicate Moves(net: Net, log: seq<Entry>, i: nat, n: Node, n': Node) {
    WorksOff(net, log, i, n, n') || Activates(n, n') || Waits(n, n') || Starts(log, n')
  }

  /**
   * What may happen to a node at any time: a wake sets its flag or clears it, it starts again with a blank state, and,
   * unless a reply is about to go out, it activates.
   */
  lemma {:induction false} MayHappen(net: Net, log: seq<Entry>, i: nat, n: Node, flag: bool)
    ensures Moves(net, log, i, n, n.(routing := Routing(n.routing.active, flag)))
    ensures Moves(net, log, i, n, Node(|log|, Routing(false, false), 0, None, |log|))
    ensures n.reply.None? ==>
      Moves(net, log, i, n, n.(routing := Routing(true, n.routing.awaitingWake), requests := n.requests + 1))
  {}

  // ---------------------------------------------------------------- steps of the bus

  ghost predicate OnlyNode(s: State, s': State, i: nat, node: Node) {
    i < |s.nodes| && s'.nodes == s.nodes[i := node]
  }

  ghost predicate Local(net: Net, s: State, s': State, i: nat) {
    && i < |s.nodes| == |s'.nodes| && s'.log == s.log && OnlyNode(s, s', i, s'.nodes[i])
    && Moves(net, s.log, i, s.nodes[i], s'.nodes[i])
  }

  ghost predicate SendsRequest(s: State, s': State, i: nat) {
    && i < |s.nodes| && s.nodes[i].requests > 0 && s'.log == s.log + [Request(i)]
    && OnlyNode(s, s', i, s.nodes[i].(requests := s.nodes[i].requests - 1))
  }

  ghost predicate SendsReply(s: State, s': State, i: nat) {
    && i < |s.nodes| && s.nodes[i].reply.Some?
    && s'.log == s.log + [Entry(SourceAnnounced(s.nodes[i].reply.value), Some(i), None)]
    && OnlyNode(s, s', i, s.nodes[i].(reply := None))
  }

  /** A wake announces the node's own address. */
  ghost predicate Announces(net: Net, s: State, s': State, i: nat) {
    i < |s.nodes| == |net.addresses| && s' == s.(log := s.log + [Announcement(net, i)])
  }

  /** A client has a daemon send something, or some other device does. */
  ghost predicate Sends(net: Net, s: State, s': State, entry: Entry) {
    entry in net.sendable && s' == s.(log := s.log + [entry])
  }

  ghost predicate NodeStep(net: Net, s: State, s': State, i: nat) {
    Local(net, s, s', i) || SendsRequest(s, s', i) || SendsReply(s, s', i) || Announces(net, s, s', i)
  }

  ghost predicate Next(net: Net, s: State, s': State) {
    (exists i :: NodeStep(net, s, s', i)) || (exists entry :: Sends(net, s, s', entry))
  }

  ghost predicate Run(net: Net, run: seq<State>) {
    && run != [] && Init(net, run[0])
    && (forall k :: 0 < k < |run| ==> Next(net, run[k - 1], run[k]))
  }

  ghost predicate Reachable(net: Net, s: State) {
    exists run :: Run(net, run) && run[|run| - 1] == s
  }

  // ---------------------------------------------------------------- the claim

  /** Every node has read the whole log, and no spawned request or reply is pending. */
  predicate Quiescent(s: State) {
    forall i :: 0 <= i < |s.nodes| ==>
      s.nodes[i].read == |s.log| && s.nodes[i].requests == 0 && s.nodes[i].reply.None?
  }

  predicate AtMostOneActive(s: State) {
    forall i, j :: 0 <= i < j < |s.nodes| ==> !(s.nodes[i].routing.active && s.nodes[j].routing.active)
  }

  ghost predicate Safe(net: Net) {
    forall s :: Reachable(net, s) && Quiescent(s) ==> AtMostOneActive(s)
  }

  /** The message selects a node that will not speak up, and some other node does not hear it. */
  ghost predicate Splits(net: Net, entry: Entry) {
    && (entry.event.SourceAnnounced? || entry.event.RouteChanged?)
    && exists i, j :: 0 <= i < |net.addresses| && 0 <= j < |net.addresses| && i != j
         && Hears(j, entry) && !Hears(i, entry) && entry.event.address == net.addresses[j]
  }

  /** Nobody but the daemons themselves sends anything that splits the nodes. */
  ghost predicate Honest(net: Net) {
    forall entry :: entry in net.sendable ==> !Splits(net, entry)
  }

  /** What is broadcast by a device that is no daemon is heard by all, so it splits nothing. */
  lemma {:induction false} OtherDevicesMayBroadcast(net: Net, e: Event)
    ensures !Splits(net, Entry(e, None, None))
  {}

  // ---------------------------------------------------------------- invariant

  predicate Turns(net: Net, i: nat, entry: Entry, on: bool)
    requires i < |net.addresses|
  {
    && Hears(i, entry)
    && if on then Selects(entry.event, net.addresses[i]) else Deselects(entry.event, net.addresses[i])
  }

  ghost predicate WellFormed(net: Net, s: State) {
    && net.Valid() && Honest(net) && net.faults == {} && |s.nodes| == |net.addresses|
    && (forall i :: 0 <= i < |s.nodes| ==>
          && s.nodes[i].read <= |s.log|
          && (s.nodes[i].reply.Some? ==> s.nodes[i].reply.value == net.addresses[i]))
    && (forall p :: 0 <= p < |s.log| ==> !Splits(net, s.log[p]))
  }

  /** Some message from position low up to high turns node i on or off. */
  ghost predicate TurnedBetween(net: Net, s: State, i: nat, low: nat, high: nat, on: bool)
    requires i < |net.addresses| && high <= |s.log|
  {
    exists p :: low <= p < high && Turns(net, i, s.log[p], on)
  }

  ghost predicate RequestedSince(s: State, i: nat, low: nat) {
    exists p :: low <= p < |s.log| && s.log[p] == Request(i)
  }

  ghost predicate AnnouncedSince(net: Net, s: State, i: nat, low: nat)
    requires i < |net.addresses|
  {
    exists p :: low <= p < |s.log| && s.log[p] == Announcement(net, i)
  }

  /** Every other node has heard of the selection of node i since low, or will. */
  ghost predicate Vouched(net: Net, s: State, i: nat, low: nat)
    requires WellFormed(net, s) && i < |s.nodes|
  {
    || (exists p :: low <= p < s.nodes[i].read && Turns(net, i, s.log[p], true) && !s.log[p].event.StreamPath?)
    || AnnouncedSince(net, s, i, low)
    || s.nodes[i].reply.Some?
  }

  /** Why an active node may still be active though it has seen itself deselected at p. */
  ghost predicate Excused(net: Net, s: State, i: nat, p: nat)
    requires WellFormed(net, s) && i < |s.nodes|
  {
    || (TurnedBetween(net, s, i, p + 1, s.nodes[i].read, true) && Vouched(net, s, i, p + 1))
    || s.nodes[i].requests > 0
    || RequestedSince(s, i, p + 1)
  }

  ghost predicate History(net: Net, s: State, i: nat)
    requires WellFormed(net, s) && i < |s.nodes|
  {
    s.nodes[i].routing.active ==>
      forall p :: 0 <= p < s.nodes[i].read && Turns(net, i, s.log[p], false) ==> Excused(net, s, i, p)
  }

  /** What is still on its way and will turn node i off, or make the other node speak up. */
  ghost predicate Pending(net: Net, s: State, i: nat, j: nat)
    requires WellFormed(net, s) && i < |s.nodes| && j < |s.nodes|
  {
    || TurnedBetween(net, s, i, s.nodes[i].read, |s.log|, false)
    || s.nodes[i].requests > 0
    || s.nodes[i].reply.Some?
    || RequestedSince(s, i, s.nodes[j].read)
  }

  ghost predicate Contested(net: Net, s: State, i: nat, j: nat)
    requires WellFormed(net, s) && i < |s.nodes| && j < |s.nodes|
  {
    s.nodes[i].routing.active && s.nodes[j].routing.active ==> Pending(net, s, i, j) || Pending(net, s, j, i)
  }

  ghost predicate Inv(net: Net, s: State) {
    && WellFormed(net, s)
    && (forall i :: 0 <= i < |s.nodes| ==> History(net, s, i))
    && (forall i, j :: 0 <= i < j < |s.nodes| ==> Contested(net, s, i, j))
  }

  // ---------------------------------------------------------------- preservation

  /** A selection that asks for no announcement is heard by all, so it turns every other node off. */
  lemma {:induction false} OneSelected(net: Net, s: State, i: nat, j: nat, p: nat)
    requires WellFormed(net, s) && i < |s.nodes| && j < |s.nodes| && i != j
    requires p < |s.log| && Turns(net, i, s.log[p], true) && !s.log[p].event.StreamPath?
    ensures Turns(net, j, s.log[p], false)
  {
    assert !Splits(net, s.log[p]);
    assert Hears(i, s.log[p]) && Hears(j, s.log[p]);
  }

  lemma {:induction false} AnnouncementTurnsOff(net: Net, i: nat, j: nat)
    requires net.Valid() && i < |net.addresses| && j < |net.addresses| && i != j
    ensures Turns(net, j, Announcement(net, i), false)
  {}

  lemma {:induction false} OwnDoNotSplit(net: Net, i: nat)
    requires net.Valid() && i < |net.addresses|
    ensures !Splits(net, Request(i)) && !Splits(net, Announcement(net, i))
  {}

  lemma {:induction false} Excuse(net: Net, s: State, i: nat, p: nat)
    requires WellFormed(net, s) && i < |s.nodes|
    requires
      || (TurnedBetween(net, s, i, p + 1, s.nodes[i].read, true) && Vouched(net, s, i, p + 1))
      || s.nodes[i].requests > 0 || RequestedSince(s, i, p + 1)
    ensures Excused(net, s, i, p)
  {}

  lemma {:induction false} MakePending(net: Net, s: State, i: nat, j: nat)
    requires WellFormed(net, s) && i < |s.nodes| && j < |s.nodes|
    requires TurnedBetween(net, s, i, s.nodes[i].read, |s.log|, false) || s.nodes[i].requests > 0
      || s.nodes[i].reply.Some? || RequestedSince(s, i, s.nodes[j].read)
    ensures Pending(net, s, i, j)
  {}

  /** A message that does not split, and what it changes at its sender, keep the state well-formed. */
  lemma {:induction false} MessageKeeps(net: Net, s: State, s': State, entry: Entry)
    requires WellFormed(net, s) && s'.log == s.log + [entry] && !Splits(net, entry) && |s'.nodes| == |s.nodes|
    requires forall i :: 0 <= i < |s.nodes| ==>
      s'.nodes[i].read == s.nodes[i].read && (s'.nodes[i].reply.None? || s'.nodes[i].reply == s.nodes[i].reply)
    ensures WellFormed(net, s')
  {
    hide Splits;
  }

  lemma {:induction false} VouchedKept(net: Net, s: State, s': State, i: nat, low: nat)
    requires WellFormed(net, s) && WellFormed(net, s') && s.log <= s'.log && i < |s.nodes|
    requires s.nodes[i].read <= s'.nodes[i].read && low <= |s.log|
    requires s.nodes[i].reply.None? || s'.nodes[i].reply.Some? || AnnouncedSince(net, s', i, |s.log|)
    requires Vouched(net, s, i, low)
    ensures Vouched(net, s', i, low)
  {
    hide Splits, Selects;
    if AnnouncedSince(net, s, i, low) {
      var q :| low <= q < |s.log| && s.log[q] == Announcement(net, i);
      assert s'.log[q] == s.log[q];
    } else if s.nodes[i].reply.None? {
      var q :| low <= q < s.nodes[i].read && Turns(net, i, s.log[q], true) && !s.log[q].event.StreamPath?;
      assert Turns(net, i, s'.log[q], true);
    }
  }

  lemma {:induction false} ExcusedKept(net: Net, s: State, s': State, i: nat, p: nat)
    requires WellFormed(net, s) && WellFormed(net, s') && s.log <= s'.log && i < |s.nodes|
    requires s.nodes[i].read <= s'.nodes[i].read && s.nodes[i].requests <= s'.nodes[i].requests
    requires s.nodes[i].reply.None? || s'.nodes[i].reply.Some? || AnnouncedSince(net, s', i, |s.log|)
    requires p < s.nodes[i].read && Excused(net, s, i, p)
    ensures Excused(net, s', i, p)
  {
    hide Vouched, Splits, Selects;
    if TurnedBetween(net, s, i, p + 1, s.nodes[i].read, true) && Vouched(net, s, i, p + 1) {
      VouchedKept(net, s, s', i, p + 1);
      var q :| p + 1 <= q < s.nodes[i].read && Turns(net, i, s.log[q], true);
      assert Turns(net, i, s'.log[q], true);
    } else if RequestedSince(s, i, p + 1) {
      var q :| p + 1 <= q < |s.log| && s.log[q] == Request(i);
      assert s'.log[q] == s.log[q];
    }
  }

  lemma {:induction false} PendingKept(net: Net, s: State, s': State, i: nat, j: nat)
    requires WellFormed(net, s) && WellFormed(net, s') && s.log <= s'.log && i < |s.nodes| && j < |s.nodes|
    requires s'.nodes[i].read == s.nodes[i].read && s'.nodes[j].read == s.nodes[j].read
    requires s.nodes[i].requests <= s'.nodes[i].requests && (s.nodes[i].reply.Some? ==> s'.nodes[i].reply.Some?)
    requires Pending(net, s, i, j)
    ensures Pending(net, s', i, j)
  {
    hide Turns, WellFormed;
  }

  /** The node's state is untouched as far as the invariant can tell. */
  predicate SameStanding(n: Node, n': Node) {
    n'.read == n.read && n'.requests == n.requests && n'.reply == n.reply && n'.routing.active == n.routing.active
  }

  /** Nodes that a step leaves alone keep their history, and any two of them stay contested. */
  lemma {:induction false} OthersKeep(net: Net, s: State, s': State, i: nat)
    requires Inv(net, s) && WellFormed(net, s') && s.log <= s'.log && i < |s.nodes|
    requires SameStanding(s.nodes[i], s'.nodes[i])
    ensures History(net, s', i)
    ensures forall j :: 0 <= j < |s.nodes| && i != j && SameStanding(s.nodes[j], s'.nodes[j]) ==>
      Contested(net, s', i, j)
  {
    hide Turns, Splits, Honest, Excused, Pending;
    assert History(net, s, i);
    forall p | 0 <= p < s'.nodes[i].read && Turns(net, i, s'.log[p], false) && s'.nodes[i].routing.active
      ensures Excused(net, s', i, p)
    {
      assert s'.log[p] == s.log[p];
      ExcusedKept(net, s, s', i, p);
    }
    forall j | 0 <= j < |s.nodes| && i != j && SameStanding(s.nodes[j], s'.nodes[j]) ensures Contested(net, s', i, j) {
      assert Contested(net, s, if i < j then i else j, if i < j then j else i);
      if Pending(net, s, i, j) { PendingKept(net, s, s', i, j); }
      if Pending(net, s, j, i) { PendingKept(net, s, s', j, i); }
    }
  }

  /** A step of one node keeps the invariant if the node's own history and its pairs with the others are seen to. */
  lemma {:induction false} OneNodeKeeps(net: Net, s: State, s': State, k: nat)
    requires Inv(net, s) && WellFormed(net, s') && s.log <= s'.log && k < |s.nodes|
    requires forall i :: 0 <= i < |s.nodes| && i != k ==> SameStanding(s.nodes[i], s'.nodes[i])
    requires History(net, s', k)
    requires forall o :: 0 <= o < |s.nodes| && o != k ==> Contested(net, s', k, o)
    ensures Inv(net, s')
  {
    hide Turns, Splits, Honest, Excused, Pending, History;
    forall i | 0 <= i < |s'.nodes| ensures History(net, s', i) {
      if i != k { OthersKeep(net, s, s', i); }
    }
    forall i, j | 0 <= i < j < |s'.nodes| ensures Contested(net, s', i, j) {
      if i != k && j != k {
        OthersKeep(net, s, s', i);
      } else {
        assert Contested(net, s', k, i + j - k);
      }
    }
  }

  /** The log grows by a message of no node's own making. */
  lemma {:induction false} Quiet(net: Net, s: State, s': State, entry: Entry)
    requires Inv(net, s) && s' == s.(log := s.log + [entry]) && !Splits(net, entry)
    ensures Inv(net, s')
  {
    hide Turns, Splits, Honest, Excused, Pending, History;
    MessageKeeps(net, s, s', entry);
    forall i | 0 <= i < |s'.nodes| ensures History(net, s', i) {
      OthersKeep(net, s, s', i);
    }
    forall i, j | 0 <= i < j < |s'.nodes| ensures Contested(net, s', i, j) {
      OthersKeep(net, s, s', i);
    }
  }

  lemma {:induction false} ActivateKeeps(net: Net, s: State, s': State, k: nat)
    requires Inv(net, s) && k < |s.nodes| == |s'.nodes| && s'.log == s.log && OnlyNode(s, s', k, s'.nodes[k])
    requires Activates(s.nodes[k], s'.nodes[k])
    ensures Inv(net, s')
  {
    hide Turns, Splits, Honest, Pending, Excused;
    forall p | 0 <= p < s'.nodes[k].read && Turns(net, k, s'.log[p], false) ensures Excused(net, s', k, p) {
      Excuse(net, s', k, p);
    }
    forall o | 0 <= o < |s.nodes| && o != k ensures Contested(net, s', k, o) {
      MakePending(net, s', k, o);
    }
    OneNodeKeeps(net, s, s', k);
  }

  lemma {:induction false} WaitKeeps(net: Net, s: State, s': State, k: nat)
    requires Inv(net, s) && k < |s.nodes| == |s'.nodes| && s'.log == s.log && OnlyNode(s, s', k, s'.nodes[k])
    requires Waits(s.nodes[k], s'.nodes[k])
    ensures Inv(net, s')
  {
    hide Turns, Splits, Honest, Pending, Excused, History;
    OthersKeep(net, s, s', k);
    OneNodeKeeps(net, s, s', k);
  }

  lemma {:induction false} StartKeeps(net: Net, s: State, s': State, k: nat)
    requires Inv(net, s) && k < |s.nodes| == |s'.nodes| && s'.log == s.log && OnlyNode(s, s', k, s'.nodes[k])
    requires Starts(s.log, s'.nodes[k])
    ensures Inv(net, s')
  {
    hide Turns, Splits, Honest, Pending, Excused;
    OneNodeKeeps(net, s, s', k);
  }

  lemma {:induction false} SendRequestKeeps(net: Net, s: State, s': State, k: nat)
    requires Inv(net, s) && SendsRequest(s, s', k)
    ensures Inv(net, s')
  {
    hide Turns, Splits, Honest, Pending, Excused;
    OwnDoNotSplit(net, k);
    MessageKeeps(net, s, s', Request(k));
    assert s'.log[|s.log|] == Request(k);
    forall p | 0 <= p < s'.nodes[k].read && Turns(net, k, s'.log[p], false) ensures Excused(net, s', k, p) {
      assert RequestedSince(s', k, p + 1);
      Excuse(net, s', k, p);
    }
    forall o | 0 <= o < |s.nodes| && o != k ensures Contested(net, s', k, o) {
      assert RequestedSince(s', k, s'.nodes[o].read);
      MakePending(net, s', k, o);
    }
    OneNodeKeeps(net, s, s', k);
  }

  lemma {:induction false} SendReplyKeeps(net: Net, s: State, s': State, k: nat)
    requires Inv(net, s) && SendsReply(s, s', k)
    ensures Inv(net, s')
  {
    hide Turns, Splits, Honest, Pending, Excused;
    OwnDoNotSplit(net, k);
    MessageKeeps(net, s, s', Announcement(net, k));
    assert s'.log[|s.log|] == Announcement(net, k);
    assert AnnouncedSince(net, s', k, |s.log|);
    assert History(net, s, k);
    forall p | 0 <= p < s'.nodes[k].read && Turns(net, k, s'.log[p], false) && s'.nodes[k].routing.active
      ensures Excused(net, s', k, p)
    {
      assert s'.log[p] == s.log[p];
      ExcusedKept(net, s, s', k, p);
    }
    forall o | 0 <= o < |s.nodes| && o != k ensures Contested(net, s', k, o) {
      AnnouncementTurnsOff(net, k, o);
      assert TurnedBetween(net, s', o, s'.nodes[o].read, |s'.log|, false);
      MakePending(net, s', o, k);
    }
    OneNodeKeeps(net, s, s', k);
  }

  // What a delivery to node k does to its own history, and to its pairs with the others.

  lemma {:induction false} DeliverHistory(net: Net, s: State, s': State, k: nat, c: Context)
    requires Inv(net, s) && WellFormed(net, s') && k < |s.nodes| == |s'.nodes| && s'.log == s.log
    requires Delivers(net, s.log, k, s.nodes[k], s'.nodes[k], c)
    ensures History(net, s', k)
  {
    hide Splits, Honest, Excused;
    var last := s.nodes[k].read;
    assert History(net, s, k);
    forall p | 0 <= p < s'.nodes[k].read && Turns(net, k, s'.log[p], false) && s'.nodes[k].routing.active
      ensures Excused(net, s', k, p)
    {
      assert p < last;
      if Turns(net, k, s.log[last], true) {
        assert TurnedBetween(net, s', k, p + 1, s'.nodes[k].read, true);
        assert Vouched(net, s', k, p + 1);
        Excuse(net, s', k, p);
      } else {
        ExcusedKept(net, s, s', k, p);
      }
    }
  }

  /** A node that reads its own selection: the other node has it to read, or an announcement to come. */
  lemma {:induction false} DeliverSelects(net: Net, s: State, s': State, k: nat, o: nat, c: Context)
    requires Inv(net, s) && WellFormed(net, s') && k < |s.nodes| && o < |s.nodes| && o != k && s'.log == s.log
    requires s'.nodes[o] == s.nodes[o] && Delivers(net, s.log, k, s.nodes[k], s'.nodes[k], c)
    requires s.nodes[o].routing.active && Turns(net, k, s.log[s.nodes[k].read], true)
    ensures Pending(net, s', k, o) || Pending(net, s', o, k)
  {
    var last := s.nodes[k].read;
    if s.log[last].event.StreamPath? {
      assert s'.nodes[k].reply.Some?;
    } else {
      hide Splits, Honest, Turns;
      OneSelected(net, s, k, o, last);
      if s.nodes[o].read <= last {
        assert TurnedBetween(net, s', o, s'.nodes[o].read, |s'.log|, false);
      } else {
        assert History(net, s, o) && Excused(net, s, o, last);
        ExcuseIsPending(net, s, s', k, o, last);
      }
    }
  }

  /** Whatever excuses node o for having passed over its deselection at p is still to reach a node k that is at p. */
  lemma {:induction false} ExcuseIsPending(net: Net, s: State, s': State, k: nat, o: nat, p: nat)
    requires WellFormed(net, s) && WellFormed(net, s') && k < |s.nodes| && o < |s.nodes| && o != k && s'.log == s.log
    requires s'.nodes[o] == s.nodes[o] && s'.nodes[k].read == p + 1
    requires Excused(net, s, o, p)
    ensures Pending(net, s', k, o) || Pending(net, s', o, k)
  {
    hide Splits, Honest, Turns;
    if TurnedBetween(net, s, o, p + 1, s.nodes[o].read, true) && Vouched(net, s, o, p + 1) {
      if AnnouncedSince(net, s, o, p + 1) {
        AnnouncementTurnsOff(net, o, k);
        assert TurnedBetween(net, s', k, s'.nodes[k].read, |s'.log|, false);
      } else if s.nodes[o].reply.None? {
        var q :| p + 1 <= q < s.nodes[o].read && Turns(net, o, s.log[q], true) && !s.log[q].event.StreamPath?;
        OneSelected(net, s, o, k, q);
        assert TurnedBetween(net, s', k, s'.nodes[k].read, |s'.log|, false);
      }
    }
  }

  lemma {:induction false} DeliverKeepsOwn(net: Net, s: State, s': State, k: nat, o: nat, c: Context)
    requires Inv(net, s) && WellFormed(net, s') && k < |s.nodes| && o < |s.nodes| && o != k && s'.log == s.log
    requires s'.nodes[o] == s.nodes[o] && Delivers(net, s.log, k, s.nodes[k], s'.nodes[k], c)
    requires !Turns(net, k, s.log[s.nodes[k].read], false) && Pending(net, s, k, o)
    ensures Pending(net, s', k, o)
  {
    hide Splits, Honest, Turns;
    if TurnedBetween(net, s, k, s.nodes[k].read, |s.log|, false) {
      var p :| s.nodes[k].read <= p < |s.log| && Turns(net, k, s.log[p], false);
      assert Turns(net, k, s'.log[p], false);
    } else if RequestedSince(s, k, s.nodes[o].read) {
      assert RequestedSince(s', k, s'.nodes[o].read);
    }
  }

  /** Reading the other node's request makes an active node owe a reply. */
  lemma {:induction false} DeliverKeepsOther(net: Net, s: State, s': State, k: nat, o: nat, c: Context)
    requires Inv(net, s) && WellFormed(net, s') && k < |s.nodes| && o < |s.nodes| && o != k && s'.log == s.log
    requires s'.nodes[o] == s.nodes[o] && Delivers(net, s.log, k, s.nodes[k], s'.nodes[k], c)
    requires s.nodes[k].routing.active && Pending(net, s, o, k)
    ensures Pending(net, s', k, o) || Pending(net, s', o, k)
  {
    hide Splits, Honest, Turns;
    var last := s.nodes[k].read;
    if TurnedBetween(net, s, o, s.nodes[o].read, |s.log|, false) {
      assert TurnedBetween(net, s', o, s'.nodes[o].read, |s'.log|, false);
    } else if RequestedSince(s, o, last) {
      var p :| last <= p < |s.log| && s.log[p] == Request(o);
      if p == last {
        assert s'.nodes[k].reply.Some?;
      } else {
        assert RequestedSince(s', o, s'.nodes[k].read);
      }
    }
  }

  /** After a delivery to one of two active nodes something is under way that will turn one of them off. */
  lemma {:induction false} DeliverPair(net: Net, s: State, s': State, k: nat, o: nat, c: Context)
    requires Inv(net, s) && WellFormed(net, s') && k < |s.nodes| && o < |s.nodes| && o != k && s'.log == s.log
    requires s'.nodes[o] == s.nodes[o] && Delivers(net, s.log, k, s.nodes[k], s'.nodes[k], c)
    ensures Contested(net, s', k, o)
  {
    hide Splits, Honest, Pending;
    var last := s.nodes[k].read;
    if s'.nodes[k].routing.active && s'.nodes[o].routing.active {
      if Turns(net, k, s.log[last], true) {
        DeliverSelects(net, s, s', k, o, c);
      } else {
        assert !Turns(net, k, s.log[last], false);
        assert Contested(net, s, if k < o then k else o, if k < o then o else k);
        if Pending(net, s, k, o) {
          DeliverKeepsOwn(net, s, s', k, o, c);
        } else {
          DeliverKeepsOther(net, s, s', k, o, c);
        }
      }
    }
  }

  lemma {:induction false} DeliverKeeps(net: Net, s: State, s': State, k: nat, c: Context)
    requires Inv(net, s) && k < |s.nodes| == |s'.nodes| && s'.log == s.log && OnlyNode(s, s', k, s'.nodes[k])
    requires Delivers(net, s.log, k, s.nodes[k], s'.nodes[k], c)
    ensures Inv(net, s')
  {
    hide Splits, Honest, Turns, Pending, Excused, Route, History, Contested;
    assert WellFormed(net, s');
    DeliverHistory(net, s, s', k, c);
    forall o | 0 <= o < |s.nodes| && o != k ensures Contested(net, s', k, o) {
      DeliverPair(net, s, s', k, o, c);
    }
    OneNodeKeeps(net, s, s', k);
  }

  lemma {:induction false} StepKeeps(net: Net, s: State, s': State)
    requires Inv(net, s) && Next(net, s, s')
    ensures Inv(net, s')
  {
    hide Splits, History, Contested, Turns, Answer, Route;
    if entry :| Sends(net, s, s', entry) {
      Quiet(net, s, s', entry);
    } else {
      var i :| NodeStep(net, s, s', i);
      if Local(net, s, s', i) {
        LocalKeeps(net, s, s', i);
      } else if SendsRequest(s, s', i) {
        SendRequestKeeps(net, s, s', i);
      } else if SendsReply(s, s', i) {
        SendReplyKeeps(net, s, s', i);
      } else {
        OwnDoNotSplit(net, i);
        Quiet(net, s, s', Announcement(net, i));
      }
    }
  }

  lemma {:induction false} LocalKeeps(net: Net, s: State, s': State, i: nat)
    requires Inv(net, s) && Local(net, s, s', i)
    ensures Inv(net, s')
  {
    hide Splits, History, Contested, Turns, Delivered;
    var n, n' := s.nodes[i], s'.nodes[i];
    if c :| Delivers(net, s.log, i, n, n', c) {
      DeliverKeeps(net, s, s', i, c);
    } else if Activates(n, n') {
      ActivateKeeps(net, s, s', i);
    } else if Waits(n, n') {
      WaitKeeps(net, s, s', i);
    } else {
      StartKeeps(net, s, s', i);
    }
  }

  lemma {:induction false} RunKeeps(net: Net, run: seq<State>)
    requires net.Valid() && Honest(net) && net.faults == {} && Run(net, run)
    ensures Inv(net, run[|run| - 1])
  {
    hide Next, Honest;
    if |run| == 1 {
    } else {
      var before := run[..|run| - 1];
      assert Run(net, before);
      RunKeeps(net, before);
      StepKeeps(net, run[|run| - 2], run[|run| - 1]);
    }
  }

  /** Over every interleaving: once the bus is quiet, at most one daemon thinks it is the active source. */
  lemma {:induction false} QuietBusHasOneActive(net: Net, s: State)
    requires net.Valid() && Honest(net) && net.faults == {} && Reachable(net, s) && Quiescent(s)
    ensures AtMostOneActive(s)
  {
    var run :| Run(net, run) && run[|run| - 1] == s;
    RunKeeps(net, run);
    hide Honest, Splits, History, Turns;
    forall i, j | 0 <= i < j < |s.nodes| ensures !(s.nodes[i].routing.active && s.nodes[j].routing.active) {
      assert Contested(net, s, i, j);
    }
  }

  /** On a quiet bus an active node was selected, or asked who is active, after it was last deselected. */
  lemma {:induction false} ActiveIsJustified(net: Net, s: State, i: nat, p: nat)
    requires net.Valid() && Honest(net) && net.faults == {} && Reachable(net, s) && Quiescent(s)
    requires i < |s.nodes| == |net.addresses| && s.nodes[i].routing.active
    requires p < |s.log| && Turns(net, i, s.log[p], false)
    ensures TurnedBetween(net, s, i, p + 1, |s.log|, true) || RequestedSince(s, i, p + 1)
  {
    var run :| Run(net, run) && run[|run| - 1] == s;
    RunKeeps(net, run);
    assert History(net, s, i) && Excused(net, s, i, p);
  }

  // ---------------------------------------------------------------- the selected node is active

  predicate InBounds(net: Net, s: State) {
    |s.nodes| == |net.addresses| && forall i :: 0 <= i < |s.nodes| ==> s.nodes[i].read <= |s.log|
  }

  lemma {:induction false} NextInBounds(net: Net, s: State, s': State)
    requires InBounds(net, s) && Next(net, s, s')
    ensures InBounds(net, s')
  {
    hide Answer, Route;
  }

  /** At position p, since it started, node i was selected, and up to high it was not deselected again. */
  ghost predicate SelectedLast(net: Net, s: State, i: nat, p: nat, high: nat)
    requires i < |net.addresses| && i < |s.nodes| && high <= |s.log|
  {
    && s.nodes[i].since <= p < high && Turns(net, i, s.log[p], true)
    && !TurnedBetween(net, s, i, p + 1, high, false)
  }

  /** A node whose last selection, as far as it has read, was not taken back is active. */
  ghost predicate Follows(net: Net, s: State, i: nat)
    requires InBounds(net, s) && i < |s.nodes|
  {
    forall p: nat :: SelectedLast(net, s, i, p, s.nodes[i].read) ==> s.nodes[i].routing.active
  }

  lemma {:induction false} TurnsStay(net: Net, s: State, s': State, i: nat, low: nat, high: nat)
    requires i < |net.addresses| && high <= |s.log| && s.log <= s'.log
    ensures TurnedBetween(net, s, i, low, high, false) ==> TurnedBetween(net, s', i, low, high, false)
  {
    hide Turns;
    if p :| low <= p < high && Turns(net, i, s.log[p], false) {
      assert s'.log[p] == s.log[p];
    }
  }

  lemma {:induction false} MessageFollows(net: Net, s: State, s': State, i: nat)
    requires InBounds(net, s) && InBounds(net, s') && i < |s.nodes| && Follows(net, s, i) && s.log <= s'.log
    requires s'.nodes[i].read == s.nodes[i].read && s'.nodes[i].since == s.nodes[i].since
    requires s.nodes[i].routing.active ==> s'.nodes[i].routing.active
    ensures Follows(net, s', i)
  {
    hide Turns, TurnedBetween;
    forall p: nat | SelectedLast(net, s', i, p, s'.nodes[i].read) ensures SelectedLast(net, s, i, p, s.nodes[i].read) {
      TurnsStay(net, s, s', i, p + 1, s.nodes[i].read);
    }
  }

  lemma {:induction false} DeliveryFollows(net: Net, s: State, s': State, i: nat, c: Context)
    requires InBounds(net, s) && InBounds(net, s') && i < |s.nodes| && Follows(net, s, i) && s'.log == s.log
    requires Delivers(net, s.log, i, s.nodes[i], s'.nodes[i], c)
    ensures Follows(net, s', i)
  {
    var last := s.nodes[i].read;
    forall p: nat | SelectedLast(net, s', i, p, s'.nodes[i].read) ensures s'.nodes[i].routing.active {
      if p < last {
        assert !Turns(net, i, s'.log[last], false);
        assert SelectedLast(net, s, i, p, last);
      }
    }
  }

  lemma {:induction false} StepFollows(net: Net, s: State, s': State, i: nat)
    requires net.faults == {} && InBounds(net, s) && i < |s.nodes| && Follows(net, s, i) && Next(net, s, s')
    ensures InBounds(net, s') && Follows(net, s', i)
  {
    hide Turns, Answer, Route, Follows, InBounds;
    NextInBounds(net, s, s');
    if entry :| Sends(net, s, s', entry) {
      MessageFollows(net, s, s', i);
    } else {
      var k :| NodeStep(net, s, s', k);
      if k == i && Local(net, s, s', i) {
        MoveFollows(net, s, s', i);
      } else {
        MessageFollows(net, s, s', i);
      }
    }
  }

  lemma {:induction false} MoveFollows(net: Net, s: State, s': State, i: nat)
    requires net.faults == {} && InBounds(net, s) && InBounds(net, s') && i < |s.nodes| && Follows(net, s, i)
    requires Local(net, s, s', i)
    ensures Follows(net, s', i)
  {
    hide Turns, Delivered;
    var n, n' := s.nodes[i], s'.nodes[i];
    if c :| Delivers(net, s.log, i, n, n', c) {
      DeliveryFollows(net, s, s', i, c);
    } else if !Starts(s.log, n') {
      MessageFollows(net, s, s', i);
    }
  }

  lemma {:induction false} RunFollows(net: Net, run: seq<State>, i: nat)
    requires net.faults == {} && Run(net, run) && i < |net.addresses|
    ensures InBounds(net, run[|run| - 1]) && Follows(net, run[|run| - 1], i)
  {
    if |run| == 1 {
    } else {
      var before := run[..|run| - 1];
      assert Run(net, before);
      assert Next(net, run[|run| - 2], run[|run| - 1]);
      hide Next, Follows, Run;
      RunFollows(net, before, i);
      StepFollows(net, run[|run| - 2], run[|run| - 1], i);
    }
  }

  /**
   * On a quiet bus a node that was selected, and neither deselected nor started again since, is active, and on an
   * honest and reliable bus it is the only one.
   */
  lemma {:induction false} LastSelectedIsTheActiveOne(net: Net, s: State, i: nat, p: nat)
    requires net.Valid() && net.faults == {} && Reachable(net, s) && Quiescent(s)
    requires i < |net.addresses| == |s.nodes| && SelectedLast(net, s, i, p, |s.log|)
    ensures s.nodes[i].routing.active
    ensures Honest(net) ==> forall j :: 0 <= j < |s.nodes| && j != i ==> !s.nodes[j].routing.active
  {
    var run :| Run(net, run) && run[|run| - 1] == s;
    RunFollows(net, run, i);
    if Honest(net) { QuietBusHasOneActive(net, s); }
  }

  // ---------------------------------------------------------------- why honesty and reliability are needed

  lemma {:induction false} Step(net: Net, s: State, s': State)
    requires Reachable(net, s) && Next(net, s, s')
    ensures Reachable(net, s')
  {
    hide Init, Next;
    var run :| Run(net, run) && run[|run| - 1] == s;
    assert Run(net, run + [s']);
  }

  lemma {:induction false} LocalStep(net: Net, s: State, k: nat, n: Node)
    requires Reachable(net, s) && k < |s.nodes| && Moves(net, s.log, k, s.nodes[k], n)
    ensures Reachable(net, s.(nodes := s.nodes[k := n]))
  {
    hide Reachable, Moves;
    var s' := s.(nodes := s.nodes[k := n]);
    assert Local(net, s, s', k) && NodeStep(net, s, s', k);
    Step(net, s, s');
  }

  /** A node gets from n to n' by moves of its own, the log staying as it is. */
  ghost predicate Path(net: Net, log: seq<Entry>, k: nat, path: seq<Node>, n: Node, n': Node) {
    && path != [] && path[0] == n && path[|path| - 1] == n'
    && forall a :: 0 < a < |path| ==> Moves(net, log, k, path[a - 1], path[a])
  }

  ghost predicate GetsTo(net: Net, log: seq<Entry>, k: nat, n: Node, n': Node) {
    exists path :: Path(net, log, k, path, n, n')
  }

  ghost predicate AllGetTo(net: Net, log: seq<Entry>, start: seq<Node>, end: seq<Node>) {
    |start| == |end| && forall k :: 0 <= k < |end| ==> GetsTo(net, log, k, start[k], end[k])
  }

  lemma {:induction false} Walk(net: Net, s: State, k: nat, path: seq<Node>, n': Node)
    requires Reachable(net, s) && k < |s.nodes| && Path(net, s.log, k, path, s.nodes[k], n')
    ensures Reachable(net, s.(nodes := s.nodes[k := n']))
  {
    hide Reachable, Moves;
    if |path| == 1 {
      assert s.nodes[k := n'] == s.nodes;
    } else {
      var before := path[..|path| - 1];
      assert Path(net, s.log, k, before, s.nodes[k], before[|before| - 1]);
      Walk(net, s, k, before, before[|before| - 1]);
      var t := s.(nodes := s.nodes[k := before[|before| - 1]]);
      LocalStep(net, t, k, n');
      assert t.nodes[k := n'] == s.nodes[k := n'];
    }
  }

  /** If every node can get from its start to its end by itself, all of them get there. */
  lemma {:induction false} AllWalk(net: Net, log: seq<Entry>, start: seq<Node>, end: seq<Node>, m: nat)
    requires Reachable(net, State(log, start)) && AllGetTo(net, log, start, end) && m <= |end|
    ensures Reachable(net, State(log, end[..m] + start[m..]))
  {
    hide Reachable, Path;
    assert |start| == |end|;
    if m == 0 {
      assert end[..0] + start[0..] == start;
    } else {
      AllWalk(net, log, start, end, m - 1);
      var t := State(log, end[..m - 1] + start[m - 1..]);
      assert t.nodes[m - 1] == start[m - 1];
      assert GetsTo(net, log, m - 1, start[m - 1], end[m - 1]);
      var path :| Path(net, log, m - 1, path, start[m - 1], end[m - 1]);
      Walk(net, t, m - 1, path, end[m - 1]);
      assert t.nodes[m - 1 := end[m - 1]] == end[..m] + start[m..];
    }
  }

  /** A reachable quiet state with two active nodes. */
  ghost predicate Broken(net: Net) {
    exists s :: Reachable(net, s) && Quiescent(s) && !AtMostOneActive(s)
  }

  lemma {:induction false} TwoActive(net: Net, log: seq<Entry>, start: seq<Node>, end: seq<Node>, i: nat, j: nat)
    requires Reachable(net, State(log, start)) && AllGetTo(net, log, start, end)
    requires i < |net.addresses| && j < |net.addresses| && i != j && end == Ended(net, |log|, i, j)
    ensures Broken(net)
  {
    hide Reachable, GetsTo;
    AllWalk(net, log, start, end, |end|);
    assert end[..|end|] + start[|end|..] == end;
    var s := State(log, end);
    assert Quiescent(s) && !AtMostOneActive(s) by {
      var a, b := if i < j then i else j, if i < j then j else i;
      assert s.nodes[a].routing.active && s.nodes[b].routing.active;
    }
  }

  function Fresh(net: Net): seq<Node> { seq(|net.addresses|, i => FRESH) }

  lemma {:induction false} FreshReachable(net: Net)
    ensures Reachable(net, State([], Fresh(net)))
  {
    assert Run(net, [State([], Fresh(net))]);
  }

  /** A node with nothing pending that has read so much of the log. */
  function Idle(read: nat, active: bool): Node { Node(read, Routing(active, false), 0, None, 0) }

  /** Node i turns active, and its request goes out or, if that can happen, is lost. */
  lemma {:induction false} ActivateAndAsk(net: Net, s: State, i: nat)
    requires Reachable(net, s) && i < |s.nodes| && s.nodes[i] == FRESH
    ensures Reachable(net, State(s.log + [Request(i)], s.nodes[i := Idle(0, true)]))
    ensures RequestLost in net.faults ==> Reachable(net, s.(nodes := s.nodes[i := Idle(0, true)]))
  {
    hide Reachable;
    var asking := Node(0, Routing(true, false), 1, None, 0);
    assert Activates(FRESH, asking) && Moves(net, s.log, i, FRESH, asking);
    LocalStep(net, s, i, asking);
    var t := s.(nodes := s.nodes[i := asking]);
    var sent := State(s.log + [Request(i)], s.nodes[i := Idle(0, true)]);
    assert t.nodes[i := Idle(0, true)] == sent.nodes;
    assert SendsRequest(t, sent, i) && NodeStep(net, t, sent, i);
    Step(net, t, sent);
    if RequestLost in net.faults {
      assert LosesRequest(net, asking, Idle(0, true)) && WorksOff(net, t.log, i, asking, Idle(0, true));
      LocalStep(net, t, i, Idle(0, true));
    }
  }

  /** What a node without a wish to answer does with the next message. */
  lemma {:induction false} Reads(net: Net, log: seq<Entry>, k: nat, n: Node, n': Node)
    requires k < |net.addresses| && n.read < |log| && n.reply.None?
    requires
      var c := Context(net.addresses[k], 0x82, log[n.read].to.Some?, false, false, Absent);
      n' == Delivered(n, k, log[n.read], c)
    ensures Moves(net, log, k, n, n')
  {
    var c := Context(net.addresses[k], 0x82, log[n.read].to.Some?, false, false, Absent);
    assert Delivers(net, log, k, n, n', c);
  }

  lemma {:induction false} AskedAndSent(net: Net, entry: Entry, i: nat)
    requires entry in net.sendable && i < |net.addresses|
    ensures Reachable(net, State([Request(i), entry], Fresh(net)[i := Idle(0, true)]))
  {
    hide Reachable;
    FreshReachable(net);
    ActivateAndAsk(net, State([], Fresh(net)), i);
    var asked := State([] + [Request(i)], Fresh(net)[i := Idle(0, true)]);
    var sent := State([Request(i), entry], asked.nodes);
    assert sent.log == asked.log + [entry];
    assert Sends(net, asked, sent, entry);
    Step(net, asked, sent);
  }

  lemma {:induction false} BothAsked(net: Net)
    requires |net.addresses| >= 2
    ensures Reachable(net, State([Request(0), Request(1)], Fresh(net)[0 := Idle(0, true)][1 := Idle(0, true)]))
  {
    hide Reachable;
    FreshReachable(net);
    var s := State([], Fresh(net));
    ActivateAndAsk(net, s, 0);
    var t := State([] + [Request(0)], s.nodes[0 := Idle(0, true)]);
    ActivateAndAsk(net, t, 1);
    assert t.log + [Request(1)] == [Request(0), Request(1)];
  }

  /** Everything read, nothing pending, nodes i and j active. */
  function Ended(net: Net, read: nat, i: nat, j: nat): (nodes: seq<Node>)
    ensures |nodes| == |net.addresses|
    ensures forall k :: 0 <= k < |nodes| ==> nodes[k] == Idle(read, k == i || k == j)
  {
    seq(|net.addresses|, k => Idle(read, k == i || k == j))
  }

  /** A message that splits the nodes makes safety fail: one stays active, the other turns active. */
  lemma {:induction false} SplitBreaks(net: Net, entry: Entry)
    requires net.Valid() && entry in net.sendable && Splits(net, entry)
    ensures Broken(net)
  {
    var i, j :| 0 <= i < |net.addresses| && 0 <= j < |net.addresses| && i != j
      && Hears(j, entry) && !Hears(i, entry) && entry.event.address == net.addresses[j];
    var log, start := [Request(i), entry], Fresh(net)[i := Idle(0, true)];
    AskedAndSent(net, entry, i);
    hide Reachable, Splits, GetsTo, Hears;
    var end := Ended(net, 2, i, j);
    forall k | 0 <= k < |end| ensures GetsTo(net, log, k, start[k], end[k]) {
      SplitPath(net, entry, i, j, k);
    }
    TwoActive(net, log, start, end, i, j);
  }

  lemma {:induction false} SplitPath(net: Net, entry: Entry, i: nat, j: nat, k: nat)
    requires net.Valid() && i < |net.addresses| && j < |net.addresses| && i != j && k < |net.addresses|
    requires entry.event.SourceAnnounced? || entry.event.RouteChanged?
    requires Hears(j, entry) && !Hears(i, entry) && entry.event.address == net.addresses[j]
    ensures GetsTo(net, [Request(i), entry], k, Idle(0, k == i), Idle(2, k == i || k == j))
  {
    var log := [Request(i), entry];
    var path := [Idle(0, k == i), Idle(1, k == i), Idle(2, k == i || k == j)];
    assert k != j ==> net.addresses[k] != net.addresses[j];
    Reads(net, log, k, path[0], path[1]);
    Reads(net, log, k, path[1], path[2]);
    assert Path(net, log, k, path, path[0], path[2]);
  }

  /** Two daemons start, and neither hears from the other. */
  lemma {:induction false} FaultBreaks(net: Net)
    requires net.Valid() && |net.addresses| >= 2 && net.faults != {}
    ensures Broken(net)
  {
    if RequestLost in net.faults {
      BothLost(net);
    } else {
      BothAsked(net);
      var log, start := [Request(0), Request(1)], Fresh(net)[0 := Idle(0, true)][1 := Idle(0, true)];
      var end := Ended(net, 2, 0, 1);
      var f :| f in net.faults;
      assert f == ReplyLost || f == MessageMissed;
      hide Reachable, GetsTo;
      forall k | 0 <= k < |end| ensures GetsTo(net, log, k, start[k], end[k]) {
        UnansweredPath(net, k);
      }
      TwoActive(net, log, start, end, 0, 1);
    }
  }

  lemma {:induction false} BothLost(net: Net)
    requires |net.addresses| >= 2 && RequestLost in net.faults
    ensures Broken(net)
  {
    hide Reachable;
    FreshReachable(net);
    var s := State([], Fresh(net));
    ActivateAndAsk(net, s, 0);
    var t := s.(nodes := s.nodes[0 := Idle(0, true)]);
    ActivateAndAsk(net, t, 1);
    var both := t.(nodes := t.nodes[1 := Idle(0, true)]);
    assert both.nodes[0].routing.active && both.nodes[1].routing.active;
    assert Quiescent(both) && !AtMostOneActive(both);
  }

  lemma {:induction false} UnansweredPath(net: Net, k: nat)
    requires k < |net.addresses| && (ReplyLost in net.faults || MessageMissed in net.faults)
    ensures GetsTo(net, [Request(0), Request(1)], k, Idle(0, k < 2), Idle(2, k < 2))
  {
    var log := [Request(0), Request(1)];
    if k >= 2 {
      var path := [Idle(0, false), Idle(1, false), Idle(2, false)];
      Reads(net, log, k, path[0], path[1]);
      Reads(net, log, k, path[1], path[2]);
      assert Path(net, log, k, path, path[0], path[2]);
    } else if MessageMissed in net.faults {
      var path := [Idle(0, true), Idle(1, true), Idle(2, true)];
      assert Misses(net, log, path[0], path[1]) && WorksOff(net, log, k, path[0], path[1]);
      assert Misses(net, log, path[1], path[2]) && WorksOff(net, log, k, path[1], path[2]);
      assert Path(net, log, k, path, path[0], path[2]);
    } else {
      var owing := Idle(2 - k, true).(reply := Some(net.addresses[k]));
      var answered := owing.(reply := None);
      assert LosesReply(net, owing, answered) && WorksOff(net, log, k, owing, answered);
      var path := if k == 0 then [Idle(0, true), Idle(1, true), owing, answered]
                  else [Idle(0, true), owing, answered, Idle(2, true)];
      if k == 0 {
        Reads(net, log, k, path[0], path[1]);
        Reads(net, log, k, path[1], path[2]);
      } else {
        Reads(net, log, k, path[0], path[1]);
        Reads(net, log, k, path[2], path[3]);
      }
      assert Path(net, log, k, path, path[0], path[3]);
    }
  }

  lemma {:induction false} NodesStay(net: Net, run: seq<State>)
    requires Run(net, run)
    ensures |run[|run| - 1].nodes| == |net.addresses|
  {
    if |run| == 1 {
    } else {
      var before := run[..|run| - 1];
      assert Run(net, before);
      NodesStay(net, before);
      hide Moves;
      assert Next(net, run[|run| - 2], run[|run| - 1]);
    }
  }

  /**
   * Safety holds over all runs exactly when there are fewer than two daemons, or nobody can send what splits
   * them and none of them can lose a request, a reply or a message.
   */
  lemma {:induction false} SafeExactlyWhenHonestAndReliable(net: Net)
    requires net.Valid()
    ensures Safe(net) <==> |net.addresses| < 2 || (Honest(net) && net.faults == {})
  {
    if |net.addresses| < 2 {
      forall s | Reachable(net, s) && Quiescent(s) ensures AtMostOneActive(s) {
        var run :| Run(net, run) && run[|run| - 1] == s;
        NodesStay(net, run);
      }
    } else if !Honest(net) {
      var entry :| entry in net.sendable && Splits(net, entry);
      SplitBreaks(net, entry);
    } else if net.faults != {} {
      FaultBreaks(net);
    } else {
      forall s | Reachable(net, s) && Quiescent(s) ensures AtMostOneActive(s) {
        QuietBusHasOneActive(net, s);
      }
    }
  }

  /** What a client has a daemon broadcast splits the nodes exactly if it announces, or routes to, another daemon. */
  lemma {:induction false} ClientBroadcasts(net: Net, i: nat, e: Event)
    requires net.Valid() && i < |net.addresses|
    ensures Splits(net, Entry(e, Some(i), None)) <==>
      (e.SourceAnnounced? || e.RouteChanged?) && e.address in net.addresses && e.address != net.addresses[i]
  {
    var entry := Entry(e, Some(i), None);
    if (e.SourceAnnounced? || e.RouteChanged?) && e.address in net.addresses && e.address != net.addresses[i] {
      var j :| 0 <= j < |net.addresses| && net.addresses[j] == e.address;
      assert Hears(j, entry) && !Hears(i, entry);
    }
  }

  /** A client has node i broadcast a routing change to node j: j turns active, says nothing, and i does not hear it. */
  lemma {:induction false} ClientRoutingChangeBreaks(net: Net, i: nat, j: nat)
    requires net.Valid() && i < |net.addresses| && j < |net.addresses| && i != j
    requires Entry(RouteChanged(net.addresses[j]), Some(i), None) in net.sendable
    ensures !Safe(net)
  {
    ClientBroadcasts(net, i, RouteChanged(net.addresses[j]));
    SplitBreaks(net, Entry(RouteChanged(net.addresses[j]), Some(i), None));
  }
}
