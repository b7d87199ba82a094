/**
 * Left to themselves the daemons of the active-source protocol come to rest: delivering messages and sending
 * what is pending cannot go on for ever, and stops only on a quiet bus.
 */
module Settling {
  import Arithmetic
  import opened Wire
  import opened Reactions
  import opened ActiveSource

  /** A node works off what it has to read or to send; nobody activates, announces, starts or sends anything new. */
  ghost predicate SettlesAt(net: Net, s: State, s': State, i: nat) {
    || (Local(net, s, s', i) && WorksOff(net, s.log, i, s.nodes[i], s'.nodes[i]))
    || SendsRequest(s, s', i) || SendsReply(s, s', i)
  }

  ghost predicate Settles(net: Net, s: State, s': State) {
    exists i: nat :: SettlesAt(net, s, s', i)
  }

  ghost predicate SettlingRun(net: Net, run: seq<State>) {
    run != [] && forall k :: 0 < k < |run| ==> Settles(net, run[k - 1], run[k])
  }

  ghost predicate AtRest(net: Net, s: State) {
    forall s' :: !Settles(net, s, s')
  }

  // ---------------------------------------------------------------- the work that is left

  /** Reading a message, and announcing oneself to n nodes if it may ask for that. */
  function ReadCost(n: nat, e: Event): nat {
    if e.StreamPath? || e.SourceRequest? then n + 2 else 1
  }

  function Unread(n: nat, log: seq<Entry>): nat {
    if log == [] then 0 else Unread(n, log[1..]) + ReadCost(n, log[0].event)
  }

  /** A request is sent, read by n nodes and answered by each. */
  function RequestCost(n: nat): nat { 1 + n * (n + 2) }

  function NodeWork(n: nat, log: seq<Entry>, node: Node): nat
    requires node.read <= |log|
  {
    Unread(n, log[node.read..]) + node.requests * RequestCost(n) + if node.reply.Some? then n + 1 else 0
  }

  function Work(net: Net, s: State, m: nat): nat
    requires InBounds(net, s) && m <= |s.nodes|
  {
    if m == 0 then 0 else Work(net, s, m - 1) + NodeWork(|s.nodes|, s.log, s.nodes[m - 1])
  }

  lemma {:induction false} UnreadAppend(n: nat, log: seq<Entry>, entry: Entry)
    ensures Unread(n, log + [entry]) == Unread(n, log) + ReadCost(n, entry.event)
  {
    if log == [] {
      assert (log + [entry])[1..] == [];
    } else {
      assert (log + [entry])[1..] == log[1..] + [entry];
      UnreadAppend(n, log[1..], entry);
    }
  }

  lemma {:induction false} UnreadNext(n: nat, log: seq<Entry>, read: nat)
    requires read < |log|
    ensures Unread(n, log[read..]) == Unread(n, log[read + 1..]) + ReadCost(n, log[read].event)
  {
    assert log[read..][1..] == log[read + 1..];
  }

  /** Only a request for the source or a stream path can make a node owe an announcement. */
  lemma {:induction false} DeliveryIsWork(net: Net, log: seq<Entry>, i: nat, node: Node, node': Node, c: Context)
    requires node.read < |log| && Delivers(net, log, i, node, node', c)
    ensures NodeWork(|net.addresses|, log, node') < NodeWork(|net.addresses|, log, node)
  {
    UnreadNext(|net.addresses|, log, node.read);
    AnswersOnlyWhenAsked(node.routing, log[node.read].event, c);
    hide Unread, Answer, Route, RequestCost;
  }

  lemma {:induction false} AnswersOnlyWhenAsked(r: Routing, e: Event, c: Context)
    ensures Answer(r, e, c).Some? && Answer(r, e, c).value.0.Source? ==> e.StreamPath? || e.SourceRequest?
  {}

  lemma {:induction false} WorkingOffIsWork(net: Net, log: seq<Entry>, i: nat, node: Node, node': Node)
    requires node.read <= |log| && WorksOff(net, log, i, node, node')
    ensures node'.read <= |log| && NodeWork(|net.addresses|, log, node') < NodeWork(|net.addresses|, log, node)
  {
    hide Unread, Delivered, RequestCost, ReadCost;
    var n := |net.addresses|;
    if c :| Delivers(net, log, i, node, node', c) {
      DeliveryIsWork(net, log, i, node, node', c);
      DeliveredRead(node, i, log[node.read], c);
    } else if Misses(net, log, node, node') {
      UnreadNext(n, log, node.read);
      ReadCostPositive(n, log[node.read].event);
    } else if LosesRequest(net, node, node') {
      Arithmetic.OneMore(node.requests - 1, RequestCost(n));
      RequestCostPositive(n);
    }
  }

  lemma {:induction false} DeliveredRead(n: Node, i: nat, entry: Entry, c: Context)
    ensures Delivered(n, i, entry, c).read == n.read + 1
  {}

  lemma {:induction false} ReadCostPositive(n: nat, e: Event)
    ensures ReadCost(n, e) > 0
  {}

  lemma {:induction false} RequestCostPositive(n: nat)
    ensures RequestCost(n) == n * ReadCost(n, SourceRequest) + 1 && n + 1 == n * ReadCost(n, SourceAnnounced(0)) + 1
  {}

  /** Changing one node changes the sum by what it changes there. */
  lemma {:induction false} WorkOfOne(net: Net, s: State, s': State, i: nat, m: nat)
    requires InBounds(net, s) && InBounds(net, s') && s'.log == s.log && i < |s.nodes| && m <= |s.nodes|
    requires OnlyNode(s, s', i, s'.nodes[i])
    ensures Work(net, s', m) == Work(net, s, m) +
      if i < m then NodeWork(|s.nodes|, s.log, s'.nodes[i]) - NodeWork(|s.nodes|, s.log, s.nodes[i]) else 0
  {
    hide NodeWork;
    if m == 0 {
    } else {
      WorkOfOne(net, s, s', i, m - 1);
    }
  }

  /** A message more on the log is one more for every node to read. */
  lemma {:induction false} WorkOfMessage(net: Net, s: State, s': State, entry: Entry, m: nat)
    requires InBounds(net, s) && s' == s.(log := s.log + [entry]) && m <= |s.nodes|
    ensures InBounds(net, s')
    ensures Work(net, s', m) == Work(net, s, m) + m * ReadCost(|s.nodes|, entry.event)
  {
    hide Unread, ReadCost, RequestCost;
    if m == 0 {
    } else {
      WorkOfMessage(net, s, s', entry, m - 1);
      var read := s.nodes[m - 1].read;
      assert s'.log[read..] == s.log[read..] + [entry];
      UnreadAppend(|s.nodes|, s.log[read..], entry);
      Arithmetic.OneMore(m - 1, ReadCost(|s.nodes|, entry.event));
    }
  }

  /** A node with one thing less to send, and the message it sent on the log. */
  lemma {:induction false} SendingIsWork(net: Net, s: State, s': State, i: nat, entry: Entry, node: Node)
    requires InBounds(net, s) && s'.log == s.log + [entry] && OnlyNode(s, s', i, node) && node.read == s.nodes[i].read
    requires NodeWork(|s.nodes|, s.log, s.nodes[i])
      == NodeWork(|s.nodes|, s.log, node) + |s.nodes| * ReadCost(|s.nodes|, entry.event) + 1
    ensures InBounds(net, s') && Work(net, s', |s'.nodes|) < Work(net, s, |s.nodes|)
  {
    hide NodeWork, ReadCost, Work;
    var t := s.(nodes := s'.nodes);
    WorkOfOne(net, s, t, i, |s.nodes|);
    WorkOfMessage(net, t, s', entry, |s.nodes|);
  }

  lemma {:induction false} RequestIsWork(net: Net, s: State, s': State, i: nat)
    requires InBounds(net, s) && SendsRequest(s, s', i)
    ensures InBounds(net, s') && Work(net, s', |s'.nodes|) < Work(net, s, |s.nodes|)
  {
    hide Unread, ReadCost, RequestCost, Work;
    RequestCostPositive(|s.nodes|);
    Arithmetic.OneMore(s.nodes[i].requests - 1, RequestCost(|s.nodes|));
    SendingIsWork(net, s, s', i, Request(i), s.nodes[i].(requests := s.nodes[i].requests - 1));
  }

  lemma {:induction false} ReplyIsWork(net: Net, s: State, s': State, i: nat)
    requires InBounds(net, s) && SendsReply(s, s', i)
    ensures InBounds(net, s') && Work(net, s', |s'.nodes|) < Work(net, s, |s.nodes|)
  {
    hide Unread, ReadCost, RequestCost, Work;
    RequestCostPositive(|s.nodes|);
    SameCost(|s.nodes|, s.nodes[i].reply.value);
    var sent := Entry(SourceAnnounced(s.nodes[i].reply.value), Some(i), None);
    SendingIsWork(net, s, s', i, sent, s.nodes[i].(reply := None));
  }

  /** Every settling step leaves less work. */
  lemma {:induction false} SettlingIsWork(net: Net, s: State, s': State)
    requires InBounds(net, s) && Settles(net, s, s')
    ensures InBounds(net, s') && Work(net, s', |s'.nodes|) < Work(net, s, |s.nodes|)
  {
    hide Moves, WorksOff, NodeWork, Work;
    var i: nat :| SettlesAt(net, s, s', i);
    if SendsRequest(s, s', i) {
      RequestIsWork(net, s, s', i);
    } else if SendsReply(s, s', i) {
      ReplyIsWork(net, s, s', i);
    } else {
      WorkingOffIsWork(net, s.log, i, s.nodes[i], s'.nodes[i]);
      WorkOfOne(net, s, s', i, |s.nodes|);
    }
  }

  lemma {:induction false} SameCost(n: nat, a: Address)
    ensures ReadCost(n, SourceAnnounced(a)) == ReadCost(n, SourceAnnounced(0))
  {}

  /** A settling run is no longer than the work its first state leaves. */
  lemma {:induction false} SettlingEnds(net: Net, run: seq<State>)
    requires SettlingRun(net, run) && InBounds(net, run[0])
    ensures InBounds(net, run[|run| - 1])
    ensures |run| - 1 + Work(net, run[|run| - 1], |run[|run| - 1].nodes|) <= Work(net, run[0], |run[0].nodes|)
  {
    hide Settles, Work;
    if |run| == 1 {
    } else {
      var before := run[..|run| - 1];
      assert SettlingRun(net, before);
      SettlingEnds(net, before);
      SettlingIsWork(net, run[|run| - 2], run[|run| - 1]);
    }
  }

  /** The bus is at rest exactly when it is quiet. */
  lemma {:induction false} RestIsQuiet(net: Net, s: State)
    requires InBounds(net, s)
    ensures AtRest(net, s) <==> Quiescent(s)
  {
    if !Quiescent(s) {
      var i :| 0 <= i < |s.nodes|
        && !(s.nodes[i].read == |s.log| && s.nodes[i].requests == 0 && s.nodes[i].reply.None?);
      SomethingToDo(net, s, i);
    } else {
      forall s' ensures !Settles(net, s, s') {}
    }
  }

  lemma {:induction false} SomethingToDo(net: Net, s: State, i: nat)
    requires InBounds(net, s) && i < |s.nodes|
    requires !(s.nodes[i].read == |s.log| && s.nodes[i].requests == 0 && s.nodes[i].reply.None?)
    ensures !AtRest(net, s)
  {
    hide Delivered;
    var n := s.nodes[i];
    if n.reply.Some? {
      var s' := State(s.log + [Entry(SourceAnnounced(n.reply.value), Some(i), None)], s.nodes[i := n.(reply := None)]);
      assert SettlesAt(net, s, s', i) && Settles(net, s, s');
    } else if n.requests > 0 {
      var s' := State(s.log + [Request(i)], s.nodes[i := n.(requests := n.requests - 1)]);
      assert SettlesAt(net, s, s', i) && Settles(net, s, s');
    } else {
      var c := Context(net.addresses[i], 0, s.log[n.read].to.Some?, false, false, Absent);
      var n' := Delivered(n, i, s.log[n.read], c);
      var s' := s.(nodes := s.nodes[i := n']);
      assert Delivers(net, s.log, i, n, n', c);
      assert SettlesAt(net, s, s', i) && Settles(net, s, s');
    }
  }

  lemma {:induction false} RunInBounds(net: Net, run: seq<State>)
    requires Run(net, run)
    ensures InBounds(net, run[|run| - 1])
  {
    if |run| == 1 {
    } else {
      var before := run[..|run| - 1];
      assert Run(net, before);
      RunInBounds(net, before);
      NextInBounds(net, run[|run| - 2], run[|run| - 1]);
    }
  }

  lemma {:induction false} SettlingReaches(net: Net, run: seq<State>)
    requires SettlingRun(net, run) && Reachable(net, run[0])
    ensures Reachable(net, run[|run| - 1])
  {
    if |run| == 1 {
    } else {
      var before, s, s' := run[..|run| - 1], run[|run| - 2], run[|run| - 1];
      assert SettlingRun(net, before);
      SettlingReaches(net, before);
      hide Reachable, WorksOff;
      var i: nat :| SettlesAt(net, s, s', i);
      assert NodeStep(net, s, s', i) && Next(net, s, s');
      Step(net, s, s');
    }
  }

  /**
   * Whatever has happened on an honest and reliable bus, once clients, other devices and users leave it alone it
   * settles in boundedly many steps, and then at most one daemon is active.
   */
  lemma {:induction false} BusSettlesOnOneActive(net: Net, run: seq<State>)
    requires net.Valid() && ActiveSource.Honest(net) && net.faults == {}
    requires SettlingRun(net, run) && Reachable(net, run[0])
    ensures InBounds(net, run[0]) && |run| - 1 <= Work(net, run[0], |run[0].nodes|)
    ensures AtRest(net, run[|run| - 1]) ==> Quiescent(run[|run| - 1]) && AtMostOneActive(run[|run| - 1])
  {
    hide ActiveSource.Honest, Settles, Work;
    var history :| Run(net, history) && history[|history| - 1] == run[0];
    RunInBounds(net, history);
    SettlingEnds(net, run);
    SettlingReaches(net, run);
    var last := run[|run| - 1];
    RestIsQuiet(net, last);
    if AtRest(net, last) { QuietBusHasOneActive(net, last); }
  }
}
