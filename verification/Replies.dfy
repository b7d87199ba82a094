/**
 * Traffic of replies among any number of daemons (cecd/src/device.rs, handle_message): every message still
 * to be delivered has a weight, and delivering one, whatever the node and its handlers make of it, replaces
 * it by lighter ones.
 */
module Replies {
  import Arithmetic
  import opened Wire
  import opened Reactions

  /** One delivery that is still to happen: a message on its way to one node. */
  datatype Copy = Copy(
    to: nat,                  // the node it will reach
    event: Event,
    opcode: u8,
    direct: bool,
    from: LogicalAddress,
    depth: nat)               // how many replies led to it

  // ---------------------------------------------------------------- steps

  /** The copies a reply from node n to an address puts on the bus; the sender gets none. */
  function Sent(nodes: seq<LogicalAddress>, n: nat, reply: Reply, to: LogicalAddress, depth: nat, upTo: nat)
    : (copies: seq<Copy>)
    requires n < |nodes| && upTo <= |nodes|
    ensures |copies| <= upTo
    ensures forall i :: 0 <= i < |copies| ==>
      copies[i].event == AsReceived(reply) && copies[i].depth == depth && copies[i].to < |nodes|
  {
    if upTo == 0 then []
    else
      var earlier := Sent(nodes, n, reply, to, depth, upTo - 1);
      if upTo - 1 != n && (to == BROADCAST || nodes[upTo - 1] == to) then
        earlier + [Copy(upTo - 1, AsReceived(reply), ReplyOpcode(reply), to != BROADCAST, nodes[n], depth)]
      else earlier
  }

  function CopyFor(nodes: seq<LogicalAddress>, n: nat, reply: Reply, to: LogicalAddress, depth: nat, i: nat): Copy
    requires n < |nodes|
  {
    Copy(i, AsReceived(reply), ReplyOpcode(reply), to != 15, nodes[n], depth)
  }

  /** A reply reaches exactly the nodes it is addressed to, each once; one to everyone reaches all but its sender. */
  lemma {:induction false} ReachesExactly(nodes: seq<LogicalAddress>, n: nat, reply: Reply, to: LogicalAddress,
                                          depth: nat, upTo: nat, i: nat)
    requires n < |nodes| && upTo <= |nodes| && i < |nodes|
    ensures multiset(Sent(nodes, n, reply, to, depth, upTo))[CopyFor(nodes, n, reply, to, depth, i)] ==
      if i < upTo && i != n && (to == 15 || nodes[i] == to) then 1 else 0
  {
    hide *;
    var copy := CopyFor(nodes, n, reply, to, depth, i);
    SentStep(nodes, n, reply, to, depth, upTo);
    if upTo == 0 {
    } else {
      var last := CopyFor(nodes, n, reply, to, depth, upTo - 1);
      ReachesExactly(nodes, n, reply, to, depth, upTo - 1, i);
      CopiesDiffer(nodes, n, reply, to, depth, upTo - 1, i);
      OneMoreCopy(Sent(nodes, n, reply, to, depth, upTo - 1), last, copy);
    }
  }

  lemma {:induction false} SentStep(nodes: seq<LogicalAddress>, n: nat, reply: Reply, to: LogicalAddress,
                                    depth: nat, upTo: nat)
    requires n < |nodes| && upTo <= |nodes|
    ensures Sent(nodes, n, reply, to, depth, upTo) ==
      if upTo == 0 then []
      else
        Sent(nodes, n, reply, to, depth, upTo - 1) +
        if upTo - 1 != n && (to == 15 || nodes[upTo - 1] == to) then [CopyFor(nodes, n, reply, to, depth, upTo - 1)]
        else []
  {
    hide AsReceived, ReplyOpcode;
  }

  lemma {:induction false} CopiesDiffer(nodes: seq<LogicalAddress>, n: nat, reply: Reply, to: LogicalAddress,
                                        depth: nat, i: nat, j: nat)
    requires n < |nodes|
    ensures CopyFor(nodes, n, reply, to, depth, i) == CopyFor(nodes, n, reply, to, depth, j) <==> i == j
  {}

  lemma {:induction false} OneMoreCopy(copies: seq<Copy>, last: Copy, copy: Copy)
    ensures multiset(copies + [last])[copy] == multiset(copies)[copy] + if last == copy then 1 else 0
  {}

  /** What node c.to puts on the bus when it handles the copy. */
  function Responses(nodes: seq<LogicalAddress>, c: Copy, r: Routing, ctx: Context): seq<Copy>
    requires c.to < |nodes|
  {
    var answer := Answer(r, c.event, ctx);
    if answer.None? then []
    else Sent(nodes, c.to, answer.value.0, AddressOf(answer.value.1, c.from), c.depth + 1, |nodes|)
  }

  /** A handled copy is answered exactly as the protocol says, with one copy for each node the answer is meant for. */
  lemma {:induction false} ResponsesReach(nodes: seq<LogicalAddress>, c: Copy, r: Routing, ctx: Context, i: nat)
    requires c.to < |nodes| && i < |nodes|
    ensures Answer(r, c.event, ctx).None? ==> Responses(nodes, c, r, ctx) == []
    ensures Answer(r, c.event, ctx).Some? ==>
      var (reply, target) := Answer(r, c.event, ctx).value;
      var to := if target.Initiator? then c.from else 15;
      multiset(Responses(nodes, c, r, ctx))[CopyFor(nodes, c.to, reply, to, c.depth + 1, i)] ==
        if i != c.to && (to == 15 || nodes[i] == to) then 1 else 0
  {
    hide Answer, Sent;
    var answer := Answer(r, c.event, ctx);
    if answer.Some? {
      ReachesExactly(nodes, c.to, answer.value.0, AddressOf(answer.value.1, c.from), c.depth + 1, |nodes|, i);
    }
  }

  /** The k-th copy is delivered; its reply goes out, or is lost to a transmit failure. */
  ghost predicate Deliver(nodes: seq<LogicalAddress>, s: seq<Copy>, s': seq<Copy>, k: nat, r: Routing, ctx: Context) {
    && k < |s| && s[k].to < |nodes|
    && ctx.direct == s[k].direct && ctx.opcode == s[k].opcode
    && (s' == s[..k] + s[k + 1..] + Responses(nodes, s[k], r, ctx) || s' == s[..k] + s[k + 1..])
  }

  ghost predicate Next(nodes: seq<LogicalAddress>, s: seq<Copy>, s': seq<Copy>) {
    exists k: nat, r, ctx :: Deliver(nodes, s, s', k, r, ctx)
  }

  ghost predicate Run(nodes: seq<LogicalAddress>, run: seq<seq<Copy>>) {
    run != [] && forall k :: 0 < k < |run| ==> Next(nodes, run[k - 1], run[k])
  }

  // ---------------------------------------------------------------- weights

  /** How many replies can still follow one another from a message. */
  function Rank(e: Event, direct: bool): nat {
    match e
    case PowerRequest => 2
    case StreamPath(_) => 1
    case StandbyRequest => 1
    case SourceRequest => 1
    case Unhandled => if direct then 1 else 0
    case _ => 0
  }

  function Weight(nodes: nat, rank: nat): (w: nat)
    ensures w >= 1
  {
    if rank == 0 then 1 else 1 + nodes * Weight(nodes, rank - 1)
  }

  function CopyWeight(nodes: nat, c: Copy): nat { Weight(nodes, Rank(c.event, c.direct)) }

  function Total(nodes: nat, s: seq<Copy>): nat {
    if s == [] then 0 else Total(nodes, s[..|s| - 1]) + CopyWeight(nodes, s[|s| - 1])
  }

  /** A reply can lead to fewer further replies than the message it answers. */
  lemma {:induction false} RepliesRankLower(r: Routing, e: Event, ctx: Context, direct: bool)
    requires Answer(r, e, ctx).Some?
    ensures Rank(AsReceived(Answer(r, e, ctx).value.0), direct) < Rank(e, ctx.direct)
  {
    AnswersAreProper(r, e, ctx);
  }

  lemma {:induction false} WeightGrows(nodes: nat, low: nat, high: nat)
    requires low <= high && nodes > 0
    ensures Weight(nodes, low) <= Weight(nodes, high)
  {
    if low == high {
    } else {
      WeightGrows(nodes, low, high - 1);
      var before := Weight(nodes, high - 1);
      assert Weight(nodes, high) == 1 + nodes * before;
      hide Weight;
      Arithmetic.Monotone(1, nodes, before);
    }
  }

  lemma {:induction false} TotalAdds(nodes: nat, a: seq<Copy>, b: seq<Copy>)
    ensures Total(nodes, a + b) == Total(nodes, a) + Total(nodes, b)
  {
    if b == [] {
      assert a + b == a;
    } else {
      var b' := b[..|b| - 1];
      assert (a + b)[..|a + b| - 1] == a + b';
      TotalAdds(nodes, a, b');
    }
  }

  lemma {:induction false} TotalBounded(nodes: nat, s: seq<Copy>, rank: nat)
    requires nodes > 0 && forall i :: 0 <= i < |s| ==> Rank(s[i].event, s[i].direct) <= rank
    ensures Total(nodes, s) <= |s| * Weight(nodes, rank)
  {
    hide Weight, Rank;
    if s == [] {
    } else {
      var before, last, w := s[..|s| - 1], s[|s| - 1], Weight(nodes, rank);
      TotalBounded(nodes, before, rank);
      WeightGrows(nodes, Rank(last.event, last.direct), rank);
      Arithmetic.OneMore(|before|, w);
    }
  }

  /** What a delivery puts on the bus weighs less than what it takes off. */
  lemma {:induction false} ResponsesAreLighter(nodes: seq<LogicalAddress>, c: Copy, r: Routing, ctx: Context)
    requires c.to < |nodes| && ctx.direct == c.direct
    ensures Total(|nodes|, Responses(nodes, c, r, ctx)) < CopyWeight(|nodes|, c)
    ensures forall i :: 0 <= i < |Responses(nodes, c, r, ctx)| ==>
      var d := Responses(nodes, c, r, ctx)[i];
      d.depth == c.depth + 1 && Rank(d.event, d.direct) < Rank(c.event, c.direct)
  {
    assert Total(|nodes|, []) == 0;
    hide Answer, Rank, Total;
    var answer, n, copies := Answer(r, c.event, ctx), |nodes|, Responses(nodes, c, r, ctx);
    if answer.Some? {
      RepliesRankLower(r, c.event, ctx, true);
      RepliesRankLower(r, c.event, ctx, false);
      var rank: nat := Rank(c.event, c.direct) - 1;
      hide Sent;
      TotalBounded(n, copies, rank);
      Arithmetic.Monotone(|copies|, n, Weight(n, rank));
    }
  }

  /** Every delivery makes the traffic lighter. */
  lemma {:induction false} DeliveryDecreases(nodes: seq<LogicalAddress>, s: seq<Copy>, s': seq<Copy>)
    requires Next(nodes, s, s')
    ensures Total(|nodes|, s') < Total(|nodes|, s)
  {
    var k: nat, r, ctx :| Deliver(nodes, s, s', k, r, ctx);
    assert Total(|nodes|, [s[k]]) == CopyWeight(|nodes|, s[k]);
    hide Responses, Total;
    var rest, n := s[..k] + s[k + 1..], |nodes|;
    assert s == s[..k] + ([s[k]] + s[k + 1..]);
    TotalAdds(n, s[..k], [s[k]] + s[k + 1..]);
    TotalAdds(n, [s[k]], s[k + 1..]);
    TotalAdds(n, s[..k], s[k + 1..]);
    ResponsesAreLighter(nodes, s[k], r, ctx);
    TotalAdds(n, rest, Responses(nodes, s[k], r, ctx));
  }

  /** So every run ends: it has at most as many deliveries as its first state weighs. */
  lemma {:induction false} TrafficDiesOut(nodes: seq<LogicalAddress>, run: seq<seq<Copy>>)
    requires Run(nodes, run)
    ensures |run| - 1 + Total(|nodes|, run[|run| - 1]) <= Total(|nodes|, run[0])
  {
    if |run| == 1 {
    } else {
      var before := run[..|run| - 1];
      assert Run(nodes, before);
      TrafficDiesOut(nodes, before);
      DeliveryDecreases(nodes, run[|run| - 2], run[|run| - 1]);
    }
  }

  lemma {:induction false} SmallWeights(n: nat)
    ensures Weight(n, 0) == 1 && Weight(n, 1) == 1 + n * Weight(n, 0) && Weight(n, 2) == 1 + n * Weight(n, 1)
  {}

  lemma {:induction false} HeaviestWeight(n: nat, rank: nat)
    requires rank <= 2
    ensures Weight(n, rank) <= 1 + n + n * n
  {
    hide Weight;
    SmallWeights(n);
    assert n * 1 == n && n * (1 + n) == n + n * n;
  }

  /** One message to one node costs at most 1 + N + N * N deliveries in all. */
  lemma {:induction false} OneMessageCosts(nodes: seq<LogicalAddress>, c: Copy, run: seq<seq<Copy>>)
    requires Run(nodes, run) && run[0] == [c]
    ensures |run| - 1 <= 1 + |nodes| + |nodes| * |nodes|
  {
    var n := |nodes|;
    assert Total(n, [c]) == CopyWeight(n, c);
    hide Run, Total, Weight;
    TrafficDiesOut(nodes, run);
    HeaviestWeight(n, Rank(c.event, c.direct));
  }

  /** Behind each copy, and still to come after it, are at most two replies. */
  ghost predicate Shallow(s: seq<Copy>) {
    forall i :: 0 <= i < |s| ==> s[i].depth + Rank(s[i].event, s[i].direct) <= 2
  }

  /** No chain of replies is longer than two. */
  lemma {:induction false} ChainsAreShort(nodes: seq<LogicalAddress>, run: seq<seq<Copy>>)
    requires Run(nodes, run) && forall i :: 0 <= i < |run[0]| ==> run[0][i].depth == 0
    ensures Shallow(run[|run| - 1])
  {
    if |run| == 1 {
    } else {
      var before := run[..|run| - 1];
      assert Run(nodes, before);
      ChainsAreShort(nodes, before);
      var s, s' := run[|run| - 2], run[|run| - 1];
      var k: nat, r, ctx :| Deliver(nodes, s, s', k, r, ctx);
      ResponsesAreLighter(nodes, s[k], r, ctx);
      hide Responses, Rank;
      forall i | 0 <= i < |s'| ensures s'[i].depth + Rank(s'[i].event, s'[i].direct) <= 2 {
        assert s'[i] in s || s'[i] in Responses(nodes, s[k], r, ctx);
      }
    }
  }
}
