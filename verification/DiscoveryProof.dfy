/**
  * The endpoint proof told by the steps of a run: who pinged, who answered in time, who asked, and what was sent where.
  * Also what the proof does not give: it is tied to the peer's identity, not to an address or a time.
  */
module DiscoveryProof {
  import opened Prelude
  import opened Kademlia
  import opened Discovery
  import opened DiscoveryInv

  /** `id` takes the place of a peer that is thrown out. */
  predicate Succeeds(e: Env, s: State, gone: H512, id: H512)
    requires |s.table| == NUMBER_OF_BUCKETS
  {
    var known := Find(e.keccak, e.local, s.table, gone);
    && known.Some?
    && var t := SetPeer(e.keccak, e.local, s.table, gone, Judged(known.value));
       && |t| == NUMBER_OF_BUCKETS
       && var peer := ReplacePeer(e.keccak, e.local, t, gone).1; peer.Some? && Id(peer.value) == id
  }

  /**
    * The step sends this peer a ping with this hash: the peer is among the neighbors received, or it is the one that the
    * server has just heard a ping of, the bootnode just inserted, the successor of a peer that is thrown out, or next in the
    * round of revalidation.
    */
  predicate Pings(e: Env, s: State, step: Step, id: H512, hash: H256) {
    match step
    case Receive(_, msg, _, pings) =>
      && msg.Neighbors?
      && exists j :: 0 <= j < |msg.nodes| && j < |pings| && msg.nodes[j].nodeId == id && pings[j] == Some(hash)
    case Serve(_, h) =>
      && h == Some(hash)
      && ((s.server.PingSeen? && s.server.known.Some?) || (s.server.PingInserted? && s.server.inserted))
      && s.server.id == id
    case Boot(_, h) => h == Some(hash) && s.startup.sent == Some(id)
    case Check(gone, _, h) => h == Some(hash) && |s.table| == NUMBER_OF_BUCKETS && Succeeds(e, s, gone, id)
    case Revalidate(_, h) =>
      h == Some(hash) && s.revalidation.Pinging? && s.revalidation.peers != [] && Id(s.revalidation.peers[0]) == id
    case _ => false
  }

  /** A pong of this peer arrives, not expired, for the ping that the table has as its last. */
  predicate Answers(e: Env, s: State, step: Step, id: H512, hash: H256) {
    && |s.table| == NUMBER_OF_BUCKETS
    && step.Receive? && step.from.nodeId == id && step.msg.Pong?
    && step.msg.pingHash == hash && step.msg.pongExpiration >= step.now
    && var p := Find(e.keccak, e.local, s.table, id);
       p.Some? && p.value.lastPingHash == Some(hash)
  }

  /** A request for neighbors arrives, not expired, from a peer that the table has as proven. */
  predicate Asks(e: Env, s: State, step: Step, from: Node, target: H512) {
    && |s.table| == NUMBER_OF_BUCKETS
    && step.Receive? && step.from == from && step.msg.FindNode?
    && step.msg.target == target && step.msg.findExpiration >= step.now
    && var p := Find(e.keccak, e.local, s.table, from.nodeId);
       p.Some? && p.value.isProven
  }

  /** Why a step may add an event to the log. */
  predicate Causes(e: Env, s: State, step: Step, ev: Event) {
    match ev
    case Recorded(id, hash) => Pings(e, s, step, id, hash)
    case Ponged(id, hash) => Answers(e, s, step, id, hash)
    case NeighborsSent(to, sent) =>
      && step.Serve? && s.server.FindNodeProven? && s.server.from == to
      && sent == ClosestNodes(e.keccak, s.table, s.server.target)
    case Accepted(_, _) => true
  }

  // ---------------------------------------------------------------------------------------------
  // What one step adds to the log
  // ---------------------------------------------------------------------------------------------

  ghost predicate Adds(e: Env, s: State, step: Step, before: seq<Event>, after: seq<Event>) {
    && before <= after
    && forall i | |before| <= i < |after| :: Causes(e, s, step, after[i])
  }

  lemma AddsOne(e: Env, s: State, step: Step, log: seq<Event>, ev: Event)
    requires Causes(e, s, step, ev)
    ensures Adds(e, s, step, log, log + [ev])
  {
  }

  lemma AddsMore(e: Env, s: State, step: Step, a: seq<Event>, b: seq<Event>, c: seq<Event>)
    requires Adds(e, s, step, a, b) && Adds(e, s, step, b, c)
    ensures Adds(e, s, step, a, c)
  {
    hide Causes;
    forall i | |a| <= i < |c|
      ensures Causes(e, s, step, c[i])
    {
      if i < |b| {
        assert c[i] == b[i];
      }
    }
  }

  /** The nodes from `j` on and their pings are those of a message with neighbors. */
  predicate Rest(step: Step, j: nat, nodes: seq<Node>, pings: seq<Option<H256>>) {
    && step.Receive? && step.msg.Neighbors? && j + |nodes| == |step.msg.nodes| && step.msg.nodes[j..] == nodes
    && if j <= |step.pings| then step.pings[j..] == pings else pings == []
  }

  lemma RestPings(e: Env, s: State, step: Step, j: nat, nodes: seq<Node>, pings: seq<Option<H256>>)
    requires Rest(step, j, nodes, pings) && nodes != []
    ensures pings != [] && pings[0].Some? ==> Pings(e, s, step, nodes[0].nodeId, pings[0].value)
    ensures Rest(step, j + 1, nodes[1..], if pings == [] then [] else pings[1..])
  {
    assert nodes[0] == step.msg.nodes[j];
    assert pings != [] ==> pings[0] == step.pings[j];
  }

  lemma {:induction false} InsertAllAdds(
    e: Env, was: State, step: Step, s: State, j: nat, nodes: seq<Node>, now: int, pings: seq<Option<H256>>)
    requires |s.table| == NUMBER_OF_BUCKETS && Rest(step, j, nodes, pings)
    ensures Adds(e, was, step, s.log, InsertAll(e, s, nodes, now, pings).log)
    ensures InsertAll(e, s, nodes, now, pings).server == s.server
    decreases |nodes|
  {
    hide Find, InsertNode, Adds, Answers, Pings, UpdatePeerPing, Rest;
    if nodes == [] {
      AddsNothing(e, was, step, s.log);
    } else {
      var t := InsertNode(e.keccak, e.local, s.table, nodes[0], Unix(now)).0;
      var inserted := InsertNode(e.keccak, e.local, s.table, nodes[0], Unix(now)).2;
      InsertLength(e, s.table, nodes[0], Unix(now));
      var hash := if pings == [] then None else pings[0];
      var rest := if pings == [] then [] else pings[1..];
      var s1 := if inserted then Record(e, s.(table := t), nodes[0].nodeId, hash, now) else s.(table := t);
      RecordLength(e, s.(table := t), nodes[0].nodeId, hash, now);
      RestPings(e, was, step, j, nodes, pings);
      if hash.Some? {
        AddsOne(e, was, step, s.log, Recorded(nodes[0].nodeId, hash.value));
      }
      AddsNothing(e, was, step, s.log);
      InsertAllAdds(e, was, step, s1, j + 1, nodes[1..], now, rest);
      AddsMore(e, was, step, s.log, s1.log, InsertAll(e, s, nodes, now, pings).log);
    }
  }

  lemma InsertLength(e: Env, t: Table, node: Node, now: nat)
    requires |t| == NUMBER_OF_BUCKETS
    ensures |InsertNode(e.keccak, e.local, t, node, now).0| == NUMBER_OF_BUCKETS
  {
    hide Home;
  }

  lemma AddsNothing(e: Env, s: State, step: Step, log: seq<Event>)
    ensures Adds(e, s, step, log, log)
  {
  }

  lemma MessageAdds(e: Env, s: State, step: Step)
    requires |s.table| == NUMBER_OF_BUCKETS && step.Receive? && s.server.Idle?
    ensures var s2 := OnMessage(e, s, step.from, step.msg, step.now, step.pings);
            && Adds(e, s, step, s.log, s2.log)
            && (s2.server.FindNodeProven? ==> Asks(e, s, step, s2.server.from, s2.server.target))
  {
    hide Find, SetPeer, InsertAll, Adds;
    AddsNothing(e, s, step, s.log);
    var id := step.from.nodeId;
    var known := Find(e.keccak, e.local, s.table, id);
    match step.msg
    case Ping(_) =>
    case Pong(hash, expiration) =>
      if expiration >= step.now && known.Some? && known.value.lastPingHash == Some(hash) {
        AddsOne(e, s, step, s.log, Ponged(id, hash));
      }
    case FindNode(_, _) =>
    case Neighbors(nodes, expiration) =>
      if expiration >= step.now && known.Some? && known.value.findNodeRequest.Some? {
        NeighborsAdd(e, s, step, id, known.value, nodes);
      }
  }

  lemma NeighborsAdd(e: Env, s: State, step: Step, id: H512, peer: PeerData, nodes: seq<Node>)
    requires |s.table| == NUMBER_OF_BUCKETS && step.Receive? && step.msg.Neighbors? && step.msg.nodes == nodes
    requires Find(e.keccak, e.local, s.table, id) == Some(peer) && peer.findNodeRequest.Some?
    ensures var s2 := OnNeighbors(e, s, id, peer, nodes, step.now, step.pings);
            Adds(e, s, step, s.log, s2.log) && s2.server == s.server
  {
    hide Find, SetPeer, InsertAll, Adds;
    AddsNothing(e, s, step, s.log);
    var req := peer.findNodeRequest.value;
    var sent := req.nodesSent + |nodes|;
    if step.now - req.sentAt < 60 && sent <= MAX_NODES_PER_BUCKET {
      var rest := if sent == MAX_NODES_PER_BUCKET then None else Some(req.(nodesSent := sent));
      var t := SetPeer(e.keccak, e.local, s.table, id, peer.(findNodeRequest := rest));
      SetLength(e, s.table, id, peer.(findNodeRequest := rest));
      var s1 := s.(table := t, log := s.log + [Accepted(req.channel, |nodes|)]);
      AddsOne(e, s, step, s.log, Accepted(req.channel, |nodes|));
      InsertAllAdds(e, s, step, s1, 0, nodes, step.now, step.pings);
      AddsMore(e, s, step, s.log, s1.log, InsertAll(e, s1, nodes, step.now, step.pings).log);
    }
  }

  lemma SetLength(e: Env, t: Table, id: H512, p: PeerData)
    requires |t| == NUMBER_OF_BUCKETS && Find(e.keccak, e.local, t, id).Some?
    ensures |SetPeer(e.keccak, e.local, t, id, p)| == NUMBER_OF_BUCKETS
  {
    hide Home, IndexOf;
  }

  lemma RecordAdds(e: Env, was: State, step: Step, s: State, id: H512, hash: Option<H256>, now: int)
    requires |s.table| == NUMBER_OF_BUCKETS && (hash.Some? ==> Pings(e, was, step, id, hash.value))
    ensures Adds(e, was, step, s.log, Record(e, s, id, hash, now).log)
    ensures Record(e, s, id, hash, now).server == s.server
  {
    hide Find, UpdatePeerPing, Adds, Pings, Answers;
    AddsNothing(e, was, step, s.log);
    if hash.Some? {
      AddsOne(e, was, step, s.log, Recorded(id, hash.value));
    }
  }

  /** Every event has its cause in the step that adds it, and the server answers only a request it has just read. */
  lemma NextAdds(e: Env, s: State, step: Step, s2: State)
    requires |s.table| == NUMBER_OF_BUCKETS && Next(e, s, step, s2)
    ensures Adds(e, s, step, s.log, s2.log)
    ensures s2.server.FindNodeProven? ==> s.server == s2.server || Asks(e, s, step, s2.server.from, s2.server.target)
  {
    hide Find, InsertNode, SetPeer, ReplacePeer, Adds, ClosestNodes, Record, Chosen, OnMessage, UpdatePeerPing, Answers, Asks;
    AddsNothing(e, s, step, s.log);
    match step
    case Receive(_, _, _, _) => MessageAdds(e, s, step);
    case Serve(now, hash) =>
      var done := s.(server := Idle);
      match s.server {
        case PingSeen(id, _, Some(_)) => RecordAdds(e, s, step, done, id, hash, now);
        case PingInserted(id, true) => RecordAdds(e, s, step, done, id, hash, now);
        case FindNodeProven(from, target) =>
          AddsOne(e, s, step, s.log, NeighborsSent(from, ClosestNodes(e.keccak, s.table, target)));
        case _ =>
      }
    case Boot(now, hash) =>
      if s.startup.sent.Some? {
        RecordAdds(e, s, step, s.(startup := s.startup.(sent := None)), s.startup.sent.value, hash, now);
      }
    case Check(id, now, hash) => CheckAdds(e, s, step);
    case Revalidate(now, hash) =>
      if hash.Some? && s.revalidation.peers != [] {
        AddsOne(e, s, step, s.log, Recorded(Id(s.revalidation.peers[0]), hash.value));
      }
    case _ =>
  }

  lemma CheckAdds(e: Env, s: State, step: Step)
    requires |s.table| == NUMBER_OF_BUCKETS && step.Check? && s.revalidation.Checking?
    ensures var s2 := CheckNext(e, s, step.id, step.now, step.hash);
            s2.Some? ==> Adds(e, s, step, s.log, s2.value.log) && s2.value.server == s.server
  {
    hide Find, SetPeer, ReplacePeer, Record, Adds, Judged;
    AddsNothing(e, s, step, s.log);
    var known := Find(e.keccak, e.local, s.table, step.id);
    if known.Some? {
      SetLength(e, s.table, step.id, Judged(known.value));
      var t := SetPeer(e.keccak, e.local, s.table, step.id, Judged(known.value));
      ReplaceLength(e, t, step.id);
      var (t2, peer) := ReplacePeer(e.keccak, e.local, t, step.id);
      var s2 := s.(table := t2, revalidation := Checking(s.revalidation.pinged - {step.id}));
      if peer.Some? {
        RecordAdds(e, s, step, s2, Id(peer.value), step.hash, step.now);
      }
    }
  }

  lemma ReplaceLength(e: Env, t: Table, id: H512)
    requires |t| == NUMBER_OF_BUCKETS
    ensures |ReplacePeer(e.keccak, e.local, t, id).0| == NUMBER_OF_BUCKETS
  {
    hide Home, Replaced;
  }

  // ---------------------------------------------------------------------------------------------
  // Whole runs
  // ---------------------------------------------------------------------------------------------

  /** The step from which an event of a run comes. */
  lemma {:induction false} EventHasCause(
    e: Env, bootnodes: seq<Node>, states: seq<State>, steps: seq<Step>, n: nat, k: nat) returns (i: nat)
    requires Run(e, bootnodes, states, steps) && n < |states| && k < |states[n].log|
    ensures i < n && Causes(e, states[i], steps[i], states[n].log[k])
  {
    hide Next, Causes;
    assert n > 0;
    assert Next(e, states[n - 1], steps[n - 1], states[n - 1 + 1]);
    NextAdds(e, states[n - 1], steps[n - 1], states[n]);
    if k < |states[n - 1].log| {
      i := EventHasCause(e, bootnodes, states, steps, n - 1, k);
    } else {
      i := n - 1;
    }
  }

  /** The step at which the server read the request it is about to answer. */
  lemma {:induction false} RequestHasStep(
    e: Env, bootnodes: seq<Node>, states: seq<State>, steps: seq<Step>, n: nat) returns (i: nat)
    requires Run(e, bootnodes, states, steps) && n < |states| && states[n].server.FindNodeProven?
    ensures i < n && Asks(e, states[i], steps[i], states[n].server.from, states[n].server.target)
  {
    hide Next, Asks;
    assert n > 0;
    assert Next(e, states[n - 1], steps[n - 1], states[n - 1 + 1]);
    NextAdds(e, states[n - 1], steps[n - 1], states[n]);
    if states[n - 1].server == states[n].server {
      i := RequestHasStep(e, bootnodes, states, steps, n - 1);
    } else {
      i := n - 1;
    }
  }

  /** A proven peer answered a ping, in time, that an earlier step had sent to it. */
  ghost predicate ProvedBy(e: Env, states: seq<State>, steps: seq<Step>, id: H512, ping: nat, pong: nat) {
    && ping < pong < |steps| && pong < |states| && steps[pong].Receive? && steps[pong].msg.Pong?
    && Answers(e, states[pong], steps[pong], id, steps[pong].msg.pingHash)
    && Pings(e, states[ping], steps[ping], id, steps[pong].msg.pingHash)
  }

  lemma ProvenPeers(
    e: Env, bootnodes: seq<Node>, states: seq<State>, steps: seq<Step>, n: nat, p: PeerData) returns (ping: nat, pong: nat)
    requires Run(e, bootnodes, states, steps) && n < |states| && p in Peers(states[n].table) && p.isProven
    ensures pong < n && ProvedBy(e, states, steps, Id(p), ping, pong)
  {
    hide Run, Peers, Inv, Answers, Pings;
    RunSizes(e, bootnodes, states, steps);
    EndpointProof(e, bootnodes, states, steps, n);
    var log := states[n].log;
    var i, j :| 0 <= i < j < |log| && log[j].Ponged? && log[j].id == Id(p) && log[i] == Recorded(Id(p), log[j].hash);
    pong := EventHasCause(e, bootnodes, states, steps, n, j);
    ping := PingBefore(e, bootnodes, states, steps, pong, Id(p), log[j].hash);
  }

  /** The ping that a pong answers was sent before the pong arrived. */
  lemma PingBefore(
    e: Env, bootnodes: seq<Node>, states: seq<State>, steps: seq<Step>, pong: nat, id: H512, hash: H256) returns (ping: nat)
    requires Run(e, bootnodes, states, steps) && pong < |steps| && Answers(e, states[pong], steps[pong], id, hash)
    ensures |states| == |steps| + 1 && ping < pong && Pings(e, states[ping], steps[ping], id, hash)
    ensures steps[pong].Receive? && steps[pong].msg.Pong? && steps[pong].msg.pingHash == hash
  {
    hide Run, Find, TableInv, LogOk, ServerOk, RevalidationOk, Pings;
    RunSizes(e, bootnodes, states, steps);
    RunKeeps(e, bootnodes, states, steps, pong);
    var s := states[pong];
    FindIsOk(e, s.table, s.log, s.nextChannel, id);
    var k: nat :| k < |s.log| && s.log[k] == Recorded(id, hash);
    ping := EventHasCause(e, bootnodes, states, steps, pong, k);
  }

  lemma RunSizes(e: Env, bootnodes: seq<Node>, states: seq<State>, steps: seq<Step>)
    requires Run(e, bootnodes, states, steps)
    ensures |states| == |steps| + 1
  {
  }

  /**
    * Main law: whatever neighbors message a run has sent, four earlier steps account for it, in this order: a ping, the
    * peer's pong in time, its request in time, from the address the answer goes to, and the answer, which holds the nodes
    * closest to the target at that moment.
    */
  lemma NeighborsAccounted(
    e: Env, bootnodes: seq<Node>, states: seq<State>, steps: seq<Step>, n: nat, k: nat)
    returns (ping: nat, pong: nat, request: nat, answer: nat)
    requires Run(e, bootnodes, states, steps) && n < |states| && k < |states[n].log| && states[n].log[k].NeighborsSent?
    ensures ping < pong < request < answer < n <= |steps|
    ensures var ev := states[n].log[k];
            && ProvedBy(e, states, steps, ev.to.nodeId, ping, pong)
            && steps[request].Receive? && steps[request].msg.FindNode? && steps[request].from == ev.to
            && Asks(e, states[request], steps[request], ev.to, steps[request].msg.target)
            && ev.sent == ClosestNodes(e.keccak, states[answer].table, steps[request].msg.target)
            && |ev.sent| <= 16
  {
    hide Run, Peers, Find, Inv, Answers, Pings, ClosestNodes;
    RunSizes(e, bootnodes, states, steps);
    var ev := states[n].log[k];
    answer := EventHasCause(e, bootnodes, states, steps, n, k);
    request := RequestHasStep(e, bootnodes, states, steps, answer);
    var s := states[request];
    var p := Find(e.keccak, e.local, s.table, ev.to.nodeId).value;
    Known(e, bootnodes, states, steps, request, ev.to.nodeId);
    ping, pong := ProvenPeers(e, bootnodes, states, steps, request, p);
    SentAtMost16(e, bootnodes, states, steps, answer, steps[request].msg.target);
  }

  lemma Known(e: Env, bootnodes: seq<Node>, states: seq<State>, steps: seq<Step>, i: nat, id: H512)
    requires Run(e, bootnodes, states, steps) && i < |states| && |states[i].table| == NUMBER_OF_BUCKETS
    requires Find(e.keccak, e.local, states[i].table, id).Some?
    ensures var p := Find(e.keccak, e.local, states[i].table, id).value; p in Peers(states[i].table) && Id(p) == id
  {
    hide Run, Peers, Find, TableInv, LogOk, PeerOk;
    RunKeeps(e, bootnodes, states, steps, i);
    FindIsOk(e, states[i].table, states[i].log, states[i].nextChannel, id);
  }

  lemma SentAtMost16(e: Env, bootnodes: seq<Node>, states: seq<State>, steps: seq<Step>, i: nat, target: H512)
    requires Run(e, bootnodes, states, steps) && i < |states|
    ensures |ClosestNodes(e.keccak, states[i].table, target)| <= 16
  {
    hide Run, ClosestNodes, LogOk;
    RunKeeps(e, bootnodes, states, steps, i);
    TableInvSize(e, states[i].table, states[i].log, states[i].nextChannel);
    AtMost16(e, states[i].table, target);
  }

  // ---------------------------------------------------------------------------------------------
  // What the proof does not give
  // ---------------------------------------------------------------------------------------------

  /** The table after the only bootnode was inserted. */
  lemma FirstInserted(e: Env, node: Node)
    ensures var t := InsertNode(e.keccak, e.local, EmptyTable(), node, 0).0;
            && TableOk(e.keccak, e.local, t)
            && Find(e.keccak, e.local, t, node.nodeId) == Some(NewPeer(node, 0))
  {
    hide BucketNumber;
    EmptyTableOk(e.keccak, e.local);
    InsertNodeOk(e.keccak, e.local, EmptyTable(), node, 0);
    var t := InsertNode(e.keccak, e.local, EmptyTable(), node, 0).0;
    var h := Home(e.keccak, e.local, node.nodeId);
    assert t[h].peers == [NewPeer(node, 0)];
    FirstIndex(t[h].peers, node.nodeId, 0);
  }

  lemma SetThenFind(e: Env, t: Table, id: H512, p: PeerData)
    requires TableOk(e.keccak, e.local, t) && Find(e.keccak, e.local, t, id).Some? && Id(p) == id
    ensures var t2 := SetPeer(e.keccak, e.local, t, id, p);
            && |t2| == NUMBER_OF_BUCKETS && TableOk(e.keccak, e.local, t2)
            && Find(e.keccak, e.local, t2, id) == Some(p)
  {
    hide TableOk;
    TableSize(e, t);
    SetTwice(e, t, id, p, p);
    TableSize(e, SetPeer(e.keccak, e.local, t, id, p));
  }

  lemma TableSize(e: Env, t: Table)
    requires TableOk(e.keccak, e.local, t)
    ensures |t| == NUMBER_OF_BUCKETS
  {
    hide BucketOk;
  }

  /** A bootnode is pinged and answers; a request in its name comes from `other`, at the time `late`. */
  function ShortSteps(node: Node, hash: H256, other: Node, target: H512, late: int): seq<Step> {
    [Boot(0, None), Boot(0, Some(hash)), Receive(node, Pong(hash, 0), 0, []), Serve(0, None),
     Receive(other, FindNode(target, late), late, []), Serve(late, None)]
  }

  /** The bootnode's entry while it is pinged and once it has answered. */
  lemma EntryProven(e: Env, node: Node, hash: H256) returns (t1: Table, t2: Table, t3: Table)
    ensures t1 == InsertNode(e.keccak, e.local, EmptyTable(), node, 0).0
    ensures |t1| == NUMBER_OF_BUCKETS && Find(e.keccak, e.local, t1, node.nodeId).Some?
    ensures t2 == UpdatePeerPing(e.keccak, e.local, t1, node.nodeId, Some(hash), 0)
    ensures |t2| == NUMBER_OF_BUCKETS
    ensures Find(e.keccak, e.local, t2, node.nodeId) == Some(NewPeer(node, 0).(lastPingHash := Some(hash)))
    ensures t3 == PongAnswered(e.keccak, e.local, t2, node.nodeId, 0)
    ensures |t3| == NUMBER_OF_BUCKETS
    ensures Find(e.keccak, e.local, t3, node.nodeId).Some? && Find(e.keccak, e.local, t3, node.nodeId).value.isProven
  {
    hide TableOk, Find, SetPeer, InsertNode, EmptyTable;
    var id := node.nodeId;
    EmptySize();
    FirstInserted(e, node);
    t1 := InsertNode(e.keccak, e.local, EmptyTable(), node, 0).0;
    TableSize(e, t1);
    var p2 := NewPeer(node, 0).(lastPingHash := Some(hash));
    SetThenFind(e, t1, id, p2);
    t2 := UpdatePeerPing(e.keccak, e.local, t1, id, Some(hash), 0);
    SetThenFind(e, t2, id, Answered(p2, 0));
    t3 := PongAnswered(e.keccak, e.local, t2, id, 0);
  }

  /**
    * Neither the address nor the time of the endpoint proof is looked at: for every bootnode, every address that a request
    * in its name comes from, and every later time, a run sends the neighbors there.
    */
  lemma AnyAddressAnyTime(e: Env, node: Node, hash: H256, other: Node, target: H512, late: int) returns (states: seq<State>)
    requires other.nodeId == node.nodeId
    ensures Run(e, [node], states, ShortSteps(node, hash, other, target, late))
    ensures |states| == 7 && |states[6].log| == 3
    ensures states[6].log[2].NeighborsSent? && states[6].log[2].to == other
  {
    hide Find, InsertNode, SetPeer, UpdatePeerPing, PongAnswered, EmptyTable, ClosestNodes;
    var id := node.nodeId;
    var t1, t2, t3 := EntryProven(e, node.(tcpPort := 0), hash);
    var s0 := State(EmptyTable(), Idle, Startup([node], None), Waiting({}), 0, []);
    var s1 := s0.(table := t1, startup := Startup([], Some(id)));
    var s2 := s1.(table := t2, startup := Startup([], None), log := [Recorded(id, hash)]);
    var s3 := s2.(server := PongMatched(id), log := [Recorded(id, hash), Ponged(id, hash)]);
    var s4 := s3.(server := Idle, table := t3);
    var s5 := s4.(server := FindNodeProven(other, target));
    var s6 := s4.(log := s4.log + [NeighborsSent(other, ClosestNodes(e.keccak, t3, target))]);
    states := [s0, s1, s2, s3, s4, s5, s6];
    var steps := ShortSteps(node, hash, other, target, late);
    EmptySize();
    assert Next(e, s0, steps[0], s1);
    assert Next(e, s1, steps[1], s2);
    assert Next(e, s2, steps[2], s3);
    assert Next(e, s3, steps[3], s4);
    assert Next(e, s4, steps[4], s5);
    assert Next(e, s5, steps[5], s6);
  }

  lemma EmptySize()
    ensures |EmptyTable()| == NUMBER_OF_BUCKETS
  {
  }
}
