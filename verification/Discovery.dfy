/**
  * The discovery protocol (`crates/net/net.rs`) as a state machine. The server, the start-up, the revalidation and the
  * lookup tasks share one table; each step is what one task does while it holds the table's lock. Messages, clock
  * readings, hashes of sent pings and the order of the steps are arbitrary.
  */
module Discovery {
  import opened Prelude
  import opened Kademlia

  const PROOF_EXPIRATION_IN_HS: nat := 12

  datatype Message =
    | Ping(expiration: int)
    | Pong(pingHash: H256, pongExpiration: int)
    | FindNode(target: H512, findExpiration: int)
    | Neighbors(nodes: seq<Node>, neighborsExpiration: int)

  /** What the server still has to do for the message it is handling. */
  datatype Server =
    | Idle
    | PingSeen(id: H512, from: Node, known: Option<PeerData>)
    | PingInserted(id: H512, inserted: bool)
    | PongMatched(id: H512)
    | FindNodeProven(from: Node, target: H512)

  /** The start-up task: bootnodes still to insert, and the one that is inserted but not yet marked as pinged. */
  datatype Startup = Startup(todo: seq<Node>, sent: Option<H512>)

  datatype Revalidation =
    | Waiting(pinged: set<H512>)
    | Checking(pinged: set<H512>)
    | Pinging(peers: seq<PeerData>, pinged: set<H512>)

  datatype Event =
    | Recorded(id: H512, hash: H256)
    | Ponged(id: H512, hash: H256)
    | NeighborsSent(to: Node, sent: seq<Node>)
    | Accepted(channel: nat, count: nat)

  datatype State = State(
    table: Table, server: Server, startup: Startup, revalidation: Revalidation, nextChannel: nat, log: seq<Event>)

  datatype Env = Env(keccak: H512 -> H256, local: H512)

  /** One step of one task, with everything it reads from the network and the clock. */
  datatype Step =
    | Receive(from: Node, msg: Message, now: int, pings: seq<Option<H256>>)
    | Serve(now: int, hash: Option<H256>)
    | Boot(now: int, hash: Option<H256>)
    | Tick
    | Check(id: H512, now: int, hash: Option<H256>)
    | Select
    | Revalidate(now: int, hash: Option<H256>)
    | Query(id: H512, now: int)

  function Unix(now: int): nat {
    if now < 0 then 0 else now
  }

  /** Records the hash of a ping that was sent, for a peer in the table. */
  function Record(e: Env, s: State, id: H512, hash: Option<H256>, now: int): State
    requires |s.table| == NUMBER_OF_BUCKETS
  {
    var t := UpdatePeerPing(e.keccak, e.local, s.table, id, hash, Unix(now));
    if hash.Some? && Find(e.keccak, e.local, s.table, id).Some? then
      s.(table := t, log := s.log + [Recorded(id, hash.value)])
    else s.(table := t)
  }

  // ---------------------------------------------------------------------------------------------
  // The server
  // ---------------------------------------------------------------------------------------------

  function OnMessage(e: Env, s: State, from: Node, msg: Message, now: int, pings: seq<Option<H256>>): State
    requires |s.table| == NUMBER_OF_BUCKETS
  {
    var id := from.nodeId;
    var known := Find(e.keccak, e.local, s.table, id);
    match msg
    case Ping(expiration) =>
      if expiration < now then s else s.(server := PingSeen(id, from.(tcpPort := 0), known))
    case Pong(pingHash, expiration) =>
      if expiration < now || known.None? || known.value.lastPingHash != Some(pingHash) then s
      else s.(server := PongMatched(id), log := s.log + [Ponged(id, pingHash)])
    case FindNode(target, expiration) =>
      if expiration < now || known.None? || !known.value.isProven then s
      else s.(server := FindNodeProven(from, target))
    case Neighbors(nodes, expiration) =>
      if expiration < now || known.None? || known.value.findNodeRequest.None? then s
      else OnNeighbors(e, s, id, known.value, nodes, now, pings)
  }

  /** A request accepts neighbors for a minute, and sixteen nodes in all. */
  function OnNeighbors(
    e: Env, s: State, id: H512, peer: PeerData, nodes: seq<Node>, now: int, pings: seq<Option<H256>>): State
    requires |s.table| == NUMBER_OF_BUCKETS
    requires Find(e.keccak, e.local, s.table, id) == Some(peer) && peer.findNodeRequest.Some?
  {
    var req := peer.findNodeRequest.value;
    var sent := req.nodesSent + |nodes|;
    if now - req.sentAt >= 60 then
      s.(table := SetPeer(e.keccak, e.local, s.table, id, peer.(findNodeRequest := None)))
    else if sent > MAX_NODES_PER_BUCKET then s
    else
      var rest := if sent == MAX_NODES_PER_BUCKET then None else Some(req.(nodesSent := sent));
      var t := SetPeer(e.keccak, e.local, s.table, id, peer.(findNodeRequest := rest));
      InsertAll(e, s.(table := t, log := s.log + [Accepted(req.channel, |nodes|)]), nodes, now, pings)
  }

  /** Inserts nodes one by one and pings those that found a place; `pings` are the hashes of these pings. */
  function InsertAll(e: Env, s: State, nodes: seq<Node>, now: int, pings: seq<Option<H256>>): (r: State)
    requires |s.table| == NUMBER_OF_BUCKETS
    ensures |r.table| == NUMBER_OF_BUCKETS
    decreases |nodes|
  {
    if nodes == [] then s
    else
      var (t, peer, inserted) := InsertNode(e.keccak, e.local, s.table, nodes[0], Unix(now));
      var hash := if pings == [] then None else pings[0];
      var s1 := if inserted then Record(e, s.(table := t), nodes[0].nodeId, hash, now) else s.(table := t);
      assert |s1.table| == NUMBER_OF_BUCKETS by { RecordLength(e, s.(table := t), nodes[0].nodeId, hash, now); }
      InsertAll(e, s1, nodes[1..], now, if pings == [] then [] else pings[1..])
  }

  lemma RecordLength(e: Env, s: State, id: H512, hash: Option<H256>, now: int)
    requires |s.table| == NUMBER_OF_BUCKETS
    ensures |Record(e, s, id, hash, now).table| == NUMBER_OF_BUCKETS
  {
  }

  function ServeNext(e: Env, s: State, now: int, hash: Option<H256>): State
    requires |s.table| == NUMBER_OF_BUCKETS
  {
    var done := s.(server := Idle);
    match s.server
    case Idle => s
    case PingSeen(id, from, None) =>
      var (t, peer, inserted) := InsertNode(e.keccak, e.local, s.table, from, Unix(now));
      s.(table := t, server := PingInserted(id, inserted))
    case PingSeen(id, _, Some(p)) =>
      if (now - p.lastPing) / 3600 >= PROOF_EXPIRATION_IN_HS && hash.Some? then Record(e, done, id, hash, now) else done
    case PingInserted(id, inserted) =>
      if inserted && hash.Some? then Record(e, done, id, hash, now) else done
    case PongMatched(id) => done.(table := PongAnswered(e.keccak, e.local, s.table, id, Unix(now)))
    case FindNodeProven(from, target) =>
      done.(log := s.log + [NeighborsSent(from, ClosestNodes(e.keccak, s.table, target))])
  }

  // ---------------------------------------------------------------------------------------------
  // The other tasks
  // ---------------------------------------------------------------------------------------------

  function BootNext(e: Env, s: State, now: int, hash: Option<H256>): State
    requires |s.table| == NUMBER_OF_BUCKETS
  {
    if s.startup.sent.Some? then
      Record(e, s.(startup := s.startup.(sent := None)), s.startup.sent.value, hash, now)
    else if s.startup.todo == [] then s
    else
      var node := s.startup.todo[0].(tcpPort := 0);
      var (t, _, _) := InsertNode(e.keccak, e.local, s.table, node, Unix(now));
      s.(table := t, startup := Startup(s.startup.todo[1..], Some(node.nodeId)))
  }

  /** One more answer than the 16-bit liveness can count. */
  predicate LivenessOverflows(p: PeerData) {
    p.revalidation == Some(true) && p.liveness >= 0xFFFF
  }

  /** Liveness after a round: one more for an answer, a third for none. */
  function Judged(p: PeerData): PeerData {
    var liveness :=
      if p.revalidation == Some(true) then p.liveness + 1
      else if p.revalidation == Some(false) then p.liveness / 3
      else p.liveness;
    p.(liveness := liveness, revalidation := None)
  }

  /** Looks at one peer of the last round; `None` is the failing `unwrap` or an overflow. */
  function CheckNext(e: Env, s: State, id: H512, now: int, hash: Option<H256>): Option<State>
    requires |s.table| == NUMBER_OF_BUCKETS && s.revalidation.Checking?
  {
    match Find(e.keccak, e.local, s.table, id)
    case None => None
    case Some(p) =>
      if LivenessOverflows(p) then None
      else
        var left := Checking(s.revalidation.pinged - {id});
        var t := SetPeer(e.keccak, e.local, s.table, id, Judged(p));
        if Judged(p).liveness != 0 then Some(s.(table := t, revalidation := left))
        else
          var (t2, peer) := ReplacePeer(e.keccak, e.local, t, id);
          var s2 := s.(table := t2, revalidation := left);
          Some(if peer.Some? then Record(e, s2, Id(peer.value), hash, now) else s2)
  }

  /** The three peers to ping next, as the table gives them. */
  ghost predicate Chosen(t: Table, peers: seq<PeerData>) {
    |peers| <= 3 && exists dropped :: Kept(peers, dropped, Scan(t), 3)
  }

  function RevalidateNext(e: Env, s: State, now: int, hash: Option<H256>): State
    requires |s.table| == NUMBER_OF_BUCKETS && s.revalidation.Pinging?
  {
    var r := s.revalidation;
    if r.peers == [] then s.(revalidation := Waiting(r.pinged))
    else
      var id := Id(r.peers[0]);
      var t := UpdatePeerPingWithRevalidation(e.keccak, e.local, s.table, id, hash, Unix(now));
      var log :=
        if hash.Some? && Find(e.keccak, e.local, s.table, id).Some? then s.log + [Recorded(id, hash.value)] else s.log;
      s.(table := t, log := log, revalidation := Pinging(r.peers[1..], r.pinged + {id}))
  }

  /** A lookup asks a peer of the table that has no request open. */
  function QueryNext(e: Env, s: State, id: H512, now: int): State
    requires |s.table| == NUMBER_OF_BUCKETS
  {
    match Find(e.keccak, e.local, s.table, id)
    case None => s
    case Some(p) =>
      if p.findNodeRequest.Some? then s
      else
        var req := FindNodeRequest(0, Unix(now), s.nextChannel);
        s.(table := SetPeer(e.keccak, e.local, s.table, id, p.(findNodeRequest := Some(req))),
          nextChannel := s.nextChannel + 1)
  }

  /** `s2` follows `s` by one step of one task. */
  ghost predicate Next(e: Env, s: State, step: Step, s2: State)
    requires |s.table| == NUMBER_OF_BUCKETS
  {
    match step
    case Receive(from, msg, now, pings) => s.server.Idle? && s2 == OnMessage(e, s, from, msg, now, pings)
    case Serve(now, hash) => !s.server.Idle? && s2 == ServeNext(e, s, now, hash)
    case Boot(now, hash) => s2 == BootNext(e, s, now, hash)
    case Tick => s.revalidation.Waiting? && s2 == s.(revalidation := Checking(s.revalidation.pinged))
    case Check(id, now, hash) =>
      s.revalidation.Checking? && id in s.revalidation.pinged && CheckNext(e, s, id, now, hash) == Some(s2)
    case Select =>
      && s.revalidation.Checking? && s.revalidation.pinged == {}
      && s2.revalidation.Pinging? && s2.revalidation.pinged == {} && Chosen(s.table, s2.revalidation.peers)
      && s2 == s.(revalidation := s2.revalidation)
    case Revalidate(now, hash) => s.revalidation.Pinging? && s2 == RevalidateNext(e, s, now, hash)
    case Query(id, now) => s2 == QueryNext(e, s, id, now)
  }

  ghost predicate Init(s: State, bootnodes: seq<Node>) {
    s == State(EmptyTable(), Idle, Startup(bootnodes, None), Waiting({}), 0, [])
  }

  /** A run: states connected by steps, from the start. */
  ghost predicate Run(e: Env, bootnodes: seq<Node>, states: seq<State>, steps: seq<Step>) {
    && |states| == |steps| + 1
    && Init(states[0], bootnodes)
    && forall i | 0 <= i < |steps| :: |states[i].table| == NUMBER_OF_BUCKETS && Next(e, states[i], steps[i], states[i + 1])
  }
}
