/**
  * Each kind of step of the discovery protocol by its effects, and what they add up to along a run: every bootnode gets into
  * the table, and the sender of a ping does when the server comes to it.
  */
module DiscoverySteps {
  import opened Prelude
  import opened Kademlia
  import opened KademliaEffects
  import opened Discovery
  import opened DiscoveryEffects
  import Inv = DiscoveryInv

  // ---------------------------------------------------------------------------------------------
  // Neighbors
  // ---------------------------------------------------------------------------------------------

  /** The peer has a request open that is younger than a minute and has room for the nodes. */
  predicate Accepts(e: Env, s: State, id: H512, count: nat, now: int)
    requires |s.table| == NUMBER_OF_BUCKETS
  {
    var p := At(e, s.table, id);
    && p.Some? && p.value.findNodeRequest.Some?
    && now - p.value.findNodeRequest.value.sentAt < 60 && p.value.findNodeRequest.value.nodesSent + count <= 16
  }

  /** The state once the nodes are counted: a request that has brought sixteen nodes is closed. */
  lemma Counted(e: Env, s: State, from: Node, nodes: seq<Node>, expiration: int, now: int, pings: seq<Option<H256>>)
    returns (s1: State)
    requires Ok(e, s.table) && expiration >= now && Accepts(e, s, from.nodeId, |nodes|, now)
    ensures Ok(e, s1.table) && OthersStay(e, s.table, s1.table, from.nodeId)
    ensures var p := At(e, s.table, from.nodeId).value;
            var req := p.findNodeRequest.value;
            && At(e, s1.table, from.nodeId) ==
               Some(p.(findNodeRequest :=
                         if req.nodesSent + |nodes| == 16 then None else Some(req.(nodesSent := req.nodesSent + |nodes|))))
            && s1 == s.(table := s1.table, log := s.log + [Accepted(req.channel, |nodes|)])
    ensures forall id: H512 :: Knows(e, s1.table, id) <==> Knows(e, s.table, id)
    ensures OnMessage(e, s, from, Neighbors(nodes, expiration), now, pings) == InsertAll(e, s1, nodes, now, pings)
  {
    hide TableOk, Find, SetPeer, InsertAll, Home, Lists, FullBy;
    OkSize(e, s.table);
    var id := from.nodeId;
    var p := At(e, s.table, id).value;
    var req := p.findNodeRequest.value;
    var sent := req.nodesSent + |nodes|;
    var p2 := p.(findNodeRequest := if sent == 16 then None else Some(req.(nodesSent := sent)));
    FoundId(e, s.table, id);
    SetFound(e.keccak, e.local, s.table, id, p2);
    var t := SetPeer(e.keccak, e.local, s.table, id, p2);
    OkSize(e, t);
    forall x: H512
      ensures Knows(e, t, x) <==> Knows(e, s.table, x)
    {
      SetLists(e.keccak, e.local, s.table, id, p2, Home(e.keccak, e.local, x), x, {});
    }
    s1 := s.(table := t, log := s.log + [Accepted(req.channel, |nodes|)]);
  }

  /**
    * Main law of neighbors: everyone sent is afterwards among the peers or the replacements of its bucket, unless a later
    * node of the same message displaced it from a full list.
    */
  lemma NeighborsArrive(
    e: Env, s: State, from: Node, nodes: seq<Node>, expiration: int, now: int, pings: seq<Option<H256>>, j: nat)
    requires Ok(e, s.table) && expiration >= now && Accepts(e, s, from.nodeId, |nodes|, now) && j < |nodes|
    ensures var r := OnMessage(e, s, from, Neighbors(nodes, expiration), now, pings);
            && |r.table| == NUMBER_OF_BUCKETS
            && (|| Knows(e, r.table, nodes[j].nodeId)
                || FullBy(r.table[Home(e.keccak, e.local, nodes[j].nodeId)], Ids(nodes[j + 1..])))
  {
    hide TableOk, Find, OnMessage, InsertAll, Home, Known, FullBy;
    OkSize(e, s.table);
    var s1 := Counted(e, s, from, nodes, expiration, now, pings);
    OkSize(e, s1.table);
    EveryoneArrives(e, s1, nodes, now, pings, j);
  }

  /**
    * A node that was not known before joins the peers with the hash of the ping it was sent, unless its bucket is full; its
    * first mention in the message counts.
    */
  lemma NeighborsJoin(
    e: Env, s: State, from: Node, nodes: seq<Node>, expiration: int, now: int, pings: seq<Option<H256>>, j: nat)
    requires Ok(e, s.table) && expiration >= now && Accepts(e, s, from.nodeId, |nodes|, now) && j < |nodes|
    requires !Knows(e, s.table, nodes[j].nodeId) && forall k | 0 <= k < j :: nodes[k].nodeId != nodes[j].nodeId
    ensures var r := OnMessage(e, s, from, Neighbors(nodes, expiration), now, pings);
            && |r.table| == NUMBER_OF_BUCKETS
            && var f, hash := At(e, r.table, nodes[j].nodeId), HashAt(pings, j);
               && (f.None? ==> |r.table[Home(e.keccak, e.local, nodes[j].nodeId)].peers| == 16)
               && (f.Some? ==>
                     f.value == PeerData(nodes[j], Unix(now), 0, hash, false, None, 1, None)
                     && (hash.Some? ==> Recorded(nodes[j].nodeId, hash.value) in r.log))
  {
    hide TableOk, Find, OnMessage, InsertAll, Home, Known;
    OkSize(e, s.table);
    var s1 := Counted(e, s, from, nodes, expiration, now, pings);
    OkSize(e, s1.table);
    JoinedIsPinged(e, s1, nodes, now, pings, j);
  }

  /** The sender's request counts the nodes, and nobody who was a peer, or was not sent, changes. */
  lemma NeighborsCount(
    e: Env, s: State, from: Node, nodes: seq<Node>, expiration: int, now: int, pings: seq<Option<H256>>, x: H512)
    requires Ok(e, s.table) && expiration >= now && Accepts(e, s, from.nodeId, |nodes|, now)
    ensures var r := OnMessage(e, s, from, Neighbors(nodes, expiration), now, pings);
            var p := At(e, s.table, from.nodeId).value;
            var req := p.findNodeRequest.value;
            && |r.table| == NUMBER_OF_BUCKETS
            && At(e, r.table, from.nodeId) ==
               Some(p.(findNodeRequest :=
                         if req.nodesSent + |nodes| == 16 then None else Some(req.(nodesSent := req.nodesSent + |nodes|))))
            && (x != from.nodeId && (At(e, s.table, x).Some? || x !in Ids(nodes)) ==> At(e, r.table, x) == At(e, s.table, x))
            && s.log + [Accepted(req.channel, |nodes|)] <= r.log
            && r == s.(table := r.table, log := r.log)
  {
    hide TableOk, Find, OnMessage, InsertAll, Home, Known;
    OkSize(e, s.table);
    var s1 := Counted(e, s, from, nodes, expiration, now, pings);
    OkSize(e, s1.table);
    PeersUntouched(e, s1, nodes, now, pings, from.nodeId);
    if At(e, s1.table, x).Some? || x !in Ids(nodes) {
      PeersUntouched(e, s1, nodes, now, pings, x);
    }
    OkSize(e, InsertAll(e, s1, nodes, now, pings).table);
  }

  /** Neighbors that are not accepted change nothing, except that a request older than a minute is closed. */
  lemma NeighborsRefused(
    e: Env, s: State, from: Node, nodes: seq<Node>, expiration: int, now: int, pings: seq<Option<H256>>)
    requires Ok(e, s.table) && !(expiration >= now && Accepts(e, s, from.nodeId, |nodes|, now))
    ensures var r := OnMessage(e, s, from, Neighbors(nodes, expiration), now, pings);
            var p := At(e, s.table, from.nodeId);
            && |r.table| == NUMBER_OF_BUCKETS && OthersStay(e, s.table, r.table, from.nodeId)
            && r == s.(table := r.table)
            && (if expiration >= now && p.Some? && p.value.findNodeRequest.Some?
                   && now - p.value.findNodeRequest.value.sentAt >= 60
                then At(e, r.table, from.nodeId) == Some(p.value.(findNodeRequest := None)) else r == s)
  {
    hide TableOk, Find, SetPeer, InsertAll;
    OkSize(e, s.table);
    var id := from.nodeId;
    var p := At(e, s.table, id);
    if p.Some? {
      FoundId(e, s.table, id);
      SetFound(e.keccak, e.local, s.table, id, p.value.(findNodeRequest := None));
      OkSize(e, SetPeer(e.keccak, e.local, s.table, id, p.value.(findNodeRequest := None)));
    }
  }

  // ---------------------------------------------------------------------------------------------
  // Pings, pongs and requests
  // ---------------------------------------------------------------------------------------------

  /** Which messages the server goes on with: those in time, pongs to the last ping, requests of proven peers. */
  lemma MessageTaken(e: Env, s: State, from: Node, msg: Message, now: int, pings: seq<Option<H256>>)
    requires |s.table| == NUMBER_OF_BUCKETS && s.server.Idle? && !msg.Neighbors?
    ensures var r, p := OnMessage(e, s, from, msg, now, pings), At(e, s.table, from.nodeId);
            && r.table == s.table
            && (msg.Ping? ==>
                  if msg.expiration >= now then r == s.(server := PingSeen(from.nodeId, from.(tcpPort := 0), p)) else r == s)
            && (msg.Pong? ==>
                  if msg.pongExpiration >= now && p.Some? && p.value.lastPingHash == Some(msg.pingHash)
                  then r == s.(server := PongMatched(from.nodeId), log := s.log + [Ponged(from.nodeId, msg.pingHash)])
                  else r == s)
            && (msg.FindNode? ==>
                  if msg.findExpiration >= now && p.Some? && p.value.isProven
                  then r == s.(server := FindNodeProven(from, msg.target)) else r == s)
  {
    hide Find;
  }

  /** The ping of a stranger: it is known afterwards, and the server remembers whether it joined the peers. */
  lemma StrangerIsInserted(e: Env, s: State, now: int, hash: Option<H256>)
    requires Ok(e, s.table) && s.server.PingSeen? && s.server.known.None? && s.server.from.nodeId == s.server.id
    ensures var r, id := ServeNext(e, s, now, hash), s.server.id;
            var joined := !Knows(e, s.table, id) && |s.table[Home(e.keccak, e.local, id)].peers| < 16;
            && Ok(e, r.table) && Knows(e, r.table, id) && OthersStay(e, s.table, r.table, id)
            && r == s.(table := r.table, server := PingInserted(id, joined))
            && (At(e, r.table, id) == if joined then Some(NewPeer(s.server.from, Unix(now))) else At(e, s.table, id))
  {
    hide TableOk, Find, Known, Home, InsertNode;
    InsertFound(e.keccak, e.local, s.table, s.server.from, Unix(now));
  }

  /** One that joined is pinged back, and so is a known peer whose last ping is at least twelve hours old. */
  lemma PingedBack(e: Env, s: State, now: int, hash: Option<H256>)
    requires Ok(e, s.table) && (s.server.PingInserted? || (s.server.PingSeen? && s.server.known.Some?))
    ensures var r, id := ServeNext(e, s, now, hash), s.server.id;
            var due := if s.server.PingInserted? then s.server.inserted else now - s.server.known.value.lastPing >= 12 * 3600;
            && Ok(e, r.table) && OthersStay(e, s.table, r.table, id)
            && r == s.(table := r.table, log := r.log, server := Idle)
            && (if due && hash.Some? && At(e, s.table, id).Some?
                then At(e, r.table, id) == Some(Pinged(At(e, s.table, id).value, hash, Unix(now)))
                     && r.log == s.log + [Recorded(id, hash.value)]
                else r.table == s.table && r.log == s.log)
  {
    hide TableOk, Find, Record;
    OkSize(e, s.table);
    var done := s.(server := Idle);
    RecordEffect(e, done, s.server.id, hash, now);
  }

  /** A pong that matched proves the peer, clears the hash, and answers a revalidation. */
  lemma PongProves(e: Env, s: State, now: int, hash: Option<H256>)
    requires Ok(e, s.table) && s.server.PongMatched?
    ensures var r, id := ServeNext(e, s, now, hash), s.server.id;
            && Ok(e, r.table) && OthersStay(e, s.table, r.table, id)
            && r == s.(table := r.table, server := Idle)
            && (At(e, s.table, id).None? ==> r.table == s.table)
            && (At(e, s.table, id).Some? ==>
                  At(e, r.table, id).Some? &&
                  var p, q := At(e, s.table, id).value, At(e, r.table, id).value;
                  && q.isProven && q.lastPong == Unix(now) && q.lastPingHash == None
                  && (q.revalidation == if p.revalidation.Some? then Some(true) else None)
                  && q.node == p.node && q.lastPing == p.lastPing && q.liveness == p.liveness
                  && q.findNodeRequest == p.findNodeRequest)
  {
    hide TableOk, Find, SetPeer;
    OkSize(e, s.table);
    var id := s.server.id;
    var p := At(e, s.table, id);
    if p.Some? {
      FoundId(e, s.table, id);
      SetFound(e.keccak, e.local, s.table, id, Answered(p.value, Unix(now)));
    }
  }

  /** A request of a proven peer is answered with at most sixteen peers of the table, among them a nearest one. */
  lemma RequestIsAnswered(e: Env, s: State, now: int, hash: Option<H256>)
    requires Ok(e, s.table) && s.server.FindNodeProven?
    ensures var r, target := ServeNext(e, s, now, hash), s.server.target;
            && r.log != [] && r == s.(server := Idle, log := r.log) && r.log[..|r.log| - 1] == s.log
            && var ev := r.log[|r.log| - 1];
               && ev.NeighborsSent? && ev.to == s.server.from
               && |ev.sent| == (if |Scan(s.table)| < 16 then |Scan(s.table)| else 16)
               && (forall n | n in ev.sent :: exists p | p in Peers(s.table) :: p.node == n)
               && (forall i, j | 0 <= i < j < |ev.sent| :: ev.sent[i].nodeId != ev.sent[j].nodeId)
               && (Scan(s.table) != [] ==>
                     exists n | n in ev.sent ::
                       forall p | p in Peers(s.table) ::
                         BucketNumber(e.keccak, target, n.nodeId) <= BucketNumber(e.keccak, target, Id(p)))
  {
    hide TableOk, Peers, ClosestNodes, BucketNumber, Scan;
    OkSize(e, s.table);
    ClosestNodesFacts(e.keccak, e.local, s.table, s.server.target);
    var r := ServeNext(e, s, now, hash);
    assert r.log[..|r.log| - 1] == s.log;
  }

  // ---------------------------------------------------------------------------------------------
  // The other tasks
  // ---------------------------------------------------------------------------------------------

  /** The next bootnode is known afterwards, and is the one to be marked as pinged. */
  lemma BootInserts(e: Env, s: State, now: int, hash: Option<H256>)
    requires Ok(e, s.table) && s.startup.sent.None? && s.startup.todo != []
    ensures var r, id := BootNext(e, s, now, hash), s.startup.todo[0].nodeId;
            && Ok(e, r.table) && Knows(e, r.table, id) && OthersStay(e, s.table, r.table, id)
            && r == s.(table := r.table, startup := Startup(s.startup.todo[1..], Some(id)))
            && (!Knows(e, s.table, id) && |s.table[Home(e.keccak, e.local, id)].peers| < 16 ==>
                  At(e, r.table, id) == Some(NewPeer(s.startup.todo[0].(tcpPort := 0), Unix(now))))
  {
    hide TableOk, Find, Known, Home, InsertNode;
    InsertFound(e.keccak, e.local, s.table, s.startup.todo[0].(tcpPort := 0), Unix(now));
  }

  lemma BootRecords(e: Env, s: State, now: int, hash: Option<H256>)
    requires Ok(e, s.table) && s.startup.sent.Some?
    ensures var r, id := BootNext(e, s, now, hash), s.startup.sent.value;
            && Ok(e, r.table) && OthersStay(e, s.table, r.table, id)
            && r == s.(table := r.table, log := r.log, startup := Startup(s.startup.todo, None))
            && (At(e, s.table, id).None? ==> r.table == s.table && r.log == s.log)
            && (At(e, s.table, id).Some? ==>
                  && At(e, r.table, id) == Some(Pinged(At(e, s.table, id).value, hash, Unix(now)))
                  && (hash.Some? ==> r.log == s.log + [Recorded(id, hash.value)]) && (hash.None? ==> r.log == s.log))
  {
    hide TableOk, Find, Record;
    RecordEffect(e, s.(startup := s.startup.(sent := None)), s.startup.sent.value, hash, now);
  }

  /** The lives of a peer after a round: one more for an answer, a third for silence, as before if it was not asked. */
  function Lives(p: PeerData): nat {
    match p.revalidation
    case Some(true) => p.liveness + 1
    case Some(false) => p.liveness / 3
    case None => p.liveness
  }

  /** A peer with lives left stays, with its round forgotten. */
  lemma CheckKeepsAlive(e: Env, s: State, id: H512, now: int, hash: Option<H256>)
    requires Ok(e, s.table) && s.revalidation.Checking? && At(e, s.table, id).Some?
    requires 0 < Lives(At(e, s.table, id).value) < 0x1_0000
    ensures var p := At(e, s.table, id).value;
            CheckNext(e, s, id, now, hash).Some? &&
            var r := CheckNext(e, s, id, now, hash).value;
            && Ok(e, r.table) && OthersStay(e, s.table, r.table, id)
            && At(e, r.table, id) == Some(p.(liveness := Lives(p), revalidation := None))
            && r == s.(table := r.table, revalidation := Checking(s.revalidation.pinged - {id}))
  {
    hide TableOk, Find, SetPeer, ReplacePeer, Record;
    OkSize(e, s.table);
    FoundId(e, s.table, id);
    SetFound(e.keccak, e.local, s.table, id, Judged(At(e, s.table, id).value));
  }

  /** A peer without lives is gone, and the latest replacement of its bucket takes its place and is pinged. */
  lemma CheckEvicts(e: Env, s: State, id: H512, now: int, hash: Option<H256>)
    requires Ok(e, s.table) && s.revalidation.Checking? && At(e, s.table, id).Some?
    requires Lives(At(e, s.table, id).value) == 0
    ensures var rs := s.table[Home(e.keccak, e.local, id)].replacements;
            CheckNext(e, s, id, now, hash).Some? &&
            var r := CheckNext(e, s, id, now, hash).value;
            && Ok(e, r.table) && At(e, r.table, id) == None
            && r == s.(table := r.table, log := r.log, revalidation := Checking(s.revalidation.pinged - {id}))
            && (rs == [] ==> OthersStay(e, s.table, r.table, id) && r.log == s.log)
            && (rs != [] ==>
                  var new_ := rs[|rs| - 1];
                  && At(e, r.table, Id(new_)) == Some(Pinged(new_, hash, Unix(now)))
                  && (hash.Some? ==> r.log == s.log + [Recorded(Id(new_), hash.value)])
                  && forall x: H512 | x != id && x != Id(new_) :: At(e, r.table, x) == At(e, s.table, x))
  {
    hide TableOk, Find, SetPeer, ReplacePeer, Record, Home;
    OkSize(e, s.table);
    FoundId(e, s.table, id);
    var p2 := Judged(At(e, s.table, id).value);
    SetFound(e.keccak, e.local, s.table, id, p2);
    var t := SetPeer(e.keccak, e.local, s.table, id, p2);
    SetReplacements(e, s.table, id, p2);
    ReplaceFound(e.keccak, e.local, t, id);
    var (t2, peer) := ReplacePeer(e.keccak, e.local, t, id);
    OkSize(e, t);
    OkSize(e, t2);
    if peer.Some? {
      RecordEffect(e, s.(table := t2, revalidation := Checking(s.revalidation.pinged - {id})), Id(peer.value), hash, now);
      PromotedIsOther(e, t2, id, peer.value);
    }
  }

  lemma PromotedIsOther(e: Env, t: Table, id: H512, p: PeerData)
    requires |t| == NUMBER_OF_BUCKETS && At(e, t, id) == None && At(e, t, Id(p)) == Some(p)
    ensures Id(p) != id
  {
    hide Find;
  }

  lemma SetReplacements(e: Env, t: Table, id: H512, p: PeerData)
    requires |t| == NUMBER_OF_BUCKETS && At(e, t, id).Some?
    ensures var t2 := SetPeer(e.keccak, e.local, t, id, p);
            |t2| == |t| && forall h | 0 <= h < |t| :: t2[h].replacements == t[h].replacements
  {
  }

  /** A selected peer is pinged and waits for its answer. */
  lemma RevalidatePings(e: Env, s: State, now: int, hash: Option<H256>)
    requires Ok(e, s.table) && s.revalidation.Pinging? && s.revalidation.peers != []
    ensures var r, id := RevalidateNext(e, s, now, hash), Id(s.revalidation.peers[0]);
            && Ok(e, r.table) && OthersStay(e, s.table, r.table, id)
            && r.revalidation == Pinging(s.revalidation.peers[1..], s.revalidation.pinged + {id})
            && r == s.(table := r.table, log := r.log, revalidation := r.revalidation)
            && (At(e, s.table, id).None? ==> r.table == s.table && r.log == s.log)
            && (At(e, s.table, id).Some? ==>
                  && At(e, r.table, id) == Some(Pinged(At(e, s.table, id).value, hash, Unix(now)).(revalidation := Some(false)))
                  && (hash.Some? ==> r.log == s.log + [Recorded(id, hash.value)]) && (hash.None? ==> r.log == s.log))
  {
    hide TableOk, Find, SetPeer;
    OkSize(e, s.table);
    var id := Id(s.revalidation.peers[0]);
    var p := At(e, s.table, id);
    if p.Some? {
      FoundId(e, s.table, id);
      SetFound(e.keccak, e.local, s.table, id, Pinged(p.value, hash, Unix(now)).(revalidation := Some(false)));
    }
  }

  /** A query of a peer without an open request opens one, under a number that was never used. */
  lemma QueryOpens(e: Env, s: State, id: H512, now: int)
    requires Ok(e, s.table)
    ensures var r, p := QueryNext(e, s, id, now), At(e, s.table, id);
            && Ok(e, r.table) && OthersStay(e, s.table, r.table, id)
            && (if p.Some? && p.value.findNodeRequest.None?
                then At(e, r.table, id) == Some(p.value.(findNodeRequest := Some(FindNodeRequest(0, Unix(now), s.nextChannel))))
                     && r == s.(table := r.table, nextChannel := s.nextChannel + 1)
                else r == s)
  {
    hide TableOk, Find, SetPeer;
    OkSize(e, s.table);
    var p := At(e, s.table, id);
    if p.Some? && p.value.findNodeRequest.None? {
      FoundId(e, s.table, id);
      SetFound(e.keccak, e.local, s.table, id,
               p.value.(findNodeRequest := Some(FindNodeRequest(0, Unix(now), s.nextChannel))));
    }
  }

  // ---------------------------------------------------------------------------------------------
  // Along a run
  // ---------------------------------------------------------------------------------------------

  lemma {:induction false} InsertAllFrame(e: Env, s: State, nodes: seq<Node>, now: int, pings: seq<Option<H256>>)
    requires |s.table| == NUMBER_OF_BUCKETS
    ensures var r := InsertAll(e, s, nodes, now, pings); r == s.(table := r.table, log := r.log)
    decreases |nodes|
  {
    hide InsertNode, UpdatePeerPing;
    if nodes != [] {
      InsertAllStep(e, s, nodes, now, pings);
      InsertAllFrame(e, FirstIn(e, s, nodes[0], now, HashAt(pings, 0)), nodes[1..], now, Rest(pings));
    }
  }

  /** Only the server moves the server on, and only the start-up task moves the start-up on. */
  lemma TasksApart(e: Env, s: State, step: Step, s2: State)
    requires |s.table| == NUMBER_OF_BUCKETS && Next(e, s, step, s2)
    ensures !step.Receive? && !step.Serve? ==> s2.server == s.server
    ensures !step.Boot? ==> s2.startup == s.startup
    ensures step.Receive? ==> s.server.Idle?
  {
    hide InsertNode, UpdatePeerPing, SetPeer, Find, InsertAll, Scan, ClosestNodes;
    if step.Receive? && step.msg.Neighbors? {
      var p := Find(e.keccak, e.local, s.table, step.from.nodeId);
      if p.Some? && p.value.findNodeRequest.Some? {
        NeighborsApart(e, s, step.from.nodeId, p.value, step.msg.nodes, step.now, step.pings);
      }
    }
  }

  lemma NeighborsApart(e: Env, s: State, id: H512, peer: PeerData, nodes: seq<Node>, now: int, pings: seq<Option<H256>>)
    requires |s.table| == NUMBER_OF_BUCKETS
    requires Find(e.keccak, e.local, s.table, id) == Some(peer) && peer.findNodeRequest.Some?
    ensures OnNeighbors(e, s, id, peer, nodes, now, pings).startup == s.startup
  {
    hide InsertAll, Find;
    var req := peer.findNodeRequest.value;
    var sent := req.nodesSent + |nodes|;
    if now - req.sentAt < 60 && sent <= 16 {
      var rest := if sent == 16 then None else Some(req.(nodesSent := sent));
      var t := SetPeer(e.keccak, e.local, s.table, id, peer.(findNodeRequest := rest));
      InsertAllFrame(e, s.(table := t, log := s.log + [Accepted(req.channel, |nodes|)]), nodes, now, pings);
    }
  }

  lemma RunOk(e: Env, bootnodes: seq<Node>, states: seq<State>, steps: seq<Step>, i: nat)
    requires Run(e, bootnodes, states, steps) && i < |states|
    ensures Ok(e, states[i].table) && |states[i].table| == NUMBER_OF_BUCKETS
  {
    hide Run, Inv.LogOk, Inv.PeerOk, BucketOk, Peers, Replacements;
    Inv.RunKeeps(e, bootnodes, states, steps, i);
  }

  /** Some state up to the `n`-th knows the id. */
  ghost predicate KnownBy(e: Env, states: seq<State>, n: nat, id: H512) {
    exists i | 0 <= i <= n && i < |states| :: |states[i].table| == NUMBER_OF_BUCKETS && Knows(e, states[i].table, id)
  }

  /** Main law of start-up: in every run each bootnode that is no longer to be inserted has got into the table. */
  lemma {:induction false} BootnodesArrive(
    e: Env, bootnodes: seq<Node>, states: seq<State>, steps: seq<Step>, n: nat, b: nat)
    requires Run(e, bootnodes, states, steps) && n < |states|
    ensures var left := |states[n].startup.todo|;
            && left <= |bootnodes| && states[n].startup.todo == bootnodes[|bootnodes| - left..]
            && (b < |bootnodes| - left ==> KnownBy(e, states, n, bootnodes[b].nodeId))
  {
    hide TableOk, Knows;
    if n > 0 {
      BootnodesArrive(e, bootnodes, states, steps, n - 1, b);
      RunOk(e, bootnodes, states, steps, n - 1);
      RunOk(e, bootnodes, states, steps, n);
      var s, step := states[n - 1], steps[n - 1];
      assert Next(e, s, step, states[n - 1 + 1]);
      TasksApart(e, s, step, states[n]);
      if step.Boot? {
        BootMoves(e, s, step.now, step.hash);
      }
      KnownLater(e, states, n, b, bootnodes);
    }
  }

  lemma KnownLater(e: Env, states: seq<State>, n: nat, b: nat, bootnodes: seq<Node>)
    requires 0 < n < |states|
    ensures b < |bootnodes| && KnownBy(e, states, n - 1, bootnodes[b].nodeId) ==> KnownBy(e, states, n, bootnodes[b].nodeId)
  {
    hide Knows;
  }

  lemma BootMoves(e: Env, s: State, now: int, hash: Option<H256>)
    requires Ok(e, s.table) && |s.table| == NUMBER_OF_BUCKETS
    ensures var r := BootNext(e, s, now, hash);
            || r.startup.todo == s.startup.todo
            || (s.startup.todo != [] && r.startup.todo == s.startup.todo[1..]
                && |r.table| == NUMBER_OF_BUCKETS && Knows(e, r.table, s.startup.todo[0].nodeId))
  {
    hide TableOk, Knows, Find, InsertNode, Record;
    if s.startup.sent.Some? {
      BootRecords(e, s, now, hash);
    } else if s.startup.todo != [] {
      BootInserts(e, s, now, hash);
      OkSize(e, BootNext(e, s, now, hash).table);
    }
  }

  /** What the server has taken up waits for it. */
  lemma {:induction false} ServerWaits(
    e: Env, bootnodes: seq<Node>, states: seq<State>, steps: seq<Step>, i: nat, k: nat)
    requires Run(e, bootnodes, states, steps) && i <= k < |states| && !states[i].server.Idle?
    requires forall m | i <= m < k :: !steps[m].Serve?
    ensures states[k].server == states[i].server
    decreases k
  {
    if k > i {
      hide Next;
      ServerWaits(e, bootnodes, states, steps, i, k - 1);
      assert Next(e, states[k - 1], steps[k - 1], states[k - 1 + 1]);
      TasksApart(e, states[k - 1], steps[k - 1], states[k]);
    }
  }

  /** In time, from somebody who is not a peer. */
  ghost predicate StrangerPings(e: Env, s: State, step: Step)
    requires |s.table| == NUMBER_OF_BUCKETS
  {
    step.Receive? && step.msg.Ping? && step.msg.expiration >= step.now && At(e, s.table, step.from.nodeId).None?
  }

  /**
    * Main law of pings: in every run a stranger's ping makes it known at the server's next step; if it joined the peers and
    * is still one at the server's step after that, the hash of the ping it is sent is recorded for it.
    */
  lemma PingIsServed(
    e: Env, bootnodes: seq<Node>, states: seq<State>, steps: seq<Step>, i: nat, k: nat, m: nat)
    requires Run(e, bootnodes, states, steps) && i < k < m < |steps|
    requires |states[i].table| == NUMBER_OF_BUCKETS && StrangerPings(e, states[i], steps[i])
    requires steps[k].Serve? && steps[m].Serve? && forall x | i < x < m && x != k :: !steps[x].Serve?
    ensures |states[k + 1].table| == |states[m].table| == |states[m + 1].table| == NUMBER_OF_BUCKETS
    ensures var id := steps[i].from.nodeId;
            && Knows(e, states[k + 1].table, id)
            && states[k + 1].server.PingInserted? && states[m + 1].server.Idle?
            && (states[k + 1].server.inserted ==>
                  At(e, states[k + 1].table, id) == Some(NewPeer(steps[i].from.(tcpPort := 0), Unix(steps[k].now))))
            && (states[k + 1].server.inserted && steps[m].hash.Some? && At(e, states[m].table, id).Some? ==>
                  && At(e, states[m + 1].table, id) ==
                     Some(Pinged(At(e, states[m].table, id).value, steps[m].hash, Unix(steps[m].now)))
                  && Recorded(id, steps[m].hash.value) in states[m + 1].log)
  {
    hide Run, Next, TableOk, Knows, Find, OnMessage, ServeNext;
    RunSteps(e, bootnodes, states, steps, i);
    RunSteps(e, bootnodes, states, steps, k);
    RunSteps(e, bootnodes, states, steps, m);
    RunOk(e, bootnodes, states, steps, k);
    RunOk(e, bootnodes, states, steps, k + 1);
    RunOk(e, bootnodes, states, steps, m);
    RunOk(e, bootnodes, states, steps, m + 1);
    var from := steps[i].from;
    Received(e, states[i], steps[i], states[i + 1]);
    ServerWaits(e, bootnodes, states, steps, i + 1, k);
    Served(e, states[k], steps[k], states[k + 1]);
    StrangerIsInserted(e, states[k], steps[k].now, steps[k].hash);
    ServerWaits(e, bootnodes, states, steps, k + 1, m);
    Served(e, states[m], steps[m], states[m + 1]);
    PingedBack(e, states[m], steps[m].now, steps[m].hash);
  }

  lemma RunSteps(e: Env, bootnodes: seq<Node>, states: seq<State>, steps: seq<Step>, i: nat)
    requires Run(e, bootnodes, states, steps) && i < |steps|
    ensures |states| == |steps| + 1 && |states[i].table| == NUMBER_OF_BUCKETS && Next(e, states[i], steps[i], states[i + 1])
  {
    hide Next;
  }

  lemma Received(e: Env, s: State, step: Step, s2: State)
    requires |s.table| == NUMBER_OF_BUCKETS && Next(e, s, step, s2) && StrangerPings(e, s, step)
    ensures s2.server == PingSeen(step.from.nodeId, step.from.(tcpPort := 0), None)
  {
    hide Find;
    MessageTaken(e, s, step.from, step.msg, step.now, step.pings);
  }

  lemma Served(e: Env, s: State, step: Step, s2: State)
    requires |s.table| == NUMBER_OF_BUCKETS && Next(e, s, step, s2) && step.Serve?
    ensures s2 == ServeNext(e, s, step.now, step.hash)
  {
    hide ServeNext;
  }
}
