/**
  * What every run of the discovery protocol keeps: the bucket invariant, the endpoint proof behind every proven peer and
  * every neighbors message, the limit on accepted nodes, and the presence of the peers under revalidation.
  */
module DiscoveryInv {
  import opened Prelude
  import opened Kademlia
  import opened Discovery

  // ---------------------------------------------------------------------------------------------
  // The log
  // ---------------------------------------------------------------------------------------------

  /** The peer sent a pong, in time, for a ping hash that had been recorded for it before. */
  ghost predicate Proved(log: seq<Event>, id: H512) {
    exists i, j | 0 <= i < j < |log| :: log[j].Ponged? && log[j].id == id && log[i] == Recorded(id, log[j].hash)
  }

  /** The number of nodes accepted for one request. */
  function Total(log: seq<Event>, c: nat): nat {
    if log == [] then 0
    else
      var last := log[|log| - 1];
      Total(log[..|log| - 1], c) + if last.Accepted? && last.channel == c then last.count else 0
  }

  lemma TotalSnoc(log: seq<Event>, ev: Event, c: nat)
    ensures Total(log + [ev], c) == Total(log, c) + if ev.Accepted? && ev.channel == c then ev.count else 0
  {
    var s := log + [ev];
    assert s[..|s| - 1] == log;
  }

  lemma ProvedGrows(log: seq<Event>, ev: Event, id: H512)
    requires Proved(log, id)
    ensures Proved(log + [ev], id)
  {
    var i, j :| 0 <= i < j < |log| && log[j].Ponged? && log[j].id == id && log[i] == Recorded(id, log[j].hash);
    var s := log + [ev];
    assert s[j].Ponged? && s[j].id == id && s[i] == Recorded(id, s[j].hash);
  }

  lemma PongProves(log: seq<Event>, id: H512, hash: H256)
    requires Recorded(id, hash) in log
    ensures Proved(log + [Ponged(id, hash)], id)
  {
    var i :| 0 <= i < |log| && log[i] == Recorded(id, hash);
    var s, j := log + [Ponged(id, hash)], |log|;
    assert s[j].Ponged? && s[j].id == id && s[i] == Recorded(id, s[j].hash);
  }

  /** Neighbors only go to peers with an endpoint proof, and no request accepts more than sixteen nodes. */
  ghost predicate LogOk(log: seq<Event>, next: nat) {
    && (forall i | 0 <= i < |log| && log[i].NeighborsSent? ::
          Proved(log[..i], log[i].to.nodeId) && |log[i].sent| <= 16)
    && (forall c :: Total(log, c) <= MAX_NODES_PER_BUCKET)
    && (forall c | c >= next :: Total(log, c) == 0)
  }

  lemma LogGrows(log: seq<Event>, ev: Event, next: nat)
    requires LogOk(log, next)
    requires ev.NeighborsSent? ==> Proved(log, ev.to.nodeId) && |ev.sent| <= 16
    requires ev.Accepted? ==> ev.channel < next && Total(log, ev.channel) + ev.count <= MAX_NODES_PER_BUCKET
    ensures LogOk(log + [ev], next)
  {
    hide Proved, Total;
    var s := log + [ev];
    forall i | 0 <= i < |s| && s[i].NeighborsSent?
      ensures Proved(s[..i], s[i].to.nodeId) && |s[i].sent| <= 16
    {
      if i < |log| {
        assert s[..i] == log[..i] && log[i].NeighborsSent?;
      } else {
        assert s[..i] == log;
      }
    }
    forall c: nat
      ensures Total(s, c) <= MAX_NODES_PER_BUCKET && (c >= next ==> Total(s, c) == 0)
    {
      TotalSnoc(log, ev, c);
    }
  }

  // ---------------------------------------------------------------------------------------------
  // The table
  // ---------------------------------------------------------------------------------------------

  ghost predicate PeerOk(log: seq<Event>, next: nat, p: PeerData) {
    && (p.isProven ==> Proved(log, Id(p)))
    && (p.lastPingHash.Some? ==> Recorded(Id(p), p.lastPingHash.value) in log)
    && (p.findNodeRequest.Some? ==>
          var r := p.findNodeRequest.value;
          r.channel < next && r.nodesSent == Total(log, r.channel) && r.nodesSent < MAX_NODES_PER_BUCKET)
    && p.liveness >= 1
  }

  predicate OnChannel(p: PeerData, c: nat) {
    p.findNodeRequest.Some? && p.findNodeRequest.value.channel == c
  }

  /** Nothing has happened to a replacement yet. */
  predicate Fresh(p: PeerData) {
    !p.isProven && p.lastPingHash.None? && p.findNodeRequest.None? && p.liveness >= 1
  }

  ghost predicate TableInv(e: Env, t: Table, log: seq<Event>, next: nat) {
    && TableOk(e.keccak, e.local, t)
    && (forall p | p in Peers(t) :: PeerOk(log, next, p))
    && (forall p | p in Replacements(t) :: Fresh(p))
    && (forall p, q, c | p in Peers(t) && q in Peers(t) && OnChannel(p, c) && OnChannel(q, c) :: p == q)
  }

  lemma PeerOkGrows(log: seq<Event>, ev: Event, next: nat, p: PeerData)
    requires PeerOk(log, next, p) && (ev.Accepted? ==> !OnChannel(p, ev.channel))
    ensures PeerOk(log + [ev], next, p)
  {
    hide Proved, Total;
    if p.isProven {
      ProvedGrows(log, ev, Id(p));
    }
    if p.findNodeRequest.Some? {
      TotalSnoc(log, ev, p.findNodeRequest.value.channel);
    }
  }

  lemma TableGrows(e: Env, t: Table, log: seq<Event>, ev: Event, next: nat)
    requires TableInv(e, t, log, next)
    requires ev.Accepted? ==> forall p | p in Peers(t) :: !OnChannel(p, ev.channel)
    ensures TableInv(e, t, log + [ev], next)
  {
    hide TableOk, PeerOk, Peers, Replacements;
    forall p | p in Peers(t)
      ensures PeerOk(log + [ev], next, p)
    {
      PeerOkGrows(log, ev, next, p);
    }
  }

  /** One entry is overwritten. */
  lemma TableSet(e: Env, t: Table, log: seq<Event>, next: nat, next2: nat, id: H512, p2: PeerData)
    requires TableInv(e, t, log, next) && next <= next2
    requires Find(e.keccak, e.local, t, id).Some? && Id(p2) == id && PeerOk(log, next2, p2)
    requires p2.findNodeRequest.Some? ==>
               var c := p2.findNodeRequest.value.channel;
               c >= next || OnChannel(Find(e.keccak, e.local, t, id).value, c)
    ensures TableInv(e, SetPeer(e.keccak, e.local, t, id, p2), log, next2)
  {
    hide BucketOk, Peers, Replacements, Proved, Total, Find, SetPeer;
    SetPeerOk(e.keccak, e.local, t, id, p2);
    FindIsScan(e.keccak, e.local, t, id);
    var t2 := SetPeer(e.keccak, e.local, t, id, p2);
    forall p | p in Peers(t2)
      ensures PeerOk(log, next2, p)
    {
      assert p == p2 || PeerOk(log, next, p);
    }
  }

  lemma FreshIsOk(log: seq<Event>, next: nat, p: PeerData)
    requires Fresh(p)
    ensures PeerOk(log, next, p)
  {
  }

  lemma TableInsert(e: Env, t: Table, log: seq<Event>, next: nat, node: Node, now: nat)
    requires TableInv(e, t, log, next)
    ensures var (t2, peer, inserted) := InsertNode(e.keccak, e.local, t, node, now);
            TableInv(e, t2, log, next) && Peers(t) <= Peers(t2)
  {
    hide TableOk, Peers, Replacements, Proved, Total, InsertNode;
    InsertNodeOk(e.keccak, e.local, t, node, now);
    FreshIsOk(log, next, NewPeer(node, now));
  }

  lemma TableReplace(e: Env, t: Table, log: seq<Event>, next: nat, id: H512)
    requires TableInv(e, t, log, next)
    ensures var (t2, peer) := ReplacePeer(e.keccak, e.local, t, id);
            TableInv(e, t2, log, next) && forall q | q in Peers(t) && Id(q) != id :: q in Peers(t2)
  {
    hide BucketOk, Peers, Replacements, Proved, Total, ReplacePeer;
    ReplacePeerOk(e.keccak, e.local, t, id);
    var (t2, peer) := ReplacePeer(e.keccak, e.local, t, id);
    if peer.Some? && peer.value in Replacements(t) {
      FreshIsOk(log, next, peer.value);
    }
  }

  // ---------------------------------------------------------------------------------------------
  // The state
  // ---------------------------------------------------------------------------------------------

  ghost predicate ServerOk(server: Server, log: seq<Event>) {
    match server
    case PingSeen(id, from, _) => from.nodeId == id
    case PongMatched(id) => Proved(log, id)
    case FindNodeProven(from, _) => Proved(log, from.nodeId)
    case _ => true
  }

  ghost predicate Present(t: Table, id: H512) {
    exists p | p in Peers(t) :: Id(p) == id
  }

  /** Peers that are or will be looked up by revalidation are in the table. */
  ghost predicate RevalidationOk(r: Revalidation, t: Table) {
    && (forall id | id in r.pinged :: Present(t, id))
    && (r.Pinging? ==> forall p | p in r.peers :: Present(t, Id(p)))
  }

  ghost predicate Inv(e: Env, s: State) {
    && TableInv(e, s.table, s.log, s.nextChannel)
    && LogOk(s.log, s.nextChannel)
    && ServerOk(s.server, s.log)
    && RevalidationOk(s.revalidation, s.table)
  }

  lemma ServerGrows(server: Server, log: seq<Event>, ev: Event)
    requires ServerOk(server, log)
    ensures ServerOk(server, log + [ev])
  {
    hide Proved;
    match server
    case PongMatched(id) => ProvedGrows(log, ev, id);
    case FindNodeProven(from, _) => ProvedGrows(log, ev, from.nodeId);
    case _ =>
  }

  /** Ids that stay in the table keep the revalidation task safe. */
  ghost predicate KeepsIds(t: Table, t2: Table) {
    forall id: H512 :: Present(t, id) ==> Present(t2, id)
  }

  lemma SetKeepsIds(e: Env, t: Table, id: H512, p2: PeerData)
    requires TableOk(e.keccak, e.local, t) && Find(e.keccak, e.local, t, id).Some? && Id(p2) == id
    ensures KeepsIds(t, SetPeer(e.keccak, e.local, t, id, p2))
  {
    hide BucketOk, Peers, Find, SetPeer;
    SetPeerOk(e.keccak, e.local, t, id, p2);
    FindIsScan(e.keccak, e.local, t, id);
    var t2 := SetPeer(e.keccak, e.local, t, id, p2);
    forall x: H512 | Present(t, x)
      ensures Present(t2, x)
    {
      var p :| p in Peers(t) && Id(p) == x;
      assert p in Peers(t2) || (x == id && p2 in Peers(t2));
    }
  }

  lemma MoreKeepsIds(t: Table, t2: Table)
    requires Peers(t) <= Peers(t2)
    ensures KeepsIds(t, t2)
  {
    hide Peers;
    forall x: H512 | Present(t, x)
      ensures Present(t2, x)
    {
      var p :| p in Peers(t) && Id(p) == x;
      assert p in Peers(t2);
    }
  }

  lemma KeepsIdsTrans(a: Table, b: Table, c: Table)
    requires KeepsIds(a, b) && KeepsIds(b, c)
    ensures KeepsIds(a, c)
  {
    hide Present;
  }

  lemma FindIsPresent(e: Env, t: Table, id: H512)
    requires TableOk(e.keccak, e.local, t)
    ensures Find(e.keccak, e.local, t, id).Some? <==> Present(t, id)
  {
    hide BucketOk, Peers, Find;
    FindIsScan(e.keccak, e.local, t, id);
  }

  lemma FindIsOk(e: Env, t: Table, log: seq<Event>, next: nat, id: H512)
    requires TableInv(e, t, log, next) && Find(e.keccak, e.local, t, id).Some?
    ensures var p := Find(e.keccak, e.local, t, id).value;
            Id(p) == id && p in Peers(t) && PeerOk(log, next, p)
  {
    hide BucketOk, Peers, Find, PeerOk;
    FindIsScan(e.keccak, e.local, t, id);
  }

  /** Recording a ping keeps everything. */
  lemma RecordKeeps(e: Env, s: State, id: H512, hash: Option<H256>, now: int)
    requires TableInv(e, s.table, s.log, s.nextChannel) && LogOk(s.log, s.nextChannel)
    ensures var r := Record(e, s, id, hash, now);
            && TableInv(e, r.table, r.log, r.nextChannel) && LogOk(r.log, r.nextChannel)
            && KeepsIds(s.table, r.table)
            && r == s.(table := r.table, log := r.log)
            && (ServerOk(s.server, s.log) ==> ServerOk(r.server, r.log))
  {
    hide BucketOk, Peers, Replacements, Find, SetPeer, Proved, Total;
    var known := Find(e.keccak, e.local, s.table, id);
    if known.Some? {
      FindIsOk(e, s.table, s.log, s.nextChannel, id);
      var p2 := known.value.(lastPingHash := hash, lastPing := Unix(now));
      SetKeepsIds(e, s.table, id, p2);
      if hash.Some? {
        var ev := Recorded(id, hash.value);
        TableGrows(e, s.table, s.log, ev, s.nextChannel);
        LogGrows(s.log, ev, s.nextChannel);
        PeerOkGrows(s.log, ev, s.nextChannel, known.value);
        if ServerOk(s.server, s.log) {
          ServerGrows(s.server, s.log, ev);
        }
        TableSet(e, s.table, s.log + [ev], s.nextChannel, s.nextChannel, id, p2);
      } else {
        TableSet(e, s.table, s.log, s.nextChannel, s.nextChannel, id, p2);
      }
    } else {
      MoreKeepsIds(s.table, s.table);
    }
  }

  lemma {:induction false} InsertAllKeeps(e: Env, s: State, nodes: seq<Node>, now: int, pings: seq<Option<H256>>)
    requires TableInv(e, s.table, s.log, s.nextChannel) && LogOk(s.log, s.nextChannel)
    ensures var r := InsertAll(e, s, nodes, now, pings);
            && TableInv(e, r.table, r.log, r.nextChannel) && LogOk(r.log, r.nextChannel)
            && KeepsIds(s.table, r.table)
            && r == s.(table := r.table, log := r.log)
            && (ServerOk(s.server, s.log) ==> ServerOk(r.server, r.log))
    decreases |nodes|
  {
    hide TableInv, LogOk, ServerOk, Record, InsertNode, Peers;
    if nodes == [] {
      MoreKeepsIds(s.table, s.table);
    } else {
      TableInvSize(e, s.table, s.log, s.nextChannel);
      var (t, peer, inserted) := InsertNode(e.keccak, e.local, s.table, nodes[0], Unix(now));
      TableInsert(e, s.table, s.log, s.nextChannel, nodes[0], Unix(now));
      MoreKeepsIds(s.table, t);
      var hash := if pings == [] then None else pings[0];
      var rest := if pings == [] then [] else pings[1..];
      TableInvSize(e, t, s.log, s.nextChannel);
      if inserted {
        RecordKeeps(e, s.(table := t), nodes[0].nodeId, hash, now);
        InsertAllKeeps(e, Record(e, s.(table := t), nodes[0].nodeId, hash, now), nodes[1..], now, rest);
      } else {
        InsertAllKeeps(e, s.(table := t), nodes[1..], now, rest);
      }
    }
  }

  lemma TableInvSize(e: Env, t: Table, log: seq<Event>, next: nat)
    requires TableInv(e, t, log, next)
    ensures |t| == NUMBER_OF_BUCKETS && TableOk(e.keccak, e.local, t)
  {
    hide BucketOk;
  }

  // ---------------------------------------------------------------------------------------------
  // Every step keeps the invariant
  // ---------------------------------------------------------------------------------------------

  lemma KeptIdsKeepRevalidation(r: Revalidation, t: Table, t2: Table)
    requires RevalidationOk(r, t) && KeepsIds(t, t2)
    ensures RevalidationOk(r, t2)
  {
    hide Present;
  }

  lemma MessageKeeps(e: Env, s: State, from: Node, msg: Message, now: int, pings: seq<Option<H256>>)
    requires Inv(e, s) && s.server.Idle? && |s.table| == NUMBER_OF_BUCKETS
    ensures Inv(e, OnMessage(e, s, from, msg, now, pings))
    ensures KeepsIds(s.table, OnMessage(e, s, from, msg, now, pings).table)
  {
    MoreKeepsIds(s.table, s.table);
    hide TableInv, LogOk, RevalidationOk, Proved, Find, OnNeighbors;
    var id := from.nodeId;
    var known := Find(e.keccak, e.local, s.table, id);
    if known.Some? {
      FindIsOk(e, s.table, s.log, s.nextChannel, id);
    }
    match msg
    case Ping(_) =>
    case Pong(pingHash, expiration) =>
      if known.Some? && known.value.lastPingHash == Some(pingHash) {
        var ev := Ponged(id, pingHash);
        PongProves(s.log, id, pingHash);
        TableGrows(e, s.table, s.log, ev, s.nextChannel);
        LogGrows(s.log, ev, s.nextChannel);
      }
    case FindNode(_, _) =>
    case Neighbors(nodes, expiration) =>
      if known.Some? && known.value.findNodeRequest.Some? {
        NeighborsKeep(e, s, id, known.value, nodes, now, pings);
      }
  }

  lemma NeighborsKeep(
    e: Env, s: State, id: H512, peer: PeerData, nodes: seq<Node>, now: int, pings: seq<Option<H256>>)
    requires Inv(e, s) && |s.table| == NUMBER_OF_BUCKETS
    requires Find(e.keccak, e.local, s.table, id) == Some(peer) && peer.findNodeRequest.Some?
    ensures Inv(e, OnNeighbors(e, s, id, peer, nodes, now, pings))
    ensures KeepsIds(s.table, OnNeighbors(e, s, id, peer, nodes, now, pings).table)
  {
    hide TableInv, LogOk, ServerOk, RevalidationOk, Proved, Total, Find, SetPeer, InsertAll, Peers, KeepsIds;
    MoreKeepsIds(s.table, s.table);
    var req := peer.findNodeRequest.value;
    var sent := req.nodesSent + |nodes|;
    FindIsOk(e, s.table, s.log, s.nextChannel, id);
    TableInvSize(e, s.table, s.log, s.nextChannel);
    if now - req.sentAt >= 60 {
      var p2 := peer.(findNodeRequest := None);
      TableSet(e, s.table, s.log, s.nextChannel, s.nextChannel, id, p2);
      SetKeepsIds(e, s.table, id, p2);
      KeptIdsKeepRevalidation(s.revalidation, s.table, SetPeer(e.keccak, e.local, s.table, id, p2));
    } else if sent <= MAX_NODES_PER_BUCKET {
      var s2 := AcceptedKeep(e, s, id, peer, nodes);
      InsertAllKeeps(e, s2, nodes, now, pings);
      var t2 := InsertAll(e, s2, nodes, now, pings).table;
      KeptIdsKeepRevalidation(s.revalidation, s2.table, t2);
      KeepsIdsTrans(s.table, s2.table, t2);
    }
  }

  /** The state once the nodes are counted, before they are inserted. */
  lemma AcceptedKeep(e: Env, s: State, id: H512, peer: PeerData, nodes: seq<Node>) returns (s2: State)
    requires Inv(e, s) && |s.table| == NUMBER_OF_BUCKETS
    requires Find(e.keccak, e.local, s.table, id) == Some(peer) && peer.findNodeRequest.Some?
    requires peer.findNodeRequest.value.nodesSent + |nodes| <= MAX_NODES_PER_BUCKET
    ensures Inv(e, s2) && KeepsIds(s.table, s2.table) && |s2.table| == NUMBER_OF_BUCKETS
    ensures var req := peer.findNodeRequest.value;
            var sent := req.nodesSent + |nodes|;
            var rest := if sent == MAX_NODES_PER_BUCKET then None else Some(req.(nodesSent := sent));
            s2 == s.(table := SetPeer(e.keccak, e.local, s.table, id, peer.(findNodeRequest := rest)),
                     log := s.log + [Accepted(req.channel, |nodes|)])
  {
    hide TableInv, LogOk, ServerOk, RevalidationOk, Proved, Total, Find, SetPeer, Peers, KeepsIds;
    var req := peer.findNodeRequest.value;
    var sent := req.nodesSent + |nodes|;
    FindIsOk(e, s.table, s.log, s.nextChannel, id);
    TableInvSize(e, s.table, s.log, s.nextChannel);
    var rest := if sent == MAX_NODES_PER_BUCKET then None else Some(req.(nodesSent := sent));
    var p2 := peer.(findNodeRequest := rest);
    var ev := Accepted(req.channel, |nodes|);
    AcceptKeeps(e, s.table, s.log, s.nextChannel, id, peer, nodes, p2);
    LogGrows(s.log, ev, s.nextChannel);
    ServerGrows(s.server, s.log, ev);
    SetKeepsIds(e, s.table, id, p2);
    var t := SetPeer(e.keccak, e.local, s.table, id, p2);
    KeptIdsKeepRevalidation(s.revalidation, s.table, t);
    s2 := s.(table := t, log := s.log + [ev]);
    TableInvSize(e, t, s2.log, s.nextChannel);
  }

  lemma SetTwice(e: Env, t: Table, id: H512, a: PeerData, b: PeerData)
    requires TableOk(e.keccak, e.local, t) && Find(e.keccak, e.local, t, id).Some? && Id(a) == id
    ensures TableOk(e.keccak, e.local, SetPeer(e.keccak, e.local, t, id, a))
    ensures Find(e.keccak, e.local, SetPeer(e.keccak, e.local, t, id, a), id) == Some(a)
    ensures SetPeer(e.keccak, e.local, SetPeer(e.keccak, e.local, t, id, a), id, b) == SetPeer(e.keccak, e.local, t, id, b)
  {
    hide BucketOk, BucketNumber, IndexOf, Peers, Replacements;
    SetPeerOk(e.keccak, e.local, t, id, a);
    var h := Home(e.keccak, e.local, id);
    var ps := t[h].peers;
    var i := IndexOf(ps, id).value;
    var qs := ps[i := a];
    FirstIndex(qs, id, i);
    assert qs[i := b] == ps[i := b];
    var t1 := SetPeer(e.keccak, e.local, t, id, a);
    assert t1[h].peers == qs;
    assert t1[h := t1[h].(peers := qs[i := b])] == t[h := t[h].(peers := ps[i := b])];
  }

  /** Nodes are accepted on one request, which only this peer has. */
  lemma AcceptKeeps(
    e: Env, t: Table, log: seq<Event>, next: nat, id: H512, peer: PeerData, nodes: seq<Node>, p2: PeerData)
    requires TableInv(e, t, log, next) && |t| == NUMBER_OF_BUCKETS
    requires Find(e.keccak, e.local, t, id) == Some(peer) && peer.findNodeRequest.Some?
    requires var sent := peer.findNodeRequest.value.nodesSent + |nodes|;
             && sent <= MAX_NODES_PER_BUCKET
             && p2 == peer.(findNodeRequest :=
               if sent == MAX_NODES_PER_BUCKET then None else Some(peer.findNodeRequest.value.(nodesSent := sent)))
    ensures TableInv(
              e, SetPeer(e.keccak, e.local, t, id, p2), log + [Accepted(peer.findNodeRequest.value.channel, |nodes|)], next)
  {
    hide BucketOk, Proved, Total, Find, SetPeer, Peers, Replacements;
    var c := peer.findNodeRequest.value.channel;
    var ev := Accepted(c, |nodes|);
    var off := peer.(findNodeRequest := None);
    FindIsOk(e, t, log, next, id);
    TableSet(e, t, log, next, next, id, off);
    SetPeerOk(e.keccak, e.local, t, id, off);
    var t1 := SetPeer(e.keccak, e.local, t, id, off);
    assert forall p | p in Peers(t1) :: !OnChannel(p, c);
    TableGrows(e, t1, log, ev, next);
    PeerOkGrows(log, ev, next, off);
    TotalSnoc(log, ev, c);
    SetTwice(e, t, id, off, p2);
    BackOnChannel(e, t1, log + [ev], next, id, p2, c);
  }

  lemma BackOnChannel(e: Env, t: Table, log: seq<Event>, next: nat, id: H512, p2: PeerData, c: nat)
    requires TableInv(e, t, log, next) && Find(e.keccak, e.local, t, id).Some? && Id(p2) == id && PeerOk(log, next, p2)
    requires (forall p | p in Peers(t) :: !OnChannel(p, c)) && (p2.findNodeRequest.Some? ==> OnChannel(p2, c))
    ensures TableInv(e, SetPeer(e.keccak, e.local, t, id, p2), log, next)
  {
    hide BucketOk, PeerOk, Find, SetPeer, Peers, Replacements;
    SetPeerOk(e.keccak, e.local, t, id, p2);
  }

  lemma ServeKeeps(e: Env, s: State, now: int, hash: Option<H256>)
    requires Inv(e, s) && !s.server.Idle? && |s.table| == NUMBER_OF_BUCKETS
    ensures Inv(e, ServeNext(e, s, now, hash))
    ensures KeepsIds(s.table, ServeNext(e, s, now, hash).table)
  {
    MoreKeepsIds(s.table, s.table);
    hide TableInv, LogOk, RevalidationOk, Proved, Record, InsertNode, ClosestNodes, Peers;
    var done := s.(server := Idle);
    match s.server
    case PingSeen(id, from, None) =>
      TableInsert(e, s.table, s.log, s.nextChannel, from, Unix(now));
      var (t, peer, inserted) := InsertNode(e.keccak, e.local, s.table, from, Unix(now));
      MoreKeepsIds(s.table, t);
      KeptIdsKeepRevalidation(s.revalidation, s.table, t);
    case PingSeen(id, _, Some(p)) =>
      RecordKeeps(e, done, id, hash, now);
      KeptIdsKeepRevalidation(s.revalidation, s.table, Record(e, done, id, hash, now).table);
    case PingInserted(id, inserted) =>
      RecordKeeps(e, done, id, hash, now);
      KeptIdsKeepRevalidation(s.revalidation, s.table, Record(e, done, id, hash, now).table);
    case PongMatched(id) => PongKeeps(e, s, id, Unix(now));
    case FindNodeProven(from, target) =>
      TableInvSize(e, s.table, s.log, s.nextChannel);
      AtMost16(e, s.table, target);
      var ev := NeighborsSent(from, ClosestNodes(e.keccak, s.table, target));
      TableGrows(e, s.table, s.log, ev, s.nextChannel);
      LogGrows(s.log, ev, s.nextChannel);
  }

  lemma AtMost16(e: Env, t: Table, target: H512)
    requires TableOk(e.keccak, e.local, t)
    ensures |ClosestNodes(e.keccak, t, target)| <= 16
  {
    hide BucketOk, ClosestNodes, Peers, BucketNumber;
    ClosestNodesFacts(e.keccak, e.local, t, target);
  }

  lemma PongKeeps(e: Env, s: State, id: H512, now: nat)
    requires Inv(e, s) && s.server == PongMatched(id) && |s.table| == NUMBER_OF_BUCKETS
    ensures Inv(e, s.(server := Idle, table := PongAnswered(e.keccak, e.local, s.table, id, now)))
    ensures KeepsIds(s.table, PongAnswered(e.keccak, e.local, s.table, id, now))
  {
    MoreKeepsIds(s.table, s.table);
    hide TableInv, LogOk, RevalidationOk, Proved, Total, Find, SetPeer, Peers;
    var known := Find(e.keccak, e.local, s.table, id);
    if known.Some? {
      FindIsOk(e, s.table, s.log, s.nextChannel, id);
      TableInvSize(e, s.table, s.log, s.nextChannel);
      var p2 := Answered(known.value, now);
      TableSet(e, s.table, s.log, s.nextChannel, s.nextChannel, id, p2);
      SetKeepsIds(e, s.table, id, p2);
      KeptIdsKeepRevalidation(s.revalidation, s.table, SetPeer(e.keccak, e.local, s.table, id, p2));
    }
  }

  lemma BootKeeps(e: Env, s: State, now: int, hash: Option<H256>)
    requires Inv(e, s) && |s.table| == NUMBER_OF_BUCKETS
    ensures Inv(e, BootNext(e, s, now, hash))
    ensures KeepsIds(s.table, BootNext(e, s, now, hash).table)
  {
    MoreKeepsIds(s.table, s.table);
    hide TableInv, LogOk, ServerOk, RevalidationOk, Record, InsertNode, Peers;
    if s.startup.sent.Some? {
      var s1 := s.(startup := s.startup.(sent := None));
      RecordKeeps(e, s1, s.startup.sent.value, hash, now);
      KeptIdsKeepRevalidation(s.revalidation, s.table, Record(e, s1, s.startup.sent.value, hash, now).table);
    } else if s.startup.todo != [] {
      var node := s.startup.todo[0].(tcpPort := 0);
      TableInsert(e, s.table, s.log, s.nextChannel, node, Unix(now));
      var (t, peer, inserted) := InsertNode(e.keccak, e.local, s.table, node, Unix(now));
      MoreKeepsIds(s.table, t);
      KeptIdsKeepRevalidation(s.revalidation, s.table, t);
    }
  }

  lemma QueryKeeps(e: Env, s: State, id: H512, now: int)
    requires Inv(e, s) && |s.table| == NUMBER_OF_BUCKETS
    ensures Inv(e, QueryNext(e, s, id, now))
    ensures KeepsIds(s.table, QueryNext(e, s, id, now).table)
  {
    MoreKeepsIds(s.table, s.table);
    hide TableInv, ServerOk, RevalidationOk, Proved, Total, Find, SetPeer, Peers;
    var known := Find(e.keccak, e.local, s.table, id);
    if known.Some? && known.value.findNodeRequest.None? {
      FindIsOk(e, s.table, s.log, s.nextChannel, id);
      TableInvSize(e, s.table, s.log, s.nextChannel);
      assert Total(s.log, s.nextChannel) == 0;
      var p2 := known.value.(findNodeRequest := Some(FindNodeRequest(0, Unix(now), s.nextChannel)));
      TableSet(e, s.table, s.log, s.nextChannel, s.nextChannel + 1, id, p2);
      SetKeepsIds(e, s.table, id, p2);
      KeptIdsKeepRevalidation(s.revalidation, s.table, SetPeer(e.keccak, e.local, s.table, id, p2));
    }
  }

  /** The peers of the last round are found, and stay until they are looked at. */
  lemma CheckKeeps(e: Env, s: State, id: H512, now: int, hash: Option<H256>)
    requires Inv(e, s) && s.revalidation.Checking? && id in s.revalidation.pinged && |s.table| == NUMBER_OF_BUCKETS
    ensures Find(e.keccak, e.local, s.table, id).Some?
    ensures CheckNext(e, s, id, now, hash).None? <==> LivenessOverflows(Find(e.keccak, e.local, s.table, id).value)
    ensures CheckNext(e, s, id, now, hash).Some? ==>
              && Inv(e, CheckNext(e, s, id, now, hash).value)
              && forall x: H512 | Present(s.table, x) && !Present(CheckNext(e, s, id, now, hash).value.table, x) ::
                   x == id && Judged(Find(e.keccak, e.local, s.table, id).value).liveness == 0
  {
    hide TableInv, LogOk, ServerOk, Proved, Total, Find, SetPeer, ReplacePeer, Record, Present, Judged;
    TableInvSize(e, s.table, s.log, s.nextChannel);
    FindIsPresent(e, s.table, id);
    FindIsOk(e, s.table, s.log, s.nextChannel, id);
    var p := Find(e.keccak, e.local, s.table, id).value;
    if LivenessOverflows(p) {
      return;
    }
    var p2 := Judged(p);
    JudgedKeeps(s.log, s.nextChannel, p);
    var left := Checking(s.revalidation.pinged - {id});
    assert RevalidationOk(left, s.table);
    if p2.liveness != 0 {
      TableSet(e, s.table, s.log, s.nextChannel, s.nextChannel, id, p2);
      SetKeepsIds(e, s.table, id, p2);
      KeptIdsKeepRevalidation(left, s.table, SetPeer(e.keccak, e.local, s.table, id, p2));
    } else {
      ReplaceJudged(e, s.table, id, p2);
      TableReplace(e, s.table, s.log, s.nextChannel, id);
      var (t2, peer) := ReplacePeer(e.keccak, e.local, s.table, id);
      OthersStay(s.table, t2, id, left);
      OthersPresent(s.table, t2, id);
      TableInvSize(e, t2, s.log, s.nextChannel);
      var s2 := s.(table := t2, revalidation := left);
      if peer.Some? {
        RecordKeeps(e, s2, Id(peer.value), hash, now);
        KeptIdsKeepRevalidation(left, t2, Record(e, s2, Id(peer.value), hash, now).table);
      }
    }
  }

  /** What was noted about a peer just before it is replaced does not matter. */
  lemma ReplaceJudged(e: Env, t: Table, id: H512, p: PeerData)
    requires TableOk(e.keccak, e.local, t) && Find(e.keccak, e.local, t, id).Some? && Id(p) == id
    ensures |t| == NUMBER_OF_BUCKETS
    ensures ReplacePeer(e.keccak, e.local, SetPeer(e.keccak, e.local, t, id, p), id) == ReplacePeer(e.keccak, e.local, t, id)
  {
    hide BucketOk, BucketNumber, IndexOf;
    var h := Home(e.keccak, e.local, id);
    var i := IndexOf(t[h].peers, id).value;
    var b := t[h].(peers := t[h].peers[i := p]);
    FirstIndex(b.peers, id, i);
    assert b.peers[..i] == t[h].peers[..i] && b.peers[i + 1..] == t[h].peers[i + 1..];
    assert Replaced(b, id).bucket == Replaced(t[h], id).bucket by {
      if b.replacements != [] {
        assert b.peers[i := b.replacements[|b.replacements| - 1]] == t[h].peers[i := b.replacements[|b.replacements| - 1]];
      }
    }
    assert t[h := b][h := Replaced(b, id).bucket] == t[h := Replaced(t[h], id).bucket];
  }

  lemma JudgedKeeps(log: seq<Event>, next: nat, p: PeerData)
    requires PeerOk(log, next, p)
    ensures Judged(p).liveness != 0 ==> PeerOk(log, next, Judged(p))
    ensures Id(Judged(p)) == Id(p)
    ensures Judged(p).findNodeRequest == p.findNodeRequest
  {
  }

  lemma OthersStay(t: Table, t2: Table, id: H512, r: Revalidation)
    requires r.Checking? && id !in r.pinged && RevalidationOk(r, t)
    requires forall q | q in Peers(t) && Id(q) != id :: q in Peers(t2)
    ensures RevalidationOk(r, t2)
  {
    hide Peers;
    forall x | x in r.pinged
      ensures Present(t2, x)
    {
      assert Present(t, x);
      var p :| p in Peers(t) && Id(p) == x;
      assert p in Peers(t2);
    }
  }

  lemma OthersPresent(t: Table, t2: Table, id: H512)
    requires forall q | q in Peers(t) && Id(q) != id :: q in Peers(t2)
    ensures forall x: H512 | Present(t, x) && x != id :: Present(t2, x)
  {
    hide Peers;
    forall x: H512 | Present(t, x) && x != id
      ensures Present(t2, x)
    {
      var p :| p in Peers(t) && Id(p) == x;
      assert p in Peers(t2);
    }
  }

  lemma SelectKeeps(e: Env, s: State, s2: State)
    requires Inv(e, s) && |s.table| == NUMBER_OF_BUCKETS
    requires s2.revalidation.Pinging? && s2.revalidation.pinged == {} && Chosen(s.table, s2.revalidation.peers)
    requires s2 == s.(revalidation := s2.revalidation)
    ensures Inv(e, s2)
  {
    hide TableInv, LogOk, ServerOk, Peers, Scan;
    var ps := s2.revalidation.peers;
    var dropped :| Kept(ps, dropped, Scan(s.table), 3);
    forall p | p in ps
      ensures Present(s.table, Id(p))
    {
      assert p in multiset(ps);
      assert p in multiset(Scan(s.table));
      ScanMembers(s.table, p);
      ScannedIsPresent(s.table, p);
    }
  }

  lemma ScannedIsPresent(t: Table, p: PeerData)
    requires exists b: nat | b < |t| :: p in t[b].peers
    ensures Present(t, Id(p))
  {
    assert p in Peers(t);
  }

  lemma RevalidateKeeps(e: Env, s: State, now: int, hash: Option<H256>)
    requires Inv(e, s) && s.revalidation.Pinging? && |s.table| == NUMBER_OF_BUCKETS
    ensures Inv(e, RevalidateNext(e, s, now, hash))
    ensures KeepsIds(s.table, RevalidateNext(e, s, now, hash).table)
  {
    MoreKeepsIds(s.table, s.table);
    hide TableInv, LogOk, ServerOk, Proved, Total, Find, SetPeer, Present;
    var r := s.revalidation;
    if r.peers != [] {
      var id := Id(r.peers[0]);
      assert r.peers[0] in r.peers;
      TableInvSize(e, s.table, s.log, s.nextChannel);
      FindIsPresent(e, s.table, id);
      FindIsOk(e, s.table, s.log, s.nextChannel, id);
      var p := Find(e.keccak, e.local, s.table, id).value;
      var p2 := p.(lastPingHash := hash, lastPing := Unix(now), revalidation := Some(false));
      var r2 := Pinging(r.peers[1..], r.pinged + {id});
      assert RevalidationOk(r2, s.table);
      SetKeepsIds(e, s.table, id, p2);
      KeptIdsKeepRevalidation(r2, s.table, SetPeer(e.keccak, e.local, s.table, id, p2));
      if hash.Some? {
        var ev := Recorded(id, hash.value);
        TableGrows(e, s.table, s.log, ev, s.nextChannel);
        LogGrows(s.log, ev, s.nextChannel);
        ServerGrows(s.server, s.log, ev);
        PeerOkGrows(s.log, ev, s.nextChannel, p);
        TableSet(e, s.table, s.log + [ev], s.nextChannel, s.nextChannel, id, p2);
      } else {
        TableSet(e, s.table, s.log, s.nextChannel, s.nextChannel, id, p2);
      }
    }
  }

  /** Revalidation looks at the peer and finds that no liveness is left. */
  ghost predicate Evicts(e: Env, s: State, step: Step, id: H512)
    requires |s.table| == NUMBER_OF_BUCKETS
  {
    && step.Check? && step.id == id
    && var p := Find(e.keccak, e.local, s.table, id);
       p.Some? && Judged(p.value).liveness == 0
  }

  lemma NextKeeps(e: Env, s: State, step: Step, s2: State)
    requires Inv(e, s) && |s.table| == NUMBER_OF_BUCKETS && Next(e, s, step, s2)
    ensures Inv(e, s2)
    ensures forall id: H512 | Present(s.table, id) && !Present(s2.table, id) :: Evicts(e, s, step, id)
  {
    hide Judged, Present, TableInv, LogOk, ServerOk, OnMessage, ServeNext, BootNext, CheckNext, RevalidateNext, QueryNext, Chosen;
    match step
    case Receive(from, msg, now, pings) => MessageKeeps(e, s, from, msg, now, pings);
    case Serve(now, hash) => ServeKeeps(e, s, now, hash);
    case Boot(now, hash) => BootKeeps(e, s, now, hash);
    case Tick =>
    case Check(id, now, hash) => CheckKeeps(e, s, id, now, hash);
    case Select => SelectKeeps(e, s, s2);
    case Revalidate(now, hash) => RevalidateKeeps(e, s, now, hash);
    case Query(id, now) => QueryKeeps(e, s, id, now);
  }

  lemma InitOk(e: Env, s: State, bootnodes: seq<Node>)
    requires Init(s, bootnodes)
    ensures Inv(e, s)
  {
    hide TableOk, EmptyTable, Peers, Replacements;
    EmptyTableOk(e.keccak, e.local);
  }

  /** Main law: every state of every run keeps the invariant. */
  lemma {:induction false} RunKeeps(e: Env, bootnodes: seq<Node>, states: seq<State>, steps: seq<Step>, i: nat)
    requires Run(e, bootnodes, states, steps) && i < |states|
    ensures Inv(e, states[i])
  {
    hide Inv, Next, Init;
    if i == 0 {
      InitOk(e, states[0], bootnodes);
    } else {
      RunKeeps(e, bootnodes, states, steps, i - 1);
      assert Next(e, states[i - 1], steps[i - 1], states[i - 1 + 1]);
      NextKeeps(e, states[i - 1], steps[i - 1], states[i]);
    }
  }

  /**
    * What the protocol promises in every reachable state: proven peers have an endpoint proof in the log, every neighbors
    * message went to a peer that had one before, no request accepted more than sixteen nodes.
    */
  lemma EndpointProof(e: Env, bootnodes: seq<Node>, states: seq<State>, steps: seq<Step>, i: nat)
    requires Run(e, bootnodes, states, steps) && i < |states|
    ensures forall p | p in Peers(states[i].table) && p.isProven :: Proved(states[i].log, Id(p))
    ensures forall j | 0 <= j < |states[i].log| && states[i].log[j].NeighborsSent? ::
              Proved(states[i].log[..j], states[i].log[j].to.nodeId)
    ensures forall c :: Total(states[i].log, c) <= 16
  {
    hide Run, Peers, Proved, Total, TableOk;
    RunKeeps(e, bootnodes, states, steps, i);
  }

  /** In every reachable state the buckets are in order, and looking an id up agrees with scanning the whole table. */
  lemma BucketsAlwaysOk(e: Env, bootnodes: seq<Node>, states: seq<State>, steps: seq<Step>, i: nat, id: H512)
    requires Run(e, bootnodes, states, steps) && i < |states|
    ensures TableOk(e.keccak, e.local, states[i].table)
    ensures Find(e.keccak, e.local, states[i].table, id).Some? <==> Present(states[i].table, id)
  {
    hide Run, LogOk, Peers, BucketOk, Find, Present;
    RunKeeps(e, bootnodes, states, steps, i);
    FindIsPresent(e, states[i].table, id);
  }

  /** The `unwrap` on a previously pinged peer never fails; looking at it panics only when its liveness overflows. */
  lemma UnwrapNeverFails(
    e: Env, bootnodes: seq<Node>, states: seq<State>, steps: seq<Step>, i: nat, id: H512, now: int, hash: Option<H256>)
    requires Run(e, bootnodes, states, steps) && i < |states|
    requires states[i].revalidation.Checking? && id in states[i].revalidation.pinged
    ensures |states[i].table| == NUMBER_OF_BUCKETS && Find(e.keccak, e.local, states[i].table, id).Some?
    ensures CheckNext(e, states[i], id, now, hash).None? <==>
            LivenessOverflows(Find(e.keccak, e.local, states[i].table, id).value)
  {
    hide Run, TableInv, LogOk, CheckNext;
    RunKeeps(e, bootnodes, states, steps, i);
    TableInvSize(e, states[i].table, states[i].log, states[i].nextChannel);
    CheckKeeps(e, states[i], id, now, hash);
  }

  /**
    * A peer leaves the table only in revalidation, and only when it was last pinged without an answer and had a liveness
    * below three.
    */
  lemma OnlyRevalidationEvicts(
    e: Env, bootnodes: seq<Node>, states: seq<State>, steps: seq<Step>, i: nat, id: H512)
    requires Run(e, bootnodes, states, steps) && i < |steps|
    requires Present(states[i].table, id) && !Present(states[i + 1].table, id)
    ensures |states[i].table| == NUMBER_OF_BUCKETS && Evicts(e, states[i], steps[i], id)
    ensures var p := Find(e.keccak, e.local, states[i].table, id).value;
            p.revalidation == Some(false) && 1 <= p.liveness < 3
  {
    hide Inv, Next, Present, Find;
    RunKeeps(e, bootnodes, states, steps, i);
    NextKeeps(e, states[i], steps[i], states[i + 1]);
    assert Evicts(e, states[i], steps[i], id);
    LastLife(e, states[i], id);
  }

  lemma LastLife(e: Env, s: State, id: H512)
    requires Inv(e, s) && |s.table| == NUMBER_OF_BUCKETS && Find(e.keccak, e.local, s.table, id).Some?
    requires Judged(Find(e.keccak, e.local, s.table, id).value).liveness == 0
    ensures var p := Find(e.keccak, e.local, s.table, id).value; p.revalidation == Some(false) && 1 <= p.liveness < 3
  {
    hide TableInv, LogOk, ServerOk, Find, Proved;
    FindIsOk(e, s.table, s.log, s.nextChannel, id);
    var p := Find(e.keccak, e.local, s.table, id).value;
    if p.revalidation.Some? {
      assert p.revalidation == if p.revalidation.value then Some(true) else Some(false);
    }
  }
}
