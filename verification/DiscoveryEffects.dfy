/**
  * What each step of the discovery protocol brings about: whom it adds to the table, whose ping it records, whom it proves,
  * judges, evicts, promotes or asks, and that it leaves everybody else alone.
  */
module DiscoveryEffects {
  import opened Prelude
  import opened Kademlia
  import opened KademliaEffects
  import opened Discovery

  ghost predicate Ok(e: Env, t: Table) {
    TableOk(e.keccak, e.local, t)
  }

  function At(e: Env, t: Table, id: H512): Option<PeerData>
    requires |t| == NUMBER_OF_BUCKETS
  {
    Find(e.keccak, e.local, t, id)
  }

  ghost predicate Knows(e: Env, t: Table, id: H512)
    requires |t| == NUMBER_OF_BUCKETS
  {
    Known(e.keccak, e.local, t, id)
  }

  /** Everybody but `id` is found as before. */
  ghost predicate OthersStay(e: Env, t: Table, t2: Table, id: H512)
    requires |t| == |t2| == NUMBER_OF_BUCKETS
  {
    forall x: H512 | x != id :: At(e, t2, x) == At(e, t, x)
  }

  // ---------------------------------------------------------------------------------------------
  // A recorded ping
  // ---------------------------------------------------------------------------------------------

  function Pinged(p: PeerData, hash: Option<H256>, now: nat): PeerData {
    p.(lastPingHash := hash, lastPing := now)
  }

  lemma RecordEffect(e: Env, s: State, id: H512, hash: Option<H256>, now: int)
    requires Ok(e, s.table)
    ensures var r := Record(e, s, id, hash, now);
            && Ok(e, r.table) && OthersStay(e, s.table, r.table, id)
            && (At(e, s.table, id).None? ==> r == s)
            && (At(e, s.table, id).Some? ==>
                  && At(e, r.table, id) == Some(Pinged(At(e, s.table, id).value, hash, Unix(now)))
                  && (hash.Some? ==> r.log == s.log + [Recorded(id, hash.value)]) && (hash.None? ==> r.log == s.log))
            && r == s.(table := r.table, log := r.log)
  {
    hide BucketOk, Find, SetPeer;
    var known := Find(e.keccak, e.local, s.table, id);
    if known.Some? {
      FoundId(e, s.table, id);
      SetFound(e.keccak, e.local, s.table, id, Pinged(known.value, hash, Unix(now)));
    }
  }

  lemma FoundId(e: Env, t: Table, id: H512)
    requires Ok(e, t) && At(e, t, id).Some?
    ensures Id(At(e, t, id).value) == id
  {
    hide BucketOk, Find, Peers;
    FindIsScan(e.keccak, e.local, t, id);
  }

  lemma RecordLists(e: Env, s: State, id: H512, hash: Option<H256>, now: int, h: nat, x: H512, ids: set<H512>)
    requires Ok(e, s.table) && h < NUMBER_OF_BUCKETS
    ensures var r := Record(e, s, id, hash, now);
            && |r.table| == NUMBER_OF_BUCKETS && |r.table[h].peers| == |s.table[h].peers|
            && (Lists(r.table[h], x) <==> Lists(s.table[h], x)) && (FullBy(r.table[h], ids) <==> FullBy(s.table[h], ids))
  {
    hide BucketOk, Find, SetPeer, Lists, FullBy;
    var known := Find(e.keccak, e.local, s.table, id);
    if known.Some? {
      FoundId(e, s.table, id);
      SetLists(e.keccak, e.local, s.table, id, Pinged(known.value, hash, Unix(now)), h, x, ids);
    }
  }

  // ---------------------------------------------------------------------------------------------
  // Nodes that arrive
  // ---------------------------------------------------------------------------------------------

  /** The state after the first of the nodes. */
  function FirstIn(e: Env, s: State, node: Node, now: int, hash: Option<H256>): State
    requires |s.table| == NUMBER_OF_BUCKETS
  {
    var (t, peer, inserted) := InsertNode(e.keccak, e.local, s.table, node, Unix(now));
    if inserted then Record(e, s.(table := t), node.nodeId, hash, now) else s.(table := t)
  }

  function HashAt(pings: seq<Option<H256>>, i: nat): Option<H256> {
    if i < |pings| then pings[i] else None
  }

  function Rest(pings: seq<Option<H256>>): seq<Option<H256>> {
    if pings == [] then [] else pings[1..]
  }

  lemma InsertAllStep(e: Env, s: State, nodes: seq<Node>, now: int, pings: seq<Option<H256>>)
    requires |s.table| == NUMBER_OF_BUCKETS && nodes != []
    ensures |FirstIn(e, s, nodes[0], now, HashAt(pings, 0)).table| == NUMBER_OF_BUCKETS
    ensures InsertAll(e, s, nodes, now, pings) ==
            InsertAll(e, FirstIn(e, s, nodes[0], now, HashAt(pings, 0)), nodes[1..], now, Rest(pings))
  {
    hide InsertNode;
    InsertLength(e, s.table, nodes[0], Unix(now));
    var t := InsertNode(e.keccak, e.local, s.table, nodes[0], Unix(now)).0;
    RecordLength(e, s.(table := t), nodes[0].nodeId, HashAt(pings, 0), now);
  }

  lemma InsertLength(e: Env, t: Table, node: Node, now: nat)
    requires |t| == NUMBER_OF_BUCKETS
    ensures |InsertNode(e.keccak, e.local, t, node, now).0| == NUMBER_OF_BUCKETS
  {
  }

  /** A node becomes a peer if and only if it is new and there is room, and then its ping is recorded. */
  lemma FirstInEffect(e: Env, s: State, node: Node, now: int, hash: Option<H256>)
    requires Ok(e, s.table)
    ensures var r := FirstIn(e, s, node, now, hash);
            var joined := !Knows(e, s.table, node.nodeId) && |s.table[Home(e.keccak, e.local, node.nodeId)].peers| < 16;
            && Ok(e, r.table) && Knows(e, r.table, node.nodeId) && OthersStay(e, s.table, r.table, node.nodeId)
            && r == s.(table := r.table, log := r.log)
            && (!joined ==> At(e, r.table, node.nodeId) == At(e, s.table, node.nodeId) && r.log == s.log)
            && (joined ==>
                  && At(e, r.table, node.nodeId) == Some(Pinged(NewPeer(node, Unix(now)), hash, Unix(now)))
                  && (hash.Some? ==> r.log == s.log + [Recorded(node.nodeId, hash.value)])
                  && (hash.None? ==> r.log == s.log))
  {
    hide BucketOk, Find, InsertNode, Record, Home;
    InsertFound(e.keccak, e.local, s.table, node, Unix(now));
    var (t, _, joined) := InsertNode(e.keccak, e.local, s.table, node, Unix(now));
    if joined {
      RecordEffect(e, s.(table := t), node.nodeId, hash, now);
      FoundIsKnown(e.keccak, e.local, Record(e, s.(table := t), node.nodeId, hash, now).table, node.nodeId);
    }
  }

  lemma FirstInLists(e: Env, s: State, node: Node, now: int, hash: Option<H256>, h: nat, x: H512, ids: set<H512>)
    requires Ok(e, s.table) && h < NUMBER_OF_BUCKETS
    ensures var r := FirstIn(e, s, node, now, hash);
            && |r.table| == NUMBER_OF_BUCKETS && |r.table[h].peers| >= |s.table[h].peers|
            && (Lists(s.table[h], x) || FullBy(s.table[h], ids) ==>
                  Lists(r.table[h], x) || FullBy(r.table[h], ids + {node.nodeId}))
            && (x != node.nodeId && Lists(r.table[h], x) ==> Lists(s.table[h], x))
  {
    hide BucketOk, InsertNode, Record, Lists, FullBy;
    InsertFound(e.keccak, e.local, s.table, node, Unix(now));
    InsertLists(e.keccak, e.local, s.table, node, Unix(now), h, x, ids);
    var t := InsertNode(e.keccak, e.local, s.table, node, Unix(now)).0;
    RecordLists(e, s.(table := t), node.nodeId, hash, now, h, x, ids + {node.nodeId});
  }

  function Ids(nodes: seq<Node>): set<H512> {
    set n | n in nodes :: n.nodeId
  }

  /** A known id stays known, unless later nodes displace it from a full list. */
  lemma {:induction false} StaysKnown(
    e: Env, s: State, nodes: seq<Node>, now: int, pings: seq<Option<H256>>, id: H512, ids: set<H512>)
    requires Ok(e, s.table)
    requires var b := s.table[Home(e.keccak, e.local, id)]; Lists(b, id) || FullBy(b, ids)
    ensures var b := InsertAll(e, s, nodes, now, pings).table[Home(e.keccak, e.local, id)];
            Lists(b, id) || FullBy(b, ids + Ids(nodes))
    decreases |nodes|
  {
    hide TableOk, FirstIn, Home, Lists, FullBy, InsertAll;
    OkSize(e, s.table);
    var h := Home(e.keccak, e.local, id);
    if nodes == [] {
      assert ids + Ids([]) == ids;
      NoneIn(e, s, now, pings);
    } else {
      var hash := HashAt(pings, 0);
      InsertAllStep(e, s, nodes, now, pings);
      FirstInEffect(e, s, nodes[0], now, hash);
      FirstInLists(e, s, nodes[0], now, hash, h, id, ids);
      StaysKnown(e, FirstIn(e, s, nodes[0], now, hash), nodes[1..], now, Rest(pings), id, ids + {nodes[0].nodeId});
      assert nodes == [nodes[0]] + nodes[1..];
      assert ids + {nodes[0].nodeId} + Ids(nodes[1..]) == ids + Ids(nodes);
    }
  }

  lemma NoneIn(e: Env, s: State, now: int, pings: seq<Option<H256>>)
    requires |s.table| == NUMBER_OF_BUCKETS
    ensures InsertAll(e, s, [], now, pings) == s
  {
  }

  lemma OkSize(e: Env, t: Table)
    requires Ok(e, t)
    ensures |t| == NUMBER_OF_BUCKETS
  {
  }

  /** Everyone sent is known afterwards, unless a later node of the message displaced it from a full list. */
  lemma {:induction false} EveryoneArrives(e: Env, s: State, nodes: seq<Node>, now: int, pings: seq<Option<H256>>, j: nat)
    requires Ok(e, s.table) && j < |nodes|
    ensures var r := InsertAll(e, s, nodes, now, pings);
            || Knows(e, r.table, nodes[j].nodeId)
            || FullBy(r.table[Home(e.keccak, e.local, nodes[j].nodeId)], Ids(nodes[j + 1..]))
    decreases |nodes|
  {
    hide TableOk, FirstIn, Home, Lists, FullBy, InsertAll;
    OkSize(e, s.table);
    var hash := HashAt(pings, 0);
    InsertAllStep(e, s, nodes, now, pings);
    FirstInEffect(e, s, nodes[0], now, hash);
    var s1 := FirstIn(e, s, nodes[0], now, hash);
    if j == 0 {
      StaysKnown(e, s1, nodes[1..], now, Rest(pings), nodes[0].nodeId, {});
      assert {} + Ids(nodes[1..]) == Ids(nodes[1..]);
    } else {
      EveryoneArrives(e, s1, nodes[1..], now, Rest(pings), j - 1);
      assert nodes[1..][j..] == nodes[j + 1..];
    }
  }

  /** Peers that are there are not touched by what arrives, and a full bucket takes nobody else in. */
  lemma {:induction false} PeersUntouched(e: Env, s: State, nodes: seq<Node>, now: int, pings: seq<Option<H256>>, id: H512)
    requires Ok(e, s.table)
    requires At(e, s.table, id).Some? || |s.table[Home(e.keccak, e.local, id)].peers| == 16 || id !in Ids(nodes)
    ensures var r := InsertAll(e, s, nodes, now, pings);
            && Ok(e, r.table) && At(e, r.table, id) == At(e, s.table, id)
            && s.log <= r.log && r == s.(table := r.table, log := r.log)
    decreases |nodes|
  {
    hide TableOk, FirstIn, Home, Find, Known, Lists, InsertAll;
    OkSize(e, s.table);
    if nodes == [] {
      NoneIn(e, s, now, pings);
    } else {
      var hash := HashAt(pings, 0);
      var h := Home(e.keccak, e.local, id);
      InsertAllStep(e, s, nodes, now, pings);
      FirstInEffect(e, s, nodes[0], now, hash);
      FirstInLists(e, s, nodes[0], now, hash, h, id, {});
      var s1 := FirstIn(e, s, nodes[0], now, hash);
      FullAtMost(e, s1.table, h);
      if At(e, s.table, id).Some? {
        FoundIsKnown(e.keccak, e.local, s.table, id);
      }
      assert nodes == [nodes[0]] + nodes[1..];
      PeersUntouched(e, s1, nodes[1..], now, Rest(pings), id);
    }
  }

  lemma FullAtMost(e: Env, t: Table, h: nat)
    requires Ok(e, t) && h < NUMBER_OF_BUCKETS
    ensures |t| == NUMBER_OF_BUCKETS && |t[h].peers| <= 16
  {
    assert BucketOk(e.keccak, e.local, t[h], h);
  }

  /** A node that is new and joined is the peer that was sent, with the hash of its ping, which is recorded. */
  lemma {:induction false} JoinedIsPinged(e: Env, s: State, nodes: seq<Node>, now: int, pings: seq<Option<H256>>, j: nat)
    requires Ok(e, s.table) && j < |nodes| && !Knows(e, s.table, nodes[j].nodeId)
    requires forall k | 0 <= k < j :: nodes[k].nodeId != nodes[j].nodeId
    ensures var r := InsertAll(e, s, nodes, now, pings);
            var f := At(e, r.table, nodes[j].nodeId);
            && (f.Some? ==> f.value == Pinged(NewPeer(nodes[j], Unix(now)), HashAt(pings, j), Unix(now)))
            && (f.Some? && HashAt(pings, j).Some? ==> Recorded(nodes[j].nodeId, HashAt(pings, j).value) in r.log)
            && (f.None? ==> |r.table[Home(e.keccak, e.local, nodes[j].nodeId)].peers| == 16)
    decreases |nodes|
  {
    hide TableOk, FirstIn, Home, Find, Known, InsertAll, Lists;
    OkSize(e, s.table);
    var id := nodes[j].nodeId;
    var hash := HashAt(pings, 0);
    var h := Home(e.keccak, e.local, id);
    InsertAllStep(e, s, nodes, now, pings);
    FirstInEffect(e, s, nodes[0], now, hash);
    FirstInLists(e, s, nodes[0], now, hash, h, id, {});
    var s1 := FirstIn(e, s, nodes[0], now, hash);
    if j == 0 {
      UnknownNotFound(e, s.table, id);
      FullAtMost(e, s.table, h);
      FullAtMost(e, s1.table, h);
      PeersUntouched(e, s1, nodes[1..], now, Rest(pings), id);
      StaysFull(e, s1, nodes[1..], now, Rest(pings), h);
      var r := InsertAll(e, s1, nodes[1..], now, Rest(pings));
      if |s1.log| > |s.log| {
        assert r.log[|s.log|] == s1.log[|s.log|];
      }
    } else {
      KnownElsewhere(e, s.table, s1.table, id);
      JoinedIsPinged(e, s1, nodes[1..], now, Rest(pings), j - 1);
      assert nodes[1..][j - 1] == nodes[j];
      assert HashAt(Rest(pings), j - 1) == HashAt(pings, j);
    }
  }

  lemma UnknownNotFound(e: Env, t: Table, id: H512)
    requires |t| == NUMBER_OF_BUCKETS && !Knows(e, t, id)
    ensures At(e, t, id).None?
  {
    hide Find, Home, Known;
    if At(e, t, id).Some? {
      FoundIsKnown(e.keccak, e.local, t, id);
    }
  }

  lemma KnownElsewhere(e: Env, t: Table, t2: Table, id: H512)
    requires |t| == |t2| == NUMBER_OF_BUCKETS && !Knows(e, t, id)
    requires Lists(t2[Home(e.keccak, e.local, id)], id) ==> Lists(t[Home(e.keccak, e.local, id)], id)
    ensures !Knows(e, t2, id)
  {
    hide Lists, Home;
  }

  lemma {:induction false} StaysFull(e: Env, s: State, nodes: seq<Node>, now: int, pings: seq<Option<H256>>, h: nat)
    requires Ok(e, s.table) && h < NUMBER_OF_BUCKETS
    ensures |InsertAll(e, s, nodes, now, pings).table[h].peers| >= |s.table[h].peers|
    ensures Ok(e, InsertAll(e, s, nodes, now, pings).table)
    ensures |InsertAll(e, s, nodes, now, pings).table[h].peers| <= 16
    decreases |nodes|
  {
    hide TableOk, FirstIn, InsertAll;
    OkSize(e, s.table);
    if nodes == [] {
      NoneIn(e, s, now, pings);
      FullAtMost(e, s.table, h);
    } else {
      var hash := HashAt(pings, 0);
      InsertAllStep(e, s, nodes, now, pings);
      FirstInEffect(e, s, nodes[0], now, hash);
      FirstInLists(e, s, nodes[0], now, hash, h, nodes[0].nodeId, {});
      StaysFull(e, FirstIn(e, s, nodes[0], now, hash), nodes[1..], now, Rest(pings), h);
    }
  }
}
