/**
  * The recursive lookup (`crates/net/net.rs`): rounds of at most three queries over a list of at most sixteen candidates.
  * Which peers can be queried and what they answer is arbitrary.
  */
module Lookup {
  import opened Prelude
  import opened Kademlia

  const ALPHA: nat := 3

  function NodeDistance(keccak: H512 -> H256, target: H512): Node -> nat {
    (n: Node) => BucketNumber(keccak, target, n.nodeId)
  }

  predicate DistinctIds(ns: seq<Node>) {
    forall i, j | 0 <= i < j < |ns| :: ns[i].nodeId != ns[j].nodeId
  }

  function IdsOf(ns: seq<Node>): (r: set<H512>)
    ensures forall n | n in ns :: n.nodeId in r
  {
    set n | n in ns :: n.nodeId
  }

  /** The ids seen so far are the local one and those of the nodes offered. */
  ghost predicate SeenOk(seen: set<H512>, offered: multiset<Node>, local: H512) {
    forall x :: x in seen <==> x == local || exists n | n in offered :: n.nodeId == x
  }

  lemma SeenStart(ns: seq<Node>, local: H512)
    ensures SeenOk(IdsOf(ns) + {local}, multiset(ns), local)
  {
    forall x
      ensures x in IdsOf(ns) + {local} <==> x == local || exists n | n in multiset(ns) :: n.nodeId == x
    {
      if x in IdsOf(ns) {
        var n :| n in ns && n.nodeId == x;
        assert n in multiset(ns);
      }
    }
  }

  lemma SeenAdd(seen: set<H512>, offered: multiset<Node>, local: H512, node: Node)
    requires SeenOk(seen, offered, local)
    ensures SeenOk(seen + {node.nodeId}, offered + multiset{node}, local)
  {
    forall x
      ensures x in seen + {node.nodeId} <==> x == local || exists n | n in offered + multiset{node} :: n.nodeId == x
    {
      if x == node.nodeId {
        assert node in offered + multiset{node};
      } else if x in seen && x != local {
        var n :| n in offered && n.nodeId == x;
        assert n in offered + multiset{node};
      }
    }
  }

  /** The nodes that the candidates with these indices send, in order. */
  function Sent(answer: nat -> Option<seq<Node>>, asked: seq<nat>): (r: seq<Node>)
  {
    if asked == [] then []
    else
      var k := |asked| - 1;
      Sent(answer, asked[..k]) + (if answer(asked[k]).Some? then answer(asked[k]).value else [])
  }

  lemma SentAdd(answer: nat -> Option<seq<Node>>, asked: seq<nat>, i: nat)
    requires answer(i).Some?
    ensures Sent(answer, asked + [i]) == Sent(answer, asked) + answer(i).value
  {
    assert (asked + [i])[..|asked|] == asked;
  }

  lemma {:induction false} SentFrom(answer: nat -> Option<seq<Node>>, asked: seq<nat>, n: Node)
    requires n in Sent(answer, asked)
    ensures exists i | i in asked && answer(i).Some? :: n in answer(i).value
  {
    var k := |asked| - 1;
    if n in Sent(answer, asked[..k]) {
      SentFrom(answer, asked[..k], n);
      var i :| i in asked[..k] && answer(i).Some? && n in answer(i).value;
      assert i in asked;
    } else {
      assert asked[k] in asked;
    }
  }

  /**
    * The candidates a round asks: in order, each available and not asked before, and up to the last of them, or up to the
    * end if they are fewer than three, all others unavailable or asked before.
    */
  ghost predicate AskedInOrder(
    peers: seq<Node>, before: set<H512>, answer: nat -> Option<seq<Node>>, asked: seq<nat>, upto: nat)
    requires upto <= |peers|
  {
    && (forall i, j | 0 <= i < j < |asked| :: asked[i] < asked[j])
    && (forall i | i in asked :: i < upto && answer(i).Some? && peers[i].nodeId !in before)
    && (forall i | 0 <= i < upto && i !in asked :: answer(i).None? || peers[i].nodeId in before)
  }

  lemma AskOne(
    peers: seq<Node>, before: set<H512>, answer: nat -> Option<seq<Node>>, asked: seq<nat>, i: nat)
    requires i < |peers| && AskedInOrder(peers, before, answer, asked, i)
    requires answer(i).Some? && peers[i].nodeId !in before
    ensures AskedInOrder(peers, before, answer, asked + [i], i + 1)
  {
    assert forall j | 0 <= j < |asked| :: asked[j] in asked;
    assert forall x: nat :: x in asked + [i] <==> x in asked || x == i;
  }

  lemma NobodyAsked(peers: seq<Node>, before: set<H512>, answer: nat -> Option<seq<Node>>)
    ensures AskedInOrder(peers, before, answer, [], 0) && Sent(answer, []) == []
  {
  }

  lemma NotAgain(
    peers: seq<Node>, before: set<H512>, answer: nat -> Option<seq<Node>>, asked: seq<nat>, i: nat)
    requires i < |peers| && DistinctIds(peers) && AskedInOrder(peers, before, answer, asked, i)
    ensures forall k | k in asked :: k < |peers|
    ensures peers[i].nodeId !in IdsAt(peers, asked)
    ensures answer(i).None? || peers[i].nodeId in before ==> AskedInOrder(peers, before, answer, asked, i + 1)
  {
    assert forall k | k in asked :: peers[k].nodeId != peers[i].nodeId;
  }

  function IdsAt(peers: seq<Node>, asked: seq<nat>): (r: seq<H512>)
    requires forall i | i in asked :: i < |peers|
    ensures |r| == |asked|
    ensures forall x | x in r :: exists i | i in asked :: peers[i].nodeId == x
  {
    if asked == [] then []
    else
      var k := |asked| - 1;
      assert asked == asked[..k] + [asked[k]];
      assert asked[k] in asked;
      assert forall i | i in asked[..k] :: i in asked;
      IdsAt(peers, asked[..k]) + [peers[asked[k]].nodeId]
  }

  lemma IdsAtAdd(peers: seq<Node>, asked: seq<nat>, i: nat)
    requires i < |peers| && forall k | k in asked :: k < |peers|
    ensures forall k | k in asked + [i] :: k < |peers|
    ensures IdsAt(peers, asked + [i]) == IdsAt(peers, asked) + [peers[i].nodeId]
  {
    assert (asked + [i])[..|asked|] == asked;
  }

  lemma DistinctAdd(ns: seq<Node>, node: Node)
    requires DistinctIds(ns) && node.nodeId !in IdsOf(ns)
    ensures DistinctIds(ns + [node]) && IdsOf(ns + [node]) <= IdsOf(ns) + {node.nodeId}
  {
    assert forall i | 0 <= i < |ns| :: ns[i] in ns;
  }

  lemma DistinctSwap(ns: seq<Node>, i: nat, node: Node)
    requires DistinctIds(ns) && node.nodeId !in IdsOf(ns) && i < |ns|
    ensures DistinctIds(ns[i := node]) && IdsOf(ns[i := node]) <= IdsOf(ns) + {node.nodeId}
    ensures forall n | n in ns[i := node] :: n == node || n in ns
  {
    assert forall j | 0 <= j < |ns| :: ns[j] in ns;
  }

  /** No id is queried twice, and the ids asked are those queried. */
  ghost predicate AskedOk(asked: set<H512>, queried: seq<H512>) {
    && (forall i, j | 0 <= i < j < |queried| :: queried[i] != queried[j])
    && (forall x :: x in asked <==> x in queried)
  }

  lemma AskedAdd(asked: set<H512>, queried: seq<H512>, id: H512)
    requires AskedOk(asked, queried) && id !in asked
    ensures AskedOk(asked + {id}, queried + [id])
  {
    assert forall i | 0 <= i < |queried| :: queried[i] in queried;
  }

  /** Among the candidates not looked at yet, those asked in this round do not occur. */
  lemma NotInRound(
    peers: seq<Node>, before: set<H512>, queried: seq<H512>, answer: nat -> Option<seq<Node>>, asked: seq<nat>,
    now: set<H512>, i: nat)
    requires i < |peers| && DistinctIds(peers) && AskedInOrder(peers, before, answer, asked, i)
    requires forall k | k in asked :: k < |peers|
    requires AskedOk(before, queried) && AskedOk(now, queried + IdsAt(peers, asked))
    ensures peers[i].nodeId in now <==> peers[i].nodeId in before
    ensures answer(i).None? || peers[i].nodeId in before ==> AskedInOrder(peers, before, answer, asked, i + 1)
  {
    hide AskedInOrder;
    NotAgain(peers, before, answer, asked, i);
  }

  /** A round stops at its third query, or has looked at all candidates. */
  ghost predicate RoundDone(peers: seq<Node>, before: set<H512>, answer: nat -> Option<seq<Node>>, asked: seq<nat>) {
    exists upto | 0 <= upto <= |peers| ::
      AskedInOrder(peers, before, answer, asked, upto) && (|asked| < 3 ==> upto == |peers|)
  }

  /** A round: the candidates, the ids asked before it, and the indices of those it asked. */
  datatype Trace = Trace(peers: seq<Node>, before: set<H512>, asked: seq<nat>) {
    predicate WellFormed() {
      |asked| <= 3 && forall i | i in asked :: i < |peers|
    }
  }

  predicate AllFormed(rounds: seq<Trace>) {
    forall t | t in rounds :: t.WellFormed()
  }

  /** The ids asked along the rounds, in order. */
  ghost function AskedAlong(rounds: seq<Trace>): seq<H512>
    requires AllFormed(rounds)
  {
    if rounds == [] then []
    else
      var k := |rounds| - 1;
      assert rounds[k].WellFormed();
      AskedAlong(rounds[..k]) + IdsAt(rounds[k].peers, rounds[k].asked)
  }

  lemma AskedAlongAdd(rounds: seq<Trace>, t: Trace)
    requires AllFormed(rounds) && t.WellFormed()
    ensures AllFormed(rounds + [t])
    ensures AskedAlong(rounds + [t]) == AskedAlong(rounds) + IdsAt(t.peers, t.asked)
  {
    assert (rounds + [t])[..|rounds|] == rounds;
  }

  /** Every round asks three candidates, or as many as there are to ask. */
  ghost predicate RoundsOk(answers: nat -> (nat -> Option<seq<Node>>), rounds: seq<Trace>) {
    AllFormed(rounds) &&
    forall r: nat | r < |rounds| :: RoundDone(rounds[r].peers, rounds[r].before, answers(r), rounds[r].asked)
  }

  lemma RoundsAdd(answers: nat -> (nat -> Option<seq<Node>>), rounds: seq<Trace>, t: Trace)
    requires RoundsOk(answers, rounds) && t.WellFormed() && RoundDone(t.peers, t.before, answers(|rounds|), t.asked)
    ensures RoundsOk(answers, rounds + [t])
  {
    hide RoundDone;
  }

  /** Everyone sent was seen; those offered are the ones at the start and ones sent. */
  ghost predicate Gathered(
    answers: nat -> (nat -> Option<seq<Node>>), rounds: seq<Trace>, seen: set<H512>, start: multiset<Node>,
    offered: multiset<Node>)
  {
    && (forall n | SentAlong(answers, rounds, n) :: n.nodeId in seen)
    && offered >= start && forall n | n in offered :: n in start || SentAlong(answers, rounds, n)
  }

  lemma GatheredAdd(
    answers: nat -> (nat -> Option<seq<Node>>), rounds: seq<Trace>, t: Trace, seen: set<H512>, start: multiset<Node>,
    offered: multiset<Node>, seen2: set<H512>, offered2: multiset<Node>)
    requires Gathered(answers, rounds, seen, start, offered) && seen2 >= seen && offered2 >= offered
    requires forall n | n in Sent(answers(|rounds|), t.asked) :: n.nodeId in seen2
    requires forall n | n in offered2 :: n in offered || n in Sent(answers(|rounds|), t.asked)
    ensures Gathered(answers, rounds + [t], seen2, start, offered2)
  {
    hide Sent, SentAlong;
    forall n
      ensures SentAlong(answers, rounds + [t], n) <==>
              SentAlong(answers, rounds, n) || n in Sent(answers(|rounds|), t.asked)
    {
      SentAlongAdd(answers, rounds, t, n);
    }
  }

  /** The node was sent in one of the rounds. */
  ghost predicate SentAlong(answers: nat -> (nat -> Option<seq<Node>>), rounds: seq<Trace>, n: Node) {
    exists r: nat | r < |rounds| :: n in Sent(answers(r), rounds[r].asked)
  }

  lemma SentAlongAdd(answers: nat -> (nat -> Option<seq<Node>>), rounds: seq<Trace>, t: Trace, n: Node)
    ensures SentAlong(answers, rounds + [t], n) <==>
            SentAlong(answers, rounds, n) || n in Sent(answers(|rounds|), t.asked)
  {
    hide Sent;
    var all := rounds + [t];
    if SentAlong(answers, rounds, n) {
      var r: nat :| r < |rounds| && n in Sent(answers(r), rounds[r].asked);
      assert n in Sent(answers(r), all[r].asked);
    }
    if n in Sent(answers(|rounds|), t.asked) {
      assert n in Sent(answers(|rounds|), all[|rounds|].asked);
    }
    if SentAlong(answers, all, n) {
      var r: nat :| r < |all| && n in Sent(answers(r), all[r].asked);
      assert r < |rounds| ==> n in Sent(answers(r), rounds[r].asked);
    }
  }

  /** What a round leaves in a finite set of ids. */
  lemma RoundStays(
    peers: seq<Node>, before: set<H512>, answer: nat -> Option<seq<Node>>, asked: seq<nat>,
    queried: seq<H512>, after: set<H512>, universe: set<H512>)
    requires RoundDone(peers, before, answer, asked) && forall i | i in asked :: i < |peers|
    requires AskedOk(before, queried) && AskedOk(after, queried + IdsAt(peers, asked))
    requires before <= universe && IdsOf(peers) <= universe
    requires forall i | answer(i).Some? :: forall n | n in answer(i).value :: n.nodeId in universe
    ensures before <= after <= universe
    ensures forall n | n in Sent(answer, asked) :: n.nodeId in universe
    ensures asked == [] ==>
              Sent(answer, asked) == [] && forall i | 0 <= i < |peers| :: peers[i].nodeId in before || answer(i).None?
  {
    hide Sent;
    assert forall x | x in IdsAt(peers, asked) :: x in IdsOf(peers);
    forall n | n in Sent(answer, asked)
      ensures n.nodeId in universe
    {
      SentFrom(answer, asked, n);
    }
    if asked == [] {
      NobodyAsked(peers, before, answer);
    }
  }

  class RecursiveLookup {
    const keccak: H512 -> H256
    const target: H512
    const local: H512
    var askedPeers: set<H512>
    var seenPeers: set<H512>
    var peersToAsk: seq<Node>
    /** All nodes offered so far, and those that are no longer candidates. */
    ghost var offered: multiset<Node>
    ghost var dropped: multiset<Node>
    /** The ids queried, in order. */
    ghost var queried: seq<H512>

    ghost predicate Valid()
      reads this
    {
      && |peersToAsk| <= 16
      && DistinctIds(peersToAsk)
      && IdsOf(peersToAsk) <= seenPeers
      && SeenOk(seenPeers, offered, local)
      && Least(peersToAsk, dropped, offered, NodeDistance(keccak, target))
      && (|peersToAsk| < 16 ==> dropped == multiset{})
      && AskedOk(askedPeers, queried)
    }

    /** A lookup starts with the closest nodes of the table. */
    constructor (keccak: H512 -> H256, target: H512, local: H512, closest: seq<Node>)
      requires |closest| <= MAX_NODES_PER_BUCKET && DistinctIds(closest)
      ensures Valid() && this.keccak == keccak && this.target == target && this.local == local
      ensures peersToAsk == closest && askedPeers == {} && queried == []
      ensures seenPeers == IdsOf(closest) + {local}
      ensures offered == multiset(closest) && dropped == multiset{}
    {
      this.keccak := keccak;
      this.target := target;
      this.local := local;
      askedPeers := {};
      seenPeers := IdsOf(closest) + {local};
      peersToAsk := closest;
      offered := multiset(closest);
      dropped := multiset{};
      queried := [];
      SeenStart(closest, local);
    }

    /** `peers_to_ask_push`: the candidates stay the closest of all nodes offered. */
    method Push(node: Node)
      requires Valid() && node.nodeId !in seenPeers
      modifies this
      ensures Valid()
      ensures offered == old(offered) + multiset{node}
      ensures seenPeers == old(seenPeers) + {node.nodeId}
      ensures forall n | n in peersToAsk :: n == node || n in old(peersToAsk)
      ensures askedPeers == old(askedPeers) && queried == old(queried)
    {
      hide BucketNumber, Least, DistinctIds, IdsOf, NodeDistance, SeenOk, AskedOk;
      SeenAdd(seenPeers, offered, local, node);
      seenPeers := seenPeers + {node.nodeId};
      peersToAsk, dropped := PushInto(keccak, target, peersToAsk, node, dropped, offered);
      offered := offered + multiset{node};
    }

    static method PushInto(
      keccak: H512 -> H256, target: H512, peers: seq<Node>, node: Node, ghost gone: multiset<Node>, ghost all: multiset<Node>)
      returns (r: seq<Node>, ghost gone2: multiset<Node>)
      requires |peers| <= MAX_NODES_PER_BUCKET && DistinctIds(peers) && node.nodeId !in IdsOf(peers)
      requires Least(peers, gone, all, NodeDistance(keccak, target))
      requires |peers| < MAX_NODES_PER_BUCKET ==> gone == multiset{}
      ensures |r| <= MAX_NODES_PER_BUCKET && DistinctIds(r) && IdsOf(r) <= IdsOf(peers) + {node.nodeId}
      ensures Least(r, gone2, all + multiset{node}, NodeDistance(keccak, target))
      ensures |r| < MAX_NODES_PER_BUCKET ==> gone2 == multiset{}
      ensures forall n | n in r :: n == node || n in peers
    {
      hide BucketNumber, Least, DistinctIds, IdsOf;
      ghost var key := NodeDistance(keccak, target);
      r, gone2 := peers, gone;
      if |peers| < MAX_NODES_PER_BUCKET {
        LeastPush(peers, all, key, node);
        DistinctAdd(peers, node);
        r := peers + [node];
        return;
      }
      var idx := FarthestBeyond(keccak, target, peers, BucketNumber(keccak, target, node.nodeId));
      if idx.Some? {
        LeastSwap(peers, gone, all, key, node, idx.value);
        DistinctSwap(peers, idx.value, node);
        gone2 := gone + multiset{peers[idx.value]};
        r := peers[idx.value := node];
      } else {
        LeastSkip(peers, gone, all, key, node);
        gone2 := gone + multiset{node};
      }
    }

    /** The farthest candidate, if it is farther than `distance`. */
    static method FarthestBeyond(keccak: H512 -> H256, target: H512, peers: seq<Node>, distance: nat)
      returns (idx: Option<nat>)
      ensures idx.Some? ==> idx.value < |peers|
      ensures idx.Some? ==> distance < BucketNumber(keccak, target, peers[idx.value].nodeId)
      ensures idx.Some? ==> forall n | n in peers ::
                BucketNumber(keccak, target, n.nodeId) <= BucketNumber(keccak, target, peers[idx.value].nodeId)
      ensures idx.None? ==> forall n | n in peers :: BucketNumber(keccak, target, n.nodeId) <= distance
    {
      hide BucketNumber;
      idx := None;
      var highest := 0;
      for i := 0 to |peers|
        invariant idx.None? ==> highest == 0
        invariant idx.None? ==> forall j | 0 <= j < i :: BucketNumber(keccak, target, peers[j].nodeId) <= distance
        invariant idx.Some? ==> idx.value < i && distance < highest
        invariant idx.Some? ==> highest == BucketNumber(keccak, target, peers[idx.value].nodeId)
        invariant idx.Some? ==> forall j | 0 <= j < i :: BucketNumber(keccak, target, peers[j].nodeId) <= highest
      {
        BucketNumberSym(keccak, peers[i].nodeId, target);
        var current := BucketNumber(keccak, peers[i].nodeId, target);
        if distance < current && current >= highest {
          highest := current;
          idx := Some(i);
        }
      }
    }

    /**
      * `lookup`: asks candidates that were not asked yet. `answer(i)` is `None` when candidate `i` is not in the table or
      * has a request open, and otherwise the nodes it sends.
      */
    method Round(answer: nat -> Option<seq<Node>>) returns (nodes: seq<Node>, queries: nat, ghost asked: seq<nat>)
      requires Valid()
      modifies this`askedPeers, this`queried
      ensures Valid()
      ensures queries == |asked| <= 3
      ensures RoundDone(peersToAsk, old(askedPeers), answer, asked)
      ensures forall i | i in asked :: i < |peersToAsk|
      ensures queried == old(queried) + IdsAt(peersToAsk, asked)
      ensures nodes == Sent(answer, asked)
    {
      hide BucketNumber, Least, IdsOf, SeenOk, Sent, AskedInOrder, AskedOk, IdsAt, DistinctIds;
      queries, nodes, asked := 0, [], [];
      ghost var upto := 0;
      NobodyAsked(peersToAsk, askedPeers, answer);
      for i := 0 to |peersToAsk|
        invariant Valid() && upto == i
        invariant queries == |asked| < ALPHA
        invariant AskedInOrder(peersToAsk, old(askedPeers), answer, asked, i)
        invariant forall k | k in asked :: k < i
        invariant queried == old(queried) + IdsAt(peersToAsk, asked)
        invariant nodes == Sent(answer, asked)
      {
        var id := peersToAsk[i].nodeId;
        NotInRound(peersToAsk, old(askedPeers), old(queried), answer, asked, askedPeers, i);
        upto := i + 1;
        if id !in askedPeers {
          var found := answer(i);
          if found.None? {
            continue;
          }
          AskOne(peersToAsk, old(askedPeers), answer, asked, i);
          SentAdd(answer, asked, i);
          IdsAtAdd(peersToAsk, asked, i);
          AskedAdd(askedPeers, queried, id);
          queries := queries + 1;
          askedPeers := askedPeers + {id};
          queried := queried + [id];
          nodes := nodes + found.value;
          asked := asked + [i];
        }
        if queries == ALPHA {
          break;
        }
      }
    }

    /**
      * `recursive_lookup`: rounds until one asks nobody. When all ids come from a finite set, the number of rounds is at
      * most one more than its size. `answers(r)` are the answers of round `r`. Everyone sent along the way has been seen, and
      * those offered, of whom the candidates are the closest, are the ones at the start and ones sent.
      */
    method Go(answers: nat -> (nat -> Option<seq<Node>>), ghost universe: set<H512>)
      returns (rounds: nat, ghost trace: seq<Trace>)
      requires Valid() && askedPeers == {} && queried == []
      requires IdsOf(peersToAsk) <= universe
      requires forall r, i | answers(r)(i).Some? :: forall n | n in answers(r)(i).value :: n.nodeId in universe
      modifies this
      ensures Valid()
      ensures 1 <= rounds <= |universe| + 1
      ensures |trace| == rounds && trace[0].peers == old(peersToAsk)
      ensures RoundsOk(answers, trace) && queried == AskedAlong(trace)
      ensures forall r: nat | r < rounds :: trace[r].asked == [] <==> r == rounds - 1
      ensures Gathered(answers, trace, seenPeers, old(offered), offered)
      ensures forall i | 0 <= i < |peersToAsk| :: peersToAsk[i].nodeId in askedPeers || answers(rounds - 1)(i).None?
    {
      hide BucketNumber, NodeDistance, Least, IdsOf, SeenOk, Sent, RoundDone, AskedOk, IdsAt, DistinctIds;
      hide Gathered, AskedAlong, RoundsOk, AllFormed;
      rounds, trace := 0, [];
      NothingYet(answers, seenPeers, offered);
      while true
        invariant Valid() && askedPeers <= universe && IdsOf(peersToAsk) <= universe
        invariant rounds <= |queried|
        invariant |trace| == rounds && (if rounds == 0 then peersToAsk else trace[0].peers) == old(peersToAsk)
        invariant RoundsOk(answers, trace) && AllFormed(trace) && queried == AskedAlong(trace)
        invariant forall r: nat | r < rounds :: trace[r].asked != []
        invariant Gathered(answers, trace, seenPeers, old(offered), offered)
        decreases |universe| - |queried|
      {
        ghost var before, soFar := askedPeers, queried;
        var nodesFound, queries, asked := Round(answers(rounds));
        RoundStays(peersToAsk, before, answers(rounds), asked, soFar, askedPeers, universe);
        AskedIsQueried(askedPeers, queried);
        Fewer(askedPeers, universe);
        ghost var t, seen, all := Trace(peersToAsk, before, asked), seenPeers, offered;
        PushNew(nodesFound, universe);
        RoundsAdd(answers, trace, t);
        GatheredAdd(answers, trace, t, seen, old(offered), all, seenPeers, offered);
        AskedAlongAdd(trace, t);
        trace := trace + [t];
        rounds := rounds + 1;
        if queries == 0 {
          break;
        }
      }
    }

    /** Offers the nodes that were not seen before. */
    method PushNew(nodes: seq<Node>, ghost universe: set<H512>)
      requires Valid() && IdsOf(peersToAsk) <= universe && forall n | n in nodes :: n.nodeId in universe
      modifies this
      ensures Valid() && IdsOf(peersToAsk) <= universe
      ensures askedPeers == old(askedPeers) && queried == old(queried)
      ensures offered >= old(offered) && forall n | n in offered :: n in old(offered) || n in nodes
      ensures seenPeers >= old(seenPeers) && forall n | n in nodes :: n.nodeId in seenPeers
      ensures nodes == [] ==> peersToAsk == old(peersToAsk)
    {
      hide BucketNumber, Least, SeenOk, AskedOk, DistinctIds, NodeDistance;
      for i := 0 to |nodes|
        invariant Valid() && IdsOf(peersToAsk) <= universe
        invariant askedPeers == old(askedPeers) && queried == old(queried)
        invariant offered >= old(offered) && forall n | n in offered :: n in old(offered) || n in nodes
        invariant seenPeers >= old(seenPeers) && forall n | n in nodes[..i] :: n.nodeId in seenPeers
        invariant i == 0 ==> peersToAsk == old(peersToAsk)
      {
        assert nodes[i] in nodes;
        if nodes[i].nodeId !in seenPeers {
          Push(nodes[i]);
        }
        assert nodes[..i + 1] == nodes[..i] + [nodes[i]];
      }
      assert nodes[..|nodes|] == nodes;
    }
  }

  lemma NothingYet(answers: nat -> (nat -> Option<seq<Node>>), seen: set<H512>, offered: multiset<Node>)
    ensures Gathered(answers, [], seen, offered, offered) && RoundsOk(answers, []) && AskedAlong([]) == []
  {
  }

  lemma {:induction false} AskedIsQueried(asked: set<H512>, queried: seq<H512>)
    requires AskedOk(asked, queried)
    ensures |asked| == |queried|
  {
    if queried == [] {
      assert asked == {};
    } else {
      var k := |queried| - 1;
      var last := queried[k];
      assert last in asked;
      AskedIsQueried(asked - {last}, queried[..k]);
    }
  }
}
