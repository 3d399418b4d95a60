/**
  * What each change of the table brings about, in terms of who can be found in it and who waits as a replacement.
  */
module KademliaEffects {
  import opened Prelude
  import opened BigEndian
  import opened Kademlia
  import NE = NodeEncoder

  // ---------------------------------------------------------------------------------------------
  // Distance
  // ---------------------------------------------------------------------------------------------

  /** `r` is the highest bit in which two numbers differ: above it they agree. */
  predicate HighestDifference(a: nat, b: nat, r: nat) {
    a / Pow2(r + 1) == b / Pow2(r + 1) && a / Pow2(r) != b / Pow2(r)
  }

  /** The bucket of an id is the highest bit in which the hashes, as big-endian numbers, differ; 0 if they are equal. */
  lemma BucketNumberIs(keccak: H512 -> H256, x: H512, y: H512)
    ensures var a, b := FromBE(keccak(x)), FromBE(keccak(y));
            if a == b then keccak(x) == keccak(y) && BucketNumber(keccak, x, y) == 0
            else HighestDifference(a, b, BucketNumber(keccak, x, y))
  {
    hide XorBits, NE.BitLen, FromBE, HighestDifference, FixedBE;
    var s, t := keccak(x), keccak(y);
    XorOfNumbers(s, t);
    assert Xor(s, t) == XorAll(s, t);
    BelowPow2(s);
    BelowPow2(t);
    XorTop(FromBE(s), FromBE(t), 256);
    FixedFrom(s);
    FixedFrom(t);
    NoBits();
  }

  lemma NoBits()
    ensures NE.BitLen(0) == 0
  {
  }

  function XorAll(s: Bytes, t: Bytes): Bytes
    requires |s| == |t|
  {
    seq(|s|, i requires 0 <= i < |s| => XorByte(s[i], t[i]))
  }

  lemma OneQuotient(x: nat, p: nat, q: nat)
    requires p > 0 && q * p <= x < (q + 1) * p
    ensures x / p == q
  {
    var d := x / p;
    assert d * p <= x < (d + 1) * p;
    SmallerProduct(d, q, p);
    SmallerProduct(q, d, p);
  }

  lemma SmallerProduct(a: nat, b: nat, p: nat)
    ensures a < b ==> (a + 1) * p <= b * p
  {
  }

  lemma Halves(a: nat, p: nat)
    requires p > 0
    ensures a / 2 / p == a / (2 * p)
  {
    var q := a / (2 * p);
    assert q * (2 * p) <= a < (q + 1) * (2 * p);
    assert q * p <= a / 2 < (q + 1) * p;
    OneQuotient(a / 2, p, q);
  }

  lemma {:induction false} XorTop(a: nat, b: nat, n: nat)
    requires a < Pow2(n) && b < Pow2(n)
    ensures var z := XorBits(a, b, n);
            && (z == 0 <==> a == b)
            && (a != b ==> NE.BitLen(z) > 0 && HighestDifference(a, b, NE.BitLen(z) - 1))
  {
    if n > 0 {
      var z := XorBits(a, b, n);
      var z' := XorBits(a / 2, b / 2, n - 1);
      XorTop(a / 2, b / 2, n - 1);
      assert z / 2 == z';
      if a / 2 != b / 2 {
        var r := NE.BitLen(z') - 1;
        assert NE.BitLen(z) - 1 == r + 1;
        Halves(a, Pow2(r));
        Halves(b, Pow2(r));
        Halves(a, Pow2(r + 1));
        Halves(b, Pow2(r + 1));
      } else if a != b {
        assert z == 1 && NE.BitLen(1) == 1;
        assert Pow2(0) == 1 && Pow2(1) == 2;
      }
    }
  }

  /** The low bits of an exclusive or come from the low bits, the high bits from the high bits. */
  lemma {:induction false} XorJoin(s: nat, t: nat, x: nat, y: nat, n: nat, k: nat)
    requires x < Pow2(k) && y < Pow2(k)
    ensures XorBits(Pow2(k) * s + x, Pow2(k) * t + y, n + k) == Pow2(k) * XorBits(s, t, n) + XorBits(x, y, k)
    decreases k
  {
    hide XorBits;
    if k == 0 {
      XorNone(x, y);
    } else {
      var p := Pow2(k - 1);
      EvenPart(x, p, s);
      EvenPart(y, p, t);
      XorJoin(s, t, x / 2, y / 2, n, k - 1);
      XorStep(2 * p * s + x, 2 * p * t + y, n + k);
      XorStep(x, y, k);
      Doubled(p, XorBits(s, t, n));
    }
  }

  lemma XorNone(x: nat, y: nat)
    ensures XorBits(x, y, 0) == 0
  {
  }

  lemma XorStep(a: nat, b: nat, n: nat)
    requires n > 0
    ensures XorBits(a, b, n) == 2 * XorBits(a / 2, b / 2, n - 1) + if a % 2 == b % 2 then 0 else 1
  {
  }

  lemma EvenPart(a: nat, p: nat, s: nat)
    ensures (2 * p * s + a) / 2 == p * s + a / 2 && (2 * p * s + a) % 2 == a % 2
  {
    Doubled(p, s);
    var q := p * s;
    assert (2 * q + a) / 2 == q + a / 2;
  }

  lemma Doubled(p: nat, s: nat)
    ensures 2 * p * s == 2 * (p * s)
  {
  }

  lemma EightBits()
    ensures Pow2(8) == 256
  {
    assert Pow2(4) == 16;
  }

  lemma {:induction false} XorOfNumbers(s: Bytes, t: Bytes)
    requires |s| == |t|
    ensures FromBE(XorAll(s, t)) == XorBits(FromBE(s), FromBE(t), 8 * |s|)
  {
    hide XorBits, Pow2;
    if s == [] {
      XorNone(0, 0);
    } else {
      var n := |s| - 1;
      XorOfNumbers(s[..n], t[..n]);
      assert XorAll(s, t)[..n] == XorAll(s[..n], t[..n]);
      EightBits();
      XorJoin(FromBE(s[..n]), FromBE(t[..n]), s[n], t[n], 8 * n, 8);
    }
  }

  lemma {:induction false} BelowPow2(s: Bytes)
    ensures FromBE(s) < Pow2(8 * |s|)
  {
    if s != [] {
      BelowPow2(s[..|s| - 1]);
      PowSplit(8 * (|s| - 1), 8);
      EightBits();
    }
  }

  lemma {:induction false} PowSplit(n: nat, k: nat)
    ensures Pow2(n + k) == Pow2(n) * Pow2(k)
    decreases k
  {
    if k > 0 {
      PowSplit(n, k - 1);
    }
  }

  // ---------------------------------------------------------------------------------------------
  // One bucket
  // ---------------------------------------------------------------------------------------------

  ghost predicate Lists(b: Bucket, id: H512) {
    exists p | p in b.peers + b.replacements :: Id(p) == id
  }

  lemma ListsIndex(b: Bucket, id: H512)
    ensures Lists(b, id) <==> IndexOf(b.peers, id).Some? || IndexOf(b.replacements, id).Some?
  {
    var all := b.peers + b.replacements;
    var i, k := IndexOf(b.peers, id), IndexOf(b.replacements, id);
    if i.Some? {
      assert b.peers[i.value] in all;
    }
    if k.Some? {
      assert b.replacements[k.value] in all;
    }
    if p :| p in all && Id(p) == id {
      assert p in b.peers || p in b.replacements;
    }
  }

  /**
    * A node that is listed changes nothing. Another becomes a peer while there are fewer than 16, and otherwise the latest of
    * at most ten replacements, the oldest of which makes room.
    */
  lemma InsertedEffect(b: Bucket, node: Node, now: nat)
    requires |b.peers| <= 16 && |b.replacements| <= 10
    ensures var r := Inserted(b, node, now);
            && Lists(r.bucket, node.nodeId)
            && (Lists(b, node.nodeId) ==> r == Insertion(b, None, false))
            && (!Lists(b, node.nodeId) ==> r.peer == Some(NewPeer(node, now)))
            && (!Lists(b, node.nodeId) && |b.peers| < 16 ==>
                  r.inserted && r.bucket == Bucket(b.peers + [NewPeer(node, now)], b.replacements))
            && (!Lists(b, node.nodeId) && |b.peers| == 16 ==>
                  && !r.inserted && r.bucket.peers == b.peers && r.bucket.replacements != []
                  && r.bucket.replacements[|r.bucket.replacements| - 1] == NewPeer(node, now)
                  && r.bucket.replacements[..|r.bucket.replacements| - 1] ==
                     if |b.replacements| == 10 then b.replacements[1..] else b.replacements)
  {
    ListsIndex(b, node.nodeId);
    var r := Inserted(b, node, now);
    var peer := NewPeer(node, now);
    if r.peer.Some? {
      assert Id(peer) == node.nodeId;
      assert peer in r.bucket.peers + r.bucket.replacements;
    }
  }

  /** The list is full, and its latest replacement is one of `ids`. */
  ghost predicate FullBy(b: Bucket, ids: set<H512>) {
    |b.peers| == 16 && |b.replacements| == 10 && Id(b.replacements[9]) in ids
  }

  /** Nobody is displaced by an insertion except from a full list. */
  lemma InsertedKeeps(b: Bucket, node: Node, now: nat, id: H512, ids: set<H512>)
    requires |b.peers| <= 16 && |b.replacements| <= 10
    requires Lists(b, id) || FullBy(b, ids)
    ensures var b2 := Inserted(b, node, now).bucket; Lists(b2, id) || FullBy(b2, ids + {node.nodeId})
  {
    InsertedEffect(b, node, now);
    var b2 := Inserted(b, node, now).bucket;
    if Lists(b, id) {
      var p :| p in b.peers + b.replacements && Id(p) == id;
      if p in b.peers {
        assert p in b2.peers;
        assert p in b2.peers + b2.replacements;
      } else if !Lists(b, node.nodeId) && |b.peers| == 16 {
        StaysReplacement(b, b2, p);
      } else {
        assert p in b2.peers + b2.replacements;
      }
    }
  }

  lemma StaysReplacement(b: Bucket, b2: Bucket, p: PeerData)
    requires p in b.replacements && b2.replacements != [] && |b.replacements| <= 10
    requires b2.replacements[..|b2.replacements| - 1] ==
             if |b.replacements| == 10 then b.replacements[1..] else b.replacements
    ensures p in b2.peers + b2.replacements || |b2.replacements| == 10
  {
    if |b.replacements| < 10 {
      assert p in b2.replacements[..|b2.replacements| - 1];
      assert p in b2.peers + b2.replacements;
    }
  }

  // ---------------------------------------------------------------------------------------------
  // The table
  // ---------------------------------------------------------------------------------------------

  /** Found by a full scan, found by a lookup. */
  lemma FindIff(keccak: H512 -> H256, local: H512, t: Table, id: H512, p: PeerData)
    requires TableOk(keccak, local, t)
    ensures Find(keccak, local, t, id) == Some(p) <==> p in Peers(t) && Id(p) == id
  {
    hide BucketOk, Peers, Find;
    FindIsScan(keccak, local, t, id);
  }

  /** The id is among the peers or the replacements of its bucket. */
  ghost predicate Known(keccak: H512 -> H256, local: H512, t: Table, id: H512)
    requires |t| == NUMBER_OF_BUCKETS
  {
    Lists(t[Home(keccak, local, id)], id)
  }

  lemma FoundIsKnown(keccak: H512 -> H256, local: H512, t: Table, id: H512)
    requires |t| == NUMBER_OF_BUCKETS && Find(keccak, local, t, id).Some?
    ensures Known(keccak, local, t, id)
  {
    hide Home;
    ListsIndex(t[Home(keccak, local, id)], id);
  }

  lemma SetFound(keccak: H512 -> H256, local: H512, t: Table, id: H512, p: PeerData)
    requires TableOk(keccak, local, t) && Find(keccak, local, t, id).Some? && Id(p) == id
    ensures var t2 := SetPeer(keccak, local, t, id, p);
            && TableOk(keccak, local, t2) && Find(keccak, local, t2, id) == Some(p)
            && forall x | x != id :: Find(keccak, local, t2, x) == Find(keccak, local, t, x)
  {
    hide BucketOk, Peers, Find, SetPeer;
    SetPeerOk(keccak, local, t, id, p);
    var t2 := SetPeer(keccak, local, t, id, p);
    FindIff(keccak, local, t2, id, p);
    var was := Find(keccak, local, t, id).value;
    FindIff(keccak, local, t, id, was);
    forall x | x != id
      ensures Find(keccak, local, t2, x) == Find(keccak, local, t, x)
    {
      SameFound(keccak, local, t, t2, x);
    }
  }

  lemma SameFound(keccak: H512 -> H256, local: H512, t: Table, t2: Table, id: H512)
    requires TableOk(keccak, local, t) && TableOk(keccak, local, t2)
    requires forall p | Id(p) == id :: p in Peers(t) <==> p in Peers(t2)
    ensures Find(keccak, local, t2, id) == Find(keccak, local, t, id)
  {
    hide BucketOk, Peers, Find;
    var f, g := Find(keccak, local, t, id), Find(keccak, local, t2, id);
    if f.Some? {
      FindIff(keccak, local, t, id, f.value);
      FindIff(keccak, local, t2, id, f.value);
    }
    if g.Some? {
      FindIff(keccak, local, t, id, g.value);
      FindIff(keccak, local, t2, id, g.value);
    }
  }

  /** An overwritten entry changes nobody's place. */
  lemma SetLists(keccak: H512 -> H256, local: H512, t: Table, id: H512, p: PeerData, h: nat, x: H512, ids: set<H512>)
    requires |t| == NUMBER_OF_BUCKETS && Find(keccak, local, t, id).Some? && Id(p) == id && h < |t|
    ensures var t2 := SetPeer(keccak, local, t, id, p);
            && |t2| == |t| && |t2[h].peers| == |t[h].peers|
            && (Lists(t2[h], x) <==> Lists(t[h], x)) && (FullBy(t2[h], ids) <==> FullBy(t[h], ids))
  {
    hide Home;
    var t2 := SetPeer(keccak, local, t, id, p);
    if h == Home(keccak, local, id) {
      var i := IndexOf(t[h].peers, id).value;
      var all, all2 := t[h].peers + t[h].replacements, t2[h].peers + t2[h].replacements;
      assert all2 == all[i := p];
      SameIds(all, i, p, x);
    }
  }

  lemma SameIds(all: seq<PeerData>, i: nat, p: PeerData, x: H512)
    requires i < |all| && Id(all[i]) == Id(p)
    ensures (exists q | q in all[i := p] :: Id(q) == x) <==> (exists q | q in all :: Id(q) == x)
  {
    var all2 := all[i := p];
    if q :| q in all && Id(q) == x {
      var k :| 0 <= k < |all| && all[k] == q;
      assert Id(all2[k]) == x && all2[k] in all2;
    }
    if q :| q in all2 && Id(q) == x {
      var k :| 0 <= k < |all2| && all2[k] == q;
      assert Id(all[k]) == x && all[k] in all;
    }
  }

  /** Inserting: the node is known afterwards, and joins the peers if it is new and its bucket has room. */
  lemma InsertFound(keccak: H512 -> H256, local: H512, t: Table, node: Node, now: nat)
    requires TableOk(keccak, local, t)
    ensures var (t2, peer, joined) := InsertNode(keccak, local, t, node, now);
            && TableOk(keccak, local, t2) && Known(keccak, local, t2, node.nodeId)
            && (joined <==> !Known(keccak, local, t, node.nodeId) && |t[Home(keccak, local, node.nodeId)].peers| < 16)
            && (joined ==> Find(keccak, local, t2, node.nodeId) == Some(NewPeer(node, now)))
            && (!joined ==> Find(keccak, local, t2, node.nodeId) == Find(keccak, local, t, node.nodeId))
            && forall x | x != node.nodeId :: Find(keccak, local, t2, x) == Find(keccak, local, t, x)
  {
    hide BucketNumber, Peers, Find, Inserted, Lists, Distinct;
    InsertNodeOk(keccak, local, t, node, now);
    var h := Home(keccak, local, node.nodeId);
    assert BucketOk(keccak, local, t[h], h);
    InsertedEffect(t[h], node, now);
    var (t2, peer, joined) := InsertNode(keccak, local, t, node, now);
    if joined {
      FindIff(keccak, local, t2, node.nodeId, peer.value);
    } else {
      SameFound(keccak, local, t, t2, node.nodeId);
    }
    forall x | x != node.nodeId
      ensures Find(keccak, local, t2, x) == Find(keccak, local, t, x)
    {
      SameFound(keccak, local, t, t2, x);
    }
  }

  /** Every bucket after an insertion. */
  lemma InsertLists(keccak: H512 -> H256, local: H512, t: Table, node: Node, now: nat, h: nat, x: H512, ids: set<H512>)
    requires TableOk(keccak, local, t) && h < |t|
    ensures var t2 := InsertNode(keccak, local, t, node, now).0;
            && |t2| == |t| && |t2[h].peers| >= |t[h].peers|
            && (Lists(t[h], x) || FullBy(t[h], ids) ==> Lists(t2[h], x) || FullBy(t2[h], ids + {node.nodeId}))
            && (x != node.nodeId && Lists(t2[h], x) ==> Lists(t[h], x))
  {
    hide BucketNumber, Inserted, Distinct;
    assert BucketOk(keccak, local, t[h], h);
    if h == Home(keccak, local, node.nodeId) {
      InsertedEffect(t[h], node, now);
      if Lists(t[h], x) || FullBy(t[h], ids) {
        InsertedKeeps(t[h], node, now, x, ids);
      }
      var b2 := Inserted(t[h], node, now).bucket;
      if x != node.nodeId && Lists(b2, x) {
        NotInvented(t[h], b2, node, now, x);
      }
    }
  }

  lemma NotInvented(b: Bucket, b2: Bucket, node: Node, now: nat, x: H512)
    requires |b.peers| <= 16 && |b.replacements| <= 10 && b2 == Inserted(b, node, now).bucket
    requires x != node.nodeId && Lists(b2, x)
    ensures Lists(b, x)
  {
    var p :| p in b2.peers + b2.replacements && Id(p) == x;
    assert p in b.peers + b.replacements;
  }

  /** Replacing: the peer is gone, and the latest replacement of its bucket, if there is one, takes its place. */
  lemma ReplaceFound(keccak: H512 -> H256, local: H512, t: Table, id: H512)
    requires TableOk(keccak, local, t) && Find(keccak, local, t, id).Some?
    ensures var (t2, peer) := ReplacePeer(keccak, local, t, id);
            var rs := t[Home(keccak, local, id)].replacements;
            && TableOk(keccak, local, t2)
            && peer == (if rs == [] then None else Some(rs[|rs| - 1]))
            && Find(keccak, local, t2, id) == None
            && (peer.Some? ==> Find(keccak, local, t2, Id(peer.value)) == peer)
            && (forall x | x != id && !(peer.Some? && x == Id(peer.value)) ::
                  Find(keccak, local, t2, x) == Find(keccak, local, t, x))
  {
    hide BucketNumber, Peers, Replacements, BucketOk;
    ReplacePeerOk(keccak, local, t, id);
    var h := Home(keccak, local, id);
    var (t2, peer) := ReplacePeer(keccak, local, t, id);
    if peer.Some? {
      FindIff(keccak, local, t2, Id(peer.value), peer.value);
      ReplacementIsOther(keccak, local, t, h, id);
    }
    var f := Find(keccak, local, t2, id);
    if f.Some? {
      FindIff(keccak, local, t2, id, f.value);
    }
    forall x | x != id && !(peer.Some? && x == Id(peer.value))
      ensures Find(keccak, local, t2, x) == Find(keccak, local, t, x)
    {
      SameFound(keccak, local, t, t2, x);
    }
  }

  lemma ReplacementIsOther(keccak: H512 -> H256, local: H512, t: Table, h: nat, id: H512)
    requires TableOk(keccak, local, t) && h < |t| && IndexOf(t[h].peers, id).Some? && t[h].replacements != []
    ensures Id(t[h].replacements[|t[h].replacements| - 1]) != id
  {
    hide BucketNumber;
    assert BucketOk(keccak, local, t[h], h);
    DistinctParts(t[h].peers, t[h].replacements);
    var rs := t[h].replacements;
    assert t[h].peers[IndexOf(t[h].peers, id).value] in t[h].peers && rs[|rs| - 1] in rs;
  }
}
