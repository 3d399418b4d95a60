/**
  * The table of known peers (`crates/net/kademlia.rs`): 256 buckets of peers and replacements, chosen by the distance of
  * node ids. The class is updated in place; each method is proved against a function on the table's value.
  */
module Kademlia {
  import opened Prelude
  import opened BigEndian
  import NE = NodeEncoder

  const MAX_NODES_PER_BUCKET: nat := 16
  const NUMBER_OF_BUCKETS: nat := 256
  const MAX_NUMBER_OF_REPLACEMENTS: nat := 10

  type H256 = s: Bytes | |s| == 32 witness Zeros(32)
  type H512 = s: Bytes | |s| == 64 witness Zeros(64)

  datatype Node = Node(ip: Bytes, udpPort: nat, tcpPort: nat, nodeId: H512)

  /** `channel` names the request: every request is made with a channel of its own. */
  datatype FindNodeRequest = FindNodeRequest(nodesSent: nat, sentAt: nat, channel: nat)

  datatype PeerData = PeerData(
    node: Node, lastPing: nat, lastPong: nat, lastPingHash: Option<H256>, isProven: bool,
    findNodeRequest: Option<FindNodeRequest>, liveness: nat, revalidation: Option<bool>)

  function Id(p: PeerData): H512 {
    p.node.nodeId
  }

  function NewPeer(node: Node, now: nat): PeerData {
    PeerData(node, now, 0, None, false, None, 1, None)
  }

  datatype Bucket = Bucket(peers: seq<PeerData>, replacements: seq<PeerData>)

  // ---------------------------------------------------------------------------------------------
  // Distance
  // ---------------------------------------------------------------------------------------------

  function Pow2(k: nat): (p: nat)
    ensures p >= 1
  {
    if k == 0 then 1 else 2 * Pow2(k - 1)
  }

  /** The exclusive or of the `n` lowest bits. */
  function XorBits(a: nat, b: nat, n: nat): (r: nat)
    ensures r < Pow2(n)
  {
    if n == 0 then 0 else 2 * XorBits(a / 2, b / 2, n - 1) + if a % 2 == b % 2 then 0 else 1
  }

  function XorByte(a: byte, b: byte): byte {
    assert Pow2(8) == 256 by {
      assert Pow2(4) == 16;
    }
    XorBits(a, b, 8)
  }

  function Xor(a: H256, b: H256): (r: H256) {
    seq(32, i requires 0 <= i < 32 => XorByte(a[i], b[i]))
  }

  /** The position of the highest bit in which the hashes of two ids differ, 0 when they are equal. */
  function BucketNumber(keccak: H512 -> H256, a: H512, b: H512): (r: nat)
  {
    var bits := NE.BitLen(FromBE(Xor(keccak(a), keccak(b))));
    if bits == 0 then 0 else bits - 1
  }

  lemma {:induction false} XorBitsSym(a: nat, b: nat, n: nat)
    ensures XorBits(a, b, n) == XorBits(b, a, n)
  {
    if n > 0 {
      XorBitsSym(a / 2, b / 2, n - 1);
    }
  }

  lemma BucketNumberSym(keccak: H512 -> H256, a: H512, b: H512)
    ensures BucketNumber(keccak, a, b) == BucketNumber(keccak, b, a)
  {
    hide XorBits, FromBE, NE.BitLen;
    var x, y := Xor(keccak(a), keccak(b)), Xor(keccak(b), keccak(a));
    forall i | 0 <= i < 32
      ensures x[i] == y[i]
    {
      XorBitsSym(keccak(a)[i], keccak(b)[i], 8);
    }
    assert x == y;
  }

  lemma {:induction false} BitLenBound(n: nat, k: nat)
    requires n < Pow256(k)
    ensures NE.BitLen(n) <= 8 * k
  {
    if n >= 256 {
      NE.BitLenByte(n);
      BitLenBound(n / 256, k - 1);
    } else if n > 0 {
      NE.SmallBitLen(n);
    }
  }

  /** Every id has a bucket. */
  lemma BucketNumberRange(keccak: H512 -> H256, a: H512, b: H512)
    ensures BucketNumber(keccak, a, b) < NUMBER_OF_BUCKETS
  {
    hide FromBE, Xor, NE.BitLen;
    var x := Xor(keccak(a), keccak(b));
    FromBound(x);
    BitLenBound(FromBE(x), 32);
  }

  // ---------------------------------------------------------------------------------------------
  // One bucket
  // ---------------------------------------------------------------------------------------------

  function IndexOf(ps: seq<PeerData>, id: H512): (r: Option<nat>)
    ensures r.Some? ==> r.value < |ps| && Id(ps[r.value]) == id
    ensures r.Some? ==> forall j | 0 <= j < r.value :: Id(ps[j]) != id
    ensures r.None? ==> forall j | 0 <= j < |ps| :: Id(ps[j]) != id
  {
    if ps == [] then None
    else
      var i := IndexOf(ps[..|ps| - 1], id);
      if i.Some? then i else if Id(ps[|ps| - 1]) == id then Some(|ps| - 1) else None
  }

  /** Ids are distinct. */
  predicate Distinct(ps: seq<PeerData>) {
    forall i, j | 0 <= i < j < |ps| :: Id(ps[i]) != Id(ps[j])
  }

  /** The bucket invariant. */
  predicate BucketOk(keccak: H512 -> H256, local: H512, b: Bucket, number: nat) {
    && |b.peers| <= MAX_NODES_PER_BUCKET
    && |b.replacements| <= MAX_NUMBER_OF_REPLACEMENTS
    && (b.replacements != [] ==> |b.peers| == MAX_NODES_PER_BUCKET)
    && Distinct(b.peers + b.replacements)
    && forall p | p in b.peers + b.replacements :: BucketNumber(keccak, Id(p), local) == number
  }

  datatype Insertion = Insertion(bucket: Bucket, peer: Option<PeerData>, inserted: bool)

  /** A new peer goes to the peers, or to the replacements of a full bucket, from which the oldest may have to go. */
  function Inserted(b: Bucket, node: Node, now: nat): Insertion {
    if IndexOf(b.peers, node.nodeId).Some? || IndexOf(b.replacements, node.nodeId).Some? then Insertion(b, None, false)
    else
      var peer := NewPeer(node, now);
      if |b.peers| == MAX_NODES_PER_BUCKET then
        var kept := if |b.replacements| >= MAX_NUMBER_OF_REPLACEMENTS then b.replacements[1..] else b.replacements;
        Insertion(b.(replacements := kept + [peer]), Some(peer), false)
      else Insertion(b.(peers := b.peers + [peer]), Some(peer), true)
  }

  lemma DistinctSnoc(ps: seq<PeerData>, p: PeerData)
    requires Distinct(ps) && forall q | q in ps :: Id(q) != Id(p)
    ensures Distinct(ps + [p])
  {
    forall i, j | 0 <= i < j < |ps + [p]|
      ensures Id((ps + [p])[i]) != Id((ps + [p])[j])
    {
      assert ps[i] in ps;
    }
  }

  lemma DistinctParts(ps: seq<PeerData>, rs: seq<PeerData>)
    ensures Distinct(ps + rs) <==>
            Distinct(ps) && Distinct(rs) && forall p, r | p in ps && r in rs :: Id(p) != Id(r)
  {
    var s := ps + rs;
    if Distinct(s) {
      forall i, j | 0 <= i < j < |ps|
        ensures Id(ps[i]) != Id(ps[j])
      {
        assert s[i] == ps[i] && s[j] == ps[j];
      }
      forall i, j | 0 <= i < j < |rs|
        ensures Id(rs[i]) != Id(rs[j])
      {
        assert s[|ps| + i] == rs[i] && s[|ps| + j] == rs[j];
      }
      forall p, r | p in ps && r in rs
        ensures Id(p) != Id(r)
      {
        var i :| 0 <= i < |ps| && ps[i] == p;
        var j :| 0 <= j < |rs| && rs[j] == r;
        assert s[i] == p && s[|ps| + j] == r;
      }
    }
    if Distinct(ps) && Distinct(rs) && forall p, r | p in ps && r in rs :: Id(p) != Id(r) {
      forall i, j | 0 <= i < j < |s|
        ensures Id(s[i]) != Id(s[j])
      {
        if i < |ps| <= j {
          assert s[i] in ps && s[j] in rs;
        } else if |ps| <= i {
          assert s[i] == rs[i - |ps|] && s[j] == rs[j - |ps|];
        }
      }
    }
  }

  lemma InsertKeepsBucket(keccak: H512 -> H256, local: H512, b: Bucket, number: nat, node: Node, now: nat)
    requires BucketOk(keccak, local, b, number) && number == BucketNumber(keccak, node.nodeId, local)
    ensures BucketOk(keccak, local, Inserted(b, node, now).bucket, number)
  {
    hide BucketNumber, Distinct;
    var ins := Inserted(b, node, now);
    var peer := NewPeer(node, now);
    DistinctParts(b.peers, b.replacements);
    if ins.peer.None? {
    } else if ins.inserted {
      assert forall q | q in b.peers :: Id(q) != Id(peer);
      DistinctSnoc(b.peers, peer);
      DistinctParts(b.peers + [peer], []);
      assert b.replacements == [];
      assert Distinct([]) by { NoneDistinct(); }
    } else {
      ReplacementFits(b.peers, b.replacements, peer);
    }
  }

  lemma NoneDistinct()
    ensures Distinct([])
  {
  }

  lemma ReplacementFits(ps: seq<PeerData>, rs: seq<PeerData>, p: PeerData)
    requires Distinct(ps + rs)
    requires (forall q | q in ps :: Id(q) != Id(p)) && (forall q | q in rs :: Id(q) != Id(p))
    ensures Distinct(ps + (rs + [p]))
    ensures rs != [] ==> Distinct(ps + (rs[1..] + [p]))
  {
    DistinctParts(ps, rs);
    DistinctSnoc(rs, p);
    DistinctParts(ps, rs + [p]);
    if rs != [] {
      var rest := rs[1..];
      assert Distinct(rest);
      DistinctSnoc(rest, p);
      DistinctParts(ps, rest + [p]);
    }
  }

  datatype Replacement = Replacement(bucket: Bucket, peer: Option<PeerData>)

  /** The peer gives way to the latest replacement, or is removed when there is none. */
  function Replaced(b: Bucket, id: H512): Replacement {
    var i := IndexOf(b.peers, id);
    if i.None? then Replacement(b, None)
    else if b.replacements == [] then
      Replacement(b.(peers := b.peers[..i.value] + b.peers[i.value + 1..]), None)
    else
      var last := |b.replacements| - 1;
      var peer := b.replacements[last];
      Replacement(Bucket(b.peers[i.value := peer], b.replacements[..last]), Some(peer))
  }

  lemma DistinctRemove(ps: seq<PeerData>, i: nat)
    requires i < |ps| && Distinct(ps)
    ensures Distinct(ps[..i] + ps[i + 1..])
    ensures forall p | p in ps[..i] + ps[i + 1..] :: p in ps && Id(p) != Id(ps[i])
  {
    var r := ps[..i] + ps[i + 1..];
    forall j | 0 <= j < |r|
      ensures r[j] == ps[if j < i then j else j + 1]
    {
    }
  }

  lemma DistinctReplace(ps: seq<PeerData>, i: nat, rs: seq<PeerData>)
    requires i < |ps| && rs != [] && Distinct(ps + rs)
    ensures Distinct(ps[i := rs[|rs| - 1]] + rs[..|rs| - 1])
  {
    var last := |rs| - 1;
    var p := rs[last];
    DistinctParts(ps, rs);
    var ps2 := ps[i := p];
    assert p in rs;
    forall a, b | 0 <= a < b < |ps2|
      ensures Id(ps2[a]) != Id(ps2[b])
    {
      assert ps[a] in ps && ps[b] in ps;
    }
    forall x, r | x in ps2 && r in rs[..last]
      ensures Id(x) != Id(r)
    {
      var j :| 0 <= j < last && rs[j] == r;
      assert x == p || x in ps;
    }
    DistinctParts(ps2, rs[..last]);
  }

  lemma ReplaceKeepsBucket(keccak: H512 -> H256, local: H512, b: Bucket, number: nat, id: H512)
    requires BucketOk(keccak, local, b, number)
    ensures BucketOk(keccak, local, Replaced(b, id).bucket, number)
  {
    hide BucketNumber, Distinct;
    var i := IndexOf(b.peers, id);
    if i.Some? {
      if b.replacements == [] {
        assert b.peers + [] == b.peers;
        DistinctRemove(b.peers, i.value);
        var r := b.peers[..i.value] + b.peers[i.value + 1..];
        assert r + [] == r;
      } else {
        DistinctReplace(b.peers, i.value, b.replacements);
      }
    }
  }

  // ---------------------------------------------------------------------------------------------
  // The table
  // ---------------------------------------------------------------------------------------------

  type Table = seq<Bucket>

  function EmptyTable(): Table {
    seq(NUMBER_OF_BUCKETS, _ => Bucket([], []))
  }

  ghost predicate TableOk(keccak: H512 -> H256, local: H512, t: Table) {
    |t| == NUMBER_OF_BUCKETS && forall i | 0 <= i < |t| :: BucketOk(keccak, local, t[i], i)
  }

  lemma EmptyTableOk(keccak: H512 -> H256, local: H512)
    ensures TableOk(keccak, local, EmptyTable())
    ensures Peers(EmptyTable()) == {} && Replacements(EmptyTable()) == {}
  {
  }

  /** All peers, as a full scan of the table sees them. */
  ghost function Peers(t: Table): set<PeerData> {
    set b: nat, p | b < |t| && p in t[b].peers :: p
  }

  ghost function Replacements(t: Table): set<PeerData> {
    set b: nat, p | b < |t| && p in t[b].replacements :: p
  }

  function Home(keccak: H512 -> H256, local: H512, id: H512): (r: nat)
    ensures r < NUMBER_OF_BUCKETS
  {
    BucketNumberRange(keccak, id, local);
    BucketNumber(keccak, id, local)
  }

  function Find(keccak: H512 -> H256, local: H512, t: Table, id: H512): Option<PeerData>
    requires |t| == NUMBER_OF_BUCKETS
  {
    var ps := t[Home(keccak, local, id)].peers;
    var i := IndexOf(ps, id);
    if i.Some? then Some(ps[i.value]) else None
  }

  lemma InOwnBucket(keccak: H512 -> H256, local: H512, t: Table, b: nat, p: PeerData)
    requires TableOk(keccak, local, t) && b < |t| && p in t[b].peers + t[b].replacements
    ensures b == Home(keccak, local, Id(p))
  {
    hide BucketNumber, Distinct;
    assert BucketOk(keccak, local, t[b], b);
  }

  /** Looking into one bucket finds what a full scan finds. */
  lemma FindIsScan(keccak: H512 -> H256, local: H512, t: Table, id: H512)
    requires TableOk(keccak, local, t)
    ensures Find(keccak, local, t, id).None? ==> forall p | p in Peers(t) :: Id(p) != id
    ensures Find(keccak, local, t, id).Some? ==>
              var p := Find(keccak, local, t, id).value;
              Id(p) == id && p in Peers(t) && forall q | q in Peers(t) && Id(q) == id :: q == p
  {
    hide BucketNumber, BucketOk;
    var home := Home(keccak, local, id);
    forall q | q in Peers(t) && Id(q) == id
      ensures Find(keccak, local, t, id) == Some(q)
    {
      var b: nat :| b < |t| && q in t[b].peers;
      InOwnBucket(keccak, local, t, b, q);
      FirstIsOnly(keccak, local, t[b], b, q);
    }
    var i := IndexOf(t[home].peers, id);
    if i.Some? {
      assert t[home].peers[i.value] in t[home].peers;
    }
  }

  lemma FirstIsOnly(keccak: H512 -> H256, local: H512, b: Bucket, number: nat, q: PeerData)
    requires BucketOk(keccak, local, b, number) && q in b.peers
    ensures var i := IndexOf(b.peers, Id(q)); i.Some? && b.peers[i.value] == q
  {
    hide BucketNumber;
    DistinctParts(b.peers, b.replacements);
    var j :| 0 <= j < |b.peers| && b.peers[j] == q;
    var i := IndexOf(b.peers, Id(q));
    assert i.Some?;
    assert i.value == j;
  }

  // ---------------------------------------------------------------------------------------------
  // Changes
  // ---------------------------------------------------------------------------------------------

  /** The table with one bucket exchanged. */
  lemma BucketChanged(keccak: H512 -> H256, local: H512, t: Table, h: nat, b: Bucket)
    requires TableOk(keccak, local, t) && h < |t| && BucketOk(keccak, local, b, h)
    ensures TableOk(keccak, local, t[h := b])
    ensures forall p :: p in Peers(t[h := b]) <==> p in b.peers || exists i: nat | i < |t| && i != h :: p in t[i].peers
    ensures forall p :: p in Replacements(t[h := b]) ==> p in b.replacements || p in Replacements(t)
  {
    hide BucketOk;
    var t2 := t[h := b];
    forall p
      ensures p in Peers(t2) <==> p in b.peers || exists i: nat | i < |t| && i != h :: p in t[i].peers
    {
      if p in Peers(t2) {
        var i: nat :| i < |t2| && p in t2[i].peers;
        assert i != h ==> p in t[i].peers;
      }
      if p in b.peers {
        assert p in t2[h].peers;
      }
      if i: nat :| i < |t| && i != h && p in t[i].peers {
        assert p in t2[i].peers;
      }
    }
  }

  function InsertNode(keccak: H512 -> H256, local: H512, t: Table, node: Node, now: nat): (Table, Option<PeerData>, bool)
    requires |t| == NUMBER_OF_BUCKETS
  {
    var h := Home(keccak, local, node.nodeId);
    var ins := Inserted(t[h], node, now);
    (t[h := ins.bucket], ins.peer, ins.inserted)
  }

  /** Insertion keeps the invariant and every peer, and adds at most one new one. */
  lemma InsertNodeOk(keccak: H512 -> H256, local: H512, t: Table, node: Node, now: nat)
    requires TableOk(keccak, local, t)
    ensures var (t2, peer, inserted) := InsertNode(keccak, local, t, node, now);
            && TableOk(keccak, local, t2)
            && (inserted ==> peer.Some?)
            && (peer.Some? ==> peer.value == NewPeer(node, now))
            && Peers(t2) == Peers(t) + (if inserted then {peer.value} else {})
            && Replacements(t2) <= Replacements(t) + (if peer.Some? then {peer.value} else {})
  {
    hide BucketNumber, BucketOk;
    var h := Home(keccak, local, node.nodeId);
    var ins := Inserted(t[h], node, now);
    InsertKeepsBucket(keccak, local, t[h], h, node, now);
    BucketChanged(keccak, local, t, h, ins.bucket);
    var t2 := t[h := ins.bucket];
    forall p
      ensures p in Peers(t2) <==> p in Peers(t) || (ins.inserted && p == ins.peer.value)
    {
      if p in Peers(t) {
        var i: nat :| i < |t| && p in t[i].peers;
        assert i == h ==> p in ins.bucket.peers;
      }
      if p in ins.bucket.peers {
        assert p in t[h].peers || (ins.inserted && p == ins.peer.value);
      }
    }
    forall p | p in Replacements(t2)
      ensures p in Replacements(t) || ins.peer == Some(p)
    {
      if p in ins.bucket.replacements {
        assert p in t[h].replacements || ins.peer == Some(p);
      }
    }
  }

  /** `id`'s entry becomes `p`. */
  function SetPeer(keccak: H512 -> H256, local: H512, t: Table, id: H512, p: PeerData): Table
    requires |t| == NUMBER_OF_BUCKETS && Find(keccak, local, t, id).Some?
  {
    var h := Home(keccak, local, id);
    t[h := t[h].(peers := t[h].peers[IndexOf(t[h].peers, id).value := p])]
  }

  lemma SetPeerOk(keccak: H512 -> H256, local: H512, t: Table, id: H512, p: PeerData)
    requires TableOk(keccak, local, t) && Find(keccak, local, t, id).Some? && Id(p) == id
    ensures var t2 := SetPeer(keccak, local, t, id, p);
            && TableOk(keccak, local, t2)
            && Peers(t2) == Peers(t) - {Find(keccak, local, t, id).value} + {p}
            && Replacements(t2) <= Replacements(t)
  {
    hide BucketNumber;
    var h := Home(keccak, local, id);
    var i := IndexOf(t[h].peers, id).value;
    var old_ := t[h].peers[i];
    var b := t[h].(peers := t[h].peers[i := p]);
    SetInBucket(keccak, local, t[h], h, i, p);
    BucketChanged(keccak, local, t, h, b);
    var t2 := t[h := b];
    forall q
      ensures q in Peers(t2) <==> (q in Peers(t) && q != old_) || q == p
    {
      SetMembers(keccak, local, t, h, i, p, q);
    }
  }

  lemma SetInBucket(keccak: H512 -> H256, local: H512, b: Bucket, number: nat, i: nat, p: PeerData)
    requires BucketOk(keccak, local, b, number) && i < |b.peers| && Id(p) == Id(b.peers[i])
    ensures BucketOk(keccak, local, b.(peers := b.peers[i := p]), number)
  {
    hide BucketNumber;
    var s, s2 := b.peers + b.replacements, b.peers[i := p] + b.replacements;
    forall j | 0 <= j < |s|
      ensures Id(s2[j]) == Id(s[j])
    {
    }
    forall q | q in s2
      ensures BucketNumber(keccak, Id(q), local) == number
    {
      var j :| 0 <= j < |s2| && s2[j] == q;
      assert s[j] in s;
    }
  }

  lemma SetMembers(keccak: H512 -> H256, local: H512, t: Table, h: nat, i: nat, p: PeerData, q: PeerData)
    requires TableOk(keccak, local, t) && h < |t| && i < |t[h].peers| && Id(p) == Id(t[h].peers[i])
    ensures (q in t[h].peers[i := p] || exists x: nat | x < |t| && x != h :: q in t[x].peers) <==>
            ((q in Peers(t) && q != t[h].peers[i]) || q == p)
  {
    hide BucketNumber, TableOk;
    var ps := t[h].peers;
    var ps2 := ps[i := p];
    assert ps2[i] == p;
    if q in ps2 {
      var j :| 0 <= j < |ps2| && ps2[j] == q;
      if j != i {
        assert ps[j] == q && q in t[h].peers;
        OthersDiffer(keccak, local, t, h, i, j);
      }
    }
    if x: nat :| x < |t| && x != h && q in t[x].peers {
      assert ps[i] in t[h].peers;
      BucketsApart(keccak, local, t, x, q, h, ps[i]);
    }
    if q in Peers(t) && q != ps[i] {
      var x: nat :| x < |t| && q in t[x].peers;
      if x == h {
        var j :| 0 <= j < |ps| && ps[j] == q;
        assert ps2[j] == q && q in ps2;
      }
    }
  }

  lemma OthersDiffer(keccak: H512 -> H256, local: H512, t: Table, h: nat, i: nat, j: nat)
    requires TableOk(keccak, local, t) && h < |t| && i < |t[h].peers| && j < |t[h].peers| && i != j
    ensures t[h].peers[i] != t[h].peers[j]
  {
    hide BucketNumber;
    assert BucketOk(keccak, local, t[h], h);
    DistinctParts(t[h].peers, t[h].replacements);
  }

  lemma BucketsApart(keccak: H512 -> H256, local: H512, t: Table, x: nat, q: PeerData, h: nat, p: PeerData)
    requires TableOk(keccak, local, t) && x < |t| && h < |t| && x != h && q in t[x].peers && p in t[h].peers
    ensures q != p
  {
    hide TableOk, Home;
    InOwnBucket(keccak, local, t, x, q);
    InOwnBucket(keccak, local, t, h, p);
  }

  function ReplacePeer(keccak: H512 -> H256, local: H512, t: Table, id: H512): (Table, Option<PeerData>)
    requires |t| == NUMBER_OF_BUCKETS
  {
    var h := Home(keccak, local, id);
    var r := Replaced(t[h], id);
    (t[h := r.bucket], r.peer)
  }

  /** Replacing a peer removes it, may promote one replacement, and leaves all other peers. */
  lemma ReplacePeerOk(keccak: H512 -> H256, local: H512, t: Table, id: H512)
    requires TableOk(keccak, local, t)
    ensures var (t2, peer) := ReplacePeer(keccak, local, t, id);
            && TableOk(keccak, local, t2)
            && (forall q | q in Peers(t) && Id(q) != id :: q in Peers(t2))
            && (forall q | q in Peers(t2) :: (q in Peers(t) && Id(q) != id) || (peer == Some(q) && q in Replacements(t)))
            && (peer.Some? ==> peer.value in Peers(t2))
            && Replacements(t2) <= Replacements(t)
  {
    hide BucketNumber, BucketOk;
    var h := Home(keccak, local, id);
    var r := Replaced(t[h], id);
    ReplaceKeepsBucket(keccak, local, t[h], h, id);
    BucketChanged(keccak, local, t, h, r.bucket);
    var t2 := t[h := r.bucket];
    forall q | q in Peers(t) && Id(q) != id
      ensures q in Peers(t2)
    {
      var x: nat :| x < |t| && q in t[x].peers;
      if x == h {
        ReplacedKeeps(t[h], id, q);
        assert q in r.bucket.peers;
      } else {
        assert q in t2[x].peers;
      }
    }
    forall q | q in Peers(t2)
      ensures (q in Peers(t) && Id(q) != id) || (r.peer == Some(q) && q in Replacements(t))
    {
      if q in r.bucket.peers {
        ReplacedOnly(keccak, local, t[h], h, id, q);
        assert q in t[h].peers || q in t[h].replacements;
      } else {
        var x: nat :| x < |t| && x != h && q in t[x].peers;
        InOwnBucket(keccak, local, t, x, q);
      }
    }
    if r.peer.Some? {
      assert r.bucket.peers[IndexOf(t[h].peers, id).value] == r.peer.value;
      assert r.peer.value in r.bucket.peers;
    }
    forall p | p in Replacements(t2)
      ensures p in Replacements(t)
    {
      assert p in r.bucket.replacements ==> p in t[h].replacements;
    }
  }

  lemma ReplacedKeeps(b: Bucket, id: H512, q: PeerData)
    requires q in b.peers && Id(q) != id
    ensures q in Replaced(b, id).bucket.peers
  {
    var i := IndexOf(b.peers, id);
    if i.Some? {
      var j :| 0 <= j < |b.peers| && b.peers[j] == q;
      var ps := Replaced(b, id).bucket.peers;
      assert j != i.value;
      if b.replacements == [] {
        assert ps[if j < i.value then j else j - 1] == q;
      } else {
        assert ps[j] == q;
      }
    }
  }

  lemma ReplacedOnly(keccak: H512 -> H256, local: H512, b: Bucket, number: nat, id: H512, q: PeerData)
    requires BucketOk(keccak, local, b, number)
    requires q in Replaced(b, id).bucket.peers
    ensures (q in b.peers && Id(q) != id) || (Replaced(b, id).peer == Some(q) && q in b.replacements)
  {
    hide BucketNumber;
    DistinctParts(b.peers, b.replacements);
    var i := IndexOf(b.peers, id);
    if i.Some? {
      if b.replacements == [] {
        DistinctRemove(b.peers, i.value);
      } else {
        var ps := Replaced(b, id).bucket.peers;
        var j :| 0 <= j < |ps| && ps[j] == q;
        assert j != i.value ==> Id(b.peers[j]) != Id(b.peers[i.value]);
      }
    }
  }

  function PongAnswered(keccak: H512 -> H256, local: H512, t: Table, id: H512, now: nat): Table
    requires |t| == NUMBER_OF_BUCKETS
  {
    match Find(keccak, local, t, id)
    case None => t
    case Some(p) => SetPeer(keccak, local, t, id, Answered(p, now))
  }

  function Answered(p: PeerData, now: nat): PeerData {
    p.(isProven := true, lastPong := now, lastPingHash := None,
      revalidation := if p.revalidation.Some? then Some(true) else None)
  }

  function UpdatePeerPing(keccak: H512 -> H256, local: H512, t: Table, id: H512, hash: Option<H256>, now: nat): Table
    requires |t| == NUMBER_OF_BUCKETS
  {
    match Find(keccak, local, t, id)
    case None => t
    case Some(p) => SetPeer(keccak, local, t, id, p.(lastPingHash := hash, lastPing := now))
  }

  function UpdatePeerPingWithRevalidation(
    keccak: H512 -> H256, local: H512, t: Table, id: H512, hash: Option<H256>, now: nat): Table
    requires |t| == NUMBER_OF_BUCKETS
  {
    match Find(keccak, local, t, id)
    case None => t
    case Some(p) =>
      SetPeer(keccak, local, t, id, p.(lastPingHash := hash, lastPing := now, revalidation := Some(false)))
  }

  // ---------------------------------------------------------------------------------------------
  // Selections
  // ---------------------------------------------------------------------------------------------

  /** All peers in the order in which the table is scanned. */
  function Scan(t: Table): seq<PeerData> {
    if t == [] then [] else Scan(t[..|t| - 1]) + t[|t| - 1].peers
  }

  /** `kept` are `|kept|` elements of `all` with the least keys: what was dropped has no smaller key. */
  ghost predicate Least<X(!new)>(kept: seq<X>, dropped: multiset<X>, all: multiset<X>, key: X -> nat) {
    && multiset(kept) + dropped == all
    && forall d, k | d in dropped && k in kept :: key(k) <= key(d)
  }

  lemma LeastPush<X(!new)>(kept: seq<X>, all: multiset<X>, key: X -> nat, x: X)
    requires Least(kept, multiset{}, all, key)
    ensures Least(kept + [x], multiset{}, all + multiset{x}, key)
  {
  }

  /** A candidate that is not smaller than anything kept may be dropped. */
  lemma LeastSkip<X(!new)>(kept: seq<X>, dropped: multiset<X>, all: multiset<X>, key: X -> nat, x: X)
    requires Least(kept, dropped, all, key) && forall k | k in kept :: key(k) <= key(x)
    ensures Least(kept, dropped + multiset{x}, all + multiset{x}, key)
  {
  }

  /** A smaller candidate may take the place of the greatest element kept. */
  lemma LeastSwap<X(!new)>(kept: seq<X>, dropped: multiset<X>, all: multiset<X>, key: X -> nat, x: X, i: nat)
    requires Least(kept, dropped, all, key) && i < |kept|
    requires (forall k | k in kept :: key(k) <= key(kept[i])) && key(x) < key(kept[i])
    ensures Least(kept[i := x], dropped + multiset{kept[i]}, all + multiset{x}, key)
  {
    var kept2 := kept[i := x];
    assert multiset(kept2) == multiset(kept) - multiset{kept[i]} + multiset{x};
    assert kept[i] in kept;
    forall d, k | d in dropped + multiset{kept[i]} && k in kept2
      ensures key(k) <= key(d)
    {
      assert k == x || k in kept;
    }
  }

  lemma LeastOfNone<X(!new)>(key: X -> nat)
    ensures Least([], multiset{}, multiset([]), key)
  {
  }

  function LastPong(p: PeerData): nat {
    p.lastPong
  }

  /** The state of the selection after looking at `all`. */
  ghost predicate Kept(peers: seq<PeerData>, dropped: multiset<PeerData>, all: seq<PeerData>, limit: nat) {
    && |peers| == (if |all| < limit then |all| else limit)
    && (|peers| < limit ==> dropped == multiset{})
    && (limit == 0 ==> all == [])
    && Least(peers, dropped, multiset(all), LastPong)
  }

  class KademliaTable {
    const keccak: H512 -> H256
    const local: H512
    var buckets: Table

    ghost predicate Valid()
      reads this
    {
      TableOk(keccak, local, buckets)
    }

    constructor (keccak: H512 -> H256, local: H512)
      ensures Valid() && this.keccak == keccak && this.local == local && buckets == EmptyTable()
    {
      this.keccak := keccak;
      this.local := local;
      buckets := EmptyTable();
      EmptyTableOk(keccak, local);
    }

    method GetByNodeId(id: H512) returns (r: Option<PeerData>)
      requires Valid()
      ensures r == Find(keccak, local, buckets, id)
      ensures r.Some? <==> exists p | p in Peers(buckets) :: Id(p) == id
    {
      FindIsScan(keccak, local, buckets, id);
      var peers := buckets[Home(keccak, local, id)].peers;
      var i := Position(peers, id);
      r := if i.Some? then Some(peers[i.value]) else None;
    }

    static method Position(ps: seq<PeerData>, id: H512) returns (r: Option<nat>)
      ensures r == IndexOf(ps, id)
    {
      for i := 0 to |ps|
        invariant forall j | 0 <= j < i :: Id(ps[j]) != id
      {
        if Id(ps[i]) == id {
          FirstIndex(ps, id, i);
          return Some(i);
        }
      }
      r := None;
      assert IndexOf(ps, id).None?;
    }

    method Insert(node: Node, now: nat) returns (peer: Option<PeerData>, inserted: bool)
      requires Valid()
      modifies this
      ensures Valid()
      ensures (buckets, peer, inserted) == InsertNode(keccak, local, old(buckets), node, now)
    {
      InsertNodeOk(keccak, local, buckets, node, now);
      var h := Home(keccak, local, node.nodeId);
      var bucket := buckets[h];
      var inTable := Position(bucket.peers, node.nodeId);
      if inTable.Some? {
        assert buckets[h := bucket] == buckets;
        return None, false;
      }
      var inReplacements := Position(bucket.replacements, node.nodeId);
      if inReplacements.Some? {
        assert buckets[h := bucket] == buckets;
        return None, false;
      }
      var p := NewPeer(node, now);
      if |bucket.peers| == MAX_NODES_PER_BUCKET {
        var replacements := bucket.replacements;
        if |replacements| >= MAX_NUMBER_OF_REPLACEMENTS {
          replacements := replacements[1..];
        }
        bucket := bucket.(replacements := replacements + [p]);
        peer, inserted := Some(p), false;
      } else {
        var others := Without(bucket.replacements, node.nodeId);
        bucket := Bucket(bucket.peers + [p], others);
        peer, inserted := Some(p), true;
      }
      buckets := buckets[h := bucket];
    }

    /** Drops the entries of one id; nothing when there are none. */
    static method Without(rs: seq<PeerData>, id: H512) returns (r: seq<PeerData>)
      ensures IndexOf(rs, id).None? ==> r == rs
      ensures forall p :: multiset(r)[p] == if Id(p) == id then 0 else multiset(rs)[p]
    {
      r := [];
      for i := 0 to |rs|
        invariant (forall j | 0 <= j < i :: Id(rs[j]) != id) ==> r == rs[..i]
        invariant forall p :: multiset(r)[p] == if Id(p) == id then 0 else multiset(rs[..i])[p]
      {
        assert rs[..i + 1] == rs[..i] + [rs[i]];
        if Id(rs[i]) != id {
          r := r + [rs[i]];
        }
      }
      assert rs[..|rs|] == rs;
    }

    method Pong(id: H512, now: nat)
      requires Valid()
      modifies this
      ensures Valid()
      ensures buckets == PongAnswered(keccak, local, old(buckets), id, now)
    {
      var p := GetByNodeId(id);
      if p.Some? {
        Set(id, Answered(p.value, now));
      }
    }

    /** Overwrites the entry of an id that is in the table. */
    method Set(id: H512, p: PeerData)
      requires Valid() && Find(keccak, local, buckets, id).Some? && Id(p) == id
      modifies this
      ensures Valid()
      ensures buckets == SetPeer(keccak, local, old(buckets), id, p)
    {
      SetPeerOk(keccak, local, buckets, id, p);
      var h := Home(keccak, local, id);
      var i := Position(buckets[h].peers, id);
      buckets := buckets[h := buckets[h].(peers := buckets[h].peers[i.value := p])];
    }

    method Ping(id: H512, hash: Option<H256>, now: nat)
      requires Valid()
      modifies this
      ensures Valid()
      ensures buckets == UpdatePeerPing(keccak, local, old(buckets), id, hash, now)
    {
      var p := GetByNodeId(id);
      if p.Some? {
        Set(id, p.value.(lastPingHash := hash, lastPing := now));
      }
    }

    method PingWithRevalidation(id: H512, hash: Option<H256>, now: nat)
      requires Valid()
      modifies this
      ensures Valid()
      ensures buckets == UpdatePeerPingWithRevalidation(keccak, local, old(buckets), id, hash, now)
    {
      var p := GetByNodeId(id);
      if p.Some? {
        Set(id, p.value.(lastPingHash := hash, lastPing := now, revalidation := Some(false)));
      }
    }

    method Replace(id: H512) returns (peer: Option<PeerData>)
      requires Valid()
      modifies this
      ensures Valid()
      ensures (buckets, peer) == ReplacePeer(keccak, local, old(buckets), id)
    {
      ReplacePeerOk(keccak, local, buckets, id);
      BucketNumberSym(keccak, local, id);
      BucketNumberRange(keccak, local, id);
      var h := BucketNumber(keccak, local, id);
      var bucket := buckets[h];
      var i := Position(bucket.peers, id);
      if i.None? {
        assert buckets[h := bucket] == buckets;
        return None;
      }
      if bucket.replacements != [] {
        var last := |bucket.replacements| - 1;
        peer := Some(bucket.replacements[last]);
        bucket := Bucket(bucket.peers[i.value := peer.value], bucket.replacements[..last]);
      } else {
        peer := None;
        bucket := bucket.(peers := bucket.peers[..i.value] + bucket.peers[i.value + 1..]);
      }
      buckets := buckets[h := bucket];
    }

    /**
      * The `limit` peers whose last pong is oldest. (The source's comment speaks of `last_ping`; the code compares
      * `last_pong`.) Without room for any peer the code indexes an empty list, the result `None`.
      */
    method GetLeastRecentlyPingedPeers(limit: nat) returns (r: Option<seq<PeerData>>, ghost dropped: multiset<PeerData>)
      ensures r.None? <==> limit == 0 && Scan(buckets) != []
      ensures r.Some? ==> |r.value| == (if |Scan(buckets)| < limit then |Scan(buckets)| else limit)
      ensures r.Some? ==> Least(r.value, dropped, multiset(Scan(buckets)), LastPong)
    {
      hide Least;
      var peers := [];
      dropped := multiset{};
      LeastOfNone(LastPong);
      for b := 0 to |buckets|
        invariant Kept(peers, dropped, Scan(buckets[..b]), limit)
      {
        ScanNext(buckets, b);
        var ps := buckets[b].peers;
        ghost var before := Scan(buckets[..b]);
        assert before + ps[..0] == before;
        for i := 0 to |ps|
          invariant Kept(peers, dropped, before + ps[..i], limit)
        {
          assert before + ps[..i + 1] == before + ps[..i] + [ps[i]];
          if limit == 0 {
            ScanHas(buckets, b, i);
            return None, multiset{};
          }
          peers, dropped := Consider(peers, ps[i], limit, dropped, before + ps[..i]);
        }
        assert ps[..|ps|] == ps;
      }
      assert buckets[..|buckets|] == buckets;
      r := Some(peers);
    }

    /** Keeps a peer when there is room, or when its pong is older than the most recent one kept. */
    static method Consider(
      peers: seq<PeerData>, p: PeerData, limit: nat, ghost dropped: multiset<PeerData>, ghost all: seq<PeerData>)
      returns (peers2: seq<PeerData>, ghost dropped2: multiset<PeerData>)
      requires limit >= 1 && Kept(peers, dropped, all, limit)
      ensures Kept(peers2, dropped2, all + [p], limit)
    {
      hide Least;
      peers2, dropped2 := peers, dropped;
      assert multiset(all + [p]) == multiset(all) + multiset{p};
      if |peers| < limit {
        LeastPush(peers, multiset(all), LastPong, p);
        peers2 := peers + [p];
      } else {
        var m := MostRecent(peers);
        if p.lastPong < peers[m].lastPong {
          LeastSwap(peers, dropped, multiset(all), LastPong, p, m);
          dropped2 := dropped + multiset{peers[m]};
          peers2 := peers[m := p];
        } else {
          LeastSkip(peers, dropped, multiset(all), LastPong, p);
          dropped2 := dropped + multiset{p};
        }
      }
    }

    static method MostRecent(ps: seq<PeerData>) returns (m: nat)
      requires ps != []
      ensures m < |ps| && forall p | p in ps :: p.lastPong <= ps[m].lastPong
    {
      m := 0;
      for i := 0 to |ps|
        invariant m < |ps| && forall j | 0 <= j < i :: ps[j].lastPong <= ps[m].lastPong
      {
        if ps[i].lastPong > ps[m].lastPong {
          m := i;
        }
      }
    }
  }

  lemma FirstIndex(ps: seq<PeerData>, id: H512, i: nat)
    requires i < |ps| && Id(ps[i]) == id && forall j | 0 <= j < i :: Id(ps[j]) != id
    ensures IndexOf(ps, id) == Some(i)
  {
    hide IndexOf;
    var r := IndexOf(ps, id);
    assert r.Some?;
  }

  lemma ScanNext(t: Table, b: nat)
    requires b < |t|
    ensures Scan(t[..b + 1]) == Scan(t[..b]) + t[b].peers
  {
    assert t[..b + 1][..b] == t[..b];
  }

  lemma {:induction false} ScanHas(t: Table, b: nat, i: nat)
    requires b < |t| && i < |t[b].peers|
    ensures Scan(t) != []
  {
    if b < |t| - 1 {
      ScanHas(t[..|t| - 1], b, i);
    }
  }

  // ---------------------------------------------------------------------------------------------
  // Closest nodes
  // ---------------------------------------------------------------------------------------------

  function FirstFarther(nodes: seq<(Node, nat)>, d: nat): (r: Option<nat>)
    ensures r.Some? ==> r.value < |nodes| && d < nodes[r.value].1
    ensures r.Some? ==> forall j | 0 <= j < r.value :: nodes[j].1 <= d
    ensures r.None? ==> forall j | 0 <= j < |nodes| :: nodes[j].1 <= d
  {
    if nodes == [] then None
    else
      var i := FirstFarther(nodes[..|nodes| - 1], d);
      if i.Some? then i else if d < nodes[|nodes| - 1].1 then Some(|nodes| - 1) else None
  }

  /** A node takes a free place, or that of the first node that is farther away (not of the farthest). */
  function Offer(nodes: seq<(Node, nat)>, n: Node, d: nat): seq<(Node, nat)> {
    if |nodes| < MAX_NODES_PER_BUCKET then nodes + [(n, d)]
    else
      var i := FirstFarther(nodes, d);
      if i.Some? then nodes[i.value := (n, d)] else nodes
  }

  function Distance(keccak: H512 -> H256, target: H512, p: PeerData): nat {
    BucketNumber(keccak, target, Id(p))
  }

  function ClosestOf(keccak: H512 -> H256, ps: seq<PeerData>, target: H512): seq<(Node, nat)> {
    if ps == [] then []
    else
      var last := ps[|ps| - 1];
      Offer(ClosestOf(keccak, ps[..|ps| - 1], target), last.node, Distance(keccak, target, last))
  }

  /** The entry stands for a peer of `ps`. */
  ghost predicate From(keccak: H512 -> H256, ps: seq<PeerData>, target: H512, x: (Node, nat)) {
    exists p | p in ps :: x == (p.node, Distance(keccak, target, p))
  }

  predicate DistinctNodes(nodes: seq<(Node, nat)>) {
    forall i, j | 0 <= i < j < |nodes| :: nodes[i].0.nodeId != nodes[j].0.nodeId
  }

  /** Some entry is at least distance. */
  ghost predicate HasNearest(keccak: H512 -> H256, ps: seq<PeerData>, target: H512, nodes: seq<(Node, nat)>) {
    exists x | x in nodes :: forall p | p in ps :: x.1 <= Distance(keccak, target, p)
  }

  lemma {:induction false} ClosestFacts(keccak: H512 -> H256, ps: seq<PeerData>, target: H512)
    requires Distinct(ps)
    ensures var r := ClosestOf(keccak, ps, target);
            && |r| == (if |ps| < MAX_NODES_PER_BUCKET then |ps| else MAX_NODES_PER_BUCKET)
            && (forall x | x in r :: From(keccak, ps, target, x))
            && DistinctNodes(r)
            && (ps != [] ==> HasNearest(keccak, ps, target, r))
  {
    hide Distance, Offer, From, HasNearest;
    if ps != [] {
      var k := |ps| - 1;
      var rest, last := ps[..k], ps[k];
      ClosestFacts(keccak, rest, target);
      OfferFacts(keccak, rest, last, target, ClosestOf(keccak, rest, target));
      assert rest + [last] == ps;
    }
  }

  lemma OfferFacts(keccak: H512 -> H256, rest: seq<PeerData>, p: PeerData, target: H512, nodes: seq<(Node, nat)>)
    requires Distinct(rest + [p])
    requires |nodes| == (if |rest| < MAX_NODES_PER_BUCKET then |rest| else MAX_NODES_PER_BUCKET)
    requires forall x | x in nodes :: From(keccak, rest, target, x)
    requires DistinctNodes(nodes) && (rest != [] ==> HasNearest(keccak, rest, target, nodes))
    ensures var r := Offer(nodes, p.node, Distance(keccak, target, p));
            && |r| == (if |rest| + 1 < MAX_NODES_PER_BUCKET then |rest| + 1 else MAX_NODES_PER_BUCKET)
            && (forall x | x in r :: From(keccak, rest + [p], target, x))
            && DistinctNodes(r)
            && HasNearest(keccak, rest + [p], target, r)
  {
    hide Distance;
    var d := Distance(keccak, target, p);
    var r := Offer(nodes, p.node, d);
    forall x | x in r
      ensures From(keccak, rest + [p], target, x)
    {
      if x in nodes {
        var q :| q in rest && x == (q.node, Distance(keccak, target, q));
        assert q in rest + [p];
      } else {
        assert x == (p.node, d) && p in rest + [p];
      }
    }
    OfferDistinct(keccak, rest, p, target, nodes);
    OfferNearest(keccak, rest, p, target, nodes);
  }

  lemma OfferDistinct(keccak: H512 -> H256, rest: seq<PeerData>, p: PeerData, target: H512, nodes: seq<(Node, nat)>)
    requires Distinct(rest + [p]) && DistinctNodes(nodes)
    requires forall x | x in nodes :: From(keccak, rest, target, x)
    ensures DistinctNodes(Offer(nodes, p.node, Distance(keccak, target, p)))
  {
    hide Distance;
    var r := Offer(nodes, p.node, Distance(keccak, target, p));
    DistinctParts(rest, [p]);
    forall x | x in nodes
      ensures x.0.nodeId != Id(p)
    {
      var q :| q in rest && x == (q.node, Distance(keccak, target, q));
      assert p in [p];
    }
    forall i, j | 0 <= i < j < |r|
      ensures r[i].0.nodeId != r[j].0.nodeId
    {
      assert i < |nodes| ==> nodes[i] in nodes;
      assert j < |nodes| ==> nodes[j] in nodes;
    }
  }

  lemma OfferNearest(keccak: H512 -> H256, rest: seq<PeerData>, p: PeerData, target: H512, nodes: seq<(Node, nat)>)
    requires rest != [] ==> HasNearest(keccak, rest, target, nodes)
    requires |rest| >= MAX_NODES_PER_BUCKET || |nodes| == |rest|
    ensures HasNearest(keccak, rest + [p], target, Offer(nodes, p.node, Distance(keccak, target, p)))
  {
    hide Distance;
    var d := Distance(keccak, target, p);
    var r := Offer(nodes, p.node, d);
    if rest == [] {
      assert r[0] == (p.node, d) && r[0] in r;
    } else {
      var x :| x in nodes && forall q | q in rest :: x.1 <= Distance(keccak, target, q);
      var j :| 0 <= j < |nodes| && nodes[j] == x;
      if r[j] == x {
        if x.1 <= d {
          assert x in r;
        } else {
          var i := if |nodes| < MAX_NODES_PER_BUCKET then |nodes| else FirstFarther(nodes, d).value;
          assert r[i] == (p.node, d) && r[i] in r;
        }
      } else {
        assert r[j] == (p.node, d) && r[j] in r;
      }
    }
  }

  /** The buckets of a table prefix. */
  ghost predicate PrefixOk(keccak: H512 -> H256, local: H512, t: Table) {
    forall i | 0 <= i < |t| :: BucketOk(keccak, local, t[i], i)
  }

  lemma {:induction false} ScanMembers(t: Table, p: PeerData)
    ensures p in Scan(t) <==> exists b: nat | b < |t| :: p in t[b].peers
  {
    if t != [] {
      var k := |t| - 1;
      ScanMembers(t[..k], p);
      if b: nat :| b < |t| && p in t[b].peers {
        assert b < k ==> t[..k][b] == t[b];
      }
      if b: nat :| b < k && p in t[..k][b].peers {
        assert p in t[b].peers;
      }
    }
  }

  lemma {:induction false} ScanDistinct(keccak: H512 -> H256, local: H512, t: Table)
    requires PrefixOk(keccak, local, t)
    ensures Distinct(Scan(t))
  {
    hide BucketOk, Distinct;
    if t == [] {
      NoneDistinct();
    } else {
      var k := |t| - 1;
      ScanDistinct(keccak, local, t[..k]);
      forall p, q | p in Scan(t[..k]) && q in t[k].peers
        ensures Id(p) != Id(q)
      {
        ScanMembers(t[..k], p);
        var b: nat :| b < k && p in t[..k][b].peers;
        BucketNumbers(keccak, local, t[b], b, p);
        BucketNumbers(keccak, local, t[k], k, q);
      }
      PeersDistinct(keccak, local, t[k], k);
      DistinctParts(Scan(t[..k]), t[k].peers);
    }
  }

  lemma BucketNumbers(keccak: H512 -> H256, local: H512, b: Bucket, number: nat, p: PeerData)
    requires BucketOk(keccak, local, b, number) && p in b.peers
    ensures BucketNumber(keccak, Id(p), local) == number
  {
    hide BucketNumber, Distinct;
    assert p in b.peers + b.replacements;
  }

  lemma PeersDistinct(keccak: H512 -> H256, local: H512, b: Bucket, number: nat)
    requires BucketOk(keccak, local, b, number)
    ensures Distinct(b.peers)
  {
    hide BucketNumber;
    DistinctParts(b.peers, b.replacements);
  }

  function Firsts(xs: seq<(Node, nat)>): (r: seq<Node>)
    ensures |r| == |xs| && forall i | 0 <= i < |xs| :: r[i] == xs[i].0
  {
    seq(|xs|, i requires 0 <= i < |xs| => xs[i].0)
  }

  function ClosestNodes(keccak: H512 -> H256, t: Table, target: H512): seq<Node> {
    Firsts(ClosestOf(keccak, Scan(t), target))
  }

  /** Sixteen peers, or all if there are fewer; all different; among them one at least distance. */
  lemma ClosestNodesFacts(keccak: H512 -> H256, local: H512, t: Table, target: H512)
    requires TableOk(keccak, local, t)
    ensures var r := ClosestNodes(keccak, t, target);
            var n := |Scan(t)|;
            && |r| == (if n < MAX_NODES_PER_BUCKET then n else MAX_NODES_PER_BUCKET)
            && (forall i, j | 0 <= i < j < |r| :: r[i].nodeId != r[j].nodeId)
            && (forall x | x in r :: exists p | p in Peers(t) :: p.node == x)
            && (n > 0 ==> exists x | x in r :: forall p | p in Peers(t) ::
                  BucketNumber(keccak, target, x.nodeId) <= BucketNumber(keccak, target, Id(p)))
  {
    hide BucketNumber, BucketOk;
    ScanDistinct(keccak, local, t);
    ClosestFacts(keccak, Scan(t), target);
    var c, r := ClosestOf(keccak, Scan(t), target), ClosestNodes(keccak, t, target);
    forall x | x in r
      ensures exists p | p in Peers(t) :: p.node == x
    {
      var i :| 0 <= i < |r| && r[i] == x;
      assert c[i] in c;
      var p :| p in Scan(t) && c[i] == (p.node, Distance(keccak, target, p));
      ScanMembers(t, p);
    }
    if Scan(t) != [] {
      var x :| x in c && forall p | p in Scan(t) :: x.1 <= Distance(keccak, target, p);
      var q :| q in Scan(t) && x == (q.node, Distance(keccak, target, q));
      var i :| 0 <= i < |c| && c[i] == x;
      assert r[i] == x.0 && x.0 in r;
      forall p | p in Peers(t)
        ensures BucketNumber(keccak, target, x.0.nodeId) <= BucketNumber(keccak, target, Id(p))
      {
        ScanMembers(t, p);
      }
    }
  }

  method GetClosestNodes(keccak: H512 -> H256, t: Table, target: H512) returns (r: seq<Node>)
    ensures r == ClosestNodes(keccak, t, target)
  {
    hide ClosestOf, BucketNumber, Scan, Offer;
    var nodes: seq<(Node, nat)> := [];
    NoneClosest(keccak, target);
    for b := 0 to |t|
      invariant nodes == ClosestOf(keccak, Scan(t[..b]), target)
    {
      ScanNext(t, b);
      ghost var before := Scan(t[..b]);
      var ps := t[b].peers;
      assert before + ps[..0] == before;
      for i := 0 to |ps|
        invariant nodes == ClosestOf(keccak, before + ps[..i], target)
      {
        assert before + ps[..i + 1] == (before + ps[..i]) + [ps[i]];
        ClosestSnoc(keccak, before + ps[..i], ps[i], target);
        nodes := Place(nodes, ps[i].node, BucketNumber(keccak, target, ps[i].node.nodeId));
      }
      assert ps[..|ps|] == ps;
    }
    assert t[..|t|] == t;
    r := Firsts(nodes);
  }

  lemma NoneClosest(keccak: H512 -> H256, target: H512)
    ensures ClosestOf(keccak, Scan([]), target) == []
  {
  }

  lemma ClosestSnoc(keccak: H512 -> H256, ps: seq<PeerData>, p: PeerData, target: H512)
    ensures ClosestOf(keccak, ps + [p], target) ==
            Offer(ClosestOf(keccak, ps, target), p.node, BucketNumber(keccak, target, Id(p)))
  {
    hide BucketNumber, Offer;
    var s := ps + [p];
    assert s[..|s| - 1] == ps && s[|s| - 1] == p;
  }

  method Place(nodes: seq<(Node, nat)>, n: Node, d: nat) returns (r: seq<(Node, nat)>)
    ensures r == Offer(nodes, n, d)
  {
    if |nodes| < MAX_NODES_PER_BUCKET {
      return nodes + [(n, d)];
    }
    for i := 0 to |nodes|
      invariant forall j | 0 <= j < i :: nodes[j].1 <= d
    {
      if d < nodes[i].1 {
        return nodes[i := (n, d)];
      }
    }
    r := nodes;
  }
}
