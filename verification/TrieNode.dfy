/**
  * Trie nodes as they are stored: their fields, the encoding they are kept under in the database
  * (`crates/trie/rlp.rs`) and the encoding their hash is computed from (`encode_raw` of each node kind).
  */
module TrieNode {
  import opened Prelude
  import opened Rlp
  import opened RlpTyped
  import opened Nibbles

  type H256 = s: Bytes | |s| == 32 witness Zeros(32)

  /** A node reference: the digest of a long encoding, or a short encoding itself. */
  datatype NodeHash = Hashed(digest: H256) | Inline(bytes: Bytes) {
    /** Only the default value, an empty inline hash, refers to nothing. */
    predicate IsValid() {
      this != Inline([])
    }
  }

  function FromEncodedRaw(keccak: Bytes -> H256, encoded: Bytes): NodeHash {
    if |encoded| >= 32 then Hashed(keccak(encoded)) else Inline(encoded)
  }

  /** The bytes a hash is stored under: the database key. */
  function HashBytes(h: NodeHash): Bytes {
    match h
    case Hashed(x) => x
    case Inline(x) => x
  }

  function HashFromBytes(s: Bytes): NodeHash {
    if |s| == 32 then Hashed(s) else Inline(s)
  }

  /** A hash is recovered from its bytes exactly when it is not an inline hash of digest size. */
  lemma HashFromItsBytes(h: NodeHash)
    ensures HashFromBytes(HashBytes(h)) == h <==> !(h.Inline? && |h.bytes| == 32)
  {
  }

  datatype Node =
    | BranchNode(choices: seq<NodeHash>, path: Bytes, value: Bytes)
    | ExtensionNode(prefix: Packed, child: NodeHash)
    | LeafNode(path: Bytes, value: Bytes)

  /** What the types of the source enforce, and what every reference computed by hashing satisfies. */
  predicate Storable(n: Node) {
    match n
    case BranchNode(choices, _, _) => |choices| == 16 && forall h | h in choices :: !(h.Inline? && |h.bytes| == 32)
    case ExtensionNode(_, child) => !(child.Inline? && |child.bytes| == 32)
    case LeafNode(_, _) => true
  }

  // ---------------------------------------------------------------------------------------------
  // Database encoding
  // ---------------------------------------------------------------------------------------------

  /** A `Vec<u8>` is a list of `u8` items, not a byte string. */
  function U8s(s: Bytes): (v: Val)
    ensures HasTy(v, Vec(U8))
    ensures FromU8s(v) == s
  {
    var v := Many(seq(|s|, i requires 0 <= i < |s| => Num(s[i])));
    assert FromU8s(v) == s;
    v
  }

  function FromU8s(v: Val): (s: Bytes)
    requires HasTy(v, Vec(U8))
  {
    seq(|v.vals|, i requires 0 <= i < |v.vals| => ByteAt(v.vals, i))
  }

  function ByteAt(vs: seq<Val>, i: nat): byte
    requires i < |vs| && forall x | x in vs :: HasTy(x, U8)
  {
    assert vs[i] in vs;
    assert HasTy(vs[i], U8);
    vs[i].n
  }

  const VEC_U8: Ty := Vec(U8)
  const NIBBLE_VEC_TY: Ty := Struct([VEC_U8, Flag, Flag], [])
  const BRANCH_TY: Ty := Struct([Vec(VEC_U8), VEC_U8, VEC_U8], [])
  const EXTENSION_TY: Ty := Struct([NIBBLE_VEC_TY, VEC_U8], [])
  const LEAF_TY: Ty := Struct([VEC_U8, VEC_U8], [])

  function NodeTy(n: Node): Ty {
    match n
    case BranchNode(_, _, _) => BRANCH_TY
    case ExtensionNode(_, _) => EXTENSION_TY
    case LeafNode(_, _) => LEAF_TY
  }

  lemma NodeTysPlain(n: Node)
    ensures Plain(NodeTy(n))
  {
    assert Plain(VEC_U8) && Plain(NIBBLE_VEC_TY);
  }

  function HashVals(hs: seq<NodeHash>): (v: Val)
    ensures HasTy(v, Vec(VEC_U8))
    ensures |v.vals| == |hs| && forall i | 0 <= i < |hs| :: v.vals[i] == U8s(HashBytes(hs[i]))
  {
    Many(seq(|hs|, i requires 0 <= i < |hs| => U8s(HashBytes(hs[i]))))
  }

  function HashesFromVals(v: Val): (hs: seq<NodeHash>)
    requires HasTy(v, Vec(VEC_U8))
    ensures |hs| == |v.vals|
    ensures forall i | 0 <= i < |hs| :: HasTy(v.vals[i], VEC_U8) && hs[i] == HashFromBytes(FromU8s(v.vals[i]))
  {
    assert forall i | 0 <= i < |v.vals| :: v.vals[i] in v.vals;
    seq(|v.vals|, i requires 0 <= i < |v.vals| => HashFromBytes(FromU8s(v.vals[i])))
  }

  function PackedVal(p: Packed): (v: Val)
    ensures HasTy(v, NIBBLE_VEC_TY)
  {
    var vs := [U8s(p.data), Bool(p.firstIsHalf), Bool(p.lastIsHalf)];
    assert vs[..3] == vs && vs[3..] == [];
    Many(vs)
  }

  function PackedFromVal(v: Val): Packed
    requires HasTy(v, NIBBLE_VEC_TY)
  {
    var ts := [VEC_U8, Flag, Flag];
    StructTys(ts, v);
    assert HasTy(v.vals[0], ts[0]) && HasTy(v.vals[1], ts[1]) && HasTy(v.vals[2], ts[2]);
    Packed(FromU8s(v.vals[0]), v.vals[1].b, v.vals[2].b)
  }

  function NodeVal(n: Node): (v: Val)
    ensures HasTy(v, NodeTy(n))
  {
    match n
    case BranchNode(choices, path, value) =>
      var vs := [HashVals(choices), U8s(path), U8s(value)];
      assert vs[..3] == vs && vs[3..] == [];
      Many(vs)
    case ExtensionNode(prefix, child) =>
      var vs := [PackedVal(prefix), U8s(HashBytes(child))];
      assert vs[..2] == vs && vs[2..] == [];
      Many(vs)
    case LeafNode(path, value) =>
      var vs := [U8s(path), U8s(value)];
      assert vs[..2] == vs && vs[2..] == [];
      Many(vs)
  }

  /** One byte for the kind of node, then its fields. */
  function EncodeNode(n: Node): (r: Bytes) {
    [if n.BranchNode? then 0 else if n.ExtensionNode? then 1 else 2] + Encode(NodeTy(n), NodeVal(n))
  }

  /** The number of choices is checked before the other fields are read. */
  function DecodeBranch(rlp: Bytes): (r: Result<(Node, Bytes)>) {
    var item :- DecodeRlpItem(rlp);
    if !item.isList then Err(UnexpectedString)
    else
      var (first, rest) :- DecodeFields([Vec(VEC_U8)], item.payload);
      DecodedFieldsHaveTys([Vec(VEC_U8)], item.payload);
      var choices := HashesFromVals(first[0]);
      if |choices| != 16 then Err(Custom)
      else
        var (others, left) :- DecodeFields([VEC_U8, VEC_U8], rest);
        DecodedFieldsHaveTys([VEC_U8, VEC_U8], rest);
        if left != [] then Err(MalformedData)
        else Ok((BranchNode(choices, FromU8s(others[0]), FromU8s(others[1])), item.rest))
  }

  function DecodeExtension(rlp: Bytes): (r: Result<(Node, Bytes)>) {
    var (v, rest) :- Decode(EXTENSION_TY, rlp);
    DecodedHasTy(EXTENSION_TY, rlp);
    assert v.vals[..2] == v.vals;
    Ok((ExtensionNode(PackedFromVal(v.vals[0]), HashFromBytes(FromU8s(v.vals[1]))), rest))
  }

  function DecodeLeaf(rlp: Bytes): (r: Result<(Node, Bytes)>) {
    var (v, rest) :- Decode(LEAF_TY, rlp);
    DecodedHasTy(LEAF_TY, rlp);
    assert v.vals[..2] == v.vals;
    Ok((LeafNode(FromU8s(v.vals[0]), FromU8s(v.vals[1])), rest))
  }

  function DecodeNode(rlp: Bytes): (r: Result<Node>) {
    if rlp == [] then Err(InvalidLength)
    else if rlp[0] > 2 then Err(MalformedData)
    else
      var (node, rest) :- (if rlp[0] == 0 then DecodeBranch(rlp[1..])
                           else if rlp[0] == 1 then DecodeExtension(rlp[1..])
                           else DecodeLeaf(rlp[1..]));
      if rest != [] then Err(InvalidLength) else Ok(node)
  }

  /** The node that comes back from the database: references pass through their bytes. */
  function Reloaded(n: Node): Node {
    match n
    case BranchNode(choices, path, value) =>
      BranchNode(HashesFromVals(HashVals(choices)), path, value)
    case ExtensionNode(prefix, child) => ExtensionNode(prefix, HashFromBytes(HashBytes(child)))
    case LeafNode(_, _) => n
  }

  lemma ReloadedIsSame(n: Node)
    requires Storable(n)
    ensures Reloaded(n) == n
  {
    match n
    case BranchNode(choices, _, _) =>
      forall i | 0 <= i < 16
        ensures HashesFromVals(HashVals(choices))[i] == choices[i]
      {
        HashFromItsBytes(choices[i]);
      }
    case ExtensionNode(_, child) => HashFromItsBytes(child);
    case LeafNode(_, _) =>
  }

  lemma BranchRoundTrip(n: Node)
    requires n.BranchNode? && |n.choices| == 16
    requires |Encode(NodeTy(n), NodeVal(n))| < USIZE_LIMIT
    ensures DecodeBranch(Encode(NodeTy(n), NodeVal(n))) == Ok((Reloaded(n), []))
  {
    var first, others := [HashVals(n.choices)], [U8s(n.path), U8s(n.value)];
    var ts := [Vec(VEC_U8), VEC_U8, VEC_U8];
    var vs := first + others;
    assert NodeVal(n) == Many(vs) && vs[..3] == vs && vs[3..] == [];
    var rest := EncodeFields([VEC_U8, VEC_U8], others);
    assert ts[1..] == [VEC_U8, VEC_U8] && vs[1..] == others;
    assert EncodeFields([Vec(VEC_U8)], first) == Encode(Vec(VEC_U8), first[0]);
    var payload := EncodeFields([Vec(VEC_U8)], first) + rest;
    assert EncodeFields(ts, vs) == payload;
    assert payload + [] == payload && rest + [] == rest;
    DecodeEncodedList(payload, []);
    assert EncodeList(payload) + [] == EncodeList(payload);
    RoundTripFields([Vec(VEC_U8)], first, rest);
    RoundTripFields([VEC_U8, VEC_U8], others, []);
  }

  /** A stored node reads back as the node that was written. */
  lemma NodeRoundTrip(n: Node)
    requires Storable(n)
    requires |EncodeNode(n)| < USIZE_LIMIT
    ensures DecodeNode(EncodeNode(n)) == Ok(n)
  {
    ReloadedIsSame(n);
    NodeTysPlain(n);
    var body := Encode(NodeTy(n), NodeVal(n));
    assert EncodeNode(n)[1..] == body && body + [] == body;
    if n.BranchNode? {
      BranchRoundTrip(n);
    } else {
      RoundTripTyped(NodeTy(n), NodeVal(n), []);
    }
  }
}
