/**
  * The size of a node's database encoding: no node that the trie can form is too long to be read back.
  */
module TrieSize {
  import opened Prelude
  import opened BigEndian
  import opened Rlp
  import opened RlpTyped
  import opened Nibbles
  import opened TrieNode
  import opened TrieHash

  lemma {:induction false} U8ElemsSize(vs: seq<Val>)
    requires forall x | x in vs :: HasTy(x, U8)
    ensures |EncodeElems(U8, vs)| <= 2 * |vs|
  {
    if vs != [] {
      U8ElemsSize(vs[1..]);
      assert vs[0] in vs;
      assert HasTy(vs[0], U8);
      U8Size(vs[0].n);
    }
  }

  lemma U8Size(n: byte)
    ensures |EncodeUint(n)| <= 2
  {
    assert n > 0 ==> MinimalBE(n) == MinimalBE(0) + [n];
  }

  lemma ListSize(payload: Bytes)
    requires |payload| < USIZE_LIMIT
    ensures |EncodeList(payload)| <= |payload| + 9
  {
    hide Header;
    HeaderSize(RLP_EMPTY_LIST, |payload|);
  }

  lemma U8sSize(s: Bytes)
    requires |s| < 2 * MAX_LEN
    ensures |Encode(VEC_U8, U8s(s))| <= 2 * |s| + 9
  {
    hide EncodeList, EncodeElems;
    var vs := U8s(s).vals;
    U8ElemsSize(vs);
    ListSize(EncodeElems(U8, vs));
  }

  lemma {:induction false} HashElemsSize(vs: seq<Val>)
    requires forall x | x in vs :: HasTy(x, VEC_U8) && |Encode(VEC_U8, x)| <= 73
    ensures |EncodeElems(VEC_U8, vs)| <= 73 * |vs|
  {
    hide Encode, HasTy;
    if vs != [] {
      HashElemsSize(vs[1..]);
    }
  }

  lemma HashesSize(hs: seq<NodeHash>)
    requires |hs| == 16 && forall i | 0 <= i < 16 :: |HashBytes(hs[i])| <= 32
    ensures |Encode(Vec(VEC_U8), HashVals(hs))| <= 73 * 16 + 9
  {
    hide EncodeList, U8s, HashBytes;
    var vs := HashVals(hs).vals;
    forall x | x in vs
      ensures HasTy(x, VEC_U8) && |Encode(VEC_U8, x)| <= 73
    {
      var i :| 0 <= i < 16 && x == U8s(HashBytes(hs[i]));
      U8sSize(HashBytes(hs[i]));
    }
    HashElemsSize(vs);
    ListSize(EncodeElems(VEC_U8, vs));
  }

  lemma Fields2(a: Ty, x: Val, b: Ty, y: Val)
    requires HasTy(x, a) && HasTy(y, b)
    ensures HaveTys([x, y], [a, b])
    ensures EncodeFields([a, b], [x, y]) == Encode(a, x) + Encode(b, y)
  {
    hide Encode, HasTy;
    assert [a, b][1..] == [b] && [x, y][1..] == [y] && [b][1..] == [] && [y][1..] == [];
    assert EncodeFields([b], [y]) == Encode(b, y);
  }

  lemma Fields3(a: Ty, x: Val, b: Ty, y: Val, c: Ty, z: Val)
    requires HasTy(x, a) && HasTy(y, b) && HasTy(z, c)
    ensures HaveTys([x, y, z], [a, b, c])
    ensures EncodeFields([a, b, c], [x, y, z]) == Encode(a, x) + (Encode(b, y) + Encode(c, z))
  {
    hide Encode, HasTy;
    assert [a, b, c][1..] == [b, c] && [x, y, z][1..] == [y, z];
    Fields2(b, y, c, z);
  }

  lemma StructSize(ts: seq<Ty>, vs: seq<Val>)
    requires |vs| == |ts| && HasTy(Many(vs), Struct(ts, [])) && HaveTys(vs, ts)
    requires |EncodeFields(ts, vs)| < USIZE_LIMIT
    ensures |Encode(Struct(ts, []), Many(vs))| <= |EncodeFields(ts, vs)| + 9
  {
    hide EncodeList, EncodeFields;
    assert vs[..|ts|] == vs && vs[|ts|..] == [];
    assert EncodeFields(ts, vs) + [] == EncodeFields(ts, vs);
    ListSize(EncodeFields(ts, vs));
  }

  lemma PackedSize(p: Packed)
    requires |p.data| < MAX_LEN
    ensures |Encode(NIBBLE_VEC_TY, PackedVal(p))| <= 2 * |p.data| + 20
  {
    hide Encode, U8s;
    U8sSize(p.data);
    FlagSize(p.firstIsHalf);
    FlagSize(p.lastIsHalf);
    Fields3(VEC_U8, U8s(p.data), Flag, Bool(p.firstIsHalf), Flag, Bool(p.lastIsHalf));
    StructSize([VEC_U8, Flag, Flag], [U8s(p.data), Bool(p.firstIsHalf), Bool(p.lastIsHalf)]);
  }

  lemma FlagSize(b: bool)
    ensures HasTy(Bool(b), Flag) && |Encode(Flag, Bool(b))| == 1
  {
  }

  /** Every node that can be hashed is small enough to be read back from the database. */
  lemma NodeSize(node: Node, offset: nat)
    requires Encodable(node, offset) && (node.BranchNode? ==> |node.path| < MAX_LEN)
    ensures |EncodeNode(node)| < USIZE_LIMIT
  {
    hide Encode, U8s, PackedVal, HashVals;
    match node
    case LeafNode(path, value) =>
      U8sSize(path);
      U8sSize(value);
      Fields2(VEC_U8, U8s(path), VEC_U8, U8s(value));
      StructSize([VEC_U8, VEC_U8], [U8s(path), U8s(value)]);
    case ExtensionNode(prefix, child) =>
      PackedSize(prefix);
      U8sSize(HashBytes(child));
      Fields2(NIBBLE_VEC_TY, PackedVal(prefix), VEC_U8, U8s(HashBytes(child)));
      StructSize([NIBBLE_VEC_TY, VEC_U8], [PackedVal(prefix), U8s(HashBytes(child))]);
    case BranchNode(choices, path, value) =>
      HashesSize(choices);
      U8sSize(path);
      U8sSize(value);
      Fields3(Vec(VEC_U8), HashVals(choices), VEC_U8, U8s(path), VEC_U8, U8s(value));
      StructSize([Vec(VEC_U8), VEC_U8, VEC_U8], [HashVals(choices), U8s(path), U8s(value)]);
  }
}
