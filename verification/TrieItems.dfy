/**
  * Node hashes by what they are hashed from: the RLP items of Appendix D of the Yellow Paper, and the proof that the encodings
  * computed byte by byte are the encodings of those items and decode to them.
  */
module TrieItems {
  import opened Prelude
  import opened Rlp
  import opened RlpTyped
  import opened RlpItems
  import opened Nibbles
  import opened NodeEncoder
  import opened TrieNode
  import opened TrieHash
  import T = TrieTree

  // ---------------------------------------------------------------------------------------------
  // Single nodes
  // ---------------------------------------------------------------------------------------------

  /** The item a reference stands for: a digest as a string, a missing child as the empty string, a short node as itself. */
  predicate StandsFor(h: NodeHash, i: Item) {
    match h
    case Hashed(x) => i == Str(x)
    case Inline(b) => if |b| == 0 || |b| == 32 then i == Str(b) else b == EncodeItem(i)
  }

  lemma ChoiceStands(h: NodeHash, i: Item)
    requires StandsFor(h, i)
    ensures ChoiceItem(h) == EncodeItem(i)
    ensures h.IsValid() && !(h.Inline? && |h.bytes| == 32) ==> ChildItem(h) == EncodeItem(i)
  {
  }

  lemma {:induction false} ChoicesStand(hs: seq<NodeHash>, items: seq<Item>)
    requires |hs| == |items| && forall k | 0 <= k < |hs| :: StandsFor(hs[k], items[k])
    ensures ChoiceItems(hs) == EncodeItems(items)
  {
    hide StandsFor, EncodeItem, ChoiceItem;
    if hs != [] {
      ChoiceStands(hs[0], items[0]);
      ChoicesStand(hs[1..], items[1..]);
    }
  }

  /** The item of a path: the string whose nibbles are the flag nibble, the padding and the path. */
  predicate IsPath(i: Item, ns: seq<nibble>, leaf: bool) {
    i.Str? && Nibs(i.bytes) == Flagged(ns, leaf)
  }

  lemma PathIs(i: Item, ns: seq<nibble>, leaf: bool)
    requires IsPath(i, ns, leaf)
    ensures EncodeItem(i) == PathItem(ns, leaf)
  {
    HexPrefixNibs(ns, leaf);
    NibsInjective(i.bytes, HexPrefix(ns, leaf));
  }

  /**
    * What a node is hashed from: for a leaf the list of its path and its value, for an extension of its path and its child,
    * for a branch of its sixteen children and its value, each in this order.
    */
  predicate NodeIs(n: Node, offset: nat, i: Item)
    requires Encodable(n, offset)
  {
    i.Lst? &&
    match n
    case LeafNode(path, value) =>
      |i.items| == 2 && IsPath(i.items[0], Nibs(path)[offset..], true) && i.items[1] == Str(value)
    case ExtensionNode(prefix, child) =>
      |i.items| == 2 && IsPath(i.items[0], prefix.View(), false) && StandsFor(child, i.items[1])
    case BranchNode(choices, _, value) =>
      |i.items| == 17 && (forall k | 0 <= k < 16 :: StandsFor(choices[k], i.items[k])) && i.items[16] == Str(value)
  }

  /** Main law of one node: its encoding is that of the item, and decodes to it. */
  lemma NodeEncoding(n: Node, offset: nat, i: Item, suffix: Bytes)
    requires Encodable(n, offset) && NodeIs(n, offset, i)
    requires n.ExtensionNode? ==> n.child.IsValid() && !(n.child.Inline? && |n.child.bytes| == 32)
    ensures RawEncoding(n, offset) == EncodeItem(i)
    ensures |EncodeItem(i)| < USIZE_LIMIT ==> DecodeItem(RawEncoding(n, offset) + suffix) == Ok((i, suffix))
  {
    hide IsPath, StandsFor, EncodeItem, PathItem, ChildItem, EncodeBytes, ChoiceItems;
    match n {
      case LeafNode(path, value) =>
        PathIs(i.items[0], Nibs(path)[offset..], true);
        StringItem(value);
        TwoItemList(i.items[0], i.items[1]);
        assert i.items == [i.items[0], i.items[1]];
      case ExtensionNode(prefix, child) =>
        PathIs(i.items[0], prefix.View(), false);
        ChoiceStands(child, i.items[1]);
        TwoItemList(i.items[0], i.items[1]);
        assert i.items == [i.items[0], i.items[1]];
      case BranchNode(choices, _, value) =>
        ChoicesStand(choices, i.items[..16]);
        StringItem(value);
        BranchList(i.items[..16], i.items[16]);
        assert i.items == i.items[..16] + [i.items[16]];
    }
    if |EncodeItem(i)| < USIZE_LIMIT {
      RoundTrip(i, suffix);
    }
  }

  lemma StringItem(s: Bytes)
    ensures EncodeItem(Str(s)) == EncodeBytes(s)
  {
  }

  lemma BranchList(refs: seq<Item>, value: Item)
    ensures EncodeItem(Lst(refs + [value])) == EncodeList(EncodeItems(refs) + EncodeItem(value))
  {
    ItemsConcat(refs, [value]);
    OneItem(value);
  }

  /** The leaf of the key "key" and the value "value" is the list of 0x20 followed by the key, and the value. */
  lemma KeyValueLeaf()
    ensures RawEncoding(LeafNode([0x6B, 0x65, 0x79], [0x76, 0x61, 0x6C, 0x75, 0x65]), 0) ==
            [0xCB, 0x84, 0x20, 0x6B, 0x65, 0x79, 0x85, 0x76, 0x61, 0x6C, 0x75, 0x65]
  {
    hide Nibs, RawEncoding, EncodeItem, EncodeBytes, EncodeList;
    var key, value := [0x6B, 0x65, 0x79], [0x76, 0x61, 0x6C, 0x75, 0x65];
    var a, b := Str([0x20] + key), Str(value);
    WholeBytesPath(key);
    assert Nibs(key)[0..] == Nibs(key);
    assert Lst([a, b]).items == [a, b];
    NodeEncoding(LeafNode(key, value), 0, Lst([a, b]), []);
    TwoItemList(a, b);
    StringItem([0x20] + key);
    StringItem(value);
    ShortForms([0x20] + key, value);
  }

  lemma WholeBytesPath(key: Bytes)
    ensures Nibs([0x20] + key) == Flagged(Nibs(key), true)
  {
    NibsConcat([0x20], key);
    assert Nibs([0x20]) == [2, 0] by { NibsAt([0x20], 0); }
  }

  lemma ShortForms(a: Bytes, b: Bytes)
    requires 1 < |a| && 1 < |b| && |a| + |b| < 50
    ensures EncodeList(EncodeBytes(a) + EncodeBytes(b)) == [0xC2 + |a| + |b|, 0x80 + |a|] + a + [0x80 + |b|] + b
  {
  }

  // ---------------------------------------------------------------------------------------------
  // Whole tries
  // ---------------------------------------------------------------------------------------------

  /** The item of the root node of a non-empty trie. */
  function TreeItem(keccak: Bytes -> H256, t: T.Tree): Item
    requires !t.Nil?
    decreases t, 0
  {
    match t
    case Leaf(s, v) => Lst([Str(HexPrefix(s, true)), Str(v)])
    case Ext(p, c) => Lst([Str(HexPrefix(p, false)), Ref(keccak, c)])
    case Branch(ch, w) => Lst(Refs(keccak, ch) + [Str(w)])
  }

  /** How a parent refers to a node: by the node itself if it takes less than 32 bytes, otherwise by its digest. */
  function Ref(keccak: Bytes -> H256, t: T.Tree): Item
    decreases t, 1
  {
    if t.Nil? then Str([])
    else
      var i := TreeItem(keccak, t);
      if |EncodeItem(i)| < 32 then i else Str(keccak(EncodeItem(i)))
  }

  function Refs(keccak: Bytes -> H256, ch: seq<T.Tree>): (r: seq<Item>)
    ensures |r| == |ch|
    ensures forall k | 0 <= k < |ch| :: r[k] == Ref(keccak, ch[k])
    decreases ch, 2
  {
    seq(|ch|, k requires 0 <= k < |ch| => Ref(keccak, ch[k]))
  }

  /** Main law of node hashes: what a trie is hashed from is the encoding of its item. */
  lemma {:induction false} TreeEncoding(keccak: Bytes -> H256, t: T.Tree)
    requires T.WF(t)
    ensures !t.Nil? ==> EncodeList(Payload(keccak, t)) == EncodeItem(TreeItem(keccak, t))
    ensures StandsFor(Hash(keccak, t), Ref(keccak, t))
    decreases t
  {
    hide HexPrefix, StandsFor, EncodeItem, ChildItem, EncodeBytes, ChoiceItems;
    match t {
      case Nil =>
      case Leaf(s, v) =>
        StringItem(HexPrefix(s, true));
        StringItem(v);
        TwoItemList(Str(HexPrefix(s, true)), Str(v));
      case Ext(p, c) =>
        TreeEncoding(keccak, c);
        StringItem(HexPrefix(p, false));
        ShortIsInline(keccak, c);
        ChoiceStands(Hash(keccak, c), Ref(keccak, c));
        TwoItemList(Str(HexPrefix(p, false)), Ref(keccak, c));
      case Branch(ch, w) =>
        forall k | 0 <= k < 16
          ensures StandsFor(Hashes(keccak, ch)[k], Refs(keccak, ch)[k])
        {
          TreeEncoding(keccak, ch[k]);
        }
        ChoicesStand(Hashes(keccak, ch), Refs(keccak, ch));
        StringItem(w);
        BranchList(Refs(keccak, ch), Str(w));
    }
    HashStands(keccak, t);
  }

  lemma ShortIsInline(keccak: Bytes -> H256, t: T.Tree)
    requires !t.Nil?
    ensures Hash(keccak, t).IsValid() && (Hash(keccak, t).Inline? ==> |Hash(keccak, t).bytes| < 32)
  {
    assert EncodeList(Payload(keccak, t)) != [];
  }

  lemma HashStands(keccak: Bytes -> H256, t: T.Tree)
    requires !t.Nil? ==> EncodeList(Payload(keccak, t)) == EncodeItem(TreeItem(keccak, t))
    ensures StandsFor(Hash(keccak, t), Ref(keccak, t))
  {
    hide Payload, TreeItem;
  }

  // ---------------------------------------------------------------------------------------------
  // Stored nodes
  // ---------------------------------------------------------------------------------------------

  /** A `Vec<u8>` in the database: a list with one number for each byte. */
  function BytesItem(s: Bytes): Item {
    Lst(seq(|s|, i requires 0 <= i < |s| => Number(s[i])))
  }

  function FlagItem(b: bool): Item {
    Str(if b then [1] else [])
  }

  function ChoicesItem(hs: seq<NodeHash>): Item {
    Lst(seq(|hs|, i requires 0 <= i < |hs| => BytesItem(HashBytes(hs[i]))))
  }

  /** What a node is stored as: the fields of its kind in order. */
  function StoredItem(n: Node): Item {
    match n
    case BranchNode(choices, path, value) => Lst([ChoicesItem(choices), BytesItem(path), BytesItem(value)])
    case ExtensionNode(prefix, child) =>
      Lst([Lst([BytesItem(prefix.data), FlagItem(prefix.firstIsHalf), FlagItem(prefix.lastIsHalf)]),
           BytesItem(HashBytes(child))])
    case LeafNode(path, value) => Lst([BytesItem(path), BytesItem(value)])
  }

  /** Main law of storage: a byte for the kind, 0 for a branch, 1 for an extension, 2 for a leaf, then the fields. */
  lemma StoredEncoding(n: Node)
    ensures EncodeNode(n) ==
            [match n case BranchNode(_, _, _) => 0 case ExtensionNode(_, _) => 1 case LeafNode(_, _) => 2]
            + EncodeItem(StoredItem(n))
  {
    hide Encode, EncodeItem, ItemOf, HasTy, U8s, HashVals, PackedVal, BytesItem, ChoicesItem, FlagItem;
    match n
    case BranchNode(choices, path, value) =>
      ChoicesAre(choices);
      BytesAre(path);
      BytesAre(value);
      StructItem([Vec(VEC_U8), VEC_U8, VEC_U8], NodeVal(n), StoredItem(n).items);
    case ExtensionNode(prefix, child) =>
      PackedIs(prefix);
      BytesAre(HashBytes(child));
      StructItem([NIBBLE_VEC_TY, VEC_U8], NodeVal(n), StoredItem(n).items);
    case LeafNode(path, value) =>
      BytesAre(path);
      BytesAre(value);
      StructItem([VEC_U8, VEC_U8], NodeVal(n), StoredItem(n).items);
  }

  lemma BytesAre(s: Bytes)
    ensures HasTy(U8s(s), VEC_U8) && ItemOf(VEC_U8, U8s(s)) == BytesItem(s)
  {
  }

  lemma ChoicesAre(hs: seq<NodeHash>)
    ensures HasTy(HashVals(hs), Vec(VEC_U8)) && ItemOf(Vec(VEC_U8), HashVals(hs)) == ChoicesItem(hs)
  {
    hide U8s, BytesItem;
    forall i | 0 <= i < |hs|
      ensures HasTy(HashVals(hs).vals[i], VEC_U8)
      ensures ItemOf(VEC_U8, HashVals(hs).vals[i]) == BytesItem(HashBytes(hs[i]))
    {
      BytesAre(HashBytes(hs[i]));
    }
    assert ElemItems(VEC_U8, HashVals(hs).vals) == ChoicesItem(hs).items;
  }

  lemma PackedIs(p: Packed)
    ensures HasTy(PackedVal(p), NIBBLE_VEC_TY)
    ensures ItemOf(NIBBLE_VEC_TY, PackedVal(p)) ==
            Lst([BytesItem(p.data), FlagItem(p.firstIsHalf), FlagItem(p.lastIsHalf)])
  {
    hide U8s, BytesItem;
    BytesAre(p.data);
    var ts, vs := [VEC_U8, Flag, Flag], PackedVal(p).vals;
    assert vs[..3] == vs && vs[3..] == [];
    assert FieldItems(ts, vs) == [BytesItem(p.data), FlagItem(p.firstIsHalf), FlagItem(p.lastIsHalf)];
  }
}
