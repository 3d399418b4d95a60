/**
  * Node hashes: the encoding a node is hashed from (`encode_raw` in `crates/trie/node`), the hash of a whole
  * trie, and the proof that no two tries share a hash unless Keccak collides on their nodes.
  */
module TrieHash {
  import opened Prelude
  import opened Rlp
  import opened Nibbles
  import opened NodeEncoder
  import opened TrieNode
  import T = TrieTree

  /** Larger than any buffer; keeps every length computed from one or two of them inside `usize`. */
  const MAX_LEN: nat := 0x1000_0000_0000_0000

  lemma HeaderSize(short: byte, len: nat)
    requires short == RLP_NULL || short == RLP_EMPTY_LIST
    requires len < USIZE_LIMIT
    ensures |Header(short, len)| <= 9
  {
    if len >= 56 {
      LengthBytes(len);
    }
  }

  lemma EncodedSize(s: Bytes)
    requires |s| < USIZE_LIMIT
    ensures |EncodeBytes(s)| <= |s| + 9
  {
    HeaderSize(RLP_NULL, |s|);
  }

  // ---------------------------------------------------------------------------------------------
  // The encoding of one node
  // ---------------------------------------------------------------------------------------------

  /** A branch writes a missing child as the empty string, a digest as a string, an inline node as it is. */
  function ChoiceItem(h: NodeHash): (r: Bytes) {
    match h
    case Hashed(x) => EncodeBytes(x)
    case Inline(b) => if |b| == 0 then EncodeBytes([]) else if |b| == 32 then EncodeBytes(b) else b
  }

  function ChoiceItems(hs: seq<NodeHash>): (r: Bytes) {
    if hs == [] then [] else ChoiceItem(hs[0]) + ChoiceItems(hs[1..])
  }

  function ChildItem(h: NodeHash): (r: Bytes) {
    match h
    case Hashed(x) => EncodeBytes(x)
    case Inline(b) => b
  }

  /** What a node of the source allows: sixteen choices, a well-formed prefix, a path that reaches `offset`. */
  predicate Encodable(n: Node, offset: nat) {
    match n
    case BranchNode(choices, _, value) =>
      |choices| == 16 && |value| < MAX_LEN && forall i | 0 <= i < 16 :: |HashBytes(choices[i])| <= 32
    case ExtensionNode(prefix, child) =>
      prefix.WellFormed() && |prefix.data| < MAX_LEN && |HashBytes(child)| <= 32
    case LeafNode(path, value) => offset <= 2 * |path| && |path| < MAX_LEN && |value| < MAX_LEN
  }

  function RawPayload(n: Node, offset: nat): (r: Bytes)
    requires Encodable(n, offset)
  {
    match n
    case BranchNode(choices, _, value) => ChoiceItems(choices) + EncodeBytes(value)
    case ExtensionNode(prefix, child) => PathItem(prefix.View(), false) + ChildItem(child)
    case LeafNode(path, value) => PathItem(Nibs(path)[offset..], true) + EncodeBytes(value)
  }

  function RawEncoding(n: Node, offset: nat): (r: Bytes)
    requires Encodable(n, offset)
  {
    EncodeList(RawPayload(n, offset))
  }

  function ComputeHash(keccak: Bytes -> H256, n: Node, offset: nat): NodeHash
    requires Encodable(n, offset)
  {
    FromEncodedRaw(keccak, RawEncoding(n, offset))
  }

  /** The predicted lengths of a leaf's items add up to its payload. */
  lemma LeafLens(path: Bytes, value: Bytes, offset: nat)
    requires Encodable(LeafNode(path, value), offset)
    ensures PathLen(2 * |path| - offset) + BytesLen(|value|, if |value| == 0 then 0 else value[0])
         == |RawPayload(LeafNode(path, value), offset)| < USIZE_LIMIT
  {
    hide HexPrefix, EncodeBytes, PathLen, BytesLen, Nibs;
    var ns := Nibs(path)[offset..];
    PathLenIsExact(ns, true);
    BytesLenIsExact(value);
    EncodedSize(value);
    EncodedSize(HexPrefix(ns, true));
  }

  lemma ExtensionLens(prefix: Packed, child: NodeHash)
    requires Encodable(ExtensionNode(prefix, child), 0)
    ensures PathLen(prefix.Len()) + (if child.Inline? then |child.bytes| else BytesLen(32, child.digest[0]))
         == |RawPayload(ExtensionNode(prefix, child), 0)| < USIZE_LIMIT
  {
    PathLenIsExact(prefix.View(), false);
    EncodedSize(HexPrefix(prefix.View(), false));
    BytesLenIsExact(HashBytes(child));
  }

  lemma ListOf(len: nat, a: Bytes, b: Bytes)
    requires len == |a| + |b|
    ensures [] + Header(RLP_EMPTY_LIST, len) + a + b == EncodeList(a + b)
  {
    Assoc(Header(RLP_EMPTY_LIST, len), a, b);
    assert [] + Header(RLP_EMPTY_LIST, len) == Header(RLP_EMPTY_LIST, len);
  }

  method EncodeRawLeaf(path: Bytes, value: Bytes, offset: nat) returns (r: Bytes)
    requires Encodable(LeafNode(path, value), offset)
    ensures r == RawEncoding(LeafNode(path, value), offset)
  {
    var len := PathLen(2 * |path| - offset) + BytesLen(|value|, if |value| == 0 then 0 else value[0]);
    LeafLens(path, value, offset);
    ghost var pathItem, valueItem := PathItem(Nibs(path)[offset..], true), EncodeBytes(value);
    var encoder := new NodeEncoder();
    encoder.WriteListHeader(len);
    encoder.WritePathSlice(path, offset, true);
    encoder.WriteBytes(value);
    r := encoder.encoded;
    assert r == [] + Header(RLP_EMPTY_LIST, len) + pathItem + valueItem;
    ListOf(len, pathItem, valueItem);
  }

  method EncodeRawExtension(prefix: Packed, child: NodeHash) returns (r: Bytes)
    requires Encodable(ExtensionNode(prefix, child), 0)
    ensures r == RawEncoding(ExtensionNode(prefix, child), 0)
  {
    var prefixLen := PathLen(prefix.Len());
    var childLen := if child.Inline? then |child.bytes| else BytesLen(32, child.digest[0]);
    ExtensionLens(prefix, child);
    var encoder := new NodeEncoder();
    encoder.WriteListHeader(prefixLen + childLen);
    encoder.WritePathVec(prefix, false);
    if child.Inline? {
      encoder.WriteRaw(child.bytes);
    } else {
      encoder.WriteBytes(child.digest);
    }
    r := encoder.encoded;
    ListOf(prefixLen + childLen, PathItem(prefix.View(), false), ChildItem(child));
  }

  /** The length a branch counts for one of its choices. */
  function ChoiceLen(h: NodeHash): nat {
    var x := HashBytes(h);
    if |x| == 0 then 1 else if |x| == 32 then BytesLen(32, x[0]) else |x|
  }

  lemma ChoiceLenIsExact(h: NodeHash)
    requires |HashBytes(h)| <= 32
    ensures ChoiceLen(h) == |ChoiceItem(h)| <= 33
  {
    BytesLenIsExact(HashBytes(h));
  }

  method EncodeRawBranch(choices: seq<NodeHash>, path: Bytes, value: Bytes) returns (r: Bytes)
    requires Encodable(BranchNode(choices, path, value), 0)
    ensures r == RawEncoding(BranchNode(choices, path, value), 0)
  {
    var childrenLen := 0;
    var i := 0;
    while i < 16
      invariant i <= 16
      invariant childrenLen + |ChoiceItems(choices[i..])| == |ChoiceItems(choices)|
      invariant childrenLen <= 33 * i
    {
      ChoiceLenIsExact(choices[i]);
      assert choices[i..][1..] == choices[i + 1..];
      childrenLen := childrenLen + ChoiceLen(choices[i]);
      i := i + 1;
    }
    BytesLenIsExact(value);
    EncodedSize(value);
    childrenLen := childrenLen + (if value == [] then 1 else BytesLen(|value|, value[0]));
    var encoder := new NodeEncoder();
    encoder.WriteListHeader(childrenLen);
    WriteChoices(encoder, choices);
    encoder.WriteBytes(value);
    r := encoder.encoded;
    ListOf(childrenLen, ChoiceItems(choices), EncodeBytes(value));
  }

  method WriteChoices(encoder: NodeEncoder, choices: seq<NodeHash>)
    requires |choices| == 16
    modifies encoder
    ensures encoder.encoded == old(encoder.encoded) + ChoiceItems(choices)
  {
    var i := 0;
    while i < 16
      invariant i <= 16
      invariant encoder.encoded + ChoiceItems(choices[i..]) == old(encoder.encoded) + ChoiceItems(choices)
    {
      ghost var before := encoder.encoded;
      var x := HashBytes(choices[i]);
      if |x| == 0 {
        encoder.WriteBytes([]);
      } else if |x| == 32 {
        encoder.WriteBytes(x);
      } else {
        encoder.WriteRaw(x);
      }
      assert choices[i..][1..] == choices[i + 1..];
      Assoc(before, ChoiceItem(choices[i]), ChoiceItems(choices[i + 1..]));
      i := i + 1;
    }
  }

  // ---------------------------------------------------------------------------------------------
  // The hash of a trie
  // ---------------------------------------------------------------------------------------------

  function Hash(keccak: Bytes -> H256, t: T.Tree): (h: NodeHash)
    decreases t, 1
  {
    if t.Nil? then Inline([]) else FromEncodedRaw(keccak, EncodeList(Payload(keccak, t)))
  }

  /** The payload of the root node of a non-empty trie; children enter by their hash. */
  function Payload(keccak: Bytes -> H256, t: T.Tree): (r: Bytes)
    requires !t.Nil?
    decreases t, 0
  {
    match t
    case Leaf(s, v) => PathItem(s, true) + EncodeBytes(v)
    case Ext(p, c) => PathItem(p, false) + ChildItem(Hash(keccak, c))
    case Branch(ch, w) => ChoiceItems(Hashes(keccak, ch)) + EncodeBytes(w)
  }

  function Hashes(keccak: Bytes -> H256, ch: seq<T.Tree>): (hs: seq<NodeHash>)
    ensures |hs| == |ch|
    ensures forall i | 0 <= i < |ch| :: hs[i] == Hash(keccak, ch[i])
    decreases ch, 2
  {
    seq(|ch|, i requires 0 <= i < |ch| => Hash(keccak, ch[i]))
  }

  /** No path or value is longer than memory. */
  predicate Small(t: T.Tree) {
    match t
    case Nil => true
    case Leaf(s, v) => |s| < MAX_LEN && |v| < MAX_LEN
    case Ext(p, c) => |p| < MAX_LEN && Small(c)
    case Branch(ch, w) => |w| < MAX_LEN && forall i | 0 <= i < |ch| :: Small(ch[i])
  }

  /** The encodings of all nodes of the trie lie in `u`. */
  predicate Within(keccak: Bytes -> H256, t: T.Tree, u: iset<Bytes>) {
    match t
    case Nil => true
    case Leaf(_, _) => EncodeList(Payload(keccak, t)) in u
    case Ext(_, c) => EncodeList(Payload(keccak, t)) in u && Within(keccak, c, u)
    case Branch(ch, _) => EncodeList(Payload(keccak, t)) in u && forall i | 0 <= i < |ch| :: Within(keccak, ch[i], u)
  }

  /** Keccak does not collide on `u`. */
  ghost predicate CollisionFree(keccak: Bytes -> H256, u: iset<Bytes>) {
    forall a, b | a in u && b in u && keccak(a) == keccak(b) :: a == b
  }

  // ---------------------------------------------------------------------------------------------
  // Items that end where they say they end
  // ---------------------------------------------------------------------------------------------

  predicate IsItem(x: Bytes) {
    DecodeRlpItem(x).Ok? && DecodeRlpItem(x).value.rest == []
  }

  lemma StringIsItem(s: Bytes)
    requires |EncodeBytes(s)| < USIZE_LIMIT
    ensures IsItem(EncodeBytes(s))
  {
    DecodeEncodedBytes(s, []);
    assert EncodeBytes(s) + [] == EncodeBytes(s);
  }

  lemma ListIsItem(payload: Bytes)
    requires |EncodeList(payload)| < USIZE_LIMIT
    ensures IsItem(EncodeList(payload))
  {
    DecodeEncodedList(payload, []);
    assert EncodeList(payload) + [] == EncodeList(payload);
  }

  /** What follows an item can be cancelled, and so can the item. */
  lemma Cancel(x: Bytes, y: Bytes, x': Bytes, y': Bytes)
    requires IsItem(x) && IsItem(x')
    requires x + y == x' + y'
    ensures x == x' && y == y'
  {
    DecodeIsLocal(x, y);
    DecodeIsLocal(x', y');
    assert [] + y == y && [] + y' == y';
    assert |x| == |x'|;
    assert x == (x + y)[..|x|] && x' == (x' + y')[..|x'|];
  }

  lemma StringInjective(s: Bytes, s': Bytes)
    requires |EncodeBytes(s)| < USIZE_LIMIT && |EncodeBytes(s')| < USIZE_LIMIT
    requires EncodeBytes(s) == EncodeBytes(s')
    ensures s == s'
  {
    DecodeEncodedBytes(s, []);
    DecodeEncodedBytes(s', []);
  }

  lemma ListInjective(p: Bytes, p': Bytes)
    requires |EncodeList(p)| < USIZE_LIMIT && |EncodeList(p')| < USIZE_LIMIT
    requires EncodeList(p) == EncodeList(p')
    ensures p == p'
  {
    DecodeEncodedList(p, []);
    DecodeEncodedList(p', []);
  }

  // ---------------------------------------------------------------------------------------------
  // Sizes and shapes of the items of a node
  // ---------------------------------------------------------------------------------------------

  /** A reference that hashing produces: a digest, nothing, or a short list item. */
  predicate IsRef(h: NodeHash) {
    h.Inline? ==> h.bytes == [] || (|h.bytes| < 32 && h.bytes[0] >= 0xC0 && IsItem(h.bytes))
  }

  lemma ChoiceIsItem(h: NodeHash)
    requires IsRef(h)
    ensures IsItem(ChoiceItem(h)) && 1 <= |ChoiceItem(h)| <= 33
  {
    if h.Hashed? {
      StringIsItem(h.digest);
    } else {
      StringIsItem([]);
    }
  }

  /** A choice item determines the reference. */
  lemma ChoiceInjective(h: NodeHash, h': NodeHash)
    requires IsRef(h) && IsRef(h')
    requires ChoiceItem(h) == ChoiceItem(h')
    ensures h == h'
  {
    assert h.Hashed? ==> ChoiceItem(h) == [0xA0] + h.digest && ChoiceItem(h)[1..] == h.digest;
    assert h'.Hashed? ==> ChoiceItem(h') == [0xA0] + h'.digest && ChoiceItem(h')[1..] == h'.digest;
  }

  lemma ChoicesSize(hs: seq<NodeHash>)
    requires forall i | 0 <= i < |hs| :: IsRef(hs[i])
    ensures |hs| <= |ChoiceItems(hs)| <= 33 * |hs|
  {
    if hs != [] {
      ChoiceIsItem(hs[0]);
      ChoicesSize(hs[1..]);
    }
  }

  lemma {:induction false} ChoicesInjective(hs: seq<NodeHash>, y: Bytes, hs': seq<NodeHash>, y': Bytes)
    requires |hs| == |hs'|
    requires forall i | 0 <= i < |hs| :: IsRef(hs[i]) && IsRef(hs'[i])
    requires ChoiceItems(hs) + y == ChoiceItems(hs') + y'
    ensures hs == hs' && y == y'
  {
    if hs == [] {
      assert [] + y == y && [] + y' == y';
    } else {
      ChoiceIsItem(hs[0]);
      ChoiceIsItem(hs'[0]);
      var z, z' := ChoiceItems(hs[1..]) + y, ChoiceItems(hs'[1..]) + y';
      Assoc(ChoiceItem(hs[0]), ChoiceItems(hs[1..]), y);
      Assoc(ChoiceItem(hs'[0]), ChoiceItems(hs'[1..]), y');
      Cancel(ChoiceItem(hs[0]), z, ChoiceItem(hs'[0]), z');
      ChoiceInjective(hs[0], hs'[0]);
      ChoicesInjective(hs[1..], y, hs'[1..], y');
      assert hs == [hs[0]] + hs[1..] && hs' == [hs'[0]] + hs'[1..];
    }
  }

  // ---------------------------------------------------------------------------------------------
  // Hashes are references, and they determine the trie
  // ---------------------------------------------------------------------------------------------

  lemma PathItemSize(ns: seq<nibble>, leaf: bool)
    requires |ns| < 2 * MAX_LEN
    ensures |PathItem(ns, leaf)| <= |ns| / 2 + 10
  {
    EncodedSize(HexPrefix(ns, leaf));
  }

  lemma {:induction false} HashIsRef(keccak: Bytes -> H256, t: T.Tree)
    requires T.WF(t) && Small(t)
    ensures IsRef(Hash(keccak, t))
    ensures !t.Nil? ==> Hash(keccak, t).IsValid() && |EncodeList(Payload(keccak, t))| < USIZE_LIMIT
    decreases t
  {
    match t
    case Nil =>
    case Leaf(s, v) =>
      PathItemSize(s, true);
      EncodedSize(v);
      FromPayload(keccak, Payload(keccak, t));
    case Ext(p, c) =>
      PathItemSize(p, false);
      HashIsRef(keccak, c);
      ChoiceIsItem(Hash(keccak, c));
      FromPayload(keccak, Payload(keccak, t));
    case Branch(ch, w) =>
      EncodedSize(w);
      forall i | 0 <= i < 16
        ensures IsRef(Hashes(keccak, ch)[i])
      {
        HashIsRef(keccak, ch[i]);
      }
      ChoicesSize(Hashes(keccak, ch));
      FromPayload(keccak, Payload(keccak, t));
  }

  lemma FromPayload(keccak: Bytes -> H256, payload: Bytes)
    requires |payload| < USIZE_LIMIT - 9
    ensures |EncodeList(payload)| < USIZE_LIMIT
    ensures var h := FromEncodedRaw(keccak, EncodeList(payload)); IsRef(h) && h.IsValid()
  {
    HeaderSize(RLP_EMPTY_LIST, |payload|);
    ListIsItem(payload);
    if |payload| < 56 {
      assert EncodeList(payload)[0] == 0xC0 + |payload|;
    }
  }

  /** The two items of a leaf or an extension. */
  ghost function FirstItem(t: T.Tree): Bytes
    requires t.Leaf? || t.Ext?
  {
    if t.Leaf? then PathItem(t.suffix, true) else PathItem(t.prefix, false)
  }

  ghost function SecondItem(keccak: Bytes -> H256, t: T.Tree): Bytes
    requires t.Leaf? || t.Ext?
  {
    if t.Leaf? then EncodeBytes(t.value) else ChildItem(Hash(keccak, t.child))
  }

  lemma TwoItems(keccak: Bytes -> H256, t: T.Tree)
    requires T.WF(t) && Small(t) && (t.Leaf? || t.Ext?)
    ensures Payload(keccak, t) == FirstItem(t) + SecondItem(keccak, t)
    ensures IsItem(FirstItem(t)) && IsItem(SecondItem(keccak, t))
    ensures |FirstItem(t)| < USIZE_LIMIT && |SecondItem(keccak, t)| < USIZE_LIMIT
    ensures t.Ext? ==> SecondItem(keccak, t) == ChoiceItem(Hash(keccak, t.child))
  {
    if t.Leaf? {
      PathItemSize(t.suffix, true);
      StringIsItem(HexPrefix(t.suffix, true));
      EncodedSize(t.value);
      StringIsItem(t.value);
    } else {
      PathItemSize(t.prefix, false);
      StringIsItem(HexPrefix(t.prefix, false));
      HashIsRef(keccak, t.child);
      ChoiceIsItem(Hash(keccak, t.child));
    }
  }

  lemma ChildrenAreRefs(keccak: Bytes -> H256, t: T.Tree)
    requires T.WF(t) && Small(t) && t.Branch?
    ensures forall i | 0 <= i < 16 :: IsRef(Hashes(keccak, t.children)[i])
  {
    forall i | 0 <= i < 16
      ensures IsRef(Hashes(keccak, t.children)[i])
    {
      HashIsRef(keccak, t.children[i]);
    }
  }

  /** A payload of two items is not the payload of a branch, which has seventeen. */
  lemma NotABranch(keccak: Bytes -> H256, t: T.Tree, u: T.Tree)
    requires T.WF(t) && Small(t) && (t.Leaf? || t.Ext?)
    requires T.WF(u) && Small(u) && u.Branch?
    ensures Payload(keccak, t) != Payload(keccak, u)
  {
    TwoItems(keccak, t);
    var hs := Hashes(keccak, u.children);
    ChildrenAreRefs(keccak, u);
    BranchPayload(hs, u.value);
    TooFew(FirstItem(t), SecondItem(keccak, t), ChoiceItem(hs[0]), ChoiceItem(hs[1]),
           ChoiceItems(hs[2..]) + EncodeBytes(u.value));
  }

  lemma BranchPayload(hs: seq<NodeHash>, w: Bytes)
    requires |hs| == 16 && forall i | 0 <= i < 16 :: IsRef(hs[i])
    ensures ChoiceItems(hs) + EncodeBytes(w)
         == ChoiceItem(hs[0]) + (ChoiceItem(hs[1]) + (ChoiceItems(hs[2..]) + EncodeBytes(w)))
    ensures EncodeBytes(w) != []
    ensures IsItem(ChoiceItem(hs[0])) && IsItem(ChoiceItem(hs[1]))
  {
    ChoiceIsItem(hs[0]);
    ChoiceIsItem(hs[1]);
    assert hs[1..][1..] == hs[2..] && hs[1..][0] == hs[1];
    Assoc(ChoiceItem(hs[0]), ChoiceItems(hs[1..]), EncodeBytes(w));
    Assoc(ChoiceItem(hs[1]), ChoiceItems(hs[2..]), EncodeBytes(w));
  }

  lemma TooFew(a: Bytes, b: Bytes, c: Bytes, d: Bytes, rest: Bytes)
    requires IsItem(a) && IsItem(b) && IsItem(c) && IsItem(d) && rest != []
    ensures a + b != c + (d + rest)
  {
    if a + b == c + (d + rest) {
      Cancel(a, b, c, d + rest);
      assert b + [] == d + rest;
      Cancel(b, [], d, rest);
      assert false;
    }
  }

  lemma NotLeafAndExtension(keccak: Bytes -> H256, t: T.Tree, u: T.Tree)
    requires T.WF(t) && Small(t) && t.Leaf?
    requires T.WF(u) && Small(u) && u.Ext?
    ensures Payload(keccak, t) != Payload(keccak, u)
  {
    TwoItems(keccak, t);
    TwoItems(keccak, u);
    if Payload(keccak, t) == Payload(keccak, u) {
      Cancel(FirstItem(t), SecondItem(keccak, t), FirstItem(u), SecondItem(keccak, u));
      StringInjective(HexPrefix(t.suffix, true), HexPrefix(u.prefix, false));
      HexPrefixInjective(t.suffix, true, u.prefix, false);
      assert false;
    }
  }

  /** Two tries with one hash have one encoding. */
  lemma SameEncoding(keccak: Bytes -> H256, u: iset<Bytes>, a: T.Tree, b: T.Tree)
    requires CollisionFree(keccak, u)
    requires !a.Nil? && !b.Nil? && Within(keccak, a, u) && Within(keccak, b, u)
    requires Hash(keccak, a) == Hash(keccak, b)
    ensures EncodeList(Payload(keccak, a)) == EncodeList(Payload(keccak, b))
  {
    var x, y := EncodeList(Payload(keccak, a)), EncodeList(Payload(keccak, b));
    assert x in u && y in u;
  }

  /** A well-formed trie of addressable size whose nodes lie in `u`. */
  ghost predicate Known(keccak: Bytes -> H256, u: iset<Bytes>, t: T.Tree) {
    T.WF(t) && Small(t) && Within(keccak, t, u)
  }

  lemma KnownChild(keccak: Bytes -> H256, u: iset<Bytes>, t: T.Tree)
    requires Known(keccak, u, t)
    ensures t.Ext? ==> Known(keccak, u, t.child)
    ensures t.Branch? ==> |t.children| == 16
    ensures t.Branch? ==> forall i | 0 <= i < 16 :: Known(keccak, u, t.children[i])
  {
  }

  /**
    * Main law: as long as Keccak does not collide on the nodes involved, a hash belongs to one trie only.
    */
  lemma {:induction false} HashInjective(keccak: Bytes -> H256, u: iset<Bytes>, a: T.Tree, b: T.Tree)
    requires CollisionFree(keccak, u)
    requires Known(keccak, u, a) && Known(keccak, u, b)
    requires Hash(keccak, a) == Hash(keccak, b)
    ensures a == b
    decreases a
  {
    hide Known;
    OneLevel(keccak, u, a, b);
    KnownChild(keccak, u, a);
    KnownChild(keccak, u, b);
    match (a, b)
    case (Ext(_, c), Ext(_, d)) => HashInjective(keccak, u, c, d);
    case (Branch(ch, _), Branch(dh, _)) =>
      forall i | 0 <= i < 16
        ensures ch[i] == dh[i]
      {
        HashInjective(keccak, u, ch[i], dh[i]);
      }
    case _ =>
  }

  /** Equal hashes mean equal nodes: the same kind, the same own data, the same child hashes. */
  lemma OneLevel(keccak: Bytes -> H256, u: iset<Bytes>, a: T.Tree, b: T.Tree)
    requires CollisionFree(keccak, u)
    requires Known(keccak, u, a) && Known(keccak, u, b)
    requires Hash(keccak, a) == Hash(keccak, b)
    ensures a.Nil? == b.Nil? && a.Leaf? == b.Leaf? && a.Ext? == b.Ext? && a.Branch? == b.Branch?
    ensures a.Leaf? ==> a == b
    ensures a.Ext? ==> a.prefix == b.prefix && Hash(keccak, a.child) == Hash(keccak, b.child)
    ensures a.Branch? ==> |a.children| == |b.children| == 16 && a.value == b.value
    ensures a.Branch? ==> forall i | 0 <= i < 16 :: Hash(keccak, a.children[i]) == Hash(keccak, b.children[i])
  {
    SamePayload(keccak, u, a, b);
    if a.Leaf? {
      SameLeaf(keccak, a, b);
    } else if a.Ext? {
      SameExt(keccak, a, b);
    } else if a.Branch? {
      SameChildHashes(keccak, a, b);
    }
  }

  lemma SamePayload(keccak: Bytes -> H256, u: iset<Bytes>, a: T.Tree, b: T.Tree)
    requires CollisionFree(keccak, u)
    requires T.WF(a) && Small(a) && Within(keccak, a, u)
    requires T.WF(b) && Small(b) && Within(keccak, b, u)
    requires Hash(keccak, a) == Hash(keccak, b)
    ensures a.Nil? == b.Nil? && a.Leaf? == b.Leaf? && a.Ext? == b.Ext? && a.Branch? == b.Branch?
    ensures !a.Nil? ==> Payload(keccak, a) == Payload(keccak, b)
  {
    HashIsRef(keccak, a);
    HashIsRef(keccak, b);
    if !a.Nil? && !b.Nil? {
      SameEncoding(keccak, u, a, b);
      ListInjective(Payload(keccak, a), Payload(keccak, b));
      SameNodeKind(keccak, a, b);
    }
  }

  lemma SameNodeKind(keccak: Bytes -> H256, a: T.Tree, b: T.Tree)
    requires T.WF(a) && Small(a) && !a.Nil?
    requires T.WF(b) && Small(b) && !b.Nil?
    requires Payload(keccak, a) == Payload(keccak, b)
    ensures a.Leaf? == b.Leaf? && a.Ext? == b.Ext? && a.Branch? == b.Branch?
  {
    if a.Branch? && !b.Branch? {
      NotABranch(keccak, b, a);
    } else if !a.Branch? && b.Branch? {
      NotABranch(keccak, a, b);
    } else if a.Leaf? && b.Ext? {
      NotLeafAndExtension(keccak, a, b);
    } else if a.Ext? && b.Leaf? {
      NotLeafAndExtension(keccak, b, a);
    }
  }

  lemma SameLeaf(keccak: Bytes -> H256, a: T.Tree, b: T.Tree)
    requires T.WF(a) && Small(a) && T.WF(b) && Small(b) && a.Leaf? && b.Leaf?
    requires Payload(keccak, a) == Payload(keccak, b)
    ensures a == b
  {
    TwoItems(keccak, a);
    TwoItems(keccak, b);
    Cancel(FirstItem(a), SecondItem(keccak, a), FirstItem(b), SecondItem(keccak, b));
    StringInjective(HexPrefix(a.suffix, true), HexPrefix(b.suffix, true));
    HexPrefixInjective(a.suffix, true, b.suffix, true);
    StringInjective(a.value, b.value);
  }

  lemma SameExt(keccak: Bytes -> H256, a: T.Tree, b: T.Tree)
    requires T.WF(a) && Small(a) && T.WF(b) && Small(b) && a.Ext? && b.Ext?
    requires Payload(keccak, a) == Payload(keccak, b)
    ensures a.prefix == b.prefix && Hash(keccak, a.child) == Hash(keccak, b.child)
  {
    TwoItems(keccak, a);
    TwoItems(keccak, b);
    Cancel(FirstItem(a), SecondItem(keccak, a), FirstItem(b), SecondItem(keccak, b));
    StringInjective(HexPrefix(a.prefix, false), HexPrefix(b.prefix, false));
    HexPrefixInjective(a.prefix, false, b.prefix, false);
    HashIsRef(keccak, a.child);
    HashIsRef(keccak, b.child);
    ChoiceInjective(Hash(keccak, a.child), Hash(keccak, b.child));
  }

  lemma SameChildHashes(keccak: Bytes -> H256, a: T.Tree, b: T.Tree)
    requires T.WF(a) && Small(a) && T.WF(b) && Small(b) && a.Branch? && b.Branch?
    requires Payload(keccak, a) == Payload(keccak, b)
    ensures a.value == b.value
    ensures forall i | 0 <= i < 16 :: Hash(keccak, a.children[i]) == Hash(keccak, b.children[i])
  {
    ChildrenAreRefs(keccak, a);
    ChildrenAreRefs(keccak, b);
    var hs, hs' := Hashes(keccak, a.children), Hashes(keccak, b.children);
    ChoicesInjective(hs, EncodeBytes(a.value), hs', EncodeBytes(b.value));
    assert forall i | 0 <= i < 16 :: hs[i] == hs'[i];
    EncodedSize(a.value);
    EncodedSize(b.value);
    StringInjective(a.value, b.value);
  }
}
