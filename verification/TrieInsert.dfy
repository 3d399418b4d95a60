/**
  * Reading and inserting through the store: `get` and `insert` of the node kinds in `crates/trie/node`. Each method takes,
  * as a ghost argument, the trie that its node stands for, and is proved to do to the store what the operations of
  * `TrieTree` do to that trie as the walk sees it (`TrieWalk`). A path may be any byte string; it panics exactly when it
  * overruns a prefix or the path of a stored leaf. What an insertion stores as leaves is said exactly (`Writes`).
  */
module TrieInsert {
  import opened Prelude
  import opened Rlp
  import opened Nibbles
  import opened TrieNode
  import opened TrieHash
  import opened TrieStore
  import opened TrieWalk
  import T = TrieTree

  // ---------------------------------------------------------------------------------------------
  // Lookup
  // ---------------------------------------------------------------------------------------------

  lemma DropDrop<X>(s: seq<X>, a: nat, b: nat)
    requires a + b <= |s|
    ensures s[a..][b..] == s[a + b..]
  {
  }

  /** Neither `expect` nor the decoder can fail while the trie is stored. */
  method NodeGet(state: TrieState, node: Node, data: Bytes, offset: nat, ghost keys: iset<Binding>, ghost t: T.Tree)
    returns (r: Result<Option<Bytes>>)
    requires T.WF(t) && offset <= 2 * |data| && !t.Nil?
    requires Stored(state.keccak, keys, state.Value(), t, offset)
    requires Resolve(state.Value(), Hash(state.keccak, t)) == Ok(Some(node))
    ensures r == GetVia(state.keccak, state.Value(), t, offset, Nibs(data)[offset..])
    decreases t
  {
    hide Nibs, Hash, Below, Stored, Resolve, PathOf, Seen, OffEnd, T.StopOf;
    StoredMeans(state.keccak, keys, state.Value(), t, offset);
    var path := new NibbleSlice(data, offset);
    match node {
      case LeafNode(own, value) =>
        SeenLeaf(state.keccak, state.Value(), t, offset, Nibs(data)[offset..]);
        var same := path.CmpRest(own);
        r := if same.None? then Panic else Ok(if same.value then Some(value) else None);
      case ExtensionNode(prefix, child) =>
        r := ExtensionGet(state, prefix, child, data, offset, keys, t);
      case BranchNode(choices, own, value) =>
        r := BranchGet(state, choices, own, value, data, offset, keys, t);
    }
  }

  method ExtensionGet(
    state: TrieState, prefix: Packed, child: NodeHash, data: Bytes, offset: nat, ghost keys: iset<Binding>, ghost t: T.Tree)
    returns (r: Result<Option<Bytes>>)
    requires T.WF(t) && offset <= 2 * |data|
    requires Matches(state.keccak, keys, ExtensionNode(prefix, child), t, offset)
    requires Below(state.keccak, keys, state.Value(), t, offset)
    ensures r == GetVia(state.keccak, state.Value(), t, offset, Nibs(data)[offset..])
    decreases t, 0
  {
    hide Nibs, Hash, Below, Stored, Matches, T.WF, Seen, OffEnd, T.StopOf, Resolve;
    ExtensionParts(state.keccak, keys, state.Value(), ExtensionNode(prefix, child), t, offset);
    SeenBehind(state.keccak, state.Value(), t, offset, Nibs(data)[offset..]);
    ghost var p := t.prefix;
    AtExtension(t, Nibs(data), offset);
    PrefixWidth(prefix, offset);
    var path := new NibbleSlice(data, offset);
    var skipped := path.SkipPrefix(prefix);
    if skipped.None? {
      return Panic;
    }
    if skipped.value {
      DropDrop(Nibs(data), offset, |p|);
      var found := state.GetNode(child);
      StoredMeans(state.keccak, keys, state.Value(), t.child, offset + |p|);
      r := NodeGet(state, Unwrap(found), data, path.offset, keys, t.child);
    } else {
      r := Ok(None);
    }
  }

  /** The bytes of an aligned prefix. */
  lemma PrefixWidth(prefix: Packed, d: nat)
    requires prefix.Normalised() && prefix.firstIsHalf == (d % 2 == 1)
    ensures |prefix.data| == T.Width(d, prefix.Len())
  {
  }

  /** What a walk does at an extension. */
  lemma AtExtension(t: T.Tree, k: T.Key, offset: nat)
    requires t.Ext? && offset <= |k| && |k| % 2 == 0
    ensures T.Overruns(t, offset, k[offset..]) <==>
            || (T.Width(offset, |t.prefix|) <= |k| / 2 && |k| - offset < |t.prefix|)
            || (t.prefix <= k[offset..] && T.Overruns(t.child, offset + |t.prefix|, k[offset + |t.prefix|..]))
    ensures T.Lookup(t, k[offset..]) ==
            if t.prefix <= k[offset..] then T.Lookup(t.child, k[offset + |t.prefix|..]) else None
  {
    if |t.prefix| <= |k| - offset {
      DropDrop(k, offset, |t.prefix|);
    }
  }

  /** What a stored extension says about its child. */
  lemma ExtensionParts(keccak: Bytes -> H256, keys: iset<Binding>, m: Store, node: Node, t: T.Tree, d: nat)
    requires T.WF(t) && node.ExtensionNode? && Matches(keccak, keys, node, t, d) && Below(keccak, keys, m, t, d)
    ensures t.Ext? && t.child.Branch? && t.prefix != []
    ensures node.prefix.Normalised() && node.prefix.View() == t.prefix && node.prefix.firstIsHalf == (d % 2 == 1)
    ensures T.WF(t.child) && Stored(keccak, keys, m, t.child, d + |t.prefix|)
    ensures node.child == Hash(keccak, t.child)
  {
    hide Hash;
  }

  method BranchGet(
    state: TrieState, choices: seq<NodeHash>, own: Bytes, value: Bytes, data: Bytes, offset: nat,
    ghost keys: iset<Binding>, ghost t: T.Tree)
    returns (r: Result<Option<Bytes>>)
    requires T.WF(t) && offset <= 2 * |data|
    requires Matches(state.keccak, keys, BranchNode(choices, own, value), t, offset)
    requires Below(state.keccak, keys, state.Value(), t, offset)
    ensures r == GetVia(state.keccak, state.Value(), t, offset, Nibs(data)[offset..])
    decreases t, 0
  {
    hide Nibs, Hash, Below, Stored, Matches, T.WF, GetVia, Resolve;
    BranchParts(state.keccak, keys, state.Value(), BranchNode(choices, own, value), t, offset);
    GetBelow(state.keccak, state.Value(), t, offset, Nibs(data));
    var path := new NibbleSlice(data, offset);
    var choice := path.Next();
    if choice.None? {
      return Ok(if value != [] then Some(value) else None);
    }
    ghost var c := t.children[choice.value];
    if choices[choice.value].IsValid() {
      DropDrop(Nibs(data), offset, 1);
      var found := state.GetNode(choices[choice.value]);
      StoredMeans(state.keccak, keys, state.Value(), c, offset + 1);
      r := NodeGet(state, Unwrap(found), data, path.offset, keys, c);
    } else {
      r := Ok(None);
    }
  }

  /** How a read goes on from a branch. */
  lemma GetBelow(keccak: Bytes -> H256, m: Store, t: T.Tree, d: nat, k: T.Key)
    requires t.Branch? && |t.children| == 16 && d <= |k|
    ensures d == |k| ==> GetVia(keccak, m, t, d, k[d..]) == Ok(T.Own(t.value))
    ensures d < |k| ==>
              var c := t.children[k[d]];
              && GetVia(keccak, m, t, d, k[d..]) == GetVia(keccak, m, c, d + 1, k[d + 1..])
              && (c.Nil? ==> GetVia(keccak, m, c, d + 1, k[d + 1..]) == Ok(None))
  {
    hide Nibs, Hash, PathOf, OffEnd;
    AtBranch(t, k, d);
    SeenChild(keccak, m, t, d, k[d..]);
    if d < |k| {
      DropDrop(k, d, 1);
      AtBranch(Seen(keccak, m, t, d, k[d..]), k, d);
      NothingSeen(keccak, m, d + 1, k[d + 1..]);
    }
  }

  lemma NothingSeen(keccak: Bytes -> H256, m: Store, d: nat, k: T.Key)
    ensures Seen(keccak, m, T.Nil, d, k) == T.Nil && Passes(keccak, m, T.Nil, d, k) && T.StopOf(T.Nil, k).None?
  {
  }

  /** What a walk does at a branch. */
  lemma AtBranch(t: T.Tree, k: T.Key, offset: nat)
    requires t.Branch? && |t.children| == 16 && offset <= |k|
    ensures offset == |k| ==> !T.Overruns(t, offset, k[offset..]) && T.Lookup(t, k[offset..]) == T.Own(t.value)
    ensures offset < |k| ==>
              && T.Overruns(t, offset, k[offset..]) == T.Overruns(t.children[k[offset]], offset + 1, k[offset + 1..])
              && T.Lookup(t, k[offset..]) == T.Lookup(t.children[k[offset]], k[offset + 1..])
  {
    if offset < |k| {
      DropDrop(k, offset, 1);
    }
  }

  /** What a stored branch says about each of its children. */
  lemma BranchParts(keccak: Bytes -> H256, keys: iset<Binding>, m: Store, node: Node, t: T.Tree, d: nat)
    requires T.WF(t) && node.BranchNode? && Matches(keccak, keys, node, t, d) && Below(keccak, keys, m, t, d)
    ensures t.Branch? && |t.children| == |node.choices| == 16
    ensures node.choices == Hashes(keccak, t.children) && node.value == t.value
    ensures if t.value == [] then node.path == [] else (node.path, t.value) in keys
    ensures forall i | 0 <= i < 16 ::
              && T.WF(t.children[i])
              && Stored(keccak, keys, m, t.children[i], d + 1)
              && node.choices[i] == Hash(keccak, t.children[i])
              && (node.choices[i].IsValid() <==> !t.children[i].Nil?)
  {
    hide Hash;
    forall i | 0 <= i < 16
      ensures node.choices[i].IsValid() <==> !t.children[i].Nil?
    {
      ValidMeansChild(keccak, t.children[i]);
    }
  }

  lemma ValidMeansChild(keccak: Bytes -> H256, t: T.Tree)
    ensures Hash(keccak, t).IsValid() <==> !t.Nil?
  {
    hide EncodeList, Payload;
    if !t.Nil? {
      NotEmpty(Payload(keccak, t));
    }
  }

  lemma NotEmpty(payload: Bytes)
    ensures EncodeList(payload) != []
  {
  }

  // ---------------------------------------------------------------------------------------------
  // Insertion
  // ---------------------------------------------------------------------------------------------

  function NoChoices(): (r: seq<NodeHash>)
    ensures |r| == 16
  {
    seq(16, _ => Inline([]))
  }

  lemma NoHashes(keccak: Bytes -> H256)
    ensures NoChoices() == Hashes(keccak, T.NoChildren(16))
  {
  }

  lemma HashesUpdate(keccak: Bytes -> H256, ch: seq<T.Tree>, i: nat, c: T.Tree)
    requires i < |ch|
    ensures Hashes(keccak, ch)[i := Hash(keccak, c)] == Hashes(keccak, ch[i := c])
  {
    hide Hash;
  }

  lemma ExtendsSelf(keccak: Bytes -> H256, u: iset<Bytes>, keys: iset<Binding>, m: Store)
    ensures Extends(keccak, u, keys, m, m)
  {
  }

  lemma BelowLeaf(keccak: Bytes -> H256, keys: iset<Binding>, m: Store, s: T.Key, v: Bytes, d: nat)
    ensures Below(keccak, keys, m, T.Leaf(s, v), d)
  {
  }

  /** A branch node over stored children. */
  lemma BranchStands(
    keccak: Bytes -> H256, keys: iset<Binding>, m: Store, choices: seq<NodeHash>, own: Bytes, b: T.Tree, d: nat)
    requires b.Branch? && |b.children| == 16 && choices == Hashes(keccak, b.children)
    requires if b.value == [] then own == [] else (own, b.value) in keys
    requires forall i | 0 <= i < 16 && !b.children[i].Nil? :: Stored(keccak, keys, m, b.children[i], d + 1)
    ensures Matches(keccak, keys, BranchNode(choices, own, b.value), b, d)
    ensures Below(keccak, keys, m, b, d)
  {
    hide Hash, Found;
  }

  /** Puts a branch that is not stored yet behind the prefix `p`, if there is one. */
  method Capped(
    state: TrieState, branch: Node, left: Option<Packed>,
    ghost u: iset<Bytes>, ghost keys: iset<Binding>, ghost p: T.Key, ghost b: T.Tree, ghost d: nat)
    returns (r: Node)
    requires CollisionFree(state.keccak, u) && Bounded(keys)
    requires Known(state.keccak, u, T.Prefixed(p, b)) && Known(state.keccak, u, b) && T.Placed(b, d + |p|) && b.Branch?
    requires Matches(state.keccak, keys, branch, b, d + |p|) && Below(state.keccak, keys, state.Value(), b, d + |p|)
    requires left.None? <==> p == []
    requires left.Some? ==> left.value.Normalised() && left.value.View() == p && left.value.firstIsHalf == (d % 2 == 1)
    modifies state`cache
    ensures Matches(state.keccak, keys, r, T.Prefixed(p, b), d)
    ensures Below(state.keccak, keys, state.Value(), T.Prefixed(p, b), d)
    ensures r.LeafNode? <==> T.Prefixed(p, b).Leaf?
    ensures Extends(state.keccak, u, keys, old(state.Value()), state.Value())
    ensures state.cache == if p == [] then old(state.cache) else old(state.cache)[Hash(state.keccak, b) := branch]
  {
    hide Known, Extends, Stored, Below, Hash;
    if left.Some? {
      var hash := state.InsertSelf(branch, 0, u, keys, b, d + |p|);
      r := ExtensionNode(left.value, hash);
      ExtensionMatches(state.keccak, keys, state.Value(), left.value, p, b, d);
    } else {
      r := branch;
      ExtendsSelf(state.keccak, u, keys, state.Value());
    }
  }

  lemma ExtensionMatches(
    keccak: Bytes -> H256, keys: iset<Binding>, m: Store, prefix: Packed, p: T.Key, c: T.Tree, d: nat)
    requires prefix.Normalised() && prefix.View() == p && prefix.firstIsHalf == (d % 2 == 1)
    requires Stored(keccak, keys, m, c, d + |p|)
    ensures Matches(keccak, keys, ExtensionNode(prefix, Hash(keccak, c)), T.Ext(p, c), d)
    ensures Below(keccak, keys, m, T.Ext(p, c), d)
  {
    hide Hash, Stored;
  }

  /** Stores a leaf `d` nibbles below the root. */
  method NewLeaf(
    state: TrieState, data: Bytes, value: Bytes, d: nat, ghost u: iset<Bytes>, ghost keys: iset<Binding>)
    returns (hash: NodeHash)
    requires CollisionFree(state.keccak, u) && Bounded(keys) && (data, value) in keys && d <= 2 * |data|
    requires Known(state.keccak, u, T.Leaf(Nibs(data)[d..], value))
    modifies state`cache
    ensures hash == Hash(state.keccak, T.Leaf(Nibs(data)[d..], value))
    ensures Stored(state.keccak, keys, state.Value(), T.Leaf(Nibs(data)[d..], value), d)
    ensures Extends(state.keccak, u, keys, old(state.Value()), state.Value())
    ensures state.cache == old(state.cache)[hash := LeafNode(data, value)]
  {
    hide Known, Extends, Stored, Below, Hash, Nibs;
    ghost var t := T.Leaf(Nibs(data)[d..], value);
    NibsLength(data);
    BelowLeaf(state.keccak, keys, state.Value(), t.suffix, value, d);
    hash := state.InsertSelf(LeafNode(data, value), d, u, keys, t, d);
  }

  /** The shared part of the path, when there is one. */
  method CommonPrefix(data: Bytes, offset: nat, o: nat) returns (left: Option<Packed>)
    requires offset + o <= 2 * |data|
    ensures left.None? <==> o == 0
    ensures left.Some? ==>
              && left.value.Normalised() && left.value.View() == Nibs(data)[offset..][..o]
              && left.value.firstIsHalf == (offset % 2 == 1)
  {
    if o == 0 {
      return None;
    }
    var path := new NibbleSlice(data, offset);
    var v := path.SplitToVec(o);
    NormalisedEmpty(v);
    left := Some(v);
  }

  lemma LcpSym(a: T.Key, b: T.Key)
    ensures Lcp(a, b) == Lcp(b, a)
  {
    hide Lcp;
    LcpMeaning(a, b);
    LcpMeaning(b, a);
  }

  /** A branch for two keys that part at once. */
  function Fork(s: T.Key, w: Bytes, k: T.Key, v: Bytes): (b: T.Tree)
    ensures b.Branch? && |b.children| == 16
  {
    T.Put(T.Put(T.BARE, s, w), k, v)
  }

  predicate Parting(s: T.Key, w: Bytes, k: T.Key, v: Bytes) {
    T.Apart(s, k) && (k == [] ==> v != []) && (s == [] ==> w != [])
  }

  lemma ForkParts(s: T.Key, w: Bytes, k: T.Key, v: Bytes)
    requires Parting(s, w, k, v)
    ensures var b := Fork(s, w, k, v);
            && (k == [] ==> b == T.Branch(T.NoChildren(16)[s[0] := T.Leaf(s[1..], w)], v))
            && (s == [] ==> b == T.Branch(T.NoChildren(16)[k[0] := T.Leaf(k[1..], v)], w))
            && (s != [] && k != [] ==>
                  b == T.Branch(T.NoChildren(16)[s[0] := T.Leaf(s[1..], w)][k[0] := T.Leaf(k[1..], v)], []))
            && (s != [] ==> b.children[s[0]] == T.Leaf(s[1..], w))
            && (k != [] ==> b.children[k[0]] == T.Leaf(k[1..], v))
            && (forall i | 0 <= i < 16 && (s == [] || i != s[0]) && (k == [] || i != k[0]) :: b.children[i] == T.Nil)
  {
  }

  /** How a leaf with another suffix gives way to a fork. */
  lemma SplitLeaf(s: T.Key, w: Bytes, k: T.Key, v: Bytes)
    requires s != k && T.Clear(T.Leaf(s, w), k, v)
    ensures var o := Lcp(k, s);
            && T.Insert(T.Leaf(s, w), k, v) == T.Prefixed(k[..o], Fork(s[o..], w, k[o..], v))
            && Parting(s[o..], w, k[o..], v)
  {
    hide Lcp, T.Put;
    LcpSym(k, s);
    T.LcpShort(s, k);
    T.SplitClear(s, w, k, v, Lcp(k, s));
  }

  lemma KnownCapped(keccak: Bytes -> H256, u: iset<Bytes>, p: T.Key, b: T.Tree)
    requires Known(keccak, u, T.Prefixed(p, b))
    ensures Known(keccak, u, b)
  {
    hide Known;
    KnownChild(keccak, u, T.Prefixed(p, b));
  }

  lemma PlacedCapped(p: T.Key, b: T.Tree, d: nat)
    requires T.Placed(T.Prefixed(p, b), d)
    ensures T.Placed(b, d + |p|)
  {
  }

  // ---------------------------------------------------------------------------------------------
  // The leaves that an insertion stores
  // ---------------------------------------------------------------------------------------------

  /** The leaves of a fork: that of the new key first, then the one that was there. */
  function ForkWrites(
    keccak: Bytes -> H256, s: T.Key, w: Bytes, k: T.Key, v: Bytes, data: Bytes, own: Bytes): (r: map<NodeHash, Node>)
    ensures forall h | h in r :: r[h].LeafNode?
  {
    (if k != [] then map[Hash(keccak, T.Leaf(k[1..], v)) := LeafNode(data, v)] else map[])
    + (if s != [] then map[Hash(keccak, T.Leaf(s[1..], w)) := LeafNode(own, w)] else map[])
  }

  /** The leaves that binding `k` stores; `data` is the new path and `own` that of the leaf at the end of the walk. */
  function Writes(
    keccak: Bytes -> H256, t: T.Tree, k: T.Key, v: Bytes, data: Bytes, own: Bytes): (r: map<NodeHash, Node>)
    ensures forall h | h in r :: r[h].LeafNode?
  {
    match t
    case Nil => map[Hash(keccak, T.Leaf(k, v)) := LeafNode(data, v)]
    case Leaf(s, w) =>
      if s == k then map[Hash(keccak, T.Leaf(k, v)) := LeafNode(own, v)]
      else
        var o := Lcp(k, s);
        ForkWrites(keccak, s[o..], w, k[o..], v, data, own)
    case Ext(p, c) =>
      if p <= k then Writes(keccak, c, k[|p|..], v, data, own)
      else
        var o := Lcp(k, p);
        if o < |k| then map[Hash(keccak, T.Leaf(k[o..][1..], v)) := LeafNode(data, v)] else map[]
    case Branch(ch, _) => if k != [] && k[0] < |ch| then Writes(keccak, ch[k[0]], k[1..], v, data, own) else map[]
  }

  /** From `m` to `m'` the leaves of `w` were stored, and no others. */
  ghost predicate Wrote(m: Store, m': Store, w: map<NodeHash, Node>) {
    && (forall h | h in w :: h in m'.cache && m'.cache[h] == w[h])
    && (forall h | h in m'.cache && m'.cache[h].LeafNode? && h !in w :: h in m.cache && m.cache[h] == m'.cache[h])
  }

  lemma WroteNothing(m: Store)
    ensures Wrote(m, m, map[])
  {
  }

  /** One more node is stored. */
  lemma WroteOne(m: Store, m1: Store, m2: Store, w: map<NodeHash, Node>, h: NodeHash, node: Node)
    requires Wrote(m, m1, w) && m2.cache == m1.cache[h := node]
    ensures node.LeafNode? ==> Wrote(m, m2, w[h := node])
    ensures !node.LeafNode? && h !in w ==> Wrote(m, m2, w)
  {
  }

  /** The hash of a known leaf. */
  ghost predicate LeafHash(keccak: Bytes -> H256, u: iset<Bytes>, h: NodeHash) {
    exists s, v :: Known(keccak, u, T.Leaf(s, v)) && h == Hash(keccak, T.Leaf(s, v))
  }

  lemma IsLeafHash(keccak: Bytes -> H256, u: iset<Bytes>, s: T.Key, v: Bytes)
    requires Known(keccak, u, T.Leaf(s, v))
    ensures LeafHash(keccak, u, Hash(keccak, T.Leaf(s, v)))
  {
  }

  lemma ForkLeaves(
    keccak: Bytes -> H256, u: iset<Bytes>, s: T.Key, w: Bytes, k: T.Key, v: Bytes, data: Bytes, own: Bytes)
    requires Parting(s, w, k, v) && Known(keccak, u, Fork(s, w, k, v))
    ensures forall h | h in ForkWrites(keccak, s, w, k, v, data, own) :: LeafHash(keccak, u, h)
  {
    hide Known, Hash, LeafHash, Fork;
    KnownChild(keccak, u, Fork(s, w, k, v));
    ForkParts(s, w, k, v);
    if k != [] {
      IsLeafHash(keccak, u, k[1..], v);
    }
    if s != [] {
      IsLeafHash(keccak, u, s[1..], w);
    }
  }

  /** What is stored as a leaf is a leaf of the new trie. */
  lemma {:induction false} WritesLeaves(
    keccak: Bytes -> H256, u: iset<Bytes>, t: T.Tree, k: T.Key, v: Bytes, data: Bytes, own: Bytes)
    requires T.WF(t) && T.Clear(t, k, v) && Known(keccak, u, T.Insert(t, k, v))
    ensures forall h | h in Writes(keccak, t, k, v, data, own) :: LeafHash(keccak, u, h)
    decreases t
  {
    hide Known, Hash, LeafHash, Fork, ForkWrites, Lcp, T.SplitLeaf, T.SplitExt;
    match t
    case Nil => IsLeafHash(keccak, u, k, v);
    case Leaf(s, w) =>
      if s == k {
        IsLeafHash(keccak, u, k, v);
      } else {
        SplitLeaf(s, w, k, v);
        var o := Lcp(k, s);
        KnownCapped(keccak, u, k[..o], Fork(s[o..], w, k[o..], v));
        ForkLeaves(keccak, u, s[o..], w, k[o..], v, data, own);
      }
    case Ext(p, c) =>
      KnownChild(keccak, u, T.Insert(t, k, v));
      if p <= k {
        WritesLeaves(keccak, u, c, k[|p|..], v, data, own);
      } else {
        LeftLeaf(keccak, u, t, k, v);
      }
    case Branch(ch, w) =>
      if k != [] {
        var c := T.Insert(ch[k[0]], k[1..], v);
        KnownChild(keccak, u, T.Insert(t, k, v));
        assert ch[k[0] := c][k[0]] == c;
        WritesLeaves(keccak, u, ch[k[0]], k[1..], v, data, own);
      }
  }

  lemma LeftLeaf(keccak: Bytes -> H256, u: iset<Bytes>, t: T.Tree, k: T.Key, v: Bytes)
    requires T.WF(t) && t.Ext? && !(t.prefix <= k) && T.Clear(t, k, v) && Known(keccak, u, T.Insert(t, k, v))
    ensures var o := Lcp(k, t.prefix); o < |k| ==> LeafHash(keccak, u, Hash(keccak, T.Leaf(k[o..][1..], v)))
  {
    hide Known, Hash, LeafHash, Lcp, T.Put, T.Stem, T.Insert, T.Clear;
    var p, c, o := t.prefix, t.child, Lcp(k, t.prefix);
    SplitExtension(p, c, k, v);
    if o < |k| {
      var b := T.Put(T.Stem(p[o], T.Prefixed(p[o + 1..], c)), k[o..], v);
      KnownCapped(keccak, u, p[..o], b);
      StemParts(p[o], T.Prefixed(p[o + 1..], c), k[o..], v);
      KnownChild(keccak, u, b);
      IsLeafHash(keccak, u, k[o..][1..], v);
    }
  }

  /** A branch or an extension is never stored where a leaf is. */
  lemma NotALeafHash(keccak: Bytes -> H256, u: iset<Bytes>, b: T.Tree)
    requires CollisionFree(keccak, u) && Known(keccak, u, b) && !b.Leaf?
    ensures !LeafHash(keccak, u, Hash(keccak, b))
  {
    hide Known, Hash, CollisionFree;
    if LeafHash(keccak, u, Hash(keccak, b)) {
      var s, v :| Known(keccak, u, T.Leaf(s, v)) && Hash(keccak, b) == Hash(keccak, T.Leaf(s, v));
      HashInjective(keccak, u, b, T.Leaf(s, v));
      assert false;
    }
  }

  // ---------------------------------------------------------------------------------------------
  // Insertion by node kind
  // ---------------------------------------------------------------------------------------------

  /** The path of the leaf at the end of a walk. */
  function OwnPath(keccak: Bytes -> H256, m: Store, t: T.Tree, k: T.Key): Bytes {
    if T.StopOf(t, k).Some? then StopPath(keccak, m, T.StopOf(t, k).value) else []
  }

  /** What an insertion below `d` asks for: the trie it forms, if it gets there, loses no value and is known. */
  ghost predicate Ready(
    keccak: Bytes -> H256, u: iset<Bytes>, keys: iset<Binding>, m: Store, t: T.Tree, d: nat, k: T.Key, v: Bytes, data: Bytes) {
    && T.WF(t) && Known(keccak, u, t) && T.Placed(t, d) && (data, v) in keys
    && (T.StopOf(t, k).Some? ==> (OwnPath(keccak, m, t, k), v) in keys)
    && (Passes(keccak, m, t, d, k) ==>
          T.Clear(Seen(keccak, m, t, d, k), k, v) && Known(keccak, u, T.Insert(Seen(keccak, m, t, d, k), k, v)))
  }

  /** `node`, not yet stored, stands for `t` with `k` bound to `v`; the leaves below it are stored with `data` and `own`. */
  ghost predicate Inserted(
    keccak: Bytes -> H256, u: iset<Bytes>, keys: iset<Binding>, m: Store, m': Store, node: Node, t: T.Tree, d: nat, k: T.Key,
    v: Bytes, data: Bytes, own: Bytes) {
    var t2 := T.Insert(t, k, v);
    && Matches(keccak, keys, node, t2, d) && FitsAt(node, d, t2) && Below(keccak, keys, m', t2, d)
    && Extends(keccak, u, keys, m, m')
    && if t2.Leaf? then node == LeafNode(own, v) && Wrote(m, m', map[]) else Wrote(m, m', Writes(keccak, t, k, v, data, own))
  }

  lemma InsertedMeans(
    keccak: Bytes -> H256, u: iset<Bytes>, keys: iset<Binding>, m: Store, m': Store, node: Node, t: T.Tree, d: nat, k: T.Key,
    v: Bytes, data: Bytes, own: Bytes)
    requires Inserted(keccak, u, keys, m, m', node, t, d, k, v, data, own)
    ensures var t2 := T.Insert(t, k, v);
            && Matches(keccak, keys, node, t2, d) && FitsAt(node, d, t2) && Below(keccak, keys, m', t2, d)
            && Extends(keccak, u, keys, m, m')
    ensures !T.Insert(t, k, v).Leaf? ==> Wrote(m, m', Writes(keccak, t, k, v, data, own))
  {
  }

  /** A branch or an extension that an insertion forms. */
  lemma InsertedNode(
    keccak: Bytes -> H256, u: iset<Bytes>, keys: iset<Binding>, m: Store, m': Store, node: Node, t: T.Tree, d: nat, k: T.Key,
    v: Bytes, data: Bytes, own: Bytes)
    requires var t2 := T.Insert(t, k, v);
             && !t2.Leaf? && Matches(keccak, keys, node, t2, d) && Below(keccak, keys, m', t2, d)
             && Extends(keccak, u, keys, m, m') && Wrote(m, m', Writes(keccak, t, k, v, data, own))
    ensures Inserted(keccak, u, keys, m, m', node, t, d, k, v, data, own)
  {
    hide Matches, Below, Extends, Wrote, Writes, T.Insert;
  }

  /** A leaf as it is seen from a place. */
  function LeafBehind(own: Bytes, d: nat, w: Bytes): T.Tree {
    T.Leaf(Behind(Nibs(own), d), w)
  }

  method LeafInsert(
    state: TrieState, own: Bytes, ownValue: Bytes, data: Bytes, offset: nat, value: Bytes,
    ghost u: iset<Bytes>, ghost keys: iset<Binding>)
    returns (r: Result<Node>)
    requires CollisionFree(state.keccak, u) && Bounded(keys) && offset <= 2 * |data|
    requires (data, value) in keys && (own, ownValue) in keys && (own, value) in keys
    requires var t, k := LeafBehind(own, offset, ownValue), Nibs(data)[offset..];
             offset <= 2 * |own| ==> T.Clear(t, k, value) && Known(state.keccak, u, T.Insert(t, k, value))
    modifies state`cache
    ensures r.Ok? || r.Panic?
    ensures r.Panic? <==> offset > 2 * |own|
    ensures r.Panic? ==> state.Value() == old(state.Value())
    ensures r.Ok? ==>
              Inserted(state.keccak, u, keys, old(state.Value()), state.Value(), r.value, LeafBehind(own, offset, ownValue),
                       offset, Nibs(data)[offset..], value, data, own)
  {
    hide Known, Extends, Stored, Below, Hash, T.Clear, Lcp, Nibs, Fork, T.Insert, ForkWrites, Wrote;
    NibsLength(own);
    NibsLength(data);
    ghost var t, k := LeafBehind(own, offset, ownValue), Nibs(data)[offset..];
    var path := new NibbleSlice(data, offset);
    var same := path.CmpRest(own);
    if same.None? {
      return Panic;
    }
    if same.value {
      r := Ok(LeafNode(own, value));
      InsertSame(k, ownValue, value);
      BelowLeaf(state.keccak, keys, state.Value(), k, value, offset);
      ExtendsSelf(state.keccak, u, keys, state.Value());
      WroteNothing(state.Value());
      return;
    }
    ghost var s := t.suffix;
    var o := path.CountPrefixSlice(own);
    SplitParts(state.keccak, u, t, offset, k, value, o);
    ghost var b := Fork(s[o..], ownValue, k[o..], value);
    DropDrop(Nibs(data), offset, o);
    DropDrop(Nibs(own), offset, o);
    var branch := LeafFork(state, own, ownValue, data, offset + o, value, u, keys);
    ghost var m1 := state.Value();
    var left := CommonPrefix(data, offset, o);
    var node := Capped(state, branch, left, u, keys, k[..o], b, offset);
    ExtendsTrans(state.keccak, u, keys, old(state.Value()), m1, state.Value());
    ForkLeaves(state.keccak, u, s[o..], ownValue, k[o..], value, data, own);
    NotALeafHash(state.keccak, u, b);
    if o > 0 {
      ghost var w := Writes(state.keccak, t, k, value, data, own);
      WroteOne(old(state.Value()), m1, state.Value(), w, Hash(state.keccak, b), branch);
    }
    r := Ok(node);
  }

  lemma SplitParts(keccak: Bytes -> H256, u: iset<Bytes>, t: T.Tree, d: nat, k: T.Key, v: Bytes, o: nat)
    requires T.Placed(t, d) && T.Clear(t, k, v) && (d + |k|) % 2 == 0 && Known(keccak, u, T.Insert(t, k, v))
    requires t.Leaf? && t.suffix != k && o == Lcp(k, t.suffix)
    ensures o <= |k| && o <= |t.suffix| && Parting(t.suffix[o..], t.value, k[o..], v)
    ensures var b := Fork(t.suffix[o..], t.value, k[o..], v);
            T.Insert(t, k, v) == T.Prefixed(k[..o], b) && Known(keccak, u, b) && T.Placed(b, d + |k[..o]|)
  {
    hide Known, T.Placed, T.Clear, T.Insert, Fork, Lcp;
    SplitLeaf(t.suffix, t.value, k, v);
    var b := Fork(t.suffix[o..], t.value, k[o..], v);
    T.InsertPlaced(t, d, k, v);
    KnownCapped(keccak, u, k[..o], b);
    PlacedCapped(k[..o], b, d);
  }

  lemma InsertSame(k: T.Key, w: Bytes, v: Bytes)
    ensures T.Insert(T.Leaf(k, w), k, v) == T.Leaf(k, v)
  {
  }

  /** The branch for two keys that part after `d` nibbles. */
  method LeafFork(
    state: TrieState, own: Bytes, ownValue: Bytes, data: Bytes, d: nat, value: Bytes,
    ghost u: iset<Bytes>, ghost keys: iset<Binding>)
    returns (r: Node)
    requires CollisionFree(state.keccak, u) && Bounded(keys) && d <= 2 * |data| && d <= 2 * |own|
    requires (data, value) in keys && (own, ownValue) in keys
    requires Parting(Nibs(own)[d..], ownValue, Nibs(data)[d..], value)
    requires Known(state.keccak, u, Fork(Nibs(own)[d..], ownValue, Nibs(data)[d..], value))
    modifies state`cache
    ensures var b := Fork(Nibs(own)[d..], ownValue, Nibs(data)[d..], value);
            && Matches(state.keccak, keys, r, b, d)
            && Below(state.keccak, keys, state.Value(), b, d)
    ensures Extends(state.keccak, u, keys, old(state.Value()), state.Value())
    ensures Wrote(old(state.Value()), state.Value(),
                  ForkWrites(state.keccak, Nibs(own)[d..], ownValue, Nibs(data)[d..], value, data, own))
    ensures r.BranchNode?
  {
    hide Known, Extends, Stored, Below, Matches, Hash, Nibs, Fork, NoChoices, Wrote, ForkWrites;
    NibsLength(own);
    NibsLength(data);
    WroteNothing(state.Value());
    ghost var s, k := Nibs(own)[d..], Nibs(data)[d..];
    ForkWritten(state.keccak, s, ownValue, k, value, data, own);
    ghost var b := Fork(s, ownValue, k, value);
    ForkParts(s, ownValue, k, value);
    KnownChild(state.keccak, u, b);
    NoHashes(state.keccak);
    if d == 2 * |data| {
      DropDrop(Nibs(own), d, 1);
      var ownHash := NewLeaf(state, own, ownValue, d + 1, u, keys);
      WroteOne(old(state.Value()), old(state.Value()), state.Value(), map[], ownHash, LeafNode(own, ownValue));
      var choice := NibbleOf(own, d);
      HashesUpdate(state.keccak, T.NoChildren(16), choice, b.children[choice]);
      r := BranchNode(NoChoices()[choice := ownHash], data, value);
      BranchStands(state.keccak, keys, state.Value(), r.choices, data, b, d);
    } else if d == 2 * |own| {
      DropDrop(Nibs(data), d, 1);
      var leafHash := NewLeaf(state, data, value, d + 1, u, keys);
      WroteOne(old(state.Value()), old(state.Value()), state.Value(), map[], leafHash, LeafNode(data, value));
      var choice := NibbleOf(data, d);
      HashesUpdate(state.keccak, T.NoChildren(16), choice, b.children[choice]);
      r := BranchNode(NoChoices()[choice := leafHash], own, ownValue);
      BranchStands(state.keccak, keys, state.Value(), r.choices, own, b, d);
    } else {
      DropDrop(Nibs(own), d, 1);
      DropDrop(Nibs(data), d, 1);
      var leafHash, ownHash := TwoLeaves(state, own, ownValue, data, d, value, u, keys);
      var x := NibbleOf(own, d);
      var y := NibbleOf(data, d);
      HashesUpdate(state.keccak, T.NoChildren(16), x, b.children[x]);
      HashesUpdate(state.keccak, T.NoChildren(16)[x := b.children[x]], y, b.children[y]);
      r := BranchNode(NoChoices()[x := ownHash][y := leafHash], [], []);
      BranchStands(state.keccak, keys, state.Value(), r.choices, [], b, d);
    }
  }

  /** The leaf of the new key and then the one that was there, one nibble further down. */
  method TwoLeaves(
    state: TrieState, own: Bytes, ownValue: Bytes, data: Bytes, d: nat, value: Bytes,
    ghost u: iset<Bytes>, ghost keys: iset<Binding>)
    returns (leafHash: NodeHash, ownHash: NodeHash)
    requires CollisionFree(state.keccak, u) && Bounded(keys) && d < 2 * |data| && d < 2 * |own|
    requires (data, value) in keys && (own, ownValue) in keys
    requires Known(state.keccak, u, T.Leaf(Nibs(own)[d + 1..], ownValue))
    requires Known(state.keccak, u, T.Leaf(Nibs(data)[d + 1..], value))
    modifies state`cache
    ensures leafHash == Hash(state.keccak, T.Leaf(Nibs(data)[d + 1..], value))
    ensures ownHash == Hash(state.keccak, T.Leaf(Nibs(own)[d + 1..], ownValue))
    ensures Stored(state.keccak, keys, state.Value(), T.Leaf(Nibs(data)[d + 1..], value), d + 1)
    ensures Stored(state.keccak, keys, state.Value(), T.Leaf(Nibs(own)[d + 1..], ownValue), d + 1)
    ensures Extends(state.keccak, u, keys, old(state.Value()), state.Value())
    ensures Wrote(old(state.Value()), state.Value(),
                  map[leafHash := LeafNode(data, value)][ownHash := LeafNode(own, ownValue)])
  {
    hide Known, Extends, Stored, Below, Matches, Hash, Nibs, Wrote;
    NibsLength(data);
    WroteNothing(state.Value());
    leafHash := NewLeaf(state, data, value, d + 1, u, keys);
    ghost var m1 := state.Value();
    WroteOne(old(state.Value()), old(state.Value()), m1, map[], leafHash, LeafNode(data, value));
    ownHash := NewLeaf(state, own, ownValue, d + 1, u, keys);
    WroteOne(old(state.Value()), m1, state.Value(), map[leafHash := LeafNode(data, value)], ownHash, LeafNode(own, ownValue));
    StoredExtends(state.keccak, u, keys, m1, state.Value(), T.Leaf(Nibs(data)[d + 1..], value), d + 1);
    ExtendsTrans(state.keccak, u, keys, old(state.Value()), m1, state.Value());
  }

  lemma ForkWritten(keccak: Bytes -> H256, s: T.Key, w: Bytes, k: T.Key, v: Bytes, data: Bytes, own: Bytes)
    ensures k == [] && s != [] ==>
              ForkWrites(keccak, s, w, k, v, data, own) == map[][Hash(keccak, T.Leaf(s[1..], w)) := LeafNode(own, w)]
    ensures k != [] && s == [] ==>
              ForkWrites(keccak, s, w, k, v, data, own) == map[][Hash(keccak, T.Leaf(k[1..], v)) := LeafNode(data, v)]
    ensures k != [] && s != [] ==>
              ForkWrites(keccak, s, w, k, v, data, own) ==
              map[Hash(keccak, T.Leaf(k[1..], v)) := LeafNode(data, v)][Hash(keccak, T.Leaf(s[1..], w)) := LeafNode(own, w)]
  {
    hide Hash;
  }

  /** The nibble of a path at an offset. */
  method NibbleOf(data: Bytes, d: nat) returns (n: nibble)
    requires d < 2 * |data|
    ensures n == Nibs(data)[d] == Nibs(data)[d..][0]
  {
    var path := new NibbleSlice(data, d);
    var next := path.Next();
    n := next.value;
  }

  /** How an extension whose prefix the key leaves gives way to a branch. */
  lemma SplitExtension(p: T.Key, c: T.Tree, k: T.Key, v: Bytes)
    requires !(p <= k) && T.Clear(T.Ext(p, c), k, v)
    ensures var o := Lcp(k, p);
            && o < |p| && p[..o] == k[..o] && (o < |k| ==> p[o] != k[o]) && (o == |k| ==> v != [])
            && T.Insert(T.Ext(p, c), k, v) ==
               T.Prefixed(p[..o], T.Put(T.Stem(p[o], T.Prefixed(p[o + 1..], c)), k[o..], v))
  {
    hide Lcp, T.Put, T.Stem;
    LcpSym(k, p);
    T.LcpShort(p, k);
    if Lcp(k, p) == |k| {
      assert k[..|k|] == k;
    }
  }

  method ExtensionInsert(
    state: TrieState, prefix: Packed, child: NodeHash, data: Bytes, offset: nat, value: Bytes,
    ghost u: iset<Bytes>, ghost keys: iset<Binding>, ghost t: T.Tree)
    returns (r: Result<Node>)
    requires CollisionFree(state.keccak, u) && Bounded(keys) && offset <= 2 * |data|
    requires Ready(state.keccak, u, keys, state.Value(), t, offset, Nibs(data)[offset..], value, data)
    requires Matches(state.keccak, keys, ExtensionNode(prefix, child), t, offset)
    requires Below(state.keccak, keys, state.Value(), t, offset)
    modifies state`cache
    ensures r.Ok? || r.Panic?
    ensures r.Panic? <==> !Passes(state.keccak, old(state.Value()), t, offset, Nibs(data)[offset..])
    ensures r.Panic? ==> state.Value() == old(state.Value())
    ensures r.Ok? ==>
              var m, k := old(state.Value()), Nibs(data)[offset..];
              Inserted(state.keccak, u, keys, m, state.Value(), r.value, Seen(state.keccak, m, t, offset, k), offset, k, value,
                       data, OwnPath(state.keccak, m, t, k))
    decreases t, 1
  {
    hide Known, Extends, Stored, Below, Matches, Hash, T.WF, T.Placed, T.Clear, T.Insert, T.Overruns, T.Lookup, T.StopOf;
    hide Nibs, Seen, OffEnd, Passes, OwnPath, Writes, Wrote, Resolve, Ready, Inserted, Lcp;
    NibsLength(data);
    ReadyParts(state.keccak, u, keys, state.Value(), t, offset, Nibs(data)[offset..], value, data);
    ExtensionParts(state.keccak, keys, state.Value(), ExtensionNode(prefix, child), t, offset);
    PrefixWidth(prefix, offset);
    PassesBehind(state.keccak, state.Value(), t, offset, Nibs(data));
    var path := new NibbleSlice(data, offset);
    var skipped := path.SkipPrefix(prefix);
    if skipped.None? {
      return Panic;
    }
    if skipped.value {
      DropDrop(Nibs(data), offset, |t.prefix|);
      r := ExtensionPass(state, prefix, child, data, offset, path.offset, value, u, keys, t);
    } else {
      var node := ExtensionLeave(state, prefix, child, data, offset, value, u, keys, t);
      r := Ok(node);
    }
  }

  /** The path has the prefix: the insertion goes on behind it. */
  method ExtensionPass(
    state: TrieState, prefix: Packed, child: NodeHash, data: Bytes, ghost offset: nat, behind: nat, value: Bytes,
    ghost u: iset<Bytes>, ghost keys: iset<Binding>, ghost t: T.Tree)
    returns (r: Result<Node>)
    requires CollisionFree(state.keccak, u) && Bounded(keys) && offset <= behind <= 2 * |data|
    requires Ready(state.keccak, u, keys, state.Value(), t, offset, Nibs(data)[offset..], value, data)
    requires Matches(state.keccak, keys, ExtensionNode(prefix, child), t, offset)
    requires Below(state.keccak, keys, state.Value(), t, offset)
    requires t.Ext? && t.prefix <= Nibs(data)[offset..] && behind == offset + |t.prefix|
    requires var k := Nibs(data)[offset..];
             Passes(state.keccak, state.Value(), t, offset, k) <==>
             Passes(state.keccak, state.Value(), t.child, behind, k[|t.prefix|..])
    modifies state`cache
    ensures r.Ok? || r.Panic?
    ensures r.Panic? <==> !Passes(state.keccak, old(state.Value()), t, offset, Nibs(data)[offset..])
    ensures r.Panic? ==> state.Value() == old(state.Value())
    ensures r.Ok? ==>
              var m, k := old(state.Value()), Nibs(data)[offset..];
              Inserted(state.keccak, u, keys, m, state.Value(), r.value, Seen(state.keccak, m, t, offset, k), offset, k, value,
                       data, OwnPath(state.keccak, m, t, k))
    decreases t, 0
  {
    hide Known, Extends, Stored, Below, Matches, Hash, T.WF, T.Placed, T.Clear, T.Insert, T.Overruns, T.StopOf;
    hide Nibs, Seen, OffEnd, Passes, OwnPath, Writes, Wrote, Resolve, Ready, Inserted;
    ghost var k, m0, p := Nibs(data)[offset..], state.Value(), t.prefix;
    NibsLength(data);
    DropDrop(Nibs(data), offset, |p|);
    ReadyParts(state.keccak, u, keys, m0, t, offset, k, value, data);
    ExtensionParts(state.keccak, keys, m0, ExtensionNode(prefix, child), t, offset);
    ReadyBehind(state.keccak, u, keys, m0, t, offset, k, value, data);
    var found := state.GetNode(child);
    StoredMeans(state.keccak, keys, m0, t.child, behind);
    var inserted := NodeInsert(state, Unwrap(found), data, behind, value, u, keys, t.child);
    if inserted.Panic? {
      return Panic;
    }
    ghost var own, sn := OwnPath(state.keccak, m0, t, k), Seen(state.keccak, m0, t.child, behind, k[|p|..]);
    ghost var c2, m1 := T.Insert(sn, k[|p|..], value), state.Value();
    InsertBehind(state.keccak, u, m0, t, offset, k, value, data, own);
    InsertedMeans(state.keccak, u, keys, m0, m1, inserted.value, sn, behind, k[|p|..], value, data, own);
    var hash := state.InsertSelf(inserted.value, 0, u, keys, c2, behind);
    ExtendsTrans(state.keccak, u, keys, m0, m1, state.Value());
    KindOfMatch(state.keccak, keys, inserted.value, c2, behind);
    NotALeafHash(state.keccak, u, c2);
    WroteOne(m0, m1, state.Value(), Writes(state.keccak, sn, k[|p|..], value, data, own), hash, inserted.value);
    r := Ok(ExtensionNode(prefix, hash));
    ExtensionMatches(state.keccak, keys, state.Value(), prefix, p, c2, offset);
    InsertedNode(state.keccak, u, keys, m0, state.Value(), r.value, Seen(state.keccak, m0, t, offset, k), offset, k, value,
                 data, own);
  }

  lemma ReadyParts(
    keccak: Bytes -> H256, u: iset<Bytes>, keys: iset<Binding>, m: Store, t: T.Tree, d: nat, k: T.Key, v: Bytes, data: Bytes)
    requires Ready(keccak, u, keys, m, t, d, k, v, data)
    ensures T.WF(t) && Known(keccak, u, t) && T.Placed(t, d) && (data, v) in keys
    ensures T.StopOf(t, k).Some? ==> (OwnPath(keccak, m, t, k), v) in keys
    ensures Passes(keccak, m, t, d, k) ==>
              T.Clear(Seen(keccak, m, t, d, k), k, v) && Known(keccak, u, T.Insert(Seen(keccak, m, t, d, k), k, v))
  {
  }

  lemma PassesBehind(keccak: Bytes -> H256, m: Store, t: T.Tree, offset: nat, k: T.Key)
    requires t.Ext? && offset <= |k| && |k| % 2 == 0
    ensures var n, q := |t.prefix|, k[offset..];
            Passes(keccak, m, t, offset, q) <==>
            && !(T.Width(offset, n) <= |k| / 2 && |k| - offset < n)
            && (t.prefix <= q ==> Passes(keccak, m, t.child, offset + n, q[n..]))
  {
    hide OffEnd, T.Overruns;
    AtExtension(t, k, offset);
    SeenBehind(keccak, m, t, offset, k[offset..]);
    if t.prefix <= k[offset..] {
      DropDrop(k, offset, |t.prefix|);
    }
  }

  lemma PassesChild(keccak: Bytes -> H256, m: Store, t: T.Tree, offset: nat, k: T.Key)
    requires t.Branch? && |t.children| == 16 && offset <= |k|
    ensures var q := k[offset..];
            && (q == [] ==> Passes(keccak, m, t, offset, q))
            && (q != [] ==> (Passes(keccak, m, t, offset, q) <==> Passes(keccak, m, t.children[q[0]], offset + 1, q[1..])))
  {
    hide OffEnd, T.Overruns;
    AtBranch(t, k, offset);
    SeenChild(keccak, m, t, offset, k[offset..]);
    if offset < |k| {
      DropDrop(k, offset, 1);
    }
  }

  /** What the insertion behind a prefix asks for. */
  lemma ReadyBehind(
    keccak: Bytes -> H256, u: iset<Bytes>, keys: iset<Binding>, m: Store, t: T.Tree, d: nat, k: T.Key, v: Bytes, data: Bytes)
    requires Ready(keccak, u, keys, m, t, d, k, v, data) && t.Ext? && t.prefix <= k
    requires Passes(keccak, m, t, d, k) <==> Passes(keccak, m, t.child, d + |t.prefix|, k[|t.prefix|..])
    ensures Ready(keccak, u, keys, m, t.child, d + |t.prefix|, k[|t.prefix|..], v, data)
    ensures OwnPath(keccak, m, t, k) == OwnPath(keccak, m, t.child, k[|t.prefix|..])
  {
    hide Known, Hash, PathOf, Nibs, T.Placed, Passes, Seen, T.StopOf;
    SeenBehind(keccak, m, t, d, k);
    KnownChild(keccak, u, t);
    ChildPlaced(t, d);
    if Passes(keccak, m, t, d, k) {
      KnownChild(keccak, u, T.Insert(Seen(keccak, m, t, d, k), k, v));
    }
  }

  lemma InsertBehind(
    keccak: Bytes -> H256, u: iset<Bytes>, m: Store, t: T.Tree, d: nat, k: T.Key, v: Bytes, data: Bytes, own: Bytes)
    requires T.WF(t) && t.Ext? && t.prefix <= k && T.Placed(t, d) && (d + |k|) % 2 == 0 && Passes(keccak, m, t, d, k)
    requires T.Clear(Seen(keccak, m, t, d, k), k, v) && Known(keccak, u, T.Insert(Seen(keccak, m, t, d, k), k, v))
    ensures var sn, q := Seen(keccak, m, t.child, d + |t.prefix|, k[|t.prefix|..]), k[|t.prefix|..];
            var c2 := T.Insert(sn, q, v);
            && c2.Branch? && T.Insert(Seen(keccak, m, t, d, k), k, v) == T.Ext(t.prefix, c2)
            && T.Placed(c2, d + |t.prefix|) && Known(keccak, u, c2)
            && Writes(keccak, Seen(keccak, m, t, d, k), k, v, data, own) == Writes(keccak, sn, q, v, data, own)
            && forall h | h in Writes(keccak, sn, q, v, data, own) :: LeafHash(keccak, u, h)
  {
    hide Known, Hash, PathOf, Nibs, T.Placed, OffEnd, T.Overruns, Seen, T.StopOf, LeafHash;
    var q := k[|t.prefix|..];
    var sn := Seen(keccak, m, t.child, d + |t.prefix|, q);
    SeenBehind(keccak, m, t, d, k);
    ChildPlaced(t, d);
    SeenWF(keccak, m, t.child, d + |t.prefix|, q);
    SeenPlaced(keccak, m, t.child, d + |t.prefix|, q);
    T.InsertPlaced(sn, d + |t.prefix|, q, v);
    T.InsertWF(sn, q, v);
    KnownChild(keccak, u, T.Insert(Seen(keccak, m, t, d, k), k, v));
    WritesLeaves(keccak, u, sn, q, v, data, own);
  }

  method ExtensionLeave(
    state: TrieState, prefix: Packed, child: NodeHash, data: Bytes, offset: nat, value: Bytes,
    ghost u: iset<Bytes>, ghost keys: iset<Binding>, ghost t: T.Tree)
    returns (r: Node)
    requires CollisionFree(state.keccak, u) && Bounded(keys) && offset <= 2 * |data|
    requires Ready(state.keccak, u, keys, state.Value(), t, offset, Nibs(data)[offset..], value, data)
    requires Matches(state.keccak, keys, ExtensionNode(prefix, child), t, offset)
    requires Below(state.keccak, keys, state.Value(), t, offset)
    requires t.Ext? && !(t.prefix <= Nibs(data)[offset..])
    requires Passes(state.keccak, state.Value(), t, offset, Nibs(data)[offset..])
    modifies state`cache
    ensures var m, k := old(state.Value()), Nibs(data)[offset..];
            Inserted(state.keccak, u, keys, m, state.Value(), r, Seen(state.keccak, m, t, offset, k), offset, k, value,
                     data, OwnPath(state.keccak, m, t, k))
  {
    hide Known, Extends, Stored, Below, Matches, Hash, T.WF, T.Placed, T.Clear, T.Insert, T.Put, T.Stem, T.StopOf;
    hide Lcp, Nibs, Seen, Passes, OwnPath, Writes, Wrote, Ready, Inserted;
    ghost var k, p, m0 := Nibs(data)[offset..], t.prefix, state.Value();
    NibsLength(data);
    ReadyParts(state.keccak, u, keys, m0, t, offset, k, value, data);
    SeenBehind(state.keccak, m0, t, offset, k);
    ExtensionParts(state.keccak, keys, m0, ExtensionNode(prefix, child), t, offset);
    var probe := new NibbleSlice(data, offset);
    var o := probe.CountPrefixVec(prefix);
    LeaveParts(state.keccak, u, t, offset, k, value, o);
    ghost var b := T.Put(T.Stem(p[o], T.Prefixed(p[o + 1..], t.child)), k[o..], value);
    DropDrop(Nibs(data), offset, o);
    var left, choice, right := SplitAround(prefix, o, p, offset);
    var branch := ExtensionFork(state, choice, right, child, data, offset + o, value, u, keys, p[o + 1..], t.child);
    ghost var m1 := state.Value();
    r := Capped(state, branch, left, u, keys, p[..o], b, offset);
    ExtendsTrans(state.keccak, u, keys, m0, m1, state.Value());
    LeaveWrites(state.keccak, u, t, k, value, data, OwnPath(state.keccak, m0, t, k));
    NotALeafHash(state.keccak, u, b);
    if o > 0 {
      WroteOne(m0, m1, state.Value(), LeafAfter(state.keccak, k[o..], value, data), Hash(state.keccak, b), branch);
    }
    InsertedNode(state.keccak, u, keys, m0, state.Value(), r, t, offset, k, value, data, OwnPath(state.keccak, m0, t, k));
  }

  /** The new leaf where a key leaves an extension. */
  function LeafAfter(keccak: Bytes -> H256, k: T.Key, v: Bytes, data: Bytes): map<NodeHash, Node> {
    if k == [] then map[] else map[Hash(keccak, T.Leaf(k[1..], v)) := LeafNode(data, v)]
  }

  lemma LeaveWrites(keccak: Bytes -> H256, u: iset<Bytes>, t: T.Tree, k: T.Key, v: Bytes, data: Bytes, own: Bytes)
    requires T.WF(t) && t.Ext? && !(t.prefix <= k) && T.Clear(t, k, v) && Known(keccak, u, T.Insert(t, k, v))
    ensures Writes(keccak, t, k, v, data, own) == LeafAfter(keccak, k[Lcp(k, t.prefix)..], v, data)
    ensures forall h | h in LeafAfter(keccak, k[Lcp(k, t.prefix)..], v, data) :: LeafHash(keccak, u, h)
    ensures !T.Insert(t, k, v).Leaf?
  {
    hide Known, Hash, LeafHash, Lcp, T.Clear, T.Put, T.Stem;
    LeftLeaf(keccak, u, t, k, v);
    SplitExtension(t.prefix, t.child, k, v);
  }

  /** Where a key leaves an extension, and what is formed there. */
  lemma LeaveParts(keccak: Bytes -> H256, u: iset<Bytes>, t: T.Tree, d: nat, k: T.Key, v: Bytes, o: nat)
    requires T.Placed(t, d) && T.Clear(t, k, v) && (d + |k|) % 2 == 0 && Known(keccak, u, T.Insert(t, k, v))
    requires t.Ext? && !(t.prefix <= k) && o == Lcp(k, t.prefix)
    ensures var p := t.prefix;
            && o < |p| && o <= |k| && (o < |k| ==> p[o] != k[o]) && (o == |k| ==> v != [])
            && T.Placed(t.child, d + o + 1 + |p[o + 1..]|)
            && var b := T.Put(T.Stem(p[o], T.Prefixed(p[o + 1..], t.child)), k[o..], v);
               && T.Insert(t, k, v) == T.Prefixed(p[..o], b)
               && Known(keccak, u, b) && T.Placed(b, d + |p[..o]|)
  {
    hide Known, T.Placed, T.Clear, T.Insert, T.Put, T.Stem, Lcp;
    var p := t.prefix;
    SplitExtension(p, t.child, k, v);
    var b := T.Put(T.Stem(p[o], T.Prefixed(p[o + 1..], t.child)), k[o..], v);
    T.InsertPlaced(t, d, k, v);
    KnownCapped(keccak, u, p[..o], b);
    PlacedCapped(p[..o], b, d);
    ChildPlaced(t, d);
  }

  lemma ChildPlaced(t: T.Tree, d: nat)
    requires T.Placed(t, d) && t.Ext?
    ensures T.Placed(t.child, d + |t.prefix|)
  {
  }

  /** The branch `d` nibbles below the root at which a key leaves an extension. */
  method ExtensionFork(
    state: TrieState, choice: nibble, right: Packed, child: NodeHash, data: Bytes, d: nat, value: Bytes,
    ghost u: iset<Bytes>, ghost keys: iset<Binding>, ghost q: T.Key, ghost c: T.Tree)
    returns (r: Node)
    requires CollisionFree(state.keccak, u) && Bounded(keys) && d <= 2 * |data| && (data, value) in keys
    requires d == 2 * |data| ==> value != []
    requires d < 2 * |data| ==> Nibs(data)[d] != choice
    requires right.Normalised() && right.View() == q && (right.data != [] ==> right.firstIsHalf == ((d + 1) % 2 == 1))
    requires c.Branch? && child == Hash(state.keccak, c) && T.Placed(c, d + 1 + |q|)
    requires Stored(state.keccak, keys, state.Value(), c, d + 1 + |q|)
    requires Known(state.keccak, u, T.Put(T.Stem(choice, T.Prefixed(q, c)), Nibs(data)[d..], value))
    modifies state`cache
    ensures var b := T.Put(T.Stem(choice, T.Prefixed(q, c)), Nibs(data)[d..], value);
            && Matches(state.keccak, keys, r, b, d)
            && Below(state.keccak, keys, state.Value(), b, d)
    ensures Extends(state.keccak, u, keys, old(state.Value()), state.Value())
    ensures Wrote(old(state.Value()), state.Value(), LeafAfter(state.keccak, Nibs(data)[d..], value, data))
    ensures r.BranchNode?
  {
    hide Known, Extends, Stored, Below, Matches, Hash, Nibs, NoChoices, T.Placed, T.Put, T.Stem, Wrote;
    NibsLength(data);
    ghost var k := Nibs(data)[d..];
    ghost var ta := T.Prefixed(q, c);
    ghost var b := T.Put(T.Stem(choice, ta), k, value);
    StemParts(choice, ta, k, value);
    KnownChild(state.keccak, u, b);
    NoHashes(state.keccak);
    var rightHash := RightNode(state, right, child, u, keys, q, c, d + 1);
    ghost var m1 := state.Value();
    HashesUpdate(state.keccak, T.NoChildren(16), choice, ta);
    var choices := NoChoices()[choice := rightHash];
    var path := new NibbleSlice(data, d);
    var next := path.Next();
    if next.None? {
      r := BranchNode(choices, data, value);
      BranchStands(state.keccak, keys, state.Value(), choices, data, b, d);
    } else {
      DropDrop(Nibs(data), d, 1);
      var leafHash := NewLeaf(state, data, value, d + 1, u, keys);
      WroteOne(old(state.Value()), m1, state.Value(), map[], leafHash, LeafNode(data, value));
      T.PrefixedPlaced(q, c, d + 1);
      StoredExtends(state.keccak, u, keys, m1, state.Value(), ta, d + 1);
      ExtendsTrans(state.keccak, u, keys, old(state.Value()), m1, state.Value());
      HashesUpdate(state.keccak, T.NoChildren(16)[choice := ta], next.value, T.Leaf(k[1..], value));
      r := BranchNode(choices[next.value := leafHash], [], []);
      BranchStands(state.keccak, keys, state.Value(), r.choices, [], b, d);
    }
  }

  lemma StemParts(i: nibble, t: T.Tree, k: T.Key, v: Bytes)
    requires k != [] ==> k[0] != i
    ensures var b := T.Put(T.Stem(i, t), k, v);
            && (k == [] ==> b == T.Branch(T.NoChildren(16)[i := t], v))
            && (k != [] ==> b == T.Branch(T.NoChildren(16)[i := t][k[0] := T.Leaf(k[1..], v)], []))
            && b.children[i] == t && (k != [] ==> b.children[k[0]] == T.Leaf(k[1..], v))
            && (forall j | 0 <= j < 16 && j != i && (k == [] || j != k[0]) :: b.children[j] == T.Nil)
  {
  }

  /** Cuts a prefix around the nibble at `o`; an empty left part is dropped. */
  method SplitAround(prefix: Packed, o: nat, ghost p: T.Key, ghost d: nat)
    returns (left: Option<Packed>, choice: nibble, right: Packed)
    requires prefix.Normalised() && prefix.View() == p && o < |p| && prefix.firstIsHalf == (d % 2 == 1)
    ensures choice == p[o]
    ensures left.None? <==> p[..o] == []
    ensures left.Some? ==>
              left.value.Normalised() && left.value.View() == p[..o] && left.value.firstIsHalf == (d % 2 == 1)
    ensures right.Normalised() && right.View() == p[o + 1..]
    ensures right.data != [] ==> right.firstIsHalf == ((d + o + 1) % 2 == 1)
  {
    hide Nibs;
    var l: Packed;
    l, choice, right := SplitExtractAt(prefix, o);
    hide LeftPiece, RightPiece;
    NormalisedEmpty(l);
    left := if l.data == [] then None else Some(l);
  }

  /** What is left of an extension behind the fork: a shorter extension, or its child. */
  method RightNode(
    state: TrieState, right: Packed, child: NodeHash,
    ghost u: iset<Bytes>, ghost keys: iset<Binding>, ghost q: T.Key, ghost c: T.Tree, ghost d: nat)
    returns (hash: NodeHash)
    requires CollisionFree(state.keccak, u) && Bounded(keys)
    requires right.Normalised() && right.View() == q && (right.data != [] ==> right.firstIsHalf == (d % 2 == 1))
    requires Known(state.keccak, u, T.Prefixed(q, c)) && child == Hash(state.keccak, c) && T.Placed(c, d + |q|)
    requires Stored(state.keccak, keys, state.Value(), c, d + |q|)
    modifies state`cache
    ensures hash == Hash(state.keccak, T.Prefixed(q, c))
    ensures Stored(state.keccak, keys, state.Value(), T.Prefixed(q, c), d)
    ensures Extends(state.keccak, u, keys, old(state.Value()), state.Value())
    ensures Wrote(old(state.Value()), state.Value(), map[])
  {
    hide Known, Extends, Stored, Below, Matches, Hash, Nibs, T.Placed, Wrote;
    WroteNothing(state.Value());
    NormalisedEmpty(right);
    if right.data != [] {
      ExtensionMatches(state.keccak, keys, state.Value(), right, q, c, d);
      T.PrefixedPlaced(q, c, d);
      hash := state.InsertSelf(ExtensionNode(right, child), 0, u, keys, T.Ext(q, c), d);
      WroteOne(old(state.Value()), old(state.Value()), state.Value(), map[], hash, ExtensionNode(right, child));
    } else {
      ExtendsSelf(state.keccak, u, keys, state.Value());
      hash := child;
    }
  }

  method BranchInsert(
    state: TrieState, choices: seq<NodeHash>, own: Bytes, ownValue: Bytes, data: Bytes, offset: nat, value: Bytes,
    ghost u: iset<Bytes>, ghost keys: iset<Binding>, ghost t: T.Tree)
    returns (r: Result<Node>)
    requires CollisionFree(state.keccak, u) && Bounded(keys) && offset <= 2 * |data|
    requires Ready(state.keccak, u, keys, state.Value(), t, offset, Nibs(data)[offset..], value, data)
    requires Matches(state.keccak, keys, BranchNode(choices, own, ownValue), t, offset)
    requires Below(state.keccak, keys, state.Value(), t, offset)
    modifies state`cache
    ensures r.Ok? || r.Panic?
    ensures r.Panic? <==> !Passes(state.keccak, old(state.Value()), t, offset, Nibs(data)[offset..])
    ensures r.Panic? ==> state.Value() == old(state.Value())
    ensures r.Ok? ==>
              var m, k := old(state.Value()), Nibs(data)[offset..];
              Inserted(state.keccak, u, keys, m, state.Value(), r.value, Seen(state.keccak, m, t, offset, k), offset, k, value,
                       data, OwnPath(state.keccak, m, t, k))
    decreases t, 0
  {
    hide Known, Extends, Stored, Below, Matches, Hash, T.WF, T.Placed, T.Clear, T.Insert, T.Overruns, T.StopOf;
    hide Nibs, Seen, OffEnd, Passes, OwnPath, Writes, Wrote, Resolve, Ready;
    ghost var k, m0 := Nibs(data)[offset..], state.Value();
    NibsLength(data);
    ReadyParts(state.keccak, u, keys, m0, t, offset, k, value, data);
    BranchParts(state.keccak, keys, m0, BranchNode(choices, own, ownValue), t, offset);
    PassesChild(state.keccak, m0, t, offset, Nibs(data));
    var path := new NibbleSlice(data, offset);
    var choice := path.Next();
    if choice.None? {
      InsertHere(state.keccak, m0, t, offset, value, data, OwnPath(state.keccak, m0, t, k));
      BranchStands(state.keccak, keys, m0, choices, data, T.Branch(t.children, value), offset);
      ExtendsSelf(state.keccak, u, keys, m0);
      WroteNothing(m0);
      return Ok(BranchNode(choices, data, value));
    }
    DropDrop(Nibs(data), offset, 1);
    var i := choice.value;
    ghost var c := t.children[i];
    ReadyChild(state.keccak, u, keys, m0, t, offset, k, value, data);
    var ok, hash := ChildInsert(state, choices[i], data, path.offset, value, u, keys, c);
    if !ok {
      return Panic;
    }
    InsertChild(state.keccak, u, m0, t, offset, k, value, data, OwnPath(state.keccak, m0, t, k));
    r := Ok(BranchNode(choices[i := hash], own, ownValue));
    BranchUpdated(
      state.keccak, u, keys, m0, state.Value(), own, t, offset, i,
      T.Insert(Seen(state.keccak, m0, c, offset + 1, k[1..]), k[1..], value));
  }

  /** Inserts below a choice, which may be empty, and stores the result. */
  method ChildInsert(
    state: TrieState, childHash: NodeHash, data: Bytes, offset: nat, value: Bytes,
    ghost u: iset<Bytes>, ghost keys: iset<Binding>, ghost c: T.Tree)
    returns (ok: bool, hash: NodeHash)
    requires CollisionFree(state.keccak, u) && Bounded(keys) && offset <= 2 * |data|
    requires Ready(state.keccak, u, keys, state.Value(), c, offset, Nibs(data)[offset..], value, data)
    requires childHash == Hash(state.keccak, c) && Stored(state.keccak, keys, state.Value(), c, offset)
    modifies state`cache
    ensures ok <==> Passes(state.keccak, old(state.Value()), c, offset, Nibs(data)[offset..])
    ensures !ok ==> state.Value() == old(state.Value())
    ensures ok ==>
              var m, k := old(state.Value()), Nibs(data)[offset..];
              var sn := Seen(state.keccak, m, c, offset, k);
              var c2 := T.Insert(sn, k, value);
              && hash == Hash(state.keccak, c2) && Stored(state.keccak, keys, state.Value(), c2, offset)
              && Extends(state.keccak, u, keys, m, state.Value())
              && Wrote(m, state.Value(), Writes(state.keccak, sn, k, value, data, OwnPath(state.keccak, m, c, k)))
    decreases c, 3
  {
    hide Known, Extends, Stored, Below, Matches, Hash, T.WF, T.Placed, T.Clear, T.Insert, T.Overruns, T.StopOf;
    hide Nibs, Seen, OffEnd, Passes, OwnPath, Writes, Wrote, Resolve, Ready;
    ghost var k, m0 := Nibs(data)[offset..], state.Value();
    ghost var sn, own := Seen(state.keccak, m0, c, offset, k), OwnPath(state.keccak, m0, c, k);
    ghost var c2 := T.Insert(sn, k, value);
    ReadyParts(state.keccak, u, keys, m0, c, offset, k, value, data);
    ValidMeansChild(state.keccak, c);
    ok, hash := true, childHash;
    if !childHash.IsValid() {
      NothingSeen(state.keccak, m0, offset, k);
      IntoNothing(state.keccak, k, value, data, own);
      WroteNothing(m0);
      hash := NewLeaf(state, data, value, offset, u, keys);
      WroteOne(m0, m0, state.Value(), map[], hash, LeafNode(data, value));
      return;
    }
    var found := state.GetNode(childHash);
    StoredMeans(state.keccak, keys, m0, c, offset);
    var inserted := NodeInsert(state, Unwrap(found), data, offset, value, u, keys, c);
    if inserted.Panic? {
      return false, childHash;
    }
    ghost var m1 := state.Value();
    NibsLength(data);
    InsertedPlaced(state.keccak, m0, c, offset, k, value);
    hash := state.InsertSelf(inserted.value, offset, u, keys, c2, offset);
    ExtendsTrans(state.keccak, u, keys, m0, m1, state.Value());
    StoredWrites(state.keccak, u, keys, m0, m1, state.Value(), inserted.value, sn, offset, k, value, data, own);
  }

  lemma InsertedPlaced(keccak: Bytes -> H256, m: Store, t: T.Tree, d: nat, k: T.Key, v: Bytes)
    requires T.Placed(t, d) && T.WF(t) && (d + |k|) % 2 == 0 && Passes(keccak, m, t, d, k)
    ensures T.Placed(T.Insert(Seen(keccak, m, t, d, k), k, v), d) && T.WF(Seen(keccak, m, t, d, k))
    ensures Seen(keccak, m, t, d, k).Nil? <==> t.Nil?
  {
    hide T.Placed, T.Insert, T.Overruns, OffEnd, Seen, T.WF;
    SeenPlaced(keccak, m, t, d, k);
    SeenWF(keccak, m, t, d, k);
    T.InsertPlaced(Seen(keccak, m, t, d, k), d, k, v);
  }

  /** The leaves that are stored once the node of an insertion is. */
  lemma StoredWrites(
    keccak: Bytes -> H256, u: iset<Bytes>, keys: iset<Binding>, m: Store, m1: Store, m2: Store, node: Node, t: T.Tree, d: nat,
    k: T.Key, v: Bytes, data: Bytes, own: Bytes)
    requires CollisionFree(keccak, u) && T.WF(t) && T.Clear(t, k, v) && Known(keccak, u, T.Insert(t, k, v)) && !t.Nil?
    requires Inserted(keccak, u, keys, m, m1, node, t, d, k, v, data, own)
    requires m2.cache == m1.cache[Hash(keccak, T.Insert(t, k, v)) := node]
    ensures Wrote(m, m2, Writes(keccak, t, k, v, data, own))
  {
    hide Known, Hash, Wrote, Writes, T.WF, T.Clear, T.Insert, CollisionFree, Below, Extends;
    var t2 := T.Insert(t, k, v);
    KindOfMatch(keccak, keys, node, t2, d);
    if t2.Leaf? {
      SameLeaf(keccak, t, k, v, data, own);
      WroteOne(m, m1, m2, map[], Hash(keccak, t2), node);
    } else {
      WritesLeaves(keccak, u, t, k, v, data, own);
      NotALeafHash(keccak, u, t2);
      WroteOne(m, m1, m2, Writes(keccak, t, k, v, data, own), Hash(keccak, t2), node);
    }
  }

  lemma SameLeaf(keccak: Bytes -> H256, t: T.Tree, k: T.Key, v: Bytes, data: Bytes, own: Bytes)
    requires !t.Nil? && T.WF(t) && T.Insert(t, k, v).Leaf?
    ensures T.Insert(t, k, v) == T.Leaf(k, v)
    ensures Writes(keccak, t, k, v, data, own) == map[Hash(keccak, T.Leaf(k, v)) := LeafNode(own, v)]
  {
    hide Hash, Lcp, ForkWrites;
  }

  lemma IntoNothing(keccak: Bytes -> H256, k: T.Key, v: Bytes, data: Bytes, own: Bytes)
    ensures T.Insert(T.Nil, k, v) == T.Leaf(k, v)
    ensures Writes(keccak, T.Nil, k, v, data, own) == map[Hash(keccak, T.Leaf(k, v)) := LeafNode(data, v)]
  {
  }

  lemma InsertHere(keccak: Bytes -> H256, m: Store, t: T.Tree, d: nat, v: Bytes, data: Bytes, own: Bytes)
    requires T.WF(t) && t.Branch? && T.Clear(Seen(keccak, m, t, d, []), [], v)
    ensures v != [] && T.Insert(Seen(keccak, m, t, d, []), [], v) == T.Branch(t.children, v)
    ensures Writes(keccak, Seen(keccak, m, t, d, []), [], v, data, own) == map[]
  {
    hide Seen;
    SeenChild(keccak, m, t, d, []);
  }

  lemma ReadyChild(
    keccak: Bytes -> H256, u: iset<Bytes>, keys: iset<Binding>, m: Store, t: T.Tree, d: nat, k: T.Key, v: Bytes, data: Bytes)
    requires Ready(keccak, u, keys, m, t, d, k, v, data) && t.Branch? && |t.children| == 16 && k != []
    requires Passes(keccak, m, t, d, k) <==> Passes(keccak, m, t.children[k[0]], d + 1, k[1..])
    ensures Ready(keccak, u, keys, m, t.children[k[0]], d + 1, k[1..], v, data)
    ensures OwnPath(keccak, m, t, k) == OwnPath(keccak, m, t.children[k[0]], k[1..])
  {
    hide Known, Hash, PathOf, Nibs, Passes, Seen, T.StopOf;
    SeenChild(keccak, m, t, d, k);
    KnownChild(keccak, u, t);
    if Passes(keccak, m, t, d, k) {
      var c := Seen(keccak, m, t.children[k[0]], d + 1, k[1..]);
      assert t.children[k[0] := c][k[0]] == c;
      var ch := t.children[k[0] := c];
      assert ch[k[0] := T.Insert(c, k[1..], v)][k[0]] == T.Insert(c, k[1..], v);
      KnownChild(keccak, u, T.Insert(Seen(keccak, m, t, d, k), k, v));
    }
  }

  lemma InsertChild(
    keccak: Bytes -> H256, u: iset<Bytes>, m: Store, t: T.Tree, d: nat, k: T.Key, v: Bytes, data: Bytes, own: Bytes)
    requires t.Branch? && |t.children| == 16 && k != []
    ensures var sn := Seen(keccak, m, t.children[k[0]], d + 1, k[1..]);
            && T.Insert(Seen(keccak, m, t, d, k), k, v) == T.Branch(t.children[k[0] := T.Insert(sn, k[1..], v)], t.value)
            && Writes(keccak, Seen(keccak, m, t, d, k), k, v, data, own) == Writes(keccak, sn, k[1..], v, data, own)
  {
    hide Hash, Seen;
    SeenChild(keccak, m, t, d, k);
    var sn := Seen(keccak, m, t.children[k[0]], d + 1, k[1..]);
    assert t.children[k[0] := sn][k[0]] == sn;
    assert t.children[k[0] := sn][k[0] := T.Insert(sn, k[1..], v)] == t.children[k[0] := T.Insert(sn, k[1..], v)];
  }

  /** A branch stays stored when one child is replaced by a stored one. */
  lemma BranchUpdated(
    keccak: Bytes -> H256, u: iset<Bytes>, keys: iset<Binding>, m: Store, m': Store, own: Bytes, t: T.Tree, d: nat,
    i: nibble, c: T.Tree)
    requires CollisionFree(keccak, u) && Known(keccak, u, t) && T.Placed(t, d) && t.Branch? && |t.children| == 16
    requires Below(keccak, keys, m, t, d) && Extends(keccak, u, keys, m, m') && Stored(keccak, keys, m', c, d + 1)
    requires if t.value == [] then own == [] else (own, t.value) in keys
    ensures var t2 := T.Branch(t.children[i := c], t.value);
            && Matches(keccak, keys, BranchNode(Hashes(keccak, t.children)[i := Hash(keccak, c)], own, t.value), t2, d)
            && Below(keccak, keys, m', t2, d)
  {
    hide Known, Extends, Stored, Hash;
    BelowExtends(keccak, u, keys, m, m', t, d);
    HashesUpdate(keccak, t.children, i, c);
  }

  lemma KindOfMatch(keccak: Bytes -> H256, keys: iset<Binding>, node: Node, t: T.Tree, d: nat)
    requires Matches(keccak, keys, node, t, d)
    ensures t.Branch? == node.BranchNode? && t.Ext? == node.ExtensionNode? && t.Leaf? == node.LeafNode?
  {
  }

  /**
    * `insert`: the returned node, which is not yet in the store, stands for the trie as the walk sees it with the key bound
    * to the value. A path that overruns the trie or a stored leaf panics before anything was stored.
    */
  method NodeInsert(
    state: TrieState, node: Node, data: Bytes, offset: nat, value: Bytes,
    ghost u: iset<Bytes>, ghost keys: iset<Binding>, ghost t: T.Tree)
    returns (r: Result<Node>)
    requires CollisionFree(state.keccak, u) && Bounded(keys) && offset <= 2 * |data|
    requires Ready(state.keccak, u, keys, state.Value(), t, offset, Nibs(data)[offset..], value, data)
    requires Stored(state.keccak, keys, state.Value(), t, offset) && !t.Nil?
    requires Resolve(state.Value(), Hash(state.keccak, t)) == Ok(Some(node))
    modifies state`cache
    ensures r.Ok? || r.Panic?
    ensures r.Panic? <==> !Passes(state.keccak, old(state.Value()), t, offset, Nibs(data)[offset..])
    ensures r.Panic? ==> state.Value() == old(state.Value())
    ensures r.Ok? ==>
              var m, k := old(state.Value()), Nibs(data)[offset..];
              Inserted(state.keccak, u, keys, m, state.Value(), r.value, Seen(state.keccak, m, t, offset, k), offset, k, value,
                       data, OwnPath(state.keccak, m, t, k))
    decreases t, 2
  {
    hide Known, Extends, Stored, Below, Hash, T.WF, T.Insert, T.Placed, T.Clear, T.StopOf;
    hide Nibs, Seen, Inserted, PathOf, Resolve, Matches, OffEnd;
    StoredMeans(state.keccak, keys, state.Value(), t, offset);
    KindOfMatch(state.keccak, keys, node, t, offset);
    match node {
      case LeafNode(own, ownValue) =>
        SeenLeaf(state.keccak, state.Value(), t, offset, Nibs(data)[offset..]);
        LeafBinding(state.keccak, keys, node, t, offset);
        r := LeafInsert(state, own, ownValue, data, offset, value, u, keys);
      case ExtensionNode(prefix, child) =>
        r := ExtensionInsert(state, prefix, child, data, offset, value, u, keys, t);
      case BranchNode(choices, own, ownValue) =>
        r := BranchInsert(state, choices, own, ownValue, data, offset, value, u, keys, t);
    }
  }

  lemma LeafBinding(keccak: Bytes -> H256, keys: iset<Binding>, node: Node, t: T.Tree, d: nat)
    requires t.Leaf? && Matches(keccak, keys, node, t, d)
    ensures node.LeafNode? && node.value == t.value && (node.path, node.value) in keys
    ensures forall k :: !T.Overruns(t, d, k)
  {
  }
}
