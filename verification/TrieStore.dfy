/**
  * The node store (`crates/trie/state.rs`): a cache of decoded nodes in front of a database of encoded ones, both keyed by
  * node hash, and what it means for a store to hold a trie.
  */
module TrieStore {
  import opened Prelude
  import opened Rlp
  import opened Nibbles
  import opened TrieNode
  import opened TrieHash
  import NodeEncoder
  import T = TrieTree

  /** The contents of a store as a value. */
  datatype Store = Store(cache: map<NodeHash, Node>, db: map<Bytes, Bytes>)

  /** What the database alone gives for a hash. */
  function FromDb(db: map<Bytes, Bytes>, h: NodeHash): Result<Option<Node>> {
    if HashBytes(h) !in db then Ok(None)
    else
      var node :- DecodeNode(db[HashBytes(h)]);
      Ok(Some(node))
  }

  function Resolve(m: Store, h: NodeHash): Result<Option<Node>> {
    if h in m.cache then Ok(Some(m.cache[h])) else FromDb(m.db, h)
  }

  function Unwrap(r: Result<Option<Node>>): Node
    requires r.Ok? && r.value.Some?
  {
    r.value.value
  }

  /** The whole path that the store keeps with a leaf or a branch. */
  function PathOf(m: Store, h: NodeHash): Bytes {
    var r := Resolve(m, h);
    if r.Ok? && r.value.Some? && !r.value.value.ExtensionNode? then r.value.value.path else []
  }

  function KeyOf(m: Store, h: NodeHash): T.Key {
    Nibs(PathOf(m, h))
  }

  /** A path and a value that are stored together, in a leaf or in a branch. */
  type Binding = (Bytes, Bytes)

  /** No path is longer than memory. */
  ghost predicate Bounded(keys: iset<Binding>) {
    forall x | x in keys :: |x.0| < MAX_LEN
  }

  /** The path ends with these nibbles. */
  predicate Ends(path: Bytes, s: T.Key) {
    |s| <= 2 * |path| && Nibs(path)[2 * |path| - |s|..] == s
  }

  /**
    * The stored node `node` stands for the root of `t`, which hangs `d` nibbles below the root. A leaf keeps a whole path,
    * which has to end with the leaf's suffix but need not fit the leaf's place, since equal leaves in different places are
    * stored once; so does a branch with a value. Path and value are a binding of `keys`.
    */
  ghost predicate Matches(keccak: Bytes -> H256, keys: iset<Binding>, node: Node, t: T.Tree, d: nat) {
    match t
    case Nil => false
    case Leaf(s, v) =>
      node.LeafNode? && node.value == v && Ends(node.path, s) && (node.path, v) in keys
    case Ext(p, c) =>
      && node.ExtensionNode?
      && node.prefix.Normalised()
      && node.prefix.View() == p
      && node.prefix.firstIsHalf == (d % 2 == 1)
      && node.child == Hash(keccak, c)
    case Branch(ch, w) =>
      && node.BranchNode? && node.choices == Hashes(keccak, ch) && node.value == w
      && if w == [] then node.path == [] else (node.path, w) in keys
  }

  ghost predicate Found(keccak: Bytes -> H256, keys: iset<Binding>, m: Store, t: T.Tree, d: nat) {
    var r := Resolve(m, Hash(keccak, t));
    r.Ok? && r.value.Some? && Matches(keccak, keys, r.value.value, t, d)
  }

  /** Every node of `t` can be resolved. */
  ghost predicate Stored(keccak: Bytes -> H256, keys: iset<Binding>, m: Store, t: T.Tree, d: nat) {
    match t
    case Nil => true
    case Leaf(_, _) => Found(keccak, keys, m, t, d)
    case Ext(p, c) => Found(keccak, keys, m, t, d) && Stored(keccak, keys, m, c, d + |p|)
    case Branch(ch, _) =>
      Found(keccak, keys, m, t, d) && forall i | 0 <= i < |ch| :: Stored(keccak, keys, m, ch[i], d + 1)
  }

  /** Every node below the root of `t` can be resolved. */
  ghost predicate Below(keccak: Bytes -> H256, keys: iset<Binding>, m: Store, t: T.Tree, d: nat) {
    match t
    case Nil => true
    case Leaf(_, _) => true
    case Ext(p, c) => Stored(keccak, keys, m, c, d + |p|)
    case Branch(ch, _) => forall i | 0 <= i < |ch| :: Stored(keccak, keys, m, ch[i], d + 1)
  }

  lemma StoredIsFoundAndBelow(keccak: Bytes -> H256, keys: iset<Binding>, m: Store, t: T.Tree, d: nat)
    ensures !t.Nil? ==>
              (Stored(keccak, keys, m, t, d) <==> Found(keccak, keys, m, t, d) && Below(keccak, keys, m, t, d))
  {
    hide Found;
  }

  // ---------------------------------------------------------------------------------------------
  // Additions to the cache
  // ---------------------------------------------------------------------------------------------

  /** `node` stands for a trie of hash `h` whose encodings lie in `u`. */
  ghost predicate Genuine(keccak: Bytes -> H256, u: iset<Bytes>, keys: iset<Binding>, h: NodeHash, node: Node) {
    exists t, d :: Known(keccak, u, t) && T.Placed(t, d) && Hash(keccak, t) == h && Matches(keccak, keys, node, t, d)
  }

  predicate Resolvable(m: Store, h: NodeHash) {
    h in m.cache || HashBytes(h) in m.db
  }

  /** The references a node holds to other nodes. */
  function Refs(node: Node): set<NodeHash> {
    match node
    case BranchNode(choices, _, _) => set h | h in choices && h.IsValid()
    case ExtensionNode(_, child) => {child}
    case LeafNode(_, _) => {}
  }

  predicate RefsIn(m: Store, node: Node) {
    forall h | h in Refs(node) :: Resolvable(m, h)
  }

  /** From `m` to `m'` only genuine nodes were put into the cache, each after the nodes it refers to. */
  ghost predicate Extends(keccak: Bytes -> H256, u: iset<Bytes>, keys: iset<Binding>, m: Store, m': Store) {
    && m'.db == m.db
    && m.cache.Keys <= m'.cache.Keys
    && forall h | h in m'.cache && !(h in m.cache && m.cache[h] == m'.cache[h]) ::
      Genuine(keccak, u, keys, h, m'.cache[h]) && RefsIn(m', m'.cache[h])
  }

  lemma RefsInMore(m: Store, m': Store, node: Node)
    requires RefsIn(m, node) && m.cache.Keys <= m'.cache.Keys && m.db.Keys <= m'.db.Keys
    ensures RefsIn(m', node)
  {
    hide Refs;
  }

  lemma RefsOfMatch(keccak: Bytes -> H256, keys: iset<Binding>, m: Store, node: Node, t: T.Tree, d: nat)
    requires T.WF(t) && Matches(keccak, keys, node, t, d) && Below(keccak, keys, m, t, d)
    ensures RefsIn(m, node)
  {
    hide Hash, HashBytes, DecodeNode;
    match t
    case Leaf(_, _) =>
    case Ext(p, c) => assert Found(keccak, keys, m, c, d + |p|);
    case Branch(ch, _) =>
      forall h | h in Refs(node)
        ensures Resolvable(m, h)
      {
        var i :| 0 <= i < 16 && h == Hash(keccak, ch[i]);
        NilHash(keccak, ch[i]);
        assert Found(keccak, keys, m, ch[i], d + 1);
      }
  }

  lemma NilHash(keccak: Bytes -> H256, t: T.Tree)
    requires Hash(keccak, t).IsValid()
    ensures !t.Nil?
  {
  }

  lemma ExtendsTrans(keccak: Bytes -> H256, u: iset<Bytes>, keys: iset<Binding>, a: Store, b: Store, c: Store)
    requires Extends(keccak, u, keys, a, b) && Extends(keccak, u, keys, b, c)
    ensures Extends(keccak, u, keys, a, c)
  {
    hide Genuine, RefsIn;
    forall h | h in c.cache && !(h in a.cache && a.cache[h] == c.cache[h])
      ensures Genuine(keccak, u, keys, h, c.cache[h]) && RefsIn(c, c.cache[h])
    {
      if h in b.cache && b.cache[h] == c.cache[h] {
        RefsInMore(b, c, c.cache[h]);
      }
    }
  }

  /** A node that replaces another under the hash of a known trie stands for the same trie. */
  lemma FoundExtends(keccak: Bytes -> H256, u: iset<Bytes>, keys: iset<Binding>, m: Store, m': Store, t: T.Tree, d: nat)
    requires CollisionFree(keccak, u) && Known(keccak, u, t) && T.Placed(t, d) && !t.Nil?
    requires Extends(keccak, u, keys, m, m')
    requires Found(keccak, keys, m, t, d)
    ensures Found(keccak, keys, m', t, d)
  {
    hide Matches;
    var h := Hash(keccak, t);
    if h in m'.cache && !(h in m.cache && m.cache[h] == m'.cache[h]) {
      assert Genuine(keccak, u, keys, h, m'.cache[h]);
      SameTrie(keccak, u, keys, h, m'.cache[h], t, d);
    }
  }

  lemma SameTrie(keccak: Bytes -> H256, u: iset<Bytes>, keys: iset<Binding>, h: NodeHash, node: Node, t: T.Tree, d: nat)
    requires CollisionFree(keccak, u) && Known(keccak, u, t) && T.Placed(t, d) && !t.Nil? && h == Hash(keccak, t)
    requires Genuine(keccak, u, keys, h, node)
    ensures Matches(keccak, keys, node, t, d)
  {
    hide Matches, Hash, Small, Within, CollisionFree;
    var t', d' :|
      Known(keccak, u, t') && T.Placed(t', d') && Hash(keccak, t') == h && Matches(keccak, keys, node, t', d');
    HashInjective(keccak, u, t', t);
    T.ParityUnique(t, d, d');
    SameParity(keccak, keys, node, t, d', d);
  }

  lemma SameParity(keccak: Bytes -> H256, keys: iset<Binding>, node: Node, t: T.Tree, d: nat, e: nat)
    requires Matches(keccak, keys, node, t, d) && d % 2 == e % 2
    ensures Matches(keccak, keys, node, t, e)
  {
  }

  /** Additions to the cache keep every known trie that is stored. */
  lemma {:induction false} StoredExtends(
    keccak: Bytes -> H256, u: iset<Bytes>, keys: iset<Binding>, m: Store, m': Store, t: T.Tree, d: nat)
    requires CollisionFree(keccak, u) && Known(keccak, u, t) && T.Placed(t, d)
    requires Extends(keccak, u, keys, m, m')
    requires Stored(keccak, keys, m, t, d)
    ensures Stored(keccak, keys, m', t, d)
    decreases t
  {
    hide Known, Extends, Found;
    KnownChild(keccak, u, t);
    match t
    case Nil =>
    case Leaf(_, _) => FoundExtends(keccak, u, keys, m, m', t, d);
    case Ext(p, c) =>
      FoundExtends(keccak, u, keys, m, m', t, d);
      StoredExtends(keccak, u, keys, m, m', c, d + |p|);
    case Branch(ch, _) =>
      FoundExtends(keccak, u, keys, m, m', t, d);
      forall i | 0 <= i < |ch|
        ensures Stored(keccak, keys, m', ch[i], d + 1)
      {
        StoredExtends(keccak, u, keys, m, m', ch[i], d + 1);
      }
  }

  lemma BelowExtends(keccak: Bytes -> H256, u: iset<Bytes>, keys: iset<Binding>, m: Store, m': Store, t: T.Tree, d: nat)
    requires CollisionFree(keccak, u) && Known(keccak, u, t) && T.Placed(t, d)
    requires Extends(keccak, u, keys, m, m')
    requires Below(keccak, keys, m, t, d)
    ensures Below(keccak, keys, m', t, d)
  {
    hide Known, Extends, Stored;
    KnownChild(keccak, u, t);
    match t
    case Ext(p, c) => StoredExtends(keccak, u, keys, m, m', c, d + |p|);
    case Branch(ch, _) =>
      forall i | 0 <= i < |ch|
        ensures Stored(keccak, keys, m', ch[i], d + 1)
      {
        StoredExtends(keccak, u, keys, m, m', ch[i], d + 1);
      }
    case _ =>
  }

  // ---------------------------------------------------------------------------------------------
  // The hash of a stored node
  // ---------------------------------------------------------------------------------------------

  /** A leaf whose path is as long as a place asks for; other nodes fit anywhere. */
  predicate FitsAt(node: Node, offset: nat, t: T.Tree) {
    node.LeafNode? && t.Leaf? ==> 2 * |node.path| == offset + |t.suffix|
  }

  /** A node that stands for a trie hashes to the trie's hash; only for a leaf does the offset matter. */
  lemma MatchesHash(keccak: Bytes -> H256, keys: iset<Binding>, node: Node, t: T.Tree, d: nat, offset: nat)
    requires T.WF(t) && Small(t) && Matches(keccak, keys, node, t, d) && Bounded(keys) && FitsAt(node, offset, t)
    ensures Encodable(node, offset)
    ensures ComputeHash(keccak, node, offset) == Hash(keccak, t)
  {
    hide Small, Nibs, NodeEncoder.PathItem, EncodeBytes, EncodeList, FromEncodedRaw;
    MatchesEncodable(keccak, keys, node, t, d, offset);
    assert RawPayload(node, offset) == Payload(keccak, t);
  }

  lemma MatchesEncodable(keccak: Bytes -> H256, keys: iset<Binding>, node: Node, t: T.Tree, d: nat, offset: nat)
    requires T.WF(t) && Small(t) && Matches(keccak, keys, node, t, d) && Bounded(keys)
    requires node.LeafNode? ==> offset <= 2 * |node.path|
    ensures Encodable(node, offset) && Storable(node)
  {
    hide Nibs, Hash;
    match t
    case Leaf(_, v) => assert |(node.path, v).0| < MAX_LEN;
    case Ext(p, c) =>
      HashIsRef(keccak, c);
      assert node.prefix.Len() == |p|;
    case Branch(ch, w) =>
      assert w != [] ==> |(node.path, w).0| < MAX_LEN;
      forall i | 0 <= i < 16
        ensures IsRef(node.choices[i])
      {
        HashIsRef(keccak, ch[i]);
      }
  }

  class TrieState {
    const keccak: Bytes -> H256
    var cache: map<NodeHash, Node>
    var db: map<Bytes, Bytes>

    function Value(): Store
      reads this
    {
      Store(cache, db)
    }

    constructor (keccak: Bytes -> H256, db: map<Bytes, Bytes>)
      ensures this.keccak == keccak && Value() == Store(map[], db)
    {
      this.keccak := keccak;
      this.cache := map[];
      this.db := db;
    }

    method GetNode(hash: NodeHash) returns (r: Result<Option<Node>>)
      ensures r == Resolve(Value(), hash)
    {
      if hash in cache {
        return Ok(Some(cache[hash]));
      }
      if HashBytes(hash) !in db {
        return Ok(None);
      }
      var decoded := DecodeNode(db[HashBytes(hash)]);
      r := match decoded
           case Ok(node) => Ok(Some(node))
           case Err(e) => Err(e)
           case Panic => Panic;
    }

    method InsertNode(node: Node, hash: NodeHash)
      modifies this`cache
      ensures cache == old(cache)[hash := node]
    {
      cache := cache[hash := node];
    }

    /** Hashes a node and puts it into the cache; a trie whose children are stored is stored afterwards. */
    method InsertSelf(
      node: Node, offset: nat, ghost u: iset<Bytes>, ghost keys: iset<Binding>, ghost t: T.Tree, ghost d: nat)
      returns (hash: NodeHash)
      requires CollisionFree(keccak, u) && Known(keccak, u, t) && T.Placed(t, d) && Bounded(keys)
      requires Matches(keccak, keys, node, t, d) && FitsAt(node, offset, t)
      requires Below(keccak, keys, Value(), t, d)
      modifies this`cache
      ensures hash == Hash(keccak, t) && hash.IsValid()
      ensures cache == old(cache)[hash := node]
      ensures Extends(keccak, u, keys, old(Value()), Value())
      ensures Stored(keccak, keys, Value(), t, d)
    {
      MatchesHash(keccak, keys, node, t, d, offset);
      hash := HashOf(node, offset);
      HashIsRef(keccak, t);
      InsertNode(node, hash);
      Added(keccak, u, keys, old(Value()), Value(), node, t, d);
    }

    /** Moves the nodes below `hash` from the cache to the database, children first; `moved` is what was moved. */
    method CommitNode(hash: NodeHash) returns (ghost moved: set<NodeHash>)
      requires forall h | h in cache :: Proper(h)
      modifies this
      ensures Committed(old(Value()), Value(), moved)
      ensures hash !in cache
      ensures forall h | h in moved :: Reaches(old(cache), hash, h)
      decreases |cache|, 0
    {
      CommittedNothing(Value());
      moved := {};
      if hash !in cache {
        return;
      }
      var node := cache[hash];
      ghost var start := Value();
      cache := cache - {hash};
      CommittedNothing(Value());
      match node {
        case BranchNode(choices, _, _) => moved := CommitChoices(choices, start, hash);
        case ExtensionNode(_, child) =>
          moved := CommitNode(child);
          ReachesThrough(start.cache, start.cache - {hash}, hash, child, moved);
        case LeafNode(_, _) =>
      }
      ghost var before := Value();
      db := db[HashBytes(hash) := EncodeNode(node)];
      CommittedSelf(start, before, Value(), hash, moved);
      ReachesSelf(start.cache, hash);
      moved := moved + {hash};
    }

    /** Commits the children of the branch `hash`, which has already left the cache of `start`. */
    method CommitChoices(choices: seq<NodeHash>, ghost start: Store, ghost hash: NodeHash)
      returns (ghost moved: set<NodeHash>)
      requires forall h | h in start.cache :: Proper(h)
      requires hash in start.cache && Value() == Store(start.cache - {hash}, start.db)
      requires start.cache[hash].BranchNode? && start.cache[hash].choices == choices
      modifies this
      ensures Committed(old(Value()), Value(), moved)
      ensures Refs(start.cache[hash]) !! cache.Keys
      ensures forall h | h in moved :: Reaches(start.cache, hash, h)
      decreases |cache|, 1
    {
      hide EncodeNode, Reaches, Proper, Committed;
      moved := {};
      CommittedNothing(Value());
      for i := 0 to |choices|
        invariant Committed(old(Value()), Value(), moved)
        invariant forall j | 0 <= j < i && choices[j].IsValid() :: choices[j] !in cache
        invariant forall h | h in moved :: Reaches(start.cache, hash, h)
      {
        CommittedShrinks(old(Value()), Value(), moved);
        if choices[i].IsValid() {
          ghost var before := Value();
          Fewer(before.cache.Keys, old(cache.Keys));
          ghost var more := CommitNode(choices[i]);
          CommittedShrinks(before, Value(), more);
          CommittedTwice(old(Value()), before, Value(), moved, more);
          ReachesThrough(start.cache, before.cache, hash, choices[i], more);
          moved := moved + more;
        }
      }
    }

    method Commit(root: NodeHash) returns (ghost moved: set<NodeHash>, ghost left: map<NodeHash, Node>)
      requires forall h | h in cache :: Proper(h)
      modifies this
      ensures Committed(old(Value()), Store(left, db), moved)
      ensures root !in left
      ensures forall h | h in moved :: Reaches(old(cache), root, h)
      ensures cache == map[]
    {
      moved := CommitNode(root);
      left := cache;
      cache := map[];
    }

    method HashOf(node: Node, offset: nat) returns (hash: NodeHash)
      requires Encodable(node, offset)
      ensures hash == ComputeHash(keccak, node, offset)
    {
      var encoded: Bytes;
      match node {
        case BranchNode(choices, path, value) => encoded := EncodeRawBranch(choices, path, value);
        case ExtensionNode(prefix, child) => encoded := EncodeRawExtension(prefix, child);
        case LeafNode(path, value) => encoded := EncodeRawLeaf(path, value, offset);
      }
      hash := if |encoded| >= 32 then Hashed(keccak(encoded)) else Inline(encoded);
    }
  }

  /** The effect of one addition. */
  lemma Added(keccak: Bytes -> H256, u: iset<Bytes>, keys: iset<Binding>, m: Store, m': Store, node: Node, t: T.Tree, d: nat)
    requires CollisionFree(keccak, u) && Known(keccak, u, t) && T.Placed(t, d) && Matches(keccak, keys, node, t, d)
    requires Below(keccak, keys, m, t, d)
    requires m' == Store(m.cache[Hash(keccak, t) := node], m.db)
    ensures Extends(keccak, u, keys, m, m')
    ensures Stored(keccak, keys, m', t, d)
  {
    hide Matches, Below, Stored, RefsIn, Hash;
    var h := Hash(keccak, t);
    assert Genuine(keccak, u, keys, h, node);
    RefsOfMatch(keccak, keys, m, node, t, d);
    RefsInMore(m, m', node);
    assert Extends(keccak, u, keys, m, m') by { hide Genuine; }
    AddedStored(keccak, u, keys, m, m', node, t, d);
  }

  lemma AddedStored(
    keccak: Bytes -> H256, u: iset<Bytes>, keys: iset<Binding>, m: Store, m': Store, node: Node, t: T.Tree, d: nat)
    requires CollisionFree(keccak, u) && Known(keccak, u, t) && T.Placed(t, d) && Matches(keccak, keys, node, t, d)
    requires m' == Store(m.cache[Hash(keccak, t) := node], m.db)
    requires Extends(keccak, u, keys, m, m')
    requires Below(keccak, keys, m, t, d)
    ensures Stored(keccak, keys, m', t, d)
  {
    hide Extends, Known, Below, Stored, Matches;
    BelowExtends(keccak, u, keys, m, m', t, d);
    assert Found(keccak, keys, m', t, d);
    assert !t.Nil? by { NotNil(keccak, keys, node, t, d); }
    StoredIsFoundAndBelow(keccak, keys, m', t, d);
  }

  lemma NotNil(keccak: Bytes -> H256, keys: iset<Binding>, node: Node, t: T.Tree, d: nat)
    requires Matches(keccak, keys, node, t, d)
    ensures !t.Nil?
  {
  }

  // ---------------------------------------------------------------------------------------------
  // Commit
  // ---------------------------------------------------------------------------------------------

  /** Hashing never produces an inline hash of digest size; among other hashes, database keys are unambiguous. */
  predicate Proper(h: NodeHash) {
    !(h.Inline? && |h.bytes| == 32)
  }

  lemma ProperKeys(h: NodeHash, h': NodeHash)
    requires Proper(h) && Proper(h')
    ensures HashBytes(h) == HashBytes(h') <==> h == h'
  {
  }

  ghost predicate IsPath(cache: map<NodeHash, Node>, s: seq<NodeHash>) {
    && s != []
    && (forall i | 0 <= i < |s| :: s[i] in cache)
    && forall i | 0 < i < |s| :: s[i] in Refs(cache[s[i - 1]])
  }

  ghost predicate Reaches(cache: map<NodeHash, Node>, a: NodeHash, b: NodeHash) {
    exists s :: IsPath(cache, s) && s[0] == a && s[|s| - 1] == b
  }

  /** The cache lost exactly `moved`, which is closed under references, and the database gained exactly their encodings. */
  ghost predicate Committed(m: Store, m': Store, moved: set<NodeHash>) {
    && moved <= m.cache.Keys
    && m'.cache == m.cache - moved
    && (forall h | h in moved :: HashBytes(h) in m'.db && m'.db[HashBytes(h)] == EncodeNode(m.cache[h]))
    && (forall b | b in m.db :: b in m'.db)
    && (forall b | b in m'.db && (b !in m.db || m'.db[b] != m.db[b]) :: HashFromBytes(b) in moved)
    && (forall h | h in moved :: Refs(m.cache[h]) !! m'.cache.Keys)
  }

  lemma CommittedNothing(m: Store)
    ensures Committed(m, m, {})
  {
  }

  lemma CommittedShrinks(m: Store, m': Store, moved: set<NodeHash>)
    requires Committed(m, m', moved)
    ensures m'.cache.Keys <= m.cache.Keys && forall h | h in m'.cache :: m'.cache[h] == m.cache[h]
  {
  }

  /** Two commits in a row are one. */
  lemma CommittedTwice(a: Store, b: Store, c: Store, moved: set<NodeHash>, more: set<NodeHash>)
    requires Committed(a, b, moved) && Committed(b, c, more)
    requires forall h | h in a.cache :: Proper(h)
    ensures Committed(a, c, moved + more)
  {
    hide EncodeNode, Refs;
    forall h | h in moved + more
      ensures HashBytes(h) in c.db && c.db[HashBytes(h)] == EncodeNode(a.cache[h])
    {
      HashFromItsBytes(h);
    }
  }

  lemma CommittedSelf(a: Store, b: Store, c: Store, hash: NodeHash, moved: set<NodeHash>)
    requires hash in a.cache && forall h | h in a.cache :: Proper(h)
    requires Committed(Store(a.cache - {hash}, a.db), b, moved)
    requires c == Store(b.cache, b.db[HashBytes(hash) := EncodeNode(a.cache[hash])])
    requires Refs(a.cache[hash]) !! b.cache.Keys
    ensures Committed(a, c, moved + {hash})
  {
    hide EncodeNode, Refs;
    HashFromItsBytes(hash);
    forall h | h in moved
      ensures HashBytes(h) != HashBytes(hash)
    {
      ProperKeys(h, hash);
    }
  }

  lemma ReachesSelf(cache: map<NodeHash, Node>, a: NodeHash)
    requires a in cache
    ensures Reaches(cache, a, a)
  {
    assert IsPath(cache, [a]);
  }

  lemma ReachesThrough(
    cache: map<NodeHash, Node>, less: map<NodeHash, Node>, a: NodeHash, c: NodeHash, more: set<NodeHash>)
    requires a in cache && c in Refs(cache[a])
    requires less.Keys <= cache.Keys && forall h | h in less :: less[h] == cache[h]
    requires forall h | h in more :: Reaches(less, c, h)
    ensures forall h | h in more :: Reaches(cache, a, h)
  {
    hide Refs;
    forall h | h in more
      ensures Reaches(cache, a, h)
    {
      var s :| IsPath(less, s) && s[0] == c && s[|s| - 1] == h;
      var t := [a] + s;
      forall i | 0 < i < |t|
        ensures t[i] in Refs(cache[t[i - 1]])
      {
        assert t[i] == s[i - 1] && (i > 1 ==> t[i - 1] == s[i - 2]);
      }
      assert IsPath(cache, t);
    }
  }
}
