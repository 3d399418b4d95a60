/**
  * The trie (`crates/trie/trie.rs`): a root hash over a node store. What its operations do is said exactly, by the paths that the
  * store keeps, and so is when they do what a finite map does. The root hash depends on the contents alone, and the trie
  * survives a commit to the database.
  */
module Trie {
  import opened Prelude
  import opened Rlp
  import opened Nibbles
  import opened TrieNode
  import opened TrieHash
  import I = TrieItems
  import opened TrieStore
  import opened TrieWalk
  import opened TrieInsert
  import opened TrieRemove
  import opened TrieSize
  import T = TrieTree

  // ---------------------------------------------------------------------------------------------
  // Sound stores
  // ---------------------------------------------------------------------------------------------

  ghost predicate DbEntryOk(keccak: Bytes -> H256, u: iset<Bytes>, keys: iset<Binding>, db: map<Bytes, Bytes>, b: Bytes)
    requires b in db
  {
    var node := DecodeNode(db[b]);
    node.Ok? && Genuine(keccak, u, keys, HashFromBytes(b), node.value) && RefsIn(Store(map[], db), node.value)
  }

  ghost predicate CacheEntryOk(keccak: Bytes -> H256, u: iset<Bytes>, keys: iset<Binding>, m: Store, h: NodeHash)
    requires h in m.cache
  {
    Genuine(keccak, u, keys, h, m.cache[h]) && RefsIn(m, m.cache[h])
  }

  /** Every node in the store stands for a known trie and refers to nodes in the store; the database is closed by itself. */
  ghost predicate Sound(keccak: Bytes -> H256, u: iset<Bytes>, keys: iset<Binding>, m: Store) {
    && (forall h | h in m.cache :: CacheEntryOk(keccak, u, keys, m, h))
    && (forall b | b in m.db :: DbEntryOk(keccak, u, keys, m.db, b))
  }

  lemma RefIsProper(keccak: Bytes -> H256, t: T.Tree)
    requires T.WF(t) && Small(t)
    ensures Proper(Hash(keccak, t))
  {
    hide Hash;
    HashIsRef(keccak, t);
  }

  /** In a sound store a known trie can be read as soon as its hash can be resolved. */
  lemma {:induction false} SoundStored(
    keccak: Bytes -> H256, u: iset<Bytes>, keys: iset<Binding>, m: Store, t: T.Tree, d: nat)
    requires CollisionFree(keccak, u) && Known(keccak, u, t) && T.Placed(t, d) && Sound(keccak, u, keys, m)
    requires !t.Nil? ==> Resolvable(m, Hash(keccak, t))
    ensures Stored(keccak, keys, m, t, d)
    decreases t
  {
    hide Known, Sound, Hash, Matches, RefsIn, Resolvable;
    if !t.Nil? {
      var node := SoundFound(keccak, u, keys, m, t, d);
      KnownChild(keccak, u, t);
      match t
      case Leaf(_, _) =>
      case Ext(p, c) =>
        RefsOfChildren(keccak, u, keys, m, node, t, d);
        SoundStored(keccak, u, keys, m, c, d + |p|);
      case Branch(ch, _) =>
        RefsOfChildren(keccak, u, keys, m, node, t, d);
        forall i | 0 <= i < 16
          ensures Stored(keccak, keys, m, ch[i], d + 1)
        {
          SoundStored(keccak, u, keys, m, ch[i], d + 1);
        }
    }
  }

  lemma SoundFound(keccak: Bytes -> H256, u: iset<Bytes>, keys: iset<Binding>, m: Store, t: T.Tree, d: nat) returns (node: Node)
    requires CollisionFree(keccak, u) && Known(keccak, u, t) && T.Placed(t, d) && Sound(keccak, u, keys, m) && !t.Nil?
    requires Resolvable(m, Hash(keccak, t))
    ensures Resolve(m, Hash(keccak, t)) == Ok(Some(node))
    ensures Matches(keccak, keys, node, t, d) && RefsIn(m, node)
    ensures Found(keccak, keys, m, t, d)
  {
    hide Hash, Matches, RefsIn, Refs, CollisionFree, DecodeNode, Genuine;
    var h := Hash(keccak, t);
    RefIsProper(keccak, t);
    HashFromItsBytes(h);
    if h in m.cache {
      assert CacheEntryOk(keccak, u, keys, m, h);
      node := m.cache[h];
    } else {
      var b := HashBytes(h);
      assert DbEntryOk(keccak, u, keys, m.db, b);
      node := DecodeNode(m.db[b]).value;
      RefsInMore(Store(map[], m.db), m, node);
    }
    SameTrie(keccak, u, keys, h, node, t, d);
  }

  lemma RefsOfChildren(keccak: Bytes -> H256, u: iset<Bytes>, keys: iset<Binding>, m: Store, node: Node, t: T.Tree, d: nat)
    requires Matches(keccak, keys, node, t, d) && RefsIn(m, node) && Known(keccak, u, t)
    ensures t.Ext? ==> Resolvable(m, Hash(keccak, t.child))
    ensures t.Branch? ==> |t.children| == 16
    ensures t.Branch? ==> forall i | 0 <= i < 16 :: !t.children[i].Nil? ==> Resolvable(m, Hash(keccak, t.children[i]))
  {
    hide Hash, Resolvable;
    if t.Branch? {
      forall i | 0 <= i < 16 && !t.children[i].Nil?
        ensures Resolvable(m, Hash(keccak, t.children[i]))
      {
        ValidMeansChild(keccak, t.children[i]);
        assert node.choices[i] in Refs(node);
      }
    }
  }

  // ---------------------------------------------------------------------------------------------
  // Additions and commits keep a store sound
  // ---------------------------------------------------------------------------------------------

  lemma {:induction false} WithinMore(keccak: Bytes -> H256, t: T.Tree, u: iset<Bytes>, w: iset<Bytes>)
    requires Within(keccak, t, u) && u <= w
    ensures Within(keccak, t, w)
    decreases t
  {
    hide Payload;
    match t
    case Ext(_, c) => WithinMore(keccak, c, u, w);
    case Branch(ch, _) =>
      forall i | 0 <= i < |ch|
        ensures Within(keccak, ch[i], w)
      {
        WithinMore(keccak, ch[i], u, w);
      }
    case _ =>
  }

  lemma GenuineMore(
    keccak: Bytes -> H256, u: iset<Bytes>, w: iset<Bytes>, keys: iset<Binding>, more: iset<Binding>, h: NodeHash, node: Node)
    requires Genuine(keccak, u, keys, h, node) && u <= w && keys <= more
    ensures Genuine(keccak, w, more, h, node)
  {
    hide Hash, Matches, Within, Small;
    var t, d :|
      Known(keccak, u, t) && T.Placed(t, d) && Hash(keccak, t) == h && Matches(keccak, keys, node, t, d);
    WithinMore(keccak, t, u, w);
    MatchesMore(keccak, keys, more, node, t, d);
    assert Known(keccak, w, t);
  }

  lemma MatchesMore(keccak: Bytes -> H256, keys: iset<Binding>, more: iset<Binding>, node: Node, t: T.Tree, d: nat)
    requires Matches(keccak, keys, node, t, d) && keys <= more
    ensures Matches(keccak, more, node, t, d)
  {
  }

  /** A store stays sound with more encodings and more bindings. */
  lemma SoundMore(
    keccak: Bytes -> H256, u: iset<Bytes>, w: iset<Bytes>, keys: iset<Binding>, more: iset<Binding>, m: Store)
    requires Sound(keccak, u, keys, m) && u <= w && keys <= more
    ensures Sound(keccak, w, more, m)
  {
    hide Genuine, RefsIn, DecodeNode;
    forall h | h in m.cache
      ensures CacheEntryOk(keccak, w, more, m, h)
    {
      assert CacheEntryOk(keccak, u, keys, m, h);
      GenuineMore(keccak, u, w, keys, more, h, m.cache[h]);
    }
    forall b | b in m.db
      ensures DbEntryOk(keccak, w, more, m.db, b)
    {
      assert DbEntryOk(keccak, u, keys, m.db, b);
      GenuineMore(keccak, u, w, keys, more, HashFromBytes(b), DecodeNode(m.db[b]).value);
    }
  }

  /** The leaves in the cache. */
  function CachedLeaves(m: Store): map<NodeHash, Node> {
    map h | h in m.cache && m.cache[h].LeafNode? :: m.cache[h]
  }

  /** The leaves that were written replace those with the same hash, and the others stay. */
  lemma LeavesGrow(
    keccak: Bytes -> H256, u: iset<Bytes>, keys: iset<Binding>, m: Store, m': Store, w: map<NodeHash, Node>)
    requires CollisionFree(keccak, u) && Sound(keccak, u, keys, m) && Extends(keccak, u, keys, m, m')
    requires Wrote(m, m', w) && forall h | h in w :: w[h].LeafNode?
    ensures CachedLeaves(m') == CachedLeaves(m) + w
  {
    hide Genuine, RefsIn, CollisionFree, DbEntryOk;
    forall h | h in m.cache && m.cache[h].LeafNode?
      ensures h in m'.cache && m'.cache[h].LeafNode?
    {
      if m'.cache[h] != m.cache[h] {
        assert CacheEntryOk(keccak, u, keys, m, h);
        StaysLeaf(keccak, u, keys, h, m.cache[h], m'.cache[h]);
      }
    }
  }

  lemma StaysLeaf(keccak: Bytes -> H256, u: iset<Bytes>, keys: iset<Binding>, h: NodeHash, a: Node, b: Node)
    requires CollisionFree(keccak, u) && Genuine(keccak, u, keys, h, a) && Genuine(keccak, u, keys, h, b)
    ensures a.LeafNode? <==> b.LeafNode?
  {
    hide Hash, Matches, Known, CollisionFree;
    var t, d :| Known(keccak, u, t) && T.Placed(t, d) && Hash(keccak, t) == h && Matches(keccak, keys, a, t, d);
    KindOfMatch(keccak, keys, a, t, d);
    NotNilIfMatched(keccak, keys, a, t, d);
    SameTrie(keccak, u, keys, h, b, t, d);
    KindOfMatch(keccak, keys, b, t, d);
  }

  lemma NotNilIfMatched(keccak: Bytes -> H256, keys: iset<Binding>, node: Node, t: T.Tree, d: nat)
    requires Matches(keccak, keys, node, t, d)
    ensures !t.Nil?
  {
  }

  /** The bindings that an insertion stores: the new one, and the value with the path of the leaf it ends at. */
  ghost function NewBindings(keccak: Bytes -> H256, m: Store, t: T.Tree, path: Bytes, v: Bytes): iset<Binding> {
    if T.StopOf(t, Nibs(path)).Some? then iset{(path, v), (OwnPath(keccak, m, t, Nibs(path)), v)} else iset{(path, v)}
  }

  lemma NewBounded(keccak: Bytes -> H256, keys: iset<Binding>, m: Store, t: T.Tree, path: Bytes, v: Bytes)
    requires Bounded(keys) && Stored(keccak, keys, m, t, 0) && |path| < MAX_LEN
    ensures Bounded(keys + NewBindings(keccak, m, t, path, v)) && (path, v) in NewBindings(keccak, m, t, path, v)
  {
    hide Hash, PathOf, Stored, T.StopOf, Nibs;
    if T.StopOf(t, Nibs(path)).Some? {
      StopStored(keccak, keys, m, t, 0, Nibs(path));
    }
  }

  lemma SoundExtends(keccak: Bytes -> H256, u: iset<Bytes>, keys: iset<Binding>, m: Store, m': Store)
    requires Sound(keccak, u, keys, m) && Extends(keccak, u, keys, m, m')
    ensures Sound(keccak, u, keys, m')
  {
    hide Genuine, RefsIn, DbEntryOk;
    forall h | h in m'.cache
      ensures CacheEntryOk(keccak, u, keys, m', h)
    {
      if h in m.cache && m.cache[h] == m'.cache[h] {
        assert CacheEntryOk(keccak, u, keys, m, h);
        RefsInMore(m, m', m'.cache[h]);
      }
    }
  }

  /** A genuine node can be read back from the database. */
  lemma GenuineReads(keccak: Bytes -> H256, u: iset<Bytes>, keys: iset<Binding>, h: NodeHash, node: Node)
    requires Genuine(keccak, u, keys, h, node) && Bounded(keys)
    ensures DecodeNode(EncodeNode(node)) == Ok(node)
    ensures Proper(h)
  {
    hide EncodeNode, DecodeNode, Hash, Nibs, Within;
    var t, d :|
      Known(keccak, u, t) && T.Placed(t, d) && Hash(keccak, t) == h && Matches(keccak, keys, node, t, d);
    RefIsProper(keccak, t);
    MatchesEncodable(keccak, keys, node, t, d, 0);
    NodeSize(node, 0);
    NodeRoundTrip(node);
  }

  /** What was moved reads as before, and so does what was only in the database. */
  lemma CommitResolves(
    keccak: Bytes -> H256, u: iset<Bytes>, keys: iset<Binding>, m: Store, m': Store, moved: set<NodeHash>, h: NodeHash)
    requires Sound(keccak, u, keys, m) && Bounded(keys) && Committed(m, m', moved)
    requires h in moved || (h !in m.cache && Proper(h))
    ensures FromDb(m'.db, h) == Resolve(m, h)
  {
    hide EncodeNode, DecodeNode, Genuine, RefsIn, Refs, DbEntryOk;
    if h in moved {
      assert CacheEntryOk(keccak, u, keys, m, h);
      GenuineReads(keccak, u, keys, h, m.cache[h]);
    } else {
      HashFromItsBytes(h);
    }
  }

  /** Main law of commit: the database alone is sound afterwards, and still resolves what a committed root referred to. */
  lemma SoundCommit(keccak: Bytes -> H256, u: iset<Bytes>, keys: iset<Binding>, m: Store, m': Store, moved: set<NodeHash>)
    requires Sound(keccak, u, keys, m) && Bounded(keys) && Committed(m, m', moved)
    ensures Sound(keccak, u, keys, Store(map[], m'.db))
    ensures forall h | h !in m'.cache && Resolvable(m, h) :: Resolvable(Store(map[], m'.db), h)
  {
    hide EncodeNode, DecodeNode, Genuine, RefsIn, Refs, DbEntryOk, HashBytes, HashFromBytes;
    forall b | b in m'.db
      ensures DbEntryOk(keccak, u, keys, m'.db, b)
    {
      SoundEntry(keccak, u, keys, m, m', moved, b);
    }
  }

  lemma SoundEntry(
    keccak: Bytes -> H256, u: iset<Bytes>, keys: iset<Binding>, m: Store, m': Store, moved: set<NodeHash>, b: Bytes)
    requires Sound(keccak, u, keys, m) && Bounded(keys) && Committed(m, m', moved) && b in m'.db
    ensures DbEntryOk(keccak, u, keys, m'.db, b)
  {
    hide EncodeNode, DecodeNode, Genuine, Refs, HashBytes;
    if b in m.db && m'.db[b] == m.db[b] {
      assert DbEntryOk(keccak, u, keys, m.db, b);
      RefsInMore(Store(map[], m.db), Store(map[], m'.db), DecodeNode(m.db[b]).value);
    } else {
      var h := HashFromBytes(b);
      assert CacheEntryOk(keccak, u, keys, m, h);
      GenuineReads(keccak, u, keys, h, m.cache[h]);
      BytesOfHash(b);
      forall r | r in Refs(m.cache[h])
        ensures Resolvable(Store(map[], m'.db), r)
      {
        assert Resolvable(m, r);
      }
    }
  }

  lemma BytesOfHash(b: Bytes)
    ensures HashBytes(HashFromBytes(b)) == b
  {
  }

  // ---------------------------------------------------------------------------------------------
  // The root hash
  // ---------------------------------------------------------------------------------------------

  function Finalize(keccak: Bytes -> H256, h: NodeHash): H256 {
    match h
    case Inline(x) => keccak(x)
    case Hashed(x) => x
  }

  /** The hash of an empty trie is that of the null item. */
  function Digest(keccak: Bytes -> H256, t: T.Tree): H256 {
    if t.Nil? then keccak([RLP_NULL]) else Finalize(keccak, Hash(keccak, t))
  }

  /** A short root is hashed as well, so a digest is always that of the root's encoding. */
  lemma DigestIsKeccak(keccak: Bytes -> H256, t: T.Tree)
    requires !t.Nil?
    ensures Digest(keccak, t) == keccak(EncodeList(Payload(keccak, t)))
  {
  }

  /** The root hash of the Yellow Paper: Keccak of the item of the root node, or of the empty string for the empty trie. */
  lemma DigestIsRoot(keccak: Bytes -> H256, t: T.Tree)
    requires T.WF(t)
    ensures Digest(keccak, t) == keccak(EncodeItem(if t.Nil? then Str([]) else I.TreeItem(keccak, t)))
  {
    hide Hash, Payload;
    if t.Nil? {
      assert EncodeItem(Str([])) == [RLP_NULL];
    } else {
      DigestIsKeccak(keccak, t);
      I.TreeEncoding(keccak, t);
    }
  }

  lemma NotNull(payload: Bytes)
    ensures EncodeList(payload) != [RLP_NULL]
  {
    assert payload == [] ==> EncodeList(payload)[0] == RLP_EMPTY_LIST;
    assert payload != [] ==> |EncodeList(payload)| > 1;
  }

  /** Main law of hashing: two tries have one root hash if and only if they bind the same keys to the same values. */
  lemma DigestTellsContents(keccak: Bytes -> H256, u: iset<Bytes>, a: T.Tree, b: T.Tree)
    requires CollisionFree(keccak, u) && [RLP_NULL] in u && Known(keccak, u, a) && Known(keccak, u, b)
    ensures Digest(keccak, a) == Digest(keccak, b) <==> T.Agree(a, b)
  {
    hide T.Lookup, Small, T.WF, EncodeList;
    if T.Agree(a, b) {
      T.Canonical(a, b);
    }
    if Digest(keccak, a) == Digest(keccak, b) {
      SameDigest(keccak, u, a, b);
    }
  }

  lemma SameDigest(keccak: Bytes -> H256, u: iset<Bytes>, a: T.Tree, b: T.Tree)
    requires CollisionFree(keccak, u) && [RLP_NULL] in u && Known(keccak, u, a) && Known(keccak, u, b)
    requires Digest(keccak, a) == Digest(keccak, b)
    ensures a == b
  {
    hide Small, T.WF, EncodeList, Payload;
    var x := if a.Nil? then [RLP_NULL] else EncodeList(Payload(keccak, a));
    var y := if b.Nil? then [RLP_NULL] else EncodeList(Payload(keccak, b));
    assert x in u && y in u;
    assert keccak(x) == keccak(y);
    if !a.Nil? {
      NotNull(Payload(keccak, a));
    }
    if !b.Nil? {
      NotNull(Payload(keccak, b));
    }
    assert Hash(keccak, a) == Hash(keccak, b);
    HashInjective(keccak, u, a, b);
  }

  /**
    * `open` looks a committed root up under its digest. It is found there if and only if the encoding of the root node
    * has at least 32 bytes; a shorter root was stored under its encoding.
    */
  lemma Reopens(keccak: Bytes -> H256, u: iset<Bytes>, keys: iset<Binding>, m: Store, t: T.Tree)
    requires CollisionFree(keccak, u) && Known(keccak, u, t) && !t.Nil?
    requires Sound(keccak, u, keys, m) && m.cache == map[] && Resolvable(m, Hash(keccak, t))
    ensures Resolvable(m, Hashed(Digest(keccak, t))) <==> |EncodeList(Payload(keccak, t))| >= 32
  {
    hide Payload, EncodeList, T.WF, Small, RefsIn, DecodeNode, Genuine;
    if |EncodeList(Payload(keccak, t))| < 32 {
      ShortIsFree(keccak, u, keys, m, t);
    }
  }

  /** Nothing is ever stored under the digest of a short root. */
  lemma ShortIsFree(keccak: Bytes -> H256, u: iset<Bytes>, keys: iset<Binding>, m: Store, t: T.Tree)
    requires CollisionFree(keccak, u) && Known(keccak, u, t) && !t.Nil? && Sound(keccak, u, keys, m) && m.cache == map[]
    requires |EncodeList(Payload(keccak, t))| < 32
    ensures !Resolvable(m, Hashed(Digest(keccak, t)))
  {
    hide Payload, EncodeList, T.WF, Small, RefsIn, DecodeNode, Genuine;
    var b := Digest(keccak, t);
    if b in m.db {
      ShortDigestIsFree(keccak, u, keys, t, DecodeNode(m.db[b]).value);
      assert false;
    }
  }

  lemma ShortDigestIsFree(keccak: Bytes -> H256, u: iset<Bytes>, keys: iset<Binding>, t: T.Tree, node: Node)
    requires CollisionFree(keccak, u) && Known(keccak, u, t) && !t.Nil?
    requires |EncodeList(Payload(keccak, t))| < 32
    ensures !Genuine(keccak, u, keys, Hashed(Digest(keccak, t)), node)
  {
    hide Payload, EncodeList, T.WF, Small, Matches;
  }

  // ---------------------------------------------------------------------------------------------
  // The trie
  // ---------------------------------------------------------------------------------------------

  lemma SoundIsProper(keccak: Bytes -> H256, u: iset<Bytes>, keys: iset<Binding>, m: Store)
    requires Sound(keccak, u, keys, m)
    ensures forall h | h in m.cache :: Proper(h)
  {
    hide Hash, Matches, RefsIn, Proper, DbEntryOk;
    forall h | h in m.cache
      ensures Proper(h)
    {
      assert CacheEntryOk(keccak, u, keys, m, h);
      var t, d :|
        Known(keccak, u, t) && T.Placed(t, d) && Hash(keccak, t) == h && Matches(keccak, keys, m.cache[h], t, d);
      RefIsProper(keccak, t);
    }
  }

  lemma KnownMore(keccak: Bytes -> H256, u: iset<Bytes>, w: iset<Bytes>, t: T.Tree)
    requires Known(keccak, u, t) && u <= w
    ensures Known(keccak, w, t)
  {
    WithinMore(keccak, t, u, w);
  }

  class Trie {
    const state: TrieState
    var root: Option<NodeHash>
    /** Paths and values, with all that were stored together among them. */
    ghost var keys: iset<Binding>
    ghost var tree: T.Tree
    /** The encodings of all nodes formed so far. */
    ghost var known: iset<Bytes>
    /** The trie was opened on a root that the database does not have. */
    ghost var lost: bool

    ghost predicate Valid()
      reads this, state
    {
      && Bounded(keys)
      && CollisionFree(state.keccak, known)
      && Known(state.keccak, known, tree) && T.Placed(tree, 0)
      && Sound(state.keccak, known, keys, state.Value())
      && (lost ==> tree == T.Nil && root.Some? && Proper(root.value) && !Resolvable(state.Value(), root.value))
      && (!lost ==> root == (if tree.Nil? then None else Some(Hash(state.keccak, tree))))
      && (!tree.Nil? ==> Resolvable(state.Value(), Hash(state.keccak, tree)))
    }

    /** The value bound to a key. */
    ghost function At(path: Bytes): Option<Bytes>
      reads this
    {
      T.Lookup(tree, Nibs(path))
    }

    constructor (keccak: Bytes -> H256)
      ensures Valid() && fresh(state) && !lost
      ensures state.keccak == keccak && keys == iset{} && tree == T.Nil && known == iset{} && state.Value() == Store(map[], map[])
    {
      keys := iset{};
      state := new TrieState(keccak, map[]);
      root := None;
      tree := T.Nil;
      known := iset{};
      lost := false;
    }

    /**
      * Opens a trie by its root hash. It is the trie with that hash unless the database does not have it, which for a
      * committed trie means that the encoding of its root is shorter than 32 bytes (`Reopens`).
      */
    constructor Open(
      keccak: Bytes -> H256, db: map<Bytes, Bytes>, digest: H256,
      ghost keys: iset<Binding>, ghost t: T.Tree, ghost u: iset<Bytes>)
      requires Bounded(keys) && CollisionFree(keccak, u) && [RLP_NULL] in u && Known(keccak, u, t) && T.Placed(t, 0)
      requires Sound(keccak, u, keys, Store(map[], db)) && digest == Digest(keccak, t)
      ensures Valid() && fresh(state) && state.keccak == keccak && this.keys == keys && known == u
      ensures lost <==> !t.Nil? && digest !in db
      ensures !lost ==> tree == t
    {
      this.keys := keys;
      state := new TrieState(keccak, db);
      root := if digest == keccak([RLP_NULL]) then None else Some(Hashed(digest));
      tree := if !t.Nil? && digest !in db then T.Nil else t;
      known := u;
      lost := !t.Nil? && digest !in db;
      new;
      OpenRoot(keccak, u, keys, db, t);
    }

    /**
      * Panics on a lost root and on a path that overruns the trie or a stored leaf, and reads the trie as the walk sees it
      * otherwise. That is what the key is bound to if and only if the walk does not overrun and `Reads`.
      */
    method Get(path: Bytes) returns (r: Result<Option<Bytes>>)
      requires Valid()
      ensures r == if lost then Panic else GetVia(state.keccak, state.Value(), tree, 0, Nibs(path))
      ensures r == Ok(At(path)) <==>
              !lost && !T.Overruns(tree, 0, Nibs(path)) && Reads(state.keccak, state.Value(), tree, 0, Nibs(path))
    {
      hide Known, Sound, Hash, Nibs, T.Lookup, T.Placed, T.Overruns, GetVia, Reads;
      KnownIsWF(state.keccak, known, tree);
      WholeKey(path);
      SoundStored(state.keccak, known, keys, state.Value(), tree, 0);
      ReadsRight(state.keccak, keys, state.Value(), tree, 0, Nibs(path));
      if root.None? {
        ReadNothing(state.keccak, state.Value(), Nibs(path));
        return Ok(None);
      }
      var found := state.GetNode(root.value);
      if found == Ok(None) {
        FoundIfStored(state.keccak, known, keys, state.Value(), tree);
        return Panic;
      }
      StoredMeans(state.keccak, keys, state.Value(), tree, 0);
      r := NodeGet(state, Unwrap(found), path, 0, keys, tree);
    }

    /**
      * Binds a key in the trie as the walk sees it; a lost trie starts anew. A path that overruns the trie or a stored leaf
      * panics (`!ok`). The contents are right afterwards if and only if the leaf at the end of the walk was in place.
      */
    method Insert(path: Bytes, value: Bytes, ghost u: iset<Bytes>) returns (ok: bool)
      requires Valid() && |path| < MAX_LEN && known <= u && CollisionFree(state.keccak, u)
      requires var k := Nibs(path);
               Passes(state.keccak, state.Value(), tree, 0, k) ==>
                 && T.Clear(Seen(state.keccak, state.Value(), tree, 0, k), k, value)
                 && Known(state.keccak, u, T.Insert(Seen(state.keccak, state.Value(), tree, 0, k), k, value))
      modifies this, state`cache
      ensures ok <==> Passes(state.keccak, old(state.Value()), old(tree), 0, Nibs(path))
      ensures ok ==> Valid() && known == u && !lost
      ensures ok ==>
                var m, k := old(state.Value()), Nibs(path);
                var seen, own := Seen(state.keccak, m, old(tree), 0, k), OwnPath(state.keccak, m, old(tree), k);
                && tree == T.Insert(seen, k, value)
                && keys == old(keys) + NewBindings(state.keccak, m, old(tree), path, value)
                && CachedLeaves(state.Value()) == CachedLeaves(m) + Writes(state.keccak, seen, k, value, path, own)
                && (Gains(old(tree), k, value, tree) <==> InPlace(state.keccak, m, old(tree), 0, k))
    {
      hide Known, Sound, Hash, Nibs, T.Lookup, T.WF, T.Placed, T.Overruns, T.Insert, T.Clear, T.StopOf, OffEnd;
      hide Seen, OwnPath, Writes, Wrote, InPlace, StopEnds, Gains, Inserted, NewBindings, CachedLeaves, Bounded;
      ghost var k, m0 := Nibs(path), state.Value();
      ghost var seen, own := Seen(state.keccak, m0, tree, 0, k), OwnPath(state.keccak, m0, tree, k);
      ghost var t2 := T.Insert(seen, k, value);
      ghost var more := keys + NewBindings(state.keccak, m0, tree, path, value);
      KnownIsWF(state.keccak, known, tree);
      SoundStored(state.keccak, known, keys, m0, tree, 0);
      StoredEnds(state.keccak, keys, m0, tree, 0, k);
      NewBounded(state.keccak, keys, m0, tree, path, value);
      SoundMore(state.keccak, known, u, keys, more, m0);
      KnownMore(state.keccak, known, u, tree);
      SoundStored(state.keccak, u, more, m0, tree, 0);
      WholeKey(path);
      NibsLength(path);
      if Passes(state.keccak, m0, tree, 0, k) {
        InsertsRight(state.keccak, m0, tree, 0, k, value);
        InsertedPlaced(state.keccak, m0, tree, 0, k, value);
        T.InsertWF(seen, k, value);
      }
      var found := Ok(None);
      if root.Some? {
        found := state.GetNode(root.value);
      }
      var node;
      if found == Ok(None) {
        FoundIfStored(state.keccak, known, keys, m0, tree);
        node := LeafNode(path, value);
        StartAnew(state.keccak, u, more, m0, k, value, path, own);
      } else {
        StoredMeans(state.keccak, more, m0, tree, 0);
        NowReady(state.keccak, u, keys, more, m0, tree, path, value);
        var inserted := NodeInsert(state, Unwrap(found), path, 0, value, u, more, tree);
        if inserted.Panic? {
          return false;
        }
        node := inserted.value;
        InsertedMeans(state.keccak, u, more, m0, state.Value(), node, seen, 0, k, value, path, own);
      }
      ghost var m1 := state.Value();
      SoundExtends(state.keccak, u, more, m0, m1);
      var hash := state.InsertSelf(node, 0, u, more, t2, 0);
      SoundExtends(state.keccak, u, more, m1, state.Value());
      StoredIsResolvable(state.keccak, more, state.Value(), t2, 0);
      ExtendsTrans(state.keccak, u, more, m0, m1, state.Value());
      if tree.Nil? {
        StartedAnew(state.keccak, m0, state.Value(), k, value, path, own);
      } else {
        StoredWrites(state.keccak, u, more, m0, m1, state.Value(), node, seen, 0, k, value, path, own);
      }
      LeavesGrow(state.keccak, u, more, m0, state.Value(), Writes(state.keccak, seen, k, value, path, own));
      root, tree, known, keys, lost := Some(hash), t2, u, more, false;
      ok := true;
    }

    /**
      * Removes a key. With the keys that the store keeps, the trie left is `RemoveVia`, which holds what it should if and
      * only if `Removes`.
      */
    method Remove(path: Bytes, ghost u: iset<Bytes>) returns (r: Result<Option<Bytes>>, broken: bool)
      requires Valid() && known <= u && CollisionFree(state.keccak, u) && T.WF(tree)
      requires KnownSteps(state.keccak, u, state.Value(), tree, 0, Nibs(path))
      modifies this, state`cache
      ensures var k := Nibs(path);
              var out := RemoveVia(state.keccak, old(state.Value()), old(tree), 0, k);
              && (r.Panic? <==> old(lost) || T.Overruns(old(tree), 0, k) || out.Panics?)
              && (broken <==> !r.Panic? && out.Garbled?)
              && (!r.Panic? && !broken ==>
                    && Valid() && known == u && !lost && keys == old(keys)
                    && r == Ok(RemovedVia(state.keccak, old(state.Value()), old(tree), 0, k))
                    && tree == out.tree
                    && (LosesOnly(old(tree), k, tree) <==> Removes(state.keccak, old(state.Value()), old(tree), 0, k)))
    {
      hide Known, KnownSteps, Sound, Hash, Nibs, T.Lookup, T.WF;
      hide T.Placed, T.Overruns, Removes, RemoveVia, RemovedVia, LosesOnly, KeyOf;
      ghost var k, m0 := Nibs(path), state.Value();
      SoundMore(state.keccak, known, u, keys, keys, m0);
      KnownMore(state.keccak, known, u, tree);
      WholeKey(path);
      StepsKnown(state.keccak, u, m0, tree, 0, k);
      SoundStored(state.keccak, u, keys, m0, tree, 0);
      RemovesOnlyKey(state.keccak, keys, m0, tree, k);
      broken := false;
      if root.None? {
        RemoveFromNothing(state.keccak, m0, 0, k);
        known := u;
        return Ok(None), false;
      }
      var found := state.GetNode(root.value);
      if found == Ok(None) {
        FoundIfStored(state.keccak, u, keys, m0, tree);
        return Panic, false;
      }
      StoredMeans(state.keccak, keys, m0, tree, 0);
      KeyFound(m0, root.value, Unwrap(found));
      var left, removed := NodeRemove(state, Unwrap(found), path, 0, u, keys, tree);
      if !left.Done? {
        return if left.Failed? then Panic else Ok(removed), left.Broken?;
      }
      ghost var t2 := RemoveVia(state.keccak, m0, tree, 0, k).tree;
      ghost var m1 := state.Value();
      ViaPlaced(state.keccak, m0, tree, 0, k);
      SoundExtends(state.keccak, u, keys, m0, m1);
      if left.node.Some? {
        RootFits(state.keccak, keys, m0, tree, k, left.node.value);
        var hash := state.InsertSelf(left.node.value, 0, u, keys, t2, 0);
        SoundExtends(state.keccak, u, keys, m1, state.Value());
        StoredIsResolvable(state.keccak, keys, state.Value(), t2, 0);
        root := Some(hash);
      } else {
        root := None;
      }
      tree, known := t2, u;
      r := Ok(removed);
    }

    /** The root hash without a commit. */
    method RootHashInMemory() returns (digest: H256)
      requires Valid() && !lost
      ensures digest == Digest(state.keccak, tree)
    {
      hide Known, Sound, Hash, T.Placed;
      digest := match root
        case None => state.keccak([RLP_NULL])
        case Some(hash) => Finalize(state.keccak, hash);
    }

    /** Commits the trie; afterwards the database holds it without the cache. */
    method RootHash() returns (digest: H256)
      requires Valid()
      modifies state
      ensures Valid()
      ensures !lost ==> digest == Digest(state.keccak, tree)
      ensures !tree.Nil? ==> state.cache == map[]
      ensures !tree.Nil? ==> Stored(state.keccak, keys, Store(map[], state.db), tree, 0)
    {
      hide Known, Sound, Committed, Hash, T.Placed;
      if root.Some? {
        SoundIsProper(state.keccak, known, keys, state.Value());
        ghost var moved, left := state.Commit(root.value);
        SoundCommit(state.keccak, known, keys, old(state.Value()), Store(left, state.db), moved);
        if lost {
          StaysLost(old(state.Value()), Store(left, state.db), moved, root.value);
        }
        SoundStored(state.keccak, known, keys, state.Value(), tree, 0);
        digest := Finalize(state.keccak, root.value);
      } else {
        digest := state.keccak([RLP_NULL]);
      }
    }
  }

  /** A commit does not store what it cannot reach. */
  lemma StaysLost(m: Store, m': Store, moved: set<NodeHash>, h: NodeHash)
    requires Committed(m, m', moved) && !Resolvable(m, h) && Proper(h)
    ensures HashBytes(h) !in m'.db
  {
    hide EncodeNode, Refs;
    HashFromItsBytes(h);
  }

  lemma OpenRoot(keccak: Bytes -> H256, u: iset<Bytes>, keys: iset<Binding>, db: map<Bytes, Bytes>, t: T.Tree)
    requires CollisionFree(keccak, u) && [RLP_NULL] in u && Known(keccak, u, t) && Sound(keccak, u, keys, Store(map[], db))
    ensures Digest(keccak, t) == keccak([RLP_NULL]) <==> t.Nil?
    ensures !t.Nil? && Digest(keccak, t) in db ==> Hash(keccak, t) == Hashed(Digest(keccak, t))
    ensures Known(keccak, u, T.Nil) && T.Placed(T.Nil, 0)
  {
    hide EncodeList, Payload, T.WF, Sound;
    NilKnown(keccak, u);
    if !t.Nil? {
      NotNull(Payload(keccak, t));
      if |EncodeList(Payload(keccak, t))| < 32 {
        ShortIsFree(keccak, u, keys, Store(map[], db), t);
      }
    }
  }

  lemma NilKnown(keccak: Bytes -> H256, u: iset<Bytes>)
    ensures Known(keccak, u, T.Nil) && T.Placed(T.Nil, 0)
  {
  }

  /** In a sound store a hash that can be resolved resolves to a node. */
  lemma FoundIfStored(keccak: Bytes -> H256, u: iset<Bytes>, keys: iset<Binding>, m: Store, t: T.Tree)
    requires CollisionFree(keccak, u) && Known(keccak, u, t) && T.Placed(t, 0) && Sound(keccak, u, keys, m)
    requires !t.Nil? ==> Resolvable(m, Hash(keccak, t))
    ensures !t.Nil? ==> Resolve(m, Hash(keccak, t)) != Ok(None)
  {
    hide Known, Sound, Hash, Resolvable;
    if !t.Nil? {
      SoundStored(keccak, u, keys, m, t, 0);
      StoredIsFoundAndBelow(keccak, keys, m, t, 0);
    }
  }

  lemma KnownIsWF(keccak: Bytes -> H256, u: iset<Bytes>, t: T.Tree)
    requires Known(keccak, u, t)
    ensures T.WF(t)
  {
  }

  lemma InsertNil(k: T.Key, v: Bytes)
    ensures T.Insert(T.Nil, k, v) == T.Leaf(k, v)
  {
  }

  lemma WholeKey(path: Bytes)
    ensures Nibs(path)[0..] == Nibs(path)
  {
  }

  lemma StoredIsResolvable(keccak: Bytes -> H256, keys: iset<Binding>, m: Store, t: T.Tree, d: nat)
    requires Stored(keccak, keys, m, t, d) && !t.Nil?
    ensures Resolvable(m, Hash(keccak, t))
  {
    hide Hash, DecodeNode;
    StoredIsFoundAndBelow(keccak, keys, m, t, d);
  }

  lemma ReadNothing(keccak: Bytes -> H256, m: Store, k: T.Key)
    ensures GetVia(keccak, m, T.Nil, 0, k) == Ok(None)
  {
    NothingSeen(keccak, m, 0, k);
  }

  /** The first leaf, before it is stored. */
  lemma StartAnew(
    keccak: Bytes -> H256, u: iset<Bytes>, keys: iset<Binding>, m: Store, k: T.Key, v: Bytes, path: Bytes, own: Bytes)
    requires k == Nibs(path) && (path, v) in keys
    ensures Seen(keccak, m, T.Nil, 0, k) == T.Nil && Passes(keccak, m, T.Nil, 0, k) && T.StopOf(T.Nil, k).None?
    ensures T.Insert(T.Nil, k, v) == T.Leaf(k, v)
    ensures Matches(keccak, keys, LeafNode(path, v), T.Leaf(k, v), 0) && FitsAt(LeafNode(path, v), 0, T.Leaf(k, v))
    ensures Below(keccak, keys, m, T.Leaf(k, v), 0) && Extends(keccak, u, keys, m, m)
  {
    hide Hash, Nibs;
    NothingSeen(keccak, m, 0, k);
    IntoNothing(keccak, k, v, path, own);
    ExtendsSelf(keccak, u, keys, m);
    BelowLeaf(keccak, keys, m, k, v, 0);
    NibsLength(path);
  }

  lemma StartedAnew(keccak: Bytes -> H256, m: Store, m': Store, k: T.Key, v: Bytes, path: Bytes, own: Bytes)
    requires m'.cache == m.cache[Hash(keccak, T.Leaf(k, v)) := LeafNode(path, v)]
    ensures Seen(keccak, m, T.Nil, 0, k) == T.Nil && Wrote(m, m', Writes(keccak, T.Nil, k, v, path, own))
  {
    hide Hash, Wrote;
    NothingSeen(keccak, m, 0, k);
    IntoNothing(keccak, k, v, path, own);
    WroteNothing(m);
    WroteOne(m, m, m', map[], Hash(keccak, T.Leaf(k, v)), LeafNode(path, v));
  }

  lemma NowReady(
    keccak: Bytes -> H256, u: iset<Bytes>, keys: iset<Binding>, more: iset<Binding>, m: Store, t: T.Tree, path: Bytes, v: Bytes)
    requires T.WF(t) && Known(keccak, u, t) && T.Placed(t, 0) && more == keys + NewBindings(keccak, m, t, path, v)
    requires var k := Nibs(path);
             Passes(keccak, m, t, 0, k) ==>
               T.Clear(Seen(keccak, m, t, 0, k), k, v) && Known(keccak, u, T.Insert(Seen(keccak, m, t, 0, k), k, v))
    ensures Ready(keccak, u, more, m, t, 0, Nibs(path), v, path)
  {
    hide Known, Passes, Seen, T.StopOf, OwnPath, T.WF, T.Placed;
  }

  /** What a removal leaves at the root can be hashed there. */
  lemma RootFits(keccak: Bytes -> H256, keys: iset<Binding>, m: Store, t: T.Tree, k: T.Key, node: Node)
    requires T.WF(t) && RemoveVia(keccak, m, t, 0, k).Left?
    requires var out := RemoveVia(keccak, m, t, 0, k);
             Matches(keccak, keys, node, out.tree, 0) && (node.LeafNode? ==> Nibs(node.path) == out.key)
    ensures FitsAt(node, 0, RemoveVia(keccak, m, t, 0, k).tree)
  {
    hide RemoveVia, Nibs;
    ViaKeyed(keccak, m, t, 0, k);
    if node.LeafNode? {
      NibsLength(node.path);
    }
  }
}
