/**
  * Short runs on the objects of the trie in which it does not do what a map does. Each shows that a condition of the laws
  * is needed.
  */
module TrieRuns {
  import opened Prelude
  import opened BigEndian
  import opened Rlp
  import opened Nibbles
  import opened NodeEncoder
  import opened TrieNode
  import opened TrieHash
  import opened TrieStore
  import opened TrieWalk
  import opened TrieInsert
  import opened TrieRemove
  import opened Trie
  import opened TrieBuild
  import opened TrieList
  import T = TrieTree

  lemma TwoNibs(b: byte)
    ensures Nibs([b]) == [b / 16, b % 16]
  {
  }

  lemma FourNibs(a: byte, b: byte)
    ensures Nibs([a, b]) == [a / 16, a % 16, b / 16, b % 16]
  {
    assert [a, b] == [a] + [b];
    NibsConcat([a], [b]);
    TwoNibs(a);
    TwoNibs(b);
  }

  /** The leaf at the end of a walk is stored with one of the paths that its value was stored with. */
  lemma OneOfKeys(trie: Trie, k: T.Key)
    requires trie.Valid() && !trie.lost && T.StopOf(trie.tree, k).Some?
    ensures var e := T.StopOf(trie.tree, k).value;
            var path := StopPath(trie.state.keccak, trie.state.Value(), e);
            Ends(path, e.suffix) && (path, e.value) in trie.keys
    ensures Stored(trie.state.keccak, trie.keys, trie.state.Value(), trie.tree, 0)
  {
    hide Known, Hash, Sound, PathOf, T.StopOf, Ends;
    SoundStored(trie.state.keccak, trie.known, trie.keys, trie.state.Value(), trie.tree, 0);
    StopStored(trie.state.keccak, trie.keys, trie.state.Value(), trie.tree, 0, k);
  }

  lemma CachedPath(m: Store, h: NodeHash)
    requires h in CachedLeaves(m)
    ensures PathOf(m, h) == CachedLeaves(m)[h].path
  {
  }

  /** A trie of one leaf that is stored with its own path. */
  lemma OneLeaf(keccak: Bytes -> H256, m: Store, s: T.Key, w: Bytes, path: Bytes, k: T.Key)
    requires PathOf(m, Hash(keccak, T.Leaf(s, w))) == path && Nibs(path) == s
    ensures var t := T.Leaf(s, w);
            && Passes(keccak, m, t, 0, k) && Seen(keccak, m, t, 0, k) == t && OwnPath(keccak, m, t, k) == path
            && T.StopOf(t, k).Some? && GetVia(keccak, m, t, 0, k) == Ok(if s == k then Some(w) else None)
  {
    hide Hash, PathOf, Nibs;
    SeenLeaf(keccak, m, T.Leaf(s, w), 0, k);
    assert s[0..] == s;
  }

  /** The first binding of a trie. */
  lemma FirstInsert(keccak: Bytes -> H256, m: Store, path: Bytes, v: Bytes, own: Bytes)
    ensures var k := Nibs(path);
            && Passes(keccak, m, T.Nil, 0, k) && Seen(keccak, m, T.Nil, 0, k) == T.Nil && T.Clear(T.Nil, k, v)
            && T.Insert(T.Nil, k, v) == T.Leaf(k, v)
            && Writes(keccak, T.Nil, k, v, path, own) == map[Hash(keccak, T.Leaf(k, v)) := LeafNode(path, v)]
            && NewBindings(keccak, m, T.Nil, path, v) == iset{(path, v)}
  {
    NothingSeen(keccak, m, 0, Nibs(path));
    IntoNothing(keccak, Nibs(path), v, path, own);
  }

  /** A trie with one key. */
  method OneKey(keccak: Bytes -> H256, path: Bytes, v: Bytes, ghost u: iset<Bytes>) returns (trie: Trie)
    requires |path| < MAX_LEN && CollisionFree(keccak, u) && Known(keccak, u, T.Leaf(Nibs(path), v))
    ensures fresh(trie) && fresh(trie.state) && trie.Valid() && !trie.lost && trie.state.keccak == keccak && trie.known == u
    ensures trie.tree == T.Leaf(Nibs(path), v) && trie.keys == iset{(path, v)}
    ensures PathOf(trie.state.Value(), Hash(keccak, trie.tree)) == path
  {
    hide Known, Hash, Nibs, T.Insert, T.Overruns, T.Clear, T.StopOf, T.Placed, Seen, Passes, OwnPath, Writes, InPlace, Gains;
    hide PathOf, Trie.Valid, CollisionFree, CachedLeaves, NewBindings;
    trie := new Trie(keccak);
    FirstInsert(keccak, trie.state.Value(), path, v, OwnPath(keccak, trie.state.Value(), T.Nil, Nibs(path)));
    var ok := trie.Insert(path, v, u);
    CachedPath(trie.state.Value(), Hash(keccak, T.Leaf(Nibs(path), v)));
  }

  // ---------------------------------------------------------------------------------------------
  // Two keys with one value and one suffix
  // ---------------------------------------------------------------------------------------------

  /** The trie that binds 0x10 and 0x20 to one value. */
  function Twin(v: Bytes): T.Tree {
    Fork([1, 0], v, [2, 0], v)
  }

  lemma TwinIs(v: Bytes)
    ensures T.Insert(T.Leaf([1, 0], v), [2, 0], v) == Twin(v) && T.Clear(T.Leaf([1, 0], v), [2, 0], v)
    ensures Lcp([2, 0], [1, 0]) == 0
    ensures Twin(v) == T.Branch(T.NoChildren(16)[1 := T.Leaf([0], v)][2 := T.Leaf([0], v)], [])
  {
    var s: T.Key, k: T.Key := [1, 0], [2, 0];
    assert s[0] != k[0];
    assert Lcp(k, s) == 0 && Lcp(s, k) == 0;
    assert s[0..] == s && k[0..] == k && k[..0] == [] && s[1..] == [0] && k[1..] == [0];
    ForkParts(s, v, k, v);
  }

  /** The leaf that the two keys share is stored with the first of them. */
  lemma TwinWrites(keccak: Bytes -> H256, v: Bytes)
    ensures Writes(keccak, T.Leaf([1, 0], v), [2, 0], v, [0x20], [0x10]) ==
            map[Hash(keccak, T.Leaf([0], v)) := LeafNode([0x10], v)]
  {
    hide Hash;
    var s: T.Key, k: T.Key := [1, 0], [2, 0];
    assert s[0] != k[0];
    assert Lcp(k, s) == 0;
    assert s[0..] == s && k[0..] == k && s[1..] == [0] && k[1..] == [0];
  }

  /** What removing 0x10 leaves when the shared leaf is stored with the key 0x10. */
  lemma TwinRemoved(keccak: Bytes -> H256, m: Store, v: Bytes)
    requires KeyOf(m, Hash(keccak, T.Leaf([0], v))) == [1, 0]
    ensures T.WF(Twin(v))
    ensures RemoveVia(keccak, m, Twin(v), 0, [1, 0]) == Left(T.Leaf([1, 0], v), [1, 0])
    ensures RemoveVia(keccak, m, Twin(v).children[1], 1, [0]) == Left(T.Nil, [])
  {
    hide Hash, KeyOf, Fork;
    TwinIs(v);
    var t, leaf := Twin(v), T.Leaf([0], v);
    var ch := t.children;
    assert ch[1] == leaf && ch[2] == leaf;
    assert T.TwoChildren(ch);
    var k: T.Key := [1, 0];
    assert k[1..] == [0];
    assert RemoveVia(keccak, m, leaf, 1, [0]) == Left(T.Nil, []);
    var ch2 := ch[1 := T.Nil];
    assert ch2[2] == leaf && T.IsOnlyChild(ch2, 2);
    OnlyKeyAt(keccak, m, ch2, 1, [], 2);
    RestructuredAt(ch2, [], KeyOf(m, Hash(keccak, t)), k, 0, 2);
    assert k[0..] == k;
  }

  lemma TwinSteps(keccak: Bytes -> H256, u: iset<Bytes>, m: Store, v: Bytes)
    requires KeyOf(m, Hash(keccak, T.Leaf([0], v))) == [1, 0] && Known(keccak, u, T.Leaf([1, 0], v))
    ensures T.WF(Twin(v)) && KnownSteps(keccak, u, m, Twin(v), 0, [1, 0])
    ensures RemoveVia(keccak, m, Twin(v), 0, [1, 0]) == Left(T.Leaf([1, 0], v), [1, 0])
    ensures !T.Overruns(Twin(v), 0, [1, 0]) && RemovedVia(keccak, m, Twin(v), 0, [1, 0]) == Some(v)
  {
    hide Hash, KeyOf, RemoveVia;
    TwinRemoved(keccak, m, v);
    TwinIs(v);
    var k: T.Key := [1, 0];
    assert k[1..] == [0];
    assert Twin(v).children[1] == T.Leaf([0], v);
    assert RemovedVia(keccak, m, T.Leaf([0], v), 1, [0]) == Some(v);
    assert Known(keccak, u, T.Nil);
  }

  /**
    * Two keys share a stored leaf. Removing one of them unbinds the other: the leaf that is left was stored with the key
    * that should be gone.
    */
  method SharedLeaf(keccak: Bytes -> H256, v: Bytes, ghost u: iset<Bytes>)
    returns (removed: Result<Option<Bytes>>, first: Result<Option<Bytes>>, second: Result<Option<Bytes>>)
    requires CollisionFree(keccak, u) && Known(keccak, u, T.Leaf([1, 0], v)) && Known(keccak, u, Twin(v))
    ensures removed == Ok(Some(v)) && first == Ok(Some(v)) && second == Ok(None)
  {
    hide Known, Hash, Nibs, T.Insert, T.Lookup, T.Overruns, T.Clear, T.StopOf, T.Placed, Seen, Passes, GetVia, Reads;
    hide OwnPath, Writes, InPlace, Gains, NewBindings, PathOf, RemoveVia, RemovedVia, KnownSteps, Twin, Trie.Valid, Removes;
    hide LosesOnly, CollisionFree, CachedLeaves;
    TwoNibs(0x10);
    TwoNibs(0x20);
    TwinIs(v);
    var trie := TwinTrie(keccak, v, u);
    TwinSteps(keccak, u, trie.state.Value(), v);
    var broken;
    removed, broken := trie.Remove([0x10], u);
    TwinEnd(trie, v, [1, 0]);
    first := trie.Get([0x10]);
    TwinEnd(trie, v, [2, 0]);
    second := trie.Get([0x20]);
  }

  method TwinTrie(keccak: Bytes -> H256, v: Bytes, ghost u: iset<Bytes>) returns (trie: Trie)
    requires CollisionFree(keccak, u) && Known(keccak, u, T.Leaf([1, 0], v)) && Known(keccak, u, Twin(v))
    ensures fresh(trie) && fresh(trie.state) && trie.Valid() && !trie.lost && trie.state.keccak == keccak && trie.known == u
    ensures trie.tree == Twin(v) && forall x | x in trie.keys :: x.0 == [0x10] || x.0 == [0x20]
    ensures KeyOf(trie.state.Value(), Hash(keccak, T.Leaf([0], v))) == [1, 0]
  {
    hide Known, Hash, Nibs, T.Insert, T.Overruns, T.Clear, T.StopOf, T.Placed, Seen, Passes, GetVia;
    hide OwnPath, Writes, InPlace, Gains, PathOf, Twin, Trie.Valid, CollisionFree, CachedLeaves;
    TwoNibs(0x10);
    TwoNibs(0x20);
    TwinIs(v);
    TwinWrites(keccak, v);
    ShortPaths();
    trie := OneKey(keccak, [0x10], v, u);
    OneLeaf(keccak, trie.state.Value(), [1, 0], v, [0x10], [2, 0]);
    var ok := trie.Insert([0x20], v, u);
    CachedPath(trie.state.Value(), Hash(keccak, T.Leaf([0], v)));
  }

  lemma ShortPaths()
    ensures 4 < MAX_LEN
  {
  }

  lemma TwinEnd(trie: Trie, v: Bytes, k: T.Key)
    requires trie.Valid() && !trie.lost && trie.tree == T.Leaf([1, 0], v)
    requires forall x | x in trie.keys :: x.0 == [0x10] || x.0 == [0x20]
    ensures GetVia(trie.state.keccak, trie.state.Value(), trie.tree, 0, k) == Ok(if [1, 0] == k then Some(v) else None)
  {
    hide Known, Hash, Sound, PathOf, Nibs, GetVia, Trie.Valid;
    OneOfKeys(trie, k);
    TwoNibs(0x10);
    TwoNibs(0x20);
    var path := StopPath(trie.state.keccak, trie.state.Value(), T.StopOf(trie.tree, k).value);
    NibsLength(path);
    assert Nibs(path)[0..] == Nibs(path);
    OneLeaf(trie.state.keccak, trie.state.Value(), [1, 0], v, path, k);
  }

  // ---------------------------------------------------------------------------------------------
  // A branch that keeps a value
  // ---------------------------------------------------------------------------------------------

  /** The branch for 0x12 and 0x1234. */
  function Knot(v: Bytes, a: Bytes): T.Tree {
    T.Branch(T.NoChildren(16)[3 := T.Leaf([4], a)], v)
  }

  /** The branch for 0x12, 0x1234 and 0x1256. */
  function Knots(v: Bytes, a: Bytes, b: Bytes): T.Tree {
    T.Branch(T.NoChildren(16)[3 := T.Leaf([4], a)][5 := T.Leaf([6], b)], v)
  }

  lemma KnotIs(v: Bytes, a: Bytes)
    requires v != []
    ensures T.Clear(T.Leaf([1, 2], v), [1, 2, 3, 4], a)
    ensures T.Insert(T.Leaf([1, 2], v), [1, 2, 3, 4], a) == T.Ext([1, 2], Knot(v, a))
  {
    var s: T.Key, k: T.Key := [1, 2], [1, 2, 3, 4];
    LcpUnique(s, k, 2);
    assert s[2..] == [] && k[2..] == [3, 4] && k[..2] == [1, 2] && k[2..][1..] == [4];
    assert !(k <= s);
    assert T.Put(T.BARE, s[2..], v) == T.Branch(T.NoChildren(16), v);
  }

  lemma KnotsIs(v: Bytes, a: Bytes, b: Bytes)
    requires v != []
    ensures var t := T.Ext([1, 2], Knot(v, a));
            && T.Clear(t, [1, 2, 5, 6], b) && !T.Overruns(t, 0, [1, 2, 5, 6]) && T.StopOf(t, [1, 2, 5, 6]).None?
            && T.Insert(t, [1, 2, 5, 6], b) == T.Ext([1, 2], Knots(v, a, b))
  {
    var p: T.Key, k: T.Key := [1, 2], [1, 2, 5, 6];
    assert p <= k && k[2..] == [5, 6] && k[2..][1..] == [6];
    var c := Knot(v, a);
    assert c.children[5] == T.Nil;
    assert T.Insert(c, [5, 6], b) == Knots(v, a, b);
    assert T.Clear(c, [5, 6], b) && !T.Overruns(c, 2, [5, 6]) && T.StopOf(c, [5, 6]).None?;
  }

  /** Looking for the absent key 0x1277 leaves a leaf. */
  lemma KnotsRemoved(keccak: Bytes -> H256, u: iset<Bytes>, m: Store, v: Bytes, a: Bytes, b: Bytes)
    requires v != [] && KeyOf(m, Hash(keccak, Knots(v, a, b))) == [1, 2]
    requires Known(keccak, u, T.Leaf([], v)) && Known(keccak, u, T.Leaf([1, 2], v))
    ensures var t := T.Ext([1, 2], Knots(v, a, b));
            && T.WF(t) && !T.Overruns(t, 0, [1, 2, 7, 7])
            && RemoveVia(keccak, m, t, 0, [1, 2, 7, 7]) == Left(T.Leaf([1, 2], v), [1, 2])
            && RemovedVia(keccak, m, t, 0, [1, 2, 7, 7]) == None
            && KnownSteps(keccak, u, m, t, 0, [1, 2, 7, 7])
  {
    hide Hash, KeyOf, Restructured, OnlyKey;
    var p: T.Key, k: T.Key, own: T.Key := [1, 2], [1, 2, 7, 7], [1, 2];
    assert p <= k && k[2..] == [7, 7] && k[2..][1..] == [7];
    var c := Knots(v, a, b);
    var ch := c.children;
    assert ch[3] == T.Leaf([4], a) && ch[5] == T.Leaf([6], b) && ch[7] == T.Nil;
    assert T.TwoChildren(ch);
    assert T.SomeChild(ch) && T.WF(c);
    assert ch[7 := T.Nil] == ch;
    RestructuredElse(ch, v, own, OnlyKey(keccak, m, ch, 7, []), 2);
    assert own[2..] == [] && own[0..] == own;
    assert RemoveVia(keccak, m, ch[7], 3, [7]) == Left(T.Nil, []);
    assert RemoveVia(keccak, m, c, 2, [7, 7]) == Left(T.Leaf([], v), own);
    assert RemovedVia(keccak, m, c, 2, [7, 7]) == None;
    assert Known(keccak, u, T.Nil);
    assert KnownSteps(keccak, u, m, ch[7], 3, [7]);
    assert KnownSteps(keccak, u, m, c, 2, [7, 7]);
    assert !T.Overruns(c, 2, [7, 7]);
  }

  /** The paths of the run: only 0x12 with the value of 0x12, and no path ends like another. */
  predicate KnotKeys(x: Binding, v: Bytes) {
    (x.0 == [0x12] || x.0 == [0x12, 0x34] || x.0 == [0x12, 0x56]) && (x.1 == v ==> x.0 == [0x12])
  }

  /**
    * 0x12 is bound, and so are 0x1234 and 0x1256 below it. Removing 0x1277, which is not bound, unbinds 0x1234: the branch
    * that keeps the value of 0x12 is taken for one without children.
    */
  method KeptValue(keccak: Bytes -> H256, v: Bytes, a: Bytes, b: Bytes, ghost u: iset<Bytes>)
    returns (before: Result<Option<Bytes>>, removed: Result<Option<Bytes>>, after: Result<Option<Bytes>>)
    requires v != [] && v != a && v != b && CollisionFree(keccak, u)
    requires Known(keccak, u, T.Leaf([], v)) && Known(keccak, u, T.Leaf([1, 2], v))
    requires Known(keccak, u, T.Ext([1, 2], Knot(v, a))) && Known(keccak, u, T.Ext([1, 2], Knots(v, a, b)))
    ensures before == Ok(Some(a)) && removed == Ok(None) && after == Ok(None)
  {
    hide Known, Hash, Nibs, T.Lookup, T.Overruns, T.WF, RemoveVia, RemovedVia, KnownSteps, PathOf, Knots, Trie.Valid;
    hide Removes, LosesOnly, CollisionFree, GetVia, Reads, KnotKeys;
    FourNibs(0x12, 0x34);
    FourNibs(0x12, 0x77);
    var trie := KnotsTrie(keccak, v, a, b, u);
    KnotsRead(trie, v, a, b);
    before := trie.Get([0x12, 0x34]);
    KnotsOwn(trie, v, a, b);
    KnotsRemoved(keccak, u, trie.state.Value(), v, a, b);
    var broken;
    removed, broken := trie.Remove([0x12, 0x77], u);
    KnotsEnd(trie, v);
    after := trie.Get([0x12, 0x34]);
  }

  method KnotsTrie(keccak: Bytes -> H256, v: Bytes, a: Bytes, b: Bytes, ghost u: iset<Bytes>) returns (trie: Trie)
    requires v != [] && v != a && v != b && CollisionFree(keccak, u) && Known(keccak, u, T.Leaf([1, 2], v))
    requires Known(keccak, u, T.Ext([1, 2], Knot(v, a))) && Known(keccak, u, T.Ext([1, 2], Knots(v, a, b)))
    ensures fresh(trie) && fresh(trie.state) && trie.Valid() && !trie.lost && trie.state.keccak == keccak && trie.known == u
    ensures trie.tree == T.Ext([1, 2], Knots(v, a, b)) && forall x | x in trie.keys :: KnotKeys(x, v)
  {
    hide Known, Hash, Nibs, T.Insert, T.Overruns, T.Clear, T.StopOf, T.Placed, Seen, Passes, GetVia;
    hide OwnPath, Writes, InPlace, Gains, PathOf, Knot, Knots, Trie.Valid, CollisionFree, CachedLeaves;
    TwoNibs(0x12);
    FourNibs(0x12, 0x34);
    FourNibs(0x12, 0x56);
    KnotIs(v, a);
    KnotsIs(v, a, b);
    ShortPaths();
    trie := OneKey(keccak, [0x12], v, u);
    OneLeaf(keccak, trie.state.Value(), [1, 2], v, [0x12], [1, 2, 3, 4]);
    var ok := trie.Insert([0x12, 0x34], a, u);
    NoLeafAhead(keccak, trie.state.Value(), trie.tree, [1, 2, 5, 6]);
    ok := trie.Insert([0x12, 0x56], b, u);
  }

  /** A walk that does not end at a leaf sees the trie as it is. */
  lemma NoLeafAhead(keccak: Bytes -> H256, m: Store, t: T.Tree, k: T.Key)
    requires T.StopOf(t, k).None? && !T.Overruns(t, 0, k)
    ensures Passes(keccak, m, t, 0, k) && Seen(keccak, m, t, 0, k) == t
  {
  }

  lemma KnotsRead(trie: Trie, v: Bytes, a: Bytes, b: Bytes)
    requires trie.Valid() && !trie.lost && trie.tree == T.Ext([1, 2], Knots(v, a, b))
    requires forall x | x in trie.keys :: KnotKeys(x, v)
    ensures GetVia(trie.state.keccak, trie.state.Value(), trie.tree, 0, [1, 2, 3, 4]) == Ok(Some(a))
  {
    hide Known, Hash, Sound, PathOf, Nibs, Trie.Valid, GetVia, Stored;
    KnotsWalk(v, a, b);
    OneOfKeys(trie, [1, 2, 3, 4]);
    TwoNibs(0x12);
    FourNibs(0x12, 0x34);
    FourNibs(0x12, 0x56);
    BoundReads(trie.state.keccak, trie.keys, trie.state.Value(), trie.tree, 0, [1, 2, 3, 4]);
  }

  lemma KnotsWalk(v: Bytes, a: Bytes, b: Bytes)
    ensures var t := T.Ext([1, 2], Knots(v, a, b));
            T.Lookup(t, [1, 2, 3, 4]) == Some(a) && T.StopOf(t, [1, 2, 3, 4]) == Some(T.Stop(3, [4], a))
  {
    var p: T.Key, k: T.Key := [1, 2], [1, 2, 3, 4];
    assert p <= k && k[2..] == [3, 4] && k[2..][1..] == [4];
    var c := Knots(v, a, b);
    assert c.children[3] == T.Leaf([4], a);
    assert T.Lookup(c, [3, 4]) == Some(a) && T.StopOf(c, [3, 4]) == Some(T.Stop(1, [4], a));
  }

  /** The branch is stored with the path 0x12. */
  lemma KnotsOwn(trie: Trie, v: Bytes, a: Bytes, b: Bytes)
    requires trie.Valid() && !trie.lost && v != [] && trie.tree == T.Ext([1, 2], Knots(v, a, b))
    requires forall x | x in trie.keys :: KnotKeys(x, v)
    ensures KeyOf(trie.state.Value(), Hash(trie.state.keccak, Knots(v, a, b))) == [1, 2]
  {
    hide Known, Hash, Sound, Stored, Below, Found, PathOf, Resolve, Nibs, Matches;
    TwoNibs(0x12);
    SoundStored(trie.state.keccak, trie.known, trie.keys, trie.state.Value(), trie.tree, 0);
    StoredBehind(trie.state.keccak, trie.keys, trie.state.Value(), [1, 2], Knots(v, a, b));
    StoredMeans(trie.state.keccak, trie.keys, trie.state.Value(), Knots(v, a, b), 2);
    OwnBinding(trie.state.keccak, trie.keys, Resolve(trie.state.Value(), Hash(trie.state.keccak, Knots(v, a, b))).value.value,
               v, a, b);
  }

  lemma StoredBehind(keccak: Bytes -> H256, keys: iset<Binding>, m: Store, p: T.Key, c: T.Tree)
    requires Stored(keccak, keys, m, T.Ext(p, c), 0)
    ensures Stored(keccak, keys, m, c, |p|)
  {
  }

  lemma OwnBinding(keccak: Bytes -> H256, keys: iset<Binding>, node: Node, v: Bytes, a: Bytes, b: Bytes)
    requires Matches(keccak, keys, node, Knots(v, a, b), 2) && v != []
    ensures node.BranchNode? && (node.path, v) in keys && Knots(v, a, b).Branch?
  {
    hide Hash;
  }

  lemma KnotsEnd(trie: Trie, v: Bytes)
    requires trie.Valid() && !trie.lost && trie.tree == T.Leaf([1, 2], v) && forall x | x in trie.keys :: KnotKeys(x, v)
    ensures GetVia(trie.state.keccak, trie.state.Value(), trie.tree, 0, [1, 2, 3, 4]) == Ok(None)
  {
    hide Known, Hash, Sound, PathOf, Nibs, GetVia, Trie.Valid;
    OneOfKeys(trie, [1, 2, 3, 4]);
    TwoNibs(0x12);
    OneLeaf(trie.state.keccak, trie.state.Value(), [1, 2], v, [0x12], [1, 2, 3, 4]);
  }

  // ---------------------------------------------------------------------------------------------
  // A root that is not found again
  // ---------------------------------------------------------------------------------------------

  lemma ShortLeaf(keccak: Bytes -> H256)
    ensures |EncodeList(Payload(keccak, T.Leaf([1, 0], [7])))| < 32
  {
    PathItemSize([1, 0], true);
    EncodedSize([7]);
  }

  /**
    * The trie that binds 0x10 to one byte is committed and opened again by its root hash. Its root is shorter than 32
    * bytes: reading panics, and the next insertion forgets the key.
    */
  method ShortRoot(keccak: Bytes -> H256, ghost u: iset<Bytes>)
    returns (before: Result<Option<Bytes>>, reopened: Result<Option<Bytes>>, after: Result<Option<Bytes>>)
    requires CollisionFree(keccak, u) && [RLP_NULL] in u
    requires Known(keccak, u, T.Leaf([1, 0], [7])) && Known(keccak, u, T.Leaf([2, 0], [7]))
    ensures before == Ok(Some([7])) && reopened == Panic && after == Ok(None)
  {
    hide Known, Hash, Nibs, T.Insert, T.Lookup, T.Overruns, T.Clear, T.StopOf, Seen, Passes, GetVia, Reads, OwnPath, Writes;
    hide InPlace, Gains, PathOf, T.Placed, Sound, Payload, EncodeList, Resolvable, CachedLeaves;
    TwoNibs(0x10);
    TwoNibs(0x20);
    ShortPaths();
    var trie := OneKey(keccak, [0x10], [7], u);
    OneLeaf(keccak, trie.state.Value(), [1, 0], [7], [0x10], [1, 0]);
    before := trie.Get([0x10]);
    var digest := trie.RootHash();
    ShortLeaf(keccak);
    ShortIsFree(keccak, u, trie.keys, trie.state.Value(), trie.tree);
    var again := new Trie.Open(keccak, trie.state.db, digest, trie.keys, trie.tree, u);
    NotInDb(trie.state.Value(), digest);
    reopened := again.Get([0x10]);
    after := Forgets(again, u);
  }

  method Forgets(again: Trie, ghost u: iset<Bytes>) returns (after: Result<Option<Bytes>>)
    requires again.Valid() && again.lost && again.known == u && Known(again.state.keccak, u, T.Leaf([2, 0], [7]))
    modifies again, again.state
    ensures after == Ok(None)
  {
    hide Known, Hash, Nibs, T.Insert, T.Lookup, T.Overruns, T.Clear, T.StopOf, Seen, Passes, GetVia, Reads, OwnPath, Writes;
    hide InPlace, Gains, PathOf, T.Placed, Sound, CachedLeaves;
    TwoNibs(0x10);
    TwoNibs(0x20);
    ShortPaths();
    ghost var keccak := again.state.keccak;
    FirstInsert(keccak, again.state.Value(), [0x20], [7], OwnPath(keccak, again.state.Value(), T.Nil, [2, 0]));
    var ok := again.Insert([0x20], [7], u);
    CachedPath(again.state.Value(), Hash(keccak, T.Leaf([2, 0], [7])));
    OneLeaf(keccak, again.state.Value(), [2, 0], [7], [0x20], [1, 0]);
    after := again.Get([0x10]);
  }

  lemma NotInDb(m: Store, digest: H256)
    requires !Resolvable(m, Hashed(digest))
    ensures digest !in m.db
  {
  }

  // ---------------------------------------------------------------------------------------------
  // One value under keys of different lengths
  // ---------------------------------------------------------------------------------------------

  /** The branch for 0x8190 and 0x8180, behind 0x81. */
  function Pair(v: Bytes, a: Bytes): T.Tree {
    T.Branch(T.NoChildren(16)[9 := T.Leaf([0], v)][8 := T.Leaf([0], a)], [])
  }

  /** The trie for 0x8190, 0x8180 and 0x10. */
  function Three(v: Bytes, a: Bytes): T.Tree {
    T.Branch(T.NoChildren(16)[8 := T.Ext([1], Pair(v, a))][1 := T.Leaf([0], v)], [])
  }

  lemma PairIs(v: Bytes, a: Bytes)
    ensures var t := T.Leaf([8, 1, 9, 0], v);
            && T.Clear(t, [8, 1, 8, 0], a) && T.Insert(t, [8, 1, 8, 0], a) == T.Ext([8, 1], Pair(v, a))
  {
    var s: T.Key, k: T.Key := [8, 1, 9, 0], [8, 1, 8, 0];
    LcpUnique(s, k, 2);
    assert s[2..] == [9, 0] && k[2..] == [8, 0] && k[..2] == [8, 1] && s[2] != k[2];
    assert s[2..][1..] == [0] && k[2..][1..] == [0];
  }

  lemma ThreeIs(keccak: Bytes -> H256, v: Bytes, a: Bytes, own: Bytes)
    ensures var t := T.Ext([8, 1], Pair(v, a));
            && T.Clear(t, [1, 0], v) && !T.Overruns(t, 0, [1, 0]) && T.StopOf(t, [1, 0]).None?
            && T.Insert(t, [1, 0], v) == Three(v, a)
            && Writes(keccak, t, [1, 0], v, [0x10], own) == map[Hash(keccak, T.Leaf([0], v)) := LeafNode([0x10], v)]
  {
    hide Hash;
    var p: T.Key, k: T.Key := [8, 1], [1, 0];
    assert p[0] != k[0] && !(p <= k) && !(k <= p);
    assert Lcp(p, k) == 0 && Lcp(k, p) == 0;
    assert p[..0] == [] && k[0..] == k && p[0 + 1..] == [1] && k[0..][1..] == [0];
    assert T.Width(0, 2) == 1;
  }

  /** Walks below 0x819 end at the leaf that 0x10 shares. */
  lemma ThreeWalk(v: Bytes, a: Bytes, x: nibble)
    ensures T.StopOf(Three(v, a), [8, 1, 9, x]) == Some(T.Stop(3, [0], v))
  {
    var k: T.Key := [8, 1, 9, x];
    assert k[1..] == [1, 9, x] && k[1..][1..] == [9, x] && k[1..][1..][1..] == [x];
    assert [1] <= k[1..];
    assert Pair(v, a).children[9] == T.Leaf([0], v);
    assert T.StopOf(Pair(v, a), [9, x]) == Some(T.Stop(1, [0], v));
    assert Three(v, a).children[8] == T.Ext([1], Pair(v, a));
    assert T.StopOf(T.Ext([1], Pair(v, a)), [1, 9, x]) == Some(T.Stop(2, [0], v));
  }

  /** That leaf is stored with the path 0x10, which ends above the place. */
  lemma ThreePanics(keccak: Bytes -> H256, m: Store, v: Bytes, a: Bytes, x: nibble)
    requires PathOf(m, Hash(keccak, T.Leaf([0], v))) == [0x10]
    ensures !Passes(keccak, m, Three(v, a), 0, [8, 1, 9, x]) && !InPlace(keccak, m, Three(v, a), 0, [8, 1, 9, x])
    ensures GetVia(keccak, m, Three(v, a), 0, [8, 1, 9, x]) == Panic
  {
    hide Hash, PathOf, Nibs, Three;
    ThreeWalk(v, a, x);
  }

  /**
    * The leaf of 0x8190 below 0x819 and that of 0x10 below 0x1 have one suffix. With one value they are stored once, with the
    * path of the last one: reading 0x8190 and binding 0x8191 go out of bounds.
    */
  method SharedAcrossLengths(keccak: Bytes -> H256, v: Bytes, a: Bytes, b: Bytes, ghost u: iset<Bytes>)
    returns (before: Result<Option<Bytes>>, after: Result<Option<Bytes>>, ok: bool)
    requires CollisionFree(keccak, u) && Known(keccak, u, T.Leaf([8, 1, 9, 0], v))
    requires Known(keccak, u, T.Ext([8, 1], Pair(v, a))) && Known(keccak, u, Three(v, a))
    ensures before == Ok(Some(v)) && after == Panic && !ok
  {
    hide Known, Hash, Nibs, T.Insert, T.Lookup, T.Overruns, T.Clear, T.StopOf, Seen, Passes, GetVia, Reads, OwnPath, Writes;
    hide InPlace, Gains, PathOf, T.Placed, Sound, Pair, Three, NewBindings, Trie.Valid, CollisionFree, CachedLeaves;
    FourNibs(0x81, 0x90);
    FourNibs(0x81, 0x80);
    FourNibs(0x81, 0x91);
    TwoNibs(0x10);
    ShortPaths();
    var trie := OneKey(keccak, [0x81, 0x90], v, u);
    OneLeaf(keccak, trie.state.Value(), [8, 1, 9, 0], v, [0x81, 0x90], [8, 1, 9, 0]);
    before := trie.Get([0x81, 0x90]);
    OneLeaf(keccak, trie.state.Value(), [8, 1, 9, 0], v, [0x81, 0x90], [8, 1, 8, 0]);
    PairIs(v, a);
    ok := trie.Insert([0x81, 0x80], a, u);
    ThreeIs(keccak, v, a, OwnPath(keccak, trie.state.Value(), trie.tree, [1, 0]));
    NoLeafAhead(keccak, trie.state.Value(), trie.tree, [1, 0]);
    ok := trie.Insert([0x10], v, u);
    CachedPath(trie.state.Value(), Hash(keccak, T.Leaf([0], v)));
    ThreePanics(keccak, trie.state.Value(), v, a, 0);
    after := trie.Get([0x81, 0x90]);
    ThreePanics(keccak, trie.state.Value(), v, a, 1);
    ok := trie.Insert([0x81, 0x91], b, u);
  }

  /** The bindings of 0x8190, 0x8180, 0x10 and 0x8191, in this order, with the first and the third value equal. */
  predicate Unlucky(pairs: Pairs) {
    && |pairs| >= 4 && pairs[0].0 == [0x81, 0x90] && pairs[1].0 == [0x81, 0x80] && pairs[2].0 == [0x10]
    && pairs[3].0 == [0x81, 0x91] && pairs[0].1 == pairs[2].1
  }

  /** What is built from the first three of them. */
  lemma UnluckyBuilt(keccak: Bytes -> H256, pairs: Pairs)
    requires Unlucky(pairs)
    ensures var v, a, b := pairs[0].1, pairs[1].1, BuildVia(keccak, pairs[..3]);
            && b.Some? && b.value.tree == Three(v, a)
            && PathOf(Cache(b.value), Hash(keccak, T.Leaf([0], v))) == [0x10]
  {
    hide Nibs, Hash, PathOf, BuildVia, T.Insert, T.Overruns, T.Clear, T.StopOf, Seen, Passes, OwnPath, Writes, Pair, Three;
    FourNibs(0x81, 0x90);
    FourNibs(0x81, 0x80);
    TwoNibs(0x10);
    var v, a := pairs[0].1, pairs[1].1;
    NothingBuiltVia(keccak, pairs);
    NextBuilt(keccak, pairs, 0);
    var b0 := BuildVia(keccak, pairs[..0]).value;
    FirstInsert(keccak, Cache(b0), [0x81, 0x90], v, OwnPath(keccak, Cache(b0), T.Nil, [8, 1, 9, 0]));
    var b1 := BuildVia(keccak, pairs[..1]).value;
    PathAdded(b0.leaves, Hash(keccak, T.Leaf([8, 1, 9, 0], v)), [0x81, 0x90], v);
    OneLeaf(keccak, Cache(b1), [8, 1, 9, 0], v, [0x81, 0x90], [8, 1, 8, 0]);
    PairIs(v, a);
    NextBuilt(keccak, pairs, 1);
    var b2 := BuildVia(keccak, pairs[..2]).value;
    ThreeIs(keccak, v, a, OwnPath(keccak, Cache(b2), b2.tree, [1, 0]));
    NoLeafAhead(keccak, Cache(b2), b2.tree, [1, 0]);
    NextBuilt(keccak, pairs, 2);
    PathAdded(b2.leaves, Hash(keccak, T.Leaf([0], v)), [0x10], v);
  }

  lemma NothingBuiltVia(keccak: Bytes -> H256, pairs: Pairs)
    ensures BuildVia(keccak, pairs[..0]) == Some(Built(T.Nil, map[]))
  {
  }

  lemma PathAdded(leaves: map<NodeHash, Node>, h: NodeHash, path: Bytes, v: Bytes)
    ensures PathOf(Store(leaves + map[h := LeafNode(path, v)], map[]), h) == path
  {
  }

  /**
    * A list with the same element at 16 and 144 cannot be built in an order that begins with the indices 144, 128, 16 and
    * 145: the fourth insertion panics.
    */
  lemma OrderThatPanics(keccak: Bytes -> H256, vs: seq<Bytes>, order: Pairs)
    requires 146 <= |vs| && vs[16] == vs[144] && |order| >= 4
    requires order[..4] == [Indexed(vs)[144], Indexed(vs)[128], Indexed(vs)[16], Indexed(vs)[145]]
    ensures Stumbles(keccak, order, 3) && BuildVia(keccak, order).None?
  {
    hide EncodeUint, Stumbles, BuildVia;
    FourIndices();
    assert order[0] == order[..4][0] && order[1] == order[..4][1] && order[2] == order[..4][2] && order[3] == order[..4][3];
    UnluckyPanics(keccak, order);
  }

  lemma UnluckyPanics(keccak: Bytes -> H256, pairs: Pairs)
    requires Unlucky(pairs)
    ensures Stumbles(keccak, pairs, 3) && BuildVia(keccak, pairs).None?
  {
    hide Nibs, Hash, PathOf, BuildVia, T.Overruns, Passes, Three, InPlace, Seen, Writes, OwnPath;
    UnluckyBuilt(keccak, pairs);
    FourNibs(0x81, 0x91);
    ThreePanics(keccak, Cache(BuildVia(keccak, pairs[..3]).value), pairs[0].1, pairs[1].1, 1);
    NextBuilt(keccak, pairs, 3);
    StaysStuck(keccak, pairs, 4, |pairs|);
    assert pairs[..|pairs|] == pairs;
  }

  lemma FourIndices()
    ensures EncodeUint(144) == [0x81, 0x90] && EncodeUint(128) == [0x81, 0x80]
    ensures EncodeUint(16) == [0x10] && EncodeUint(145) == [0x81, 0x91]
  {
    OneByteUint(144);
    OneByteUint(128);
    OneByteUint(16);
    OneByteUint(145);
  }

  lemma OneByteUint(n: nat)
    requires 0 < n < 256
    ensures EncodeUint(n) == if n < 128 then [n] else [0x81, n]
  {
    assert n / 256 == 0 && n % 256 == n;
    assert MinimalBE(0) == [] && MinimalBE(n) == [n];
  }

  // ---------------------------------------------------------------------------------------------
  // A key that ends inside an extension
  // ---------------------------------------------------------------------------------------------

  lemma SixNibs(a: byte, b: byte, c: byte)
    ensures Nibs([a, b, c]) == [a / 16, a % 16, b / 16, b % 16, c / 16, c % 16]
  {
    assert [a, b, c] == [a, b] + [c];
    NibsConcat([a, b], [c]);
    FourNibs(a, b);
    TwoNibs(c);
  }

  /** 0x112000, 0x112001, 0x12 and 0x1120, in this order. */
  function LongFirst(vs: seq<Bytes>): Pairs
    requires |vs| == 4
  {
    [([0x11, 0x20, 0x00], vs[0]), ([0x11, 0x20, 0x01], vs[1]), ([0x12], vs[2]), ([0x11, 0x20], vs[3])]
  }

  /** The same bindings with 0x1120 first. */
  function ShortFirst(vs: seq<Bytes>): Pairs
    requires |vs| == 4
  {
    [([0x11, 0x20], vs[3]), ([0x11, 0x20, 0x00], vs[0]), ([0x11, 0x20, 0x01], vs[1]), ([0x12], vs[2])]
  }

  /** The trie of 0x112000 and 0x112001, and what 0x12 makes of it. */
  lemma LongStem(v: Bytes, w: Bytes, x: Bytes)
    ensures var c := T.Put(T.Put(T.BARE, [0], v), [1], w);
            && T.Insert(T.Leaf([1, 1, 2, 0, 0, 0], v), [1, 1, 2, 0, 0, 1], w) == T.Ext([1, 1, 2, 0, 0], c)
            && T.Insert(T.Ext([1, 1, 2, 0, 0], c), [1, 2], x) ==
               T.Ext([1], T.Put(T.Stem(1, T.Ext([2, 0, 0], c)), [2], x))
            && !T.Overruns(T.Ext([1, 1, 2, 0, 0], c), 0, [1, 2])
  {
    hide T.Put, T.Stem;
    var s: T.Key, k: T.Key := [1, 1, 2, 0, 0, 0], [1, 1, 2, 0, 0, 1];
    LcpUnique(s, k, 5);
    assert s[5..] == [0] && k[5..] == [1] && k[..5] == [1, 1, 2, 0, 0];
    assert s[5] != k[5];
    var p: T.Key, q: T.Key := [1, 1, 2, 0, 0], [1, 2];
    LcpUnique(p, q, 1);
    assert p[..1] == [1] && q[1..] == [2] && p[1 + 1..] == [2, 0, 0];
    assert p[1] != q[1];
  }

  lemma LongOverruns(c: T.Tree, v: Bytes)
    ensures T.Overruns(T.Ext([1], T.Put(T.Stem(1, T.Ext([2, 0, 0], c)), [2], v)), 0, [1, 1, 2, 0])
  {
    var b := T.Put(T.Stem(1, T.Ext([2, 0, 0], c)), [2], v);
    assert b.children[1] == T.Ext([2, 0, 0], c);
    var k: T.Key := [1, 1, 2, 0];
    assert [1] <= k && k[1..] == [1, 2, 0] && k[1..][1..] == [2, 0];
    assert T.Overruns(T.Ext([2, 0, 0], c), 2, [2, 0]);
    assert T.Overruns(b, 1, [1, 2, 0]);
  }

  lemma NoWalk(k: T.Key, s: T.Key, v: Bytes)
    ensures !T.Overruns(T.Nil, 0, k) && !T.Overruns(T.Leaf(s, v), 0, k)
  {
  }

  /** With 0x1120 last, it overruns, and nothing before it does. */
  lemma LongWalks(vs: seq<Bytes>)
    requires |vs| == 4
    ensures var pairs := LongFirst(vs);
            && (forall i | 0 <= i < 3 :: !T.Overruns(Build(pairs[..i]), 0, Nibs(pairs[i].0)))
            && T.Overruns(Build(pairs[..3]), 0, Nibs(pairs[3].0))
  {
    hide Nibs, T.Put, T.Stem, T.Insert, T.Overruns, Build;
    SixNibs(0x11, 0x20, 0x00);
    SixNibs(0x11, 0x20, 0x01);
    FourNibs(0x11, 0x20);
    TwoNibs(0x12);
    LongStem(vs[0], vs[1], vs[2]);
    var pairs := LongFirst(vs);
    BuildSteps(pairs);
    InsertNil([1, 1, 2, 0, 0, 0], vs[0]);
    NoWalk([1, 1, 2, 0, 0, 0], [], []);
    NoWalk([1, 1, 2, 0, 0, 1], [1, 1, 2, 0, 0, 0], vs[0]);
    LongOverruns(T.Put(T.Put(T.BARE, [0], vs[0]), [1], vs[1]), vs[2]);
    assert !T.Overruns(Build(pairs[..0]), 0, Nibs(pairs[0].0));
    assert !T.Overruns(Build(pairs[..1]), 0, Nibs(pairs[1].0));
    assert !T.Overruns(Build(pairs[..2]), 0, Nibs(pairs[2].0));
  }

  lemma BuildSteps(pairs: Pairs)
    requires |pairs| == 4
    ensures Build(pairs[..0]) == T.Nil
    ensures Build(pairs[..1]) == T.Insert(T.Nil, Nibs(pairs[0].0), pairs[0].1)
    ensures Build(pairs[..2]) == T.Insert(Build(pairs[..1]), Nibs(pairs[1].0), pairs[1].1)
    ensures Build(pairs[..3]) == T.Insert(Build(pairs[..2]), Nibs(pairs[2].0), pairs[2].1)
  {
    hide Nibs, T.Insert;
    assert pairs[..1][..0] == pairs[..0] && pairs[..2][..1] == pairs[..1] && pairs[..3][..2] == pairs[..2];
  }

  /** The trie of 0x1120, 0x112000 and 0x112001. */
  lemma ShortStem(v: Bytes, w: Bytes, x: Bytes)
    ensures var b := T.Put(T.Put(T.BARE, [], x), [0, 0], v);
            var t := T.Ext([1, 1, 2, 0], b);
            && T.Insert(T.Leaf([1, 1, 2, 0], x), [1, 1, 2, 0, 0, 0], v) == t
            && !T.Overruns(t, 0, [1, 1, 2, 0, 0, 1])
            && T.Insert(t, [1, 1, 2, 0, 0, 1], w) == T.Ext([1, 1, 2, 0], T.Insert(b, [0, 1], w))
            && !T.Overruns(T.Ext([1, 1, 2, 0], T.Insert(b, [0, 1], w)), 0, [1, 2])
  {
    var s: T.Key, k: T.Key, q: T.Key := [1, 1, 2, 0], [1, 1, 2, 0, 0, 0], [1, 1, 2, 0, 0, 1];
    LcpUnique(s, k, 4);
    assert s[4..] == [] && k[4..] == [0, 0] && k[..4] == [1, 1, 2, 0];
    assert s <= q && q[4..] == [0, 1] && q[4..][1..] == [1];
    var b := T.Put(T.Put(T.BARE, [], x), [0, 0], v);
    assert b.children[0] == T.Leaf([0], v);
    assert !T.Overruns(b, 4, [0, 1]);
    var z: T.Key := [1, 2];
    assert s[1] != z[1] && !(s <= z);
  }

  /** With 0x1120 first, nothing overruns. */
  lemma ShortWalks(vs: seq<Bytes>)
    requires |vs| == 4
    ensures var pairs := ShortFirst(vs);
            forall i | 0 <= i < 4 :: !T.Overruns(Build(pairs[..i]), 0, Nibs(pairs[i].0))
  {
    hide Nibs, T.Put, T.Insert, T.Overruns, Build;
    SixNibs(0x11, 0x20, 0x00);
    SixNibs(0x11, 0x20, 0x01);
    FourNibs(0x11, 0x20);
    TwoNibs(0x12);
    ShortStem(vs[0], vs[1], vs[3]);
    var pairs := ShortFirst(vs);
    BuildSteps(pairs);
    InsertNil([1, 1, 2, 0], vs[3]);
    NoWalk([1, 1, 2, 0], [], []);
    NoWalk([1, 1, 2, 0, 0, 0], [1, 1, 2, 0], vs[3]);
    assert !T.Overruns(Build(pairs[..0]), 0, Nibs(pairs[0].0));
    assert !T.Overruns(Build(pairs[..1]), 0, Nibs(pairs[1].0));
    assert !T.Overruns(Build(pairs[..2]), 0, Nibs(pairs[2].0));
    assert !T.Overruns(Build(pairs[..3]), 0, Nibs(pairs[3].0));
  }

  /** Four values, of which no two are equal and the last is not empty. */
  predicate Various(vs: seq<Bytes>) {
    |vs| == 4 && vs[3] != [] && forall i, j | 0 <= i < j < 4 :: vs[i] != vs[j]
  }

  /** Of the four keys only 0x1120 is continued by others. */
  lemma FourKeys(vs: seq<Bytes>, pairs: Pairs)
    requires Various(vs) && pairs in [LongFirst(vs), ShortFirst(vs)]
    ensures Tidy(pairs) && OneLength(pairs) && forall x | x in pairs :: |x.0| < MAX_LEN
  {
    hide Nibs;
    SixNibs(0x11, 0x20, 0x00);
    SixNibs(0x11, 0x20, 0x01);
    FourNibs(0x11, 0x20);
    TwoNibs(0x12);
    assert forall x | x in pairs :: x in LongFirst(vs);
    var a: T.Key, b: T.Key := [1, 1, 2, 0, 0, 0], [1, 1, 2, 0, 0, 1];
    assert a[5] != b[5];
    var c: T.Key := [1, 2];
    assert a[1] != c[1] && b[1] != c[1];
    forall x, y | x in LongFirst(vs) && y in LongFirst(vs) && x.0 != y.0 && Nibs(x.0) <= Nibs(y.0)
      ensures x.1 != []
    {
      assert Nibs(x.0)[1] == Nibs(y.0)[1];
    }
  }

  /** One set of bindings, two orders: after 0x112000, 0x112001 and 0x12 the key 0x1120 panics; before them it does not. */
  method KeyThatStumbles(keccak: Bytes -> H256, vs: seq<Bytes>, ghost u: iset<Bytes>)
    returns (last: Option<H256>, first: Option<H256>)
    requires Various(vs) && CollisionFree(keccak, u)
    requires KnownBuilds(keccak, u, LongFirst(vs), 3) && KnownBuilds(keccak, u, ShortFirst(vs), 4)
    ensures last == None && first == Some(Digest(keccak, Build(ShortFirst(vs))))
  {
    hide Nibs, Build, BuildVia, Known, CollisionFree, Orderly, Stumbles, T.Overruns, Digest, Tidy, OneLength;
    var pairs := LongFirst(vs);
    FourKeys(vs, pairs);
    LongWalks(vs);
    OneLengthIsEnough(keccak, u, pairs, 3);
    OrderlyUntil(keccak, u, pairs, 3);
    last := ComputeHashFromUnsorted(keccak, pairs, u);
    pairs := ShortFirst(vs);
    FourKeys(vs, pairs);
    ShortWalks(vs);
    OneLengthIsEnough(keccak, u, pairs, 4);
    OrderlyUntil(keccak, u, pairs, 4);
    first := ComputeHashFromUnsorted(keccak, pairs, u);
  }
}
