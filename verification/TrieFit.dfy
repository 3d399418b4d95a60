/**
  * Which stored leaves are in place. A leaf that is stored again, because an equal one is formed elsewhere, takes the path of
  * the last one; the lemmas follow through an insertion those leaves whose path has the length that their place asks for.
  */
module TrieFit {
  import opened Prelude
  import opened Nibbles
  import opened TrieNode
  import opened TrieHash
  import opened TrieStore
  import opened TrieWalk
  import opened TrieInsert
  import T = TrieTree

  /** Leaves of interest, by the length of their keys in nibbles and their values. */
  type Concern = (nat, Bytes) -> bool

  /** The stored path of every leaf ends with its suffix, and that of a leaf of interest has the length of its key. */
  predicate Fit(keccak: Bytes -> H256, m: Store, t: T.Tree, d: nat, f: Concern) {
    match t
    case Nil => true
    case Leaf(s, w) =>
      var path := PathOf(m, Hash(keccak, t));
      Ends(path, s) && (f(d + |s|, w) ==> 2 * |path| == d + |s|)
    case Ext(p, c) => Fit(keccak, m, c, d + |p|, f)
    case Branch(ch, _) => forall i | 0 <= i < |ch| :: Fit(keccak, m, ch[i], d + 1, f)
  }

  /** A walk that ends at a leaf of interest finds it in place. */
  lemma {:induction false} FitStop(keccak: Bytes -> H256, m: Store, t: T.Tree, d: nat, f: Concern, k: T.Key)
    requires Fit(keccak, m, t, d, f)
    ensures StopEnds(keccak, m, t, k)
    ensures var e := T.StopOf(t, k);
            (e.Some? ==> f(d + e.value.used + |e.value.suffix|, e.value.value)) ==> InPlace(keccak, m, t, d, k)
    decreases t
  {
    hide Hash, PathOf, Ends;
    match t
    case Nil =>
    case Leaf(_, _) =>
    case Ext(p, c) =>
      if p <= k {
        FitStop(keccak, m, c, d + |p|, f, k[|p|..]);
      }
    case Branch(ch, _) =>
      if k != [] && k[0] < |ch| {
        FitStop(keccak, m, ch[k[0]], d + 1, f, k[1..]);
      }
  }

  /** The leaves of interest with this value have keys of this length. */
  predicate Level(t: T.Tree, d: nat, f: Concern, v: Bytes, n: nat) {
    match t
    case Nil => true
    case Leaf(s, w) => w == v && f(d + |s|, w) ==> d + |s| == n
    case Ext(p, c) => Level(c, d + |p|, f, v, n)
    case Branch(ch, _) => forall i | 0 <= i < |ch| :: Level(ch[i], d + 1, f, v, n)
  }

  /** The keys of interest that are bound to this value have this length. */
  ghost predicate BoundLevel(t: T.Tree, d: nat, f: Concern, v: Bytes, n: nat) {
    forall q | T.Lookup(t, q) == Some(v) && f(d + |q|, v) :: d + |q| == n
  }

  lemma {:induction false} LevelIfBound(t: T.Tree, d: nat, f: Concern, v: Bytes, n: nat)
    requires T.WF(t) && BoundLevel(t, d, f, v, n)
    ensures Level(t, d, f, v, n)
    decreases t
  {
    hide BoundLevel;
    match t
    case Nil =>
    case Leaf(s, _) => LevelHere(t, d, f, v, n);
    case Ext(p, c) =>
      LevelBehind(t, d, f, v, n);
      LevelIfBound(c, d + |p|, f, v, n);
    case Branch(ch, _) =>
      forall i | 0 <= i < |ch|
        ensures Level(ch[i], d + 1, f, v, n)
      {
        LevelBelow(t, d, f, v, n, i);
        LevelIfBound(ch[i], d + 1, f, v, n);
      }
  }

  lemma LevelHere(t: T.Tree, d: nat, f: Concern, v: Bytes, n: nat)
    requires t.Leaf? && BoundLevel(t, d, f, v, n)
    ensures Level(t, d, f, v, n)
  {
    assert T.Lookup(t, t.suffix) == Some(t.value);
  }

  lemma LevelBehind(t: T.Tree, d: nat, f: Concern, v: Bytes, n: nat)
    requires t.Ext? && BoundLevel(t, d, f, v, n)
    ensures BoundLevel(t.child, d + |t.prefix|, f, v, n)
  {
    var p, c := t.prefix, t.child;
    forall q | T.Lookup(c, q) == Some(v) && f(d + |p| + |q|, v)
      ensures d + |p| + |q| == n
    {
      var x := p + q;
      assert x[|p|..] == q && p <= x;
      assert T.Lookup(t, x) == T.Lookup(c, q);
      assert d + |x| == d + |p| + |q|;
    }
  }

  lemma LevelBelow(t: T.Tree, d: nat, f: Concern, v: Bytes, n: nat, i: nibble)
    requires t.Branch? && |t.children| == 16 && BoundLevel(t, d, f, v, n)
    ensures BoundLevel(t.children[i], d + 1, f, v, n)
  {
    forall q | T.Lookup(t.children[i], q) == Some(v) && f(d + 1 + |q|, v)
      ensures d + 1 + |q| == n
    {
      var x: T.Key := [i] + q;
      assert x[1..] == q && x[0] == i;
      assert T.Lookup(t, x) == T.Lookup(t.children[i], q);
      assert d + |x| == d + 1 + |q|;
    }
  }

  // ---------------------------------------------------------------------------------------------
  // Leaves that stay
  // ---------------------------------------------------------------------------------------------

  /** The paths of an insertion are in place: that of the new key, and that of the leaf the walk ends at. */
  predicate Paths(t: T.Tree, d: nat, k: T.Key, data: Bytes, own: Bytes) {
    var e := T.StopOf(t, k);
    && Ends(data, k) && 2 * |data| == d + |k|
    && (e.Some? ==> Ends(own, e.value.suffix) && 2 * |own| == d + e.value.used + |e.value.suffix|)
  }

  lemma EndsLess(path: Bytes, s: T.Key, n: nat)
    requires Ends(path, s) && n <= |s|
    ensures Ends(path, s[n..])
  {
    NibsLength(path);
    var a := 2 * |path| - |s|;
    assert Nibs(path)[a..][n..] == Nibs(path)[a + n..];
  }

  lemma PathsBehind(t: T.Tree, d: nat, k: T.Key, data: Bytes, own: Bytes)
    requires t.Ext? && t.prefix <= k && Paths(t, d, k, data, own)
    ensures Paths(t.child, d + |t.prefix|, k[|t.prefix|..], data, own)
  {
    hide Ends;
    EndsLess(data, k, |t.prefix|);
  }

  lemma PathsChild(t: T.Tree, d: nat, k: T.Key, data: Bytes, own: Bytes)
    requires t.Branch? && |t.children| == 16 && k != [] && Paths(t, d, k, data, own)
    ensures Paths(t.children[k[0]], d + 1, k[1..], data, own)
  {
    hide Ends;
    EndsLess(data, k, 1);
  }

  /** What is written for a leaf is a path that ends with its suffix and belongs to its value. */
  ghost predicate Aims(
    keccak: Bytes -> H256, u: iset<Bytes>, w: map<NodeHash, Node>, v: Bytes, n: nat, v2: Bytes, n2: nat) {
    forall s, x | Known(keccak, u, T.Leaf(s, x)) && Hash(keccak, T.Leaf(s, x)) in w ::
      var node := w[Hash(keccak, T.Leaf(s, x))];
      node.LeafNode? && Ends(node.path, s) && ((x == v && 2 * |node.path| == n) || (x == v2 && 2 * |node.path| == n2))
  }

  lemma AimsOne(
    keccak: Bytes -> H256, u: iset<Bytes>, s: T.Key, x: Bytes, path: Bytes, v: Bytes, n: nat, v2: Bytes, n2: nat)
    requires CollisionFree(keccak, u) && Known(keccak, u, T.Leaf(s, x)) && Ends(path, s)
    requires (x == v && 2 * |path| == n) || (x == v2 && 2 * |path| == n2)
    ensures Aims(keccak, u, map[Hash(keccak, T.Leaf(s, x)) := LeafNode(path, x)], v, n, v2, n2)
  {
    hide Known, Hash, CollisionFree, Ends;
    forall r, y | Known(keccak, u, T.Leaf(r, y)) && Hash(keccak, T.Leaf(r, y)) == Hash(keccak, T.Leaf(s, x))
      ensures r == s && y == x
    {
      HashInjective(keccak, u, T.Leaf(r, y), T.Leaf(s, x));
    }
  }

  lemma AimsBoth(
    keccak: Bytes -> H256, u: iset<Bytes>, a: map<NodeHash, Node>, b: map<NodeHash, Node>, v: Bytes, n: nat, v2: Bytes, n2: nat)
    requires Aims(keccak, u, a, v, n, v2, n2) && Aims(keccak, u, b, v, n, v2, n2)
    ensures Aims(keccak, u, a + b, v, n, v2, n2)
  {
    hide Known, Hash, Ends;
  }

  /** The value and the key length of the leaf that a walk ends at; those of the new binding if there is none. */
  function StopAim(t: T.Tree, d: nat, k: T.Key, v: Bytes): (Bytes, nat) {
    var e := T.StopOf(t, k);
    if e.Some? then (e.value.value, d + e.value.used + |e.value.suffix|) else (v, d + |k|)
  }

  lemma {:induction false} WritesAim(
    keccak: Bytes -> H256, u: iset<Bytes>, t: T.Tree, d: nat, k: T.Key, v: Bytes, data: Bytes, own: Bytes)
    requires CollisionFree(keccak, u) && T.WF(t) && T.Clear(t, k, v) && Known(keccak, u, T.Insert(t, k, v))
    requires Paths(t, d, k, data, own)
    ensures var e := StopAim(t, d, k, v);
            Aims(keccak, u, Writes(keccak, t, k, v, data, own), v, d + |k|, e.0, e.1)
    decreases t
  {
    hide Known, Hash, Aims, CollisionFree, Ends, Lcp, T.SplitLeaf, T.SplitExt;
    var e := StopAim(t, d, k, v);
    match t
    case Nil => AimsOne(keccak, u, k, v, data, v, d + |k|, e.0, e.1);
    case Leaf(s, w) =>
      if s == k {
        AimsOne(keccak, u, k, v, own, v, d + |k|, e.0, e.1);
      } else {
        ForkAims(keccak, u, s, w, d, k, v, data, own);
      }
    case Ext(p, c) =>
      KnownChild(keccak, u, T.Insert(t, k, v));
      if p <= k {
        PathsBehind(t, d, k, data, own);
        WritesAim(keccak, u, c, d + |p|, k[|p|..], v, data, own);
      } else {
        LeaveAims(keccak, u, t, d, k, v, data, own);
      }
    case Branch(ch, w) =>
      if k == [] {
        AimsNothing(keccak, u, v, d + |k|, e.0, e.1);
      } else {
        var c := T.Insert(ch[k[0]], k[1..], v);
        KnownChild(keccak, u, T.Insert(t, k, v));
        assert ch[k[0] := c][k[0]] == c;
        PathsChild(t, d, k, data, own);
        WritesAim(keccak, u, ch[k[0]], d + 1, k[1..], v, data, own);
      }
  }

  lemma AimsNothing(keccak: Bytes -> H256, u: iset<Bytes>, v: Bytes, n: nat, v2: Bytes, n2: nat)
    ensures Aims(keccak, u, map[], v, n, v2, n2)
  {
  }

  lemma ForkAims(
    keccak: Bytes -> H256, u: iset<Bytes>, s: T.Key, w: Bytes, d: nat, k: T.Key, v: Bytes, data: Bytes, own: Bytes)
    requires CollisionFree(keccak, u) && s != k && T.Clear(T.Leaf(s, w), k, v)
    requires Known(keccak, u, T.Insert(T.Leaf(s, w), k, v)) && Paths(T.Leaf(s, w), d, k, data, own)
    ensures Aims(keccak, u, Writes(keccak, T.Leaf(s, w), k, v, data, own), v, d + |k|, w, d + |s|)
  {
    hide Known, Hash, Aims, CollisionFree, Ends, Fork, Lcp, T.Insert, T.Clear;
    SplitLeaf(s, w, k, v);
    var o := Lcp(k, s);
    var b := Fork(s[o..], w, k[o..], v);
    KnownCapped(keccak, u, k[..o], b);
    KnownChild(keccak, u, b);
    ForkParts(s[o..], w, k[o..], v);
    AimsNothing(keccak, u, v, d + |k|, w, d + |s|);
    var x, y: map<NodeHash, Node> := map[], map[];
    if o < |k| {
      EndsLess(data, k, o + 1);
      assert k[o..][1..] == k[o + 1..];
      x := map[Hash(keccak, T.Leaf(k[o..][1..], v)) := LeafNode(data, v)];
      AimsOne(keccak, u, k[o..][1..], v, data, v, d + |k|, w, d + |s|);
    }
    if o < |s| {
      EndsLess(own, s, o + 1);
      assert s[o..][1..] == s[o + 1..];
      y := map[Hash(keccak, T.Leaf(s[o..][1..], w)) := LeafNode(own, w)];
      AimsOne(keccak, u, s[o..][1..], w, own, v, d + |k|, w, d + |s|);
    }
    AimsBoth(keccak, u, x, y, v, d + |k|, w, d + |s|);
  }

  lemma LeaveAims(
    keccak: Bytes -> H256, u: iset<Bytes>, t: T.Tree, d: nat, k: T.Key, v: Bytes, data: Bytes, own: Bytes)
    requires CollisionFree(keccak, u) && T.WF(t) && t.Ext? && !(t.prefix <= k) && T.Clear(t, k, v)
    requires Known(keccak, u, T.Insert(t, k, v)) && Paths(t, d, k, data, own)
    ensures Aims(keccak, u, Writes(keccak, t, k, v, data, own), v, d + |k|, v, d + |k|)
  {
    hide Known, Hash, Aims, CollisionFree, Ends, Lcp, T.Insert, T.Clear, T.Put, T.Stem;
    var p, o := t.prefix, Lcp(k, t.prefix);
    SplitExtension(p, t.child, k, v);
    AimsNothing(keccak, u, v, d + |k|, v, d + |k|);
    if o < |k| {
      var b := T.Put(T.Stem(p[o], T.Prefixed(p[o + 1..], t.child)), k[o..], v);
      KnownCapped(keccak, u, p[..o], b);
      KnownChild(keccak, u, b);
      StemParts(p[o], T.Prefixed(p[o + 1..], t.child), k[o..], v);
      EndsLess(data, k, o + 1);
      assert k[o..][1..] == k[o + 1..];
      AimsOne(keccak, u, k[o..][1..], v, data, v, d + |k|, v, d + |k|);
    }
  }

  /** Leaves that are written leave those of interest in place if their values have keys of one length. */
  lemma {:induction false} Rewritten(
    keccak: Bytes -> H256, u: iset<Bytes>, m: Store, w: map<NodeHash, Node>, t: T.Tree, d: nat, f: Concern,
    v: Bytes, n: nat, v2: Bytes, n2: nat)
    requires Known(keccak, u, t) && Fit(keccak, m, t, d, f) && Aims(keccak, u, w, v, n, v2, n2)
    requires Level(t, d, f, v, n) && Level(t, d, f, v2, n2)
    ensures Fit(keccak, Store(m.cache + w, m.db), t, d, f)
    decreases t
  {
    hide Known, Hash, Ends, DecodeNode, Aims;
    match t
    case Nil =>
    case Leaf(s, x) => RewrittenLeaf(keccak, u, m, w, t, d, f, v, n, v2, n2);
    case Ext(p, c) =>
      KnownChild(keccak, u, t);
      Rewritten(keccak, u, m, w, c, d + |p|, f, v, n, v2, n2);
    case Branch(ch, _) =>
      KnownChild(keccak, u, t);
      forall i | 0 <= i < |ch|
        ensures Fit(keccak, Store(m.cache + w, m.db), ch[i], d + 1, f)
      {
        Rewritten(keccak, u, m, w, ch[i], d + 1, f, v, n, v2, n2);
      }
  }

  lemma RewrittenLeaf(
    keccak: Bytes -> H256, u: iset<Bytes>, m: Store, w: map<NodeHash, Node>, t: T.Tree, d: nat, f: Concern,
    v: Bytes, n: nat, v2: Bytes, n2: nat)
    requires Known(keccak, u, t) && t.Leaf? && Fit(keccak, m, t, d, f) && Aims(keccak, u, w, v, n, v2, n2)
    requires Level(t, d, f, v, n) && Level(t, d, f, v2, n2)
    ensures Fit(keccak, Store(m.cache + w, m.db), t, d, f)
  {
    hide Known, Hash, Ends, DecodeNode;
  }

  // ---------------------------------------------------------------------------------------------
  // Leaves that are new
  // ---------------------------------------------------------------------------------------------

  /** The leaves of `w` are in the cache. */
  predicate Holds(m: Store, w: map<NodeHash, Node>) {
    forall h | h in w :: h in m.cache && m.cache[h] == w[h]
  }

  lemma HeldPath(m: Store, w: map<NodeHash, Node>, h: NodeHash)
    requires Holds(m, w) && h in w && w[h].LeafNode?
    ensures PathOf(m, h) == w[h].path
  {
  }

  lemma FitPrefixed(keccak: Bytes -> H256, m: Store, p: T.Key, t: T.Tree, d: nat, f: Concern)
    ensures Fit(keccak, m, T.Prefixed(p, t), d, f) <==> Fit(keccak, m, t, d + |p|, f)
  {
    hide Hash, PathOf, Ends;
    if p == [] {
      assert T.Prefixed(p, t) == t && d + |p| == d;
    } else {
      assert T.Prefixed(p, t) == T.Ext(p, t);
    }
  }

  lemma {:induction false} FitInsert(
    keccak: Bytes -> H256, u: iset<Bytes>, m: Store, t: T.Tree, d: nat, k: T.Key, v: Bytes, data: Bytes, own: Bytes, f: Concern)
    requires CollisionFree(keccak, u) && T.WF(t) && T.Clear(t, k, v) && Known(keccak, u, T.Insert(t, k, v))
    requires Fit(keccak, m, t, d, f) && Paths(t, d, k, data, own) && Holds(m, Writes(keccak, t, k, v, data, own))
    ensures Fit(keccak, m, T.Insert(t, k, v), d, f)
    decreases t
  {
    hide Known, Hash, CollisionFree, Ends, Lcp, T.SplitLeaf, T.SplitExt, PathOf, Holds;
    match t
    case Nil => HeldPath(m, Writes(keccak, t, k, v, data, own), Hash(keccak, T.Leaf(k, v)));
    case Leaf(s, w) =>
      if s == k {
        HeldPath(m, Writes(keccak, t, k, v, data, own), Hash(keccak, T.Leaf(k, v)));
      } else {
        FitFork(keccak, u, m, s, w, d, k, v, data, own, f);
      }
    case Ext(p, c) =>
      KnownChild(keccak, u, T.Insert(t, k, v));
      if p <= k {
        PathsBehind(t, d, k, data, own);
        FitInsert(keccak, u, m, c, d + |p|, k[|p|..], v, data, own, f);
      } else {
        FitLeave(keccak, m, t, d, k, v, data, own, f);
      }
    case Branch(ch, w) =>
      if k != [] {
        var c := T.Insert(ch[k[0]], k[1..], v);
        KnownChild(keccak, u, T.Insert(t, k, v));
        assert ch[k[0] := c][k[0]] == c;
        PathsChild(t, d, k, data, own);
        FitInsert(keccak, u, m, ch[k[0]], d + 1, k[1..], v, data, own, f);
      }
  }

  lemma FitFork(
    keccak: Bytes -> H256, u: iset<Bytes>, m: Store, s: T.Key, w: Bytes, d: nat, k: T.Key, v: Bytes, data: Bytes, own: Bytes,
    f: Concern)
    requires CollisionFree(keccak, u) && s != k && T.Clear(T.Leaf(s, w), k, v)
    requires Known(keccak, u, T.Insert(T.Leaf(s, w), k, v)) && Paths(T.Leaf(s, w), d, k, data, own)
    requires Holds(m, Writes(keccak, T.Leaf(s, w), k, v, data, own))
    ensures Fit(keccak, m, T.Insert(T.Leaf(s, w), k, v), d, f)
  {
    hide Known, Hash, CollisionFree, Ends, Fork, Lcp, T.Insert, T.Clear, PathOf, Holds;
    SplitLeaf(s, w, k, v);
    var o := Lcp(k, s);
    var b := Fork(s[o..], w, k[o..], v);
    KnownCapped(keccak, u, k[..o], b);
    KnownChild(keccak, u, b);
    ForkParts(s[o..], w, k[o..], v);
    if o < |s| {
      var y := T.Leaf(s[o..][1..], w);
      EndsLess(own, s, o + 1);
      assert s[o..][1..] == s[o + 1..];
      HeldPath(m, Writes(keccak, T.Leaf(s, w), k, v, data, own), Hash(keccak, y));
      assert Fit(keccak, m, y, d + o + 1, f);
    }
    if o < |k| {
      var x := T.Leaf(k[o..][1..], v);
      EndsLess(data, k, o + 1);
      assert k[o..][1..] == k[o + 1..];
      HeldPath(m, Writes(keccak, T.Leaf(s, w), k, v, data, own), Hash(keccak, x));
      if o < |s| && Hash(keccak, x) == Hash(keccak, T.Leaf(s[o..][1..], w)) {
        HashInjective(keccak, u, x, T.Leaf(s[o..][1..], w));
      }
      assert Fit(keccak, m, x, d + o + 1, f);
    }
    assert Fit(keccak, m, b, d + o, f);
    FitPrefixed(keccak, m, k[..o], b, d, f);
  }

  lemma FitLeave(
    keccak: Bytes -> H256, m: Store, t: T.Tree, d: nat, k: T.Key, v: Bytes, data: Bytes, own: Bytes, f: Concern)
    requires T.WF(t) && t.Ext? && !(t.prefix <= k) && T.Clear(t, k, v) && Fit(keccak, m, t, d, f)
    requires Paths(t, d, k, data, own) && Holds(m, Writes(keccak, t, k, v, data, own))
    ensures Fit(keccak, m, T.Insert(t, k, v), d, f)
  {
    hide Hash, Ends, Lcp, T.Insert, T.Clear, T.Put, T.Stem, PathOf, Holds;
    var p, o := t.prefix, Lcp(k, t.prefix);
    SplitExtension(p, t.child, k, v);
    var a := T.Prefixed(p[o + 1..], t.child);
    var b := T.Put(T.Stem(p[o], a), k[o..], v);
    StemParts(p[o], a, k[o..], v);
    FitPrefixed(keccak, m, p[o + 1..], t.child, d + o + 1, f);
    if o < |k| {
      EndsLess(data, k, o + 1);
      assert k[o..][1..] == k[o + 1..];
      HeldPath(m, Writes(keccak, t, k, v, data, own), Hash(keccak, T.Leaf(k[o..][1..], v)));
      assert Fit(keccak, m, T.Leaf(k[o..][1..], v), d + o + 1, f);
    }
    assert Fit(keccak, m, b, d + o, f);
    FitPrefixed(keccak, m, p[..o], b, d, f);
  }

  /**
    * Main law of leaves in place: those of interest stay in place through an insertion if those with the values it stores
    * again have keys of the lengths it stores them with.
    */
  lemma StepFits(
    keccak: Bytes -> H256, u: iset<Bytes>, m: Store, t: T.Tree, d: nat, k: T.Key, v: Bytes, data: Bytes, own: Bytes, f: Concern)
    requires CollisionFree(keccak, u) && T.WF(t) && Known(keccak, u, t)
    requires T.Clear(t, k, v) && Known(keccak, u, T.Insert(t, k, v))
    requires Fit(keccak, m, t, d, f) && Paths(t, d, k, data, own)
    requires Level(t, d, f, v, d + |k|) && Level(t, d, f, StopAim(t, d, k, v).0, StopAim(t, d, k, v).1)
    ensures Fit(keccak, Store(m.cache + Writes(keccak, t, k, v, data, own), m.db), T.Insert(t, k, v), d, f)
  {
    hide Fit, Known, Hash, Aims, CollisionFree, Paths, Level, StopAim, Writes, T.WF, T.Clear, T.Insert;
    var w, e := Writes(keccak, t, k, v, data, own), StopAim(t, d, k, v);
    WritesAim(keccak, u, t, d, k, v, data, own);
    Rewritten(keccak, u, m, w, t, d, f, v, d + |k|, e.0, e.1);
    FitInsert(keccak, u, Store(m.cache + w, m.db), t, d, k, v, data, own, f);
  }
}
