/**
  * Walks that end at a stored leaf. A leaf is stored with a whole path, under a hash that only fixes the end of it, so equal
  * leaves in different places are stored once, with the path of the last one. The operations read the part of that path
  * behind the place they are at: they see a leaf with that suffix, and go out of bounds when the path is too short.
  */
module TrieWalk {
  import opened Prelude
  import Rlp
  import opened Nibbles
  import opened TrieNode
  import opened TrieHash
  import opened TrieStore
  import T = TrieTree

  /** The part of a key below a place. */
  function Behind(key: T.Key, d: nat): T.Key {
    if d <= |key| then key[d..] else []
  }

  /** The path that the leaf at the end of a walk is stored with. */
  function StopPath(keccak: Bytes -> H256, m: Store, e: T.Stop): Bytes {
    PathOf(m, Hash(keccak, T.Leaf(e.suffix, e.value)))
  }

  /** The walk ends at a leaf whose stored path is too short for its place: reading it goes out of bounds. */
  predicate OffEnd(keccak: Bytes -> H256, m: Store, t: T.Tree, d: nat, k: T.Key) {
    var e := T.StopOf(t, k);
    e.Some? && d + e.value.used > 2 * |StopPath(keccak, m, e.value)|
  }

  /** The leaf that the walk ends at, if there is one, is stored with a path of the length that its place asks for. */
  predicate InPlace(keccak: Bytes -> H256, m: Store, t: T.Tree, d: nat, k: T.Key) {
    var e := T.StopOf(t, k);
    e.Some? ==> 2 * |StopPath(keccak, m, e.value)| == d + e.value.used + |e.value.suffix|
  }

  /** The trie as the walk sees it. */
  function Seen(keccak: Bytes -> H256, m: Store, t: T.Tree, d: nat, k: T.Key): T.Tree {
    var e := T.StopOf(t, k);
    if e.None? then t else T.Regrown(t, k, Behind(Nibs(StopPath(keccak, m, e.value)), d + e.value.used))
  }

  /** The walk comes to its end, neither overrunning a prefix nor a stored leaf. */
  predicate Passes(keccak: Bytes -> H256, m: Store, t: T.Tree, d: nat, k: T.Key) {
    !T.Overruns(t, d, k) && !OffEnd(keccak, m, t, d, k)
  }

  lemma FoundMeans(keccak: Bytes -> H256, keys: iset<Binding>, m: Store, t: T.Tree, d: nat)
    requires Found(keccak, keys, m, t, d)
    ensures var r := Resolve(m, Hash(keccak, t));
            && r.Ok? && r.value.Some? && Matches(keccak, keys, r.value.value, t, d)
            && (!r.value.value.ExtensionNode? ==> PathOf(m, Hash(keccak, t)) == r.value.value.path)
  {
  }

  /** What the store gives for a trie that it holds. */
  lemma StoredMeans(keccak: Bytes -> H256, keys: iset<Binding>, m: Store, t: T.Tree, d: nat)
    requires Stored(keccak, keys, m, t, d) && !t.Nil?
    ensures Below(keccak, keys, m, t, d)
    ensures var r := Resolve(m, Hash(keccak, t));
            && r.Ok? && r.value.Some? && Matches(keccak, keys, r.value.value, t, d)
            && (!r.value.value.ExtensionNode? ==> PathOf(m, Hash(keccak, t)) == r.value.value.path)
  {
    hide Stored, Below, Found, Matches, Hash, Resolve, PathOf;
    StoredIsFoundAndBelow(keccak, keys, m, t, d);
    FoundMeans(keccak, keys, m, t, d);
  }

  /** The leaf at the end of a walk is found, with a path that ends with its suffix. */
  lemma {:induction false} StopStored(
    keccak: Bytes -> H256, keys: iset<Binding>, m: Store, t: T.Tree, d: nat, k: T.Key)
    requires Stored(keccak, keys, m, t, d) && T.StopOf(t, k).Some?
    ensures var e := T.StopOf(t, k).value;
            Ends(StopPath(keccak, m, e), e.suffix) && (StopPath(keccak, m, e), e.value) in keys
    decreases t
  {
    hide Hash, Nibs, DecodeNode;
    match t
    case Leaf(_, _) =>
    case Ext(p, c) => StopStored(keccak, keys, m, c, d + |p|, k[|p|..]);
    case Branch(ch, _) => StopStored(keccak, keys, m, ch[k[0]], d + 1, k[1..]);
  }

  /** The leaf that the walk ends at, if there is one, is found with a path that ends with its suffix. */
  predicate StopEnds(keccak: Bytes -> H256, m: Store, t: T.Tree, k: T.Key) {
    var e := T.StopOf(t, k);
    e.Some? ==> Ends(StopPath(keccak, m, e.value), e.value.suffix)
  }

  lemma StoredEnds(keccak: Bytes -> H256, keys: iset<Binding>, m: Store, t: T.Tree, d: nat, k: T.Key)
    requires Stored(keccak, keys, m, t, d)
    ensures StopEnds(keccak, m, t, k)
  {
    if T.StopOf(t, k).Some? {
      StopStored(keccak, keys, m, t, d, k);
    }
  }

  /** A walk sees the trie as it is if and only if the leaf it ends at is in place. */
  lemma SeenIsTrie(keccak: Bytes -> H256, m: Store, t: T.Tree, d: nat, k: T.Key)
    requires StopEnds(keccak, m, t, k)
    ensures InPlace(keccak, m, t, d, k) <==> !OffEnd(keccak, m, t, d, k) && Seen(keccak, m, t, d, k) == t
  {
    hide Hash, PathOf, Nibs, T.StopOf, T.Regrown;
    var e := T.StopOf(t, k);
    if e.Some? {
      var path := StopPath(keccak, m, e.value);
      T.RegrownSame(t, k, Behind(Nibs(path), d + e.value.used));
      NibsLength(path);
    }
  }

  lemma NibsLength(path: Bytes)
    ensures |Nibs(path)| == 2 * |path|
  {
  }

  lemma SeenWF(keccak: Bytes -> H256, m: Store, t: T.Tree, d: nat, k: T.Key)
    requires T.WF(t)
    ensures var r := Seen(keccak, m, t, d, k);
            T.WF(r) && (r.Nil? <==> t.Nil?) && (r.Leaf? <==> t.Leaf?) && (r.Ext? <==> t.Ext?) && (r.Branch? <==> t.Branch?)
  {
    hide Hash, PathOf, T.StopOf, T.Regrown, T.WF;
    if T.StopOf(t, k).Some? {
      T.RegrownWF(t, k, Behind(Nibs(StopPath(keccak, m, T.StopOf(t, k).value)), d + T.StopOf(t, k).value.used));
    }
  }

  lemma SeenPlaced(keccak: Bytes -> H256, m: Store, t: T.Tree, d: nat, k: T.Key)
    requires T.Placed(t, d) && !OffEnd(keccak, m, t, d, k)
    ensures T.Placed(Seen(keccak, m, t, d, k), d)
  {
    hide Hash, PathOf, T.StopOf, T.Regrown, T.Placed;
    var e := T.StopOf(t, k);
    if e.Some? {
      NibsLength(StopPath(keccak, m, e.value));
      T.RegrownPlaced(t, d, k, Behind(Nibs(StopPath(keccak, m, e.value)), d + e.value.used));
    }
  }

  /** How a walk goes on from an extension whose prefix the path has. */
  lemma SeenBehind(keccak: Bytes -> H256, m: Store, t: T.Tree, d: nat, k: T.Key)
    requires t.Ext?
    ensures !(t.prefix <= k) ==> Seen(keccak, m, t, d, k) == t && !OffEnd(keccak, m, t, d, k) && T.StopOf(t, k).None?
    ensures t.prefix <= k ==>
              var n, q := |t.prefix|, k[|t.prefix|..];
              && Seen(keccak, m, t, d, k) == T.Ext(t.prefix, Seen(keccak, m, t.child, d + n, q))
              && OffEnd(keccak, m, t, d, k) == OffEnd(keccak, m, t.child, d + n, q)
              && T.StopOf(t, k) == T.Further(n, T.StopOf(t.child, q))
  {
    hide Hash, PathOf, Nibs;
  }

  /** How a walk goes on from a branch. */
  lemma SeenChild(keccak: Bytes -> H256, m: Store, t: T.Tree, d: nat, k: T.Key)
    requires t.Branch? && |t.children| == 16
    ensures k == [] ==> Seen(keccak, m, t, d, k) == t && !OffEnd(keccak, m, t, d, k) && T.StopOf(t, k).None?
    ensures k != [] ==>
              var c := t.children[k[0]];
              && Seen(keccak, m, t, d, k) == T.Branch(t.children[k[0] := Seen(keccak, m, c, d + 1, k[1..])], t.value)
              && OffEnd(keccak, m, t, d, k) == OffEnd(keccak, m, c, d + 1, k[1..])
              && T.StopOf(t, k) == T.Further(1, T.StopOf(c, k[1..]))
  {
    hide Hash, PathOf, Nibs, T.StopOf, T.Regrown;
    StopChild(t, k);
    if k != [] {
      assert t.children[k[0] := t.children[k[0]]] == t.children;
      var e := T.StopOf(t, k);
      if e.Some? {
        RegrownChild(t, k, Behind(Nibs(StopPath(keccak, m, e.value)), d + e.value.used));
      }
    }
  }

  lemma StopChild(t: T.Tree, k: T.Key)
    requires t.Branch? && |t.children| == 16
    ensures T.StopOf(t, k) == if k == [] then None else T.Further(1, T.StopOf(t.children[k[0]], k[1..]))
  {
  }

  lemma RegrownChild(t: T.Tree, k: T.Key, s: T.Key)
    requires t.Branch? && |t.children| == 16 && k != []
    ensures T.Regrown(t, k, s) == T.Branch(t.children[k[0] := T.Regrown(t.children[k[0]], k[1..], s)], t.value)
  {
  }

  lemma SeenLeaf(keccak: Bytes -> H256, m: Store, t: T.Tree, d: nat, k: T.Key)
    requires t.Leaf?
    ensures var path := PathOf(m, Hash(keccak, t));
            && T.StopOf(t, k) == Some(T.Stop(0, t.suffix, t.value)) && StopPath(keccak, m, T.StopOf(t, k).value) == path
            && Seen(keccak, m, t, d, k) == T.Leaf(Behind(Nibs(path), d), t.value)
            && (OffEnd(keccak, m, t, d, k) <==> d > 2 * |path|)
  {
    hide Hash, PathOf, Nibs;
  }

  // ---------------------------------------------------------------------------------------------
  // Reading
  // ---------------------------------------------------------------------------------------------

  /** What `get` gives. */
  function GetVia(keccak: Bytes -> H256, m: Store, t: T.Tree, d: nat, k: T.Key): Rlp.Result<Option<Bytes>> {
    if Passes(keccak, m, t, d, k) then Rlp.Ok(T.Lookup(Seen(keccak, m, t, d, k), k)) else Rlp.Panic
  }

  /** The leaf at the end of the walk is in place, or it is not the one asked for, neither as it is nor as it is seen. */
  predicate Reads(keccak: Bytes -> H256, m: Store, t: T.Tree, d: nat, k: T.Key) {
    || InPlace(keccak, m, t, d, k)
    || (var e := T.StopOf(t, k).value;
        && !OffEnd(keccak, m, t, d, k)
        && k[e.used..] !in {e.suffix, Behind(Nibs(StopPath(keccak, m, e)), d + e.used)})
  }

  /** Main law of reading: a path reads what the trie binds if and only if it does not overrun and `Reads`. */
  lemma ReadsRight(keccak: Bytes -> H256, keys: iset<Binding>, m: Store, t: T.Tree, d: nat, k: T.Key)
    requires Stored(keccak, keys, m, t, d)
    ensures GetVia(keccak, m, t, d, k) == Rlp.Ok(T.Lookup(t, k)) <==> !T.Overruns(t, d, k) && Reads(keccak, m, t, d, k)
  {
    hide Hash, PathOf, Nibs, Stored, T.StopOf, T.Regrown, T.Lookup, T.Overruns, Behind;
    StoredEnds(keccak, keys, m, t, d, k);
    SeenIsTrie(keccak, m, t, d, k);
    var e := T.StopOf(t, k);
    if e.Some? && !OffEnd(keccak, m, t, d, k) {
      var s := Behind(Nibs(StopPath(keccak, m, e.value)), d + e.value.used);
      T.LookupRegrown(t, k, s, k);
      T.RegrownSame(t, k, s);
      SplitAt(k, e.value, s);
      SplitAt(k, e.value, e.value.suffix);
      if T.Lookup(t, k).Some? {
        T.StopAlone(t, k, k);
      }
    }
  }

  lemma SplitAt(k: T.Key, e: T.Stop, s: T.Key)
    requires e.used <= |k|
    ensures k == T.KeyAt(k, e, s) <==> k[e.used..] == s
  {
  }

  /** A bound key is read if and only if its leaf is in place. */
  lemma BoundReads(keccak: Bytes -> H256, keys: iset<Binding>, m: Store, t: T.Tree, d: nat, k: T.Key)
    requires Stored(keccak, keys, m, t, d) && T.Lookup(t, k).Some?
    ensures GetVia(keccak, m, t, d, k) == Rlp.Ok(T.Lookup(t, k)) <==> InPlace(keccak, m, t, d, k)
  {
    hide Hash, PathOf, Nibs, Stored, T.StopOf, T.Regrown, T.Lookup, T.Overruns, Behind;
    ReadsRight(keccak, keys, m, t, d, k);
    T.BoundPasses(t, d, k);
    var e := T.StopOf(t, k);
    if e.Some? {
      T.StopAlone(t, k, k);
      SplitAt(k, e.value, e.value.suffix);
    }
  }

  // ---------------------------------------------------------------------------------------------
  // Binding
  // ---------------------------------------------------------------------------------------------

  /** `r` holds what `t` holds, with the key bound to the value. */
  ghost predicate Gains(t: T.Tree, k: T.Key, v: Bytes, r: T.Tree) {
    forall q :: T.Lookup(r, q) == if q == k then Some(v) else T.Lookup(t, q)
  }

  /** Main law of binding: the trie as it is seen gives the right contents if and only if the leaf seen is in place. */
  lemma InsertsRight(keccak: Bytes -> H256, m: Store, t: T.Tree, d: nat, k: T.Key, v: Bytes)
    requires T.WF(t) && StopEnds(keccak, m, t, k) && !OffEnd(keccak, m, t, d, k)
    requires T.Clear(Seen(keccak, m, t, d, k), k, v)
    ensures Gains(t, k, v, T.Insert(Seen(keccak, m, t, d, k), k, v)) <==> InPlace(keccak, m, t, d, k)
  {
    hide Hash, PathOf, Nibs, T.StopOf, T.Regrown, T.Lookup, T.Insert, T.WF, T.Clear, Seen, OffEnd, InPlace, StopEnds;
    var r := Seen(keccak, m, t, d, k);
    SeenIsTrie(keccak, m, t, d, k);
    SeenWF(keccak, m, t, d, k);
    forall q
      ensures T.Lookup(T.Insert(r, k, v), q) == if q == k then Some(v) else T.Lookup(r, q)
    {
      T.LookupInsert(r, k, v, q);
    }
    if r != t && Gains(t, k, v, T.Insert(r, k, v)) {
      var q := Misread(keccak, m, t, d, k);
      assert false;
    }
  }

  /** A leaf that is seen out of place is a key lost and a key gained, and one of them is not the key of the walk. */
  lemma Misread(keccak: Bytes -> H256, m: Store, t: T.Tree, d: nat, k: T.Key) returns (q: T.Key)
    requires Seen(keccak, m, t, d, k) != t
    ensures q != k && T.Lookup(Seen(keccak, m, t, d, k), q) != T.Lookup(t, q)
  {
    hide Hash, PathOf, Nibs, T.StopOf, T.Regrown, T.Lookup;
    var e := T.StopOf(t, k).value;
    var s := Behind(Nibs(StopPath(keccak, m, e)), d + e.used);
    T.RegrownSame(t, k, s);
    var was, seen := T.KeyAt(k, e, e.suffix), T.KeyAt(k, e, s);
    assert was[e.used..] == e.suffix && seen[e.used..] == s && seen[..e.used] == k[..e.used];
    T.LookupRegrown(t, k, s, was);
    T.LookupRegrown(t, k, s, seen);
    if T.Lookup(t, seen).Some? {
      T.StopAlone(t, k, seen);
    }
    q := if was == k then seen else was;
  }
}
