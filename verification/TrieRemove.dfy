/**
  * Removal through the store: `remove` of the node kinds in `crates/trie/node`. A leaf that moves up, because the branch
  * above it is left with nothing else, is the leaf that the store holds under its hash. That leaf keeps a whole key, and
  * its hash only fixes the part of the key below the old place, so what the trie holds afterwards depends on the key found
  * in the store. A branch that keeps a value of its own is restructured as if it had none, or as if it had no children.
  */
module TrieRemove {
  import opened Prelude
  import Rlp
  import opened Nibbles
  import opened TrieNode
  import opened TrieHash
  import opened TrieStore
  import opened TrieWalk
  import opened TrieInsert
  import T = TrieTree

  // ---------------------------------------------------------------------------------------------
  // The trie after a removal, given the keys in the store
  // ---------------------------------------------------------------------------------------------

  /**
    * What is left, with the stored key in case that is a leaf; or a stored key is too short for its place, or the debug
    * assertion on a branch above an extension fails; or a branch is formed under which keys can no longer be read.
    */
  datatype Outcome = Left(tree: T.Tree, key: T.Key) | Panics | Garbled

  /** A leaf with this key has this suffix below a place. */
  predicate Fits(key: T.Key, d: nat, suffix: T.Key) {
    d <= |key| && key[d..] == suffix
  }

  /** What is left can be hashed at its place. */
  predicate Sized(r: Outcome, d: nat) {
    r.Left? && (r.tree.Leaf? ==> d <= |r.key|)
  }

  /** What is left of a child, after it was hashed and stored again. */
  function Rehashed(r: Outcome, d: nat): Outcome {
    if r.Left? && !Sized(r, d) then Panics else r
  }

  /** As `T.Join`, except that a leaf takes its new suffix from its stored key. */
  function JoinVia(p: T.Key, t: T.Tree, d: nat, key: T.Key): T.Tree {
    if t.Leaf? then T.Leaf(Behind(key, d), t.value) else T.Join(p, t)
  }

  /**
    * What becomes of a branch `d` nibbles below the root. Its own value counts only when its stored key `own` is not empty;
    * `key` is the stored key of an only child.
    */
  ghost function Restructured(ch: seq<T.Tree>, w: Bytes, own: T.Key, key: T.Key, d: nat): Outcome
    requires |ch| == 16
  {
    if w != [] && own != [] then
      if i: nat :| T.IsOnlyChild(ch, i) then
        if ch[i].Leaf? then Left(T.Branch(ch, w), []) else if ch[i].Ext? then Panics else Garbled
      else Left(T.Leaf(Behind(own, d), w), own)
    else if i: nat :| T.IsOnlyChild(ch, i) then Left(JoinVia([i], ch[i], d, key), key)
    else if T.SomeChild(ch) then Left(T.Branch(ch, w), [])
    else Garbled
  }

  /** The stored key of an only child, of which `x` has just been rebuilt with the stored key `key`. */
  ghost function OnlyKey(keccak: Bytes -> H256, m: Store, ch: seq<T.Tree>, x: nat, key: T.Key): T.Key {
    if i: nat :| T.IsOnlyChild(ch, i) then (if i == x then key else KeyOf(m, Hash(keccak, ch[i]))) else []
  }

  /** A leaf is compared by its stored key, which goes out of bounds if that ends above the leaf's place. */
  function LeafVia(w: Bytes, key: T.Key, d: nat, k: T.Key): Outcome {
    if d > |key| then Panics else if key[d..] == k then Left(T.Nil, []) else Left(T.Leaf(key[d..], w), key)
  }

  ghost function RemoveVia(keccak: Bytes -> H256, m: Store, t: T.Tree, d: nat, k: T.Key): Outcome
    requires T.WF(t)
    decreases t
  {
    match t
    case Nil => Left(T.Nil, [])
    case Leaf(_, w) => LeafVia(w, KeyOf(m, Hash(keccak, t)), d, k)
    case Ext(p, c) =>
      if !(p <= k) then Left(t, [])
      else
        var r := RemoveVia(keccak, m, c, d + |p|, k[|p|..]);
        if r.Left? then Left(JoinVia(p, r.tree, d, r.key), r.key) else r
    case Branch(ch, w) =>
      var own := KeyOf(m, Hash(keccak, t));
      if k == [] then Restructured(ch, if own != [] then [] else w, own, OnlyKey(keccak, m, ch, 16, []), d)
      else
        var r := Rehashed(RemoveVia(keccak, m, ch[k[0]], d + 1, k[1..]), d + 1);
        if r.Left? then
          var ch2 := ch[k[0] := r.tree];
          Restructured(ch2, w, own, OnlyKey(keccak, m, ch2, k[0], r.key), d)
        else r
  }

  /** `t` is what is left. */
  predicate Leaves(r: Outcome, t: T.Tree, d: nat) {
    Sized(r, d) && r.tree == t
  }

  // ---------------------------------------------------------------------------------------------
  // When that is the trie without the key
  // ---------------------------------------------------------------------------------------------

  /**
    * Restructuring is right for a branch with a value if at least two children are left when the value does not count, and
    * if none or a single leaf is left when it does.
    */
  ghost predicate Survives(ch: seq<T.Tree>, w: Bytes, counts: bool) {
    w == [] || if counts then !T.SomeChild(ch) || exists i: nat :: T.IsOnlyChild(ch, i) && ch[i].Leaf? else T.TwoChildren(ch)
  }

  /**
    * Every branch on the way is restructured right, and the key does not end at a branch with two children and a value that
    * does not count.
    */
  ghost predicate Intact(keccak: Bytes -> H256, m: Store, t: T.Tree, k: T.Key)
    requires T.WF(t)
    decreases t
  {
    match t
    case Nil => true
    case Leaf(_, _) => true
    case Ext(p, c) => p <= k ==> Intact(keccak, m, c, k[|p|..])
    case Branch(ch, w) =>
      var counts := KeyOf(m, Hash(keccak, t)) != [];
      if k == [] then counts || w == [] || !T.TwoChildren(ch)
      else Intact(keccak, m, ch[k[0]], k[1..]) && Survives(ch[k[0] := T.Remove(ch[k[0]], k[1..])], w, counts)
  }

  /** A leaf that moves: its stored key, how deep its new place is, and what its suffix should be there. */
  datatype Move = Move(key: T.Key, depth: nat, suffix: T.Key)

  ghost function Moved(keccak: Bytes -> H256, m: Store, t: T.Tree, d: nat, k: T.Key): Option<Move>
    requires T.WF(t)
    decreases t
  {
    var r := T.Remove(t, k);
    match t
    case Nil => None
    case Leaf(_, _) => None
    case Ext(p, c) =>
      if !(p <= k) then None
      else
        var below := Moved(keccak, m, c, d + |p|, k[|p|..]);
        if r.Leaf? && below.Some? then Some(Move(below.value.key, d, r.suffix)) else below
    case Branch(ch, w) =>
      if r.Leaf? then
        var ch2 := if k == [] then ch else ch[k[0] := T.Remove(ch[k[0]], k[1..])];
        Some(Move(if k != [] && w != [] then KeyOf(m, Hash(keccak, t)) else OnlyKey(keccak, m, ch2, 16, []), d, r.suffix))
      else if k == [] then None
      else Moved(keccak, m, ch[k[0]], d + 1, k[1..])
  }

  /** The leaf that moves, if one does, is stored with a key that ends with its new suffix. */
  ghost predicate Aligned(keccak: Bytes -> H256, m: Store, t: T.Tree, d: nat, k: T.Key)
    requires T.WF(t)
  {
    var x := Moved(keccak, m, t, d, k);
    x.Some? ==> Fits(x.value.key, x.value.depth, x.value.suffix)
  }

  /** The leaf at the end of the walk is in place, every branch is restructured right, and the leaf that moves is aligned. */
  ghost predicate Removes(keccak: Bytes -> H256, m: Store, t: T.Tree, d: nat, k: T.Key)
    requires T.WF(t)
  {
    InPlace(keccak, m, t, d, k) && Intact(keccak, m, t, k) && Aligned(keccak, m, t, d, k)
  }

  lemma RestructuredAt(ch: seq<T.Tree>, w: Bytes, own: T.Key, key: T.Key, d: nat, i: nat)
    requires |ch| == 16 && T.IsOnlyChild(ch, i)
    ensures w != [] && own != [] ==>
              Restructured(ch, w, own, key, d) ==
              if ch[i].Leaf? then Left(T.Branch(ch, w), []) else if ch[i].Ext? then Panics else Garbled
    ensures !(w != [] && own != []) ==> Restructured(ch, w, own, key, d) == Left(JoinVia([i], ch[i], d, key), key)
  {
    hide JoinVia;
    forall j: nat | T.IsOnlyChild(ch, j)
      ensures j == i
    {
      T.OnlyChildUnique(ch, i, j);
    }
  }

  lemma OnlyKeyAt(keccak: Bytes -> H256, m: Store, ch: seq<T.Tree>, x: nat, key: T.Key, i: nat)
    requires T.IsOnlyChild(ch, i)
    ensures OnlyKey(keccak, m, ch, x, key) == if i == x then key else KeyOf(m, Hash(keccak, ch[i]))
  {
    hide Hash, KeyOf;
    forall j: nat | T.IsOnlyChild(ch, j)
      ensures j == i
    {
      T.OnlyChildUnique(ch, i, j);
    }
  }

  lemma RestructuredElse(ch: seq<T.Tree>, w: Bytes, own: T.Key, key: T.Key, d: nat)
    requires |ch| == 16 && (T.TwoChildren(ch) || !T.SomeChild(ch))
    ensures w != [] && own != [] ==> Restructured(ch, w, own, key, d) == Left(T.Leaf(Behind(own, d), w), own)
    ensures !(w != [] && own != []) && T.TwoChildren(ch) ==> Restructured(ch, w, own, key, d) == Left(T.Branch(ch, w), [])
    ensures !(w != [] && own != []) && !T.SomeChild(ch) ==> Restructured(ch, w, own, key, d) == Garbled
  {
    if T.TwoChildren(ch) {
      T.CollapseKeeps(ch);
      var i, j :| 0 <= i < j < |ch| && !ch[i].Nil? && !ch[j].Nil?;
      assert T.SomeChild(ch);
    } else {
      assert forall i: nat :: !T.IsOnlyChild(ch, i);
    }
  }

  /**
    * The exact condition for one branch: what is left is right if and only if its value survives and a leaf that moves is
    * stored with the right key.
    */
  lemma RestructuredRight(ch: seq<T.Tree>, w: Bytes, own: T.Key, key: T.Key, d: nat)
    requires T.Loose(ch, w)
    ensures Leaves(Restructured(ch, w, own, key, d), T.Collapse(ch, w), d) <==>
            && Survives(ch, w, own != [])
            && (w != [] && !T.SomeChild(ch) ==> Fits(own, d, []))
            && (w == [] ==> forall i: nat | T.IsOnlyChild(ch, i) && ch[i].Leaf? :: Fits(key, d, [i] + ch[i].suffix))
  {
    hide Restructured, T.Collapse;
    CollapseValue(ch, w);
    if !T.SomeChild(ch) {
      RestructuredElse(ch, w, own, key, d);
      NoOnlyChild(ch);
    } else {
      var i := T.OneOrTwo(ch);
      if T.IsOnlyChild(ch, i) {
        RestructuredAt(ch, w, own, key, d, i);
        OnlyChildMeans(ch, i);
        T.CollapseAt(ch, i);
        JoinViaRight([i], ch[i], d, key);
      } else {
        RestructuredElse(ch, w, own, key, d);
        T.CollapseKeeps(ch);
      }
    }
  }

  lemma CollapseValue(ch: seq<T.Tree>, w: Bytes)
    requires |ch| == 16
    ensures w != [] ==> T.Collapse(ch, w) == if T.SomeChild(ch) then T.Branch(ch, w) else T.Leaf([], w)
  {
  }

  lemma NoOnlyChild(ch: seq<T.Tree>)
    requires !T.SomeChild(ch)
    ensures !T.TwoChildren(ch) && forall i: nat :: !T.IsOnlyChild(ch, i)
  {
  }

  lemma OnlyChildMeans(ch: seq<T.Tree>, i: nat)
    requires T.IsOnlyChild(ch, i)
    ensures T.SomeChild(ch) && !T.TwoChildren(ch) && forall j: nat | T.IsOnlyChild(ch, j) :: j == i
  {
    forall j: nat | T.IsOnlyChild(ch, j)
      ensures j == i
    {
      T.OnlyChildUnique(ch, i, j);
    }
  }

  lemma JoinViaRight(p: T.Key, t: T.Tree, d: nat, key: T.Key)
    ensures JoinVia(p, t, d, key) == T.Join(p, t) <==> (t.Leaf? ==> Behind(key, d) == p + t.suffix)
    ensures !JoinVia(p, t, d, key).Branch? && (JoinVia(p, t, d, key).Nil? <==> t.Nil?)
  {
  }

  lemma RestructuredWF(ch: seq<T.Tree>, w: Bytes, own: T.Key, key: T.Key, d: nat)
    requires |ch| == 16 && (forall i | 0 <= i < 16 :: T.WF(ch[i])) && Restructured(ch, w, own, key, d).Left?
    ensures T.WF(Restructured(ch, w, own, key, d).tree) && !Restructured(ch, w, own, key, d).tree.Nil?
  {
    hide Restructured;
    if T.SomeChild(ch) {
      var i := T.OneOrTwo(ch);
      if T.IsOnlyChild(ch, i) {
        RestructuredAt(ch, w, own, key, d, i);
        T.JoinWF([i], ch[i]);
      } else {
        RestructuredElse(ch, w, own, key, d);
      }
    } else {
      RestructuredElse(ch, w, own, key, d);
    }
  }

  /** What is left is canonical; only a leaf can be gone. */
  lemma {:induction false} ViaWF(keccak: Bytes -> H256, m: Store, t: T.Tree, d: nat, k: T.Key)
    requires T.WF(t) && RemoveVia(keccak, m, t, d, k).Left?
    ensures T.WF(RemoveVia(keccak, m, t, d, k).tree)
    ensures RemoveVia(keccak, m, t, d, k).tree.Nil? ==> t.Nil? || t.Leaf?
    decreases t
  {
    hide Restructured, Hash, KeyOf, OnlyKey;
    match t
    case Nil =>
    case Leaf(_, _) =>
    case Ext(p, c) =>
      if p <= k {
        var r := RemoveVia(keccak, m, c, d + |p|, k[|p|..]);
        ViaWF(keccak, m, c, d + |p|, k[|p|..]);
        T.JoinWF(p, r.tree);
        JoinViaRight(p, r.tree, d, r.key);
      }
    case Branch(ch, w) =>
      var own := KeyOf(m, Hash(keccak, t));
      if k == [] {
        RestructuredWF(ch, if own != [] then [] else w, own, OnlyKey(keccak, m, ch, 16, []), d);
      } else {
        var r := RemoveVia(keccak, m, ch[k[0]], d + 1, k[1..]);
        ViaWF(keccak, m, ch[k[0]], d + 1, k[1..]);
        var ch2 := ch[k[0] := r.tree];
        RestructuredWF(ch2, w, own, OnlyKey(keccak, m, ch2, k[0], r.key), d);
      }
  }

  /** A leaf that is left has the suffix that its stored key gives it, and stored keys are whole bytes. */
  predicate Keyed(t: T.Tree, d: nat, key: T.Key) {
    t.Leaf? ==> t.suffix == Behind(key, d) && |key| % 2 == 0
  }

  lemma KeyOfEven(m: Store, h: NodeHash)
    ensures |KeyOf(m, h)| % 2 == 0
  {
    NibsLength(PathOf(m, h));
  }

  lemma OnlyKeyEven(keccak: Bytes -> H256, m: Store, ch: seq<T.Tree>, x: nat, key: T.Key)
    requires |ch| == 16 && (x < 16 && ch[x].Leaf? ==> |key| % 2 == 0)
    ensures forall i: nat | T.IsOnlyChild(ch, i) && ch[i].Leaf? :: |OnlyKey(keccak, m, ch, x, key)| % 2 == 0
  {
    hide Hash, KeyOf, OnlyKey;
    forall i: nat | T.IsOnlyChild(ch, i) && ch[i].Leaf?
      ensures |OnlyKey(keccak, m, ch, x, key)| % 2 == 0
    {
      OnlyKeyAt(keccak, m, ch, x, key, i);
      KeyOfEven(m, Hash(keccak, ch[i]));
    }
  }

  lemma RestructuredKeyed(ch: seq<T.Tree>, w: Bytes, own: T.Key, key: T.Key, d: nat)
    requires |ch| == 16 && |own| % 2 == 0 && Restructured(ch, w, own, key, d).Left?
    requires forall i: nat | T.IsOnlyChild(ch, i) && ch[i].Leaf? :: |key| % 2 == 0
    ensures Keyed(Restructured(ch, w, own, key, d).tree, d, Restructured(ch, w, own, key, d).key)
  {
    hide Restructured, Behind;
    if T.SomeChild(ch) {
      var i := T.OneOrTwo(ch);
      if T.IsOnlyChild(ch, i) {
        RestructuredAt(ch, w, own, key, d, i);
      } else {
        RestructuredElse(ch, w, own, key, d);
      }
    } else {
      RestructuredElse(ch, w, own, key, d);
    }
  }

  lemma {:induction false} ViaKeyed(keccak: Bytes -> H256, m: Store, t: T.Tree, d: nat, k: T.Key)
    requires T.WF(t) && RemoveVia(keccak, m, t, d, k).Left?
    ensures Keyed(RemoveVia(keccak, m, t, d, k).tree, d, RemoveVia(keccak, m, t, d, k).key)
    decreases t
  {
    hide Restructured, Hash, KeyOf, OnlyKey;
    KeyOfEven(m, Hash(keccak, t));
    match t
    case Nil =>
    case Leaf(_, _) =>
    case Ext(p, c) =>
      if p <= k {
        ViaKeyed(keccak, m, c, d + |p|, k[|p|..]);
      }
    case Branch(ch, w) =>
      var own := KeyOf(m, Hash(keccak, t));
      if k == [] {
        OnlyKeyEven(keccak, m, ch, 16, []);
        RestructuredKeyed(ch, if own != [] then [] else w, own, OnlyKey(keccak, m, ch, 16, []), d);
      } else {
        var r := RemoveVia(keccak, m, ch[k[0]], d + 1, k[1..]);
        ViaKeyed(keccak, m, ch[k[0]], d + 1, k[1..]);
        var ch2 := ch[k[0] := r.tree];
        OnlyKeyEven(keccak, m, ch2, k[0], r.key);
        RestructuredKeyed(ch2, w, own, OnlyKey(keccak, m, ch2, k[0], r.key), d);
      }
  }

  lemma JoinInjective(p: T.Key, a: T.Tree, b: T.Tree)
    requires T.WF(a) && T.WF(b)
    ensures T.Join(p, a) == T.Join(p, b) <==> a == b
  {
    if a.Leaf? && b.Leaf? {
      assert (p + a.suffix)[|p|..] == a.suffix && (p + b.suffix)[|p|..] == b.suffix;
    } else if a.Ext? && b.Ext? {
      assert (p + a.prefix)[|p|..] == a.prefix && (p + b.prefix)[|p|..] == b.prefix;
    } else if a.Ext? && b.Branch? {
      assert |p + a.prefix| != |p|;
    } else if a.Branch? && b.Ext? {
      assert |p + b.prefix| != |p|;
    }
  }

  lemma RemovedLeaf(t: T.Tree, k: T.Key)
    requires T.WF(t) && T.Remove(t, k).Nil?
    ensures t.Nil? || t.Leaf?
  {
    T.RemoveWF(t, k);
  }

  /** A child that changes is not the only one unless the branch has a value. */
  lemma OtherChild(ch: seq<T.Tree>, w: Bytes, x: nibble)
    requires T.WF(T.Branch(ch, w)) && w == []
    ensures exists o | 0 <= o < 16 && o != x :: !ch[o].Nil?
  {
  }

  /** When a branch gives way to a leaf, the child that changed is gone. */
  lemma NothingElse(ch: seq<T.Tree>, w: Bytes, k: T.Key, b: T.Tree)
    requires T.WF(T.Branch(ch, w)) && k != [] && T.WF(b) && T.Collapse(ch[k[0] := b], w).Leaf?
    ensures b.Nil?
  {
    var ch2 := ch[k[0] := b];
    assert ch2[k[0]] == b;
    if w == [] {
      OtherChild(ch, w, k[0]);
      var o :| 0 <= o < 16 && o != k[0] && !ch[o].Nil?;
      assert ch2[o] == ch[o];
      var i := T.OneOrTwo(ch2);
      if T.IsOnlyChild(ch2, i) {
      } else {
        T.CollapseKeeps(ch2);
      }
    }
  }

  lemma SameOnlyKey(keccak: Bytes -> H256, m: Store, ch: seq<T.Tree>, x: nat, key: T.Key)
    requires |ch| == 16 && x < 16 && ch[x].Nil?
    ensures OnlyKey(keccak, m, ch, x, key) == OnlyKey(keccak, m, ch, 16, [])
  {
    hide Hash, KeyOf;
    if i: nat :| T.IsOnlyChild(ch, i) {
      OnlyKeyAt(keccak, m, ch, x, key, i);
      OnlyKeyAt(keccak, m, ch, 16, [], i);
    }
  }

  /** A branch that gives way to the right leaf is left with the key of the leaf that moves. */
  lemma KeyLeft(keccak: Bytes -> H256, m: Store, t: T.Tree, d: nat, k: T.Key)
    requires T.WF(t) && t.Branch? && T.Remove(t, k).Leaf? && Leaves(RemoveVia(keccak, m, t, d, k), T.Remove(t, k), d)
    ensures Moved(keccak, m, t, d, k) == Some(Move(RemoveVia(keccak, m, t, d, k).key, d, T.Remove(t, k).suffix))
  {
    hide Restructured, Hash, KeyOf, OnlyKey, T.Collapse, Behind;
    var ch, w, own := t.children, t.value, KeyOf(m, Hash(keccak, t));
    if k == [] {
      T.BareLoose(ch, w);
      KeyTaken(ch, if own != [] then [] else w, own, OnlyKey(keccak, m, ch, 16, []), d);
    } else {
      var x, b := k[0], T.Remove(ch[k[0]], k[1..]);
      T.RemoveWF(ch[x], k[1..]);
      NothingElse(ch, w, k, b);
      ChildRight(keccak, m, t, d, k);
      KeyTaken(ch[x := b], w, own, OnlyKey(keccak, m, ch[x := b], x, []), d);
      SameOnlyKey(keccak, m, ch[x := b], x, RemoveVia(keccak, m, ch[x], d + 1, k[1..]).key);
      SameOnlyKey(keccak, m, ch[x := b], x, []);
      if w != [] {
        EmptyBranch(ch[x := b], w);
      }
    }
  }

  lemma EmptyBranch(ch: seq<T.Tree>, w: Bytes)
    requires |ch| == 16 && w != [] && T.Collapse(ch, w).Leaf?
    ensures !T.SomeChild(ch)
  {
  }

  lemma KeyTaken(ch: seq<T.Tree>, w: Bytes, own: T.Key, key: T.Key, d: nat)
    requires |ch| == 16
    ensures var r := Restructured(ch, w, own, key, d);
            r.Left? && r.tree.Leaf? ==> r.key == if w != [] && own != [] then own else key
    ensures w != [] && !T.SomeChild(ch) && Restructured(ch, w, own, key, d).Left? ==> own != []
  {
    hide Restructured, Behind;
    if T.SomeChild(ch) {
      var i := T.OneOrTwo(ch);
      if T.IsOnlyChild(ch, i) {
        RestructuredAt(ch, w, own, key, d, i);
      } else {
        RestructuredElse(ch, w, own, key, d);
      }
    } else {
      RestructuredElse(ch, w, own, key, d);
    }
  }

  /** What is left of a branch is right only if what is left of the child is. */
  lemma ChildRight(keccak: Bytes -> H256, m: Store, t: T.Tree, d: nat, k: T.Key)
    requires T.WF(t) && t.Branch? && k != [] && Leaves(RemoveVia(keccak, m, t, d, k), T.Remove(t, k), d)
    ensures Leaves(RemoveVia(keccak, m, t.children[k[0]], d + 1, k[1..]), T.Remove(t.children[k[0]], k[1..]), d + 1)
  {
    hide Restructured, Hash, KeyOf, OnlyKey, T.Collapse, Behind;
    var ch, w, x, c := t.children, t.value, k[0], t.children[k[0]];
    var r, b := RemoveVia(keccak, m, c, d + 1, k[1..]), T.Remove(c, k[1..]);
    T.RemoveWF(c, k[1..]);
    assert r.Left? && Sized(r, d + 1);
    if r.tree != b {
      ViaWF(keccak, m, c, d + 1, k[1..]);
      var ch2 := ch[x := r.tree];
      if T.IsOnlyChild(ch2, x) {
        OnlyKeyAt(keccak, m, ch2, x, r.key, x);
      }
      StaysWrong(ch, w, x, r.tree, b, KeyOf(m, Hash(keccak, t)), OnlyKey(keccak, m, ch2, x, r.key), d);
    }
  }

  /**
    * Main law of removal: what is left is the trie without the key if and only if the leaf at the end of the walk is stored
    * with a key of the length its place asks for, every branch on the way is restructured right and the leaf that moves, if
    * one does, is stored with a key that ends with the nibbles of its new place.
    */
  lemma {:induction false} RemoveViaIsRemove(
    keccak: Bytes -> H256, keys: iset<Binding>, m: Store, t: T.Tree, d: nat, k: T.Key)
    requires T.WF(t) && Stored(keccak, keys, m, t, d)
    ensures Leaves(RemoveVia(keccak, m, t, d, k), T.Remove(t, k), d) <==> Removes(keccak, m, t, d, k)
    decreases t
  {
    hide Restructured, Hash, KeyOf, OnlyKey, Survives, Removes, RemoveVia, Found;
    match t
    case Nil => NothingRemoved(keccak, m, d, k);
    case Leaf(_, _) => LeafRight(keccak, keys, m, t, d, k);
    case Ext(p, c) =>
      if p <= k {
        RemoveViaIsRemove(keccak, keys, m, c, d + |p|, k[|p|..]);
        ExtensionRight(keccak, m, t, d, k);
      } else {
        ExtensionStays(keccak, m, t, d, k);
      }
    case Branch(ch, w) =>
      if k == [] {
        OwnValueRight(keccak, m, t, d);
      } else {
        RemoveViaIsRemove(keccak, keys, m, ch[k[0]], d + 1, k[1..]);
        BranchRight(keccak, m, t, d, k);
      }
  }

  lemma NothingRemoved(keccak: Bytes -> H256, m: Store, d: nat, k: T.Key)
    ensures T.WF(T.Nil) && RemoveVia(keccak, m, T.Nil, d, k) == Left(T.Nil, []) && Removes(keccak, m, T.Nil, d, k)
  {
  }

  lemma ExtensionStays(keccak: Bytes -> H256, m: Store, t: T.Tree, d: nat, k: T.Key)
    requires T.WF(t) && t.Ext? && !(t.prefix <= k)
    ensures RemoveVia(keccak, m, t, d, k) == Left(t, []) && T.Remove(t, k) == t && Removes(keccak, m, t, d, k)
  {
  }

  /** A leaf is compared right if and only if it is in place. */
  lemma LeafRight(keccak: Bytes -> H256, keys: iset<Binding>, m: Store, t: T.Tree, d: nat, k: T.Key)
    requires T.WF(t) && t.Leaf? && Stored(keccak, keys, m, t, d)
    ensures Leaves(RemoveVia(keccak, m, t, d, k), T.Remove(t, k), d) <==> Removes(keccak, m, t, d, k)
  {
    hide Hash, Nibs, PathOf, Stored, Resolve;
    StopStored(keccak, keys, m, t, d, k);
    SeenLeaf(keccak, m, t, d, k);
    NibsLength(PathOf(m, Hash(keccak, t)));
  }

  lemma InPlaceBehind(keccak: Bytes -> H256, m: Store, t: T.Tree, d: nat, k: T.Key)
    requires t.Ext? && t.prefix <= k
    ensures InPlace(keccak, m, t, d, k) <==> InPlace(keccak, m, t.child, d + |t.prefix|, k[|t.prefix|..])
  {
    hide Hash, PathOf;
  }

  lemma InPlaceChild(keccak: Bytes -> H256, m: Store, t: T.Tree, d: nat, k: T.Key)
    requires t.Branch? && |t.children| == 16 && k != []
    ensures InPlace(keccak, m, t, d, k) <==> InPlace(keccak, m, t.children[k[0]], d + 1, k[1..])
  {
    hide Hash, PathOf;
  }

  lemma ExtensionRight(keccak: Bytes -> H256, m: Store, t: T.Tree, d: nat, k: T.Key)
    requires T.WF(t) && t.Ext? && t.prefix <= k
    requires var n, q := |t.prefix|, k[|t.prefix|..];
             Leaves(RemoveVia(keccak, m, t.child, d + n, q), T.Remove(t.child, q), d + n) <==>
             Removes(keccak, m, t.child, d + n, q)
    ensures Leaves(RemoveVia(keccak, m, t, d, k), T.Remove(t, k), d) <==> Removes(keccak, m, t, d, k)
  {
    hide Restructured, Hash, KeyOf, OnlyKey, Survives, T.Collapse, InPlace;
    var p, c, q := t.prefix, t.child, k[|t.prefix|..];
    var r, b := RemoveVia(keccak, m, c, d + |p|, q), T.Remove(c, q);
    InPlaceBehind(keccak, m, t, d, k);
    T.RemoveWF(c, q);
    if r.Left? {
      ViaWF(keccak, m, c, d + |p|, q);
      ViaKeyed(keccak, m, c, d + |p|, q);
      JoinedRight(p, r, b, d);
    }
    if b.Leaf? {
      MoveOnwards(keccak, m, t, d, k);
      if Leaves(r, b, d + |p|) {
        KeyLeft(keccak, m, c, d + |p|, q);
      }
    }
  }

  /** A prefix does not make up for a child that is wrong. */
  lemma JoinedRight(p: T.Key, r: Outcome, b: T.Tree, d: nat)
    requires r.Left? && Keyed(r.tree, d + |p|, r.key) && T.WF(r.tree) && !r.tree.Nil? && T.WF(b) && !b.Nil?
    ensures Leaves(Left(JoinVia(p, r.tree, d, r.key), r.key), T.Join(p, b), d) <==>
            Leaves(r, b, d + |p|) && (b.Leaf? ==> Fits(r.key, d, p + b.suffix))
  {
    if r.tree.Leaf? {
      if b.Leaf? && Fits(r.key, d, p + b.suffix) {
        assert r.key[d + |p|..] == r.key[d..][|p|..] == b.suffix;
      }
    } else {
      JoinInjective(p, r.tree, b);
    }
  }

  lemma MoveOnwards(keccak: Bytes -> H256, m: Store, t: T.Tree, d: nat, k: T.Key)
    requires T.WF(t) && t.Ext? && t.prefix <= k && T.Remove(t.child, k[|t.prefix|..]).Leaf?
    ensures var n, q := |t.prefix|, k[|t.prefix|..];
            var x := Moved(keccak, m, t.child, d + n, q);
            && x.Some? && Moved(keccak, m, t, d, k) == Some(Move(x.value.key, d, T.Remove(t, k).suffix))
            && (Aligned(keccak, m, t, d, k) ==> Aligned(keccak, m, t.child, d + n, q))
  {
    hide Hash, KeyOf, OnlyKey, T.Collapse;
    var n, q := |t.prefix|, k[|t.prefix|..];
    var x := Moved(keccak, m, t.child, d + n, q).value;
    if Aligned(keccak, m, t, d, k) {
      assert x.key[d + n..] == x.key[d..][n..] == x.suffix;
    }
  }

  lemma OwnValueRight(keccak: Bytes -> H256, m: Store, t: T.Tree, d: nat)
    requires T.WF(t) && t.Branch?
    ensures Leaves(RemoveVia(keccak, m, t, d, []), T.Remove(t, []), d) <==> Removes(keccak, m, t, d, [])
  {
    hide Restructured, Hash, KeyOf, OnlyKey, Survives, T.Collapse;
    var ch, w := t.children, t.value;
    var own, key := KeyOf(m, Hash(keccak, t)), OnlyKey(keccak, m, ch, 16, []);
    T.BareLoose(ch, w);
    var i := T.OneOrTwo(ch);
    if T.IsOnlyChild(ch, i) {
      OnlyChildMeans(ch, i);
      T.CollapseAt(ch, i);
      RestructuredAt(ch, [], own, key, d, i);
      RestructuredAt(ch, w, own, key, d, i);
      JoinViaRight([i], ch[i], d, key);
    } else {
      T.CollapseKeeps(ch);
      RestructuredElse(ch, [], own, key, d);
      RestructuredElse(ch, w, own, key, d);
    }
  }

  lemma BranchRight(keccak: Bytes -> H256, m: Store, t: T.Tree, d: nat, k: T.Key)
    requires T.WF(t) && t.Branch? && k != []
    requires var c := t.children[k[0]];
             Leaves(RemoveVia(keccak, m, c, d + 1, k[1..]), T.Remove(c, k[1..]), d + 1) <==> Removes(keccak, m, c, d + 1, k[1..])
    ensures Leaves(RemoveVia(keccak, m, t, d, k), T.Remove(t, k), d) <==> Removes(keccak, m, t, d, k)
  {
    hide Restructured, Hash, KeyOf, OnlyKey, Survives, T.Collapse, Fits, InPlace;
    var ch, w, x, c := t.children, t.value, k[0], t.children[k[0]];
    var own := KeyOf(m, Hash(keccak, t));
    var r, b := RemoveVia(keccak, m, c, d + 1, k[1..]), T.Remove(c, k[1..]);
    T.RemoveWF(c, k[1..]);
    T.RemoveLoose(ch, w, x, b);
    InPlaceChild(keccak, m, t, d, k);
    AlignedBelow(keccak, m, t, d, k);
    if Leaves(r, b, d + 1) {
      var key := OnlyKey(keccak, m, ch[x := b], x, r.key);
      RestructuredRight(ch[x := b], w, own, key, d);
      AlignedHere(keccak, m, t, d, k, r.key);
    } else if Leaves(RemoveVia(keccak, m, t, d, k), T.Remove(t, k), d) {
      ChildRight(keccak, m, t, d, k);
    }
  }

  lemma AlignedBelow(keccak: Bytes -> H256, m: Store, t: T.Tree, d: nat, k: T.Key)
    requires T.WF(t) && t.Branch? && k != []
    ensures T.Remove(t, k).Leaf? ==>
              T.Remove(t.children[k[0]], k[1..]).Nil? && Aligned(keccak, m, t.children[k[0]], d + 1, k[1..])
    ensures !T.Remove(t, k).Leaf? ==>
              (Aligned(keccak, m, t, d, k) <==> Aligned(keccak, m, t.children[k[0]], d + 1, k[1..]))
  {
    hide Hash, KeyOf, OnlyKey, T.Collapse, Fits;
    if T.Remove(t, k).Leaf? {
      var b := T.Remove(t.children[k[0]], k[1..]);
      T.RemoveWF(t.children[k[0]], k[1..]);
      NothingElse(t.children, t.value, k, b);
      RemovedLeaf(t.children[k[0]], k[1..]);
    }
  }

  lemma AlignedHere(keccak: Bytes -> H256, m: Store, t: T.Tree, d: nat, k: T.Key, key: T.Key)
    requires T.WF(t) && t.Branch? && k != [] && Aligned(keccak, m, t.children[k[0]], d + 1, k[1..])
    ensures var ch := t.children[k[0] := T.Remove(t.children[k[0]], k[1..])];
            var only := OnlyKey(keccak, m, ch, k[0], key);
            Aligned(keccak, m, t, d, k) <==>
            && (t.value != [] && !T.SomeChild(ch) ==> Fits(KeyOf(m, Hash(keccak, t)), d, []))
            && (t.value == [] ==> forall i: nat | T.IsOnlyChild(ch, i) && ch[i].Leaf? :: Fits(only, d, [i] + ch[i].suffix))
  {
    hide Hash, KeyOf, OnlyKey, Fits, T.Collapse;
    var b := T.Remove(t.children[k[0]], k[1..]);
    var ch := t.children[k[0] := b];
    AlignedBelow(keccak, m, t, d, k);
    CollapseValue(ch, t.value);
    T.RemoveWF(t.children[k[0]], k[1..]);
    T.RemoveLoose(t.children, t.value, k[0], b);
    if t.value == [] {
      var i := T.OneOrTwo(ch);
      if T.IsOnlyChild(ch, i) {
        T.CollapseAt(ch, i);
        OnlyChildMeans(ch, i);
        if b.Nil? {
          SameOnlyKey(keccak, m, ch, k[0], key);
        }
      } else {
        T.CollapseKeeps(ch);
      }
    }
  }

  /** A branch does not make up for a child that is wrong. */
  lemma StaysWrong(ch: seq<T.Tree>, w: Bytes, x: nibble, a: T.Tree, b: T.Tree, own: T.Key, key: T.Key, d: nat)
    requires T.WF(T.Branch(ch, w)) && T.WF(a) && T.WF(b) && a != b
    requires T.IsOnlyChild(ch[x := a], x) && a.Leaf? ==> d < |key|
    ensures !Leaves(Restructured(ch[x := a], w, own, key, d), T.Collapse(ch[x := b], w), d)
  {
    hide Restructured, T.Collapse;
    var ca, cb := ch[x := a], ch[x := b];
    assert ca[x] == a && cb[x] == b;
    CollapseValue(cb, w);
    if !b.Nil? {
      assert T.SomeChild(cb);
      NotThatBranch(ca, w, own, key, d, cb);
      if w == [] {
        StillTwo(ch, w, x, b);
        T.CollapseKeeps(cb);
      }
    } else if w == [] {
      StillTwo(ch, w, x, a);
      RestructuredElse(ca, w, own, key, d);
      CollapsedDiffers(ca, cb);
    } else {
      StaysWrongBelow(ch, w, x, a, own, key, d);
    }
  }

  lemma NotThatBranch(ca: seq<T.Tree>, w: Bytes, own: T.Key, key: T.Key, d: nat, cb: seq<T.Tree>)
    requires |ca| == 16 && ca != cb
    ensures !Leaves(Restructured(ca, w, own, key, d), T.Branch(cb, w), d)
  {
    hide Restructured;
    if T.SomeChild(ca) {
      var i := T.OneOrTwo(ca);
      if T.IsOnlyChild(ca, i) {
        RestructuredAt(ca, w, own, key, d, i);
        JoinViaRight([i], ca[i], d, key);
      } else {
        RestructuredElse(ca, w, own, key, d);
      }
    } else {
      RestructuredElse(ca, w, own, key, d);
    }
  }

  lemma CollapsedDiffers(ca: seq<T.Tree>, cb: seq<T.Tree>)
    requires |cb| == 16 && ca != cb
    ensures T.Collapse(cb, []) != T.Branch(ca, [])
  {
    if T.SomeChild(cb) {
      var i := T.OneOrTwo(cb);
      if T.IsOnlyChild(cb, i) {
        T.CollapseAt(cb, i);
      } else {
        T.CollapseKeeps(cb);
      }
    }
  }

  /** The child should be gone and is not. */
  lemma StaysWrongBelow(ch: seq<T.Tree>, w: Bytes, x: nibble, a: T.Tree, own: T.Key, key: T.Key, d: nat)
    requires T.WF(T.Branch(ch, w)) && w != [] && !a.Nil?
    requires T.IsOnlyChild(ch[x := a], x) && a.Leaf? ==> d < |key|
    ensures !Leaves(Restructured(ch[x := a], w, own, key, d), T.Collapse(ch[x := T.Nil], w), d)
  {
    hide Restructured, T.Collapse;
    var ca, cb := ch[x := a], ch[x := T.Nil];
    assert ca[x] == a && cb[x] == T.Nil;
    CollapseValue(cb, w);
    var i := T.OneOrTwo(ca);
    if T.IsOnlyChild(ca, i) {
      assert i == x;
      RestructuredAt(ca, w, own, key, d, i);
      assert forall j | 0 <= j < 16 && j != x :: cb[j] == ca[j] == T.Nil;
      assert forall j | 0 <= j < 16 :: cb[j].Nil?;
    } else {
      RestructuredElse(ca, w, own, key, d);
      OneLess(ca, x);
      assert cb == ca[x := T.Nil];
    }
  }

  lemma OneLess(ch: seq<T.Tree>, x: nibble)
    requires |ch| == 16 && T.TwoChildren(ch)
    ensures T.SomeChild(ch[x := T.Nil])
  {
    var i, j :| 0 <= i < j < |ch| && !ch[i].Nil? && !ch[j].Nil?;
    var o := if i == x then j else i;
    assert ch[x := T.Nil][o] == ch[o];
  }

  lemma StillTwo(ch: seq<T.Tree>, w: Bytes, x: nibble, a: T.Tree)
    requires T.WF(T.Branch(ch, w)) && w == [] && !a.Nil?
    ensures T.TwoChildren(ch[x := a])
  {
    OtherChild(ch, w, x);
    var o :| 0 <= o < 16 && o != x && !ch[o].Nil?;
    var ca := ch[x := a];
    assert ca[o] == ch[o] && ca[x] == a;
    var i, j := if o < x then o else x, if o < x then x else o;
    assert !ca[i].Nil? && !ca[j].Nil?;
  }

  /** `r` holds what `t` holds except for the key. */
  ghost predicate LosesOnly(t: T.Tree, k: T.Key, r: T.Tree) {
    forall q :: T.Lookup(r, q) == if q == k then None else T.Lookup(t, q)
  }

  /** The contents lose the key and nothing else under exactly the same condition. */
  lemma RemovesOnlyKey(keccak: Bytes -> H256, keys: iset<Binding>, m: Store, t: T.Tree, k: T.Key)
    requires T.WF(t) && Stored(keccak, keys, m, t, 0)
    ensures var r := RemoveVia(keccak, m, t, 0, k);
            r.Left? && LosesOnly(t, k, r.tree) <==> Removes(keccak, m, t, 0, k)
  {
    hide Removes, RemoveVia, T.Remove, T.Lookup, T.WF, Stored;
    RemoveViaIsRemove(keccak, keys, m, t, 0, k);
    var r, s := RemoveVia(keccak, m, t, 0, k), T.Remove(t, k);
    T.RemoveWF(t, k);
    forall q
      ensures T.Lookup(s, q) == if q == k then None else T.Lookup(t, q)
    {
      T.LookupRemove(t, k, q);
    }
    assert LosesOnly(t, k, s);
    if r.Left? && LosesOnly(t, k, r.tree) {
      ViaWF(keccak, m, t, 0, k);
      assert T.Agree(r.tree, s);
      T.Canonical(r.tree, s);
    }
  }

  /** What a garbled branch loses: a key below the only child is no longer found, whatever is bound to it. */
  lemma GarbledLoses(ch: seq<T.Tree>, w: Bytes, i: nibble, q: T.Key)
    requires |ch| == 16 && ch[i].Branch? && T.WF(ch[i]) && q != [] && q[0] == i
    requires T.Lookup(T.Branch(ch, w), q).Some?
    ensures T.Lookup(T.Branch(ch[i := T.Ext([i], ch[i])], w), [i] + q) == T.Lookup(T.Branch(ch, w), q)
    ensures |q| < 2 || q[1] != i ==> T.Lookup(T.Branch(ch[i := T.Ext([i], ch[i])], w), q) == None
  {
    var g := T.Branch(ch[i := T.Ext([i], ch[i])], w);
    assert ([i] + q)[1..] == q && q[|[i]|..] == q[1..];
    assert [i] <= q;
    assert T.Lookup(T.Ext([i], ch[i]), q) == T.Lookup(ch[i], q[1..]);
  }

  // ---------------------------------------------------------------------------------------------
  // The operations on the store
  // ---------------------------------------------------------------------------------------------

  /** What `remove` of a node ends with; the callers of a branch that is left broken are not followed. */
  datatype Removal = Done(node: Option<Node>) | Failed | Broken(branch: Node)

  /** Every subtrie that the removal rebuilds and hashes on its way up is known. */
  ghost predicate KnownSteps(keccak: Bytes -> H256, u: iset<Bytes>, m: Store, t: T.Tree, d: nat, k: T.Key)
    requires T.WF(t)
    decreases t
  {
    && (Sized(RemoveVia(keccak, m, t, d, k), d) ==> Known(keccak, u, RemoveVia(keccak, m, t, d, k).tree))
    && match t
       case Nil => true
       case Leaf(_, _) => true
       case Ext(p, c) => p <= k ==> KnownSteps(keccak, u, m, c, d + |p|, k[|p|..])
       case Branch(ch, _) => k != [] ==> KnownSteps(keccak, u, m, ch[k[0]], d + 1, k[1..])
  }

  /** The value a removal returns: a leaf is compared by its stored key, and a branch without one returns nothing. */
  function RemovedVia(keccak: Bytes -> H256, m: Store, t: T.Tree, d: nat, k: T.Key): Option<Bytes>
    decreases t
  {
    match t
    case Nil => None
    case Leaf(_, w) => if Fits(KeyOf(m, Hash(keccak, t)), d, k) then Some(w) else None
    case Ext(p, c) => if p <= k then RemovedVia(keccak, m, c, d + |p|, k[|p|..]) else None
    case Branch(ch, w) =>
      if k == [] then (if KeyOf(m, Hash(keccak, t)) != [] then T.Own(w) else None)
      else if k[0] < |ch| then RemovedVia(keccak, m, ch[k[0]], d + 1, k[1..])
      else None
  }

  /** The walk does not end at a branch that is stored without a key. */
  predicate Owned(keccak: Bytes -> H256, m: Store, t: T.Tree, k: T.Key) {
    match t
    case Nil => true
    case Leaf(_, _) => true
    case Ext(p, c) => p <= k ==> Owned(keccak, m, c, k[|p|..])
    case Branch(ch, _) =>
      if k == [] then KeyOf(m, Hash(keccak, t)) != [] else k[0] < |ch| ==> Owned(keccak, m, ch[k[0]], k[1..])
  }

  /** The value that a bound key had is returned if and only if its leaf is in place, or its branch is stored with a key. */
  lemma {:induction false} RemovedRight(keccak: Bytes -> H256, keys: iset<Binding>, m: Store, t: T.Tree, d: nat, k: T.Key)
    requires T.WF(t) && Stored(keccak, keys, m, t, d) && T.Lookup(t, k).Some?
    ensures RemovedVia(keccak, m, t, d, k) == T.Lookup(t, k) <==> InPlace(keccak, m, t, d, k) && Owned(keccak, m, t, k)
    decreases t
  {
    hide Hash, KeyOf, PathOf, InPlace, Found;
    match t
    case Leaf(_, _) => LeafRemoved(keccak, keys, m, t, d, k);
    case Ext(p, c) =>
      InPlaceBehind(keccak, m, t, d, k);
      RemovedRight(keccak, keys, m, c, d + |p|, k[|p|..]);
    case Branch(ch, _) =>
      if k == [] {
        NoStop(keccak, m, t, d);
      } else {
        InPlaceChild(keccak, m, t, d, k);
        RemovedRight(keccak, keys, m, ch[k[0]], d + 1, k[1..]);
      }
  }

  lemma NoStop(keccak: Bytes -> H256, m: Store, t: T.Tree, d: nat)
    requires t.Branch?
    ensures InPlace(keccak, m, t, d, [])
  {
  }

  lemma LeafRemoved(keccak: Bytes -> H256, keys: iset<Binding>, m: Store, t: T.Tree, d: nat, k: T.Key)
    requires t.Leaf? && Stored(keccak, keys, m, t, d) && T.Lookup(t, k).Some?
    ensures RemovedVia(keccak, m, t, d, k) == T.Lookup(t, k) <==> InPlace(keccak, m, t, d, k)
  {
    hide Hash, Nibs, PathOf, Stored, Resolve;
    StopStored(keccak, keys, m, t, d, k);
    SeenLeaf(keccak, m, t, d, k);
    NibsLength(PathOf(m, Hash(keccak, t)));
  }

  lemma RestructuredPlaced(ch: seq<T.Tree>, w: Bytes, own: T.Key, key: T.Key, d: nat)
    requires |ch| == 16 && T.Placed(T.Branch(ch, w), d) && |own| % 2 == 0 && Sized(Restructured(ch, w, own, key, d), d)
    requires forall i: nat | T.IsOnlyChild(ch, i) && ch[i].Leaf? :: |key| % 2 == 0
    ensures T.Placed(Restructured(ch, w, own, key, d).tree, d)
  {
    hide Restructured;
    if T.SomeChild(ch) {
      var i := T.OneOrTwo(ch);
      if T.IsOnlyChild(ch, i) {
        RestructuredAt(ch, w, own, key, d, i);
      } else {
        RestructuredElse(ch, w, own, key, d);
      }
    } else {
      RestructuredElse(ch, w, own, key, d);
    }
  }

  /** What is left hangs at its place. */
  lemma {:induction false} ViaPlaced(keccak: Bytes -> H256, m: Store, t: T.Tree, d: nat, k: T.Key)
    requires T.WF(t) && T.Placed(t, d) && Sized(RemoveVia(keccak, m, t, d, k), d)
    ensures T.Placed(RemoveVia(keccak, m, t, d, k).tree, d)
    decreases t
  {
    hide Restructured, Hash, KeyOf, OnlyKey;
    KeyOfEven(m, Hash(keccak, t));
    match t
    case Nil =>
    case Leaf(_, _) =>
    case Ext(p, c) =>
      if p <= k {
        var r := RemoveVia(keccak, m, c, d + |p|, k[|p|..]);
        ViaKeyed(keccak, m, c, d + |p|, k[|p|..]);
        if !r.tree.Leaf? {
          ViaPlaced(keccak, m, c, d + |p|, k[|p|..]);
        }
      }
    case Branch(ch, w) =>
      var own := KeyOf(m, Hash(keccak, t));
      if k == [] {
        OnlyKeyEven(keccak, m, ch, 16, []);
        RestructuredPlaced(ch, if own != [] then [] else w, own, OnlyKey(keccak, m, ch, 16, []), d);
      } else {
        var r := RemoveVia(keccak, m, ch[k[0]], d + 1, k[1..]);
        ViaKeyed(keccak, m, ch[k[0]], d + 1, k[1..]);
        ViaPlaced(keccak, m, ch[k[0]], d + 1, k[1..]);
        var ch2 := ch[k[0] := r.tree];
        OnlyKeyEven(keccak, m, ch2, k[0], r.key);
        RestructuredPlaced(ch2, w, own, OnlyKey(keccak, m, ch2, k[0], r.key), d);
      }
  }

  /** The one valid choice, if there is exactly one. */
  method FindOnly(choices: seq<NodeHash>) returns (only: Option<nat>)
    ensures only.Some? ==>
              && only.value < |choices| && choices[only.value].IsValid()
              && forall j | 0 <= j < |choices| && j != only.value :: !choices[j].IsValid()
    ensures only.None? ==>
              (forall j | 0 <= j < |choices| :: !choices[j].IsValid())
              || exists i, j | 0 <= i < j < |choices| :: choices[i].IsValid() && choices[j].IsValid()
  {
    only := None;
    for i := 0 to |choices|
      invariant only.None? ==> forall j | 0 <= j < i :: !choices[j].IsValid()
      invariant only.Some? ==>
                  && only.value < i && choices[only.value].IsValid()
                  && forall j | 0 <= j < i && j != only.value :: !choices[j].IsValid()
    {
      if choices[i].IsValid() {
        if only.Some? {
          return None;
        }
        only := Some(i);
      }
    }
  }

  /** `r` is the root of `t`, ready to be stored; nothing when `t` is empty. */
  ghost predicate Stands(keccak: Bytes -> H256, keys: iset<Binding>, m: Store, r: Option<Node>, t: T.Tree, d: nat) {
    && (r.None? <==> t.Nil?)
    && (r.Some? ==> Matches(keccak, keys, r.value, t, d) && Below(keccak, keys, m, t, d))
  }

  /** A branch all of whose children are stored, while it is being restructured. */
  ghost predicate Parts(
    keccak: Bytes -> H256, u: iset<Bytes>, keys: iset<Binding>, m: Store, ch: seq<T.Tree>, choices: seq<NodeHash>, d: nat) {
    && |ch| == 16 && choices == Hashes(keccak, ch)
    && forall i | 0 <= i < 16 ::
         Stored(keccak, keys, m, ch[i], d) && T.Placed(ch[i], d) && Known(keccak, u, ch[i]) && T.WF(ch[i])
  }

  lemma ChoicesTell(keccak: Bytes -> H256, ch: seq<T.Tree>, choices: seq<NodeHash>)
    requires |ch| == 16 && choices == Hashes(keccak, ch)
    ensures forall i | 0 <= i < 16 :: choices[i].IsValid() <==> !ch[i].Nil?
  {
    hide Hash;
    forall i | 0 <= i < 16
      ensures choices[i].IsValid() <==> !ch[i].Nil?
    {
      ValidMeansChild(keccak, ch[i]);
    }
  }

  lemma LeafMovesUp(keccak: Bytes -> H256, keys: iset<Binding>, m: Store, path: Bytes, v: Bytes, d: nat)
    requires (path, v) in keys
    ensures Matches(keccak, keys, LeafNode(path, v), T.Leaf(Behind(Nibs(path), d), v), d)
    ensures Below(keccak, keys, m, T.Leaf(Behind(Nibs(path), d), v), d)
  {
    NibsLength(path);
  }

  /**
    * The second step of `remove` at a branch, whose value counts when its key `own` is not empty; `key` is the stored key of
    * an only child that is a leaf.
    */
  method Restructure(
    state: TrieState, choices: seq<NodeHash>, own: Bytes, value: Bytes, offset: nat,
    ghost u: iset<Bytes>, ghost keys: iset<Binding>, ghost ch: seq<T.Tree>, ghost key: T.Key)
    returns (r: Removal)
    requires CollisionFree(state.keccak, u) && Bounded(keys)
    requires Parts(state.keccak, u, keys, state.Value(), ch, choices, offset + 1)
    requires if value == [] then own == [] else (own, value) in keys
    requires var out := Restructured(ch, value, Nibs(own), key, offset); Sized(out, offset) ==> Known(state.keccak, u, out.tree)
    requires forall i: nat | T.IsOnlyChild(ch, i) && ch[i].Leaf? :: KeyOf(state.Value(), Hash(state.keccak, ch[i])) == key
    modifies state`cache
    ensures var out := Restructured(ch, value, Nibs(own), key, offset);
            && (r.Failed? <==> out.Panics?) && (r.Broken? <==> out.Garbled?)
            && (out.Left? ==>
                  && r.node.Some?
                  && Matches(state.keccak, keys, r.node.value, out.tree, offset)
                  && Below(state.keccak, keys, state.Value(), out.tree, offset)
                  && Extends(state.keccak, u, keys, old(state.Value()), state.Value())
                  && (r.node.value.LeafNode? ==> Nibs(r.node.value.path) == out.key))
    ensures r.Broken? ==>
              && r.branch.BranchNode? && r.branch.path == own && r.branch.value == value
              && (r.branch.choices == choices ||
                  exists i: nibble | T.IsOnlyChild(ch, i) ::
                    r.branch.choices == choices[i := Hash(state.keccak, T.Ext([i], ch[i]))])
  {
    hide Known, Extends, Stored, Below, Matches, Hash, T.WF, T.Placed, Nibs, KeyOf, Restructured, Behind;
    ChoicesTell(state.keccak, ch, choices);
    NibsLength(own);
    var only := FindOnly(choices);
    if only.None? {
      NoneOrTwo(ch);
      RestructuredElse(ch, value, Nibs(own), key, offset);
      ExtendsSelf(state.keccak, u, keys, state.Value());
      if own != [] {
        LeafMovesUp(state.keccak, keys, state.Value(), own, value, offset);
        return Done(Some(LeafNode(own, value)));
      }
      var branch := BranchNode(choices, own, value);
      if exists i | 0 <= i < 16 :: choices[i].IsValid() {
        BranchStands(state.keccak, keys, state.Value(), choices, own, T.Branch(ch, value), offset);
        return Done(Some(branch));
      }
      return Broken(branch);
    }
    var i: nibble := only.value;
    assert T.IsOnlyChild(ch, i);
    RestructuredAt(ch, value, Nibs(own), key, offset, i);
    if own == [] {
      JoinKinds([i], ch[i], offset, key);
      var node := Promote(state, choices[i], i, offset, u, keys, ch[i], key);
      return Done(Some(node));
    }
    r := KeepOnly(state, choices, own, value, i, offset, u, keys, ch);
  }

  lemma NoneOrTwo(ch: seq<T.Tree>)
    requires |ch| == 16
    requires (forall j | 0 <= j < 16 :: ch[j].Nil?) || exists i, j | 0 <= i < j < 16 :: !ch[i].Nil? && !ch[j].Nil?
    ensures T.TwoChildren(ch) || !T.SomeChild(ch)
    ensures T.SomeChild(ch) <==> exists i | 0 <= i < 16 :: !ch[i].Nil?
    ensures T.TwoChildren(ch) ==> T.SomeChild(ch)
  {
  }

  /** A branch with a value and a single child: right only when the child is a leaf. */
  method KeepOnly(
    state: TrieState, choices: seq<NodeHash>, own: Bytes, value: Bytes, i: nibble, offset: nat,
    ghost u: iset<Bytes>, ghost keys: iset<Binding>, ghost ch: seq<T.Tree>)
    returns (r: Removal)
    requires CollisionFree(state.keccak, u) && Bounded(keys) && own != []
    requires Parts(state.keccak, u, keys, state.Value(), ch, choices, offset + 1) && T.IsOnlyChild(ch, i)
    requires if value == [] then own == [] else (own, value) in keys
    modifies state`cache
    ensures r.Failed? <==> ch[i].Ext?
    ensures r.Broken? <==> ch[i].Branch?
    ensures r.Broken? ==> r.branch == BranchNode(choices[i := Hash(state.keccak, T.Ext([i], ch[i]))], own, value)
    ensures r.Done? ==>
              && r.node.Some? && r.node.value.BranchNode?
              && Matches(state.keccak, keys, r.node.value, T.Branch(ch, value), offset)
              && Below(state.keccak, keys, state.Value(), T.Branch(ch, value), offset)
              && Extends(state.keccak, u, keys, old(state.Value()), state.Value())
  {
    hide Known, Extends, Stored, Below, Matches, Hash, T.WF, T.Placed;
    var found := state.GetNode(choices[i]);
    StoredIsFoundAndBelow(state.keccak, keys, state.Value(), ch[i], offset + 1);
    KindOfMatch(state.keccak, keys, Unwrap(found), ch[i], offset + 1);
    match Unwrap(found) {
      case BranchNode(_, _, _) =>
        var prefix := FromSingle(i, offset % 2 != 0);
        SingleHash(state.keccak, u, prefix, i, ch[i]);
        var hash := state.HashOf(ExtensionNode(prefix, choices[i]), 0);
        state.InsertNode(ExtensionNode(prefix, choices[i]), hash);
        r := Broken(BranchNode(choices[i := hash], own, value));
      case ExtensionNode(_, _) => r := Failed;
      case LeafNode(_, _) =>
        BranchStands(state.keccak, keys, state.Value(), choices, own, T.Branch(ch, value), offset);
        ExtendsSelf(state.keccak, u, keys, state.Value());
        r := Done(Some(BranchNode(choices, own, value)));
    }
  }

  lemma SingleHash(keccak: Bytes -> H256, u: iset<Bytes>, prefix: Packed, i: nibble, c: T.Tree)
    requires prefix.Normalised() && prefix.View() == [i] && Known(keccak, u, c)
    ensures Encodable(ExtensionNode(prefix, Hash(keccak, c)), 0)
    ensures ComputeHash(keccak, ExtensionNode(prefix, Hash(keccak, c)), 0) == Hash(keccak, T.Ext([i], c))
  {
    HashIsRef(keccak, c);
    assert prefix.Len() == 1;
  }

  method Prepended(prefix: Packed, i: nibble) returns (v: Packed)
    requires prefix.Normalised()
    ensures v.Normalised() && v.View() == [i] + prefix.View() && v.firstIsHalf == !prefix.firstIsHalf
  {
    var vec := new NibbleVec(prefix);
    vec.Prepend(i);
    v := vec.Value();
  }

  method Extended(prefix: Packed, other: Packed) returns (v: Packed)
    requires prefix.Normalised() && other.Normalised() && prefix.data != [] && prefix.lastIsHalf == other.firstIsHalf
    ensures v.Normalised() && v.View() == prefix.View() + other.View() && v.firstIsHalf == prefix.firstIsHalf
  {
    NormalisedEmpty(prefix);
    var vec := new NibbleVec(prefix);
    vec.Extend(other);
    v := vec.Value();
  }

  /** The only child left moves into the place of its parent. */
  method Promote(
    state: TrieState, childHash: NodeHash, i: nibble, offset: nat,
    ghost u: iset<Bytes>, ghost keys: iset<Binding>, ghost c: T.Tree, ghost key: T.Key)
    returns (r: Node)
    requires CollisionFree(state.keccak, u) && Bounded(keys)
    requires !c.Nil? && T.WF(c) && childHash == Hash(state.keccak, c) && T.Placed(c, offset + 1)
    requires Stored(state.keccak, keys, state.Value(), c, offset + 1)
    requires Known(state.keccak, u, c) && (c.Branch? ==> Known(state.keccak, u, T.Ext([i], c)))
    requires c.Leaf? ==> KeyOf(state.Value(), childHash) == key
    modifies state`cache
    ensures Matches(state.keccak, keys, r, JoinVia([i], c, offset, key), offset)
    ensures Below(state.keccak, keys, state.Value(), JoinVia([i], c, offset, key), offset)
    ensures Extends(state.keccak, u, keys, old(state.Value()), state.Value())
    ensures r.LeafNode? ==> Nibs(r.path) == key
  {
    hide Known, Extends, Stored, Below, Matches, Hash, T.WF, T.Placed, Nibs, KeyOf, Behind, Found, JoinVia, T.Join;
    JoinKinds([i], c, offset, key);
    var found := state.GetNode(childHash);
    StoredMeans(state.keccak, keys, state.Value(), c, offset + 1);
    var child := Unwrap(found);
    KeyFound(state.Value(), childHash, child);
    KindOfMatch(state.keccak, keys, child, c, offset + 1);
    match child {
      case BranchNode(_, _, _) =>
        var prefix := FromSingle(i, offset % 2 != 0);
        ExtensionMatches(state.keccak, keys, state.Value(), prefix, [i], c, offset);
        T.PrefixedPlaced([i], c, offset);
        var hash := state.InsertSelf(ExtensionNode(prefix, childHash), 0, u, keys, T.Ext([i], c), offset);
        var again := state.GetNode(hash);
        r := Unwrap(again);
        BelowExtends(state.keccak, u, keys, old(state.Value()), state.Value(), T.Ext([i], c), offset);
      case ExtensionNode(prefix, grandchild) =>
        ExtensionParts(state.keccak, keys, state.Value(), child, c, offset + 1);
        var longer := Prepended(prefix, i);
        ExtensionMatches(state.keccak, keys, state.Value(), longer, [i] + c.prefix, c.child, offset);
        ExtendsSelf(state.keccak, u, keys, state.Value());
        r := ExtensionNode(longer, grandchild);
      case LeafNode(path, value) =>
        var again := state.GetNode(childHash);
        r := Unwrap(again);
        LeafFacts(state.keccak, keys, child, c, offset + 1);
        LeafMovesUp(state.keccak, keys, state.Value(), path, value, offset);
        ExtendsSelf(state.keccak, u, keys, state.Value());
    }
  }

  lemma JoinKinds(p: T.Key, t: T.Tree, d: nat, key: T.Key)
    ensures t.Leaf? ==> JoinVia(p, t, d, key) == T.Leaf(Behind(key, d), t.value)
    ensures t.Ext? ==> JoinVia(p, t, d, key) == T.Ext(p + t.prefix, t.child)
    ensures t.Branch? ==> JoinVia(p, t, d, key) == T.Ext(p, t)
  {
  }

  lemma LeafFacts(keccak: Bytes -> H256, keys: iset<Binding>, node: Node, t: T.Tree, d: nat)
    requires node.LeafNode? && Matches(keccak, keys, node, t, d)
    ensures t.Leaf? && node.value == t.value && (node.path, t.value) in keys
  {
  }

  lemma PartsAfter(
    keccak: Bytes -> H256, u: iset<Bytes>, keys: iset<Binding>, m: Store, m': Store, t: T.Tree, d: nat, x: nibble, c: T.Tree)
    requires CollisionFree(keccak, u) && Known(keccak, u, t) && T.WF(t) && T.Placed(t, d) && t.Branch?
    requires Below(keccak, keys, m, t, d) && Extends(keccak, u, keys, m, m')
    requires T.WF(c) && Known(keccak, u, c) && T.Placed(c, d + 1) && Stored(keccak, keys, m', c, d + 1)
    ensures Parts(keccak, u, keys, m', t.children[x := c], Hashes(keccak, t.children)[x := Hash(keccak, c)], d + 1)
  {
    hide Known, Extends, Stored, Hash;
    BelowExtends(keccak, u, keys, m, m', t, d);
    KnownChild(keccak, u, t);
    HashesUpdate(keccak, t.children, x, c);
  }

  lemma PartsNow(keccak: Bytes -> H256, u: iset<Bytes>, keys: iset<Binding>, m: Store, t: T.Tree, d: nat)
    requires Known(keccak, u, t) && T.WF(t) && T.Placed(t, d) && t.Branch? && Below(keccak, keys, m, t, d)
    ensures Parts(keccak, u, keys, m, t.children, Hashes(keccak, t.children), d + 1)
  {
    hide Known, Stored, Hash;
    KnownChild(keccak, u, t);
  }

  /** A value that is not there does not matter. */
  lemma NoOwn(ch: seq<T.Tree>, own: T.Key, other: T.Key, key: T.Key, d: nat)
    requires |ch| == 16
    ensures Restructured(ch, [], own, key, d) == Restructured(ch, [], other, key, d)
  {
  }

  /** The only key is the one found in the store after a child was rebuilt. */
  lemma OnlyKeyFound(
    keccak: Bytes -> H256, m: Store, m': Store, ch: seq<T.Tree>, w: Bytes, x: nibble, c: T.Tree, key: T.Key)
    requires T.WF(T.Branch(ch, w))
    requires c.Nil? ==> m' == m
    requires c.Leaf? ==> KeyOf(m', Hash(keccak, c)) == key
    ensures var ch2 := ch[x := c];
            forall i: nat | T.IsOnlyChild(ch2, i) && ch2[i].Leaf? ::
              KeyOf(m', Hash(keccak, ch2[i])) == OnlyKey(keccak, m, ch2, x, key)
  {
    hide Hash, KeyOf, OnlyKey;
    var ch2 := ch[x := c];
    assert ch2[x] == c;
    forall i: nat | T.IsOnlyChild(ch2, i) && ch2[i].Leaf?
      ensures KeyOf(m', Hash(keccak, ch2[i])) == OnlyKey(keccak, m, ch2, x, key)
    {
      OnlyKeyAt(keccak, m, ch2, x, key, i);
    }
  }

  /** Removes from the subtrie under a choice and stores what is left of it. */
  method ChildRemove(
    state: TrieState, childHash: NodeHash, data: Bytes, offset: nat,
    ghost u: iset<Bytes>, ghost keys: iset<Binding>, ghost c: T.Tree)
    returns (r: Removal, hash: NodeHash, removed: Option<Bytes>)
    requires CollisionFree(state.keccak, u) && Bounded(keys) && 0 < offset <= 2 * |data|
    requires T.WF(c) && Known(state.keccak, u, c) && T.Placed(c, offset) && childHash == Hash(state.keccak, c)
    requires KnownSteps(state.keccak, u, state.Value(), c, offset, Nibs(data)[offset..])
    requires Stored(state.keccak, keys, state.Value(), c, offset)
    modifies state`cache
    ensures var k := Nibs(data)[offset..];
            var out := Rehashed(RemoveVia(state.keccak, old(state.Value()), c, offset, k), offset);
            && (r.Failed? <==> T.Overruns(c, offset, k) || out.Panics?)
            && (r.Done? <==> !T.Overruns(c, offset, k) && out.Left?)
            && (r.Done? ==>
                  && removed == RemovedVia(state.keccak, old(state.Value()), c, offset, k)
                  && hash == Hash(state.keccak, out.tree)
                  && Stored(state.keccak, keys, state.Value(), out.tree, offset)
                  && Extends(state.keccak, u, keys, old(state.Value()), state.Value())
                  && (out.tree.Nil? ==> state.Value() == old(state.Value()))
                  && (out.tree.Leaf? ==> KeyOf(state.Value(), hash) == out.key))
    decreases c, 2
  {
    hide Known, KnownSteps, Extends, Below, Found, Matches, T.WF, T.Placed, T.Overruns, Nibs, RemoveVia, RemovedVia, Payload;
    hide KeyOf;
    ghost var k := Nibs(data)[offset..];
    ghost var out := RemoveVia(state.keccak, state.Value(), c, offset, k);
    hash, removed := childHash, None;
    ValidMeansChild(state.keccak, c);
    if !childHash.IsValid() {
      RemoveFromNothing(state.keccak, state.Value(), offset, k);
      ExtendsSelf(state.keccak, u, keys, state.Value());
      r := Done(None);
      return;
    }
    var found := state.GetNode(childHash);
    StoredMeans(state.keccak, keys, state.Value(), c, offset);
    KeyFound(state.Value(), childHash, Unwrap(found));
    StepsKnown(state.keccak, u, state.Value(), c, offset, k);
    r, removed := NodeRemove(state, Unwrap(found), data, offset, u, keys, c);
    if r.Done? {
      ViaKeyed(state.keccak, old(state.Value()), c, offset, k);
      if r.node.Some? {
        KindOfMatch(state.keccak, keys, r.node.value, out.tree, offset);
        if r.node.value.LeafNode? {
          NibsLength(r.node.value.path);
          if offset > 2 * |r.node.value.path| {
            return Failed, hash, removed;
          }
        }
        ViaPlaced(state.keccak, old(state.Value()), c, offset, k);
        ghost var m1 := state.Value();
        hash := state.InsertSelf(r.node.value, offset, u, keys, out.tree, offset);
        ExtendsTrans(state.keccak, u, keys, old(state.Value()), m1, state.Value());
        KeyInCache(state.Value(), hash);
      } else {
        hash := Inline([]);
      }
    }
  }

  lemma KeyInCache(m: Store, h: NodeHash)
    requires h in m.cache
    ensures m.cache[h].LeafNode? ==> KeyOf(m, h) == Nibs(m.cache[h].path)
  {
  }

  lemma KeyFound(m: Store, h: NodeHash, node: Node)
    requires Resolve(m, h) == Rlp.Ok(Some(node))
    ensures !node.ExtensionNode? ==> KeyOf(m, h) == Nibs(node.path)
  {
  }

  lemma StepsKnown(keccak: Bytes -> H256, u: iset<Bytes>, m: Store, t: T.Tree, d: nat, k: T.Key)
    requires T.WF(t) && KnownSteps(keccak, u, m, t, d, k)
    ensures Sized(RemoveVia(keccak, m, t, d, k), d) ==> Known(keccak, u, RemoveVia(keccak, m, t, d, k).tree)
  {
  }

  lemma RemoveFromNothing(keccak: Bytes -> H256, m: Store, d: nat, k: T.Key)
    ensures T.WF(T.Nil) && RemoveVia(keccak, m, T.Nil, d, k) == Left(T.Nil, []) && RemovedVia(keccak, m, T.Nil, d, k) == None
    ensures !T.Overruns(T.Nil, d, k)
  {
  }

  /** How a removal goes through a branch. */
  lemma RemoveAtBranch(keccak: Bytes -> H256, u: iset<Bytes>, m: Store, t: T.Tree, d: nat, k: T.Key)
    requires T.WF(t) && t.Branch? && KnownSteps(keccak, u, m, t, d, k)
    ensures |t.children| == 16
    ensures var own := KeyOf(m, Hash(keccak, t));
            && (k == [] ==>
                  RemoveVia(keccak, m, t, d, k) ==
                  Restructured(t.children, if own != [] then [] else t.value, own, OnlyKey(keccak, m, t.children, 16, []), d))
            && (k != [] ==>
                  var below := Rehashed(RemoveVia(keccak, m, t.children[k[0]], d + 1, k[1..]), d + 1);
                  && T.WF(t.children[k[0]]) && KnownSteps(keccak, u, m, t.children[k[0]], d + 1, k[1..])
                  && (!below.Left? ==> RemoveVia(keccak, m, t, d, k) == below)
                  && (below.Left? ==>
                        var ch2 := t.children[k[0] := below.tree];
                        && T.WF(below.tree)
                        && RemoveVia(keccak, m, t, d, k) ==
                           Restructured(ch2, t.value, own, OnlyKey(keccak, m, ch2, k[0], below.key), d)))
  {
    hide Known, Restructured, OnlyKey, KeyOf, Hash;
    if k != [] && RemoveVia(keccak, m, t.children[k[0]], d + 1, k[1..]).Left? {
      ViaWF(keccak, m, t.children[k[0]], d + 1, k[1..]);
    }
  }

  lemma RemovedAtBranch(keccak: Bytes -> H256, m: Store, t: T.Tree, d: nat, k: T.Key)
    requires t.Branch? && T.WF(t)
    ensures k == [] ==> RemovedVia(keccak, m, t, d, k) == if KeyOf(m, Hash(keccak, t)) != [] then T.Own(t.value) else None
    ensures k != [] ==>
              |t.children| == 16 && RemovedVia(keccak, m, t, d, k) == RemovedVia(keccak, m, t.children[k[0]], d + 1, k[1..])
  {
  }

  method BranchRemove(
    state: TrieState, choices: seq<NodeHash>, own: Bytes, value: Bytes, data: Bytes, offset: nat,
    ghost u: iset<Bytes>, ghost keys: iset<Binding>, ghost t: T.Tree)
    returns (r: Removal, removed: Option<Bytes>)
    requires CollisionFree(state.keccak, u) && Bounded(keys) && offset <= 2 * |data|
    requires T.WF(t) && Known(state.keccak, u, t) && T.Placed(t, offset)
    requires KnownSteps(state.keccak, u, state.Value(), t, offset, Nibs(data)[offset..])
    requires Matches(state.keccak, keys, BranchNode(choices, own, value), t, offset)
    requires KeyOf(state.Value(), Hash(state.keccak, t)) == Nibs(own)
    requires Below(state.keccak, keys, state.Value(), t, offset)
    modifies state`cache
    ensures var k := Nibs(data)[offset..];
            var out := RemoveVia(state.keccak, old(state.Value()), t, offset, k);
            && (r.Failed? <==> T.Overruns(t, offset, k) || out.Panics?)
            && (r.Done? <==> !T.Overruns(t, offset, k) && out.Left?)
            && (r.Done? ==>
                  && removed == RemovedVia(state.keccak, old(state.Value()), t, offset, k)
                  && r.node.Some?
                  && Matches(state.keccak, keys, r.node.value, out.tree, offset)
                  && Below(state.keccak, keys, state.Value(), out.tree, offset)
                  && Extends(state.keccak, u, keys, old(state.Value()), state.Value())
                  && (r.node.value.LeafNode? ==> Nibs(r.node.value.path) == out.key))
    decreases t, 0
  {
    hide Known, KnownSteps, Extends, Stored, Below, Matches, Hash;
    hide T.WF, T.Overruns, Nibs, KeyOf, OnlyKey, Restructured, RemoveVia, RemovedVia, Parts;
    ghost var k := Nibs(data)[offset..];
    NibsLength(own);
    BranchParts(state.keccak, keys, state.Value(), BranchNode(choices, own, value), t, offset);
    AtBranch(t, Nibs(data), offset);
    RemoveAtBranch(state.keccak, u, state.Value(), t, offset, k);
    RemovedAtBranch(state.keccak, state.Value(), t, offset, k);
    StepsKnown(state.keccak, u, state.Value(), t, offset, k);
    ghost var m0 := state.Value();
    var path := new NibbleSlice(data, offset);
    var choice := path.Next();
    if choice.None? {
      PartsNow(state.keccak, u, keys, state.Value(), t, offset);
      ghost var key := OnlyKey(state.keccak, m0, t.children, 16, []);
      OnlyKeyThere(state.keccak, m0, t.children);
      if own != [] {
        removed := if value != [] then Some(value) else None;
        NoOwn(t.children, Nibs(own), Nibs([]), key, offset);
        r := Restructure(state, choices, [], [], offset, u, keys, t.children, key);
      } else {
        removed := None;
        r := Restructure(state, choices, own, value, offset, u, keys, t.children, key);
      }
      return;
    }
    DropDrop(Nibs(data), offset, 1);
    var x := choice.value;
    PlacedChild(t, offset, x);
    KnownChild(state.keccak, u, t);
    ghost var below := Rehashed(RemoveVia(state.keccak, m0, t.children[x], offset + 1, k[1..]), offset + 1);
    var child, hash;
    child, hash, removed := ChildRemove(state, choices[x], data, path.offset, u, keys, t.children[x]);
    if !child.Done? {
      return child, removed;
    }
    ghost var m1 := state.Value();
    StepsKnown(state.keccak, u, m0, t.children[x], offset + 1, k[1..]);
    ViaPlaced(state.keccak, m0, t.children[x], offset + 1, k[1..]);
    PartsAfter(state.keccak, u, keys, m0, m1, t, offset, x, below.tree);
    OnlyKeyFound(state.keccak, m0, m1, t.children, value, x, below.tree, below.key);
    ghost var ch2 := t.children[x := below.tree];
    r := Restructure(
      state, choices[x := hash], own, value, offset, u, keys, ch2, OnlyKey(state.keccak, m0, ch2, x, below.key));
    if r.Done? {
      ExtendsTrans(state.keccak, u, keys, m0, m1, state.Value());
    }
  }

  lemma PlacedChild(t: T.Tree, d: nat, x: nat)
    requires T.Placed(t, d) && t.Branch? && x < |t.children|
    ensures T.Placed(t.children[x], d + 1)
  {
  }

  lemma OnlyKeyThere(keccak: Bytes -> H256, m: Store, ch: seq<T.Tree>)
    requires |ch| == 16
    ensures forall i: nat | T.IsOnlyChild(ch, i) && ch[i].Leaf? ::
              KeyOf(m, Hash(keccak, ch[i])) == OnlyKey(keccak, m, ch, 16, [])
  {
    hide Hash, KeyOf, OnlyKey;
    forall i: nat | T.IsOnlyChild(ch, i) && ch[i].Leaf?
      ensures KeyOf(m, Hash(keccak, ch[i])) == OnlyKey(keccak, m, ch, 16, [])
    {
      OnlyKeyAt(keccak, m, ch, 16, [], i);
    }
  }

  /** How a removal goes through an extension whose prefix the key has. */
  lemma RemoveAtExtension(keccak: Bytes -> H256, u: iset<Bytes>, m: Store, t: T.Tree, d: nat, k: T.Key)
    requires T.WF(t) && t.Ext? && KnownSteps(keccak, u, m, t, d, k)
    ensures T.WF(t.child)
    ensures !(t.prefix <= k) ==> RemoveVia(keccak, m, t, d, k) == Left(t, [])
    ensures t.prefix <= k ==>
              var below := RemoveVia(keccak, m, t.child, d + |t.prefix|, k[|t.prefix|..]);
              && KnownSteps(keccak, u, m, t.child, d + |t.prefix|, k[|t.prefix|..])
              && (!below.Left? ==> RemoveVia(keccak, m, t, d, k) == below)
              && (below.Left? ==>
                    && T.WF(below.tree) && !below.tree.Nil?
                    && RemoveVia(keccak, m, t, d, k) == Left(JoinVia(t.prefix, below.tree, d, below.key), below.key))
  {
    hide Known, JoinVia, Restructured, OnlyKey, KeyOf, Hash;
    if t.prefix <= k && RemoveVia(keccak, m, t.child, d + |t.prefix|, k[|t.prefix|..]).Left? {
      ViaWF(keccak, m, t.child, d + |t.prefix|, k[|t.prefix|..]);
    }
  }

  method ExtensionRemove(
    state: TrieState, prefix: Packed, child: NodeHash, data: Bytes, offset: nat,
    ghost u: iset<Bytes>, ghost keys: iset<Binding>, ghost t: T.Tree)
    returns (r: Removal, removed: Option<Bytes>)
    requires CollisionFree(state.keccak, u) && Bounded(keys) && offset <= 2 * |data|
    requires T.WF(t) && Known(state.keccak, u, t) && T.Placed(t, offset)
    requires KnownSteps(state.keccak, u, state.Value(), t, offset, Nibs(data)[offset..])
    requires Matches(state.keccak, keys, ExtensionNode(prefix, child), t, offset)
    requires Below(state.keccak, keys, state.Value(), t, offset)
    modifies state`cache
    ensures var k := Nibs(data)[offset..];
            var out := RemoveVia(state.keccak, old(state.Value()), t, offset, k);
            && (r.Failed? <==> T.Overruns(t, offset, k) || out.Panics?)
            && (r.Done? <==> !T.Overruns(t, offset, k) && out.Left?)
            && (r.Done? ==>
                  && removed == RemovedVia(state.keccak, old(state.Value()), t, offset, k)
                  && r.node.Some?
                  && Matches(state.keccak, keys, r.node.value, out.tree, offset)
                  && Below(state.keccak, keys, state.Value(), out.tree, offset)
                  && Extends(state.keccak, u, keys, old(state.Value()), state.Value())
                  && (r.node.value.LeafNode? ==> Nibs(r.node.value.path) == out.key))
    decreases t, 0
  {
    hide Known, KnownSteps, RemoveVia, Extends, Stored, Below, Matches;
    hide Hash, T.WF, T.Placed, T.Overruns, Nibs, JoinVia, KeyOf, Resolve;
    ghost var k, m0 := Nibs(data)[offset..], state.Value();
    ExtensionParts(state.keccak, keys, state.Value(), ExtensionNode(prefix, child), t, offset);
    ghost var p := t.prefix;
    AtExtension(t, Nibs(data), offset);
    PrefixWidth(prefix, offset);
    RemoveAtExtension(state.keccak, u, state.Value(), t, offset, k);
    var path := new NibbleSlice(data, offset);
    var skipped := path.SkipPrefix(prefix);
    if skipped.None? {
      return Failed, None;
    }
    if !skipped.value {
      NeverOver(t, offset, k);
      ExtendsSelf(state.keccak, u, keys, state.Value());
      return Done(Some(ExtensionNode(prefix, child))), None;
    }
    DropDrop(Nibs(data), offset, |p|);
    KnownChild(state.keccak, u, t);
    ChildPlaced(t, offset);
    var found := state.GetNode(child);
    StoredMeans(state.keccak, keys, state.Value(), t.child, offset + |p|);
    KeyFound(state.Value(), child, Unwrap(found));
    r, removed := NodeRemove(state, Unwrap(found), data, path.offset, u, keys, t.child);
    if r.Done? {
      ghost var below := RemoveVia(state.keccak, m0, t.child, offset + |p|, k[|p|..]);
      ghost var m1 := state.Value();
      StepsKnown(state.keccak, u, m0, t.child, offset + |p|, k[|p|..]);
      if !below.tree.Leaf? {
        ViaPlaced(state.keccak, m0, t.child, offset + |p|, k[|p|..]);
      }
      var node := Rejoin(state, prefix, r.node.value, u, keys, p, below.tree, below.key, offset);
      ExtendsTrans(state.keccak, u, keys, m0, m1, state.Value());
      r := Done(Some(node));
    }
  }

  /** A prefix that a path does not have is not an overrun when it was compared. */
  lemma NeverOver(t: T.Tree, d: nat, k: T.Key)
    ensures t.Ext? && !(t.prefix <= k) && !(T.Width(d, |t.prefix|) <= (d + |k|) / 2 && |k| < |t.prefix|) ==>
              !T.Overruns(t, d, k)
  {
  }

  /** Puts an extension's prefix in front of what is left of its child. */
  method Rejoin(
    state: TrieState, prefix: Packed, childNode: Node,
    ghost u: iset<Bytes>, ghost keys: iset<Binding>, ghost p: T.Key, ghost c: T.Tree, ghost key: T.Key, ghost d: nat)
    returns (r: Node)
    requires CollisionFree(state.keccak, u) && Bounded(keys)
    requires p != [] && prefix.Normalised() && prefix.View() == p && prefix.firstIsHalf == (d % 2 == 1)
    requires T.WF(c) && (!c.Leaf? ==> Known(state.keccak, u, c) && T.Placed(c, d + |p|))
    requires Matches(state.keccak, keys, childNode, c, d + |p|) && Below(state.keccak, keys, state.Value(), c, d + |p|)
    requires childNode.LeafNode? ==> Nibs(childNode.path) == key
    modifies state`cache
    ensures Matches(state.keccak, keys, r, JoinVia(p, c, d, key), d)
    ensures Below(state.keccak, keys, state.Value(), JoinVia(p, c, d, key), d)
    ensures Extends(state.keccak, u, keys, old(state.Value()), state.Value())
    ensures r.LeafNode? ==> Nibs(r.path) == key
  {
    hide Known, Extends, Stored, Below, Matches, Hash, T.WF, T.Placed, Nibs, Behind;
    ExtendsSelf(state.keccak, u, keys, state.Value());
    KindOfMatch(state.keccak, keys, childNode, c, d + |p|);
    match childNode {
      case BranchNode(_, _, _) =>
        var hash := state.InsertSelf(childNode, 0, u, keys, c, d + |p|);
        ExtensionMatches(state.keccak, keys, state.Value(), prefix, p, c, d);
        r := ExtensionNode(prefix, hash);
      case ExtensionNode(childPrefix, grandchild) =>
        ExtensionParts(state.keccak, keys, state.Value(), childNode, c, d + |p|);
        NormalisedEmpty(prefix);
        var longer := Extended(prefix, childPrefix);
        ExtensionMatches(state.keccak, keys, state.Value(), longer, p + c.prefix, c.child, d);
        r := ExtensionNode(longer, grandchild);
      case LeafNode(path, value) =>
        LeafFacts(state.keccak, keys, childNode, c, d + |p|);
        LeafMovesUp(state.keccak, keys, state.Value(), path, value, d);
        r := childNode;
    }
  }

  /** `remove`: what is left of the trie, not yet in the store, and the value that was bound to the key. */
  method NodeRemove(
    state: TrieState, node: Node, data: Bytes, offset: nat,
    ghost u: iset<Bytes>, ghost keys: iset<Binding>, ghost t: T.Tree)
    returns (r: Removal, removed: Option<Bytes>)
    requires CollisionFree(state.keccak, u) && Bounded(keys) && offset <= 2 * |data|
    requires T.WF(t) && Known(state.keccak, u, t) && T.Placed(t, offset)
    requires KnownSteps(state.keccak, u, state.Value(), t, offset, Nibs(data)[offset..])
    requires Matches(state.keccak, keys, node, t, offset) && Below(state.keccak, keys, state.Value(), t, offset)
    requires !node.ExtensionNode? ==> KeyOf(state.Value(), Hash(state.keccak, t)) == Nibs(node.path)
    modifies state`cache
    ensures var k := Nibs(data)[offset..];
            var out := RemoveVia(state.keccak, old(state.Value()), t, offset, k);
            && (r.Failed? <==> T.Overruns(t, offset, k) || out.Panics?)
            && (r.Done? <==> !T.Overruns(t, offset, k) && out.Left?)
            && (r.Done? ==>
                  && removed == RemovedVia(state.keccak, old(state.Value()), t, offset, k)
                  && Stands(state.keccak, keys, state.Value(), r.node, out.tree, offset)
                  && Extends(state.keccak, u, keys, old(state.Value()), state.Value())
                  && (r.node.None? ==> state.Value() == old(state.Value()))
                  && (r.node.Some? && r.node.value.LeafNode? ==> Nibs(r.node.value.path) == out.key))
    decreases t, 1
  {
    hide Known, KnownSteps, Extends, Stored, Hash, Nibs, KeyOf, Restructured, OnlyKey, JoinVia;
    ghost var k, m0 := Nibs(data)[offset..], state.Value();
    match node {
      case LeafNode(own, value) =>
        var path := new NibbleSlice(data, offset);
        var same := path.CmpRest(own);
        NibsLength(own);
        NibsLength(data);
        if same.None? {
          return Failed, None;
        }
        LeafFacts(state.keccak, keys, node, t, offset);
        LeafMovesUp(state.keccak, keys, state.Value(), own, value, offset);
        ExtendsSelf(state.keccak, u, keys, state.Value());
        r, removed := if same.value then Done(None) else Done(Some(node)), if same.value then Some(value) else None;
      case ExtensionNode(prefix, child) =>
        r, removed := ExtensionRemove(state, prefix, child, data, offset, u, keys, t);
        if r.Done? {
          ViaWF(state.keccak, m0, t, offset, k);
        }
      case BranchNode(choices, own, value) =>
        r, removed := BranchRemove(state, choices, own, value, data, offset, u, keys, t);
        if r.Done? {
          ViaWF(state.keccak, m0, t, offset, k);
        }
    }
  }
}
