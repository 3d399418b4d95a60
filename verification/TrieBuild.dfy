/**
  * Tries built from a list of bindings (`compute_hash_from_unsorted_iter` in `crates/trie/trie.rs`): what the code builds,
  * given the leaves it stores on the way, and when that is the trie of the bindings.
  */
module TrieBuild {
  import opened Prelude
  import opened Nibbles
  import opened TrieNode
  import opened TrieHash
  import opened TrieStore
  import opened TrieWalk
  import opened TrieInsert
  import opened TrieFit
  import opened Trie
  import T = TrieTree

  type Pairs = seq<(Bytes, Bytes)>

  /** The trie after inserting the bindings in order. */
  function Build(pairs: Pairs): T.Tree {
    if pairs == [] then T.Nil
    else
      var k := |pairs| - 1;
      T.Insert(Build(pairs[..k]), Nibs(pairs[k].0), pairs[k].1)
  }

  /** The value that the key with these nibbles is bound to last. */
  function Last(pairs: Pairs, q: T.Key): Option<Bytes> {
    if pairs == [] then None
    else
      var k := |pairs| - 1;
      if Nibs(pairs[k].0) == q then Some(pairs[k].1) else Last(pairs[..k], q)
  }

  /** No empty value is bound to a key that another key continues. */
  ghost predicate Tidy(pairs: Pairs) {
    forall x, y | x in pairs && y in pairs && x.0 != y.0 && Nibs(x.0) <= Nibs(y.0) :: x.1 != []
  }

  lemma {:induction false} LastIsThere(pairs: Pairs, q: T.Key)
    requires Last(pairs, q).Some?
    ensures exists x | x in pairs :: Nibs(x.0) == q && x.1 == Last(pairs, q).value
  {
    var k := |pairs| - 1;
    if Nibs(pairs[k].0) == q {
      assert pairs[k] in pairs;
    } else {
      LastIsThere(pairs[..k], q);
    }
  }

  /** Every key reads the value it was bound to last. */
  lemma {:induction false} BuildBinds(pairs: Pairs)
    requires Tidy(pairs)
    ensures T.WF(Build(pairs))
    ensures forall q :: T.Lookup(Build(pairs), q) == Last(pairs, q)
    ensures pairs != [] ==>
              var k := |pairs| - 1;
              T.WF(Build(pairs[..k])) && T.Clear(Build(pairs[..k]), Nibs(pairs[k].0), pairs[k].1)
  {
    hide T.Insert, T.Clear, T.WF, T.Lookup, Nibs;
    if pairs == [] {
      NothingBuilt();
    } else {
      var k := |pairs| - 1;
      var rest, last := pairs[..k], pairs[k];
      TidyFewer(pairs, k);
      BuildBinds(rest);
      var t := Build(rest);
      NextIsClear(pairs);
      T.InsertWF(t, Nibs(last.0), last.1);
      forall q
        ensures T.Lookup(Build(pairs), q) == Last(pairs, q)
      {
        T.LookupInsert(t, Nibs(last.0), last.1, q);
      }
    }
  }

  lemma NothingBuilt()
    ensures T.WF(T.Nil) && forall q :: T.Lookup(T.Nil, q) == None
  {
  }

  lemma TidyFewer(pairs: Pairs, i: nat)
    requires Tidy(pairs) && i <= |pairs|
    ensures Tidy(pairs[..i])
  {
    hide Nibs;
    assert forall x | x in pairs[..i] :: x in pairs;
  }

  lemma NextIsClear(pairs: Pairs)
    requires pairs != [] && Tidy(pairs)
    requires var t := Build(pairs[..|pairs| - 1]); T.WF(t) && forall q :: T.Lookup(t, q) == Last(pairs[..|pairs| - 1], q)
    ensures var k := |pairs| - 1; T.Clear(Build(pairs[..k]), Nibs(pairs[k].0), pairs[k].1)
  {
    hide Build, T.Clear, T.WF, T.Lookup, Nibs, Last;
    var k := |pairs| - 1;
    var rest, last, t := pairs[..k], pairs[k], Build(pairs[..k]);
    T.ClearMeans(t, Nibs(last.0), last.1);
    assert last in pairs;
    forall q | T.Lookup(t, q).Some? && q != Nibs(last.0)
      ensures (Nibs(last.0) <= q ==> last.1 != []) && (q <= Nibs(last.0) ==> T.Lookup(t, q).value != [])
    {
      LastIsThere(rest, q);
      var x :| x in rest && Nibs(x.0) == q && x.1 == Last(rest, q).value;
      assert x in pairs;
    }
  }

  /** Bindings that end up the same give one trie, hence one root hash, whatever their order. */
  lemma OrderIsIrrelevant(a: Pairs, b: Pairs)
    requires Tidy(a) && Tidy(b) && forall q :: Last(a, q) == Last(b, q)
    ensures Build(a) == Build(b)
  {
    hide Build, Last, Tidy;
    BuildBinds(a);
    BuildBinds(b);
    T.Canonical(Build(a), Build(b));
  }

  predicate DistinctKeys(pairs: Pairs) {
    forall i, j | 0 <= i < j < |pairs| :: pairs[i].0 != pairs[j].0
  }

  lemma {:induction false} LastOfDistinct(pairs: Pairs, x: (Bytes, Bytes))
    requires DistinctKeys(pairs) && x in pairs
    ensures Last(pairs, Nibs(x.0)) == Some(x.1)
  {
    var k := |pairs| - 1;
    if Nibs(pairs[k].0) == Nibs(x.0) {
      NibsInjective(pairs[k].0, x.0);
      var i :| 0 <= i < |pairs| && pairs[i] == x;
    } else {
      LastOfDistinct(pairs[..k], x);
    }
  }

  /** Main law of `compute_hash_from_unsorted_iter`: all orders of one set of bindings give one trie. */
  lemma PermutationIsIrrelevant(a: Pairs, b: Pairs)
    requires Tidy(a) && DistinctKeys(a) && multiset(a) == multiset(b)
    ensures Tidy(b) && DistinctKeys(b) && Build(a) == Build(b)
  {
    hide Build, Last, Nibs;
    assert forall x :: x in a <==> x in multiset(a);
    assert forall x :: x in b <==> x in multiset(b);
    DistinctAnyOrder(a, b);
    forall q
      ensures Last(a, q) == Last(b, q)
    {
      if Last(a, q).Some? {
        LastIsThere(a, q);
        var x :| x in a && Nibs(x.0) == q && x.1 == Last(a, q).value;
        LastOfDistinct(b, x);
      } else if Last(b, q).Some? {
        LastIsThere(b, q);
        var x :| x in b && Nibs(x.0) == q && x.1 == Last(b, q).value;
        LastOfDistinct(a, x);
      }
    }
    OrderIsIrrelevant(a, b);
  }

  lemma DistinctAnyOrder(a: Pairs, b: Pairs)
    requires DistinctKeys(a) && multiset(a) == multiset(b)
    ensures DistinctKeys(b)
  {
    forall i, j | 0 <= i < j < |b|
      ensures b[i].0 != b[j].0
    {
      if b[i].0 == b[j].0 {
        assert b[i] in multiset(a) && b[j] in multiset(a);
        var x :| 0 <= x < |a| && a[x] == b[i];
        var y :| 0 <= y < |a| && a[y] == b[j];
        Twice(b, i, j);
        Once(a, x);
        assert false;
      }
    }
  }

  lemma Twice<X>(s: seq<X>, i: nat, j: nat)
    requires i < j < |s|
    ensures s[i] == s[j] ==> multiset(s)[s[i]] >= 2
  {
    assert s == s[..j] + [s[j]] + s[j + 1..];
    assert s[i] in s[..j];
  }

  lemma Once(a: Pairs, x: nat)
    requires DistinctKeys(a) && x < |a|
    ensures multiset(a)[a[x]] == 1
  {
    assert a == a[..x] + [a[x]] + a[x + 1..];
    assert a[x] !in a[..x];
    assert a[x] !in a[x + 1..];
  }

  // ---------------------------------------------------------------------------------------------
  // What the code builds
  // ---------------------------------------------------------------------------------------------

  /** A trie and the leaves that were stored on the way to it. */
  datatype Built = Built(tree: T.Tree, leaves: map<NodeHash, Node>)

  function Cache(b: Built): Store {
    Store(b.leaves, map[])
  }

  /** Binds a key in the trie as it is seen; nothing on a panic. */
  function Bind(keccak: Bytes -> H256, b: Built, path: Bytes, v: Bytes): Option<Built> {
    var k := Nibs(path);
    if !Passes(keccak, Cache(b), b.tree, 0, k) then None
    else
      var seen := Seen(keccak, Cache(b), b.tree, 0, k);
      var own := OwnPath(keccak, Cache(b), b.tree, k);
      Some(Built(T.Insert(seen, k, v), b.leaves + Writes(keccak, seen, k, v, path, own)))
  }

  /** What the code builds. */
  function BuildVia(keccak: Bytes -> H256, pairs: Pairs): Option<Built> {
    if pairs == [] then Some(Built(T.Nil, map[]))
    else
      var k := |pairs| - 1;
      var b := BuildVia(keccak, pairs[..k]);
      if b.None? then None else Bind(keccak, b.value, pairs[k].0, pairs[k].1)
  }

  /** The binding whose walk overruns the trie built so far, or ends at a leaf that is stored out of place. */
  predicate Stumbles(keccak: Bytes -> H256, pairs: Pairs, i: nat) {
    && i < |pairs|
    && (var b, k := BuildVia(keccak, pairs[..i]), Nibs(pairs[i].0);
        b.None? || T.Overruns(b.value.tree, 0, k) || !InPlace(keccak, Cache(b.value), b.value.tree, 0, k))
  }

  /** The first `i` bindings were built right. */
  predicate RightAt(keccak: Bytes -> H256, pairs: Pairs, i: nat) {
    && i <= |pairs|
    && BuildVia(keccak, pairs[..i]).Some? && BuildVia(keccak, pairs[..i]).value.tree == Build(pairs[..i])
  }

  ghost predicate KnownBuilds(keccak: Bytes -> H256, u: iset<Bytes>, pairs: Pairs, n: nat) {
    n <= |pairs| && forall i | 0 <= i <= n :: Known(keccak, u, Build(pairs[..i]))
  }

  lemma NextBuilt(keccak: Bytes -> H256, pairs: Pairs, i: nat)
    requires i < |pairs|
    ensures var b := BuildVia(keccak, pairs[..i]);
            BuildVia(keccak, pairs[..i + 1]) == if b.None? then None else Bind(keccak, b.value, pairs[i].0, pairs[i].1)
    ensures Build(pairs[..i + 1]) == T.Insert(Build(pairs[..i]), Nibs(pairs[i].0), pairs[i].1)
  {
    hide Bind;
    assert pairs[..i + 1][..i] == pairs[..i] && pairs[..i + 1][i] == pairs[i];
  }

  lemma NextIsTidy(pairs: Pairs, i: nat)
    requires i < |pairs| && Tidy(pairs)
    ensures T.WF(Build(pairs[..i])) && T.Clear(Build(pairs[..i]), Nibs(pairs[i].0), pairs[i].1)
  {
    hide T.Clear, T.Insert, T.WF, T.Lookup, Nibs, Tidy;
    assert pairs[..i + 1][..i] == pairs[..i] && pairs[..i + 1][i] == pairs[i];
    TidyFewer(pairs, i + 1);
    BuildBinds(pairs[..i + 1]);
  }

  /** One binding that does not stumble is built right, and leaves of interest stay in place. */
  lemma Steady(keccak: Bytes -> H256, u: iset<Bytes>, pairs: Pairs, i: nat, f: Concern)
    requires i < |pairs| && Tidy(pairs) && CollisionFree(keccak, u) && KnownBuilds(keccak, u, pairs, i + 1)
    requires RightAt(keccak, pairs, i) && !Stumbles(keccak, pairs, i)
    requires Fit(keccak, Cache(BuildVia(keccak, pairs[..i]).value), Build(pairs[..i]), 0, f)
    requires var t, k, v := Build(pairs[..i]), Nibs(pairs[i].0), pairs[i].1;
             Level(t, 0, f, v, |k|) && Level(t, 0, f, StopAim(t, 0, k, v).0, StopAim(t, 0, k, v).1)
    ensures RightAt(keccak, pairs, i + 1)
    ensures Fit(keccak, Cache(BuildVia(keccak, pairs[..i + 1]).value), Build(pairs[..i + 1]), 0, f)
  {
    hide Build, BuildVia, Known, Fit, Level, StopAim, Nibs, Tidy, CollisionFree, Seen, OffEnd, T.WF, T.Clear, T.Insert;
    hide T.Overruns, Writes, Paths;
    var b, t, k, v := BuildVia(keccak, pairs[..i]).value, Build(pairs[..i]), Nibs(pairs[i].0), pairs[i].1;
    NextBuilt(keccak, pairs, i);
    NextIsTidy(pairs, i);
    FitStop(keccak, Cache(b), t, 0, f, k);
    SeenIsTrie(keccak, Cache(b), t, 0, k);
    var own := OwnPath(keccak, Cache(b), t, k);
    InPlacePaths(keccak, Cache(b), t, pairs[i].0);
    assert Known(keccak, u, Build(pairs[..i])) && Known(keccak, u, Build(pairs[..i + 1]));
    StepFits(keccak, u, Cache(b), t, 0, k, v, pairs[i].0, own, f);
  }

  lemma InPlacePaths(keccak: Bytes -> H256, m: Store, t: T.Tree, path: Bytes)
    requires StopEnds(keccak, m, t, Nibs(path)) && InPlace(keccak, m, t, 0, Nibs(path))
    ensures Paths(t, 0, Nibs(path), path, OwnPath(keccak, m, t, Nibs(path)))
  {
    hide Nibs, T.StopOf, Hash, PathOf;
    NibsLength(path);
  }

  /** A binding that stumbles is not built right. */
  lemma Diverges(keccak: Bytes -> H256, pairs: Pairs, i: nat, f: Concern)
    requires i < |pairs| && Tidy(pairs) && RightAt(keccak, pairs, i) && Stumbles(keccak, pairs, i)
    requires Fit(keccak, Cache(BuildVia(keccak, pairs[..i]).value), Build(pairs[..i]), 0, f)
    ensures !RightAt(keccak, pairs, i + 1)
  {
    hide Build, BuildVia, Fit, Nibs, Tidy, OffEnd, T.WF, T.Clear, T.Insert, T.Overruns, T.StopOf, T.Regrown, Hash, PathOf;
    var b, t, k := BuildVia(keccak, pairs[..i]).value, Build(pairs[..i]), Nibs(pairs[i].0);
    NextBuilt(keccak, pairs, i);
    NextIsTidy(pairs, i);
    FitStop(keccak, Cache(b), t, 0, f, k);
    SeenIsTrie(keccak, Cache(b), t, 0, k);
    if RightAt(keccak, pairs, i + 1) {
      var e := T.StopOf(t, k);
      if e.Some? {
        T.InsertTells(t, k, Behind(Nibs(StopPath(keccak, Cache(b), e.value)), e.value.used), pairs[i].1);
      }
    }
  }

  /** No leaf is of interest. */
  const NONE: Concern := (_, _) => false

  lemma {:induction false} NoneLevel(t: T.Tree, d: nat, v: Bytes, n: nat)
    ensures Level(t, d, NONE, v, n)
    decreases t
  {
    match t
    case Ext(p, c) => NoneLevel(c, d + |p|, v, n);
    case Branch(ch, _) =>
      forall i | 0 <= i < |ch|
        ensures Level(ch[i], d + 1, NONE, v, n)
      {
        NoneLevel(ch[i], d + 1, v, n);
      }
    case _ =>
  }

  lemma NothingYet(keccak: Bytes -> H256, pairs: Pairs, f: Concern)
    ensures Build(pairs[..0]) == T.Nil
    ensures RightAt(keccak, pairs, 0) && Fit(keccak, Cache(BuildVia(keccak, pairs[..0]).value), Build(pairs[..0]), 0, f)
  {
  }

  /** Main law of building: the bindings are built right, each after the other, if and only if none of them stumbles. */
  lemma {:induction false} BuildsRight(keccak: Bytes -> H256, u: iset<Bytes>, pairs: Pairs, n: nat)
    requires n <= |pairs| && Tidy(pairs) && CollisionFree(keccak, u) && KnownBuilds(keccak, u, pairs, n)
    ensures (forall i | 0 <= i <= n :: RightAt(keccak, pairs, i)) <==> (forall i | 0 <= i < n :: !Stumbles(keccak, pairs, i))
    ensures (forall i | 0 <= i < n :: !Stumbles(keccak, pairs, i)) ==>
              RightAt(keccak, pairs, n) && Fit(keccak, Cache(BuildVia(keccak, pairs[..n]).value), Build(pairs[..n]), 0, NONE)
  {
    hide Build, BuildVia, Known, Fit, Tidy, CollisionFree, Level, Stumbles;
    if n == 0 {
      NothingYet(keccak, pairs, NONE);
    } else {
      BuildsRight(keccak, u, pairs, n - 1);
      if forall i | 0 <= i < n - 1 :: !Stumbles(keccak, pairs, i) {
        LastBuilt(keccak, u, pairs, n - 1);
      }
    }
  }

  lemma LastBuilt(keccak: Bytes -> H256, u: iset<Bytes>, pairs: Pairs, i: nat)
    requires i < |pairs| && Tidy(pairs) && CollisionFree(keccak, u) && KnownBuilds(keccak, u, pairs, i + 1)
    requires RightAt(keccak, pairs, i)
    requires Fit(keccak, Cache(BuildVia(keccak, pairs[..i]).value), Build(pairs[..i]), 0, NONE)
    ensures RightAt(keccak, pairs, i + 1) <==> !Stumbles(keccak, pairs, i)
    ensures !Stumbles(keccak, pairs, i) ==>
              Fit(keccak, Cache(BuildVia(keccak, pairs[..i + 1]).value), Build(pairs[..i + 1]), 0, NONE)
  {
    hide Build, BuildVia, Known, Fit, Tidy, CollisionFree, Level, Stumbles, StopAim, Nibs;
    if Stumbles(keccak, pairs, i) {
      Diverges(keccak, pairs, i, NONE);
    } else {
      var t, k, v := Build(pairs[..i]), Nibs(pairs[i].0), pairs[i].1;
      NoneLevel(t, 0, v, |k|);
      NoneLevel(t, 0, StopAim(t, 0, k, v).0, StopAim(t, 0, k, v).1);
      Steady(keccak, u, pairs, i, NONE);
    }
  }

  // ---------------------------------------------------------------------------------------------
  // One length for each value
  // ---------------------------------------------------------------------------------------------

  /** A value is bound to keys of one length only. */
  predicate OneLength(pairs: Pairs) {
    forall x, y | x in pairs && y in pairs && x.1 == y.1 :: |x.0| == |y.0|
  }

  /** Every leaf is of interest. */
  const ANY: Concern := (_, _) => true

  /** A leaf of the trie is one of the bindings. */
  lemma BoundIsPair(pairs: Pairs, i: nat, q: T.Key)
    requires i <= |pairs| && Tidy(pairs) && T.Lookup(Build(pairs[..i]), q).Some?
    ensures exists x | x in pairs[..i] :: Nibs(x.0) == q && Some(x.1) == T.Lookup(Build(pairs[..i]), q)
  {
    hide Build, Tidy, Nibs, T.Lookup, Last;
    TidyFewer(pairs, i);
    BuildBinds(pairs[..i]);
    LastIsThere(pairs[..i], q);
  }

  /** The keys bound to the value of one binding have its length. */
  lemma OneLevel(pairs: Pairs, i: nat, x: (Bytes, Bytes))
    requires i <= |pairs| && Tidy(pairs) && OneLength(pairs) && x in pairs
    ensures T.WF(Build(pairs[..i])) && Level(Build(pairs[..i]), 0, ANY, x.1, 2 * |x.0|)
  {
    hide Build, Tidy, Nibs, T.Lookup, Level, T.WF;
    TidyFewer(pairs, i);
    BuildBinds(pairs[..i]);
    var t := Build(pairs[..i]);
    forall q | T.Lookup(t, q) == Some(x.1)
      ensures |q| == 2 * |x.0|
    {
      BoundIsPair(pairs, i, q);
      var y :| y in pairs[..i] && Nibs(y.0) == q && y.1 == x.1;
      assert y in pairs;
      NibsLength(y.0);
    }
    assert BoundLevel(t, 0, ANY, x.1, 2 * |x.0|);
    LevelIfBound(t, 0, ANY, x.1, 2 * |x.0|);
  }

  lemma StopLevel(pairs: Pairs, i: nat)
    requires i < |pairs| && Tidy(pairs) && OneLength(pairs)
    ensures var t, k, v := Build(pairs[..i]), Nibs(pairs[i].0), pairs[i].1;
            Level(t, 0, ANY, v, |k|) && Level(t, 0, ANY, StopAim(t, 0, k, v).0, StopAim(t, 0, k, v).1)
  {
    hide Build, Tidy, Nibs, T.Lookup, Level, T.WF, OneLength, T.StopOf;
    var t, k, v := Build(pairs[..i]), Nibs(pairs[i].0), pairs[i].1;
    assert pairs[i] in pairs;
    OneLevel(pairs, i, pairs[i]);
    NibsLength(pairs[i].0);
    var e := T.StopOf(t, k);
    if e.Some? {
      var q := T.KeyAt(k, e.value, e.value.suffix);
      T.LookupRegrown(t, k, e.value.suffix, q);
      BoundIsPair(pairs, i, q);
      var y :| y in pairs[..i] && Nibs(y.0) == q && y.1 == e.value.value;
      assert y in pairs;
      NibsLength(y.0);
      OneLevel(pairs, i, y);
    }
  }

  /** If every value is bound to keys of one length only, then only an overrun stumbles. */
  lemma {:induction false} OneLengthIsEnough(keccak: Bytes -> H256, u: iset<Bytes>, pairs: Pairs, n: nat)
    requires n <= |pairs| && Tidy(pairs) && OneLength(pairs) && CollisionFree(keccak, u) && KnownBuilds(keccak, u, pairs, n)
    requires forall i | 0 <= i < n :: !T.Overruns(Build(pairs[..i]), 0, Nibs(pairs[i].0))
    ensures forall i | 0 <= i < n :: !Stumbles(keccak, pairs, i)
    ensures RightAt(keccak, pairs, n) && Fit(keccak, Cache(BuildVia(keccak, pairs[..n]).value), Build(pairs[..n]), 0, ANY)
  {
    hide Build, BuildVia, Known, Fit, Tidy, OneLength, CollisionFree, Level, T.Overruns, Nibs, StopAim;
    if n == 0 {
      NothingYet(keccak, pairs, ANY);
    } else {
      OneLengthIsEnough(keccak, u, pairs, n - 1);
      FitStop(keccak, Cache(BuildVia(keccak, pairs[..n - 1]).value), Build(pairs[..n - 1]), 0, ANY, Nibs(pairs[n - 1].0));
      StopLevel(pairs, n - 1);
      Steady(keccak, u, pairs, n - 1, ANY);
    }
  }

  // ---------------------------------------------------------------------------------------------
  // The method
  // ---------------------------------------------------------------------------------------------

  /** The trie that a binding forms, if it gets there, loses no empty value and is known. */
  ghost predicate Proceeds(keccak: Bytes -> H256, u: iset<Bytes>, b: Built, path: Bytes, v: Bytes) {
    var k := Nibs(path);
    Passes(keccak, Cache(b), b.tree, 0, k) ==>
      && T.Clear(Seen(keccak, Cache(b), b.tree, 0, k), k, v)
      && Known(keccak, u, T.Insert(Seen(keccak, Cache(b), b.tree, 0, k), k, v))
  }

  ghost predicate Orderly(keccak: Bytes -> H256, u: iset<Bytes>, pairs: Pairs) {
    forall i | 0 <= i < |pairs| && BuildVia(keccak, pairs[..i]).Some? ::
      Proceeds(keccak, u, BuildVia(keccak, pairs[..i]).value, pairs[i].0, pairs[i].1)
  }

  /** Bindings are in order when their tries are known and none stumbles, or when the first that does is an overrun. */
  lemma OrderlyUntil(keccak: Bytes -> H256, u: iset<Bytes>, pairs: Pairs, n: nat)
    requires n <= |pairs| && Tidy(pairs) && CollisionFree(keccak, u) && KnownBuilds(keccak, u, pairs, n)
    requires forall i | 0 <= i < n :: !Stumbles(keccak, pairs, i)
    requires n < |pairs| ==> T.Overruns(Build(pairs[..n]), 0, Nibs(pairs[n].0))
    ensures Orderly(keccak, u, pairs)
    ensures BuildVia(keccak, pairs).None? <==> n < |pairs|
    ensures n == |pairs| ==> BuildVia(keccak, pairs).value.tree == Build(pairs)
  {
    hide Build, BuildVia, Known, Fit, Tidy, CollisionFree, Stumbles, T.Overruns, Nibs, Proceeds, Bind;
    BuildsRight(keccak, u, pairs, n);
    assert pairs[..|pairs|] == pairs;
    forall i | 0 <= i < n && RightAt(keccak, pairs, i)
      ensures Proceeds(keccak, u, BuildVia(keccak, pairs[..i]).value, pairs[i].0, pairs[i].1)
    {
      BuildsRight(keccak, u, pairs, i);
      StepProceeds(keccak, u, pairs, i);
    }
    assert RightAt(keccak, pairs, n);
    if n < |pairs| {
      NextBuilt(keccak, pairs, n);
      Stuck(keccak, u, BuildVia(keccak, pairs[..n]).value, pairs[n].0, pairs[n].1);
      StaysStuck(keccak, pairs, n + 1, |pairs|);
      forall i | n < i < |pairs|
        ensures BuildVia(keccak, pairs[..i]).None?
      {
        StaysStuck(keccak, pairs, n + 1, i);
      }
    }
  }

  lemma Stuck(keccak: Bytes -> H256, u: iset<Bytes>, b: Built, path: Bytes, v: Bytes)
    requires T.Overruns(b.tree, 0, Nibs(path))
    ensures Bind(keccak, b, path, v).None? && Proceeds(keccak, u, b, path, v)
  {
    hide Nibs, T.Overruns, OffEnd;
  }

  lemma StepProceeds(keccak: Bytes -> H256, u: iset<Bytes>, pairs: Pairs, i: nat)
    requires i < |pairs| && Tidy(pairs) && KnownBuilds(keccak, u, pairs, i + 1)
    requires RightAt(keccak, pairs, i) && !Stumbles(keccak, pairs, i)
    requires Fit(keccak, Cache(BuildVia(keccak, pairs[..i]).value), Build(pairs[..i]), 0, NONE)
    ensures Proceeds(keccak, u, BuildVia(keccak, pairs[..i]).value, pairs[i].0, pairs[i].1)
  {
    hide Build, BuildVia, Known, Fit, Tidy, Nibs, T.Overruns, OffEnd, Seen, T.WF, T.Clear, T.Insert;
    var b, t, k := BuildVia(keccak, pairs[..i]).value, Build(pairs[..i]), Nibs(pairs[i].0);
    NextBuilt(keccak, pairs, i);
    NextIsTidy(pairs, i);
    FitStop(keccak, Cache(b), t, 0, NONE, k);
    SeenIsTrie(keccak, Cache(b), t, 0, k);
    assert Known(keccak, u, Build(pairs[..i + 1]));
  }

  /** A panic ends the run. */
  lemma {:induction false} StaysStuck(keccak: Bytes -> H256, pairs: Pairs, n: nat, i: nat)
    requires n <= i <= |pairs| && BuildVia(keccak, pairs[..n]).None?
    ensures BuildVia(keccak, pairs[..i]).None?
    decreases i
  {
    hide BuildVia, Bind;
    if n < i {
      StaysStuck(keccak, pairs, n, i - 1);
      NextBuilt(keccak, pairs, i - 1);
    }
  }

  /** No key is bound to an empty value. */
  ghost predicate Full(t: T.Tree) {
    forall q | T.Lookup(t, q).Some? :: T.Lookup(t, q).value != []
  }

  /** Without empty values bindings are in order as soon as the tries that are built are known. */
  lemma FullIsOrderly(keccak: Bytes -> H256, u: iset<Bytes>, pairs: Pairs)
    requires forall x | x in pairs :: x.1 != []
    requires forall i | 0 <= i <= |pairs| && BuildVia(keccak, pairs[..i]).Some? ::
               Known(keccak, u, BuildVia(keccak, pairs[..i]).value.tree)
    ensures Orderly(keccak, u, pairs)
  {
    hide BuildVia, Known, Bind, T.Lookup, T.WF;
    forall i | 0 <= i < |pairs| && BuildVia(keccak, pairs[..i]).Some?
      ensures Proceeds(keccak, u, BuildVia(keccak, pairs[..i]).value, pairs[i].0, pairs[i].1)
    {
      assert pairs[i] in pairs;
      StaysFull(keccak, pairs, i);
      NextBuilt(keccak, pairs, i);
      FullBind(keccak, BuildVia(keccak, pairs[..i]).value, pairs[i].0, pairs[i].1);
      BindProceeds(keccak, u, BuildVia(keccak, pairs[..i]).value, pairs[i].0, pairs[i].1);
    }
  }

  lemma BindProceeds(keccak: Bytes -> H256, u: iset<Bytes>, b: Built, path: Bytes, v: Bytes)
    requires var k := Nibs(path); Passes(keccak, Cache(b), b.tree, 0, k) ==> T.Clear(Seen(keccak, Cache(b), b.tree, 0, k), k, v)
    requires Bind(keccak, b, path, v).Some? ==> Known(keccak, u, Bind(keccak, b, path, v).value.tree)
    ensures Proceeds(keccak, u, b, path, v)
  {
    hide Known, Passes, Seen, T.Clear, T.Insert, Nibs, Writes;
  }

  lemma {:induction false} StaysFull(keccak: Bytes -> H256, pairs: Pairs, i: nat)
    requires i <= |pairs| && (forall x | x in pairs :: x.1 != []) && BuildVia(keccak, pairs[..i]).Some?
    ensures T.WF(BuildVia(keccak, pairs[..i]).value.tree) && Full(BuildVia(keccak, pairs[..i]).value.tree)
    decreases i
  {
    hide Bind, Full;
    if i == 0 {
      assert Full(T.Nil) by { NothingBuilt(); NothingFull(); }
    } else {
      assert pairs[i - 1] in pairs;
      NextBuilt(keccak, pairs, i - 1);
      StaysFull(keccak, pairs, i - 1);
      FullBind(keccak, BuildVia(keccak, pairs[..i - 1]).value, pairs[i - 1].0, pairs[i - 1].1);
    }
  }

  lemma NothingFull()
    ensures Full(T.Nil)
  {
  }

  lemma FullBind(keccak: Bytes -> H256, b: Built, path: Bytes, v: Bytes)
    requires T.WF(b.tree) && Full(b.tree) && v != []
    ensures var k := Nibs(path); Passes(keccak, Cache(b), b.tree, 0, k) ==> T.Clear(Seen(keccak, Cache(b), b.tree, 0, k), k, v)
    ensures var b2 := Bind(keccak, b, path, v); b2.Some? ==> T.WF(b2.value.tree) && Full(b2.value.tree)
  {
    hide Nibs, T.WF, T.Lookup, T.Insert, T.Clear, Seen, Passes, Writes;
    var k := Nibs(path);
    var seen := Seen(keccak, Cache(b), b.tree, 0, k);
    SeenWF(keccak, Cache(b), b.tree, 0, k);
    SeenFull(keccak, Cache(b), b.tree, k);
    T.ClearMeans(seen, k, v);
    T.InsertWF(seen, k, v);
    forall q
      ensures T.Lookup(T.Insert(seen, k, v), q) == if q == k then Some(v) else T.Lookup(seen, q)
    {
      T.LookupInsert(seen, k, v, q);
    }
  }

  lemma SeenFull(keccak: Bytes -> H256, m: Store, t: T.Tree, k: T.Key)
    requires Full(t)
    ensures Full(Seen(keccak, m, t, 0, k))
  {
    hide Nibs, T.Lookup, T.StopOf, T.Regrown, Hash, PathOf;
    var e := T.StopOf(t, k);
    if e.Some? {
      var s := Behind(Nibs(StopPath(keccak, m, e.value)), 0 + e.value.used);
      forall q
        ensures T.Lookup(T.Regrown(t, k, s), q).Some? ==> T.Lookup(T.Regrown(t, k, s), q).value != []
      {
        T.LookupRegrown(t, k, s, q);
      }
    }
  }

  /**
    * The hash of the trie that is built, or nothing on a panic. It is the trie of all bindings when none of them stumbles
    * (`BuildsRight` says that none before is wrong then, and the first that does stumble is).
    */
  method ComputeHashFromUnsorted(keccak: Bytes -> H256, pairs: Pairs, ghost u: iset<Bytes>) returns (digest: Option<H256>)
    requires (forall x | x in pairs :: |x.0| < MAX_LEN) && CollisionFree(keccak, u) && Orderly(keccak, u, pairs)
    ensures var b := BuildVia(keccak, pairs);
            digest == if b.None? then None else Some(Digest(keccak, b.value.tree))
  {
    hide BuildVia, Bind, Known, CollisionFree, Nibs, Digest, Trie.Valid, CachedLeaves, Proceeds;
    var trie := new Trie(keccak);
    BuiltNothing(keccak, pairs, trie.state.Value());
    for i := 0 to |pairs|
      invariant fresh(trie) && fresh(trie.state) && trie.Valid() && trie.state.keccak == keccak && trie.state.db == map[]
      invariant trie.known <= u && !trie.lost
      invariant BuildVia(keccak, pairs[..i]) == Some(Built(trie.tree, CachedLeaves(trie.state.Value())))
    {
      NextBuilt(keccak, pairs, i);
      assert Proceeds(keccak, u, BuildVia(keccak, pairs[..i]).value, pairs[i].0, pairs[i].1);
      assert pairs[i] in pairs;
      var ok := InsertNext(trie, pairs[i].0, pairs[i].1, u);
      if !ok {
        StaysStuck(keccak, pairs, i + 1, |pairs|);
        assert pairs[..|pairs|] == pairs;
        return None;
      }
    }
    assert pairs[..|pairs|] == pairs;
    var hash := trie.RootHashInMemory();
    digest := Some(hash);
  }

  lemma BuiltNothing(keccak: Bytes -> H256, pairs: Pairs, m: Store)
    requires m == Store(map[], map[])
    ensures BuildVia(keccak, pairs[..0]) == Some(Built(T.Nil, CachedLeaves(m)))
  {
  }

  /** A walk sees the same with the leaves of a sound store as with the store. */
  lemma LeavesSuffice(keccak: Bytes -> H256, u: iset<Bytes>, keys: iset<Binding>, m: Store, t: T.Tree, k: T.Key)
    requires CollisionFree(keccak, u) && Known(keccak, u, t) && T.Placed(t, 0) && Sound(keccak, u, keys, m) && m.db == map[]
    ensures var b := Store(CachedLeaves(m), map[]);
            && Passes(keccak, b, t, 0, k) == Passes(keccak, m, t, 0, k) && Seen(keccak, b, t, 0, k) == Seen(keccak, m, t, 0, k)
            && OwnPath(keccak, b, t, k) == OwnPath(keccak, m, t, k)
  {
    hide Known, Sound, Hash, T.StopOf, T.Placed, T.Overruns, CachedLeaves, Nibs, PathOf;
    var e := T.StopOf(t, k);
    if e.Some? {
      StopKnown(keccak, u, t, 0, k);
      SamePath(keccak, u, keys, m, T.Leaf(e.value.suffix, e.value.value), e.value.used);
    }
  }

  lemma {:induction false} StopKnown(keccak: Bytes -> H256, u: iset<Bytes>, t: T.Tree, d: nat, k: T.Key)
    requires Known(keccak, u, t) && T.Placed(t, d) && T.StopOf(t, k).Some?
    ensures var e := T.StopOf(t, k).value;
            Known(keccak, u, T.Leaf(e.suffix, e.value)) && T.Placed(T.Leaf(e.suffix, e.value), d + e.used)
    decreases t
  {
    hide Known;
    KnownChild(keccak, u, t);
    match t
    case Leaf(_, _) =>
    case Ext(p, c) => StopKnown(keccak, u, c, d + |p|, k[|p|..]);
    case Branch(ch, _) => StopKnown(keccak, u, ch[k[0]], d + 1, k[1..]);
  }

  lemma SamePath(keccak: Bytes -> H256, u: iset<Bytes>, keys: iset<Binding>, m: Store, t: T.Tree, d: nat)
    requires CollisionFree(keccak, u) && Known(keccak, u, t) && t.Leaf? && T.Placed(t, d)
    requires Sound(keccak, u, keys, m) && m.db == map[]
    ensures PathOf(Store(CachedLeaves(m), map[]), Hash(keccak, t)) == PathOf(m, Hash(keccak, t))
  {
    hide Known, Hash, Matches, CollisionFree, T.Placed, Genuine, RefsIn, DbEntryOk;
    var h := Hash(keccak, t);
    if h in m.cache {
      assert CacheEntryOk(keccak, u, keys, m, h);
      SameTrie(keccak, u, keys, h, m.cache[h], t, d);
      KindOfMatch(keccak, keys, m.cache[h], t, d);
    }
  }

  /** One step of the loop. */
  method InsertNext(trie: Trie, path: Bytes, value: Bytes, ghost u: iset<Bytes>) returns (ok: bool)
    requires trie.Valid() && !trie.lost && trie.state.db == map[] && |path| < MAX_LEN
    requires trie.known <= u && CollisionFree(trie.state.keccak, u)
    requires Proceeds(trie.state.keccak, u, Built(trie.tree, CachedLeaves(trie.state.Value())), path, value)
    modifies trie, trie.state`cache
    ensures var b := Bind(trie.state.keccak, old(Built(trie.tree, CachedLeaves(trie.state.Value()))), path, value);
            && (ok <==> b.Some?)
            && (ok ==> b.value == Built(trie.tree, CachedLeaves(trie.state.Value())))
    ensures ok ==> trie.Valid() && trie.known <= u && !trie.lost
  {
    hide T.Insert, T.Clear, T.Overruns, T.Placed, Known, Nibs, Hash, CollisionFree, Seen, Passes, OwnPath, Writes, CachedLeaves;
    hide Sound, Gains, InPlace, NewBindings;
    LeavesSuffice(trie.state.keccak, trie.known, trie.keys, trie.state.Value(), trie.tree, Nibs(path));
    ok := trie.Insert(path, value, u);
  }

  // ---------------------------------------------------------------------------------------------
  // Keys whose first byte tells their length
  // ---------------------------------------------------------------------------------------------

  ghost predicate FirstByteSizes(pairs: Pairs) {
    && (forall x | x in pairs :: x.0 != [])
    && forall x, y | x in pairs && y in pairs && x.0[0] == y.0[0] :: |x.0| == |y.0|
  }

  lemma FirstNibs(a: Bytes, b: Bytes)
    requires a != [] && b != [] && Nibs(a)[..2] == Nibs(b)[..2]
    ensures a[0] == b[0]
  {
    NibsAt(a, 0);
    NibsAt(b, 0);
    assert Nibs(a)[0] == Nibs(a)[..2][0] && Nibs(a)[1] == Nibs(a)[..2][1];
    assert Nibs(b)[0] == Nibs(b)[..2][0] && Nibs(b)[1] == Nibs(b)[..2][1];
  }

  /** With such keys no key is a prefix of another, and no insertion overruns. */
  lemma FirstByteIsEnough(pairs: Pairs)
    requires FirstByteSizes(pairs)
    ensures Tidy(pairs)
    ensures forall i | 0 <= i < |pairs| :: !T.Overruns(Build(pairs[..i]), 0, Nibs(pairs[i].0))
  {
    hide Nibs, T.Overruns, Build;
    forall x, y | x in pairs && y in pairs && x.0 != y.0
      ensures !(Nibs(x.0) <= Nibs(y.0))
    {
      NoPrefix(pairs, x, y);
    }
    forall i | 0 <= i < |pairs|
      ensures !T.Overruns(Build(pairs[..i]), 0, Nibs(pairs[i].0))
    {
      NoOverrun(pairs, i);
    }
  }

  lemma NoPrefix(pairs: Pairs, x: (Bytes, Bytes), y: (Bytes, Bytes))
    requires FirstByteSizes(pairs) && x in pairs && y in pairs && x.0 != y.0
    ensures !(Nibs(x.0) <= Nibs(y.0))
  {
    hide Nibs;
    if Nibs(x.0) <= Nibs(y.0) {
      SameStart(Nibs(x.0), Nibs(y.0));
      FirstNibs(x.0, y.0);
      NibsInjective(x.0, y.0);
      assert false;
    }
  }

  lemma SameStart(a: T.Key, b: T.Key)
    requires a <= b && |a| >= 2
    ensures a[..2] == b[..2]
    ensures |a| == |b| ==> a == b
  {
  }

  lemma NoOverrun(pairs: Pairs, i: nat)
    requires FirstByteSizes(pairs) && Tidy(pairs) && i < |pairs|
    ensures !T.Overruns(Build(pairs[..i]), 0, Nibs(pairs[i].0))
  {
    hide Nibs, T.Overruns, Build, Tidy, T.WF, T.Lookup;
    var rest, k := pairs[..i], Nibs(pairs[i].0);
    assert pairs[i] in pairs;
    TidyFewer(pairs, i);
    BuildBinds(rest);
    forall q | T.Lookup(Build(rest), q).Some? && |q| >= 2 && |k| >= 2 && q[..2] == k[..2]
      ensures |q| == |k|
    {
      LastIsThere(rest, q);
      var x :| x in rest && Nibs(x.0) == q;
      assert x in pairs;
      FirstNibs(x.0, pairs[i].0);
    }
    T.FirstByteTells(Build(rest), k);
  }
}
