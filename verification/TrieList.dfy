/**
  * Lists under the RLP encodings of 0, 1, 2, ...: the tries whose hashes are the transactions, receipts and withdrawals roots
  * of a block (`crates/core/types/block.rs`).
  */
module TrieList {
  import opened Prelude
  import opened BigEndian
  import opened Rlp
  import opened Nibbles
  import opened TrieNode
  import opened TrieHash
  import opened TrieStore
  import opened TrieWalk
  import opened TrieFit
  import opened Trie
  import opened TrieBuild
  import T = TrieTree

  /** The bindings of a list: each element under the RLP encoding of its index. */
  function Indexed(vs: seq<Bytes>): (r: Pairs)
    ensures |r| == |vs| && forall i | 0 <= i < |vs| :: r[i] == (EncodeUint(i), vs[i])
  {
    seq(|vs|, i requires 0 <= i < |vs| => (EncodeUint(i), vs[i]))
  }

  /** The first byte of an encoded integer tells how long it is. */
  lemma UintFirstByte(n: nat)
    requires n < USIZE_LIMIT
    ensures EncodeUint(n)[0] <= 0x88
    ensures |EncodeUint(n)| == if EncodeUint(n)[0] < 0x80 then 1 else 1 + EncodeUint(n)[0] - 0x80
  {
    if n != 0 {
      LengthBytes(n);
    }
  }

  lemma UintInjective(n: nat, m: nat)
    requires n < USIZE_LIMIT && m < USIZE_LIMIT && EncodeUint(n) == EncodeUint(m)
    ensures n == m
  {
    UintFirstByte(n);
    UintFirstByte(m);
    DecodeEncodedBytes(MinimalBE(n), []);
    DecodeEncodedBytes(MinimalBE(m), []);
    FromMinimal(n);
    FromMinimal(m);
  }

  lemma IndexedKeys(vs: seq<Bytes>)
    requires |vs| < USIZE_LIMIT
    ensures FirstByteSizes(Indexed(vs)) && DistinctKeys(Indexed(vs))
  {
    hide EncodeUint;
    var pairs := Indexed(vs);
    forall x, y | x in pairs && y in pairs && x.0[0] == y.0[0]
      ensures |x.0| == |y.0|
    {
      var i :| 0 <= i < |vs| && x == pairs[i];
      var j :| 0 <= j < |vs| && y == pairs[j];
      UintFirstByte(i);
      UintFirstByte(j);
    }
    forall i, j | 0 <= i < j < |pairs|
      ensures pairs[i].0 != pairs[j].0
    {
      if pairs[i].0 == pairs[j].0 {
        UintInjective(i, j);
      }
    }
  }

  /** Main law of list roots: for every list, in every order, the trie is the same, and no key overruns. */
  lemma IndexedBuilds(vs: seq<Bytes>, order: Pairs)
    requires |vs| < USIZE_LIMIT && multiset(order) == multiset(Indexed(vs))
    ensures Tidy(order) && Build(order) == Build(Indexed(vs))
    ensures forall i | 0 <= i < |order| :: !T.Overruns(Build(order[..i]), 0, Nibs(order[i].0))
  {
    hide Build, Indexed, Tidy, T.Overruns, Nibs;
    IndexedKeys(vs);
    FirstByteIsEnough(Indexed(vs));
    PermutationIsIrrelevant(Indexed(vs), order);
    SizesAnyOrder(Indexed(vs), order);
    FirstByteIsEnough(order);
  }

  /** Any order is built right if the indices of equal elements are encoded in one length. */
  lemma AnyOrder(keccak: Bytes -> H256, u: iset<Bytes>, vs: seq<Bytes>, order: Pairs)
    requires |vs| < USIZE_LIMIT && multiset(order) == multiset(Indexed(vs)) && OneLength(order)
    requires CollisionFree(keccak, u) && KnownBuilds(keccak, u, order, |order|)
    ensures forall i :: !Stumbles(keccak, order, i)
    ensures BuildVia(keccak, order).Some? && BuildVia(keccak, order).value.tree == Build(Indexed(vs))
  {
    hide Build, BuildVia, Indexed, Tidy, OneLength, CollisionFree, Known, T.Overruns, Nibs, Fit;
    IndexedBuilds(vs, order);
    OneLengthIsEnough(keccak, u, order, |order|);
    assert order[..|order|] == order;
  }

  lemma SizesAnyOrder(a: Pairs, b: Pairs)
    requires FirstByteSizes(a) && multiset(a) == multiset(b)
    ensures FirstByteSizes(b)
  {
    assert forall x | x in b :: x in multiset(b);
    assert forall x | x in multiset(a) :: x in a;
  }

  /** A list root tells the list: two lists have one root if and only if they are equal. */
  lemma RootTellsList(keccak: Bytes -> H256, u: iset<Bytes>, vs: seq<Bytes>, ws: seq<Bytes>)
    requires |vs| < USIZE_LIMIT && |ws| < USIZE_LIMIT && CollisionFree(keccak, u) && [RLP_NULL] in u
    requires Known(keccak, u, Build(Indexed(vs))) && Known(keccak, u, Build(Indexed(ws)))
    ensures Digest(keccak, Build(Indexed(vs))) == Digest(keccak, Build(Indexed(ws))) <==> vs == ws
  {
    hide Known, Digest, Build, CollisionFree, EncodeUint;
    if Digest(keccak, Build(Indexed(vs))) == Digest(keccak, Build(Indexed(ws))) {
      DigestTellsContents(keccak, u, Build(Indexed(vs)), Build(Indexed(ws)));
      SameContents(vs, ws);
    }
  }

  lemma SameContents(vs: seq<Bytes>, ws: seq<Bytes>)
    requires |vs| < USIZE_LIMIT && |ws| < USIZE_LIMIT && T.Agree(Build(Indexed(vs)), Build(Indexed(ws)))
    ensures vs == ws
  {
    hide Build, EncodeUint, Nibs, T.Lookup, Last;
    var a, b := Indexed(vs), Indexed(ws);
    IndexedKeys(vs);
    IndexedKeys(ws);
    FirstByteIsEnough(a);
    FirstByteIsEnough(b);
    BuildBinds(a);
    BuildBinds(b);
    forall i | 0 <= i < |vs|
      ensures i < |ws| && vs[i] == ws[i]
    {
      SameEntry(vs, ws, i);
    }
    if |ws| > |vs| {
      SameEntry(ws, vs, |vs|);
    }
  }

  lemma SameEntry(vs: seq<Bytes>, ws: seq<Bytes>, i: nat)
    requires |vs| < USIZE_LIMIT && |ws| < USIZE_LIMIT && i < |vs|
    requires forall q :: Last(Indexed(vs), q) == Last(Indexed(ws), q)
    ensures i < |ws| && vs[i] == ws[i]
  {
    hide EncodeUint, Nibs, Last;
    var a, b := Indexed(vs), Indexed(ws);
    IndexedKeys(vs);
    IndexedKeys(ws);
    assert a[i] in a;
    LastOfDistinct(a, a[i]);
    LastIsThere(b, Nibs(a[i].0));
    var x :| x in b && Nibs(x.0) == Nibs(a[i].0) && x.1 == vs[i];
    NibsInjective(x.0, a[i].0);
    var j :| 0 <= j < |ws| && b[j] == x;
    UintInjective(i, j);
  }

  // ---------------------------------------------------------------------------------------------
  // In the order of the indices
  // ---------------------------------------------------------------------------------------------

  lemma {:induction false} MinimalGrows(n: nat, m: nat)
    requires n <= m
    ensures |MinimalBE(n)| <= |MinimalBE(m)|
    decreases m
  {
    if n != 0 {
      MinimalGrows(n / 256, m / 256);
    }
  }

  lemma ShortUint(n: nat)
    requires n < 128
    ensures |EncodeUint(n)| == 1
    ensures n == 0 ==> EncodeUint(n) == [0x80]
  {
    if n != 0 {
      assert n / 256 == 0 && n % 256 == n;
      assert MinimalBE(0) == [] && MinimalBE(n) == [n];
    }
  }

  lemma LongUint(n: nat)
    requires 128 <= n < USIZE_LIMIT
    ensures EncodeUint(n)[0] / 16 == 8 && |EncodeUint(n)| == 1 + |MinimalBE(n)| >= 2
  {
    LengthBytes(n);
    if n < 256 {
      assert n / 256 == 0 && n % 256 == n;
      assert MinimalBE(0) == [] && MinimalBE(n) == [n];
    } else {
      MinimalGrows(256, n);
      assert MinimalBE(256) == MinimalBE(1) + [0];
    }
  }

  /** Later indices do not have shorter encodings. */
  lemma UintGrows(n: nat, m: nat)
    requires n <= m < USIZE_LIMIT
    ensures |EncodeUint(n)| <= |EncodeUint(m)|
  {
    hide EncodeUint;
    if n < 128 {
      ShortUint(n);
      UintFirstByte(m);
    } else {
      LongUint(n);
      LongUint(m);
      MinimalGrows(n, m);
    }
  }

  lemma Bound(vs: seq<Bytes>, i: nat, j: nat)
    requires |vs| < USIZE_LIMIT && j < i <= |vs|
    ensures T.Lookup(Build(Indexed(vs)[..i]), Nibs(EncodeUint(j))) == Some(vs[j])
  {
    hide Build, EncodeUint, Nibs, T.Lookup, Last, Tidy;
    var pairs := Indexed(vs)[..i];
    IndexedKeys(vs);
    FirstByteIsEnough(Indexed(vs));
    TidyFewer(Indexed(vs), i);
    BuildBinds(pairs);
    assert pairs[j] == (EncodeUint(j), vs[j]) && pairs[j] in pairs;
    LastOfDistinct(pairs, pairs[j]);
  }

  lemma BoundIndex(vs: seq<Bytes>, i: nat, q: T.Key) returns (j: nat)
    requires |vs| < USIZE_LIMIT && i <= |vs| && T.Lookup(Build(Indexed(vs)[..i]), q).Some?
    ensures j < i && Nibs(EncodeUint(j)) == q
  {
    hide Build, EncodeUint, Nibs, T.Lookup, Tidy;
    IndexedKeys(vs);
    FirstByteIsEnough(Indexed(vs));
    BoundIsPair(Indexed(vs), i, q);
    var x :| x in Indexed(vs)[..i] && Nibs(x.0) == q;
    j :| 0 <= j < i && Indexed(vs)[..i][j] == x;
  }

  lemma NibsStart(a: Bytes)
    requires a != []
    ensures Nibs(a)[0] == a[0] / 16
  {
    NibsAt(a, 0);
  }

  /**
    * In the order of the indices, the leaf at the end of a walk has a key as long as the one bound last: once the keys of the
    * next length have begun, the walks no longer end at the leaves of shorter keys.
    */
  lemma EndLength(vs: seq<Bytes>, i: nat)
    requires 0 < i < |vs| < USIZE_LIMIT
    ensures var e := T.StopOf(Build(Indexed(vs)[..i]), Nibs(EncodeUint(i)));
            e.Some? ==> e.value.used + |e.value.suffix| == 2 * |EncodeUint(i - 1)|
  {
    hide Build, EncodeUint, Nibs, T.Lookup, T.StopOf;
    var t, k := Build(Indexed(vs)[..i]), Nibs(EncodeUint(i));
    if T.StopOf(t, k).Some? {
      var e := T.StopOf(t, k).value;
      var q := T.KeyAt(k, e, e.suffix);
      T.LookupRegrown(t, k, e.suffix, q);
      var j := BoundIndex(vs, i, q);
      NibsLength(EncodeUint(j));
      if i <= 128 {
        ShortUint(j);
        ShortUint(i - 1);
      } else {
        if e.used < 2 {
          NotAlone(vs, i, e);
        }
        SameFirst(k, e);
        FirstNibs(EncodeUint(i), EncodeUint(j));
        UintFirstByte(i);
        UintFirstByte(j);
        UintGrows(j, i - 1);
        UintGrows(i - 1, i);
      }
    }
  }

  lemma SameFirst(k: T.Key, e: T.Stop)
    requires 2 <= e.used <= |k|
    ensures k[..2] == T.KeyAt(k, e, e.suffix)[..2]
  {
  }

  /** The keys of 0 and 128 begin with the nibble that all later keys begin with. */
  lemma NotAlone(vs: seq<Bytes>, i: nat, e: T.Stop)
    requires 128 < i < |vs| < USIZE_LIMIT
    requires T.StopOf(Build(Indexed(vs)[..i]), Nibs(EncodeUint(i))) == Some(e)
    ensures e.used >= 2
  {
    hide Build, EncodeUint, Nibs, T.Lookup, T.StopOf;
    var t, k, a, b := Build(Indexed(vs)[..i]), Nibs(EncodeUint(i)), Nibs(EncodeUint(0)), Nibs(EncodeUint(128));
    Bound(vs, i, 0);
    Bound(vs, i, 128);
    ShortUint(0);
    LongUint(128);
    LongUint(i);
    NibsStart(EncodeUint(0));
    NibsStart(EncodeUint(128));
    NibsStart(EncodeUint(i));
    NibsLength(EncodeUint(0));
    NibsLength(EncodeUint(128));
    if e.used < 2 {
      assert a[..e.used] == k[..e.used] && b[..e.used] == k[..e.used];
      T.StopAlone(t, k, a);
      T.StopAlone(t, k, b);
      assert false;
    }
  }

  /** The leaves whose keys have at least this many nibbles. */
  function AtLeast(n: nat): Concern {
    (x, _) => x >= n
  }

  lemma {:induction false} FitLess(keccak: Bytes -> H256, m: Store, t: T.Tree, d: nat, n: nat, l: nat)
    requires Fit(keccak, m, t, d, AtLeast(n)) && n <= l
    ensures Fit(keccak, m, t, d, AtLeast(l))
    decreases t
  {
    hide Hash, PathOf, Ends;
    match t
    case Ext(p, c) => FitLess(keccak, m, c, d + |p|, n, l);
    case Branch(ch, _) =>
      forall i | 0 <= i < |ch|
        ensures Fit(keccak, m, ch[i], d + 1, AtLeast(l))
      {
        FitLess(keccak, m, ch[i], d + 1, n, l);
      }
    case _ =>
  }

  /** No key bound so far is longer than the last one. */
  lemma LongestLevel(vs: seq<Bytes>, i: nat, n: nat, v: Bytes)
    requires 0 < i <= |vs| < USIZE_LIMIT && n >= 2 * |EncodeUint(i - 1)|
    ensures Level(Build(Indexed(vs)[..i]), 0, AtLeast(n), v, n)
  {
    hide Build, EncodeUint, Nibs, T.Lookup, Level, T.WF, Tidy;
    var t := Build(Indexed(vs)[..i]);
    IndexedKeys(vs);
    FirstByteIsEnough(Indexed(vs));
    TidyFewer(Indexed(vs), i);
    BuildBinds(Indexed(vs)[..i]);
    forall q | T.Lookup(t, q) == Some(v) && |q| >= n
      ensures |q| == n
    {
      var j := BoundIndex(vs, i, q);
      UintGrows(j, i - 1);
      NibsLength(EncodeUint(j));
    }
    assert BoundLevel(t, 0, AtLeast(n), v, n);
    LevelIfBound(t, 0, AtLeast(n), v, n);
  }

  /** No leaf at all is of interest when its key would have to be longer than the last one. */
  lemma LongerLevel(vs: seq<Bytes>, i: nat, n: nat, v: Bytes, l: nat)
    requires 0 < i <= |vs| < USIZE_LIMIT && n > 2 * |EncodeUint(i - 1)|
    ensures Level(Build(Indexed(vs)[..i]), 0, AtLeast(n), v, l)
  {
    hide Build, EncodeUint, Nibs, T.Lookup, Level, T.WF, Tidy;
    var t := Build(Indexed(vs)[..i]);
    IndexedKeys(vs);
    FirstByteIsEnough(Indexed(vs));
    TidyFewer(Indexed(vs), i);
    BuildBinds(Indexed(vs)[..i]);
    forall q | T.Lookup(t, q) == Some(v)
      ensures |q| < n
    {
      var j := BoundIndex(vs, i, q);
      UintGrows(j, i - 1);
      NibsLength(EncodeUint(j));
    }
    assert BoundLevel(t, 0, AtLeast(n), v, l);
    LevelIfBound(t, 0, AtLeast(n), v, l);
  }

  /** In the order of the indices nothing stumbles, whatever the elements are. */
  lemma {:induction false} IndexOrder(keccak: Bytes -> H256, u: iset<Bytes>, vs: seq<Bytes>, n: nat)
    requires n <= |vs| < USIZE_LIMIT && CollisionFree(keccak, u) && KnownBuilds(keccak, u, Indexed(vs), n)
    ensures forall i | 0 <= i < n :: !Stumbles(keccak, Indexed(vs), i)
    ensures RightAt(keccak, Indexed(vs), n)
    ensures n > 0 ==>
              Fit(keccak, Cache(BuildVia(keccak, Indexed(vs)[..n]).value), Build(Indexed(vs)[..n]), 0,
                  AtLeast(2 * |EncodeUint(n - 1)|))
  {
    hide Build, BuildVia, Known, Fit, Tidy, CollisionFree, Level, T.Overruns, Nibs, StopAim, EncodeUint;
    if n == 0 {
      NothingYet(keccak, Indexed(vs), NONE);
    } else {
      IndexOrder(keccak, u, vs, n - 1);
      NextIndex(keccak, u, vs, n - 1);
    }
  }

  lemma NextIndex(keccak: Bytes -> H256, u: iset<Bytes>, vs: seq<Bytes>, i: nat)
    requires i < |vs| < USIZE_LIMIT && CollisionFree(keccak, u) && KnownBuilds(keccak, u, Indexed(vs), i + 1)
    requires RightAt(keccak, Indexed(vs), i)
    requires i > 0 ==>
               Fit(keccak, Cache(BuildVia(keccak, Indexed(vs)[..i]).value), Build(Indexed(vs)[..i]), 0,
                   AtLeast(2 * |EncodeUint(i - 1)|))
    ensures !Stumbles(keccak, Indexed(vs), i) && RightAt(keccak, Indexed(vs), i + 1)
    ensures Fit(keccak, Cache(BuildVia(keccak, Indexed(vs)[..i + 1]).value), Build(Indexed(vs)[..i + 1]), 0,
                AtLeast(2 * |EncodeUint(i)|))
  {
    hide Build, BuildVia, Known, Fit, Tidy, CollisionFree, Level, T.Overruns, Nibs, EncodeUint, T.StopOf, AtLeast, InPlace;
    var pairs, n := Indexed(vs), 2 * |EncodeUint(i)|;
    var t, k, b := Build(pairs[..i]), Nibs(EncodeUint(i)), BuildVia(keccak, pairs[..i]).value;
    IndexedKeys(vs);
    FirstByteIsEnough(pairs);
    NibsLength(EncodeUint(i));
    if i == 0 {
      NothingYet(keccak, pairs, AtLeast(n));
      FirstIndex(keccak, b, k, vs[i], AtLeast(n));
    } else {
      EndLength(vs, i);
      EndInPlace(keccak, Cache(b), t, k, 2 * |EncodeUint(i - 1)|);
      UintGrows(i - 1, i);
      FitLess(keccak, Cache(b), t, 0, 2 * |EncodeUint(i - 1)|, n);
      LongestLevel(vs, i, n, vs[i]);
      var e := StopAim(t, 0, k, vs[i]);
      if n == 2 * |EncodeUint(i - 1)| {
        LongestLevel(vs, i, n, e.0);
      } else {
        LongerLevel(vs, i, n, e.0, e.1);
      }
    }
    Steady(keccak, u, pairs, i, AtLeast(n));
  }

  lemma EndInPlace(keccak: Bytes -> H256, m: Store, t: T.Tree, k: T.Key, n: nat)
    requires Fit(keccak, m, t, 0, AtLeast(n))
    requires var e := T.StopOf(t, k); e.Some? ==> e.value.used + |e.value.suffix| == n
    ensures InPlace(keccak, m, t, 0, k)
  {
    hide Fit, T.StopOf, InPlace;
    FitStop(keccak, m, t, 0, AtLeast(n), k);
  }

  lemma FirstIndex(keccak: Bytes -> H256, b: Built, k: T.Key, v: Bytes, f: Concern)
    requires b.tree == T.Nil
    ensures InPlace(keccak, Cache(b), b.tree, 0, k) && Level(b.tree, 0, f, v, |k|)
    ensures StopAim(b.tree, 0, k, v) == (v, |k|)
  {
  }

  /** The root of a list, whatever its elements are. */
  method ListRoot(keccak: Bytes -> H256, vs: seq<Bytes>, ghost u: iset<Bytes>) returns (digest: H256)
    requires |vs| < USIZE_LIMIT && CollisionFree(keccak, u) && KnownBuilds(keccak, u, Indexed(vs), |vs|)
    ensures digest == Digest(keccak, Build(Indexed(vs)))
  {
    hide Known, Build, BuildVia, Tidy, Stumbles, Fit, EncodeUint, CollisionFree, Orderly, T.Overruns, Digest;
    var pairs := Indexed(vs);
    IndexedKeys(vs);
    FirstByteIsEnough(pairs);
    IndexOrder(keccak, u, vs, |vs|);
    OrderlyUntil(keccak, u, pairs, |vs|);
    ShortKeys(vs);
    var r := ComputeHashFromUnsorted(keccak, pairs, u);
    digest := r.value;
  }

  lemma ShortKeys(vs: seq<Bytes>)
    requires |vs| < USIZE_LIMIT
    ensures forall x | x in Indexed(vs) :: |x.0| < MAX_LEN
  {
    hide EncodeUint;
    forall x | x in Indexed(vs)
      ensures |x.0| < MAX_LEN
    {
      var i :| 0 <= i < |vs| && x == Indexed(vs)[i];
      UintFirstByte(i);
    }
  }
}
