/**
  * The Merkle Patricia trie as a tree of values: what `get`, `insert` and `remove` of the files of `crates/trie/node` do to
  * the shape of the trie, for keys of any length. Node hashes are added in `TrieHash`, the store in `TrieStore`.
  */
module TrieTree {
  import opened Prelude
  import opened Nibbles

  type Key = seq<nibble>

  /** A branch has a value of its own unless that value is empty, as in the source. */
  datatype Tree =
    | Nil
    | Leaf(suffix: Key, value: Bytes)
    | Ext(prefix: Key, child: Tree)
    | Branch(children: seq<Tree>, value: Bytes)

  predicate TwoChildren(ch: seq<Tree>) {
    exists i, j | 0 <= i < j < |ch| :: !ch[i].Nil? && !ch[j].Nil?
  }

  predicate SomeChild(ch: seq<Tree>) {
    exists i | 0 <= i < |ch| :: !ch[i].Nil?
  }

  /** The canonical form: no branch could be replaced by a smaller node. */
  predicate WF(t: Tree) {
    match t
    case Nil => true
    case Leaf(_, _) => true
    case Ext(p, c) => p != [] && c.Branch? && WF(c)
    case Branch(ch, w) =>
      && |ch| == 16
      && (if w == [] then TwoChildren(ch) else SomeChild(ch))
      && forall i | 0 <= i < |ch| :: WF(ch[i])
  }

  /** What a branch shows of its own value: an empty one counts as none. */
  function Own(w: Bytes): Option<Bytes> {
    if w == [] then None else Some(w)
  }

  function Lookup(t: Tree, k: Key): (r: Option<Bytes>) {
    match t
    case Nil => None
    case Leaf(s, v) => if s == k then Some(v) else None
    case Ext(p, c) => if p <= k then Lookup(c, k[|p|..]) else None
    case Branch(ch, w) => if k == [] then Own(w) else if k[0] < |ch| then Lookup(ch[k[0]], k[1..]) else None
  }

  function NoChildren(n: nat): (r: seq<Tree>)
    ensures |r| == n && forall i | 0 <= i < n :: r[i] == Nil
  {
    if n == 0 then [] else NoChildren(n - 1) + [Nil]
  }

  /** An extension node in front of a branch, left out when it would be empty. */
  function Prefixed(p: Key, t: Tree): Tree {
    if p == [] then t else Ext(p, t)
  }

  /** Binds what is left of a key at a branch with room for it. */
  function Put(b: Tree, r: Key, v: Bytes): (t: Tree)
    requires b.Branch? && |b.children| == 16
    ensures t.Branch? && |t.children| == 16
  {
    if r == [] then Branch(b.children, v) else Branch(b.children[r[0] := Leaf(r[1..], v)], b.value)
  }

  const BARE: Tree := Branch(NoChildren(16), [])

  /** A branch that leads nowhere but to `t`. */
  function Stem(i: nibble, t: Tree): (b: Tree)
    ensures b.Branch? && |b.children| == 16
  {
    Branch(NoChildren(16)[i := t], [])
  }

  // ---------------------------------------------------------------------------------------------
  // Insertion
  // ---------------------------------------------------------------------------------------------

  /** Where a leaf has to give way to a branch, and what that branch holds. */
  function SplitLeaf(s: Key, w: Bytes, k: Key, v: Bytes): Tree {
    var o := Lcp(s, k);
    Prefixed(k[..o], Put(Put(BARE, s[o..], w), k[o..], v))
  }

  function SplitExt(p: Key, c: Tree, k: Key, v: Bytes): Tree
    requires !(p <= k)
  {
    LcpShort(p, k);
    var o := Lcp(p, k);
    Prefixed(p[..o], Put(Stem(p[o], Prefixed(p[o + 1..], c)), k[o..], v))
  }

  lemma LcpShort(p: Key, k: Key)
    ensures p[..Lcp(p, k)] == k[..Lcp(p, k)]
    ensures !(p <= k) ==> Lcp(p, k) < |p|
    ensures Lcp(p, k) < |p| && Lcp(p, k) < |k| ==> p[Lcp(p, k)] != k[Lcp(p, k)]
    ensures Lcp(p, k) == |p| == |k| ==> p == k
  {
    hide Lcp;
    LcpMeaning(p, k);
  }

  function Insert(t: Tree, k: Key, v: Bytes): (r: Tree) {
    match t
    case Nil => Leaf(k, v)
    case Leaf(s, w) => if s == k then Leaf(k, v) else SplitLeaf(s, w, k, v)
    case Ext(p, c) => if p <= k then Ext(p, Insert(c, k[|p|..], v)) else SplitExt(p, c, k, v)
    case Branch(ch, w) =>
      if k == [] then Branch(ch, v)
      else if k[0] < |ch| then Branch(ch[k[0] := Insert(ch[k[0]], k[1..], v)], w)
      else t
  }

  /** The insertion gives no branch an empty value: neither the new one nor that of a leaf it splits. */
  predicate Clear(t: Tree, k: Key, v: Bytes) {
    match t
    case Nil => true
    case Leaf(s, w) => s == k || ((k <= s ==> v != []) && (s <= k ==> w != []))
    case Ext(p, c) => if p <= k then Clear(c, k[|p|..], v) else k <= p ==> v != []
    case Branch(ch, _) => if k == [] then v != [] else k[0] < |ch| ==> Clear(ch[k[0]], k[1..], v)
  }

  lemma LookupPrefixed(p: Key, t: Tree, q: Key)
    ensures Lookup(Prefixed(p, t), q) == if p <= q then Lookup(t, q[|p|..]) else None
  {
    if p == [] {
      assert q[|p|..] == q;
    }
  }

  /** A branch that does not lead to `r` yet. */
  predicate Free(b: Tree, r: Key)
    requires b.Branch? && |b.children| == 16
  {
    if r == [] then b.value == [] else b.children[r[0]].Nil?
  }

  lemma LookupPut(b: Tree, r: Key, v: Bytes, q: Key)
    requires b.Branch? && |b.children| == 16 && Free(b, r)
    ensures Lookup(Put(b, r, v), q) == if q != r then Lookup(b, q) else if r == [] then Own(v) else Some(v)
  {
    if q != [] && r != [] {
      SameHeadTail(q, r);
    }
  }

  lemma LookupBare(q: Key)
    ensures Lookup(BARE, q) == None
  {
  }

  lemma LookupStem(i: nibble, t: Tree, q: Key)
    ensures Lookup(Stem(i, t), q) == if q != [] && q[0] == i then Lookup(t, q[1..]) else None
  {
  }

  lemma SameBehind(p: Key, k: Key, q: Key)
    requires p <= k && p <= q
    ensures k == q <==> k[|p|..] == q[|p|..]
  {
    assert k == p + k[|p|..] && q == p + q[|p|..];
  }

  lemma SameHeadTail(k: Key, q: Key)
    requires k != [] && q != []
    ensures k == q <==> k[0] == q[0] && k[1..] == q[1..]
  {
    assert k == [k[0]] + k[1..] && q == [q[0]] + q[1..];
  }

  lemma PutWF(b: Tree, r: Key, v: Bytes)
    requires b.Branch? && |b.children| == 16 && Free(b, r) && (forall i | 0 <= i < 16 :: WF(b.children[i]))
    requires b.value != [] || SomeChild(b.children)
    requires r == [] ==> v != [] && SomeChild(b.children)
    ensures WF(Put(b, r, v))
  {
    var t := Put(b, r, v);
    if r != [] {
      assert !t.children[r[0]].Nil?;
      if b.value == [] {
        var j :| 0 <= j < 16 && !b.children[j].Nil?;
        assert t.children[j] == b.children[j];
        var x, y := if j < r[0] then j else r[0], if j < r[0] then r[0] else j;
        assert !t.children[x].Nil? && !t.children[y].Nil?;
      }
    }
  }

  lemma SplitLeafWF(s: Key, w: Bytes, k: Key, v: Bytes)
    requires s != k && Clear(Leaf(s, w), k, v)
    ensures WF(SplitLeaf(s, w, k, v))
  {
    hide Lcp;
    LcpShort(s, k);
    var o := Lcp(s, k);
    var b := Put(BARE, s[o..], w);
    SplitClear(s, w, k, v, o);
    if o < |s| {
      assert !b.children[s[o]].Nil?;
    }
    PutWF(b, k[o..], v);
  }

  lemma SplitClear(s: Key, w: Bytes, k: Key, v: Bytes, o: nat)
    requires s != k && o <= |s| && o <= |k| && s[..o] == k[..o]
    ensures o == |k| ==> k <= s && o < |s|
    ensures o == |s| ==> s <= k && o < |k|
  {
    assert s[..|s|] == s && k[..|k|] == k;
  }

  lemma SplitExtWF(p: Key, c: Tree, k: Key, v: Bytes)
    requires WF(Ext(p, c)) && !(p <= k) && Clear(Ext(p, c), k, v)
    ensures WF(SplitExt(p, c, k, v))
  {
    hide Lcp;
    LcpShort(p, k);
    var o := Lcp(p, k);
    var b := Stem(p[o], Prefixed(p[o + 1..], c));
    assert !b.children[p[o]].Nil?;
    if o == |k| {
      SplitClear(p, [], k, v, o);
    }
    PutWF(b, k[o..], v);
  }

  lemma {:induction false} InsertWF(t: Tree, k: Key, v: Bytes)
    requires WF(t) && Clear(t, k, v)
    ensures WF(Insert(t, k, v)) && !Insert(t, k, v).Nil?
    ensures t.Branch? ==> Insert(t, k, v).Branch?
  {
    match t
    case Nil =>
    case Leaf(s, w) =>
      if s != k {
        SplitLeafWF(s, w, k, v);
      }
    case Ext(p, c) =>
      if p <= k {
        InsertWF(c, k[|p|..], v);
      } else {
        SplitExtWF(p, c, k, v);
      }
    case Branch(ch, w) =>
      if k == [] {
        assert w == [] ==> SomeChild(ch);
      } else {
        InsertWF(ch[k[0]], k[1..], v);
        ReplacedChild(ch, w, k[0], Insert(ch[k[0]], k[1..], v));
      }
  }

  lemma ReplacedChild(ch: seq<Tree>, w: Bytes, i: nibble, c: Tree)
    requires WF(Branch(ch, w)) && WF(c) && !c.Nil?
    ensures WF(Branch(ch[i := c], w))
  {
    assert !ch[i := c][i].Nil?;
    if w == [] {
      var a, b :| 0 <= a < b < |ch| && !ch[a].Nil? && !ch[b].Nil?;
      assert !ch[i := c][a].Nil? && !ch[i := c][b].Nil?;
    }
  }

  lemma LookupSplitLeaf(s: Key, w: Bytes, k: Key, v: Bytes, q: Key)
    requires s != k
    ensures Lookup(SplitLeaf(s, w, k, v), q) ==
            if q == k then (if k <= s then Own(v) else Some(v))
            else if q == s then (if s <= k then Own(w) else Some(w))
            else None
  {
    hide Lcp, Put;
    LcpShort(s, k);
    var o := Lcp(s, k);
    var b := Put(BARE, s[o..], w);
    SplitClear(s, w, k, v, o);
    LookupPrefixed(k[..o], Put(b, k[o..], v), q);
    LookupSplitParts(s, w, k, v, q, o);
  }

  lemma LookupSplitParts(s: Key, w: Bytes, k: Key, v: Bytes, q: Key, o: nat)
    requires s != k && o <= |s| && o <= |k| && s[..o] == k[..o]
    requires o < |s| && o < |k| ==> s[o] != k[o]
    ensures var t := Put(Put(BARE, s[o..], w), k[o..], v);
            var p := k[..o];
            p <= q ==>
              (Lookup(t, q[o..]) ==
               if q == k then (if k <= s then Own(v) else Some(v))
               else if q == s then (if s <= k then Own(w) else Some(w))
               else None)
    ensures !(k[..o] <= q) ==> q != k && q != s
  {
    SplitClear(s, w, k, v, o);
    assert k[..o] <= k && s[..o] <= s;
    if k[..o] <= q {
      var b := Put(BARE, s[o..], w);
      SameBehind(k[..o], k, q);
      SameBehind(k[..o], s, q);
      assert k <= s ==> o == |k|;
      assert s <= k ==> o == |s|;
      LookupBare(q[o..]);
      LookupPut(BARE, s[o..], w, q[o..]);
      LookupPut(b, k[o..], v, q[o..]);
    }
  }

  lemma LookupSplitExt(p: Key, c: Tree, k: Key, v: Bytes, q: Key)
    requires !(p <= k)
    ensures Lookup(SplitExt(p, c, k, v), q) ==
            if q == k then (if k <= p then Own(v) else Some(v)) else Lookup(Ext(p, c), q)
  {
    hide Lcp, Put, Lookup;
    LcpShort(p, k);
    var o := Lcp(p, k);
    var r := p[o + 1..];
    var b := Stem(p[o], Prefixed(r, c));
    LookupPrefixed(p[..o], Put(b, k[o..], v), q);
    LookupPrefixed(p, c, q);
    assert p[..o] <= k;
    PrefixParts(p, q, o);
    assert k <= p ==> o == |k|;
    assert o == |k| ==> k <= p by { assert k[..|k|] == k; }
    if p[..o] <= q {
      SameBehind(p[..o], k, q);
      FreeBehind(p[o], Prefixed(r, c), k[o..]);
      LookupPut(b, k[o..], v, q[o..]);
      LookupStem(p[o], Prefixed(r, c), q[o..]);
      if o < |q| && q[o] == p[o] {
        assert q[o..][1..] == q[o + 1..];
        LookupPrefixed(r, c, q[o + 1..]);
        assert r <= q[o + 1..] ==> q[o + 1..][|r|..] == q[|p|..];
      }
    }
  }

  lemma FreeBehind(i: nibble, t: Tree, r: Key)
    requires r != [] ==> r[0] != i
    ensures Free(Stem(i, t), r)
  {
  }

  lemma PrefixParts(p: Key, q: Key, o: nat)
    requires o < |p|
    ensures p <= q <==> p[..o] <= q && o < |q| && q[o] == p[o] && p[o + 1..] <= q[o + 1..]
  {
    if p[..o] <= q && o < |q| && q[o] == p[o] && p[o + 1..] <= q[o + 1..] {
      assert p == p[..o] + [p[o]] + p[o + 1..];
      assert q == q[..o] + [q[o]] + q[o + 1..];
    }
  }

  /** After an insertion the key reads the new value and every other key reads what it read before. */
  lemma {:induction false} LookupInsert(t: Tree, k: Key, v: Bytes, q: Key)
    requires WF(t) && Clear(t, k, v)
    ensures Lookup(Insert(t, k, v), q) == if q == k then Some(v) else Lookup(t, q)
  {
    hide SplitLeaf, SplitExt;
    match t
    case Nil =>
    case Leaf(s, w) =>
      if s != k {
        LookupSplitLeaf(s, w, k, v, q);
      }
    case Ext(p, c) =>
      if p <= k {
        if p <= q {
          LookupInsert(c, k[|p|..], v, q[|p|..]);
          SameBehind(p, k, q);
        }
      } else {
        LookupSplitExt(p, c, k, v, q);
      }
    case Branch(ch, w) =>
      if k != [] {
        InsertWF(ch[k[0]], k[1..], v);
        if q != [] {
          LookupInsert(ch[k[0]], k[1..], v, q[1..]);
          SameHeadTail(k, q);
        }
      }
  }

  /**
    * Only an empty value can get lost: the insertion binds the key and changes nothing else if and only if it gives no
    * branch an empty value.
    */
  lemma InsertLaw(t: Tree, k: Key, v: Bytes)
    requires WF(t)
    ensures (forall q :: Lookup(Insert(t, k, v), q) == if q == k then Some(v) else Lookup(t, q)) <==> Clear(t, k, v)
  {
    hide Clear, Insert, Lookup, WF;
    if Clear(t, k, v) {
      forall q
        ensures Lookup(Insert(t, k, v), q) == if q == k then Some(v) else Lookup(t, q)
      {
        LookupInsert(t, k, v, q);
      }
    } else {
      var q := LostKey(t, k, v);
    }
  }

  lemma {:induction false} LostKey(t: Tree, k: Key, v: Bytes) returns (q: Key)
    requires WF(t) && !Clear(t, k, v)
    ensures Lookup(Insert(t, k, v), q) != if q == k then Some(v) else Lookup(t, q)
  {
    hide SplitLeaf, SplitExt;
    match t
    case Leaf(s, w) =>
      q := if k <= s && v == [] then k else s;
      LookupSplitLeaf(s, w, k, v, q);
    case Ext(p, c) =>
      if p <= k {
        var r := LostKey(c, k[|p|..], v);
        q := p + r;
        assert q[|p|..] == r;
        SameBehind(p, k, q);
      } else {
        q := k;
        LookupSplitExt(p, c, k, v, q);
      }
    case Branch(ch, w) =>
      if k == [] {
        q := [];
      } else {
        var r := LostKey(ch[k[0]], k[1..], v);
        q := [k[0]] + r;
        assert q[1..] == r;
        SameHeadTail(k, q);
      }
  }

  // ---------------------------------------------------------------------------------------------
  // Removal
  // ---------------------------------------------------------------------------------------------

  /** `i` is the one remaining child of a branch. */
  predicate IsOnlyChild(ch: seq<Tree>, i: nat) {
    i < |ch| && !ch[i].Nil? && forall j | 0 <= j < |ch| && j != i :: ch[j].Nil?
  }

  /** Puts the nibbles `p` in front of a subtrie, merging with the node it starts with. */
  function Join(p: Key, t: Tree): Tree {
    match t
    case Nil => Nil
    case Leaf(s, v) => Leaf(p + s, v)
    case Ext(q, c) => Ext(p + q, c)
    case Branch(_, _) => Ext(p, t)
  }

  /** A branch that is left with one child, or with its own value only, gives way to a smaller node. */
  ghost function Collapse(ch: seq<Tree>, w: Bytes): Tree
    requires |ch| == 16
  {
    if w != [] then
      if SomeChild(ch) then Branch(ch, w) else Leaf([], w)
    else if i: nat :| IsOnlyChild(ch, i) then Join([i], ch[i])
    else Branch(ch, w)
  }

  ghost function Remove(t: Tree, k: Key): (r: Tree)
    requires WF(t)
  {
    match t
    case Nil => Nil
    case Leaf(s, _) => if s == k then Nil else t
    case Ext(p, c) => if p <= k then Join(p, Remove(c, k[|p|..])) else t
    case Branch(ch, w) =>
      if k == [] then Collapse(ch, []) else Collapse(ch[k[0] := Remove(ch[k[0]], k[1..])], w)
  }

  lemma JoinWF(p: Key, t: Tree)
    requires WF(t) && p != []
    ensures WF(Join(p, t))
    ensures Join(p, t).Nil? <==> t.Nil?
  {
  }

  lemma LookupJoin(p: Key, t: Tree, q: Key)
    ensures Lookup(Join(p, t), q) == if p <= q then Lookup(t, q[|p|..]) else None
  {
    match t
    case Nil =>
    case Leaf(s, v) =>
      assert p <= q ==> q == p + q[|p|..];
      assert (p + s)[|p|..] == s;
      assert p <= p + s;
    case Ext(r, c) =>
      if p <= q {
        assert q == p + q[|p|..];
        assert p + r <= q <==> r <= q[|p|..];
        assert r <= q[|p|..] ==> q[|p|..][|r|..] == q[|p + r|..];
      } else {
        assert p + r <= q ==> p <= q;
      }
    case Branch(_, _) =>
  }

  /** What a branch may look like after one of its children, or its own value, changed. */
  predicate Loose(ch: seq<Tree>, w: Bytes) {
    |ch| == 16 && (forall i | 0 <= i < 16 :: WF(ch[i])) && (w != [] || SomeChild(ch))
  }

  lemma OnlyChildUnique(ch: seq<Tree>, i: nat, j: nat)
    requires IsOnlyChild(ch, i) && IsOnlyChild(ch, j)
    ensures i == j
  {
  }

  lemma CollapseAt(ch: seq<Tree>, i: nat)
    requires |ch| == 16 && IsOnlyChild(ch, i)
    ensures Collapse(ch, []) == Join([i], ch[i])
  {
    hide Join;
    forall j: nat | IsOnlyChild(ch, j)
      ensures j == i
    {
      OnlyChildUnique(ch, i, j);
    }
  }

  lemma CollapseKeeps(ch: seq<Tree>)
    requires |ch| == 16 && TwoChildren(ch)
    ensures Collapse(ch, []) == Branch(ch, []) && forall i: nat :: !IsOnlyChild(ch, i)
  {
    var i, j :| 0 <= i < j < 16 && !ch[i].Nil? && !ch[j].Nil?;
    forall x: nat
      ensures !IsOnlyChild(ch, x)
    {
      var o := if x == i then j else i;
      assert !ch[o].Nil? && o != x;
    }
  }

  /** A branch without a value has one child or at least two. */
  lemma OneOrTwo(ch: seq<Tree>) returns (i: nat)
    requires |ch| == 16 && SomeChild(ch)
    ensures i < 16 && (IsOnlyChild(ch, i) || TwoChildren(ch))
  {
    i :| 0 <= i < 16 && !ch[i].Nil?;
    if !IsOnlyChild(ch, i) {
      var j :| 0 <= j < 16 && j != i && !ch[j].Nil?;
      var a, b := if i < j then i else j, if i < j then j else i;
      assert !ch[a].Nil? && !ch[b].Nil?;
    }
  }

  lemma CollapseWF(ch: seq<Tree>, w: Bytes)
    requires Loose(ch, w)
    ensures WF(Collapse(ch, w)) && !Collapse(ch, w).Nil?
  {
    if w == [] {
      var i := OneOrTwo(ch);
      if IsOnlyChild(ch, i) {
        CollapseAt(ch, i);
        JoinWF([i], ch[i]);
      } else {
        CollapseKeeps(ch);
      }
    }
  }

  lemma LookupCollapse(ch: seq<Tree>, w: Bytes, q: Key)
    requires Loose(ch, w)
    ensures Lookup(Collapse(ch, w), q) == Lookup(Branch(ch, w), q)
  {
    if w == [] {
      var i := OneOrTwo(ch);
      if IsOnlyChild(ch, i) {
        CollapseAt(ch, i);
        LookupJoin([i], ch[i], q);
        assert [i] <= q <==> q != [] && q[0] == i;
        assert q != [] ==> q[|[i]|..] == q[1..];
      } else {
        CollapseKeeps(ch);
      }
    }
  }

  lemma RemoveLoose(ch: seq<Tree>, w: Bytes, i: nibble, c: Tree)
    requires WF(Branch(ch, w)) && WF(c)
    ensures Loose(ch[i := c], w)
  {
    if w == [] {
      var a, b :| 0 <= a < b < |ch| && !ch[a].Nil? && !ch[b].Nil?;
      var o := if a == i then b else a;
      assert !ch[i := c][o].Nil?;
    }
  }

  lemma BareLoose(ch: seq<Tree>, w: Bytes)
    requires WF(Branch(ch, w))
    ensures Loose(ch, [])
  {
    assert w == [] ==> SomeChild(ch);
  }

  lemma {:induction false} RemoveWF(t: Tree, k: Key)
    requires WF(t)
    ensures WF(Remove(t, k))
    ensures t.Branch? || t.Ext? ==> !Remove(t, k).Nil?
  {
    match t
    case Nil =>
    case Leaf(_, _) =>
    case Ext(p, c) =>
      if p <= k {
        RemoveWF(c, k[|p|..]);
        JoinWF(p, Remove(c, k[|p|..]));
      }
    case Branch(ch, w) =>
      if k == [] {
        BareLoose(ch, w);
        CollapseWF(ch, []);
      } else {
        var c := Remove(ch[k[0]], k[1..]);
        RemoveWF(ch[k[0]], k[1..]);
        RemoveLoose(ch, w, k[0], c);
        CollapseWF(ch[k[0] := c], w);
      }
  }

  /** After a removal the key reads nothing and every other key reads what it read before. */
  lemma {:induction false} LookupRemove(t: Tree, k: Key, q: Key)
    requires WF(t)
    ensures Lookup(Remove(t, k), q) == if q == k then None else Lookup(t, q)
  {
    hide Collapse, Join, Loose;
    match t
    case Nil =>
    case Leaf(_, _) =>
    case Ext(p, c) =>
      if p <= k {
        LookupJoin(p, Remove(c, k[|p|..]), q);
        if p <= q {
          LookupRemove(c, k[|p|..], q[|p|..]);
          SameBehind(p, k, q);
        }
      }
    case Branch(ch, w) =>
      if k == [] {
        BareLoose(ch, w);
        LookupCollapse(ch, [], q);
      } else {
        var c := Remove(ch[k[0]], k[1..]);
        RemoveWF(ch[k[0]], k[1..]);
        RemoveLoose(ch, w, k[0], c);
        LookupCollapse(ch[k[0] := c], w, q);
        if q != [] {
          LookupRemove(ch[k[0]], k[1..], q[1..]);
          SameHeadTail(k, q);
        }
      }
  }

  // ---------------------------------------------------------------------------------------------
  // Canonicity
  // ---------------------------------------------------------------------------------------------

  ghost predicate Agree(t: Tree, u: Tree) {
    forall q: Key :: Lookup(t, q) == Lookup(u, q)
  }

  /** Every non-empty trie holds a key. */
  lemma {:induction false} SomeKey(t: Tree) returns (k: Key)
    requires WF(t) && !t.Nil?
    ensures Lookup(t, k).Some?
  {
    match t
    case Leaf(s, _) => k := s;
    case Ext(p, c) =>
      var r := SomeKey(c);
      k := p + r;
      assert k[|p|..] == r;
    case Branch(ch, w) =>
      assert w == [] ==> SomeChild(ch);
      var i :| 0 <= i < 16 && !ch[i].Nil?;
      var r := SomeKey(ch[i]);
      k := [i] + r;
      assert k[1..] == r;
  }

  /** Two keys that do not start with one nibble. */
  predicate Apart(k: Key, q: Key) {
    k != q && (k == [] || q == [] || k[0] != q[0])
  }

  /** A branch holds two keys that part at once. */
  lemma TwoKeys(t: Tree) returns (k: Key, q: Key)
    requires WF(t) && t.Branch?
    ensures Lookup(t, k).Some? && Lookup(t, q).Some? && Apart(k, q)
  {
    var ch := t.children;
    if t.value == [] {
      var i, j :| 0 <= i < j < |ch| && !ch[i].Nil? && !ch[j].Nil?;
      var a := SomeKey(ch[i]);
      var b := SomeKey(ch[j]);
      k, q := [i] + a, [j] + b;
      assert k[1..] == a && q[1..] == b;
    } else {
      var i :| 0 <= i < |ch| && !ch[i].Nil?;
      var a := SomeKey(ch[i]);
      k, q := [i] + a, [];
      assert k[1..] == a;
    }
  }

  /** The keys of a branch below `p` part right behind `p`. */
  lemma KeysBehind(p: Key, c: Tree) returns (k: Key, q: Key)
    requires WF(Ext(p, c))
    ensures p <= k && p <= q && k != q && Apart(k[|p|..], q[|p|..])
    ensures Lookup(Ext(p, c), k).Some? && Lookup(Ext(p, c), q).Some?
  {
    var a, b := TwoKeys(c);
    k, q := p + a, p + b;
    assert k[|p|..] == a && q[|p|..] == b;
  }

  /** Two extensions with the same keys have the same prefix. */
  lemma SamePrefix(p: Key, c: Tree, r: Key, d: Tree)
    requires WF(Ext(p, c)) && WF(Ext(r, d)) && Agree(Ext(p, c), Ext(r, d))
    ensures |p| >= |r|
    ensures |p| == |r| ==> p == r
  {
    var k, q := KeysBehind(p, c);
    assert Lookup(Ext(r, d), k).Some? && Lookup(Ext(r, d), q).Some?;
    assert forall i | 0 <= i < |r| :: r[i] == k[i] && r[i] == q[i];
    assert forall i | 0 <= i < |p| :: p[i] == k[i];
  }

  lemma AgreeSym(t: Tree, u: Tree)
    requires Agree(t, u)
    ensures Agree(u, t)
  {
  }

  lemma AgreeBehind(p: Key, c: Tree, d: Tree)
    requires Agree(Ext(p, c), Ext(p, d))
    ensures Agree(c, d)
  {
    forall q: Key
      ensures Lookup(c, q) == Lookup(d, q)
    {
      var k := p + q;
      assert k[|p|..] == q && p <= k;
      assert Lookup(Ext(p, c), k) == Lookup(Ext(p, d), k);
    }
  }

  lemma AgreeChild(ch: seq<Tree>, v: Bytes, dh: seq<Tree>, w: Bytes, i: nibble)
    requires |ch| == 16 == |dh| && Agree(Branch(ch, v), Branch(dh, w))
    ensures Agree(ch[i], dh[i]) && v == w
  {
    forall q: Key
      ensures Lookup(ch[i], q) == Lookup(dh[i], q)
    {
      var k := [i] + q;
      assert k[1..] == q && k[0] == i;
      assert Lookup(Branch(ch, v), k) == Lookup(Branch(dh, w), k);
    }
    assert Lookup(Branch(ch, v), []) == Lookup(Branch(dh, w), []);
  }

  /** Only a branch holds keys that part at once, and only a branch or an extension holds two keys. */
  lemma TwoMeansInner(t: Tree, a: Key, b: Key)
    requires WF(t) && a != b && Lookup(t, a).Some? && Lookup(t, b).Some?
    ensures t.Branch? || t.Ext?
    ensures Apart(a, b) ==> t.Branch?
  {
    if t.Ext? {
      assert a[0] == t.prefix[0] == b[0];
    }
  }

  /** A leaf, an extension, a branch and the empty trie never hold the same keys. */
  lemma SameKind(t: Tree, u: Tree)
    requires WF(t) && WF(u) && Agree(t, u)
    ensures u.Branch? ==> t.Branch?
    ensures u.Ext? ==> t.Branch? || t.Ext?
    ensures u.Leaf? ==> !t.Nil?
    ensures u.Leaf? && t.Leaf? ==> u == t
  {
    match u
    case Nil =>
    case Leaf(s, v) => assert Lookup(t, s) == Lookup(u, s);
    case Ext(p, c) =>
      var a, b := KeysBehind(p, c);
      assert Lookup(t, a) == Lookup(u, a) && Lookup(t, b) == Lookup(u, b);
      TwoMeansInner(t, a, b);
    case Branch(_, _) =>
      var a, b := TwoKeys(u);
      assert Lookup(t, a) == Lookup(u, a) && Lookup(t, b) == Lookup(u, b);
      TwoMeansInner(t, a, b);
  }

  /**
    * Main law: the contents determine the trie. Whatever order keys were inserted and removed in, equal contents
    * mean equal tries.
    */
  lemma {:induction false} Canonical(t: Tree, u: Tree)
    requires WF(t) && WF(u) && Agree(t, u)
    ensures t == u
    decreases t
  {
    hide Agree, Lookup;
    AgreeSym(t, u);
    SameKind(t, u);
    SameKind(u, t);
    match t
    case Nil =>
    case Leaf(_, _) =>
    case Ext(p, c) =>
      SamePrefix(p, c, u.prefix, u.child);
      SamePrefix(u.prefix, u.child, p, c);
      AgreeBehind(p, c, u.child);
      Canonical(c, u.child);
    case Branch(ch, w) =>
      AgreeChild(ch, w, u.children, u.value, 0);
      forall i | 0 <= i < 16
        ensures ch[i] == u.children[i]
      {
        AgreeChild(ch, w, u.children, u.value, i);
        Canonical(ch[i], u.children[i]);
      }
  }

  /** The condition on contents behind `Clear`: no empty value at a key that another key continues. */
  ghost predicate Untangled(t: Tree, k: Key, v: Bytes) {
    forall q | Lookup(t, q).Some? && q != k :: (k <= q ==> v != []) && (q <= k ==> Lookup(t, q).value != [])
  }

  lemma {:induction false} ClearMeans(t: Tree, k: Key, v: Bytes)
    requires WF(t)
    ensures Clear(t, k, v) <==> Untangled(t, k, v)
  {
    match t
    case Nil =>
    case Leaf(s, _) =>
      if Untangled(t, k, v) {
        assert Lookup(t, s).Some?;
      }
    case Ext(p, c) =>
      if p <= k {
        ClearMeans(c, k[|p|..], v);
        UntangledBehind(p, c, k, v);
      } else {
        var q := SomeKey(t);
        forall x | Lookup(t, x).Some?
          ensures !(x <= k) && (k <= x <==> k <= p)
        {
          OutsidePrefix(p, k, x);
        }
      }
    case Branch(ch, w) =>
      if k == [] {
        assert w == [] ==> SomeChild(ch);
        var i :| 0 <= i < 16 && !ch[i].Nil?;
        var r := SomeKey(ch[i]);
        var q := [i] + r;
        assert q[1..] == r;
        assert Lookup(t, q).Some?;
      } else {
        ClearMeans(ch[k[0]], k[1..], v);
        UntangledChild(ch, w, k, v);
      }
  }

  lemma OutsidePrefix(p: Key, k: Key, q: Key)
    requires !(p <= k) && p <= q
    ensures !(q <= k) && (k <= q <==> k <= p)
  {
  }

  lemma PrefixBehind(p: Key, a: Key, b: Key)
    ensures p + a <= p + b <==> a <= b
  {
    if p + a <= p + b {
      assert a == (p + a)[|p|..] && b == (p + b)[|p|..];
    }
  }

  lemma UntangledBehind(p: Key, c: Tree, k: Key, v: Bytes)
    requires p <= k
    ensures Untangled(Ext(p, c), k, v) <==> Untangled(c, k[|p|..], v)
  {
    var rest := k[|p|..];
    assert k == p + rest;
    if Untangled(Ext(p, c), k, v) {
      forall r | Lookup(c, r).Some? && r != rest
        ensures (rest <= r ==> v != []) && (r <= rest ==> Lookup(c, r).value != [])
      {
        var q := p + r;
        assert q[|p|..] == r && p <= q;
        assert Lookup(Ext(p, c), q) == Lookup(c, r);
        PrefixBehind(p, rest, r);
        PrefixBehind(p, r, rest);
      }
    }
    if Untangled(c, rest, v) {
      forall q | Lookup(Ext(p, c), q).Some? && q != k
        ensures (k <= q ==> v != []) && (q <= k ==> Lookup(Ext(p, c), q).value != [])
      {
        var r := q[|p|..];
        assert q == p + r;
        assert Lookup(c, r).Some? && r != rest;
        PrefixBehind(p, rest, r);
        PrefixBehind(p, r, rest);
      }
    }
  }

  lemma UntangledChild(ch: seq<Tree>, w: Bytes, k: Key, v: Bytes)
    requires k != [] && |ch| == 16
    ensures Untangled(Branch(ch, w), k, v) <==> Untangled(ch[k[0]], k[1..], v)
  {
    var x := [k[0]];
    var rest := k[1..];
    assert k == x + rest;
    if Untangled(Branch(ch, w), k, v) {
      forall r | Lookup(ch[k[0]], r).Some? && r != rest
        ensures (rest <= r ==> v != []) && (r <= rest ==> Lookup(ch[k[0]], r).value != [])
      {
        var q := x + r;
        assert q[1..] == r;
        assert Lookup(Branch(ch, w), q) == Lookup(ch[k[0]], r);
        PrefixBehind(x, rest, r);
        PrefixBehind(x, r, rest);
      }
    }
    if Untangled(ch[k[0]], rest, v) {
      forall q | Lookup(Branch(ch, w), q).Some? && q != k
        ensures (k <= q ==> v != []) && (q <= k ==> Lookup(Branch(ch, w), q).value != [])
      {
        if q != [] && q[0] == k[0] {
          var r := q[1..];
          assert q == x + r;
          assert Lookup(ch[k[0]], r).Some? && r != rest;
          PrefixBehind(x, rest, r);
          PrefixBehind(x, r, rest);
        }
      }
    }
  }

  /** Inserting two different keys in either order gives the same trie. */
  lemma InsertsCommute(t: Tree, k: Key, v: Bytes, q: Key, w: Bytes)
    requires WF(t) && k != q && Clear(t, k, v) && Clear(t, q, w) && Clear(Insert(t, k, v), q, w)
    ensures Clear(Insert(t, q, w), k, v)
    ensures Insert(Insert(t, k, v), q, w) == Insert(Insert(t, q, w), k, v)
  {
    hide Insert, Clear, Lookup;
    var a, b := Insert(t, k, v), Insert(t, q, w);
    ClearEitherWay(t, k, v, q, w);
    InsertWF(t, k, v);
    InsertWF(t, q, w);
    InsertWF(a, q, w);
    InsertWF(b, k, v);
    forall x: Key
      ensures Lookup(Insert(a, q, w), x) == Lookup(Insert(b, k, v), x)
    {
      LookupInsert(a, q, w, x);
      LookupInsert(t, k, v, x);
      LookupInsert(b, k, v, x);
      LookupInsert(t, q, w, x);
    }
    Canonical(Insert(a, q, w), Insert(b, k, v));
  }

  lemma ClearEitherWay(t: Tree, k: Key, v: Bytes, q: Key, w: Bytes)
    requires WF(t) && k != q && Clear(t, k, v) && Clear(t, q, w) && Clear(Insert(t, k, v), q, w)
    ensures Clear(Insert(t, q, w), k, v)
  {
    hide Insert, Clear, Lookup, WF;
    var a, b := Insert(t, k, v), Insert(t, q, w);
    InsertWF(t, k, v);
    InsertWF(t, q, w);
    ClearMeans(t, k, v);
    ClearMeans(a, q, w);
    ClearMeans(b, k, v);
    LookupInsert(t, k, v, k);
    forall x | Lookup(b, x).Some? && x != k
      ensures (k <= x ==> v != []) && (x <= k ==> Lookup(b, x).value != [])
    {
      LookupInsert(t, q, w, x);
      assert Lookup(a, k).Some?;
    }
  }

  /** Removing a key that was absent before its insertion restores the very same trie. */
  lemma RemoveUndoesInsert(t: Tree, k: Key, v: Bytes)
    requires WF(t) && Clear(t, k, v) && Lookup(t, k) == None
    ensures WF(Insert(t, k, v))
    ensures Remove(Insert(t, k, v), k) == t
  {
    hide Insert, Clear, Lookup;
    InsertWF(t, k, v);
    var a := Insert(t, k, v);
    RemoveWF(a, k);
    forall x: Key
      ensures Lookup(Remove(a, k), x) == Lookup(t, x)
    {
      LookupRemove(a, k, x);
      LookupInsert(t, k, v, x);
    }
    Canonical(Remove(a, k), t);
  }

  // ---------------------------------------------------------------------------------------------
  // Places
  // ---------------------------------------------------------------------------------------------

  /** The subtrie `t` hangs `d` nibbles below the root of a trie whose keys are whole bytes. */
  predicate Placed(t: Tree, d: nat) {
    match t
    case Nil => true
    case Leaf(s, _) => (d + |s|) % 2 == 0
    case Ext(p, c) => Placed(c, d + |p|)
    case Branch(ch, w) => (w != [] ==> d % 2 == 0) && forall i | 0 <= i < |ch| :: Placed(ch[i], d + 1)
  }

  /** A subtrie hangs at even depths only, or at odd depths only. */
  lemma {:induction false} ParityUnique(t: Tree, d: nat, e: nat)
    requires WF(t) && !t.Nil? && Placed(t, d) && Placed(t, e)
    ensures d % 2 == e % 2
  {
    match t
    case Leaf(s, _) => SameRemainder(d, e, |s|);
    case Ext(p, c) =>
      ParityUnique(c, d + |p|, e + |p|);
      SameRemainder(d, e, |p|);
    case Branch(ch, w) =>
      var i := AnyChild(t);
      ParityUnique(ch[i], d + 1, e + 1);
      SameRemainder(d, e, 1);
  }

  lemma SameRemainder(d: nat, e: nat, n: nat)
    requires (d + n) % 2 == (e + n) % 2
    ensures d % 2 == e % 2
  {
  }

  lemma AnyChild(t: Tree) returns (i: nibble)
    requires WF(t) && t.Branch?
    ensures |t.children| == 16 && !t.children[i].Nil?
  {
    assert t.value == [] ==> SomeChild(t.children);
    i :| 0 <= i < 16 && !t.children[i].Nil?;
  }

  lemma PrefixedPlaced(p: Key, t: Tree, d: nat)
    requires Placed(t, d + |p|)
    ensures Placed(Prefixed(p, t), d)
  {
  }

  lemma PutPlaced(b: Tree, r: Key, v: Bytes, d: nat)
    requires b.Branch? && |b.children| == 16 && Placed(b, d) && (d + |r|) % 2 == 0
    ensures Placed(Put(b, r, v), d)
  {
  }

  lemma SplitLeafPlaced(s: Key, w: Bytes, d: nat, k: Key, v: Bytes)
    requires (d + |s|) % 2 == 0 && (d + |k|) % 2 == 0
    ensures Placed(SplitLeaf(s, w, k, v), d)
  {
    hide Lcp, Put, Placed;
    var o := Lcp(s, k);
    var b := Put(BARE, s[o..], w);
    assert Placed(BARE, d + o) by { BarePlaced(d + o); }
    PutPlaced(BARE, s[o..], w, d + o);
    PutPlaced(b, k[o..], v, d + o);
    PrefixedPlaced(k[..o], Put(b, k[o..], v), d);
  }

  lemma BarePlaced(d: nat)
    ensures Placed(BARE, d)
  {
  }

  lemma StemPlaced(i: nibble, t: Tree, d: nat)
    requires Placed(t, d + 1)
    ensures Placed(Stem(i, t), d)
  {
  }

  lemma SplitExtPlaced(p: Key, c: Tree, d: nat, k: Key, v: Bytes)
    requires !(p <= k) && Placed(c, d + |p|) && (d + |k|) % 2 == 0
    ensures Placed(SplitExt(p, c, k, v), d)
  {
    hide Lcp, Put, Stem, Placed;
    LcpShort(p, k);
    var o := Lcp(p, k);
    var a := Prefixed(p[o + 1..], c);
    PrefixedPlaced(p[o + 1..], c, d + o + 1);
    StemPlaced(p[o], a, d + o);
    PutPlaced(Stem(p[o], a), k[o..], v, d + o);
    PrefixedPlaced(p[..o], Put(Stem(p[o], a), k[o..], v), d);
  }

  lemma {:induction false} InsertPlaced(t: Tree, d: nat, k: Key, v: Bytes)
    requires Placed(t, d) && (d + |k|) % 2 == 0
    ensures Placed(Insert(t, k, v), d)
  {
    hide SplitLeaf, SplitExt;
    match t
    case Nil =>
    case Leaf(s, w) =>
      if s != k {
        SplitLeafPlaced(s, w, d, k, v);
      }
    case Ext(p, c) =>
      if p <= k {
        InsertPlaced(c, d + |p|, k[|p|..], v);
      } else {
        SplitExtPlaced(p, c, d, k, v);
      }
    case Branch(ch, _) =>
      if k != [] && k[0] < |ch| {
        InsertPlaced(ch[k[0]], d + 1, k[1..], v);
      }
  }

  // ---------------------------------------------------------------------------------------------
  // Paths that end inside an extension
  // ---------------------------------------------------------------------------------------------

  /** The number of bytes that `n` nibbles behind `d` occupy. */
  function Width(d: nat, n: nat): nat {
    (d + n + 1) / 2 - d / 2
  }

  /**
    * A walk along `k` that starts `d` nibbles below the root meets an extension with more nibbles than the path has left,
    * although not with more bytes than the whole path has.
    */
  predicate Overruns(t: Tree, d: nat, k: Key) {
    match t
    case Nil => false
    case Leaf(_, _) => false
    case Ext(p, c) =>
      if |p| > |k| then Width(d, |p|) <= (d + |k|) / 2 else p <= k && Overruns(c, d + |p|, k[|p|..])
    case Branch(ch, _) => k != [] && k[0] < |ch| && Overruns(ch[k[0]], d + 1, k[1..])
  }

  /** No bound key does. */
  lemma {:induction false} BoundPasses(t: Tree, d: nat, k: Key)
    requires Lookup(t, k).Some?
    ensures !Overruns(t, d, k)
  {
    match t
    case Ext(p, c) => BoundPasses(c, d + |p|, k[|p|..]);
    case Branch(ch, _) =>
      if k != [] {
        BoundPasses(ch[k[0]], d + 1, k[1..]);
      }
    case _ =>
  }

  /** Such a walk shares at least its first byte with a longer key of the trie. */
  lemma {:induction false} OverrunKey(t: Tree, d: nat, k: Key) returns (q: Key)
    requires WF(t) && Overruns(t, d, k) && (d + |k|) % 2 == 0
    ensures Lookup(t, q).Some? && |q| > |k|
    ensures d + Lcp(q, k) >= 2
  {
    match t
    case Ext(p, c) =>
      if |p| > |k| {
        q := SomeKey(t);
      } else {
        var r := OverrunKey(c, d + |p|, k[|p|..]);
        q := p + r;
        assert q[|p|..] == r;
        LcpBehind(p, q, k);
      }
    case Branch(ch, _) =>
      var r := OverrunKey(ch[k[0]], d + 1, k[1..]);
      q := [k[0]] + r;
      assert q[1..] == r;
  }

  lemma {:induction false} LcpBehind(p: Key, q: Key, k: Key)
    requires p <= q && p <= k
    ensures Lcp(q, k) == |p| + Lcp(q[|p|..], k[|p|..])
  {
    if p == [] {
      assert q[|p|..] == q && k[|p|..] == k;
    } else {
      LcpBehind(p[1..], q[1..], k[1..]);
      assert q[1..][|p[1..]|..] == q[|p|..] && k[1..][|p[1..]|..] == k[|p|..];
    }
  }

  /**
    * In a trie where the first byte of a key tells its length, as it does for RLP items, no walk along such a key goes
    * wrong.
    */
  lemma FirstByteTells(t: Tree, k: Key)
    requires WF(t) && |k| % 2 == 0
    requires forall q | Lookup(t, q).Some? && |q| >= 2 && |k| >= 2 && q[..2] == k[..2] :: |q| == |k|
    ensures !Overruns(t, 0, k)
  {
    hide Lookup, Overruns;
    if Overruns(t, 0, k) {
      var q := OverrunKey(t, 0, k);
      LcpMeaning(q, k);
      assert false;
    }
  }

  // ---------------------------------------------------------------------------------------------
  // The leaf at the end of a walk
  // ---------------------------------------------------------------------------------------------

  /** The leaf that a walk ends at, and how many nibbles of the path lead there. */
  datatype Stop = Stop(used: nat, suffix: Key, value: Bytes)

  function Further(n: nat, e: Option<Stop>): Option<Stop> {
    if e.None? then None else Some(e.value.(used := n + e.value.used))
  }

  function StopOf(t: Tree, k: Key): (e: Option<Stop>)
    ensures e.Some? ==> e.value.used <= |k|
  {
    match t
    case Nil => None
    case Leaf(s, w) => Some(Stop(0, s, w))
    case Ext(p, c) => if p <= k then Further(|p|, StopOf(c, k[|p|..])) else None
    case Branch(ch, _) => if k != [] && k[0] < |ch| then Further(1, StopOf(ch[k[0]], k[1..])) else None
  }

  /** The trie with another suffix at the leaf that a walk ends at. */
  function Regrown(t: Tree, k: Key, s: Key): Tree {
    match t
    case Nil => t
    case Leaf(_, w) => Leaf(s, w)
    case Ext(p, c) => if p <= k then Ext(p, Regrown(c, k[|p|..], s)) else t
    case Branch(ch, w) => if k != [] && k[0] < |ch| then Branch(ch[k[0] := Regrown(ch[k[0]], k[1..], s)], w) else t
  }

  lemma {:induction false} RegrownWF(t: Tree, k: Key, s: Key)
    requires WF(t)
    ensures var r := Regrown(t, k, s);
            WF(r) && (r.Nil? <==> t.Nil?) && (r.Leaf? <==> t.Leaf?) && (r.Ext? <==> t.Ext?) && (r.Branch? <==> t.Branch?)
  {
    match t
    case Ext(p, c) =>
      if p <= k {
        RegrownWF(c, k[|p|..], s);
      }
    case Branch(ch, w) =>
      if k != [] {
        RegrownWF(ch[k[0]], k[1..], s);
        SameKinds(ch, k[0], Regrown(ch[k[0]], k[1..], s));
      }
    case _ =>
  }

  lemma SameKinds(ch: seq<Tree>, i: nat, c: Tree)
    requires i < |ch| && (c.Nil? <==> ch[i].Nil?)
    ensures TwoChildren(ch) <==> TwoChildren(ch[i := c])
    ensures SomeChild(ch) <==> SomeChild(ch[i := c])
  {
    var d := ch[i := c];
    assert forall j | 0 <= j < |ch| :: d[j].Nil? <==> ch[j].Nil?;
  }

  lemma {:induction false} RegrownPlaced(t: Tree, d: nat, k: Key, s: Key)
    requires Placed(t, d) && (StopOf(t, k).Some? ==> (d + StopOf(t, k).value.used + |s|) % 2 == 0)
    ensures Placed(Regrown(t, k, s), d)
  {
    match t
    case Ext(p, c) =>
      if p <= k {
        RegrownPlaced(c, d + |p|, k[|p|..], s);
      }
    case Branch(ch, w) =>
      if k != [] && k[0] < |ch| {
        RegrownPlaced(ch[k[0]], d + 1, k[1..], s);
      }
    case _ =>
  }

  /** With its own suffix, or without a leaf to change, the trie is the same; with another suffix it is not. */
  lemma {:induction false} RegrownSame(t: Tree, k: Key, s: Key)
    ensures Regrown(t, k, s) == t <==> (StopOf(t, k).Some? ==> StopOf(t, k).value.suffix == s)
  {
    match t
    case Ext(p, c) =>
      if p <= k {
        RegrownSame(c, k[|p|..], s);
      }
    case Branch(ch, w) =>
      if k != [] && k[0] < |ch| {
        RegrownSame(ch[k[0]], k[1..], s);
        var c := Regrown(ch[k[0]], k[1..], s);
        assert ch[k[0] := c][k[0]] == c;
        assert c == ch[k[0]] ==> ch[k[0] := c] == ch;
      }
    case _ =>
  }

  /** Binding the key of a walk tells the suffix of the leaf that the walk ends at. */
  lemma {:induction false} InsertTells(t: Tree, k: Key, s: Key, v: Bytes)
    requires WF(t) && Insert(Regrown(t, k, s), k, v) == Insert(t, k, v)
    ensures Regrown(t, k, s) == t
  {
    hide SplitLeaf, SplitExt;
    match t
    case Nil =>
    case Leaf(x, w) =>
      if s != k && x != k {
        SplitTells(s, x, w, k, v);
      } else if s != x {
        SplitIsNoLeaf(if s == k then x else s, w, k, v);
      }
    case Ext(p, c) =>
      if p <= k {
        InsertTells(c, k[|p|..], s, v);
      }
    case Branch(ch, w) =>
      if k != [] {
        var c := Regrown(ch[k[0]], k[1..], s);
        assert ch[k[0] := c][k[0]] == c;
        assert ch[k[0] := c][k[0] := Insert(c, k[1..], v)][k[0]] == Insert(c, k[1..], v);
        assert ch[k[0] := Insert(ch[k[0]], k[1..], v)][k[0]] == Insert(ch[k[0]], k[1..], v);
        InsertTells(ch[k[0]], k[1..], s, v);
        assert ch[k[0] := ch[k[0]]] == ch;
      }
  }

  lemma SplitIsNoLeaf(s: Key, w: Bytes, k: Key, v: Bytes)
    ensures !SplitLeaf(s, w, k, v).Leaf?
  {
  }

  lemma SplitTells(s: Key, x: Key, w: Bytes, k: Key, v: Bytes)
    requires s != k && x != k && SplitLeaf(s, w, k, v) == SplitLeaf(x, w, k, v)
    ensures s == x
  {
    hide Lcp;
    var o, n := Lcp(s, k), Lcp(x, k);
    LcpShort(s, k);
    LcpShort(x, k);
    PrefixedTells(k[..o], Put(Put(BARE, s[o..], w), k[o..], v), k[..n], Put(Put(BARE, x[n..], w), k[n..], v));
    assert o == n;
    PutTells(s[o..], x[o..], w, k[o..], v);
    assert s == s[..o] + s[o..] && x == x[..o] + x[o..];
  }

  lemma PrefixedTells(p: Key, a: Tree, q: Key, b: Tree)
    requires a.Branch? && b.Branch? && Prefixed(p, a) == Prefixed(q, b)
    ensures p == q && a == b
  {
  }

  lemma PutTells(s: Key, x: Key, w: Bytes, k: Key, v: Bytes)
    requires s != k && x != k && (s != [] && k != [] ==> s[0] != k[0]) && (x != [] && k != [] ==> x[0] != k[0])
    requires Put(Put(BARE, s, w), k, v) == Put(Put(BARE, x, w), k, v)
    ensures s == x
  {
    hide Put;
    if s != [] {
      PutDiffers(s, x, w, k, v);
    } else if x != [] {
      PutDiffers(x, s, w, k, v);
    }
  }

  lemma PutDiffers(s: Key, x: Key, w: Bytes, k: Key, v: Bytes)
    requires s != [] && (k != [] ==> s[0] != k[0])
    ensures Put(Put(BARE, s, w), k, v) == Put(Put(BARE, x, w), k, v) ==> s == x
  {
    var a, b := Put(Put(BARE, s, w), k, v), Put(Put(BARE, x, w), k, v);
    assert a.children[s[0]] == Leaf(s[1..], w);
    assert b.children[s[0]] == if x != [] && x[0] == s[0] then Leaf(x[1..], w) else Nil;
    if x != [] && x[0] == s[0] {
      assert s == [s[0]] + s[1..] && x == [x[0]] + x[1..];
    }
  }

  /** The whole key of the leaf at the end of a walk, and the key it would have with another suffix. */
  function KeyAt(k: Key, e: Stop, s: Key): Key
    requires e.used <= |k|
  {
    k[..e.used] + s
  }

  lemma KeyBehind(p: Key, k: Key, e: Stop, s: Key)
    requires p <= k && e.used <= |k| - |p|
    ensures KeyAt(k, e.(used := |p| + e.used), s) == p + KeyAt(k[|p|..], e, s)
  {
  }

  lemma PlusPrefix(p: Key, x: Key, q: Key)
    ensures q == p + x <==> p <= q && q[|p|..] == x
  {
  }

  /** Reading after the leaf at the end of a walk got another suffix. */
  lemma {:induction false} LookupRegrown(t: Tree, k: Key, s: Key, q: Key)
    requires StopOf(t, k).Some?
    ensures var e := StopOf(t, k).value;
            && Lookup(t, KeyAt(k, e, e.suffix)) == Some(e.value)
            && Lookup(Regrown(t, k, s), q) ==
               if q == KeyAt(k, e, s) then Some(e.value) else if q == KeyAt(k, e, e.suffix) then None else Lookup(t, q)
    decreases t, 1
  {
    var e := StopOf(t, k).value;
    match t
    case Leaf(x, w) => assert KeyAt(k, e, s) == s && KeyAt(k, e, x) == x;
    case Ext(_, _) => RegrownExt(t, k, s, q);
    case Branch(_, _) => RegrownBranch(t, k, s, q);
  }

  lemma {:induction false} RegrownExt(t: Tree, k: Key, s: Key, q: Key)
    requires t.Ext? && StopOf(t, k).Some?
    ensures var e := StopOf(t, k).value;
            && Lookup(t, KeyAt(k, e, e.suffix)) == Some(e.value)
            && Lookup(Regrown(t, k, s), q) ==
               if q == KeyAt(k, e, s) then Some(e.value) else if q == KeyAt(k, e, e.suffix) then None else Lookup(t, q)
    decreases t, 0
  {
    hide KeyAt;
    var e, p, c := StopOf(t, k).value, t.prefix, t.child;
    var f := StopOf(c, k[|p|..]).value;
    KeyBehind(p, k, f, s);
    KeyBehind(p, k, f, e.suffix);
    PlusPrefix(p, KeyAt(k[|p|..], f, s), q);
    PlusPrefix(p, KeyAt(k[|p|..], f, f.suffix), q);
    PlusPrefix(p, KeyAt(k[|p|..], f, f.suffix), KeyAt(k, e, e.suffix));
    LookupRegrown(c, k[|p|..], s, if p <= q then q[|p|..] else []);
  }

  lemma {:induction false} RegrownBranch(t: Tree, k: Key, s: Key, q: Key)
    requires t.Branch? && StopOf(t, k).Some?
    ensures var e := StopOf(t, k).value;
            && Lookup(t, KeyAt(k, e, e.suffix)) == Some(e.value)
            && Lookup(Regrown(t, k, s), q) ==
               if q == KeyAt(k, e, s) then Some(e.value) else if q == KeyAt(k, e, e.suffix) then None else Lookup(t, q)
    decreases t, 0
  {
    hide KeyAt;
    var e, p, c := StopOf(t, k).value, [k[0]], t.children[k[0]];
    assert p <= k && k[|p|..] == k[1..];
    var f := StopOf(c, k[1..]).value;
    KeyBehind(p, k, f, s);
    KeyBehind(p, k, f, e.suffix);
    PlusPrefix(p, KeyAt(k[1..], f, s), q);
    PlusPrefix(p, KeyAt(k[1..], f, f.suffix), q);
    PlusPrefix(p, KeyAt(k[1..], f, f.suffix), KeyAt(k, e, e.suffix));
    LookupRegrown(c, k[1..], s, if p <= q then q[1..] else []);
    var r := t.children[k[0] := Regrown(c, k[1..], s)];
    assert r[k[0]] == Regrown(c, k[1..], s);
    assert q != [] && q[0] != k[0] && q[0] < |r| ==> r[q[0]] == t.children[q[0]];
    assert p <= q <==> q != [] && q[0] == k[0];
  }

  /** A walk that ends at a leaf has no other key ahead of it. */
  lemma {:induction false} StopAlone(t: Tree, k: Key, q: Key)
    requires StopOf(t, k).Some? && Lookup(t, q).Some?
    ensures var e := StopOf(t, k).value;
            e.used <= |q| && q[..e.used] == k[..e.used] ==> q == KeyAt(k, e, e.suffix)
  {
    hide KeyAt;
    var e := StopOf(t, k).value;
    match t
    case Leaf(x, w) => KeyAtRoot(k, e);
    case Ext(p, c) =>
      StopAlone(c, k[|p|..], q[|p|..]);
      AloneBehind(p, k, q, StopOf(c, k[|p|..]).value);
    case Branch(ch, w) =>
      if e.used <= |q| && q[..e.used] == k[..e.used] {
        var f := StopOf(ch[k[0]], k[1..]).value;
        SlicesBehind(k, q, 1, f.used);
        StopAlone(ch[k[0]], k[1..], q[1..]);
        assert k[|[k[0]]|..] == k[1..] && q[|[k[0]]|..] == q[1..];
        AloneBehind([k[0]], k, q, f);
      }
  }

  lemma KeyAtRoot(k: Key, e: Stop)
    requires e.used == 0
    ensures KeyAt(k, e, e.suffix) == e.suffix
  {
  }

  lemma AloneBehind(p: Key, k: Key, q: Key, f: Stop)
    requires p <= k && p <= q && |p| + f.used <= |k|
    requires f.used <= |q[|p|..]| && q[|p|..][..f.used] == k[|p|..][..f.used] ==> q[|p|..] == KeyAt(k[|p|..], f, f.suffix)
    ensures var e := f.(used := |p| + f.used);
            e.used <= |q| && q[..e.used] == k[..e.used] ==> q == KeyAt(k, e, f.suffix)
  {
    hide KeyAt;
    var n := |p| + f.used;
    KeyBehind(p, k, f, f.suffix);
    PlusPrefix(p, KeyAt(k[|p|..], f, f.suffix), q);
    if n <= |q| && q[..n] == k[..n] {
      SlicesBehind(k, q, |p|, f.used);
    }
  }

  lemma SlicesBehind(k: Key, q: Key, n: nat, m: nat)
    requires n + m <= |k| && n + m <= |q| && q[..n + m] == k[..n + m]
    ensures q[n..][..m] == k[n..][..m]
    ensures n > 0 ==> q[0] == k[0]
    ensures q[..n] == k[..n]
  {
    assert q[n..][..m] == q[..n + m][n..] && k[n..][..m] == k[..n + m][n..];
    assert q[..n] == q[..n + m][..n] && k[..n] == k[..n + m][..n];
    assert n > 0 ==> q[0] == q[..n + m][0] && k[0] == k[..n + m][0];
  }
}
