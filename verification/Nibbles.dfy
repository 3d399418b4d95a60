/**
  * Packed half-bytes (`crates/trie/nibble.rs`): a byte string read at a nibble offset, and a byte vector whose
  * first and last byte may each stand for one nibble only. Both are proved to behave like plain nibble sequences.
  */
module Nibbles {
  import opened Prelude

  // ---------------------------------------------------------------------------------------------
  // Plain nibble sequences
  // ---------------------------------------------------------------------------------------------

  function NibbleAt(data: Bytes, i: nat): nibble
    requires i < 2 * |data|
  {
    if i % 2 == 0 then data[i / 2] / 16 else data[i / 2] % 16
  }

  /** Both nibbles of every byte, high half first. */
  function Nibs(data: Bytes): (r: seq<nibble>)
    ensures |r| == 2 * |data|
  {
    seq(2 * |data|, i requires 0 <= i < 2 * |data| => NibbleAt(data, i))
  }

  lemma NibsAt(a: Bytes, i: nat)
    requires i < |a|
    ensures Nibs(a)[2 * i] == a[i] / 16
    ensures Nibs(a)[2 * i + 1] == a[i] % 16
  {
  }

  lemma NibsConcat(a: Bytes, b: Bytes)
    ensures Nibs(a + b) == Nibs(a) + Nibs(b)
  {
    forall i | 0 <= i < 2 * |a + b|
      ensures Nibs(a + b)[i] == (Nibs(a) + Nibs(b))[i]
    {
      if i >= 2 * |a| {
        assert (i - 2 * |a|) / 2 == i / 2 - |a| && (i - 2 * |a|) % 2 == i % 2;
      }
    }
  }

  lemma NibsInjective(a: Bytes, b: Bytes)
    requires Nibs(a) == Nibs(b)
    ensures a == b
  {
    assert |Nibs(a)| == |Nibs(b)|;
    forall i | 0 <= i < |a|
      ensures a[i] == b[i]
    {
      NibsAt(a, i);
      NibsAt(b, i);
    }
  }

  lemma NibsSlice(a: Bytes, i: nat, j: nat)
    requires i <= j <= |a|
    ensures Nibs(a[i..j]) == Nibs(a)[2 * i..2 * j]
  {
    NibsConcat(a[..i], a[i..]);
    NibsConcat(a[i..j], a[j..]);
    assert a == a[..i] + a[i..];
    assert a[i..] == a[i..j] + a[j..];
  }

  /** The length of the longest common prefix. */
  function Lcp(a: seq<nibble>, b: seq<nibble>): (n: nat)
    ensures n <= |a| && n <= |b|
  {
    if a == [] || b == [] || a[0] != b[0] then 0 else 1 + Lcp(a[1..], b[1..])
  }

  lemma {:induction false} LcpMeaning(a: seq<nibble>, b: seq<nibble>)
    ensures var n := Lcp(a, b);
            && (forall i | 0 <= i < n :: a[i] == b[i])
            && (n == |a| || n == |b| || a[n] != b[n])
  {
    if a != [] && b != [] && a[0] == b[0] {
      LcpMeaning(a[1..], b[1..]);
      assert forall i | 0 < i < |a| :: a[i] == a[1..][i - 1];
      assert forall i | 0 < i < |b| :: b[i] == b[1..][i - 1];
    }
  }

  lemma LcpUnique(a: seq<nibble>, b: seq<nibble>, n: nat)
    requires n <= |a| && n <= |b|
    requires forall i | 0 <= i < n :: a[i] == b[i]
    requires n == |a| || n == |b| || a[n] != b[n]
    ensures n == Lcp(a, b)
  {
    LcpMeaning(a, b);
  }

  // ---------------------------------------------------------------------------------------------
  // NibbleVec
  // ---------------------------------------------------------------------------------------------

  function High(b: byte): nibble {
    b / 16
  }

  /** The fields of a `NibbleVec` as a value. */
  datatype Packed = Packed(data: Bytes, firstIsHalf: bool, lastIsHalf: bool) {

    /** There is room for the halves that are left out. */
    predicate WellFormed() {
      data == [] ==> !firstIsHalf && !lastIsHalf
    }

    /** No bytes are kept when there are no nibbles. */
    predicate Normalised() {
      WellFormed() && !(|data| == 1 && firstIsHalf && lastIsHalf)
    }

    function Len(): (n: nat)
      requires WellFormed()
    {
      2 * |data| - (if firstIsHalf then 1 else 0) - (if lastIsHalf then 1 else 0)
    }

    /** The nibbles the vector stands for. */
    function View(): (r: seq<nibble>)
      requires WellFormed()
      ensures |r| == Len()
    {
      Nibs(data)[(if firstIsHalf then 1 else 0)..2 * |data| - (if lastIsHalf then 1 else 0)]
    }
  }

  const EMPTY: Packed := Packed([], false, false)

  /** A normalised vector is empty exactly when it has no bytes, which is what `is_empty` tests. */
  lemma NormalisedEmpty(v: Packed)
    requires v.Normalised()
    ensures v.View() == [] <==> v.data == []
  {
    assert v.data != [] ==> |v.View()| > 0;
  }

  /** The vector of one nibble, in the low half of its byte when `isRightHalf`. */
  function FromSingle(n: nibble, isRightHalf: bool): (v: Packed)
    ensures v.Normalised()
    ensures v.View() == [n]
    ensures v.firstIsHalf == isRightHalf
  {
    var v := Packed([if isRightHalf then n else 16 * n], isRightHalf, !isRightHalf);
    assert Nibs(v.data) == [v.data[0] / 16, v.data[0] % 16];
    v
  }

  /** The same nibbles in normalised form. */
  function Normal(v: Packed): (r: Packed)
    ensures r.Normalised()
    ensures v.WellFormed() ==> r.View() == v.View()
    ensures v.data == [] ==> r == EMPTY
    ensures r.data != [] ==> r == v
  {
    if v.data == [] || (|v.data| == 1 && v.firstIsHalf && v.lastIsHalf) then EMPTY else v
  }

  /** A `NibbleVec` that is updated in place. */
  class NibbleVec {
    var data: Bytes
    var firstIsHalf: bool
    var lastIsHalf: bool

    function Value(): Packed
      reads this
    {
      Packed(data, firstIsHalf, lastIsHalf)
    }

    constructor (v: Packed)
      ensures Value() == v
    {
      data, firstIsHalf, lastIsHalf := v.data, v.firstIsHalf, v.lastIsHalf;
    }

    /** Clears the vector when it stands for no nibble; the nibbles do not change. */
    method Normalize()
      modifies this
      ensures Value() == Normal(old(Value()))
    {
      if |data| == 0 || (|data| == 1 && firstIsHalf && lastIsHalf) {
        data, firstIsHalf, lastIsHalf := [], false, false;
      }
    }

    /** Puts `n` in front. */
    method Prepend(n: nibble)
      requires Value().WellFormed()
      modifies this
      ensures Value().WellFormed()
      ensures old(Value()).Normalised() ==> Value().Normalised()
      ensures Value().View() == [n] + old(Value()).View()
      ensures firstIsHalf == !old(firstIsHalf)
    {
      ghost var before := data;
      if firstIsHalf {
        data := data[0 := 16 * n + data[0] % 16];
        assert data[1..] == before[1..];
      } else {
        data := [n] + data;
        assert data[1..] == before;
      }
      PrependedNibs(before, data, n, firstIsHalf);
      firstIsHalf := !firstIsHalf;
    }

    /** Appends the nibbles of `other`, whose alignment must continue this vector's. */
    method Extend(other: Packed)
      requires Value().WellFormed() && other.WellFormed()
      requires lastIsHalf == other.firstIsHalf
      modifies this
      ensures Value().WellFormed()
      ensures Value().View() == old(Value()).View() + other.View()
      ensures old(data) != [] || !other.firstIsHalf ==> firstIsHalf == old(firstIsHalf)
      ensures old(Value()).View() != [] && old(Value()).Normalised() && other.Normalised() ==> Value().Normalised()
    {
      ghost var before := Value();
      if lastIsHalf {
        data := data[|data| - 1 := data[|data| - 1] / 16 * 16 + other.data[0] % 16];
      }
      lastIsHalf := other.lastIsHalf;
      data := data + other.data[if other.firstIsHalf then 1 else 0..];
      ExtendedView(before, other, Value());
    }
  }

  lemma PrependedNibs(before: Bytes, data: Bytes, n: nibble, firstIsHalf: bool)
    requires data != []
    requires firstIsHalf ==> before != [] && data == [16 * n + before[0] % 16] + before[1..]
    requires !firstIsHalf ==> data == [n] + before
    ensures firstIsHalf ==> Nibs(data) == [n] + Nibs(before)[1..]
    ensures !firstIsHalf ==> Nibs(data)[1..] == [n] + Nibs(before)
  {
    if firstIsHalf {
      NibsConcat([data[0]], before[1..]);
      NibsSlice(before, 1, |before|);
      assert before[1..] == before[1..|before|];
      assert Nibs([data[0]]) == [n, before[0] % 16];
      NibsAt(before, 0);
    } else {
      NibsConcat([n], before);
      assert Nibs([n]) == [0, n];
    }
  }

  lemma ExtendedView(self: Packed, other: Packed, after: Packed)
    requires self.WellFormed() && other.WellFormed()
    requires self.lastIsHalf == other.firstIsHalf
    requires after.firstIsHalf == self.firstIsHalf && after.lastIsHalf == other.lastIsHalf
    requires self.lastIsHalf ==>
               var k := |self.data| - 1;
               after.data == self.data[k := self.data[k] / 16 * 16 + other.data[0] % 16] + other.data[1..]
    requires !self.lastIsHalf ==> after.data == self.data + other.data
    ensures after.WellFormed()
    ensures after.View() == self.View() + other.View()
    ensures self.View() != [] && self.Normalised() && other.Normalised() ==> after.Normalised()
  {
    if self.lastIsHalf {
      var k := |self.data| - 1;
      var m := self.data[k] / 16 * 16 + other.data[0] % 16;
      assert self.data[k := m] == self.data[..k] + [m];
    }
    ExtendedNibs(self, other, after.data);
    var x := Nibs(self.data)[..2 * |self.data| - (if self.lastIsHalf then 1 else 0)];
    var y := Nibs(other.data)[(if other.firstIsHalf then 1 else 0)..];
    var f, l := if self.firstIsHalf then 1 else 0, if other.lastIsHalf then 1 else 0;
    TrimConcat(x, y, f, l);
    assert self.View() == x[f..];
    assert other.View() == y[..|y| - l];
    assert after.View() == (x + y)[f..|x| + |y| - l];
  }

  lemma TrimConcat<T>(x: seq<T>, y: seq<T>, f: nat, l: nat)
    requires f <= |x| && l <= |y|
    ensures (x + y)[f..|x| + |y| - l] == x[f..] + y[..|y| - l]
  {
  }

  lemma ExtendedNibs(self: Packed, other: Packed, data: Bytes)
    requires self.WellFormed() && other.WellFormed()
    requires self.lastIsHalf == other.firstIsHalf
    requires self.lastIsHalf ==>
               data == self.data[..|self.data| - 1]
                       + [self.data[|self.data| - 1] / 16 * 16 + other.data[0] % 16] + other.data[1..]
    requires !self.lastIsHalf ==> data == self.data + other.data
    ensures Nibs(data)
         == Nibs(self.data)[..2 * |self.data| - (if self.lastIsHalf then 1 else 0)]
            + Nibs(other.data)[(if other.firstIsHalf then 1 else 0)..]
  {
    if self.lastIsHalf {
      var k := |self.data| - 1;
      var m := self.data[k] / 16 * 16 + other.data[0] % 16;
      NibsConcat(self.data[..k] + [m], other.data[1..]);
      NibsConcat(self.data[..k], [m]);
      NibsSlice(self.data, 0, k);
      NibsSlice(other.data, 1, |other.data|);
      assert self.data[..k] == self.data[0..k] && other.data[1..] == other.data[1..|other.data|];
      assert Nibs([m]) == [self.data[k] / 16, other.data[0] % 16];
      NibsAt(self.data, k);
      NibsAt(other.data, 0);
    } else {
      NibsConcat(self.data, other.data);
    }
  }

  /** The part of `v` before nibble `index`, as `split_extract_at` cuts it. */
  function LeftPiece(v: Packed, index: nat): (r: Packed)
    requires v.WellFormed() && index < v.Len()
    ensures r.Normalised()
    ensures r.View() == v.View()[..index]
    ensures r.data != [] ==> r.firstIsHalf == v.firstIsHalf
  {
    var first := if v.firstIsHalf then 1 else 0;
    var position := index + first;
    var offset := (position + 1) / 2;
    LeftView(v, index, first, position, offset);
    Normal(Packed(v.data[..offset], v.firstIsHalf, position % 2 != 0))
  }

  lemma LeftView(v: Packed, index: nat, first: nat, position: nat, offset: nat)
    requires v.WellFormed() && index < v.Len()
    requires first == (if v.firstIsHalf then 1 else 0) && position == index + first && offset == (position + 1) / 2
    ensures offset <= |v.data|
    ensures var p := Packed(v.data[..offset], v.firstIsHalf, position % 2 != 0);
            p.WellFormed() && p.View() == v.View()[..index]
  {
    hide Nibs;
    HeadNibs(v.data, first, offset, position);
    assert 2 * offset - position % 2 == position;
    SliceOfSlice(Nibs(v.data), first, 2 * |v.data| - (if v.lastIsHalf then 1 else 0), 0, index);
  }

  /** The part of `v` after nibble `index`. */
  function RightPiece(v: Packed, index: nat): (r: Packed)
    requires v.WellFormed() && index < v.Len()
    ensures r.Normalised()
    ensures r.View() == v.View()[index + 1..]
    ensures r.data != [] ==> r.firstIsHalf == ((index + if v.firstIsHalf then 1 else 0) % 2 == 0)
  {
    var position := index + if v.firstIsHalf then 1 else 0;
    var offset := (position + 1) / 2;
    if offset >= |v.data| then Normal(Packed([], position % 2 == 0, v.lastIsHalf))
    else
      RightView(v, index, position, offset);
      Normal(Packed(v.data[offset..], position % 2 == 0, v.lastIsHalf))
  }

  lemma RightView(v: Packed, index: nat, position: nat, offset: nat)
    requires v.WellFormed() && index < v.Len()
    requires position == index + (if v.firstIsHalf then 1 else 0) && offset == (position + 1) / 2 < |v.data|
    ensures Packed(v.data[offset..], position % 2 == 0, v.lastIsHalf).View() == v.View()[index + 1..]
  {
    var end := 2 * |v.data| - (if v.lastIsHalf then 1 else 0);
    var start := (position + 1) % 2;
    assert start == if position % 2 == 0 then 1 else 0;
    calc {
      Packed(v.data[offset..], position % 2 == 0, v.lastIsHalf).View();
      Nibs(v.data[offset..])[start..end - 2 * offset];
      { TailNibs(v.data, offset, position + 1, end); }
      Nibs(v.data)[position + 1..end];
      v.View()[index + 1..];
    }
  }

  /** `split_extract_at`: the nibbles before, at, and after `index`; they concatenate back. */
  method SplitExtractAt(v: Packed, index: nat) returns (left: Packed, n: nibble, right: Packed)
    requires v.WellFormed()
    requires index < v.Len()
    ensures left == LeftPiece(v, index) && right == RightPiece(v, index)
    ensures n == v.View()[index]
    ensures v.View() == left.View() + [n] + right.View()
  {
    var first := if v.firstIsHalf then 1 else 0;
    var position := index + first;
    var offset := (index + 1 + first) / 2;
    left := NewNormalised(v.data[..offset], v.firstIsHalf, position % 2 != 0);
    n := if position % 2 != 0 then v.data[position / 2] % 16 else v.data[position / 2] / 16;
    right := NewNormalised(if offset >= |v.data| then [] else v.data[offset..], position % 2 == 0, v.lastIsHalf);
    ViewAt(v, index);
    CutAt(v.View(), index);
  }

  method NewNormalised(data: Bytes, firstIsHalf: bool, lastIsHalf: bool) returns (v: Packed)
    ensures v == Normal(Packed(data, firstIsHalf, lastIsHalf))
  {
    var vec := new NibbleVec(Packed(data, firstIsHalf, lastIsHalf));
    vec.Normalize();
    v := vec.Value();
  }

  lemma CutAt<T>(s: seq<T>, i: nat)
    requires i < |s|
    ensures s == s[..i] + [s[i]] + s[i + 1..]
  {
  }

  lemma ViewAt(v: Packed, index: nat)
    requires v.WellFormed() && index < v.Len()
    ensures var position := index + if v.firstIsHalf then 1 else 0;
            v.View()[index] == if position % 2 != 0 then v.data[position / 2] % 16 else v.data[position / 2] / 16
  {
    var position := index + if v.firstIsHalf then 1 else 0;
    NibsAt(v.data, position / 2);
    assert v.View()[index] == Nibs(v.data)[position];
  }

  lemma HeadNibs(data: Bytes, first: nat, offset: nat, position: nat)
    requires first <= position < 2 * |data| && offset == (position + 1) / 2
    ensures Nibs(data[..offset])[first..2 * offset - position % 2] == Nibs(data)[first..position]
  {
    NibsSlice(data, 0, offset);
    assert data[..offset] == data[0..offset];
    assert 2 * offset - position % 2 == position;
  }

  lemma TailNibs(data: Bytes, offset: nat, start: nat, end: nat)
    requires offset == start / 2 < |data|
    requires start <= end <= 2 * |data|
    ensures Nibs(data[offset..])[start % 2..end - 2 * offset] == Nibs(data)[start..end]
  {
    NibsSlice(data, offset, |data|);
    assert data[offset..] == data[offset..|data|];
  }

  // ---------------------------------------------------------------------------------------------
  // NibbleSlice
  // ---------------------------------------------------------------------------------------------

  /** A non-empty packed vector is its leading half, its whole bytes, and its trailing half. */
  lemma Decompose(v: Packed)
    requires v.Normalised() && v.data != []
    ensures var f, l := if v.firstIsHalf then 1 else 0, |v.data| - (if v.lastIsHalf then 1 else 0);
            && f <= l
            && v.View() == (if v.firstIsHalf then [v.data[0] % 16] else []) + Nibs(v.data[f..l])
                           + (if v.lastIsHalf then [v.data[|v.data| - 1] / 16] else [])
  {
    hide Nibs;
    var f, l := if v.firstIsHalf then 1 else 0, |v.data| - (if v.lastIsHalf then 1 else 0);
    var s := Nibs(v.data);
    Cut3(s, f, 2 * f, 2 * l, |s| - (if v.lastIsHalf then 1 else 0));
    NibsSlice(v.data, f, l);
    if v.firstIsHalf {
      NibsAt(v.data, 0);
      Single(s, 1);
    }
    if v.lastIsHalf {
      NibsAt(v.data, l);
      Single(s, 2 * l);
    }
  }

  lemma Cut3<T>(s: seq<T>, a: nat, b: nat, c: nat, d: nat)
    requires a <= b <= c <= d <= |s|
    ensures s[a..d] == s[a..b] + s[b..c] + s[c..d]
  {
  }

  lemma Single<T>(s: seq<T>, i: nat)
    requires i < |s|
    ensures s[i..i + 1] == [s[i]]
  {
  }

  lemma SliceOfSlice<T>(s: seq<T>, a: nat, b: nat, c: nat, d: nat)
    requires a <= b <= |s| && c <= d <= b - a
    ensures s[a..b][c..d] == s[a + c..a + d]
  {
    var t := s[a..b];
    forall i | 0 <= i < d - c
      ensures t[c..d][i] == s[a + c..a + d][i]
    {
      assert t[c..d][i] == t[c + i] == s[a + (c + i)];
    }
  }

  /** Two vectors of one shape hold the same nibbles exactly when their halves and whole bytes agree. */
  lemma SameShape(v: Packed, w: Packed)
    requires v.Normalised() && v.data != []
    requires |w.data| == |v.data| && w.firstIsHalf == v.firstIsHalf && w.lastIsHalf == v.lastIsHalf
    ensures var f, l := if v.firstIsHalf then 1 else 0, |v.data| - (if v.lastIsHalf then 1 else 0);
            v.View() == w.View() <==>
            && (v.firstIsHalf ==> v.data[0] % 16 == w.data[0] % 16)
            && (v.lastIsHalf ==> v.data[l] / 16 == w.data[l] / 16)
            && v.data[f..l] == w.data[f..l]
  {
    var f, l := if v.firstIsHalf then 1 else 0, |v.data| - (if v.lastIsHalf then 1 else 0);
    Decompose(v);
    Decompose(w);
    if v.View() == w.View() {
      assert v.View()[f..f + 2 * (l - f)] == Nibs(v.data[f..l]);
      assert w.View()[f..f + 2 * (l - f)] == Nibs(w.data[f..l]);
      NibsInjective(v.data[f..l], w.data[f..l]);
      assert v.firstIsHalf ==> v.View()[0] == v.data[0] % 16 && w.View()[0] == w.data[0] % 16;
      var k := |v.View()| - 1;
      assert v.lastIsHalf ==> v.View()[k] == v.data[l] / 16 && w.View()[k] == w.data[l] / 16;
    }
  }

  /** The bytes a prefix of `count` nibbles occupies behind `offset` show exactly those nibbles. */
  lemma Window(data: Bytes, offset: nat, width: nat, lastIsHalf: bool)
    requires offset / 2 + width <= |data| && width > 0
    requires !(width == 1 && offset % 2 == 1 && lastIsHalf)
    ensures var w := Packed(data[offset / 2..offset / 2 + width], offset % 2 == 1, lastIsHalf);
            w.Normalised() && offset + w.Len() <= 2 * |data| && w.View() == Nibs(data)[offset..][..w.Len()]
  {
    hide Nibs;
    var a, b := offset / 2, offset / 2 + width;
    var w := Packed(data[a..b], offset % 2 == 1, lastIsHalf);
    NibsSlice(data, a, b);
    var end := 2 * width - (if lastIsHalf then 1 else 0);
    SliceOfSlice(Nibs(data), 2 * a, 2 * b, offset % 2, end);
    assert w.View() == Nibs(data)[offset..2 * a + end];
    assert Nibs(data)[offset..][..w.Len()] == Nibs(data)[offset..2 * a + end];
  }

  /** The byte comparisons of `skip_prefix` decide whether the prefix matches. */
  lemma SkipMatch(data: Bytes, offset: nat, prefix: Packed)
    requires prefix.Normalised() && prefix.data != []
    requires (offset % 2 == 1) == prefix.firstIsHalf
    requires offset / 2 + |prefix.data| <= |data|
    ensures offset + prefix.Len() <= 2 * |data|
    ensures var s := data[offset / 2..offset / 2 + |prefix.data|];
            var f, l := if prefix.firstIsHalf then 1 else 0, |prefix.data| - (if prefix.lastIsHalf then 1 else 0);
            prefix.View() <= Nibs(data)[offset..] <==>
            && (prefix.firstIsHalf ==> prefix.data[0] % 16 == s[0] % 16)
            && (prefix.lastIsHalf ==> prefix.data[l] / 16 == s[l] / 16)
            && prefix.data[f..l] == s[f..l]
  {
    hide Nibs, Packed.View;
    var w := Packed(data[offset / 2..offset / 2 + |prefix.data|], prefix.firstIsHalf, prefix.lastIsHalf);
    Window(data, offset, |prefix.data|, prefix.lastIsHalf);
    SameShape(prefix, w);
    PrefixIsTake(prefix.View(), Nibs(data)[offset..]);
  }

  lemma PrefixIsTake<T>(p: seq<T>, s: seq<T>)
    requires |p| <= |s|
    ensures p <= s <==> p == s[..|p|]
  {
  }

  lemma LcpCons(x: nibble, a: seq<nibble>, b: seq<nibble>)
    ensures Lcp([x] + a, [x] + b) == 1 + Lcp(a, b)
  {
    assert ([x] + a)[1..] == a && ([x] + b)[1..] == b;
  }

  lemma LcpSnoc(a: seq<nibble>, b: seq<nibble>, z: nibble)
    ensures Lcp(a, b + [z])
         == if Lcp(a, b) == |b| < |a| && a[|b|] == z then |b| + 1 else Lcp(a, b)
  {
    hide Lcp;
    LcpLonger(a, b, b + [z]);
  }

  lemma LcpLonger(a: seq<nibble>, b: seq<nibble>, c: seq<nibble>)
    requires |c| == |b| + 1 && forall i | 0 <= i < |b| :: b[i] == c[i]
    ensures Lcp(a, c)
         == if Lcp(a, b) == |b| < |a| && a[|b|] == c[|b|] then |b| + 1 else Lcp(a, b)
  {
    hide Lcp;
    LcpMeaning(a, b);
    LcpMeaning(a, c);
  }

  /** Compares whole bytes from the front; one extra nibble matches when only the high halves agree. */
  method MatchBytes(a: Bytes, b: Bytes) returns (count: nat, allEqual: bool)
    ensures count == Lcp(Nibs(a), Nibs(b))
    ensures allEqual <==> count == 2 * |a| || count == 2 * |b|
  {
    count, allEqual := 0, true;
    var i := 0;
    while i < |a| && i < |b|
      invariant i <= |a| && i <= |b|
      invariant count == 2 * i && allEqual
      invariant forall k | 0 <= k < 2 * i :: Nibs(a)[k] == Nibs(b)[k]
    {
      NibsAt(a, i);
      NibsAt(b, i);
      if a[i] == b[i] {
        count := count + 2;
      } else if a[i] / 16 == b[i] / 16 {
        count := count + 1;
        allEqual := false;
        break;
      } else {
        allEqual := false;
        break;
      }
      i := i + 1;
    }
    LcpUnique(Nibs(a), Nibs(b), count);
  }

  /** Compares the bytes of a prefix with those of a path: its leading half, its trailing half, and the bytes between. */
  method SameWindow(prefix: Bytes, window: Bytes, firstIsHalf: bool, lastIsHalf: bool) returns (same: bool)
    requires |prefix| == |window| > 0 && !(|prefix| == 1 && firstIsHalf && lastIsHalf)
    ensures var f, l := if firstIsHalf then 1 else 0, |prefix| - (if lastIsHalf then 1 else 0);
            same <==>
            && (firstIsHalf ==> prefix[0] % 16 == window[0] % 16)
            && (lastIsHalf ==> prefix[l] / 16 == window[l] / 16)
            && prefix[f..l] == window[f..l]
  {
    ghost var f, l := if firstIsHalf then 1 else 0, |prefix| - (if lastIsHalf then 1 else 0);
    var p, s := prefix, window;
    if firstIsHalf {
      if p[0] % 16 != s[0] % 16 {
        return false;
      }
      s, p := s[1..], p[1..];
    }
    assert p == prefix[f..] && s == window[f..];
    if lastIsHalf {
      var i := |s| - 1;
      assert p[i] == prefix[l] && s[i] == window[l];
      if High(p[i]) != High(s[i]) {
        return false;
      }
      s, p := s[..i], p[..i];
    }
    assert p == prefix[f..l] && s == window[f..l];
    return s == p;
  }

  /** A path and how much of it has been traversed. */
  class NibbleSlice {
    const data: Bytes
    var offset: nat

    /** The nibbles still to traverse. */
    ghost function Rest(): (r: seq<nibble>)
      reads this
      requires offset <= 2 * |data|
    {
      Nibs(data)[offset..]
    }

    constructor (data: Bytes, offset: nat)
      ensures this.data == data && this.offset == offset
    {
      this.data := data;
      this.offset := offset;
    }

    method Len() returns (n: nat)
      requires offset <= 2 * |data|
      ensures n == |Rest()|
    {
      n := 2 * |data| - offset;
    }

    /** Takes the next nibble, if there is one. */
    method Next() returns (n: Option<nibble>)
      modifies this
      ensures old(offset) < 2 * |data| ==> n == Some(Nibs(data)[old(offset)]) && offset == old(offset) + 1
      ensures old(offset) >= 2 * |data| ==> n == None && offset == old(offset)
    {
      if offset / 2 < |data| {
        var b := data[offset / 2];
        n := Some(if offset % 2 != 0 then b % 16 else b / 16);
        NibsAt(data, offset / 2);
        offset := offset + 1;
      } else {
        n := None;
      }
    }

    /** The first `n` nibbles still to traverse, with the slice's alignment. */
    method SplitToVec(n: nat) returns (v: Packed)
      requires offset + n <= 2 * |data|
      ensures v.WellFormed()
      ensures n > 0 ==> v.Normalised()
      ensures v.View() == Rest()[..n]
      ensures v.data != [] ==> v.firstIsHalf == (offset % 2 == 1)
    {
      v := Packed(data[offset / 2..(offset + n + 1) / 2], offset % 2 != 0, (offset + n) % 2 != 0);
      SplitView(data, offset, n);
    }

    /**
      * Advances past `prefix` when the rest of the path starts with it. Only the length of the whole path is tested before
      * the bytes to compare are cut out of it: when fewer nibbles remain than the prefix has, but the path is long enough
      * in total, the cut goes out of bounds (`None`).
      */
    method SkipPrefix(prefix: Packed) returns (skipped: Option<bool>)
      requires prefix.Normalised()
      requires offset <= 2 * |data|
      requires (offset % 2 == 1) == prefix.firstIsHalf
      modifies this
      ensures skipped.None? <==> |prefix.data| <= |data| && 2 * |data| - old(offset) < prefix.Len()
      ensures skipped.Some? ==> (skipped.value <==> prefix.View() <= old(Rest()))
      ensures offset == old(offset) + if skipped == Some(true) then prefix.Len() else 0
    {
      hide Nibs;
      if |data| < |prefix.data| {
        return Some(false);
      }
      var p := prefix.data;
      if offset / 2 + |p| > |data| {
        return None;
      }
      var s := data[offset / 2..offset / 2 + |p|];
      if p == [] || (|p| == 1 && prefix.firstIsHalf && prefix.lastIsHalf) {
        return Some(true);
      }
      SkipMatch(data, offset, prefix);
      var same := SameWindow(p, s, prefix.firstIsHalf, prefix.lastIsHalf);
      if same {
        offset := offset + 2 * |p| - (if prefix.firstIsHalf then 1 else 0) - (if prefix.lastIsHalf then 1 else 0);
      }
      return Some(same);
    }

    /** Whether the rest of this path equals `other` behind the same offset; out of bounds when `other` is shorter. */
    method CmpRest(other: Bytes) returns (same: Option<bool>)
      requires offset <= 2 * |data|
      ensures same.None? <==> offset > 2 * |other|
      ensures same.Some? ==> (same.value <==> Rest() == Nibs(other)[offset..])
    {
      hide Nibs;
      if offset / 2 > |other| || (offset % 2 != 0 && offset / 2 == |other|) {
        return None;
      }
      RestNibs(data, offset);
      RestNibs(other, offset);
      var o := other[offset / 2..];
      var s := data[offset / 2..];
      if offset % 2 != 0 {
        if o[0] % 16 != s[0] % 16 {
          assert Rest()[0] != Nibs(other)[offset..][0];
          return Some(false);
        }
        o, s := o[1..], s[1..];
        assert o == other[(offset + 1) / 2..] && s == data[(offset + 1) / 2..];
        assert Rest()[1..] == Nibs(s) && Nibs(other)[offset..][1..] == Nibs(o);
      }
      if Nibs(s) == Nibs(o) {
        NibsInjective(s, o);
      }
      return Some(s == o);
    }

    /** The number of leading nibbles this path shares with `other`; the offset moves as a side effect. */
    method CountPrefixVec(other: Packed) returns (n: nat)
      requires other.Normalised()
      requires offset <= 2 * |data|
      requires other.data != [] ==> (offset % 2 == 1) == other.firstIsHalf
      modifies this
      ensures n == Lcp(old(Rest()), other.View())
      ensures n > 0 ==> offset == old(offset) + n - (if other.lastIsHalf && n == other.Len() then 1 else 0)
      ensures n == 0 ==> offset == old(offset) + if other.data != [] && other.firstIsHalf then 1 else 0
    {
      hide Nibs, Lcp;
      if other.data == [] {
        LcpMeaning(Rest(), other.View());
        return 0;
      }
      LcpVec(data, offset, other);
      var rest := data[(offset + 1) / 2..];
      n := 0;
      if other.firstIsHalf {
        var next := Next();
        if next == Some(other.data[0] % 16) {
          n := 1;
        } else {
          return 0;
        }
      }
      var count, allEqual := MatchBytes(
        rest, other.data[if other.firstIsHalf then 1 else 0..|other.data| - (if other.lastIsHalf then 1 else 0)]);
      n := n + count;
      offset := offset + count;
      // Only now can the trailing half be next to compare.
      if allEqual && other.lastIsHalf {
        if offset / 2 < |data| && data[offset / 2] / 16 == other.data[|other.data| - 1] / 16 {
          n := n + 1;
        }
      }
    }

    /** The number of leading nibbles shared with another path behind the same offset. */
    method CountPrefixSlice(other: Bytes) returns (n: nat)
      requires offset <= 2 * |data| && offset <= 2 * |other|
      ensures n == Lcp(Rest(), Nibs(other)[offset..])
    {
      LcpRest(data, other, offset);
      n := 0;
      if offset % 2 != 0 {
        if data[offset / 2] % 16 == other[offset / 2] % 16 {
          n := 1;
        } else {
          return 0;
        }
      }
      var count, _ := MatchBytes(data[(offset + 1) / 2..], other[(offset + 1) / 2..]);
      n := n + count;
    }
  }

  lemma LcpRest(data: Bytes, other: Bytes, offset: nat)
    requires offset <= 2 * |data| && offset <= 2 * |other|
    ensures var k := (offset + 1) / 2;
            Lcp(Nibs(data)[offset..], Nibs(other)[offset..]) ==
            (if offset % 2 == 0 then Lcp(Nibs(data[k..]), Nibs(other[k..]))
             else if data[offset / 2] % 16 != other[offset / 2] % 16 then 0
             else 1 + Lcp(Nibs(data[k..]), Nibs(other[k..])))
  {
    RestNibs(data, offset);
    RestNibs(other, offset);
    var k := (offset + 1) / 2;
    if offset % 2 == 1 {
      LcpCons(data[offset / 2] % 16, Nibs(data[k..]), Nibs(other[k..]));
    }
  }

  /** The common prefix with a packed vector, from its leading half, its whole bytes and its trailing half. */
  lemma LcpVec(data: Bytes, offset: nat, other: Packed)
    requires other.Normalised() && other.data != [] && offset <= 2 * |data|
    requires (offset % 2 == 1) == other.firstIsHalf
    ensures var f, l := if other.firstIsHalf then 1 else 0, |other.data| - (if other.lastIsHalf then 1 else 0);
            var rest := data[(offset + 1) / 2..];
            var m := Lcp(Nibs(rest), Nibs(other.data[f..l]));
            var last := other.lastIsHalf && m == 2 * (l - f) && l - f < |rest| && rest[l - f] / 16 == other.data[l] / 16;
            Lcp(Nibs(data)[offset..], other.View()) ==
            (if other.firstIsHalf && (offset == 2 * |data| || Nibs(data)[offset] != other.data[0] % 16) then 0
             else f + m + (if last then 1 else 0))
  {
    hide Nibs;
    var f, l := if other.firstIsHalf then 1 else 0, |other.data| - (if other.lastIsHalf then 1 else 0);
    var rest := data[(offset + 1) / 2..];
    var whole := Nibs(other.data[f..l]);
    var last := if other.lastIsHalf then [other.data[l] / 16] else [];
    Decompose(other);
    RestNibs(data, offset);
    LcpTail(rest, whole, other.lastIsHalf, if other.lastIsHalf then other.data[l] / 16 else 0);
    if other.firstIsHalf {
      assert other.View() == [other.data[0] % 16] + (whole + last);
      if offset < 2 * |data| && Nibs(data)[offset] == other.data[0] % 16 {
        LcpCons(other.data[0] % 16, Nibs(rest), whole + last);
      }
    } else {
      assert other.View() == whole + last;
    }
  }

  lemma LcpTail(rest: Bytes, whole: seq<nibble>, lastIsHalf: bool, z: nibble)
    requires |whole| % 2 == 0
    ensures var m := Lcp(Nibs(rest), whole);
            var last := lastIsHalf && m == |whole| && |whole| < 2 * |rest| && rest[|whole| / 2] / 16 == z;
            Lcp(Nibs(rest), whole + (if lastIsHalf then [z] else [])) == m + (if last then 1 else 0)
  {
    if lastIsHalf {
      LcpSnoc(Nibs(rest), whole, z);
      if |whole| < 2 * |rest| {
        NibsAt(rest, |whole| / 2);
      }
    } else {
      assert whole + [] == whole;
    }
  }

  lemma SplitView(data: Bytes, offset: nat, n: nat)
    requires offset + n <= 2 * |data|
    ensures var v := Packed(data[offset / 2..(offset + n + 1) / 2], offset % 2 != 0, (offset + n) % 2 != 0);
            v.WellFormed() && v.View() == Nibs(data)[offset..offset + n]
  {
    var a, b := offset / 2, (offset + n + 1) / 2;
    var v := Packed(data[a..b], offset % 2 != 0, (offset + n) % 2 != 0);
    NibsSlice(data, a, b);
    assert offset == 2 * a + offset % 2 && offset + n == 2 * b - (offset + n) % 2;
    SliceOfSlice(Nibs(data), 2 * a, 2 * b, offset % 2, n + offset % 2);
  }

  /** The rest of a path: one low half when the offset is odd, then whole bytes. */
  lemma RestNibs(data: Bytes, offset: nat)
    requires offset <= 2 * |data|
    ensures offset % 2 == 0 ==> Nibs(data)[offset..] == Nibs(data[offset / 2..])
    ensures offset % 2 == 1 ==>
              Nibs(data)[offset..] == [data[offset / 2] % 16] + Nibs(data[(offset + 1) / 2..])
  {
    var k := (offset + 1) / 2;
    NibsSlice(data, k, |data|);
    assert data[k..] == data[k..|data|];
    if offset % 2 == 0 {
      assert 2 * k == offset && k == offset / 2;
    } else {
      assert 2 * k == offset + 1;
      NibsAt(data, offset / 2);
      assert 2 * (offset / 2) + 1 == offset;
      HeadTail(Nibs(data), offset);
    }
  }

  lemma HeadTail<T>(s: seq<T>, i: nat)
    requires i < |s|
    ensures s[i..] == [s[i]] + s[i + 1..]
  {
  }

  /** Behind the first byte of the path 0x1234, the prefix 0x3000 is out of bounds. */
  method SkipPrefixOverruns() returns (skipped: Option<bool>)
    ensures skipped == None
  {
    var path := new NibbleSlice([0x12, 0x34], 2);
    skipped := path.SkipPrefix(Packed([0x30, 0x00], false, false));
  }
}
