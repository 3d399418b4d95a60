/**
  * What `get_closest_nodes` (`crates/net/kademlia.rs`) gives: whether the sixteen nodes are the closest ones depends on the
  * order of the peers in the target's own bucket, and on nothing else.
  */
module Closest {
  import opened Prelude
  import opened BigEndian
  import NE = NodeEncoder
  import opened Kademlia

  // ---------------------------------------------------------------------------------------------
  // Distances
  // ---------------------------------------------------------------------------------------------

  lemma {:induction false} BitLenIsLeast(n: nat, k: nat)
    ensures NE.BitLen(n) <= k <==> n < Pow2(k)
  {
    if n != 0 && k != 0 {
      BitLenIsLeast(n / 2, k - 1);
    }
  }

  lemma {:induction false} XorBitsBound(p: nat, q: nat, n: nat, k: nat)
    requires p < Pow2(n) && q < Pow2(n)
    ensures XorBits(p, q, n) < Pow2(k) <==> p / Pow2(k) == q / Pow2(k)
    decreases n
  {
    if n > 0 {
      if k == 0 {
        XorBitsBound(p / 2, q / 2, n - 1, 0);
      } else {
        XorBitsBound(p / 2, q / 2, n - 1, k - 1);
        hide XorBits;
        HalfDivides(p, Pow2(k - 1));
        HalfDivides(q, Pow2(k - 1));
        HalfOfXor(p, q, n);
        assert XorBits(p, q, n) < 2 * Pow2(k - 1) <==> XorBits(p, q, n) / 2 < Pow2(k - 1);
      }
    }
  }

  lemma HalfOfXor(p: nat, q: nat, n: nat)
    requires n > 0
    ensures XorBits(p, q, n) / 2 == XorBits(p / 2, q / 2, n - 1)
  {
  }

  lemma Quotient(x: nat, m: nat, q: nat, r: nat)
    requires m > 0 && x == q * m + r && r < m
    ensures x / m == q
  {
    OneMore(x / m, q, m);
    OneMore(q, x / m, m);
  }

  lemma {:induction false} OneMore(a: nat, b: nat, m: nat)
    ensures a < b ==> a * m + m <= b * m
    decreases b
  {
    if a < b {
      assert b * m == (b - 1) * m + m;
      OneMore(a, b - 1, m);
    }
  }

  lemma HalfDivides(n: nat, m: nat)
    requires m > 0
    ensures n / (2 * m) == n / 2 / m
  {
    var q, r := n / 2 / m, n / 2 % m;
    assert n / 2 == q * m + r;
    Regroup(q, m, 2);
    Quotient(n, 2 * m, q, 2 * r + n % 2);
  }

  function XorAll(a: Bytes, b: Bytes): (r: Bytes)
    requires |a| == |b|
    ensures |r| == |a| && forall i | 0 <= i < |a| :: r[i] == XorByte(a[i], b[i])
  {
    if a == [] then [] else
      var n := |a| - 1;
      XorAll(a[..n], b[..n]) + [XorByte(a[n], b[n])]
  }

  lemma Regroup(a: nat, b: nat, c: nat)
    ensures a * b * c == a * (c * b)
  {
  }

  lemma Spread(a: nat, b: nat, m: nat)
    ensures (a + b) * m == a * m + b * m
  {
  }

  lemma PowSplit(k: nat)
    requires k >= 8
    ensures Pow2(k) == 256 * Pow2(k - 8)
  {
    PowStep(k - 1);
    PowStep(k - 2);
    PowStep(k - 3);
    PowStep(k - 4);
    PowStep(k - 5);
    PowStep(k - 6);
    PowStep(k - 7);
    PowStep(k - 8);
  }

  lemma PowStep(k: nat)
    ensures Pow2(k + 1) == 2 * Pow2(k)
  {
  }

  lemma HalfOfSum(a: nat, m: nat, p: nat)
    ensures (a * (2 * m) + p) / 2 == a * m + p / 2
    ensures (a * (2 * m) + p) % 2 == p % 2
  {
    var z := a * m;
    assert a * (2 * m) == 2 * z by {
      Regroup(a, m, 2);
    }
  }

  /** The low bits and the high bits are treated apart. */
  lemma {:induction false} XorAppend(a: nat, b: nat, p: nat, q: nat, n: nat, i: nat)
    requires p < Pow2(i) && q < Pow2(i)
    ensures XorBits(a * Pow2(i) + p, b * Pow2(i) + q, n + i) == XorBits(a, b, n) * Pow2(i) + XorBits(p, q, i)
    decreases i
  {
    if i > 0 {
      var m := Pow2(i - 1);
      XorAppend(a, b, p / 2, q / 2, n, i - 1);
      HalfOfSum(a, m, p);
      HalfOfSum(b, m, q);
      Regroup(XorBits(a, b, n), m, 2);
    }
  }

  lemma {:induction false} XorOfBytes(a: Bytes, b: Bytes)
    requires |a| == |b|
    ensures FromBE(XorAll(a, b)) == XorBits(FromBE(a), FromBE(b), 8 * |a|)
    decreases |a|
  {
    hide XorBits, Pow2, FromBE;
    if a == [] {
      NoBytes();
    } else {
      var n := |a| - 1;
      var x := XorAll(a, b);
      assert x[..n] == XorAll(a[..n], b[..n]);
      XorOfBytes(a[..n], b[..n]);
      LastByte(x);
      LastByte(a);
      LastByte(b);
      SmallPowers();
      XorAppend(FromBE(a[..n]), FromBE(b[..n]), a[n], b[n], 8 * n, 8);
      assert 8 * n + 8 == 8 * |a|;
    }
  }

  lemma NoBytes()
    ensures FromBE([]) == 0 && XorAll([], []) == [] && XorBits(0, 0, 0) == 0
  {
  }

  lemma LastByte(s: Bytes)
    requires s != []
    ensures FromBE(s) == FromBE(s[..|s| - 1]) * 256 + s[|s| - 1]
  {
  }

  lemma SmallPowers()
    ensures Pow2(0) == 1 && Pow2(1) == 2 && Pow2(2) == 4 && Pow2(4) == 16 && Pow2(8) == 256
  {
    assert Pow2(3) == 8;
    assert Pow2(6) == 64;
  }

  lemma {:induction false} BytesBound(s: Bytes)
    ensures FromBE(s) < Pow2(8 * |s|)
  {
    if s != [] {
      BytesBound(s[..|s| - 1]);
      PowSplit(8 * |s|);
      LastByte(s);
    }
  }

  /** Two numbers agree in all but their `k` lowest bits if and only if their difference has at most `k` bits. */
  lemma XorBound(a: Bytes, b: Bytes, k: nat)
    requires |a| == |b|
    ensures FromBE(XorAll(a, b)) < Pow2(k) <==> FromBE(a) / Pow2(k) == FromBE(b) / Pow2(k)
  {
    hide FromBE, XorBits, Pow2;
    XorOfBytes(a, b);
    BytesBound(a);
    BytesBound(b);
    XorBitsBound(FromBE(a), FromBE(b), 8 * |a|, k);
  }

  /** The hashes of two ids agree in all but their `k` lowest bits. */
  ghost predicate Alike(keccak: H512 -> H256, a: H512, b: H512, k: nat) {
    FromBE(keccak(a)) / Pow2(k) == FromBE(keccak(b)) / Pow2(k)
  }

  lemma DistanceIsLevel(keccak: H512 -> H256, a: H512, b: H512, k: nat)
    requires k >= 1
    ensures BucketNumber(keccak, a, b) < k <==> Alike(keccak, a, b, k)
  {
    hide XorByte, FromBE, Pow2, NE.BitLen;
    var x := Xor(keccak(a), keccak(b));
    assert x == XorAll(keccak(a), keccak(b));
    XorBound(keccak(a), keccak(b), k);
    BitLenIsLeast(FromBE(x), k);
  }

  /** Of three numbers that agree but for one more bit, two agree in that bit too. */
  lemma TwoAlike(x: nat, y: nat, z: nat, k: nat)
    requires x / Pow2(k + 1) == y / Pow2(k + 1) == z / Pow2(k + 1)
    requires x / Pow2(k) != y / Pow2(k) && z / Pow2(k) != y / Pow2(k)
    ensures x / Pow2(k) == z / Pow2(k)
  {
    var m := Pow2(k);
    assert Pow2(k + 1) == 2 * m;
    hide Pow2;
    DivideByHalf(x, m);
    DivideByHalf(y, m);
    DivideByHalf(z, m);
  }

  lemma DivideByHalf(n: nat, m: nat)
    requires m > 0
    ensures n / (2 * m) == n / m / 2
  {
    var q, r := n / m, n % m;
    assert n == q * m + r;
    Spread(2 * (q / 2), q % 2, m);
    Regroup(q / 2, m, 2);
    TwoTimes(q / 2, m);
    OneMore(q % 2, 2, m);
    Quotient(n, 2 * m, q / 2, q % 2 * m + r);
  }

  lemma TwoTimes(a: nat, m: nat)
    ensures 2 * a * m == a * (2 * m)
  {
  }

  /**
    * The distance to the target is known from the buckets: peers in lower buckets are all as far as the target's bucket
    * says, those in higher buckets as far as their own says, and those in the target's bucket are closer.
    */
  lemma DistanceFromBuckets(keccak: H512 -> H256, local: H512, target: H512, id: H512)
    ensures var b, t := BucketNumber(keccak, id, local), BucketNumber(keccak, target, local);
            var d := BucketNumber(keccak, target, id);
            && (b < t ==> d == t)
            && (b > t ==> d == b)
            && (b == t ==> d <= t && (t > 0 ==> d < t))
  {
    hide BucketNumber, FromBE, Pow2;
    var b, t := BucketNumber(keccak, id, local), BucketNumber(keccak, target, local);
    var k := if b < t then t else b;
    DistanceIsLevel(keccak, id, local, k + 1);
    DistanceIsLevel(keccak, target, local, k + 1);
    DistanceIsLevel(keccak, target, id, k + 1);
    if k > 0 {
      DistanceIsLevel(keccak, id, local, k);
      DistanceIsLevel(keccak, target, local, k);
      DistanceIsLevel(keccak, target, id, k);
      if b == t {
        TwoAlike(FromBE(keccak(id)), FromBE(keccak(local)), FromBE(keccak(target)), k);
      }
    }
  }

  // ---------------------------------------------------------------------------------------------
  // Offering a list of candidates
  // ---------------------------------------------------------------------------------------------

  type Entry = (Node, nat)

  function Offered(xs: seq<Entry>): seq<Entry> {
    if xs == [] then [] else Offer(Offered(xs[..|xs| - 1]), xs[|xs| - 1].0, xs[|xs| - 1].1)
  }

  lemma OfferedNext(xs: seq<Entry>, x: Entry)
    ensures Offered(xs + [x]) == Offer(Offered(xs), x.0, x.1)
  {
    assert (xs + [x])[..|xs|] == xs;
  }

  /** Nothing that was left out is closer than something that was kept. */
  ghost predicate Nearest(xs: seq<Entry>, r: seq<Entry>) {
    forall x, y | x in r && y in xs && y !in r :: x.1 <= y.1
  }

  lemma {:induction false} Filling(xs: seq<Entry>)
    requires |xs| <= 16
    ensures Offered(xs) == xs
  {
    if xs != [] {
      var n := |xs| - 1;
      Filling(xs[..n]);
      assert xs == xs[..n] + [xs[n]];
    }
  }

  /** Once the places are taken, candidates that are not closer change nothing. */
  lemma {:induction false} SkipRest(xs: seq<Entry>, ys: seq<Entry>)
    requires |Offered(xs)| == 16 && forall x, y | x in Offered(xs) && y in ys :: x.1 <= y.1
    ensures Offered(xs + ys) == Offered(xs)
  {
    if ys == [] {
      assert xs + ys == xs;
    } else {
      var n := |ys| - 1;
      SkipRest(xs, ys[..n]);
      assert xs + ys == (xs + ys[..n]) + [ys[n]];
      OfferedNext(xs + ys[..n], ys[n]);
      forall j | 0 <= j < 16
        ensures Offered(xs)[j].1 <= ys[n].1
      {
        assert Offered(xs)[j] in Offered(xs) && ys[n] in ys;
      }
      NoneFarther(Offered(xs), ys[n].1);
    }
  }

  lemma NoneFarther(nodes: seq<Entry>, d: nat)
    requires forall j | 0 <= j < |nodes| :: nodes[j].1 <= d
    ensures FirstFarther(nodes, d).None?
  {
  }

  lemma FartherAt(nodes: seq<Entry>, d: nat, i: nat)
    requires i < |nodes| && d < nodes[i].1
    ensures FirstFarther(nodes, d).Some? && FirstFarther(nodes, d).value <= i
  {
  }

  function Min(a: nat, b: nat): nat {
    if a < b then a else b
  }

  /** The places that are left when all candidates of the lower buckets have been offered. */
  function Free(n: nat): nat {
    16 - Min(n, 16)
  }

  /** Candidates as a table gives them: `a` from the lower buckets, `b` from the target's, `c` from the higher ones. */
  ghost predicate Ranked(a: seq<Entry>, b: seq<Entry>, c: seq<Entry>, t: nat) {
    && |b| <= 16 && DistinctNodes(a + b)
    && (forall x | x in a :: x.1 == t)
    && (forall x | x in b :: x.1 <= t && (a != [] ==> x.1 < t))
    && (forall x | x in c :: x.1 > t)
    && (forall i, j | 0 <= i < j < |c| :: c[i].1 <= c[j].1)
  }

  /** The peers of the target's bucket that find no free place come in order of distance, up to `n`. */
  predicate Rising(b: seq<Entry>, free: nat, n: nat)
    requires n <= |b|
  {
    forall i | free < i < n :: b[i - 1].1 <= b[i].1
  }

  lemma {:induction false} RisingAll(b: seq<Entry>, free: nat, n: nat, i: nat, j: nat)
    requires n <= |b| && Rising(b, free, n) && free <= i <= j < n
    ensures b[i].1 <= b[j].1
  {
    if i < j {
      RisingAll(b, free, n, i, j - 1);
    }
  }

  lemma OfferedLower(a: seq<Entry>, t: nat)
    requires forall x | x in a :: x.1 == t
    ensures Offered(a) == a[..Min(|a|, 16)]
  {
    hide Offered, Offer;
    var c := Min(|a|, 16);
    var first, rest := a[..c], a[c..];
    Filling(first);
    assert a == first + rest;
    if c == 16 {
      assert forall x | x in first || x in rest :: x in a;
      SkipRest(first, rest);
    } else {
      assert a == first;
    }
  }

  /** The places once `n` candidates of the bucket were offered and none was lost; those without a free place come first. */
  function Layout(a: seq<Entry>, b: seq<Entry>, n: nat): (r: seq<Entry>)
    requires Free(|a|) <= n <= |b| <= 16
    ensures |r| == 16
  {
    var k, free := Min(|a|, 16), Free(|a|);
    b[free..n] + a[n - free..k] + b[..free]
  }

  lemma LayoutAt(a: seq<Entry>, b: seq<Entry>, n: nat)
    requires Free(|a|) <= n <= |b| <= 16
    ensures var k, free := Min(|a|, 16), Free(|a|);
            forall q | 0 <= q < 16 ::
              Layout(a, b, n)[q] == if q < n - free then b[free + q] else if q < k then a[q] else b[q - k]
  {
  }

  /** With no candidate beyond the free places, the places are as they were offered. */
  lemma LayoutFull(a: seq<Entry>, b: seq<Entry>)
    requires Free(|a|) <= |b| <= 16
    ensures Layout(a, b, Free(|a|)) == a[..Min(|a|, 16)] + b[..Free(|a|)]
  {
  }

  lemma OfferedMore(a: seq<Entry>, b: seq<Entry>, n: nat)
    requires n < |b|
    ensures Offered(a + b[..n + 1]) == Offer(Offered(a + b[..n]), b[n].0, b[n].1)
  {
    hide Offered, Offer;
    assert a + b[..n + 1] == (a + b[..n]) + [b[n]];
    OfferedNext(a + b[..n], b[n]);
  }

  /** While there are free places everything is kept. */
  lemma OfferedFilling(a: seq<Entry>, b: seq<Entry>, c: seq<Entry>, t: nat)
    requires Ranked(a, b, c, t) && Free(|a|) <= |b|
    ensures Offered(a + b[..Free(|a|)]) == Layout(a, b, Free(|a|))
  {
    var free := Free(|a|);
    LayoutFull(a, b);
    if |a| <= 16 {
      assert a[..|a|] == a;
      Filling(a + b[..free]);
    } else {
      LowerOnly(a, b, c, t);
      assert a + b[..free] == a && a[..16] + b[..free] == a[..16];
    }
  }

  /** Afterwards, as long as the candidates rise, no candidate of the bucket is lost. */
  lemma {:induction false} OfferedRising(a: seq<Entry>, b: seq<Entry>, c: seq<Entry>, t: nat, n: nat)
    requires Ranked(a, b, c, t) && Free(|a|) <= n <= |b| && Rising(b, Free(|a|), n)
    ensures Offered(a + b[..n]) == Layout(a, b, n)
    decreases n
  {
    assert |b| <= 16;
    hide Ranked, Offered, Offer, Layout, Rising, Free;
    if n == Free(|a|) {
      OfferedFilling(a, b, c, t);
    } else {
      var m := n - 1;
      RisingFewer(b, Free(|a|), n);
      OfferedRising(a, b, c, t, m);
      OfferedMore(a, b, m);
      OneRises(a, b, c, t, m);
      assert m + 1 == n;
    }
  }

  lemma RisingFewer(b: seq<Entry>, free: nat, n: nat)
    requires 0 < n <= |b| && Rising(b, free, n)
    ensures Rising(b, free, n - 1)
  {
  }

  lemma LowerOnly(a: seq<Entry>, b: seq<Entry>, c: seq<Entry>, t: nat)
    requires Ranked(a, b, c, t)
    ensures Offered(a) == a[..Min(|a|, 16)]
  {
    OfferedLower(a, t);
  }

  lemma OneRises(a: seq<Entry>, b: seq<Entry>, c: seq<Entry>, t: nat, n: nat)
    requires Ranked(a, b, c, t) && Free(|a|) <= n < |b| && Rising(b, Free(|a|), n + 1)
    ensures Offer(Layout(a, b, n), b[n].0, b[n].1) == Layout(a, b, n + 1)
  {
    LayoutAt(a, b, n);
    LayoutAt(a, b, n + 1);
    hide Layout, FirstFarther, DistinctNodes;
    var free, nodes := Free(|a|), Layout(a, b, n);
    assert nodes[n - free] == a[n - free];
    assert a[n - free] in a && b[n] in b;
    FartherAt(nodes, b[n].1, n - free);
    var i := FirstFarther(nodes, b[n].1).value;
    if i < n - free {
      assert nodes[i] == b[free + i];
      RisingAll(b, free, n + 1, free + i, n);
    }
    assert i == n - free;
    assert nodes[i := b[n]] == Layout(a, b, n + 1);
  }

  /** No closer candidate comes after the target's bucket, so that the places are final once they are taken. */
  lemma HigherChangeNothing(a: seq<Entry>, b: seq<Entry>, c: seq<Entry>, t: nat)
    requires Ranked(a, b, c, t) && |Offered(a + b)| == 16 && forall x | x in Offered(a + b) :: x.1 <= t
    ensures Offered(a + b + c) == Offered(a + b)
  {
    SkipRest(a + b, c);
  }

  lemma HigherAreFarther(a: seq<Entry>, b: seq<Entry>, c: seq<Entry>, t: nat, i: nat, j: nat)
    requires Ranked(a, b, c, t) && i < j < |a + b + c| && |a + b| <= j
    ensures (a + b + c)[i].1 <= (a + b + c)[j].1
  {
    hide DistinctNodes;
    var xs, n := a + b + c, |a + b|;
    assert xs[j] == c[j - n] && c[j - n] in c;
    if i < |a| {
      assert xs[i] == a[i] && a[i] in a;
    } else if i < n {
      assert xs[i] == b[i - |a|] && b[i - |a|] in b;
    } else {
      assert xs[i] == c[i - n];
    }
  }

  lemma AllFit(a: seq<Entry>, b: seq<Entry>, c: seq<Entry>, t: nat)
    requires Ranked(a, b, c, t) && |a + b| <= 16
    ensures Nearest(a + b + c, Offered(a + b + c))
  {
    var xs := a + b + c;
    forall i, j | 0 <= i < j < |xs| && 16 <= j
      ensures xs[i].1 <= xs[j].1
    {
      HigherAreFarther(a, b, c, t, i, j);
    }
    FirstSixteen(xs);
  }

  lemma FirstSixteen(xs: seq<Entry>)
    requires forall i, j | 0 <= i < j < |xs| && 16 <= j :: xs[i].1 <= xs[j].1
    ensures Nearest(xs, Offered(xs))
  {
    hide Offered, Offer;
    var k := Min(|xs|, 16);
    var first, rest := xs[..k], xs[k..];
    Filling(first);
    assert xs == first + rest;
    forall x, y | x in first && y in rest
      ensures x.1 <= y.1
    {
      var i :| 0 <= i < k && first[i] == x;
      var j :| 0 <= j < |rest| && rest[j] == y;
      assert xs[i] == x && xs[16 + j] == y;
    }
    if k == 16 {
      SkipRest(first, rest);
    } else {
      assert xs == first;
    }
  }

  lemma RisingIsNearest(a: seq<Entry>, b: seq<Entry>, c: seq<Entry>, t: nat)
    requires Ranked(a, b, c, t) && Rising(b, Free(|a|), |b|) && |a + b| > 16
    ensures Nearest(a + b + c, Offered(a + b + c))
  {
    OfferedRising(a, b, c, t, |b|);
    assert b[..|b|] == b;
    LayoutHolds(a, b);
    hide Offered, Rising, Layout, DistinctNodes;
    HigherChangeNothing(a, b, c, t);
  }

  lemma LayoutHolds(a: seq<Entry>, b: seq<Entry>)
    requires Free(|a|) <= |b| <= 16
    ensures forall x | x in Layout(a, b, |b|) :: x in a || x in b
    ensures forall x | x in b :: x in Layout(a, b, |b|)
  {
    LayoutAt(a, b, |b|);
    hide Layout;
    var r, free := Layout(a, b, |b|), Free(|a|);
    forall x | x in b
      ensures x in r
    {
      var i :| 0 <= i < |b| && b[i] == x;
      var at := if i < free then i + Min(|a|, 16) else i - free;
      assert r[at] == x;
    }
  }

  /** The state once a candidate `y` of the target's bucket is lost: it never comes back, and a farther one stays. */
  ghost predicate Lost(a: seq<Entry>, r: seq<Entry>, t: nat, y: Entry, n: nat) {
    && |r| == 16 && y !in r
    && (forall i: nat | Free(|a|) + i + 1 >= n && i < Min(|a|, 16) :: r[i].1 == t)
    && forall x | x in r :: x.1 <= t
  }

  lemma {:induction false} StaysLost(
    a: seq<Entry>, b: seq<Entry>, c: seq<Entry>, t: nat, j: nat, y: Entry, n: nat)
    requires Ranked(a, b, c, t) && a != [] && j < n <= |b| && y in b && forall i | j < i < |b| :: b[i] != y
    requires Lost(a, Offered(a + b[..j + 1]), t, y, j + 1) && Free(|a|) < j
    ensures Lost(a, Offered(a + b[..n]), t, y, n)
    decreases n
  {
    if n > j + 1 {
      StaysLost(a, b, c, t, j, y, n - 1);
      assert a + b[..n] == (a + b[..n - 1]) + [b[n - 1]];
      OfferedNext(a + b[..n - 1], b[n - 1]);
      assert b[n - 1] in b;
      LostStep(a, Offered(a + b[..n - 1]), t, y, n - 1, b[n - 1]);
    }
  }

  lemma LostStep(a: seq<Entry>, r: seq<Entry>, t: nat, y: Entry, n: nat, x: Entry)
    requires Lost(a, r, t, y, n) && x != y && x.1 < t && Free(|a|) < n < 16
    ensures Lost(a, Offer(r, x.0, x.1), t, y, n + 1)
  {
    var place := n - Free(|a|) - 1;
    assert r[place].1 == t;
    FartherAt(r, x.1, place);
  }

  /** The first candidate that is closer than the one before it pushes one of its own bucket out. */
  lemma DescentLoses(a: seq<Entry>, b: seq<Entry>, c: seq<Entry>, t: nat, j: nat) returns (y: Entry)
    requires Ranked(a, b, c, t) && Free(|a|) < j < |b| && Rising(b, Free(|a|), j) && b[j].1 < b[j - 1].1
    ensures a != [] && y in b && (forall i | j < i < |b| :: b[i] != y)
    ensures Lost(a, Offered(a + b[..j + 1]), t, y, j + 1)
  {
    assert |b| <= 16;
    hide Ranked, Offered, Offer, Lost, Rising, Layout, Free;
    OfferedRising(a, b, c, t, j);
    OfferedMore(a, b, j);
    var i := DescentPlace(a, b, j);
    y := b[Free(|a|) + i];
    LostNow(a, b, c, t, j, i);
  }

  lemma DescentPlace(a: seq<Entry>, b: seq<Entry>, j: nat) returns (i: nat)
    requires Free(|a|) < j < |b| <= 16 && b[j].1 < b[j - 1].1
    ensures i < j - Free(|a|) && Offer(Layout(a, b, j), b[j].0, b[j].1) == Layout(a, b, j)[i := b[j]]
  {
    hide Offer, FirstFarther, Layout;
    var nodes, last := Layout(a, b, j), j - 1 - Free(|a|);
    assert nodes[last] == b[j - 1] by {
      LayoutAt(a, b, j);
    }
    FartherAt(nodes, b[j].1, last);
    TakesPlace(nodes, b[j]);
    i := FirstFarther(nodes, b[j].1).value;
  }

  lemma TakesPlace(nodes: seq<Entry>, x: Entry)
    requires |nodes| == 16 && FirstFarther(nodes, x.1).Some?
    ensures Offer(nodes, x.0, x.1) == nodes[FirstFarther(nodes, x.1).value := x]
  {
  }

  lemma LostNow(a: seq<Entry>, b: seq<Entry>, c: seq<Entry>, t: nat, j: nat, i: nat)
    requires Ranked(a, b, c, t) && Free(|a|) < j < |b| && i < j - Free(|a|)
    ensures Lost(a, Layout(a, b, j)[i := b[j]], t, b[Free(|a|) + i], j + 1)
    ensures a != [] && forall q | j < q < |b| :: b[q] != b[Free(|a|) + i]
  {
    OthersAreOthers(a, b, j, i);
    LayoutAt(a, b, j);
    hide DistinctNodes, Layout;
    var r, free := Layout(a, b, j)[i := b[j]], Free(|a|);
    forall q | 0 <= q < 16
      ensures r[q].1 <= t && r[q] != b[free + i]
    {
      assert r[q] in a || r[q] in b;
    }
    forall q: nat | free + q + 1 >= j + 1 && q < Min(|a|, 16)
      ensures r[q].1 == t
    {
      assert r[q] == a[q] && a[q] in a;
    }
  }

  lemma OthersAreOthers(a: seq<Entry>, b: seq<Entry>, j: nat, i: nat)
    requires DistinctNodes(a + b) && Free(|a|) < j < |b| <= 16 && i < j - Free(|a|)
    ensures forall q | 0 <= q < 16 && q != i :: Layout(a, b, j)[q] != b[Free(|a|) + i]
    ensures forall q | j <= q < |b| :: b[q] != b[Free(|a|) + i]
  {
    LayoutAt(a, b, j);
    hide Layout;
    var k, free, all := Min(|a|, 16), Free(|a|), a + b;
    assert all[|a| + free + i] == b[free + i];
    forall q | 0 <= q < 16 && q != i
      ensures Layout(a, b, j)[q] != b[free + i]
    {
      var at := if q < j - free then |a| + free + q else if q < k then q else |a| + q - k;
      assert Layout(a, b, j)[q] == all[at];
    }
    forall q | j <= q < |b|
      ensures b[q] != b[free + i]
    {
      assert all[|a| + q] == b[q];
    }
  }

  lemma {:induction false} FirstDescent(b: seq<Entry>, free: nat, n: nat) returns (j: nat)
    requires n <= |b| && !Rising(b, free, n)
    ensures free < j < n && Rising(b, free, j) && b[j].1 < b[j - 1].1
  {
    if Rising(b, free, n - 1) {
      j := n - 1;
    } else {
      j := FirstDescent(b, free, n - 1);
    }
  }

  lemma FallingIsNot(a: seq<Entry>, b: seq<Entry>, c: seq<Entry>, t: nat)
    requires Ranked(a, b, c, t) && !Rising(b, Free(|a|), |b|)
    ensures !Nearest(a + b + c, Offered(a + b + c))
  {
    var j := FirstDescent(b, Free(|a|), |b|);
    var y := DescentLoses(a, b, c, t, j);
    StaysLost(a, b, c, t, j, y, |b|);
    assert b[..|b|] == b;
    HigherChangeNothing(a, b, c, t);
    var r, k := Offered(a + b), Min(|a|, 16);
    assert r[k - 1].1 == t && r[k - 1] in r;
    assert y in a + b + c && y.1 < t;
  }

  lemma RisingIsExact(a: seq<Entry>, b: seq<Entry>, c: seq<Entry>, t: nat)
    requires Ranked(a, b, c, t)
    ensures Nearest(a + b + c, Offered(a + b + c)) <==> Rising(b, Free(|a|), |b|)
  {
    hide Ranked, Nearest, Offered;
    if !Rising(b, Free(|a|), |b|) {
      FallingIsNot(a, b, c, t);
    } else if |a + b| <= 16 {
      AllFit(a, b, c, t);
    } else {
      RisingIsNearest(a, b, c, t);
    }
  }

  // ---------------------------------------------------------------------------------------------
  // The table
  // ---------------------------------------------------------------------------------------------

  function Entries(keccak: H512 -> H256, ps: seq<PeerData>, target: H512): (r: seq<Entry>)
    ensures |r| == |ps| && forall i | 0 <= i < |ps| :: r[i] == (ps[i].node, Distance(keccak, target, ps[i]))
  {
    seq(|ps|, i requires 0 <= i < |ps| => (ps[i].node, Distance(keccak, target, ps[i])))
  }

  lemma {:induction false} ClosestIsOffered(keccak: H512 -> H256, ps: seq<PeerData>, target: H512)
    ensures ClosestOf(keccak, ps, target) == Offered(Entries(keccak, ps, target))
  {
    hide Distance, Offer;
    if ps != [] {
      var n := |ps| - 1;
      ClosestIsOffered(keccak, ps[..n], target);
      assert Entries(keccak, ps, target)[..n] == Entries(keccak, ps[..n], target);
    }
  }

  /** The peers of the buckets from `lo` up to `hi`. */
  function Between(t: Table, lo: nat, hi: nat): seq<PeerData>
    requires hi <= |t|
  {
    if lo >= hi then [] else Between(t, lo, hi - 1) + t[hi - 1].peers
  }

  lemma {:induction false} ScanIsBetween(t: Table, n: nat)
    requires n <= |t|
    ensures Scan(t[..n]) == Between(t, 0, n)
  {
    if n > 0 {
      ScanIsBetween(t, n - 1);
      assert t[..n][..n - 1] == t[..n - 1];
    }
  }

  lemma {:induction false} BetweenSplits(t: Table, lo: nat, mid: nat, hi: nat)
    requires lo <= mid <= hi <= |t|
    ensures Between(t, lo, hi) == Between(t, lo, mid) + Between(t, mid, hi)
  {
    if mid < hi {
      BetweenSplits(t, lo, mid, hi - 1);
    }
  }

  function Bucketed(keccak: H512 -> H256, local: H512, p: PeerData): nat {
    BucketNumber(keccak, Id(p), local)
  }

  predicate BucketsRise(keccak: H512 -> H256, local: H512, ps: seq<PeerData>) {
    forall i, j | 0 <= i < j < |ps| :: Bucketed(keccak, local, ps[i]) <= Bucketed(keccak, local, ps[j])
  }

  lemma {:induction false} BetweenRises(keccak: H512 -> H256, local: H512, t: Table, lo: nat, hi: nat)
    requires TableOk(keccak, local, t) && hi <= |t|
    ensures forall p | p in Between(t, lo, hi) :: lo <= Bucketed(keccak, local, p) < hi
    ensures BucketsRise(keccak, local, Between(t, lo, hi))
  {
    hide BucketNumber, Distinct;
    if lo < hi {
      BetweenRises(keccak, local, t, lo, hi - 1);
      assert BucketOk(keccak, local, t[hi - 1], hi - 1);
      var ps, qs := Between(t, lo, hi - 1), t[hi - 1].peers;
      forall q | q in qs
        ensures Bucketed(keccak, local, q) == hi - 1
      {
        assert q in t[hi - 1].peers + t[hi - 1].replacements;
      }
      forall i, j | 0 <= i < j < |ps + qs|
        ensures Bucketed(keccak, local, (ps + qs)[i]) <= Bucketed(keccak, local, (ps + qs)[j])
      {
        if j < |ps| {
          assert (ps + qs)[i] == ps[i] && (ps + qs)[j] == ps[j];
        } else if i < |ps| {
          assert (ps + qs)[i] == ps[i] && ps[i] in ps;
          assert (ps + qs)[j] == qs[j - |ps|] && qs[j - |ps|] in qs;
        } else {
          assert (ps + qs)[i] == qs[i - |ps|] && qs[i - |ps|] in qs;
          assert (ps + qs)[j] == qs[j - |ps|] && qs[j - |ps|] in qs;
        }
      }
    }
  }

  /** The number of peers in the buckets below the target's. */
  function PeersBelow(keccak: H512 -> H256, local: H512, t: Table, target: H512): nat
    requires |t| == NUMBER_OF_BUCKETS
  {
    |Between(t, 0, Home(keccak, local, target))|
  }

  /** No peer that was left out is closer to the target than one that is given. */
  ghost predicate AreClosest(keccak: H512 -> H256, t: Table, target: H512, r: seq<Node>) {
    forall x, p | x in r && p in Peers(t) && p.node !in r ::
      BucketNumber(keccak, target, x.nodeId) <= BucketNumber(keccak, target, Id(p))
  }

  /** From the place `free` on, the peers of the target's bucket come in order of their distance. */
  predicate InOrder(keccak: H512 -> H256, target: H512, ps: seq<PeerData>, free: nat) {
    forall i | free < i < |ps| :: Distance(keccak, target, ps[i - 1]) <= Distance(keccak, target, ps[i])
  }

  lemma EntriesSplit(keccak: H512 -> H256, a: seq<PeerData>, b: seq<PeerData>, c: seq<PeerData>, target: H512)
    ensures Entries(keccak, a + b + c, target) ==
            Entries(keccak, a, target) + Entries(keccak, b, target) + Entries(keccak, c, target)
  {
    hide Distance;
  }

  lemma TableIsRanked(keccak: H512 -> H256, local: H512, t: Table, target: H512)
    requires TableOk(keccak, local, t)
    ensures var h := Home(keccak, local, target);
            var a, b, c := Between(t, 0, h), t[h].peers, Between(t, h + 1, |t|);
            && Scan(t) == a + b + c
            && Ranked(Entries(keccak, a, target), Entries(keccak, b, target), Entries(keccak, c, target), h)
  {
    hide BucketNumber, Distinct, DistinctNodes, Between, Scan;
    var h := Home(keccak, local, target);
    var a, b, c := Between(t, 0, h), t[h].peers, Between(t, h + 1, |t|);
    ScanInThree(t, h);
    assert BucketOk(keccak, local, t[h], h);
    ScanDistinct(keccak, local, t);
    RankedLower(keccak, local, t, target);
    RankedOwn(keccak, local, t, target);
    RankedHigher(keccak, local, t, target);
    FirstsDistinct(keccak, a, b, c, target);
  }

  lemma FirstsDistinct(keccak: H512 -> H256, a: seq<PeerData>, b: seq<PeerData>, c: seq<PeerData>, target: H512)
    requires Distinct(a + b + c)
    ensures DistinctNodes(Entries(keccak, a, target) + Entries(keccak, b, target))
  {
    hide Distance;
    var ps := a + b + c;
    var xs: seq<Entry> := Entries(keccak, a, target) + Entries(keccak, b, target);
    forall i, j | 0 <= i < j < |xs|
      ensures xs[i].0.nodeId != xs[j].0.nodeId
    {
      assert xs[i].0.nodeId == Id(ps[i]) && xs[j].0.nodeId == Id(ps[j]);
    }
  }

  lemma ScanInThree(t: Table, h: nat)
    requires h < |t|
    ensures Scan(t) == Between(t, 0, h) + t[h].peers + Between(t, h + 1, |t|)
  {
    hide Scan, Between;
    ScanIsBetween(t, |t|);
    assert t[..|t|] == t;
    BetweenSplits(t, 0, h, |t|);
    BetweenSplits(t, h, h + 1, |t|);
    OneBucket(t, h);
    assert Between(t, 0, h) + (t[h].peers + Between(t, h + 1, |t|)) == Between(t, 0, h) + t[h].peers + Between(t, h + 1, |t|);
  }

  lemma OneBucket(t: Table, h: nat)
    requires h < |t|
    ensures Between(t, h, h + 1) == t[h].peers
  {
    assert Between(t, h, h) == [];
  }

  lemma RankedLower(keccak: H512 -> H256, local: H512, t: Table, target: H512)
    requires TableOk(keccak, local, t)
    ensures var h := Home(keccak, local, target);
            && (forall x | x in Entries(keccak, Between(t, 0, h), target) :: x.1 == h)
            && (Between(t, 0, h) != [] ==> h > 0)
  {
    hide BucketNumber, BucketOk;
    var h := Home(keccak, local, target);
    BetweenRises(keccak, local, t, 0, h);
    var ps := Between(t, 0, h);
    forall i | 0 <= i < |ps|
      ensures Entries(keccak, ps, target)[i].1 == h
    {
      assert ps[i] in ps;
      DistanceFromBuckets(keccak, local, target, Id(ps[i]));
    }
  }

  lemma RankedOwn(keccak: H512 -> H256, local: H512, t: Table, target: H512)
    requires TableOk(keccak, local, t)
    ensures var h := Home(keccak, local, target);
            forall x | x in Entries(keccak, t[h].peers, target) :: x.1 <= h && (h > 0 ==> x.1 < h)
  {
    hide BucketNumber, Distinct;
    var h := Home(keccak, local, target);
    assert BucketOk(keccak, local, t[h], h);
    var ps := t[h].peers;
    forall i | 0 <= i < |ps|
      ensures var d := Entries(keccak, ps, target)[i].1; d <= h && (h > 0 ==> d < h)
    {
      assert ps[i] in ps + t[h].replacements;
      DistanceFromBuckets(keccak, local, target, Id(ps[i]));
    }
  }

  lemma RankedHigher(keccak: H512 -> H256, local: H512, t: Table, target: H512)
    requires TableOk(keccak, local, t)
    ensures var h := Home(keccak, local, target);
            var c := Entries(keccak, Between(t, h + 1, |t|), target);
            (forall x | x in c :: x.1 > h) && forall i, j | 0 <= i < j < |c| :: c[i].1 <= c[j].1
  {
    hide BucketNumber, BucketOk;
    var h := Home(keccak, local, target);
    BetweenRises(keccak, local, t, h + 1, |t|);
    var ps := Between(t, h + 1, |t|);
    forall i | 0 <= i < |ps|
      ensures Entries(keccak, ps, target)[i].1 == Bucketed(keccak, local, ps[i]) > h
    {
      assert ps[i] in ps;
      DistanceFromBuckets(keccak, local, target, Id(ps[i]));
    }
  }

  /** Nodes and entries say the same: the distance of an entry is that of its node. */
  lemma NodesForEntries(keccak: H512 -> H256, local: H512, t: Table, target: H512)
    requires TableOk(keccak, local, t)
    ensures var xs := Entries(keccak, Scan(t), target);
            AreClosest(keccak, t, target, ClosestNodes(keccak, t, target)) <==> Nearest(xs, Offered(xs))
  {
    hide BucketNumber, BucketOk, Offered, Peers, Scan;
    var ps, xs := Scan(t), Entries(keccak, Scan(t), target);
    ClosestIsOffered(keccak, ps, target);
    ScanDistinct(keccak, local, t);
    ClosestFacts(keccak, ps, target);
    var c, r := Offered(xs), ClosestNodes(keccak, t, target);
    forall i | 0 <= i < |c|
      ensures c[i].1 == BucketNumber(keccak, target, c[i].0.nodeId) && r[i] == c[i].0
    {
      assert c[i] in c;
      var p :| p in ps && c[i] == (p.node, Distance(keccak, target, p));
    }
    forall p
      ensures p in Peers(t) <==> p in ps
    {
      InScan(t, p);
    }
    forall p | p in ps
      ensures (p.node, Distance(keccak, target, p)) in xs
      ensures p.node in r <==> (p.node, Distance(keccak, target, p)) in c
    {
      var i :| 0 <= i < |ps| && ps[i] == p;
      assert xs[i] == (p.node, Distance(keccak, target, p));
      if p.node in r {
        var j :| 0 <= j < |r| && r[j] == p.node;
        assert c[j] == (p.node, Distance(keccak, target, p));
      }
      if (p.node, Distance(keccak, target, p)) in c {
        var j :| 0 <= j < |c| && c[j] == (p.node, Distance(keccak, target, p));
        assert r[j] == p.node;
      }
    }
    SameMeaning(keccak, t, target, ps, xs, c, r);
  }

  lemma InScan(t: Table, p: PeerData)
    ensures p in Peers(t) <==> p in Scan(t)
  {
    ScanMembers(t, p);
  }

  lemma SameMeaning(
    keccak: H512 -> H256, t: Table, target: H512, ps: seq<PeerData>, xs: seq<Entry>, c: seq<Entry>, r: seq<Node>)
    requires xs == Entries(keccak, ps, target) && (forall p :: p in Peers(t) <==> p in ps)
    requires |c| == |r| && forall i | 0 <= i < |c| :: c[i].1 == BucketNumber(keccak, target, c[i].0.nodeId) && r[i] == c[i].0
    requires forall p | p in ps :: p.node in r <==> (p.node, Distance(keccak, target, p)) in c
    ensures AreClosest(keccak, t, target, r) <==> Nearest(xs, c)
  {
    hide BucketNumber, Peers;
    if AreClosest(keccak, t, target, r) {
      forall x, y | x in c && y in xs && y !in c
        ensures x.1 <= y.1
      {
        var i :| 0 <= i < |c| && c[i] == x;
        var j :| 0 <= j < |xs| && xs[j] == y;
        assert r[i] in r && ps[j] in ps;
      }
    }
    if Nearest(xs, c) {
      forall x, p | x in r && p in Peers(t) && p.node !in r
        ensures BucketNumber(keccak, target, x.nodeId) <= BucketNumber(keccak, target, Id(p))
      {
        var i :| 0 <= i < |r| && r[i] == x;
        var j :| 0 <= j < |ps| && ps[j] == p;
        assert c[i] in c && xs[j] in xs;
      }
    }
  }

  /**
    * Main law: the nodes that are given are the closest of the table if and only if the peers of the target's bucket, from
    * the first that finds all sixteen places taken by lower buckets and its own, come in order of their distance.
    */
  lemma ClosestWhenInOrder(keccak: H512 -> H256, local: H512, t: Table, target: H512)
    requires TableOk(keccak, local, t)
    ensures AreClosest(keccak, t, target, ClosestNodes(keccak, t, target)) <==>
            InOrder(keccak, target, t[Home(keccak, local, target)].peers, Free(PeersBelow(keccak, local, t, target)))
  {
    hide BucketNumber, BucketOk, Offered, Ranked, Nearest, AreClosest, ClosestNodes;
    var h := Home(keccak, local, target);
    var a, b, c := Between(t, 0, h), t[h].peers, Between(t, h + 1, |t|);
    TableIsRanked(keccak, local, t, target);
    EntriesSplit(keccak, a, b, c, target);
    NodesForEntries(keccak, local, t, target);
    RisingIsExact(Entries(keccak, a, target), Entries(keccak, b, target), Entries(keccak, c, target), h);
  }

  // ---------------------------------------------------------------------------------------------
  // A table that fails
  // ---------------------------------------------------------------------------------------------

  function LastByteHash(id: H512): H256 {
    Zeros(31) + [id[0]]
  }

  function Peer(first: byte, second: byte): PeerData {
    NewPeer(Node([], 0, 0, [first, second] + Zeros(62)), 0)
  }

  /** Sixteen peers in bucket 2, and two in bucket 3, the bucket of the target 8, the farther one first. */
  function CrowdedTable(): Table {
    EmptyTable()[2 := Bucket(seq(16, i requires 0 <= i < 16 => Peer(4, i)), [])][3 := Bucket([Peer(10, 0), Peer(9, 0)], [])]
  }

  lemma SmallDistance(a: H512, b: H512, x: byte)
    requires XorByte(a[0], b[0]) == x
    ensures BucketNumber(LastByteHash, a, b) == if NE.BitLen(x) == 0 then 0 else NE.BitLen(x) - 1
  {
    hide NE.BitLen;
    XorOfSame(0, 8);
    var d := Xor(LastByteHash(a), LastByteHash(b));
    hide XorByte;
    assert d == Zeros(31) + [x];
    FromZeros(31, [x]);
    assert FromBE([x]) == x by {
      assert [x][..0] == [] && FromBE([]) == 0;
    }
  }

  lemma Bits()
    ensures XorByte(4, 0) == 4 && XorByte(10, 0) == 10 && XorByte(9, 0) == 9 && XorByte(8, 0) == 8
    ensures XorByte(8, 10) == 2 && XorByte(8, 9) == 1
  {
    SmallPowers();
    XorZero(4, 8);
    XorZero(10, 8);
    XorZero(9, 8);
    XorZero(8, 8);
    assert XorBits(8, 10, 8) == 2 * XorBits(4, 5, 7);
    assert XorBits(8, 9, 8) == 2 * XorBits(4, 4, 7) + 1;
    assert XorBits(4, 5, 7) == 2 * XorBits(2, 2, 6) + 1;
    XorOfSame(4, 7);
    XorOfSame(2, 6);
  }

  lemma {:induction false} XorZero(v: nat, n: nat)
    requires v < Pow2(n)
    ensures XorBits(v, 0, n) == v
  {
    if n > 0 {
      XorZero(v / 2, n - 1);
    }
  }

  lemma {:induction false} XorOfSame(v: nat, n: nat)
    ensures XorBits(v, v, n) == 0
  {
    if n > 0 {
      XorOfSame(v / 2, n - 1);
    }
  }

  lemma BitLens()
    ensures NE.BitLen(4) == 3 && NE.BitLen(10) == 4 && NE.BitLen(9) == 4 && NE.BitLen(8) == 4
    ensures NE.BitLen(2) == 2 && NE.BitLen(1) == 1
  {
  }

  lemma CrowdedTableOk()
    ensures TableOk(LastByteHash, Zeros(64), CrowdedTable())
  {
    var t := CrowdedTable();
    Bits();
    BitLens();
    forall i: byte | i < 16
      ensures BucketNumber(LastByteHash, Id(Peer(4, i)), Zeros(64)) == 2
    {
      SmallDistance(Id(Peer(4, i)), Zeros(64), 4);
    }
    SmallDistance(Id(Peer(10, 0)), Zeros(64), 10);
    SmallDistance(Id(Peer(9, 0)), Zeros(64), 9);
    hide BucketNumber, XorByte, NE.BitLen;
    assert BucketOk(LastByteHash, Zeros(64), t[2], 2) by {
      assert t[2].peers + t[2].replacements == t[2].peers;
      forall i, j | 0 <= i < j < 16
        ensures Id(t[2].peers[i]) != Id(t[2].peers[j])
      {
        assert Id(t[2].peers[i])[1] == i && Id(t[2].peers[j])[1] == j;
      }
    }
    assert BucketOk(LastByteHash, Zeros(64), t[3], 3) by {
      assert t[3].peers + t[3].replacements == [Peer(10, 0), Peer(9, 0)];
      assert Id(Peer(10, 0))[0] != Id(Peer(9, 0))[0];
    }
    forall i | 0 <= i < |t| && i != 2 && i != 3
      ensures BucketOk(LastByteHash, Zeros(64), t[i], i)
    {
      assert t[i] == Bucket([], []);
    }
  }

  /** The peer 10, at distance 1 from the target 8, gives way to the peer 9, while peers at distance 3 are sent. */
  lemma CloserPeerLeftOut()
    ensures TableOk(LastByteHash, Zeros(64), CrowdedTable())
    ensures !AreClosest(
              LastByteHash, CrowdedTable(), [8] + Zeros(63), ClosestNodes(LastByteHash, CrowdedTable(), [8] + Zeros(63)))
  {
    var t, local, target := CrowdedTable(), Zeros(64), [8] + Zeros(63);
    CrowdedTableOk();
    Bits();
    BitLens();
    SmallDistance(target, local, 8);
    SmallDistance(target, Id(Peer(10, 0)), 2);
    SmallDistance(target, Id(Peer(9, 0)), 1);
    hide BucketNumber, XorByte, NE.BitLen, AreClosest, TableOk;
    ClosestWhenInOrder(LastByteHash, local, t, target);
    assert Home(LastByteHash, local, target) == 3;
    CrowdedBelow();
    var ps := t[3].peers;
    assert Distance(LastByteHash, target, ps[0]) == 1 && Distance(LastByteHash, target, ps[1]) == 0;
  }

  lemma CrowdedBelow()
    ensures |CrowdedTable()| == NUMBER_OF_BUCKETS && |Between(CrowdedTable(), 0, 3)| == 16
  {
    var t := CrowdedTable();
    assert Between(t, 0, 0) == [];
    assert Between(t, 0, 1) == [] && Between(t, 0, 2) == [];
  }
}
