/** Big-endian integers: the minimal form RLP uses and the fixed width of `to_be_bytes`. */
module BigEndian {
  import opened Prelude

  /** The shortest big-endian form; zero is the empty string. */
  function MinimalBE(n: nat): (r: Bytes)
    ensures n == 0 <==> r == []
    ensures r != [] ==> r[0] != 0
  {
    if n == 0 then [] else MinimalBE(n / 256) + [n % 256]
  }

  function FromBE(s: Bytes): (n: nat)
  {
    if s == [] then 0 else FromBE(s[..|s| - 1]) * 256 + s[|s| - 1]
  }

  /** The `width` low-order bytes of `n`, most significant first. */
  function FixedBE(n: nat, width: nat): (r: Bytes)
    ensures |r| == width
  {
    if width == 0 then [] else FixedBE(n / 256, width - 1) + [n % 256]
  }

  /** 256 to the power `k`. */
  function Pow256(k: nat): (p: nat)
    ensures p >= 1
  {
    if k == 0 then 1 else 256 * Pow256(k - 1)
  }

  lemma {:induction false} FromMinimal(n: nat)
    ensures FromBE(MinimalBE(n)) == n
  {
    if n != 0 {
      FromMinimal(n / 256);
      var r := MinimalBE(n);
      assert r[..|r| - 1] == MinimalBE(n / 256);
    }
  }

  lemma {:induction false} MinimalLength(n: nat, k: nat)
    ensures |MinimalBE(n)| <= k <==> n < Pow256(k)
  {
    if n != 0 && k != 0 {
      MinimalLength(n / 256, k - 1);
    }
  }

  lemma {:induction false} FromZeros(z: nat, s: Bytes)
    ensures FromBE(Zeros(z) + s) == FromBE(s)
  {
    var t := Zeros(z) + s;
    if s != [] {
      FromZeros(z, s[..|s| - 1]);
      assert t[..|t| - 1] == Zeros(z) + s[..|s| - 1];
    } else if z != 0 {
      FromZeros(z - 1, []);
      assert t[..|t| - 1] == Zeros(z - 1) + [];
    }
  }

  /** The fixed-width form is the minimal form behind leading zeros. */
  lemma {:induction false} FixedIsPaddedMinimal(n: nat, width: nat)
    requires n < Pow256(width)
    ensures |MinimalBE(n)| <= width
    ensures FixedBE(n, width) == Zeros(width - |MinimalBE(n)|) + MinimalBE(n)
  {
    MinimalLength(n, width);
    if width == 0 {
    } else if n == 0 {
      FixedIsPaddedMinimal(0, width - 1);
      assert Zeros(width) == Zeros(width - 1) + [0];
    } else {
      FixedIsPaddedMinimal(n / 256, width - 1);
    }
  }

  /** A string without a leading zero is the shortest form of its number. */
  lemma {:induction false} MinimalFrom(s: Bytes)
    requires s != [] ==> s[0] != 0
    ensures MinimalBE(FromBE(s)) == s
  {
    if s != [] {
      var front := s[..|s| - 1];
      MinimalFrom(front);
      assert FromBE(s) / 256 == FromBE(front) && FromBE(s) % 256 == s[|s| - 1];
      assert s == front + [s[|s| - 1]];
    }
  }

  /** The most significant byte comes first. */
  lemma SmallNumbers()
    ensures MinimalBE(1) == [1] && MinimalBE(0x100) == [1, 0] && MinimalBE(0x102) == [1, 2] && FixedBE(0x102, 3) == [0, 1, 2]
  {
    assert MinimalBE(0) == [] && MinimalBE(1) == [1];
    assert FixedBE(0, 0) == [] && FixedBE(0, 1) == [0] && FixedBE(1, 2) == [0, 1];
  }

  lemma {:induction false} FixedFrom(s: Bytes)
    ensures FixedBE(FromBE(s), |s|) == s
  {
    if s != [] {
      FixedFrom(s[..|s| - 1]);
    }
  }

  lemma {:induction false} FromFixed(n: nat, width: nat)
    requires n < Pow256(width)
    ensures FromBE(FixedBE(n, width)) == n
  {
    FixedIsPaddedMinimal(n, width);
    FromZeros(width - |MinimalBE(n)|, MinimalBE(n));
    FromMinimal(n);
  }

  lemma {:induction false} FromBound(s: Bytes)
    ensures FromBE(s) < Pow256(|s|)
  {
    if s != [] {
      FromBound(s[..|s| - 1]);
    }
  }

  lemma {:induction false} PowGrows(k: nat, n: nat)
    requires k <= n
    ensures Pow256(k) <= Pow256(n)
  {
    if k < n {
      PowGrows(k, n - 1);
    }
  }

  lemma Pow256Eight()
    ensures Pow256(8) == USIZE_LIMIT
  {
    assert Pow256(4) == 0x1_0000_0000;
    assert Pow256(6) == 0x1_0000_0000_0000;
  }
}
