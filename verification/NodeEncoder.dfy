/**
  * The second, hand-written RLP writer that node hashes are computed with (`crates/trie/node_hash.rs`), and the
  * hex-prefix form of paths (Yellow Paper, Appendix C).
  */
module NodeEncoder {
  import opened Prelude
  import opened BigEndian
  import opened Rlp
  import opened Nibbles

  // ---------------------------------------------------------------------------------------------
  // Lengths
  // ---------------------------------------------------------------------------------------------

  /** `usize::BITS - leading_zeros`. */
  function BitLen(n: nat): nat {
    if n == 0 then 0 else 1 + BitLen(n / 2)
  }

  function ComputeByteUsage(value: nat): nat {
    var bits := BitLen(value);
    (if bits == 0 then 0 else bits - 1) / 8 + 1
  }

  lemma BitLenNibble(n: nat)
    requires n >= 16
    ensures BitLen(n) == 4 + BitLen(n / 16)
  {
    assert BitLen(n) == 2 + BitLen(n / 4) by { assert n / 2 / 2 == n / 4; }
    assert BitLen(n / 4) == 2 + BitLen(n / 16) by { assert n / 4 / 2 / 2 == n / 16; }
  }

  lemma SmallBitLen(n: nat)
    requires 0 < n < 256
    ensures 1 <= BitLen(n) <= 8
  {
    if n >= 16 {
      BitLenNibble(n);
      TinyBitLen(n / 16);
    } else {
      TinyBitLen(n);
    }
  }

  lemma TinyBitLen(n: nat)
    requires n < 16
    ensures BitLen(n) <= 4
  {
    if n >= 4 {
      assert BitLen(n) == 2 + BitLen(n / 4) by { assert n / 2 / 2 == n / 4; }
    }
    assert BitLen(0) == 0 && BitLen(1) == 1 && BitLen(2) == 2 && BitLen(3) == 2;
  }

  lemma BitLenByte(n: nat)
    requires n >= 256
    ensures BitLen(n) == 8 + BitLen(n / 256)
  {
    BitLenNibble(n);
    BitLenNibble(n / 16);
    assert n / 16 / 16 == n / 256;
  }

  /** The bit count gives exactly the number of bytes of the minimal big-endian form. */
  lemma {:induction false} ByteUsage(n: nat)
    requires n > 0
    ensures ComputeByteUsage(n) == |MinimalBE(n)|
  {
    if n < 256 {
      SmallBitLen(n);
      assert MinimalBE(n / 256) == [];
    } else {
      BitLenByte(n);
      ByteUsage(n / 256);
    }
  }

  function BytesLen(valueLen: nat, firstValue: byte): nat {
    if valueLen == 1 && firstValue < 128 then 1
    else if valueLen < 56 then valueLen + 1
    else valueLen + ComputeByteUsage(valueLen) + 1
  }

  function PathLen(nibbleCount: nat): nat {
    BytesLen(nibbleCount / 2 + 1, 0)
  }

  /** `bytes_len` predicts the size of an encoded byte string from its length and first byte. */
  lemma BytesLenIsExact(s: Bytes)
    ensures BytesLen(|s|, if s == [] then 0 else s[0]) == |EncodeBytes(s)|
  {
    if |s| >= 56 {
      ByteUsage(|s|);
    }
  }

  // ---------------------------------------------------------------------------------------------
  // Hex-prefix paths
  // ---------------------------------------------------------------------------------------------

  /** Two nibbles in one byte. */
  function Join(hi: nibble, lo: nibble): (b: byte)
    ensures b / 16 == hi && b % 16 == lo
  {
    16 * (hi as int) + (lo as int)
  }

  /** The bytes of an even number of nibbles. */
  function Pairs(ns: seq<nibble>): (r: Bytes)
    requires |ns| % 2 == 0
    ensures |r| == |ns| / 2
  {
    if ns == [] then [] else [Join(ns[0], ns[1])] + Pairs(ns[2..])
  }

  /** Flag nibble (2 for a leaf, 1 for an odd length) followed by the path, padded to whole bytes. */
  function HexPrefix(ns: seq<nibble>, leaf: bool): (r: Bytes)
    ensures |r| == |ns| / 2 + 1
  {
    var flag: byte := if leaf then 0x20 else 0x00;
    if |ns| % 2 == 1 then [flag + 0x10 + ns[0] as int] + Pairs(ns[1..]) else [flag] + Pairs(ns)
  }

  /** The flag nibble, a padding nibble for an even path, and the path: the nibbles of Appendix C of the Yellow Paper. */
  function Flagged(ns: seq<nibble>, leaf: bool): seq<nibble> {
    [(if leaf then 2 else 0) + if |ns| % 2 == 1 then 1 else 0] + (if |ns| % 2 == 0 then [0] else []) + ns
  }

  /** The hex-prefix form is the byte string of those nibbles, and is the only one. */
  lemma HexPrefixNibs(ns: seq<nibble>, leaf: bool)
    ensures Nibs(HexPrefix(ns, leaf)) == Flagged(ns, leaf)
    ensures forall s | Nibs(s) == Flagged(ns, leaf) :: s == HexPrefix(ns, leaf)
  {
    hide Nibs, Pairs;
    var h := HexPrefix(ns, leaf);
    if |ns| % 2 == 1 {
      FirstByte(h[0], Pairs(ns[1..]));
      PairsNibs(ns[1..]);
      assert ns == [ns[0]] + ns[1..];
    } else {
      FirstByte(h[0], Pairs(ns));
      PairsNibs(ns);
    }
    assert Nibs(h) == Flagged(ns, leaf);
    forall s | Nibs(s) == Flagged(ns, leaf)
      ensures s == h
    {
      NibsInjective(s, h);
    }
  }

  lemma FirstByte(b: byte, rest: Bytes)
    ensures Nibs([b] + rest) == [b / 16, b % 16] + Nibs(rest)
  {
    NibsConcat([b], rest);
    NibsAt([b], 0);
    assert Nibs([b]) == [b / 16, b % 16];
  }

  lemma {:induction false} PairsNibs(ns: seq<nibble>)
    requires |ns| % 2 == 0
    ensures Nibs(Pairs(ns)) == ns
  {
    if ns != [] {
      PairsNibs(ns[2..]);
      var b := Join(ns[0], ns[1]);
      FirstByte(b, Pairs(ns[2..]));
      assert ns == [ns[0], ns[1]] + ns[2..];
    }
  }

  lemma {:induction false} PairsInjective(a: seq<nibble>, b: seq<nibble>)
    requires |a| % 2 == 0 && |b| % 2 == 0
    requires Pairs(a) == Pairs(b)
    ensures a == b
  {
    assert |Pairs(a)| == |Pairs(b)|;
    if a != [] {
      assert Pairs(a)[0] == Pairs(b)[0];
      assert Pairs(a)[1..] == Pairs(a[2..]) && Pairs(b)[1..] == Pairs(b[2..]);
      PairsInjective(a[2..], b[2..]);
      assert a == [a[0], a[1]] + a[2..] && b == [b[0], b[1]] + b[2..];
    }
  }

  /** A path encoding determines the nibbles and whether it ends in a leaf. */
  lemma HexPrefixInjective(a: seq<nibble>, leafA: bool, b: seq<nibble>, leafB: bool)
    requires HexPrefix(a, leafA) == HexPrefix(b, leafB)
    ensures a == b && leafA == leafB
  {
    var x, y := HexPrefix(a, leafA), HexPrefix(b, leafB);
    assert x[0] == y[0];
    assert |a| % 2 == |b| % 2;
    if |a| % 2 == 1 {
      assert x[1..] == Pairs(a[1..]) && y[1..] == Pairs(b[1..]);
      PairsInjective(a[1..], b[1..]);
      assert a == [a[0]] + a[1..] && b == [b[0]] + b[1..];
    } else {
      assert x[1..] == Pairs(a) && y[1..] == Pairs(b);
      PairsInjective(a, b);
    }
  }

  /** The item a path is written as: always the RLP string of its hex-prefix form. */
  function PathItem(ns: seq<nibble>, leaf: bool): Bytes {
    EncodeBytes(HexPrefix(ns, leaf))
  }

  lemma Assoc<T>(a: seq<T>, b: seq<T>, c: seq<T>)
    ensures a + b + c == a + (b + c)
  {
  }

  lemma PathItemParts(ns: seq<nibble>, leaf: bool)
    ensures PathItem(ns, leaf)
         == (if |ns| > 1 then Header(RLP_NULL, |ns| / 2 + 1) else []) + HexPrefix(ns, leaf)
  {
    if |ns| <= 1 {
      assert [] + HexPrefix(ns, leaf) == HexPrefix(ns, leaf);
    }
  }

  /** `path_len` predicts the size of a written path. */
  lemma PathLenIsExact(ns: seq<nibble>, leaf: bool)
    ensures PathLen(|ns|) == |PathItem(ns, leaf)|
  {
    BytesLenIsExact(HexPrefix(ns, leaf));
  }

  /** An iterator over the nibbles of a packed vector. */
  class NibbleVecIter {
    const inner: Packed
    var pos: nat

    constructor (inner: Packed)
      ensures this.inner == inner && pos == if inner.firstIsHalf then 1 else 0
    {
      this.inner := inner;
      pos := if inner.firstIsHalf then 1 else 0;
    }

    method Next() returns (n: Option<nibble>)
      requires inner.WellFormed()
      requires pos <= 2 * |inner.data|
      modifies this
      ensures pos <= 2 * |inner.data|
      ensures var end := 2 * |inner.data| - (if inner.lastIsHalf then 1 else 0);
              if old(pos) < end then n == Some(Nibs(inner.data)[old(pos)]) && pos == old(pos) + 1
              else n == None && pos == old(pos)
    {
      if pos / 2 >= |inner.data| || (pos / 2 + 1 == |inner.data| && pos % 2 == 1 && inner.lastIsHalf) {
        return None;
      }
      var b := inner.data[pos / 2];
      NibsAt(inner.data, pos / 2);
      n := Some(if pos % 2 != 0 then b % 16 else b / 16);
      pos := pos + 1;
    }
  }

  method CollectVec(v: Packed) returns (ns: seq<nibble>)
    requires v.WellFormed()
    ensures ns == v.View()
  {
    var iter := new NibbleVecIter(v);
    ns := [];
    ghost var first := iter.pos;
    ghost var end := 2 * |v.data| - (if v.lastIsHalf then 1 else 0);
    while true
      invariant first <= iter.pos <= 2 * |v.data| && iter.pos <= end
      invariant ns == Nibs(v.data)[first..iter.pos]
      decreases end - iter.pos
    {
      var n := iter.Next();
      if n.None? {
        break;
      }
      ns := ns + [n.value];
    }
  }

  method CollectSlice(data: Bytes, offset: nat) returns (ns: seq<nibble>)
    requires offset <= 2 * |data|
    ensures ns == Nibs(data)[offset..]
  {
    var iter := new NibbleSlice(data, offset);
    ns := [];
    while true
      invariant iter.data == data && offset <= iter.offset <= 2 * |data|
      invariant ns == Nibs(data)[offset..iter.offset]
      decreases 2 * |data| - iter.offset
    {
      var n := iter.Next();
      if n.None? {
        break;
      }
      ns := ns + [n.value];
    }
  }

  lemma LongHeader(short: byte, len: nat)
    requires (short == RLP_NULL || short == RLP_EMPTY_LIST) && 56 <= len < USIZE_LIMIT
    ensures 1 <= |MinimalBE(len)| <= 8
    ensures Header(short, len) == [short + 55 + |MinimalBE(len)|] + MinimalBE(len)
  {
    LengthBytes(len);
  }

  /** The buffer that a node is encoded into. */
  class NodeEncoder {
    var encoded: Bytes

    constructor ()
      ensures encoded == []
    {
      encoded := [];
    }

    method WriteRaw(value: Bytes)
      modifies this
      ensures encoded == old(encoded) + value
    {
      encoded := encoded + value;
    }

    /** Writes the header the main RLP encoder would write. */
    method WriteLen(shortBase: byte, longBase: byte, value: nat)
      requires shortBase == RLP_NULL || shortBase == RLP_EMPTY_LIST
      requires longBase == shortBase + 55
      requires value < USIZE_LIMIT
      modifies this
      ensures encoded == old(encoded) + Header(shortBase, value)
    {
      hide ComputeByteUsage, MinimalBE, FixedBE;
      if value < 56 {
        WriteRaw([shortBase + value]);
      } else {
        ByteUsage(value);
        LowBytes(value);
        LongHeader(shortBase, value);
        var len := ComputeByteUsage(value);
        WriteRaw([longBase + len]);
        WriteRaw(FixedBE(value, 8)[8 - len..]);
        Assoc(old(encoded), [longBase + len], MinimalBE(value));
      }
    }

    method WriteListHeader(childrenLen: nat)
      requires childrenLen < USIZE_LIMIT
      modifies this
      ensures encoded == old(encoded) + Header(RLP_EMPTY_LIST, childrenLen)
    {
      WriteLen(0xC0, 0xF7, childrenLen);
    }

    /** Byte strings are written as the main encoder writes them. */
    method WriteBytes(value: Bytes)
      requires |value| < USIZE_LIMIT
      modifies this
      ensures encoded == old(encoded) + EncodeBytes(value)
    {
      if |value| == 1 && value[0] < 128 {
        WriteRaw([value[0]]);
      } else {
        WriteLen(0x80, 0xB7, |value|);
        WriteRaw(value);
      }
    }

    /** Writes nibbles two by two. */
    method WritePairs(ns: seq<nibble>)
      requires |ns| % 2 == 0
      modifies this
      ensures encoded == old(encoded) + Pairs(ns)
    {
      var i := 0;
      while i < |ns|
        invariant i % 2 == 0 && i <= |ns|
        invariant encoded + Pairs(ns[i..]) == old(encoded) + Pairs(ns)
      {
        ghost var before := encoded;
        WriteRaw([Join(ns[i], ns[i + 1])]);
        assert ns[i..][2..] == ns[i + 2..];
        assert encoded + Pairs(ns[i + 2..]) == before + Pairs(ns[i..]);
        i := i + 2;
      }
    }

    /** The common part of `write_path_slice` and `write_path_vec`: flag byte, then the remaining nibbles. */
    method WriteNibbles(ns: seq<nibble>, leaf: bool)
      requires |ns| / 2 + 1 < USIZE_LIMIT
      modifies this
      ensures encoded == old(encoded) + PathItem(ns, leaf)
    {
      hide HexPrefix, PathItem, Header;
      if |ns| > 1 {
        WriteLen(0x80, 0xB7, |ns| / 2 + 1);
      }
      ghost var lead := if |ns| > 1 then Header(RLP_NULL, |ns| / 2 + 1) else [];
      assert encoded == old(encoded) + lead;
      WriteFlagged(ns, leaf);
      PathItemParts(ns, leaf);
      Assoc(old(encoded), lead, HexPrefix(ns, leaf));
    }

    method WriteFlagged(ns: seq<nibble>, leaf: bool)
      modifies this
      ensures encoded == old(encoded) + HexPrefix(ns, leaf)
    {
      var flag: byte := if leaf then 0x20 else 0x00;
      var odd := |ns| % 2 != 0;
      var first: byte := if odd then flag + 0x10 + ns[0] as int else flag;
      var rest := if odd then ns[1..] else ns;
      WriteRaw([first]);
      WritePairs(rest);
      Assoc(old(encoded), [first], Pairs(rest));
    }

    method WritePathSlice(data: Bytes, offset: nat, leaf: bool)
      requires offset <= 2 * |data| && |data| < USIZE_LIMIT - 1
      modifies this
      ensures encoded == old(encoded) + PathItem(Nibs(data)[offset..], leaf)
      ensures exists s :: encoded == old(encoded) + EncodeBytes(s) && Nibs(s) == Flagged(Nibs(data)[offset..], leaf)
    {
      var ns := CollectSlice(data, offset);
      HexPrefixNibs(ns, leaf);
      WriteNibbles(ns, leaf);
    }

    method WritePathVec(v: Packed, leaf: bool)
      requires v.WellFormed() && |v.data| < USIZE_LIMIT - 1
      modifies this
      ensures encoded == old(encoded) + PathItem(v.View(), leaf)
      ensures exists s :: encoded == old(encoded) + EncodeBytes(s) && Nibs(s) == Flagged(v.View(), leaf)
    {
      var ns := CollectVec(v);
      HexPrefixNibs(ns, leaf);
      WriteNibbles(ns, leaf);
    }
  }

  /** Dropping the leading zero bytes of `to_be_bytes` leaves the minimal form. */
  lemma LowBytes(value: nat)
    requires 0 < value < USIZE_LIMIT
    ensures |MinimalBE(value)| <= 8 && FixedBE(value, 8)[8 - |MinimalBE(value)|..] == MinimalBE(value)
  {
    Pow256Eight();
    FixedIsPaddedMinimal(value, 8);
  }
}
