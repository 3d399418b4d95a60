/**
  * The encoders of `crates/rlp/encode.rs` and the struct encoder of `structs.rs` as they run: they append to a buffer, strip
  * the zeros of fixed-width integers, and add up lengths before they write a list. Each is proved to append the encoding
  * of `Rlp` and `RlpTyped`. Also the loops of `decode.rs`.
  */
module RlpBuffer {
  import opened Prelude
  import opened BigEndian
  import opened Rlp
  import opened RlpTyped

  /** The index of the first byte that is not zero; the length when there is none. */
  method Position(bytes: Bytes) returns (start: nat)
    ensures start <= |bytes|
    ensures forall i | 0 <= i < start :: bytes[i] == 0
    ensures start < |bytes| ==> bytes[start] != 0
  {
    start := 0;
    while start < |bytes| && bytes[start] == 0
      invariant start <= |bytes| && forall i | 0 <= i < start :: bytes[i] == 0
    {
      start := start + 1;
    }
  }

  /** Stripping the zeros of a fixed-width integer leaves its shortest form. */
  lemma StrippedIsMinimal(n: nat, width: nat, start: nat)
    requires n < Pow256(width) && start <= width
    requires forall i | 0 <= i < start :: FixedBE(n, width)[i] == 0
    requires start < width ==> FixedBE(n, width)[start] != 0
    ensures FixedBE(n, width)[start..] == MinimalBE(n)
  {
    hide FixedBE, MinimalBE, Pow256;
    FixedIsPaddedMinimal(n, width);
    var m := MinimalBE(n);
    var z := width - |m|;
    var f := FixedBE(n, width);
    assert f == Zeros(z) + m;
    assert forall i | 0 <= i < z :: f[i] == 0;
    assert m != [] ==> f[z] == m[0];
    assert start == z;
    assert (Zeros(z) + m)[z..] == m;
  }

  class Buffer {
    var data: Bytes

    constructor ()
      ensures data == []
    {
      data := [];
    }

    method PutU8(b: byte)
      modifies this
      ensures data == old(data) + [b]
    {
      data := data + [b];
    }

    method PutSlice(s: Bytes)
      modifies this
      ensures data == old(data) + s
    {
      data := data + s;
    }

    /** `[u8]`; the length of a slice is below the `usize` limit. */
    method EncodeSlice(s: Bytes)
      requires |s| < USIZE_LIMIT
      modifies this
      ensures data == old(data) + EncodeBytes(s)
    {
      if |s| == 1 && s[0] < RLP_NULL {
        PutU8(s[0]);
        assert [s[0]] == s;
      } else {
        PutLength(RLP_NULL, |s|);
        ghost var header := Header(RLP_NULL, |s|);
        PutSlice(s);
        assert old(data) + header + s == old(data) + (header + s);
      }
    }

    /** The header of a string or a list: one byte, or the stripped length behind a byte that counts its bytes. */
    method PutLength(short: byte, len: nat)
      requires short == RLP_NULL || short == RLP_EMPTY_LIST
      requires len < USIZE_LIMIT
      modifies this
      ensures data == old(data) + Header(short, len)
    {
      hide FixedBE, MinimalBE;
      if len < 56 {
        PutU8(short + len);
      } else {
        Pow256Eight();
        var bytes := FixedBE(len, 8);
        var start := Position(bytes);
        StrippedIsMinimal(len, 8, start);
        LongHeader(short, len);
        hide Header;
        PutU8(short + 55 + (8 - start));
        PutSlice(bytes[start..]);
        ghost var l := MinimalBE(len);
        assert old(data) + [short + 55 + |l|] + l == old(data) + ([short + 55 + |l|] + l);
      }
    }

    /** The integers `u8` to `u64`. */
    method EncodeInt(n: nat, width: nat)
      requires 1 <= width <= 8 && n < Pow256(width)
      modifies this
      ensures data == old(data) + EncodeUint(n)
    {
      hide FixedBE, MinimalBE, Pow256;
      SmallMinimal(n);
      if n == 0 {
        PutU8(RLP_NULL);
      } else if n <= 0x7F {
        PutU8(n);
      } else {
        var bytes := FixedBE(n, width);
        var start := Position(bytes);
        StrippedIsMinimal(n, width, start);
        ghost var m := MinimalBE(n);
        PutU8(RLP_NULL + (width - start));
        PutSlice(bytes[start..]);
        assert old(data) + [RLP_NULL + |m|] + m == old(data) + ([RLP_NULL + |m|] + m);
      }
    }

    /** `U256`: the zero bytes in front, which the code counts as the leading zero bits over eight, are left out. */
    method EncodeU256(n: nat)
      requires n < Pow256(32)
      modifies this
      ensures data == old(data) + EncodeUint(n)
    {
      hide FixedBE, MinimalBE, Pow256;
      var bytes := FixedBE(n, 32);
      var start := Position(bytes);
      StrippedIsMinimal(n, 32, start);
      EncodeSlice(bytes[start..]);
    }

    /** `encode` of a value of any type; `temp` is the encoder's own buffer or the one a length is measured with. */
    method EncodeValue(t: Ty, v: Val)
      requires HasTy(v, t) && |Encode(t, v)| < USIZE_LIMIT && Sized(t)
      modifies this
      ensures data == old(data) + Encode(t, v)
      decreases t, 1
    {
      hide EncodeBytes, EncodeUint, EncodeList, EncodeBool, MinimalBE, Pow256;
      match t {
        case U8 =>
          ByteIsPow();
          EncodeInt(v.n, 1);
        case Uint(width) =>
          if width <= 8 {
            EncodeInt(v.n, width);
          } else {
            EncodeU256(v.n);
          }
        case Fixed(_) =>
          StringFits(v.bytes);
          EncodeSlice(v.bytes);
        case Blob =>
          StringFits(v.bytes);
          EncodeSlice(v.bytes);
        case Flag => EncodeFlag(v.b);
        case Kind =>
          if v.Absent? {
            PutU8(RLP_NULL);
          } else {
            StringFits(v.bytes);
            EncodeSlice(v.bytes);
          }
        case Vec(e) => EncodeVec(e, v.vals);
        case Tuple(elems) => EncodeTuple(elems, v.vals);
        case Struct(fields, tail) => EncodeStruct(fields, tail, v.vals);
      }
    }

    method EncodeFlag(b: bool)
      modifies this
      ensures data == old(data) + EncodeBool(b)
    {
      if b {
        PutU8(0x01);
      } else {
        PutU8(RLP_NULL);
      }
    }

    /** Adds up the lengths of the items, then writes the header and the items. */
    method EncodeVec(e: Ty, vs: seq<Val>)
      requires Sized(e) && (forall x | x in vs :: HasTy(x, e)) && |EncodeList(EncodeElems(e, vs))| < USIZE_LIMIT
      modifies this
      ensures data == old(data) + EncodeList(EncodeElems(e, vs))
      decreases Vec(e), 0
    {
      hide HasTy, Encode, Header;
      ghost var payload := EncodeElems(e, vs);
      ListFits(payload);
      if vs == [] {
        EmptyList();
        PutU8(RLP_EMPTY_LIST);
        return;
      }
      var total := TotalLength(e, vs);
      PutLength(RLP_EMPTY_LIST, total);
      EncodeItems(e, vs);
      ghost var header := Header(RLP_EMPTY_LIST, total);
      assert old(data) + header + payload == old(data) + (header + payload);
    }

    static method TotalLength(e: Ty, vs: seq<Val>) returns (total: nat)
      requires Sized(e) && (forall x | x in vs :: HasTy(x, e)) && |EncodeElems(e, vs)| < USIZE_LIMIT
      ensures total == |EncodeElems(e, vs)|
      decreases e, 3
    {
      hide HasTy, Encode;
      total := 0;
      for i := 0 to |vs|
        invariant total + |EncodeElems(e, vs[i..])| == |EncodeElems(e, vs)|
      {
        ElemsStep(e, vs, i);
        var n := Length(e, vs[i]);
        total := total + n;
      }
    }

    method EncodeItems(e: Ty, vs: seq<Val>)
      requires Sized(e) && (forall x | x in vs :: HasTy(x, e)) && |EncodeElems(e, vs)| < USIZE_LIMIT
      modifies this
      ensures data == old(data) + EncodeElems(e, vs)
      decreases e, 3
    {
      hide HasTy, Encode;
      for i := 0 to |vs|
        invariant data + EncodeElems(e, vs[i..]) == old(data) + EncodeElems(e, vs)
      {
        ElemsStep(e, vs, i);
        ghost var before, item, rest := data, Encode(e, vs[i]), EncodeElems(e, vs[i + 1..]);
        EncodeValue(e, vs[i]);
        assert before + item + rest == before + (item + rest);
      }
    }

    /** `length`: encodes into a fresh buffer and counts. */
    static method Length(t: Ty, v: Val) returns (n: nat)
      requires HasTy(v, t) && |Encode(t, v)| < USIZE_LIMIT && Sized(t)
      ensures n == |Encode(t, v)|
      decreases t, 2
    {
      var temp := new Buffer();
      temp.EncodeValue(t, v);
      n := |temp.data|;
    }

    /** Adds up the lengths of the elements, then writes the header and the elements. */
    method EncodeTuple(ts: seq<Ty>, vs: seq<Val>)
      requires |vs| == |ts| && HaveTys(vs, ts) && (forall t | t in ts :: Sized(t))
      requires |EncodeList(EncodeFields(ts, vs))| < USIZE_LIMIT
      modifies this
      ensures data == old(data) + EncodeList(EncodeFields(ts, vs))
      decreases Tuple(ts), 0
    {
      hide HasTy, Encode, Header;
      ghost var payload := EncodeFields(ts, vs);
      ListFits(payload);
      var total := TupleLength(ts, vs);
      PutLength(RLP_EMPTY_LIST, total);
      EncodeEach(ts, vs);
      ghost var h := Header(RLP_EMPTY_LIST, total);
      assert old(data) + h + payload == old(data) + (h + payload);
    }

    /** The sum of the lengths, each measured by encoding into a buffer that is thrown away. */
    static method TupleLength(ts: seq<Ty>, vs: seq<Val>) returns (n: nat)
      requires |vs| == |ts| && HaveTys(vs, ts) && (forall t | t in ts :: Sized(t)) && |EncodeFields(ts, vs)| < USIZE_LIMIT
      ensures n == |EncodeFields(ts, vs)|
      decreases ts, 0
    {
      hide HasTy, Encode;
      if ts == [] {
        return 0;
      }
      var first := Length(ts[0], vs[0]);
      var rest := TupleLength(ts[1..], vs[1..]);
      n := first + rest;
    }

    /** `Encoder`: fields collect in a buffer of their own, which `finish` writes behind its length. */
    method EncodeStruct(fields: seq<Ty>, tail: seq<Ty>, vs: seq<Val>)
      requires HasTy(Many(vs), Struct(fields, tail)) && Sized(Struct(fields, tail))
      requires |Encode(Struct(fields, tail), Many(vs))| < USIZE_LIMIT
      modifies this
      ensures data == old(data) + Encode(Struct(fields, tail), Many(vs))
      decreases Struct(fields, tail), 0
    {
      hide EncodeFields, EncodeTail, Header;
      var required, optional := vs[..|fields|], vs[|fields|..];
      ghost var payload := EncodeFields(fields, required) + EncodeTail(tail, optional);
      ListFits(payload);
      var temp := new Buffer();
      temp.EncodeEach(fields, required);
      temp.EncodePresent(tail, optional);
      assert temp.data == payload by {
        assert [] + EncodeFields(fields, required) + EncodeTail(tail, optional) == payload;
      }
      PutLength(RLP_EMPTY_LIST, |temp.data|);
      PutSlice(temp.data);
      ghost var h := Header(RLP_EMPTY_LIST, |payload|);
      assert old(data) + h + payload == old(data) + (h + payload);
    }

    method EncodeEach(ts: seq<Ty>, vs: seq<Val>)
      requires |vs| == |ts| && HaveTys(vs, ts) && (forall t | t in ts :: Sized(t)) && |EncodeFields(ts, vs)| < USIZE_LIMIT
      modifies this
      ensures data == old(data) + EncodeFields(ts, vs)
      decreases ts, 0
    {
      hide Encode, HasTy;
      if ts == [] {
        return;
      }
      ghost var first, rest := Encode(ts[0], vs[0]), EncodeFields(ts[1..], vs[1..]);
      EncodeValue(ts[0], vs[0]);
      EncodeEach(ts[1..], vs[1..]);
      assert old(data) + first + rest == old(data) + (first + rest);
    }

    method EncodePresent(ts: seq<Ty>, vs: seq<Val>)
      requires |vs| == |ts| && HaveOptTys(vs, ts) && (forall t | t in ts :: Sized(t)) && |EncodeTail(ts, vs)| < USIZE_LIMIT
      modifies this
      ensures data == old(data) + EncodeTail(ts, vs)
      decreases ts, 0
    {
      hide Encode, HasTy;
      if ts == [] {
        return;
      }
      ghost var first := if vs[0].Absent? then [] else Encode(ts[0], vs[0]);
      ghost var rest := EncodeTail(ts[1..], vs[1..]);
      if !vs[0].Absent? {
        EncodeValue(ts[0], vs[0]);
      }
      EncodePresent(ts[1..], vs[1..]);
      assert old(data) + first + rest == old(data) + (first + rest);
    }
  }

  /** Integers come in 1, 2, 4, 8 and 32 bytes. */
  predicate Sized(t: Ty)
    decreases t
  {
    match t
    case Uint(width) => 1 <= width <= 8 || width == 32
    case Vec(e) => Sized(e)
    case Tuple(elems) => forall t | t in elems :: Sized(t)
    case Struct(fields, tail) => (forall f | f in fields :: Sized(f)) && (forall f | f in tail :: Sized(f))
    case _ => true
  }

  lemma SmallMinimal(n: nat)
    ensures 0 < n < 256 ==> MinimalBE(n) == [n]
    ensures n >= 256 ==> |MinimalBE(n)| > 1
  {
    if 0 < n {
      assert MinimalBE(n) == MinimalBE(n / 256) + [n % 256];
    }
  }

  lemma ByteIsPow()
    ensures Pow256(1) == 256
  {
  }

  lemma LongHeader(short: byte, len: nat)
    requires short == RLP_NULL || short == RLP_EMPTY_LIST
    requires 56 <= len < USIZE_LIMIT
    ensures 1 <= |MinimalBE(len)| <= 8
    ensures Header(short, len) == [short + 55 + |MinimalBE(len)|] + MinimalBE(len)
  {
    LengthBytes(len);
  }

  lemma StringFits(s: Bytes)
    ensures |s| <= |EncodeBytes(s)|
  {
  }

  lemma ListFits(payload: Bytes)
    ensures |payload| < |EncodeList(payload)|
  {
  }

  lemma EmptyList()
    ensures EncodeList([]) == [RLP_EMPTY_LIST]
  {
  }

  lemma ElemsStep(e: Ty, vs: seq<Val>, i: nat)
    requires i < |vs| && forall x | x in vs :: HasTy(x, e)
    ensures vs[i] in vs && (forall x | x in vs[i..] :: HasTy(x, e)) && (forall x | x in vs[i + 1..] :: HasTy(x, e))
    ensures EncodeElems(e, vs[i..]) == Encode(e, vs[i]) + EncodeElems(e, vs[i + 1..])
    ensures |Encode(e, vs[i])| <= |EncodeElems(e, vs)|
  {
    hide Encode, HasTy;
    assert vs[i..][1..] == vs[i + 1..];
    ElemFits(e, vs, i);
  }

  lemma {:induction false} ElemFits(e: Ty, vs: seq<Val>, i: nat)
    requires i < |vs| && forall x | x in vs :: HasTy(x, e)
    ensures |Encode(e, vs[i])| <= |EncodeElems(e, vs)|
    decreases i
  {
    hide Encode, HasTy;
    if i > 0 {
      ElemFits(e, vs[1..], i - 1);
    }
  }

  // ---------------------------------------------------------------------------------------------
  // Decoding loops
  // ---------------------------------------------------------------------------------------------

  /** The items of a list payload, one after the other. */
  method DecodeVec(e: Ty, payload: Bytes) returns (r: Result<seq<Val>>)
    ensures r == DecodeElems(e, payload)
  {
    hide Decode;
    var vs, rest := [], payload;
    PrependNothing(DecodeElems(e, payload));
    while rest != []
      invariant DecodeElems(e, payload) == Prepended(vs, DecodeElems(e, rest))
      decreases |rest|
    {
      var item := Decode(e, rest);
      match item {
        case Err(error) => return Err(error);
        case Panic => return Panic;
        case Ok((v, left)) =>
          PrependStep(vs, v, DecodeElems(e, left));
          vs, rest := vs + [v], left;
      }
    }
    assert vs + [] == vs;
    r := Ok(vs);
  }

  function Prepended(vs: seq<Val>, r: Result<seq<Val>>): Result<seq<Val>> {
    match r
    case Ok(ws) => Ok(vs + ws)
    case Err(e) => Err(e)
    case Panic => Panic
  }

  lemma PrependNothing(r: Result<seq<Val>>)
    ensures Prepended([], r) == r
  {
    if r.Ok? {
      assert [] + r.value == r.value;
    }
  }

  lemma PrependStep(vs: seq<Val>, v: Val, r: Result<seq<Val>>)
    ensures Prepended(vs, Prepended([v], r)) == Prepended(vs + [v], r)
  {
    if r.Ok? {
      assert vs + ([v] + r.value) == (vs + [v]) + r.value;
    }
  }

  /** Fills an array from the right. */
  method StaticLeftPad(data: Bytes, width: nat) returns (r: Result<Bytes>)
    ensures r == LeftPad(data, width)
  {
    var result := new byte[width](_ => 0);
    if data == [] {
      assert result[..] == Zeros(width);
      return Ok(result[..]);
    }
    if data[0] == 0 {
      return Err(MalformedData);
    }
    var start := if |data| > width then 0 else width - |data|;
    if |data| != width - start {
      return Panic;
    }
    for i := 0 to |data|
      invariant forall j | 0 <= j < start :: result[j] == 0
      invariant forall j | 0 <= j < i :: result[start + j] == data[j]
    {
      result[start + i] := data[i];
    }
    assert result[..] == Zeros(start) + data;
    r := Ok(result[..]);
  }
}
