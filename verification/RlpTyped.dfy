/**
  * The typed codecs of `crates/rlp`: integers, fixed arrays, byte buffers, booleans, `Vec<T>`, tuples and
  * the field-by-field `Encoder`/`Decoder` of `structs.rs`. A struct is described by the types of its fields
  * in the order its `encode` and `decode_unfinished` name them, followed by its optional fields.
  */
module RlpTyped {
  import opened Prelude
  import opened BigEndian
  import opened Rlp

  datatype Ty =
    | U8                                       // u8
    | Uint(width: nat)                         // u16 .. u128, usize, U256
    | Fixed(len: nat)                          // [u8; N], H256, Address, Bloom
    | Blob                                     // Bytes
    | Flag                                     // bool
    | Kind                                     // TxKind: an address, or nothing for a creation
    | Vec(elem: Ty)                            // Vec<T>
    | Tuple(elems: seq<Ty>)                    // (S, T), (S, T, U), ...
    | Struct(fields: seq<Ty>, tail: seq<Ty>)   // encode_field..., encode_optional_field...

  datatype Val =
    | Num(n: nat)
    | Raw(bytes: Bytes)
    | Bool(b: bool)
    | Absent                                   // None, or TxKind::Create
    | Many(vals: seq<Val>)

  /** `v` is a value of type `t`; each optional field of a struct may be absent. */
  predicate HasTy(v: Val, t: Ty)
    decreases t, 1
  {
    match t
    case U8 => v.Num? && v.n < 256
    case Uint(width) => v.Num? && v.n < Pow256(width)
    case Fixed(len) => v.Raw? && |v.bytes| == len
    case Blob => v.Raw?
    case Flag => v.Bool?
    case Kind => v.Absent? || (v.Raw? && |v.bytes| == 20)
    case Vec(e) => v.Many? && forall x | x in v.vals :: HasTy(x, e)
    case Tuple(elems) => v.Many? && |v.vals| == |elems| && HaveTys(v.vals, elems)
    case Struct(fields, tail) =>
      && v.Many?
      && |v.vals| == |fields| + |tail|
      && HaveTys(v.vals[..|fields|], fields)
      && HaveOptTys(v.vals[|fields|..], tail)
  }

  predicate HaveTys(vs: seq<Val>, ts: seq<Ty>)
    requires |vs| == |ts|
    decreases ts, 0
  {
    forall i | 0 <= i < |ts| :: HasTy(vs[i], ts[i])
  }

  predicate HaveOptTys(vs: seq<Val>, ts: seq<Ty>)
    requires |vs| == |ts|
    decreases ts, 0
  {
    forall i | 0 <= i < |ts| :: vs[i].Absent? || HasTy(vs[i], ts[i])
  }

  lemma StructTys(fields: seq<Ty>, v: Val)
    requires HasTy(v, Struct(fields, []))
    ensures |v.vals| == |fields|
    ensures forall i | 0 <= i < |fields| :: HasTy(v.vals[i], fields[i])
  {
    assert v.vals[..|fields|] == v.vals;
  }

  /** A type without optional fields. */
  predicate Plain(t: Ty)
    decreases t, 1
  {
    match t
    case Vec(e) => Plain(e)
    case Tuple(elems) => AllPlain(elems)
    case Struct(fields, tail) => tail == [] && AllPlain(fields)
    case _ => true
  }

  predicate AllPlain(ts: seq<Ty>)
    decreases ts, 0
  {
    forall t | t in ts :: Plain(t)
  }

  // ---------------------------------------------------------------------------------------------
  // Encoding
  // ---------------------------------------------------------------------------------------------

  function Encode(t: Ty, v: Val): (r: Bytes)
    requires HasTy(v, t)
    ensures r != []
    decreases t, 1
  {
    match t
    case U8 => EncodeUint(v.n)
    case Uint(_) => EncodeUint(v.n)
    case Fixed(_) => EncodeBytes(v.bytes)
    case Blob => EncodeBytes(v.bytes)
    case Flag => EncodeBool(v.b)
    case Kind => if v.Absent? then [RLP_NULL] else EncodeBytes(v.bytes)
    case Vec(e) => EncodeList(EncodeElems(e, v.vals))
    case Tuple(elems) => EncodeList(EncodeFields(elems, v.vals))
    case Struct(fields, tail) =>
      EncodeList(EncodeFields(fields, v.vals[..|fields|]) + EncodeTail(tail, v.vals[|fields|..]))
  }

  function EncodeElems(e: Ty, vs: seq<Val>): (r: Bytes)
    requires forall x | x in vs :: HasTy(x, e)
    decreases e, 2, |vs|
  {
    if vs == [] then [] else Encode(e, vs[0]) + EncodeElems(e, vs[1..])
  }

  function EncodeFields(ts: seq<Ty>, vs: seq<Val>): (r: Bytes)
    requires |vs| == |ts| && HaveTys(vs, ts)
    decreases ts, 0
  {
    if ts == [] then [] else Encode(ts[0], vs[0]) + EncodeFields(ts[1..], vs[1..])
  }

  /** Absent optional fields write nothing. */
  function EncodeTail(ts: seq<Ty>, vs: seq<Val>): (r: Bytes)
    requires |vs| == |ts| && HaveOptTys(vs, ts)
    decreases ts, 0
  {
    if ts == [] then []
    else (if vs[0].Absent? then [] else Encode(ts[0], vs[0])) + EncodeTail(ts[1..], vs[1..])
  }

  // ---------------------------------------------------------------------------------------------
  // Decoding
  // ---------------------------------------------------------------------------------------------

  function DecodeU8(data: Bytes): (r: Result<(Val, Bytes)>)
    ensures r.Ok? ==> |r.value.1| < |data|
  {
    if data == [] then Err(InvalidLength)
    else if data[0] <= 0x7F then Ok((Num(data[0]), data[1..]))
    else if data[0] == RLP_NULL then Ok((Num(0), data[1..]))
    else if |data| >= 2 && data[0] == RLP_NULL + 1 then Ok((Num(data[1]), data[2..]))
    else Err(MalformedData)
  }

  function DecodeUint(width: nat, data: Bytes): (r: Result<(Val, Bytes)>)
    ensures r.Ok? ==> |r.value.1| < |data|
  {
    var (payload, rest) :- DecodeBytes(data);
    var padded :- LeftPad(payload, width);
    Ok((Num(FromBE(padded)), rest))
  }

  function DecodeFixed(len: nat, data: Bytes): (r: Result<(Val, Bytes)>)
    ensures r.Ok? ==> |r.value.1| < |data|
  {
    var (payload, rest) :- DecodeBytes(data);
    if |payload| != len then Err(InvalidLength) else Ok((Raw(payload), rest))
  }

  function DecodeFlag(data: Bytes): (r: Result<(Val, Bytes)>)
    ensures r.Ok? ==> |r.value.1| < |data|
  {
    if data == [] then Err(InvalidLength)
    else if data[0] == RLP_NULL then Ok((Bool(false), data[1..]))
    else if data[0] == 0x01 then Ok((Bool(true), data[1..]))
    else Err(MalformedBoolean)
  }

  /** `decode_unfinished` of the type `t`: the value and the unread bytes. */
  function Decode(t: Ty, data: Bytes): (r: Result<(Val, Bytes)>)
    ensures r.Ok? ==> |r.value.1| < |data|
    decreases t, 1
  {
    match t
    case U8 => DecodeU8(data)
    case Uint(width) => DecodeUint(width, data)
    case Fixed(len) => DecodeFixed(len, data)
    case Blob =>
      var (payload, rest) :- DecodeBytes(data);
      Ok((Raw(payload), rest))
    case Flag => DecodeFlag(data)
    case Kind =>
      if data == [] then Err(InvalidLength)
      else if data[0] == RLP_NULL then Ok((Absent, data[1..]))
      else DecodeFixed(20, data)
    case Vec(e) =>
      if data == [] then Err(InvalidLength)
      else if data[0] == RLP_EMPTY_LIST then Ok((Many([]), data[1..]))
      else
        var item :- DecodeRlpItem(data);
        if !item.isList then Err(MalformedData)
        else
          var vs :- DecodeElems(e, item.payload);
          Ok((Many(vs), item.rest))
    case Tuple(elems) =>
      var item :- DecodeRlpItem(data);
      if !item.isList then Err(MalformedData)
      else
        var (vs, left) :- DecodeEach(elems, item.payload);
        if left != [] then Err(MalformedData) else Ok((Many(vs), item.rest))
    case Struct(fields, tail) =>
      var item :- DecodeRlpItem(data);
      if !item.isList then Err(UnexpectedString)
      else
        var (vs, rest) :- DecodeFields(fields, item.payload);
        var (opts, left) :- DecodeTail(tail, rest);
        if left != [] then Err(MalformedData) else Ok((Many(vs + opts), item.rest))
  }

  function DecodeElems(e: Ty, payload: Bytes): (r: Result<seq<Val>>)
    decreases e, 2, |payload|
  {
    if payload == [] then Ok([])
    else
      var (v, rest) :- Decode(e, payload);
      var vs :- DecodeElems(e, rest);
      Ok([v] + vs)
  }

  /** The elements of a tuple, one after the other. */
  function DecodeEach(ts: seq<Ty>, payload: Bytes): (r: Result<(seq<Val>, Bytes)>)
    ensures r.Ok? ==> |r.value.0| == |ts|
    decreases ts, 0
  {
    if ts == [] then Ok(([], payload))
    else
      var (v, rest) :- Decode(ts[0], payload);
      var (vs, left) :- DecodeEach(ts[1..], rest);
      Ok(([v] + vs, left))
  }

  /** A chain of `decode_field`; an error is reported as the custom error naming the field. */
  function DecodeFields(ts: seq<Ty>, payload: Bytes): (r: Result<(seq<Val>, Bytes)>)
    ensures r.Ok? ==> |r.value.0| == |ts|
    decreases ts, 0
  {
    if ts == [] then Ok(([], payload))
    else
      match Decode(ts[0], payload)
      case Err(_) => Err(Custom)
      case Panic => Panic
      case Ok((v, rest)) =>
        var (vs, left) :- DecodeFields(ts[1..], rest);
        Ok(([v] + vs, left))
  }

  /** A chain of `decode_optional_field`; a field that does not decode is absent. */
  function DecodeTail(ts: seq<Ty>, payload: Bytes): (r: Result<(seq<Val>, Bytes)>)
    ensures r.Ok? ==> |r.value.0| == |ts|
    decreases ts, 0
  {
    if ts == [] then Ok(([], payload))
    else
      match Decode(ts[0], payload)
      case Panic => Panic
      case Err(_) =>
        var (vs, left) :- DecodeTail(ts[1..], payload);
        Ok(([Absent] + vs, left))
      case Ok((v, rest)) =>
        var (vs, left) :- DecodeTail(ts[1..], rest);
        Ok(([v] + vs, left))
  }

  // ---------------------------------------------------------------------------------------------
  // Round trip
  // ---------------------------------------------------------------------------------------------

  lemma RoundTripBytes(s: Bytes, suffix: Bytes)
    requires |EncodeBytes(s)| < USIZE_LIMIT
    ensures DecodeBytes(EncodeBytes(s) + suffix) == Ok((s, suffix))
  {
    DecodeEncodedBytes(s, suffix);
  }

  lemma RoundTripUint(width: nat, n: nat, suffix: Bytes)
    requires n < Pow256(width)
    requires |EncodeUint(n)| < USIZE_LIMIT
    ensures DecodeUint(width, EncodeUint(n) + suffix) == Ok((Num(n), suffix))
  {
    RoundTripBytes(MinimalBE(n), suffix);
    MinimalLength(n, width);
    FromMinimal(n);
  }

  lemma RoundTripU8(n: nat, suffix: Bytes)
    requires n < 256
    ensures DecodeU8(EncodeUint(n) + suffix) == Ok((Num(n), suffix))
  {
    var data := EncodeUint(n) + suffix;
    if n == 0 {
      assert data[1..] == suffix;
    } else {
      assert MinimalBE(n) == [n] by { assert MinimalBE(n / 256) == []; }
      if n < 0x80 {
        assert data[1..] == suffix;
      } else {
        assert EncodeUint(n) == [0x81, n];
        assert data[2..] == suffix;
      }
    }
  }

  lemma RoundTripFlag(b: bool, suffix: Bytes)
    ensures DecodeFlag(EncodeBool(b) + suffix) == Ok((Bool(b), suffix))
  {
    assert (EncodeBool(b) + suffix)[1..] == suffix;
  }

  lemma RoundTripKind(v: Val, suffix: Bytes)
    requires HasTy(v, Kind)
    ensures Decode(Kind, Encode(Kind, v) + suffix) == Ok((v, suffix))
  {
    if v.Absent? {
      assert ([RLP_NULL] + suffix)[1..] == suffix;
    } else {
      RoundTripBytes(v.bytes, suffix);
    }
  }

  /** Main law: every value of a type without optional fields survives, in front of every suffix. */
  lemma {:induction false} RoundTripTyped(t: Ty, v: Val, suffix: Bytes)
    requires Plain(t) && HasTy(v, t)
    requires |Encode(t, v)| < USIZE_LIMIT
    ensures Decode(t, Encode(t, v) + suffix) == Ok((v, suffix))
    decreases t, 1
  {
    match t
    case U8 => RoundTripU8(v.n, suffix);
    case Uint(width) => RoundTripUint(width, v.n, suffix);
    case Fixed(_) => RoundTripBytes(v.bytes, suffix);
    case Blob => RoundTripBytes(v.bytes, suffix);
    case Flag => RoundTripFlag(v.b, suffix);
    case Kind => RoundTripKind(v, suffix);
    case Vec(e) =>
      RoundTripElems(e, v.vals);
      RoundTripVec(e, v, suffix);
    case Tuple(elems) =>
      var payload := EncodeFields(elems, v.vals);
      DecodeEncodedList(payload, suffix);
      RoundTripFields(elems, v.vals, []);
      assert payload + [] == payload;
      EachLikeFields(elems, payload);
    case Struct(fields, tail) =>
      RoundTripFields(fields, v.vals[..|fields|], []);
      assert v.vals[|fields|..] == [] && EncodeTail(tail, []) == [] && DecodeTail(tail, []) == Ok(([], []));
      StructSurvives(fields, tail, v, suffix);
  }

  /** A tuple and the fields of a struct decode alike, but for the errors they report. */
  lemma {:induction false} EachLikeFields(ts: seq<Ty>, payload: Bytes)
    ensures DecodeFields(ts, payload) == if DecodeEach(ts, payload).Err? then Err(Custom) else DecodeEach(ts, payload)
  {
    hide Decode;
    if ts != [] && Decode(ts[0], payload).Ok? {
      EachLikeFields(ts[1..], Decode(ts[0], payload).value.1);
    }
  }

  /** What the struct decoder makes of its three stages. */
  lemma StructStep(fields: seq<Ty>, tail: seq<Ty>, data: Bytes, item: RawItem, rest: Bytes, required: seq<Val>)
    requires DecodeRlpItem(data) == Ok(item) && item.isList
    requires DecodeFields(fields, item.payload) == Ok((required, rest))
    ensures Decode(Struct(fields, tail), data) ==
            match DecodeTail(tail, rest)
            case Err(e) => Err(e)
            case Panic => Panic
            case Ok((optional, left)) =>
              if left != [] then Err(MalformedData) else Ok((Many(required + optional), item.rest))
  {
  }

  /** A struct survives exactly when its optional fields do. */
  lemma StructSurvives(fields: seq<Ty>, tail: seq<Ty>, v: Val, suffix: Bytes)
    requires HasTy(v, Struct(fields, tail))
    requires |Encode(Struct(fields, tail), v)| < USIZE_LIMIT
    requires var rest := EncodeTail(tail, v.vals[|fields|..]);
             DecodeFields(fields, EncodeFields(fields, v.vals[..|fields|]) + rest) == Ok((v.vals[..|fields|], rest))
    ensures Decode(Struct(fields, tail), Encode(Struct(fields, tail), v) + suffix) == Ok((v, suffix)) <==>
            DecodeTail(tail, EncodeTail(tail, v.vals[|fields|..])) == Ok((v.vals[|fields|..], []))
  {
    var required, optional := v.vals[..|fields|], v.vals[|fields|..];
    var rest := EncodeTail(tail, optional);
    var payload := EncodeFields(fields, required) + rest;
    assert v.vals == required + optional;
    DecodeEncodedList(payload, suffix);
    StructStep(fields, tail, EncodeList(payload) + suffix, RawItem(true, payload, suffix), rest, required);
    if DecodeTail(tail, rest).Ok? {
      var other := DecodeTail(tail, rest).value.0;
      assert (required + other)[|fields|..] == other;
    }
  }

  lemma RoundTripVec(e: Ty, v: Val, suffix: Bytes)
    requires HasTy(v, Vec(e))
    requires |Encode(Vec(e), v)| < USIZE_LIMIT
    requires DecodeElems(e, EncodeElems(e, v.vals)) == Ok(v.vals)
    ensures Decode(Vec(e), Encode(Vec(e), v) + suffix) == Ok((v, suffix))
  {
    var payload := EncodeElems(e, v.vals);
    var data := EncodeList(payload) + suffix;
    if v.vals == [] {
      assert data[1..] == suffix;
    } else {
      DecodeEncodedList(payload, suffix);
    }
  }

  lemma {:induction false} RoundTripElems(e: Ty, vs: seq<Val>)
    requires Plain(e) && forall x | x in vs :: HasTy(x, e)
    requires |EncodeElems(e, vs)| < USIZE_LIMIT
    ensures DecodeElems(e, EncodeElems(e, vs)) == Ok(vs)
    decreases e, 2, |vs|
  {
    hide Encode, Decode, HasTy, Plain;
    if vs != [] {
      RoundTripTyped(e, vs[0], EncodeElems(e, vs[1..]));
      RoundTripElems(e, vs[1..]);
      assert vs == [vs[0]] + vs[1..];
    }
  }

  lemma {:induction false} RoundTripFields(ts: seq<Ty>, vs: seq<Val>, suffix: Bytes)
    requires |vs| == |ts| && HaveTys(vs, ts) && AllPlain(ts)
    requires |EncodeFields(ts, vs)| < USIZE_LIMIT
    ensures DecodeFields(ts, EncodeFields(ts, vs) + suffix) == Ok((vs, suffix))
    decreases ts, 0
  {
    if ts == [] {
      assert EncodeFields(ts, vs) + suffix == suffix;
    } else {
      var rest := EncodeFields(ts[1..], vs[1..]) + suffix;
      RoundTripFields(ts[1..], vs[1..], suffix);
      RoundTripTyped(ts[0], vs[0], rest);
      FieldsSplit(ts, vs, suffix);
      FieldStep(ts, Encode(ts[0], vs[0]) + rest, vs[0], rest, vs[1..], suffix);
    }
  }

  lemma FieldsSplit(ts: seq<Ty>, vs: seq<Val>, suffix: Bytes)
    requires |vs| == |ts| && HaveTys(vs, ts) && ts != []
    ensures vs == [vs[0]] + vs[1..]
    ensures EncodeFields(ts, vs) + suffix
         == Encode(ts[0], vs[0]) + (EncodeFields(ts[1..], vs[1..]) + suffix)
  {
  }

  lemma FieldStep(ts: seq<Ty>, payload: Bytes, v: Val, rest: Bytes, vs: seq<Val>, left: Bytes)
    requires ts != []
    requires Decode(ts[0], payload) == Ok((v, rest))
    requires DecodeFields(ts[1..], rest) == Ok((vs, left))
    ensures DecodeFields(ts, payload) == Ok(([v] + vs, left))
  {
  }

  lemma NothingDecodes(t: Ty)
    ensures Decode(t, []).Err?
  {
    match t
    case U8 | Uint(_) | Fixed(_) | Blob | Flag | Kind | Vec(_) =>
    case Tuple(_) => assert DecodeRlpItem([]).Err?;
    case Struct(_, _) => assert DecodeRlpItem([]).Err?;
  }

  /** With no payload left every optional field is absent. */
  lemma {:induction false} TailOfNothing(ts: seq<Ty>, vs: seq<Val>)
    requires |vs| == |ts| && forall v | v in vs :: v.Absent?
    ensures DecodeTail(ts, []) == Ok((vs, []))
  {
    if ts != [] {
      NothingDecodes(ts[0]);
      TailOfNothing(ts[1..], vs[1..]);
      assert vs[0] in vs;
      assert vs == [Absent] + vs[1..];
    }
  }

  /** Typed encodings are injective and no encoding is a proper prefix of another of the same type. */
  lemma TypedPrefixFree(t: Ty, v: Val, w: Val, x: Bytes, y: Bytes)
    requires Plain(t) && HasTy(v, t) && HasTy(w, t)
    requires |Encode(t, v)| < USIZE_LIMIT && |Encode(t, w)| < USIZE_LIMIT
    requires Encode(t, v) + x == Encode(t, w) + y
    ensures v == w && x == y
  {
    RoundTripTyped(t, v, x);
    RoundTripTyped(t, w, y);
  }

  // ---------------------------------------------------------------------------------------------
  // The decoder yields values of its type
  // ---------------------------------------------------------------------------------------------

  lemma {:induction false} DecodedHasTy(t: Ty, data: Bytes)
    requires Decode(t, data).Ok?
    ensures HasTy(Decode(t, data).value.0, t)
    decreases t, 1
  {
    match t
    case U8 =>
    case Uint(width) =>
      var payload := DecodeBytes(data).value.0;
      FromBound(LeftPad(payload, width).value);
    case Fixed(_) =>
    case Blob =>
    case Flag =>
    case Kind =>
    case Vec(e) =>
      if data[0] != RLP_EMPTY_LIST {
        DecodedElemsHaveTy(e, DecodeRlpItem(data).value.payload);
      }
    case Tuple(elems) =>
      var item := DecodeRlpItem(data).value;
      EachLikeFields(elems, item.payload);
      DecodedFieldsHaveTys(elems, item.payload);
    case Struct(fields, tail) =>
      var item := DecodeRlpItem(data).value;
      var (required, rest) := DecodeFields(fields, item.payload).value;
      DecodedFieldsHaveTys(fields, item.payload);
      DecodedTailHasTys(tail, rest);
      var optional := DecodeTail(tail, rest).value.0;
      assert (required + optional)[..|fields|] == required && (required + optional)[|fields|..] == optional;
  }

  lemma {:induction false} DecodedElemsHaveTy(e: Ty, payload: Bytes)
    requires DecodeElems(e, payload).Ok?
    ensures forall x | x in DecodeElems(e, payload).value :: HasTy(x, e)
    decreases e, 2, |payload|
  {
    if payload != [] {
      DecodedHasTy(e, payload);
      DecodedElemsHaveTy(e, Decode(e, payload).value.1);
    }
  }

  lemma {:induction false} DecodedFieldsHaveTys(ts: seq<Ty>, payload: Bytes)
    requires DecodeFields(ts, payload).Ok?
    ensures HaveTys(DecodeFields(ts, payload).value.0, ts)
    decreases ts, 0
  {
    if ts != [] {
      DecodedHasTy(ts[0], payload);
      DecodedFieldsHaveTys(ts[1..], Decode(ts[0], payload).value.1);
      var vs := DecodeFields(ts, payload).value.0;
      assert vs[1..] == DecodeFields(ts[1..], Decode(ts[0], payload).value.1).value.0;
    }
  }

  lemma {:induction false} DecodedTailHasTys(ts: seq<Ty>, payload: Bytes)
    requires DecodeTail(ts, payload).Ok?
    ensures HaveOptTys(DecodeTail(ts, payload).value.0, ts)
    decreases ts, 0
  {
    if ts != [] {
      var first := Decode(ts[0], payload);
      var rest := if first.Ok? then first.value.1 else payload;
      if first.Ok? {
        DecodedHasTy(ts[0], payload);
      }
      DecodedTailHasTys(ts[1..], rest);
      var vs := DecodeTail(ts, payload).value.0;
      assert vs[1..] == DecodeTail(ts[1..], rest).value.0;
    }
  }
}
