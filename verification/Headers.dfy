/**
  * Block headers (`crates/core/types/block.rs`): fifteen fields and five optional ones, written one after the other. The
  * decoder takes an optional field whenever the bytes at hand decode as one.
  */
module Headers {
  import opened Prelude
  import opened BigEndian
  import opened Rlp
  import opened RlpTyped
  import opened RlpItems

  datatype Header = Header(
    parentHash: Bytes, ommersHash: Bytes, coinbase: Bytes, stateRoot: Bytes, transactionsRoot: Bytes, receiptsRoot: Bytes,
    logsBloom: Bytes, difficulty: nat, number: nat, gasLimit: nat, gasUsed: nat, timestamp: nat, extraData: Bytes,
    prevRandao: Bytes, nonce: nat,
    baseFeePerGas: Option<nat>, withdrawalsRoot: Option<Bytes>, blobGasUsed: Option<nat>, excessBlobGas: Option<nat>,
    parentBeaconBlockRoot: Option<Bytes>)

  const H256_TY: Ty := Fixed(32)
  const U64_TY: Ty := Uint(8)
  const FIELDS: seq<Ty> :=
    [H256_TY, H256_TY, Fixed(20), H256_TY, H256_TY, H256_TY, Fixed(256), Uint(32), U64_TY, U64_TY, U64_TY, U64_TY, Blob,
     H256_TY, Fixed(8)]
  const TAIL: seq<Ty> := [U64_TY, H256_TY, U64_TY, U64_TY, H256_TY]

  function OptNum(o: Option<nat>): Val {
    if o.Some? then Num(o.value) else Absent
  }

  function OptRaw(o: Option<Bytes>): Val {
    if o.Some? then Raw(o.value) else Absent
  }

  function FieldVals(h: Header): (r: seq<Val>)
    ensures |r| == |FIELDS|
  {
    [Raw(h.parentHash), Raw(h.ommersHash), Raw(h.coinbase), Raw(h.stateRoot), Raw(h.transactionsRoot),
     Raw(h.receiptsRoot), Raw(h.logsBloom), Num(h.difficulty), Num(h.number), Num(h.gasLimit), Num(h.gasUsed),
     Num(h.timestamp), Raw(h.extraData), Raw(h.prevRandao), Raw(FixedBE(h.nonce, 8))]
  }

  function TailVals(h: Header): (r: seq<Val>)
    ensures |r| == |TAIL|
  {
    [OptNum(h.baseFeePerGas), OptRaw(h.withdrawalsRoot), OptNum(h.blobGasUsed), OptNum(h.excessBlobGas),
     OptRaw(h.parentBeaconBlockRoot)]
  }

  function HeaderVal(h: Header): Val {
    Many(FieldVals(h) + TailVals(h))
  }

  /** What the field types of the source enforce. */
  predicate WellTyped(h: Header) {
    && |h.parentHash| == |h.ommersHash| == |h.stateRoot| == |h.transactionsRoot| == |h.receiptsRoot| == |h.prevRandao| == 32
    && |h.coinbase| == 20 && |h.logsBloom| == 256 && h.difficulty < Pow256(32)
    && IsU64(h.number) && IsU64(h.gasLimit) && IsU64(h.gasUsed) && IsU64(h.timestamp) && IsU64(h.nonce)
    && (h.baseFeePerGas.Some? ==> IsU64(h.baseFeePerGas.value))
    && (h.withdrawalsRoot.Some? ==> |h.withdrawalsRoot.value| == 32)
    && (h.blobGasUsed.Some? ==> IsU64(h.blobGasUsed.value))
    && (h.excessBlobGas.Some? ==> IsU64(h.excessBlobGas.value))
    && (h.parentBeaconBlockRoot.Some? ==> |h.parentBeaconBlockRoot.value| == 32)
  }

  predicate IsU64(n: nat) {
    n < Pow256(8)
  }

  lemma FieldsHaveTys(h: Header)
    requires WellTyped(h)
    ensures HaveTys(FieldVals(h), FIELDS) && HaveOptTys(TailVals(h), TAIL)
  {
    hide Pow256, FixedBE;
  }

  lemma HeaderHasTy(h: Header)
    requires WellTyped(h)
    ensures HasTy(HeaderVal(h), Struct(FIELDS, TAIL))
    ensures HeaderVal(h).vals[..|FIELDS|] == FieldVals(h) && HeaderVal(h).vals[|FIELDS|..] == TailVals(h)
    ensures HaveTys(FieldVals(h), FIELDS) && HaveOptTys(TailVals(h), TAIL)
  {
    hide HaveTys, HaveOptTys, FieldVals, TailVals, WellTyped;
    FieldsHaveTys(h);
    var fs, ts := FieldVals(h), TailVals(h);
    assert (fs + ts)[..|FIELDS|] == fs && (fs + ts)[|FIELDS|..] == ts;
  }

  function EncodeHeader(h: Header): Bytes
    requires WellTyped(h)
  {
    HeaderHasTy(h);
    Encode(Struct(FIELDS, TAIL), HeaderVal(h))
  }

  // ---------------------------------------------------------------------------------------------
  // Decoding, field by field
  // ---------------------------------------------------------------------------------------------

  function NumAt(vs: seq<Val>, i: nat): nat
    requires i < |vs|
  {
    if vs[i].Num? then vs[i].n else 0
  }

  function RawAt(vs: seq<Val>, i: nat): Bytes
    requires i < |vs|
  {
    if vs[i].Raw? then vs[i].bytes else []
  }

  function OptNumAt(vs: seq<Val>, i: nat): Option<nat>
    requires i < |vs|
  {
    if vs[i].Num? then Some(vs[i].n) else None
  }

  function OptRawAt(vs: seq<Val>, i: nat): Option<Bytes>
    requires i < |vs|
  {
    if vs[i].Raw? then Some(vs[i].bytes) else None
  }

  /** The values in the order `decode_unfinished` asks for them. */
  function HeaderOf(vs: seq<Val>): Header
    requires |vs| == 20
  {
    Header(
      RawAt(vs, 0), RawAt(vs, 1), RawAt(vs, 2), RawAt(vs, 3), RawAt(vs, 4), RawAt(vs, 5), RawAt(vs, 6),
      NumAt(vs, 7), NumAt(vs, 8), NumAt(vs, 9), NumAt(vs, 10), NumAt(vs, 11), RawAt(vs, 12), RawAt(vs, 13),
      FromBE(RawAt(vs, 14)),
      OptNumAt(vs, 15), OptRawAt(vs, 16), OptNumAt(vs, 17), OptNumAt(vs, 18), OptRawAt(vs, 19))
  }

  function DecodeHeader(rlp: Bytes): Result<(Header, Bytes)> {
    var (v, rest) :- Decode(Struct(FIELDS, TAIL), rlp);
    DecodedHasTy(Struct(FIELDS, TAIL), rlp);
    Ok((HeaderOf(v.vals), rest))
  }

  lemma HeaderOfItsVals(h: Header)
    requires WellTyped(h)
    ensures HeaderOf(HeaderVal(h).vals) == h
  {
    hide FixedBE, FromBE, Pow256;
    FromFixed(h.nonce, 8);
  }

  lemma ValsOfHeader(v: Val)
    requires HasTy(v, Struct(FIELDS, TAIL))
    ensures HeaderVal(HeaderOf(v.vals)) == v
  {
    hide FixedBE, FromBE, Pow256;
    var fs, ts := v.vals[..15], v.vals[15..];
    assert v.vals == fs + ts;
    var h := HeaderOf(v.vals);
    RequiredVals(v, h);
    OptionalVals(v, h);
  }

  lemma RequiredVals(v: Val, h: Header)
    requires HasTy(v, Struct(FIELDS, TAIL)) && h == HeaderOf(v.vals)
    ensures FieldVals(h) == v.vals[..15]
  {
    hide FixedBE, FromBE, Pow256, HasTy, FieldVals;
    StructFields(v);
    var fs := v.vals[..15];
    assert forall i | 0 <= i < 15 :: fs[i] == v.vals[i];
    HashVals(v.vals, h);
    NumberVals(v.vals, h);
    assert FieldVals(h) == fs;
  }

  lemma StructFields(v: Val)
    requires HasTy(v, Struct(FIELDS, TAIL))
    ensures v.Many? && |v.vals| == 20 && HaveTys(v.vals[..15], FIELDS)
  {
  }

  lemma HashVals(vs: seq<Val>, h: Header)
    requires |vs| == 20 && h == HeaderOf(vs) && forall i | 0 <= i < 15 :: HasTy(vs[i], FIELDS[i])
    ensures forall i | 0 <= i < 15 && (i < 7 || i == 12 || i == 13) :: FieldVals(h)[i] == vs[i]
  {
    hide FixedBE, FromBE, Pow256;
    assert forall i | 0 <= i < 7 :: HasTy(vs[i], FIELDS[i]) && vs[i].Raw?;
    assert HasTy(vs[12], FIELDS[12]) && HasTy(vs[13], FIELDS[13]);
  }

  lemma NumberVals(vs: seq<Val>, h: Header)
    requires |vs| == 20 && h == HeaderOf(vs) && forall i | 0 <= i < 15 :: HasTy(vs[i], FIELDS[i])
    ensures forall i | 0 <= i < 15 && (7 <= i < 12 || i == 14) :: FieldVals(h)[i] == vs[i]
  {
    hide FixedBE, FromBE, Pow256;
    assert forall i | 7 <= i < 12 :: HasTy(vs[i], FIELDS[i]) && vs[i].Num?;
    assert HasTy(vs[14], FIELDS[14]);
    FixedFrom(vs[14].bytes);
  }

  lemma OptionalVals(v: Val, h: Header)
    requires HasTy(v, Struct(FIELDS, TAIL)) && h == HeaderOf(v.vals)
    ensures TailVals(h) == v.vals[15..]
  {
    hide FromBE, Pow256;
    var ts := v.vals[15..];
    assert HaveOptTys(ts, TAIL);
    forall i | 0 <= i < 5
      ensures (ts[i].Absent? || HasTy(ts[i], TAIL[i])) && ts[i] == v.vals[15 + i] && TailVals(h)[i] == ts[i]
    {
    }
  }

  /** The list of values determines the header. */
  lemma ValsTell(g: Header, h: Header)
    requires WellTyped(g) && WellTyped(h) && HeaderVal(g) == HeaderVal(h)
    ensures g == h
  {
    hide HeaderOf, HeaderVal, WellTyped;
    HeaderOfItsVals(g);
    HeaderOfItsVals(h);
  }

  // ---------------------------------------------------------------------------------------------
  // What is written, by name
  // ---------------------------------------------------------------------------------------------

  function OptionalItems(h: Header): seq<Item> {
    (if h.baseFeePerGas.Some? then [Number(h.baseFeePerGas.value)] else []) +
    ((if h.withdrawalsRoot.Some? then [Str(h.withdrawalsRoot.value)] else []) +
     ((if h.blobGasUsed.Some? then [Number(h.blobGasUsed.value)] else []) +
      ((if h.excessBlobGas.Some? then [Number(h.excessBlobGas.value)] else []) +
       (if h.parentBeaconBlockRoot.Some? then [Str(h.parentBeaconBlockRoot.value)] else []))))
  }

  /** The item of a header: the list of its fields and of the optional fields that are there. */
  function HeaderItem(h: Header): Item {
    Lst([Str(h.parentHash), Str(h.ommersHash), Str(h.coinbase), Str(h.stateRoot), Str(h.transactionsRoot),
         Str(h.receiptsRoot), Str(h.logsBloom), Number(h.difficulty), Number(h.number), Number(h.gasLimit),
         Number(h.gasUsed), Number(h.timestamp), Str(h.extraData), Str(h.prevRandao), Str(FixedBE(h.nonce, 8))]
        + OptionalItems(h))
  }

  /** Main law of what is written: a header is encoded as its item, and the encoding decodes to that item. */
  lemma HeaderEncoding(h: Header, suffix: Bytes)
    requires WellTyped(h)
    ensures EncodeHeader(h) == EncodeItem(HeaderItem(h))
    ensures |EncodeHeader(h)| < USIZE_LIMIT ==> DecodeItem(EncodeHeader(h) + suffix) == Ok((HeaderItem(h), suffix))
  {
    hide EncodeItem, DecodeItem, HeaderItem, Encode;
    HeaderHasTy(h);
    EncodingIsItem(Struct(FIELDS, TAIL), HeaderVal(h));
    HeaderItemIs(h);
    if |EncodeHeader(h)| < USIZE_LIMIT {
      RoundTrip(HeaderItem(h), suffix);
    }
  }

  lemma HeaderItemIs(h: Header)
    requires HaveTys(FieldVals(h), FIELDS) && HaveOptTys(TailVals(h), TAIL) && HasTy(HeaderVal(h), Struct(FIELDS, TAIL))
    requires HeaderVal(h).vals[..|FIELDS|] == FieldVals(h) && HeaderVal(h).vals[|FIELDS|..] == TailVals(h)
    ensures ItemOf(Struct(FIELDS, TAIL), HeaderVal(h)) == HeaderItem(h)
  {
    hide HasTy, MinimalBE, FixedBE, TailItems, HaveOptTys;
    FieldItemsAre(h);
    TailItemsAre(h);
  }

  lemma FieldItemsAre(h: Header)
    requires HaveTys(FieldVals(h), FIELDS)
    ensures Lst(FieldItems(FIELDS, FieldVals(h)) + OptionalItems(h)) == HeaderItem(h)
  {
    hide MinimalBE, FixedBE, Pow256, OptionalItems;
  }

  lemma TailItemsAre(h: Header)
    requires HaveOptTys(TailVals(h), TAIL)
    ensures TailItems(TAIL, TailVals(h)) == OptionalItems(h)
  {
    hide ItemOf, HasTy, Number, TailItems;
    var vs := TailVals(h);
    NumberItem(h.baseFeePerGas, TAIL, vs, 0);
    HashItem(h.withdrawalsRoot, TAIL, vs, 1);
    NumberItem(h.blobGasUsed, TAIL, vs, 2);
    NumberItem(h.excessBlobGas, TAIL, vs, 3);
    HashItem(h.parentBeaconBlockRoot, TAIL, vs, 4);
    NoItems(TAIL, vs);
    assert TAIL[0..] == TAIL && vs[0..] == vs;
  }

  lemma NoItems(ts: seq<Ty>, vs: seq<Val>)
    requires |vs| == |ts| && HaveOptTys(vs, ts)
    ensures forall front: seq<Item> :: front + TailItems(ts[|ts|..], vs[|ts|..]) == front
  {
  }

  lemma NumberItem(o: Option<nat>, ts: seq<Ty>, vs: seq<Val>, i: nat)
    requires |vs| == |ts| && HaveOptTys(vs, ts) && i < |ts| && vs[i] == OptNum(o) && ts[i] == U64_TY
    ensures TailItems(ts[i..], vs[i..]) ==
            (if o.Some? then [Number(o.value)] else []) + TailItems(ts[i + 1..], vs[i + 1..])
  {
    TailFront(ts, vs, i);
  }

  lemma HashItem(o: Option<Bytes>, ts: seq<Ty>, vs: seq<Val>, i: nat)
    requires |vs| == |ts| && HaveOptTys(vs, ts) && i < |ts| && vs[i] == OptRaw(o) && ts[i] == H256_TY
    ensures TailItems(ts[i..], vs[i..]) ==
            (if o.Some? then [Str(o.value)] else []) + TailItems(ts[i + 1..], vs[i + 1..])
  {
    TailFront(ts, vs, i);
  }

  lemma TailFront(ts: seq<Ty>, vs: seq<Val>, i: nat)
    requires |vs| == |ts| && HaveOptTys(vs, ts) && i < |ts|
    ensures TailItems(ts[i..], vs[i..]) ==
            (if vs[i].Absent? then [] else [ItemOf(ts[i], vs[i])]) + TailItems(ts[i + 1..], vs[i + 1..])
  {
    hide ItemOf, HasTy;
    assert ts[i..][1..] == ts[i + 1..] && vs[i..][1..] == vs[i + 1..];
  }

  // ---------------------------------------------------------------------------------------------
  // Optional fields
  // ---------------------------------------------------------------------------------------------

  /** The next optional field that is present. */
  function NextPresent(vs: seq<Val>): (r: nat)
    ensures r <= |vs|
    ensures r < |vs| ==> !vs[r].Absent?
    ensures forall i | 0 <= i < r :: vs[i].Absent?
  {
    if vs == [] || !vs[0].Absent? then 0 else 1 + NextPresent(vs[1..])
  }

  /** The bytes of `v`, a present field of type `t`, are refused by the decoder of type `s`. */
  predicate Refused(s: Ty, t: Ty, v: Val) {
    match s
    case Uint(_) => t.Fixed? && v.Raw? && v.bytes != [] && v.bytes[0] == 0
    case _ => t.Uint?
  }

  /** Every absent field that is followed by a present one refuses that one's bytes. */
  predicate GapsOk(ts: seq<Ty>, vs: seq<Val>)
    requires |vs| == |ts|
  {
    ts == [] ||
    (&& GapsOk(ts[1..], vs[1..])
     && (vs[0].Absent? ==>
           var j := NextPresent(vs[1..]);
           j == |vs| - 1 || Refused(ts[0], ts[1 + j], vs[1 + j])))
  }

  predicate TailTypes(ts: seq<Ty>) {
    forall t | t in ts :: t == U64_TY || t == H256_TY
  }

  lemma ShortEncoding(t: Ty, v: Val)
    requires (t == U64_TY || t == H256_TY) && HasTy(v, t)
    ensures |Encode(t, v)| <= 33
  {
    if t == U64_TY {
      MinimalLength(v.n, 8);
    }
  }

  lemma AbsentBytes(ts: seq<Ty>, vs: seq<Val>)
    requires |vs| == |ts| && ts != [] && HaveOptTys(vs, ts) && vs[0].Absent? && HaveOptTys(vs[1..], ts[1..])
    ensures EncodeTail(ts, vs) == EncodeTail(ts[1..], vs[1..])
  {
    hide Encode, HasTy;
  }

  lemma PresentBytes(ts: seq<Ty>, vs: seq<Val>)
    requires |vs| == |ts| && ts != [] && HaveOptTys(vs, ts) && !vs[0].Absent? && HaveOptTys(vs[1..], ts[1..])
    ensures HasTy(vs[0], ts[0]) && EncodeTail(ts, vs) == Encode(ts[0], vs[0]) + EncodeTail(ts[1..], vs[1..])
  {
    hide Encode, HasTy;
  }

  lemma {:induction false} TailBytes(ts: seq<Ty>, vs: seq<Val>)
    requires |vs| == |ts| && HaveOptTys(vs, ts) && TailTypes(ts)
    ensures |EncodeTail(ts, vs)| <= 33 * |ts|
    ensures var j := NextPresent(vs);
            if j == |vs| then EncodeTail(ts, vs) == []
            else EncodeTail(ts, vs) == Encode(ts[j], vs[j]) + EncodeTail(ts[j + 1..], vs[j + 1..])
  {
    hide Encode, HasTy, EncodeTail;
    if ts == [] {
      AbsentTail(ts, vs);
    } else {
      assert ts[0] in ts && forall t | t in ts[1..] :: t in ts;
      TailBytes(ts[1..], vs[1..]);
      if vs[0].Absent? {
        var j := NextPresent(vs[1..]);
        AbsentBytes(ts, vs);
        if j < |vs| - 1 {
          assert ts[1..][j + 1..] == ts[j + 2..] && vs[1..][j + 1..] == vs[j + 2..];
        }
      } else {
        PresentBytes(ts, vs);
        ShortEncoding(ts[0], vs[0]);
      }
    }
  }

  /** What decoding the bytes of a field as another type gives. */
  lemma DecodeOther(s: Ty, t: Ty, v: Val, rest: Bytes)
    requires (s == U64_TY || s == H256_TY) && (t == U64_TY || t == H256_TY) && HasTy(v, t)
    ensures Decode(s, Encode(t, v) + rest).Err? <==> Refused(s, t, v)
    ensures Decode(s, Encode(t, v) + rest).Ok? ==> !Decode(s, Encode(t, v) + rest).value.0.Absent?
  {
    hide EncodeBytes, DecodeBytes, FromBE, MinimalBE, Pow256;
    ShortEncoding(t, v);
    if t == U64_TY {
      MinimalLength(v.n, 8);
      RoundTripBytes(MinimalBE(v.n), rest);
      if s == U64_TY {
        RoundTripUint(8, v.n, rest);
      }
    } else {
      RoundTripBytes(v.bytes, rest);
    }
  }

  /** Main law: the optional fields survive if and only if every gap is refused. */
  lemma {:induction false} TailSurvives(ts: seq<Ty>, vs: seq<Val>)
    requires |vs| == |ts| && HaveOptTys(vs, ts) && TailTypes(ts)
    ensures DecodeTail(ts, EncodeTail(ts, vs)) == Ok((vs, [])) <==> GapsOk(ts, vs)
    decreases |ts|
  {
    hide Encode, Decode, HasTy, Refused;
    if ts != [] {
      assert ts[0] in ts && forall t | t in ts[1..] :: t in ts;
      assert HaveOptTys(vs[1..], ts[1..]);
      TailSurvives(ts[1..], vs[1..]);
      TailBytes(ts[1..], vs[1..]);
      var payload := EncodeTail(ts[1..], vs[1..]);
      if vs[0].Absent? {
        AbsentSurvives(ts, vs, payload);
      } else {
        ShortEncoding(ts[0], vs[0]);
        PlainTail(ts[0]);
        RoundTripTyped(ts[0], vs[0], payload);
        PresentSurvives(ts, vs, payload);
      }
    }
  }

  lemma PlainTail(t: Ty)
    requires t == U64_TY || t == H256_TY
    ensures Plain(t)
  {
  }

  lemma PresentSurvives(ts: seq<Ty>, vs: seq<Val>, payload: Bytes)
    requires |vs| == |ts| && ts != [] && HaveOptTys(vs, ts) && !vs[0].Absent? && HaveOptTys(vs[1..], ts[1..])
    requires HasTy(vs[0], ts[0]) && payload == EncodeTail(ts[1..], vs[1..])
    requires Decode(ts[0], Encode(ts[0], vs[0]) + payload) == Ok((vs[0], payload))
    ensures DecodeTail(ts, EncodeTail(ts, vs)) == Ok((vs, [])) <==> DecodeTail(ts[1..], payload) == Ok((vs[1..], []))
  {
    hide Encode, Decode, HasTy;
    if DecodeTail(ts[1..], payload).Ok? {
      var other := DecodeTail(ts[1..], payload).value.0;
      assert ([vs[0]] + other)[1..] == other;
      assert vs == [vs[0]] + vs[1..];
    }
  }

  lemma AbsentSurvives(ts: seq<Ty>, vs: seq<Val>, payload: Bytes)
    requires |vs| == |ts| && ts != [] && HaveOptTys(vs, ts) && TailTypes(ts) && vs[0].Absent?
    requires HaveOptTys(vs[1..], ts[1..]) && payload == EncodeTail(ts[1..], vs[1..])
    requires var j := NextPresent(vs[1..]);
             if j == |vs| - 1 then payload == []
             else payload == Encode(ts[1 + j], vs[1 + j]) + EncodeTail(ts[1..][j + 1..], vs[1..][j + 1..])
    ensures DecodeTail(ts, EncodeTail(ts, vs)) == Ok((vs, [])) <==>
            && DecodeTail(ts[1..], payload) == Ok((vs[1..], []))
            && (var j := NextPresent(vs[1..]); j == |vs| - 1 || Refused(ts[0], ts[1 + j], vs[1 + j]))
  {
    hide Encode, Decode, Refused, HasTy, EncodeTail, DecodeTail, NextPresent;
    var j := NextPresent(vs[1..]);
    AbsentBytes(ts, vs);
    if j == |vs| - 1 {
      NothingDecodes(ts[0]);
    } else {
      assert ts[0] in ts && ts[1 + j] in ts;
      DecodeOther(ts[0], ts[1 + j], vs[1 + j], EncodeTail(ts[1..][j + 1..], vs[1..][j + 1..]));
    }
    TakenOrNot(ts, vs, payload);
  }

  lemma TakenOrNot(ts: seq<Ty>, vs: seq<Val>, payload: Bytes)
    requires |vs| == |ts| && ts != [] && vs[0].Absent?
    requires Decode(ts[0], payload).Ok? ==> !Decode(ts[0], payload).value.0.Absent?
    ensures DecodeTail(ts, payload) == Ok((vs, [])) <==>
            Decode(ts[0], payload).Err? && DecodeTail(ts[1..], payload) == Ok((vs[1..], []))
  {
    hide Decode;
    if DecodeTail(ts[1..], payload).Ok? {
      var other := DecodeTail(ts[1..], payload).value.0;
      assert ([Absent] + other)[1..] == other;
      assert vs == [vs[0]] + vs[1..];
    }
    if Decode(ts[0], payload).Ok? && DecodeTail(ts, payload).Ok? {
      assert DecodeTail(ts, payload).value.0[0] == Decode(ts[0], payload).value.0;
    }
  }

  /** Main law: a header survives, in front of every suffix, if and only if its gaps are refused. */
  lemma HeaderSurvives(h: Header, suffix: Bytes)
    requires WellTyped(h) && |EncodeHeader(h)| < USIZE_LIMIT
    ensures DecodeHeader(EncodeHeader(h) + suffix) == Ok((h, suffix)) <==> NoGaps(h)
  {
    hide Decode, HaveTys, HaveOptTys, FieldVals, TailVals, GapsOk, NoGaps, HeaderOf, HeaderVal;
    ValsSurvive(h, suffix);
    GapsByName(h);
    HeaderOfItsVals(h);
    var r := Decode(Struct(FIELDS, TAIL), EncodeHeader(h) + suffix);
    if r.Ok? {
      DecodedHasTy(Struct(FIELDS, TAIL), EncodeHeader(h) + suffix);
      ValsOfHeader(r.value.0);
    }
  }

  predicate StartsLow(s: Bytes) {
    s != [] && s[0] == 0
  }

  /**
    * No field is taken for an absent one before it: a missing number does not stand before a number or before a hash that
    * starts with a nonzero byte, a missing hash does not stand before a hash, with nothing present between.
    */
  predicate NoGaps(h: Header) {
    var rootFits := h.parentBeaconBlockRoot.Some? ==> StartsLow(h.parentBeaconBlockRoot.value);
    && (h.baseFeePerGas.None? && h.withdrawalsRoot.Some? ==> StartsLow(h.withdrawalsRoot.value))
    && (h.baseFeePerGas.None? && h.withdrawalsRoot.None? ==> h.blobGasUsed.None? && h.excessBlobGas.None? && rootFits)
    && (h.withdrawalsRoot.None? && h.parentBeaconBlockRoot.Some? ==> h.blobGasUsed.Some? || h.excessBlobGas.Some?)
    && (h.blobGasUsed.None? ==> h.excessBlobGas.None?)
    && (h.excessBlobGas.None? ==> rootFits)
  }

  lemma GapsByName(h: Header)
    ensures NoGaps(h) <==> GapsOk(TAIL, TailVals(h))
  {
    hide GapsOk, NextPresent, GapClosed, TailVals;
    var vs := TailVals(h);
    GapEnd(TAIL, vs);
    GapFront(TAIL, vs, 4);
    GapFront(TAIL, vs, 3);
    GapFront(TAIL, vs, 2);
    GapFront(TAIL, vs, 1);
    GapFront(TAIL, vs, 0);
    assert TAIL[0..] == TAIL && vs[0..] == vs;
    FirstGaps(h);
    LastGaps(h);
  }

  /** An absent field `i` refuses the next one that is there. */
  predicate GapClosed(ts: seq<Ty>, vs: seq<Val>, i: nat)
    requires |vs| == |ts| && i < |ts|
  {
    vs[i].Absent? ==>
      var j := NextPresent(vs[i + 1..]);
      j == |vs| - 1 - i || Refused(ts[i], ts[i + 1 + j], vs[i + 1 + j])
  }

  lemma FirstGaps(h: Header)
    ensures GapClosed(TAIL, TailVals(h), 0) <==>
            (h.baseFeePerGas.None? ==>
               if h.withdrawalsRoot.Some? then StartsLow(h.withdrawalsRoot.value)
               else
                 && h.blobGasUsed.None? && h.excessBlobGas.None?
                 && (h.parentBeaconBlockRoot.Some? ==> StartsLow(h.parentBeaconBlockRoot.value)))
    ensures GapClosed(TAIL, TailVals(h), 1) <==>
            (h.withdrawalsRoot.None? ==> h.blobGasUsed.Some? || h.excessBlobGas.Some? || h.parentBeaconBlockRoot.None?)
  {
    hide GapsOk, NextPresent;
    Nexts(h);
  }

  lemma LastGaps(h: Header)
    ensures GapClosed(TAIL, TailVals(h), 2) <==>
            (h.blobGasUsed.None? ==>
               && h.excessBlobGas.None?
               && (h.parentBeaconBlockRoot.Some? ==> StartsLow(h.parentBeaconBlockRoot.value)))
    ensures GapClosed(TAIL, TailVals(h), 3) <==>
            (h.excessBlobGas.None? ==> (h.parentBeaconBlockRoot.Some? ==> StartsLow(h.parentBeaconBlockRoot.value)))
    ensures GapClosed(TAIL, TailVals(h), 4)
  {
    hide GapsOk, NextPresent;
    Nexts(h);
  }

  lemma Nexts(h: Header)
    ensures var vs := TailVals(h);
            && NextPresent(vs[5..]) == 0
            && (NextPresent(vs[4..]) == if h.parentBeaconBlockRoot.Some? then 0 else 1)
            && (NextPresent(vs[3..]) == if h.excessBlobGas.Some? then 0 else 1 + NextPresent(vs[4..]))
            && (NextPresent(vs[2..]) == if h.blobGasUsed.Some? then 0 else 1 + NextPresent(vs[3..]))
            && (NextPresent(vs[1..]) == if h.withdrawalsRoot.Some? then 0 else 1 + NextPresent(vs[2..]))
  {
    hide NextPresent, GapsOk, GapClosed;
    var vs := TailVals(h);
    GapEnd(TAIL, vs);
    GapFront(TAIL, vs, 4);
    GapFront(TAIL, vs, 3);
    GapFront(TAIL, vs, 2);
    GapFront(TAIL, vs, 1);
  }

  lemma GapEnd(ts: seq<Ty>, vs: seq<Val>)
    requires |vs| == |ts|
    ensures GapsOk(ts[|ts|..], vs[|ts|..]) && NextPresent(vs[|ts|..]) == 0
  {
  }

  lemma GapFront(ts: seq<Ty>, vs: seq<Val>, i: nat)
    requires |vs| == |ts| && i < |ts|
    ensures GapsOk(ts[i..], vs[i..]) <==>
            GapsOk(ts[i + 1..], vs[i + 1..]) && GapClosed(ts, vs, i)
    ensures NextPresent(vs[i..]) == if vs[i].Absent? then 1 + NextPresent(vs[i + 1..]) else 0
  {
    hide Refused;
    assert ts[i..][1..] == ts[i + 1..] && vs[i..][1..] == vs[i + 1..];
  }

  lemma ValsSurvive(h: Header, suffix: Bytes)
    requires WellTyped(h) && |EncodeHeader(h)| < USIZE_LIMIT
    ensures Decode(Struct(FIELDS, TAIL), EncodeHeader(h) + suffix) == Ok((HeaderVal(h), suffix)) <==>
            GapsOk(TAIL, TailVals(h))
  {
    hide Decode, HaveTys, HaveOptTys, FieldVals, TailVals, GapsOk;
    HeaderHasTy(h);
    FieldsArePlain();
    FieldsFit(h);
    var rest := EncodeTail(TAIL, TailVals(h));
    RoundTripFields(FIELDS, FieldVals(h), rest);
    StructSurvives(FIELDS, TAIL, HeaderVal(h), suffix);
    TailSurvives(TAIL, TailVals(h));
  }

  lemma FieldsArePlain()
    ensures AllPlain(FIELDS) && TailTypes(TAIL)
  {
  }

  lemma FieldsFit(h: Header)
    requires WellTyped(h) && HaveTys(FieldVals(h), FIELDS)
    ensures |EncodeFields(FIELDS, FieldVals(h))| <= |EncodeHeader(h)|
  {
    hide HaveTys, HaveOptTys, FieldVals, TailVals, EncodeFields, EncodeTail;
    HeaderHasTy(h);
  }

  /** When the present optional fields come first, there is no gap. */
  lemma PrefixHasNoGap(h: Header, k: nat)
    requires k <= 5 && forall i | 0 <= i < 5 :: TailVals(h)[i].Absent? <==> i >= k
    ensures GapsOk(TAIL, TailVals(h))
  {
    AbsentAfter(TAIL, TailVals(h), k);
  }

  lemma {:induction false} AbsentAfter(ts: seq<Ty>, vs: seq<Val>, k: nat)
    requires |vs| == |ts| && k <= |vs| && forall i | 0 <= i < |vs| :: vs[i].Absent? <==> i >= k
    ensures GapsOk(ts, vs)
    decreases |ts|
  {
    if ts != [] {
      AbsentAfter(ts[1..], vs[1..], if k == 0 then 0 else k - 1);
    }
  }

  /** A header with a blob gas amount but without a base fee and a withdrawals root does not survive. */
  lemma GapThatFails(h: Header, suffix: Bytes)
    requires WellTyped(h) && |EncodeHeader(h)| < USIZE_LIMIT
    requires h.baseFeePerGas.None? && h.withdrawalsRoot.None? && h.blobGasUsed.Some?
    ensures DecodeHeader(EncodeHeader(h) + suffix) != Ok((h, suffix))
  {
    GapIsOpen(h);
    GapsByName(h);
    HeaderSurvives(h, suffix);
  }

  lemma GapIsOpen(h: Header)
    requires h.baseFeePerGas.None? && h.withdrawalsRoot.None? && h.blobGasUsed.Some?
    ensures !GapsOk(TAIL, TailVals(h))
  {
    var vs := TailVals(h);
    assert vs[1..][0] == vs[1] && vs[1..][1] == vs[2];
    assert NextPresent(vs[1..]) == 1 by {
      assert vs[1..][1..][0] == vs[2];
    }
  }

  /** What is read instead: when only the blob gas is there, it becomes the base fee. */
  lemma BlobGasBecomesFee(n: nat)
    requires n < Pow256(8)
    ensures HaveOptTys([Absent, Absent, Num(n), Absent, Absent], TAIL)
    ensures DecodeTail(TAIL, EncodeTail(TAIL, [Absent, Absent, Num(n), Absent, Absent])) ==
            Ok(([Num(n), Absent, Absent, Absent, Absent], []))
  {
    hide Encode, Decode, Pow256;
    var vs := [Absent, Absent, Num(n), Absent, Absent];
    assert HasTy(Num(n), U64_TY);
    TailBytes(TAIL, vs);
    assert NextPresent(vs) == 2 by { assert vs[1..][1..][0] == vs[2]; }
    AbsentTail(TAIL[3..], vs[3..]);
    assert EncodeTail(TAIL, vs) == Encode(U64_TY, Num(n)) + [];
    ShortEncoding(U64_TY, Num(n));
    PlainTail(U64_TY);
    RoundTripTyped(U64_TY, Num(n), []);
    TailOfNothing(TAIL[1..], [Absent, Absent, Absent, Absent]);
    assert [Num(n)] + [Absent, Absent, Absent, Absent] == [Num(n), Absent, Absent, Absent, Absent];
  }

  lemma {:induction false} AbsentTail(ts: seq<Ty>, vs: seq<Val>)
    requires |vs| == |ts| && forall i | 0 <= i < |vs| :: vs[i].Absent?
    ensures HaveOptTys(vs, ts) && EncodeTail(ts, vs) == []
  {
    if ts != [] {
      AbsentTail(ts[1..], vs[1..]);
    }
  }
}
