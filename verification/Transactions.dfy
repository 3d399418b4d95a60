/**
  * Transactions (`crates/core/types/transaction.rs`): the canonical form of EIP-2718 and the form used inside other RLP
  * structures, over transactions with named fields.
  */
module Transactions {
  import opened Prelude
  import opened BigEndian
  import opened Rlp
  import opened RlpTyped
  import opened RlpItems

  datatype TxType = Legacy | EIP2930 | EIP1559 | EIP4844

  /** Addresses with storage keys. */
  type AccessList = seq<(Bytes, seq<Bytes>)>

  /** `to` is absent when a contract is created; a blob transaction always has a recipient. */
  datatype Transaction =
    | LegacyTx(
        nonce: nat, gasPrice: nat, gas: nat, to: Option<Bytes>, value: nat, data: Bytes, v: nat, r: nat, s: nat)
    | AccessListTx(
        chainId: nat, nonce: nat, gasPrice: nat, gasLimit: nat, to: Option<Bytes>, value: nat, data: Bytes,
        accessList: AccessList, yParity: bool, r: nat, s: nat)
    | DynamicFeeTx(
        chainId: nat, nonce: nat, maxPriorityFee: nat, maxFee: nat, gasLimit: nat, to: Option<Bytes>, value: nat,
        data: Bytes, accessList: AccessList, yParity: bool, r: nat, s: nat)
    | BlobTx(
        chainId: nat, nonce: nat, maxPriorityFee: nat, maxFee: nat, gas: nat, recipient: Bytes, value: nat,
        data: Bytes, accessList: AccessList, maxFeePerBlobGas: nat, blobHashes: seq<Bytes>, yParity: bool, r: nat, s: nat)
  {
    function TxType(): TxType {
      match this
      case LegacyTx(_, _, _, _, _, _, _, _, _) => Legacy
      case AccessListTx(_, _, _, _, _, _, _, _, _, _, _) => EIP2930
      case DynamicFeeTx(_, _, _, _, _, _, _, _, _, _, _, _) => EIP1559
      case BlobTx(_, _, _, _, _, _, _, _, _, _, _, _, _, _) => EIP4844
    }
  }

  const U64_TY: Ty := Uint(8)
  const U256_TY: Ty := Uint(32)
  const ENTRY: Ty := Tuple([Fixed(20), Vec(Fixed(32))])
  const ACCESS_LIST: Ty := Vec(ENTRY)

  function FieldTys(kind: TxType): seq<Ty> {
    match kind
    case Legacy => [U64_TY, U64_TY, U64_TY, Kind, U256_TY, Blob, U256_TY, U256_TY, U256_TY]
    case EIP2930 => [U64_TY, U64_TY, U64_TY, U64_TY, Kind, U256_TY, Blob, ACCESS_LIST, Flag, U256_TY, U256_TY]
    case EIP1559 => [U64_TY, U64_TY, U64_TY, U64_TY, U64_TY, Kind, U256_TY, Blob, ACCESS_LIST, Flag, U256_TY, U256_TY]
    case EIP4844 =>
      [U64_TY, U64_TY, U64_TY, U64_TY, U64_TY, Fixed(20), U256_TY, Blob, ACCESS_LIST, U256_TY, Vec(Fixed(32)), Flag,
       U256_TY, U256_TY]
  }

  function TxTy(kind: TxType): Ty {
    Struct(FieldTys(kind), [])
  }

  // ---------------------------------------------------------------------------------------------
  // Values of fields
  // ---------------------------------------------------------------------------------------------

  function ToVal(to: Option<Bytes>): Val {
    if to.Some? then Raw(to.value) else Absent
  }

  function HashesVal(hs: seq<Bytes>): (v: Val)
    ensures v.Many? && |v.vals| == |hs| && forall i | 0 <= i < |hs| :: v.vals[i] == Raw(hs[i])
  {
    Many(seq(|hs|, i requires 0 <= i < |hs| => Raw(hs[i])))
  }

  function AccessVal(l: AccessList): (v: Val)
    ensures v.Many? && |v.vals| == |l|
    ensures forall i | 0 <= i < |l| :: v.vals[i] == Many([Raw(l[i].0), HashesVal(l[i].1)])
  {
    Many(seq(|l|, i requires 0 <= i < |l| => Many([Raw(l[i].0), HashesVal(l[i].1)])))
  }

  /** The fields in the order `encode` names them. */
  function FieldVals(tx: Transaction): (r: seq<Val>)
    ensures |r| == |FieldTys(tx.TxType())|
  {
    match tx
    case LegacyTx(nonce, gasPrice, gas, to, value, data, v, r, s) =>
      [Num(nonce), Num(gasPrice), Num(gas), ToVal(to), Num(value), Raw(data), Num(v), Num(r), Num(s)]
    case AccessListTx(chainId, nonce, gasPrice, gasLimit, to, value, data, accessList, yParity, r, s) =>
      [Num(chainId), Num(nonce), Num(gasPrice), Num(gasLimit), ToVal(to), Num(value), Raw(data), AccessVal(accessList),
       Bool(yParity), Num(r), Num(s)]
    case DynamicFeeTx(chainId, nonce, maxPriorityFee, maxFee, gasLimit, to, value, data, accessList, yParity, r, s) =>
      [Num(chainId), Num(nonce), Num(maxPriorityFee), Num(maxFee), Num(gasLimit), ToVal(to), Num(value), Raw(data),
       AccessVal(accessList), Bool(yParity), Num(r), Num(s)]
    case BlobTx(
      chainId, nonce, maxPriorityFee, maxFee, gas, recipient, value, data, accessList, maxFeePerBlobGas, blobHashes,
      yParity, r, s) =>
      [Num(chainId), Num(nonce), Num(maxPriorityFee), Num(maxFee), Num(gas), Raw(recipient), Num(value), Raw(data),
       AccessVal(accessList), Num(maxFeePerBlobGas), HashesVal(blobHashes), Bool(yParity), Num(r), Num(s)]
  }

  function NumAt(vs: seq<Val>, i: nat): nat
    requires i < |vs|
  {
    if vs[i].Num? then vs[i].n else 0
  }

  function RawOf(v: Val): Bytes {
    if v.Raw? then v.bytes else []
  }

  function ToAt(vs: seq<Val>, i: nat): Option<Bytes>
    requires i < |vs|
  {
    if vs[i].Raw? then Some(vs[i].bytes) else None
  }

  function FlagAt(vs: seq<Val>, i: nat): bool
    requires i < |vs|
  {
    vs[i].Bool? && vs[i].b
  }

  function HashesOf(v: Val): (hs: seq<Bytes>) {
    if v.Many? then seq(|v.vals|, i requires 0 <= i < |v.vals| => RawOf(v.vals[i])) else []
  }

  function EntryOf(v: Val): (Bytes, seq<Bytes>) {
    if v.Many? && |v.vals| == 2 then (RawOf(v.vals[0]), HashesOf(v.vals[1])) else ([], [])
  }

  function AccessOf(v: Val): (l: AccessList) {
    if v.Many? then seq(|v.vals|, i requires 0 <= i < |v.vals| => EntryOf(v.vals[i])) else []
  }

  /** The fields in the order `decode_unfinished` asks for them. */
  function TxOf(kind: TxType, vs: seq<Val>): Transaction
    requires |vs| == |FieldTys(kind)|
  {
    match kind
    case Legacy =>
      LegacyTx(
        NumAt(vs, 0), NumAt(vs, 1), NumAt(vs, 2), ToAt(vs, 3), NumAt(vs, 4), RawOf(vs[5]), NumAt(vs, 6), NumAt(vs, 7),
        NumAt(vs, 8))
    case EIP2930 =>
      AccessListTx(
        NumAt(vs, 0), NumAt(vs, 1), NumAt(vs, 2), NumAt(vs, 3), ToAt(vs, 4), NumAt(vs, 5), RawOf(vs[6]), AccessOf(vs[7]),
        FlagAt(vs, 8), NumAt(vs, 9), NumAt(vs, 10))
    case EIP1559 =>
      DynamicFeeTx(
        NumAt(vs, 0), NumAt(vs, 1), NumAt(vs, 2), NumAt(vs, 3), NumAt(vs, 4), ToAt(vs, 5), NumAt(vs, 6), RawOf(vs[7]),
        AccessOf(vs[8]), FlagAt(vs, 9), NumAt(vs, 10), NumAt(vs, 11))
    case EIP4844 =>
      BlobTx(
        NumAt(vs, 0), NumAt(vs, 1), NumAt(vs, 2), NumAt(vs, 3), NumAt(vs, 4), RawOf(vs[5]), NumAt(vs, 6), RawOf(vs[7]),
        AccessOf(vs[8]), NumAt(vs, 9), HashesOf(vs[10]), FlagAt(vs, 11), NumAt(vs, 12), NumAt(vs, 13))
  }

  lemma TxOfItsFields(tx: Transaction)
    ensures TxOf(tx.TxType(), FieldVals(tx)) == tx
  {
    if !tx.LegacyTx? {
      AccessOfIts(tx.accessList);
    }
    if tx.BlobTx? {
      HashesOfIts(tx.blobHashes);
    }
  }

  lemma HashesOfIts(hs: seq<Bytes>)
    ensures HashesOf(HashesVal(hs)) == hs
  {
  }

  lemma AccessOfIts(l: AccessList)
    ensures AccessOf(AccessVal(l)) == l
  {
    forall i | 0 <= i < |l|
      ensures EntryOf(AccessVal(l).vals[i]) == l[i]
    {
      HashesOfIts(l[i].1);
    }
  }

  // ---------------------------------------------------------------------------------------------
  // Types of fields
  // ---------------------------------------------------------------------------------------------

  predicate IsU64(n: nat) {
    n < Pow256(8)
  }

  predicate IsU256(n: nat) {
    n < Pow256(32)
  }

  predicate AreHashes(hs: seq<Bytes>) {
    forall h | h in hs :: |h| == 32
  }

  predicate IsAccessList(l: AccessList) {
    forall e | e in l :: |e.0| == 20 && AreHashes(e.1)
  }

  /** What the field types of the source enforce. */
  predicate WellTyped(tx: Transaction) {
    && IsU64(tx.nonce) && IsU256(tx.value) && IsU256(tx.r) && IsU256(tx.s)
    && (!tx.LegacyTx? ==> IsU64(tx.chainId) && IsAccessList(tx.accessList))
    && (!tx.BlobTx? ==> tx.to.None? || |tx.to.value| == 20)
    && match tx.TxType()
       case Legacy => IsU64(tx.gasPrice) && IsU64(tx.gas) && IsU256(tx.v)
       case EIP2930 => IsU64(tx.gasPrice) && IsU64(tx.gasLimit)
       case EIP1559 => IsU64(tx.maxPriorityFee) && IsU64(tx.maxFee) && IsU64(tx.gasLimit)
       case EIP4844 =>
         && IsU64(tx.maxPriorityFee) && IsU64(tx.maxFee) && IsU64(tx.gas) && IsU256(tx.maxFeePerBlobGas)
         && |tx.recipient| == 20 && AreHashes(tx.blobHashes)
  }

  lemma HashesHaveTy(hs: seq<Bytes>)
    requires AreHashes(hs)
    ensures WrittenAs(Vec(Fixed(32)), HashesVal(hs), HashesItem(hs))
  {
    assert forall i | 0 <= i < |hs| :: hs[i] in hs;
  }

  lemma AccessHasTy(l: AccessList)
    requires IsAccessList(l)
    ensures WrittenAs(ACCESS_LIST, AccessVal(l), AccessItem(l))
  {
    hide HashesVal;
    forall i | 0 <= i < |l|
      ensures WrittenAs(ENTRY, AccessVal(l).vals[i], EntryItem(l[i]))
    {
      assert l[i] in l;
      EntryHasTy(l[i]);
    }
    AccessItems(l);
  }

  lemma AccessItems(l: AccessList)
    requires forall i | 0 <= i < |l| :: WrittenAs(ENTRY, AccessVal(l).vals[i], EntryItem(l[i]))
    ensures WrittenAs(Vec(ENTRY), AccessVal(l), AccessItem(l))
  {
    hide EntryItem, HashesVal;
  }

  lemma EntryHasTy(e: (Bytes, seq<Bytes>))
    requires |e.0| == 20 && AreHashes(e.1)
    ensures var v := Many([Raw(e.0), HashesVal(e.1)]); WrittenAs(ENTRY, v, EntryItem(e))
  {
    hide HashesVal, HashesItem;
    HashesHaveTy(e.1);
    var ts, vs := [Fixed(20), Vec(Fixed(32))], [Raw(e.0), HashesVal(e.1)];
    assert HasTy(vs[0], ts[0]) && HasTy(vs[1], ts[1]);
    assert HaveTys(vs, ts);
    assert FieldItems(ts, vs) == [Str(e.0), HashesItem(e.1)];
  }

  // ---------------------------------------------------------------------------------------------
  // What is written, by name
  // ---------------------------------------------------------------------------------------------

  /** A contract creation is the empty string. */
  function ToItem(to: Option<Bytes>): Item {
    Str(if to.Some? then to.value else [])
  }

  /** Truth is the byte one, falsehood the empty string. */
  function FlagItem(b: bool): Item {
    Str(if b then [1] else [])
  }

  function HashesItem(hs: seq<Bytes>): Item {
    Lst(seq(|hs|, i requires 0 <= i < |hs| => Str(hs[i])))
  }

  function EntryItem(e: (Bytes, seq<Bytes>)): Item {
    Lst([Str(e.0), HashesItem(e.1)])
  }

  function AccessItem(l: AccessList): Item {
    Lst(seq(|l|, i requires 0 <= i < |l| => EntryItem(l[i])))
  }

  /** The list each kind of transaction is written as. */
  function TxItem(tx: Transaction): Item {
    match tx.TxType()
    case Legacy =>
      Lst([Number(tx.nonce), Number(tx.gasPrice), Number(tx.gas), ToItem(tx.to), Number(tx.value), Str(tx.data),
           Number(tx.v), Number(tx.r), Number(tx.s)])
    case EIP2930 =>
      Lst([Number(tx.chainId), Number(tx.nonce), Number(tx.gasPrice), Number(tx.gasLimit), ToItem(tx.to),
           Number(tx.value), Str(tx.data), AccessItem(tx.accessList), FlagItem(tx.yParity), Number(tx.r), Number(tx.s)])
    case EIP1559 =>
      Lst([Number(tx.chainId), Number(tx.nonce), Number(tx.maxPriorityFee), Number(tx.maxFee), Number(tx.gasLimit),
           ToItem(tx.to), Number(tx.value), Str(tx.data), AccessItem(tx.accessList), FlagItem(tx.yParity), Number(tx.r),
           Number(tx.s)])
    case EIP4844 =>
      Lst([Number(tx.chainId), Number(tx.nonce), Number(tx.maxPriorityFee), Number(tx.maxFee), Number(tx.gas),
           Str(tx.recipient), Number(tx.value), Str(tx.data), AccessItem(tx.accessList), Number(tx.maxFeePerBlobGas),
           HashesItem(tx.blobHashes), FlagItem(tx.yParity), Number(tx.r), Number(tx.s)])
  }

  /** A value has its type and is written as its item. */
  predicate WrittenAs(t: Ty, v: Val, i: Item) {
    HasTy(v, t) && ItemOf(t, v) == i
  }

  predicate Written(ts: seq<Ty>, vs: seq<Val>, items: seq<Item>) {
    |items| == |ts| == |vs| && forall i | 0 <= i < |ts| :: WrittenAs(ts[i], vs[i], items[i])
  }

  lemma U64Field(n: nat)
    requires IsU64(n)
    ensures WrittenAs(U64_TY, Num(n), Number(n))
  {
  }

  lemma U256Field(n: nat)
    requires IsU256(n)
    ensures WrittenAs(U256_TY, Num(n), Number(n))
  {
  }

  lemma DataAndFlag(data: Bytes, flag: bool)
    ensures WrittenAs(Blob, Raw(data), Str(data)) && WrittenAs(Flag, Bool(flag), FlagItem(flag))
  {
  }

  lemma ToField(to: Option<Bytes>)
    requires to.None? || |to.value| == 20
    ensures WrittenAs(Kind, ToVal(to), ToItem(to))
  {
  }

  lemma AddressField(a: Bytes)
    requires |a| == 20
    ensures WrittenAs(Fixed(20), Raw(a), Str(a))
  {
  }

  lemma LegacyFields(tx: Transaction)
    requires WellTyped(tx) && tx.LegacyTx?
    ensures Written(FieldTys(tx.TxType()), FieldVals(tx), TxItem(tx).items)
  {
    hide WrittenAs, IsU64, IsU256, IsAccessList, AreHashes, AccessVal, AccessItem, HashesVal, HashesItem, ToVal, ToItem;
    hide Number, FlagItem;
    U64Field(tx.nonce);
    U64Field(tx.gasPrice);
    U64Field(tx.gas);
    ToField(tx.to);
    U256Field(tx.value);
    DataAndFlag(tx.data, false);
    U256Field(tx.v);
    U256Field(tx.r);
    U256Field(tx.s);
  }

  lemma AccessListFields(tx: Transaction)
    requires WellTyped(tx) && tx.AccessListTx?
    ensures Written(FieldTys(tx.TxType()), FieldVals(tx), TxItem(tx).items)
  {
    hide WrittenAs, IsU64, IsU256, IsAccessList, AreHashes, AccessVal, AccessItem, HashesVal, HashesItem, ToVal, ToItem;
    hide Number, FlagItem;
    U64Field(tx.chainId);
    U64Field(tx.nonce);
    U64Field(tx.gasPrice);
    U64Field(tx.gasLimit);
    ToField(tx.to);
    U256Field(tx.value);
    DataAndFlag(tx.data, tx.yParity);
    AccessHasTy(tx.accessList);
    U256Field(tx.r);
    U256Field(tx.s);
  }

  lemma DynamicFeeFields(tx: Transaction)
    requires WellTyped(tx) && tx.DynamicFeeTx?
    ensures Written(FieldTys(tx.TxType()), FieldVals(tx), TxItem(tx).items)
  {
    hide WrittenAs, IsU64, IsU256, IsAccessList, AreHashes, AccessVal, AccessItem, HashesVal, HashesItem, ToVal, ToItem;
    hide Number, FlagItem;
    U64Field(tx.chainId);
    U64Field(tx.nonce);
    U64Field(tx.maxPriorityFee);
    U64Field(tx.maxFee);
    U64Field(tx.gasLimit);
    ToField(tx.to);
    U256Field(tx.value);
    DataAndFlag(tx.data, tx.yParity);
    AccessHasTy(tx.accessList);
    U256Field(tx.r);
    U256Field(tx.s);
  }

  lemma BlobFields(tx: Transaction)
    requires WellTyped(tx) && tx.BlobTx?
    ensures Written(FieldTys(tx.TxType()), FieldVals(tx), TxItem(tx).items)
  {
    hide WrittenAs, IsU64, IsU256, IsAccessList, AreHashes, AccessVal, AccessItem, HashesVal, HashesItem, ToVal, ToItem;
    hide Number, FlagItem;
    U64Field(tx.chainId);
    U64Field(tx.nonce);
    U64Field(tx.maxPriorityFee);
    U64Field(tx.maxFee);
    U64Field(tx.gas);
    AddressField(tx.recipient);
    U256Field(tx.value);
    DataAndFlag(tx.data, tx.yParity);
    AccessHasTy(tx.accessList);
    U256Field(tx.maxFeePerBlobGas);
    HashesHaveTy(tx.blobHashes);
    U256Field(tx.r);
    U256Field(tx.s);
  }

  lemma FieldsAre(tx: Transaction)
    requires WellTyped(tx)
    ensures Written(FieldTys(tx.TxType()), FieldVals(tx), TxItem(tx).items)
  {
    hide WellTyped, Written, FieldTys, FieldVals, TxItem;
    if tx.LegacyTx? {
      LegacyFields(tx);
    } else if tx.AccessListTx? {
      AccessListFields(tx);
    } else if tx.DynamicFeeTx? {
      DynamicFeeFields(tx);
    } else {
      BlobFields(tx);
    }
  }

  lemma FieldsHaveTy(tx: Transaction)
    requires WellTyped(tx)
    ensures HasTy(Many(FieldVals(tx)), TxTy(tx.TxType()))
  {
    hide FieldTys, FieldVals, HasTy, WellTyped, ItemOf;
    FieldsAre(tx);
    StructHasTy(FieldTys(tx.TxType()), FieldVals(tx));
  }

  lemma StructHasTy(ts: seq<Ty>, vs: seq<Val>)
    requires |ts| == |vs| && forall i | 0 <= i < |ts| :: HasTy(vs[i], ts[i])
    ensures HasTy(Many(vs), Struct(ts, []))
  {
    assert vs[..|ts|] == vs;
  }

  /** The body of a transaction: the list of its fields. */
  function Body(tx: Transaction): (r: Bytes)
    requires WellTyped(tx)
    ensures r != []
  {
    FieldsHaveTy(tx);
    Encode(TxTy(tx.TxType()), Many(FieldVals(tx)))
  }

  /** Main law of what is written: the body is the encoding of the item. */
  lemma BodyEncoding(tx: Transaction)
    requires WellTyped(tx)
    ensures Body(tx) == EncodeItem(TxItem(tx))
  {
    hide FieldTys, FieldVals, HasTy, WellTyped, ItemOf, Encode, EncodeItem;
    FieldsHaveTy(tx);
    FieldsAre(tx);
    StructItem(FieldTys(tx.TxType()), Many(FieldVals(tx)), TxItem(tx).items);
  }

  function TypeByte(kind: TxType): byte {
    match kind
    case Legacy => 0
    case EIP2930 => 1
    case EIP1559 => 2
    case EIP4844 => 3
  }

  // ---------------------------------------------------------------------------------------------
  // Canonical form
  // ---------------------------------------------------------------------------------------------

  function EncodeCanonical(tx: Transaction): (r: Bytes)
    requires WellTyped(tx)
  {
    if tx.LegacyTx? then Body(tx) else [TypeByte(tx.TxType())] + Body(tx)
  }

  /** `decode`: nothing may be left over. */
  function DecodeWhole(kind: TxType, bytes: Bytes): Result<Transaction> {
    var (v, rest) :- Decode(TxTy(kind), bytes);
    DecodedHasTy(TxTy(kind), bytes);
    if rest != [] then Err(InvalidLength) else Ok(TxOf(kind, v.vals))
  }

  function DecodeCanonical(bytes: Bytes): Result<Transaction> {
    if bytes != [] && bytes[0] < 0x7F then
      if bytes[0] == 0 then DecodeWhole(Legacy, bytes[1..])
      else if bytes[0] == 1 then DecodeWhole(EIP2930, bytes[1..])
      else if bytes[0] == 2 then DecodeWhole(EIP1559, bytes[1..])
      else if bytes[0] == 3 then DecodeWhole(EIP4844, bytes[1..])
      else Err(Custom)
    else DecodeWhole(Legacy, bytes)
  }

  // ---------------------------------------------------------------------------------------------
  // RLP form
  // ---------------------------------------------------------------------------------------------

  function EncodeTx(tx: Transaction): (r: Bytes)
    requires WellTyped(tx)
  {
    if tx.LegacyTx? then Body(tx) else EncodeBytes(EncodeCanonical(tx))
  }

  function DecodeAs(kind: TxType, rlp: Bytes): Result<(Transaction, Bytes)> {
    var (v, rest) :- Decode(TxTy(kind), rlp);
    DecodedHasTy(TxTy(kind), rlp);
    Ok((TxOf(kind, v.vals), rest))
  }

  /** Only long byte strings are recognised as typed transactions; `Panic` is an index out of range. */
  function DecodeTx(rlp: Bytes): Result<(Transaction, Bytes)> {
    if rlp == [] then Panic
    else if 0xB8 <= rlp[0] <= 0xBF then
      var start := rlp[0] - 0xB8 + 2;
      if |rlp| <= start then Panic
      else
        var tx := rlp[start + 1..];
        if rlp[start] == 0 then DecodeAs(Legacy, tx)
        else if rlp[start] == 1 then DecodeAs(EIP2930, tx)
        else if rlp[start] == 2 then DecodeAs(EIP1559, tx)
        else if rlp[start] == 3 then DecodeAs(EIP4844, tx)
        else Err(Custom)
    else DecodeAs(Legacy, rlp)
  }

  // ---------------------------------------------------------------------------------------------
  // Round trips
  // ---------------------------------------------------------------------------------------------

  lemma TxTyIsPlain(kind: TxType)
    ensures Plain(TxTy(kind))
  {
    AccessListIsPlain();
    assert Plain(Vec(Fixed(32)));
    forall t | t in FieldTys(kind)
      ensures Plain(t)
    {
    }
  }

  lemma AccessListIsPlain()
    ensures Plain(ACCESS_LIST)
  {
    var elems := [Fixed(20), Vec(Fixed(32))];
    assert AllPlain(elems);
    assert Plain(Tuple(elems));
  }

  lemma BodyRoundTrip(tx: Transaction, suffix: Bytes)
    requires WellTyped(tx) && |Body(tx)| < USIZE_LIMIT
    ensures DecodeAs(tx.TxType(), Body(tx) + suffix) == Ok((tx, suffix))
    ensures suffix == [] ==> DecodeWhole(tx.TxType(), Body(tx) + suffix) == Ok(tx)
  {
    hide Encode, Decode, TxTy, FieldTys, FieldVals, WellTyped;
    FieldsHaveTy(tx);
    TxTyIsPlain(tx.TxType());
    RoundTripTyped(TxTy(tx.TxType()), Many(FieldVals(tx)), suffix);
    TxOfItsFields(tx);
  }

  /** A list starts with a byte from 0xC0 on. */
  lemma ListStarts(payload: Bytes)
    requires |EncodeList(payload)| < USIZE_LIMIT
    ensures EncodeList(payload)[0] >= 0xC0
  {
    if |payload| >= 56 {
      LengthBytes(|payload|);
    }
  }

  lemma BodyStarts(tx: Transaction)
    requires WellTyped(tx) && |Body(tx)| < USIZE_LIMIT
    ensures Body(tx)[0] >= 0xC0
  {
    hide EncodeFields, EncodeTail, EncodeList, HasTy, FieldTys, FieldVals, WellTyped;
    FieldsHaveTy(tx);
    StructIsList(FieldTys(tx.TxType()), Many(FieldVals(tx)));
  }

  lemma StructIsList(ts: seq<Ty>, v: Val)
    requires HasTy(v, Struct(ts, [])) && |Encode(Struct(ts, []), v)| < USIZE_LIMIT
    ensures Encode(Struct(ts, []), v)[0] >= 0xC0
  {
    hide EncodeList, EncodeFields;
    ListStarts(EncodeFields(ts, v.vals[..|ts|]) + EncodeTail([], v.vals[|ts|..]));
  }

  /** Main law: every transaction survives the canonical form. */
  lemma CanonicalRoundTrip(tx: Transaction)
    requires WellTyped(tx) && |EncodeCanonical(tx)| < USIZE_LIMIT
    ensures DecodeCanonical(EncodeCanonical(tx)) == Ok(tx)
  {
    hide Body, DecodeWhole, DecodeAs, WellTyped;
    var body := Body(tx);
    BodyRoundTrip(tx, []);
    BodyStarts(tx);
    assert body + [] == body;
    assert ([TypeByte(tx.TxType())] + body)[1..] == body;
  }

  lemma LongString(c: Bytes, suffix: Bytes)
    requires 56 <= |c| && |EncodeBytes(c)| < USIZE_LIMIT
    ensures var rlp := EncodeBytes(c) + suffix;
            && 0xB8 <= rlp[0] <= 0xBF
            && var start := rlp[0] - 0xB8 + 2;
               |rlp| > start && rlp[start] == c[0] && rlp[start + 1..] == c[1..] + suffix
  {
    hide MinimalBE;
    LengthBytes(|c|);
    var l := MinimalBE(|c|);
    var rlp := EncodeBytes(c) + suffix;
    assert EncodeBytes(c) == [0xB7 + |l|] + l + c;
    assert rlp[|l| + 1] == c[0];
    assert rlp[|l| + 2..] == c[1..] + suffix;
  }

  lemma ShortString(c: Bytes, suffix: Bytes)
    requires 2 <= |c| < 56
    ensures (EncodeBytes(c) + suffix)[0] == 0x80 + |c|
    ensures DecodeRlpItem(EncodeBytes(c) + suffix).Ok? && !DecodeRlpItem(EncodeBytes(c) + suffix).value.isList
  {
    DecodeEncodedBytes(c, suffix);
  }

  /**
    * Main law: a transaction survives the RLP form, in front of every suffix, if and only if it is a legacy transaction or
    * its canonical form has at least 56 bytes.
    */
  lemma RlpRoundTrip(tx: Transaction, suffix: Bytes)
    requires WellTyped(tx) && |EncodeTx(tx)| < USIZE_LIMIT
    ensures DecodeTx(EncodeTx(tx) + suffix) == Ok((tx, suffix)) <==> tx.LegacyTx? || |EncodeCanonical(tx)| >= 56
  {
    hide Body, DecodeAs, EncodeBytes, WellTyped;
    var body := Body(tx);
    if tx.LegacyTx? {
      BodyRoundTrip(tx, suffix);
      BodyStarts(tx);
    } else {
      var c := EncodeCanonical(tx);
      StringIsLonger(c);
      assert c[1..] == body;
      if |c| >= 56 {
        BodyRoundTrip(tx, suffix);
        LongString(c, suffix);
      } else {
        ShortString(c, suffix);
        StringIsNoLegacy(EncodeBytes(c) + suffix);
      }
    }
  }

  lemma StringIsLonger(c: Bytes)
    ensures |c| <= |EncodeBytes(c)|
  {
  }

  lemma StringIsNoLegacy(rlp: Bytes)
    requires DecodeRlpItem(rlp).Ok? && !DecodeRlpItem(rlp).value.isList
    ensures DecodeAs(Legacy, rlp) == Err(UnexpectedString)
  {
  }

  /**
    * The two forms byte by byte: a legacy transaction is its list; the others are their list behind the byte of their type,
    * and inside RLP the string of those bytes.
    */
  lemma TxEncoding(tx: Transaction, suffix: Bytes)
    requires WellTyped(tx)
    ensures EncodeCanonical(tx) ==
            (match tx.TxType() case Legacy => [] case EIP2930 => [0x01] case EIP1559 => [0x02] case EIP4844 => [0x03])
            + EncodeItem(TxItem(tx))
    ensures EncodeTx(tx) == EncodeItem(if tx.LegacyTx? then TxItem(tx) else Str(EncodeCanonical(tx)))
    ensures |Body(tx)| < USIZE_LIMIT ==> DecodeItem(Body(tx) + suffix) == Ok((TxItem(tx), suffix))
  {
    hide Body, TxItem, WellTyped, DecodeItem;
    BodyEncoding(tx);
    assert [] + Body(tx) == Body(tx);
    if |Body(tx)| < USIZE_LIMIT {
      RoundTrip(TxItem(tx), suffix);
    }
  }

  // ---------------------------------------------------------------------------------------------
  // A transaction that is too short
  // ---------------------------------------------------------------------------------------------

  lemma {:induction false} OneByteFields(ts: seq<Ty>, vs: seq<Val>)
    requires |vs| == |ts| && HaveTys(vs, ts) && forall i | 0 <= i < |ts| :: |Encode(ts[i], vs[i])| == 1
    ensures |EncodeFields(ts, vs)| == |ts|
  {
    hide Encode, HasTy;
    if ts != [] {
      assert |Encode(ts[0], vs[0])| == 1;
      forall i | 0 <= i < |ts[1..]|
        ensures |Encode(ts[1..][i], vs[1..][i])| == 1
      {
        assert ts[1..][i] == ts[i + 1] && vs[1..][i] == vs[i + 1];
      }
      OneByteFields(ts[1..], vs[1..]);
    }
  }

  /** The access list transaction that creates a contract with every field zero or empty. */
  const BLANK: Transaction := AccessListTx(0, 0, 0, 0, None, 0, [], [], false, 0, 0)

  lemma BlankFields()
    ensures var ts, vs := FieldTys(EIP2930), FieldVals(BLANK);
            |ts| == |vs| == 11 && HaveTys(vs, ts) && forall i | 0 <= i < 11 :: |Encode(ts[i], vs[i])| == 1
  {
    var ts, vs := FieldTys(EIP2930), FieldVals(BLANK);
    assert AccessVal([]) == Many([]);
    forall i | 0 <= i < 11
      ensures HasTy(vs[i], ts[i]) && |Encode(ts[i], vs[i])| == 1
    {
      BlankField(ts[i], vs[i]);
    }
  }

  lemma BlankField(t: Ty, v: Val)
    requires || ((t == U64_TY || t == U256_TY) && v == Num(0)) || (t == Kind && v == Absent) || (t == Blob && v == Raw([]))
             || (t == ACCESS_LIST && v == Many([])) || (t == Flag && v == Bool(false))
    ensures HasTy(v, t) && |Encode(t, v)| == 1
  {
    assert EncodeBytes([]) == [RLP_NULL];
    assert EncodeList([]) == [RLP_EMPTY_LIST];
  }

  /** Its canonical form has 13 bytes, and its RLP form is refused. */
  lemma BlankIsRefused(suffix: Bytes)
    ensures WellTyped(BLANK) && |EncodeCanonical(BLANK)| == 13
    ensures DecodeTx(EncodeTx(BLANK) + suffix) == Err(UnexpectedString)
  {
    hide EncodeFields, FieldTys, FieldVals, Encode, HasTy, Decode, DecodeAs;
    var ts, vs := FieldTys(EIP2930), FieldVals(BLANK);
    BlankFields();
    OneByteFields(ts, vs);
    BlankBody(ts, vs);
    var c := EncodeCanonical(BLANK);
    ShortString(c, suffix);
    StringIsNoLegacy(EncodeBytes(c) + suffix);
  }

  lemma BlankBody(ts: seq<Ty>, vs: seq<Val>)
    requires |ts| == |vs| == 11 && HaveTys(vs, ts) && |EncodeFields(ts, vs)| == 11
    ensures HasTy(Many(vs), Struct(ts, [])) && |Encode(Struct(ts, []), Many(vs))| == 12
  {
    hide EncodeFields;
    assert vs[..11] == vs && vs[11..] == [];
    assert EncodeFields(ts, vs) + [] == EncodeFields(ts, vs);
  }
}
