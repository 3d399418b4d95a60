/**
  * What typed values are on the wire: the nested item of each value, and the proof that every typed encoding is the encoding
  * of that item, so that its decoding can be read off.
  */
module RlpItems {
  import opened BigEndian
  import opened Rlp
  import opened RlpTyped

  /** How a number is written. */
  function Number(n: nat): Item {
    Str(MinimalBE(n))
  }

  /** Numbers are shortest big-endian strings, truth is the byte one, falsehood and absence are empty. */
  function ItemOf(t: Ty, v: Val): Item
    requires HasTy(v, t)
    decreases t, 1
  {
    match t
    case U8 => Number(v.n)
    case Uint(_) => Number(v.n)
    case Fixed(_) => Str(v.bytes)
    case Blob => Str(v.bytes)
    case Flag => Str(if v.b then [1] else [])
    case Kind => Str(if v.Absent? then [] else v.bytes)
    case Vec(e) => Lst(ElemItems(e, v.vals))
    case Tuple(elems) => Lst(FieldItems(elems, v.vals))
    case Struct(fields, tail) => Lst(FieldItems(fields, v.vals[..|fields|]) + TailItems(tail, v.vals[|fields|..]))
  }

  function ElemItems(e: Ty, vs: seq<Val>): (r: seq<Item>)
    requires forall x | x in vs :: HasTy(x, e)
    ensures |r| == |vs| && forall i | 0 <= i < |vs| :: r[i] == ItemOf(e, vs[i])
    decreases e, 2
  {
    seq(|vs|, i requires 0 <= i < |vs| => ItemOf(e, vs[i]))
  }

  function FieldItems(ts: seq<Ty>, vs: seq<Val>): (r: seq<Item>)
    requires |vs| == |ts| && HaveTys(vs, ts)
    ensures |r| == |ts| && forall i | 0 <= i < |ts| :: r[i] == ItemOf(ts[i], vs[i])
    decreases ts, 0
  {
    seq(|ts|, i requires 0 <= i < |ts| => ItemOf(ts[i], vs[i]))
  }

  /** Only the optional fields that are there. */
  function TailItems(ts: seq<Ty>, vs: seq<Val>): seq<Item>
    requires |vs| == |ts| && HaveOptTys(vs, ts)
    decreases ts, 0
  {
    if ts == [] then []
    else (if vs[0].Absent? then [] else [ItemOf(ts[0], vs[0])]) + TailItems(ts[1..], vs[1..])
  }

  /** Main law: a typed value is encoded as its item. */
  lemma {:induction false} EncodingIsItem(t: Ty, v: Val)
    requires HasTy(v, t)
    ensures Encode(t, v) == EncodeItem(ItemOf(t, v))
    decreases t, 1
  {
    match t
    case U8 | Uint(_) | Fixed(_) | Blob | Flag | Kind =>
    case Vec(e) => ElemsAreItems(e, v.vals);
    case Tuple(elems) => FieldsAreItems(elems, v.vals);
    case Struct(fields, tail) =>
      FieldsAreItems(fields, v.vals[..|fields|]);
      TailIsItems(tail, v.vals[|fields|..]);
      ItemsConcat(FieldItems(fields, v.vals[..|fields|]), TailItems(tail, v.vals[|fields|..]));
  }

  lemma {:induction false} ElemsAreItems(e: Ty, vs: seq<Val>)
    requires forall x | x in vs :: HasTy(x, e)
    ensures EncodeElems(e, vs) == EncodeItems(ElemItems(e, vs))
    decreases e, 2, |vs|
  {
    hide Encode, EncodeItem, ItemOf, HasTy;
    if vs != [] {
      EncodingIsItem(e, vs[0]);
      ElemsAreItems(e, vs[1..]);
      assert ElemItems(e, vs)[1..] == ElemItems(e, vs[1..]);
    }
  }

  lemma {:induction false} FieldsAreItems(ts: seq<Ty>, vs: seq<Val>)
    requires |vs| == |ts| && HaveTys(vs, ts)
    ensures EncodeFields(ts, vs) == EncodeItems(FieldItems(ts, vs))
    decreases ts, 0
  {
    hide Encode, EncodeItem, ItemOf, HasTy;
    if ts != [] {
      EncodingIsItem(ts[0], vs[0]);
      FieldsAreItems(ts[1..], vs[1..]);
      assert FieldItems(ts, vs)[1..] == FieldItems(ts[1..], vs[1..]);
    }
  }

  lemma {:induction false} TailIsItems(ts: seq<Ty>, vs: seq<Val>)
    requires |vs| == |ts| && HaveOptTys(vs, ts)
    ensures EncodeTail(ts, vs) == EncodeItems(TailItems(ts, vs))
    decreases ts, 0
  {
    hide Encode, EncodeItem, EncodeItems, ItemOf, HasTy;
    if ts == [] {
      assert EncodeItems([]) == [] by { NoItems(); }
    } else {
      TailIsItems(ts[1..], vs[1..]);
      if vs[0].Absent? {
        assert TailItems(ts, vs) == TailItems(ts[1..], vs[1..]);
      } else {
        EncodingIsItem(ts[0], vs[0]);
        ItemsFront(ItemOf(ts[0], vs[0]), TailItems(ts[1..], vs[1..]));
      }
    }
  }

  lemma NoItems()
    ensures EncodeItems([]) == []
  {
  }

  lemma ItemsFront(i: Item, items: seq<Item>)
    ensures EncodeItems([i] + items) == EncodeItem(i) + EncodeItems(items)
  {
    assert ([i] + items)[1..] == items;
  }

  /** A struct without optional fields is the list of its fields. */
  lemma StructItem(ts: seq<Ty>, v: Val, items: seq<Item>)
    requires HasTy(v, Struct(ts, []))
    requires |items| == |ts|
    requires |v.vals| == |ts| && forall i | 0 <= i < |ts| :: HasTy(v.vals[i], ts[i]) && ItemOf(ts[i], v.vals[i]) == items[i]
    ensures Encode(Struct(ts, []), v) == EncodeItem(Lst(items))
  {
    hide EncodeItem;
    EncodingIsItem(Struct(ts, []), v);
    assert v.vals[..|ts|] == v.vals;
    assert FieldItems(ts, v.vals[..|ts|]) + TailItems([], v.vals[|ts|..]) == items;
  }
}
