/**
  * When the decoders of `crates/rlp` panic instead of returning an error: exactly when one of the items they come to is an
  * integer that is too wide for its type, or has a header whose length overflows a `usize`.
  */
module RlpPanics {
  import opened Prelude
  import opened BigEndian
  import opened Rlp
  import opened RlpTyped

  /** A header with eight length bytes, so large that adding the header's own size overflows. */
  predicate LengthOverflows(data: Bytes) {
    |data| >= 9 && (data[0] == 0xBF || data[0] == 0xFF) && FromBE(data[1..9]) >= USIZE_LIMIT - 9
  }

  /** A string item, longer than `width` bytes, that does not start with a zero. */
  predicate TooWide(width: nat, data: Bytes) {
    var item := DecodeRlpItem(data);
    item.Ok? && !item.value.isList && |item.value.payload| > width && item.value.payload[0] != 0
  }

  lemma SevenBytes()
    ensures Pow256(7) + 9 < USIZE_LIMIT
    ensures forall k: nat | k <= 7 :: Pow256(k) <= Pow256(7)
  {
    Pow256Eight();
    forall k: nat | k <= 7
      ensures Pow256(k) <= Pow256(7)
    {
      PowGrows(k, 7);
    }
  }

  lemma {:induction false} LeadingZero(s: Bytes)
    requires s != [] && s[0] == 0
    ensures FromBE(s) == FromBE(s[1..])
  {
    assert s == Zeros(1) + s[1..];
    FromZeros(1, s[1..]);
  }

  lemma ExtentPanics(data: Bytes, lol: nat)
    requires data != [] && 1 <= lol <= 8
    ensures LongExtent(data, lol).Panic? <==> lol == 8 && |data| >= 9 && FromBE(data[1..9]) >= USIZE_LIMIT - 9
  {
    hide FromBE, Pow256;
    if |data| >= lol + 1 {
      var l := data[1..lol + 1];
      SevenBytes();
      if l[0] == 0 {
        LeadingZero(l);
        FromBound(l[1..]);
        assert Pow256(|l[1..]|) <= Pow256(7);
      } else if lol <= 7 {
        FromBound(l);
        assert Pow256(lol) <= Pow256(7);
      }
    }
  }

  /** Splitting off an item panics on these nine bytes and on no others. */
  lemma ItemPanics(data: Bytes)
    ensures DecodeRlpItem(data).Panic? <==> LengthOverflows(data)
  {
    hide LongExtent, FromBE;
    if data != [] && 0xB8 <= data[0] <= 0xBF {
      ExtentPanics(data, data[0] - 0xB7);
    } else if data != [] && 0xF8 <= data[0] {
      ExtentPanics(data, data[0] - 0xF7);
    }
  }

  type Place = (Ty, Bytes)

  /** Every item that decoding comes to, its own first: the type it is read as, and the input from there on. */
  function Places(t: Ty, data: Bytes): (r: seq<Place>)
    ensures r != []
    decreases t, 1
  {
    [(t, data)] +
    match t
    case Vec(e) =>
      var item := DecodeRlpItem(data);
      if item.Ok? && item.value.isList then ElemPlaces(e, item.value.payload) else []
    case Tuple(elems) =>
      var item := DecodeRlpItem(data);
      if item.Ok? && item.value.isList then FieldPlaces(elems, item.value.payload) else []
    case Struct(fields, tail) =>
      var item := DecodeRlpItem(data);
      if item.Ok? && item.value.isList then
        var required := DecodeFields(fields, item.value.payload);
        FieldPlaces(fields, item.value.payload) + if required.Ok? then TailPlaces(tail, required.value.1) else []
      else []
    case _ => []
  }

  function ElemPlaces(e: Ty, payload: Bytes): seq<Place>
    decreases e, 2, |payload|
  {
    if payload == [] then []
    else
      var first := Decode(e, payload);
      Places(e, payload) + if first.Ok? then ElemPlaces(e, first.value.1) else []
  }

  /** An item that does not decode ends the list. */
  function FieldPlaces(ts: seq<Ty>, payload: Bytes): seq<Place>
    decreases ts, 0
  {
    if ts == [] then []
    else
      var first := Decode(ts[0], payload);
      Places(ts[0], payload) + if first.Ok? then FieldPlaces(ts[1..], first.value.1) else []
  }

  /** An optional field that does not decode leaves its input to the next. */
  function TailPlaces(ts: seq<Ty>, payload: Bytes): seq<Place>
    decreases ts, 0
  {
    if ts == [] then []
    else
      var first := Decode(ts[0], payload);
      var rest := if first.Ok? then first.value.1 else payload;
      Places(ts[0], payload) + if first.Panic? then [] else TailPlaces(ts[1..], rest)
  }

  /** What is wrong with one item, by itself. */
  predicate Bad(p: Place) {
    match p.0
    case U8 | Flag => false
    case Uint(width) => LengthOverflows(p.1) || TooWide(width, p.1)
    case _ => LengthOverflows(p.1)
  }

  predicate AnyBad(ps: seq<Place>) {
    exists p | p in ps :: Bad(p)
  }

  lemma AnyBadConcat(a: seq<Place>, b: seq<Place>)
    ensures AnyBad(a + b) <==> AnyBad(a) || AnyBad(b)
  {
    hide Bad;
    if AnyBad(a) {
      var p :| p in a && Bad(p);
      assert p in a + b;
    }
    if AnyBad(b) {
      var p :| p in b && Bad(p);
      assert p in a + b;
    }
  }

  lemma LeafPanics(t: Ty, data: Bytes)
    requires !t.Vec? && !t.Tuple? && !t.Struct?
    ensures Decode(t, data).Panic? <==> Bad((t, data))
  {
    hide LengthOverflows, DecodeRlpItem, FromBE;
    ItemPanics(data);
    if t.Kind? {
      KindHeader(data);
    }
  }

  lemma KindHeader(data: Bytes)
    ensures data == [] || data[0] == RLP_NULL || data[0] == RLP_EMPTY_LIST ==> !LengthOverflows(data)
  {
  }

  /** Main law: for every schema and every input, decoding panics if and only if it comes to a bad item. */
  lemma {:induction false} DecodePanics(t: Ty, data: Bytes)
    ensures Decode(t, data).Panic? <==> AnyBad(Places(t, data))
    decreases t, 1
  {
    hide LengthOverflows, DecodeRlpItem, TooWide, AnyBad;
    ItemPanics(data);
    KindHeader(data);
    var item := DecodeRlpItem(data);
    var inner := Places(t, data)[1..];
    assert Places(t, data) == [(t, data)] + inner;
    AnyBadConcat([(t, data)], inner);
    OneBad((t, data));
    match t
    case Vec(e) =>
      if item.Ok? && item.value.isList {
        ElemsPanic(e, item.value.payload);
        EmptyListItem(data);
      } else {
        NoneBad();
      }
    case Tuple(elems) =>
      if item.Ok? && item.value.isList {
        FieldsPanic(elems, item.value.payload);
        EachLikeFields(elems, item.value.payload);
      } else {
        NoneBad();
      }
    case Struct(fields, tail) =>
      if item.Ok? && item.value.isList {
        StructPanics(fields, tail, item.value.payload);
      } else {
        NoneBad();
      }
    case _ =>
      LeafPanics(t, data);
      NoneBad();
  }

  lemma OneBad(p: Place)
    ensures AnyBad([p]) <==> Bad(p)
  {
    hide Bad;
    assert p in [p];
  }

  lemma NoneBad()
    ensures !AnyBad([])
  {
  }

  lemma EmptyListItem(data: Bytes)
    ensures data != [] && data[0] == RLP_EMPTY_LIST ==> DecodeRlpItem(data) == Ok(RawItem(true, [], data[1..]))
  {
  }

  lemma {:induction false} ElemsPanic(e: Ty, payload: Bytes)
    ensures DecodeElems(e, payload).Panic? <==> AnyBad(ElemPlaces(e, payload))
    decreases e, 2, |payload|
  {
    hide Decode, Places, AnyBad;
    NoneBad();
    if payload != [] {
      var first := Decode(e, payload);
      DecodePanics(e, payload);
      var rest := if first.Ok? then ElemPlaces(e, first.value.1) else [];
      AnyBadConcat(Places(e, payload), rest);
      if first.Ok? {
        ElemsPanic(e, first.value.1);
      }
    }
  }

  lemma {:induction false} FieldsPanic(ts: seq<Ty>, payload: Bytes)
    ensures DecodeFields(ts, payload).Panic? <==> AnyBad(FieldPlaces(ts, payload))
    decreases ts, 0
  {
    hide Decode, Places, AnyBad;
    NoneBad();
    if ts != [] {
      var first := Decode(ts[0], payload);
      DecodePanics(ts[0], payload);
      var rest := if first.Ok? then FieldPlaces(ts[1..], first.value.1) else [];
      AnyBadConcat(Places(ts[0], payload), rest);
      if first.Ok? {
        FieldsPanic(ts[1..], first.value.1);
      }
    }
  }

  lemma {:induction false} TailPanics(ts: seq<Ty>, payload: Bytes)
    ensures DecodeTail(ts, payload).Panic? <==> AnyBad(TailPlaces(ts, payload))
    ensures !DecodeTail(ts, payload).Err?
    decreases ts, 0
  {
    hide Decode, Places, AnyBad;
    NoneBad();
    if ts != [] {
      var first := Decode(ts[0], payload);
      DecodePanics(ts[0], payload);
      var left := if first.Ok? then first.value.1 else payload;
      var rest := if first.Panic? then [] else TailPlaces(ts[1..], left);
      AnyBadConcat(Places(ts[0], payload), rest);
      if !first.Panic? {
        TailPanics(ts[1..], left);
      }
    }
  }

  lemma {:induction false} StructPanics(fields: seq<Ty>, tail: seq<Ty>, payload: Bytes)
    ensures var required := DecodeFields(fields, payload);
            (required.Panic? || (required.Ok? && DecodeTail(tail, required.value.1).Panic?)) <==>
            AnyBad(FieldPlaces(fields, payload) + if required.Ok? then TailPlaces(tail, required.value.1) else [])
    decreases Struct(fields, tail), 0
  {
    hide DecodeFields, DecodeTail, FieldPlaces, TailPlaces, AnyBad;
    var required := DecodeFields(fields, payload);
    FieldsPanic(fields, payload);
    NoneBad();
    var rest := if required.Ok? then TailPlaces(tail, required.value.1) else [];
    AnyBadConcat(FieldPlaces(fields, payload), rest);
    if required.Ok? {
      TailPanics(tail, required.value.1);
    }
  }

  /** A two-byte integer given three bytes, and a list that claims the longest length, where an error is promised. */
  lemma PanickingInputs()
    ensures Decode(Uint(2), [0x83, 1, 0, 0]).Panic?
    ensures forall e: Ty :: Decode(Vec(e), [0xFF] + [0xFF, 0xFF, 0xFF, 0xFF, 0xFF, 0xFF, 0xFF, 0xFF]).Panic?
  {
    var three: Bytes := [0x83, 1, 0, 0];
    assert three[1..4] == [1, 0, 0] && three[4..] == [];
    assert DecodeRlpItem(three) == Ok(RawItem(false, [1, 0, 0], []));
    var ones: Bytes := [0xFF, 0xFF, 0xFF, 0xFF, 0xFF, 0xFF, 0xFF, 0xFF];
    var data := [0xFF] + ones;
    assert data[1..9] == ones;
    AllOnes(ones, 8);
    Pow256Eight();
    ItemPanics(data);
  }

  lemma {:induction false} AllOnes(s: Bytes, n: nat)
    requires |s| == n && forall i | 0 <= i < n :: s[i] == 0xFF
    ensures FromBE(s) == Pow256(n) - 1
  {
    if n > 0 {
      AllOnes(s[..n - 1], n - 1);
    }
  }
}
