/**
  * The RLP codec of `crates/rlp`: byte-string and list headers, the two item splitters of the
  * decoder, and arbitrarily nested items.
  *
  * A decoder either succeeds, returns an error, or panics. Overflow of `usize` arithmetic is a panic.
  */
module Rlp {
  import opened Prelude
  import opened BigEndian

  datatype DecodeError =
    | InvalidLength
    | MalformedData
    | MalformedBoolean
    | UnexpectedList
    | UnexpectedString
    | Custom

  datatype Result<+T> = Ok(value: T) | Err(error: DecodeError) | Panic {
    predicate IsFailure() {
      !Ok?
    }

    function PropagateFailure<U>(): Result<U>
      requires !Ok?
    {
      if Err? then Err(error) else Panic
    }

    function Extract(): T
      requires Ok?
    {
      value
    }
  }

  const RLP_NULL: byte := 0x80
  const RLP_EMPTY_LIST: byte := 0xC0

  // ---------------------------------------------------------------------------------------------
  // Encoding
  // ---------------------------------------------------------------------------------------------

  /** The header of a string (`short == 0x80`) or a list (`short == 0xC0`) with `len` payload bytes. */
  function Header(short: byte, len: nat): (h: Bytes)
    requires short == RLP_NULL || short == RLP_EMPTY_LIST
    ensures h != []
  {
    if len < 56 then [short + len]
    else
      var l := MinimalBE(len);
      [(short + 55 + |l|) % 256] + l
  }

  function EncodeBytes(s: Bytes): (r: Bytes)
    ensures r != []
  {
    if |s| == 1 && s[0] < RLP_NULL then s else Header(RLP_NULL, |s|) + s
  }

  /** A list item around an already encoded payload. */
  function EncodeList(payload: Bytes): (r: Bytes)
    ensures r != []
  {
    Header(RLP_EMPTY_LIST, |payload|) + payload
  }

  function EncodeUint(n: nat): (r: Bytes)
    ensures r != []
  {
    EncodeBytes(MinimalBE(n))
  }

  function EncodeBool(b: bool): (r: Bytes) {
    if b then [0x01] else [RLP_NULL]
  }

  // ---------------------------------------------------------------------------------------------
  // Decoding
  // ---------------------------------------------------------------------------------------------

  /** An item split into its payload and what follows it. */
  datatype RawItem = RawItem(isList: bool, payload: Bytes, rest: Bytes)

  /** `static_left_pad::<N>`; `copy_from_slice` panics when the input is longer than the array. */
  function LeftPad(data: Bytes, width: nat): (r: Result<Bytes>)
    ensures r.Ok? ==> |r.value| == width && FromBE(r.value) == FromBE(data)
  {
    if data == [] then
      assert Zeros(width) + [] == Zeros(width);
      FromZeros(width, []);
      Ok(Zeros(width))
    else if data[0] == 0 then Err(MalformedData)
    else if |data| > width then Panic
    else
      FromZeros(width - |data|, data);
      Ok(Zeros(width - |data|) + data)
  }

  datatype Extent = Extent(start: nat, end: nat)

  /** Where the payload of a long form starts and ends, given `lol` length bytes after the first byte. */
  function LongExtent(data: Bytes, lol: nat): (r: Result<Extent>)
    requires data != []
    ensures r.Ok? ==> 1 <= r.value.start <= r.value.end <= |data|
  {
    if |data| < lol + 1 then Err(InvalidLength)
    else
      var padded :- LeftPad(data[1..lol + 1], 8);
      var length := FromBE(padded);
      if lol + length + 1 >= USIZE_LIMIT then Panic
      else if |data| < lol + length + 1 then Err(InvalidLength)
      else Ok(Extent(lol + 1, lol + length + 1))
  }

  function DecodeRlpItem(data: Bytes): (r: Result<RawItem>)
    ensures r.Ok? ==> |r.value.rest| < |data| && |r.value.payload| + |r.value.rest| <= |data|
    ensures r.Ok? && r.value.isList ==> |r.value.payload| < |data|
  {
    if data == [] then Err(InvalidLength)
    else
      var first := data[0];
      if first <= 0x7F then Ok(RawItem(false, data[..1], data[1..]))
      else if first <= 0xB7 then
        var length := first - 0x80;
        if |data| < length + 1 then Err(InvalidLength)
        else Ok(RawItem(false, data[1..length + 1], data[length + 1..]))
      else if first <= 0xBF then
        var e :- LongExtent(data, first - 0xB7);
        Ok(RawItem(false, data[e.start..e.end], data[e.end..]))
      else if first <= 0xF7 then
        var length := first - RLP_EMPTY_LIST;
        if |data| < length + 1 then Err(InvalidLength)
        else Ok(RawItem(true, data[1..length + 1], data[length + 1..]))
      else
        var e :- LongExtent(data, first - 0xF7);
        Ok(RawItem(true, data[e.start..e.end], data[e.end..]))
  }

  /** Splits off the first item with its header; the second, independent parser of the same headers. */
  function GetItemWithPrefix(data: Bytes): (r: Result<(Bytes, Bytes)>)
  {
    if data == [] then Err(InvalidLength)
    else
      var first := data[0];
      if first <= 0x7F then Ok((data[..1], data[1..]))
      else if first <= 0xB7 then
        var length := first - 0x80;
        if |data| < length + 1 then Err(InvalidLength)
        else Ok((data[..length + 1], data[length + 1..]))
      else if first <= 0xBF then
        var lengthOfLength := first - 0xB7;
        if |data| < lengthOfLength + 1 then Err(InvalidLength)
        else
          var padded :- LeftPad(data[1..lengthOfLength + 1], 8);
          var length := FromBE(padded);
          if lengthOfLength + length + 1 >= USIZE_LIMIT then Panic
          else if |data| < lengthOfLength + length + 1 then Err(InvalidLength)
          else Ok((data[..lengthOfLength + length + 1], data[lengthOfLength + length + 1..]))
      else if first <= 0xF7 then
        var length := first - RLP_EMPTY_LIST;
        if |data| < length + 1 then Err(InvalidLength)
        else Ok((data[..length + 1], data[length + 1..]))
      else
        var listLength := first - 0xF7;
        if |data| < listLength + 1 then Err(InvalidLength)
        else
          var padded :- LeftPad(data[1..listLength + 1], 8);
          var payloadLength := FromBE(padded);
          if listLength + payloadLength + 1 >= USIZE_LIMIT then Panic
          else if |data| < listLength + payloadLength + 1 then Err(InvalidLength)
          else Ok((data[..listLength + payloadLength + 1], data[listLength + payloadLength + 1..]))
  }

  function DecodeBytes(data: Bytes): (r: Result<(Bytes, Bytes)>)
    ensures r.Ok? ==> |r.value.1| < |data|
  {
    var item :- DecodeRlpItem(data);
    if item.isList then Err(UnexpectedList) else Ok((item.payload, item.rest))
  }

  // ---------------------------------------------------------------------------------------------
  // One header is undone exactly
  // ---------------------------------------------------------------------------------------------

  /** The length of anything that fits a `usize` takes at most eight bytes. */
  lemma LengthBytes(len: nat)
    requires 0 < len < USIZE_LIMIT
    ensures 1 <= |MinimalBE(len)| <= 8
  {
    Pow256Eight();
    MinimalLength(len, 8);
  }

  lemma LongExtentOfHeader(data: Bytes, len: nat, l: Bytes)
    requires 0 < len && l == MinimalBE(len)
    requires |l| <= 8
    requires |l| + len + 1 < USIZE_LIMIT
    requires |l| + len + 1 <= |data| && data[1..|l| + 1] == l
    ensures LongExtent(data, |l|) == Ok(Extent(|l| + 1, |l| + len + 1))
  {
    FromMinimal(len);
  }

  /** Decoding an encoded byte string followed by anything gives the string and what followed. */
  lemma DecodeEncodedBytes(s: Bytes, suffix: Bytes)
    requires |EncodeBytes(s)| < USIZE_LIMIT
    ensures DecodeRlpItem(EncodeBytes(s) + suffix) == Ok(RawItem(false, s, suffix))
  {
    var data := EncodeBytes(s) + suffix;
    if |s| == 1 && s[0] < RLP_NULL {
      assert data[..1] == s && data[1..] == suffix;
    } else if |s| < 56 {
      assert data[1..|s| + 1] == s && data[|s| + 1..] == suffix;
    } else {
      DecodeLong(false, s, suffix);
    }
  }

  /** Decoding a list header gives back the payload bytes and what followed the list. */
  lemma DecodeEncodedList(payload: Bytes, suffix: Bytes)
    requires |EncodeList(payload)| < USIZE_LIMIT
    ensures DecodeRlpItem(EncodeList(payload) + suffix) == Ok(RawItem(true, payload, suffix))
  {
    var data := EncodeList(payload) + suffix;
    if |payload| < 56 {
      assert data[1..|payload| + 1] == payload && data[|payload| + 1..] == suffix;
    } else {
      DecodeLong(true, payload, suffix);
    }
  }

  lemma DecodeLong(isList: bool, s: Bytes, suffix: Bytes)
    requires 56 <= |s|
    requires |Header(if isList then RLP_EMPTY_LIST else RLP_NULL, |s|) + s| < USIZE_LIMIT
    ensures var h := Header(if isList then RLP_EMPTY_LIST else RLP_NULL, |s|);
            DecodeRlpItem(h + s + suffix) == Ok(RawItem(isList, s, suffix))
  {
    var l := MinimalBE(|s|);
    LengthBytes(|s|);
    var lead := (if isList then 0xF7 else 0xB7) + |l|;
    assert Header(if isList then RLP_EMPTY_LIST else RLP_NULL, |s|) == [lead] + l;
    DecodeLongParts(isList, [lead] + l, lead, l, s, suffix);
  }

  lemma DecodeLongParts(isList: bool, h: Bytes, lead: byte, l: Bytes, s: Bytes, suffix: Bytes)
    requires s != [] && l == MinimalBE(|s|)
    requires 1 <= |l| <= 8 && |l| + |s| + 1 < USIZE_LIMIT
    requires lead == (if isList then 0xF7 else 0xB7) + |l|
    requires h == [lead] + l
    ensures DecodeRlpItem(h + s + suffix) == Ok(RawItem(isList, s, suffix))
  {
    var data := h + s + suffix;
    assert data[1..|l| + 1] == l;
    assert data[|l| + 1..|l| + |s| + 1] == s;
    assert data[|l| + |s| + 1..] == suffix;
    DecodeAtExtent(isList, data, |s|, l);
  }

  lemma DecodeAtExtent(isList: bool, data: Bytes, len: nat, l: Bytes)
    requires 0 < len && l == MinimalBE(len)
    requires 1 <= |l| <= 8
    requires |l| + len + 1 < USIZE_LIMIT
    requires |l| + len + 1 <= |data| && data[1..|l| + 1] == l
    requires data[0] == (if isList then 0xF7 else 0xB7) + |l|
    ensures DecodeRlpItem(data)
         == Ok(RawItem(isList, data[|l| + 1..|l| + len + 1], data[|l| + len + 1..]))
  {
    LongExtentOfHeader(data, len, l);
  }

  /** The two splitters accept the same inputs, fail alike, and split at the same byte. */
  lemma SplittersAgree(data: Bytes)
    ensures match DecodeRlpItem(data)
            case Err(e) => GetItemWithPrefix(data) == Err(e)
            case Panic => GetItemWithPrefix(data) == Panic
            case Ok(item) =>
              var end := |data| - |item.rest|;
              && GetItemWithPrefix(data) == Ok((data[..end], item.rest))
              && item.payload == data[end - |item.payload|..end]
              && item.rest == data[end..]
  {
    hide LeftPad, FromBE;
    var item := DecodeRlpItem(data);
    if item.Ok? {
      var end := |data| - |item.value.rest|;
      assert 0x80 <= data[0] <= 0xB7 ==> end == data[0] - 0x80 + 1;
      assert 0xC0 <= data[0] <= 0xF7 ==> end == data[0] - 0xC0 + 1;
    }
  }

  /** Every item that the decoder accepts alone is accepted, unchanged, in front of any suffix. */
  lemma DecodeIsLocal(data: Bytes, suffix: Bytes)
    requires DecodeRlpItem(data).Ok?
    ensures var item := DecodeRlpItem(data).value;
            DecodeRlpItem(data + suffix) == Ok(item.(rest := item.rest + suffix))
  {
    var all := data + suffix;
    var item := DecodeRlpItem(data).value;
    if 0xB8 <= data[0] <= 0xBF {
      LongExtentIsLocal(data, suffix, data[0] - 0xB7);
    } else if 0xF8 <= data[0] {
      LongExtentIsLocal(data, suffix, data[0] - 0xF7);
    }
    var end := |data| - |item.rest|;
    assert all[end..] == data[end..] + suffix;
    assert all[end - |item.payload|..end] == data[end - |item.payload|..end];
  }

  lemma LongExtentIsLocal(data: Bytes, suffix: Bytes, lol: nat)
    requires data != []
    requires LongExtent(data, lol).Ok?
    ensures LongExtent(data + suffix, lol) == LongExtent(data, lol)
  {
    assert (data + suffix)[1..lol + 1] == data[1..lol + 1];
  }

  // ---------------------------------------------------------------------------------------------
  // Nested items
  // ---------------------------------------------------------------------------------------------

  /** A value of byte strings and lists, nested to any depth. */
  datatype Item = Str(bytes: Bytes) | Lst(items: seq<Item>)

  function EncodeItem(i: Item): (r: Bytes)
    ensures r != []
  {
    match i
    case Str(s) => EncodeBytes(s)
    case Lst(items) => EncodeList(EncodeItems(items))
  }

  function EncodeItems(items: seq<Item>): (r: Bytes)
    ensures |r| >= |items|
  {
    if items == [] then [] else EncodeItem(items[0]) + EncodeItems(items[1..])
  }

  lemma {:induction false} ItemsConcat(a: seq<Item>, b: seq<Item>)
    ensures EncodeItems(a + b) == EncodeItems(a) + EncodeItems(b)
  {
    if a == [] {
      assert a + b == b;
    } else {
      assert (a + b)[1..] == a[1..] + b;
      ItemsConcat(a[1..], b);
    }
  }

  lemma OneItem(i: Item)
    ensures EncodeItems([i]) == EncodeItem(i)
  {
    assert EncodeItems([]) == [];
  }

  lemma TwoItemList(i: Item, j: Item)
    ensures EncodeItem(Lst([i, j])) == EncodeList(EncodeItem(i) + EncodeItem(j))
  {
    OneItem(j);
    assert [i, j][1..] == [j];
  }

  /** The encoding is a buffer that a 64-bit machine can address. */
  predicate Fits(i: Item) {
    |EncodeItem(i)| < USIZE_LIMIT
  }

  /** The list decoder of `Vec<T>` with the item decoder itself as element decoder. */
  function DecodeItem(data: Bytes): (r: Result<(Item, Bytes)>)
    ensures r.Ok? ==> |r.value.1| < |data|
    decreases |data|, 0
  {
    var raw :- DecodeRlpItem(data);
    if !raw.isList then Ok((Str(raw.payload), raw.rest))
    else
      var items :- DecodeItems(raw.payload);
      Ok((Lst(items), raw.rest))
  }

  function DecodeItems(payload: Bytes): (r: Result<seq<Item>>)
    decreases |payload|, 1
  {
    if payload == [] then Ok([])
    else
      var (first, rest) :- DecodeItem(payload);
      var others :- DecodeItems(rest);
      Ok([first] + others)
  }

  /** Main law: decoding inverts encoding in front of every suffix, at every nesting depth. */
  lemma {:induction false} RoundTrip(i: Item, suffix: Bytes)
    requires Fits(i)
    ensures DecodeItem(EncodeItem(i) + suffix) == Ok((i, suffix))
    decreases i, 1
  {
    match i
    case Str(s) => DecodeEncodedBytes(s, suffix);
    case Lst(items) =>
      DecodeEncodedList(EncodeItems(items), suffix);
      RoundTripAll(items);
  }

  lemma {:induction false} RoundTripAll(items: seq<Item>)
    requires |EncodeItems(items)| < USIZE_LIMIT
    ensures DecodeItems(EncodeItems(items)) == Ok(items)
    decreases items, 0
  {
    if items != [] {
      RoundTrip(items[0], EncodeItems(items[1..]));
      RoundTripAll(items[1..]);
      assert items == [items[0]] + items[1..];
    }
  }

  /** Encodings determine their items, even inside a longer string, and none is a prefix of another. */
  lemma PrefixFree(i: Item, j: Item, x: Bytes, y: Bytes)
    requires Fits(i) && Fits(j)
    requires EncodeItem(i) + x == EncodeItem(j) + y
    ensures i == j && x == y
  {
    RoundTrip(i, x);
    RoundTrip(j, y);
  }

  // ---------------------------------------------------------------------------------------------
  // The encoding is the shortest
  // ---------------------------------------------------------------------------------------------

  /** The encoding of a payload as a string or as a list. */
  function Wrapped(isList: bool, payload: Bytes): Bytes {
    if isList then EncodeList(payload) else EncodeBytes(payload)
  }

  /**
    * Main law of headers: whatever bytes the decoder accepts for a payload, the encoder's are fewer, or are these bytes. So
    * a short header is used whenever there is one, and no header at all for a single low byte.
    */
  lemma ShortestForm(data: Bytes)
    requires DecodeRlpItem(data).Ok?
    ensures var item := DecodeRlpItem(data).value;
            var read := data[..|data| - |item.rest|];
            |Wrapped(item.isList, item.payload)| < |read| || Wrapped(item.isList, item.payload) == read
  {
    hide MinimalBE, LongExtent;
    var first := data[0];
    var item := DecodeRlpItem(data).value;
    var read := data[..|data| - |item.rest|];
    if 0xB8 <= first <= 0xBF || 0xF8 <= first {
      var lol := first - if first <= 0xBF then 0xB7 else 0xF7;
      LongLength(data, lol);
      assert read == [first] + data[1..lol + 1] + item.payload;
    } else if first >= 0x80 {
      assert read == [first] + item.payload;
    }
  }

  /** The length bytes of a long form are the shortest for the length. */
  lemma LongLength(data: Bytes, lol: nat)
    requires data != [] && lol >= 1 && LongExtent(data, lol).Ok?
    ensures var e := LongExtent(data, lol).value;
            e.start == lol + 1 && MinimalBE(e.end - e.start) == data[1..lol + 1]
  {
    MinimalFrom(data[1..lol + 1]);
  }

  /** How many bytes behind the first one hold the length: none for a short form. */
  function LengthBytesOf(first: byte): nat {
    if 0xB8 <= first <= 0xBF then first - 0xB7 else if 0xF8 <= first then first - 0xF7 else 0
  }

  /**
    * Which data are refused, and how: a length with a leading zero is malformed; everything else that is not an item is too
    * short for its header, for its length bytes or for its payload.
    */
  lemma RefusedData(data: Bytes)
    ensures DecodeRlpItem(data) == Err(MalformedData) <==>
            data != [] && LengthBytesOf(data[0]) > 0 && |data| > LengthBytesOf(data[0]) && data[1] == 0
    ensures DecodeRlpItem(data) == Err(InvalidLength) <==>
            || data == []
            || (0x80 <= data[0] <= 0xB7 && |data| < data[0] - 0x80 + 1)
            || (0xC0 <= data[0] <= 0xF7 && |data| < data[0] - 0xC0 + 1)
            || (var n := LengthBytesOf(data[0]);
                n > 0 &&
                (|| |data| <= n
                 || (data[1] != 0 && |data| < 1 + n + FromBE(data[1..n + 1]) < USIZE_LIMIT)))
    ensures DecodeRlpItem(data).Err? ==> DecodeRlpItem(data).error in {MalformedData, InvalidLength}
  {
    hide FromBE;
  }

  /** Encodings given in the tests of the encoder. */
  lemma KnownEncodings()
    ensures EncodeBytes([]) == [0x80] && EncodeBytes([0x00]) == [0x00] && EncodeBytes([0x7F]) == [0x7F]
    ensures EncodeBytes([0x80]) == [0x81, 0x80] && EncodeBytes([0x64, 0x6F, 0x67]) == [0x83, 0x64, 0x6F, 0x67]
    ensures EncodeUint(0) == [0x80] && EncodeUint(1) == [0x01] && EncodeUint(0x100) == [0x82, 0x01, 0x00]
    ensures EncodeBool(true) == [0x01] && EncodeBool(false) == [0x80]
  {
    hide MinimalBE;
    SmallNumbers();
  }

  lemma KnownLists()
    ensures EncodeItem(Lst([])) == [0xC0]
    ensures EncodeItem(Lst([Str([0x63, 0x61, 0x74]), Str([0x64, 0x6F, 0x67])])) ==
            [0xC8, 0x83, 0x63, 0x61, 0x74, 0x83, 0x64, 0x6F, 0x67]
  {
    TwoItemList(Str([0x63, 0x61, 0x74]), Str([0x64, 0x6F, 0x67]));
  }
}
