/**
  * EVM memory (`crates/levm/src/memory.rs`): a buffer that grows in words, against an unbounded memory of zeros, and the
  * cost of its growth.
  */
module Memory {
  import opened Prelude
  import opened BigEndian

  const WORD_SIZE: nat := 32

  /** The end of the largest access: rounded up, a later one is more than the `isize::MAX` bytes that a vector can hold. */
  const MAX_END: nat := USIZE_LIMIT / 2 - WORD_SIZE

  function NextMultiple(n: nat): (r: nat)
    ensures n <= r < n + WORD_SIZE && r % WORD_SIZE == 0
  {
    (n + WORD_SIZE - 1) / WORD_SIZE * WORD_SIZE
  }

  datatype Access =
    | Load(offset: nat)
    | LoadRange(offset: nat, size: nat)
    | StoreBytes(offset: nat, value: Bytes)
    | Copy(src: nat, dest: nat, size: nat)

  /** Where an access ends. */
  function End(a: Access): nat {
    match a
    case Load(offset) => offset + 32
    case LoadRange(offset, size) => offset + size
    case StoreBytes(offset, value) => offset + |value|
    case Copy(src, dest, size) => (if src >= dest then src else dest) + size
  }

  function Resized(data: Bytes, end: nat): Bytes {
    if NextMultiple(end) > |data| then data + Zeros(NextMultiple(end) - |data|) else data
  }

  /** The buffer after an access and the bytes it read; `None` is an overflow. */
  function Apply(data: Bytes, a: Access): Option<(Bytes, Bytes)> {
    if End(a) > MAX_END then None
    else
      var d := Resized(data, End(a));
      match a
      case Load(offset) => Some((d, d[offset..offset + 32]))
      case LoadRange(offset, size) => Some((d, d[offset..offset + size]))
      case StoreBytes(offset, value) => Some((Written(d, offset, value), []))
      case Copy(src, dest, size) => Some((Written(d, dest, d[src..src + size]), []))
  }

  function Written(d: Bytes, offset: nat, value: Bytes): (r: Bytes)
    requires offset + |value| <= |d|
    ensures |r| == |d|
    ensures forall i | 0 <= i < |d| :: r[i] == if offset <= i < offset + |value| then value[i - offset] else d[i]
  {
    d[..offset] + value + d[offset + |value|..]
  }

  class Memory {
    var data: Bytes

    constructor ()
      ensures data == []
    {
      data := [];
    }

    method Resize(end: nat)
      modifies this
      ensures data == Resized(old(data), end)
    {
      if NextMultiple(end) > |data| {
        data := data + Zeros(NextMultiple(end) - |data|);
      }
    }

    method Load(offset: nat) returns (word: Option<nat>)
      modifies this
      ensures match Apply(old(data), Access.Load(offset))
              case None => word.None? && data == old(data)
              case Some((d, bytes)) => data == d && |bytes| == 32 && word == Some(FromBE(bytes))
    {
      if offset + 32 > MAX_END {
        return None;
      }
      Resize(offset + 32);
      word := Some(FromBE(data[offset..offset + 32]));
    }

    method LoadRange(offset: nat, size: nat) returns (bytes: Option<Bytes>)
      modifies this
      ensures match Apply(old(data), Access.LoadRange(offset, size))
              case None => bytes.None? && data == old(data)
              case Some((d, read)) => data == d && bytes == Some(read)
    {
      if offset + size > MAX_END {
        return None;
      }
      Resize(offset + size);
      bytes := Some(data[offset..offset + size]);
    }

    method StoreBytes(offset: nat, value: Bytes) returns (ok: bool)
      modifies this
      ensures match Apply(old(data), Access.StoreBytes(offset, value))
              case None => !ok && data == old(data)
              case Some((d, _)) => ok && data == d
    {
      if offset + |value| > MAX_END {
        return false;
      }
      Resize(offset + |value|);
      data := data[..offset] + value + data[offset + |value|..];
      ok := true;
    }

    /** The source range is read before the destination is written, so they may overlap. */
    method Copy(src: nat, dest: nat, size: nat) returns (ok: bool)
      modifies this
      ensures match Apply(old(data), Access.Copy(src, dest, size))
              case None => !ok && data == old(data)
              case Some((d, _)) => ok && data == d
    {
      hide NextMultiple;
      var end := if src >= dest then src + size else dest + size;
      if end > MAX_END {
        return false;
      }
      Resize(end);
      var temp := data[src..src + size];
      data := data[..dest] + temp + data[dest + size..];
      ok := true;
    }

    /** `None` is an overflow of `usize`; it occurs from 2^32 words on, whose square no longer fits. */
    method ExpansionCost(size: nat) returns (cost: Option<nat>)
      ensures cost.None? <==> size > |data| && size > 32 * 0xFFFF_FFFF
      ensures cost.Some? ==> cost.value == Expansion(|data|, size)
    {
      if size <= |data| {
        return Some(0);
      }
      if size + WORD_SIZE - 1 >= USIZE_LIMIT {
        return None;
      }
      var words := (size + WORD_SIZE - 1) / WORD_SIZE;
      SquareFits(words);
      if words * words >= USIZE_LIMIT || words * words / 512 + 3 * words >= USIZE_LIMIT {
        return None;
      }
      var last := (|data| + WORD_SIZE - 1) / WORD_SIZE;
      CostGrows(last, words);
      cost := Some((words * words / 512 + 3 * words) - (last * last / 512 + 3 * last));
    }
  }

  lemma SquareFits(n: nat)
    ensures n * n < USIZE_LIMIT <==> n < 0x1_0000_0000
    ensures n < 0x1_0000_0000 ==> n * n / 512 + 3 * n < USIZE_LIMIT
  {
    if n < 0x1_0000_0000 {
      TimesGrows(n, 0xFFFF_FFFF, n);
    } else {
      TimesGrows(0x1_0000_0000, n, n);
    }
    var square := n * n;
    assert n < 0x1_0000_0000 ==> square <= 0xFFFF_FFFF * n;
    assert n >= 0x1_0000_0000 ==> square >= 0x1_0000_0000 * n;
  }

  lemma {:induction false} TimesGrows(a: nat, b: nat, c: nat)
    requires a <= b
    ensures a * c <= b * c
    decreases b
  {
    if a < b {
      TimesGrows(a, b - 1, c);
      assert b * c == (b - 1) * c + c;
    }
  }

  // ---------------------------------------------------------------------------------------------
  // An unbounded memory of zeros
  // ---------------------------------------------------------------------------------------------

  /** The bytes written so far; all others are zero. */
  type Unbounded = map<nat, byte>

  function ByteAt(m: Unbounded, i: nat): byte {
    if i in m then m[i] else 0
  }

  function Read(m: Unbounded, offset: nat, size: nat): Bytes {
    seq<byte>(size, i requires 0 <= i < size => ByteAt(m, offset + i))
  }

  function Nth(value: Bytes, offset: nat, i: nat): byte
    requires offset <= i < offset + |value|
  {
    value[i - offset]
  }

  function Write(m: Unbounded, offset: nat, value: Bytes): Unbounded {
    m + map i: nat | offset <= i < offset + |value| :: Nth(value, offset, i)
  }

  /** A range ends with the last whole word below 2^63 at the latest. */
  predicate InReach(offset: nat, size: nat) {
    offset + size <= 0x7FFF_FFFF_FFFF_FFE0
  }

  function RefApply(m: Unbounded, a: Access): Option<(Unbounded, Bytes)> {
    match a
    case Load(offset) => if InReach(offset, 32) then Some((m, Read(m, offset, 32))) else None
    case LoadRange(offset, size) => if InReach(offset, size) then Some((m, Read(m, offset, size))) else None
    case StoreBytes(offset, value) => if InReach(offset, |value|) then Some((Write(m, offset, value), [])) else None
    case Copy(src, dest, size) =>
      if InReach(src, size) && InReach(dest, size) then Some((Write(m, dest, Read(m, src, size)), [])) else None
  }

  ghost predicate Agree(data: Bytes, m: Unbounded) {
    forall i: nat :: ByteAt(m, i) == if i < |data| then data[i] else 0
  }

  lemma ResizeAgrees(data: Bytes, m: Unbounded, end: nat)
    requires Agree(data, m) && |data| % WORD_SIZE == 0
    ensures Agree(Resized(data, end), m)
    ensures |Resized(data, end)| % WORD_SIZE == 0 && end <= |Resized(data, end)|
    ensures |Resized(data, end)| == if NextMultiple(end) > |data| then NextMultiple(end) else |data|
  {
    hide NextMultiple;
  }

  lemma ReadAgrees(data: Bytes, m: Unbounded, offset: nat, size: nat)
    requires Agree(data, m) && offset + size <= |data|
    ensures Read(m, offset, size) == data[offset..offset + size]
  {
    var x, y := Read(m, offset, size), data[offset..offset + size];
    forall i | 0 <= i < size
      ensures x[i] == y[i]
    {
      assert ByteAt(m, offset + i) == data[offset + i];
    }
  }

  lemma WriteAgrees(data: Bytes, m: Unbounded, offset: nat, value: Bytes)
    requires Agree(data, m) && offset + |value| <= |data|
    ensures Agree(Written(data, offset, value), Write(m, offset, value))
  {
    var d, w := Written(data, offset, value), Write(m, offset, value);
    forall i: nat
      ensures ByteAt(w, i) == if i < |d| then d[i] else 0
    {
      assert ByteAt(m, i) == if i < |data| then data[i] else 0;
    }
  }

  /** Every access reads and leaves what it would on the unbounded memory, and keeps whole words. */
  lemma ApplyAgrees(data: Bytes, m: Unbounded, a: Access)
    requires Agree(data, m) && |data| % WORD_SIZE == 0
    ensures Apply(data, a).None? <==> RefApply(m, a).None?
    ensures Apply(data, a).Some? ==>
              var (d, out) := Apply(data, a).value;
              var (w, expected) := RefApply(m, a).value;
              Agree(d, w) && out == expected && |d| == |Resized(data, End(a))| && |d| % WORD_SIZE == 0
  {
    hide Agree, Read, Write, Written, Resized;
    if End(a) <= MAX_END {
      ResizeAgrees(data, m, End(a));
      var d := Resized(data, End(a));
      match a
      case Load(offset) => ReadAgrees(d, m, offset, 32);
      case LoadRange(offset, size) => ReadAgrees(d, m, offset, size);
      case StoreBytes(offset, value) => WriteAgrees(d, m, offset, value);
      case Copy(src, dest, size) =>
        ReadAgrees(d, m, src, size);
        WriteAgrees(d, m, dest, d[src..src + size]);
    }
  }

  // ---------------------------------------------------------------------------------------------
  // The cost of growth
  // ---------------------------------------------------------------------------------------------

  /** The cost of a memory of `words` words (C_mem of Appendix H.1 of the Yellow Paper). */
  function Cost(words: nat): nat {
    words * words / 512 + 3 * words
  }

  /** Three for each word and one for each whole 512 of the square. */
  predicate IsCost(words: nat, cost: nat) {
    cost >= 3 * words && 512 * (cost - 3 * words) <= words * words < 512 * (cost - 3 * words + 1)
  }

  lemma CostMeans(words: nat)
    ensures IsCost(words, Cost(words))
  {
    var square := words * words;
    assert 512 * (square / 512) <= square < 512 * (square / 512 + 1);
  }

  lemma CostGrows(a: nat, b: nat)
    requires a <= b
    ensures Cost(a) <= Cost(b)
  {
    assert a * a <= b * b by {
      assert a * a <= a * b <= b * b;
    }
  }

  function Expansion(len: nat, size: nat): nat {
    if size <= len then 0
    else
      var a, b := NextMultiple(len) / WORD_SIZE, NextMultiple(size) / WORD_SIZE;
      assert a <= b;
      CostGrows(a, b);
      Cost(b) - Cost(a)
  }

  lemma ExpansionIsDifference(len: nat, size: nat)
    requires len % WORD_SIZE == 0
    ensures var len2 := if NextMultiple(size) > len then NextMultiple(size) else len;
            Expansion(len, size) == Cost(len2 / WORD_SIZE) - Cost(len / WORD_SIZE)
  {
    hide Cost;
    if size <= len {
      assert NextMultiple(size) <= len;
    }
  }

  /** Charges each access before it is made; stops at an overflow. */
  function Charged(data: Bytes, accesses: seq<Access>): nat
    decreases |accesses|
  {
    if accesses == [] || Apply(data, accesses[0]).None? then 0
    else Expansion(|data|, End(accesses[0])) + Charged(Apply(data, accesses[0]).value.0, accesses[1..])
  }

  function Run(data: Bytes, accesses: seq<Access>): (Bytes, seq<Bytes>)
    decreases |accesses|
  {
    if accesses == [] || Apply(data, accesses[0]).None? then (data, [])
    else
      var (d, out) := Apply(data, accesses[0]).value;
      var (end, outs) := Run(d, accesses[1..]);
      (end, [out] + outs)
  }

  function RefRun(m: Unbounded, accesses: seq<Access>): (Unbounded, seq<Bytes>)
    decreases |accesses|
  {
    if accesses == [] || RefApply(m, accesses[0]).None? then (m, [])
    else
      var (w, out) := RefApply(m, accesses[0]).value;
      var (end, outs) := RefRun(w, accesses[1..]);
      (end, [out] + outs)
  }

  /**
    * Main law: a run reads what the unbounded memory gives, leaves it in agreement with a whole number of words, and costs
    * in all the difference between the costs of the last and the first size.
    */
  lemma {:induction false} RunAgrees(data: Bytes, m: Unbounded, accesses: seq<Access>)
    requires Agree(data, m) && |data| % WORD_SIZE == 0
    ensures var (d, outs) := Run(data, accesses);
            var (w, expected) := RefRun(m, accesses);
            && Agree(d, w) && outs == expected && |d| % WORD_SIZE == 0
            && Charged(data, accesses) == Cost(|d| / WORD_SIZE) - Cost(|data| / WORD_SIZE)
    decreases |accesses|
  {
    hide Agree, Apply, RefApply, Cost, Expansion, NextMultiple;
    if accesses != [] {
      var a := accesses[0];
      ApplyAgrees(data, m, a);
      if Apply(data, a).Some? {
        ResizeAgrees(data, m, End(a));
        ExpansionIsDifference(|data|, End(a));
        RunAgrees(Apply(data, a).value.0, RefApply(m, a).value.0, accesses[1..]);
      }
    }
  }

  /** From an empty memory the total cost is that of the final size. */
  lemma TotalCost(accesses: seq<Access>)
    ensures Charged([], accesses) == Cost(|Run([], accesses).0| / WORD_SIZE)
    ensures IsCost(|Run([], accesses).0| / 32, Charged([], accesses))
  {
    hide Charged, Run, IsCost;
    CostMeans(|Run([], accesses).0| / WORD_SIZE);
    assert Agree([], map[]);
    RunAgrees([], map[], accesses);
  }
}
