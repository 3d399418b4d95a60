/**
  * EVM bytecode (`crates/evm_mlir/src/program.rs`): the parser that fixes instruction boundaries and jump destinations,
  * the printer, and the code size.
  */
module Program {
  import opened Prelude
  import opened BigEndian

  const JUMPDEST: byte := 0x5B
  const PC: byte := 0x58
  const PUSH0: byte := 0x5F
  const INVALID: byte := 0xFE

  /** Operations without an operand are told apart by their opcode. */
  datatype Operation =
    | Plain(opcode: byte)
    | Pc(pc: nat)
    | Jumpdest(pc: nat)
    | Push(n: nat, x: nat)
    | Dup(n: nat)
    | Swap(n: nat)
    | Log(n: nat)
    | Invalid

  /** The bytes that `Opcode::try_from` accepts; 0xFE is not among them. */
  predicate Known(b: byte) {
    || b <= 0x0B || 0x10 <= b <= 0x1D || b == 0x20 || 0x30 <= b <= 0x4A || 0x50 <= b <= 0xA4
    || 0xF0 <= b <= 0xF5 || b == 0xFA || b == 0xFD || b == 0xFF
  }

  predicate IsPush(b: byte) {
    0x60 <= b <= 0x7F
  }

  /** The number of data bytes behind an instruction byte. */
  function DataSize(b: byte): nat {
    if IsPush(b) then b - PUSH0 else 0
  }

  function Min(a: nat, b: nat): nat {
    if a < b then a else b
  }

  /** `parse_operation`: the operation at `pc` and the next `pc`, which may lie behind the end. */
  function ParseOperation(code: Bytes, pc: nat): Option<(Operation, nat)>
    requires pc < |code|
  {
    var b := code[pc];
    if !Known(b) then None
    else if IsPush(b) then
      var n := b - PUSH0;
      Some((Push(n, FromBE(code[pc + 1..Min(|code|, pc + 1 + n)])), pc + 1 + n))
    else if b == PC then Some((Pc(pc), pc + 1))
    else if b == JUMPDEST then Some((Jumpdest(pc), pc + 1))
    else if 0x80 <= b <= 0x8F then Some((Dup(b - 0x7F), pc + 1))
    else if 0x90 <= b <= 0x9F then Some((Swap(b - 0x8F), pc + 1))
    else if 0xA0 <= b <= 0xA4 then Some((Log(b - 0xA0), pc + 1))
    else Some((Plain(b), pc + 1))
  }

  /** The operations of `code` from `pc` on; an unknown byte is an invalid operation of its own. */
  function Parse(code: Bytes, pc: nat): seq<Operation>
    decreases |code| - pc
  {
    if pc >= |code| then []
    else
      match ParseOperation(code, pc)
      case None => [Invalid] + Parse(code, pc + 1)
      case Some((op, next)) => if next > pc then [op] + Parse(code, next) else []
  }

  function PrintOne(op: Operation): (r: Bytes)
    requires Printable(op)
  {
    match op
    case Plain(b) => [b]
    case Pc(_) => [PC]
    case Jumpdest(_) => [JUMPDEST]
    case Push(n, x) => [PUSH0 + n] + FixedBE(x, n)
    case Dup(n) => [0x7F + n]
    case Swap(n) => [0x8F + n]
    case Log(n) => [0xA0 + n]
    case Invalid => [INVALID]
  }

  /** Operands fit their instruction. */
  predicate Printable(op: Operation) {
    match op
    case Push(n, x) => 1 <= n <= 32 && x < Pow256(n)
    case Dup(n) => 1 <= n <= 16
    case Swap(n) => 1 <= n <= 16
    case Log(n) => n <= 4
    case _ => true
  }

  function Print(ops: seq<Operation>): Bytes
    requires forall op | op in ops :: Printable(op)
  {
    if ops == [] then [] else PrintOne(ops[0]) + Print(ops[1..])
  }

  function CodeSize(ops: seq<Operation>): nat {
    if ops == [] then 0 else (match ops[0] case Push(n, _) => n + 1 case _ => 1) + CodeSize(ops[1..])
  }

  // ---------------------------------------------------------------------------------------------
  // Single instructions
  // ---------------------------------------------------------------------------------------------

  predicate IsPlain(b: byte) {
    Known(b) && !IsPush(b) && b != PC && b != JUMPDEST && !(0x80 <= b <= 0xA4)
  }

  /** The operation can stand at `pc`. */
  predicate FitsAt(op: Operation, pc: nat) {
    && Printable(op)
    && (op.Plain? ==> IsPlain(op.opcode))
    && (op.Pc? || op.Jumpdest? ==> op.pc == pc)
  }

  lemma PushFits(s: Bytes, n: nat)
    requires |s| <= n
    ensures FromBE(s) < Pow256(n)
  {
    FromBound(s);
    PowGrows(|s|, n);
  }

  /** A parsed operation fits where it stands and prints as many bytes as were passed over. */
  lemma ParsedFits(code: Bytes, pc: nat)
    requires pc < |code|
    ensures match ParseOperation(code, pc)
            case None => true
            case Some((op, next)) =>
              FitsAt(op, pc) && op != Invalid && next == pc + |PrintOne(op)| == pc + 1 + DataSize(code[pc])
  {
    hide FromBE, Pow256;
    if Known(code[pc]) && IsPush(code[pc]) {
      var n := code[pc] - PUSH0;
      PushFits(code[pc + 1..Min(|code|, pc + 1 + n)], n);
    }
  }

  /**
    * A push reads the bytes behind it as a big-endian number, the low end being the last byte there is: a push that the end
    * of the code cuts off keeps its size, but no zeros are added to its data.
    */
  lemma PushReads(code: Bytes, pc: nat, n: nat)
    requires pc < |code| && 1 <= n <= 32 && code[pc] == 0x5F + n
    ensures var there := if pc + 1 + n <= |code| then n else |code| - pc - 1;
            exists x: nat ::
              && ParseOperation(code, pc) == Some((Push(n, x), pc + 1 + n))
              && x < Pow256(there)
              && FixedBE(x, there) == code[pc + 1..pc + 1 + there]
  {
    hide FromBE, FixedBE, Pow256;
    var there := if pc + 1 + n <= |code| then n else |code| - pc - 1;
    var data := code[pc + 1..pc + 1 + there];
    FromBound(data);
    FixedFrom(data);
    assert ParseOperation(code, pc) == Some((Push(n, FromBE(data)), pc + 1 + n));
  }

  /** A two-byte push with one byte of data. */
  lemma CutOffPush()
    ensures Parse([0x61, 0x01], 0) == [Push(2, 1)]
  {
    assert FromBE([0x01]) == 1 by { assert [0x01][..0] == []; }
    assert [0x61, 0x01][1..2] == [0x01];
  }

  /** What a byte stands for, by its number; all bytes but those that are not assigned stand for an operation. */
  lemma Opcodes(code: Bytes, pc: nat)
    requires pc < |code|
    ensures var b, op := code[pc], ParseOperation(code, pc);
            && (b == 0x58 ==> op == Some((Pc(pc), pc + 1)))
            && (b == 0x5B ==> op == Some((Jumpdest(pc), pc + 1)))
            && (0x80 <= b <= 0x8F ==> op == Some((Dup(b - 0x80 + 1), pc + 1)))
            && (0x90 <= b <= 0x9F ==> op == Some((Swap(b - 0x90 + 1), pc + 1)))
            && (0xA0 <= b <= 0xA4 ==> op == Some((Log(b - 0xA0), pc + 1)))
            && (b <= 0x5F && b != 0x58 && b != 0x5B && op.Some? ==> op == Some((Plain(b), pc + 1)))
            && (0xA5 <= b && op.Some? ==> op == Some((Plain(b), pc + 1)))
    ensures PrintOne(Invalid) == [0xFE]
    ensures var b := code[pc];
            ParseOperation(code, pc).None? <==>
            || 0x0C <= b <= 0x0F || b == 0x1E || b == 0x1F || 0x21 <= b <= 0x2F || 0x4B <= b <= 0x4F
            || 0xA5 <= b <= 0xEF || 0xF6 <= b <= 0xF9 || b == 0xFB || b == 0xFC || b == 0xFE
  {
    hide FromBE;
  }

  /** A printed operation parses back, whatever stands around it. */
  lemma PrintedParses(before: Bytes, op: Operation, after: Bytes)
    requires FitsAt(op, |before|)
    ensures var code := before + PrintOne(op) + after;
            ParseOperation(code, |before|) ==
            if op.Invalid? then None else Some((op, |before| + |PrintOne(op)|))
  {
    hide FromBE, FixedBE, Pow256;
    var pc := |before|;
    var code := before + PrintOne(op) + after;
    assert code[pc] == PrintOne(op)[0];
    if op.Push? {
      FromFixed(op.x, op.n);
      assert code[pc + 1..pc + 1 + op.n] == FixedBE(op.x, op.n);
    }
  }

  // ---------------------------------------------------------------------------------------------
  // Whole programs
  // ---------------------------------------------------------------------------------------------

  lemma {:induction false} ParsePrintable(code: Bytes, pc: nat)
    ensures forall op | op in Parse(code, pc) :: Printable(op)
    decreases |code| - pc
  {
    hide ParseOperation;
    if pc < |code| {
      ParsedFits(code, pc);
      match ParseOperation(code, pc)
      case None => ParsePrintable(code, pc + 1);
      case Some((op, next)) => ParsePrintable(code, next);
    }
  }

  /** The operation at the front and where the rest starts. */
  lemma ParseFront(code: Bytes, pc: nat) returns (op: Operation, next: nat)
    requires pc < |code|
    ensures Parse(code, pc) == [op] + Parse(code, next)
    ensures FitsAt(op, pc) && next == pc + |PrintOne(op)|
    ensures ParseOperation(code, pc) == if op.Invalid? then None else Some((op, next))
  {
    hide ParseOperation;
    ParsedFits(code, pc);
    match ParseOperation(code, pc)
    case None => op, next := Invalid, pc + 1;
    case Some((o, n)) => op, next := o, n;
  }

  lemma PrintFront(op: Operation, ops: seq<Operation>)
    requires Printable(op) && forall x | x in ops :: Printable(x)
    ensures forall x | x in [op] + ops :: Printable(x)
    ensures Print([op] + ops) == PrintOne(op) + Print(ops)
  {
    hide PrintOne;
    assert ([op] + ops)[1..] == ops;
  }

  lemma {:induction false} Reparse(code: Bytes, pc: nat, before: Bytes)
    requires |before| == pc
    ensures forall op | op in Parse(code, pc) :: Printable(op)
    ensures Parse(before + Print(Parse(code, pc)), pc) == Parse(code, pc)
    decreases |code| - pc
  {
    hide PrintOne, ParseOperation, FitsAt, Printable;
    ParsePrintable(code, pc);
    if pc >= |code| {
      assert before + [] == before;
    } else {
      var op, next := ParseFront(code, pc);
      ParsePrintable(code, next);
      var rest := Parse(code, next);
      FitsIsPrintable(op, pc);
      PrintFront(op, rest);
      var code2 := before + PrintOne(op) + Print(rest);
      assert before + (PrintOne(op) + Print(rest)) == code2;
      assert before + PrintOne(op) + Print(rest) == (before + PrintOne(op)) + Print(rest);
      Reparse(code, next, before + PrintOne(op));
      PrintedParses(before, op, Print(rest));
      assert op in Parse(code, pc);
    }
  }

  lemma FitsIsPrintable(op: Operation, pc: nat)
    requires FitsAt(op, pc)
    ensures Printable(op) && PrintOne(op) != [] && (op.Invalid? ==> |PrintOne(op)| == 1)
  {
  }

  /** Main law: parsing, printing and parsing again gives the same program. */
  lemma ParsePrintParse(code: Bytes)
    ensures forall op | op in Parse(code, 0) :: Printable(op)
    ensures Parse(Print(Parse(code, 0)), 0) == Parse(code, 0)
  {
    Reparse(code, 0, []);
    assert [] + Print(Parse(code, 0)) == Print(Parse(code, 0));
  }

  lemma {:induction false} SizeIsPrintedLength(ops: seq<Operation>)
    requires forall op | op in ops :: Printable(op)
    ensures CodeSize(ops) == |Print(ops)|
  {
    hide FixedBE, Pow256;
    if ops != [] {
      SizeIsPrintedLength(ops[1..]);
      assert ops[0] in ops;
    }
  }

  /** Every instruction byte is known or 0xFE, and the last push has all its data. */
  predicate Regular(code: Bytes, pc: nat)
    decreases |code| - pc
  {
    if pc >= |code| then pc == |code|
    else (Known(code[pc]) || code[pc] == INVALID) && Regular(code, pc + 1 + DataSize(code[pc]))
  }

  /** An instruction prints back exactly when it is known or 0xFE and its data is complete. */
  lemma OnePrintsBack(code: Bytes, pc: nat, op: Operation)
    requires pc < |code| && FitsAt(op, pc)
    requires ParseOperation(code, pc) == if op.Invalid? then None else Some((op, pc + |PrintOne(op)|))
    ensures pc + |PrintOne(op)| <= |code| ==>
              (PrintOne(op) == code[pc..pc + |PrintOne(op)|] <==> Known(code[pc]) || code[pc] == INVALID)
    ensures op.Invalid? <==> !Known(code[pc])
    ensures |PrintOne(op)| == 1 + DataSize(code[pc])
  {
    hide FromBE, FixedBE, Pow256;
    ParsedFits(code, pc);
    if op.Push? {
      var n := op.n;
      if pc + 1 + n <= |code| {
        FixedFrom(code[pc + 1..pc + 1 + n]);
        assert code[pc..pc + 1 + n] == [code[pc]] + code[pc + 1..pc + 1 + n];
      }
    } else {
      assert code[pc..pc + 1] == [code[pc]];
    }
  }

  /** Main law of printing: a program prints back to its bytecode if and only if the bytecode is regular. */
  lemma {:induction false} PrintsBack(code: Bytes, pc: nat)
    requires pc <= |code|
    ensures forall op | op in Parse(code, pc) :: Printable(op)
    ensures Print(Parse(code, pc)) == code[pc..] <==> Regular(code, pc)
    decreases |code| - pc
  {
    hide PrintOne, ParseOperation, FitsAt, Printable, Known, IsPush;
    ParsePrintable(code, pc);
    if pc < |code| {
      var op, next := ParseFront(code, pc);
      ParsePrintable(code, next);
      var rest := Parse(code, next);
      FitsIsPrintable(op, pc);
      PrintFront(op, rest);
      OnePrintsBack(code, pc, op);
      if next <= |code| {
        PrintsBack(code, next);
        SameSplit(PrintOne(op), Print(rest), code[pc..next], code[next..]);
        assert code[pc..] == code[pc..next] + code[next..];
      }
    }
  }

  lemma SameSplit(a: Bytes, b: Bytes, c: Bytes, d: Bytes)
    requires |a| == |c|
    ensures a + b == c + d <==> a == c && b == d
  {
    if a + b == c + d {
      assert (a + b)[..|a|] == a && (c + d)[..|a|] == c && (a + b)[|a|..] == b && (c + d)[|a|..] == d;
    }
  }

  // ---------------------------------------------------------------------------------------------
  // Jump destinations
  // ---------------------------------------------------------------------------------------------

  /** The valid jump destinations from `i` on, as section 9.4.3 of the Yellow Paper defines them. */
  function ValidDestinations(code: Bytes, i: nat): set<nat>
    decreases |code| - i
  {
    if i >= |code| then {}
    else
      var next := i + 1 + DataSize(code[i]);
      (if code[i] == JUMPDEST then {i} else {}) + ValidDestinations(code, next)
  }

  /** The program counters kept in parsed jump destinations. */
  function JumpTargets(ops: seq<Operation>): set<nat> {
    if ops == [] then {} else (if ops[0].Jumpdest? then {ops[0].pc} else {}) + JumpTargets(ops[1..])
  }

  /** Main law of parsing: the jump destinations of the program are the valid ones, also behind unknown bytes. */
  lemma {:induction false} TargetsAreValid(code: Bytes, pc: nat)
    ensures JumpTargets(Parse(code, pc)) == ValidDestinations(code, pc)
    decreases |code| - pc
  {
    hide PrintOne, FitsAt, FromBE;
    if pc < |code| {
      var op, next := ParseFront(code, pc);
      OnePrintsBack(code, pc, op);
      TargetsAreValid(code, next);
      assert ([op] + Parse(code, next))[1..] == Parse(code, next);
    }
  }

  // ---------------------------------------------------------------------------------------------
  // The loops
  // ---------------------------------------------------------------------------------------------

  method FromBytecode(code: Bytes) returns (operations: seq<Operation>, codeSize: nat)
    ensures operations == Parse(code, 0)
    ensures codeSize == CodeSize(operations)
    ensures JumpTargets(operations) == ValidDestinations(code, 0)
  {
    hide ParseOperation;
    operations := [];
    var pc := 0;
    while pc < |code|
      invariant Parse(code, 0) == operations + Parse(code, pc)
      decreases |code| - pc
    {
      ghost var op, next := ParseFront(code, pc);
      FitsIsPrintable(op, pc);
      match ParseOperation(code, pc) {
        case Some((o, n)) =>
          operations := operations + [o];
          pc := n;
        case None =>
          operations := operations + [Invalid];
          pc := pc + 1;
      }
    }
    codeSize := SumSizes(operations);
    TargetsAreValid(code, 0);
  }

  method SumSizes(ops: seq<Operation>) returns (size: nat)
    ensures size == CodeSize(ops)
  {
    size := 0;
    for i := 0 to |ops|
      invariant size + CodeSize(ops[i..]) == CodeSize(ops)
    {
      assert ops[i..][1..] == ops[i + 1..];
      size := size + (match ops[i] case Push(n, _) => n + 1 case _ => 1);
    }
  }

  /** The unknown instruction bytes of `code` from `i` on. */
  function UnknownBytes(code: Bytes, i: nat): seq<byte>
    decreases |code| - i
  {
    if i >= |code| then []
    else (if Known(code[i]) then [] else [code[i]]) + UnknownBytes(code, i + 1 + DataSize(code[i]))
  }

  /** Where parsing goes on, and whether it fails, depends on the instruction byte only. */
  lemma UnknownFront(code: Bytes, pc: nat)
    requires pc < |code|
    ensures ParseOperation(code, pc).None? <==> !Known(code[pc])
    ensures UnknownBytes(code, pc) ==
            match ParseOperation(code, pc)
            case None => [code[pc]] + UnknownBytes(code, pc + 1)
            case Some((_, next)) => UnknownBytes(code, next)
  {
    hide FromBE;
  }

  /** Fails with all unknown instruction bytes, and without any succeeds with the same program. */
  method FromBytecodeChecked(code: Bytes) returns (operations: seq<Operation>, failed: seq<byte>)
    ensures failed == UnknownBytes(code, 0)
    ensures failed == [] <==> Invalid !in Parse(code, 0)
    ensures failed == [] ==> operations == Parse(code, 0)
  {
    hide ParseOperation, PrintOne, FitsAt, UnknownBytes;
    operations, failed := [], [];
    var pc := 0;
    ghost var done := [];
    assert [] + UnknownBytes(code, 0) == UnknownBytes(code, 0);
    while pc < |code|
      invariant Parse(code, 0) == done + Parse(code, pc)
      invariant UnknownBytes(code, 0) == failed + UnknownBytes(code, pc)
      invariant failed == [] ==> done == operations && Invalid !in done
      invariant failed != [] ==> Invalid in done
      decreases |code| - pc
    {
      ghost var op, next := ParseFront(code, pc);
      FitsIsPrintable(op, pc);
      UnknownFront(code, pc);
      assert done + ([op] + Parse(code, next)) == (done + [op]) + Parse(code, next);
      done := done + [op];
      match ParseOperation(code, pc) {
        case Some((o, n)) =>
          operations := operations + [o];
          pc := n;
        case None =>
          assert failed + ([code[pc]] + UnknownBytes(code, pc + 1)) == (failed + [code[pc]]) + UnknownBytes(code, pc + 1);
          failed := failed + [code[pc]];
          pc := pc + 1;
      }
    }
    NoneBeyond(code, pc);
  }

  lemma NoneBeyond(code: Bytes, pc: nat)
    requires pc >= |code|
    ensures UnknownBytes(code, pc) == []
  {
  }
}
