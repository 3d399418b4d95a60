/**
  * The block builder (`crates/blockchain/payload.rs`) against the validators of headers and blob gas
  * (`crates/core/types/block.rs`, `crates/blockchain/blockchain.rs`).
  */
module Payload {
  import opened Prelude
  import opened Headers
  import opened Transactions
  import opened Fees

  const INITIAL_BASE_FEE: nat := 1_000_000_000
  const GAS_LIMIT_BOUND_DIVISOR: nat := 1024
  const MIN_GAS_LIMIT: nat := 5000
  const DEFAULT_BUILDER_GAS_CEIL: nat := 30_000_000
  const TARGET_BLOB_GAS_PER_BLOCK: nat := 393216
  const GAS_PER_BLOB: nat := 0x2_0000
  const MAX_BLOB_NUMBER_PER_BLOCK: nat := 6
  const MAX_BLOB_GAS_PER_BLOCK: nat := MAX_BLOB_NUMBER_PER_BLOCK * GAS_PER_BLOB

  /** What the chain and foreign code provide: header hashes, roots of empty lists, the root after execution. */
  datatype Chain = Chain(
    hashOf: Header -> Bytes, cancunTime: Option<nat>, shanghaiTime: Option<nat>, defaultOmmersHash: Bytes,
    emptyTransactionsRoot: Bytes, emptyReceiptsRoot: Bytes, emptyBloom: Bytes)

  predicate CancunActive(c: Chain, timestamp: nat) {
    c.cancunTime.Some? && c.cancunTime.value <= timestamp
  }

  predicate ShanghaiActive(c: Chain, timestamp: nat) {
    c.shanghaiTime.Some? && c.shanghaiTime.value <= timestamp
  }

  function Or<T>(o: Option<T>, default: T): T {
    if o.Some? then o.value else default
  }

  // ---------------------------------------------------------------------------------------------
  // Validation
  // ---------------------------------------------------------------------------------------------

  /** What a check ends with; an overflow in 64 bits panics. */
  datatype Verdict = Valid | Invalid | Panics

  function Judge(ok: bool): Verdict {
    if ok then Valid else Invalid
  }

  /** Both must hold, and the second is looked at only when the first does. */
  function Then(a: Verdict, b: Verdict): Verdict {
    if a.Valid? then b else a
  }

  /** The excess blob gas that validator and builder both compute: what lies above three blobs carries over. */
  function ExcessBlobGas(excess: nat, used: nat): (r: Checked<nat>)
    ensures r.Overflow? <==> excess + used >= 0x1_0000_0000_0000_0000
    ensures r.Fine? && excess + used >= 393216 ==> r.value + 393216 == excess + used
    ensures r.Fine? && excess + used < 393216 ==> r.value == 0
  {
    if excess + used >= U64_LIMIT then Overflow
    else Fine(if excess + used < TARGET_BLOB_GAS_PER_BLOCK then 0 else excess + used - TARGET_BLOB_GAS_PER_BLOCK)
  }

  function ParentExcess(parent: Header): Checked<nat> {
    ExcessBlobGas(Or(parent.excessBlobGas, 0), Or(parent.blobGasUsed, 0))
  }

  function ValidateBlockHeader(c: Chain, h: Header, parent: Header): Verdict {
    if h.gasUsed > h.gasLimit then Invalid
    else
      var fee := BaseFee64(h.gasLimit, parent.gasLimit, parent.gasUsed, Or(parent.baseFeePerGas, INITIAL_BASE_FEE));
      if fee.Overflow? then Panics
      else if fee.value.None? then Invalid
      else if fee.value.value != Or(h.baseFeePerGas, INITIAL_BASE_FEE) || h.timestamp <= parent.timestamp then Invalid
      else if parent.number + 1 >= U64_LIMIT then Panics
      else
        Judge(
          && h.number == parent.number + 1
          && |h.extraData| <= 32
          && h.difficulty == 0
          && h.nonce == 0
          && h.ommersHash == c.defaultOmmersHash
          && h.parentHash == c.hashOf(parent))
  }

  function ValidateCancunFields(h: Header, parent: Header): Verdict {
    if h.excessBlobGas.None? || h.blobGasUsed.None? then Invalid
    else if ParentExcess(parent).Overflow? then Panics
    else Judge(h.excessBlobGas.value == ParentExcess(parent).value && h.parentBeaconBlockRoot.Some?)
  }

  function ValidateNoCancunFields(h: Header): Verdict {
    Judge(h.excessBlobGas.None? && h.blobGasUsed.None?)
  }

  /** The blobs of a transaction: one for each versioned hash. */
  function BlobCount(tx: Transaction): nat {
    if tx.BlobTx? then |tx.blobHashes| else 0
  }

  function Blobs(txs: seq<Transaction>): nat {
    if txs == [] then 0 else Blobs(txs[..|txs| - 1]) + BlobCount(txs[|txs| - 1])
  }

  /** Few enough blobs, and as much gas as the header says, if it says so. */
  predicate BlobGasOk(h: Header, txs: seq<Transaction>) {
    && Blobs(txs) <= MAX_BLOB_NUMBER_PER_BLOCK
    && (h.blobGasUsed.Some? ==> h.blobGasUsed.value == GAS_PER_BLOB * Blobs(txs))
  }

  /** The loop of `verify_blob_gas_usage`. */
  method VerifyBlobGasUsage(h: Header, txs: seq<Transaction>) returns (ok: bool)
    ensures ok <==> BlobGasOk(h, txs)
  {
    var gas, blobs := 0, 0;
    for i := 0 to |txs|
      invariant blobs == Blobs(txs[..i]) && gas == GAS_PER_BLOB * blobs
    {
      assert txs[..i + 1][..i] == txs[..i];
      if txs[i].BlobTx? {
        gas := gas + GAS_PER_BLOB * |txs[i].blobHashes|;
        blobs := blobs + |txs[i].blobHashes|;
      }
    }
    assert txs[..|txs|] == txs;
    ok := gas <= MAX_BLOB_GAS_PER_BLOCK && blobs <= MAX_BLOB_NUMBER_PER_BLOCK
          && !(h.blobGasUsed.Some? && h.blobGasUsed.value != gas);
  }

  function ValidateBlock(c: Chain, h: Header, txs: seq<Transaction>, parent: Header): Verdict {
    Then(
      ValidateBlockHeader(c, h, parent),
      if CancunActive(c, h.timestamp) then Then(ValidateCancunFields(h, parent), Judge(BlobGasOk(h, txs)))
      else ValidateNoCancunFields(h))
  }

  // ---------------------------------------------------------------------------------------------
  // Building
  // ---------------------------------------------------------------------------------------------

  datatype Args = Args(
    parent: Bytes, timestamp: nat, feeRecipient: Bytes, random: Bytes, withdrawalsRoot: Bytes, beaconRoot: Option<Bytes>)

  /** The builder's gas limit; `None` when the parent's is too small for the subtraction. */
  function GasLimit(parentGasLimit: nat, desired: nat): Option<nat> {
    if parentGasLimit < GAS_LIMIT_BOUND_DIVISOR then None
    else
      var delta := parentGasLimit / GAS_LIMIT_BOUND_DIVISOR - 1;
      var goal := if desired < MIN_GAS_LIMIT then desired else MIN_GAS_LIMIT;
      if parentGasLimit < goal then Some(if parentGasLimit + delta > goal then goal else parentGasLimit + delta)
      else if parentGasLimit > goal then Some(if parentGasLimit - delta < goal then goal else parentGasLimit - delta)
      else Some(parentGasLimit)
  }

  /** The assignments of `calc_gas_limit`. */
  method CalcGasLimit(parentGasLimit: nat, desired: nat) returns (r: Option<nat>)
    ensures r == GasLimit(parentGasLimit, desired)
  {
    if parentGasLimit / GAS_LIMIT_BOUND_DIVISOR == 0 {
      return None;
    }
    var delta := parentGasLimit / GAS_LIMIT_BOUND_DIVISOR - 1;
    var limit := parentGasLimit;
    var goal := if desired < MIN_GAS_LIMIT then desired else MIN_GAS_LIMIT;
    if limit < goal {
      limit := parentGasLimit + delta;
      if limit > goal {
        limit := goal;
      }
      return Some(limit);
    }
    if limit > goal {
      limit := parentGasLimit - delta;
      if limit < goal {
        limit := goal;
      }
    }
    r := Some(limit);
  }

  /**
    * The header of `build_payload`, or a panic; `stateRoot` is what executing withdrawals and the beacon root call gives.
    * The excess blob gas is computed even when it is not used.
    */
  function BuildHeader(c: Chain, args: Args, parent: Header, stateRoot: Bytes): Checked<Header> {
    var limit := GasLimit(parent.gasLimit, DEFAULT_BUILDER_GAS_CEIL);
    if limit.None? then Overflow
    else
      var fee := BaseFee64(limit.value, parent.gasLimit, parent.gasUsed, Or(parent.baseFeePerGas, 0));
      if fee.Overflow? || ParentExcess(parent).Overflow? then Overflow
      else
        Fine(Header(
          args.parent, c.defaultOmmersHash, args.feeRecipient, stateRoot, c.emptyTransactionsRoot, c.emptyReceiptsRoot,
          c.emptyBloom, 0,
          if parent.number + 1 < U64_LIMIT then parent.number + 1 else U64_LIMIT - 1,
          limit.value, 0, args.timestamp, [], args.random, 0,
          fee.value,
          if ShanghaiActive(c, args.timestamp) then Some(args.withdrawalsRoot) else None,
          Some(0),
          if CancunActive(c, args.timestamp) then Some(ParentExcess(parent).value) else None,
          args.beaconRoot))
  }

  /** The rules of a header on its parent, with the fee by what follows and the gas limit by how far it moves. */
  predicate HeaderRules(c: Chain, h: Header, parent: Header) {
    var step := if h.gasLimit > parent.gasLimit then h.gasLimit - parent.gasLimit else parent.gasLimit - h.gasLimit;
    && h.gasUsed <= h.gasLimit
    && h.gasLimit >= 5000 && 1024 * (step + 1) <= parent.gasLimit
    && Follows(parent.gasLimit, parent.gasUsed, Fee(parent), Fee(h))
    && h.timestamp > parent.timestamp
    && h.number == parent.number + 1
    && |h.extraData| <= 32
    && h.difficulty == 0 && h.nonce == 0
    && h.ommersHash == c.defaultOmmersHash
    && h.parentHash == c.hashOf(parent)
  }

  function Fee(h: Header): nat {
    Or(h.baseFeePerGas, 1_000_000_000)
  }

  /** Main law of validation: a header passes if and only if it keeps the rules and nothing overflows. */
  lemma ValidHeader(c: Chain, h: Header, parent: Header)
    requires Stored(parent)
    ensures ValidateBlockHeader(c, h, parent).Valid? <==>
            && HeaderRules(c, h, parent)
            && LimitFits(parent.gasLimit) && FeeFits(parent.gasLimit, parent.gasUsed, Fee(parent))
            && parent.number + 1 < 0x1_0000_0000_0000_0000
  {
    hide BaseFee64, BaseFee, CheckGasLimit, FeeFits, LimitFits, Follows;
    LimitStep(h.gasLimit, parent.gasLimit);
    BaseFeeExact(h.gasLimit, parent.gasLimit, parent.gasUsed, Fee(parent));
    BaseFeeFollows(h.gasLimit, parent.gasLimit, parent.gasUsed, Fee(parent), Fee(h));
  }

  /** A block adds: from Cancun on the blob fields with the excess carried over, before it none of them. */
  lemma ValidBlock(c: Chain, h: Header, txs: seq<Transaction>, parent: Header)
    ensures ValidateBlock(c, h, txs, parent).Valid? <==>
            && ValidateBlockHeader(c, h, parent).Valid?
            && (CancunActive(c, h.timestamp) ==>
                  var before := Or(parent.excessBlobGas, 0) + Or(parent.blobGasUsed, 0);
                  && before < 0x1_0000_0000_0000_0000
                  && h.excessBlobGas == Some(if before < 393216 then 0 else before - 393216)
                  && h.blobGasUsed == Some(131072 * Blobs(txs)) && Blobs(txs) <= 6
                  && h.parentBeaconBlockRoot.Some?)
            && (!CancunActive(c, h.timestamp) ==> h.excessBlobGas.None? && h.blobGasUsed.None?)
  {
    hide ValidateBlockHeader;
  }

  /** Blobs add up over the transactions. */
  lemma {:induction false} BlobsAdd(a: seq<Transaction>, b: seq<Transaction>)
    ensures Blobs(a + b) == Blobs(a) + Blobs(b)
    ensures forall tx: Transaction :: Blobs([tx]) == if tx.BlobTx? then |tx.blobHashes| else 0
    ensures Blobs([]) == 0
  {
    assert forall tx: Transaction :: [tx][..0] == [];
    if b == [] {
      assert a + b == a;
    } else {
      assert (a + b)[..|a + b| - 1] == a + b[..|b| - 1];
      BlobsAdd(a, b[..|b| - 1]);
    }
  }

  /** What each field of a built header is. */
  lemma BuiltHeader(c: Chain, args: Args, parent: Header, stateRoot: Bytes)
    requires Stored(parent) && BuildHeader(c, args, parent, stateRoot).Fine?
    ensures var h := BuildHeader(c, args, parent, stateRoot).value;
            && h.parentHash == args.parent && h.coinbase == args.feeRecipient && h.prevRandao == args.random
            && h.timestamp == args.timestamp && h.parentBeaconBlockRoot == args.beaconRoot
            && h.ommersHash == c.defaultOmmersHash && h.stateRoot == stateRoot
            && h.transactionsRoot == c.emptyTransactionsRoot && h.receiptsRoot == c.emptyReceiptsRoot
            && h.logsBloom == c.emptyBloom && h.extraData == []
            && h.difficulty == 0 == h.gasUsed && h.nonce == 0 && h.blobGasUsed == Some(0)
            && (parent.number < 0xFFFF_FFFF_FFFF_FFFF ==> h.number == parent.number + 1)
            && (h.withdrawalsRoot == if ShanghaiActive(c, args.timestamp) then Some(args.withdrawalsRoot) else None)
            && (h.excessBlobGas.Some? <==> CancunActive(c, args.timestamp))
            && GasLimit(parent.gasLimit, 30_000_000) == Some(h.gasLimit)
            && (forall fee: nat :: h.baseFeePerGas == Some(fee) <==>
                              && CheckGasLimit(h.gasLimit, parent.gasLimit)
                              && Follows(parent.gasLimit, parent.gasUsed, Or(parent.baseFeePerGas, 0), fee))
  {
    hide BaseFee64, BaseFee, CheckGasLimit, GasLimit, FeeFits, LimitFits, Follows;
    var limit := GasLimit(parent.gasLimit, DEFAULT_BUILDER_GAS_CEIL).value;
    BaseFeeExact(limit, parent.gasLimit, parent.gasUsed, Or(parent.baseFeePerGas, 0));
    forall fee: nat {
      BaseFeeFollows(limit, parent.gasLimit, parent.gasUsed, Or(parent.baseFeePerGas, 0), fee);
    }
  }

  /** The builder's gas limit passes the check exactly when the parent's is at least 4997. */
  lemma GasLimitPasses(parentGasLimit: nat)
    ensures parentGasLimit >= 4997 <==>
            var r := GasLimit(parentGasLimit, DEFAULT_BUILDER_GAS_CEIL);
            r.Some? && CheckGasLimit(r.value, parentGasLimit)
  {
    if parentGasLimit > 5000 {
      var delta := parentGasLimit / GAS_LIMIT_BOUND_DIVISOR - 1;
      assert parentGasLimit / GAS_LIMIT_ADJUSTMENT_FACTOR == delta + 1;
    }
  }

  /** A missing parent base fee is read as zero by the builder and as the initial fee by the validator. */
  lemma MissingFeeDiffers(gasLimit: nat, parentGasLimit: nat, parentGasUsed: nat)
    requires CheckGasLimit(gasLimit, parentGasLimit)
    ensures BaseFee(gasLimit, parentGasLimit, parentGasUsed, 0).Some?
    ensures BaseFee(gasLimit, parentGasLimit, parentGasUsed, 0).value <= 1
    ensures BaseFee(gasLimit, parentGasLimit, parentGasUsed, INITIAL_BASE_FEE).value > 1
  {
    hide Change;
    BaseFeeStep(gasLimit, parentGasLimit, parentGasUsed, INITIAL_BASE_FEE);
    ZeroChange(parentGasUsed, parentGasLimit / 2);
  }

  lemma ZeroChange(used: nat, target: nat)
    ensures target > 0 ==> forall delta: nat :: Change(0, delta, target) == 0
  {
  }

  /** A payload was built and passes all validation. */
  predicate Passes(c: Chain, args: Args, parent: Header, stateRoot: Bytes) {
    var h := BuildHeader(c, args, parent, stateRoot);
    h.Fine? && ValidateBlock(c, h.value, [], parent).Valid?
  }

  /** The fields of a stored header are 64-bit numbers. */
  predicate Stored(h: Header) {
    h.baseFeePerGas.Some? ==> h.baseFeePerGas.value < U64_LIMIT
  }

  /**
    * Main law: a built payload passes header validation, Cancun field validation and blob gas verification if and only if
    * Cancun is active, a beacon root is given, the timestamp is later than the parent's, the parent has a base fee, a gas
    * limit of at least 4997 and a successor's number, is stored under its own hash, and nothing overflows.
    */
  lemma BuiltPayloadIsValid(c: Chain, args: Args, parent: Header, stateRoot: Bytes)
    requires Stored(parent)
    ensures Passes(c, args, parent, stateRoot) <==>
            && CancunActive(c, args.timestamp)
            && args.beaconRoot.Some?
            && args.timestamp > parent.timestamp
            && parent.baseFeePerGas.Some?
            && parent.gasLimit >= 4997
            && args.parent == c.hashOf(parent)
            && parent.number + 1 < U64_LIMIT
            && LimitFits(parent.gasLimit)
            && FeeFits(parent.gasLimit, parent.gasUsed, parent.baseFeePerGas.value)
            && Or(parent.excessBlobGas, 0) + Or(parent.blobGasUsed, 0) < U64_LIMIT
  {
    hide BaseFee64, BaseFee, CheckGasLimit, GasLimit, FeeFits, LimitFits;
    GasLimitPasses(parent.gasLimit);
    var limit := GasLimit(parent.gasLimit, DEFAULT_BUILDER_GAS_CEIL);
    if limit.Some? {
      var fee := Or(parent.baseFeePerGas, 0);
      BaseFeeExact(limit.value, parent.gasLimit, parent.gasUsed, fee);
      FeeMeansChecked(limit.value, parent.gasLimit, parent.gasUsed, fee);
      if parent.baseFeePerGas.None? {
        BaseFeeExact(limit.value, parent.gasLimit, parent.gasUsed, INITIAL_BASE_FEE);
        FeeMeansChecked(limit.value, parent.gasLimit, parent.gasUsed, INITIAL_BASE_FEE);
        if CheckGasLimit(limit.value, parent.gasLimit) {
          MissingFeeDiffers(limit.value, parent.gasLimit, parent.gasUsed);
        }
      }
    }
  }

  /** When the builder itself panics. */
  lemma BuilderPanics(c: Chain, args: Args, parent: Header, stateRoot: Bytes)
    requires Stored(parent)
    ensures BuildHeader(c, args, parent, stateRoot).Overflow? <==>
            || parent.gasLimit < 1024
            || !LimitFits(parent.gasLimit)
            || (parent.gasLimit >= 4997 && !FeeFits(parent.gasLimit, parent.gasUsed, Or(parent.baseFeePerGas, 0)))
            || Or(parent.excessBlobGas, 0) + Or(parent.blobGasUsed, 0) >= U64_LIMIT
  {
    hide BaseFee64, BaseFee, CheckGasLimit, FeeFits, LimitFits;
    GasLimitPasses(parent.gasLimit);
    var limit := GasLimit(parent.gasLimit, DEFAULT_BUILDER_GAS_CEIL);
    if limit.Some? {
      BaseFeeExact(limit.value, parent.gasLimit, parent.gasUsed, Or(parent.baseFeePerGas, 0));
    }
  }

  /** A parent with a full block of 30 million gas and a fee of 2000 gwei: nothing can be built on it. */
  lemma OverflowingParent(c: Chain, args: Args, parent: Header, stateRoot: Bytes)
    requires parent.gasLimit == 30_000_000 == parent.gasUsed && parent.baseFeePerGas == Some(2_000_000_000_000)
    ensures BuildHeader(c, args, parent, stateRoot) == Overflow
  {
  }

  /** Before Cancun, and on a parent without a base fee, a payload is built that its own validator refuses. */
  lemma RefusedPayloads(c: Chain, args: Args, parent: Header, stateRoot: Bytes)
    requires parent.gasLimit == 30_000_000 && parent.gasUsed == 15_000_000
    requires parent.excessBlobGas.None? && parent.blobGasUsed.None?
    ensures !CancunActive(c, args.timestamp) && parent.baseFeePerGas == Some(7) ==>
              var h := BuildHeader(c, args, parent, stateRoot);
              h.Fine? && ValidateBlock(c, h.value, [], parent) != Valid
    ensures parent.baseFeePerGas.None? ==>
              var h := BuildHeader(c, args, parent, stateRoot);
              h.Fine? && h.value.baseFeePerGas == Some(0) && ValidateBlock(c, h.value, [], parent) == Invalid
  {
  }

  // ---------------------------------------------------------------------------------------------
  // The builder's gas limit
  // ---------------------------------------------------------------------------------------------

  /**
    * What the builder's limit is: on the way from the parent's limit to the goal, the lesser of 5000 and what is asked for, as
    * far as a validator allows and no further than the goal.
    */
  lemma GasLimitNearest(parentGasLimit: nat, desired: nat, limit: nat)
    ensures GasLimit(parentGasLimit, desired) == Some(limit) <==>
            var goal := if desired < 5000 then desired else 5000;
            var step := if limit > parentGasLimit then limit - parentGasLimit else parentGasLimit - limit;
            && parentGasLimit >= 1024 && 1024 * (step + 1) <= parentGasLimit
            && MovesTowards(parentGasLimit, goal, limit)
            && (limit == goal || 1024 * (step + 2) > parentGasLimit)
  {
  }

  /** The gas limit goes the way the builder is asked to go, or stays. */
  predicate MovesTowards(parentGasLimit: nat, desired: nat, limit: nat) {
    if desired < parentGasLimit then desired <= limit <= parentGasLimit else parentGasLimit <= limit <= desired
  }

  /**
    * The limit asked for is cut down to the minimum of 5000. The builder moves towards it if and only if it is not above
    * that minimum, or the parent's limit is not, or it lies at least one downward step below the parent's limit.
    */
  lemma GasLimitMoves(parentGasLimit: nat, desired: nat)
    requires parentGasLimit >= GAS_LIMIT_BOUND_DIVISOR
    ensures var r := GasLimit(parentGasLimit, desired);
            && r.Some?
            && (MovesTowards(parentGasLimit, desired, r.value) <==>
                  || desired <= MIN_GAS_LIMIT
                  || parentGasLimit <= MIN_GAS_LIMIT
                  || desired <= parentGasLimit - (parentGasLimit / GAS_LIMIT_BOUND_DIVISOR - 1))
  {
  }

  /** A parent of 20 million gas and a ceiling of 30 million: the builder goes down. */
  lemma GoesDown()
    ensures GasLimit(20_000_000, DEFAULT_BUILDER_GAS_CEIL) == Some(20_000_000 - 19_530)
    ensures !MovesTowards(20_000_000, DEFAULT_BUILDER_GAS_CEIL, 20_000_000 - 19_530)
  {
  }

  /** Every built block has a smaller limit than its parent, down to 5000, whatever the ceiling. */
  lemma GasLimitFalls(parentGasLimit: nat)
    requires parentGasLimit >= 2048
    ensures var r := GasLimit(parentGasLimit, DEFAULT_BUILDER_GAS_CEIL);
            && r.Some?
            && (parentGasLimit > MIN_GAS_LIMIT ==> MIN_GAS_LIMIT <= r.value < parentGasLimit)
            && (parentGasLimit <= MIN_GAS_LIMIT ==> parentGasLimit <= r.value <= MIN_GAS_LIMIT)
  {
  }

  /** The limit after `n` built blocks. */
  function LimitAfter(limit: nat, n: nat): nat
    decreases n
  {
    if n == 0 then limit
    else
      var next := GasLimit(limit, DEFAULT_BUILDER_GAS_CEIL);
      if next.None? then limit else LimitAfter(next.value, n - 1)
  }

  /** Along a chain of built blocks the limit is 5000 from some block on. */
  lemma {:induction false} LimitEnds(limit: nat, n: nat)
    requires limit > MIN_GAS_LIMIT && n >= limit - MIN_GAS_LIMIT
    ensures LimitAfter(limit, n) == MIN_GAS_LIMIT
    decreases n
  {
    hide GasLimit;
    GasLimitFalls(limit);
    var next := GasLimit(limit, DEFAULT_BUILDER_GAS_CEIL).value;
    if next > MIN_GAS_LIMIT {
      LimitEnds(next, n - 1);
    } else {
      LimitStays(n - 1);
    }
  }

  lemma {:induction false} LimitStays(n: nat)
    ensures LimitAfter(MIN_GAS_LIMIT, n) == MIN_GAS_LIMIT
  {
    if n > 0 {
      LimitStays(n - 1);
    }
  }

  // ---------------------------------------------------------------------------------------------
  // Chains
  // ---------------------------------------------------------------------------------------------

  predicate IsChain(c: Chain, hs: seq<Header>) {
    && hs != [] && (forall i | 0 <= i < |hs| :: Stored(hs[i]))
    && forall i | 0 < i < |hs| :: ValidateBlockHeader(c, hs[i], hs[i - 1]).Valid?
  }

  /**
    * Along every chain the fee of a header follows its parent's: it drops by at most an eighth a step, and from a parent
    * within its gas limit rises by at most an eighth or one, unless that parent filled an odd gas limit at a large fee.
    */
  lemma ChainFeeSteps(c: Chain, hs: seq<Header>, i: nat)
    requires IsChain(c, hs) && 0 < i < |hs|
    ensures Follows(hs[i - 1].gasLimit, hs[i - 1].gasUsed, Fee(hs[i - 1]), Fee(hs[i]))
    ensures Fee(hs[i]) >= Fee(hs[i - 1]) - Fee(hs[i - 1]) / 8
    ensures var p := hs[i - 1];
            p.gasUsed <= p.gasLimit ==>
              (Fee(hs[i]) <= Fee(p) + (if Fee(p) / 8 > 1 then Fee(p) / 8 else 1) <==>
                 p.gasLimit % 2 == 0 || p.gasUsed < p.gasLimit || Fee(p) % 8 + Fee(p) / (p.gasLimit / 2) < 8)
    ensures Fee(hs[i - 1]) >= 7 ==> Fee(hs[i]) >= 7
  {
    hide BaseFee64;
    var h, p := hs[i], hs[i - 1];
    assert ValidateBlockHeader(c, h, p).Valid?;
    assert Stored(p);
    LargeLimit(h.gasLimit, p.gasLimit, p.gasUsed, Fee(p));
    FeeStep64(h.gasLimit, p.gasLimit, p.gasUsed, Fee(p));
  }

  lemma LargeLimit(gasLimit: nat, parentGasLimit: nat, parentGasUsed: nat, parentFee: nat)
    requires var r := BaseFee64(gasLimit, parentGasLimit, parentGasUsed, parentFee); r.Fine? && r.value.Some?
    ensures parentGasLimit / 2 > 0
  {
    hide Change;
    TargetIsPositive(gasLimit, parentGasLimit);
  }

  lemma {:induction false} ChainFeeFloor(c: Chain, hs: seq<Header>, i: nat, j: nat)
    requires IsChain(c, hs) && i <= j < |hs| && Fee(hs[i]) >= 7
    ensures Fee(hs[j]) >= 7
    decreases j - i
  {
    hide ValidateBlockHeader;
    if i < j {
      ChainFeeFloor(c, hs, i, j - 1);
      ChainFeeSteps(c, hs, j);
    }
  }
}
