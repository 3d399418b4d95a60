/**
  * Which accounts a run creates and destroys: reverted calls leave no trace, so that a run is the list of its operations that
  * were kept, and the marks of an account can be read off that list.
  */
module JournalMarks {
  import opened Prelude
  import opened Journal
  import opened JournalCommit
  import opened JournalCode

  /** The operations that were not reverted, in order. */
  function Kept(ops: seq<Op>): seq<Op>
    decreases ops
  {
    if ops == [] then [] else KeptOp(ops[0]) + Kept(ops[1..])
  }

  function KeptOp(op: Op): seq<Op>
    decreases op
  {
    match op
    case Call(body, success) => if success then Kept(body) else []
    case _ => [op]
  }

  lemma {:induction false} KeptIsFlat(ops: seq<Op>)
    ensures forall op | op in Kept(ops) :: !op.Call?
    decreases ops, 0
  {
    if ops != [] {
      if ops[0].Call? && ops[0].success {
        KeptIsFlat(ops[0].body);
      }
      KeptIsFlat(ops[1..]);
    }
  }

  lemma {:induction false} RunConcat(e: Env, db: Db, r: Ref, xs: seq<Op>, ys: seq<Op>)
    ensures RefExecute(e, db, r, xs + ys) ==
            var s := RefExecute(e, db, r, xs); if s.None? then None else RefExecute(e, db, s.value, ys)
    decreases |xs|
  {
    hide RefExecuteOp;
    if xs == [] {
      assert xs + ys == ys;
    } else {
      assert (xs + ys)[1..] == xs[1..] + ys;
      var s := RefExecuteOp(e, db, r, xs[0]);
      if s.Some? {
        RunConcat(e, db, s.value, xs[1..], ys);
      }
    }
  }

  /** Main law of reverts: a run that succeeds does what its kept operations alone do. */
  lemma {:induction false} KeptRun(e: Env, db: Db, r: Ref, ops: seq<Op>)
    requires RefExecute(e, db, r, ops).Some?
    ensures RefExecute(e, db, r, Kept(ops)) == RefExecute(e, db, r, ops)
    decreases ops, 0
  {
    hide RefExecuteOp, KeptOp;
    if ops != [] {
      var s := RefExecuteOp(e, db, r, ops[0]);
      KeptOpRun(e, db, r, ops[0]);
      KeptRun(e, db, s.value, ops[1..]);
      RunConcat(e, db, r, KeptOp(ops[0]), Kept(ops[1..]));
    }
  }

  lemma {:induction false} KeptOpRun(e: Env, db: Db, r: Ref, op: Op)
    requires RefExecuteOp(e, db, r, op).Some?
    ensures RefExecute(e, db, r, KeptOp(op)) == RefExecuteOp(e, db, r, op)
    decreases op, 0
  {
    match op
    case Call(body, success) =>
      KeptRun(e, db, r, body);
    case _ =>
      assert [op][1..] == [];
  }

  // ---------------------------------------------------------------------------------------------
  // Marks
  // ---------------------------------------------------------------------------------------------

  predicate Creates(op: Op, a: Address) {
    (op.NewAccount? || op.NewContract?) && op.a == a
  }

  predicate Destroys(op: Op, a: Address) {
    op.SetStatus? && op.a == a && SelfDestructed in op.status
  }

  /** The address is known, and has the mark. */
  predicate Has(r: Ref, a: Address, f: Flag) {
    a in r.seen && (a, f) in r.marks
  }

  /** A mark stays as long as the account is not created again. */
  lemma {:induction false} MarkStays(e: Env, db: Db, r: Ref, ops: seq<Op>, a: Address, f: Flag)
    requires forall op | op in ops :: !op.Call? && !Creates(op, a)
    requires Has(r, a, f) && f != Cold && RefExecute(e, db, r, ops).Some?
    ensures Has(RefExecute(e, db, r, ops).value, a, f)
    decreases |ops|
  {
    hide RefApply, Has;
    if ops != [] {
      assert ops[0] in ops;
      StaysOnce(e, db, r, ops[0], a, f);
      MarkStays(e, db, RefApply(e, db, r, ops[0]).value, ops[1..], a, f);
    }
  }

  lemma StaysOnce(e: Env, db: Db, r: Ref, op: Op, a: Address, f: Flag)
    requires !op.Call? && !Creates(op, a) && Has(r, a, f) && f != Cold && RefApply(e, db, r, op).Some?
    ensures Has(RefApply(e, db, r, op).value, a, f)
  {
  }

  /** An account is there once it was created. */
  lemma {:induction false} StaysThere(e: Env, db: Db, r: Ref, ops: seq<Op>, a: Address)
    requires forall op | op in ops :: !op.Call?
    requires a in r.infos && RefExecute(e, db, r, ops).Some?
    ensures a in RefExecute(e, db, r, ops).value.infos
    decreases |ops|
  {
    hide RefApply;
    if ops != [] {
      assert ops[0] in ops;
      ThereOnce(e, db, r, ops[0], a);
      StaysThere(e, db, RefApply(e, db, r, ops[0]).value, ops[1..], a);
    }
  }

  lemma ThereOnce(e: Env, db: Db, r: Ref, op: Op, a: Address)
    requires !op.Call? && a in r.infos && RefApply(e, db, r, op).Some?
    ensures a in RefApply(e, db, r, op).value.infos
  {
  }

  /**
    * Main law of destruction: if among the kept operations an account is created, later destroyed, and not created again
    * after the creation, it vanishes.
    */
  lemma CreatedThenDestroyed(e: Env, db: Db, r: Ref, ops: seq<Op>, a: Address, i: nat, k: nat)
    requires RefExecute(e, db, r, ops).Some?
    requires var ks := Kept(ops);
             && i < k < |ks| && Creates(ks[i], a) && Destroys(ks[k], a)
             && forall m | i < m < |ks| :: !Creates(ks[m], a)
    ensures RefVanishes(RefExecute(e, db, r, ops).value, a)
  {
    hide RefApply, Kept, Has;
    KeptRun(e, db, r, ops);
    KeptIsFlat(ops);
    var ks := Kept(ops);
    var before, between, after := ks[..i], ks[i + 1..k], ks[k + 1..];
    assert ks == before + ([ks[i]] + (between + ([ks[k]] + after)));
    RunConcat(e, db, r, before, [ks[i]] + (between + ([ks[k]] + after)));
    var r0 := RefExecute(e, db, r, before).value;
    var r1 := AfterOne(e, db, r0, ks[i], between + ([ks[k]] + after));
    CreatedHas(e, db, r0, ks[i], a);
    RunConcat(e, db, r1, between, [ks[k]] + after);
    assert forall op | op in between :: op in ks[i + 1..] && op in ks;
    assert forall op | op in after :: op in ks[i + 1..] && op in ks;
    MarkStays(e, db, r1, between, a, Created);
    StaysThere(e, db, r1, between, a);
    var r2 := RefExecute(e, db, r1, between).value;
    var r3 := AfterOne(e, db, r2, ks[k], after);
    StaysOnce(e, db, r2, ks[k], a, Created);
    DestroyedHas(e, db, r2, ks[k], a);
    MarkStays(e, db, r3, after, a, Created);
    MarkStays(e, db, r3, after, a, SelfDestructed);
    HasBoth(RefExecute(e, db, r3, after).value, a);
  }

  lemma AfterOne(e: Env, db: Db, r: Ref, op: Op, rest: seq<Op>) returns (s: Ref)
    requires !op.Call? && RefExecute(e, db, r, [op] + rest).Some?
    ensures RefApply(e, db, r, op) == Some(s) && RefExecute(e, db, r, [op] + rest) == RefExecute(e, db, s, rest)
  {
    hide RefApply;
    assert ([op] + rest)[1..] == rest;
    s := RefApply(e, db, r, op).value;
  }

  lemma CreatedHas(e: Env, db: Db, r: Ref, op: Op, a: Address)
    requires Creates(op, a) && RefApply(e, db, r, op).Some?
    ensures Has(RefApply(e, db, r, op).value, a, Created) && a in RefApply(e, db, r, op).value.infos
  {
  }

  lemma DestroyedHas(e: Env, db: Db, r: Ref, op: Op, a: Address)
    requires Destroys(op, a) && a in r.infos && RefApply(e, db, r, op).Some?
    ensures Has(RefApply(e, db, r, op).value, a, SelfDestructed)
  {
  }

  lemma HasBoth(r: Ref, a: Address)
    requires Has(r, a, Created) && Has(r, a, SelfDestructed)
    ensures RefVanishes(r, a)
  {
  }

  /** Conversely: an account vanishes only if a kept operation destroys it after its last creation. */
  lemma {:induction false} VanishesOnlyDestroyed(e: Env, db: Db, ops: seq<Op>, a: Address)
    requires RefExecute(e, db, EMPTY_REF, ops).Some? && RefVanishes(RefExecute(e, db, EMPTY_REF, ops).value, a)
    ensures var ks := Kept(ops);
            exists k | 0 <= k < |ks| :: Destroys(ks[k], a) && forall m | k < m < |ks| :: !Creates(ks[m], a)
  {
    hide Kept;
    KeptRun(e, db, EMPTY_REF, ops);
    KeptIsFlat(ops);
    var k := LastDestroyed(e, db, EMPTY_REF, Kept(ops), a);
  }

  lemma {:induction false} LastDestroyed(e: Env, db: Db, r: Ref, ks: seq<Op>, a: Address) returns (k: nat)
    requires forall op | op in ks :: !op.Call?
    requires (a, SelfDestructed) !in r.marks && RefExecute(e, db, r, ks).Some?
    requires (a, SelfDestructed) in RefExecute(e, db, r, ks).value.marks
    ensures k < |ks| && Destroys(ks[k], a) && forall m | k < m < |ks| :: !Creates(ks[m], a)
    decreases |ks|
  {
    hide RefApply;
    if ks == [] {
      assert false;
    } else {
      var n := |ks| - 1;
      var front, last := ks[..n], ks[n];
      assert ks == front + [last];
      RunConcat(e, db, r, front, [last]);
      var s := RefExecute(e, db, r, front).value;
      var t := AfterOne(e, db, s, last, []);
      assert [last] + [] == [last];
      MarkFrom(e, db, s, last, a);
      if Destroys(last, a) {
        k := n;
      } else {
        k := LastDestroyed(e, db, r, front, a);
      }
    }
  }

  lemma MarkFrom(e: Env, db: Db, r: Ref, op: Op, a: Address)
    requires !op.Call? && RefApply(e, db, r, op).Some? && (a, SelfDestructed) in RefApply(e, db, r, op).value.marks
    ensures Destroys(op, a) || ((a, SelfDestructed) in r.marks && !Creates(op, a))
  {
  }

  /** After a transaction an account that was created and destroyed is in the database as it was before, or not at all. */
  lemma DestroyedIsAsBefore(e: Env, db: Db, ops: seq<Op>, db2: Db, a: Address, i: nat, k: nat)
    requires ShowsReference(e, db, ops, db2)
    requires var ks := Kept(ops);
             && i < k < |ks| && Creates(ks[i], a) && Destroys(ks[k], a)
             && forall m | i < m < |ks| :: !Creates(ks[m], a)
    ensures Entry(db2.accounts, a) == Entry(db.accounts, a)
  {
    hide Kept, RefExecute, Creates, Destroys;
    CreatedThenDestroyed(e, db, EMPTY_REF, ops, a, i, k);
    assert Settled(db, RefExecute(e, db, EMPTY_REF, ops).value, db2, a);
  }

  /** A contract with a balance of 5 that is created and destroyed in one transaction is nowhere afterwards. */
  lemma GoneAtOnce(e: Env, code: Bytes, db2: Db)
    requires ShowsReference(e, Db(map[], map[]), [NewContract([7], code, 5), SetStatus([7], {SelfDestructed})], db2)
    ensures [7] !in db2.accounts
  {
    var ops := [NewContract([7], code, 5), SetStatus([7], {SelfDestructed})];
    var rest := ops[1..];
    assert rest == [ops[1]] && rest[1..] == [];
    assert Kept(rest[1..]) == [];
    assert Kept(rest) == [ops[1]];
    assert Kept(ops) == ops;
    DestroyedIsAsBefore(e, Db(map[], map[]), ops, db2, [7], 0, 1);
  }
}
