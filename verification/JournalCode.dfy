/**
  * Code across a commit: what the database shows for an address afterwards is what the journal showed before, and a whole
  * transaction, from the journal's first operation to the commit, leaves what the reference shows.
  */
module JournalCode {
  import opened Prelude
  import opened Journal
  import opened JournalCommit

  /** Every account of the database that has code has it stored. */
  ghost predicate CodeStored(e: Env, db: Db) {
    forall a | a in db.accounts :: HasCode(e, db.accounts[a].info.codeHash) ==> db.accounts[a].info.codeHash in db.contracts
  }

  /** One hash, one code: what content addressing gives when no two codes have the same hash. */
  ghost predicate OneCode(db: Db, j: Journal) {
    forall h | h in db.contracts && h in j.contracts :: db.contracts[h] == j.contracts[h]
  }

  /** The journal's accounts find their code, in the database or as a contract created here. */
  predicate CodeFound(e: Env, db: Db, j: Journal, acc: Account) {
    var h := acc.info.codeHash;
    HasCode(e, h) ==> h in db.contracts || (h in j.contracts && Created in acc.status)
  }

  ghost predicate CodeInv(e: Env, db: Db, j: Journal) {
    && (forall a | a in j.accounts :: CodeFound(e, db, j, j.accounts[a]))
    && forall h | h in j.contracts :: e.keccak(j.contracts[h]) == h
  }

  lemma PutKeepsCode(e: Env, db: Db, j: Journal, a: Address, acc: Account)
    requires CodeInv(e, db, j) && CodeFound(e, db, j, acc)
    ensures CodeInv(e, db, Put(j, a, acc))
  {
    hide HasCode;
  }

  lemma ApplyKeepsCode(e: Env, db: Db, j: Journal, op: Op)
    requires CodeStored(e, db) && CodeInv(e, db, j) && !op.Call? && Apply(e, db, j, op).Some?
    ensures CodeInv(e, db, Apply(e, db, j, op).value)
  {
    NoCode(e);
    if op.NewAccount? {
      PutKeepsCode(e, db, j, op.a, NewCreated(e, op.balance));
    } else if op.NewContract? {
      var h := e.keccak(op.code);
      CodeAdded(e, db, j, op.code);
      PutKeepsCode(e, db, j.(contracts := j.contracts[h := op.code]), op.a, Account(Info(1, op.balance, h), map[], {Created}));
    } else if op.AddAccountAsWarm? {
      var acc := if op.a in j.accounts then j.accounts[op.a] else NewCreated(e, 0);
      PutKeepsCode(e, db, j, op.a, acc.(status := acc.status - {Cold}));
    } else {
      LoadKeepsCode(e, db, j, op.a);
      if op.a in Load(db, j, op.a).accounts {
        LoadedKeepsCode(e, db, Load(db, j, op.a), op);
      }
    }
  }

  lemma CodeAdded(e: Env, db: Db, j: Journal, code: Bytes)
    requires CodeInv(e, db, j)
    ensures CodeInv(e, db, j.(contracts := j.contracts[e.keccak(code) := code]))
  {
    hide HasCode;
    var j1 := j.(contracts := j.contracts[e.keccak(code) := code]);
    forall a | a in j1.accounts
      ensures CodeFound(e, db, j1, j1.accounts[a])
    {
      assert CodeFound(e, db, j, j.accounts[a]);
    }
  }

  lemma LoadKeepsCode(e: Env, db: Db, j: Journal, a: Address)
    requires CodeStored(e, db) && CodeInv(e, db, j)
    ensures CodeInv(e, db, Load(db, j, a))
  {
    hide HasCode;
    if a !in j.accounts && a in db.accounts {
      PutKeepsCode(e, db, j, a, Account(db.accounts[a].info, map[], {}));
    }
  }

  lemma LoadedKeepsCode(e: Env, db: Db, j: Journal, op: Op)
    requires CodeInv(e, db, j) && !op.Call? && op.a in j.accounts
    ensures CodeInv(e, db, ApplyLoaded(db, j, op))
  {
    hide FetchSlot, PrefetchedSlots, HasCode, CodeInv;
    var j2 := ApplyLoaded(db, j, op);
    assert CodeFound(e, db, j, j.accounts[op.a]) by {
      FoundOne(e, db, j, op.a);
    }
    PutKeepsCode(e, db, j, op.a, j2.accounts[op.a]);
    assert j2 == Put(j, op.a, j2.accounts[op.a]);
  }

  lemma FoundOne(e: Env, db: Db, j: Journal, a: Address)
    requires CodeInv(e, db, j) && a in j.accounts
    ensures CodeFound(e, db, j, j.accounts[a])
  {
  }

  lemma NoCode(e: Env)
    ensures !HasCode(e, e.empty)
  {
  }

  lemma {:induction false} ExecuteKeepsCode(e: Env, db: Db, j: Journal, ops: seq<Op>)
    requires CodeStored(e, db) && CodeInv(e, db, j) && Execute(e, db, j, ops).Some?
    ensures CodeInv(e, db, Execute(e, db, j, ops).value)
    decreases ops
  {
    hide CodeInv, CodeStored, ExecuteOp;
    if ops != [] {
      ExecuteOpKeepsCode(e, db, j, ops[0]);
      ExecuteKeepsCode(e, db, ExecuteOp(e, db, j, ops[0]).value, ops[1..]);
    }
  }

  lemma {:induction false} ExecuteOpKeepsCode(e: Env, db: Db, j: Journal, op: Op)
    requires CodeStored(e, db) && CodeInv(e, db, j) && ExecuteOp(e, db, j, op).Some?
    ensures CodeInv(e, db, ExecuteOp(e, db, j, op).value)
    decreases op
  {
    hide CodeInv, CodeStored, Execute, Apply;
    match op
    case Call(body, _) => ExecuteKeepsCode(e, db, j, body);
    case _ => ApplyKeepsCode(e, db, j, op);
  }

  /** What `commit` does to the stored code. */
  ghost predicate Stores(e: Env, db: Db, changes: map<Address, Change>, db2: Db) {
    && (forall h | h in db.contracts :: h in db2.contracts && db2.contracts[h] == db.contracts[h])
    && (forall a | a in changes && BringsCode(e, changes[a]) :: changes[a].info.codeHash in db2.contracts)
    && (forall h | h in db2.contracts && h !in db.contracts :: BroughtBy(e, changes, h, db2.contracts[h]))
  }

  ghost predicate Writes(db: Db, changes: map<Address, Change>, db2: Db) {
    forall a :: Entry(db2.accounts, a) ==
      (if a in changes then Merged(Entry(db.accounts, a), changes[a]) else Entry(db.accounts, a))
  }

  /** Codes are stored under their hash. */
  ghost predicate ContentAddressed(e: Env, db: Db) {
    forall h | h in db.contracts :: e.keccak(db.contracts[h]) == h
  }

  ghost predicate NoClash(e: Env, db: Db, j: Journal) {
    forall g, h | g in db.contracts && h in j.contracts ::
      e.keccak(db.contracts[g]) == e.keccak(j.contracts[h]) ==> db.contracts[g] == j.contracts[h]
  }

  lemma BroughtCode(e: Env, j: Journal, a: Address)
    requires a in j.accounts && !Vanishes(j, a)
    requires Created in j.accounts[a].status
    requires HasCode(e, j.accounts[a].info.codeHash) && j.accounts[a].info.codeHash in j.contracts
    ensures a in IntoState(e, j) && BringsCode(e, IntoState(e, j)[a])
    ensures IntoState(e, j)[a].info == j.accounts[a].info
  {
  }

  /** A hash that a staying account of the journal has leads to the same code in the database after the commit. */
  lemma SameCode(e: Env, db: Db, j: Journal, db2: Db, a: Address)
    requires CodeInv(e, db, j) && OneCode(db, j) && Stores(e, db, IntoState(e, j), db2)
    requires a in j.accounts && !Vanishes(j, a) && HasCode(e, j.accounts[a].info.codeHash)
    ensures var h := j.accounts[a].info.codeHash; h in db2.contracts && db2.contracts[h] == CodeAt(db, j, h)
  {
    hide Vanishes, HasCode, BringsCode, IntoState;
    var h := j.accounts[a].info.codeHash;
    assert CodeFound(e, db, j, j.accounts[a]);
    if h !in db.contracts {
      BroughtCode(e, j, a);
      assert BroughtBy(e, IntoState(e, j), h, db2.contracts[h]);
      CommittedCode(e, j, h, db2.contracts[h]);
    }
  }

  /**
    * Code across a commit: every account that stays shows the code it showed, and the database again stores the code of
    * every account, under its hash.
    */
  lemma CommitKeepsCode(e: Env, db: Db, j: Journal, db2: Db)
    requires Inv(db, j) && CodeStored(e, db) && ContentAddressed(e, db) && CodeInv(e, db, j) && NoClash(e, db, j)
    requires Writes(db, IntoState(e, j), db2) && Stores(e, db, IntoState(e, j), db2)
    ensures forall a | !Vanishes(j, a) :: VisibleCode(e, db2, EMPTY_JOURNAL, a) == VisibleCode(e, db, j, a)
    ensures CodeStored(e, db2) && ContentAddressed(e, db2)
  {
    hide Inv, CodeStored, CodeInv, Stores, IntoState, Vanishes, HasCode, Merged;
    assert OneCode(db, j) by {
      assert forall h | h in j.contracts :: e.keccak(j.contracts[h]) == h by {
        CodesAddressed(e, db, j);
      }
    }
    forall a | !Vanishes(j, a)
      ensures VisibleCode(e, db2, EMPTY_JOURNAL, a) == VisibleCode(e, db, j, a)
      ensures a in db2.accounts && HasCode(e, db2.accounts[a].info.codeHash) ==>
                db2.accounts[a].info.codeHash in db2.contracts
    {
      CodeOfOne(e, db, j, db2, a);
    }
    forall a | Vanishes(j, a)
      ensures a in db2.accounts && HasCode(e, db2.accounts[a].info.codeHash) ==>
                db2.accounts[a].info.codeHash in db2.contracts
    {
      CodeOfGone(e, db, j, db2, a);
    }
    StoredAll(e, db2);
    AddressedAfter(e, db, j, db2);
  }

  lemma CodesAddressed(e: Env, db: Db, j: Journal)
    requires CodeInv(e, db, j)
    ensures forall h | h in j.contracts :: e.keccak(j.contracts[h]) == h
  {
  }

  lemma StoredAll(e: Env, db: Db)
    requires forall a | a in db.accounts :: HasCode(e, db.accounts[a].info.codeHash) ==>
               db.accounts[a].info.codeHash in db.contracts
    ensures CodeStored(e, db)
  {
  }

  lemma CodeOfOne(e: Env, db: Db, j: Journal, db2: Db, a: Address)
    requires Inv(db, j) && CodeStored(e, db) && CodeInv(e, db, j) && OneCode(db, j) && !Vanishes(j, a)
    requires Writes(db, IntoState(e, j), db2) && Stores(e, db, IntoState(e, j), db2)
    ensures VisibleCode(e, db2, EMPTY_JOURNAL, a) == VisibleCode(e, db, j, a)
    ensures a in db2.accounts && HasCode(e, db2.accounts[a].info.codeHash) ==>
              db2.accounts[a].info.codeHash in db2.contracts
  {
    hide Inv, CodeInv, IntoState, HasCode, Vanishes, DbStorage, Merged, BringsCode, BroughtBy;
    ShowsOne(e, db, j, db2, a);
    assert Basic(db2, a) == InfoAt(db, j, a);
    var info := InfoAt(db, j, a);
    if info.Some? && HasCode(e, info.value.codeHash) {
      var h := info.value.codeHash;
      if a in j.accounts {
        SameCode(e, db, j, db2, a);
      } else {
        assert h in db.contracts;
      }
      assert h in db2.contracts && db2.contracts[h] == CodeAt(db, j, h);
    }
  }

  lemma CodeOfGone(e: Env, db: Db, j: Journal, db2: Db, a: Address)
    requires CodeStored(e, db) && Vanishes(j, a)
    requires Writes(db, IntoState(e, j), db2) && Stores(e, db, IntoState(e, j), db2)
    ensures a in db2.accounts && HasCode(e, db2.accounts[a].info.codeHash) ==>
              db2.accounts[a].info.codeHash in db2.contracts
  {
    hide HasCode, BringsCode, BroughtBy;
    assert Skipped(IntoState(e, j)[a]);
    assert Entry(db2.accounts, a) == Entry(db.accounts, a);
  }

  lemma AddressedAfter(e: Env, db: Db, j: Journal, db2: Db)
    requires ContentAddressed(e, db) && CodeInv(e, db, j) && Stores(e, db, IntoState(e, j), db2)
    ensures ContentAddressed(e, db2)
  {
    hide IntoState, BringsCode, BroughtBy, HasCode, CodeFound;
    forall h | h in db2.contracts
      ensures e.keccak(db2.contracts[h]) == h
    {
      if h !in db.contracts {
        assert BroughtBy(e, IntoState(e, j), h, db2.contracts[h]);
        CommittedCode(e, j, h, db2.contracts[h]);
      }
    }
  }

  /** What the reference shows as the code of an address. */
  function RefVisibleCode(e: Env, db: Db, r: Ref, a: Address): Bytes {
    var info := RefInfo(db, r, a);
    if info.None? || info.value.codeHash == Zeros(32) || info.value.codeHash == e.empty then []
    else RefCode(db, r, info.value.codeHash)
  }

  /**
    * Every address is settled as the reference says, and what a database shows by itself as code is, for every address but
    * those that were created and destroyed, what the reference shows over `db`.
    */
  ghost predicate ShowsReference(e: Env, db: Db, ops: seq<Op>, db2: Db) {
    var r := RefExecute(e, db, EMPTY_REF, ops);
    && r.Some?
    && (forall a :: Settled(db, r.value, db2, a))
    && forall a | !RefVanishes(r.value, a) ::
         VisibleCode(e, db2, EMPTY_JOURNAL, a) == RefVisibleCode(e, db, r.value, a)
  }

  lemma TransactionShows(e: Env, db: Db, ops: seq<Op>, db2: Db)
    requires CodeStored(e, db) && ContentAddressed(e, db) && Execute(e, db, EMPTY_JOURNAL, ops).Some?
    requires var j := Execute(e, db, EMPTY_JOURNAL, ops).value;
             NoClash(e, db, j) && Writes(db, IntoState(e, j), db2) && Stores(e, db, IntoState(e, j), db2)
    ensures ShowsReference(e, db, ops, db2) && CodeStored(e, db2) && ContentAddressed(e, db2)
  {
    hide Execute, RefExecute, CodeStored, ContentAddressed, NoClash, Stores, Vanishes, Inv, IntoState, HasCode, Merged;
    hide Settled, RefVanishes;
    CommitAfterRun(e, db, ops, db2);
    StartAgrees(db);
    ExecuteAgrees(e, db, EMPTY_JOURNAL, EMPTY_REF, ops);
    assert CodeInv(e, db, EMPTY_JOURNAL);
    ExecuteKeepsCode(e, db, EMPTY_JOURNAL, ops);
    var j, r := Execute(e, db, EMPTY_JOURNAL, ops).value, RefExecute(e, db, EMPTY_REF, ops).value;
    CommitKeepsCode(e, db, j, db2);
    forall a | !RefVanishes(r, a)
      ensures VisibleCode(e, db2, EMPTY_JOURNAL, a) == RefVisibleCode(e, db, r, a)
    {
      MarksAlike(db, j, r, a);
      SeenAlike(e, db, j, r, a);
    }
  }

  lemma SeenAlike(e: Env, db: Db, j: Journal, r: Ref, a: Address)
    requires Agree(db, j, r)
    ensures InfoAt(db, j, a) == RefInfo(db, r, a)
    ensures forall k: U256 :: ValueAt(db, j, a, k) == RefValue(db, r, a, k)
    ensures VisibleCode(e, db, j, a) == RefVisibleCode(e, db, r, a)
  {
    hide Basic, DbStorage, DbCode, FetchSlot;
    assert InfoAt(db, j, a) == RefInfo(db, r, a);
    if InfoAt(db, j, a).Some? {
      var h := InfoAt(db, j, a).value.codeHash;
      assert CodeAt(db, j, h) == RefCode(db, r, h);
    }
  }

  /**
    * `transact_commit` around the journal: run, hand over, commit. The database that is left has, for every address that
    * was created and destroyed along the run, the entry it had, and shows for every other address what the reference shows,
    * code included. It can serve the next transaction.
    */
  method TransactCommit(e: Env, database: Database, ops: seq<Op>) returns (ok: bool)
    requires CodeStored(e, database.Value()) && ContentAddressed(e, database.Value())
    requires var j := Execute(e, database.Value(), EMPTY_JOURNAL, ops); j.Some? ==> NoClash(e, database.Value(), j.value)
    modifies database
    ensures ok <==> RefExecute(e, old(database.Value()), EMPTY_REF, ops).Some?
    ensures !ok ==> database.Value() == old(database.Value())
    ensures ok ==> ShowsReference(e, old(database.Value()), ops, database.Value())
    ensures CodeStored(e, database.Value()) && ContentAddressed(e, database.Value())
  {
    hide Execute, RefExecute, CodeStored, ContentAddressed, NoClash, ShowsReference, IntoState, Agree, Inv;
    var db := database.Value();
    var journal := new JournalState(e, db);
    ok := journal.Run(ops);
    StartAgrees(db);
    ExecuteAgrees(e, db, EMPTY_JOURNAL, EMPTY_REF, ops);
    if ok {
      database.Commit(e, IntoState(e, journal.Value()));
      TransactionShows(e, db, ops, database.Value());
    }
  }
}
