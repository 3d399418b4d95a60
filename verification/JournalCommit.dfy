/**
  * The journal and the database as objects: the operations update maps in place, a call frame takes the database handle and
  * gives it back, and `commit` writes marked accounts to the database.
  */
module JournalCommit {
  import opened Prelude
  import opened Journal

  class JournalState {
    const env: Env
    var accounts: map<Address, Account>
    var contracts: map<B256, Bytes>
    /** The handle is with the innermost call frame. */
    var db: Option<Db>

    function Value(): Journal
      reads this
    {
      Journal(accounts, contracts)
    }

    constructor (env: Env, db: Db)
      ensures this.env == env && this.db == Some(db) && Value() == EMPTY_JOURNAL
    {
      this.env := env;
      this.db := Some(db);
      accounts, contracts := map[], map[];
    }

    constructor Copy(other: JournalState, db: Option<Db>)
      ensures env == other.env && this.db == db && Value() == other.Value()
    {
      this.env := other.env;
      this.db := db;
      accounts, contracts := other.accounts, other.contracts;
    }

    /** Whether there is an account; an account of the database is loaded into the journal. */
    method GetAccountMut(a: Address) returns (found: bool)
      modifies this`accounts
      ensures db.None? ==> !found && Value() == old(Value())
      ensures db.Some? ==> Value() == Load(db.value, old(Value()), a) && (found <==> a in accounts)
    {
      if db.None? {
        return false;
      }
      if a in accounts {
        return true;
      }
      if a !in db.value.accounts {
        return false;
      }
      accounts := accounts[a := Account(db.value.accounts[a].info, map[], {})];
      found := true;
    }

    method NewAccount(a: Address, balance: U256)
      modifies this`accounts
      ensures forall d :: Apply(env, d, old(Value()), Op.NewAccount(a, balance)) == Some(Value())
    {
      accounts := accounts[a := NewCreated(env, balance)];
    }

    method AddAccountAsWarm(a: Address)
      modifies this`accounts
      ensures forall d :: Apply(env, d, old(Value()), Op.AddAccountAsWarm(a)) == Some(Value())
    {
      var acc := if a in accounts then accounts[a] else NewCreated(env, 0);
      accounts := accounts[a := acc.(status := acc.status - {Cold})];
    }

    method NewContract(a: Address, code: Bytes, balance: U256)
      modifies this`accounts, this`contracts
      ensures forall d :: Apply(env, d, old(Value()), Op.NewContract(a, code, balance)) == Some(Value())
    {
      var hash := env.keccak(code);
      accounts := accounts[a := Account(Info(1, balance, hash), map[], {Created})];
      contracts := contracts[hash := code];
    }

    method SetBalance(a: Address, balance: U256)
      modifies this`accounts
      ensures db.Some? ==> Apply(env, db.value, old(Value()), Op.SetBalance(a, balance)) == Some(Value())
      ensures db.None? ==> Value() == old(Value())
    {
      var found := GetAccountMut(a);
      if found {
        var acc := accounts[a];
        accounts := accounts[a := acc.(info := acc.info.(balance := balance), status := acc.status + {Touched})];
      }
    }

    method SetNonce(a: Address, nonce: nat)
      modifies this`accounts
      ensures db.Some? ==> Apply(env, db.value, old(Value()), Op.SetNonce(a, nonce)) == Some(Value())
      ensures db.None? ==> Value() == old(Value())
    {
      var found := GetAccountMut(a);
      if found {
        var acc := accounts[a];
        accounts := accounts[a := acc.(info := acc.info.(nonce := nonce), status := acc.status + {Touched})];
      }
    }

    method SetStatus(a: Address, status: Status)
      modifies this`accounts
      ensures db.Some? ==> Apply(env, db.value, old(Value()), Op.SetStatus(a, status)) == Some(Value())
      ensures db.None? ==> Value() == old(Value())
    {
      var found := GetAccountMut(a);
      if found {
        accounts := accounts[a := accounts[a].(status := accounts[a].status + status)];
      }
    }

    method CodeByAddress(a: Address) returns (code: Bytes)
      modifies this`accounts
      ensures db.Some? ==> Apply(env, db.value, old(Value()), Op.CodeByAddress(a)) == Some(Value())
      ensures db.Some? ==> code == VisibleCode(env, db.value, old(Value()), a)
      ensures db.None? ==> Value() == old(Value()) && code == []
    {
      var found := GetAccountMut(a);
      if !found {
        return [];
      }
      accounts := accounts[a := accounts[a].(status := accounts[a].status - {Cold})];
      var hash := accounts[a].info.codeHash;
      if !HasCode(env, hash) {
        return [];
      }
      code := if hash in contracts then contracts[hash] else DbCode(db.value, hash);
    }

    /** The account is cached and not cold. */
    method IsAccountWarm(a: Address) returns (warm: bool)
      ensures warm <==> AccountIsWarm(Value(), a)
    {
      warm := if a in accounts then Cold !in accounts[a].status else false;
    }

    method IsKeyWarm(a: Address, key: U256) returns (warm: bool)
      ensures warm <==> KeyIsWarm(Value(), a, key)
    {
      warm := a in accounts && key in accounts[a].storage;
    }

    /** Reading caches the slot; the value read is the visible one and remembers the database's. */
    method ReadStorage(a: Address, key: U256) returns (slot: Option<Slot>)
      modifies this`accounts
      ensures db.Some? ==> Apply(env, db.value, old(Value()), Op.ReadStorage(a, key)) == Some(Value())
      ensures db.Some? && InfoAt(db.value, old(Value()), a).None? ==> slot == None
      ensures db.Some? && InfoAt(db.value, old(Value()), a).Some? ==>
                slot == Some(FetchSlot(db.value, old(Value()), a, key))
      ensures db.None? ==> Value() == old(Value()) && slot == None
    {
      var found := GetAccountMut(a);
      if !found {
        return None;
      }
      var s := FetchSlot(db.value, Value(), a, key);
      accounts := accounts[a := accounts[a].(storage := accounts[a].storage[key := s])];
      slot := Some(s);
    }

    /** `ok` is false when the `unwrap` of a missing account fails. */
    method WriteStorage(a: Address, key: U256, value: U256) returns (ok: bool)
      modifies this`accounts
      ensures db.Some? ==> (ok <==> InfoAt(db.value, old(Value()), a).Some?)
      ensures db.Some? ==>
                Apply(env, db.value, old(Value()), Op.WriteStorage(a, key, value)) == if ok then Some(Value()) else None
      ensures db.None? ==> Value() == old(Value()) && !ok
    {
      var found := GetAccountMut(a);
      if !found {
        return false;
      }
      var slot := FetchSlot(db.value, Value(), a, key).(present := value);
      var acc := accounts[a];
      accounts := accounts[a := acc.(storage := acc.storage[key := slot], status := acc.status + {Touched})];
      ok := true;
    }

    method PrefetchAccountKeys(a: Address, keys: seq<U256>)
      modifies this`accounts
      ensures db.Some? ==> Apply(env, db.value, old(Value()), Op.PrefetchKeys(a, keys)) == Some(Value())
      ensures db.None? ==> Value() == old(Value())
    {
      var found := GetAccountMut(a);
      if !found {
        return;
      }
      var slots: map<U256, Slot> := map[];
      for i := 0 to |keys|
        invariant slots == PrefetchedSlots(db.value, a, keys[..i])
      {
        var v := DbStorage(db.value, a, keys[i]);
        slots := slots[keys[i] := Slot(v, v)];
      }
      assert keys[..|keys|] == keys;
      accounts := accounts[a := accounts[a].(storage := accounts[a].storage + slots)];
    }

    /** A call frame starts from a copy and takes the handle. */
    method EjectBase() returns (callee: JournalState)
      modifies this`db
      ensures fresh(callee) && callee.env == env
      ensures callee.Value() == Value() && callee.db == old(db) && db == None
    {
      callee := new JournalState.Copy(this, db);
      db := None;
    }

    method ExtendFromSuccessful(other: JournalState)
      modifies this
      ensures Value() == other.Value() && db == other.db
    {
      accounts, contracts, db := other.accounts, other.contracts, other.db;
    }

    method ExtendFromReverted(other: JournalState)
      modifies this`db
      ensures db == other.db
    {
      db := other.db;
    }

    /** A program of operations and nested calls; the handle comes back from every call. */
    method Run(ops: seq<Op>) returns (ok: bool)
      requires db.Some?
      modifies this
      ensures Execute(env, old(db).value, old(Value()), ops) == if ok then Some(Value()) else None
      ensures ok ==> db == old(db)
      decreases ops, 0
    {
      if ops == [] {
        return true;
      }
      ok := Step(ops[0]);
      if ok {
        ok := Run(ops[1..]);
      }
    }

    method Step(op: Op) returns (ok: bool)
      requires db.Some?
      modifies this
      ensures ExecuteOp(env, old(db).value, old(Value()), op) == if ok then Some(Value()) else None
      ensures ok ==> db == old(db)
      decreases op, 0
    {
      ok := true;
      match op {
        case GetAccount(a) => var _ := GetAccountMut(a);
        case SetBalance(a, balance) => SetBalance(a, balance);
        case SetNonce(a, nonce) => SetNonce(a, nonce);
        case SetStatus(a, status) => SetStatus(a, status);
        case NewAccount(a, balance) => NewAccount(a, balance);
        case NewContract(a, code, balance) => NewContract(a, code, balance);
        case AddAccountAsWarm(a) => AddAccountAsWarm(a);
        case CodeByAddress(a) => var _ := CodeByAddress(a);
        case PrefetchKeys(a, keys) => PrefetchAccountKeys(a, keys);
        case ReadStorage(a, key) => var _ := ReadStorage(a, key);
        case WriteStorage(a, key, value) => ok := WriteStorage(a, key, value);
        case Call(body, success) => ok := CallFrame(body, success);
      }
    }

    method CallFrame(body: seq<Op>, success: bool) returns (ok: bool)
      requires db.Some?
      modifies this
      ensures ExecuteOp(env, old(db).value, old(Value()), Call(body, success)) == if ok then Some(Value()) else None
      ensures ok ==> db == old(db)
      decreases body, 1
    {
      var callee := EjectBase();
      ok := callee.Run(body);
      if ok {
        if success {
          ExtendFromSuccessful(callee);
        } else {
          ExtendFromReverted(callee);
        }
      }
    }
  }

  predicate HasCode(e: Env, h: B256) {
    h != Zeros(32) && h != e.empty
  }

  function VisibleCode(e: Env, db: Db, j: Journal, a: Address): Bytes {
    var info := InfoAt(db, j, a);
    if info.None? || !HasCode(e, info.value.codeHash) then [] else CodeAt(db, j, info.value.codeHash)
  }

  // ---------------------------------------------------------------------------------------------
  // Operations that do not keep what is visible
  // ---------------------------------------------------------------------------------------------

  ghost predicate SameView(db: Db, i: Journal, j: Journal) {
    && (forall a :: InfoAt(db, i, a) == InfoAt(db, j, a))
    && (forall a, k: U256 :: ValueAt(db, i, a, k) == ValueAt(db, j, a, k))
  }

  /** Warming an address shows what was shown before if and only if it is cached, or is empty in the database. */
  lemma WarmKeepsView(e: Env, db: Db, j: Journal, a: Address)
    ensures SameView(db, j, Apply(e, db, j, AddAccountAsWarm(a)).value) <==>
            a in j.accounts || Basic(db, a) == Some(Info(0, 0, e.empty))
  {
    var j2 := Apply(e, db, j, AddAccountAsWarm(a)).value;
    assert InfoAt(db, j2, a).Some?;
    if SameView(db, j, j2) {
      assert InfoAt(db, j, a) == InfoAt(db, j2, a);
    }
  }

  lemma PrefetchView(e: Env, db: Db, j: Journal, a: Address, keys: seq<U256>)
    ensures Apply(e, db, j, PrefetchKeys(a, keys)).Some?
    ensures var j2 := Apply(e, db, j, PrefetchKeys(a, keys)).value;
            && (forall b :: InfoAt(db, j2, b) == InfoAt(db, j, b))
            && (forall k | k in keys :: ValueAt(db, j2, a, k) == DbStorage(db, a, k))
            && (forall b, k: U256 | b != a || k !in keys :: ValueAt(db, j2, b, k) == ValueAt(db, j, b, k))
  {
  }

  /** Prefetching keys shows what was shown before if and only if none of them holds an unsaved value. */
  lemma PrefetchKeepsView(e: Env, db: Db, j: Journal, a: Address, keys: seq<U256>)
    ensures SameView(db, j, Apply(e, db, j, PrefetchKeys(a, keys)).value) <==>
            forall k | k in keys :: ValueAt(db, j, a, k) == DbStorage(db, a, k)
  {
    hide Apply, ValueAt, InfoAt, DbStorage;
    PrefetchView(e, db, j, a, keys);
    var j2 := Apply(e, db, j, PrefetchKeys(a, keys)).value;
    if SameView(db, j, j2) {
      forall k | k in keys
        ensures ValueAt(db, j, a, k) == DbStorage(db, a, k)
      {
        assert ValueAt(db, j, a, k) == ValueAt(db, j2, a, k);
      }
    }
  }

  /** A rich account of the database, warmed by an access list, shows as empty. */
  lemma WarmEmpties()
    ensures var e := Env(code => Zeros(32), Zeros(32));
            var db := Db(map[[7] := DbAccount(Info(3, 1000, Zeros(32)), map[], {})], map[]);
            && InfoAt(db, EMPTY_JOURNAL, [7]) == Some(Info(3, 1000, Zeros(32)))
            && Execute(e, db, EMPTY_JOURNAL, [AddAccountAsWarm([7])]).Some?
            && InfoAt(db, Execute(e, db, EMPTY_JOURNAL, [AddAccountAsWarm([7])]).value, [7]) == Some(Info(0, 0, Zeros(32)))
  {
  }

  /** A slot that is written and then prefetched shows the database's value again. */
  lemma PrefetchDiscards()
    ensures var e := Env(code => Zeros(32), Zeros(32));
            var db := Db(map[[7] := DbAccount(Info(0, 0, Zeros(32)), map[1 := 5], {})], map[]);
            var written := Apply(e, db, EMPTY_JOURNAL, WriteStorage([7], 1, 9));
            && written.Some? && ValueAt(db, written.value, [7], 1) == 9
            && Execute(e, db, written.value, [PrefetchKeys([7], [1])]).Some?
            && ValueAt(db, Execute(e, db, written.value, [PrefetchKeys([7], [1])]).value, [7], 1) == 5
  {
  }

  // ---------------------------------------------------------------------------------------------
  // Commit
  // ---------------------------------------------------------------------------------------------

  datatype Change = Change(info: Info, code: Option<Bytes>, storage: map<U256, Slot>, status: Status)

  function IntoState(e: Env, j: Journal): (r: map<Address, Change>)
    ensures r.Keys == j.accounts.Keys
    ensures forall a | a in r ::
              r[a].info == j.accounts[a].info && r[a].storage == j.accounts[a].storage && r[a].status == j.accounts[a].status
    ensures forall a | a in r ::
              var h := j.accounts[a].info.codeHash;
              && (r[a].code.None? <==> !HasCode(e, h) || h !in j.contracts)
              && (r[a].code.Some? ==> forall db: Db :: r[a].code.value == VisibleCode(e, db, j, a))
  {
    map a | a in j.accounts ::
      var acc := j.accounts[a];
      var h := acc.info.codeHash;
      Change(acc.info, if HasCode(e, h) && h in j.contracts then Some(j.contracts[h]) else None, acc.storage, acc.status)
  }

  predicate Skipped(c: Change) {
    {Created, SelfDestructed} <= c.status || c.status !! {Touched, Created, SelfDestructed}
  }

  function Presents(storage: map<U256, Slot>): map<U256, U256> {
    map k | k in storage :: storage[k].present
  }

  function Merged(was: Option<DbAccount>, c: Change): Option<DbAccount> {
    if Skipped(c) then was
    else
      var storage := if was.Some? then was.value.storage else map[];
      Some(DbAccount(c.info, storage + Presents(c.storage), {Cold}))
  }

  function Entry(accounts: map<Address, DbAccount>, a: Address): Option<DbAccount> {
    if a in accounts then Some(accounts[a]) else None
  }

  /** The account was created with code of its own, which `store_contract` keeps. */
  predicate BringsCode(e: Env, c: Change) {
    !Skipped(c) && Created in c.status && HasCode(e, c.info.codeHash) && c.code.Some?
  }

  ghost predicate BroughtBy(e: Env, changes: map<Address, Change>, h: B256, code: Bytes) {
    exists a | a in changes :: BringsCode(e, changes[a]) && changes[a].info.codeHash == h && changes[a].code == Some(code)
  }

  class Database {
    var accounts: map<Address, DbAccount>
    var contracts: map<B256, Bytes>

    function Value(): Db
      reads this
    {
      Db(accounts, contracts)
    }

    constructor (db: Db)
      ensures Value() == db
    {
      accounts, contracts := db.accounts, db.contracts;
    }

    /** Writes the changed accounts, in any order. */
    method Commit(e: Env, changes: map<Address, Change>)
      modifies this
      ensures forall a :: Entry(accounts, a) ==
                (if a in changes then Merged(Entry(old(accounts), a), changes[a]) else Entry(old(accounts), a))
      ensures forall h | h in old(contracts) :: h in contracts && contracts[h] == old(contracts)[h]
      ensures forall a | a in changes && BringsCode(e, changes[a]) :: changes[a].info.codeHash in contracts
      ensures forall h | h in contracts && h !in old(contracts) :: BroughtBy(e, changes, h, contracts[h])
    {
      hide Merged, Skipped, Entry, HasCode, BringsCode;
      var todo := changes.Keys;
      while todo != {}
        invariant todo <= changes.Keys
        invariant forall a :: Entry(accounts, a) ==
                    (if a in changes && a !in todo then Merged(Entry(old(accounts), a), changes[a])
                     else Entry(old(accounts), a))
        invariant forall h | h in old(contracts) :: h in contracts && contracts[h] == old(contracts)[h]
        invariant forall a | a in changes && a !in todo && BringsCode(e, changes[a]) ::
                    changes[a].info.codeHash in contracts
        invariant forall h | h in contracts && h !in old(contracts) :: BroughtBy(e, changes, h, contracts[h])
        decreases |todo|
      {
        var a :| a in todo;
        todo := todo - {a};
        assert Entry(accounts, a) == Entry(old(accounts), a);
        Write(e, a, changes[a]);
      }
    }

    method Write(e: Env, a: Address, c: Change)
      modifies this
      ensures forall x :: Entry(accounts, x) == if x == a then Merged(old(Entry(accounts, a)), c) else old(Entry(accounts, x))
      ensures forall h | h in old(contracts) :: h in contracts && contracts[h] == old(contracts)[h]
      ensures BringsCode(e, c) ==> c.info.codeHash in contracts
      ensures forall h | h in contracts && h !in old(contracts) ::
                BringsCode(e, c) && h == c.info.codeHash && c.code == Some(contracts[h])
    {
      if Skipped(c) {
        return;
      }
      if Created in c.status && HasCode(e, c.info.codeHash) && c.code.Some? && c.info.codeHash !in contracts {
        contracts := contracts[c.info.codeHash := c.code.value];
      }
      var storage := if a in accounts then accounts[a].storage else map[];
      accounts := accounts[a := DbAccount(c.info, storage + Presents(c.storage), {Cold})];
    }
  }

  /**
    * Code that a commit adds is the journal's code of that hash, and the code of every created account that stays is
    * brought.
    */
  lemma CommittedCode(e: Env, j: Journal, h: B256, code: Bytes)
    ensures BroughtBy(e, IntoState(e, j), h, code) <==>
            && h in j.contracts && j.contracts[h] == code && HasCode(e, h)
            && exists a | a in j.accounts ::
                 j.accounts[a].info.codeHash == h && Created in j.accounts[a].status && !Vanishes(j, a)
  {
    var changes := IntoState(e, j);
    if h in j.contracts && j.contracts[h] == code && HasCode(e, h) {
      forall a | a in j.accounts && j.accounts[a].info.codeHash == h && Created in j.accounts[a].status && !Vanishes(j, a)
        ensures BroughtBy(e, changes, h, code)
      {
        assert a in changes && BringsCode(e, changes[a]);
      }
    }
  }

  /** The account was created and destroyed in one go, so that `commit` leaves it out. */
  predicate Vanishes(j: Journal, a: Address) {
    a in j.accounts && {Created, SelfDestructed} <= j.accounts[a].status
  }

  ghost predicate ShowsAt(db2: Db, db: Db, j: Journal, a: Address) {
    Basic(db2, a) == InfoAt(db, j, a) && forall k: U256 :: DbStorage(db2, a, k) == ValueAt(db, j, a, k)
  }

  lemma ShowsOne(e: Env, db: Db, j: Journal, db2: Db, a: Address)
    requires Inv(db, j)
    requires var changes := IntoState(e, j);
             Entry(db2.accounts, a) ==
             (if a in changes then Merged(Entry(db.accounts, a), changes[a]) else Entry(db.accounts, a))
    ensures Vanishes(j, a) || ShowsAt(db2, db, j, a)
    ensures Vanishes(j, a) ==> (ShowsAt(db2, db, j, a) <==> ShowsAt(db, db, j, a))
  {
    if a in j.accounts {
      var c := IntoState(e, j)[a];
      if c.status !! {Touched, Created, SelfDestructed} {
        assert j.accounts[a].status !! {Touched, Created};
        assert SameAsDb(db, j, a);
      }
      if Skipped(c) {
        assert forall k: U256 :: DbStorage(db2, a, k) == DbStorage(db, a, k);
      }
    }
  }

  /**
    * Main law of commit: afterwards the database shows what the journal showed if and only if every account that was
    * created and destroyed in one go already looked like its old entry.
    */
  lemma CommitShowsJournal(e: Env, db: Db, j: Journal, db2: Db)
    requires Inv(db, j)
    requires var changes := IntoState(e, j);
             forall a :: Entry(db2.accounts, a) ==
               (if a in changes then Merged(Entry(db.accounts, a), changes[a]) else Entry(db.accounts, a))
    ensures (forall a :: ShowsAt(db2, db, j, a)) <==> (forall a | Vanishes(j, a) :: ShowsAt(db, db, j, a))
    ensures (forall a :: !Vanishes(j, a)) ==> forall a :: ShowsAt(db2, db, j, a)
  {
    hide ShowsAt, Merged, Inv, Vanishes;
    forall a
      ensures Vanishes(j, a) || ShowsAt(db2, db, j, a)
      ensures Vanishes(j, a) ==> (ShowsAt(db2, db, j, a) <==> ShowsAt(db, db, j, a))
    {
      ShowsOne(e, db, j, db2, a);
    }
  }

  // ---------------------------------------------------------------------------------------------
  // Commit by the marks of the reference
  // ---------------------------------------------------------------------------------------------

  /** Along the run the account was created and destroyed. */
  predicate RefVanishes(r: Ref, a: Address) {
    (a, Created) in r.marks && (a, SelfDestructed) in r.marks
  }

  predicate RefModified(r: Ref, a: Address) {
    (a, Touched) in r.marks || (a, Created) in r.marks || (a, SelfDestructed) in r.marks
  }

  /**
    * What a commit leaves of an address: its old entry, if it was created and destroyed or has no mark; otherwise a cold
    * entry with what the reference shows.
    */
  ghost predicate Settled(db: Db, r: Ref, db2: Db, a: Address) {
    && (RefVanishes(r, a) || !RefModified(r, a) ==> Entry(db2.accounts, a) == Entry(db.accounts, a))
    && (!RefVanishes(r, a) ==>
          Basic(db2, a) == RefInfo(db, r, a) && forall k: U256 :: DbStorage(db2, a, k) == RefValue(db, r, a, k))
    && (!RefVanishes(r, a) && RefModified(r, a) ==> a in db2.accounts && db2.accounts[a].status == {Cold})
  }

  lemma MarksAlike(db: Db, j: Journal, r: Ref, a: Address)
    requires Agree(db, j, r)
    ensures Vanishes(j, a) <==> RefVanishes(r, a)
    ensures RefModified(r, a) <==> a in j.accounts && !(j.accounts[a].status !! {Touched, Created, SelfDestructed})
    ensures AccountIsWarm(j, a) <==> a in r.seen && (a, Cold) !in r.marks
  {
    assert forall f: Flag :: Marked(j, a, f) <==> (a, f) in r.marks;
  }

  lemma SettledOne(e: Env, db: Db, j: Journal, r: Ref, db2: Db, a: Address)
    requires Agree(db, j, r) && Inv(db, j)
    requires var changes := IntoState(e, j);
             Entry(db2.accounts, a) ==
             (if a in changes then Merged(Entry(db.accounts, a), changes[a]) else Entry(db.accounts, a))
    ensures Settled(db, r, db2, a)
  {
    hide Inv, Basic, DbStorage, FetchSlot;
    MarksAlike(db, j, r, a);
    ShowsOne(e, db, j, db2, a);
    assert InfoAt(db, j, a) == RefInfo(db, r, a);
    assert forall k: U256 :: ValueAt(db, j, a, k) == RefValue(db, r, a, k);
  }

  /**
    * Whole runs: after any program of operations and nested calls from an empty journal, committing settles every address
    * by what the reference says.
    */
  lemma CommitAfterRun(e: Env, db: Db, ops: seq<Op>, db2: Db)
    requires Execute(e, db, EMPTY_JOURNAL, ops).Some?
    requires var j := Execute(e, db, EMPTY_JOURNAL, ops).value;
             forall a :: Entry(db2.accounts, a) ==
               (if a in IntoState(e, j) then Merged(Entry(db.accounts, a), IntoState(e, j)[a]) else Entry(db.accounts, a))
    ensures RefExecute(e, db, EMPTY_REF, ops).Some?
    ensures forall a :: Settled(db, RefExecute(e, db, EMPTY_REF, ops).value, db2, a)
  {
    hide Execute, RefExecute, Merged, IntoState, Agree, Inv, Settled;
    StartAgrees(db);
    ExecuteAgrees(e, db, EMPTY_JOURNAL, EMPTY_REF, ops);
    var j, r := Execute(e, db, EMPTY_JOURNAL, ops).value, RefExecute(e, db, EMPTY_REF, ops).value;
    forall a
      ensures Settled(db, r, db2, a)
    {
      SettledOne(e, db, j, r, db2, a);
    }
  }
}
