/**
  * The state journal of the EVM (`crates/evm_mlir/src/journal.rs`, `db.rs`) as values: a cache of accounts over a database,
  * and a reference that keeps only overwritten values.
  */
module Journal {
  import opened Prelude

  type U256 = x: nat | x < 0x1_0000000000000000_0000000000000000_0000000000000000_0000000000000000
  type Address = Bytes
  type B256 = s: Bytes | |s| == 32 witness Zeros(32)

  datatype Flag = Created | SelfDestructed | Touched | LoadedAsNotExisting | Cold
  type Status = set<Flag>

  datatype Info = Info(nonce: nat, balance: U256, codeHash: B256)
  datatype Slot = Slot(original: U256, present: U256)
  datatype Account = Account(info: Info, storage: map<U256, Slot>, status: Status)

  datatype DbAccount = DbAccount(info: Info, storage: map<U256, U256>, status: Status)
  datatype Db = Db(accounts: map<Address, DbAccount>, contracts: map<B256, Bytes>)

  /** The hash of code, and the hash that stands for no code. */
  datatype Env = Env(keccak: Bytes -> B256, empty: B256)

  function Basic(db: Db, a: Address): Option<Info> {
    if a in db.accounts then Some(db.accounts[a].info) else None
  }

  function DbStorage(db: Db, a: Address, k: U256): U256 {
    if a in db.accounts && k in db.accounts[a].storage then db.accounts[a].storage[k] else 0
  }

  function DbCode(db: Db, h: B256): Bytes {
    if h in db.contracts then db.contracts[h] else []
  }

  // ---------------------------------------------------------------------------------------------
  // The journal
  // ---------------------------------------------------------------------------------------------

  datatype Journal = Journal(accounts: map<Address, Account>, contracts: map<B256, Bytes>)

  const EMPTY_JOURNAL: Journal := Journal(map[], map[])

  /** `_get_account_mut`: an account that the database has is loaded on first use. */
  function Load(db: Db, j: Journal, a: Address): Journal {
    if a in j.accounts || a !in db.accounts then j
    else j.(accounts := j.accounts[a := Account(db.accounts[a].info, map[], {})])
  }

  function FetchSlot(db: Db, j: Journal, a: Address, k: U256): Slot {
    if a in j.accounts && k in j.accounts[a].storage then j.accounts[a].storage[k]
    else Slot(DbStorage(db, a, k), DbStorage(db, a, k))
  }

  function Put(j: Journal, a: Address, acc: Account): Journal {
    j.(accounts := j.accounts[a := acc])
  }

  function NewCreated(e: Env, balance: U256): Account {
    Account(Info(0, balance, e.empty), map[], {Created})
  }

  datatype Op =
    | GetAccount(a: Address)
    | SetBalance(a: Address, balance: U256)
    | SetNonce(a: Address, nonce: nat)
    | SetStatus(a: Address, status: Status)
    | NewAccount(a: Address, balance: U256)
    | NewContract(a: Address, code: Bytes, balance: U256)
    | AddAccountAsWarm(a: Address)
    | CodeByAddress(a: Address)
    | PrefetchKeys(a: Address, keys: seq<U256>)
    | ReadStorage(a: Address, key: U256)
    | WriteStorage(a: Address, key: U256, value: U256)
    | Call(body: seq<Op>, success: bool)

  function PrefetchedSlots(db: Db, a: Address, keys: seq<U256>): map<U256, Slot> {
    map k | k in keys :: Slot(DbStorage(db, a, k), DbStorage(db, a, k))
  }

  /** One operation other than a call; `None` is a failing `unwrap`. */
  function Apply(e: Env, db: Db, j: Journal, op: Op): Option<Journal>
    requires !op.Call?
  {
    match op
    case NewAccount(a, balance) => Some(Put(j, a, NewCreated(e, balance)))
    case NewContract(a, code, balance) =>
      var h := e.keccak(code);
      Some(Put(j, a, Account(Info(1, balance, h), map[], {Created})).(contracts := j.contracts[h := code]))
    case AddAccountAsWarm(a) =>
      var acc := if a in j.accounts then j.accounts[a] else NewCreated(e, 0);
      Some(Put(j, a, acc.(status := acc.status - {Cold})))
    case _ =>
      var l := Load(db, j, op.a);
      if op.a !in l.accounts then if op.WriteStorage? then None else Some(l)
      else Some(ApplyLoaded(db, l, op))
  }

  function ApplyLoaded(db: Db, j: Journal, op: Op): Journal
    requires !op.Call? && op.a in j.accounts
  {
    var acc := j.accounts[op.a];
    match op
    case SetBalance(a, balance) =>
      Put(j, a, acc.(info := acc.info.(balance := balance), status := acc.status + {Touched}))
    case SetNonce(a, nonce) =>
      Put(j, a, acc.(info := acc.info.(nonce := nonce), status := acc.status + {Touched}))
    case SetStatus(a, status) => Put(j, a, acc.(status := acc.status + status))
    case CodeByAddress(a) => Put(j, a, acc.(status := acc.status - {Cold}))
    case PrefetchKeys(a, keys) => Put(j, a, acc.(storage := acc.storage + PrefetchedSlots(db, a, keys)))
    case ReadStorage(a, key) => Put(j, a, acc.(storage := acc.storage[key := FetchSlot(db, j, a, key)]))
    case WriteStorage(a, key, value) =>
      Put(j, a, acc.(storage := acc.storage[key := FetchSlot(db, j, a, key).(present := value)],
                     status := acc.status + {Touched}))
    case _ => j
  }

  /** A run: a call works on a copy, which is kept on success and dropped on revert. */
  function Execute(e: Env, db: Db, j: Journal, ops: seq<Op>): Option<Journal>
    decreases ops
  {
    if ops == [] then Some(j)
    else
      var r := ExecuteOp(e, db, j, ops[0]);
      if r.None? then None else Execute(e, db, r.value, ops[1..])
  }

  function ExecuteOp(e: Env, db: Db, j: Journal, op: Op): Option<Journal>
    decreases op
  {
    match op
    case Call(body, success) =>
      var r := Execute(e, db, j, body);
      if r.None? then None else Some(if success then r.value else j)
    case _ => Apply(e, db, j, op)
  }

  // ---------------------------------------------------------------------------------------------
  // The visible state
  // ---------------------------------------------------------------------------------------------

  function InfoAt(db: Db, j: Journal, a: Address): Option<Info> {
    if a in j.accounts then Some(j.accounts[a].info) else Basic(db, a)
  }

  function ValueAt(db: Db, j: Journal, a: Address, k: U256): U256 {
    FetchSlot(db, j, a, k).present
  }

  function CodeAt(db: Db, j: Journal, h: B256): Bytes {
    if h in j.contracts then j.contracts[h] else DbCode(db, h)
  }

  predicate Marked(j: Journal, a: Address, f: Flag) {
    a in j.accounts && f in j.accounts[a].status
  }

  predicate AccountIsWarm(j: Journal, a: Address) {
    a in j.accounts && Cold !in j.accounts[a].status
  }

  predicate KeyIsWarm(j: Journal, a: Address, k: U256) {
    a in j.accounts && k in j.accounts[a].storage
  }

  // ---------------------------------------------------------------------------------------------
  // The reference
  // ---------------------------------------------------------------------------------------------

  /**
    * What was overwritten since the start, which accounts and slots were ever looked at, and the marks that accounts were
    * given since they were last looked up or created.
    */
  datatype Ref = Ref(
    infos: map<Address, Info>, slots: map<(Address, U256), U256>, codes: map<B256, Bytes>, seen: set<Address>,
    marks: set<(Address, Flag)>, keys: set<(Address, U256)>)

  const EMPTY_REF: Ref := Ref(map[], map[], map[], {}, {}, {})

  function RefInfo(db: Db, r: Ref, a: Address): Option<Info> {
    if a in r.infos then Some(r.infos[a]) else Basic(db, a)
  }

  function RefValue(db: Db, r: Ref, a: Address, k: U256): U256 {
    if (a, k) in r.slots then r.slots[(a, k)] else DbStorage(db, a, k)
  }

  function RefCode(db: Db, r: Ref, h: B256): Bytes {
    if h in r.codes then r.codes[h] else DbCode(db, h)
  }

  /** A new account starts over: its storage shows the database again, and its only mark is that it was created. */
  function RefNew(r: Ref, a: Address, info: Info): Ref {
    Ref(r.infos[a := info], map x | x in r.slots && x.0 != a :: r.slots[x], r.codes, r.seen + {a},
        (set m | m in r.marks && m.0 != a) + {(a, Created)}, set x | x in r.keys && x.0 != a)
  }

  /** The address is marked as well. */
  function Marking(r: Ref, a: Address, status: Status): Ref {
    r.(marks := r.marks + set f | f in status :: (a, f))
  }

  function RefApply(e: Env, db: Db, r: Ref, op: Op): Option<Ref>
    requires !op.Call?
  {
    var a := op.a;
    var info := RefInfo(db, r, a);
    if op.NewAccount? then Some(RefNew(r, a, Info(0, op.balance, e.empty)))
    else if op.NewContract? then
      var h := e.keccak(op.code);
      Some(RefNew(r, a, Info(1, op.balance, h)).(codes := r.codes[h := op.code]))
    else if op.AddAccountAsWarm? then
      Some(if a in r.seen then r.(marks := r.marks - {(a, Cold)}) else RefNew(r, a, Info(0, 0, e.empty)))
    else if info.None? then if op.WriteStorage? then None else Some(r)
    else Some(RefFound(r.(seen := r.seen + {a}), info.value, op))
  }

  /** An operation on an account that is there. */
  function RefFound(r: Ref, info: Info, op: Op): Ref
    requires !op.Call?
  {
    match op
    case SetBalance(a, balance) => Marking(r, a, {Touched}).(infos := r.infos[a := info.(balance := balance)])
    case SetNonce(a, nonce) => Marking(r, a, {Touched}).(infos := r.infos[a := info.(nonce := nonce)])
    case SetStatus(a, status) => Marking(r, a, status)
    case CodeByAddress(a) => r.(marks := r.marks - {(a, Cold)})
    case PrefetchKeys(a, keys) =>
      r.(slots := map x | x in r.slots && !(x.0 == a && x.1 in keys) :: r.slots[x], keys := r.keys + set k | k in keys :: (a, k))
    case ReadStorage(a, key) => r.(keys := r.keys + {(a, key)})
    case WriteStorage(a, key, value) =>
      Marking(r, a, {Touched}).(slots := r.slots[(a, key) := value], keys := r.keys + {(a, key)})
    case _ => r
  }

  function RefExecute(e: Env, db: Db, r: Ref, ops: seq<Op>): Option<Ref>
    decreases ops
  {
    if ops == [] then Some(r)
    else
      var s := RefExecuteOp(e, db, r, ops[0]);
      if s.None? then None else RefExecute(e, db, s.value, ops[1..])
  }

  function RefExecuteOp(e: Env, db: Db, r: Ref, op: Op): Option<Ref>
    decreases op
  {
    match op
    case Call(body, success) =>
      var s := RefExecute(e, db, r, body);
      if s.None? then None else Some(if success then s.value else r)
    case _ => RefApply(e, db, r, op)
  }

  // ---------------------------------------------------------------------------------------------
  // The journal shows what the reference shows
  // ---------------------------------------------------------------------------------------------

  ghost predicate Agree(db: Db, j: Journal, r: Ref) {
    && (forall a :: InfoAt(db, j, a) == RefInfo(db, r, a))
    && (forall a, k: U256 :: ValueAt(db, j, a, k) == RefValue(db, r, a, k))
    && (forall h: B256 :: CodeAt(db, j, h) == RefCode(db, r, h))
    && j.accounts.Keys == r.seen
    && (forall a, f: Flag :: Marked(j, a, f) <==> (a, f) in r.marks)
    && (forall a, k: U256 :: KeyIsWarm(j, a, k) <==> (a, k) in r.keys)
  }

  /** Cached slots remember the database's value. */
  ghost predicate Originals(db: Db, j: Journal) {
    forall a, k | a in j.accounts && k in j.accounts[a].storage ::
      j.accounts[a].storage[k].original == DbStorage(db, a, k)
  }

  /** An account without a mark is as the database has it. */
  ghost predicate CleanIsSame(db: Db, j: Journal) {
    forall a | a in j.accounts && j.accounts[a].status !! {Touched, Created} :: SameAsDb(db, j, a)
  }

  ghost predicate SameAsDb(db: Db, j: Journal, a: Address)
    requires a in j.accounts
  {
    && Basic(db, a) == Some(j.accounts[a].info)
    && forall k | k in j.accounts[a].storage :: j.accounts[a].storage[k].present == DbStorage(db, a, k)
  }

  ghost predicate Inv(db: Db, j: Journal) {
    Originals(db, j) && CleanIsSame(db, j)
  }

  lemma LoadAgrees(db: Db, j: Journal, r: Ref, a: Address)
    requires Agree(db, j, r) && Inv(db, j)
    ensures var l := Load(db, j, a);
            && Inv(db, l)
            && (a in l.accounts <==> RefInfo(db, r, a).Some?)
            && Agree(db, l, if RefInfo(db, r, a).Some? then r.(seen := r.seen + {a}) else r)
  {
    assert InfoAt(db, j, a) == RefInfo(db, r, a);
    var r2 := r.(seen := r.seen + {a});
    if a in j.accounts {
      assert r2 == r;
    } else if a in db.accounts {
      var acc := Account(db.accounts[a].info, map[], {});
      forall k: U256
        ensures RefValue(db, r2, a, k) == DbStorage(db, a, k) && (a, k) !in r2.keys
      {
        assert ValueAt(db, j, a, k) == RefValue(db, r, a, k);
        assert KeyIsWarm(j, a, k) <==> (a, k) in r.keys;
      }
      assert forall f: Flag :: Marked(j, a, f) <==> (a, f) in r.marks;
      PutAgrees(db, j, r, a, acc, r2);
    }
  }

  /** The account at `a` is replaced. */
  lemma PutAgrees(db: Db, j: Journal, r: Ref, a: Address, acc: Account, r2: Ref)
    requires Agree(db, j, r) && Inv(db, j)
    requires forall k | k in acc.storage :: acc.storage[k].original == DbStorage(db, a, k)
    requires acc.status !! {Touched, Created} ==> SameAsDb(db, Put(j, a, acc), a)
    requires RefInfo(db, r2, a) == Some(acc.info) && r2.seen == r.seen + {a} && r2.codes == r.codes
    requires forall x | x != a :: RefInfo(db, r2, x) == RefInfo(db, r, x)
    requires forall k: U256 ::
               RefValue(db, r2, a, k) == if k in acc.storage then acc.storage[k].present else DbStorage(db, a, k)
    requires forall x, k: U256 | x != a :: RefValue(db, r2, x, k) == RefValue(db, r, x, k)
    requires forall f: Flag :: (a, f) in r2.marks <==> f in acc.status
    requires forall x, f: Flag | x != a :: (x, f) in r2.marks <==> (x, f) in r.marks
    requires forall k: U256 :: (a, k) in r2.keys <==> k in acc.storage
    requires forall x, k: U256 | x != a :: (x, k) in r2.keys <==> (x, k) in r.keys
    ensures Agree(db, Put(j, a, acc), r2) && Inv(db, Put(j, a, acc))
  {
    hide Basic, DbStorage, DbCode, RefInfo, RefValue;
    var j2 := Put(j, a, acc);
    forall x
      ensures InfoAt(db, j2, x) == RefInfo(db, r2, x)
    {
      if x != a {
        assert InfoAt(db, j, x) == RefInfo(db, r, x);
      }
    }
    forall x, k: U256
      ensures ValueAt(db, j2, x, k) == RefValue(db, r2, x, k)
    {
      if x != a {
        assert ValueAt(db, j, x, k) == RefValue(db, r, x, k);
      }
    }
    forall h: B256
      ensures CodeAt(db, j2, h) == RefCode(db, r2, h)
    {
      assert CodeAt(db, j, h) == RefCode(db, r, h);
    }
    forall x, f: Flag
      ensures Marked(j2, x, f) <==> (x, f) in r2.marks
    {
      if x != a {
        assert Marked(j, x, f) <==> (x, f) in r.marks;
      }
    }
    forall x, k: U256
      ensures KeyIsWarm(j2, x, k) <==> (x, k) in r2.keys
    {
      if x != a {
        assert KeyIsWarm(j, x, k) <==> (x, k) in r.keys;
      }
    }
    forall x | x in j2.accounts && j2.accounts[x].status !! {Touched, Created}
      ensures SameAsDb(db, j2, x)
    {
      if x != a {
        assert SameAsDb(db, j, x);
      }
    }
  }

  lemma NewAgrees(db: Db, j: Journal, r: Ref, a: Address, acc: Account)
    requires Agree(db, j, r) && Inv(db, j) && acc.storage == map[] && acc.status == {Created}
    ensures Agree(db, Put(j, a, acc), RefNew(r, a, acc.info)) && Inv(db, Put(j, a, acc))
  {
    hide Agree, Inv, Basic, DbStorage;
    assert Created in {Touched, Created};
    PutAgrees(db, j, r, a, acc, RefNew(r, a, acc.info));
  }

  lemma CodeAgrees(db: Db, j: Journal, r: Ref, h: B256, code: Bytes)
    requires Agree(db, j, r) && Inv(db, j)
    ensures var j2, r2 := j.(contracts := j.contracts[h := code]), r.(codes := r.codes[h := code]);
            Agree(db, j2, r2) && Inv(db, j2)
  {
    hide Basic, DbStorage, DbCode;
    var j2, r2 := j.(contracts := j.contracts[h := code]), r.(codes := r.codes[h := code]);
    forall x: B256
      ensures CodeAt(db, j2, x) == RefCode(db, r2, x)
    {
      assert CodeAt(db, j, x) == RefCode(db, r, x);
    }
    forall a, f: Flag
      ensures Marked(j2, a, f) <==> (a, f) in r2.marks
    {
      assert Marked(j, a, f) <==> (a, f) in r.marks;
    }
    forall a, k: U256
      ensures KeyIsWarm(j2, a, k) <==> (a, k) in r2.keys
    {
      assert KeyIsWarm(j, a, k) <==> (a, k) in r.keys;
    }
    forall a
      ensures InfoAt(db, j2, a) == RefInfo(db, r2, a)
    {
      assert InfoAt(db, j, a) == RefInfo(db, r, a);
    }
    forall a, k: U256
      ensures ValueAt(db, j2, a, k) == RefValue(db, r2, a, k)
    {
      assert ValueAt(db, j, a, k) == RefValue(db, r, a, k);
    }
    forall a | a in j2.accounts && j2.accounts[a].status !! {Touched, Created}
      ensures SameAsDb(db, j2, a)
    {
      assert SameAsDb(db, j, a);
    }
  }

  /** What agreement says about one cached account. */
  lemma AgreeAt(db: Db, j: Journal, r: Ref, a: Address)
    requires Agree(db, j, r) && a in j.accounts
    ensures RefInfo(db, r, a) == Some(j.accounts[a].info) && a in r.seen
    ensures forall k: U256 :: RefValue(db, r, a, k) ==
              if k in j.accounts[a].storage then j.accounts[a].storage[k].present else DbStorage(db, a, k)
    ensures forall f: Flag :: (a, f) in r.marks <==> f in j.accounts[a].status
    ensures forall k: U256 :: (a, k) in r.keys <==> k in j.accounts[a].storage
  {
    hide Basic, DbStorage, DbCode, RefInfo, RefValue;
    assert InfoAt(db, j, a) == RefInfo(db, r, a);
    assert forall f: Flag :: Marked(j, a, f) <==> (a, f) in r.marks;
    assert forall k: U256 :: KeyIsWarm(j, a, k) <==> (a, k) in r.keys;
    forall k: U256
      ensures RefValue(db, r, a, k) ==
              if k in j.accounts[a].storage then j.accounts[a].storage[k].present else DbStorage(db, a, k)
    {
      assert ValueAt(db, j, a, k) == RefValue(db, r, a, k);
    }
  }

  lemma MarkAgrees(db: Db, j: Journal, r: Ref, a: Address, status: Status, r2: Ref)
    requires Agree(db, j, r) && Inv(db, j) && a in j.accounts
    requires status !! {Touched, Created} ==> j.accounts[a].status !! {Touched, Created}
    requires r2 == r.(marks := r2.marks)
    requires forall f: Flag :: (a, f) in r2.marks <==> f in status
    requires forall x, f: Flag | x != a :: (x, f) in r2.marks <==> (x, f) in r.marks
    ensures var j2 := Put(j, a, j.accounts[a].(status := status));
            Agree(db, j2, r2) && Inv(db, j2)
  {
    hide Agree, Basic, DbStorage, DbCode, RefValue;
    AgreeAt(db, j, r, a);
    var acc := j.accounts[a].(status := status);
    SameValues(db, r, r2);
    assert r.seen == r.seen + {a};
    if status !! {Touched, Created} {
      assert SameAsDb(db, j, a);
    }
    PutAgrees(db, j, r, a, acc, r2);
  }

  lemma SameValues(db: Db, r: Ref, r2: Ref)
    requires r2.slots == r.slots
    ensures forall a, k: U256 :: RefValue(db, r2, a, k) == RefValue(db, r, a, k)
  {
  }

  lemma InfoAgrees(db: Db, j: Journal, r: Ref, a: Address, info: Info)
    requires Agree(db, j, r) && Inv(db, j) && a in j.accounts
    ensures var acc := j.accounts[a];
            var j2 := Put(j, a, acc.(info := info, status := acc.status + {Touched}));
            Agree(db, j2, Marking(r, a, {Touched}).(infos := r.infos[a := info])) && Inv(db, j2)
  {
    hide Agree, Basic, DbStorage, DbCode, RefValue;
    AgreeAt(db, j, r, a);
    var acc := j.accounts[a].(info := info, status := j.accounts[a].status + {Touched});
    var r2 := Marking(r, a, {Touched}).(infos := r.infos[a := info]);
    SameValues(db, r, r2);
    assert Touched in acc.status && Touched in {Touched, Created};
    PutAgrees(db, j, r, a, acc, r2);
  }

  /** A slot is cached or written. */
  lemma SlotAgrees(db: Db, j: Journal, r: Ref, a: Address, key: U256, value: U256, status: Status, r2: Ref)
    requires Agree(db, j, r) && Inv(db, j) && a in j.accounts
    requires || (status == j.accounts[a].status && value == FetchSlot(db, j, a, key).present && r2 == r.(keys := r2.keys))
             || (status == j.accounts[a].status + {Touched}
                 && r2 == Marking(r, a, {Touched}).(slots := r.slots[(a, key) := value], keys := r2.keys))
    requires r2.keys == r.keys + {(a, key)}
    ensures var acc := j.accounts[a];
            var slot := FetchSlot(db, j, a, key).(present := value);
            var j2 := Put(j, a, acc.(storage := acc.storage[key := slot], status := status));
            Agree(db, j2, r2) && Inv(db, j2)
  {
    hide Agree, Basic, DbStorage, DbCode;
    AgreeAt(db, j, r, a);
    var slot := FetchSlot(db, j, a, key).(present := value);
    var acc := j.accounts[a].(storage := j.accounts[a].storage[key := slot], status := status);
    forall k: U256
      ensures RefValue(db, r2, a, k) == if k in acc.storage then acc.storage[k].present else DbStorage(db, a, k)
    {
      assert k != key ==> RefValue(db, r2, a, k) == RefValue(db, r, a, k);
    }
    if status !! {Touched, Created} {
      assert status == j.accounts[a].status by {
        assert Touched in {Touched, Created};
      }
      assert SameAsDb(db, j, a);
    }
    assert r.seen == r.seen + {a};
    PutAgrees(db, j, r, a, acc, r2);
  }

  lemma PrefetchAgrees(db: Db, j: Journal, r: Ref, a: Address, keys: seq<U256>, r2: Ref)
    requires Agree(db, j, r) && Inv(db, j) && a in j.accounts
    requires r2 == r.(slots := map x | x in r.slots && !(x.0 == a && x.1 in keys) :: r.slots[x], keys := r2.keys)
    requires r2.keys == r.keys + set k | k in keys :: (a, k)
    ensures var acc := j.accounts[a];
            var j2 := Put(j, a, acc.(storage := acc.storage + PrefetchedSlots(db, a, keys)));
            Agree(db, j2, r2) && Inv(db, j2)
  {
    hide Agree, Basic, DbStorage, DbCode;
    AgreeAt(db, j, r, a);
    var acc := j.accounts[a].(storage := j.accounts[a].storage + PrefetchedSlots(db, a, keys));
    forall k: U256
      ensures RefValue(db, r2, a, k) == if k in acc.storage then acc.storage[k].present else DbStorage(db, a, k)
    {
      assert k !in keys ==> RefValue(db, r2, a, k) == RefValue(db, r, a, k);
    }
    if acc.status !! {Touched, Created} {
      assert SameAsDb(db, j, a);
    }
    assert r.seen == r.seen + {a};
    PutAgrees(db, j, r, a, acc, r2);
  }

  lemma ApplyLoadedAgrees(db: Db, j: Journal, r: Ref, op: Op)
    requires !op.Call? && !op.NewAccount? && !op.NewContract? && !op.AddAccountAsWarm? && op.a in j.accounts
    requires Agree(db, j, r) && Inv(db, j)
    ensures RefInfo(db, r, op.a) == Some(j.accounts[op.a].info)
    ensures var r2 := RefFound(r, j.accounts[op.a].info, op);
            Agree(db, ApplyLoaded(db, j, op), r2) && Inv(db, ApplyLoaded(db, j, op))
  {
    hide Agree, Inv, RefInfo, RefValue, Basic, DbStorage, PrefetchedSlots;
    AgreeAt(db, j, r, op.a);
    var acc := j.accounts[op.a];
    var r2 := RefFound(r, acc.info, op);
    match op
    case SetBalance(a, balance) => InfoAgrees(db, j, r, a, acc.info.(balance := balance));
    case SetNonce(a, nonce) => InfoAgrees(db, j, r, a, acc.info.(nonce := nonce));
    case SetStatus(a, status) => MarkAgrees(db, j, r, a, acc.status + status, r2);
    case CodeByAddress(a) => MarkAgrees(db, j, r, a, acc.status - {Cold}, r2);
    case PrefetchKeys(a, keys) => PrefetchAgrees(db, j, r, a, keys, r2);
    case ReadStorage(a, key) => SlotAgrees(db, j, r, a, key, FetchSlot(db, j, a, key).present, acc.status, r2);
    case WriteStorage(a, key, value) => SlotAgrees(db, j, r, a, key, value, acc.status + {Touched}, r2);
    case _ =>
  }

  /** Every operation does to the journal what it does to the reference, and fails exactly when it fails there. */
  lemma ApplyAgrees(e: Env, db: Db, j: Journal, r: Ref, op: Op)
    requires !op.Call? && Agree(db, j, r) && Inv(db, j)
    ensures Apply(e, db, j, op).None? <==> RefApply(e, db, r, op).None?
    ensures Apply(e, db, j, op).Some? ==>
              Agree(db, Apply(e, db, j, op).value, RefApply(e, db, r, op).value) && Inv(db, Apply(e, db, j, op).value)
  {
    hide Agree, Inv, RefInfo, RefValue, ApplyLoaded, Load;
    var a := op.a;
    if op.NewAccount? {
      NewAgrees(db, j, r, a, NewCreated(e, op.balance));
    } else if op.NewContract? {
      var h := e.keccak(op.code);
      var acc := Account(Info(1, op.balance, h), map[], {Created});
      NewAgrees(db, j, r, a, acc);
      CodeAgrees(db, Put(j, a, acc), RefNew(r, a, acc.info), h, op.code);
    } else if op.AddAccountAsWarm? {
      WarmAgrees(e, db, j, r, a);
    } else {
      LoadAgrees(db, j, r, a);
      var l := Load(db, j, a);
      if a in l.accounts {
        SeenOnly(db, r, a);
        ApplyLoadedAgrees(db, l, r.(seen := r.seen + {a}), op);
      }
    }
  }

  lemma SeenOnly(db: Db, r: Ref, a: Address)
    ensures RefInfo(db, r.(seen := r.seen + {a}), a) == RefInfo(db, r, a)
  {
  }

  lemma WarmAgrees(e: Env, db: Db, j: Journal, r: Ref, a: Address)
    requires Agree(db, j, r) && Inv(db, j)
    ensures var op := AddAccountAsWarm(a);
            var j2 := Apply(e, db, j, op);
            j2.Some? && RefApply(e, db, r, op).Some? && Agree(db, j2.value, RefApply(e, db, r, op).value) && Inv(db, j2.value)
  {
    hide Inv, RefInfo, RefValue, InfoAt, ValueAt, CodeAt;
    if a in j.accounts {
      AgreeAt(db, j, r, a);
      MarkAgrees(db, j, r, a, j.accounts[a].status - {Cold}, r.(marks := r.marks - {(a, Cold)}));
    } else {
      var acc := NewCreated(e, 0);
      assert acc.status - {Cold} == acc.status;
      NewAgrees(db, j, r, a, acc.(status := acc.status - {Cold}));
    }
  }

  /** Main law: after every run, with any nesting of calls and reverts, the journal shows what the reference shows. */
  lemma {:induction false} ExecuteAgrees(e: Env, db: Db, j: Journal, r: Ref, ops: seq<Op>)
    requires Agree(db, j, r) && Inv(db, j)
    ensures Execute(e, db, j, ops).None? <==> RefExecute(e, db, r, ops).None?
    ensures Execute(e, db, j, ops).Some? ==>
              Agree(db, Execute(e, db, j, ops).value, RefExecute(e, db, r, ops).value)
              && Inv(db, Execute(e, db, j, ops).value)
    decreases ops
  {
    hide Agree, Inv, ExecuteOp, RefExecuteOp;
    if ops != [] {
      ExecuteOpAgrees(e, db, j, r, ops[0]);
      if ExecuteOp(e, db, j, ops[0]).Some? {
        ExecuteAgrees(e, db, ExecuteOp(e, db, j, ops[0]).value, RefExecuteOp(e, db, r, ops[0]).value, ops[1..]);
      }
    }
  }

  lemma {:induction false} ExecuteOpAgrees(e: Env, db: Db, j: Journal, r: Ref, op: Op)
    requires Agree(db, j, r) && Inv(db, j)
    ensures ExecuteOp(e, db, j, op).None? <==> RefExecuteOp(e, db, r, op).None?
    ensures ExecuteOp(e, db, j, op).Some? ==>
              Agree(db, ExecuteOp(e, db, j, op).value, RefExecuteOp(e, db, r, op).value)
              && Inv(db, ExecuteOp(e, db, j, op).value)
    decreases op
  {
    hide Agree, Inv, Execute, RefExecute, Apply, RefApply;
    match op
    case Call(body, _) => ExecuteAgrees(e, db, j, r, body);
    case _ => ApplyAgrees(e, db, j, r, op);
  }

  lemma StartAgrees(db: Db)
    ensures Agree(db, EMPTY_JOURNAL, EMPTY_REF) && Inv(db, EMPTY_JOURNAL)
  {
  }
}
