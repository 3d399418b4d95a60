/**
  * The reference as a machine without recursion: a call enters a frame by pushing a snapshot, success hands the top of the
  * stack to the caller, and a revert drops it.
  */
module JournalStack {
  import opened Prelude
  import opened Journal

  datatype Event = Do(op: Op) | Enter | Leave(success: bool)

  function Flatten(ops: seq<Op>): seq<Event>
    decreases ops
  {
    if ops == [] then [] else FlattenOp(ops[0]) + Flatten(ops[1..])
  }

  function FlattenOp(op: Op): seq<Event>
    decreases op
  {
    match op
    case Call(body, success) => [Enter] + Flatten(body) + [Leave(success)]
    case _ => [Do(op)]
  }

  /** `None` is a failing `unwrap` or an event that is out of place. */
  function Advance(e: Env, db: Db, stack: seq<Ref>, event: Event): (r: Option<seq<Ref>>)
    requires stack != []
    ensures r.Some? ==> r.value != []
  {
    var n := |stack| - 1;
    match event
    case Do(op) =>
      var s := if op.Call? then None else RefApply(e, db, stack[n], op);
      if s.None? then None else Some(stack[..n] + [s.value])
    case Enter => Some(stack + [stack[n]])
    case Leave(success) =>
      if n == 0 then None else Some(if success then stack[..n - 1] + [stack[n]] else stack[..n])
  }

  function Replay(e: Env, db: Db, stack: seq<Ref>, events: seq<Event>): Option<seq<Ref>>
    requires stack != []
    decreases |events|
  {
    if events == [] then Some(stack)
    else
      var s := Advance(e, db, stack, events[0]);
      if s.None? then None else Replay(e, db, s.value, events[1..])
  }

  /** Where a run leads, with the frames below it untouched and more events to come. */
  function Onward(e: Env, db: Db, below: seq<Ref>, r: Option<Ref>, rest: seq<Event>): Option<seq<Ref>> {
    if r.None? then None else Replay(e, db, below + [r.value], rest)
  }

  lemma {:induction false} ReplayRun(e: Env, db: Db, below: seq<Ref>, r: Ref, ops: seq<Op>, rest: seq<Event>)
    ensures Replay(e, db, below + [r], Flatten(ops) + rest) == Onward(e, db, below, RefExecute(e, db, r, ops), rest)
    decreases ops
  {
    hide Advance, FlattenOp, RefExecuteOp;
    if ops == [] {
      assert [] + rest == rest;
    } else {
      var after := Flatten(ops[1..]) + rest;
      assert Flatten(ops) + rest == FlattenOp(ops[0]) + after;
      ReplayOp(e, db, below, r, ops[0], after);
      var s := RefExecuteOp(e, db, r, ops[0]);
      if s.Some? {
        ReplayRun(e, db, below, s.value, ops[1..], rest);
      }
    }
  }

  lemma {:induction false} ReplayOp(e: Env, db: Db, below: seq<Ref>, r: Ref, op: Op, rest: seq<Event>)
    ensures Replay(e, db, below + [r], FlattenOp(op) + rest) == Onward(e, db, below, RefExecuteOp(e, db, r, op), rest)
    decreases op
  {
    hide RefExecute, RefApply, Flatten;
    match op
    case Call(body, success) =>
      var back := [Leave(success)] + rest;
      assert FlattenOp(op) + rest == [Enter] + (Flatten(body) + back);
      assert ([Enter] + (Flatten(body) + back))[1..] == Flatten(body) + back;
      ReplayRun(e, db, below + [r], r, body, back);
      var s := RefExecute(e, db, r, body);
      if s.Some? {
        assert back[1..] == rest;
        var stack := below + [r] + [s.value];
        assert stack[..|below|] == below && stack[..|below| + 1] == below + [r];
      }
    case _ =>
      assert ([Do(op)] + rest)[1..] == rest;
      assert (below + [r])[..|below|] == below;
  }

  /**
    * Every program of operations and nested calls, from an empty journal: the journal's run fails exactly when the stack
    * machine's does, and otherwise the stack is back to one snapshot, which shows what the journal shows.
    */
  lemma SnapshotsAgree(e: Env, db: Db, ops: seq<Op>)
    ensures var j := Execute(e, db, EMPTY_JOURNAL, ops);
            var s := Replay(e, db, [EMPTY_REF], Flatten(ops));
            && (j.None? <==> s.None?)
            && (s.Some? ==> |s.value| == 1 && Agree(db, j.value, s.value[0]))
  {
    hide Execute, RefExecute, Flatten, Agree;
    ReplayRun(e, db, [], EMPTY_REF, ops, []);
    assert [] + [EMPTY_REF] == [EMPTY_REF] && Flatten(ops) + [] == Flatten(ops);
    StartAgrees(db);
    ExecuteAgrees(e, db, EMPTY_JOURNAL, EMPTY_REF, ops);
  }
}
