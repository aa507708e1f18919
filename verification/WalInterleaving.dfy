/** Calls on the log running in threads (core/wal.py under the locks of core/file_lock.py).

    One step is one lock acquisition, lock release, file read or file write of one call. A
    rewrite is two steps: opening for writing empties the file, and the records follow. Locks
    are re-entrant, and a call that reads through `load_records` takes its lock twice. Each
    call is its own lock owner: a thread that makes several calls holds nothing in between. */
module WalInterleaving {
  import opened Wal

  type CallId = nat

  datatype Pc =
    | Start       // nothing held
    | Entered     // outer lock held
    | Loading     // inside load_records, before reading
    | Loaded      // inside load_records, file read
    | Checked     // back in the outer block with the records read
    | Appending   // inside append_record, before writing
    | Written     // inside append_record, line written
    | Truncated   // rewriting: file emptied, records not yet written
    | Leaving     // outer block finished
    | Finished    // returned

  datatype CallState = CallState(op: Op, pc: Pc, snapshot: seq<WalRecord>, result: bool)
  datatype Lock = Unlocked | Held(owner: CallId, depth: nat)
  datatype State = State(files: map<string, seq<WalRecord>>, locks: map<string, Lock>, calls: map<CallId, CallState>)

  function FileOf(s: State, key: string): seq<WalRecord> {
    if key in s.files then s.files[key] else []
  }

  /** `get_space_lock` creates a missing lock, which is free. */
  function LockOf(s: State, key: string): Lock {
    if key in s.locks then s.locks[key] else Unlocked
  }

  /** How many times a call at this point holds its lock. */
  function Depth(op: Op, pc: Pc): nat {
    match pc
    case Start => 0
    case Finished => 0
    case Entered => 1
    case Checked => 1
    case Truncated => 1
    case Leaving => 1
    case Loading => if op.Load? then 1 else 2
    case Loaded => if op.Load? then 1 else 2
    case Appending => 2
    case Written => 2
  }

  predicate CanAcquire(s: State, c: CallId)
    requires c in s.calls
  {
    var lock := LockOf(s, KeyOf(s.calls[c].op));
    lock.Unlocked? || lock.owner == c
  }

  /** Only an acquisition can have to wait. */
  predicate Enabled(s: State, c: CallId) {
    c in s.calls &&
    match s.calls[c].pc
    case Finished => false
    case Start => CanAcquire(s, c)
    case Entered => CanAcquire(s, c)
    case Checked =>
      s.calls[c].op.AppendOnce? && !MessageIn(s.calls[c].snapshot, s.calls[c].op.record.messageId) ==> CanAcquire(s, c)
    case Appending => s.calls[c].op.AppendOnce?
    case _ => true
  }

  /** What one step makes of the call and of its file. */
  function StepCall(s: State, c: CallId): (CallState, seq<WalRecord>)
    requires Enabled(s, c)
  {
    var call := s.calls[c];
    var file := FileOf(s, KeyOf(call.op));
    match call.pc
    case Start => (call.(pc := if call.op.Load? then Loading else Entered), file)
    case Entered => (call.(pc := Loading), file)
    case Loading => (call.(pc := Loaded, snapshot := file), file)
    case Loaded => (call.(pc := if call.op.Load? then Finished else Checked), file)
    case Checked =>
      if !call.op.AppendOnce? then (call.(pc := Truncated), [])
      else if MessageIn(call.snapshot, call.op.record.messageId) then (call.(pc := Leaving, result := false), file)
      else (call.(pc := Appending), file)
    case Appending => (call.(pc := Written, result := true), file + [call.op.record])
    case Written => (call.(pc := Leaving), file)
    case Truncated => (call.(pc := Leaving), Effect(call.op, call.snapshot))
    case Leaving => (call.(pc := Finished), file)
    case Finished => (call, file)
  }

  /** One step of call `c`; the lock is re-acquired or released as its new point requires. */
  function Step(s: State, c: CallId): State
    requires Enabled(s, c)
  {
    var (call, file) := StepCall(s, c);
    var key, depth := KeyOf(call.op), Depth(call.op, call.pc);
    State(
      s.files[key := file],
      s.locks[key := if depth == 0 then Unlocked else Held(c, depth)],
      s.calls[c := call])
  }

  // ----- the invariant -----

  ghost predicate LocksAgree(s: State) {
    && (forall c :: c in s.calls && Depth(s.calls[c].op, s.calls[c].pc) > 0 ==>
          LockOf(s, KeyOf(s.calls[c].op)) == Held(c, Depth(s.calls[c].op, s.calls[c].pc)))
    && (forall key :: LockOf(s, key).Held? ==>
          && LockOf(s, key).owner in s.calls
          && KeyOf(s.calls[LockOf(s, key).owner].op) == key
          && Depth(s.calls[LockOf(s, key).owner].op, s.calls[LockOf(s, key).owner].pc) > 0)
  }

  /** What a call knows about its file at each point where it holds the lock. */
  ghost predicate CallAgrees(call: CallState, file: seq<WalRecord>) {
    && (call.pc in {Loaded, Checked, Appending} ==> call.snapshot == file)
    && (call.pc == Truncated ==> file == [])
    && (call.pc in {Appending, Written} ==> call.op.AppendOnce?)
    && (call.pc == Truncated ==> !call.op.AppendOnce? && !call.op.Load?)
    && (call.pc in {Entered, Checked, Leaving} ==> !call.op.Load?)
    && (call.pc == Appending ==> !MessageIn(file, call.op.record.messageId))
    && (call.pc == Written ==> call.result)
  }

  ghost predicate Inv(s: State) {
    && LocksAgree(s)
    && forall c :: c in s.calls ==> CallAgrees(s.calls[c], FileOf(s, KeyOf(s.calls[c].op)))
  }

  /** The log other calls can observe: during a rewrite, the records being written. */
  function View(s: State, key: string): seq<WalRecord> {
    var lock := LockOf(s, key);
    if lock.Held? && lock.owner in s.calls && s.calls[lock.owner].pc == Truncated
    then Effect(s.calls[lock.owner].op, s.calls[lock.owner].snapshot)
    else FileOf(s, key)
  }

  /** Two calls on one file are never inside their blocks together. */
  lemma MutualExclusion(s: State, c: CallId, d: CallId)
    requires LocksAgree(s) && c in s.calls && d in s.calls
    requires KeyOf(s.calls[c].op) == KeyOf(s.calls[d].op)
    requires Depth(s.calls[c].op, s.calls[c].pc) > 0 && Depth(s.calls[d].op, s.calls[d].pc) > 0
    ensures c == d
  {
  }

  /** `s'` differs from `s` by one call moving to `call`, and by what happens to its file. */
  ghost predicate Moves(s: State, s': State, c: CallId, call: CallState, file: seq<WalRecord>) {
    && c in s.calls && call.op == s.calls[c].op
    && s'.calls == s.calls[c := call]
    && s'.locks == s.locks[KeyOf(call.op) := if Depth(call.op, call.pc) == 0 then Unlocked else Held(c, Depth(call.op, call.pc))]
    && FileOf(s', KeyOf(call.op)) == file
    && forall key :: key != KeyOf(call.op) ==> FileOf(s', key) == FileOf(s, key)
  }

  /** The call may move: it holds its lock, or it takes a free one. */
  ghost predicate MayMove(s: State, c: CallId, call: CallState) {
    && c in s.calls
    && (Depth(s.calls[c].op, s.calls[c].pc) > 0 || (CanAcquire(s, c) && Depth(call.op, call.pc) > 0))
  }

  lemma MoveKeepsLocks(s: State, s': State, c: CallId, call: CallState, file: seq<WalRecord>)
    requires LocksAgree(s) && Moves(s, s', c, call, file) && MayMove(s, c, call)
    ensures LocksAgree(s')
  {
    forall d | d in s'.calls && Depth(s'.calls[d].op, s'.calls[d].pc) > 0
      ensures LockOf(s', KeyOf(s'.calls[d].op)) == Held(d, Depth(s'.calls[d].op, s'.calls[d].pc))
    {
      if d != c {
        assert LockOf(s, KeyOf(s.calls[d].op)) == Held(d, Depth(s.calls[d].op, s.calls[d].pc));
      }
    }
    forall key | LockOf(s', key).Held?
      ensures LockOf(s', key).owner in s'.calls
      ensures KeyOf(s'.calls[LockOf(s', key).owner].op) == key
      ensures Depth(s'.calls[LockOf(s', key).owner].op, s'.calls[LockOf(s', key).owner].pc) > 0
    {
      if key != KeyOf(call.op) {
        assert LockOf(s, key) == LockOf(s', key);
      }
    }
  }

  lemma MoveKeepsInv(s: State, s': State, c: CallId, call: CallState, file: seq<WalRecord>)
    requires Inv(s) && Moves(s, s', c, call, file) && MayMove(s, c, call)
    requires CallAgrees(call, file)
    requires Depth(s.calls[c].op, s.calls[c].pc) == 0 ==> file == FileOf(s, KeyOf(call.op))
    ensures Inv(s')
  {
    MoveKeepsLocks(s, s', c, call, file);
    forall d | d in s'.calls ensures CallAgrees(s'.calls[d], FileOf(s', KeyOf(s'.calls[d].op))) {
      if d != c { OtherAgrees(s, s', c, call, file, d); }
    }
  }

  lemma OtherAgrees(s: State, s': State, c: CallId, call: CallState, file: seq<WalRecord>, d: CallId)
    requires Inv(s) && Moves(s, s', c, call, file) && MayMove(s, c, call)
    requires Depth(s.calls[c].op, s.calls[c].pc) == 0 ==> file == FileOf(s, KeyOf(call.op))
    requires d in s.calls && d != c
    ensures d in s'.calls && CallAgrees(s'.calls[d], FileOf(s', KeyOf(s'.calls[d].op)))
  {
    assert CallAgrees(s.calls[d], FileOf(s, KeyOf(s.calls[d].op)));
    if Depth(s.calls[d].op, s.calls[d].pc) > 0 && KeyOf(s.calls[d].op) == KeyOf(call.op) {
      assert file == FileOf(s, KeyOf(call.op)) by {
        if Depth(s.calls[c].op, s.calls[c].pc) > 0 {
          MutualExclusion(s, c, d);
        }
      }
    }
  }

  lemma StepMoves(s: State, c: CallId)
    requires Enabled(s, c)
    ensures Moves(s, Step(s, c), c, StepCall(s, c).0, StepCall(s, c).1)
  {
  }

  lemma StepKeepsInv(s: State, c: CallId)
    requires Inv(s) && Enabled(s, c)
    ensures Inv(Step(s, c))
  {
    StepMoves(s, c);
    assert CallAgrees(s.calls[c], FileOf(s, KeyOf(s.calls[c].op)));
    MoveKeepsInv(s, Step(s, c), c, StepCall(s, c).0, StepCall(s, c).1);
  }

  // ----- every step refines the atomic operations -----

  /** The step at which the call takes effect: its write, its rejection or its read. */
  predicate TakesEffect(s: State, c: CallId)
    requires c in s.calls
  {
    var call := s.calls[c];
    match call.op
    case Load(_) => call.pc == Loading
    case AppendOnce(r) => call.pc == Appending || (call.pc == Checked && MessageIn(call.snapshot, r.messageId))
    case _ => call.pc == Checked
  }

  predicate TookEffect(call: CallState) {
    call.pc in {Written, Truncated, Leaving, Finished} || (call.op.Load? && call.pc == Loaded)
  }

  /** A call takes effect once, and what it reports is settled then. */
  lemma StepTakesEffectOnce(s: State, c: CallId)
    requires Inv(s) && Enabled(s, c)
    ensures var call, call' := s.calls[c], Step(s, c).calls[c];
      && call'.op == call.op
      && (TakesEffect(s, c) <==> !TookEffect(call) && TookEffect(call'))
      && (TookEffect(call) ==> TookEffect(call') && call'.result == call.result && call'.snapshot == call.snapshot)
  {
    assert CallAgrees(s.calls[c], FileOf(s, KeyOf(s.calls[c].op)));
  }

  /** What the observable log of `key` is after a step of `c`. */
  function ViewAfter(s: State, c: CallId, key: string): seq<WalRecord>
    requires c in s.calls
  {
    if key == KeyOf(s.calls[c].op) && TakesEffect(s, c) then Effect(s.calls[c].op, View(s, key)) else View(s, key)
  }

  /** The log others can observe while this call holds the lock, or nobody does. */
  function Seen(call: CallState, file: seq<WalRecord>): seq<WalRecord> {
    if call.pc == Truncated then Effect(call.op, call.snapshot) else file
  }

  lemma SeenStep(s: State, c: CallId)
    requires Enabled(s, c) && CallAgrees(s.calls[c], FileOf(s, KeyOf(s.calls[c].op)))
    ensures var call, file, step := s.calls[c], FileOf(s, KeyOf(s.calls[c].op)), StepCall(s, c);
      Seen(step.0, step.1) == if TakesEffect(s, c) then Effect(call.op, Seen(call, file)) else Seen(call, file)
  {
    EffectOfRead(s.calls[c].op, FileOf(s, KeyOf(s.calls[c].op)));
  }

  lemma OwnAfterStep(s: State, c: CallId)
    requires Enabled(s, c)
    ensures var key, step := KeyOf(s.calls[c].op), StepCall(s, c);
      && step.0.op == s.calls[c].op && c in Step(s, c).calls && Step(s, c).calls[c] == step.0
      && FileOf(Step(s, c), key) == step.1
      && (Depth(step.0.op, step.0.pc) > 0 || LockOf(Step(s, c), key).Unlocked?)
  {
  }

  lemma OwnBeforeStep(s: State, c: CallId)
    requires Inv(s) && Enabled(s, c)
    ensures var call := s.calls[c];
      Depth(call.op, call.pc) > 0 || LockOf(s, KeyOf(call.op)).Unlocked?
  {
    assert CallAgrees(s.calls[c], FileOf(s, KeyOf(s.calls[c].op)));
  }

  lemma StepView(s: State, c: CallId)
    requires Inv(s) && Enabled(s, c)
    ensures View(Step(s, c), KeyOf(s.calls[c].op)) == ViewAfter(s, c, KeyOf(s.calls[c].op))
  {
    StepKeepsInv(s, c);
    assert CallAgrees(s.calls[c], FileOf(s, KeyOf(s.calls[c].op)));
    OwnBeforeStep(s, c);
    OwnAfterStep(s, c);
    ViewOfCaller(s, c);
    ViewOfCaller(Step(s, c), c);
    SeenStep(s, c);
  }

  lemma StepReports(s: State, c: CallId)
    requires Inv(s) && Enabled(s, c) && TakesEffect(s, c)
    ensures s.calls[c].op.AppendOnce? ==>
      Step(s, c).calls[c].result == !MessageIn(View(s, KeyOf(s.calls[c].op)), s.calls[c].op.record.messageId)
    ensures s.calls[c].op.Load? ==> Step(s, c).calls[c].snapshot == View(s, KeyOf(s.calls[c].op))
  {
    assert CallAgrees(s.calls[c], FileOf(s, KeyOf(s.calls[c].op)));
    ViewOfCaller(s, c);
  }

  lemma StepRefinesOwn(s: State, c: CallId)
    requires Inv(s) && Enabled(s, c)
    ensures View(Step(s, c), KeyOf(s.calls[c].op)) == ViewAfter(s, c, KeyOf(s.calls[c].op))
    ensures TakesEffect(s, c) && s.calls[c].op.AppendOnce? ==>
      Step(s, c).calls[c].result == !MessageIn(View(s, KeyOf(s.calls[c].op)), s.calls[c].op.record.messageId)
    ensures TakesEffect(s, c) && s.calls[c].op.Load? ==> Step(s, c).calls[c].snapshot == View(s, KeyOf(s.calls[c].op))
  {
    StepView(s, c);
    if TakesEffect(s, c) { StepReports(s, c); }
  }

  lemma StepRefinesOthers(s: State, c: CallId, key: string)
    requires Inv(s) && Enabled(s, c) && key != KeyOf(s.calls[c].op)
    ensures View(Step(s, c), key) == View(s, key)
  {
    var s' := Step(s, c);
    assert LockOf(s', key) == LockOf(s, key) && FileOf(s', key) == FileOf(s, key);
    if LockOf(s, key).Held? {
      assert LockOf(s, key).owner != c;
    }
  }

  /** At its effect step a call does to the observable log what the whole operation does; no
      other step changes the observable log of any space. */
  lemma StepRefines(s: State, c: CallId, key: string)
    requires Inv(s) && Enabled(s, c)
    ensures View(Step(s, c), key) == ViewAfter(s, c, key)
  {
    if key == KeyOf(s.calls[c].op) {
      StepRefinesOwn(s, c);
    } else {
      StepRefinesOthers(s, c, key);
    }
  }

  /** The observable log of a call's own space, from the call's point of view. */
  lemma ViewOfCaller(s: State, c: CallId)
    requires Inv(s) && c in s.calls
    ensures var call := s.calls[c];
      Depth(call.op, call.pc) > 0 || LockOf(s, KeyOf(call.op)).Unlocked? ==>
        View(s, KeyOf(call.op)) == Seen(call, FileOf(s, KeyOf(call.op)))
  {
  }

  lemma EffectOfRead(op: Op, log: seq<WalRecord>)
    ensures op.Load? ==> Effect(op, log) == log
  {
  }
}
