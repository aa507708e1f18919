/** Every interleaving of calls on the log is equivalent to running them one after another in
    the order in which they take effect. */
module WalLinearizable {
  import opened Ordering
  import opened Wal
  import opened WalInterleaving

  /** A schedule: the call that moves at each step. */
  ghost predicate Legal(s: State, schedule: seq<CallId>)
    decreases |schedule|
  {
    schedule == [] || (Enabled(s, schedule[0]) && Legal(Step(s, schedule[0]), schedule[1..]))
  }

  function After(s: State, schedule: seq<CallId>): (final: State)
    requires Legal(s, schedule)
    ensures final.calls.Keys == s.calls.Keys
    decreases |schedule|
  {
    if schedule == [] then s else After(Step(s, schedule[0]), schedule[1..])
  }

  /** The calls on `key` in the order in which they take effect. */
  function EffectOrder(s: State, schedule: seq<CallId>, key: string): seq<CallId>
    requires Legal(s, schedule)
    decreases |schedule|
  {
    if schedule == [] then []
    else
      var c := schedule[0];
      var rest := EffectOrder(Step(s, c), schedule[1..], key);
      if TakesEffect(s, c) && KeyOf(s.calls[c].op) == key then [c] + rest else rest
  }

  function OpsOf(s: State, order: seq<CallId>): seq<Op>
    requires forall c :: c in order ==> c in s.calls
  {
    seq(|order|, i requires 0 <= i < |order| => assert order[i] in order; s.calls[order[i]].op)
  }

  /** Whole operations one after another. */
  function Serial(log: seq<WalRecord>, ops: seq<Op>): seq<WalRecord>
    decreases |ops|
  {
    if ops == [] then log else Serial(Effect(ops[0], log), ops[1..])
  }

  // ----- schedules one after another -----

  lemma OneMore(s: State, c: CallId, rest: seq<CallId>, key: string)
    requires Enabled(s, c) && Legal(Step(s, c), rest)
    ensures Legal(s, [c] + rest) && After(s, [c] + rest) == After(Step(s, c), rest)
    ensures EffectOrder(s, [c] + rest, key) ==
      (if TakesEffect(s, c) && KeyOf(s.calls[c].op) == key then [c] else []) + EffectOrder(Step(s, c), rest, key)
  {
    assert ([c] + rest)[1..] == rest;
  }

  lemma TailOfConcat(first: seq<CallId>, rest: seq<CallId>)
    requires first != []
    ensures (first + rest)[0] == first[0] && (first + rest)[1..] == first[1..] + rest
  {
  }

  lemma {:induction false} RunConcat(s: State, first: seq<CallId>, rest: seq<CallId>, all: seq<CallId>)
    requires Legal(s, first) && Legal(After(s, first), rest) && all == first + rest
    ensures Legal(s, all) && After(s, all) == After(After(s, first), rest)
    decreases |first|
  {
    if first == [] {
      assert all == rest;
    } else {
      TailOfConcat(first, rest);
      assert Legal(Step(s, first[0]), first[1..]);
      RunConcat(Step(s, first[0]), first[1..], rest, all[1..]);
    }
  }

  /** One step adds its call to the front of the order, or nothing. */
  lemma EffectOrderStep(s: State, schedule: seq<CallId>, next: State, rest: seq<CallId>, key: string) returns (own: seq<CallId>)
    requires Legal(s, schedule) && schedule != [] && next == Step(s, schedule[0]) && rest == schedule[1..]
    ensures Legal(next, rest) && EffectOrder(s, schedule, key) == own + EffectOrder(next, rest, key)
    ensures own == if TakesEffect(s, schedule[0]) && KeyOf(s.calls[schedule[0]].op) == key then [schedule[0]] else []
  {
    var c := schedule[0];
    own := if TakesEffect(s, c) && KeyOf(s.calls[c].op) == key then [c] else [];
  }

  lemma {:induction false} EffectsConcat(s: State, first: seq<CallId>, rest: seq<CallId>, all: seq<CallId>, key: string)
    requires Legal(s, first) && Legal(After(s, first), rest) && all == first + rest && Legal(s, all)
    ensures EffectOrder(s, all, key) == EffectOrder(s, first, key) + EffectOrder(After(s, first), rest, key)
    decreases |first|
  {
    if first == [] {
      assert all == rest;
    } else {
      var next, tail := Step(s, first[0]), first[1..];
      TailOfConcat(first, rest);
      var own := EffectOrderStep(s, all, next, tail + rest, key);
      var own' := EffectOrderStep(s, first, next, tail, key);
      EffectsConcat(next, tail, rest, tail + rest, key);
      Associate(own, EffectOrder(next, tail, key), EffectOrder(After(next, tail), rest, key));
    }
  }

  lemma Associate(a: seq<CallId>, b: seq<CallId>, c: seq<CallId>)
    ensures a + (b + c) == (a + b) + c
  {
  }

  /** A run is the run of a first part followed by the run of the rest from where that ended, and
      its effect order is that of the first part followed by that of the rest. */
  lemma RunSplits(s: State, first: seq<CallId>, rest: seq<CallId>, key: string)
    requires Legal(s, first) && Legal(After(s, first), rest)
    ensures Legal(s, first + rest) && After(s, first + rest) == After(After(s, first), rest)
    ensures EffectOrder(s, first + rest, key) == EffectOrder(s, first, key) + EffectOrder(After(s, first), rest, key)
  {
    RunConcat(s, first, rest, first + rest);
    EffectsConcat(s, first, rest, first + rest, key);
  }

  /** What the call reported agrees with running its whole operation on `log`. */
  ghost predicate Reports(call: CallState, log: seq<WalRecord>) {
    && (call.op.AppendOnce? ==> call.result == !MessageIn(log, call.op.record.messageId))
    && (call.op.Load? ==> call.snapshot == log)
  }

  lemma {:induction false} RunKeepsInv(s: State, schedule: seq<CallId>)
    requires Inv(s) && Legal(s, schedule)
    ensures Inv(After(s, schedule))
    decreases |schedule|
  {
    if schedule != [] {
      StepKeepsInv(s, schedule[0]);
      RunKeepsInv(Step(s, schedule[0]), schedule[1..]);
    }
  }

  /** The second state of a call agrees with all that was settled in the first. */
  ghost predicate Later(call: CallState, call': CallState) {
    && call'.op == call.op
    && (TookEffect(call) ==> TookEffect(call') && call'.result == call.result && call'.snapshot == call.snapshot)
  }

  lemma StepForward(s: State, c: CallId, d: CallId)
    requires Inv(s) && Enabled(s, c) && d in s.calls
    ensures Later(s.calls[d], Step(s, c).calls[d])
    ensures d != c ==> Step(s, c).calls[d] == s.calls[d]
  {
    StepTakesEffectOnce(s, c);
  }

  /** Running forward changes no operation and no settled report. */
  lemma {:induction false} RunForward(s: State, schedule: seq<CallId>, d: CallId)
    requires Inv(s) && Legal(s, schedule) && d in s.calls
    ensures Later(s.calls[d], After(s, schedule).calls[d])
    decreases |schedule|
  {
    if schedule != [] {
      StepKeepsInv(s, schedule[0]);
      StepForward(s, schedule[0], d);
      RunForward(Step(s, schedule[0]), schedule[1..], d);
    }
  }

  lemma {:induction false} EffectOrderOfKnown(s: State, schedule: seq<CallId>, key: string)
    requires Inv(s) && Legal(s, schedule)
    ensures forall d :: d in EffectOrder(s, schedule, key) ==> d in s.calls
    decreases |schedule|
  {
    if schedule != [] {
      StepKeepsInv(s, schedule[0]);
      EffectOrderOfKnown(Step(s, schedule[0]), schedule[1..], key);
    }
  }

  ghost predicate TookEffectDuring(s: State, final: State, key: string, d: CallId) {
    && d in s.calls && d in final.calls
    && KeyOf(s.calls[d].op) == key && !TookEffect(s.calls[d]) && TookEffect(final.calls[d])
  }

  lemma DuringStep(s: State, c: CallId, final: State, key: string, d: CallId)
    requires Inv(s) && Enabled(s, c) && d in s.calls && d in final.calls
    requires Later(Step(s, c).calls[d], final.calls[d])
    ensures TookEffectDuring(s, final, key, d) <==>
      TookEffectDuring(Step(s, c), final, key, d) || (d == c && TakesEffect(s, c) && KeyOf(s.calls[c].op) == key)
  {
    StepTakesEffectOnce(s, c);
    StepForward(s, c, d);
  }

  lemma CompleteStep(s: State, schedule: seq<CallId>, final: State, key: string, d: CallId)
    requires Inv(s) && Legal(s, schedule) && schedule != [] && d in s.calls && d in final.calls
    requires var next := Step(s, schedule[0]);
      && Later(next.calls[d], final.calls[d])
      && (d in EffectOrder(next, schedule[1..], key) <==> TookEffectDuring(next, final, key, d))
    ensures d in EffectOrder(s, schedule, key) <==> TookEffectDuring(s, final, key, d)
  {
    var own := EffectOrderStep(s, schedule, Step(s, schedule[0]), schedule[1..], key);
    DuringStep(s, schedule[0], final, key, d);
  }

  /** The effect order holds exactly the calls on `key` that took effect during the run. */
  lemma {:induction false} EffectOrderComplete(s: State, schedule: seq<CallId>, key: string, d: CallId)
    requires Inv(s) && Legal(s, schedule)
    ensures d in EffectOrder(s, schedule, key) <==> TookEffectDuring(s, After(s, schedule), key, d)
    decreases |schedule|
  {
    EffectOrderOfKnown(s, schedule, key);
    if schedule != [] && d in s.calls {
      var c := schedule[0];
      StepKeepsInv(s, c);
      EffectOrderComplete(Step(s, c), schedule[1..], key, d);
      RunForward(Step(s, c), schedule[1..], d);
      CompleteStep(s, schedule, After(s, schedule), key, d);
    }
  }

  /** No call takes effect twice. */
  lemma {:induction false} EffectOrderDistinct(s: State, schedule: seq<CallId>, key: string)
    requires Inv(s) && Legal(s, schedule)
    ensures Distinct(EffectOrder(s, schedule, key))
    decreases |schedule|
  {
    if schedule != [] {
      var c := schedule[0];
      StepKeepsInv(s, c);
      StepTakesEffectOnce(s, c);
      EffectOrderDistinct(Step(s, c), schedule[1..], key);
      EffectOrderComplete(Step(s, c), schedule[1..], key, c);
    }
  }

  /** Each call in `order` reports what it would have reported after those before it. */
  ghost predicate AllReport(s: State, final: State, log: seq<WalRecord>, order: seq<CallId>)
    requires forall c :: c in order ==> c in s.calls
    requires final.calls.Keys == s.calls.Keys
  {
    forall i :: 0 <= i < |order| ==>
      order[i] in s.calls && Reports(final.calls[order[i]], Serial(log, OpsOf(s, order)[..i]))
  }

  /** Running the calls of `order` one after another on the observable log gives the final log and
      the final reports. */
  ghost predicate SerialInOrder(s: State, final: State, key: string, order: seq<CallId>) {
    && (forall c :: c in order ==> c in s.calls)
    && final.calls.Keys == s.calls.Keys
    && View(final, key) == Serial(View(s, key), OpsOf(s, order))
    && AllReport(s, final, View(s, key), order)
  }

  lemma OwnEffectFirst(s: State, c: CallId, final: State, key: string, rest: seq<CallId>)
    requires Inv(s) && Enabled(s, c) && TakesEffect(s, c) && KeyOf(s.calls[c].op) == key
    requires SerialInOrder(Step(s, c), final, key, rest) && Later(Step(s, c).calls[c], final.calls[c])
    ensures SerialInOrder(s, final, key, [c] + rest)
  {
    StepRefines(s, c, key);
    StepRefinesOwn(s, c);
    StepTakesEffectOnce(s, c);
    SameOps(s, c, rest);
    Prepended(s, c, rest, View(s, key), final);
  }

  lemma NoEffectOn(s: State, c: CallId, final: State, key: string, rest: seq<CallId>)
    requires Inv(s) && Enabled(s, c) && !(TakesEffect(s, c) && KeyOf(s.calls[c].op) == key)
    requires SerialInOrder(Step(s, c), final, key, rest)
    ensures SerialInOrder(s, final, key, rest)
  {
    StepRefines(s, c, key);
    SameOps(s, c, rest);
  }

  /** Linearizability: the observable log is the serial one, and the call at each place of the
      effect order reports what it would have reported there. */
  lemma {:induction false} Linearizable(s: State, schedule: seq<CallId>, key: string)
    requires Inv(s) && Legal(s, schedule)
    ensures SerialInOrder(s, After(s, schedule), key, EffectOrder(s, schedule, key))
    decreases |schedule|
  {
    if schedule != [] {
      var c, final := schedule[0], After(s, schedule);
      StepKeepsInv(s, c);
      Linearizable(Step(s, c), schedule[1..], key);
      if TakesEffect(s, c) && KeyOf(s.calls[c].op) == key {
        RunForward(Step(s, c), schedule[1..], c);
        OwnEffectFirst(s, c, final, key, EffectOrder(Step(s, c), schedule[1..], key));
      } else {
        NoEffectOn(s, c, final, key, EffectOrder(Step(s, c), schedule[1..], key));
      }
    }
  }

  lemma SameOps(s: State, c: CallId, order: seq<CallId>)
    requires Inv(s) && Enabled(s, c) && forall d :: d in order ==> d in s.calls
    ensures OpsOf(Step(s, c), order) == OpsOf(s, order)
  {
    forall i | 0 <= i < |order| ensures Step(s, c).calls[order[i]].op == s.calls[order[i]].op {
      assert order[i] in order;
      StepForward(s, c, order[i]);
    }
  }

  lemma Prepended(s: State, c: CallId, rest: seq<CallId>, log: seq<WalRecord>, final: State)
    requires c in s.calls && (forall d :: d in rest ==> d in s.calls)
    requires final.calls.Keys == s.calls.Keys
    requires Reports(final.calls[c], log)
    requires forall i :: 0 <= i < |rest| ==>
      && rest[i] in s.calls
      && Reports(final.calls[rest[i]], Serial(Effect(s.calls[c].op, log), OpsOf(s, rest)[..i]))
    ensures Serial(log, OpsOf(s, [c] + rest)) == Serial(Effect(s.calls[c].op, log), OpsOf(s, rest))
    ensures AllReport(s, final, log, [c] + rest)
  {
    var order := [c] + rest;
    var ops := OpsOf(s, order);
    assert ops == [s.calls[c].op] + OpsOf(s, rest);
    forall i | 0 <= i < |order|
      ensures order[i] in s.calls && Reports(final.calls[order[i]], Serial(log, ops[..i]))
    {
      if i > 0 {
        assert ops[..i][0] == s.calls[c].op;
        assert ops[..i][1..] == OpsOf(s, rest)[..i - 1];
        assert order[i] == rest[i - 1];
      }
    }
  }

  /** In `order`, `c` comes before `d` wherever they occur. */
  ghost predicate ComesBefore(order: seq<CallId>, c: CallId, d: CallId) {
    forall i, j :: 0 <= i < |order| && 0 <= j < |order| && order[i] == c && order[j] == d ==> i < j
  }

  lemma InFirstThenInRest(first: seq<CallId>, rest: seq<CallId>, c: CallId, d: CallId)
    requires c !in rest && d !in first
    ensures ComesBefore(first + rest, c, d)
  {
    var order := first + rest;
    assert forall i :: |first| <= i < |order| ==> order[i] == rest[i - |first|] && rest[i - |first|] in rest;
  }

  lemma NoneAfterReturn(s: State, schedule: seq<CallId>, key: string, c: CallId)
    requires Inv(s) && Legal(s, schedule) && c in s.calls && s.calls[c].pc == Finished
    ensures c !in EffectOrder(s, schedule, key)
  {
    EffectOrderComplete(s, schedule, key, c);
  }

  lemma NoneBeforeStart(s: State, schedule: seq<CallId>, key: string, d: CallId)
    requires Inv(s) && Legal(s, schedule) && d in s.calls && After(s, schedule).calls[d].pc == Start
    ensures d !in EffectOrder(s, schedule, key)
  {
    EffectOrderComplete(s, schedule, key, d);
  }

  /** The effect order respects real time: a call that returned before another one started is
      before it. */
  lemma RealTimeOrder(s: State, first: seq<CallId>, rest: seq<CallId>, key: string, c: CallId, d: CallId)
    requires Inv(s) && Legal(s, first) && Legal(After(s, first), rest) && c in s.calls && d in s.calls
    requires After(s, first).calls[c].pc == Finished && After(s, first).calls[d].pc == Start
    ensures Legal(s, first + rest) && ComesBefore(EffectOrder(s, first + rest, key), c, d)
  {
    var middle := After(s, first);
    RunKeepsInv(s, first);
    RunSplits(s, first, rest, key);
    NoneAfterReturn(middle, rest, key, c);
    NoneBeforeStart(s, first, key, d);
    InFirstThenInRest(EffectOrder(s, first, key), EffectOrder(middle, rest, key), c, d);
  }

  // ----- what follows for the log -----

  lemma {:induction false} SerialExtends(log: seq<WalRecord>, ops: seq<Op>)
    ensures Extends(log, Serial(log, ops))
    ensures DistinctMessages(log) ==> DistinctMessages(Serial(log, ops))
    decreases |ops|
  {
    if ops != [] {
      EffectExtends(ops[0], log);
      SerialExtends(Effect(ops[0], log), ops[1..]);
      ExtendsTransitive(log, Effect(ops[0], log), Serial(log, ops));
    }
  }

  /** In every interleaving the log only grows by extension: no rewrite loses an append, no
      record changes its place or its ids, and redacted text never comes back. */
  lemma NothingLost(s: State, schedule: seq<CallId>, key: string)
    requires Inv(s) && Legal(s, schedule)
    ensures Extends(View(s, key), View(After(s, schedule), key))
    ensures DistinctMessages(View(s, key)) ==> DistinctMessages(View(After(s, schedule), key))
  {
    Linearizable(s, schedule, key);
    SerialExtends(View(s, key), OpsOf(s, EffectOrder(s, schedule, key)));
  }

  predicate Appends(op: Op, messageId: string) {
    op.AppendOnce? && op.record.messageId == messageId
  }

  lemma EffectMessages(op: Op, log: seq<WalRecord>, messageId: string)
    ensures MessageIn(Effect(op, log), messageId) <==> MessageIn(log, messageId) || Appends(op, messageId)
  {
    var after := Effect(op, log);
    assert forall i :: 0 <= i < |log| ==> after[i].messageId == log[i].messageId;
    if Appends(op, messageId) && !MessageIn(log, messageId) {
      assert after[|log|].messageId == messageId;
    }
  }

  lemma {:induction false} SerialMessages(log: seq<WalRecord>, ops: seq<Op>, messageId: string)
    ensures MessageIn(Serial(log, ops), messageId) <==>
      MessageIn(log, messageId) || exists i :: 0 <= i < |ops| && Appends(ops[i], messageId)
    decreases |ops|
  {
    if ops != [] {
      EffectMessages(ops[0], log, messageId);
      SerialMessages(Effect(ops[0], log), ops[1..], messageId);
      assert forall i :: 1 <= i < |ops| ==> ops[i] == ops[1..][i - 1];
    }
  }

  /** `c` is an append of the message to `key` that took effect between `s` and `final`. */
  ghost predicate AppendedBetween(s: State, final: State, key: string, messageId: string, c: CallId) {
    && c in s.calls && c in final.calls
    && KeyOf(s.calls[c].op) == key && Appends(s.calls[c].op, messageId)
    && !TookEffect(s.calls[c]) && TookEffect(final.calls[c])
  }

  /** Among whole operations, only the first append of a new message finds it missing. */
  lemma FirstFindsItMissing(log: seq<WalRecord>, ops: seq<Op>, messageId: string, first: nat, i: nat)
    requires first < |ops| && i < |ops| && !MessageIn(log, messageId)
    requires Appends(ops[first], messageId) && Appends(ops[i], messageId)
    requires forall j :: 0 <= j < first ==> !Appends(ops[j], messageId)
    ensures MessageIn(Serial(log, ops[..i]), messageId) <==> i != first
  {
    SerialMessages(log, ops[..i], messageId);
    if i > first {
      assert ops[..i][first] == ops[first];
    }
  }

  /** What an append that took effect reported, in terms of its place in the effect order. */
  lemma PlaceOf(s: State, schedule: seq<CallId>, key: string, messageId: string, c: CallId) returns (i: nat)
    requires Inv(s) && Legal(s, schedule)
    requires AppendedBetween(s, After(s, schedule), key, messageId, c)
    ensures forall d :: d in EffectOrder(s, schedule, key) ==> d in s.calls
    ensures var order := EffectOrder(s, schedule, key);
      var ops := OpsOf(s, order);
      && i < |order| && order[i] == c && Appends(ops[i], messageId)
      && (After(s, schedule).calls[c].result <==> !MessageIn(Serial(View(s, key), ops[..i]), messageId))
  {
    var order := EffectOrder(s, schedule, key);
    EffectOrderComplete(s, schedule, key, c);
    Linearizable(s, schedule, key);
    i :| 0 <= i < |order| && order[i] == c;
    RunForward(s, schedule, c);
    assert OpsOf(s, order)[i] == s.calls[c].op;
    assert Reports(After(s, schedule).calls[order[i]], Serial(View(s, key), OpsOf(s, order)[..i]));
  }

  lemma AtPlace(s: State, schedule: seq<CallId>, key: string, messageId: string, i: nat)
    requires Inv(s) && Legal(s, schedule)
    requires forall d :: d in EffectOrder(s, schedule, key) ==> d in s.calls
    requires i < |EffectOrder(s, schedule, key)| && Appends(OpsOf(s, EffectOrder(s, schedule, key))[i], messageId)
    ensures AppendedBetween(s, After(s, schedule), key, messageId, EffectOrder(s, schedule, key)[i])
  {
    var c := EffectOrder(s, schedule, key)[i];
    assert c in EffectOrder(s, schedule, key);
    EffectOrderComplete(s, schedule, key, c);
  }

  /** Of all the appends of a new message that took effect, however they were interleaved,
      exactly one reports True. */
  lemma OneAppendWins(s: State, schedule: seq<CallId>, key: string, messageId: string, some: CallId) returns (winner: CallId)
    requires Inv(s) && Legal(s, schedule) && !MessageIn(View(s, key), messageId)
    requires AppendedBetween(s, After(s, schedule), key, messageId, some)
    ensures AppendedBetween(s, After(s, schedule), key, messageId, winner)
    ensures forall c :: AppendedBetween(s, After(s, schedule), key, messageId, c) ==>
      (After(s, schedule).calls[c].result <==> c == winner)
  {
    var final, order := After(s, schedule), EffectOrder(s, schedule, key);
    var k := PlaceOf(s, schedule, key, messageId, some);
    var ops := OpsOf(s, order);
    var first := FirstAppend(ops, messageId, k);
    winner := order[first];
    AtPlace(s, schedule, key, messageId, first);
    EffectOrderDistinct(s, schedule, key);
    forall c | AppendedBetween(s, final, key, messageId, c) ensures final.calls[c].result <==> c == winner {
      var i := PlaceOf(s, schedule, key, messageId, c);
      FirstFindsItMissing(View(s, key), ops, messageId, first, i);
    }
  }

  lemma {:induction false} FirstAppend(ops: seq<Op>, messageId: string, k: nat) returns (first: nat)
    requires k < |ops| && Appends(ops[k], messageId)
    ensures first <= k && Appends(ops[first], messageId)
    ensures forall j :: 0 <= j < first ==> !Appends(ops[j], messageId)
  {
    first := 0;
    while !Appends(ops[first], messageId)
      invariant first <= k
      invariant forall j :: 0 <= j < first ==> !Appends(ops[j], messageId)
      decreases k - first
    {
      first := first + 1;
    }
  }

  /** Before any call has started. */
  ghost predicate Init(s: State) {
    && (forall c :: c in s.calls ==> s.calls[c].pc == Start)
    && (forall key :: LockOf(s, key).Unlocked?)
  }

  /** Every state that calls can reach, in any interleaving, satisfies the invariant the theorems
      about runs start from; before the first step the observable log is the file. */
  lemma ReachableIsSafe(s: State, schedule: seq<CallId>)
    requires Init(s) && Legal(s, schedule)
    ensures Inv(After(s, schedule))
    ensures forall key :: View(s, key) == FileOf(s, key)
  {
    RunKeepsInv(s, schedule);
  }

  /** Whatever is running, some call that has not returned can move: the locks never deadlock. */
  lemma NoDeadlock(s: State, c: CallId) returns (d: CallId)
    requires Inv(s) && c in s.calls && s.calls[c].pc != Finished
    ensures Enabled(s, d)
  {
    assert CallAgrees(s.calls[c], FileOf(s, KeyOf(s.calls[c].op)));
    d := c;
    if !Enabled(s, c) {
      d := LockOf(s, KeyOf(s.calls[c].op)).owner;
      assert CallAgrees(s.calls[d], FileOf(s, KeyOf(s.calls[d].op)));
    }
  }
  /** The calls come to an end exactly together: nothing can move only when all have returned. */
  lemma StuckIsFinished(s: State)
    requires Inv(s)
    ensures (forall c :: !Enabled(s, c)) <==> forall c :: c in s.calls ==> s.calls[c].pc == Finished
  {
    if c :| c in s.calls && s.calls[c].pc != Finished {
      var d := NoDeadlock(s, c);
      assert Enabled(s, d);
    }
  }
}
