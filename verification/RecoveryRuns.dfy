/** Every run of appends, recovery passes, single-record processing, failures and crashes. */
module RecoveryRuns {
  import opened Ordering
  import opened Wal
  import opened Recovery

  /** What a worker keeps in memory; a crash loses it. `guarded` tells whether an exception of
      the current record is caught by the pass. */
  datatype Memory = Idle | Busy(batch: seq<WalRecord>, seen: set<string>, todo: seq<Work>, guarded: bool)

  datatype State = State(store: Store, memory: Memory)

  datatype Event =
    | Append(record: WalRecord)              // append_message_once, at any time
    | StartPass                              // load_pending_records
    | ProcessOne(copy: WalRecord, defer: bool) // process_record outside a pass
    | NextRecord
    | DoWork
    | Fail                                   // an exception caught by the pass
    | Stop                                   // end of the pass, uncaught exception or crash

  function PendingRecords(log: seq<WalRecord>): seq<WalRecord> {
    Filter(log, (r: WalRecord) => r.status == Pending)
  }

  ghost predicate Enabled(s: State, e: Event) {
    match e
    case Append(r) => Open(r) && !InLog(s.store.log, r.id) && (s.memory.Busy? ==> r.id !in IdsOf(s.memory.batch))
    case StartPass => s.memory.Idle?
    case ProcessOne(copy, _) => s.memory.Idle? && OpenInLog(s.store.log, copy)
    case NextRecord => s.memory.Busy? && s.memory.todo == [] && s.memory.batch != []
    case DoWork => s.memory.Busy? && s.memory.todo != []
    case Fail => s.memory.Busy? && s.memory.guarded
    case Stop => s.memory.Busy?
  }

  function Next(a: Assessor, s: State, e: Event): State
    requires Enabled(s, e)
  {
    match e
    case Append(r) => s.(store := s.store.(log := Effect(AppendOnce(r), s.store.log)))
    case StartPass => s.(memory := Busy(PendingRecords(s.store.log), {}, [], false))
    case ProcessOne(copy, defer) => s.(memory := Busy([], {}, Todo(a, s.store.notes, copy, defer), false))
    case NextRecord =>
      var m := s.memory;
      var r := m.batch[0];
      s.(memory := Busy(m.batch[1..], SeenAfter(r, m.seen), TurnOf(a, s.store.notes, r, m.seen), r.messageId !in m.seen))
    case DoWork => State(Do(s.store, s.memory.todo[0]), s.memory.(todo := s.memory.todo[1..]))
    case Fail => s.(memory := s.memory.(todo := []))
    case Stop => s.(memory := Idle)
  }

  ghost predicate Inv(a: Assessor, s: State) {
    && Safe(a, s.store)
    && (s.memory.Busy? ==>
      && BatchInv(s.store, s.memory.batch, s.memory.seen)
      && MayDoAll(a, s.store, s.memory.todo, IdsOf(s.memory.batch)))
  }

  lemma PendingIsBatch(log: seq<WalRecord>)
    requires DistinctRecords(log)
    ensures DistinctRecords(PendingRecords(log))
    ensures forall k :: 0 <= k < |PendingRecords(log)| ==> OpenInLog(log, PendingRecords(log)[k])
  {
    PendingDistinct(log);
    FilterMembers(log, (r: WalRecord) => r.status == Pending);
    forall k | 0 <= k < |PendingRecords(log)| ensures OpenInLog(log, PendingRecords(log)[k]) {
      assert PendingRecords(log)[k] in PendingRecords(log);
    }
  }

  lemma {:induction false} PendingDistinct(log: seq<WalRecord>)
    requires DistinctRecords(log)
    ensures DistinctRecords(PendingRecords(log))
  {
    if log != [] {
      PendingDistinct(log[1..]);
      FilterMembers(log[1..], (r: WalRecord) => r.status == Pending);
      var rest := PendingRecords(log[1..]);
      forall k | 0 <= k < |rest| ensures rest[k].id != log[0].id {
        assert rest[k] in rest;
        var m :| 0 <= m < |log[1..]| && log[1..][m] == rest[k];
        assert log[m + 1] == rest[k];
      }
    }
  }

  /** A fresh open record at the end of the log. */
  ghost predicate Grown(s: Store, s': Store, r: WalRecord, waiting: set<string>) {
    && s'.notes == s.notes && s'.log == s.log + [r]
    && Open(r) && !InLog(s.log, r.id) && r.id !in waiting
  }

  lemma GrownMayDo(a: Assessor, s: Store, s': Store, r: WalRecord, w: Work, waiting: set<string>)
    requires Grown(s, s', r, waiting) && MayDo(a, s, w, waiting)
    ensures MayDo(a, s', w, waiting)
    ensures Grown(Do(s, w), Do(s', w), r, waiting)
  {
    assert forall i :: 0 <= i < |s.log| ==> s'.log[i] == s.log[i];
    assert forall i :: 0 <= i < |Do(s, w).log| ==> Do(s, w).log[i].id == s.log[i].id;
    if !w.Save? {
      var id := if w.Block? then w.blockId else w.id;
      assert InLog(s.log, id) && r.id != id;
      assert InLog(s'.log, id);
      assert Do(s', w).log == Do(s, w).log + [r];
    }
    if w.Complete? {
      forall i | 0 <= i < |s'.log| && s'.log[i].id == w.id ensures CoveredWithout(s', i, waiting) {
        assert CoveredWithout(s, i, waiting);
      }
    }
  }

  lemma {:induction false} GrownMayDoAll(a: Assessor, s: Store, s': Store, r: WalRecord, todo: seq<Work>, waiting: set<string>)
    requires Grown(s, s', r, waiting) && MayDoAll(a, s, todo, waiting)
    ensures MayDoAll(a, s', todo, waiting)
    decreases |todo|
  {
    if todo != [] {
      GrownMayDo(a, s, s', r, todo[0], waiting);
      GrownMayDoAll(a, Do(s, todo[0]), Do(s', todo[0]), r, todo[1..], waiting);
    }
  }

  lemma AppendKeepsSafe(a: Assessor, s: Store, r: WalRecord)
    requires Safe(a, s) && Open(r) && !InLog(s.log, r.id)
    ensures Safe(a, s.(log := s.log + [r]))
  {
    var s' := s.(log := s.log + [r]);
    assert s'.log[|s.log|] == r;
    forall i | 0 <= i < |s'.log| ensures Covered(s', s'.log[i].messageId) {
      if i < |s.log| {
        assert Covered(s, s.log[i].messageId);
        if !NoteExists(s.notes, s.log[i].messageId) {
          var j :| 0 <= j < |s.log| && s.log[j].messageId == s.log[i].messageId && Open(s.log[j]);
          assert s'.log[j] == s.log[j];
        }
      }
    }
  }

  lemma AppendKeepsBatch(s: Store, r: WalRecord, batch: seq<WalRecord>, seen: set<string>)
    requires BatchInv(s, batch, seen)
    ensures BatchInv(s.(log := s.log + [r]), batch, seen)
  {
    var s' := s.(log := s.log + [r]);
    assert forall i :: 0 <= i < |s.log| ==> s'.log[i] == s.log[i];
    forall k | 0 <= k < |batch| ensures OpenInLog(s'.log, batch[k]) {
      assert OpenInLog(s.log, batch[k]);
    }
  }

  /** The invariant is inductive: no event breaks it. */
  lemma EventKeepsInv(a: Assessor, s: State, e: Event)
    requires Inv(a, s) && Enabled(s, e)
    ensures Inv(a, Next(a, s, e))
  {
    match e
    case Append(r) =>
      if !MessageIn(s.store.log, r.messageId) {
        AppendKeepsSafe(a, s.store, r);
        if s.memory.Busy? {
          AppendKeepsBatch(s.store, r, s.memory.batch, s.memory.seen);
          GrownMayDoAll(a, s.store, s.store.(log := s.store.log + [r]), r, s.memory.todo, IdsOf(s.memory.batch));
        }
      }
    case StartPass => PendingIsBatch(s.store.log);
    case ProcessOne(copy, defer) => TodoJustified(a, s.store, copy, defer, IdsOf([]));
    case NextRecord => TakeNext(a, s.store, s.memory.batch, s.memory.seen);
    case DoWork =>
      var w := s.memory.todo[0];
      WorkKeepsSafe(a, s.store, w, IdsOf(s.memory.batch));
      WorkKeepsBatch(a, s.store, s.memory.batch, s.memory.seen, w);
    case Fail =>
    case Stop =>
  }

  ghost predicate Legal(a: Assessor, s: State, run: seq<Event>)
    decreases |run|
  {
    run == [] || (Enabled(s, run[0]) && Legal(a, Next(a, s, run[0]), run[1..]))
  }

  function After(a: Assessor, s: State, run: seq<Event>): State
    requires Legal(a, s, run)
    decreases |run|
  {
    if run == [] then s else After(a, Next(a, s, run[0]), run[1..])
  }

  /** In every run each message of the log stays covered by a pending record, a blocked record
      or a note; no message has two notes; and no note holds text the check blocks. */
  lemma {:induction false} RunsAreSafe(a: Assessor, s: State, run: seq<Event>)
    requires Inv(a, s) && Legal(a, s, run)
    ensures Inv(a, After(a, s, run)) && Safe(a, After(a, s, run).store)
    decreases |run|
  {
    if run != [] {
      EventKeepsInv(a, s, run[0]);
      RunsAreSafe(a, Next(a, s, run[0]), run[1..]);
    }
  }

  /** Notes are never lost either: a message that has a note keeps it. */
  lemma {:induction false} NotesArePermanent(a: Assessor, s: State, run: seq<Event>)
    requires Legal(a, s, run)
    ensures s.store.notes <= After(a, s, run).store.notes
    ensures Extends(s.store.log, After(a, s, run).store.log)
    decreases |run|
  {
    if run != [] {
      var s' := Next(a, s, run[0]);
      NotesArePermanent(a, s', run[1..]);
      EventExtends(a, s, run[0]);
      ExtendsTransitive(s.store.log, s'.store.log, After(a, s, run).store.log);
    }
  }

  lemma EventExtends(a: Assessor, s: State, e: Event)
    requires Enabled(s, e)
    ensures Extends(s.store.log, Next(a, s, e).store.log)
    ensures s.store.notes <= Next(a, s, e).store.notes
  {
    match e
    case Append(r) => EffectExtends(AppendOnce(r), s.store.log);
    case DoWork =>
      match s.memory.todo[0] {
        case Block(id, category, preserve) => EffectExtends(MarkSensitiveBlocked("", id, category, preserve), s.store.log);
        case Save(_) =>
        case Complete(id) => EffectExtends(MarkProcessed("", id), s.store.log);
      }
    case _ =>
  }

  /** A fresh installation satisfies the invariant. */
  lemma EmptyIsSafe(a: Assessor)
    ensures Inv(a, State(Store([], []), Idle))
  {
  }
  // ----- blocked text never comes back -----

  lemma EventKeepsGone(a: Assessor, s: State, e: Event, id: string)
    requires Enabled(s, e) && InLog(s.store.log, id) && Gone(s.store.log, id)
    ensures InLog(Next(a, s, e).store.log, id) && Gone(Next(a, s, e).store.log, id)
  {
    var i :| 0 <= i < |s.store.log| && s.store.log[i].id == id;
    EventExtends(a, s, e);
    assert Next(a, s, e).store.log[i].id == id;
  }

  lemma {:induction false} RunKeepsGone(a: Assessor, s: State, run: seq<Event>, id: string)
    requires Legal(a, s, run) && InLog(s.store.log, id) && Gone(s.store.log, id)
    ensures Gone(After(a, s, run).store.log, id)
    decreases |run|
  {
    if run != [] {
      EventKeepsGone(a, s, run[0], id);
      RunKeepsGone(a, Next(a, s, run[0]), run[1..], id);
    }
  }

  /** Once a record has been blocked, no later state of any run holds its text under its id. */
  lemma BlockedTextIsGone(a: Assessor, s: State, run: seq<Event>)
    requires Inv(a, s) && Legal(a, s, run) && run != [] && run[0] == DoWork && s.memory.todo[0].Block?
    ensures Gone(After(a, s, run).store.log, s.memory.todo[0].blockId)
  {
    var w, s' := s.memory.todo[0], Next(a, s, DoWork);
    BlockingRemoves(s.store, w.blockId, w.category, w.preservePending);
    var i :| 0 <= i < |s.store.log| && s.store.log[i].id == w.blockId;
    assert s'.store.log[i].id == w.blockId;
    RunKeepsGone(a, s', run[1..], w.blockId);
  }

  /** In every run whose new blocked records carry the notice, as they are created, every blocked
      record of the log does. */
  lemma {:induction false} RunKeepsRedacted(a: Assessor, s: State, run: seq<Event>)
    requires Legal(a, s, run) && BlockedAreRedacted(s.store.log)
    requires forall e :: e in run && e.Append? && e.record.status == BlockedSensitive ==> e.record.text == REDACTED
    ensures BlockedAreRedacted(After(a, s, run).store.log)
    decreases |run|
  {
    if run != [] {
      assert run[0] in run;
      if run[0].DoWork? { WorkKeepsRedacted(s.store, s.memory.todo[0]); }
      RunKeepsRedacted(a, Next(a, s, run[0]), run[1..]);
    }
  }
}
