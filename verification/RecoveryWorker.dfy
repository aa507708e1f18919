/** The worker itself: processing one record and one pass over the pending ones. */
module RecoveryWorker {
  import opened Ordering
  import opened Wal
  import opened Recovery
  import opened RecoveryRuns

  /** `n` pieces of the work were done before an exception, or all of them. */
  ghost predicate DoneUpTo(before: Store, after: Store, todo: seq<Work>, ok: bool) {
    exists n :: 0 <= n <= |todo| && (ok ==> n == |todo|) && after == DoAll(before, todo[..n])
  }

  class Worker {
    const assessor: Assessor
    var log: seq<WalRecord>
    var notes: seq<Note>

    constructor (assessor: Assessor, log: seq<WalRecord>, notes: seq<Note>)
      ensures this.assessor == assessor && this.log == log && this.notes == notes
    {
      this.assessor, this.log, this.notes := assessor, log, notes;
    }

    function Value(): Store
      reads this
    {
      Store(log, notes)
    }

    /** Any statement of the source may raise; `ok` is false when one did. */
    method ProcessRecord(r: WalRecord, defer: bool) returns (ok: bool)
      modifies this
      ensures DoneUpTo(old(Value()), Value(), Todo(assessor, old(notes), r, defer), ok)
    {
      ghost var todo := Todo(assessor, notes, r, defer);
      assert todo[..0] == [];
      var raised: bool := *;
      if raised {
        return false;
      }
      if assessor.blocks(r.text) {
        log := Effect(MarkSensitiveBlocked("", r.id, assessor.category(r.text), defer), log);
        assert todo[..1] == todo && DoAll(old(Value()), todo) == Value();
        return true;
      }
      if NoteExists(notes, r.messageId) {
        if !defer {
          log := Effect(MarkProcessed("", r.id), log);
          assert todo == [Complete(r.id)];
          assert DoAll(old(Value()), todo) == DoAll(Value(), []);
        }
        assert todo[..|todo|] == todo;
        return true;
      }
      var n := Note(r.id, r.messageId, r.text);
      notes := SaveNote(notes, n);
      assert todo[0] == Save(n) && todo[..1] == [Save(n)];
      assert DoAll(old(Value()), [Save(n)]) == Value();
      raised := *;
      if raised {
        return false;
      }
      if !defer {
        ghost var saved := Value();
        log := Effect(MarkProcessed("", r.id), log);
        assert todo == [Save(n), Complete(r.id)] && todo[1..] == [Complete(r.id)] && todo[..2] == todo;
        assert DoAll(saved, todo[1..]) == Value();
        assert DoAll(old(Value()), todo) == DoAll(saved, todo[1..]);
      } else {
        assert todo == [Save(n)];
      }
      return true;
    }

    /** One record of a pass: a repeated message is only marked as processed. */
    method Attend(r: WalRecord, seen: set<string>) returns (turn: Turn)
      modifies this
      ensures DoneUpTo(old(Value()), Value(), TurnOf(assessor, old(notes), r, seen), turn == Counted || turn == Skipped)
      ensures turn == Skipped <==> r.messageId in seen && r.id == ""
      ensures turn == Aborted ==> Value() == old(Value()) && r.messageId in seen && r.id != ""
    {
      OneOrNone(Value(), r);
      if r.messageId !in seen {
        var ok := ProcessRecord(r, false);
        return if ok then Counted else Failed;
      }
      if r.id == "" {
        return Skipped;
      }
      var raised: bool := *;
      if raised {
        assert [Complete(r.id)][..0] == [];
        return Aborted;
      }
      log := Effect(MarkProcessed("", r.id), log);
      return Counted;
    }

    /** One turn of the loop. */
    method TakeTurn(ghost start: Store, ghost all: seq<WalRecord>, ghost at: nat, records: seq<WalRecord>, seen: set<string>,
                    count: nat, failed: nat)
      returns (turn: Turn)
      requires Passing(assessor, start, Value(), all, at, records, seen, count, failed) && records != []
      modifies this
      ensures turn == Aborted ==>
        Passing(assessor, start, Value(), all, at, records, seen, count, failed) && RepeatsMessage(all)
      ensures turn != Aborted ==>
        Passing(assessor, start, Value(), all, at + 1, records[1..], SeenAfter(records[0], seen),
          if turn == Counted then count + 1 else count, if turn == Failed then failed + 1 else failed)
    {
      ghost var before := Value();
      MeetNext(all, at, records, seen);
      turn := Attend(records[0], seen);
      if turn != Aborted {
        PassTurn(assessor, start, before, Value(), all, at, records, seen, count, failed, turn);
      }
    }

    /** The loop body: the next record is left behind unless the turn aborts. */
    method Advance(ghost start: Store, ghost all: seq<WalRecord>, ghost at: nat, records: seq<WalRecord>, seen: set<string>,
                   count: nat, failed: nat)
      returns (ghost at': nat, records': seq<WalRecord>, seen': set<string>, count': nat, failed': nat, aborted: bool)
      requires Passing(assessor, start, Value(), all, at, records, seen, count, failed) && records != []
      modifies this
      ensures Passing(assessor, start, Value(), all, at', records', seen', count', failed')
      ensures aborted ==> RepeatsMessage(all) && records' == records
      ensures !aborted ==> |records'| < |records|
    {
      var turn := TakeTurn(start, all, at, records, seen, count, failed);
      aborted := turn == Aborted;
      at' := if aborted then at else at + 1;
      records' := if aborted then records else records[1..];
      seen' := if aborted then seen else SeenAfter(records[0], seen);
      count' := if turn == Counted then count + 1 else count;
      failed' := if turn == Failed then failed + 1 else failed;
    }

    /** The loop over the snapshot, which ends early when a turn aborts. */
    method AttendAll(ghost start: Store, all: seq<WalRecord>)
      returns (count: nat, failed: nat, aborted: bool, ghost left: seq<WalRecord>, ghost seenAtEnd: set<string>, ghost at: nat)
      requires Passing(assessor, start, Value(), all, 0, all, {}, 0, 0)
      modifies this
      ensures Passing(assessor, start, Value(), all, at, left, seenAtEnd, count, failed)
      ensures if aborted then RepeatsMessage(all) else left == []
    {
      var records := all;
      at, count, failed, aborted := 0, 0, 0, false;
      var seen: set<string> := {};
      while records != [] && !aborted
        invariant Passing(assessor, start, Value(), all, at, records, seen, count, failed)
        invariant aborted ==> RepeatsMessage(all)
        decreases |records|, !aborted
      {
        at, records, seen, count, failed, aborted := Advance(start, all, at, records, seen, count, failed);
      }
      left, seenAtEnd := records, seen;
    }

    /** One recovery pass. `failed` counts the records whose processing raised; `aborted` tells
        that marking a repeated record raised, which nothing catches; a pass over distinct message
        ids therefore meets every record. */
    method ProcessPending() returns (count: nat, failed: nat, aborted: bool)
      requires Safe(assessor, Value())
      modifies this
      ensures Safe(assessor, Value())
      ensures Extends(old(log), log) && |log| == |old(log)| && old(notes) <= notes
      ensures count + failed <= |PendingRecords(old(log))|
      ensures !aborted && NoBlankIds(old(log)) ==> count + failed == |PendingRecords(old(log))|
      ensures !aborted && failed == 0 && NoBlankIds(old(log)) ==> Settled(Value())
      ensures aborted ==> RepeatsMessage(PendingRecords(old(log)))
      ensures AddedFrom(old(Value()), Value(), PendingRecords(old(log)), |PendingRecords(old(log))|)
      ensures !aborted && failed == 0 ==>
        && Cleaned(assessor, Value(), PendingRecords(old(log)), |PendingRecords(old(log))|)
        && Kept(assessor, old(Value()), Value(), PendingRecords(old(log)), |PendingRecords(old(log))|)
    {
      PassStart(assessor, Value());
      ghost var left, seen, at;
      count, failed, aborted, left, seen, at := AttendAll(Value(), PendingRecords(log));
      AddedByTheEnd(old(Value()), Value(), PendingRecords(old(log)), at);
      if !aborted {
        PassEnd(assessor, old(Value()), Value(), left, seen);
      }
    }
  }

  lemma AddedByTheEnd(start: Store, now: Store, all: seq<WalRecord>, at: nat)
    requires AddedFrom(start, now, all, at)
    ensures AddedFrom(start, now, all, |all|)
  {
    forall k | |start.notes| <= k < |now.notes| ensures NoteFrom(now.notes[k], all, |all|) {
      assert NoteFrom(now.notes[k], all, at);
    }
  }

  lemma PassStart(a: Assessor, s: Store)
    requires Safe(a, s)
    ensures Passing(a, s, s, PendingRecords(s.log), 0, PendingRecords(s.log), {}, 0, 0)
  {
    PendingIsBatch(s.log);
    PendingComplete(s.log);
    SnapshotTexts(s.log, s.notes);
  }

  /** A record with an id carries the message of an earlier one. */
  ghost predicate RepeatsMessage(records: seq<WalRecord>) {
    exists i, j :: 0 <= i < j < |records| && RepeatAt(records, i, j)
  }

  predicate RepeatAt(records: seq<WalRecord>, i: nat, j: nat)
    requires i < j < |records|
  {
    && records[i].messageId == records[j].messageId && records[j].messageId != "" && records[j].id != ""
  }

  /** After `at` records the pass has seen their messages, and `left` is still to come. */
  ghost predicate Met(all: seq<WalRecord>, at: nat, left: seq<WalRecord>, seen: set<string>) {
    && at <= |all| && left == all[at..]
    && forall m :: m in seen <==> m != "" && exists i :: 0 <= i < at && all[i].messageId == m
  }

  lemma MeetNext(all: seq<WalRecord>, at: nat, left: seq<WalRecord>, seen: set<string>)
    requires Met(all, at, left, seen) && left != []
    ensures Met(all, at + 1, left[1..], SeenAfter(left[0], seen))
    ensures left[0].messageId in seen && left[0].id != "" ==> RepeatsMessage(all)
  {
    assert left[0] == all[at];
    if left[0].messageId in seen && left[0].id != "" {
      var i :| 0 <= i < at && all[i].messageId == left[0].messageId;
      assert RepeatAt(all, i, at);
    }
  }

  /** What a pass keeps: safety, its bookkeeping, and what is still to come. */
  ghost predicate Passing(a: Assessor, start: Store, now: Store, all: seq<WalRecord>, at: nat, left: seq<WalRecord>,
                          seen: set<string>, count: nat, failed: nat) {
    && PassInv(a, start, now, left, seen) && Met(all, at, left, seen)
    && count + failed + |left| <= |all|
    && (NoBlankIds(start.log) ==> count + failed + |left| == |all|)
    && (failed == 0 && NoBlankIds(start.log) ==> PendingWithin(now.log, left))
    && all == PendingRecords(start.log)
    && AddedFrom(start, now, all, at) && Untouched(now, all, at)
    && (failed == 0 ==> Cleaned(a, now, all, at) && Kept(a, start, now, all, at))
  }

  /** Record `j` of a snapshot carries the message of an earlier one. */
  ghost predicate RepeatedAt(all: seq<WalRecord>, j: nat)
    requires j < |all|
  {
    all[j].messageId != "" && exists i :: 0 <= i < j && all[i].messageId == all[j].messageId
  }

  /** Every note since the start has the id, the message and the text of a record met. */
  ghost predicate AddedFrom(start: Store, now: Store, all: seq<WalRecord>, at: nat) {
    forall k :: |start.notes| <= k < |now.notes| ==> NoteFrom(now.notes[k], all, at)
  }

  ghost predicate NoteFrom(n: Note, all: seq<WalRecord>, at: nat) {
    exists j :: 0 <= j < at && j < |all| && n == Note(all[j].id, all[j].messageId, all[j].text)
  }

  /** Of the records met, the log still holds a text that the check blocks exactly for those that
      repeat a message: a repeated record is marked without being looked at. */
  ghost predicate Cleaned(a: Assessor, now: Store, all: seq<WalRecord>, at: nat) {
    !a.blocks(REDACTED) ==>
      forall j, i :: 0 <= j < at && j < |all| && 0 <= i < |now.log| && now.log[i].id == all[j].id ==>
        (a.blocks(now.log[i].text) <==> RepeatedAt(all, j) && a.blocks(all[j].text))
  }

  /** Records still to come have the text they had in the snapshot. */
  ghost predicate Untouched(now: Store, all: seq<WalRecord>, at: nat) {
    forall j, i :: at <= j < |all| && 0 <= i < |now.log| && now.log[i].id == all[j].id ==> now.log[i].text == all[j].text
  }

  /** Each record met whose text may be stored and whose message is the first of its kind in the
      snapshot has its note, unless there was a note of the message before. */
  ghost predicate Kept(a: Assessor, start: Store, now: Store, all: seq<WalRecord>, at: nat) {
    forall j :: 0 <= j < at && j < |all| && !a.blocks(all[j].text) && FirstOfMessage(all, j) ==> Noted(start, now, all[j])
  }

  ghost predicate FirstOfMessage(all: seq<WalRecord>, j: nat)
    requires j < |all|
  {
    forall i :: 0 <= i < j ==> all[i].messageId != all[j].messageId
  }

  ghost predicate Noted(start: Store, now: Store, r: WalRecord) {
    NoteExists(start.notes, r.messageId) || Note(r.id, r.messageId, r.text) in now.notes
  }

  lemma SnapshotTexts(log: seq<WalRecord>, notes: seq<Note>)
    requires DistinctRecords(log)
    ensures Untouched(Store(log, notes), PendingRecords(log), 0)
  {
    var all := PendingRecords(log);
    FilterMembers(log, (r: WalRecord) => r.status == Pending);
    forall j, i | 0 <= j < |all| && 0 <= i < |log| && log[i].id == all[j].id ensures log[i].text == all[j].text {
      assert all[j] in all;
      var k :| 0 <= k < |log| && log[k] == all[j];
    }
  }

  /** The work of one record changes no text but that of the record, and none at all for a repetition. */
  lemma {:induction false} TurnTouches(s: Store, todo: seq<Work>, id: string, i: nat)
    requires i < |s.log| && forall w :: w in todo ==> w.Block? ==> w.blockId == id
    ensures |DoAll(s, todo).log| == |s.log| && DoAll(s, todo).log[i].id == s.log[i].id
    ensures s.log[i].id != id || (forall w :: w in todo ==> !w.Block?) ==> DoAll(s, todo).log[i].text == s.log[i].text
    decreases |todo|
  {
    if todo != [] {
      assert todo[0] in todo;
      TurnTouches(Do(s, todo[0]), todo[1..], id, i);
    }
  }

  /** What a part of one record's work may add: the note of that record. */
  lemma PartAdds(a: Assessor, s: Store, r: WalRecord, seen: set<string>, n: nat)
    requires n <= |TurnOf(a, s.notes, r, seen)|
    ensures var s' := DoAll(s, TurnOf(a, s.notes, r, seen)[..n]);
      s'.notes == s.notes || s'.notes == s.notes + [Note(r.id, r.messageId, r.text)]
  {
    var todo := TurnOf(a, s.notes, r, seen);
    if n == 0 {
      assert todo[..0] == [];
    } else if n == 1 {
      assert todo[..1] == [todo[0]] && DoAll(s, [todo[0]]) == DoAll(Do(s, todo[0]), []);
    } else {
      assert todo == [Save(Note(r.id, r.messageId, r.text)), Complete(r.id)];
      assert todo[..2] == todo && todo[1..] == [Complete(r.id)];
      assert DoAll(Do(s, todo[0]), todo[1..]) == DoAll(Do(Do(s, todo[0]), todo[1]), []);
    }
  }

  /** What the whole work of a record that is not a repetition leaves. */
  lemma WholeTurn(a: Assessor, s: Store, r: WalRecord, seen: set<string>, i: nat)
    requires r.messageId !in seen && i < |s.log| && s.log[i].id == r.id && s.log[i].text == r.text
    ensures var s' := DoAll(s, TurnOf(a, s.notes, r, seen));
      && |s'.log| == |s.log|
      && (!a.blocks(REDACTED) ==> !a.blocks(s'.log[i].text))
      && (!a.blocks(r.text) ==> NoteExists(s.notes, r.messageId) || Note(r.id, r.messageId, r.text) in s'.notes)
  {
    var n := Note(r.id, r.messageId, r.text);
    if a.blocks(r.text) {
      var w := Block(r.id, a.category(r.text), false);
      assert DoAll(s, [w]) == DoAll(Do(s, w), []) == Do(s, w);
    } else if NoteExists(s.notes, r.messageId) {
      var none: seq<Work> := [];
      assert none + [Complete(r.id)] == [Complete(r.id)];
      assert DoAll(s, [Complete(r.id)]) == DoAll(Do(s, Complete(r.id)), []) == Do(s, Complete(r.id));
    } else {
      assert [Save(n), Complete(r.id)][1..] == [Complete(r.id)];
      assert DoAll(s, [Save(n), Complete(r.id)]) == DoAll(Do(s, Save(n)), [Complete(r.id)]);
      assert DoAll(Do(s, Save(n)), [Complete(r.id)]) == Do(Do(s, Save(n)), Complete(r.id));
      assert SaveNote(s.notes, n)[|s.notes|] == n;
    }
  }

  lemma PassTurn(a: Assessor, start: Store, s: Store, s': Store, all: seq<WalRecord>, at: nat, left: seq<WalRecord>,
                 seen: set<string>, count: nat, failed: nat, turn: Turn)
    requires Passing(a, start, s, all, at, left, seen, count, failed) && left != [] && turn != Aborted
    requires DoneUpTo(s, s', TurnOf(a, s.notes, left[0], seen), turn == Counted || turn == Skipped)
    requires turn == Skipped <==> left[0].messageId in seen && left[0].id == ""
    ensures Passing(a, start, s', all, at + 1, left[1..], SeenAfter(left[0], seen),
      if turn == Counted then count + 1 else count, if turn == Failed then failed + 1 else failed)
  {
    MeetNext(all, at, left, seen);
    PassStep(a, start, s, s', left, seen, turn != Failed);
    var n :| 0 <= n <= |TurnOf(a, s.notes, left[0], seen)|
      && (turn != Failed ==> n == |TurnOf(a, s.notes, left[0], seen)|)
      && s' == DoAll(s, TurnOf(a, s.notes, left[0], seen)[..n]);
    PendingDistinct(start.log);
    AddedStep(a, start, s, all, at, seen, n);
    UntouchedStep(a, s, all, at, seen, n);
    if turn != Failed && failed == 0 {
      assert TurnOf(a, s.notes, left[0], seen)[..n] == TurnOf(a, s.notes, left[0], seen);
      CleanedStep(a, s, all, at, seen);
      KeptStep(a, start, s, all, at, seen);
    }
  }

  lemma {:induction false} DoAllExtends(s: Store, todo: seq<Work>)
    ensures Extends(s.log, DoAll(s, todo).log) && |DoAll(s, todo).log| == |s.log| && s.notes <= DoAll(s, todo).notes
    decreases |todo|
  {
    if todo != [] {
      WorkExtends(s, todo[0]);
      DoAllExtends(Do(s, todo[0]), todo[1..]);
      ExtendsTransitive(s.log, Do(s, todo[0]).log, DoAll(s, todo).log);
    }
  }

  lemma AddedStep(a: Assessor, start: Store, s: Store, all: seq<WalRecord>, at: nat, seen: set<string>, n: nat)
    requires at < |all| && AddedFrom(start, s, all, at) && start.notes <= s.notes
    requires n <= |TurnOf(a, s.notes, all[at], seen)|
    ensures AddedFrom(start, DoAll(s, TurnOf(a, s.notes, all[at], seen)[..n]), all, at + 1)
  {
    var s' := DoAll(s, TurnOf(a, s.notes, all[at], seen)[..n]);
    PartAdds(a, s, all[at], seen, n);
    forall k | |start.notes| <= k < |s'.notes|
      ensures NoteFrom(s'.notes[k], all, at + 1)
    {
      if k < |s.notes| {
        assert s'.notes[k] == s.notes[k] && NoteFrom(s.notes[k], all, at);
      } else {
        assert s'.notes[k] == Note(all[at].id, all[at].messageId, all[at].text);
      }
    }
  }

  /** The messages seen are those of earlier records. */
  ghost predicate SeenEarlier(all: seq<WalRecord>, at: nat, seen: set<string>) {
    at < |all| && forall m :: m in seen <==> m != "" && exists i :: 0 <= i < at && all[i].messageId == m
  }

  lemma UntouchedStep(a: Assessor, s: Store, all: seq<WalRecord>, at: nat, seen: set<string>, n: nat)
    requires at < |all| && DistinctRecords(all) && Untouched(s, all, at)
    requires n <= |TurnOf(a, s.notes, all[at], seen)|
    ensures Untouched(DoAll(s, TurnOf(a, s.notes, all[at], seen)[..n]), all, at + 1)
  {
    var todo := TurnOf(a, s.notes, all[at], seen)[..n];
    var s' := DoAll(s, todo);
    DoAllExtends(s, todo);
    forall j, i | at + 1 <= j < |all| && 0 <= i < |s'.log| && s'.log[i].id == all[j].id ensures s'.log[i].text == all[j].text {
      TurnTouches(s, todo, all[at].id, i);
    }
  }

  lemma CleanedAt(a: Assessor, s: Store, all: seq<WalRecord>, at: nat, seen: set<string>, i: nat)
    requires SeenEarlier(all, at, seen) && Untouched(s, all, at) && !a.blocks(REDACTED)
    requires i < |s.log| && s.log[i].id == all[at].id
    ensures var s' := DoAll(s, TurnOf(a, s.notes, all[at], seen));
      |s'.log| == |s.log| && (a.blocks(s'.log[i].text) <==> RepeatedAt(all, at) && a.blocks(all[at].text))
  {
    assert RepeatedAt(all, at) <==> all[at].messageId in seen;
    if all[at].messageId in seen {
      TurnTouches(s, TurnOf(a, s.notes, all[at], seen), all[at].id, i);
    } else {
      WholeTurn(a, s, all[at], seen, i);
    }
  }

  lemma CleanedStep(a: Assessor, s: Store, all: seq<WalRecord>, at: nat, seen: set<string>)
    requires SeenEarlier(all, at, seen) && DistinctRecords(all) && Untouched(s, all, at) && Cleaned(a, s, all, at)
    ensures Cleaned(a, DoAll(s, TurnOf(a, s.notes, all[at], seen)), all, at + 1)
  {
    var todo := TurnOf(a, s.notes, all[at], seen);
    var s' := DoAll(s, todo);
    DoAllExtends(s, todo);
    if !a.blocks(REDACTED) {
      forall j, i | 0 <= j < at + 1 && j < |all| && 0 <= i < |s'.log| && s'.log[i].id == all[j].id
        ensures a.blocks(s'.log[i].text) <==> RepeatedAt(all, j) && a.blocks(all[j].text)
      {
        assert s.log[i].id == all[j].id;
        if j == at {
          CleanedAt(a, s, all, at, seen, i);
        } else {
          TurnTouches(s, todo, all[at].id, i);
        }
      }
    }
  }

  lemma KeptStep(a: Assessor, start: Store, s: Store, all: seq<WalRecord>, at: nat, seen: set<string>)
    requires SeenEarlier(all, at, seen) && all == PendingRecords(start.log) && Untouched(s, all, at)
    requires Extends(start.log, s.log) && |s.log| == |start.log| && start.notes <= s.notes
    requires AddedFrom(start, s, all, at) && Kept(a, start, s, all, at)
    ensures Kept(a, start, DoAll(s, TurnOf(a, s.notes, all[at], seen)), all, at + 1)
  {
    var todo := TurnOf(a, s.notes, all[at], seen);
    var s' := DoAll(s, todo);
    DoAllExtends(s, todo);
    forall j | 0 <= j < at + 1 && j < |all| && !a.blocks(all[j].text) && FirstOfMessage(all, j) ensures Noted(start, s', all[j]) {
      if j < at {
        NotedStays(start, s, s', all[j]);
      } else {
        NotedNow(a, start, s, all, at, seen);
      }
    }
  }

  lemma NotedStays(start: Store, s: Store, s': Store, r: WalRecord)
    requires Noted(start, s, r) && s.notes <= s'.notes
    ensures Noted(start, s', r)
  {
    if !NoteExists(start.notes, r.messageId) {
      var k :| 0 <= k < |s.notes| && s.notes[k] == Note(r.id, r.messageId, r.text);
      assert s'.notes[k] == s.notes[k];
    }
  }

  lemma NotedNow(a: Assessor, start: Store, s: Store, all: seq<WalRecord>, at: nat, seen: set<string>)
    requires SeenEarlier(all, at, seen) && all == PendingRecords(start.log) && Untouched(s, all, at)
    requires Extends(start.log, s.log) && |s.log| == |start.log| && start.notes <= s.notes
    requires AddedFrom(start, s, all, at) && !a.blocks(all[at].text) && FirstOfMessage(all, at)
    ensures Noted(start, DoAll(s, TurnOf(a, s.notes, all[at], seen)), all[at])
  {
    var r := all[at];
    FilterMembers(start.log, (r: WalRecord) => r.status == Pending);
    assert all[at] in all;
    var i :| 0 <= i < |start.log| && start.log[i] == r;
    assert s.log[i].id == r.id;
    WholeTurn(a, s, r, seen, i);
    NoteIsOlder(start, s, all, at);
  }

  lemma NoteIsOlder(start: Store, s: Store, all: seq<WalRecord>, at: nat)
    requires at < |all| && AddedFrom(start, s, all, at) && start.notes <= s.notes && FirstOfMessage(all, at)
    ensures NoteExists(s.notes, all[at].messageId) ==> NoteExists(start.notes, all[at].messageId)
  {
    if k :| 0 <= k < |s.notes| && s.notes[k].messageId == all[at].messageId {
      assert k < |start.notes| || NoteFrom(s.notes[k], all, at);
      assert start.notes[k].messageId == all[at].messageId;
    }
  }

  /** How one record of a pass went. */
  datatype Turn = Counted | Skipped | Failed | Aborted

  predicate NoBlankIds(log: seq<WalRecord>) {
    forall i :: 0 <= i < |log| ==> log[i].id != ""
  }

  /** Nothing is pending, and every message has a note or a blocked record. */
  ghost predicate Settled(s: Store) {
    forall i :: 0 <= i < |s.log| ==>
      && s.log[i].status != Pending
      && (NoteExists(s.notes, s.log[i].messageId)
          || exists j :: 0 <= j < |s.log| && s.log[j].messageId == s.log[i].messageId && s.log[j].status == BlockedSensitive)
  }

  /** What is still pending waits for its turn. */
  ghost predicate PendingWithin(log: seq<WalRecord>, batch: seq<WalRecord>) {
    forall i :: 0 <= i < |log| && log[i].status == Pending ==> log[i].id in IdsOf(batch)
  }

  ghost predicate PassInv(a: Assessor, start: Store, s: Store, batch: seq<WalRecord>, seen: set<string>) {
    && Safe(a, s) && BatchInv(s, batch, seen)
    && Extends(start.log, s.log) && |s.log| == |start.log| && start.notes <= s.notes
  }

  lemma PendingComplete(log: seq<WalRecord>)
    ensures PendingWithin(log, PendingRecords(log))
  {
    var pending := PendingRecords(log);
    FilterMembers(log, (r: WalRecord) => r.status == Pending);
    forall i | 0 <= i < |log| && log[i].status == Pending ensures log[i].id in IdsOf(pending) {
      assert log[i] in pending;
      var k :| 0 <= k < |pending| && pending[k] == log[i];
      assert pending[k].id == log[i].id;
    }
  }

  lemma OneOrNone(before: Store, r: WalRecord)
    ensures DoneUpTo(before, Do(before, Complete(r.id)), [Complete(r.id)], true)
    ensures DoneUpTo(before, before, [], true)
  {
    assert [Complete(r.id)][..1] == [Complete(r.id)];
    assert DoAll(before, [Complete(r.id)]) == DoAll(Do(before, Complete(r.id)), []);
    var none: seq<Work> := [];
    assert none[..0] == none;
  }

  /** Any part of justified work keeps the pass in order. */
  lemma {:induction false} PartKeeps(a: Assessor, start: Store, s: Store, batch: seq<WalRecord>, seen: set<string>, todo: seq<Work>, n: nat)
    requires PassInv(a, start, s, batch, seen) && MayDoAll(a, s, todo, IdsOf(batch)) && n <= |todo|
    ensures PassInv(a, start, DoAll(s, todo[..n]), batch, seen)
    decreases |todo|
  {
    if n > 0 {
      var w, s' := todo[0], Do(s, todo[0]);
      WorkKeepsSafe(a, s, w, IdsOf(batch));
      WorkKeepsBatch(a, s, batch, seen, w);
      WorkExtends(s, w);
      ExtendsTransitive(start.log, s.log, s'.log);
      PartKeeps(a, start, s', batch, seen, todo[1..], n - 1);
      assert todo[..n][0] == w && todo[..n][1..] == todo[1..][..n - 1];
    }
  }

  lemma WorkExtends(s: Store, w: Work)
    ensures Extends(s.log, Do(s, w).log) && |Do(s, w).log| == |s.log| && s.notes <= Do(s, w).notes
  {
    match w
    case Block(id, category, preserve) => EffectExtends(MarkSensitiveBlocked("", id, category, preserve), s.log);
    case Save(_) =>
    case Complete(id) => EffectExtends(MarkProcessed("", id), s.log);
  }

  /** All the work of a turn takes its record, and no other, out of the pending state. */
  lemma TurnSettles(a: Assessor, s: Store, r: WalRecord, seen: set<string>)
    requires r.id != ""
    ensures var s' := DoAll(s, TurnOf(a, s.notes, r, seen));
      && |s'.log| == |s.log|
      && forall i :: 0 <= i < |s.log| ==>
        && s'.log[i].id == s.log[i].id
        && (s'.log[i].status == Pending ==> s.log[i].status == Pending && s.log[i].id != r.id)
  {
    var todo := TurnOf(a, s.notes, r, seen);
    var last := todo[|todo| - 1];
    assert last == Complete(r.id) || last == Block(r.id, a.category(r.text), false);
    if |todo| == 2 {
      var n := Note(r.id, r.messageId, r.text);
      assert todo == [Save(n), Complete(r.id)] && todo[1..] == [last];
      assert DoAll(s, todo) == DoAll(Do(s, Save(n)), [last]) == Do(Do(s, Save(n)), last);
    } else {
      assert todo == [last];
      assert DoAll(s, todo) == DoAll(Do(s, last), []) == Do(s, last);
    }
  }

  lemma PassStep(a: Assessor, start: Store, s: Store, s': Store, batch: seq<WalRecord>, seen: set<string>, ok: bool)
    requires PassInv(a, start, s, batch, seen) && batch != []
    requires DoneUpTo(s, s', TurnOf(a, s.notes, batch[0], seen), ok)
    ensures PassInv(a, start, s', batch[1..], SeenAfter(batch[0], seen))
    ensures NoBlankIds(start.log) ==> batch[0].id != ""
    ensures ok && batch[0].id != "" && PendingWithin(s.log, batch) ==> PendingWithin(s'.log, batch[1..])
  {
    var r, todo := batch[0], TurnOf(a, s.notes, batch[0], seen);
    TakeNext(a, s, batch, seen);
    var n :| 0 <= n <= |todo| && (ok ==> n == |todo|) && s' == DoAll(s, todo[..n]);
    PartKeeps(a, start, s, batch[1..], SeenAfter(r, seen), todo, n);
    assert OpenInLog(s.log, r);
    if ok && r.id != "" && PendingWithin(s.log, batch) {
      assert todo[..n] == todo;
      TurnSettles(a, s, r, seen);
      forall i | 0 <= i < |s'.log| && s'.log[i].status == Pending ensures s'.log[i].id in IdsOf(batch[1..]) {
        assert s.log[i].id in IdsOf(batch);
        var k :| 0 <= k < |batch| && batch[k].id == s.log[i].id;
        assert batch[1..][k - 1].id == s.log[i].id;
      }
    }
  }

  lemma PassEnd(a: Assessor, start: Store, s: Store, batch: seq<WalRecord>, seen: set<string>)
    requires PassInv(a, start, s, batch, seen) && batch == []
    ensures PendingWithin(s.log, batch) ==> Settled(s)
  {
    if PendingWithin(s.log, batch) {
      forall i | 0 <= i < |s.log|
        ensures s.log[i].status != Pending
        ensures NoteExists(s.notes, s.log[i].messageId)
          || exists j :: 0 <= j < |s.log| && s.log[j].messageId == s.log[i].messageId && s.log[j].status == BlockedSensitive
      {
        assert Covered(s, s.log[i].messageId);
        if !NoteExists(s.notes, s.log[i].messageId) {
          var j :| 0 <= j < |s.log| && s.log[j].messageId == s.log[i].messageId && Open(s.log[j]);
          assert s.log[j].status != Pending;
        }
      }
    }
  }
  // ----- when a pass can abort -----

  /** Work is due that the pass does not guard: an exception now ends the pass. */
  predicate Exposed(m: Memory) {
    m.Busy? && m.todo != [] && !m.guarded
  }

  /** What happens between the start of a pass and its end. */
  predicate WithinPass(e: Event) {
    e.Append? || e.NextRecord? || e.DoWork? || e.Fail?
  }

  ghost predicate PassRun(a: Assessor, s: State, run: seq<Event>) {
    && Legal(a, s, run) && run != [] && run[0] == StartPass
    && forall i :: 1 <= i < |run| ==> WithinPass(run[i])
  }

  /** Without any failure on the way, a pass comes to a repeated record that is ahead. */
  lemma {:induction false} RepeatIsMet(a: Assessor, s: State, k: nat) returns (run: seq<Event>)
    requires s.memory.Busy?
    requires Exposed(s.memory) || RepeatAhead(s.memory.batch, s.memory.seen, k)
    ensures Legal(a, s, run) && Exposed(After(a, s, run).memory)
    ensures forall e :: e in run ==> e == NextRecord || e == DoWork
    decreases |s.memory.batch|, |s.memory.todo|
  {
    if Exposed(s.memory) {
      return [];
    }
    var e := if s.memory.todo == [] then NextRecord else DoWork;
    var next := Next(a, s, e);
    var rest := RepeatIsMet(a, next, if e == DoWork || k == 0 then k else k - 1);
    run := [e] + rest;
    assert run[1..] == rest;
  }

  /** Record `k` of those still to come repeats a message that is seen by then. */
  ghost predicate RepeatAhead(batch: seq<WalRecord>, seen: set<string>, k: nat) {
    && k < |batch| && batch[k].messageId != "" && batch[k].id != ""
    && (batch[k].messageId in seen || exists i :: 0 <= i < k && batch[i].messageId == batch[k].messageId)
  }

  lemma EventWithinPass(a: Assessor, s: State, e: Event, all: seq<WalRecord>, at: nat) returns (at': nat)
    requires Enabled(s, e) && WithinPass(e) && s.memory.Busy?
    requires Met(all, at, s.memory.batch, s.memory.seen) && (Exposed(s.memory) ==> RepeatsMessage(all))
    ensures var m := Next(a, s, e).memory;
      m.Busy? && Met(all, at', m.batch, m.seen) && (Exposed(m) ==> RepeatsMessage(all))
  {
    at' := at;
    if e.NextRecord? {
      MeetNext(all, at, s.memory.batch, s.memory.seen);
      at' := at + 1;
    }
  }

  lemma {:induction false} ExposedRepeats(a: Assessor, s: State, run: seq<Event>, all: seq<WalRecord>, at: nat)
    requires Legal(a, s, run) && (forall e :: e in run ==> WithinPass(e)) && s.memory.Busy?
    requires Met(all, at, s.memory.batch, s.memory.seen) && (Exposed(s.memory) ==> RepeatsMessage(all))
    ensures Exposed(After(a, s, run).memory) ==> RepeatsMessage(all)
    decreases |run|
  {
    if run != [] {
      assert run[0] in run;
      var at' := EventWithinPass(a, s, run[0], all, at);
      ExposedRepeats(a, Next(a, s, run[0]), run[1..], all, at');
    }
  }

  /** Exactly when the pending records repeat a message can a pass come to work whose failure it
      does not catch. */
  lemma ExposedIffRepeats(a: Assessor, s: State)
    requires s.memory.Idle?
    ensures (exists run :: PassRun(a, s, run) && Exposed(After(a, s, run).memory)) <==>
      RepeatsMessage(PendingRecords(s.store.log))
  {
    var all, started := PendingRecords(s.store.log), Next(a, s, StartPass);
    if RepeatsMessage(all) {
      var i, k :| 0 <= i < k < |all| && RepeatAt(all, i, k);
      var rest := RepeatIsMet(a, started, k);
      var run := [StartPass] + rest;
      assert run[1..] == rest;
      assert forall i :: 1 <= i < |run| ==> run[i] in rest;
      assert PassRun(a, s, run);
    }
    forall run | PassRun(a, s, run) && Exposed(After(a, s, run).memory) ensures RepeatsMessage(all) {
      assert forall e :: e in run[1..] ==> WithinPass(e);
      ExposedRepeats(a, started, run[1..], all, 0);
    }
  }
}
