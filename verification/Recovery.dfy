/** Turning logged messages into notes, with failures and crashes (core/worker.py).

    One space: its log and its note index. Each locked file rewrite is atomic. The sensitivity
    check and classification are functions of the text; memory extraction and enrichment keep
    state of their own and touch neither the log nor the set of notes. */
module Recovery {
  import opened Wal

  datatype Note = Note(id: string, messageId: string, text: string)

  /** The sensitivity check: whether a text may be stored, and its category. */
  datatype Assessor = Assessor(blocks: string -> bool, category: string -> string)

  predicate NoteExists(notes: seq<Note>, messageId: string) {
    exists i :: 0 <= i < |notes| && notes[i].messageId == messageId
  }

  /** `save_note` checks again under the lock. */
  function SaveNote(notes: seq<Note>, n: Note): seq<Note> {
    if NoteExists(notes, n.messageId) then notes else notes + [n]
  }

  datatype Store = Store(log: seq<WalRecord>, notes: seq<Note>)

  /** The durable effects of processing one record. */
  datatype Work = Block(blockId: string, category: string, preservePending: bool) | Save(note: Note) | Complete(id: string)

  function Do(s: Store, w: Work): Store {
    match w
    case Block(id, category, preserve) => s.(log := Effect(MarkSensitiveBlocked("", id, category, preserve), s.log))
    case Save(n) => s.(notes := SaveNote(s.notes, n))
    case Complete(id) => s.(log := Effect(MarkProcessed("", id), s.log))
  }

  function DoAll(s: Store, todo: seq<Work>): Store
    decreases |todo|
  {
    if todo == [] then s else DoAll(Do(s, todo[0]), todo[1..])
  }

  /** What `process_record` sets out to do, in order. */
  function Todo(a: Assessor, notes: seq<Note>, r: WalRecord, defer: bool): seq<Work> {
    if a.blocks(r.text) then [Block(r.id, a.category(r.text), defer)]
    else
      var save := if NoteExists(notes, r.messageId) then [] else [Save(Note(r.id, r.messageId, r.text))];
      save + if defer then [] else [Complete(r.id)]
  }

  // ----- what must never break -----

  predicate Open(r: WalRecord) {
    r.status == Pending || r.status == BlockedSensitive
  }

  /** The message is still to be processed, was blocked, or has become a note. */
  ghost predicate Covered(s: Store, messageId: string) {
    NoteExists(s.notes, messageId) || exists i :: 0 <= i < |s.log| && s.log[i].messageId == messageId && Open(s.log[i])
  }

  ghost predicate DistinctRecords(log: seq<WalRecord>) {
    forall i, j :: 0 <= i < j < |log| ==> log[i].id != log[j].id
  }

  ghost predicate Safe(a: Assessor, s: Store) {
    && DistinctRecords(s.log)
    && (forall i :: 0 <= i < |s.log| ==> Covered(s, s.log[i].messageId))
    && (forall i, j :: 0 <= i < j < |s.notes| ==> s.notes[i].messageId != s.notes[j].messageId)
    && (forall i :: 0 <= i < |s.notes| ==> !a.blocks(s.notes[i].text))
  }

  predicate InLog(log: seq<WalRecord>, id: string) {
    exists i :: 0 <= i < |log| && log[i].id == id
  }

  /** Something other than record `i` keeps its message covered: a note, or an open record
      that is not waiting for its own turn. */
  ghost predicate CoveredWithout(s: Store, i: nat, waiting: set<string>)
    requires i < |s.log|
  {
    NoteExists(s.notes, s.log[i].messageId)
    || exists j :: 0 <= j < |s.log| && j != i && s.log[j].messageId == s.log[i].messageId && Open(s.log[j]) && s.log[j].id !in waiting
  }

  /** A piece of work is justified: blocking always is, a saved text passed the check, and
      completing a record leaves its message covered. */
  ghost predicate MayDo(a: Assessor, s: Store, w: Work, waiting: set<string>) {
    match w
    case Block(id, _, _) => InLog(s.log, id) && id !in waiting
    case Save(n) => !a.blocks(n.text)
    case Complete(id) =>
      && InLog(s.log, id) && id !in waiting
      && forall i :: 0 <= i < |s.log| && s.log[i].id == id ==> CoveredWithout(s, i, waiting)
  }

  /** Every remaining piece of work is justified when its turn comes. */
  ghost predicate MayDoAll(a: Assessor, s: Store, todo: seq<Work>, waiting: set<string>)
    decreases |todo|
  {
    todo == [] || (MayDo(a, s, todo[0], waiting) && MayDoAll(a, Do(s, todo[0]), todo[1..], waiting))
  }

  lemma BlockKeepsSafe(a: Assessor, s: Store, w: Work)
    requires Safe(a, s) && w.Block?
    ensures Safe(a, Do(s, w))
  {
    var s' := Do(s, w);
    forall i | 0 <= i < |s'.log| ensures Covered(s', s'.log[i].messageId) {
      assert Covered(s, s.log[i].messageId);
      if !NoteExists(s.notes, s.log[i].messageId) {
        var j :| 0 <= j < |s.log| && s.log[j].messageId == s.log[i].messageId && Open(s.log[j]);
        assert Open(s'.log[j]) && s'.log[j].messageId == s'.log[i].messageId;
      }
    }
    assert forall i, j :: 0 <= i < j < |s'.log| ==> s'.log[i].id == s.log[i].id && s'.log[j].id == s.log[j].id;
  }

  lemma SaveKeepsSafe(a: Assessor, s: Store, n: Note)
    requires Safe(a, s) && !a.blocks(n.text)
    ensures Safe(a, Do(s, Save(n))) && NoteExists(SaveNote(s.notes, n), n.messageId)
  {
    var s' := Do(s, Save(n));
    if !NoteExists(s.notes, n.messageId) {
      assert s'.notes[|s.notes|].messageId == n.messageId;
    }
    forall i | 0 <= i < |s'.log| ensures Covered(s', s'.log[i].messageId) {
      assert Covered(s, s.log[i].messageId);
      NotesKept(s.notes, n, s.log[i].messageId);
    }
  }

  lemma NotesKept(notes: seq<Note>, n: Note, messageId: string)
    ensures NoteExists(SaveNote(notes, n), messageId) <==> NoteExists(notes, messageId) || n.messageId == messageId
  {
    if NoteExists(notes, messageId) {
      var i :| 0 <= i < |notes| && notes[i].messageId == messageId;
      assert SaveNote(notes, n)[i].messageId == messageId;
    } else if n.messageId == messageId {
      assert SaveNote(notes, n)[|notes|].messageId == messageId;
    }
  }

  lemma CompleteKeepsSafe(a: Assessor, s: Store, id: string, waiting: set<string>)
    requires Safe(a, s) && MayDo(a, s, Complete(id), waiting)
    ensures Safe(a, Do(s, Complete(id)))
  {
    var s' := Do(s, Complete(id));
    forall i | 0 <= i < |s'.log| ensures Covered(s', s'.log[i].messageId) {
      assert Covered(s, s.log[i].messageId);
      if !NoteExists(s.notes, s.log[i].messageId) {
        var j :| 0 <= j < |s.log| && s.log[j].messageId == s.log[i].messageId && Open(s.log[j]);
        if s.log[j].id == id {
          assert CoveredWithout(s, j, waiting);
          var k :| 0 <= k < |s.log| && k != j && s.log[k].messageId == s.log[j].messageId && Open(s.log[k]);
          assert s.log[k].id != s.log[j].id;
          assert s'.log[k] == s.log[k];
        } else {
          assert s'.log[j] == s.log[j];
        }
      }
    }
    assert forall i, j :: 0 <= i < j < |s'.log| ==> s'.log[i].id == s.log[i].id && s'.log[j].id == s.log[j].id;
  }

  /** No justified effect breaks safety. */
  lemma WorkKeepsSafe(a: Assessor, s: Store, w: Work, waiting: set<string>)
    requires Safe(a, s) && MayDo(a, s, w, waiting)
    ensures Safe(a, Do(s, w))
  {
    match w
    case Block(_, _, _) => BlockKeepsSafe(a, s, w);
    case Save(n) => SaveKeepsSafe(a, s, n);
    case Complete(id) => CompleteKeepsSafe(a, s, id, waiting);
  }

  // ----- one record -----

  /** `r` is a copy of a log record that is still open. */
  ghost predicate OpenInLog(log: seq<WalRecord>, r: WalRecord) {
    exists i :: 0 <= i < |log| && log[i].id == r.id && log[i].messageId == r.messageId && Open(log[i])
  }

  /** All that `process_record` does is justified. */
  lemma TodoJustified(a: Assessor, s: Store, r: WalRecord, defer: bool, waiting: set<string>)
    requires Safe(a, s) && OpenInLog(s.log, r) && r.id !in waiting
    ensures MayDoAll(a, s, Todo(a, s.notes, r, defer), waiting)
  {
    var i :| 0 <= i < |s.log| && s.log[i].id == r.id && s.log[i].messageId == r.messageId && Open(s.log[i]);
    assert InLog(s.log, r.id);
    var todo := Todo(a, s.notes, r, defer);
    if !a.blocks(r.text) {
      var n := Note(r.id, r.messageId, r.text);
      SaveKeepsSafe(a, s, n);
      if NoteExists(s.notes, r.messageId) {
        assert todo == if defer then [] else [Complete(r.id)];
      } else {
        assert todo == [Save(n)] + if defer then [] else [Complete(r.id)];
        var s' := Do(s, Save(n));
        if !defer {
          assert forall k :: 0 <= k < |s'.log| && s'.log[k].id == r.id ==> k == i;
          assert MayDo(a, s', Complete(r.id), waiting);
          assert todo[1..] == [Complete(r.id)];
        }
      }
    }
  }

  // ----- a batch -----

  ghost function IdsOf(batch: seq<WalRecord>): set<string> {
    set k | 0 <= k < |batch| :: batch[k].id
  }

  /** The rest of a snapshot and the message ids already met. */
  ghost predicate BatchInv(s: Store, batch: seq<WalRecord>, seen: set<string>) {
    && (forall k :: 0 <= k < |batch| ==> OpenInLog(s.log, batch[k]))
    && DistinctRecords(batch)
    && (forall m :: m in seen ==>
          NoteExists(s.notes, m)
          || exists i :: 0 <= i < |s.log| && s.log[i].messageId == m && Open(s.log[i]) && s.log[i].id !in IdsOf(batch))
  }

  /** Work on one record leaves the rest of the batch as it was. */
  lemma WorkKeepsBatch(a: Assessor, s: Store, batch: seq<WalRecord>, seen: set<string>, w: Work)
    requires Safe(a, s) && BatchInv(s, batch, seen) && MayDo(a, s, w, IdsOf(batch))
    ensures BatchInv(Do(s, w), batch, seen)
  {
    var s' := Do(s, w);
    forall k | 0 <= k < |batch| ensures OpenInLog(s'.log, batch[k]) {
      var i :| 0 <= i < |s.log| && s.log[i].id == batch[k].id && s.log[i].messageId == batch[k].messageId && Open(s.log[i]);
      assert batch[k].id in IdsOf(batch);
      assert s'.log[i] == s.log[i];
    }
    forall m | m in seen
      ensures NoteExists(s'.notes, m)
        || exists i :: 0 <= i < |s'.log| && s'.log[i].messageId == m && Open(s'.log[i]) && s'.log[i].id !in IdsOf(batch)
    {
      if NoteExists(s.notes, m) {
        if w.Save? {
          NotesKept(s.notes, w.note, m);
        }
      } else {
        var i :| 0 <= i < |s.log| && s.log[i].messageId == m && Open(s.log[i]) && s.log[i].id !in IdsOf(batch);
        if w.Complete? && s.log[i].id == w.id {
          assert CoveredWithout(s, i, IdsOf(batch));
          var j :| 0 <= j < |s.log| && j != i && s.log[j].messageId == m && Open(s.log[j]) && s.log[j].id !in IdsOf(batch);
          assert s.log[j].id != s.log[i].id;
          assert s'.log[j] == s.log[j];
        } else if w.Save? {
          assert s'.log[i] == s.log[i];
        } else {
          assert Open(s'.log[i]) && s'.log[i].id == s.log[i].id && s'.log[i].messageId == m;
        }
      }
    }
  }

  /** The work for the next record of a batch: a repeated message is only marked. */
  function TurnOf(a: Assessor, notes: seq<Note>, r: WalRecord, seen: set<string>): seq<Work> {
    if r.messageId in seen then (if r.id != "" then [Complete(r.id)] else [])
    else Todo(a, notes, r, false)
  }

  function SeenAfter(r: WalRecord, seen: set<string>): set<string> {
    if r.messageId != "" then seen + {r.messageId} else seen
  }

  lemma RestIds(batch: seq<WalRecord>)
    requires batch != [] && DistinctRecords(batch)
    ensures batch[0].id in IdsOf(batch) && batch[0].id !in IdsOf(batch[1..]) && IdsOf(batch[1..]) <= IdsOf(batch)
  {
    forall x | x in IdsOf(batch[1..]) ensures x in IdsOf(batch) {
      var k :| 0 <= k < |batch[1..]| && batch[1..][k].id == x;
      assert batch[k + 1].id == x;
    }
  }

  lemma RestOfBatch(s: Store, batch: seq<WalRecord>, seen: set<string>)
    requires BatchInv(s, batch, seen) && batch != []
    ensures BatchInv(s, batch[1..], SeenAfter(batch[0], seen))
  {
    var r, rest := batch[0], batch[1..];
    RestIds(batch);
    assert OpenInLog(s.log, r);
    forall m | m in SeenAfter(r, seen)
      ensures NoteExists(s.notes, m)
        || exists i :: 0 <= i < |s.log| && s.log[i].messageId == m && Open(s.log[i]) && s.log[i].id !in IdsOf(rest)
    {
      if m in seen && !NoteExists(s.notes, m) {
        var i :| 0 <= i < |s.log| && s.log[i].messageId == m && Open(s.log[i]) && s.log[i].id !in IdsOf(batch);
        assert s.log[i].id !in IdsOf(rest);
      }
    }
  }

  lemma MarkingJustified(a: Assessor, s: Store, batch: seq<WalRecord>, seen: set<string>)
    requires Safe(a, s) && BatchInv(s, batch, seen) && batch != [] && batch[0].messageId in seen
    ensures MayDo(a, s, Complete(batch[0].id), IdsOf(batch[1..]))
  {
    var r := batch[0];
    RestIds(batch);
    assert OpenInLog(s.log, r);
    var i :| 0 <= i < |s.log| && s.log[i].id == r.id && s.log[i].messageId == r.messageId && Open(s.log[i]);
    assert InLog(s.log, r.id);
    assert forall k :: 0 <= k < |s.log| && s.log[k].id == r.id ==> k == i;
    assert CoveredWithout(s, i, IdsOf(batch[1..]));
  }

  /** Taking the next record of a batch: what it calls for is justified. */
  lemma TakeNext(a: Assessor, s: Store, batch: seq<WalRecord>, seen: set<string>)
    requires Safe(a, s) && BatchInv(s, batch, seen) && batch != []
    ensures BatchInv(s, batch[1..], SeenAfter(batch[0], seen))
    ensures MayDoAll(a, s, TurnOf(a, s.notes, batch[0], seen), IdsOf(batch[1..]))
  {
    var r := batch[0];
    RestOfBatch(s, batch, seen);
    if r.messageId in seen {
      MarkingJustified(a, s, batch, seen);
    } else {
      RestIds(batch);
      assert OpenInLog(s.log, r);
      TodoJustified(a, s, r, false, IdsOf(batch[1..]));
    }
  }
  // ----- blocked text -----

  /** No record with this id holds anything but the notice. */
  ghost predicate Gone(log: seq<WalRecord>, id: string) {
    forall i :: 0 <= i < |log| && log[i].id == id ==> log[i].text == REDACTED
  }

  lemma BlockingRemoves(s: Store, id: string, category: string, preserve: bool)
    ensures Gone(Do(s, Block(id, category, preserve)).log, id)
  {
  }

  /** Every record that is blocked holds the notice only. */
  ghost predicate BlockedAreRedacted(log: seq<WalRecord>) {
    forall i :: 0 <= i < |log| && log[i].status == BlockedSensitive ==> log[i].text == REDACTED
  }

  lemma WorkKeepsRedacted(s: Store, w: Work)
    requires BlockedAreRedacted(s.log)
    ensures BlockedAreRedacted(Do(s, w).log)
  {
  }
}
