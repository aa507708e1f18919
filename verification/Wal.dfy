/** The local write-ahead log: one file of records for each space (core/wal.py, core/file_lock.py).

    This module has the sequential behaviour of each operation. Its functions on record
    sequences are what the interleaved and the crashing executions are measured against. */
module Wal {
  import opened Ordering

  datatype Status = Pending | Processed | BlockedSensitive

  /** `envelope` stands for the fields no operation of the log reads or writes. */
  datatype WalRecord = WalRecord(
    id: string,
    spaceId: string,
    messageId: string,
    text: string,
    status: Status,
    sensitivity: string,
    envelope: string)

  const REDACTED := "[敏感内容已拦截，原文未保存]"

  predicate SafeChar(c: char) {
    'a' <= c <= 'z' || 'A' <= c <= 'Z' || '0' <= c <= '9' || c == '_' || c == '.' || c == '-'
  }

  /** The name that keys both the file and the lock of a space. */
  function SafeSpaceId(spaceId: string): (key: string)
    ensures |key| == |spaceId|
    ensures forall i :: 0 <= i < |key| ==> key[i] == if SafeChar(spaceId[i]) then spaceId[i] else '_'
  {
    if spaceId == "" then ""
    else [if SafeChar(spaceId[0]) then spaceId[0] else '_'] + SafeSpaceId(spaceId[1..])
  }

  /** Characters that file names do not tell apart: `_`, and all but ASCII letters and digits, `.` and `-`. */
  predicate Replaceable(c: char) {
    c == '_' || !('a' <= c <= 'z' || 'A' <= c <= 'Z' || '0' <= c <= '9' || c in {'.', '-'})
  }

  lemma SafeName(a: string, i: nat)
    requires i < |a|
    ensures SafeSpaceId(a)[i] == if Replaceable(a[i]) then '_' else a[i]
  {
  }

  predicate SameName(a: string, b: string) {
    |a| == |b| && forall i :: 0 <= i < |a| ==> a[i] == b[i] || (Replaceable(a[i]) && Replaceable(b[i]))
  }

  /** Two spaces share a file exactly when their names differ only where both have such characters. */
  lemma SharedFile(a: string, b: string)
    ensures SafeSpaceId(a) == SafeSpaceId(b) <==> SameName(a, b)
  {
    var x, y := SafeSpaceId(a), SafeSpaceId(b);
    if |a| == |b| {
      forall i | 0 <= i < |a| ensures x[i] == y[i] <==> a[i] == b[i] || (Replaceable(a[i]) && Replaceable(b[i])) {
        SafeName(a, i);
        SafeName(b, i);
      }
    }
  }

  predicate MessageIn(log: seq<WalRecord>, messageId: string) {
    exists i :: 0 <= i < |log| && log[i].messageId == messageId
  }

  function Done(r: WalRecord): WalRecord {
    r.(status := Processed)
  }

  function Redact(r: WalRecord, category: string, preservePending: bool): WalRecord {
    r.(text := REDACTED,
       status := if preservePending then Pending else BlockedSensitive,
       sensitivity := if category == "" then "sensitive" else category)
  }

  datatype Op =
    | AppendOnce(record: WalRecord)
    | MarkProcessed(doneSpace: string, doneId: string)
    | MarkSensitiveBlocked(blockedSpace: string, blockedId: string, category: string, preservePending: bool)
    | Load(loadSpace: string)

  function SpaceOf(op: Op): string {
    match op
    case AppendOnce(r) => r.spaceId
    case MarkProcessed(s, _) => s
    case MarkSensitiveBlocked(s, _, _, _) => s
    case Load(s) => s
  }

  function KeyOf(op: Op): string {
    SafeSpaceId(SpaceOf(op))
  }

  /** What a rewriting operation makes of one record. */
  function Rewritten(op: Op, r: WalRecord): WalRecord {
    match op
    case MarkProcessed(_, id) => if r.id == id then Done(r) else r
    case MarkSensitiveBlocked(_, id, category, preserve) => if r.id == id then Redact(r, category, preserve) else r
    case _ => r
  }

  /** The effect of one whole operation on the records of its file. */
  function Effect(op: Op, log: seq<WalRecord>): (after: seq<WalRecord>)
    ensures |after| >= |log|
    ensures forall i :: 0 <= i < |log| ==> after[i] == Rewritten(op, log[i])
    ensures |after| == |log| <==> !op.AppendOnce? || MessageIn(log, op.record.messageId)
  {
    match op
    case AppendOnce(r) => if MessageIn(log, r.messageId) then log else log + [r]
    case _ => seq(|log|, i requires 0 <= i < |log| => Rewritten(op, log[i]))
  }

  ghost predicate DistinctMessages(log: seq<WalRecord>) {
    forall i, j :: 0 <= i < j < |log| ==> log[i].messageId != log[j].messageId
  }

  /** Records keep their place, their ids and everything but status and redaction. */
  ghost predicate Extends(before: seq<WalRecord>, after: seq<WalRecord>) {
    && |before| <= |after|
    && forall i :: 0 <= i < |before| ==>
      && after[i] == before[i].(text := after[i].text, status := after[i].status, sensitivity := after[i].sensitivity)
      && (after[i].text == before[i].text || after[i].text == REDACTED)
  }

  lemma EffectExtends(op: Op, log: seq<WalRecord>)
    ensures Extends(log, Effect(op, log))
    ensures DistinctMessages(log) ==> DistinctMessages(Effect(op, log))
  {
    var after := Effect(op, log);
    assert forall i :: 0 <= i < |log| ==> after[i].messageId == log[i].messageId;
  }

  lemma ExtendsTransitive(a: seq<WalRecord>, b: seq<WalRecord>, c: seq<WalRecord>)
    requires Extends(a, b) && Extends(b, c)
    ensures Extends(a, c)
  {
  }

  class LogFiles {
    /** File contents by file name; a missing file reads as empty. */
    var files: map<string, seq<WalRecord>>

    constructor ()
      ensures files == map[]
    {
      files := map[];
    }

    function Content(key: string): seq<WalRecord>
      reads this
    {
      if key in files then files[key] else []
    }

    /** The file of `key` is `content` now; every other file is as before. */
    twostate predicate OnlyChanged(key: string, content: seq<WalRecord>)
      reads this
    {
      && Content(key) == content
      && forall k :: k != key ==> Content(k) == old(Content(k))
    }

    method LoadRecords(spaceId: string) returns (records: seq<WalRecord>)
      ensures records == Content(SafeSpaceId(spaceId))
    {
      records := Content(SafeSpaceId(spaceId));
    }

    method AppendRecord(record: WalRecord)
      modifies this
      ensures OnlyChanged(SafeSpaceId(record.spaceId), old(Content(SafeSpaceId(record.spaceId))) + [record])
    {
      var key := SafeSpaceId(record.spaceId);
      files := files[key := Content(key) + [record]];
    }

    method MessageExists(spaceId: string, messageId: string) returns (found: bool)
      ensures found <==> MessageIn(Content(SafeSpaceId(spaceId)), messageId)
    {
      var records := LoadRecords(spaceId);
      for i := 0 to |records|
        invariant forall k :: 0 <= k < i ==> records[k].messageId != messageId
      {
        if records[i].messageId == messageId {
          return true;
        }
      }
      return false;
    }

    method AppendMessageOnce(record: WalRecord) returns (appended: bool)
      modifies this
      ensures OnlyChanged(SafeSpaceId(record.spaceId), Effect(AppendOnce(record), old(Content(SafeSpaceId(record.spaceId)))))
      ensures appended <==> !MessageIn(old(Content(SafeSpaceId(record.spaceId))), record.messageId)
    {
      var known := MessageExists(record.spaceId, record.messageId);
      if known {
        return false;
      }
      AppendRecord(record);
      return true;
    }

    /** The pending records of the space and their positions: all of them, in log order. */
    method LoadPendingRecords(spaceId: string) returns (pending: seq<WalRecord>, ghost at: seq<nat>)
      ensures |pending| == |at|
      ensures forall i, j :: 0 <= i < j < |at| ==> at[i] < at[j]
      ensures var log := Content(SafeSpaceId(spaceId));
        && (forall k: nat :: k in at <==> k < |log| && log[k].status == Pending)
        && (forall i :: 0 <= i < |at| ==> at[i] < |log| && pending[i] == log[at[i]])
    {
      var records := LoadRecords(spaceId);
      at := FilterPositions(records, (r: WalRecord) => r.status == Pending);
      pending := Filter(records, (r: WalRecord) => r.status == Pending);
    }

    /** The records with the given id are marked as processed and keep their text; no other changes. */
    method MarkProcessed(spaceId: string, recordId: string)
      modifies this
      ensures var before, after := old(Content(SafeSpaceId(spaceId))), Content(SafeSpaceId(spaceId));
        && |after| == |before|
        && forall i :: 0 <= i < |before| ==>
          after[i] == if before[i].id == recordId then before[i].(status := Processed) else before[i]
      ensures OnlyChanged(SafeSpaceId(spaceId), Effect(Op.MarkProcessed(spaceId, recordId), old(Content(SafeSpaceId(spaceId)))))
    {
      var records := LoadRecords(spaceId);
      var out: seq<WalRecord> := [];
      for i := 0 to |records|
        invariant |out| == i
        invariant forall k :: 0 <= k < i ==> out[k] == Rewritten(Op.MarkProcessed(spaceId, recordId), records[k])
      {
        out := out + [if records[i].id == recordId then Done(records[i]) else records[i]];
      }
      files := files[SafeSpaceId(spaceId) := out];
      assert out == Effect(Op.MarkProcessed(spaceId, recordId), records);
    }

    /** The text of every record with the given id is replaced by the notice; no other record changes. */
    method MarkSensitiveBlocked(spaceId: string, recordId: string, category: string, preservePending: bool)
      modifies this
      ensures var before, after := old(Content(SafeSpaceId(spaceId))), Content(SafeSpaceId(spaceId));
        && |after| == |before|
        && forall i :: 0 <= i < |before| ==>
          if before[i].id != recordId then after[i] == before[i]
          else
            && after[i].text == "[敏感内容已拦截，原文未保存]"
            && after[i].status == (if preservePending then Pending else BlockedSensitive)
            && after[i].sensitivity == (if category == "" then "sensitive" else category)
            && after[i].(text := before[i].text, status := before[i].status, sensitivity := before[i].sensitivity) == before[i]
      ensures OnlyChanged(SafeSpaceId(spaceId),
        Effect(Op.MarkSensitiveBlocked(spaceId, recordId, category, preservePending), old(Content(SafeSpaceId(spaceId)))))
    {
      var records := LoadRecords(spaceId);
      var op := Op.MarkSensitiveBlocked(spaceId, recordId, category, preservePending);
      var out: seq<WalRecord> := [];
      for i := 0 to |records|
        invariant |out| == i
        invariant forall k :: 0 <= k < i ==> out[k] == Rewritten(op, records[k])
      {
        if records[i].id != recordId {
          out := out + [records[i]];
        } else {
          out := out + [Redact(records[i], category, preservePending)];
        }
      }
      files := files[SafeSpaceId(spaceId) := out];
      assert out == Effect(op, records);
    }
  }
}
