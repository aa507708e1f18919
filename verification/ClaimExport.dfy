/** The factual claims exported with an answer (agent/ask_workflow.py:276-311), and what holds of
    the whole answer in either form (355-402, 655-734). */
module ClaimExport {
  import opened Options
  import opened Ordering
  import opened AnswerText
  import opened AnswerContract

  datatype Evidence = Evidence(memoryId: string, versionId: string, sourceIds: seq<string>, historical: bool)

  /** Evidence items by unit and evidence id. */
  type Library = map<string, map<string, Evidence>>

  function AllowedBy(library: Library): Allowed {
    map u | u in library :: library[u].Keys
  }

  datatype Exported = Exported(
    text: string, memoryIds: seq<string>, versionIds: seq<string>, sourceIds: seq<string>, history: bool)

  // ----- what one record gathers -----

  function AddId(ids: seq<string>, id: string): seq<string> {
    if id == "" || id in ids then ids else ids + [id]
  }

  function AddSources(ids: seq<string>, more: seq<string>): seq<string> {
    if more == [] then ids
    else
      var before, last := AddSources(ids, more[..|more| - 1]), more[|more| - 1];
      if last in before then before else before + [last]
  }

  function Cite(r: Exported, e: Evidence): Exported {
    Exported(r.text, AddId(r.memoryIds, e.memoryId), AddId(r.versionIds, e.versionId),
      AddSources(r.sourceIds, e.sourceIds), r.history || e.historical)
  }

  /** Ids outside the unit's evidence are skipped. */
  function CiteAll(r: Exported, ids: seq<string>, items: map<string, Evidence>): Exported {
    if ids == [] then r
    else
      var before, last := CiteAll(r, ids[..|ids| - 1], items), ids[|ids| - 1];
      if last in items then Cite(before, items[last]) else before
  }

  function MemoryIds(cited: set<Evidence>): set<string> {
    set e | e in cited && e.memoryId != "" :: e.memoryId
  }

  function VersionIds(cited: set<Evidence>): set<string> {
    set e | e in cited && e.versionId != "" :: e.versionId
  }

  function SourceIds(cited: set<Evidence>): set<string> {
    set e, s | e in cited && s in e.sourceIds :: s
  }

  /** The list has exactly these members, each once. */
  ghost predicate Lists(ids: seq<string>, members: set<string>) {
    Distinct(ids) && forall x :: x in ids <==> x in members
  }

  /** The record names exactly the memories, versions and sources of the cited evidence, and is
      historical exactly when some of it is. */
  ghost predicate Summarizes(r: Exported, cited: set<Evidence>) {
    && Lists(r.memoryIds, MemoryIds(cited))
    && Lists(r.versionIds, VersionIds(cited))
    && Lists(r.sourceIds, SourceIds(cited))
    && (r.history <==> exists e :: e in cited && e.historical)
  }

  lemma AddIdLists(ids: seq<string>, id: string, members: set<string>)
    requires Lists(ids, members)
    ensures Lists(AddId(ids, id), if id == "" then members else members + {id})
  {
  }

  lemma {:induction false} AddSourcesLists(ids: seq<string>, more: seq<string>, members: set<string>)
    requires Lists(ids, members)
    ensures Lists(AddSources(ids, more), members + (set s | s in more))
  {
    if more != [] {
      AddSourcesLists(ids, more[..|more| - 1], members);
      assert more == more[..|more| - 1] + [more[|more| - 1]];
    }
  }

  lemma MoreCited(cited: set<Evidence>, e: Evidence)
    ensures MemoryIds(cited + {e}) == MemoryIds(cited) + if e.memoryId == "" then {} else {e.memoryId}
    ensures VersionIds(cited + {e}) == VersionIds(cited) + if e.versionId == "" then {} else {e.versionId}
    ensures SourceIds(cited + {e}) == SourceIds(cited) + (set s | s in e.sourceIds)
  {
  }

  lemma CiteSummarizes(r: Exported, e: Evidence, cited: set<Evidence>)
    requires Summarizes(r, cited)
    ensures Summarizes(Cite(r, e), cited + {e})
  {
    MoreCited(cited, e);
    AddIdLists(r.memoryIds, e.memoryId, MemoryIds(cited));
    AddIdLists(r.versionIds, e.versionId, VersionIds(cited));
    AddSourcesLists(r.sourceIds, e.sourceIds, SourceIds(cited));
  }

  function ItemsOf(ids: seq<string>, items: map<string, Evidence>): set<Evidence> {
    set id | id in ids && id in items :: items[id]
  }

  lemma {:induction false} CiteAllSummarizes(r: Exported, ids: seq<string>, items: map<string, Evidence>, cited: set<Evidence>)
    requires Summarizes(r, cited)
    ensures Summarizes(CiteAll(r, ids, items), cited + ItemsOf(ids, items))
  {
    if ids == [] {
      assert cited + ItemsOf(ids, items) == cited;
    } else {
      var front, last := ids[..|ids| - 1], ids[|ids| - 1];
      CiteAllSummarizes(r, front, items, cited);
      assert ids == front + [last];
      if last in items {
        CiteSummarizes(CiteAll(r, front, items), items[last], cited + ItemsOf(front, items));
        assert cited + ItemsOf(front, items) + {items[last]} == cited + ItemsOf(ids, items);
      } else {
        assert ItemsOf(front, items) == ItemsOf(ids, items);
      }
    }
  }

  // ----- merging the claims of all answers -----

  datatype Fact = Fact(unitId: string, claim: Claim)
  datatype Entry = Entry(unitId: string, identity: string, record: Exported)

  function FactsOf(unitId: string, claims: seq<Claim>): (r: seq<Fact>)
    ensures |r| == |claims| && forall i :: 0 <= i < |r| ==> r[i] == Fact(unitId, claims[i])
  {
    if claims == [] then [] else FactsOf(unitId, claims[..|claims| - 1]) + [Fact(unitId, claims[|claims| - 1])]
  }

  function Facts(rendered: seq<Rendered>): seq<Fact> {
    if rendered == [] then []
    else
      var last := rendered[|rendered| - 1];
      Facts(rendered[..|rendered| - 1]) + FactsOf(last.unitId, last.claims)
  }

  function Position(entries: seq<Entry>, unitId: string, identity: string): (k: nat)
    ensures k <= |entries|
    ensures k < |entries| ==> entries[k].unitId == unitId && entries[k].identity == identity
    ensures forall i :: 0 <= i < k ==> !(entries[i].unitId == unitId && entries[i].identity == identity)
  {
    if entries == [] || (entries[0].unitId == unitId && entries[0].identity == identity) then 0
    else
      assert forall i :: 1 <= i < |entries| ==> entries[i] == entries[1..][i - 1];
      1 + Position(entries[1..], unitId, identity)
  }

  function ItemsFor(library: Library, unitId: string): map<string, Evidence> {
    if unitId in library then library[unitId] else map[]
  }

  /** A claim joins the record of its unit and identity, or opens one. */
  function Absorb(t: Alphabet, entries: seq<Entry>, f: Fact, library: Library): seq<Entry> {
    var identity := Identity(t, f.claim.text);
    if identity == "" then entries
    else
      var k := Position(entries, f.unitId, identity);
      var record := if k < |entries| then entries[k].record else Exported(Strip(t, f.claim.text), [], [], [], false);
      var entry := Entry(f.unitId, identity, CiteAll(record, f.claim.evidenceIds, ItemsFor(library, f.unitId)));
      if k < |entries| then entries[k := entry] else entries + [entry]
  }

  function Merge(t: Alphabet, facts: seq<Fact>, library: Library): seq<Entry> {
    if facts == [] then []
    else Absorb(t, Merge(t, facts[..|facts| - 1], library), facts[|facts| - 1], library)
  }

  /** The evidence cited by the claims of one unit with one identity. */
  function CitedBy(t: Alphabet, facts: seq<Fact>, unitId: string, identity: string, library: Library): set<Evidence> {
    if facts == [] then {}
    else
      var before, f := CitedBy(t, facts[..|facts| - 1], unitId, identity, library), facts[|facts| - 1];
      if f.unitId == unitId && Identity(t, f.claim.text) == identity
      then before + ItemsOf(f.claim.evidenceIds, ItemsFor(library, unitId))
      else before
  }

  /** A unit may be answered if it has evidence, and then may cite exactly that. */
  lemma AllowedIs(library: Library, unitId: string, id: string)
    ensures unitId in AllowedBy(library) <==> unitId in library
    ensures unitId in library ==> (id in AllowedBy(library)[unitId] <==> id in library[unitId])
  {
  }

  /** `f` is a claim of the unit and identity that cites `e` from the unit's own evidence. */
  ghost predicate Cites(t: Alphabet, f: Fact, unitId: string, identity: string, library: Library, e: Evidence) {
    && f.unitId == unitId && Identity(t, f.claim.text) == identity && unitId in library
    && exists id :: id in f.claim.evidenceIds && id in library[unitId] && library[unitId][id] == e
  }

  /** What a record summarizes: the evidence of the unit that some claim with its identity cites. */
  lemma {:induction false} CitedAre(t: Alphabet, facts: seq<Fact>, unitId: string, identity: string, library: Library, e: Evidence)
    ensures e in CitedBy(t, facts, unitId, identity, library) <==> exists f :: f in facts && Cites(t, f, unitId, identity, library, e)
  {
    if facts != [] {
      var front, last := facts[..|facts| - 1], facts[|facts| - 1];
      assert facts == front + [last];
      CitedAre(t, front, unitId, identity, library, e);
      LastCites(t, facts, unitId, identity, library, e);
    }
  }

  lemma LastCites(t: Alphabet, facts: seq<Fact>, unitId: string, identity: string, library: Library, e: Evidence)
    requires facts != []
    ensures e in CitedBy(t, facts, unitId, identity, library) <==>
      e in CitedBy(t, facts[..|facts| - 1], unitId, identity, library) || Cites(t, facts[|facts| - 1], unitId, identity, library, e)
  {
  }

  ghost predicate OnePerClaim(entries: seq<Entry>) {
    forall i, j :: 0 <= i < j < |entries| ==> !(entries[i].unitId == entries[j].unitId && entries[i].identity == entries[j].identity)
  }

  /** The claim is of the entry's unit and identity and gave the entry its text. */
  predicate Words(t: Alphabet, f: Fact, e: Entry) {
    f.unitId == e.unitId && Identity(t, f.claim.text) == e.identity && e.record.text == Strip(t, f.claim.text)
  }

  ghost predicate EntryOk(t: Alphabet, facts: seq<Fact>, library: Library, e: Entry) {
    && e.identity != ""
    && Summarizes(e.record, CitedBy(t, facts, e.unitId, e.identity, library))
    && exists f :: f in facts && Words(t, f, e)
  }

  ghost predicate AllOk(t: Alphabet, facts: seq<Fact>, library: Library, entries: seq<Entry>) {
    forall i :: 0 <= i < |entries| ==> EntryOk(t, facts, library, entries[i])
  }

  lemma {:induction false} CiteAllKeepsText(r: Exported, ids: seq<string>, items: map<string, Evidence>)
    ensures CiteAll(r, ids, items).text == r.text
  {
    if ids != [] { CiteAllKeepsText(r, ids[..|ids| - 1], items); }
  }

  lemma CitedByMore(t: Alphabet, facts: seq<Fact>, f: Fact, unitId: string, identity: string, library: Library)
    ensures CitedBy(t, facts + [f], unitId, identity, library) ==
      CitedBy(t, facts, unitId, identity, library)
      + if f.unitId == unitId && Identity(t, f.claim.text) == identity then ItemsOf(f.claim.evidenceIds, ItemsFor(library, unitId)) else {}
  {
    assert (facts + [f])[..|facts|] == facts;
  }

  /** An entry the new claim does not belong to. */
  lemma OtherEntry(t: Alphabet, facts: seq<Fact>, f: Fact, library: Library, e: Entry)
    requires EntryOk(t, facts, library, e)
    requires !(f.unitId == e.unitId && Identity(t, f.claim.text) == e.identity)
    ensures EntryOk(t, facts + [f], library, e)
  {
    CitedByMore(t, facts, f, e.unitId, e.identity, library);
    var g :| g in facts && Words(t, g, e);
    assert g in facts + [f];
  }

  lemma JoinedEntry(t: Alphabet, facts: seq<Fact>, f: Fact, library: Library, e: Entry)
    requires EntryOk(t, facts, library, e)
    requires f.unitId == e.unitId && Identity(t, f.claim.text) == e.identity
    ensures EntryOk(t, facts + [f], library, e.(record := CiteAll(e.record, f.claim.evidenceIds, ItemsFor(library, f.unitId))))
  {
    CitedByMore(t, facts, f, e.unitId, e.identity, library);
    CiteAllSummarizes(e.record, f.claim.evidenceIds, ItemsFor(library, f.unitId), CitedBy(t, facts, e.unitId, e.identity, library));
    CiteAllKeepsText(e.record, f.claim.evidenceIds, ItemsFor(library, f.unitId));
    var g :| g in facts && Words(t, g, e);
    var joined := e.(record := CiteAll(e.record, f.claim.evidenceIds, ItemsFor(library, f.unitId)));
    assert g in facts + [f] && Words(t, g, joined);
  }

  lemma EmptySummarizes(text: string)
    ensures Summarizes(Exported(text, [], [], [], false), {})
  {
  }

  lemma OpenedRecord(text: string, ids: seq<string>, items: map<string, Evidence>)
    ensures var r := CiteAll(Exported(text, [], [], [], false), ids, items);
      Summarizes(r, ItemsOf(ids, items)) && r.text == text
  {
    EmptySummarizes(text);
    CiteAllSummarizes(Exported(text, [], [], [], false), ids, items, {});
    CiteAllKeepsText(Exported(text, [], [], [], false), ids, items);
    assert {} + ItemsOf(ids, items) == ItemsOf(ids, items);
  }

  lemma NewEntry(t: Alphabet, facts: seq<Fact>, f: Fact, library: Library)
    requires Identity(t, f.claim.text) != "" && CitedBy(t, facts, f.unitId, Identity(t, f.claim.text), library) == {}
    ensures EntryOk(t, facts + [f], library, Entry(f.unitId, Identity(t, f.claim.text),
      CiteAll(Exported(Strip(t, f.claim.text), [], [], [], false), f.claim.evidenceIds, ItemsFor(library, f.unitId))))
  {
    var ids, items := f.claim.evidenceIds, ItemsFor(library, f.unitId);
    CitedByMore(t, facts, f, f.unitId, Identity(t, f.claim.text), library);
    OpenedRecord(Strip(t, f.claim.text), ids, items);
    assert {} + ItemsOf(ids, items) == ItemsOf(ids, items);
    assert (facts + [f])[|facts|] == f;
    var fromClaim := Entry(f.unitId, Identity(t, f.claim.text), CiteAll(Exported(Strip(t, f.claim.text), [], [], [], false), ids, items));
    assert f in facts + [f] && Words(t, f, fromClaim);
  }

  /** A claim without a record has cited nothing yet. */
  lemma {:induction false} NoRecordNothingCited(t: Alphabet, facts: seq<Fact>, library: Library, unitId: string, identity: string)
    requires identity != "" && Position(Merge(t, facts, library), unitId, identity) == |Merge(t, facts, library)|
    ensures CitedBy(t, facts, unitId, identity, library) == {}
  {
    if facts != [] {
      var front, f := facts[..|facts| - 1], facts[|facts| - 1];
      AbsorbPositions(t, Merge(t, front, library), f, library, unitId, identity);
      NoRecordNothingCited(t, front, library, unitId, identity);
    }
  }

  /** Which claims have a record after one more claim. */
  lemma AbsorbPositions(t: Alphabet, entries: seq<Entry>, f: Fact, library: Library, unitId: string, identity: string)
    requires identity != ""
    ensures var next := Absorb(t, entries, f, library);
      Position(next, unitId, identity) == |next| ==>
        Position(entries, unitId, identity) == |entries| && !(f.unitId == unitId && Identity(t, f.claim.text) == identity)
  {
    var next, k := Absorb(t, entries, f, library), Position(entries, unitId, identity);
    var at := Position(entries, f.unitId, Identity(t, f.claim.text));
    assert k < |entries| ==> next[k].unitId == unitId && next[k].identity == identity;
    if f.unitId == unitId && Identity(t, f.claim.text) == identity {
      assert next[at].unitId == unitId && next[at].identity == identity;
    }
  }

  lemma AbsorbKeepsOne(t: Alphabet, entries: seq<Entry>, f: Fact, library: Library)
    requires OnePerClaim(entries)
    ensures OnePerClaim(Absorb(t, entries, f, library))
  {
  }

  lemma AbsorbOk(t: Alphabet, facts: seq<Fact>, f: Fact, library: Library, i: nat)
    requires AllOk(t, facts, library, Merge(t, facts, library))
    requires OnePerClaim(Merge(t, facts, library))
    requires i < |Absorb(t, Merge(t, facts, library), f, library)|
    ensures EntryOk(t, facts + [f], library, Absorb(t, Merge(t, facts, library), f, library)[i])
  {
    var entries, identity := Merge(t, facts, library), Identity(t, f.claim.text);
    var k := Position(entries, f.unitId, identity);
    if i == |entries| {
      NoRecordNothingCited(t, facts, library, f.unitId, identity);
      NewEntry(t, facts, f, library);
    } else {
      assert EntryOk(t, facts, library, entries[i]);
      if i == k && identity != "" {
        JoinedEntry(t, facts, f, library, entries[i]);
      } else {
        OtherEntry(t, facts, f, library, entries[i]);
      }
    }
  }

  lemma AbsorbAllOk(t: Alphabet, facts: seq<Fact>, f: Fact, library: Library)
    requires AllOk(t, facts, library, Merge(t, facts, library))
    requires OnePerClaim(Merge(t, facts, library))
    ensures AllOk(t, facts + [f], library, Merge(t, facts + [f], library))
  {
    MergeMore(t, facts, f, library);
    var next := Absorb(t, Merge(t, facts, library), f, library);
    forall i | 0 <= i < |next| ensures EntryOk(t, facts + [f], library, next[i]) {
      AbsorbOk(t, facts, f, library, i);
    }
  }

  lemma {:induction false} MergeKeepsOne(t: Alphabet, facts: seq<Fact>, library: Library)
    ensures OnePerClaim(Merge(t, facts, library))
  {
    if facts != [] {
      MergeKeepsOne(t, facts[..|facts| - 1], library);
      AbsorbKeepsOne(t, Merge(t, facts[..|facts| - 1], library), facts[|facts| - 1], library);
    }
  }

  lemma MergeMore(t: Alphabet, facts: seq<Fact>, f: Fact, library: Library)
    ensures Merge(t, facts + [f], library) == Absorb(t, Merge(t, facts, library), f, library)
  {
    assert (facts + [f])[..|facts|] == facts;
  }

  lemma LastMerged(t: Alphabet, facts: seq<Fact>, front: seq<Fact>, f: Fact, library: Library)
    requires facts == front + [f] && AllOk(t, front, library, Merge(t, front, library))
    ensures AllOk(t, facts, library, Merge(t, facts, library))
  {
    MergeKeepsOne(t, front, library);
    AbsorbAllOk(t, front, f, library);
  }

  lemma NothingMerged(t: Alphabet, facts: seq<Fact>, library: Library)
    requires facts == []
    ensures AllOk(t, facts, library, Merge(t, facts, library))
  {
  }

  lemma {:induction false} MergedOk(t: Alphabet, facts: seq<Fact>, library: Library)
    ensures AllOk(t, facts, library, Merge(t, facts, library))
  {
    if facts == [] {
      NothingMerged(t, facts, library);
    } else {
      MergedOk(t, facts[..|facts| - 1], library);
      LastMerged(t, facts, facts[..|facts| - 1], facts[|facts| - 1], library);
    }
  }

  /** One record for each claim of each unit; each record summarizes exactly the evidence of that
      unit which the claim cites, under the text of one of its wordings. */
  lemma MergeIs(t: Alphabet, facts: seq<Fact>, library: Library)
    ensures OnePerClaim(Merge(t, facts, library)) && AllOk(t, facts, library, Merge(t, facts, library))
  {
    MergeKeepsOne(t, facts, library);
    MergedOk(t, facts, library);
  }

  /** Every claim that folds to something has a record. */
  lemma {:induction false} MergeCovers(t: Alphabet, facts: seq<Fact>, library: Library, f: Fact)
    requires f in facts && Identity(t, f.claim.text) != ""
    ensures exists e :: e in Merge(t, facts, library) && e.unitId == f.unitId && e.identity == Identity(t, f.claim.text)
  {
    var front, last, identity := facts[..|facts| - 1], facts[|facts| - 1], Identity(t, f.claim.text);
    var merged := Merge(t, facts, library);
    AbsorbPositions(t, Merge(t, front, library), last, library, f.unitId, identity);
    if f != last {
      assert f in front;
      MergeCovers(t, front, library, f);
      var e :| e in Merge(t, front, library) && e.unitId == f.unitId && e.identity == identity;
      var i :| 0 <= i < |Merge(t, front, library)| && Merge(t, front, library)[i] == e;
    }
    var k := Position(merged, f.unitId, identity);
    assert merged[k] in merged;
  }

  // ----- the loops of the source -----

  method CiteEvidence(record: Exported, ids: seq<string>, items: map<string, Evidence>) returns (r: Exported)
    ensures r == CiteAll(record, ids, items)
  {
    r := record;
    for i := 0 to |ids|
      invariant r == CiteAll(record, ids[..i], items)
    {
      assert ids[..i + 1][..i] == ids[..i];
      if ids[i] in items {
        r := Cite(r, items[ids[i]]);
      }
    }
    assert ids[..|ids|] == ids;
  }

  type Key = (string, string)

  /** The dictionary `merged` and the insertion order of its keys. */
  ghost predicate Held(keys: seq<Key>, merged: map<Key, Exported>, entries: seq<Entry>) {
    && |keys| == |entries| && OnePerClaim(entries)
    && (forall i :: 0 <= i < |keys| ==> keys[i] == (entries[i].unitId, entries[i].identity))
    && (forall i :: 0 <= i < |keys| ==> keys[i] in merged && merged[keys[i]] == entries[i].record)
    && (forall key :: key in merged ==> key in keys)
  }

  lemma Located(keys: seq<Key>, merged: map<Key, Exported>, entries: seq<Entry>, unitId: string, identity: string)
    requires Held(keys, merged, entries)
    ensures var k := Position(entries, unitId, identity);
      ((unitId, identity) in merged <==> k < |entries|)
      && (k < |entries| ==> keys[k] == (unitId, identity) && merged[(unitId, identity)] == entries[k].record)
  {
    if (unitId, identity) in merged {
      var i :| 0 <= i < |keys| && keys[i] == (unitId, identity);
      assert entries[i].unitId == unitId && entries[i].identity == identity;
    }
  }

  lemma Opened(keys: seq<Key>, merged: map<Key, Exported>, entries: seq<Entry>, e: Entry)
    requires Held(keys, merged, entries) && Position(entries, e.unitId, e.identity) == |entries|
    ensures Held(keys + [(e.unitId, e.identity)], merged[(e.unitId, e.identity) := e.record], entries + [e])
  {
  }

  lemma Updated(keys: seq<Key>, merged: map<Key, Exported>, entries: seq<Entry>, e: Entry)
    requires Held(keys, merged, entries) && Position(entries, e.unitId, e.identity) < |entries|
    ensures Held(keys, merged[(e.unitId, e.identity) := e.record], entries[Position(entries, e.unitId, e.identity) := e])
  {
  }

  method AbsorbClaim(t: Alphabet, keys: seq<Key>, merged: map<Key, Exported>, f: Fact, library: Library, ghost entries: seq<Entry>)
    returns (keysNext: seq<Key>, mergedNext: map<Key, Exported>)
    requires Held(keys, merged, entries)
    ensures Held(keysNext, mergedNext, Absorb(t, entries, f, library))
  {
    keysNext, mergedNext := keys, merged;
    var identity := Identity(t, f.claim.text);
    if identity == "" {
      return;
    }
    var key := (f.unitId, identity);
    Located(keys, merged, entries, f.unitId, identity);
    var record := if key in merged then merged[key] else Exported(Strip(t, f.claim.text), [], [], [], false);
    record := CiteEvidence(record, f.claim.evidenceIds, ItemsFor(library, f.unitId));
    ghost var entry := Entry(f.unitId, identity, record);
    if key in merged {
      Updated(keys, merged, entries, entry);
    } else {
      Opened(keys, merged, entries, entry);
      keysNext := keys + [key];
    }
    mergedNext := merged[key := record];
  }

  function Records(entries: seq<Entry>): (r: seq<Exported>)
    ensures |r| == |entries| && forall i :: 0 <= i < |r| ==> r[i] == entries[i].record
  {
    if entries == [] then [] else Records(entries[..|entries| - 1]) + [entries[|entries| - 1].record]
  }

  method AbsorbUnit(t: Alphabet, keys: seq<Key>, merged: map<Key, Exported>, r: Rendered, library: Library, ghost facts: seq<Fact>)
    returns (keysNext: seq<Key>, mergedNext: map<Key, Exported>)
    requires Held(keys, merged, Merge(t, facts, library))
    ensures Held(keysNext, mergedNext, Merge(t, facts + FactsOf(r.unitId, r.claims), library))
  {
    keysNext, mergedNext := keys, merged;
    ghost var added := FactsOf(r.unitId, r.claims);
    assert facts + added[..0] == facts;
    for i := 0 to |r.claims|
      invariant Held(keysNext, mergedNext, Merge(t, facts + added[..i], library))
    {
      ghost var done := facts + added[..i];
      assert facts + added[..i + 1] == done + [added[i]];
      MergeMore(t, done, added[i], library);
      keysNext, mergedNext := AbsorbClaim(t, keysNext, mergedNext, Fact(r.unitId, r.claims[i]), library, Merge(t, done, library));
    }
    assert added[..|r.claims|] == added;
  }

  method ExportClaims(t: Alphabet, rendered: seq<Rendered>, library: Library) returns (out: seq<Exported>)
    ensures out == Records(Merge(t, Facts(rendered), library))
  {
    var keys: seq<Key>, merged: map<Key, Exported> := [], map[];
    for i := 0 to |rendered|
      invariant Held(keys, merged, Merge(t, Facts(rendered[..i]), library))
    {
      assert rendered[..i + 1][..i] == rendered[..i];
      keys, merged := AbsorbUnit(t, keys, merged, rendered[i], library, Facts(rendered[..i]));
    }
    assert rendered[..|rendered|] == rendered;
    out := seq(|keys|, i requires 0 <= i < |keys| && keys[i] in merged => merged[keys[i]]);
  }

  // ----- the whole answer -----

  function Answers(rendered: seq<Rendered>): string {
    if rendered == [] then ""
    else if |rendered| == 1 then rendered[0].answer
    else Answers(rendered[..|rendered| - 1]) + "\n" + rendered[|rendered| - 1].answer
  }

  /** The answers, one to a line. */
  lemma AnswersAre(rendered: seq<Rendered>, last: Rendered)
    ensures Answers([last]) == last.answer
    ensures rendered != [] ==> Answers(rendered + [last]) == Answers(rendered) + "\n" + last.answer
  {
    assert (rendered + [last])[..|rendered|] == rendered;
  }

  /** The answer and its claims, or nothing when no unit answer is usable. */
  function AnswerOf(t: Alphabet, data: Payload, library: Library): Option<(string, seq<Exported>)> {
    var rendered := if data.Answers? then Fused(t, data.items, AllowedBy(library)) else [];
    if rendered == [] then None else Some((Answers(rendered), Records(Merge(t, Facts(rendered), library))))
  }

  /** The fused form. */
  method AnswerWithClaims(t: Alphabet, data: Payload, library: Library) returns (r: Option<(string, seq<Exported>)>)
    ensures r == AnswerOf(t, data, library)
  {
    var rendered := AnswerUnits(t, data, AllowedBy(library));
    if rendered == [] {
      return None;
    }
    var claims := ExportClaims(t, rendered, library);
    r := Some((Answers(rendered), claims));
  }

  /** Validation, then rendering of what was accepted: the same answer and claims, and nothing
      exactly when nothing was accepted. */
  method ValidateThenRender(t: Alphabet, data: Payload, library: Library)
    returns (r: Option<(string, seq<Exported>)>, accepted: seq<RawAnswer>)
    ensures r == AnswerOf(t, data, library)
    ensures r.None? <==> accepted == []
    ensures accepted == if data.Answers? then Accepted(t, data.items, AllowedBy(library)) else []
  {
    var rejected;
    accepted, rejected := Validate(t, data, AllowedBy(library));
    if data.Answers? { Agree(t, data.items, AllowedBy(library)); }
    if accepted == [] {
      return None, [];
    }
    var rendered := RenderValidated(t, accepted, AllowedBy(library));
    var claims := ExportClaims(t, rendered, library);
    r := Some((Answers(rendered), claims));
  }

  // ----- exported claims are grounded in their own unit -----

  lemma {:induction false} CheckedAreStripped(t: Alphabet, raw: seq<RawClaim>, answer: string, cited: seq<string>, allowed: set<string>, c: Claim)
    requires c in CheckedClaims(t, raw, answer, cited, allowed)
    ensures Strip(t, c.text) == c.text
  {
    var before, last := CheckedClaims(t, raw[..|raw| - 1], answer, cited, allowed), raw[|raw| - 1];
    if c in before {
      CheckedAreStripped(t, raw[..|raw| - 1], answer, cited, allowed, c);
    } else {
      StripIdempotent(t, last.text);
    }
  }

  /** A claim of a rendered unit is stripped, quotes the unit's answer up to folding, and cites
      evidence of the unit only. */
  ghost predicate Grounded(t: Alphabet, r: Rendered, c: Claim, allowed: Allowed) {
    && r.unitId in allowed && c.evidenceIds != [] && Within(c.evidenceIds, allowed[r.unitId])
    && Strip(t, c.text) == c.text && Contains(Identity(t, r.answer), Identity(t, c.text))
  }

  lemma RenderIsGrounded(t: Alphabet, item: RawAnswer, allowed: Allowed, seen: set<string>, c: Claim)
    requires Usable(t, item, allowed, seen) && c in Render(t, item, allowed).claims
    ensures Grounded(t, Render(t, item, allowed), c, allowed)
  {
    var answer, cited := Strip(t, item.answer), Unique(item.evidenceIds);
    StripIdempotent(t, item.answer);
    if item.claims.Some? && c in CheckedClaims(t, item.claims.value, answer, cited, allowed[item.unitId]) {
      CheckedAreStripped(t, item.claims.value, answer, cited, allowed[item.unitId], c);
    } else {
      assert c == Claim(answer, cited);
    }
  }

  lemma {:induction false} FusedIsGrounded(t: Alphabet, items: seq<RawAnswer>, allowed: Allowed, r: Rendered, c: Claim)
    requires r in Fused(t, items, allowed) && c in r.claims
    ensures Grounded(t, r, c, allowed)
  {
    var before, last := Fused(t, items[..|items| - 1], allowed), items[|items| - 1];
    if r in before {
      FusedIsGrounded(t, items[..|items| - 1], allowed, r, c);
    } else {
      RenderIsGrounded(t, last, allowed, Done(before), c);
    }
  }

  lemma {:induction false} FactOrigin(rendered: seq<Rendered>, f: Fact) returns (r: Rendered)
    requires f in Facts(rendered)
    ensures r in rendered && r.unitId == f.unitId && f.claim in r.claims
  {
    var front, last := rendered[..|rendered| - 1], rendered[|rendered| - 1];
    if f in Facts(front) {
      r := FactOrigin(front, f);
    } else {
      r := last;
    }
  }

  /** The items a unit may cite. */
  ghost predicate OwnEvidence(library: Library, unitId: string, e: Evidence) {
    unitId in library && exists id :: id in library[unitId] && library[unitId][id] == e
  }

  lemma {:induction false} CitedIsOwn(t: Alphabet, facts: seq<Fact>, unitId: string, identity: string, library: Library, e: Evidence)
    requires e in CitedBy(t, facts, unitId, identity, library)
    ensures OwnEvidence(library, unitId, e)
  {
    var front, f := facts[..|facts| - 1], facts[|facts| - 1];
    if e in CitedBy(t, front, unitId, identity, library) {
      CitedIsOwn(t, front, unitId, identity, library, e);
    } else {
      var id :| id in f.claim.evidenceIds && id in ItemsFor(library, unitId) && ItemsFor(library, unitId)[id] == e;
      assert id in library[unitId];
    }
  }

  /** Every exported claim belongs to one rendered unit: its text is contained in that unit's
      answer after folding, and its ids are exactly those of some evidence of that unit. */
  lemma ExportIsGrounded(t: Alphabet, items: seq<RawAnswer>, library: Library, e: Entry) returns (r: Rendered, cited: set<Evidence>)
    requires e in Merge(t, Facts(Fused(t, items, AllowedBy(library))), library)
    ensures r in Fused(t, items, AllowedBy(library)) && r.unitId == e.unitId
    ensures Contains(Identity(t, r.answer), Identity(t, e.record.text)) && Identity(t, e.record.text) == e.identity
    ensures Summarizes(e.record, cited) && forall x :: x in cited ==> OwnEvidence(library, r.unitId, x)
  {
    var rendered := Fused(t, items, AllowedBy(library));
    var facts := Facts(rendered);
    MergeIs(t, facts, library);
    var i :| 0 <= i < |Merge(t, facts, library)| && Merge(t, facts, library)[i] == e;
    assert EntryOk(t, facts, library, e);
    cited := CitedBy(t, facts, e.unitId, e.identity, library);
    forall x | x in cited ensures OwnEvidence(library, e.unitId, x) { CitedIsOwn(t, facts, e.unitId, e.identity, library, x); }
    var f :| f in facts && Words(t, f, e);
    r := FactOrigin(rendered, f);
    FusedIsGrounded(t, items, AllowedBy(library), r, f.claim);
  }
}
