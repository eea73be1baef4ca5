/** The record index and its mutation paths: `create_memory`,
    `patch_memory`, `safe_save_memory`, the autosave change check and the
    start-up load. The index (MEMORY_STORE), the last persisted state
    (_last_saved_state) and the audit log are the fields of one service
    object that shares a FileStore. */
module Service {
  import opened Values
  import opened Models
  import opened Timeline
  import opened DocumentMerge
  import opened Persistence

  /** One line of the audit log. The unified diff is represented by the two
      record forms it compares; the wall-clock timestamp is not modelled. */
  datatype AuditEntry = AuditEntry(action: string, userId: string, before: Doc, after: Doc)

  datatype SaveOutcome =
    | Saved              // safe_save_memory returned True
    | ValidationFailed   // it returned False: nothing was written
    | SaveRaised         // save_memory raised: the exception reaches the caller

  datatype AutosaveOutcome = Quiet | Flushed | FlushRaised

  /** `validate_memory_structure`: every record constructs a UserMemory. */
  predicate AllValid(s: Snapshot) {
    forall u :: u in s ==> ValidRecord(s[u])
  }

  /** `snapshot.get(user_id, {})`. */
  function RecordOrEmpty(s: Snapshot, userId: string): Doc {
    if userId in s then s[userId] else map[]
  }

  /** `base_data.get("events") or []` for a stored record. */
  function StoredEvents(record: Doc): seq<Value> {
    match Get(record, "events")
    case Arr(items) => items
    case _ => []
  }

  // ---------------------------------------------------------------------
  // Candidate records
  // ---------------------------------------------------------------------

  /** The record create_memory builds: the payload's sub-documents, its
      events normalized on the overwrite path, and the user id. A body with
      an invalid section or an entry that is not an Event is refused while
      it is parsed. */
  function CreateCandidate(userId: string, payload: MemoryCreate, now: int): Result<Doc, Failure> {
    if !ValidCreateBody(payload) then Err(Invalid)
    else match Merged([], payload.events, true, now, now)
      case Err(e) => Err(e)
      case Ok(events) =>
        var record := payload.fields["events" := Arr(AsValues(events))]["user_id" := Str(userId)];
        if ValidRecord(record) then Ok(record) else Err(Invalid)
  }

  /** The timeline patch_memory computes, when it touches the timeline: only
      if the patch carries events or the stored timeline is not empty. */
  function PatchedEvents(base: Doc, patch: MemoryPatch, now: int): Option<Result<seq<Doc>, Failure>> {
    var existingEvents := StoredEvents(base);
    if patch.events.Some? || existingEvents != [] then
      var eventsBase := if patch.eventsOverwrite then [] else existingEvents;
      var eventsUpdates := if patch.events.Some? then patch.events.value else [];
      Some(Merged(eventsBase, eventsUpdates, patch.eventsOverwrite, now, now))
    else
      None
  }

  /** The record patch_memory builds: the stored record (or an empty one)
      deep-merged with the patch, its timeline merged, the user id set. A
      batch with an entry that is not an Event is refused while the body is
      parsed. */
  function PatchCandidate(store: Snapshot, userId: string, patch: MemoryPatch, now: int): Result<Doc, Failure> {
    if patch.events.Some? && !ValidBatch(patch.events.value) then Err(Invalid) else
    var base := RecordOrEmpty(store, userId);
    var merged := DeepMerge(base, patch.fields);
    var withEvents :=
      match PatchedEvents(base, patch, now)
      case None => Ok(merged)
      case Some(Err(e)) => Err(e)
      case Some(Ok(events)) => Ok(merged["events" := Arr(AsValues(events))]);
    match withEvents
    case Err(e) => Err(e)
    case Ok(doc) =>
      var record := doc["user_id" := Str(userId)];
      if ValidRecord(record) then Ok(record) else Err(Invalid)
  }

  // ---------------------------------------------------------------------
  // What every stored record looks like
  // ---------------------------------------------------------------------

  /** The entries of a record's timeline as dicts. */
  function EventsOf(record: Doc): (r: seq<Doc>)
    ensures |r| == |StoredEvents(record)|
  {
    var items := StoredEvents(record);
    seq(|items|, i requires 0 <= i < |items| => if items[i].Obj? then items[i].fields else map[])
  }

  /** The timeline is a list of at most MaxEvents normalized entries. */
  predicate CleanTimeline(record: Doc) {
    "events" in record ==>
      && record["events"].Arr?
      && |record["events"].items| <= MaxEvents
      && forall i :: 0 <= i < |record["events"].items| ==>
           record["events"].items[i].Obj? && IsClean(record["events"].items[i].fields)
  }

  /** What create and patch keep true of the index: every record validates,
      carries its own key as user id, and has a normalized timeline. */
  predicate StoreInvariant(store: Snapshot) {
    forall u :: u in store ==>
      && ValidRecord(store[u])
      && Get(store[u], "user_id") == Str(u)
      && CleanTimeline(store[u])
  }

  /** The request fields of a patch: the three sub-documents; the timeline
      and the flag travel separately. */
  predicate PatchFieldsOnly(fields: Doc) {
    "events" !in fields && "user_id" !in fields
  }

  lemma EventsOfTimeline(record: Doc, events: seq<Doc>)
    requires Get(record, "events") == Arr(AsValues(events))
    ensures EventsOf(record) == events
  {
  }

  /** A normalized timeline reads back as itself, and normalizing it again
      changes nothing. */
  lemma CleanTimelineReadsBack(record: Doc, now: int)
    requires CleanTimeline(record)
    ensures StoredEvents(record) == AsValues(EventsOf(record))
    ensures Normalized(StoredEvents(record), now) == Ok(EventsOf(record))
    ensures forall i :: 0 <= i < |EventsOf(record)| ==> IsClean(EventsOf(record)[i])
  {
    var es := EventsOf(record);
    assert StoredEvents(record) == AsValues(es);
    NormalizedOfClean(es, now);
  }

  // ---------------------------------------------------------------------
  // Properties of create and patch
  // ---------------------------------------------------------------------

  /** The create route refuses a batch with an entry that is not an Event,
      fails otherwise only on validation, and on success stores the
      payload's sub-documents with the FIRST MaxEvents entries, each
      cleaned; the record satisfies the store invariant. */
  lemma CreateKeepsFirstEntries(userId: string, payload: MemoryCreate, now: int)
    ensures !ValidCreateBody(payload) ==> CreateCandidate(userId, payload, now) == Err(Invalid)
    ensures CreateCandidate(userId, payload, now).Err? ==> CreateCandidate(userId, payload, now) == Err(Invalid)
    ensures CreateCandidate(userId, payload, now).Ok? ==>
              var record := CreateCandidate(userId, payload, now).value;
              var n := Min(|payload.events|, MaxEvents);
              && |EventsOf(record)| == n
              && (forall i :: 0 <= i < n ==> EventsOf(record)[i] == CleanEntry(payload.events[i].fields, now))
              && StoreInvariant(map[userId := record])
              && forall k :: k != "events" && k != "user_id" ==>
                   (k in record <==> k in payload.fields) && (k in record ==> record[k] == payload.fields[k])
  {
    CreateRefusesInvalidBody(userId, payload, now);
    if CreateCandidate(userId, payload, now).Ok? {
      CreatedRecordKeepsFirstEntries(userId, payload, now);
    }
  }

  /** Every entry of a parsed batch is an object. */
  lemma ValidBatchIsObjects(events: seq<Value>)
    requires ValidBatch(events)
    ensures AllObjects(events)
  {
    forall i | 0 <= i < |events|
      ensures events[i].Obj?
    {
      assert events[i] in Arr(events).items;
    }
  }

  /** Cleaning an entry keeps its type and its id, so an Event stays one. */
  lemma CleanEntryKeepsValidEvent(fields: Doc, now: int)
    requires ValidEvent(fields)
    ensures ValidEvent(CleanEntry(fields, now))
  {
    var r := CleanEntry(fields, now);
    assert EventTypeOf(r) == EventTypeOf(fields);
    assert Get(r, "id") == Get(fields, "id");
  }

  /** The cleaned prefix of a parsed batch is a valid timeline. */
  lemma CleanBatchIsValid(raw: seq<Value>, n: nat, now: int)
    requires n <= |raw| && ValidBatch(raw)
    ensures AllObjects(raw)
    ensures ValidEvents(Arr(AsValues(CleanPrefix(raw, n, now))))
  {
    ValidBatchIsObjects(raw);
    var items := AsValues(CleanPrefix(raw, n, now));
    forall e | e in items
      ensures e.Obj? && ValidEvent(e.fields)
    {
      var i :| 0 <= i < |items| && items[i] == e;
      assert raw[i] in Arr(raw).items;
      CleanEntryKeepsValidEvent(raw[i].fields, now);
    }
  }

  /** Create fails exactly when the body does not parse as MemoryCreate, and
      then with a validation error: a body with valid sections and a batch
      of Events always yields a record, and the 400 of normalize_events
      cannot be reached. */
  lemma CreateRefusesInvalidBody(userId: string, payload: MemoryCreate, now: int)
    ensures !ValidBatch(payload.events) ==> CreateCandidate(userId, payload, now) == Err(Invalid)
    ensures !ValidCreateBody(payload) ==> CreateCandidate(userId, payload, now) == Err(Invalid)
    ensures ValidCreateBody(payload) ==> CreateCandidate(userId, payload, now).Ok?
    ensures CreateCandidate(userId, payload, now).Err? ==> CreateCandidate(userId, payload, now) == Err(Invalid)
  {
    if ValidCreateBody(payload) {
      var n := Min(|payload.events|, MaxEvents);
      CleanBatchIsValid(payload.events, n, now);
      assert Normalized([], now) == Ok([]);
      var events := CleanPrefix(payload.events, n, now);
      assert Merged([], payload.events, true, now, now) == Ok(events);
      var record := payload.fields["events" := Arr(AsValues(events))]["user_id" := Str(userId)];
      assert ValidSections(record);
      assert ValidRecord(record);
    }
  }

  /** A stored timeline is a list of objects. */
  lemma StoredEventsAreObjects(store: Snapshot, userId: string)
    requires StoreInvariant(store)
    ensures AllObjects(StoredEvents(RecordOrEmpty(store, userId)))
  {
  }

  /** A batch entry that is not an Event refuses a patch request, and on a
      store that keeps the invariant that validation error is the only way
      a patch fails: the 400 of normalize_events cannot be reached. */
  lemma PatchRefusesInvalidBatch(store: Snapshot, userId: string, patch: MemoryPatch, now: int)
    ensures patch.events.Some? && !ValidBatch(patch.events.value) ==> PatchCandidate(store, userId, patch, now) == Err(Invalid)
    ensures StoreInvariant(store) && PatchCandidate(store, userId, patch, now).Err? ==>
              PatchCandidate(store, userId, patch, now) == Err(Invalid)
  {
    if StoreInvariant(store) && !(patch.events.Some? && !ValidBatch(patch.events.value)) {
      StoredEventsAreObjects(store, userId);
      if patch.events.Some? {
        ValidBatchIsObjects(patch.events.value);
      }
      assert AllObjects([]);
    }
  }

  lemma CreatedRecordKeepsFirstEntries(userId: string, payload: MemoryCreate, now: int)
    requires CreateCandidate(userId, payload, now).Ok?
    ensures var record := CreateCandidate(userId, payload, now).value;
            var n := Min(|payload.events|, MaxEvents);
            && |EventsOf(record)| == n
            && (forall i :: 0 <= i < n ==> EventsOf(record)[i] == CleanEntry(payload.events[i].fields, now))
            && StoreInvariant(map[userId := record])
            && forall k :: k != "events" && k != "user_id" ==>
                 (k in record <==> k in payload.fields) && (k in record ==> record[k] == payload.fields[k])
  {
    var events := Merged([], payload.events, true, now, now).value;
    var record := payload.fields["events" := Arr(AsValues(events))]["user_id" := Str(userId)];
    assert CreateCandidate(userId, payload, now) == Ok(record);
    MergedIsBounded([], payload.events, true, now, now);
    MergedIsClean([], payload.events, true, now, now);
    assert events == CleanPrefix(payload.events, Min(|payload.events|, MaxEvents), now);
    EventsOfTimeline(record, events);
    CleanTimelineOf(record, events);
  }

  /** A patch that sets nothing, or only sends sections as null, stores the
      record exactly as it was. */
  lemma PatchWithNothingKeepsRecord(store: Snapshot, userId: string, fields: Doc, now: int)
    requires StoreInvariant(store) && userId in store
    requires forall k :: k in fields ==> fields[k] == Null
    ensures PatchCandidate(store, userId, MemoryPatch(fields), now) == Ok(store[userId])
  {
    var record := store[userId];
    MergeOfNothing(record, fields);
    CleanTimelineReadsBack(record, now);
    var es := EventsOf(record);
    if StoredEvents(record) != [] {
      assert Normalized([], now) == Ok([]);
      assert AppendUnseen(KeysOf(es), []) == [];
      assert es + [] == es;
      assert Merged(StoredEvents(record), [], false, now, now) == Ok(es);
      assert record["events" := Arr(AsValues(es))] == record;
    }
    assert record["user_id" := Str(userId)] == record;
  }

  /** With the overwrite flag set and no events given, a patch empties the
      timeline. */
  lemma OverwriteWithoutEventsClearsTimeline(store: Snapshot, userId: string, fields: Doc, now: int)
    requires PatchFieldsOnly(fields)
    requires StoreInvariant(store)
    requires PatchCandidate(store, userId, MemoryPatch(fields, None, true), now).Ok?
    ensures var record := PatchCandidate(store, userId, MemoryPatch(fields, None, true), now).value;
            && EventsOf(record) == []
            && (StoredEvents(RecordOrEmpty(store, userId)) != [] ==> record["events"] == Arr([]))
  {
    var base := RecordOrEmpty(store, userId);
    var record := PatchCandidate(store, userId, MemoryPatch(fields, None, true), now).value;
    if StoredEvents(base) != [] {
      assert Normalized([], now) == Ok([]);
      assert Merged([], [], true, now, now) == Ok([]);
      EventsOfTimeline(record, []);
    } else {
      assert "events" !in SetKeys(fields);
      assert Get(record, "events") == Get(base, "events");
    }
  }

  /** A field the patch does not reach keeps its value, at any depth. */
  lemma PatchKeepsUntouchedFields(store: Snapshot, userId: string, patch: MemoryPatch, now: int, path: seq<string>)
    requires PatchCandidate(store, userId, patch, now).Ok?
    requires path != [] && path[0] != "events" && path[0] != "user_id"
    requires Untouched(RecordOrEmpty(store, userId), patch.fields, path)
    ensures Lookup(PatchCandidate(store, userId, patch, now).value, path) == Lookup(RecordOrEmpty(store, userId), path)
  {
    var base := RecordOrEmpty(store, userId);
    UntouchedFieldsPreserved(base, patch.fields, path);
  }

  /** A list or scalar the patch sets is what the stored record holds. */
  lemma PatchSetsLeaves(store: Snapshot, userId: string, patch: MemoryPatch, now: int, path: seq<string>, v: Value)
    requires PatchCandidate(store, userId, patch, now).Ok?
    requires path != [] && path[0] != "events" && path[0] != "user_id"
    requires Lookup(patch.fields, path) == Some(v) && v != Null && !v.Obj?
    ensures Lookup(PatchCandidate(store, userId, patch, now).value, path) == Some(v)
  {
    UpdatedLeafWins(RecordOrEmpty(store, userId), patch.fields, path, v);
  }

  /** A merging patch keeps every stored entry, in place and first, appends
      only entries with new keys, and afterwards every key of the batch is in
      the timeline, as long as the result fits under the cap. */
  lemma PatchKeepsExistingEvents(store: Snapshot, userId: string, patch: MemoryPatch, now: int)
    requires StoreInvariant(store)
    requires patch.events.Some? && !patch.eventsOverwrite
    requires PatchCandidate(store, userId, patch, now).Ok?
    requires Normalized(patch.events.value, now).Ok?
    requires |StoredEvents(RecordOrEmpty(store, userId))| + |Normalized(patch.events.value, now).value| <= MaxEvents
    ensures var ex, up := EventsOf(RecordOrEmpty(store, userId)), Normalized(patch.events.value, now).value;
            var after := EventsOf(PatchCandidate(store, userId, patch, now).value);
            && |ex| <= |after|
            && after[..|ex|] == ex
            && (forall i :: |ex| <= i < |after| ==> EventKeyOf(after[i]) !in KeysOf(ex))
            && (forall j :: 0 <= j < |up| ==> EventKeyOf(up[j]) in KeysOf(after))
  {
    var base := RecordOrEmpty(store, userId);
    var record := PatchCandidate(store, userId, patch, now).value;
    assert CleanTimeline(base);
    CleanTimelineReadsBack(base, now);
    var ex, up := EventsOf(base), Normalized(patch.events.value, now).value;
    var a := AppendUnseen(KeysOf(ex), up);
    AppendUnseenLength(KeysOf(ex), up);
    var c := Combine(ex, up, false);
    assert Merged(StoredEvents(base), patch.events.value, false, now, now) == Ok(c);
    EventsOfTimeline(record, c);
    MergeKeepsExistingPrefix(ex, up);
    AppendUnseenCoversKeys(KeysOf(ex), up);
    KeysOfConcat(ex, a);
  }

  /** A successful create or patch leaves the store invariant true. */
  lemma CandidateKeepsStoreInvariant(store: Snapshot, userId: string, record: Doc)
    requires StoreInvariant(store)
    requires ValidRecord(record) && Get(record, "user_id") == Str(userId) && CleanTimeline(record)
    ensures StoreInvariant(store[userId := record])
  {
  }

  lemma PatchCandidateIsStorable(store: Snapshot, userId: string, patch: MemoryPatch, now: int)
    requires StoreInvariant(store) && PatchFieldsOnly(patch.fields)
    requires PatchCandidate(store, userId, patch, now).Ok?
    ensures StoreInvariant(store[userId := PatchCandidate(store, userId, patch, now).value])
  {
    var base := RecordOrEmpty(store, userId);
    var record := PatchCandidate(store, userId, patch, now).value;
    assert CleanTimeline(base);
    match PatchedEvents(base, patch, now)
    case None =>
      assert "events" !in SetKeys(patch.fields);
      assert Get(record, "events") == Get(base, "events");
    case Some(merged) =>
      var eventsBase := if patch.eventsOverwrite then [] else StoredEvents(base);
      var eventsUpdates := if patch.events.Some? then patch.events.value else [];
      MergedIsBounded(eventsBase, eventsUpdates, patch.eventsOverwrite, now, now);
      MergedIsClean(eventsBase, eventsUpdates, patch.eventsOverwrite, now, now);
      CleanTimelineOf(record, merged.value);
    CandidateKeepsStoreInvariant(store, userId, record);
  }

  /** A record whose timeline is a capped list of clean entries has a
      normalized timeline. */
  lemma CleanTimelineOf(record: Doc, events: seq<Doc>)
    requires Get(record, "events") == Arr(AsValues(events))
    requires |events| <= MaxEvents && AllClean(events)
    ensures CleanTimeline(record)
  {
  }

  // ---------------------------------------------------------------------
  // Effects of a save
  // ---------------------------------------------------------------------

  /** What persisting the index leaves behind. */
  datatype Persisted = Persisted(files: FileSystem, lastSaved: Snapshot, audit: seq<AuditEntry>, outcome: SaveOutcome)

  /** `safe_save_memory`: validate the whole index, take the timestamped
      backup, save, then remember the saved state and append one audit
      entry comparing the user's last persisted record with the new one. */
  function SafeSaveEffect(store: Snapshot, files: FileSystem, lastSaved: Snapshot, audit: seq<AuditEntry>,
                          codec: Codec, action: string, userId: string, ts: string, fault: SaveFault): Persisted
  {
    if !AllValid(store) then
      Persisted(files, lastSaved, audit, ValidationFailed)
    else
      var (after, ok) := SavedFiles(TimestampedCopy(files, ts), store, codec, fault);
      if ok then
        Persisted(after, store, audit + [AuditEntry(action, userId, RecordOrEmpty(lastSaved, userId), RecordOrEmpty(store, userId))], Saved)
      else
        Persisted(after, lastSaved, audit, SaveRaised)
  }

  /** The result a mutating route reports once the index holds `record`:
      safe_save_memory's return value is ignored, its exception is not. */
  function Reported(record: Doc, outcome: SaveOutcome): Result<Doc, Failure> {
    if outcome == SaveRaised then Err(NotDurable) else Ok(record)
  }

  /** One autosave pass: save only when the index differs from the last
      persisted state, and remember it once the save returned. */
  function AutosaveEffect(store: Snapshot, lastSaved: Snapshot, files: FileSystem, codec: Codec, fault: SaveFault)
    : (FileSystem, Snapshot, AutosaveOutcome)
  {
    if store == lastSaved then
      (files, lastSaved, Quiet)
    else
      var (after, ok) := SavedFiles(files, store, codec, fault);
      if ok then (after, store, Flushed) else (after, lastSaved, FlushRaised)
  }

  /** A save either succeeds, and then the saved state is the index and the
      audit log gains exactly one entry for the user, or it leaves the saved
      state and the audit log alone. Validation can only refuse an index that
      breaks the store invariant. */
  lemma SafeSaveAuditsEverySuccess(store: Snapshot, files: FileSystem, lastSaved: Snapshot, audit: seq<AuditEntry>,
                                   codec: Codec, action: string, userId: string, ts: string, fault: SaveFault)
    ensures var p := SafeSaveEffect(store, files, lastSaved, audit, codec, action, userId, ts, fault);
            && (p.outcome == Saved <==> AllValid(store) && fault == NoFault)
            && (p.outcome == ValidationFailed <==> !AllValid(store))
            && (StoreInvariant(store) ==> p.outcome != ValidationFailed)
            && (p.outcome == Saved ==>
                  && p.lastSaved == store
                  && |p.audit| == |audit| + 1 && p.audit[..|audit|] == audit
                  && p.audit[|audit|] == AuditEntry(action, userId, RecordOrEmpty(lastSaved, userId), RecordOrEmpty(store, userId)))
            && (p.outcome != Saved ==> p.lastSaved == lastSaved && p.audit == audit)
  {
    var p := SafeSaveEffect(store, files, lastSaved, audit, codec, action, userId, ts, fault);
    if p.outcome == Saved {
      assert p.audit == audit + [p.audit[|audit|]];
    }
  }

  /** Whatever happens, the canonical file keeps its content unless the save
      succeeded; on success it holds the index and the previous content is
      kept under the timestamped name. */
  lemma SafeSaveKeepsPreviousState(store: Snapshot, files: FileSystem, lastSaved: Snapshot, audit: seq<AuditEntry>,
                                   codec: Codec, action: string, userId: string, ts: string, fault: SaveFault)
    requires RoundTrips(codec)
    ensures var p := SafeSaveEffect(store, files, lastSaved, audit, codec, action, userId, ts, fault);
            && (p.outcome != Saved ==>
                  && (MemoryFile in p.files <==> MemoryFile in files)
                  && (MemoryFile in files ==> p.files[MemoryFile] == files[MemoryFile]))
            && (p.outcome == Saved ==>
                  && LoadedFiles(p.files, codec, NoReadFault).1 == Ok(store)
                  && (MemoryFile in files ==>
                        && p.files[TimestampedBackup(ts)] == files[MemoryFile]
                        && p.files[BackupFile] == files[MemoryFile]))
  {
    if AllValid(store) {
      var copied := TimestampedCopy(files, ts);
      if fault == NoFault {
        SaveRotatesBackup(copied, store, codec);
        SaveThenLoad(copied, store, codec);
      } else {
        FailedSaveKeepsCanonical(copied, store, codec, fault);
      }
    }
  }

  /** Once a pass has flushed, the next pass writes nothing, whatever it
      would have failed on. */
  lemma AutosaveSettles(store: Snapshot, lastSaved: Snapshot, files: FileSystem, codec: Codec, fault: SaveFault, next: SaveFault)
    requires AutosaveEffect(store, lastSaved, files, codec, fault).2 == Flushed
    ensures var (files', lastSaved', _) := AutosaveEffect(store, lastSaved, files, codec, fault);
            AutosaveEffect(store, lastSaved', files', codec, next) == (files', lastSaved', Quiet)
  {
  }

  /** After a successful safe save, the autosave pass finds nothing to do;
      after a failed one it retries with the same index. */
  lemma AutosaveAfterSafeSave(store: Snapshot, files: FileSystem, lastSaved: Snapshot, audit: seq<AuditEntry>,
                              codec: Codec, action: string, userId: string, ts: string, fault: SaveFault, next: SaveFault)
    ensures var p := SafeSaveEffect(store, files, lastSaved, audit, codec, action, userId, ts, fault);
            && (p.outcome == Saved ==> AutosaveEffect(store, p.lastSaved, p.files, codec, next) == (p.files, p.lastSaved, Quiet))
            && (p.outcome != Saved && store != lastSaved ==>
                  AutosaveEffect(store, p.lastSaved, p.files, codec, next).2 != Quiet)
  {
  }

  /** An autosave pass that flushed wrote the index durably: the next load
      returns it. A failed pass leaves the canonical file alone. */
  lemma AutosaveFlushIsDurable(store: Snapshot, lastSaved: Snapshot, files: FileSystem, codec: Codec, fault: SaveFault)
    requires RoundTrips(codec)
    ensures var (files', lastSaved', outcome) := AutosaveEffect(store, lastSaved, files, codec, fault);
            && (outcome == Flushed ==> LoadedFiles(files', codec, NoReadFault).1 == Ok(store) && lastSaved' == store)
            && (outcome == FlushRaised ==>
                  && lastSaved' == lastSaved
                  && (MemoryFile in files' <==> MemoryFile in files)
                  && (MemoryFile in files ==> files'[MemoryFile] == files[MemoryFile]))
  {
    if store != lastSaved {
      if fault == NoFault {
        SaveThenLoad(files, store, codec);
      } else {
        FailedSaveKeepsCanonical(files, store, codec, fault);
      }
    }
  }

  // ---------------------------------------------------------------------
  // The service
  // ---------------------------------------------------------------------

  class MemoryService {
    var store: Snapshot            // MEMORY_STORE
    var lastSaved: Snapshot        // _last_saved_state, as the snapshot it serializes
    var audit: seq<AuditEntry>     // the lines of the audit log
    const disk: FileStore

    ghost predicate Valid()
      reads this, disk
    {
      disk.Valid()
    }

    constructor (disk: FileStore, loaded: Snapshot)
      requires disk.Valid()
      ensures Valid()
      ensures this.disk == disk && store == loaded && lastSaved == loaded && audit == []
    {
      this.disk := disk;
      store := loaded;
      lastSaved := loaded;
      audit := [];
    }

    /** `safe_save_memory(action, user_id)`. */
    method SafeSave(action: string, userId: string, ts: string, fault: SaveFault) returns (outcome: SaveOutcome)
      requires Valid()
      modifies this, disk
      ensures Valid() && store == old(store)
      ensures Persisted(disk.files, lastSaved, audit, outcome)
           == SafeSaveEffect(store, old(disk.files), old(lastSaved), old(audit), disk.codec, action, userId, ts, fault)
    {
      if !AllValid(store) {
        return ValidationFailed;
      }
      disk.CopyToTimestampedBackup(ts);
      var ok := disk.Save(store, fault);
      if !ok {
        return SaveRaised;
      }
      var before := RecordOrEmpty(lastSaved, userId);
      lastSaved := store;
      audit := audit + [AuditEntry(action, userId, before, RecordOrEmpty(store, userId))];
      outcome := Saved;
    }

    /** The create route: refuse a body that does not parse as MemoryCreate,
        then, in `create_memory`, refuse an existing user unless overwrite is set;
        build the record; put it in the index, then save. The index is
        written before the save, so a failed save leaves it changed. */
    method Create(userId: string, payload: MemoryCreate, overwrite: bool, now: int, ts: string, fault: SaveFault)
      returns (r: Result<Doc, Failure>)
      requires Valid()
      modifies this, disk
      ensures Valid()
      ensures StoreInvariant(old(store)) ==> StoreInvariant(store)
      ensures !ValidCreateBody(payload) ==>
                r == Err(Invalid) && store == old(store) && lastSaved == old(lastSaved)
                && audit == old(audit) && disk.files == old(disk.files)
      ensures ValidCreateBody(payload) && old(userId in store) && !overwrite ==>
                r == Err(Conflict) && store == old(store) && lastSaved == old(lastSaved)
                && audit == old(audit) && disk.files == old(disk.files)
      ensures !(old(userId in store) && !overwrite) && CreateCandidate(userId, payload, now).Err? ==>
                r == CreateCandidate(userId, payload, now) && store == old(store) && lastSaved == old(lastSaved)
                && audit == old(audit) && disk.files == old(disk.files)
      ensures !(old(userId in store) && !overwrite) && CreateCandidate(userId, payload, now).Ok? ==>
                var record := CreateCandidate(userId, payload, now).value;
                var p := SafeSaveEffect(old(store)[userId := record], old(disk.files), old(lastSaved), old(audit),
                                        disk.codec, "create", userId, ts, fault);
                && store == old(store)[userId := record]
                && Persisted(disk.files, lastSaved, audit, p.outcome) == p
                && r == Reported(record, p.outcome)
    {
      if !ValidCreateBody(payload) {
        return Err(Invalid);
      }
      if userId in store && !overwrite {
        return Err(Conflict);
      }
      r := BuildCreated(userId, payload, now);
      if r.Err? {
        return;
      }
      var record := r.value;
      CreatedRecordKeepsFirstEntries(userId, payload, now);
      if StoreInvariant(store) {
        CandidateKeepsStoreInvariant(store, userId, record);
      }
      store := store[userId := record];
      var outcome := SafeSave("create", userId, ts, fault);
      r := Reported(record, outcome);
    }

    /** `patch_memory`: deep-merge the patch into the stored record (or an
        empty one), merge the timeline, build the record; put it in the
        index, then save. */
    method Patch(userId: string, patch: MemoryPatch, now: int, ts: string, fault: SaveFault)
      returns (r: Result<Doc, Failure>)
      requires Valid()
      modifies this, disk
      ensures Valid()
      ensures StoreInvariant(old(store)) && PatchFieldsOnly(patch.fields) ==> StoreInvariant(store)
      ensures PatchCandidate(old(store), userId, patch, now).Err? ==>
                r == PatchCandidate(old(store), userId, patch, now) && store == old(store)
                && lastSaved == old(lastSaved) && audit == old(audit) && disk.files == old(disk.files)
      ensures PatchCandidate(old(store), userId, patch, now).Ok? ==>
                var record := PatchCandidate(old(store), userId, patch, now).value;
                var p := SafeSaveEffect(old(store)[userId := record], old(disk.files), old(lastSaved), old(audit),
                                        disk.codec, "patch", userId, ts, fault);
                && store == old(store)[userId := record]
                && Persisted(disk.files, lastSaved, audit, p.outcome) == p
                && r == Reported(record, p.outcome)
    {
      r := BuildPatched(store, userId, patch, now);
      if r.Err? {
        return;
      }
      var record := r.value;
      if StoreInvariant(store) && PatchFieldsOnly(patch.fields) {
        PatchCandidateIsStorable(store, userId, patch, now);
      }
      store := store[userId := record];
      var outcome := SafeSave("patch", userId, ts, fault);
      r := Reported(record, outcome);
    }

    /** One pass of the autosave loop, under the lock. */
    method AutosaveStep(fault: SaveFault) returns (outcome: AutosaveOutcome)
      requires Valid()
      modifies this`lastSaved, disk
      ensures Valid() && store == old(store) && audit == old(audit)
      ensures (disk.files, lastSaved, outcome) == AutosaveEffect(store, old(lastSaved), old(disk.files), disk.codec, fault)
    {
      if store != lastSaved {
        var ok := disk.Save(store, fault);
        if !ok {
          return FlushRaised;
        }
        lastSaved := store;
        return Flushed;
      }
      outcome := Quiet;
    }
  }

  /** The record create_memory builds, step by step. */
  method BuildCreated(userId: string, payload: MemoryCreate, now: int) returns (r: Result<Doc, Failure>)
    ensures r == CreateCandidate(userId, payload, now)
  {
    if !ValidCreateBody(payload) {
      return Err(Invalid);
    }
    var events := MergeEvents([], payload.events, true, now, now);
    if events.Err? {
      return Err(events.error);
    }
    var record := payload.fields["events" := Arr(AsValues(events.value))]["user_id" := Str(userId)];
    if !ValidRecord(record) {
      return Err(Invalid);
    }
    r := Ok(record);
  }

  /** The record patch_memory builds, step by step: deep-merge the patch
      into the stored record (or an empty one), merge the timeline when the
      patch carries events or the stored timeline is not empty, set the user
      id, validate. */
  method BuildPatched(store: Snapshot, userId: string, patch: MemoryPatch, now: int) returns (r: Result<Doc, Failure>)
    ensures r == PatchCandidate(store, userId, patch, now)
  {
    if patch.events.Some? && !ValidBatch(patch.events.value) {
      return Err(Invalid);
    }
    var base := RecordOrEmpty(store, userId);
    var merged := DeepMerge(base, patch.fields);
    var existingEvents := StoredEvents(base);
    if patch.events.Some? || existingEvents != [] {
      var eventsBase := if patch.eventsOverwrite then [] else existingEvents;
      var eventsUpdates := if patch.events.Some? then patch.events.value else [];
      var events := MergeEvents(eventsBase, eventsUpdates, patch.eventsOverwrite, now, now);
      if events.Err? {
        return Err(events.error);
      }
      merged := merged["events" := Arr(AsValues(events.value))];
    }
    var record := merged["user_id" := Str(userId)];
    if !ValidRecord(record) {
      return Err(Invalid);
    }
    r := Ok(record);
  }

  /** Module start-up: load the file, then build the index. A record that
      fails validation, or a load that raises, stops the process. */
  method Startup(disk: FileStore, readFault: ReadFault) returns (svc: Option<MemoryService>)
    requires disk.Valid()
    modifies disk
    ensures disk.Valid()
    ensures disk.files == LoadedFiles(old(disk.files), disk.codec, readFault).0
    ensures var loaded := LoadedFiles(old(disk.files), disk.codec, readFault).1;
            (svc.Some? <==> loaded.Ok? && AllValid(loaded.value))
            && (svc.Some? ==> && fresh(svc.value) && svc.value.Valid() && svc.value.disk == disk
                              && svc.value.store == loaded.value && svc.value.lastSaved == loaded.value
                              && svc.value.audit == [])
  {
    var loaded := disk.Load(readFault);
    if loaded.Err? || !AllValid(loaded.value) {
      return None;
    }
    var s := new MemoryService(disk, loaded.value);
    svc := Some(s);
  }
}
