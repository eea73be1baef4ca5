# gpt-memory-service, modelled in Dafny

This project models the per-user memory store of gpt-memory-service. The service keeps one record per user. A record holds a profile, working memory, long-term knowledge and an event timeline. It persists the whole record set to `memory.json` with a rotating backup, and validates records with pydantic models.

The model covers:

- **Validators** (`Models`, from `models.py`):
  - the `HH:MM` planning time;
  - the time-block order check;
  - the meeting and snapshot event-id formats;
  - the defaults of `Event.type` and `MemoryPatch.events_overwrite`.
- **Event timeline** (`Timeline`):
  - `normalize_events`, which validates a batch, drops `None` fields, stamps `captured_at` and keeps the first `MAX_EVENTS` entries;
  - `_event_key`, the deduplication identity;
  - `merge_events`: overwrite, or append only unseen keys; then keep the last `MAX_EVENTS`.
- **Record merge** (`DocumentMerge`): `deep_merge`, as a pure function over documents.
- **Persistence** (`Persistence`): `save_memory` and `load_memory` over a file system that is a map from path to content. The JSON codec is an abstract pair of functions, and I/O failures are explicit parameters.
- **Service** (`Service`):
  - `create_memory` and `patch_memory`, as the candidate record they build and the index update, behind the parsing of the request body's `List[Event]` batch;
  - `safe_save_memory`, with its validation, timestamped backup, save, saved-state update and one audit entry;
  - one step of the autosave change check;
  - the start-up load.

JSON values are the datatype `Values.Value`, and a document is a `map<string, Value>`. Datetimes are integers. The clock is a parameter: the `now` of `normalize_events` and the timestamp used in backup names.

Behaviour of the code that a reader might not expect, with the lines it comes from:

- **Which entries a batch keeps.** `normalize_events` keeps the first 500 entries of a batch (`app.py:162`). So creating a record with 501 events stores the first 500, not the last 500. Only the final trim of `merge_events` keeps the newest entries.
- **Lists are replaced.** `deep_merge` replaces a list outright (`app.py:227-228`). It does not append to it or deduplicate it.
- **The index is written before the save.** `create_memory` and `patch_memory` store the new record in the index before `safe_save_memory` runs (`app.py:357-358`, `app.py:380-381`). A refused validation therefore leaves the index changed and the disk unchanged. So does a failed save, and in that case the route reports an error although the index holds the new record. Both routes ignore the `False` that `safe_save_memory` returns on a refused validation. `MemoryService.Create` and `MemoryService.Patch` state this ordering as it is.
- **Overwrite with no events.** A patch with `events_overwrite` set and no `events` empties the stored timeline (`OverwriteWithoutEventsClearsTimeline`).
- **Merging twice.** Repeating a merge is guaranteed to change nothing only when the first merge did not trim and the repeated batch is normalized at the same instant (`Timeline.MergeIsIdempotent`). Outside those cases the result can differ, though it need not. After a trim, a repeated batch can bring back an entry whose stored duplicate was trimmed away. At a later instant, an entry with neither a truthy id nor a `captured_at` is stamped anew and so gets a new key. Entries keyed by a truthy id or carrying a `captured_at` keep their key at any instant.
- **A failed save still rotates the backup.** `save_memory` copies the canonical file over the backup before it writes the temporary file (`app.py:43-44`). A save that then fails has already replaced the backup. If the canonical file was corrupt, the backup was the copy that `load_memory` would have restored it from, and the next load now raises instead (`Persistence.FailedSaveDestroysRecoveryCopy`).

## Model

| member | source | states |
|---|---|---|
| Values.TruthyRendersNonEmpty | src/gpt_memory_service/app.py:168-169 | `str(x or "")` is empty exactly when `x` is falsy, so an event with a truthy id gets a non-empty id slot |
| Models.ValidatePlanningTime | src/gpt_memory_service/models.py:50-60 | None passes; an accepted value is returned unchanged; a text without the two-digits-colon-two-digits shape is rejected with the format message, and a text with that shape is rejected only with the time-of-day message |
| Models.PlanningTimeAcceptsExactlyClockTimes | src/gpt_memory_service/models.py:55-59 | a string is accepted iff it is two digits, a colon and two digits with hours 0-23 and minutes 0-59 |
| Models.ValidateTimeOrder | src/gpt_memory_service/models.py:145-149 | a time block is accepted iff it ends strictly after it starts (equal times rejected), and it is returned unchanged |
| Models.ValidateEventId | src/gpt_memory_service/models.py:268-280 | a missing id passes for any type, and a note accepts any id; a meeting's id is accepted iff it has the meeting format, a snapshot's id iff it has the snapshot format; an accepted id is returned unchanged |
| Models.MeetingIdFormat | src/gpt_memory_service/models.py:272-275 | a meeting id is accepted iff it is `meeting-`, eight digits, `-` and a non-empty run of `[a-z0-9-]` |
| Models.SnapshotIdFormat | src/gpt_memory_service/models.py:276-279 | a snapshot id is accepted iff it is `snapshot-`, eight digits, `-` and exactly six digits |
| Models.EventTypeOf | src/gpt_memory_service/models.py:236-242 | an event that names no type is a note |
| Models.UntypedEventAcceptsAnyId | src/gpt_memory_service/models.py:268-280 | an event without a type accepts any string id |
| Models.PatchDefaults | src/gpt_memory_service/models.py:383-390 | a patch that omits the flag merges rather than overwrites, and a patch that omits events carries none |
| Timeline.CleanEntry | src/gpt_memory_service/app.py:153-158 | the cleaned entry has no None value, keeps every non-None field, adds nothing but `captured_at`, and stamps `captured_at` only when it is missing or None |
| Timeline.NormalizeEvents | src/gpt_memory_service/app.py:144-162 | the whole batch is refused if any entry is not an object; otherwise the result is the first min(n, 500) entries, each cleaned, in input order |
| Timeline.NormalizedOfClean | src/gpt_memory_service/app.py:150-162 | normalizing an already normalized timeline of at most 500 entries returns it unchanged |
| Timeline.EventKeyOf | src/gpt_memory_service/app.py:165-178 | the id slot is non-empty iff the id is truthy; a truthy id gives the key of its string form followed by four empty slots |
| Timeline.KeyDependsOnlyOnId | src/gpt_memory_service/app.py:168-170 | two entries with the same truthy id have the same key, whatever else differs |
| Timeline.TimePart | src/gpt_memory_service/app.py:174-175 | a time slot of the key is empty exactly when the field is neither a datetime nor truthy; a datetime always prints, even at instant 0 |
| Timeline.FallbackKey | src/gpt_memory_service/app.py:172-178 | without a truthy id the key is the empty slot followed by capture time, occurrence time, title and summary |
| Timeline.DistinctStampsDistinctKeys | src/gpt_memory_service/app.py:172-178 | two entries without ids whose capture times differ never share a key, whatever instants they name |
| Timeline.EpochStampKeepsEntriesApart | src/gpt_memory_service/app.py:172-178 | an entry that occurred at instant 0 and an otherwise equal entry with no occurrence time get different keys, so the merge keeps both |
| Timeline.IdKeyNeverEqualsFallbackKey | src/gpt_memory_service/app.py:165-178 | an id-based key never equals a fallback key |
| Timeline.Trim | src/gpt_memory_service/app.py:203-204 | the trimmed timeline has min(n, 500) entries and is the suffix of the merged one |
| Timeline.AppendNew | src/gpt_memory_service/app.py:194-200 | the append loop with its `seen` set computes the existing entries followed by the unseen updates |
| Timeline.MergeEvents | src/gpt_memory_service/app.py:181-206 | merge_events equals its specification `Merged` (both normalizations, overwrite or append-unseen, trim) and never returns more than 500 entries |
| Timeline.AppendUnseenLength | src/gpt_memory_service/app.py:196-200 | the merge never appends more entries than the batch holds |
| Timeline.AppendUnseenKeysFresh | src/gpt_memory_service/app.py:196-200 | no appended entry has a key already seen, and no two appended entries share a key |
| Timeline.AppendUnseenFirstWins | src/gpt_memory_service/app.py:196-200 | each appended entry is the first update carrying its key that was not already seen |
| Timeline.AppendedFrom | src/gpt_memory_service/app.py:196-200 | for each appended entry, the index of the update it came from, which is the first update with that key and whose key was not seen |
| Timeline.AppendUnseenCoversKeys | src/gpt_memory_service/app.py:194-200 | after the merge, every update's key is among the seen keys or the appended ones |
| Timeline.AppendUnseenAllSeen | src/gpt_memory_service/app.py:196-200 | when every update's key is already seen, nothing is appended |
| Timeline.AppendUnseenKeepsOrder | src/gpt_memory_service/app.py:196-200 | the appended entries keep the updates' order (they form a subsequence of the batch) |
| Timeline.OverwriteReplacesTimeline | src/gpt_memory_service/app.py:191-192 | with overwrite the result is the normalized updates, whatever the existing timeline was |
| Timeline.MergeKeepsExistingPrefix | src/gpt_memory_service/app.py:193-200 | before trimming, the existing timeline is an exact prefix; later entries have new keys and distinct keys |
| Timeline.MergeOfKnownUpdates | src/gpt_memory_service/app.py:193-206 | when every update's key is already present, the merge returns the normalized existing timeline |
| Timeline.MergedIsBounded | src/gpt_memory_service/app.py:202-206 | the result has at most 500 entries; a longer combined timeline is cut to exactly its last 500, and a shorter one is kept whole |
| Timeline.MergedIsClean | src/gpt_memory_service/app.py:181-206 | every merged entry is stamped and has no None value |
| Timeline.MergeIsIdempotent | src/gpt_memory_service/app.py:181-206 | re-merging the same batch into an untrimmed merge result changes nothing |
| Timeline.MergeExample | src/gpt_memory_service/app.py:193-200 | three stored entries plus a batch that repeats one id and adds one give four entries, the stored ones first |
| Timeline.KeysOfConcat | src/gpt_memory_service/app.py:194-200 | the keys of a concatenation are the union of the keys of its parts |
| DocumentMerge.DeepMerge | src/gpt_memory_service/app.py:219-231 | the key set is the old keys plus the update's non-None keys; unset keys keep their value; a set key takes the update unless both sides are dicts, which merge recursively |
| DocumentMerge.MergeOfNothing | src/gpt_memory_service/app.py:221-223 | an update that sets nothing (empty, or all None) returns the document unchanged |
| DocumentMerge.MergeWithItself | src/gpt_memory_service/app.py:219-231 | a document merged into itself is unchanged |
| DocumentMerge.MergeIsIdempotent | src/gpt_memory_service/app.py:219-231 | applying the same update twice has the effect of applying it once |
| DocumentMerge.UntouchedFieldsPreserved | src/gpt_memory_service/app.py:221-226 | a field the update does not reach keeps its value, at any depth |
| DocumentMerge.UpdatedLeafWins | src/gpt_memory_service/app.py:225-230 | a list or scalar the update sets at a path is the merged value there, whatever was there before |
| Persistence.FileStore.Save | src/gpt_memory_service/app.py:38-71 | step by step, save rotates the backup, writes and renames the temporary file, and on any failure removes it; the result is `SavedFiles` and no temporary file remains |
| Persistence.FileStore.Load | src/gpt_memory_service/app.py:74-95 | step by step, load gives the result `LoadedFiles` describes, including the restore from backup |
| Persistence.FileStore.CopyToTimestampedBackup | src/gpt_memory_service/app.py:276-282 | the canonical file, if any, is copied to the timestamped name |
| Persistence.SaveRotatesBackup | src/gpt_memory_service/app.py:43-44 | a successful save makes the old canonical content the backup and the new data canonical, and touches no other file |
| Persistence.FailedSaveKeepsCanonical | src/gpt_memory_service/app.py:64-71 | a failed save reports failure and leaves the canonical file and the absence of a temporary file as they were |
| Persistence.SaveThenLoad | src/gpt_memory_service/app.py:38-95 | what a successful save wrote is what the next load returns |
| Persistence.FailedSaveThenLoad | src/gpt_memory_service/app.py:38-95 | a failed save does not change what the next load returns, if the canonical file was readable |
| Persistence.FailedSaveDestroysRecoveryCopy | src/gpt_memory_service/app.py:43-44 | with a corrupt canonical file, a failed save still copies it over the backup, so a load that would have returned the backup's snapshot now raises |
| Persistence.CorruptFileRestoredFromBackup | src/gpt_memory_service/app.py:84-90 | an unparsable canonical file is overwritten with a readable backup, and the backup's content is returned |
| Persistence.LoadStartsEmpty | src/gpt_memory_service/app.py:76-78 | a missing file, or a corrupt one with no backup, gives an empty store and no file change |
| Service.CleanTimelineReadsBack | src/gpt_memory_service/app.py:371-375 | a normalized stored timeline reads back as its entries, and normalizing it again changes nothing |
| Service.CreateRefusesInvalidBody | src/gpt_memory_service/models.py:302-306 | create fails exactly when the body does not parse as MemoryCreate (a section fails its validators or a batch entry is not an Event), and then with a validation error; a body that parses always yields a record, and the 400 of `normalize_events` cannot be reached |
| Service.PatchRefusesInvalidBatch | src/gpt_memory_service/models.py:383-386 | a patch body whose batch holds an entry that is not an Event is refused with a validation error; on a store that keeps the invariant a patch fails only with a validation error, never with the 400 of `normalize_events` |
| Service.CreateKeepsFirstEntries | src/gpt_memory_service/app.py:351-357 | create refuses a body that does not parse as MemoryCreate and fails only with a validation error; otherwise the record holds the payload's sections, its user id and the first min(n, 500) entries cleaned, and meets the store invariant |
| Service.BuildCreated | src/gpt_memory_service/app.py:351-357 | building the record step by step (merge the payload's events on the overwrite path, set the user id, validate) gives exactly `CreateCandidate` |
| Service.BuildPatched | src/gpt_memory_service/app.py:363-378 | building the record step by step (deep merge, timeline merge only when there are events, user id, validate) gives exactly `PatchCandidate` |
| Service.PatchWithNothingKeepsRecord | src/gpt_memory_service/app.py:363-378 | a patch with no events whose fields are absent or sent as null stores the record exactly as it was |
| Service.OverwriteWithoutEventsClearsTimeline | src/gpt_memory_service/app.py:371-376 | with the overwrite flag and no events, the patched record's timeline is empty |
| Service.PatchKeepsUntouchedFields | src/gpt_memory_service/app.py:370 | a field the patch does not reach keeps its stored value |
| Service.PatchSetsLeaves | src/gpt_memory_service/app.py:370 | a list or scalar the patch sets is what the patched record holds |
| Service.PatchKeepsExistingEvents | src/gpt_memory_service/app.py:371-376 | below the cap, a merging patch keeps every stored entry first and in place, appends only entries with new keys, and leaves every batch key in the timeline |
| Service.CandidateKeepsStoreInvariant | src/gpt_memory_service/app.py:357 | storing a valid record under its own user id with a normalized timeline keeps the store invariant |
| Service.PatchCandidateIsStorable | src/gpt_memory_service/app.py:363-380 | a successful patch candidate keeps the store invariant |
| Service.SafeSaveAuditsEverySuccess | src/gpt_memory_service/app.py:267-287 | a save succeeds iff the index validates and no I/O step fails; a success appends exactly one audit entry (the user's last persisted record against the new one) and remembers the index; anything else changes neither; an index that meets the store invariant always validates |
| Service.SafeSaveKeepsPreviousState | src/gpt_memory_service/app.py:272-284 | unless the save succeeded the canonical file is unchanged; on success it loads back as the index, and the old content sits under the timestamped name and as the backup |
| Service.AutosaveSettles | src/gpt_memory_service/app.py:297-305 | after a pass that flushed, the next pass writes nothing |
| Service.AutosaveAfterSafeSave | src/gpt_memory_service/app.py:285-304 | after a successful safe save the autosave pass is quiet; after a failed one, the pass tries to save a changed index again |
| Service.AutosaveFlushIsDurable | src/gpt_memory_service/app.py:302-304 | a flush writes the index so that the next load returns it; a failed pass leaves the saved state and canonical file alone |
| Service.MemoryService.SafeSave | src/gpt_memory_service/app.py:267-287 | the files, saved state, audit log and outcome after the save are exactly `SafeSaveEffect`; the index is not touched |
| Service.MemoryService.Create | src/gpt_memory_service/app.py:343-359 | a body that does not parse as MemoryCreate (a section fails its validators or a batch entry is not an Event) is refused before the conflict check and changes nothing; an existing user without overwrite gives a conflict and no change; a refused candidate changes nothing; otherwise the index holds the record before the save, and the reply is an error only if the save raised; the store invariant is kept |
| Service.MemoryService.Patch | src/gpt_memory_service/app.py:362-382 | a refused candidate, including a body whose batch holds an entry that is not an Event, changes nothing; otherwise the index holds the patched record before the save, and the reply is an error only if the save raised; the store invariant is kept |
| Service.MemoryService.AutosaveStep | src/gpt_memory_service/app.py:297-305 | the pass saves only when the index differs from the saved state, and remembers it only when the save returned |
| Service.Startup | src/gpt_memory_service/app.py:209-215 | start-up loads the file and builds the index only if every record validates; the saved state starts equal to the index and the audit log empty |

## Left out

- HTTP routing, status codes, the `get_memory` lookup, the root, health, version and OpenAPI routes, and the entry point: HTTP plumbing with no logic of its own. Failures are modelled as values: `Conflict` (409), `Invalid` (a pydantic error, including a request body that does not parse) and `NotDurable` (the exception a failed save lets escape). `BadRequest` (400) is what `normalize_events` raises for a non-object entry; because both request bodies type their batch as `List[Event]`, neither route can reach it (`Service.CreateRefusesInvalidBody`, `Service.PatchRefusesInvalidBatch`).
- Service.PatchCandidate: the sections of a patch body (`ProfilePatch`, `WorkingMemoryPatch`, `LongTermKnowledgePatch`) are not parsed on their own. The model checks them on the built record, into which `deep_merge` copies every section the body sets. The patch models reuse `WeeklyPlanningSettings` and `Timeblock` and add no validator of their own (`models.py:309-370`), and no other check comes before the patch, so an invalid section value the body sets is refused with the same validation error.
- The asyncio autosave loop, its sleep, cancellation and start-up/shutdown hooks, and the thread lock: these are about concurrency. Only one pass of the change check is modelled. A pass that raises ends the loop in the source; the model returns `FlushRaised` and does not model the loop ending.
- Logging, and the audit log's file I/O, unified diff, JSON formatting and wall-clock timestamp. An audit entry is the action, the user and the two record forms the diff compares. A failure while appending to the audit log is not modelled.
- JSON encoding and decoding: the codec is an abstract pair of functions. The autosave check compares snapshots where the source compares their sorted-key JSON text, which is the same test for JSON data.
- Real file-system details: temporary file names, `fsync`, file metadata, and a failure of `shutil.copy2` or of the temporary-file cleanup. A single temporary-file path stands for the unique name `NamedTemporaryFile` picks.
- Pydantic coercion and defaults: datetime parsing, enum coercion, filling in missing sections with defaults, and the dump/re-validate round trip. A record is valid (`Models.ValidRecord`) when its user id is a string and each section present passes the three validators and the shape checks. The contents of `preferences`, `metadata` and similar dicts are opaque.
- Models.ValidatePlanningTime: `\d` is modelled as the ASCII digits 0-9; Python's `re` also accepts other Unicode decimal digits.
- Models.PlanningTimeAcceptsExactlyClockTimes: states acceptance for ASCII digits only, for the same reason.
- Models.ValidateEventId: the `\d` of the meeting and snapshot id patterns is modelled as the ASCII digits 0-9, so an id whose date or time uses other Unicode decimal digits, which Python's `re` accepts in a str pattern, is refused in the model.
- Models.MeetingIdFormat: its eight digits are ASCII digits, for the same reason.
- Models.SnapshotIdFormat: its eight and six digits are ASCII digits, for the same reason.
- Values.Render: `str()` of a list or dict is a fixed placeholder rather than its Python repr, so two entries without ids whose key fields hold different containers get the same fallback key in the model.
- Timeline.MergeIsIdempotent: proved only for a merge that did not trim and a repeated batch normalized at the same instant; outside those cases the result can differ (see above), though it need not.
- Service.PatchCandidate: uses one instant for the normalization of the stored timeline and of the batch, where the source reads the clock in each `normalize_events` call (`app.py:148`, `app.py:188-189`). A stored timeline already has a `captured_at` on every entry (`Service.CleanTimelineReadsBack`), so its normalization gives the same result at any instant; the single instant matters only for a record that does not satisfy the store invariant.
- Service.CreateCandidate: also uses one instant, which loses nothing because the existing side of its merge is empty.
- Service.PatchKeepsExistingEvents: stated only below the 500-entry cap, since the final trim may drop stored entries.
- Service.Startup: records loaded from disk are only required to validate. The model does not show that they carry their own key as user id or a normalized timeline, so the store invariant holds from start-up only when the file was written by the service.
