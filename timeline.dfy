/** The event timeline: normalizing a batch of raw entries, the
    deduplication key of an entry, and merging a batch into an existing
    timeline under the MAX_EVENTS cap. */
module Timeline {
  import opened Values

  /** Guardrail against unbounded growth from transcript ingestion. */
  const MaxEvents: nat := 500

  function Min(a: nat, b: nat): nat {
    if a <= b then a else b
  }

  // ---------------------------------------------------------------------
  // normalize_events
  // ---------------------------------------------------------------------

  /** What normalize_events makes of one object entry: the None-valued keys
      dropped, then `captured_at` set to `now` unless it is still present. */
  function CleanEntry(fields: Doc, now: int): (r: Doc)
    ensures "captured_at" in r
    ensures forall k :: k in r ==> r[k] != Null
    ensures forall k :: k in fields && fields[k] != Null ==> k in r && r[k] == fields[k]
    ensures forall k :: k in r && k != "captured_at" ==> k in fields && r[k] == fields[k]
    ensures Get(fields, "captured_at") == Null ==> r["captured_at"] == Num(now)
  {
    var stripped := map k | k in fields && fields[k] != Null :: fields[k];
    if "captured_at" in stripped then stripped else stripped["captured_at" := Num(now)]
  }

  predicate AllObjects(raw: seq<Value>) {
    forall i :: 0 <= i < |raw| ==> raw[i].Obj?
  }

  /** The first `n` entries, each cleaned. */
  function CleanPrefix(raw: seq<Value>, n: nat, now: int): (r: seq<Doc>)
    requires n <= |raw| && AllObjects(raw)
    ensures |r| == n
    ensures forall i :: 0 <= i < n ==> r[i] == CleanEntry(raw[i].fields, now)
  {
    seq(n, i requires 0 <= i < n => CleanEntry(raw[i].fields, now))
  }

  /** The result of normalize_events: a 400 failure as soon as one entry is
      not an object (the whole batch is rejected, wherever that entry is),
      otherwise the first MaxEvents entries, each cleaned. */
  function Normalized(raw: seq<Value>, now: int): Result<seq<Doc>, Failure> {
    if AllObjects(raw) then Ok(CleanPrefix(raw, Min(|raw|, MaxEvents), now)) else Err(BadRequest)
  }

  method NormalizeEvents(raw: seq<Value>, now: int) returns (r: Result<seq<Doc>, Failure>)
    ensures r == Normalized(raw, now)
  {
    var normalized: seq<Doc> := [];
    var i := 0;
    while i < |raw|
      invariant 0 <= i <= |raw|
      invariant AllObjects(raw[..i])
      invariant |normalized| == i
      invariant forall j :: 0 <= j < i ==> normalized[j] == CleanEntry(raw[j].fields, now)
    {
      var event := raw[i];
      if !event.Obj? {
        assert !AllObjects(raw);
        return Err(BadRequest);
      }
      normalized := normalized + [CleanEntry(event.fields, now)];
      i := i + 1;
    }
    assert raw[..i] == raw;
    var kept := normalized[..Min(|normalized|, MaxEvents)];
    assert kept == CleanPrefix(raw, Min(|raw|, MaxEvents), now);
    r := Ok(kept);
  }

  /** An entry as normalize_events leaves it: stamped, with no None values. */
  predicate IsClean(e: Doc) {
    "captured_at" in e && forall k :: k in e ==> e[k] != Null
  }

  predicate AllClean(events: seq<Doc>) {
    forall i :: 0 <= i < |events| ==> IsClean(events[i])
  }

  /** A cleaned timeline put back into a record's `events` list. */
  function AsValues(events: seq<Doc>): (r: seq<Value>)
    ensures |r| == |events|
    ensures forall i :: 0 <= i < |r| ==> r[i] == Obj(events[i])
  {
    seq(|events|, i requires 0 <= i < |events| => Obj(events[i]))
  }

  lemma CleanEntryOfClean(e: Doc, now: int)
    requires IsClean(e)
    ensures CleanEntry(e, now) == e
  {
    var r := CleanEntry(e, now);
    assert r.Keys == e.Keys;
  }

  /** Normalizing an already normalized timeline changes nothing. */
  lemma NormalizedOfClean(events: seq<Doc>, now: int)
    requires |events| <= MaxEvents
    requires AllClean(events)
    ensures Normalized(AsValues(events), now) == Ok(events)
  {
    var raw := AsValues(events);
    forall i | 0 <= i < |events|
      ensures CleanEntry(raw[i].fields, now) == events[i]
    {
      CleanEntryOfClean(events[i], now);
    }
    assert CleanPrefix(raw, |events|, now) == events;
  }

  // ---------------------------------------------------------------------
  // _event_key
  // ---------------------------------------------------------------------

  /** The deduplication identity of an entry. */
  datatype EventKey = EventKey(id: string, capturedAt: string, occurredAt: string, title: string, summary: string)

  /** `str(event.get(field) or "")`. */
  function KeyPart(e: Doc, field: string): string {
    var v := Get(e, field);
    if Truthy(v) then Render(v) else ""
  }

  /** `str(event.get(field) or "")` for a datetime field. A datetime (a
      `Num` here) is always truthy in Python, so a stamp prints even at
      instant 0; any other value follows `KeyPart`. */
  function TimePart(e: Doc, field: string): (r: string)
    ensures r == "" <==> !Get(e, field).Num? && !Truthy(Get(e, field))
  {
    var v := Get(e, field);
    RenderNumSign(if v.Num? then v.n else 0);
    TruthyRendersNonEmpty(v);
    if v.Num? then Render(v) else KeyPart(e, field)
  }

  /** `_event_key`: the id when it is truthy, otherwise the tuple of capture
      time, occurrence time, title and summary behind an empty first slot. */
  function EventKeyOf(e: Doc): (k: EventKey)
    ensures k.id != "" <==> Truthy(Get(e, "id"))
    ensures k.id != "" ==> k.capturedAt == k.occurredAt == k.title == k.summary == ""
    ensures Truthy(Get(e, "id")) ==> k == EventKey(Render(Get(e, "id")), "", "", "", "")
  {
    TruthyRendersNonEmpty(Get(e, "id"));
    var eventId := KeyPart(e, "id");
    if eventId != "" then
      EventKey(eventId, "", "", "", "")
    else
      EventKey("", TimePart(e, "captured_at"), TimePart(e, "occurred_at"), KeyPart(e, "title"), KeyPart(e, "summary"))
  }

  /** Two entries with the same truthy id share a key whatever else differs. */
  lemma KeyDependsOnlyOnId(a: Doc, b: Doc)
    requires Truthy(Get(a, "id")) && Get(a, "id") == Get(b, "id")
    ensures EventKeyOf(a) == EventKeyOf(b)
  {
  }

  /** Without a truthy id the key is the fallback tuple. */
  lemma FallbackKey(e: Doc)
    requires !Truthy(Get(e, "id"))
    ensures EventKeyOf(e) == EventKey("", TimePart(e, "captured_at"), TimePart(e, "occurred_at"),
                                      KeyPart(e, "title"), KeyPart(e, "summary"))
  {
  }

  /** Two entries without ids whose capture times differ never share a key,
      whatever instant the stamps name. */
  lemma DistinctStampsDistinctKeys(a: Doc, b: Doc)
    requires !Truthy(Get(a, "id")) && !Truthy(Get(b, "id"))
    requires Get(a, "captured_at").Num? && Get(b, "captured_at").Num?
    requires Get(a, "captured_at") != Get(b, "captured_at")
    ensures EventKeyOf(a) != EventKeyOf(b)
  {
    if EventKeyOf(a) == EventKeyOf(b) {
      RenderNumInjective(Get(a, "captured_at").n, Get(b, "captured_at").n);
    }
  }

  /** An entry that occurred at instant 0 is kept apart from one with no
      occurrence time: the stamp prints as "0", not as an empty slot. */
  lemma EpochStampKeepsEntriesApart()
    ensures var a := map["captured_at" := Num(5), "occurred_at" := Num(0), "title" := Str("t")];
            var b := map["captured_at" := Num(5), "title" := Str("t")];
            EventKeyOf(a) != EventKeyOf(b) && AppendUnseen(KeysOf([a]), [b]) == [b]
  {
    var a := map["captured_at" := Num(5), "occurred_at" := Num(0), "title" := Str("t")];
    var b := map["captured_at" := Num(5), "title" := Str("t")];
    assert TimePart(a, "occurred_at") == "0";
    assert TimePart(b, "occurred_at") == "";
    assert KeysOf([a]) == {EventKeyOf(a)} by {
      assert [a][0] == a;
    }
  }

  /** An id-based key never collides with a fallback key. */
  lemma IdKeyNeverEqualsFallbackKey(a: Doc, b: Doc)
    requires Truthy(Get(a, "id")) && !Truthy(Get(b, "id"))
    ensures EventKeyOf(a) != EventKeyOf(b)
  {
  }

  // ---------------------------------------------------------------------
  // merge_events
  // ---------------------------------------------------------------------

  function KeysOf(events: seq<Doc>): set<EventKey> {
    set i | 0 <= i < |events| :: EventKeyOf(events[i])
  }

  /** The updates the merge path appends, in update order: each entry whose
      key is neither in `seen` nor carried by an entry appended before it. */
  function AppendUnseen(seen: set<EventKey>, updates: seq<Doc>): seq<Doc>
    decreases |updates|
  {
    if updates == [] then []
    else
      var key := EventKeyOf(updates[0]);
      if key in seen then AppendUnseen(seen, updates[1..])
      else [updates[0]] + AppendUnseen(seen + {key}, updates[1..])
  }

  /** The timeline before trimming: the updates alone on overwrite, otherwise
      the existing entries followed by the unseen updates. */
  function Combine(existing: seq<Doc>, updates: seq<Doc>, overwrite: bool): seq<Doc> {
    if overwrite then updates else existing + AppendUnseen(KeysOf(existing), updates)
  }

  /** Keeps the newest MaxEvents entries, that is the last ones. */
  function Trim(merged: seq<Doc>): (r: seq<Doc>)
    ensures |r| == Min(|merged|, MaxEvents)
    ensures r == merged[|merged| - |r|..]
  {
    if |merged| > MaxEvents then merged[|merged| - MaxEvents..] else merged
  }

  /** The result of merge_events. Each of the two normalize_events calls
      reads the clock on its own, hence two timestamps. */
  function Merged(existing: seq<Value>, updates: seq<Value>, overwrite: bool,
                  existingNow: int, updatesNow: int): Result<seq<Doc>, Failure>
  {
    match Normalized(existing, existingNow)
    case Err(e) => Err(e)
    case Ok(ex) =>
      match Normalized(updates, updatesNow)
      case Err(e) => Err(e)
      case Ok(up) => Ok(Trim(Combine(ex, up, overwrite)))
  }

  lemma KeysOfConcat(x: seq<Doc>, y: seq<Doc>)
    ensures KeysOf(x + y) == KeysOf(x) + KeysOf(y)
  {
    var s := x + y;
    forall k | k in KeysOf(s) ensures k in KeysOf(x) + KeysOf(y) {
      var i :| 0 <= i < |s| && k == EventKeyOf(s[i]);
      if i >= |x| {
        assert s[i] == y[i - |x|];
      }
    }
    forall k | k in KeysOf(y) ensures k in KeysOf(s) {
      var i :| 0 <= i < |y| && k == EventKeyOf(y[i]);
      assert s[|x| + i] == y[i];
    }
    forall k | k in KeysOf(x) ensures k in KeysOf(s) {
      var i :| 0 <= i < |x| && k == EventKeyOf(x[i]);
      assert s[i] == x[i];
    }
  }

  /** Appending one entry adds exactly its key. */
  lemma KeysOfSnoc(merged: seq<Doc>, event: Doc)
    ensures KeysOf(merged + [event]) == KeysOf(merged) + {EventKeyOf(event)}
  {
    KeysOfConcat(merged, [event]);
    assert KeysOf([event]) == {EventKeyOf(event)} by {
      assert [event][0] == event;
    }
  }

  /** The loop of the merge path: append each update whose key is not yet
      seen, then mark its key seen. */
  method AppendNew(existing: seq<Doc>, updates: seq<Doc>) returns (merged: seq<Doc>)
    ensures merged == Combine(existing, updates, false)
  {
    var seen := KeysOf(existing);
    merged := existing;
    var i := 0;
    while i < |updates|
      invariant 0 <= i <= |updates|
      invariant seen == KeysOf(merged)
      invariant merged + AppendUnseen(seen, updates[i..]) == Combine(existing, updates, false)
    {
      var event := updates[i];
      var key := EventKeyOf(event);
      assert updates[i..][0] == event && updates[i..][1..] == updates[i + 1..];
      if key !in seen {
        assert AppendUnseen(seen, updates[i..]) == [event] + AppendUnseen(seen + {key}, updates[i + 1..]);
        assert merged + ([event] + AppendUnseen(seen + {key}, updates[i + 1..]))
            == (merged + [event]) + AppendUnseen(seen + {key}, updates[i + 1..]);
        KeysOfSnoc(merged, event);
        merged := merged + [event];
        seen := seen + {key};
      } else {
        assert AppendUnseen(seen, updates[i..]) == AppendUnseen(seen, updates[i + 1..]);
      }
      i := i + 1;
    }
    assert updates[i..] == [];
    assert merged + [] == merged;
  }

  method MergeEvents(existing: seq<Value>, updates: seq<Value>, overwrite: bool,
                     existingNow: int, updatesNow: int) returns (r: Result<seq<Doc>, Failure>)
    ensures r == Merged(existing, updates, overwrite, existingNow, updatesNow)
    ensures r.Ok? ==> |r.value| <= MaxEvents
  {
    var existingNormalized := NormalizeEvents(existing, existingNow);
    if existingNormalized.Err? {
      return Err(existingNormalized.error);
    }
    var updatesNormalized := NormalizeEvents(updates, updatesNow);
    if updatesNormalized.Err? {
      return Err(updatesNormalized.error);
    }

    var merged: seq<Doc>;
    if overwrite {
      merged := updatesNormalized.value;
    } else {
      merged := AppendNew(existingNormalized.value, updatesNormalized.value);
    }

    // keep newest entries last and trimmed
    if |merged| > MaxEvents {
      merged := merged[|merged| - MaxEvents..];
    }
    r := Ok(merged);
  }

  // ---------------------------------------------------------------------
  // Properties of the merge
  // ---------------------------------------------------------------------

  /** The merge never appends more entries than the batch holds. */
  lemma {:induction false} AppendUnseenLength(seen: set<EventKey>, updates: seq<Doc>)
    ensures |AppendUnseen(seen, updates)| <= |updates|
    decreases |updates|
  {
    if updates != [] {
      var key := EventKeyOf(updates[0]);
      AppendUnseenLength(seen, updates[1..]);
      AppendUnseenLength(seen + {key}, updates[1..]);
    }
  }

  /** No appended entry has a key already seen, and no two appended entries
      share a key. */
  lemma {:induction false} AppendUnseenKeysFresh(seen: set<EventKey>, updates: seq<Doc>)
    ensures forall i :: 0 <= i < |AppendUnseen(seen, updates)| ==> EventKeyOf(AppendUnseen(seen, updates)[i]) !in seen
    ensures forall i, j :: 0 <= i < j < |AppendUnseen(seen, updates)| ==>
              EventKeyOf(AppendUnseen(seen, updates)[i]) != EventKeyOf(AppendUnseen(seen, updates)[j])
    decreases |updates|
  {
    if updates != [] {
      var key := EventKeyOf(updates[0]);
      if key in seen {
        AppendUnseenKeysFresh(seen, updates[1..]);
      } else {
        AppendUnseenKeysFresh(seen + {key}, updates[1..]);
      }
    }
  }

  /** `FirstFresh(seen, updates, j)`: the j-th update is the first one with
      its key, and that key was not seen. */
  ghost predicate FirstFresh(seen: set<EventKey>, updates: seq<Doc>, j: int) {
    && 0 <= j < |updates|
    && EventKeyOf(updates[j]) !in seen
    && forall j' :: 0 <= j' < j ==> EventKeyOf(updates[j']) != EventKeyOf(updates[j])
  }

  /** First occurrence wins: every appended entry is an update that is the
      first of its key and whose key was not seen. */
  lemma AppendUnseenFirstWins(seen: set<EventKey>, updates: seq<Doc>)
    ensures forall i :: 0 <= i < |AppendUnseen(seen, updates)| ==>
              exists j :: FirstFresh(seen, updates, j) && updates[j] == AppendUnseen(seen, updates)[i]
  {
    var a := AppendUnseen(seen, updates);
    forall i | 0 <= i < |a|
      ensures exists j :: FirstFresh(seen, updates, j) && updates[j] == a[i]
    {
      var j := AppendedFrom(seen, updates, i);
      assert FirstFresh(seen, updates, j) && updates[j] == a[i];
    }
    assert forall i :: 0 <= i < |a| ==> exists j :: FirstFresh(seen, updates, j) && updates[j] == a[i];
  }

  /** The update that the i-th appended entry comes from. */
  lemma {:induction false} AppendedFrom(seen: set<EventKey>, updates: seq<Doc>, i: nat) returns (j: nat)
    requires i < |AppendUnseen(seen, updates)|
    ensures FirstFresh(seen, updates, j) && updates[j] == AppendUnseen(seen, updates)[i]
    decreases |updates|
  {
    var key := EventKeyOf(updates[0]);
    var rest := updates[1..];
    var a := AppendUnseen(seen, updates);
    if key !in seen && i == 0 {
      assert a[0] == updates[0];
      j := 0;
    } else {
      var seen' := if key in seen then seen else seen + {key};
      var tail := AppendUnseen(seen', rest);
      assert a == if key in seen then tail else [updates[0]] + tail;
      var t := if key in seen then i else i - 1;
      var j' := AppendedFrom(seen', rest, t);
      ShiftFirstFresh(seen, seen', updates, j');
      j := j' + 1;
    }
  }

  lemma ShiftFirstFresh(seen: set<EventKey>, seen': set<EventKey>, updates: seq<Doc>, j: nat)
    requires updates != [] && j < |updates| - 1
    requires seen' == seen + {EventKeyOf(updates[0])}
    requires FirstFresh(seen', updates[1..], j)
    ensures FirstFresh(seen, updates, j + 1)
  {
    var rest := updates[1..];
    assert updates[j + 1] == rest[j];
    forall j' | 0 <= j' < j + 1 ensures EventKeyOf(updates[j']) != EventKeyOf(updates[j + 1]) {
      if j' > 0 {
        assert updates[j'] == rest[j' - 1];
      }
    }
  }

  /** Nothing is lost: every update's key ends up either seen or carried by
      an appended entry. */
  lemma {:induction false} AppendUnseenCoversKeys(seen: set<EventKey>, updates: seq<Doc>)
    ensures forall j :: 0 <= j < |updates| ==> EventKeyOf(updates[j]) in seen + KeysOf(AppendUnseen(seen, updates))
    decreases |updates|
  {
    if updates != [] {
      var key := EventKeyOf(updates[0]);
      var rest := updates[1..];
      var a := AppendUnseen(seen, updates);
      if key in seen {
        AppendUnseenCoversKeys(seen, rest);
        forall j | 0 <= j < |updates|
          ensures EventKeyOf(updates[j]) in seen + KeysOf(a)
        {
          if j > 0 {
            assert updates[j] == rest[j - 1];
          }
        }
      } else {
        var seen' := seen + {key};
        var tail := AppendUnseen(seen', rest);
        AppendUnseenCoversKeys(seen', rest);
        assert a == [updates[0]] + tail;
        assert KeysOf(a) == {key} + KeysOf(tail) by {
          assert a[0] == updates[0];
          assert forall i :: 0 <= i < |tail| ==> a[i + 1] == tail[i];
          forall k | k in KeysOf(a) ensures k in {key} + KeysOf(tail) {
            var i :| 0 <= i < |a| && k == EventKeyOf(a[i]);
            if i > 0 {
              assert a[i] == tail[i - 1];
            }
          }
        }
        forall j | 0 <= j < |updates|
          ensures EventKeyOf(updates[j]) in seen + KeysOf(a)
        {
          if j > 0 {
            assert updates[j] == rest[j - 1];
          }
        }
      }
    }
  }

  /** When every update's key is already seen, nothing is appended. */
  lemma {:induction false} AppendUnseenAllSeen(seen: set<EventKey>, updates: seq<Doc>)
    requires forall j :: 0 <= j < |updates| ==> EventKeyOf(updates[j]) in seen
    ensures AppendUnseen(seen, updates) == []
    decreases |updates|
  {
    if updates != [] {
      assert EventKeyOf(updates[0]) in seen;
      AppendUnseenAllSeen(seen, updates[1..]);
    }
  }

  /** Update order is kept: the appended entries form a subsequence of the
      updates. */
  ghost predicate IsSubsequence(a: seq<Doc>, b: seq<Doc>)
    decreases |b|
  {
    a == [] || (b != [] && (IsSubsequence(a, b[1..]) || (a[0] == b[0] && IsSubsequence(a[1..], b[1..]))))
  }

  lemma {:induction false} AppendUnseenKeepsOrder(seen: set<EventKey>, updates: seq<Doc>)
    ensures IsSubsequence(AppendUnseen(seen, updates), updates)
    decreases |updates|
  {
    if updates != [] {
      var key := EventKeyOf(updates[0]);
      if key in seen {
        AppendUnseenKeepsOrder(seen, updates[1..]);
      } else {
        var tail := AppendUnseen(seen + {key}, updates[1..]);
        AppendUnseenKeepsOrder(seen + {key}, updates[1..]);
        assert ([updates[0]] + tail)[1..] == tail;
      }
    }
  }

  /** On overwrite the existing timeline is ignored (as long as it
      normalizes): the result is the normalized updates, which need no trim. */
  lemma OverwriteReplacesTimeline(existing: seq<Value>, updates: seq<Value>, existingNow: int, updatesNow: int)
    requires Normalized(existing, existingNow).Ok?
    ensures Merged(existing, updates, true, existingNow, updatesNow) == Normalized(updates, updatesNow)
  {
  }

  /** Without overwrite and before the trim, the normalized existing timeline
      is an exact prefix and only fresh, first-occurrence updates follow. */
  lemma MergeKeepsExistingPrefix(ex: seq<Doc>, up: seq<Doc>)
    ensures Combine(ex, up, false)[..|ex|] == ex
    ensures forall i :: |ex| <= i < |Combine(ex, up, false)| ==> EventKeyOf(Combine(ex, up, false)[i]) !in KeysOf(ex)
    ensures forall i, j :: |ex| <= i < j < |Combine(ex, up, false)| ==>
              EventKeyOf(Combine(ex, up, false)[i]) != EventKeyOf(Combine(ex, up, false)[j])
  {
    var a := AppendUnseen(KeysOf(ex), up);
    AppendUnseenKeysFresh(KeysOf(ex), up);
    assert forall i :: |ex| <= i < |ex + a| ==> (ex + a)[i] == a[i - |ex|];
  }

  /** When every update is already present by key, the merge returns the
      normalized existing timeline unchanged. */
  lemma MergeOfKnownUpdates(existing: seq<Value>, updates: seq<Value>, existingNow: int, updatesNow: int)
    requires Normalized(existing, existingNow).Ok? && Normalized(updates, updatesNow).Ok?
    requires var ex, up := Normalized(existing, existingNow).value, Normalized(updates, updatesNow).value;
             forall j :: 0 <= j < |up| ==> EventKeyOf(up[j]) in KeysOf(ex)
    ensures Merged(existing, updates, false, existingNow, updatesNow) == Normalized(existing, existingNow)
  {
    var ex, up := Normalized(existing, existingNow).value, Normalized(updates, updatesNow).value;
    AppendUnseenAllSeen(KeysOf(ex), up);
    assert ex + [] == ex;
  }

  /** Every merged timeline is capped, and when the combined timeline is
      longer than the cap exactly its last MaxEvents entries are kept. */
  lemma MergedIsBounded(existing: seq<Value>, updates: seq<Value>, overwrite: bool, existingNow: int, updatesNow: int)
    requires Merged(existing, updates, overwrite, existingNow, updatesNow).Ok?
    ensures var r := Merged(existing, updates, overwrite, existingNow, updatesNow).value;
            var ex, up := Normalized(existing, existingNow).value, Normalized(updates, updatesNow).value;
            var c := Combine(ex, up, overwrite);
            |r| <= MaxEvents && (|c| > MaxEvents ==> r == c[|c| - MaxEvents..]) && (|c| <= MaxEvents ==> r == c)
  {
  }

  /** Every entry of a merged timeline is clean. */
  lemma MergedIsClean(existing: seq<Value>, updates: seq<Value>, overwrite: bool, existingNow: int, updatesNow: int)
    requires Merged(existing, updates, overwrite, existingNow, updatesNow).Ok?
    ensures AllClean(Merged(existing, updates, overwrite, existingNow, updatesNow).value)
  {
    var ex, up := Normalized(existing, existingNow).value, Normalized(updates, updatesNow).value;
    NormalizedIsClean(existing, existingNow);
    NormalizedIsClean(updates, updatesNow);
    CombineIsClean(ex, up, overwrite);
    TrimIsClean(Combine(ex, up, overwrite));
  }

  /** Every entry normalize_events returns is clean. */
  lemma NormalizedIsClean(raw: seq<Value>, now: int)
    requires Normalized(raw, now).Ok?
    ensures AllClean(Normalized(raw, now).value)
  {
  }

  /** Combining clean timelines gives a clean timeline. */
  lemma CombineIsClean(ex: seq<Doc>, up: seq<Doc>, overwrite: bool)
    requires AllClean(ex) && AllClean(up)
    ensures AllClean(Combine(ex, up, overwrite))
  {
    var c := Combine(ex, up, overwrite);
    forall i | 0 <= i < |c|
      ensures IsClean(c[i])
    {
      if !overwrite && i >= |ex| {
        var a := AppendUnseen(KeysOf(ex), up);
        assert c[i] == a[i - |ex|];
        var j := AppendedFrom(KeysOf(ex), up, i - |ex|);
      }
    }
  }

  lemma TrimIsClean(c: seq<Doc>)
    requires AllClean(c)
    ensures AllClean(Trim(c))
  {
    var r := Trim(c);
    forall i | 0 <= i < |r|
      ensures IsClean(r[i])
    {
      assert r[i] == c[|c| - |r| + i];
    }
  }

  /** Re-merging the same batch (normalized at the same instant) into the
      result of a merge that did not trim changes nothing. */
  lemma MergeIsIdempotent(existing: seq<Value>, updates: seq<Value>, existingNow: int, updatesNow: int, laterNow: int)
    requires Merged(existing, updates, false, existingNow, updatesNow).Ok?
    requires |Combine(Normalized(existing, existingNow).value, Normalized(updates, updatesNow).value, false)| <= MaxEvents
    ensures var r := Merged(existing, updates, false, existingNow, updatesNow).value;
            Merged(AsValues(r), updates, false, laterNow, updatesNow) == Ok(r)
  {
    var ex, up := Normalized(existing, existingNow).value, Normalized(updates, updatesNow).value;
    var a := AppendUnseen(KeysOf(ex), up);
    var r := Merged(existing, updates, false, existingNow, updatesNow).value;
    assert r == ex + a;
    MergedIsClean(existing, updates, false, existingNow, updatesNow);
    NormalizedOfClean(r, laterNow);
    AppendUnseenCoversKeys(KeysOf(ex), up);
    KeysOfConcat(ex, a);
    AppendUnseenAllSeen(KeysOf(r), up);
    assert r + [] == r;
  }

  // ---------------------------------------------------------------------
  // A worked example of the merge path
  // ---------------------------------------------------------------------

  /** A stored entry with an id and a capture time. */
  function Entry(id: string, capturedAt: int): Doc {
    map["id" := Str(id), "captured_at" := Num(capturedAt)]
  }

  /** Three stored entries merged with a batch that repeats the second id
      and adds a new one: the repeat is dropped, the new entry is appended,
      and the stored entries are left as they were. */
  lemma MergeExample(now: int)
    ensures var ex := [Entry("e1", 1), Entry("e2", 2), Entry("e3", 3)];
            var up := [Entry("e2", 9), Entry("e4", 9)];
            Merged(AsValues(ex), AsValues(up), false, now, now) == Ok(ex + [Entry("e4", 9)])
  {
    var ex := [Entry("e1", 1), Entry("e2", 2), Entry("e3", 3)];
    var up := [Entry("e2", 9), Entry("e4", 9)];
    EntryIsClean("e1", 1);
    EntryIsClean("e2", 2);
    EntryIsClean("e3", 3);
    EntryIsClean("e2", 9);
    EntryIsClean("e4", 9);
    NormalizedOfClean(ex, now);
    NormalizedOfClean(up, now);
    AppendExample();
  }

  /** The append step of the example: the repeated id is skipped. */
  lemma AppendExample()
    ensures AppendUnseen(KeysOf([Entry("e1", 1), Entry("e2", 2), Entry("e3", 3)]), [Entry("e2", 9), Entry("e4", 9)])
         == [Entry("e4", 9)]
  {
    var ex := [Entry("e1", 1), Entry("e2", 2), Entry("e3", 3)];
    var up := [Entry("e2", 9), Entry("e4", 9)];
    EntryIsClean("e1", 1);
    EntryIsClean("e2", 2);
    EntryIsClean("e3", 3);
    EntryIsClean("e2", 9);
    EntryIsClean("e4", 9);
    var seen := KeysOf(ex);
    assert IdKey("e2") in seen by {
      assert EventKeyOf(ex[1]) == IdKey("e2");
    }
    assert IdKey("e4") !in seen by {
      forall k | k in seen
        ensures k != IdKey("e4")
      {
        var i :| 0 <= i < |ex| && k == EventKeyOf(ex[i]);
        assert i == 0 || i == 1 || i == 2;
      }
    }
    assert up[1..] == [Entry("e4", 9)] && up[1..][1..] == [];
  }

  function IdKey(id: string): EventKey {
    EventKey(id, "", "", "", "")
  }

  lemma EntryIsClean(id: string, capturedAt: int)
    requires id != []
    ensures IsClean(Entry(id, capturedAt))
    ensures EventKeyOf(Entry(id, capturedAt)) == IdKey(id)
  {
    assert Get(Entry(id, capturedAt), "id") == Str(id);
  }
}
