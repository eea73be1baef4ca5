/** The structural validators of the service's Pydantic models, the field
    defaults the core relies on, and the record check that stands for
    constructing a `UserMemory` from a dumped document. */
module Models {
  import opened Values

  // ---------------------------------------------------------------------
  // WeeklyPlanningSettings.planning_time_local
  // ---------------------------------------------------------------------

  /** `re.fullmatch(r"\d{2}:\d{2}", s)`, with `\d` read as an ASCII digit. */
  predicate IsClockShape(s: string) {
    |s| == 5 && IsDigit(s[0]) && IsDigit(s[1]) && s[2] == ':' && IsDigit(s[3]) && IsDigit(s[4])
  }

  /** `int(a + b)` for two digit characters. */
  function TwoDigitValue(a: char, b: char): (n: nat)
    requires IsDigit(a) && IsDigit(b)
    ensures n < 100
  {
    10 * DigitValue(a) + DigitValue(b)
  }

  /** The two rejections of the field validator. */
  const ShapeMessage := "planning_time_local must be HH:MM in 24-hour time."
  const RangeMessage := "planning_time_local must represent a valid time of day."

  /** The field validator: None passes; otherwise the text must have the
      HH:MM shape and name an hour 0-23 and a minute 0-59. */
  function ValidatePlanningTime(value: Option<string>): (r: Result<Option<string>, string>)
    ensures r.Ok? ==> r.value == value
    ensures value.None? ==> r.Ok?
    ensures value.Some? && !IsClockShape(value.value) ==> r == Err(ShapeMessage)
    ensures value.Some? && IsClockShape(value.value) && r.Err? ==> r.error == RangeMessage
  {
    match value
    case None => Ok(value)
    case Some(s) =>
      if !IsClockShape(s) then
        Err(ShapeMessage)
      else
        var hours := TwoDigitValue(s[0], s[1]);
        var minutes := TwoDigitValue(s[3], s[4]);
        if !(0 <= hours <= 23 && 0 <= minutes <= 59) then
          Err(RangeMessage)
        else
          Ok(value)
  }

  /** The zero-padded 24-hour rendering of a time of day. */
  function ClockTime(hours: nat, minutes: nat): string
    requires hours < 100 && minutes < 100
  {
    [DigitChar(hours / 10), DigitChar(hours % 10), ':', DigitChar(minutes / 10), DigitChar(minutes % 10)]
  }

  /** An accepted text is the rendering of the hour and minute it names. */
  lemma AcceptedIsClockTime(s: string) returns (h: nat, m: nat)
    requires ValidatePlanningTime(Some(s)).Ok?
    ensures h < 24 && m < 60 && s == ClockTime(h, m)
  {
    h, m := TwoDigitValue(s[0], s[1]), TwoDigitValue(s[3], s[4]);
    assert h / 10 == DigitValue(s[0]) && h % 10 == DigitValue(s[1]);
    assert m / 10 == DigitValue(s[3]) && m % 10 == DigitValue(s[4]);
    DigitCharOfValue(s[0]);
    DigitCharOfValue(s[1]);
    DigitCharOfValue(s[3]);
    DigitCharOfValue(s[4]);
  }

  /** Every time of day, zero-padded, is accepted. */
  lemma ClockTimeAccepted(h: nat, m: nat)
    requires h < 24 && m < 60
    ensures ValidatePlanningTime(Some(ClockTime(h, m))).Ok?
  {
    var s := ClockTime(h, m);
    assert IsClockShape(s);
    assert h == 10 * (h / 10) + h % 10;
    assert m == 10 * (m / 10) + m % 10;
    assert TwoDigitValue(s[0], s[1]) == h;
    assert TwoDigitValue(s[3], s[4]) == m;
  }

  /** The validator accepts exactly the renderings of the 1440 times of day. */
  lemma PlanningTimeAcceptsExactlyClockTimes(s: string)
    ensures ValidatePlanningTime(Some(s)).Ok?
        <==> exists h: nat, m: nat :: h < 24 && m < 60 && s == ClockTime(h, m)
  {
    if ValidatePlanningTime(Some(s)).Ok? {
      var h, m := AcceptedIsClockTime(s);
    }
    if exists h: nat, m: nat :: h < 24 && m < 60 && s == ClockTime(h, m) {
      var h: nat, m: nat :| h < 24 && m < 60 && s == ClockTime(h, m);
      ClockTimeAccepted(h, m);
    }
  }

  // ---------------------------------------------------------------------
  // Timeblock
  // ---------------------------------------------------------------------

  datatype TimeblockType = Focus | MeetingBlock | Break | Admin

  /** A calendar block; `startAt` and `endAt` are timestamps. */
  datatype Timeblock = Timeblock(id: Option<string>, labelText: string, blockType: TimeblockType, startAt: int, endAt: int)

  /** The model validator: a block must end strictly after it starts. */
  function ValidateTimeOrder(t: Timeblock): (r: Result<Timeblock, string>)
    ensures r.Ok? <==> t.startAt < t.endAt
    ensures r.Ok? ==> r.value == t
  {
    if t.endAt <= t.startAt then Err("end_at must be after start_at.") else Ok(t)
  }

  // ---------------------------------------------------------------------
  // Event
  // ---------------------------------------------------------------------

  datatype EventType = Meeting | Snapshot | Note

  /** `Event.type` when the entry does not give one. */
  const DefaultEventType: EventType := Note

  predicate IsSlugChar(c: char) {
    'a' <= c <= 'z' || IsDigit(c) || c == '-'
  }

  /** A non-empty run of `[a-z0-9-]`. */
  predicate IsSlug(s: string) {
    s != [] && forall i :: 0 <= i < |s| ==> IsSlugChar(s[i])
  }

  /** `re.fullmatch(r"meeting-\d{8}-[a-z0-9-]+", id)`, with `\d` read as an ASCII digit. */
  predicate IsMeetingId(id: string) {
    && |id| >= 18
    && id[..8] == "meeting-"
    && AllDigits(id[8..16])
    && id[16] == '-'
    && IsSlug(id[17..])
  }

  /** `re.fullmatch(r"snapshot-\d{8}-\d{6}", id)`, with `\d` read as an ASCII digit. */
  predicate IsSnapshotId(id: string) {
    && |id| == 24
    && id[..9] == "snapshot-"
    && AllDigits(id[9..17])
    && id[17] == '-'
    && AllDigits(id[18..])
  }

  /** The model validator: no id passes; a meeting or snapshot id must match
      its pattern; a note's id is not checked. */
  function ValidateEventId(id: Option<string>, eventType: EventType): (r: Result<Option<string>, string>)
    ensures r.Ok? ==> r.value == id
    ensures id.None? ==> r.Ok?
    ensures eventType == Note ==> r.Ok?
    ensures id.Some? && eventType == Meeting ==> (r.Ok? <==> IsMeetingId(id.value))
    ensures id.Some? && eventType == Snapshot ==> (r.Ok? <==> IsSnapshotId(id.value))
  {
    if id.None? then
      Ok(id)
    else if eventType == Meeting && !IsMeetingId(id.value) then
      Err("Meeting ids must use meeting-YYYYMMDD-slug format.")
    else if eventType == Snapshot && !IsSnapshotId(id.value) then
      Err("Snapshot ids must use snapshot-YYYYMMDD-HHMMSS format.")
    else
      Ok(id)
  }

  function MeetingId(date: string, slug: string): string {
    "meeting-" + date + "-" + slug
  }

  function SnapshotId(date: string, time: string): string {
    "snapshot-" + date + "-" + time
  }

  /** A meeting id is exactly `meeting-` + eight digits + `-` + a slug. */
  lemma MeetingIdFormat(id: string)
    ensures IsMeetingId(id)
        <==> exists date, slug :: |date| == 8 && AllDigits(date) && IsSlug(slug) && id == MeetingId(date, slug)
  {
    if IsMeetingId(id) {
      var date, slug := id[8..16], id[17..];
      assert id == MeetingId(date, slug);
    }
    if exists date, slug :: |date| == 8 && AllDigits(date) && IsSlug(slug) && id == MeetingId(date, slug) {
      var date, slug :| |date| == 8 && AllDigits(date) && IsSlug(slug) && id == MeetingId(date, slug);
      assert id[..8] == "meeting-";
      assert id[8..16] == date;
      assert id[17..] == slug;
    }
  }

  /** A snapshot id is exactly `snapshot-` + eight digits + `-` + six digits. */
  lemma SnapshotIdFormat(id: string)
    ensures IsSnapshotId(id)
        <==> exists date, time :: |date| == 8 && AllDigits(date) && |time| == 6 && AllDigits(time)
                                 && id == SnapshotId(date, time)
  {
    if IsSnapshotId(id) {
      var date, time := id[9..17], id[18..];
      assert id == SnapshotId(date, time);
    }
    if exists date, time :: |date| == 8 && AllDigits(date) && |time| == 6 && AllDigits(time) && id == SnapshotId(date, time) {
      var date, time :| |date| == 8 && AllDigits(date) && |time| == 6 && AllDigits(time) && id == SnapshotId(date, time);
      assert id[..9] == "snapshot-";
      assert id[9..17] == date;
      assert id[18..] == time;
    }
  }

  // ---------------------------------------------------------------------
  // Validating a dumped record (constructing UserMemory)
  // ---------------------------------------------------------------------

  /** The event type Pydantic reads from an event dict: a missing `type`
      takes the default, an unknown one is rejected. */
  function EventTypeOf(e: Doc): (t: Option<EventType>)
    ensures "type" !in e ==> t == Some(DefaultEventType)
  {
    if "type" !in e then Some(DefaultEventType)
    else match e["type"]
      case Str(s) =>
        if s == "meeting" then Some(Meeting)
        else if s == "snapshot" then Some(Snapshot)
        else if s == "note" then Some(Note)
        else None
      case _ => None
  }

  /** The optional string id of an event dict; None when it is not a string. */
  function EventIdOf(e: Doc): Option<Option<string>> {
    match Get(e, "id")
    case Null => Some(None)
    case Str(s) => Some(Some(s))
    case _ => None
  }

  predicate ValidEvent(e: Doc) {
    && EventTypeOf(e).Some?
    && EventIdOf(e).Some?
    && ValidateEventId(EventIdOf(e).value, EventTypeOf(e).value).Ok?
  }

  /** An event dict that names no type is a note, so any string id passes. */
  lemma UntypedEventAcceptsAnyId(e: Doc, id: string)
    requires "type" !in e && Get(e, "id") == Str(id)
    ensures ValidEvent(e)
  {
  }

  function TimeblockTypeOf(f: Doc): Option<TimeblockType> {
    if "block_type" !in f then Some(Focus)
    else match f["block_type"]
      case Str(s) =>
        if s == "focus" then Some(Focus)
        else if s == "meeting" then Some(MeetingBlock)
        else if s == "break" then Some(Break)
        else if s == "admin" then Some(Admin)
        else None
      case _ => None
  }

  /** Reads a dumped timeblock; None when a required field is missing or
      has the wrong type. */
  function TimeblockOf(b: Value): Option<Timeblock> {
    if !b.Obj? then None
    else
      var f := b.fields;
      var id := Get(f, "id");
      if Get(f, "label").Str? && Get(f, "start_at").Num? && Get(f, "end_at").Num?
         && (id.Null? || id.Str?) && TimeblockTypeOf(f).Some?
      then Some(Timeblock(if id.Str? then Some(id.s) else None, Get(f, "label").s,
                          TimeblockTypeOf(f).value, Get(f, "start_at").n, Get(f, "end_at").n))
      else None
  }

  predicate ValidTimeblock(b: Value) {
    TimeblockOf(b).Some? && ValidateTimeOrder(TimeblockOf(b).value).Ok?
  }

  predicate ValidWeeklyPlanning(v: Value) {
    && v.Obj?
    && match Get(v.fields, "planning_time_local")
       case Null => true
       case Str(s) => ValidatePlanningTime(Some(s)).Ok?
       case _ => false
  }

  predicate ValidProfile(v: Value) {
    v.Obj? && ("weekly_planning" in v.fields ==> ValidWeeklyPlanning(v.fields["weekly_planning"]))
  }

  predicate ValidWorkingMemory(v: Value) {
    && v.Obj?
    && ("timeblocks" in v.fields ==>
          && v.fields["timeblocks"].Arr?
          && forall b :: b in v.fields["timeblocks"].items ==> ValidTimeblock(b))
  }

  predicate ValidEvents(v: Value) {
    v.Arr? && forall e :: e in v.items ==> e.Obj? && ValidEvent(e.fields)
  }

  /** A request body's `events: List[Event]`: every entry is an object that
      constructs an Event. FastAPI refuses any other body with a validation
      error before the route runs. */
  predicate ValidBatch(events: seq<Value>) {
    ValidEvents(Arr(events))
  }

  /** Each of the three sections that is present constructs its model:
      Profile (with the planning-time validator), WorkingMemory (with the
      time-block order validator) and LongTermKnowledge. */
  predicate ValidSections(d: Doc) {
    && ("profile" in d ==> ValidProfile(d["profile"]))
    && ("working_memory" in d ==> ValidWorkingMemory(d["working_memory"]))
    && ("long_term_knowledge" in d ==> d["long_term_knowledge"].Obj?)
  }

  /** `UserMemory(**d)` succeeds: the user id is a string and every
      sub-document that is present passes the validators above. A missing
      sub-document takes its (valid) default. */
  predicate ValidRecord(d: Doc) {
    && Get(d, "user_id").Str?
    && ValidSections(d)
    && ("events" in d ==> ValidEvents(d["events"]))
  }

  // ---------------------------------------------------------------------
  // Request payloads
  // ---------------------------------------------------------------------

  /** A create payload dumped with exclude_none: `fields` holds the
      sub-documents given, `events` the timeline entries (empty by default). */
  datatype MemoryCreate = MemoryCreate(fields: Doc, events: seq<Value> := [])

  /** Parsing a create body: FastAPI constructs MemoryCreate, running every
      section's validators and every event's id check, before the route
      runs; a body that fails is refused with a validation error. */
  predicate ValidCreateBody(payload: MemoryCreate) {
    ValidSections(payload.fields) && ValidBatch(payload.events)
  }

  /** A patch payload dumped with exclude_unset: `fields` holds the partial
      sub-documents, `events` the entries if the field was set, and
      `eventsOverwrite` the flag (false by default). */
  datatype MemoryPatch = MemoryPatch(fields: Doc := map[], events: Option<seq<Value>> := None,
                                     eventsOverwrite: bool := false)

  /** A patch that does not mention the flag merges rather than replaces. */
  lemma PatchDefaults(fields: Doc, events: Option<seq<Value>>)
    ensures !MemoryPatch(fields, events).eventsOverwrite
    ensures MemoryPatch(fields).events.None?
  {
  }
}
