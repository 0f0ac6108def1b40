/**
 * The calendar side of the calendar blocker: the request body that
 * `create_calendar_event` sends for one event, the tally `block_calendar`
 * keeps over the events read from the workbook, and the exit status of
 * `main`.
 *
 * The calendar service is a function from (position of the event in the
 * batch, request body) to its reply; authentication is a boolean; the
 * files on disk are a map from path to the worksheet they load as.
 */
module CalendarSync {
  import opened Wrappers
  import opened PyText
  import opened CalendarParsing

  const TIME_ZONE := "America/New_York"
  const TRANSPARENCY := "opaque"

  /** Colour names to Google Calendar colour ids; "none" maps to no colour. */
  const COLOR_MAP: seq<(string, Option<string>)> := [
    ("red", Some("11")), ("orange", Some("17")), ("yellow", Some("5")), ("green", Some("2")),
    ("blue", Some("1")), ("purple", Some("3")), ("gray", Some("8")), ("none", None)]

  /** Recurrence names to RRULE lines (RFC 5545, section 3.8.5.3). */
  const RECURRING_MAP: seq<(string, Option<string>)> := [
    ("daily", Some("RRULE:FREQ=DAILY")), ("weekly", Some("RRULE:FREQ=WEEKLY")),
    ("monthly", Some("RRULE:FREQ=MONTHLY")), ("none", None), ("", None)]

  /** `table.get(key, None)` on a table of distinct keys. */
  function Lookup(table: seq<(string, Option<string>)>, key: string): Option<string> {
    if |table| == 0 then None
    else if table[0].0 == key then table[0].1
    else Lookup(table[1..], key)
  }

  /** `COLOR_MAP.get(key, None)`. */
  function ColorId(key: string): Option<string> {
    Lookup(COLOR_MAP, key)
  }

  /** The colour id for a `color` cell: looked up by `str(value).lower()`. */
  function CellColor(c: Cell): Option<string> {
    ColorId(Lower(CellText(c)))
  }

  /** `RECURRING_MAP` read as the code reads it: a rule only for a non-empty key that maps to a non-empty rule. */
  function RuleFor(key: string): Option<string> {
    var rule := Lookup(RECURRING_MAP, key);
    if key != "" && rule.Some? && rule.value != "" then
      rule
    else
      None
  }

  /** The rule added for a `recurring` text, normalised by `lower().strip()`. */
  function Recurrence(s: string): Option<string> {
    RuleFor(Strip(Lower(s)))
  }

  lemma LookupStep(table: seq<(string, Option<string>)>, key: string)
    requires |table| > 0
    ensures Lookup(table, key) == if table[0].0 == key then table[0].1 else Lookup(table[1..], key)
  {
  }

  /** `COLOR_MAP` entry by entry. */
  lemma ColorTable(key: string)
    ensures ColorId(key) ==
              if key == "red" then Some("11") else if key == "orange" then Some("17")
              else if key == "yellow" then Some("5") else if key == "green" then Some("2")
              else if key == "blue" then Some("1") else if key == "purple" then Some("3")
              else if key == "gray" then Some("8") else None
  {
    var t := COLOR_MAP;
    LookupStep(t, key);
    LookupStep(t[1..], key);
    LookupStep(t[2..], key);
    LookupStep(t[3..], key);
    LookupStep(t[4..], key);
    LookupStep(t[5..], key);
    LookupStep(t[6..], key);
    LookupStep(t[7..], key);
    assert t[1..][1..] == t[2..];
    assert t[2..][1..] == t[3..];
    assert t[3..][1..] == t[4..];
    assert t[4..][1..] == t[5..];
    assert t[5..][1..] == t[6..];
    assert t[6..][1..] == t[7..];
    assert t[7..][1..] == [];
  }

  /** Exactly the seven colour names carry a colour. */
  lemma ColorNames(key: string)
    ensures ColorId(key).Some? <==> key in {"red", "orange", "yellow", "green", "blue", "purple", "gray"}
  {
    ColorTable(key);
  }

  /** No two colour names share an id. */
  lemma ColorIdsDistinct(a: string, b: string)
    requires ColorId(a).Some? && ColorId(a) == ColorId(b)
    ensures a == b
  {
    ColorTable(a);
    ColorTable(b);
  }

  /** Colour names are matched without regard to case. */
  lemma ColorIgnoresCase(s: string)
    ensures CellColor(Text(s)) == CellColor(Text(Lower(s)))
  {
    LowerIsLowered(s);
  }

  /** A missing or empty colour cell gives no colour. */
  lemma ColorOfBlankCell()
    ensures CellColor(Empty) == None && CellColor(Text("")) == None
  {
    assert Lower("None") == "none";
  }

  /** `RECURRING_MAP` entry by entry, as the code reads it. */
  lemma RuleTable(key: string)
    ensures RuleFor(key) ==
              if key == "daily" then Some("RRULE:FREQ=DAILY") else if key == "weekly" then Some("RRULE:FREQ=WEEKLY")
              else if key == "monthly" then Some("RRULE:FREQ=MONTHLY") else None
  {
    var t := RECURRING_MAP;
    LookupStep(t, key);
    LookupStep(t[1..], key);
    LookupStep(t[2..], key);
    LookupStep(t[3..], key);
    LookupStep(t[4..], key);
    assert t[1..][1..] == t[2..];
    assert t[2..][1..] == t[3..];
    assert t[3..][1..] == t[4..];
    assert t[4..][1..] == [];
  }

  /** Exactly the three recurrence names give a rule, and each rule is an RRULE line. */
  lemma RuleNames(key: string)
    ensures RuleFor(key).Some? <==> key in {"daily", "weekly", "monthly"}
    ensures RuleFor(key).Some? ==> |RuleFor(key).value| > 11 && RuleFor(key).value[..11] == "RRULE:FREQ="
  {
    RuleTable(key);
  }

  /** A `recurring` text adds a rule exactly when, lower-cased and stripped, it names one of the three recurrences. */
  lemma RecurrenceNames(s: string)
    ensures Recurrence(s).Some? <==> Strip(Lower(s)) in {"daily", "weekly", "monthly"}
    ensures Recurrence(s).Some? ==> |Recurrence(s).value| > 11 && Recurrence(s).value[..11] == "RRULE:FREQ="
  {
    RuleNames(Strip(Lower(s)));
  }

  /** Normalising the recurrence text first changes nothing. */
  lemma RecurrenceNormalised(s: string)
    ensures Recurrence(Strip(Lower(s))) == Recurrence(s)
  {
    LowerIsLowered(s);
    StripKeepsLowered(Lower(s));
    LowerOfLowered(Strip(Lower(s)));
    StripIdempotent(Lower(s));
  }

  // ---------------------------------------------------------------------------
  // The request body
  // ---------------------------------------------------------------------------

  datatype When = When(dateTime: string, timeZone: string)

  /** The event body sent to the calendar; `recurrence` is present as a one-rule list or absent. */
  datatype Payload = Payload(
    summary: Cell, description: Cell, start: When, end: When,
    colorId: Option<string>, transparency: string, recurrence: Option<string>)

  /** `event_data.get(key, default)`. */
  function GetOr(fields: Fields, key: string, default: Cell): Cell {
    if key in fields then fields[key] else default
  }

  /** `f"{date}T{time}:00"`. */
  function Stamp(date: Cell, time: Cell): string {
    CellText(date) + "T" + CellText(time) + ":00"
  }

  /** The `recurring` value, `''` when the column is absent. */
  function RecurringCell(fields: Fields): Cell {
    GetOr(fields, "recurring", Text(""))
  }

  /**
   * The body `create_calendar_event` builds, or None where building it raises:
   * a KeyError on `date`, `start_time` or `end_time`, or an AttributeError
   * when the `recurring` value is not text.
   */
  function BuildPayload(fields: Fields): (r: Option<Payload>)
    ensures r.Some? <==> "date" in fields && "start_time" in fields && "end_time" in fields && RecurringCell(fields).Text?
  {
    if "date" !in fields || "start_time" !in fields || "end_time" !in fields then
      None
    else
      match RecurringCell(fields)
      case Text(s) =>
        Some(Payload(
          GetOr(fields, "title", Text(DEFAULT_TITLE)),
          GetOr(fields, "description", Text("")),
          When(Stamp(fields["date"], fields["start_time"]), TIME_ZONE),
          When(Stamp(fields["date"], fields["end_time"]), TIME_ZONE),
          CellColor(GetOr(fields, "color", Text(""))),
          TRANSPARENCY,
          Recurrence(s)))
      case _ => None
  }

  lemma StampSlices(x: string, t: string)
    requires |x| == 10 && |t| == 5
    ensures var s := x + "T" + t + ":00";
            |s| == 19 && s[..10] == x && s[10] == 'T' && s[11..16] == t && s[16..] == ":00"
  {
  }

  /** `stamp` is `YYYY-MM-DDTHH:MM:00` whose date part parses as `d` and whose clock part parses as `t`. */
  ghost predicate ReadsBack(stamp: string, d: CalendarDate, t: string) {
    && |stamp| == 19 && stamp[10] == 'T' && stamp[16..] == ":00"
    && ParseDate(stamp[..10]) == Some(d) && ParseTime(stamp[11..16]) == Some(t)
  }

  /** A timestamp built from a validated date and clock reads back as that date and clock. */
  lemma StampReadsBack(d: CalendarDate, t: string)
    requires IsClock(t)
    ensures ReadsBack(Stamp(Day(d), Text(t)), d, t)
  {
    IsoDateRoundTrip(d);
    ParseTimeOfClock(t);
    StampSlices(IsoDate(d), t);
  }

  /** On one date, an earlier clock gives the earlier timestamp. */
  lemma StampOrder(d: CalendarDate, a: string, b: string)
    requires IsClock(a) && IsClock(b) && ClockMinutes(a) < ClockMinutes(b)
    ensures StrLess(Stamp(Day(d), Text(a)), Stamp(Day(d), Text(b)))
  {
    var p := IsoDate(d) + "T";
    assert Stamp(Day(d), Text(a)) == p + (a + ":00");
    assert Stamp(Day(d), Text(b)) == p + (b + ":00");
    ClockOrder(a, b);
    StrLessExtend(a, b, ":00", ":00");
    StrLessCommonPrefix(p, a + ":00", b + ":00");
  }

  /**
   * A validated record whose `recurring` value is text yields a body: its
   * title, both times in New York time, the start strictly before the end,
   * and timestamps that read back as the record's date and clocks.
   */
  lemma RecordPayload(e: Fields)
    requires IsBlockRecord(e) && RecurringCell(e).Text?
    ensures BuildPayload(e).Some?
    ensures var p := BuildPayload(e).value;
            && p.summary == e["title"] && p.transparency == TRANSPARENCY
            && p.start.timeZone == TIME_ZONE && p.end.timeZone == TIME_ZONE
            && ReadsBack(p.start.dateTime, e["date"].date, e["start_time"].s)
            && ReadsBack(p.end.dateTime, e["date"].date, e["end_time"].s)
            && StrLess(p.start.dateTime, p.end.dateTime)
  {
    var d, a, b := e["date"].date, e["start_time"].s, e["end_time"].s;
    StampReadsBack(d, a);
    StampReadsBack(d, b);
    StampOrder(d, a, b);
  }

  /**
   * The rest of that body: the record's description (empty when absent), the
   * colour id of its `color` cell, and a recurrence rule exactly when
   * `recurring` names one of the three frequencies.
   */
  lemma RecordPayloadFields(e: Fields)
    requires IsBlockRecord(e) && RecurringCell(e).Text?
    ensures BuildPayload(e).Some?
    ensures var p := BuildPayload(e).value;
            && p.description == GetOr(e, "description", Text(""))
            && p.colorId == CellColor(GetOr(e, "color", Text("")))
            && p.recurrence == Recurrence(RecurringCell(e).s)
            && (p.recurrence.Some? <==> Strip(Lower(RecurringCell(e).s)) in {"daily", "weekly", "monthly"})
  {
    RecurrenceNames(RecurringCell(e).s);
  }

  // ---------------------------------------------------------------------------
  // Creating events
  // ---------------------------------------------------------------------------

  /** The reply to one insert: the new event's id, or an error raised by the call. */
  datatype Reply = Inserted(id: string) | Raised

  /** The calendar service, by position of the event in the batch. */
  type Client = (nat, Payload) -> Reply

  /**
   * `create_calendar_event`: the id of the created event, or None when the
   * body cannot be built, the insert raises, or the log line after it finds
   * no `title`.
   */
  function CreateEvent(fields: Fields, client: Client, i: nat): (r: Option<string>)
    ensures r.Some? <==>
              && BuildPayload(fields).Some? && client(i, BuildPayload(fields).value).Inserted?
              && "title" in fields
    ensures r.Some? ==> r.value == client(i, BuildPayload(fields).value).id
  {
    match BuildPayload(fields)
    case None => None
    case Some(p) =>
      match client(i, p)
      case Raised => None
      case Inserted(id) => if "title" in fields then Some(id) else None
  }

  /** `block_calendar` counts an event as created when the id it gets back is truthy. */
  predicate Counted(fields: Fields, client: Client, i: nat) {
    var id := CreateEvent(fields, client, i);
    id.Some? && id.value != ""
  }

  /** For a record whose body can be built, success is decided by the calendar's reply alone. */
  lemma RecordCounted(e: Fields, client: Client, i: nat)
    requires IsBlockRecord(e) && RecurringCell(e).Text?
    ensures BuildPayload(e).Some?
    ensures Counted(e, client, i) <==>
              var reply := client(i, BuildPayload(e).value);
              reply.Inserted? && reply.id != ""
  {
  }

  /** The number of true flags. */
  function Tally(flags: seq<bool>): (r: nat)
    ensures r <= |flags|
    decreases |flags|
  {
    if |flags| == 0 then 0
    else Tally(flags[..|flags| - 1]) + (if flags[|flags| - 1] then 1 else 0)
  }

  lemma TallyPrefix(flags: seq<bool>, i: nat)
    requires i < |flags|
    ensures Tally(flags[..i + 1]) == Tally(flags[..i]) + (if flags[i] then 1 else 0)
  {
    assert flags[..i + 1][..i] == flags[..i];
  }

  /** Every flag is set exactly when the tally is the length. */
  lemma {:induction false} TallyAll(flags: seq<bool>)
    ensures Tally(flags) == |flags| <==> forall i :: 0 <= i < |flags| ==> flags[i]
    decreases |flags|
  {
    if |flags| > 0 {
      var n := |flags| - 1;
      TallyAll(flags[..n]);
      assert forall i :: 0 <= i < n ==> flags[..n][i] == flags[i];
    }
  }

  /** No flag is set exactly when the tally is zero. */
  lemma {:induction false} TallyNone(flags: seq<bool>)
    ensures Tally(flags) == 0 <==> forall i :: 0 <= i < |flags| ==> !flags[i]
    decreases |flags|
  {
    if |flags| > 0 {
      var n := |flags| - 1;
      TallyNone(flags[..n]);
      assert forall i :: 0 <= i < n ==> flags[..n][i] == flags[i];
    }
  }

  /** The positions of the set flags. */
  function SetFlags(flags: seq<bool>): set<nat> {
    set i: nat | i < |flags| && flags[i]
  }

  /** The tally is the number of positions whose flag is set. */
  lemma {:induction false} TallyCount(flags: seq<bool>)
    ensures Tally(flags) == |SetFlags(flags)|
    decreases |flags|
  {
    if |flags| > 0 {
      var n := |flags| - 1;
      var front := flags[..n];
      TallyCount(front);
      assert forall i :: 0 <= i < n ==> front[i] == flags[i];
      if flags[n] {
        assert SetFlags(flags) == SetFlags(front) + {n};
      } else {
        assert SetFlags(flags) == SetFlags(front);
      }
    }
  }

  /** Whether each event, at its position in the batch, is counted as created. */
  function Verdicts(events: seq<Fields>, client: Client): (r: seq<bool>)
    ensures |r| == |events|
    ensures forall i :: 0 <= i < |events| ==> r[i] == Counted(events[i], client, i)
  {
    seq(|events|, i requires 0 <= i < |events| => Counted(events[i], client, i))
  }

  /** How many of the events are counted as created. */
  function Successes(events: seq<Fields>, client: Client): nat {
    Tally(Verdicts(events, client))
  }

  /** The events counted as created, by their position in the batch. */
  function CountedAt(events: seq<Fields>, client: Client): set<nat> {
    set i: nat | i < |events| && Counted(events[i], client, i)
  }

  /** The successes are the number of events counted as created. */
  lemma SuccessesCount(events: seq<Fields>, client: Client)
    ensures Successes(events, client) == |CountedAt(events, client)|
  {
    var flags := Verdicts(events, client);
    TallyCount(flags);
    assert SetFlags(flags) == CountedAt(events, client);
  }

  /** Every event is counted exactly when all of them are. */
  lemma SuccessesAll(events: seq<Fields>, client: Client)
    ensures Successes(events, client) == |events| <==>
              forall i :: 0 <= i < |events| ==> Counted(events[i], client, i)
  {
    TallyAll(Verdicts(events, client));
  }

  /** No event is counted exactly when none of them is. */
  lemma SuccessesNone(events: seq<Fields>, client: Client)
    ensures Successes(events, client) == 0 <==>
              forall i :: 0 <= i < |events| ==> !Counted(events[i], client, i)
  {
    TallyNone(Verdicts(events, client));
  }

  // ---------------------------------------------------------------------------
  // block_calendar and main
  // ---------------------------------------------------------------------------

  /** The events read from the workbook; a missing file and a rejected sheet give none. */
  function Events(workbook: Option<Sheet>): seq<Fields> {
    if workbook.None? then []
    else
      match ParseSheet(workbook.value)
      case Ok(events) => events
      case Err(_) => []
  }

  /**
   * `block_calendar`: (created, failed). Any error before the events are read
   * gives (0, 0); an empty list gives (0, 0); a failed authentication counts
   * every event as failed.
   */
  function BlockOutcome(workbook: Option<Sheet>, authenticated: bool, client: Client): (nat, nat) {
    EventsOutcome(Events(workbook), authenticated, client)
  }

  /** (created, failed) once the events are read. */
  function EventsOutcome(events: seq<Fields>, authenticated: bool, client: Client): (nat, nat) {
    if |events| == 0 then (0, 0)
    else if !authenticated then (0, |events|)
    else
      var created := Successes(events, client);
      (created, |events| - created)
  }

  /** Created and failed together account for every event read, and never exceed the data rows. */
  lemma OutcomeAccounts(workbook: Option<Sheet>, authenticated: bool, client: Client)
    ensures BlockOutcome(workbook, authenticated, client).0 + BlockOutcome(workbook, authenticated, client).1 == |Events(workbook)|
    ensures workbook.Some? ==> |Events(workbook)| <= |workbook.value.rows|
    ensures forall e :: e in Events(workbook) ==> IsBlockRecord(e)
  {
  }

  /** A missing file or a sheet without the required columns is reported as nothing done, not as a failure. */
  lemma RejectedSheetIsQuiet(workbook: Option<Sheet>, authenticated: bool, client: Client)
    requires workbook.None? || ParseSheet(workbook.value).Err?
    ensures BlockOutcome(workbook, authenticated, client) == (0, 0)
  {
  }

  /** Without authentication, every event read counts as failed. */
  lemma UnauthenticatedFailsAll(workbook: Option<Sheet>, client: Client)
    ensures BlockOutcome(workbook, false, client) == (0, |Events(workbook)|)
  {
  }

  /** With authentication, the failures are exactly the events not counted. */
  lemma {:induction false} FailuresAreUncounted(workbook: Option<Sheet>, client: Client)
    ensures BlockOutcome(workbook, true, client).1 == 0 <==>
              forall i :: 0 <= i < |Events(workbook)| ==> Counted(Events(workbook)[i], client, i)
  {
    SuccessesAll(Events(workbook), client);
  }

  /** The read at the head of `block_calendar`'s `try`: a missing file or a rejected sheet leaves no events. */
  method ReadEvents(workbook: Option<Sheet>) returns (events: seq<Fields>)
    ensures events == Events(workbook)
  {
    if workbook.None? {
      return [];
    }
    var parsed := ParseExcelFile(workbook.value);
    if parsed.Err? {
      return [];
    }
    return parsed.value;
  }

  /** `block_calendar`: read the events, authenticate, create them. */
  method BlockCalendar(workbook: Option<Sheet>, authenticated: bool, client: Client) returns (successful: nat, failed: nat)
    ensures (successful, failed) == BlockOutcome(workbook, authenticated, client)
  {
    var events := ReadEvents(workbook);
    successful, failed := SyncEvents(events, authenticated, client);
  }

  /** The rest of `block_calendar`'s `try`: nothing to do, the authentication failure, or the insert loop. */
  method SyncEvents(events: seq<Fields>, authenticated: bool, client: Client) returns (successful: nat, failed: nat)
    ensures (successful, failed) == EventsOutcome(events, authenticated, client)
  {
    if |events| == 0 {
      return 0, 0;
    }
    if !authenticated {
      return 0, |events|;
    }
    successful, failed := CreateEvents(events, client);
  }

  /** One insert and the test of its id: True exactly when the event is counted as created. */
  method InsertOne(fields: Fields, client: Client, i: nat) returns (ok: bool)
    ensures ok == Counted(fields, client, i)
  {
    var id := CreateEvent(fields, client, i);
    ok := id.Some? && id.value != "";
  }

  /** The loop of `block_calendar`: one insert per event, tallying the truthy ids. */
  method CreateEvents(events: seq<Fields>, client: Client) returns (successful: nat, failed: nat)
    ensures successful == Successes(events, client) && failed == |events| - successful
  {
    ghost var flags := Verdicts(events, client);
    successful, failed := 0, 0;
    for i := 0 to |events|
      invariant successful == Tally(flags[..i])
      invariant successful + failed == i
    {
      TallyPrefix(flags, i);
      var ok := InsertOne(events[i], client, i);
      if ok {
        successful := successful + 1;
      } else {
        failed := failed + 1;
      }
    }
    assert flags[..|events|] == flags;
  }

  /** `main`: usage error 1; otherwise 0 exactly when `block_calendar` reports no failure. */
  function MainStatus(argv: seq<string>, files: map<string, Sheet>, authenticated: bool, client: Client): int {
    if |argv| < 2 then 1
    else
      var workbook := if argv[1] in files then Some(files[argv[1]]) else None;
      if BlockOutcome(workbook, authenticated, client).1 == 0 then 0 else 1
  }

  /** `main` exits 0 exactly when a path is given and every event read was created (vacuously so when none was read). */
  lemma {:induction false} MainStatusZero(argv: seq<string>, files: map<string, Sheet>, authenticated: bool, client: Client)
    ensures MainStatus(argv, files, authenticated, client) == 0 <==>
              && |argv| >= 2
              && var events := Events(if argv[1] in files then Some(files[argv[1]]) else None);
                 (|events| == 0 || (authenticated && forall i :: 0 <= i < |events| ==> Counted(events[i], client, i)))
    ensures MainStatus(argv, files, authenticated, client) in {0, 1}
  {
    if |argv| >= 2 {
      var workbook := if argv[1] in files then Some(files[argv[1]]) else None;
      SuccessesAll(Events(workbook), client);
    }
  }
}
