# python-pro-labs: calendar blocker, file organizer and scheduler, in Dafny

This project models three scripts of the repository and proves properties of them.

- **Calendar blocker** (`src/calendar_blocker/calendar_blocker.py`) reads a worksheet of time blocks and creates one busy event per valid row.
  - `parse_excel_file` normalises the header row (`lower().strip()`), raises on the first missing required column, turns each data row into a header-keyed dictionary, skips rows without a date, and keeps the rows `validate_event` accepts.
  - `validate_event` defaults the title, replaces the date by a parsed date, and writes `start_time`/`end_time` as zero-padded `HH:MM` when the start is strictly earlier.
  - `create_calendar_event` builds the request body (colour id, RRULE line of RFC 5545 section 3.8.5.3, New York time zone, opaque transparency) and sends it.
  - `block_calendar` tallies (created, failed); `main` maps that to an exit status.
- **File organizer** (`src/file_organizer.py`) sorts the top-level files of a directory into category folders.
  - `get_file_category` looks up the lower-cased extension in `FILE_CATEGORIES`; unknown extensions go to `Other`.
  - `organize_files` skips directories and hidden names, counts names without extension as skipped, counts each category in `stats`, creates the folder when nothing of that name exists, renames on a conflict to the least free `name_N.ext`, and moves the file.
- **Scheduler** (`src/file_organizer/scheduler.py`): the job `schedule_organizer` registers for a frequency and a time text, and the arguments `main` passes it.

Modules (one file each):

- `Wrappers`: Option and Result.
- `PyText`: the ASCII behaviour of the Python `str` and `int` operations the scripts use: `lower`, `strip`, `split(sep)`, `split()`, `isdigit`, `int()`, `str()` of an int, and `<` on strings.
- `CalendarParsing`: dates, `parse_time`, `validate_event` as the class `EventRow` whose `fields` the method rewrites in place, headers, rows, `parse_excel_file`.
- `CalendarSync`: the lookup tables, the request body, `create_calendar_event`, `block_calendar`, `main`.
- `FileOrganizer`: categories, `os.path.splitext`, free names on conflict, the `organize_files` loop, `main`.
- `Scheduler`: `schedule_organizer`'s decision and `main`'s argument handling.

The loops of the source are methods with loop invariants; each is proved equal to a function, and the lemmas are stated about those functions:

- the header loop, the required-column loop, the row loop and the cell loop of `parse_excel_file`;
- the insert loop of `block_calendar`;
- the item loop of `organize_files` and its conflict `while` loop.

The outside world is given as parameters:

- the worksheet is a value (`Sheet`), and the files on disk are a map from path to sheet;
- authentication is a boolean, and the calendar service is a function from (position in the batch, request body) to a reply;
- the directory is a value (`Disk`: top-level files, and sub-directories with their contents);
- `os.listdir` is an optional listing (absent for PermissionError);
- the outcomes of `os.makedirs` and `shutil.move` are predicates on the item's position.

Behaviour of the code worth noting:

- A missing required column makes `parse_excel_file` raise inside `block_calendar`'s `try`. The error is caught there, and the result is (0, 0) because `events` is not yet bound. So `main` exits 0; it is not a fatal error (`RejectedSheetIsQuiet`, `MainStatusZero`).
- A failed authentication is caught the same way. The result is (0, number of events), so `main` exits 1 (`UnauthenticatedFailsAll`).
- Rows dropped by validation are not counted as failures, so they do not make `main` exit 1.
- An unknown colour name gives no colour id, and an unknown recurrence word gives no rule. Neither is rejected.

## Model

| member | source | states |
|---|---|---|
| CalendarParsing.ParseDate | src/calendar_blocker/calendar_blocker.py:272-289 | a date is accepted only in the `YYYY-MM-DD` or `MM/DD/YYYY` layout and only if it is a real calendar date; an accepted date prints as the ISO form of the same fields |
| CalendarParsing.IsoDateRoundTrip | src/calendar_blocker/calendar_blocker.py:243-245 | every date prints as ISO text that parses back to the same date |
| CalendarParsing.UsDateRoundTrip | src/calendar_blocker/calendar_blocker.py:272-289 | every date written as `MM/DD/YYYY` is accepted and parses to the same date |
| CalendarParsing.ParseTime | src/calendar_blocker/calendar_blocker.py:292-318 | every result is a zero-padded 24-hour `HH:MM` with hour < 24 and minute < 60 |
| CalendarParsing.ClockFacts | src/calendar_blocker/calendar_blocker.py:316 | printing an hour and a minute in range gives a clock reading whose hour and minute read back as those numbers |
| CalendarParsing.ParseTimeAccepts | src/calendar_blocker/calendar_blocker.py:305-316 | an accepted text has exactly one `:`, and `int()` of its stripped sides gives the hour and minute produced |
| CalendarParsing.ParseTimeOfReading | src/calendar_blocker/calendar_blocker.py:305-316 | when both sides read as integers, the text is accepted exactly when they are in range, and the result is their padded form |
| CalendarParsing.ParseTimeOfPieces | src/calendar_blocker/calendar_blocker.py:306-316 | the same, for a text built as two colon-free pieces around one `:` |
| CalendarParsing.ClockPieces | src/calendar_blocker/calendar_blocker.py:316 | a clock reading is its two digit pairs around a `:`, and printing its hour and minute gives it back |
| CalendarParsing.ParseTimeOfClock | src/calendar_blocker/calendar_blocker.py:305-316 | a canonical `HH:MM` parses to itself |
| CalendarParsing.ParseTimeIdempotent | src/calendar_blocker/calendar_blocker.py:292-318 | parsing a result again gives the same result |
| CalendarParsing.ParseTimePadsSingleDigits | src/calendar_blocker/calendar_blocker.py:316 | one-digit hour and minute are zero-padded (`9:5` becomes `09:05`) |
| CalendarParsing.ParseTimeRefusesSeconds | src/calendar_blocker/calendar_blocker.py:306-308 | any text with two colons, such as `10:00:00`, is refused |
| CalendarParsing.ClockOrder | src/calendar_blocker/calendar_blocker.py:255-257 | Python string order on two clock readings agrees with their order as times of day, in both directions |
| CalendarParsing.Titled | src/calendar_blocker/calendar_blocker.py:239-240 | a truthy title is kept and the row left as it is; an empty or missing one becomes `Calendar Block`; every other key keeps its value, and no key but `title` is added |
| CalendarParsing.CheckParsed | src/calendar_blocker/calendar_blocker.py:239-265 | once the date and times are parsed, the row is accepted exactly when all three parsed and the start is earlier; an accepted row is a block record |
| CalendarParsing.CheckParsedWrites | src/calendar_blocker/calendar_blocker.py:240-260 | an accepted row holds the parsed date, the two parsed times and the defaulted title |
| CalendarParsing.CheckParsedFrame | src/calendar_blocker/calendar_blocker.py:239-260 | keys other than the four written are neither changed, added nor removed |
| CalendarParsing.CheckEvent | src/calendar_blocker/calendar_blocker.py:214-269 | `validate_event` returns True exactly for a row with truthy date, start and end cells, a parseable date, and two parseable times that end after they start; an accepted row is a block record |
| CalendarParsing.CheckEventWrites | src/calendar_blocker/calendar_blocker.py:235-260 | an accepted row carries the parsed date, both canonical times, and its own title or `Calendar Block` |
| CalendarParsing.CheckEventFrame | src/calendar_blocker/calendar_blocker.py:233-269 | whatever the outcome, every key except `title`, `date`, `start_time` and `end_time` is left as it was |
| CalendarParsing.EventRow.Validate | src/calendar_blocker/calendar_blocker.py:214-269 | the in-place update of the row leaves exactly the dictionary `CheckEvent` describes, and returns its verdict |
| CalendarParsing.CellDate | src/calendar_blocker/calendar_blocker.py:243-245 | the date `parse_date` makes of `str(cell).strip()`; its properties are those of `ParseDate` and the two round trips |
| CalendarParsing.CellClock | src/calendar_blocker/calendar_blocker.py:252-253 | the clock `parse_time` makes of `str(cell).strip()`; its properties are those of `ParseTime` and the lemmas after it |
| CalendarParsing.EventRow.DefaultTitle | src/calendar_blocker/calendar_blocker.py:239-240 | the in-place title step leaves the dictionary `Titled` describes |
| CalendarParsing.EventRow.ValidateFilled | src/calendar_blocker/calendar_blocker.py:239-265 | the steps after the required-cell check produce what `CheckParsed` describes |
| CalendarParsing.HeaderKeyIsColumnKey | src/calendar_blocker/calendar_blocker.py:177 | a normalised header is lower-case with no surrounding space |
| CalendarParsing.FirstNonText | src/calendar_blocker/calendar_blocker.py:174-177 | None exactly when every truthy header cell is text; otherwise the first truthy cell that is not, where `.lower()` raises |
| CalendarParsing.TextKeysStep | src/calendar_blocker/calendar_blocker.py:175-177 | reading one more header cell appends that cell's key, if it has one |
| CalendarParsing.TextKeysAreKeys | src/calendar_blocker/calendar_blocker.py:175-177 | the keys of a row are normalised column keys, at most one per cell |
| CalendarParsing.TextKeysMembers | src/calendar_blocker/calendar_blocker.py:175-177 | a key is collected exactly when some truthy text cell of the row normalises to it |
| CalendarParsing.HeaderKeys | src/calendar_blocker/calendar_blocker.py:174-177 | the header row yields the keys of its truthy text cells in row order, normalised, at most one per cell; it fails exactly when a truthy header cell is not text, and names the first such cell |
| CalendarParsing.HeaderKeysMembers | src/calendar_blocker/calendar_blocker.py:174-177 | a column is among the headers exactly when some truthy text header cell normalises to it |
| CalendarParsing.ExtractHeaders | src/calendar_blocker/calendar_blocker.py:174-177 | the header loop computes `HeaderKeys`: it collects the key of each truthy text cell in order, and stops at the first truthy cell that is not text |
| CalendarParsing.FirstMissing | src/calendar_blocker/calendar_blocker.py:182-186 | None exactly when every required column is present; otherwise the first absent one in list order |
| CalendarParsing.CheckRequired | src/calendar_blocker/calendar_blocker.py:182-186 | the column loop reports `FirstMissing` |
| CalendarParsing.RowFields | src/calendar_blocker/calendar_blocker.py:192-197 | the dictionary of one data row, each header position mapped to its cell; its meaning is stated by `RowFieldsKeys`, `RowFieldsValue` and `RowFieldsIgnoresExtraCells` |
| CalendarParsing.BuildEvent | src/calendar_blocker/calendar_blocker.py:192-197 | the cell loop computes `RowFields` |
| CalendarParsing.RowFieldsKeys | src/calendar_blocker/calendar_blocker.py:193-197 | the keys of a row are exactly the headers of the positions the row reaches |
| CalendarParsing.RowFieldsValue | src/calendar_blocker/calendar_blocker.py:193-197 | a key holds the cell at the last position with that header: a repeated header is overwritten |
| CalendarParsing.RowFieldsIgnoresExtraCells | src/calendar_blocker/calendar_blocker.py:194 | cells beyond the last header are dropped |
| CalendarParsing.KeptRow | src/calendar_blocker/calendar_blocker.py:199-205 | a row without a truthy date is skipped; otherwise it is kept, as validated, when `validate_event` accepts it |
| CalendarParsing.KeptRowMeaning | src/calendar_blocker/calendar_blocker.py:199-205 | a row is kept exactly when `validate_event` accepts its dictionary, and then as the dictionary `validate_event` leaves; the date check before it drops nothing the validation would keep |
| CalendarParsing.RowEvents | src/calendar_blocker/calendar_blocker.py:192-205 | a row contributes at most one event |
| CalendarParsing.KeptRowEvents | src/calendar_blocker/calendar_blocker.py:199-205 | the event a row contributes is its kept dictionary |
| CalendarParsing.ParseRows | src/calendar_blocker/calendar_blocker.py:189-208 | the events of the data rows, row by row and in order |
| CalendarParsing.GatherMembers | src/calendar_blocker/calendar_blocker.py:189-208 | a value is collected exactly when some item contributes it |
| CalendarParsing.ParseRowsSource | src/calendar_blocker/calendar_blocker.py:189-208 | every event collected is the kept dictionary of some data row |
| CalendarParsing.ParseRowsHas | src/calendar_blocker/calendar_blocker.py:189-208 | the kept dictionary of every data row is collected |
| CalendarParsing.ParseRowsMembers | src/calendar_blocker/calendar_blocker.py:189-208 | an event is collected exactly when it is the kept dictionary of some data row |
| CalendarParsing.ParseRowsAppend | src/calendar_blocker/calendar_blocker.py:189-208 | rows are handled independently and in order: parsing concatenated rows concatenates the events |
| CalendarParsing.ParseRowsSingle | src/calendar_blocker/calendar_blocker.py:190-205 | one row yields its validated dictionary or nothing |
| CalendarParsing.ParseRowsAreRecords | src/calendar_blocker/calendar_blocker.py:189-205 | every event kept is a block record, and there are no more events than rows |
| CalendarParsing.ParseSheet | src/calendar_blocker/calendar_blocker.py:173-211 | parsing succeeds exactly when the headers are text and contain all four required columns; a missing-column error names the first missing column; the events are block records, no more than the rows |
| CalendarParsing.ParseSheetEvents | src/calendar_blocker/calendar_blocker.py:173-211 | on success, the events are those `ParseRows` collects from the data rows under the sheet's headers |
| CalendarParsing.ParseExcelFile | src/calendar_blocker/calendar_blocker.py:173-211 | the header loop, column check and row loop together compute `ParseSheet` |
| CalendarSync.CellColor | src/calendar_blocker/calendar_blocker.py:394 | the colour id of `str(value).lower()`; stated by `ColorNames`, `ColorIgnoresCase` and `ColorOfBlankCell` |
| CalendarSync.ColorTable | src/calendar_blocker/calendar_blocker.py:108-117 | `COLOR_MAP.get(key)` entry by entry: seven colour ids; `none` and every other key give no colour |
| CalendarSync.ColorNames | src/calendar_blocker/calendar_blocker.py:108-117 | exactly the seven colour names carry a colour id |
| CalendarSync.ColorIdsDistinct | src/calendar_blocker/calendar_blocker.py:108-117 | no two names share a colour id |
| CalendarSync.ColorIgnoresCase | src/calendar_blocker/calendar_blocker.py:394 | the colour cell is matched without regard to case |
| CalendarSync.ColorOfBlankCell | src/calendar_blocker/calendar_blocker.py:394 | an empty or `''` colour cell gives no colour (`str(None).lower()` is `none`) |
| CalendarSync.RuleTable | src/calendar_blocker/calendar_blocker.py:119-125 | `RECURRING_MAP` as line 400 reads it: a rule for `daily`, `weekly` and `monthly` only |
| CalendarSync.RuleNames | src/calendar_blocker/calendar_blocker.py:119-125 | exactly the three recurrence names give a rule, and every rule is an `RRULE:FREQ=` line |
| CalendarSync.Recurrence | src/calendar_blocker/calendar_blocker.py:399-401 | the rule for `recurring`, lower-cased and stripped; stated by `RecurrenceNames` and `RecurrenceNormalised` |
| CalendarSync.RecurrenceNames | src/calendar_blocker/calendar_blocker.py:399-401 | a `recurring` text adds a rule exactly when, lower-cased and stripped, it is `daily`, `weekly` or `monthly` |
| CalendarSync.RecurrenceNormalised | src/calendar_blocker/calendar_blocker.py:399 | normalising the text first changes nothing |
| CalendarSync.BuildPayload | src/calendar_blocker/calendar_blocker.py:383-401 | a body is built exactly when `date`, `start_time` and `end_time` are present and the `recurring` value is text |
| CalendarSync.StampReadsBack | src/calendar_blocker/calendar_blocker.py:387-391 | a timestamp built from a validated date and clock is `YYYY-MM-DDTHH:MM:00`, and its parts parse back as that date and clock |
| CalendarSync.StampOrder | src/calendar_blocker/calendar_blocker.py:387-391 | on one date, an earlier clock gives the earlier timestamp |
| CalendarSync.RecordPayload | src/calendar_blocker/calendar_blocker.py:383-396 | a block record yields a body carrying its title, New York time, opaque transparency, start and end stamps that read back as its date and times, and a start before the end |
| CalendarSync.RecordPayloadFields | src/calendar_blocker/calendar_blocker.py:383-401 | the body's description is the record's (empty when absent), its colour id is that of the `color` cell, and it carries a rule exactly when `recurring` names one of the three frequencies |
| CalendarSync.CreateEvent | src/calendar_blocker/calendar_blocker.py:361-413 | returns an id exactly when the body is built, the insert returns one, and `title` is present for the log line; the id is the service's |
| CalendarSync.RecordCounted | src/calendar_blocker/calendar_blocker.py:404-406 | for a block record with a text `recurring` value, it is counted exactly when the service returns a non-empty id |
| CalendarSync.TallyCount | src/calendar_blocker/calendar_blocker.py:456-461 | the tally of a list of flags is the number of positions whose flag is set |
| CalendarSync.SuccessesCount | src/calendar_blocker/calendar_blocker.py:456-461 | the success count is the number of events, by position, whose insert returned a non-empty id |
| CalendarSync.SuccessesAll | src/calendar_blocker/calendar_blocker.py:456-461 | the success count equals the batch size exactly when every event is counted |
| CalendarSync.SuccessesNone | src/calendar_blocker/calendar_blocker.py:456-461 | the success count is zero exactly when no event is counted |
| CalendarSync.BlockOutcome | src/calendar_blocker/calendar_blocker.py:420-471 | (created, failed) for the events read; stated by `OutcomeAccounts`, `RejectedSheetIsQuiet`, `UnauthenticatedFailsAll` and `FailuresAreUncounted` |
| CalendarSync.OutcomeAccounts | src/calendar_blocker/calendar_blocker.py:440-471 | created plus failed equals the number of events read; those events are block records, no more than the data rows |
| CalendarSync.RejectedSheetIsQuiet | src/calendar_blocker/calendar_blocker.py:469-471 | a missing file or a rejected sheet gives (0, 0) |
| CalendarSync.UnauthenticatedFailsAll | src/calendar_blocker/calendar_blocker.py:450 | a failed authentication counts every event read as failed |
| CalendarSync.FailuresAreUncounted | src/calendar_blocker/calendar_blocker.py:453-467 | with authentication, nothing fails exactly when every event is counted |
| CalendarSync.CreateEvents | src/calendar_blocker/calendar_blocker.py:453-461 | the loop counts the counted events as successful and all the others as failed |
| CalendarSync.EventsOutcome | src/calendar_blocker/calendar_blocker.py:443-471 | once the events are read: (0, 0) for none, (0, all) without authentication, otherwise the counted events and the rest |
| CalendarSync.InsertOne | src/calendar_blocker/calendar_blocker.py:457-461 | one insert followed by the test of its id is True exactly when the event is counted as created |
| CalendarSync.ReadEvents | src/calendar_blocker/calendar_blocker.py:440-442 | the read at the head of the `try` yields `Events` of the workbook: none for a missing file or a rejected sheet |
| CalendarSync.SyncEvents | src/calendar_blocker/calendar_blocker.py:443-467 | the steps after the read compute `EventsOutcome` |
| CalendarSync.BlockCalendar | src/calendar_blocker/calendar_blocker.py:440-471 | `block_calendar` returns `BlockOutcome` |
| CalendarSync.MainStatus | src/calendar_blocker/calendar_blocker.py:474-513 | the exit status of `main`; stated by `MainStatusZero` |
| CalendarSync.MainStatusZero | src/calendar_blocker/calendar_blocker.py:492-513 | exit 0 exactly when a path is given and either no event was read or authentication held and every event was counted; otherwise exit 1 |
| FileOrganizer.Category | src/file_organizer.py:119-125 | `get_file_category`: the lower-cased extension looked up in table order; stated by the lemmas below |
| FileOrganizer.CategoryInFirst | src/file_organizer.py:121-123 | the result is the first category in table order whose list holds the extension |
| FileOrganizer.CategoryInMissing | src/file_organizer.py:124-125 | an extension no category lists gives `Other` |
| FileOrganizer.CategoryInNamed | src/file_organizer.py:121-125 | the result is `Other` or a category whose list holds the extension |
| FileOrganizer.CategoryNamesMatch | src/file_organizer.py:76-85 | the result names are the eight table names, in order, and then `Other` |
| FileOrganizer.CategoryIsKnown | src/file_organizer.py:119-125 | every result is one of the nine names |
| FileOrganizer.PdfIsDocument | src/file_organizer.py:112-113 | `.pdf` is a document |
| FileOrganizer.JpgIsImage | src/file_organizer.py:114-115 | `.jpg` is an image |
| FileOrganizer.XyzIsOther | src/file_organizer.py:116-117 | `.xyz` is `Other` |
| FileOrganizer.CategoryIgnoresCase | src/file_organizer.py:119 | extensions are matched without regard to case |
| FileOrganizer.RFind | src/file_organizer.py:200 | the last position of the character, or -1 |
| FileOrganizer.SplitExt | src/file_organizer.py:200 | `os.path.splitext` with `/` as separator; stated by `SplitExtJoin`, `SplitExtCases`, `SplitExtParts` and the three examples |
| FileOrganizer.SplitExtJoin | src/file_organizer.py:200 | root and extension concatenate back to the name; the extension is empty or a dot followed by no dot and no `/` |
| FileOrganizer.SplitExtCases | src/file_organizer.py:200-205 | the extension is non-empty exactly when the name's last dot follows its last `/` with a non-dot character between them |
| FileOrganizer.SplitExtParts | src/file_organizer.py:200 | a non-empty extension runs from the last dot to the end and the root is what precedes it; otherwise the root is the whole name |
| FileOrganizer.SplitExtOfReport | src/file_organizer.py:200-205 | `report.pdf` splits into `report` and `.pdf` |
| FileOrganizer.SplitExtOfArchive | src/file_organizer.py:200-205 | `archive.tar.gz` splits into `archive.tar` and `.gz`: only the last extension |
| FileOrganizer.SplitExtOfDotless | src/file_organizer.py:200-205 | `.bashrc` and `notes` have no extension, so the loop counts them as skipped |
| FileOrganizer.CandidateInjective | src/file_organizer.py:231 | different counters give different names |
| FileOrganizer.TriedSize | src/file_organizer.py:230-232 | the names tried before counter `n` are `n - 1` distinct names |
| FileOrganizer.TakenBound | src/file_organizer.py:230-232 | a folder cannot hold more taken candidates than it has names, so the conflict loop stops |
| FileOrganizer.FreeFrom | src/file_organizer.py:230-232 | the least counter from `k` whose name is free in the folder |
| FileOrganizer.LeastFreeUnique | src/file_organizer.py:230-232 | the least free counter is unique |
| FileOrganizer.FreeCounter | src/file_organizer.py:230-232 | the `while` loop stops at the least counter from 1 whose name is free |
| FileOrganizer.FreeName | src/file_organizer.py:225-234 | the destination name is not already in the folder |
| FileOrganizer.CandidateKeepsExt | src/file_organizer.py:229-233 | a renamed candidate splits into `name_N` and the original extension |
| FileOrganizer.FreeNameKeepsCategory | src/file_organizer.py:225-234 | a file renamed on a conflict keeps its extension, hence its category |
| FileOrganizer.OrganizeFiles | src/file_organizer.py:175-260 | False with nothing changed on PermissionError; otherwise True, with the directory and counters `Run` describes |
| FileOrganizer.Place | src/file_organizer.py:225-243 | the move of one file into its folder under a free name, or an error; stated by `PlaceCounts`, `PlaceMoves` and `PlaceKeeps` |
| FileOrganizer.Visit | src/file_organizer.py:195-243 | one iteration of the item loop; stated by the `Visit` lemmas below |
| FileOrganizer.Run | src/file_organizer.py:190-243 | the state after the item loop; stated by the `Run` lemmas below |
| FileOrganizer.VisitSkips | src/file_organizer.py:195-205 | directories and hidden names change nothing; a name without extension only adds to `skipped` |
| FileOrganizer.VisitCounts | src/file_organizer.py:208-243 | a file with an extension bumps its category in `stats` and adds one to exactly one of organized and errors |
| FileOrganizer.PlaceCounts | src/file_organizer.py:237-243 | a move attempt adds one to exactly one of organized and errors |
| FileOrganizer.PlaceMoves | src/file_organizer.py:225-243 | a successful move takes the file out of the top level and adds it to the folder under a free name with the same extension; a failed one changes nothing |
| FileOrganizer.VisitMoves | src/file_organizer.py:208-243 | an organized file has left the top level and sits in its category folder, under a name free there and with its extension kept |
| FileOrganizer.PlaceKeeps | src/file_organizer.py:241-243 | a failed move leaves the directory as it was |
| FileOrganizer.VisitKeeps | src/file_organizer.py:211-243 | any other item leaves the files as they were and at most adds an empty category folder |
| FileOrganizer.VisitWellFormed | src/file_organizer.py:190-243 | no item makes a name both a file and a folder |
| FileOrganizer.TotalOverBump | src/file_organizer.py:209 | bumping one listed category adds one to the total over the category names |
| FileOrganizer.RunCounts | src/file_organizer.py:175-243 | every item adds to at most one of organized, skipped and errors; `stats` holds only category names; its total is organized plus errors |
| FileOrganizer.RunFiles | src/file_organizer.py:190-243 | files only leave the top level, one per organized item |
| FileOrganizer.RunFolders | src/file_organizer.py:190-243 | folders are only created or added to |
| FileOrganizer.RunWellFormed | src/file_organizer.py:190-243 | no name ever becomes both a file and a folder |
| FileOrganizer.OrganizerMain | src/file_organizer.py:287-297 | exit 1 with nothing changed without a directory argument; otherwise organize and exit 0 |
| Scheduler.ScheduleFor | src/file_organizer/scheduler.py:158-199 | the job `schedule_organizer` registers, or False, or the IndexError; stated by the lemmas below |
| Scheduler.WeeklyDecision | src/file_organizer/scheduler.py:175-194 | the weekly branch; stated by `WeeklyDefault`, `WeeklyDayAndTime`, `WeeklyOneWordRaises` and `WeeklyDayIsWeekday` |
| Scheduler.ScheduleIgnoresCase | src/file_organizer/scheduler.py:158-171 | the frequency is matched without regard to case |
| Scheduler.UnknownFrequencyRejected | src/file_organizer/scheduler.py:196-199 | any other frequency registers nothing and returns False |
| Scheduler.HourlyInterval | src/file_organizer/scheduler.py:158-162 | hourly registers every `int(time_str)` minutes when the text is digits, otherwise every 60 |
| Scheduler.DailyKeepsTime | src/file_organizer/scheduler.py:165-168 | daily registers at the time text exactly as given |
| Scheduler.WeeklyDefault | src/file_organizer/scheduler.py:175-176 | weekly without a space in the text registers Monday at 09:00 |
| Scheduler.WeeklyDayAndTime | src/file_organizer/scheduler.py:175-194 | weekly with `day time` registers that day, lower-cased, at that time exactly when the day is a weekday name; otherwise it returns False |
| Scheduler.WeeklyOneWordRaises | src/file_organizer/scheduler.py:175-176 | weekly with a space but one word, as in `monday `, raises IndexError |
| Scheduler.WeeklyDayIsWeekday | src/file_organizer/scheduler.py:179-194 | a weekly job is only registered on one of the seven day names |
| Scheduler.MainInvocation | src/file_organizer/scheduler.py:243-268 | the arguments `main` passes on, with their defaults; stated by the `Main` lemmas below |
| Scheduler.MainDecision | src/file_organizer/scheduler.py:243-268 | what `main` leads to: the usage exit or `ScheduleFor` of its arguments |
| Scheduler.MainNeedsDirectory | src/file_organizer/scheduler.py:243-258 | nothing is scheduled exactly when the directory argument is missing |
| Scheduler.MainDefaultsToDaily | src/file_organizer/scheduler.py:262-264 | with only a directory, it runs daily at 09:00 |
| Scheduler.MainHourlyDefault | src/file_organizer/scheduler.py:263-264 | hourly without a time runs every 60 minutes |
| Scheduler.MainWeeklyJoins | src/file_organizer/scheduler.py:267-268 | weekly with two more arguments joins them with a space |
| Scheduler.MainWeeklyDay | src/file_organizer/scheduler.py:267-268 | weekly with a weekday and a time as two words schedules that day at that time |
| Scheduler.MainWeeklyDayOnly | src/file_organizer/scheduler.py:264-268 | weekly with a day but no time ignores the day: Monday at 09:00 |
| PyText.LowerIsLowered | src/calendar_blocker/calendar_blocker.py:177 | `lower()` leaves no upper-case letter, is idempotent and keeps spaces |
| PyText.StripIdempotent | src/calendar_blocker/calendar_blocker.py:177 | stripping twice is stripping once |
| PyText.StripKeepsLowered | src/calendar_blocker/calendar_blocker.py:177 | stripping lower-case text keeps it lower-case |
| PyText.Words | src/file_organizer/scheduler.py:175-176 | every piece `split()` returns is non-empty and holds no space |
| PyText.WordsOfTwo | src/file_organizer/scheduler.py:175-176 | `day + " " + time` with two words splits into exactly those two |
| PyText.PyIntOfDigits | src/file_organizer/scheduler.py:161 | `int()` of a digit string is the number it shows |
| PyText.IntTextRoundTrip | src/file_organizer.py:231 | `int(str(n))` is `n` for every integer |
| PyText.StrLessIrreflexive | src/calendar_blocker/calendar_blocker.py:255 | no string is less than itself |
| PyText.StrLessCommonPrefix | src/calendar_blocker/calendar_blocker.py:255 | a common prefix does not change string order |
| PyText.StrLessExtend | src/calendar_blocker/calendar_blocker.py:255 | of two equally long strings, the smaller stays smaller whatever follows each |

## Left out

- Opening the file and loading the workbook with openpyxl: the worksheet is given as a value, and a missing file is a missing map entry.
- Cells that hold floats, datetimes or booleans: a cell is empty, text, an integer or a date.
- CalendarParsing.ParseDate: accepts only `YYYY-MM-DD` and `MM/DD/YYYY`, the two layouts the input file uses. `dateutil.parser.parse` accepts many more, which the model does not capture.
- CalendarParsing.ParseExcelFile: the per-row `except` is not modelled, because nothing in the modelled row body raises.
- `get_calendar_service` and the Google client library: authentication is a boolean and the service is a function. The HttpError/Exception distinction is not modelled; both are one failed reply.
- Logging and `print` output, the summary `organize_files` prints, and the scheduler's banners.
- The colour id `17` for orange is carried as written in the table; whether the calendar accepts it is outside the model.
- FileOrganizer.OrganizeFiles: `os.listdir` errors other than PermissionError are not modelled; they propagate out of the script.
- FileOrganizer.OrganizeFiles: the order of the listing is whatever it is given; symbolic links, Windows paths and a directory changed by another process are not modelled.
- FileOrganizer.SplitExt: follows POSIX `os.path.splitext` with `/` as the only separator.
- The scheduler's registration with the `schedule` library, its run loop, the one-second sleep, Ctrl+C handling and `run_file_organizer`'s subprocess: a registered job is a value.
- Scheduler.HourlyInterval: `str.isdigit` is modelled on ASCII digits only.
- `src/calculator.py` and `src/hello_world.py` are not part of this model.
- Unicode case mapping, whitespace and digits beyond ASCII: Python's `lower()` and `strip()` act on all of Unicode, and `int()` and `isdigit()` also accept non-ASCII decimal digits.
- CalendarParsing.ParseTime: `int()` of the hour and minute is modelled on ASCII digits only, so a time written with other decimal digits is refused where Python accepts it.
