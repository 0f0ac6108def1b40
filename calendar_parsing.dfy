/**
 * Spreadsheet parsing and validation of the calendar blocker: header
 * normalisation, the required-column check, row building by header
 * position, `validate_event` (which rewrites the row in place) and the
 * strict `HH:MM` time parser.
 */
module CalendarParsing {
  import opened Wrappers
  import opened PyText

  // ---------------------------------------------------------------------------
  // Cells and rows
  // ---------------------------------------------------------------------------

  predicate IsLeapYear(y: int) {
    (y % 4 == 0 && y % 100 != 0) || y % 400 == 0
  }

  function DaysInMonth(y: int, m: int): int {
    if m == 2 then (if IsLeapYear(y) then 29 else 28)
    else if m == 4 || m == 6 || m == 9 || m == 11 then 30
    else 31
  }

  datatype Date = Date(year: int, month: int, day: int)

  /** The dates Python's `datetime.date` can hold. */
  predicate ValidDate(d: Date) {
    1 <= d.year <= 9999 && 1 <= d.month <= 12 && 1 <= d.day <= DaysInMonth(d.year, d.month)
  }

  type CalendarDate = d: Date | ValidDate(d) witness Date(1, 1, 1)

  /** A cell value: empty (None), a string, an integer, or a date put there by validation. */
  datatype Cell = Empty | Text(s: string) | Number(n: int) | Day(date: CalendarDate)

  /** One row as the header-keyed dictionary the script builds. */
  type Fields = map<string, Cell>

  /** Python truthiness of a cell value. */
  predicate Truthy(c: Cell) {
    match c
    case Empty => false
    case Text(s) => s != ""
    case Number(n) => n != 0
    case Day(_) => true
  }

  /** `event.get(key)`. */
  function Get(event: Fields, key: string): Cell {
    if key in event then event[key] else Empty
  }

  /** Two decimal digits, as `f"{n:02d}"` writes them. */
  function Pad2(n: nat): (r: string)
    requires n < 100
  {
    [DigitChar(n / 10), DigitChar(n % 10)]
  }

  /** Four decimal digits, as `f"{n:04d}"` writes them. */
  function Pad4(n: nat): string
    requires n < 10000
  {
    Pad2(n / 100) + Pad2(n % 100)
  }

  /** `str(date)`: ISO `YYYY-MM-DD`. */
  function IsoDate(d: CalendarDate): string {
    Pad4(d.year) + "-" + Pad2(d.month) + "-" + Pad2(d.day)
  }

  /** `str(value)` of a cell. */
  function CellText(c: Cell): string {
    match c
    case Empty => "None"
    case Text(s) => s
    case Number(n) => IntText(n)
    case Day(d) => IsoDate(d)
  }

  /** The value of two decimal digits. */
  lemma TwoDigitsValue(t: string)
    requires |t| == 2 && AllDigits(t)
    ensures DigitsValue(t) == 10 * DigitValue(t[0]) + DigitValue(t[1])
  {
    assert t[..1] == [t[0]];
    assert [t[0]][..0] == [];
    assert DigitsValue([t[0]]) == DigitValue(t[0]);
  }

  lemma DigitCharOfValue(c: char)
    requires IsDigit(c)
    ensures DigitChar(DigitValue(c)) == c
  {
  }

  lemma Pad2Value(n: nat)
    requires n < 100
    ensures AllDigits(Pad2(n)) && DigitsValue(Pad2(n)) == n
  {
    TwoDigitsValue(Pad2(n));
  }

  /** Two digits read as a number and padded again give the same two digits. */
  lemma DigitsOfPad2(t: string)
    requires |t| == 2 && AllDigits(t)
    ensures DigitsValue(t) < 100 && Pad2(DigitsValue(t)) == t
  {
    TwoDigitsValue(t);
    var a, b := DigitValue(t[0]), DigitValue(t[1]);
    assert (10 * a + b) / 10 == a && (10 * a + b) % 10 == b;
    DigitCharOfValue(t[0]);
    DigitCharOfValue(t[1]);
    assert Pad2(DigitsValue(t)) == [t[0], t[1]];
  }

  lemma DigitsValueAppend2(a: string, b: string)
    requires |b| == 2 && AllDigits(b)
    ensures DigitsValue(a + b) == 100 * DigitsValue(a) + DigitsValue(b)
  {
    var s := a + b;
    assert s[..|s| - 1] == a + [b[0]];
    assert (a + [b[0]])[..|a|] == a;
    TwoDigitsValue(b);
  }

  lemma HundredsSplit(x: nat, y: nat)
    requires y < 100
    ensures (100 * x + y) / 100 == x && (100 * x + y) % 100 == y
  {
  }

  lemma DigitsOfPad4(t: string)
    requires |t| == 4 && AllDigits(t)
    ensures DigitsValue(t) < 10000 && Pad4(DigitsValue(t)) == t
  {
    var hi, lo := t[..2], t[2..];
    assert hi + lo == t;
    DigitsOfPad2(hi);
    DigitsOfPad2(lo);
    DigitsValueAppend2(hi, lo);
    HundredsSplit(DigitsValue(hi), DigitsValue(lo));
  }

  // ---------------------------------------------------------------------------
  // Dates: the documented subset `YYYY-MM-DD` and `MM/DD/YYYY`
  // ---------------------------------------------------------------------------

  predicate IsoShaped(s: string) {
    |s| == 10 && s[4] == '-' && s[7] == '-' && AllDigits(s[..4]) && AllDigits(s[5..7]) && AllDigits(s[8..])
  }

  predicate UsShaped(s: string) {
    |s| == 10 && s[2] == '/' && s[5] == '/' && AllDigits(s[..2]) && AllDigits(s[3..5]) && AllDigits(s[6..])
  }

  function AsDate(year: int, month: int, day: int): Option<CalendarDate> {
    if ValidDate(Date(year, month, day)) then Some(Date(year, month, day)) else None
  }

  /**
   * `parse_date` on the two layouts the file format documents. A parsed ISO
   * date prints back as its input; a US date prints as the same fields in
   * ISO order.
   */
  function ParseDate(s: string): (r: Option<CalendarDate>)
    ensures r.Some? ==> IsoShaped(s) || UsShaped(s)
    ensures r.Some? && IsoShaped(s) ==> IsoDate(r.value) == s
    ensures r.Some? && UsShaped(s) ==> IsoDate(r.value) == s[6..] + "-" + s[..2] + "-" + s[3..5]
  {
    if IsoShaped(s) then
      DigitsOfPad4(s[..4]);
      DigitsOfPad2(s[5..7]);
      DigitsOfPad2(s[8..]);
      assert s == s[..4] + "-" + s[5..7] + "-" + s[8..];
      AsDate(DigitsValue(s[..4]), DigitsValue(s[5..7]), DigitsValue(s[8..]))
    else if UsShaped(s) then
      DigitsOfPad4(s[6..]);
      DigitsOfPad2(s[..2]);
      DigitsOfPad2(s[3..5]);
      AsDate(DigitsValue(s[6..]), DigitsValue(s[..2]), DigitsValue(s[3..5]))
    else None
  }

  lemma Pad4Value(n: nat)
    requires n < 10000
    ensures |Pad4(n)| == 4 && AllDigits(Pad4(n)) && DigitsValue(Pad4(n)) == n
  {
    Pad2Value(n / 100);
    Pad2Value(n % 100);
    DigitsValueAppend2(Pad2(n / 100), Pad2(n % 100));
  }

  lemma IsoSlices(y: string, m: string, d: string)
    requires |y| == 4 && |m| == 2 && |d| == 2
    ensures var s := y + "-" + m + "-" + d;
            |s| == 10 && s[..4] == y && s[4] == '-' && s[5..7] == m && s[7] == '-' && s[8..] == d
  {
  }

  /** Every date the model can hold prints as ISO text that parses back to it. */
  lemma IsoDateRoundTrip(d: CalendarDate)
    ensures IsoShaped(IsoDate(d)) && ParseDate(IsoDate(d)) == Some(d)
  {
    var y, m, dd := Pad4(d.year), Pad2(d.month), Pad2(d.day);
    Pad4Value(d.year);
    Pad2Value(d.month);
    Pad2Value(d.day);
    IsoSlices(y, m, dd);
  }

  lemma UsSlices(m: string, d: string, y: string)
    requires |m| == 2 && |d| == 2 && |y| == 4
    ensures var s := m + "/" + d + "/" + y;
            |s| == 10 && s[..2] == m && s[2] == '/' && s[3..5] == d && s[5] == '/' && s[6..] == y && s[4] == d[1]
  {
  }

  /** Every date the model can hold, written in the US layout, parses back to it. */
  lemma UsDateRoundTrip(d: CalendarDate)
    ensures var s := Pad2(d.month) + "/" + Pad2(d.day) + "/" + Pad4(d.year);
            UsShaped(s) && ParseDate(s) == Some(d)
  {
    var m, dd, y := Pad2(d.month), Pad2(d.day), Pad4(d.year);
    Pad4Value(d.year);
    Pad2Value(d.month);
    Pad2Value(d.day);
    UsSlices(m, dd, y);
    var s := m + "/" + dd + "/" + y;
    assert !IsoShaped(s) by {
      assert s[4] == dd[1] && dd[1] != '-';
    }
  }

  // ---------------------------------------------------------------------------
  // Times: parse_time
  // ---------------------------------------------------------------------------

  function Hour(t: string): nat
    requires |t| == 5
  {
    DigitsValue(t[..2])
  }

  function Minute(t: string): nat
    requires |t| == 5
  {
    DigitsValue(t[3..])
  }

  /** A zero-padded 24-hour `HH:MM` clock reading. */
  predicate IsClock(t: string) {
    && |t| == 5 && AllDigits(t[..2]) && t[2] == ':' && AllDigits(t[3..])
    && Hour(t) < 24 && Minute(t) < 60
  }

  /** Minutes since midnight of a clock reading. */
  function ClockMinutes(t: string): nat
    requires IsClock(t)
  {
    60 * Hour(t) + Minute(t)
  }

  /** `f"{hour:02d}:{minute:02d}"`. */
  function Clock(h: nat, m: nat): string
    requires h < 24 && m < 60
  {
    Pad2(h) + ":" + Pad2(m)
  }

  lemma ClockFacts(h: nat, m: nat)
    requires h < 24 && m < 60
    ensures IsClock(Clock(h, m)) && Hour(Clock(h, m)) == h && Minute(Clock(h, m)) == m
  {
    var t := Clock(h, m);
    Pad2Value(h);
    Pad2Value(m);
    assert t[..2] == Pad2(h) && t[3..] == Pad2(m);
  }

  /** `time_str.split(':')` has two pieces that `int()` reads, after `strip`, as `h` and `m`. */
  ghost predicate ReadsAsClock(s: string, h: int, m: int) {
    var parts := Split(s, ':');
    |parts| == 2 && PyInt(Strip(parts[0])) == Some(h) && PyInt(Strip(parts[1])) == Some(m)
  }

  /**
   * `parse_time`: a string with exactly one `:` whose two sides `int()`
   * reads as an hour in 0..23 and a minute in 0..59 becomes the zero-padded
   * `HH:MM` of those numbers; anything else raises ValueError (None here).
   */
  function ParseTime(s: string): (r: Option<string>)
    ensures r.Some? ==> IsClock(r.value)
  {
    var parts := Split(s, ':');
    if |parts| != 2 then None
    else
      match (PyInt(Strip(parts[0])), PyInt(Strip(parts[1])))
      case (Some(h), Some(m)) =>
        if 0 <= h < 24 && 0 <= m < 60 then
          ClockFacts(h, m);
          Some(Clock(h, m))
        else None
      case _ => None
  }

  /** An accepted string has exactly one `:`, and its two sides read as the hour and minute produced. */
  lemma ParseTimeAccepts(s: string)
    requires ParseTime(s).Some?
    ensures multiset(s)[':'] == 1
    ensures ReadsAsClock(s, Hour(ParseTime(s).value), Minute(ParseTime(s).value))
  {
    var parts := Split(s, ':');
    var h, m := PyInt(Strip(parts[0])).value, PyInt(Strip(parts[1])).value;
    ClockFacts(h, m);
  }

  /** Whenever the two sides read as numbers, the result is exactly the range check on them. */
  lemma ParseTimeOfReading(s: string, h: int, m: int)
    requires ReadsAsClock(s, h, m)
    ensures ParseTime(s) == if 0 <= h < 24 && 0 <= m < 60 then Some(Clock(h, m)) else None
  {
  }

  /** A two-digit string reads as the number it shows. */
  lemma PyIntOfTwoDigits(t: string)
    requires |t| == 2 && AllDigits(t)
    ensures Strip(t) == t && PyInt(t) == Some(DigitsValue(t) as int)
  {
    StripDigits(t);
    PyIntOfDigits(t);
  }

  lemma SplitTwo(hs: string, ms: string)
    requires ':' !in hs && ':' !in ms
    ensures Split(hs + ":" + ms, ':') == [hs, ms]
  {
    var s := hs + ":" + ms;
    assert s[..|hs|] == hs && s[|hs|] == ':' && s[|hs| + 1..] == ms;
    SplitAt(s, ':', |hs|);
    SplitNone(ms, ':');
  }

  lemma ReadsAsPieces(hs: string, ms: string, h: int, m: int)
    requires ':' !in hs && ':' !in ms
    requires PyInt(Strip(hs)) == Some(h) && PyInt(Strip(ms)) == Some(m)
    ensures ReadsAsClock(hs + ":" + ms, h, m)
  {
    SplitTwo(hs, ms);
  }

  /** `parse_time` of `hs + ":" + ms` is decided by what `int()` makes of the two pieces. */
  lemma ParseTimeOfPieces(hs: string, ms: string, h: int, m: int)
    requires ':' !in hs && ':' !in ms
    requires PyInt(Strip(hs)) == Some(h) && PyInt(Strip(ms)) == Some(m)
    ensures ParseTime(hs + ":" + ms) == if 0 <= h < 24 && 0 <= m < 60 then Some(Clock(h, m)) else None
  {
    ReadsAsPieces(hs, ms, h, m);
    ParseTimeOfReading(hs + ":" + ms, h, m);
  }

  /** A clock reading is its two digit pairs around a `:`, and printing its hour and minute gives it back. */
  lemma ClockPieces(t: string)
    requires IsClock(t)
    ensures t == t[..2] + ":" + t[3..] && ':' !in t[..2] && ':' !in t[3..]
    ensures Clock(Hour(t), Minute(t)) == t
  {
    DigitsOfPad2(t[..2]);
    DigitsOfPad2(t[3..]);
    assert t == t[..2] + ":" + t[3..];
  }

  lemma ParseTimeOfDigitPairs(hs: string, ms: string)
    requires |hs| == 2 && AllDigits(hs) && |ms| == 2 && AllDigits(ms)
    requires DigitsValue(hs) < 24 && DigitsValue(ms) < 60
    ensures ParseTime(hs + ":" + ms) == Some(hs + ":" + ms)
  {
    PyIntOfTwoDigits(hs);
    PyIntOfTwoDigits(ms);
    ParseTimeOfPieces(hs, ms, DigitsValue(hs), DigitsValue(ms));
    DigitsOfPad2(hs);
    DigitsOfPad2(ms);
  }

  /** A canonical `HH:MM` parses to itself. */
  lemma ParseTimeOfClock(t: string)
    requires IsClock(t)
    ensures ParseTime(t) == Some(t)
  {
    ClockPieces(t);
    ParseTimeOfDigitPairs(t[..2], t[3..]);
  }

  /** `parse_time` is idempotent: its output is a fixed point. */
  lemma ParseTimeIdempotent(s: string)
    requires ParseTime(s).Some?
    ensures ParseTime(ParseTime(s).value) == ParseTime(s)
  {
    ParseTimeOfClock(ParseTime(s).value);
  }

  lemma OneDigitValue(t: string)
    requires |t| == 1 && IsDigit(t[0])
    ensures DigitsValue(t) == DigitValue(t[0])
  {
    assert t[..0] == [];
  }

  lemma PyIntOfDigit(t: string)
    requires |t| == 1 && IsDigit(t[0])
    ensures PyInt(Strip(t)) == Some(DigitValue(t[0]) as int)
  {
    assert AllDigits(t);
    PyIntOfDigits(t);
    OneDigitValue(t);
  }

  lemma PadOfDigit(t: string)
    requires |t| == 1 && IsDigit(t[0])
    ensures Pad2(DigitValue(t[0])) == "0" + t
  {
    DigitCharOfValue(t[0]);
  }

  lemma ParseTimeOfDigits(hs: string, ms: string)
    requires |hs| == 1 && IsDigit(hs[0]) && |ms| == 1 && IsDigit(ms[0])
    ensures ParseTime(hs + ":" + ms) == Some(Clock(DigitValue(hs[0]), DigitValue(ms[0])))
  {
    PyIntOfDigit(hs);
    PyIntOfDigit(ms);
    ParseTimeOfPieces(hs, ms, DigitValue(hs[0]), DigitValue(ms[0]));
  }

  lemma ClockOfDigits(hs: string, ms: string)
    requires |hs| == 1 && IsDigit(hs[0]) && |ms| == 1 && IsDigit(ms[0])
    ensures Clock(DigitValue(hs[0]), DigitValue(ms[0])) == "0" + hs + ":" + "0" + ms
  {
    PadOfDigit(hs);
    PadOfDigit(ms);
    assert ("0" + hs) + ":" + ("0" + ms) == "0" + hs + ":" + "0" + ms;
  }

  /** A one-digit hour and minute are zero-padded: `"9:5"` becomes `"09:05"`. */
  lemma ParseTimePadsSingleDigits(hs: string, ms: string)
    requires |hs| == 1 && IsDigit(hs[0]) && |ms| == 1 && IsDigit(ms[0])
    ensures ParseTime(hs + ":" + ms) == Some("0" + hs + ":" + "0" + ms)
  {
    ParseTimeOfDigits(hs, ms);
    ClockOfDigits(hs, ms);
  }

  /** A reading with a seconds field, such as `"10:00:00"`, is refused. */
  lemma ParseTimeRefusesSeconds(a: string, b: string, c: string)
    ensures ParseTime(a + ":" + b + ":" + c) == None
  {
    var s := a + ":" + b + ":" + c;
    assert multiset(s)[':'] == multiset(a)[':'] + multiset(b)[':'] + multiset(c)[':'] + 2;
    if ParseTime(s).Some? {
      ParseTimeAccepts(s);
    }
  }

  lemma {:induction false} TwoDigitOrder(x: string, y: string, rx: string, ry: string)
    requires |x| == 2 && |y| == 2 && AllDigits(x) && AllDigits(y) && x != y
    ensures StrLess(x + rx, y + ry) <==> DigitsValue(x) < DigitsValue(y)
  {
    TwoDigitsValue(x);
    TwoDigitsValue(y);
    var a, b := x + rx, y + ry;
    assert a[0] == x[0] && b[0] == y[0];
    if x[0] == y[0] {
      assert a[1..][0] == x[1] && b[1..][0] == y[1];
      assert x[1] != y[1];
      assert StrLess(a, b) == (x[1] < y[1]);
    } else {
      assert StrLess(a, b) == (x[0] < y[0]);
    }
  }

  /**
   * For two `parse_time` results, Python's string comparison agrees with
   * comparing the times of day, so `start_time >= end_time` rejects exactly
   * the blocks that do not end after they start.
   */
  lemma ClockOrder(a: string, b: string)
    requires IsClock(a) && IsClock(b)
    ensures StrLess(a, b) <==> ClockMinutes(a) < ClockMinutes(b)
  {
    var ah, am, bh, bm := a[..2], a[3..], b[..2], b[3..];
    assert a == ah + (":" + am);
    assert b == bh + (":" + bm);
    if ah != bh {
      TwoDigitOrder(ah, bh, ":" + am, ":" + bm);
    } else {
      StrLessCommonPrefix(ah, ":" + am, ":" + bm);
      StrLessCommonPrefix(":", am, bm);
      assert StrLess(a, b) == StrLess(am, bm);
      if am != bm {
        assert am + "" == am && bm + "" == bm;
        TwoDigitOrder(am, bm, "", "");
      } else {
        StrLessIrreflexive(am);
      }
    }
  }

  // ---------------------------------------------------------------------------
  // validate_event
  // ---------------------------------------------------------------------------

  const DEFAULT_TITLE := "Calendar Block"

  /** The clock `parse_time` makes of a cell, after `str()` and `strip`. */
  function CellClock(c: Cell): Option<string> {
    ParseTime(Strip(CellText(c)))
  }

  function CellDate(c: Cell): Option<CalendarDate> {
    ParseDate(Strip(CellText(c)))
  }

  /**
   * A validated block: a real date, two canonical clock readings with the
   * start strictly before the end, and a non-empty title.
   */
  ghost predicate IsBlockRecord(e: Fields) {
    && "date" in e && e["date"].Day?
    && "start_time" in e && e["start_time"].Text? && IsClock(e["start_time"].s)
    && "end_time" in e && e["end_time"].Text? && IsClock(e["end_time"].s)
    && ClockMinutes(e["start_time"].s) < ClockMinutes(e["end_time"].s)
    && "title" in e && Truthy(e["title"])
  }

  /** The conditions under which `validate_event` returns True. */
  ghost predicate AcceptsRow(event: Fields) {
    && Truthy(Get(event, "date")) && Truthy(Get(event, "start time")) && Truthy(Get(event, "end time"))
    && CellDate(event["date"]).Some?
    && CellClock(event["start time"]).Some? && CellClock(event["end time"]).Some?
    && ClockMinutes(CellClock(event["start time"]).value) < ClockMinutes(CellClock(event["end time"]).value)
  }

  /** Outcome of `validate_event`: its return value and the dictionary as it leaves it. */
  datatype Checked = Checked(ok: bool, fields: Fields)

  /** The keys `validate_event` may write. */
  predicate Written(k: string) {
    k == "title" || k == "date" || k == "start_time" || k == "end_time"
  }

  /** The row with an empty or missing title replaced by the default one. */
  function Titled(event: Fields): (r: Fields)
    ensures "title" in r && Truthy(r["title"])
    ensures Truthy(Get(event, "title")) ==> r == event
    ensures !Truthy(Get(event, "title")) ==> r["title"] == Text(DEFAULT_TITLE)
    ensures forall k :: k in event && k != "title" ==> k in r && r[k] == event[k]
    ensures forall k :: k in r && k != "title" ==> k in event
  {
    if Truthy(Get(event, "title")) then event else event["title" := Text(DEFAULT_TITLE)]
  }

  lemma KeysDiffer()
    ensures "title" != "date" && "title" != "start_time" && "title" != "end_time"
    ensures "date" != "start_time" && "date" != "end_time" && "start_time" != "end_time"
    ensures "start time" != "title" && "start time" != "date" && "end time" != "title" && "end time" != "date"
  {
    assert |"title"| == 5 && |"date"| == 4 && |"start_time"| == 10 && |"end_time"| == 8;
    assert |"start time"| == 10 && |"end time"| == 8;
  }

  /**
   * The second half of `validate_event`, once the date and the two times
   * have been parsed (None where parsing raised): the title is defaulted,
   * the date written back, and the times written under `start_time` and
   * `end_time` when the start is strictly earlier.
   */
  function CheckParsed(event: Fields, date: Option<CalendarDate>, start: Option<string>, end: Option<string>): (r: Checked)
    requires start.Some? ==> IsClock(start.value)
    requires end.Some? ==> IsClock(end.value)
    ensures r.ok <==> date.Some? && start.Some? && end.Some? && ClockMinutes(start.value) < ClockMinutes(end.value)
    ensures r.ok ==> IsBlockRecord(r.fields)
  {
    KeysDiffer();
    var titled := Titled(event);
    match date
    case None => Checked(false, titled)
    case Some(d) =>
      var dated := titled["date" := Day(d)];
      match (start, end)
      case (Some(st), Some(en)) =>
        ClockOrder(st, en);
        if !StrLess(st, en) then Checked(false, dated)
        else Checked(true, dated["start_time" := Text(st)]["end_time" := Text(en)])
      case _ => Checked(false, dated)
  }

  lemma CheckParsedWrites(event: Fields, date: Option<CalendarDate>, start: Option<string>, end: Option<string>)
    requires start.Some? ==> IsClock(start.value)
    requires end.Some? ==> IsClock(end.value)
    requires CheckParsed(event, date, start, end).ok
    ensures var f := CheckParsed(event, date, start, end).fields;
            && f["date"] == Day(date.value)
            && f["start_time"] == Text(start.value) && f["end_time"] == Text(end.value)
            && f["title"] == Titled(event)["title"]
  {
    KeysDiffer();
  }

  /** The four ways `CheckParsed` can end, spelled out for the method that performs the same steps. */
  lemma CheckParsedCases(event: Fields, date: Option<CalendarDate>, start: Option<string>, end: Option<string>)
    requires start.Some? ==> IsClock(start.value)
    requires end.Some? ==> IsClock(end.value)
    ensures date.None? ==> CheckParsed(event, date, start, end) == Checked(false, Titled(event))
    ensures date.Some? && (start.None? || end.None?) ==>
              CheckParsed(event, date, start, end) == Checked(false, Titled(event)["date" := Day(date.value)])
    ensures date.Some? && start.Some? && end.Some? && !StrLess(start.value, end.value) ==>
              CheckParsed(event, date, start, end) == Checked(false, Titled(event)["date" := Day(date.value)])
    ensures date.Some? && start.Some? && end.Some? && StrLess(start.value, end.value) ==>
              CheckParsed(event, date, start, end)
              == Checked(true, Titled(event)["date" := Day(date.value)]["start_time" := Text(start.value)]["end_time" := Text(end.value)])
  {
  }

  lemma CheckParsedFrame(event: Fields, date: Option<CalendarDate>, start: Option<string>, end: Option<string>, k: string)
    requires start.Some? ==> IsClock(start.value)
    requires end.Some? ==> IsClock(end.value)
    requires !Written(k)
    ensures k in CheckParsed(event, date, start, end).fields <==> k in event
    ensures k in event ==> CheckParsed(event, date, start, end).fields[k] == event[k]
  {
  }

  /**
   * `validate_event` as a function of the row it is given: it returns True
   * exactly for rows with the three required cells, a parseable date and
   * a pair of parseable times that end after they start, and an accepted
   * row leaves as a block record.
   */
  function CheckEvent(event: Fields): (r: Checked)
    ensures r.ok <==> AcceptsRow(event)
    ensures r.ok ==> IsBlockRecord(r.fields)
  {
    if !Truthy(Get(event, "date")) || !Truthy(Get(event, "start time")) || !Truthy(Get(event, "end time")) then
      Checked(false, event)
    else
      CheckParsed(event, CellDate(event["date"]), CellClock(event["start time"]), CellClock(event["end time"]))
  }

  /**
   * An accepted row carries the parsed date, the two canonical times and
   * its own title, or the default one when the title was empty or missing.
   */
  lemma CheckEventWrites(event: Fields)
    requires CheckEvent(event).ok
    ensures var f := CheckEvent(event).fields;
            && f["date"] == Day(CellDate(event["date"]).value)
            && f["start_time"] == Text(CellClock(event["start time"]).value)
            && f["end_time"] == Text(CellClock(event["end time"]).value)
            && f["title"] == (if Truthy(Get(event, "title")) then event["title"] else Text(DEFAULT_TITLE))
  {
    CheckParsedWrites(event, CellDate(event["date"]), CellClock(event["start time"]), CellClock(event["end time"]));
  }

  /** Whatever the outcome, keys other than the four `validate_event` writes are neither changed, added nor removed. */
  lemma CheckEventFrame(event: Fields, k: string)
    requires !Written(k)
    ensures k in CheckEvent(event).fields <==> k in event
    ensures k in event ==> CheckEvent(event).fields[k] == event[k]
  {
    if Truthy(Get(event, "date")) && Truthy(Get(event, "start time")) && Truthy(Get(event, "end time")) {
      CheckParsedFrame(event, CellDate(event["date"]), CellClock(event["start time"]), CellClock(event["end time"]), k);
    }
  }

  /** The row dictionary that `validate_event` receives and rewrites in place. */
  class EventRow {
    var fields: Fields

    constructor (fields: Fields)
      ensures this.fields == fields
    {
      this.fields := fields;
    }

    /** `validate_event(event)`: returns whether the row is kept, updating `fields` as it goes. */
    method Validate() returns (ok: bool)
      modifies this
      ensures ok == CheckEvent(old(fields)).ok
      ensures fields == CheckEvent(old(fields)).fields
    {
      if !Truthy(Get(fields, "date")) || !Truthy(Get(fields, "start time")) || !Truthy(Get(fields, "end time")) {
        return false;
      }
      ok := ValidateFilled();
    }

    /** The first step of `validate_event` on a filled row: an empty or missing title becomes the default one. */
    method DefaultTitle()
      modifies this
      ensures fields == Titled(old(fields))
    {
      if !Truthy(Get(fields, "title")) {
        fields := fields["title" := Text(DEFAULT_TITLE)];
      }
    }

    /** The rest of `validate_event` once the three required cells are known to be filled. */
    method ValidateFilled() returns (ok: bool)
      requires "date" in fields && "start time" in fields && "end time" in fields
      modifies this
      ensures var r := CheckParsed(old(fields), CellDate(old(fields)["date"]),
                                   CellClock(old(fields)["start time"]), CellClock(old(fields)["end time"]));
              ok == r.ok && fields == r.fields
    {
      ghost var event := fields;
      KeysDiffer();
      DefaultTitle();
      var dateCell := fields["date"];
      assert dateCell == event["date"];
      var date := CellDate(dateCell);
      if date.None? {
        CheckParsedCases(event, date, None, None);
        return false;
      }
      fields := fields["date" := Day(date.value)];
      var startCell, endCell := fields["start time"], fields["end time"];
      assert startCell == event["start time"] && endCell == event["end time"];
      var startTime := CellClock(startCell);
      var endTime := CellClock(endCell);
      CheckParsedCases(event, date, startTime, endTime);
      if startTime.None? || endTime.None? {
        return false;
      }
      if !StrLess(startTime.value, endTime.value) {
        return false;
      }
      fields := fields["start_time" := Text(startTime.value)];
      fields := fields["end_time" := Text(endTime.value)];
      return true;
    }
  }

  // ---------------------------------------------------------------------------
  // Headers and the required columns
  // ---------------------------------------------------------------------------

  /** Why `parse_excel_file` raises: a truthy header cell that is not a string, or a missing column. */
  datatype SheetError = HeaderNotText(column: nat) | MissingColumn(name: string)

  /** A worksheet: its first row and the rows below it. */
  datatype Sheet = Sheet(header: seq<Cell>, rows: seq<seq<Cell>>)

  const REQUIRED_COLUMNS: seq<string> := ["date", "start time", "end time", "title"]

  /** `cell.value.lower().strip()`. */
  function HeaderKey(s: string): string {
    Strip(Lower(s))
  }

  /** A canonical column key: lower-case, with no space at either end. */
  predicate IsColumnKey(h: string) {
    IsLowered(h) && Strip(h) == h
  }

  lemma HeaderKeyIsColumnKey(s: string)
    ensures IsColumnKey(HeaderKey(s))
  {
    LowerIsLowered(s);
    StripKeepsLowered(Lower(s));
    StripIdempotent(Lower(s));
  }

  /**
   * The first truthy header cell from position `i` on that is not a
   * string: the cell on which `.lower()` raises.
   */
  function FirstNonText(row: seq<Cell>, i: nat): (r: Option<nat>)
    requires i <= |row|
    ensures r.None? <==> forall j :: i <= j < |row| && Truthy(row[j]) ==> row[j].Text?
    ensures r.Some? ==> && i <= r.value < |row| && Truthy(row[r.value]) && !row[r.value].Text?
                        && forall j :: i <= j < r.value && Truthy(row[j]) ==> row[j].Text?
    decreases |row| - i
  {
    if i == |row| then None
    else if Truthy(row[i]) && !row[i].Text? then Some(i)
    else FirstNonText(row, i + 1)
  }

  /** The key one header cell contributes: its normalised text when it is truthy text, nothing otherwise. */
  function CellKey(c: Cell): seq<string> {
    if Truthy(c) && c.Text? then [HeaderKey(c.s)] else []
  }

  /** The keys of the text cells of a row, left to right, one per truthy text cell. */
  function TextKeys(row: seq<Cell>): seq<string> {
    Gather(CellKey, row)
  }

  /** Reading one more cell appends that cell's key. */
  lemma TextKeysStep(row: seq<Cell>, i: nat)
    requires i < |row|
    ensures TextKeys(row[..i + 1]) == TextKeys(row[..i]) + CellKey(row[i])
  {
    assert row[..i + 1][..i] == row[..i];
  }

  /** At most one key per cell, and every key is a normalised column key. */
  lemma {:induction false} TextKeysAreKeys(row: seq<Cell>)
    ensures |TextKeys(row)| <= |row|
    ensures forall h :: h in TextKeys(row) ==> IsColumnKey(h)
    decreases |row|
  {
    if |row| > 0 {
      var n := |row| - 1;
      TextKeysAreKeys(row[..n]);
      assert TextKeys(row) == TextKeys(row[..n]) + CellKey(row[n]);
      if CellKey(row[n]) != [] {
        HeaderKeyIsColumnKey(row[n].s);
      }
    }
  }

  /** Header cell `c` is truthy text whose key is `h`. */
  predicate KeyCell(c: Cell, h: string) {
    Truthy(c) && c.Text? && h == HeaderKey(c.s)
  }

  lemma CellKeyMembers(c: Cell, h: string)
    ensures h in CellKey(c) <==> KeyCell(c, h)
  {
  }

  /** A key is collected exactly when some truthy text cell of the row normalises to it. */
  lemma TextKeysMembers(row: seq<Cell>, h: string)
    ensures h in TextKeys(row) <==> exists j :: 0 <= j < |row| && KeyCell(row[j], h)
  {
    GatherMembers(CellKey, row, h);
    if h in TextKeys(row) {
      var j :| 0 <= j < |row| && h in CellKey(row[j]);
      CellKeyMembers(row[j], h);
    }
    if exists j :: 0 <= j < |row| && KeyCell(row[j], h) {
      var j :| 0 <= j < |row| && KeyCell(row[j], h);
      CellKeyMembers(row[j], h);
    }
  }

  /**
   * The normalised headers of the first row: the keys of its truthy text
   * cells in order, each lower-case with no surrounding space; the row is
   * refused exactly when some truthy cell is not a string, naming the
   * first such cell.
   */
  function HeaderKeys(row: seq<Cell>): (r: Result<seq<string>, SheetError>)
    ensures r.Ok? ==> r.value == TextKeys(row)
    ensures r.Ok? ==> |r.value| <= |row| && forall h :: h in r.value ==> IsColumnKey(h)
    ensures r.Ok? <==> forall j :: 0 <= j < |row| && Truthy(row[j]) ==> row[j].Text?
    ensures r.Err? ==> (&& r.error.HeaderNotText? && r.error.column < |row|
                        && Truthy(row[r.error.column]) && !row[r.error.column].Text?
                        && forall j :: 0 <= j < r.error.column && Truthy(row[j]) ==> row[j].Text?)
  {
    match FirstNonText(row, 0)
    case Some(j) => Err(HeaderNotText(j))
    case None =>
      TextKeysAreKeys(row);
      Ok(TextKeys(row))
  }

  /** A column is among the headers exactly when some truthy text header cell normalises to it. */
  lemma HeaderKeysMembers(row: seq<Cell>, h: string)
    requires HeaderKeys(row).Ok?
    ensures h in HeaderKeys(row).value <==> exists j :: 0 <= j < |row| && KeyCell(row[j], h)
  {
    TextKeysMembers(row, h);
  }

  /** The loop over `worksheet[1]` that fills `headers`. */
  method ExtractHeaders(row: seq<Cell>) returns (r: Result<seq<string>, SheetError>)
    ensures r == HeaderKeys(row)
  {
    var headers: seq<string> := [];
    for i := 0 to |row|
      invariant headers == TextKeys(row[..i])
      invariant FirstNonText(row, 0) == FirstNonText(row, i)
    {
      var cell := row[i];
      TextKeysStep(row, i);
      if Truthy(cell) {
        if !cell.Text? {
          return Err(HeaderNotText(i));
        }
        var key := HeaderKey(cell.s);
        headers := headers + [key];
      }
    }
    assert row[..|row|] == row;
    return Ok(headers);
  }

  /** The first of `columns` that is not among `headers`. */
  function FirstMissing(headers: seq<string>, columns: seq<string>): (r: Option<string>)
    ensures r.None? <==> forall c :: c in columns ==> c in headers
    ensures r.Some? ==> exists k :: 0 <= k < |columns| && columns[k] == r.value && r.value !in headers
                                    && forall j :: 0 <= j < k ==> columns[j] in headers
  {
    if |columns| == 0 then None
    else if columns[0] !in headers then Some(columns[0])
    else
      var r := FirstMissing(headers, columns[1..]);
      assert forall c :: c in columns ==> c == columns[0] || c in columns[1..];
      if r.Some? then
        var k :| 0 <= k < |columns[1..]| && columns[1..][k] == r.value && r.value !in headers
                 && forall j :: 0 <= j < k ==> columns[1..][j] in headers;
        assert columns[k + 1] == r.value;
        r
      else r
  }

  /** The loop over `required_columns` that raises on the first one missing. */
  method CheckRequired(headers: seq<string>) returns (missing: Option<string>)
    ensures missing == FirstMissing(headers, REQUIRED_COLUMNS)
  {
    for i := 0 to |REQUIRED_COLUMNS|
      invariant FirstMissing(headers, REQUIRED_COLUMNS) == FirstMissing(headers, REQUIRED_COLUMNS[i..])
    {
      assert REQUIRED_COLUMNS[i..][1..] == REQUIRED_COLUMNS[i + 1..];
      if REQUIRED_COLUMNS[i] !in headers {
        return Some(REQUIRED_COLUMNS[i]);
      }
    }
    return None;
  }

  // ---------------------------------------------------------------------------
  // Rows
  // ---------------------------------------------------------------------------

  /** `event[headers[col_idx]] = cell.value` for every cell whose position has a header. */
  function RowFields(headers: seq<string>, cells: seq<Cell>): Fields
    decreases |cells|
  {
    if |cells| == 0 then map[]
    else
      var j := |cells| - 1;
      var event := RowFields(headers, cells[..j]);
      if j < |headers| then event[headers[j] := cells[j]] else event
  }

  /** The inner loop over the cells of one row. */
  method BuildEvent(headers: seq<string>, cells: seq<Cell>) returns (event: Fields)
    ensures event == RowFields(headers, cells)
  {
    event := map[];
    for i := 0 to |cells|
      invariant event == RowFields(headers, cells[..i])
    {
      assert cells[..i + 1][..i] == cells[..i];
      if i < |headers| {
        event := event[headers[i] := cells[i]];
      }
    }
    assert cells[..|cells|] == cells;
  }

  /** The keys of a row are the headers of the positions the row reaches. */
  lemma {:induction false} RowFieldsKeys(headers: seq<string>, cells: seq<Cell>, k: string)
    ensures k in RowFields(headers, cells) <==> exists j :: 0 <= j < |cells| && j < |headers| && headers[j] == k
    decreases |cells|
  {
    if |cells| > 0 {
      var n := |cells| - 1;
      RowFieldsKeys(headers, cells[..n], k);
      if k in RowFields(headers, cells[..n]) {
        var j :| 0 <= j < |cells[..n]| && j < |headers| && headers[j] == k;
        assert 0 <= j < |cells|;
      }
      if exists j :: 0 <= j < |cells| && j < |headers| && headers[j] == k {
        var j :| 0 <= j < |cells| && j < |headers| && headers[j] == k;
        if j < n {
          assert 0 <= j < |cells[..n]|;
        }
      }
    }
  }

  /**
   * A key takes the cell at the last position whose header it is: cells
   * are matched by position in the filtered header list, and a repeated
   * header is overwritten by the later column.
   */
  lemma {:induction false} RowFieldsValue(headers: seq<string>, cells: seq<Cell>, j: nat)
    requires j < |cells| && j < |headers|
    requires forall i :: j < i < |cells| && i < |headers| ==> headers[i] != headers[j]
    ensures headers[j] in RowFields(headers, cells) && RowFields(headers, cells)[headers[j]] == cells[j]
    decreases |cells|
  {
    var n := |cells| - 1;
    if j < n {
      assert cells[..n][j] == cells[j];
      RowFieldsValue(headers, cells[..n], j);
    }
  }

  /** Cells at positions without a header are dropped. */
  lemma {:induction false} RowFieldsIgnoresExtraCells(headers: seq<string>, cells: seq<Cell>)
    requires |cells| > |headers|
    ensures RowFields(headers, cells) == RowFields(headers, cells[..|headers|])
    decreases |cells|
  {
    var n := |cells| - 1;
    if n > |headers| {
      RowFieldsIgnoresExtraCells(headers, cells[..n]);
      assert cells[..n][..|headers|] == cells[..|headers|];
    } else {
      assert cells[..n] == cells[..|headers|];
    }
  }

  /** What one data row contributes: skipped without a truthy date, else kept iff `validate_event` accepts it. */
  function KeptRow(headers: seq<string>, cells: seq<Cell>): Option<Fields> {
    var event := RowFields(headers, cells);
    if !Truthy(Get(event, "date")) then None
    else
      var checked := CheckEvent(event);
      if checked.ok then Some(checked.fields) else None
  }

  /** The events one row contributes: none or one. */
  function RowEvents(headers: seq<string>, cells: seq<Cell>): (r: seq<Fields>)
    ensures |r| <= 1
  {
    match KeptRow(headers, cells)
    case Some(e) => [e]
    case None => []
  }

  /** A row is kept exactly when `validate_event` accepts its dictionary, and then as validated. */
  lemma KeptRowMeaning(headers: seq<string>, cells: seq<Cell>)
    ensures var event := RowFields(headers, cells);
            && (KeptRow(headers, cells).Some? <==> AcceptsRow(event))
            && (KeptRow(headers, cells).Some? ==> KeptRow(headers, cells).value == CheckEvent(event).fields)
  {
  }

  /** What a sequence of items contributes, item by item and in order, when each item contributes `f(x)`. */
  function Gather<X, Y>(f: X -> seq<Y>, xs: seq<X>): seq<Y>
    decreases |xs|
  {
    if |xs| == 0 then []
    else
      var n := |xs| - 1;
      Gather(f, xs[..n]) + f(xs[n])
  }

  lemma AppendPrefix<T>(a: seq<T>, b: seq<T>)
    requires |b| > 0
    ensures (a + b)[..|a + b| - 1] == a + b[..|b| - 1] && (a + b)[|a + b| - 1] == b[|b| - 1]
  {
  }

  /** Items are handled independently and in order: gathering concatenated items concatenates the results. */
  lemma {:induction false} GatherAppend<X, Y>(f: X -> seq<Y>, a: seq<X>, b: seq<X>)
    ensures Gather(f, a + b) == Gather(f, a) + Gather(f, b)
    decreases |b|
  {
    if |b| == 0 {
      assert a + b == a;
    } else {
      var n := |b| - 1;
      AppendPrefix(a, b);
      GatherAppend(f, a, b[..n]);
    }
  }

  lemma GatherSingle<X, Y>(f: X -> seq<Y>, x: X)
    ensures Gather(f, [x]) == f(x)
  {
    assert [x][..0] == [];
  }

  /** A value is gathered exactly when some item contributes it. */
  lemma {:induction false} GatherMembers<X, Y>(f: X -> seq<Y>, xs: seq<X>, y: Y)
    ensures y in Gather(f, xs) <==> exists j :: 0 <= j < |xs| && y in f(xs[j])
    decreases |xs|
  {
    if |xs| > 0 {
      var n := |xs| - 1;
      GatherMembers(f, xs[..n], y);
      if y in Gather(f, xs[..n]) {
        var j :| 0 <= j < n && y in f(xs[..n][j]);
        assert xs[..n][j] == xs[j];
      }
      if exists j :: 0 <= j < |xs| && y in f(xs[j]) {
        var j :| 0 <= j < |xs| && y in f(xs[j]);
        if j < n {
          assert xs[..n][j] == xs[j];
        }
      }
    }
  }

  /** The events `parse_excel_file` collects from the data rows. */
  function ParseRows(headers: seq<string>, rows: seq<seq<Cell>>): seq<Fields> {
    Gather(cells => RowEvents(headers, cells), rows)
  }

  /** Parsing concatenated rows concatenates the events. */
  lemma ParseRowsAppend(headers: seq<string>, a: seq<seq<Cell>>, b: seq<seq<Cell>>)
    ensures ParseRows(headers, a + b) == ParseRows(headers, a) + ParseRows(headers, b)
  {
    GatherAppend(cells => RowEvents(headers, cells), a, b);
  }

  /** A single row yields its validated dictionary or nothing. */
  lemma ParseRowsSingle(headers: seq<string>, row: seq<Cell>)
    ensures ParseRows(headers, [row]) == RowEvents(headers, row)
  {
    GatherSingle(cells => RowEvents(headers, cells), row);
  }

  /** One more row appends what that row contributes. */
  lemma ParseRowsStep(headers: seq<string>, rows: seq<seq<Cell>>, i: nat)
    requires i < |rows|
    ensures ParseRows(headers, rows[..i + 1]) == ParseRows(headers, rows[..i]) + RowEvents(headers, rows[i])
  {
    assert rows[..i + 1] == rows[..i] + [rows[i]];
    ParseRowsAppend(headers, rows[..i], [rows[i]]);
    ParseRowsSingle(headers, rows[i]);
  }

  /** A row's kept dictionary, when it has one, is the row's single event. */
  lemma KeptRowEvents(headers: seq<string>, cells: seq<Cell>, e: Fields)
    ensures e in RowEvents(headers, cells) <==> KeptRow(headers, cells) == Some(e)
  {
  }

  /** Every collected event is the kept dictionary of some data row. */
  lemma ParseRowsSource(headers: seq<string>, rows: seq<seq<Cell>>, e: Fields) returns (j: nat)
    requires e in ParseRows(headers, rows)
    ensures j < |rows| && KeptRow(headers, rows[j]) == Some(e)
  {
    var f := cells => RowEvents(headers, cells);
    GatherMembers(f, rows, e);
    j :| 0 <= j < |rows| && e in f(rows[j]);
    KeptRowEvents(headers, rows[j], e);
  }

  /** The kept dictionary of every data row is collected. */
  lemma ParseRowsHas(headers: seq<string>, rows: seq<seq<Cell>>, j: nat)
    requires j < |rows| && KeptRow(headers, rows[j]).Some?
    ensures KeptRow(headers, rows[j]).value in ParseRows(headers, rows)
  {
    var f := cells => RowEvents(headers, cells);
    var e := KeptRow(headers, rows[j]).value;
    KeptRowEvents(headers, rows[j], e);
    assert e in f(rows[j]);
    GatherMembers(f, rows, e);
  }

  /** An event is collected exactly when it is the kept dictionary of some data row. */
  lemma ParseRowsMembers(headers: seq<string>, rows: seq<seq<Cell>>, e: Fields)
    ensures e in ParseRows(headers, rows) <==> exists j :: 0 <= j < |rows| && KeptRow(headers, rows[j]) == Some(e)
  {
    if e in ParseRows(headers, rows) {
      var j := ParseRowsSource(headers, rows, e);
    }
    if exists j :: 0 <= j < |rows| && KeptRow(headers, rows[j]) == Some(e) {
      var j :| 0 <= j < |rows| && KeptRow(headers, rows[j]) == Some(e);
      ParseRowsHas(headers, rows, j);
    }
  }

  /** Every event collected is a validated block record, and there are no more events than rows. */
  lemma {:induction false} ParseRowsAreRecords(headers: seq<string>, rows: seq<seq<Cell>>)
    ensures |ParseRows(headers, rows)| <= |rows|
    ensures forall e :: e in ParseRows(headers, rows) ==> IsBlockRecord(e)
    decreases |rows|
  {
    if |rows| > 0 {
      ParseRowsAreRecords(headers, rows[..|rows| - 1]);
    }
  }

  /**
   * `parse_excel_file` on a loaded sheet: headers normalised, the first
   * missing required column raised, otherwise the validated rows.
   */
  function ParseSheet(sheet: Sheet): (r: Result<seq<Fields>, SheetError>)
    ensures r.Ok? ==> |r.value| <= |sheet.rows| && forall e :: e in r.value ==> IsBlockRecord(e)
    ensures r.Ok? <==> HeaderKeys(sheet.header).Ok? && forall c :: c in REQUIRED_COLUMNS ==> c in HeaderKeys(sheet.header).value
    ensures r.Err? && r.error.MissingColumn? ==>
              && HeaderKeys(sheet.header).Ok?
              && r.error.name == FirstMissing(HeaderKeys(sheet.header).value, REQUIRED_COLUMNS).value
  {
    match HeaderKeys(sheet.header)
    case Err(e) => Err(e)
    case Ok(headers) =>
      match FirstMissing(headers, REQUIRED_COLUMNS)
      case Some(col) => Err(MissingColumn(col))
      case None =>
        ParseRowsAreRecords(headers, sheet.rows);
        Ok(ParseRows(headers, sheet.rows))
  }

  /** The events of a parsed sheet are those its data rows yield, row by row, under the sheet's headers. */
  lemma ParseSheetEvents(sheet: Sheet)
    ensures ParseSheet(sheet).Ok? ==>
              && HeaderKeys(sheet.header).Ok?
              && ParseSheet(sheet).value == ParseRows(HeaderKeys(sheet.header).value, sheet.rows)
  {
  }

  /** `parse_excel_file` after the workbook is loaded: the header loop, the column check and the row loop. */
  method ParseExcelFile(sheet: Sheet) returns (r: Result<seq<Fields>, SheetError>)
    ensures r == ParseSheet(sheet)
  {
    var headersOrError := ExtractHeaders(sheet.header);
    if headersOrError.Err? {
      return Err(headersOrError.error);
    }
    var headers := headersOrError.value;
    var missing := CheckRequired(headers);
    if missing.Some? {
      return Err(MissingColumn(missing.value));
    }
    var events: seq<Fields> := [];
    for i := 0 to |sheet.rows|
      invariant events == ParseRows(headers, sheet.rows[..i])
    {
      ParseRowsStep(headers, sheet.rows, i);
      var event := BuildEvent(headers, sheet.rows[i]);
      if !Truthy(Get(event, "date")) {
        continue;
      }
      var row := new EventRow(event);
      var ok := row.Validate();
      if ok {
        events := events + [row.fields];
      }
    }
    assert sheet.rows[..|sheet.rows|] == sheet.rows;
    return Ok(events);
  }
}
