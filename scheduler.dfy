/**
 * The configuration decision of the file organizer's scheduler: which job
 * `schedule_organizer` registers for a frequency and a time text, and the
 * arguments `main` passes it. The registration with the `schedule` library,
 * the run loop and the organizer process it starts are not modelled; a job
 * is a value.
 */
module Scheduler {
  import opened Wrappers
  import opened PyText

  /** A registered job. */
  datatype Plan =
    | EveryMinutes(minutes: nat)
    | DailyAt(time: string)
    | WeeklyAt(day: string, time: string)

  /** What `schedule_organizer` does before its run loop: register a job, return False, or raise IndexError. */
  datatype Decision = Registered(plan: Plan) | Rejected | Raised

  const WEEKDAYS: seq<string> := ["monday", "tuesday", "wednesday", "thursday", "friday", "saturday", "sunday"]

  const DEFAULT_DAY := "monday"
  const DEFAULT_TIME := "09:00"
  const DEFAULT_MINUTES := 60

  /** The weekly branch: a day and a time from the text when it holds a space, otherwise Monday at 09:00. */
  function WeeklyDecision(timeStr: string): Decision {
    if ' ' in timeStr then
      var words := Words(timeStr);
      if |words| < 2 then Raised
      else
        var day := Lower(words[0]);
        if day in WEEKDAYS then Registered(WeeklyAt(day, words[1])) else Rejected
    else
      Registered(WeeklyAt(DEFAULT_DAY, DEFAULT_TIME))
  }

  /**
   * `schedule_organizer`: the frequency is compared lower-cased with the
   * three it knows; `time_str.isdigit()` is `IsDigitString` on ASCII text.
   */
  function ScheduleFor(frequency: string, timeStr: string): Decision {
    var f := Lower(frequency);
    if f == "hourly" then
      Registered(EveryMinutes(if IsDigitString(timeStr) then DigitsValue(timeStr) else DEFAULT_MINUTES))
    else if f == "daily" then
      Registered(DailyAt(timeStr))
    else if f == "weekly" then
      WeeklyDecision(timeStr)
    else
      Rejected
  }

  /** The frequency is matched without regard to case. */
  lemma ScheduleIgnoresCase(frequency: string, timeStr: string)
    ensures ScheduleFor(frequency, timeStr) == ScheduleFor(Lower(frequency), timeStr)
  {
    LowerIsLowered(frequency);
  }

  /** A frequency other than the three registers nothing and returns False. */
  lemma UnknownFrequencyRejected(frequency: string, timeStr: string)
    requires Lower(frequency) !in {"hourly", "daily", "weekly"}
    ensures ScheduleFor(frequency, timeStr) == Rejected
  {
  }

  /** Hourly: every `int(time_str)` minutes when the text is digits, otherwise every 60. */
  lemma HourlyInterval(frequency: string, timeStr: string)
    requires Lower(frequency) == "hourly"
    ensures ScheduleFor(frequency, timeStr).Registered? && ScheduleFor(frequency, timeStr).plan.EveryMinutes?
    ensures IsDigitString(timeStr) ==> PyInt(timeStr) == Some(ScheduleFor(frequency, timeStr).plan.minutes as int)
    ensures !IsDigitString(timeStr) ==> ScheduleFor(frequency, timeStr).plan.minutes == DEFAULT_MINUTES
  {
    if IsDigitString(timeStr) {
      PyIntOfDigits(timeStr);
    }
  }

  /** Daily: registered at the time text exactly as given. */
  lemma DailyKeepsTime(frequency: string, timeStr: string)
    requires Lower(frequency) == "daily"
    ensures ScheduleFor(frequency, timeStr) == Registered(DailyAt(timeStr))
  {
  }

  /** Weekly without a space in the text: Monday at 09:00, whatever the text says. */
  lemma WeeklyDefault(timeStr: string)
    requires ' ' !in timeStr
    ensures WeeklyDecision(timeStr) == Registered(WeeklyAt(DEFAULT_DAY, DEFAULT_TIME))
  {
  }

  /** Weekly with a day and a time: registered on that day, lower-cased, exactly when it is a weekday name. */
  lemma WeeklyDayAndTime(day: string, time: string)
    requires IsWord(day) && IsWord(time)
    ensures WeeklyDecision(day + " " + time) ==
              if Lower(day) in WEEKDAYS then Registered(WeeklyAt(Lower(day), time)) else Rejected
  {
    var s := day + " " + time;
    assert s[|day|] == ' ';
    WordsOfTwo(day, time);
  }

  /** Weekly with a space but a single word, as in "monday ", raises IndexError. */
  lemma WeeklyOneWordRaises(day: string)
    requires IsWord(day)
    ensures WeeklyDecision(day + " ") == Raised
  {
    var s := day + " ";
    assert s[|day|] == ' ';
    WordsAfterWord(day, " ");
    assert " " == [' '] + [];
    WordsAfterSpace(' ', []);
  }

  /** A weekly job is only ever registered on one of the seven weekday names. */
  lemma WeeklyDayIsWeekday(frequency: string, timeStr: string)
    requires ScheduleFor(frequency, timeStr).Registered? && ScheduleFor(frequency, timeStr).plan.WeeklyAt?
    ensures ScheduleFor(frequency, timeStr).plan.day in WEEKDAYS
  {
  }

  // ---------------------------------------------------------------------------
  // main
  // ---------------------------------------------------------------------------

  /** The arguments `main` passes to `schedule_organizer`. */
  datatype Invocation = Invocation(directory: string, frequency: string, timeStr: string)

  /** `main`: None for the usage message and exit 1, otherwise the defaulted arguments. */
  function MainInvocation(argv: seq<string>): Option<Invocation> {
    if |argv| < 2 then None
    else
      var frequency := if |argv| > 2 then Lower(argv[2]) else "daily";
      var timeStr :=
        if frequency == "weekly" && |argv| > 4 then argv[3] + " " + argv[4]
        else if |argv| > 3 then argv[3]
        else if frequency != "hourly" then DEFAULT_TIME
        else "60";
      Some(Invocation(argv[1], frequency, timeStr))
  }

  /** The decision `main` leads to, or None when it stops at the usage message. */
  function MainDecision(argv: seq<string>): Option<Decision> {
    match MainInvocation(argv)
    case None => None
    case Some(inv) => Some(ScheduleFor(inv.frequency, inv.timeStr))
  }

  /** Without a directory argument nothing is scheduled. */
  lemma MainNeedsDirectory(argv: seq<string>)
    ensures MainDecision(argv).None? <==> |argv| < 2
  {
  }

  /** With only a directory, the organizer runs daily at 09:00. */
  lemma MainDefaultsToDaily(argv: seq<string>)
    requires |argv| == 2
    ensures MainInvocation(argv) == Some(Invocation(argv[1], "daily", DEFAULT_TIME))
    ensures MainDecision(argv) == Some(Registered(DailyAt(DEFAULT_TIME)))
  {
    assert Lower("daily") == "daily";
  }

  /** Hourly without a time runs every 60 minutes. */
  lemma MainHourlyDefault(argv: seq<string>)
    requires |argv| == 3 && Lower(argv[2]) == "hourly"
    ensures MainDecision(argv) == Some(Registered(EveryMinutes(DEFAULT_MINUTES)))
  {
    LowerIsLowered(argv[2]);
    var t := "60";
    assert t[..1] == "6";
    assert DigitsValue(t) == 10 * DigitsValue("6") + 0;
  }

  /** Weekly with a day and a time as two arguments joins them with a space. */
  lemma MainWeeklyJoins(argv: seq<string>)
    requires |argv| > 4 && Lower(argv[2]) == "weekly"
    ensures MainInvocation(argv).Some? && MainInvocation(argv).value.timeStr == argv[3] + " " + argv[4]
  {
  }

  /** Weekly with a weekday and a time as two words schedules that day at that time. */
  lemma MainWeeklyDay(argv: seq<string>)
    requires |argv| > 4 && Lower(argv[2]) == "weekly"
    requires IsWord(argv[3]) && IsWord(argv[4]) && Lower(argv[3]) in WEEKDAYS
    ensures MainDecision(argv) == Some(Registered(WeeklyAt(Lower(argv[3]), argv[4])))
  {
    LowerIsLowered(argv[2]);
    WeeklyDayAndTime(argv[3], argv[4]);
  }

  /** Weekly with a day but no time: the text holds no space, so the day given is ignored for Monday at 09:00. */
  lemma MainWeeklyDayOnly(argv: seq<string>)
    requires |argv| == 4 && Lower(argv[2]) == "weekly" && ' ' !in argv[3]
    ensures MainDecision(argv) == Some(Registered(WeeklyAt(DEFAULT_DAY, DEFAULT_TIME)))
  {
    LowerIsLowered(argv[2]);
  }
}
