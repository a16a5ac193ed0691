/**
 * Sentences for a few concrete schedules, derived from the general lemmas.
 * Each one pins down a behaviour of `prettify_cron` as written, including
 * the ones where it departs from its own comments or from the JavaScript it
 * was ported from, which src/lib.rs keeps as a comment.
 */
module Scenarios {
  import opened Text
  import opened Classify
  import opened Lists
  import opened Phrases
  import opened Sentence

  /** A schedule with every field full except the time fields given. */
  function TimeSchedule(seconds: seq<nat>, minutes: seq<nat>, hours: seq<nat>): (s: Schedule)
    ensures IsOrdinalSet(seconds, 0, 59) && IsOrdinalSet(minutes, 0, 59) && IsOrdinalSet(hours, 0, 23) ==> s.Valid()
  {
    Schedule(seconds, minutes, hours, FullRange(1, 31), FullRange(1, 12), FullRange(1, 7))
  }

  /** With every date field full the date text is the month clause alone. */
  lemma EveryDayText(s: Schedule, useSeconds: bool)
    requires s.Valid()
    requires s.daysOfMonth == FullRange(1, 31) && s.months == FullRange(1, 12) && s.daysOfWeek == FullRange(1, 7)
    ensures Render(DateClauses(s, FlagsOf(s, useSeconds))) == "day of every month"
  {
    DateTextLayout(s, FlagsOf(s, useSeconds));
    DayOfMonthTextLayout(s, FlagsOf(s, useSeconds));
    DayOfWeekTextLayout(s, FlagsOf(s, useSeconds));
  }

  lemma Assoc4(o: string, a: string, b: string, c: string)
    ensures o + (a + " " + b + " " + c) == o + a + " " + b + " " + c
  {
  }

  lemma EveryMinuteWords()
    ensures "Every " + ("minute" + " " + "day of every month") == "Every minute day of every month"
  {
    calc {
      "Every " + ("minute" + " " + "day of every month");
      "Every " + "minute" + " " + "day of every month";
      { assert "Every " + "minute" + " " == "Every minute "; }
      "Every minute " + "day of every month";
    }
  }

  /**
   * Every field full ("* * * * * *"), or second 0 of every minute
   * ("0 * * * * *"): the sentence counts minutes in both cases, even when
   * seconds are used and every second matches.
   */
  lemma EveryMinute(seconds: seq<nat>, useSeconds: bool)
    requires seconds == FullRange(0, 59) || seconds == [0]
    ensures Sentence.Sentence(TimeSchedule(seconds, FullRange(0, 59), FullRange(0, 23)), useSeconds) ==
      "Every minute day of every month"
  {
    var s := TimeSchedule(seconds, FullRange(0, 59), FullRange(0, 23));
    EveryDayText(s, useSeconds);
    EverySentence(s, useSeconds);
    EmptyConcat("minute");
    assert TimeBeginning(s, useSeconds) == "minute";
    assert TimeEnd(s, useSeconds) == "";
    EveryMinuteWords();
  }

  lemma HourlyWords()
    ensures "Every " + ("hour, on the hour" + " " + "day of every month") == "Every hour, on the hour day of every month"
  {
    calc {
      "Every " + ("hour, on the hour" + " " + "day of every month");
      "Every " + "hour, on the hour" + " " + "day of every month";
      { assert "Every " + "hour, on the hour" == "Every hour, on the hour"; }
      "Every hour, on the hour" + " " + "day of every month";
    }
  }

  /** Second 0 and minute 0 of every hour ("0 0 * * * *"). */
  lemma Hourly(useSeconds: bool)
    ensures Sentence.Sentence(TimeSchedule([0], [0], FullRange(0, 23)), useSeconds) ==
      "Every hour, on the hour day of every month"
  {
    var s := TimeSchedule([0], [0], FullRange(0, 23));
    EveryDayText(s, useSeconds);
    EverySentence(s, useSeconds);
    EmptyConcat("hour, on the hour");
    assert TimeBeginning(s, useSeconds) == "";
    assert TimeEnd(s, useSeconds) == "hour, on the hour";
    HourlyWords();
  }

  lemma ThreeHoursList()
    ensures NumberListText([1, 2, 3]) == "1, 2 and 3"
  {
    NumberListShape([1, 2, 3]);
    assert [1, 2, 3][..2] == [1, 2];
    assert DecimalItems([1, 2]) == ["1", "2"];
    assert Join(["1", "2"], ", ") == "1, 2";
  }

  lemma ThreeHoursWords()
    ensures "On the " + "1, 2 and 3" + " hour " + "day of every month" == "On the 1, 2 and 3 hour day of every month"
  {
    assert "On the " + "1, 2 and 3" == "On the 1, 2 and 3";
  }

  lemma OnTheHoursFlags(useSeconds: bool)
    ensures TimeSchedule([0], [0], [1, 2, 3]).Valid()
    ensures !IsCompact(FlagsOf(TimeSchedule([0], [0], [1, 2, 3]), useSeconds))
    ensures OpensOnTheHour(TimeSchedule([0], [0], [1, 2, 3]), useSeconds)
  {
    assert IsOrdinalSet([1, 2, 3], 0, 23);
  }

  /** Minute 0 of three specific hours ("0 0 1,2,3 * * *"): the clause list opens with "On the". */
  lemma OnTheHours(useSeconds: bool)
    ensures Sentence.Sentence(TimeSchedule([0], [0], [1, 2, 3]), useSeconds) ==
      "On the 1, 2 and 3 hour day of every month"
  {
    var s := TimeSchedule([0], [0], [1, 2, 3]);
    OnTheHoursFlags(useSeconds);
    EveryDayText(s, useSeconds);
    OnTheHourSentence(s, useSeconds);
    ThreeHoursList();
    ThreeHoursWords();
  }

  /**
   * One second, one minute and one hour ("0 30 9 * * *"): the branch meant to
   * print a clock time is empty, so the sentence has no time at all.
   */
  lemma SingleTime(useSeconds: bool)
    ensures Sentence.Sentence(TimeSchedule([0], [30], [9]), useSeconds) == "day of every month"
  {
    var s := TimeSchedule([0], [30], [9]);
    EveryDayText(s, useSeconds);
    CompactSentence(s, useSeconds);
  }

  lemma MinuteMinuteBeginning()
    ensures TimeSchedule([15], FullRange(0, 59), FullRange(0, 23)).Valid()
    ensures !IsCompact(FlagsOf(TimeSchedule([15], FullRange(0, 59), FullRange(0, 23)), false))
    ensures !OpensOnTheHour(TimeSchedule([15], FullRange(0, 59), FullRange(0, 23)), false)
    ensures TimeBeginning(TimeSchedule([15], FullRange(0, 59), FullRange(0, 23)), false) == "minuteminute"
  {
  }

  lemma MinuteMinuteEnd()
    ensures TimeSchedule([15], FullRange(0, 59), FullRange(0, 23)).Valid()
    ensures TimeEnd(TimeSchedule([15], FullRange(0, 59), FullRange(0, 23)), false) == "starting on the 15 second"
  {
    NumberListShape([15]);
    assert "starting on the " + "15" + " second" == "starting on the 15 second";
  }

  lemma MinuteMinuteOpening()
    ensures "Every " + "minuteminute" + " " == "Every minuteminute "
  {
  }

  lemma MinuteMinuteMiddle()
    ensures "Every minuteminute " + "starting on the 15 second" == "Every minuteminute starting on the 15 second"
  {
  }

  lemma MinuteMinuteClosing()
    ensures "Every minuteminute starting on the 15 second" + " " + "day of every month" ==
      "Every minuteminute starting on the 15 second day of every month"
  {
  }

  lemma MinuteMinuteWords()
    ensures "Every " + ("minuteminute" + " " + "starting on the 15 second" + " " + "day of every month") ==
      "Every minuteminute starting on the 15 second day of every month"
  {
    Assoc4("Every ", "minuteminute", "starting on the 15 second", "day of every month");
    MinuteMinuteOpening();
    MinuteMinuteMiddle();
    MinuteMinuteClosing();
  }

  /**
   * Second 15 of every minute without seconds in use: the minutes prefix is
   * appended to the seconds prefix with nothing between them.
   */
  lemma MinuteMinute()
    ensures Sentence.Sentence(TimeSchedule([15], FullRange(0, 59), FullRange(0, 23)), false) ==
      "Every minuteminute starting on the 15 second day of every month"
  {
    var s := TimeSchedule([15], FullRange(0, 59), FullRange(0, 23));
    MinuteMinuteBeginning();
    MinuteMinuteEnd();
    EveryDayText(s, false);
    EverySentence(s, false);
    MinuteMinuteWords();
  }

  /** Every minute of every day, but only one day of the week ("* * * * * 2"). */
  function WeekdaySchedule(): (s: Schedule)
    ensures s.Valid()
  {
    Schedule(FullRange(0, 59), FullRange(0, 59), FullRange(0, 23), FullRange(1, 31), FullRange(1, 12), [2])
  }

  lemma WeekdayDateText(useSeconds: bool)
    ensures Render(DateClauses(WeekdaySchedule(), FlagsOf(WeekdaySchedule(), useSeconds))) ==
      "and every DAY(1) day of every month"
  {
    var s := WeekdaySchedule();
    DateTextLayout(s, FlagsOf(s, useSeconds));
    DayOfMonthTextLayout(s, FlagsOf(s, useSeconds));
    DayOfWeekTextLayout(s, FlagsOf(s, useSeconds));
    WeekdayName();
    WeekdayDateWords();
  }

  lemma WeekdayName()
    ensures DateListText([2], DOW) == "DAY(1)"
  {
    DateListShape([2], DOW);
    assert "DAY(" + "1" + ")" == "DAY(1)";
  }

  lemma WeekdayDateWords()
    ensures Spaced(Spaced("", "and every " + "DAY(1)"), "day of every month") == "and every DAY(1) day of every month"
  {
    assert "and every " + "DAY(1)" == "and every DAY(1)";
  }

  lemma WeekdayTimeClauses(useSeconds: bool)
    ensures !IsCompact(FlagsOf(WeekdaySchedule(), useSeconds))
    ensures !OpensOnTheHour(WeekdaySchedule(), useSeconds)
    ensures TimeBeginning(WeekdaySchedule(), useSeconds) == "minute"
    ensures TimeEnd(WeekdaySchedule(), useSeconds) == ""
  {
    EmptyConcat("minute");
  }

  lemma WeekdayOpening()
    ensures "Every " + "minute" + " " + "and every DAY(1)" == "Every minute and every DAY(1)"
  {
  }

  lemma WeekdayClosing()
    ensures "Every minute and every DAY(1)" + " " + "day of every month" == "Every minute and every DAY(1) day of every month"
  {
  }

  lemma WeekdayWords()
    ensures "Every " + ("minute" + " " + "and every DAY(1) day of every month") ==
      "Every minute and every DAY(1) day of every month"
  {
    Assoc4("Every ", "minute", "and every DAY(1)", "day of every month");
    assert "and every DAY(1) day of every month" == "and every DAY(1)" + " " + "day of every month";
    WeekdayOpening();
    WeekdayClosing();
  }

  /**
   * A day of the week with every day of the month: the connective is
   * "and every", the one the source means for both day fields restricted.
   */
  lemma OneWeekday(useSeconds: bool)
    ensures Sentence.Sentence(WeekdaySchedule(), useSeconds) == "Every minute and every DAY(1) day of every month"
  {
    WeekdayTimeClauses(useSeconds);
    WeekdayDateText(useSeconds);
    EverySentence(WeekdaySchedule(), useSeconds);
    WeekdayWords();
  }
}
