/**
 * The sentence assembler of src/lib.rs (`prettify_cron` after the parse). It
 * derives flags from the six ordinal sets, walks a decision tree that builds
 * a list of clauses, and renders the list by dropping empty clauses and
 * joining the rest with single spaces.
 *
 * Sentence is the clause list as a value; PrettifyCron builds the same list
 * step by step, as the source does, and is proved to return Sentence.
 */
module Sentence {
  import opened Text
  import opened Classify
  import opened Lists
  import opened Phrases
  import opened Enumeration

  /** The six ordinal sets a parsed cron expression matches. */
  datatype Schedule = Schedule(
    seconds: seq<nat>,
    minutes: seq<nat>,
    hours: seq<nat>,
    daysOfMonth: seq<nat>,
    months: seq<nat>,
    daysOfWeek: seq<nat>)
  {
    /** Every field is a non-empty ordered set within its cron range. */
    predicate Valid() {
      && IsOrdinalSet(seconds, 0, 59)
      && IsOrdinalSet(minutes, 0, 59)
      && IsOrdinalSet(hours, 0, 23)
      && IsOrdinalSet(daysOfMonth, 1, 31)
      && IsOrdinalSet(months, 1, 12)
      && IsOrdinalSet(daysOfWeek, 1, 7)
    }
  }

  /** The booleans `prettify_cron` derives before it builds any clause. */
  datatype Flags = Flags(
    everySecond: bool,
    everyMinute: bool,
    everyHour: bool,
    everyWeekday: bool,
    everyDayInMonth: bool,
    everyMonth: bool,
    oneOrTwoSecondsPerMinute: bool,
    oneOrTwoMinutesPerHour: bool,
    oneOrTwoHoursPerDay: bool,
    onlySpecificDaysOfMonth: bool)

  /**
   * On a valid schedule the length test for days of the month agrees with
   * the full-range test, and a field that is all has too many values for the
   * compact branch.
   */
  function FlagsOf(s: Schedule, useSeconds: bool): (f: Flags)
    ensures s.Valid() ==> (f.onlySpecificDaysOfMonth <==> !f.everyDayInMonth)
    ensures s.Valid() && IsCompact(f) ==> !f.everySecond && !f.everyMinute && !f.everyHour
  {
    FullIffLength(s.daysOfMonth, 1, 31);
    Flags(
      useSeconds && IsFull(s.seconds, 0, 59),
      IsFull(s.minutes, 0, 59),
      IsFull(s.hours, 0, 23),
      IsFull(s.daysOfWeek, 1, 7),
      IsFull(s.daysOfMonth, 1, 31),
      IsFull(s.months, 1, 12),
      |s.seconds| <= 2,
      |s.minutes| <= 2,
      |s.hours| <= 2,
      |s.daysOfMonth| != 31)
  }

  /** One or two values in each of hours, minutes and seconds: the branch that emits no time clause. */
  predicate IsCompact(f: Flags) {
    f.oneOrTwoHoursPerDay && f.oneOrTwoMinutesPerHour && f.oneOrTwoSecondsPerMinute
  }

  /**
   * `hasSpecificSeconds`: more than one second but not all sixty, or one
   * second other than 0. On a valid seconds set: neither all sixty nor {0}.
   */
  predicate HasSpecificSeconds(seconds: seq<nat>)
    ensures IsOrdinalSet(seconds, 0, 59) ==>
      (HasSpecificSeconds(seconds) <==> !IsFull(seconds, 0, 59) && seconds != [0])
  {
    FullIffLength(seconds, 0, 59);
    (|seconds| > 1 && |seconds| < 60) || (|seconds| == 1 && seconds[0] != 0)
  }

  /**
   * The case in which the source replaces the clause list with ["On the"]:
   * hours and minutes not all, no specific seconds, minutes only on the hour.
   */
  predicate OpensOnTheHour(s: Schedule, useSeconds: bool)
    requires s.Valid()
  {
    var f := FlagsOf(s, useSeconds);
    !f.everyHour && !f.everyMinute && !HasSpecificSeconds(s.seconds) && IsOnTheHour(s.minutes)
  }

  /**
   * The first time clause: "On the" when the source replaces the clause list,
   * "Every" otherwise.
   */
  function TimeOpening(s: Schedule, useSeconds: bool): string
    requires s.Valid()
  {
    if OpensOnTheHour(s, useSeconds) then "On the" else "Every"
  }

  /**
   * The "beginning" clause: which unit the sentence counts in. It is empty,
   * "minute", or, when seconds are specific but not in use under every
   * minute and every hour, the seconds prefix glued to the minutes prefix.
   */
  function TimeBeginning(s: Schedule, useSeconds: bool): (b: string)
    requires s.Valid()
    ensures b in {"", "minute", "minuteminute"}
    ensures b == "minuteminute" <==>
      !useSeconds && HasSpecificSeconds(s.seconds) && IsFull(s.minutes, 0, 59) && IsFull(s.hours, 0, 23)
  {
    var f := FlagsOf(s, useSeconds);
    var seconds := SecondsTextParts(s.seconds);
    var minutes := MinutesTextParts(s.minutes);
    var specific := HasSpecificSeconds(s.seconds);
    var beginning := if specific then seconds.0 else "";
    EmptyConcat(minutes.0);
    assert beginning + "" == beginning;
    assert "minute" + "minute" == "minuteminute";
    if !f.everyHour then
      if !f.everyMinute && !(!specific && IsOnTheHour(s.minutes)) then minutes.0 else beginning
    else if !f.everyMinute then minutes.0
    else if f.everySecond && !f.everyMinute then seconds.0
    else if !useSeconds || !specific then beginning + minutes.0
    else beginning
  }

  /**
   * The "end" clause: which seconds, minutes and hours are meant. Unless
   * every hour matches, it closes with the hour list and the word "hour".
   */
  function TimeEnd(s: Schedule, useSeconds: bool): (e: string)
    requires s.Valid()
    ensures !IsFull(s.hours, 0, 23) ==> EndsWith(e, NumberListText(s.hours) + " hour")
  {
    var f := FlagsOf(s, useSeconds);
    var minutes := MinutesTextParts(s.minutes);
    var specific := HasSpecificSeconds(s.seconds);
    var end := if specific then SecondsTextParts(s.seconds).1 else "";
    if !f.everyHour then
      var end' := if specific then end + " on the " else end;
      if !f.everyMinute then
        var hours := NumberListText(s.hours) + " hour";
        if !specific && IsOnTheHour(s.minutes) then EndsWithConcat(end', hours); end' + hours
        else EndsWithConcat(end' + minutes.1 + " past the ", hours); end' + minutes.1 + " past the " + hours
      else
        var hours := NumberListText(s.hours) + " hour";
        assert end' + "minute of " + NumberListText(s.hours) + " hour" == end' + "minute of " + hours;
        EndsWithConcat(end' + "minute of ", hours);
        end' + "minute of " + NumberListText(s.hours) + " hour"
    else if !f.everyMinute then
      var pastEveryHour := !IsOnTheHour(s.minutes) && (f.onlySpecificDaysOfMonth || !f.everyWeekday || !f.everyMonth);
      var minutesEnd := end + minutes.1;
      if pastEveryHour then minutesEnd + " past every hour" else minutesEnd
    else end
  }

  /**
   * The clauses the time part of the schedule contributes: none in the
   * compact case, otherwise the opening, the beginning and the end clause.
   */
  function TimeClauses(s: Schedule, useSeconds: bool): seq<string>
    requires s.Valid()
  {
    if IsCompact(FlagsOf(s, useSeconds)) then []
    else [TimeOpening(s, useSeconds), TimeBeginning(s, useSeconds), TimeEnd(s, useSeconds)]
  }

  /** The day-of-month clauses: "on the <days>", then "of every month" when every month matches. */
  function DayOfMonthClauses(s: Schedule, f: Flags): seq<string>
    requires s.Valid()
  {
    if f.onlySpecificDaysOfMonth then
      var days := "on the " + NumberListText(s.daysOfMonth);
      if f.everyMonth then [days, "of every month"] else [days]
    else []
  }

  /** The day-of-week clauses: a connective, then the day names. */
  function DayOfWeekClauses(s: Schedule, f: Flags): seq<string>
    requires s.Valid()
  {
    if !f.everyWeekday then [if f.everyDayInMonth then "and every" else "on", DateListText(s.daysOfWeek, DOW)]
    else []
  }

  /**
   * The month clause, always present and always last: "day of every month"
   * when every month matches, otherwise "in " followed by the month list,
   * which reads back as the months.
   */
  function MonthClause(s: Schedule, f: Flags): (m: string)
    requires s.Valid()
    ensures m != ""
    ensures f.everyMonth ==> m == "day of every month"
    ensures !f.everyMonth ==> m == "in " + DateListText(s.months, MON)
    ensures !f.everyMonth ==> |m| > 3 && m[..3] == "in " && ParseDateList(m[3..], MON) == Some(s.months)
  {
    DateListRoundTrip(s.months, MON);
    var list := DateListText(s.months, MON);
    assert ("in " + list)[3..] == list;
    if f.everyMonth then "day of every month" else "in " + DateListText(s.months, MON)
  }

  /** Every clause of the sentence, in order, empty ones included. */
  function Clauses(s: Schedule, useSeconds: bool): seq<string>
    requires s.Valid()
  {
    var f := FlagsOf(s, useSeconds);
    TimeClauses(s, useSeconds) + DayOfMonthClauses(s, f) + DayOfWeekClauses(s, f) + [MonthClause(s, f)]
  }

  // ---------------------------------------------------------------- rendering

  /**
   * The non-empty parts, in order (`filter(|x| x.len() > 0)`): each
   * non-empty part is kept as often as it occurs, and nothing else is.
   */
  function NonEmpty(parts: seq<string>): (kept: seq<string>)
    ensures forall i :: 0 <= i < |kept| ==> kept[i] != ""
    ensures forall x :: x in kept ==> x in parts
    ensures forall x :: x in parts && x != "" ==> x in kept
    ensures forall x :: x != "" ==> multiset(kept)[x] == multiset(parts)[x]
  {
    if parts == [] then []
    else
      assert parts == [parts[0]] + parts[1..];
      if parts[0] == "" then NonEmpty(parts[1..])
      else [parts[0]] + NonEmpty(parts[1..])
  }

  /** The renderer: the non-empty clauses joined with single spaces. It is empty only when every clause is. */
  function Render(parts: seq<string>): (r: string)
    ensures r == "" <==> forall i :: 0 <= i < |parts| ==> parts[i] == ""
  {
    var kept := NonEmpty(parts);
    JoinEmptyIff(kept, " ");
    assert kept != [] ==> kept[0] in parts;
    assert forall i :: 0 <= i < |parts| ==> parts[i] in parts;
    Join(kept, " ")
  }

  /** Two texts side by side with one space between them, unless one of them is empty. */
  function Spaced(a: string, b: string): string {
    if a == "" then b else if b == "" then a else a + " " + b
  }

  /** The sentence `prettify_cron` returns. */
  function Sentence(s: Schedule, useSeconds: bool): string
    requires s.Valid()
  {
    Render(Clauses(s, useSeconds))
  }

  lemma PushTwo(parts: seq<string>, x: string, y: string)
    requires |parts| == 1
    ensures parts + [x] + [y] == [parts[0], x, y]
  {
  }

  lemma PushPair(parts: seq<string>, x: string, y: string)
    ensures parts + [x] + [y] == parts + [x, y]
  {
  }

  /**
   * The time part of `prettify_cron` outside the compact case: pushes
   * "Every", builds the beginning and end clauses piecewise (possibly
   * replacing the whole list with ["On the"]) and pushes them.
   */
  method TimeParts(s: Schedule, useSeconds: bool, f: Flags) returns (textParts: seq<string>)
    requires s.Valid() && f == FlagsOf(s, useSeconds) && !IsCompact(f)
    ensures textParts == TimeClauses(s, useSeconds)
  {
    ghost var opening, first, last := TimeOpening(s, useSeconds), TimeBeginning(s, useSeconds), TimeEnd(s, useSeconds);
    assert TimeClauses(s, useSeconds) == [opening, first, last];
    var seconds := SecondsTextParts(s.seconds);
    var minutes := MinutesTextParts(s.minutes);
    var beginning := "";
    var end := "";

    textParts := ["Every"];

    var hasSpecificSeconds :=
      (|s.seconds| > 1 && |s.seconds| < 60) || (|s.seconds| == 1 && s.seconds[0] != 0);
    if hasSpecificSeconds {
      beginning := seconds.0;
      end := seconds.1;
    }

    if !f.everyHour {
      if hasSpecificSeconds {
        end := end + " on the ";
      }
      if !f.everyMinute {
        var hourList := NumberList(s.hours);
        var hours := hourList + " hour";
        if !hasSpecificSeconds && IsOnTheHour(s.minutes) {
          textParts := ["On the"];
          end := end + hours;
        } else {
          beginning := minutes.0;
          end := end + minutes.1 + " past the " + hours;
        }
      } else {
        var hourList := NumberList(s.hours);
        end := end + "minute of " + hourList + " hour";
      }
    } else if !f.everyMinute {
      beginning := minutes.0;
      end := end + minutes.1;
      if !IsOnTheHour(s.minutes) && (f.onlySpecificDaysOfMonth || !f.everyWeekday || !f.everyMonth) {
        end := end + " past every hour";
      }
    } else if f.everySecond && !f.everyMinute {
      beginning := seconds.0;
    } else if !useSeconds || !hasSpecificSeconds {
      beginning := beginning + minutes.0;
    }

    assert textParts == [opening];
    assert beginning == first;
    assert end == last;
    PushTwo(textParts, beginning, end);
    textParts := textParts + [beginning];
    textParts := textParts + [end];
  }

  /**
   * The date part of `prettify_cron`: pushes the day-of-month clauses, the
   * day-of-week clauses and the month clause onto the clause list.
   */
  method DateParts(s: Schedule, useSeconds: bool, f: Flags, parts: seq<string>) returns (textParts: seq<string>)
    requires s.Valid() && f == FlagsOf(s, useSeconds)
    ensures textParts == parts + DayOfMonthClauses(s, f) + DayOfWeekClauses(s, f) + [MonthClause(s, f)]
  {
    textParts := parts;
    if f.onlySpecificDaysOfMonth {
      var dayList := NumberList(s.daysOfMonth);
      textParts := textParts + ["on the " + dayList];
      if f.everyMonth {
        PushPair(parts, "on the " + dayList, "of every month");
        textParts := textParts + ["of every month"];
      }
    }
    assert textParts == parts + DayOfMonthClauses(s, f);

    ghost var beforeDow := textParts;
    if !f.everyWeekday {
      if f.everyDayInMonth {
        textParts := textParts + ["and every"];
      } else {
        textParts := textParts + ["on"];
      }
      var weekdays := DateList(s.daysOfWeek, DOW);
      textParts := textParts + [weekdays];
      PushPair(beforeDow, if f.everyDayInMonth then "and every" else "on", weekdays);
    }
    assert textParts == beforeDow + DayOfWeekClauses(s, f);

    if f.everyMonth {
      textParts := textParts + ["day of every month"];
    } else {
      var monthList := DateList(s.months, MON);
      textParts := textParts + ["in " + monthList];
    }
  }

  /**
   * `prettify_cron` after the parse: derives the flags, pushes the time
   * clauses (none in the compact case) and the date clauses onto the clause
   * list, and renders the list at the end.
   */
  method PrettifyCron(s: Schedule, useSeconds: bool) returns (text: string)
    requires s.Valid()
    ensures text == Sentence(s, useSeconds)
  {
    var f := FlagsOf(s, useSeconds);
    var textParts: seq<string> := [];
    if f.oneOrTwoHoursPerDay && f.oneOrTwoMinutesPerHour && f.oneOrTwoSecondsPerMinute {
      // The clock-time listing this branch is meant for is not written: no clause is added.
    } else {
      textParts := TimeParts(s, useSeconds, f);
    }
    textParts := DateParts(s, useSeconds, f, textParts);
    text := Render(textParts);
  }

  // ---------------------------------------------------------------- rendering lemmas

  lemma {:induction false} NonEmptyAppend(a: seq<string>, b: seq<string>)
    ensures NonEmpty(a + b) == NonEmpty(a) + NonEmpty(b)
  {
    if a != [] {
      assert (a + b)[1..] == a[1..] + b;
      NonEmptyAppend(a[1..], b);
    } else {
      assert a + b == b;
    }
  }

  /** Rendering two clause lists one after the other puts their renderings side by side. */
  lemma RenderAppend(a: seq<string>, b: seq<string>)
    ensures Render(a + b) == Spaced(Render(a), Render(b))
  {
    NonEmptyAppend(a, b);
    var x, y := NonEmpty(a), NonEmpty(b);
    JoinEmptyIff(x, " ");
    JoinEmptyIff(y, " ");
    if x == [] {
      assert x + y == y;
    } else if y == [] {
      assert x + y == x;
    } else {
      JoinAppend(x, y, " ");
    }
  }

  lemma RenderSingle(a: string)
    ensures Render([a]) == a
  {
    assert [a][1..] == [];
    if a != "" {
      assert NonEmpty([a]) == [a] + [];
    } else {
      assert NonEmpty([a]) == NonEmpty([]) == [];
    }
  }

  lemma RenderPair(a: string, b: string)
    ensures Render([a, b]) == Spaced(a, b)
  {
    assert [a, b] == [a] + [b];
    RenderAppend([a], [b]);
    RenderSingle(a);
    RenderSingle(b);
  }

  // ---------------------------------------------------------------- layout

  lemma Regroup(t: seq<string>, d: seq<string>, w: seq<string>, m: seq<string>)
    ensures t + d + w + m == t + (d + w + m)
  {
  }

  /** The date clauses in the order the source pushes them. */
  function DateClauses(s: Schedule, f: Flags): seq<string>
    requires s.Valid()
  {
    DayOfMonthClauses(s, f) + DayOfWeekClauses(s, f) + [MonthClause(s, f)]
  }

  /**
   * The sentence is the time text followed by the date text, and the date
   * text is never empty: it always ends with the month clause.
   */
  lemma SentenceSplit(s: Schedule, useSeconds: bool)
    requires s.Valid()
    ensures Render(DateClauses(s, FlagsOf(s, useSeconds))) != ""
    ensures Sentence(s, useSeconds) ==
      Spaced(Render(TimeClauses(s, useSeconds)), Render(DateClauses(s, FlagsOf(s, useSeconds))))
  {
    var f := FlagsOf(s, useSeconds);
    var t, d, w, m := TimeClauses(s, useSeconds), DayOfMonthClauses(s, f), DayOfWeekClauses(s, f), MonthClause(s, f);
    Regroup(t, d, w, [m]);
    RenderAppend(t, d + w + [m]);
    RenderAppend(d + w, [m]);
    RenderSingle(m);
  }

  lemma ConnectiveGlue(x: string)
    ensures "and every" + " " + x == "and every " + x
    ensures "on" + " " + x == "on " + x
  {
  }

  /** The day-of-month phrase: "on the <days>", followed by " of every month" when every month matches. */
  lemma DayOfMonthTextLayout(s: Schedule, f: Flags)
    requires s.Valid()
    ensures Render(DayOfMonthClauses(s, f)) ==
      if !f.onlySpecificDaysOfMonth then ""
      else if f.everyMonth then "on the " + NumberListText(s.daysOfMonth) + " of every month"
      else "on the " + NumberListText(s.daysOfMonth)
  {
    if f.onlySpecificDaysOfMonth {
      var days := "on the " + NumberListText(s.daysOfMonth);
      if f.everyMonth {
        RenderPair(days, "of every month");
        assert days + " " + "of every month" == days + " of every month";
      } else {
        RenderSingle(days);
      }
    }
  }

  /** The day-of-week phrase: "and every" or "on", then the day names. */
  lemma DayOfWeekTextLayout(s: Schedule, f: Flags)
    requires s.Valid()
    ensures Render(DayOfWeekClauses(s, f)) ==
      if f.everyWeekday then ""
      else (if f.everyDayInMonth then "and every " else "on ") + DateListText(s.daysOfWeek, DOW)
  {
    if !f.everyWeekday {
      var list := DateListText(s.daysOfWeek, DOW);
      DateListWellSpaced(s.daysOfWeek, DOW);
      RenderPair(if f.everyDayInMonth then "and every" else "on", list);
      ConnectiveGlue(list);
    }
  }

  /**
   * The date text: the day-of-month phrase, then the day-of-week phrase,
   * then the month clause, each dropped when empty. The closed forms of the
   * two phrases are DayOfMonthTextLayout and DayOfWeekTextLayout.
   */
  lemma DateTextLayout(s: Schedule, f: Flags)
    requires s.Valid()
    ensures Render(DateClauses(s, f)) ==
      Spaced(Spaced(Render(DayOfMonthClauses(s, f)), Render(DayOfWeekClauses(s, f))), MonthClause(s, f))
  {
    var d, w, m := DayOfMonthClauses(s, f), DayOfWeekClauses(s, f), MonthClause(s, f);
    RenderAppend(d + w, [m]);
    RenderAppend(d, w);
    RenderSingle(m);
  }

  lemma RenderTriple(a: string, b: string, c: string)
    ensures Render([a, b, c]) == Spaced(a, Spaced(b, c))
  {
    assert [a, b, c] == [a] + [b, c];
    RenderAppend([a], [b, c]);
    RenderSingle(a);
    RenderPair(b, c);
  }

  /** Outside the compact case the time text is the opening, then the beginning and end clauses. */
  lemma TimeTextLayout(s: Schedule, useSeconds: bool)
    requires s.Valid() && !IsCompact(FlagsOf(s, useSeconds))
    ensures Render(TimeClauses(s, useSeconds)) ==
      Spaced(TimeOpening(s, useSeconds), Spaced(TimeBeginning(s, useSeconds), TimeEnd(s, useSeconds)))
  {
    RenderTriple(TimeOpening(s, useSeconds), TimeBeginning(s, useSeconds), TimeEnd(s, useSeconds));
  }

  /** When the clause list is replaced with ["On the"], the beginning clause is empty and the end clause names the hours. */
  lemma OnTheHourClauses(s: Schedule, useSeconds: bool)
    requires s.Valid() && OpensOnTheHour(s, useSeconds)
    ensures TimeBeginning(s, useSeconds) == ""
    ensures TimeEnd(s, useSeconds) == NumberListText(s.hours) + " hour"
  {
    EmptyConcat(NumberListText(s.hours) + " hour");
  }

  lemma OpeningGlue(o: string, spaced: string, x: string, d: string)
    requires o != "" && d != "" && spaced == o + " "
    ensures Spaced(Spaced(o, x), d) == spaced + Spaced(x, d)
  {
    if x != "" {
      assert o + " " + x + " " + d == (o + " ") + (x + " " + d);
    }
  }

  lemma OpeningWords()
    ensures "Every" + " " == "Every "
    ensures "On the" + " " == "On the "
  {
  }

  lemma HourGlue(hours: string, d: string)
    ensures "On the " + ((hours + " hour") + " " + d) == "On the " + hours + " hour " + d
  {
  }

  /**
   * With at most two values in each of hours, minutes and seconds there is no
   * time clause: the sentence is the date text alone.
   */
  lemma CompactSentence(s: Schedule, useSeconds: bool)
    requires s.Valid() && IsCompact(FlagsOf(s, useSeconds))
    ensures Sentence(s, useSeconds) == Render(DateClauses(s, FlagsOf(s, useSeconds)))
  {
    SentenceSplit(s, useSeconds);
  }

  /**
   * Hours and minutes not all, no specific seconds and minutes {0}: the
   * clause list was replaced, and the sentence reads "On the <hours> hour",
   * then the date text.
   */
  lemma OnTheHourSentence(s: Schedule, useSeconds: bool)
    requires s.Valid() && !IsCompact(FlagsOf(s, useSeconds)) && OpensOnTheHour(s, useSeconds)
    ensures Sentence(s, useSeconds) ==
      "On the " + NumberListText(s.hours) + " hour " + Render(DateClauses(s, FlagsOf(s, useSeconds)))
  {
    var d := Render(DateClauses(s, FlagsOf(s, useSeconds)));
    SentenceSplit(s, useSeconds);
    TimeTextLayout(s, useSeconds);
    OnTheHourClauses(s, useSeconds);
    OpeningWords();
    OpeningGlue("On the", "On the ", TimeEnd(s, useSeconds), d);
    HourGlue(NumberListText(s.hours), d);
  }

  /** In every other case with a time clause the sentence opens with "Every". */
  lemma EverySentence(s: Schedule, useSeconds: bool)
    requires s.Valid() && !IsCompact(FlagsOf(s, useSeconds)) && !OpensOnTheHour(s, useSeconds)
    ensures Sentence(s, useSeconds) ==
      "Every " + Spaced(Spaced(TimeBeginning(s, useSeconds), TimeEnd(s, useSeconds)), Render(DateClauses(s, FlagsOf(s, useSeconds))))
  {
    var d := Render(DateClauses(s, FlagsOf(s, useSeconds)));
    SentenceSplit(s, useSeconds);
    TimeTextLayout(s, useSeconds);
    OpeningWords();
    OpeningGlue("Every", "Every ", Spaced(TimeBeginning(s, useSeconds), TimeEnd(s, useSeconds)), d);
  }

  // ---------------------------------------------------------------- spacing

  /** Rendering well-spaced clauses gives a well-spaced text. */
  lemma RenderWellSpaced(parts: seq<string>)
    requires forall i :: 0 <= i < |parts| ==> WellSpaced(parts[i])
    ensures WellSpaced(Render(parts))
  {
    var kept := NonEmpty(parts);
    forall i | 0 <= i < |kept|
      ensures kept[i] != "" && WellSpaced(kept[i])
    {
      assert kept[i] in parts;
    }
    JoinSpaceWellSpaced(kept);
  }

  lemma SpacedIsWellSpaced(a: string, b: string)
    requires WellSpaced(a) && WellSpaced(b)
    ensures WellSpaced(Spaced(a, b))
  {
    if a != "" && b != "" {
      SpacedWellSpaced(a, b);
    }
  }

  /** Two non-empty well-spaced texts with a well-spaced word group between them. */
  lemma Glue(a: string, w: string, b: string)
    requires a != "" && w != "" && b != "" && WellSpaced(a) && WellSpaced(w) && WellSpaced(b)
    ensures WellSpaced(a + " " + w + " " + b)
  {
    SpacedWellSpaced(a, w);
    SpacedWellSpaced(a + " " + w, b);
  }

  lemma HoursWellSpaced(list: string)
    requires list != "" && WellSpaced(list)
    ensures WellSpaced(list + " hour") && list + " hour" != ""
  {
    SpacedWellSpaced(list, "hour");
    assert list + " " + "hour" == list + " hour";
  }

  lemma PastTheWellSpaced(m: string, h: string)
    requires m != "" && h != "" && WellSpaced(m) && WellSpaced(h)
    ensures WellSpaced(m + " past the " + h)
  {
    Glue(m, "past the", h);
    assert m + " past the " + h == m + " " + "past the" + " " + h;
  }

  lemma OnThePastTheWellSpaced(e: string, m: string, h: string)
    requires e != "" && m != "" && h != "" && WellSpaced(e) && WellSpaced(m) && WellSpaced(h)
    ensures WellSpaced(e + " on the " + m + " past the " + h)
  {
    PastTheWellSpaced(m, h);
    var x := m + " past the " + h;
    Glue(e, "on the", x);
    assert e + " on the " + m + " past the " + h == e + " " + "on the" + " " + x;
  }

  lemma MinuteOfWellSpaced(list: string)
    requires list != "" && WellSpaced(list)
    ensures WellSpaced("minute of " + list + " hour")
  {
    Glue("minute of", list, "hour");
    assert "minute of " + list + " hour" == "minute of" + " " + list + " " + "hour";
  }

  lemma OnTheMinuteOfWellSpaced(e: string, list: string)
    requires e != "" && list != "" && WellSpaced(e) && WellSpaced(list)
    ensures WellSpaced(e + " on the " + "minute of " + list + " hour")
  {
    MinuteOfWellSpaced(list);
    var x := "minute of " + list + " hour";
    Glue(e, "on the", x);
    assert e + " on the " + "minute of " + list + " hour" == e + " " + "on the" + " " + x;
  }

  lemma PastEveryHourWellSpaced(x: string)
    requires x != "" && WellSpaced(x)
    ensures WellSpaced(x + " past every hour")
  {
    SpacedWellSpaced(x, "past every hour");
    assert x + " " + "past every hour" == x + " past every hour";
  }

  lemma MinuteWordWellSpaced()
    ensures WellSpaced("minute") && WellSpaced("")
  {
  }

  /** The beginning clause is well spaced: it never contains a space. */
  lemma BeginningWellSpaced(s: Schedule, useSeconds: bool)
    requires s.Valid()
    ensures WellSpaced(TimeBeginning(s, useSeconds))
  {
    var seconds := SecondsTextParts(s.seconds);
    var minutes := MinutesTextParts(s.minutes);
    if !IsFull(s.minutes, 0, 59) {
      MinutesSuffixWellSpaced(s.minutes);
    }
    MinuteWordWellSpaced();
    var beginning := if HasSpecificSeconds(s.seconds) then seconds.0 else "";
    ConcatWellSpaced(beginning, minutes.0);
  }

  /** The end clause when the hours are not all. */
  lemma SpecificHoursEndWellSpaced(s: Schedule, useSeconds: bool)
    requires s.Valid() && !FlagsOf(s, useSeconds).everyHour
    ensures WellSpaced(TimeEnd(s, useSeconds))
  {
    var specific := HasSpecificSeconds(s.seconds);
    var e := SecondsTextParts(s.seconds).1;
    SecondsSuffixWellSpaced(s.seconds);
    var list := NumberListText(s.hours);
    NumberListWellSpaced(s.hours);
    if !IsFull(s.minutes, 0, 59) {
      var m := MinutesTextParts(s.minutes).1;
      MinutesSuffixWellSpaced(s.minutes);
      HoursWellSpaced(list);
      if !specific && IsOnTheHour(s.minutes) {
        EmptyConcat(list + " hour");
      } else if specific {
        OnThePastTheWellSpaced(e, m, list + " hour");
      } else {
        EmptyConcat(m);
        PastTheWellSpaced(m, list + " hour");
      }
    } else if specific {
      OnTheMinuteOfWellSpaced(e, list);
    } else {
      EmptyConcat("minute of ");
      MinuteOfWellSpaced(list);
    }
  }

  /** The end clause when every hour matches. */
  lemma EveryHourEndWellSpaced(s: Schedule, useSeconds: bool)
    requires s.Valid() && FlagsOf(s, useSeconds).everyHour
    ensures WellSpaced(TimeEnd(s, useSeconds))
  {
    SecondsSuffixWellSpaced(s.seconds);
    MinuteWordWellSpaced();
    var end := if HasSpecificSeconds(s.seconds) then SecondsTextParts(s.seconds).1 else "";
    if !IsFull(s.minutes, 0, 59) {
      var m := MinutesTextParts(s.minutes).1;
      MinutesSuffixWellSpaced(s.minutes);
      ConcatWellSpaced(end, m);
      PastEveryHourWellSpaced(end + m);
    }
  }

  lemma OpeningWordsWellSpaced()
    ensures WellSpaced("Every") && WellSpaced("On the")
  {
  }

  /** The time text is well spaced. */
  lemma TimeTextWellSpaced(s: Schedule, useSeconds: bool)
    requires s.Valid()
    ensures WellSpaced(Render(TimeClauses(s, useSeconds)))
  {
    if IsCompact(FlagsOf(s, useSeconds)) {
      assert Render(TimeClauses(s, useSeconds)) == "";
    } else {
      TimeTextLayout(s, useSeconds);
      OpeningWordsWellSpaced();
      BeginningWellSpaced(s, useSeconds);
      if FlagsOf(s, useSeconds).everyHour {
        EveryHourEndWellSpaced(s, useSeconds);
      } else {
        SpecificHoursEndWellSpaced(s, useSeconds);
      }
      SpacedIsWellSpaced(TimeBeginning(s, useSeconds), TimeEnd(s, useSeconds));
      SpacedIsWellSpaced(TimeOpening(s, useSeconds), Spaced(TimeBeginning(s, useSeconds), TimeEnd(s, useSeconds)));
    }
  }

  lemma PrefixWellSpaced(w: string, list: string)
    requires w != "" && list != "" && WellSpaced(w) && WellSpaced(list)
    ensures WellSpaced(w + " " + list)
  {
    SpacedWellSpaced(w, list);
  }

  lemma DateWordsWellSpaced()
    ensures WellSpaced("on the") && WellSpaced("of every month") && WellSpaced("and every")
    ensures WellSpaced("on") && WellSpaced("in") && WellSpaced("day of every month")
  {
  }

  lemma DaysOfMonthWellSpaced(list: string)
    requires list != "" && WellSpaced(list)
    ensures WellSpaced("on the " + list) && WellSpaced("on the " + list + " of every month")
  {
    DateWordsWellSpaced();
    PrefixWellSpaced("on the", list);
    assert "on the" + " " + list == "on the " + list;
    SpacedWellSpaced("on the " + list, "of every month");
    assert "on the " + list + " " + "of every month" == "on the " + list + " of every month";
  }

  lemma ConnectiveWellSpaced(list: string)
    requires list != "" && WellSpaced(list)
    ensures WellSpaced("and every " + list) && WellSpaced("on " + list) && WellSpaced("in " + list)
  {
    DateWordsWellSpaced();
    PrefixWellSpaced("and every", list);
    PrefixWellSpaced("on", list);
    PrefixWellSpaced("in", list);
    assert "and every" + " " + list == "and every " + list;
    assert "on" + " " + list == "on " + list;
    assert "in" + " " + list == "in " + list;
  }

  lemma DayOfMonthTextWellSpaced(s: Schedule, f: Flags)
    requires s.Valid()
    ensures WellSpaced(Render(DayOfMonthClauses(s, f)))
  {
    if f.onlySpecificDaysOfMonth {
      DateWordsWellSpaced();
      NumberListWellSpaced(s.daysOfMonth);
      DaysOfMonthWellSpaced(NumberListText(s.daysOfMonth));
      RenderWellSpaced(DayOfMonthClauses(s, f));
    } else {
      assert Render(DayOfMonthClauses(s, f)) == "";
    }
  }

  lemma DayOfWeekTextWellSpaced(s: Schedule, f: Flags)
    requires s.Valid()
    ensures WellSpaced(Render(DayOfWeekClauses(s, f)))
  {
    if !f.everyWeekday {
      DateWordsWellSpaced();
      DateListWellSpaced(s.daysOfWeek, DOW);
      RenderWellSpaced(DayOfWeekClauses(s, f));
    } else {
      assert Render(DayOfWeekClauses(s, f)) == "";
    }
  }

  lemma MonthClauseWellSpaced(s: Schedule, f: Flags)
    requires s.Valid()
    ensures WellSpaced(MonthClause(s, f))
  {
    DateWordsWellSpaced();
    DateListWellSpaced(s.months, MON);
    ConnectiveWellSpaced(DateListText(s.months, MON));
  }

  /** The date text is well spaced. */
  lemma DateTextWellSpaced(s: Schedule, f: Flags)
    requires s.Valid()
    ensures WellSpaced(Render(DateClauses(s, f)))
  {
    var d, w, m := DayOfMonthClauses(s, f), DayOfWeekClauses(s, f), MonthClause(s, f);
    RenderAppend(d + w, [m]);
    RenderAppend(d, w);
    RenderSingle(m);
    DayOfMonthTextWellSpaced(s, f);
    DayOfWeekTextWellSpaced(s, f);
    MonthClauseWellSpaced(s, f);
    SpacedIsWellSpaced(Render(d), Render(w));
    SpacedIsWellSpaced(Spaced(Render(d), Render(w)), m);
  }

  /**
   * Every sentence is non-empty and well spaced: it neither starts nor ends
   * with a space and never holds two spaces in a row, whatever clauses were
   * left empty.
   */
  lemma SentenceWellSpaced(s: Schedule, useSeconds: bool)
    requires s.Valid()
    ensures Sentence(s, useSeconds) != ""
    ensures WellSpaced(Sentence(s, useSeconds))
  {
    SentenceSplit(s, useSeconds);
    TimeTextWellSpaced(s, useSeconds);
    DateTextWellSpaced(s, FlagsOf(s, useSeconds));
    SpacedIsWellSpaced(Render(TimeClauses(s, useSeconds)), Render(DateClauses(s, FlagsOf(s, useSeconds))));
  }
}
