# pretty-cron sentence generator, modelled in Dafny

pretty-cron turns a cron schedule into an English sentence. The Rust crate
parses the cron expression into six ordered sets of values. These are the
seconds, minutes, hours, days of the month, months and days of the week. It
then builds the sentence from those sets in `prettify_cron`, using these
helpers:

- classifiers (`step_size`, `isEveryOther`, `isTwicePerHour`, `isOnTheHour`,
  `isStepValue`);
- list formatters (`number_list`, `numberToDateName`, `date_list`);
- per-field phrase builders (`getMinutesTextParts`, `getSecondsTextParts`).

This project models that sentence generator. The modules follow the parts
of `src/lib.rs`:

| module | what it holds |
|---|---|
| `Decimal` | decimal rendering of naturals (`format!("{}")`, `to_string`) and its inverse |
| `Text` | `join` and the well-spacing predicate (no leading, trailing or double space) |
| `Enumeration` | the English enumeration "a, b and c" shared by both list formatters, with a parser that reads it back |
| `Classify` | ordinal sets (strictly increasing, within the field's range), full-range tests, `step_size`, the classifiers |
| `Lists` | `number_list` and `date_list` as loop-and-pop methods, `numberToDateName`, and their round trips |
| `Phrases` | `getMinutesTextParts` and `getSecondsTextParts` |
| `Sentence` | the flags, the clause tree, rendering, the `prettify_cron` method, its layout and spacing theorems |
| `Scenarios` | sentences for concrete schedules |

The source has three imperative parts. Each is modelled as a method and
proved equal to a specification function:

- The `prettify_cron` body, after the parse, becomes the method
  `Sentence.PrettifyCron`. It pushes to and reassigns a clause vector and
  appends to `beginning` and `end`. It is proved equal to the function
  `Sentence.Sentence`.
- `date_list` becomes `Lists.DateList`. Its `for` loop is modelled as a
  loop.
- `number_list` becomes `Lists.NumberList`. It pops from a vector.

That function is then described by lemmas:

- which opening a sentence has;
- the order of the date clauses;
- the closed form of each date phrase;
- that the sentence is never empty and always well spaced;
- round trips of both list formats, which show that no value is lost and no
  suffix is added.

The model follows the code as written:

- Numbers carry no ordinal suffix.
- Day and month names are the placeholders `DAY(n)` and `MONTH(n)`, where n
  is the value minus one.
- The branch meant for clock times (one or two values in each of hours,
  minutes and seconds) emits no time clause at all.
- `getSecondsTextParts` answers "second" only for an empty set.
- The branch at src/lib.rs:215-216 can never be taken. Line 208 has already
  taken every `!every_minute` case.
- With every hour, specific minutes and specific seconds, the minutes suffix
  is appended to the seconds suffix with no space between them (src/lib.rs:189,
  then 209-210). "15 5 * * * *" gives "Every starting on the 15 second5 minute
  day of every month". No space is doubled or left at an end, so the sentence
  is still well spaced.

Some behaviours differ from the source's own comments, or from the
JavaScript the crate was ported from, which src/lib.rs:256-370 keeps as a
comment. The model keeps the Rust code's version of each:

- "* * * * * *" reads "Every minute day of every month", not "Every second"
  (`Scenarios.EveryMinute`). The JavaScript it was ported from, kept as a
  comment at src/lib.rs:334-335, takes the seconds prefix whenever seconds
  and minutes are all; the Rust condition at src/lib.rs:215 can never hold.
- "and every" is pushed before the weekday list when the days of the month
  are all. The comment at src/lib.rs:234 speaks of both day fields being
  specified, and the JavaScript at src/lib.rs:351-355 pushes "and every" when
  the days of the month are restricted (`Scenarios.OneWeekday`).
- The month clause is "day of every month" when every month matches, and
  otherwise "in " followed by the month list. The JavaScript at
  src/lib.rs:360-367 pushes no month clause at all when the month field is a
  wildcard, so in Rust every such sentence ends "day of every month".
- Without seconds in use, a specific second under every minute and hour
  yields "minuteminute" (`Scenarios.MinuteMinute`). The comment at
  src/lib.rs:271-272 expects the seconds to be {0} when seconds are not in
  use, which would make the seconds unspecific.

## Model

| member | source | states |
|---|---|---|
| Decimal.NatToString | src/lib.rs:17 | the decimal text of a value is non-empty, all digits, without a leading zero, and one digit long exactly for values below 10 |
| Decimal.DecimalRoundTrip | src/lib.rs:17-20 | reading the decimal text of n back gives n |
| Decimal.NatToStringInjective | src/lib.rs:20 | distinct values have distinct decimal texts |
| Text.JoinCons | src/lib.rs:23 | joining two or more parts is the first part, the separator, then the join of the rest |
| Text.JoinAppend | src/lib.rs:253 | joining two non-empty lists back to back is joining each and putting one separator between them |
| Text.JoinEmptyIff | src/lib.rs:253 | a join of non-empty parts is empty exactly when there are no parts |
| Enumeration.EnglishListCons | src/lib.rs:23 | an enumeration of three or more items is the first item, ", ", then the enumeration of the rest |
| Enumeration.ParseEnglishList | src/lib.rs:23 | parsing the enumeration of separator-free items gives back exactly those items |
| Enumeration.ParsedIsEnglishList | src/lib.rs:23 | every text the parser accepts is the enumeration of the items it returns |
| Enumeration.EnglishListInjective | src/lib.rs:23 | different item lists give different enumerations |
| Enumeration.EnglishListWellSpaced | src/lib.rs:23 | the enumeration of non-empty well-spaced items is non-empty and well spaced |
| Classify.FullIffLength | src/lib.rs:157-167 | for an ordered set within its range, being the full range (`== X::all()`) and having the range's length are the same test |
| Classify.StepSize | src/lib.rs:26-41 | the step is non-zero exactly for two-element sets, and then it is the gap between the two values |
| Classify.IsEveryOther | src/lib.rs:43-45 | with the step `step_size` gives, no ordered set is "every other": 30 values never come with a step of 2 |
| Classify.IsTwicePerHour | src/lib.rs:47-49 | with the step `step_size` gives, "twice per hour" holds exactly for two values 30 apart |
| Classify.IsOnTheHour | src/lib.rs:51-53 | "on the hour" holds exactly for the set {0} |
| Classify.IsStepValue | src/lib.rs:55-58 | with the step `step_size` gives, no ordered set is a "step value": more than two values always have step 0 |
| Lists.NumberList | src/lib.rs:14-24 | the pop-and-join method returns the English enumeration of the decimal values |
| Lists.NumberListShape | src/lib.rs:14-24 | one value gives its decimal text; n ≥ 2 values give the first n−1 joined by ", ", then " and ", then the last |
| Lists.NumberListRoundTrip | src/lib.rs:14-24 | the text parses back to exactly the given set, so nothing is lost and no suffix is added |
| Lists.NumberListWellSpaced | src/lib.rs:14-24 | the text is non-empty and well spaced |
| Lists.NumberToDateName | src/lib.rs:115-125 | the name is "DAY(" or "MONTH(" by kind, then the decimal digits of the value minus one (no leading zero), then ")" |
| Lists.DayNameRoundTrip | src/lib.rs:117-120 | the day placeholder reads back as kind DOW with the same value |
| Lists.MonthNameRoundTrip | src/lib.rs:121-123 | the month placeholder reads back as kind MON with the same value |
| Lists.DateNameRoundTrip | src/lib.rs:115-125 | a placeholder names the kind and value it was made from |
| Lists.DateList | src/lib.rs:131-148 | the loop builds the ", " join of all names but the last, and the method returns the enumeration of the placeholders |
| Lists.DateListShape | src/lib.rs:131-148 | one value gives its placeholder; n ≥ 2 values give the first n−1 placeholders joined by ", ", then " and ", then the last |
| Lists.DateNamesRoundTrip | src/lib.rs:141-146 | the placeholders, read back one by one, give the values in order |
| Lists.DateListRoundTrip | src/lib.rs:131-148 | a date list text parses back to exactly the values of its kind |
| Lists.DateListWellSpaced | src/lib.rs:131-148 | the text is non-empty and well spaced |
| Phrases.MinutesTextParts | src/lib.rs:65-84 | first match wins: the full set gives ("minute", ""); {0} gives ("", "hour, on the hour"); two values 30 apart give ("", "first and 30th minute"); any other set gives ("", number list + " minute") |
| Phrases.SecondsTextParts | src/lib.rs:91-103 | an empty set gives ("second", ""); every non-empty set has the prefix "minute"; the suffix is "starting on the first and 30th second" for two values 30 apart, and otherwise "starting on the " + number list + " second" |
| Phrases.MinutesSuffixWellSpaced | src/lib.rs:65-84 | outside the full set the minutes prefix is empty and the suffix is a non-empty well-spaced phrase |
| Phrases.SecondsSuffixWellSpaced | src/lib.rs:91-103 | for a non-empty set the seconds suffix is a non-empty well-spaced phrase |
| Sentence.FlagsOf | src/lib.rs:157-167 | on a valid schedule `onlySpecificDaysOfMonth` (a length test) is exactly "days of month not all"; in the compact case no time field is all |
| Sentence.HasSpecificSeconds | src/lib.rs:182-186 | on a valid seconds set, seconds are specific exactly when they are neither all sixty nor {0} |
| Sentence.TimeBeginning | src/lib.rs:176-219 | the beginning clause is "", "minute" or "minuteminute", and "minuteminute" exactly when seconds are specific, not in use, and every minute and hour match |
| Sentence.TimeEnd | src/lib.rs:177-219 | unless every hour matches, the end clause closes with the hour list followed by " hour" |
| Sentence.MonthClause | src/lib.rs:242-247 | the month clause is never empty: "day of every month" when every month matches, otherwise "in " followed by the month list, which reads back as exactly the months |
| Sentence.TimeParts | src/lib.rs:174-222 | the clause vector after the time branch is the opening, the beginning clause and the end clause of the time decision tree |
| Sentence.DateParts | src/lib.rs:225-247 | the date branch appends the day-of-month clauses, then the day-of-week clauses, then the month clause |
| Sentence.PrettifyCron | src/lib.rs:155-253 | the method returns the sentence: the non-empty clauses of the time and date parts, joined by single spaces |
| Sentence.NonEmpty | src/lib.rs:250-251 | the kept clauses are all non-empty, each comes from the input, and every non-empty clause is kept exactly as often as it occurs (order: `Sentence.NonEmptyAppend`) |
| Sentence.NonEmptyAppend | src/lib.rs:250-251 | filtering keeps order: filtering a concatenation is concatenating the filtered halves |
| Sentence.Render | src/lib.rs:249-253 | the rendering is empty exactly when every clause is empty |
| Sentence.RenderAppend | src/lib.rs:249-253 | rendering two clause lists one after the other is rendering each and joining the results with one space, unless one is empty |
| Sentence.SentenceSplit | src/lib.rs:225-253 | the sentence is the time text then the date text; the date text is never empty |
| Sentence.DayOfMonthTextLayout | src/lib.rs:225-230 | the day-of-month phrase is "on the <days>", with " of every month" when every month matches, and empty when every day matches |
| Sentence.DayOfWeekTextLayout | src/lib.rs:232-240 | the day-of-week phrase is "and every <weekdays>" when every day of month matches, otherwise "on <weekdays>", and empty when every weekday matches |
| Sentence.DateTextLayout | src/lib.rs:225-247 | the date text is the day-of-month phrase, then the day-of-week phrase, then the month clause last, each dropped when empty |
| Sentence.TimeTextLayout | src/lib.rs:177-222 | outside the compact case the time text is the opening, then the beginning and end clauses |
| Sentence.OnTheHourClauses | src/lib.rs:196-200 | when the clause vector is replaced with ["On the"], the beginning is empty and the end is "<hours> hour" |
| Sentence.CompactSentence | src/lib.rs:169-172 | at most two values in each of hours, minutes and seconds: the sentence is the date text alone |
| Sentence.OnTheHourSentence | src/lib.rs:196-200 | hours and minutes not all, no specific seconds and minutes {0}: the sentence is "On the <hours> hour " + the date text |
| Sentence.EverySentence | src/lib.rs:177-179 | in every other case with a time clause the sentence starts "Every " |
| Sentence.BeginningWellSpaced | src/lib.rs:187-218 | the beginning clause is well spaced |
| Sentence.SpecificHoursEndWellSpaced | src/lib.rs:192-207 | with specific hours, the end clause is well spaced |
| Sentence.EveryHourEndWellSpaced | src/lib.rs:208-219 | with every hour, the end clause is well spaced |
| Sentence.TimeTextWellSpaced | src/lib.rs:173-222 | the time text is well spaced |
| Sentence.DateTextWellSpaced | src/lib.rs:225-247 | the date text is well spaced |
| Sentence.SentenceWellSpaced | src/lib.rs:249-253 | the sentence is non-empty, never starts or ends with a space, and never holds two spaces in a row |
| Scenarios.EveryMinute | src/lib.rs:217-218 | "* * * * * *" and "0 * * * * *" both read "Every minute day of every month" |
| Scenarios.Hourly | src/lib.rs:208-214 | "0 0 * * * *" reads "Every hour, on the hour day of every month" |
| Scenarios.OnTheHours | src/lib.rs:196-200 | "0 0 1,2,3 * * *" reads "On the 1, 2 and 3 hour day of every month" |
| Scenarios.SingleTime | src/lib.rs:169-172 | "0 30 9 * * *" reads "day of every month": there is no time clause |
| Scenarios.MinuteMinute | src/lib.rs:187-189 | without seconds in use, "15 * * * * *" reads "Every minuteminute starting on the 15 second day of every month" |
| Scenarios.OneWeekday | src/lib.rs:232-239 | "* * * * * 2" reads "Every minute and every DAY(1) day of every month" |

## Left out

- The cron-string parse (`Schedule::from_str`) and the `cron` crate types (src/lib.rs:3-7, 153) are outside the model. They are foreign code. The six sets are the input: `X::all()` is equality with the full range, and `ordinals()` is the set itself as an increasing sequence.
- `prettify_cron` itself takes the expression string. `Sentence.PrettifyCron` takes the parsed sets and the `use_seconds` flag.
- The commented-out JavaScript (src/lib.rs:256-370) is not compiled code and is not modelled. That includes its HH:MM clock listing.
- The equal-gap check commented out of `step_size` (src/lib.rs:37-40) is not modelled either.
- Ordinal suffixes and day or month names (src/lib.rs:16, 22, 119) are unimplemented TODOs in the source. The model keeps plain decimals and the `DAY(n)`/`MONTH(n)` placeholders.
- Panics are preconditions, not runtime errors. `number_list` on an empty set panics at src/lib.rs:17 and `date_list` on an empty set at src/lib.rs:135, so both require a non-empty set. `value - 1` on a `u32` (src/lib.rs:118, 122) underflows for 0, so `numberToDateName` requires a value of at least 1. The pops at src/lib.rs:21 and 138 follow the length checks at lines 15 and 134, and the `nth(0).unwrap()` at line 186 follows `len() == 1`, so none of them can panic. The `unwrap` at line 153 belongs to the parse, which is left out.
- The test module (src/lib.rs:372-386) only prints a result and asserts nothing.
- Integer widths (`u32`, `usize`) are not modelled. The values are at most 59 and a set has at most 60 values, so nothing wraps around. There are two subtractions. `value - 1` at src/lib.rs:118 and 122 is guarded by the precondition that the value is at least 1. The `nth(1) - nth(0)` at src/lib.rs:31 cannot wrap, because ordinal sets are strictly increasing, which `Classify.StepSize` requires.
