/**
 * The per-field phrase builders of src/lib.rs: `getMinutesTextParts` and
 * `getSecondsTextParts` each return a (prefix, suffix) pair. The prefix goes
 * into the "beginning" clause of the sentence, the suffix into the "end"
 * clause. The contracts here state the outcome for each shape of set, with
 * the source's dead classifier branches ("every other", "step value")
 * already ruled out.
 */
module Phrases {
  import opened Decimal
  import opened Text
  import opened Classify
  import opened Lists

  /** `getMinutesTextParts`: first match wins. */
  function MinutesTextParts(minutes: seq<nat>): (parts: (string, string))
    requires |minutes| >= 1 && StrictlyIncreasing(minutes)
    ensures IsFull(minutes, 0, 59) ==> parts == ("minute", "")
    ensures !IsFull(minutes, 0, 59) && minutes == [0] ==> parts == ("", "hour, on the hour")
    ensures !IsFull(minutes, 0, 59) && minutes != [0] && |minutes| == 2 && minutes[1] - minutes[0] == 30 ==>
      parts == ("", "first and 30th minute")
    ensures !IsFull(minutes, 0, 59) && minutes != [0] && !(|minutes| == 2 && minutes[1] - minutes[0] == 30) ==>
      parts == ("", NumberListText(minutes) + " minute")
  {
    if IsFull(minutes, 0, 59) then ("minute", "")
    else
      var step := StepSize(minutes);
      if IsOnTheHour(minutes) then ("", "hour, on the hour")
      else if IsEveryOther(step, minutes) then ("other minute", "")
      else if IsStepValue(step, minutes) then ("", NatToString(step) + " minutes")
      else if IsTwicePerHour(step, minutes) then ("", "first and 30th minute")
      else ("", NumberListText(minutes) + " minute")
  }

  /**
   * `getSecondsTextParts`. Its "every second" answer is given only for an
   * empty set; every non-empty set gets the prefix "minute".
   */
  function SecondsTextParts(seconds: seq<nat>): (parts: (string, string))
    requires StrictlyIncreasing(seconds)
    ensures |seconds| == 0 ==> parts == ("second", "")
    ensures |seconds| >= 1 ==> parts.0 == "minute"
    ensures |seconds| == 2 && seconds[1] - seconds[0] == 30 ==>
      parts.1 == "starting on the " + "first and 30th second"
    ensures |seconds| >= 1 && !(|seconds| == 2 && seconds[1] - seconds[0] == 30) ==>
      parts.1 == "starting on the " + NumberListText(seconds) + " second"
  {
    var step := StepSize(seconds);
    if |seconds| == 0 then ("second", "")
    else if IsEveryOther(step, seconds) then ("", "other second")
    else if IsStepValue(step, seconds) then ("", NatToString(step) + " seconds")
    else
      ("minute", "starting on the " +
        if |seconds| == 2 && step == 30 then "first and 30th second"
        else NumberListText(seconds) + " second")
  }

  lemma OnTheHourWellSpaced()
    ensures WellSpaced("hour, on the hour")
  {
  }

  lemma TwicePerHourWellSpaced()
    ensures WellSpaced("first and 30th minute")
  {
  }

  lemma TwicePerMinuteWellSpaced()
    ensures WellSpaced("starting on the " + "first and 30th second")
  {
  }

  lemma StartingOnTheWellSpaced()
    ensures WellSpaced("starting on the")
  {
  }

  lemma MinuteListWellSpaced(list: string)
    requires list != "" && WellSpaced(list)
    ensures WellSpaced(list + " minute")
  {
    SpacedWellSpaced(list, "minute");
    assert list + " " + "minute" == list + " minute";
  }

  lemma SecondListWellSpaced(list: string)
    requires list != "" && WellSpaced(list)
    ensures WellSpaced("starting on the " + list + " second")
  {
    StartingOnTheWellSpaced();
    SpacedWellSpaced("starting on the", list);
    SpacedWellSpaced("starting on the" + " " + list, "second");
    assert "starting on the " + list + " second" == "starting on the" + " " + list + " " + "second";
  }

  /** Outside of the full set, the minutes suffix is a non-empty well-spaced phrase. */
  lemma MinutesSuffixWellSpaced(minutes: seq<nat>)
    requires |minutes| >= 1 && StrictlyIncreasing(minutes) && !IsFull(minutes, 0, 59)
    ensures MinutesTextParts(minutes).0 == ""
    ensures MinutesTextParts(minutes).1 != "" && WellSpaced(MinutesTextParts(minutes).1)
  {
    var parts := MinutesTextParts(minutes);
    if minutes == [0] {
      OnTheHourWellSpaced();
    } else if |minutes| == 2 && minutes[1] - minutes[0] == 30 {
      TwicePerHourWellSpaced();
    } else {
      NumberListWellSpaced(minutes);
      MinuteListWellSpaced(NumberListText(minutes));
    }
  }

  /** For a non-empty set the seconds suffix is a non-empty well-spaced phrase. */
  lemma SecondsSuffixWellSpaced(seconds: seq<nat>)
    requires |seconds| >= 1 && StrictlyIncreasing(seconds)
    ensures SecondsTextParts(seconds).1 != "" && WellSpaced(SecondsTextParts(seconds).1)
  {
    var parts := SecondsTextParts(seconds);
    if |seconds| == 2 && seconds[1] - seconds[0] == 30 {
      TwicePerMinuteWellSpaced();
    } else {
      NumberListWellSpaced(seconds);
      SecondListWellSpaced(NumberListText(seconds));
    }
  }
}
