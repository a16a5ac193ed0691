/**
 * The list formatters of src/lib.rs: `number_list` (decimal values) and
 * `date_list` (day-of-week and month placeholders from `numberToDateName`).
 * Both render the English enumeration of their items; the parsers here read
 * the texts back to the numbers, which shows that nothing is lost and no
 * ordinal suffix is added.
 */
module Lists {
  import opened Decimal
  import opened Text
  import opened Enumeration

  // ---------------------------------------------------------------- number_list

  /** The decimal texts of the numbers, in order. */
  function DecimalItems(numbers: seq<nat>): (items: seq<string>)
    ensures |items| == |numbers|
    ensures forall i :: 0 <= i < |numbers| ==> items[i] == NatToString(numbers[i])
  {
    seq(|numbers|, i requires 0 <= i < |numbers| => NatToString(numbers[i]))
  }

  /** What `number_list` returns for a non-empty set. */
  function NumberListText(numbers: seq<nat>): string
    requires |numbers| >= 1
  {
    EnglishList(DecimalItems(numbers))
  }

  /**
   * `number_list`: a single value in decimal; otherwise every value but the
   * last joined by ", ", then " and ", then the last value. The set must be
   * non-empty (the source unwraps its first element).
   */
  method NumberList(numbers: seq<nat>) returns (text: string)
    requires |numbers| >= 1
    ensures text == NumberListText(numbers)
  {
    if |numbers| < 2 {
      return NatToString(numbers[0]);
    }
    var nums := DecimalItems(numbers);
    var lastVal := nums[|nums| - 1];
    nums := nums[..|nums| - 1];
    assert nums == DecimalItems(numbers[..|numbers| - 1]);
    text := Join(nums, ", ") + " and " + lastVal;
  }

  /**
   * The shape of a `number_list` text: one value alone in decimal, or the
   * first n - 1 values in decimal joined by ", ", then " and ", then the last.
   */
  lemma NumberListShape(numbers: seq<nat>)
    requires |numbers| >= 1
    ensures |numbers| == 1 ==> NumberListText(numbers) == NatToString(numbers[0])
    ensures |numbers| >= 2 ==>
      NumberListText(numbers) ==
        Join(DecimalItems(numbers[..|numbers| - 1]), ", ") + " and " + NatToString(numbers[|numbers| - 1])
  {
    if |numbers| >= 2 {
      assert DecimalItems(numbers)[..|numbers| - 1] == DecimalItems(numbers[..|numbers| - 1]);
    }
  }

  /** A string of decimal digits is a list item. */
  lemma DigitsAreItem(s: string)
    requires s != "" && AllDigits(s)
    ensures IsItem(s)
  {
  }

  lemma DecimalItemsAreItems(numbers: seq<nat>)
    ensures AllItems(DecimalItems(numbers))
  {
    forall i | 0 <= i < |numbers| ensures IsItem(DecimalItems(numbers)[i]) {
      DigitsAreItem(NatToString(numbers[i]));
    }
  }

  /** Reads a `number_list` text back into its numbers. */
  function ParseNumberList(s: string): Option<seq<nat>>
  {
    match ParseList(s)
    case None => None
    case Some(items) =>
      if forall i :: 0 <= i < |items| ==> AllDigits(items[i])
      then Some(seq(|items|, i requires 0 <= i < |items| => DecimalValue(items[i])))
      else None
  }

  /** `number_list` loses nothing: its text parses back to exactly the set it was given. */
  lemma NumberListRoundTrip(numbers: seq<nat>)
    requires |numbers| >= 1
    ensures ParseNumberList(NumberListText(numbers)) == Some(numbers)
  {
    var items := DecimalItems(numbers);
    DecimalItemsAreItems(numbers);
    ParseEnglishList(items);
    assert ParseList(NumberListText(numbers)) == Some(items);
    assert forall i :: 0 <= i < |items| ==> AllDigits(items[i]);
    var parsed := seq(|items|, i requires 0 <= i < |items| => DecimalValue(items[i]));
    forall i | 0 <= i < |items| ensures parsed[i] == numbers[i] {
      DecimalRoundTrip(numbers[i]);
    }
    assert parsed == numbers;
  }

  /** `number_list` text is non-empty, well spaced, and ends with the last value in plain decimal. */
  lemma NumberListWellSpaced(numbers: seq<nat>)
    requires |numbers| >= 1
    ensures NumberListText(numbers) != "" && WellSpaced(NumberListText(numbers))
  {
    var items := DecimalItems(numbers);
    forall i | 0 <= i < |items| ensures items[i] != "" && WellSpaced(items[i]) {
      DigitsAreItem(items[i]);
      NoSpaceWellSpaced(items[i]);
    }
    EnglishListWellSpaced(items);
  }

  // ---------------------------------------------------------------- date_list

  /** Which placeholder `numberToDateName` writes. */
  datatype DateNaming = DOW | MON

  /**
   * `numberToDateName`: the placeholder "DAY(v - 1)" or "MONTH(v - 1)". The
   * value must be at least 1 (the source subtracts 1 from an unsigned value).
   * The digits between the parentheses are the decimal text of one less than
   * the value: they read back as that number and have no leading zero.
   */
  function NumberToDateName(value: nat, kind: DateNaming): (name: string)
    requires value >= 1
    ensures kind == DOW ==>
      |name| >= 6 && name[..4] == "DAY(" && name[|name| - 1] == ')' &&
      AllDigits(name[4..|name| - 1]) && DecimalValue(name[4..|name| - 1]) == value - 1 &&
      (|name| > 6 ==> name[4] != '0')
    ensures kind == MON ==>
      |name| >= 8 && name[..6] == "MONTH(" && name[|name| - 1] == ')' &&
      AllDigits(name[6..|name| - 1]) && DecimalValue(name[6..|name| - 1]) == value - 1 &&
      (|name| > 8 ==> name[6] != '0')
  {
    DecimalRoundTrip(value - 1);
    match kind
    case DOW =>
      var name := "DAY(" + NatToString(value - 1) + ")";
      assert name[4..|name| - 1] == NatToString(value - 1);
      assert |name| > 6 ==> name[4] == NatToString(value - 1)[0];
      name
    case MON =>
      var name := "MONTH(" + NatToString(value - 1) + ")";
      assert name[6..|name| - 1] == NatToString(value - 1);
      assert |name| > 8 ==> name[6] == NatToString(value - 1)[0];
      name
  }

  /** Reads a placeholder back into its kind and value. */
  function ParseDateName(name: string): Option<(DateNaming, nat)>
  {
    if |name| >= 6 && name[..4] == "DAY(" && name[|name| - 1] == ')' && AllDigits(name[4..|name| - 1])
    then Some((DOW, DecimalValue(name[4..|name| - 1]) + 1))
    else if |name| >= 8 && name[..6] == "MONTH(" && name[|name| - 1] == ')' && AllDigits(name[6..|name| - 1])
    then Some((MON, DecimalValue(name[6..|name| - 1]) + 1))
    else None
  }

  lemma DayNameRoundTrip(value: nat)
    requires value >= 1
    ensures ParseDateName(NumberToDateName(value, DOW)) == Some((DOW, value))
  {
  }

  lemma MonthNameRoundTrip(value: nat)
    requires value >= 1
    ensures ParseDateName(NumberToDateName(value, MON)) == Some((MON, value))
  {
    var name := NumberToDateName(value, MON);
    assert name[..4] != "DAY(" by { assert name[0] == 'M'; }
  }

  /** The placeholder names the kind and value it was made from. */
  lemma DateNameRoundTrip(value: nat, kind: DateNaming)
    requires value >= 1
    ensures ParseDateName(NumberToDateName(value, kind)) == Some((kind, value))
  {
    match kind
    case DOW => DayNameRoundTrip(value);
    case MON => MonthNameRoundTrip(value);
  }

  /** A placeholder is a list item. */
  lemma DateNameIsItem(value: nat, kind: DateNaming)
    requires value >= 1
    ensures IsItem(NumberToDateName(value, kind))
  {
    var digits := NatToString(value - 1);
    DigitsAreItem(digits);
    match kind
    case DOW => WrappedIsItem("DAY(", digits);
    case MON => WrappedIsItem("MONTH(", digits);
  }

  lemma WrappedIsItem(opening: string, digits: string)
    requires ' ' !in opening && ',' !in opening && IsItem(digits)
    ensures IsItem(opening + digits + ")")
  {
    var name := opening + digits + ")";
    forall i | 0 <= i < |name| ensures name[i] != ' ' && name[i] != ',' {
      if i < |opening| {
        assert name[i] == opening[i];
      } else if i < |opening| + |digits| {
        assert name[i] == digits[i - |opening|];
      }
    }
  }

  /** The placeholder names of the values, in order. */
  function DateNames(values: seq<nat>, kind: DateNaming): (names: seq<string>)
    requires forall i :: 0 <= i < |values| ==> values[i] >= 1
    ensures |names| == |values|
    ensures forall i :: 0 <= i < |values| ==> names[i] == NumberToDateName(values[i], kind)
  {
    seq(|values|, i requires 0 <= i < |values| => NumberToDateName(values[i], kind))
  }

  lemma DateNamesAreItems(values: seq<nat>, kind: DateNaming)
    requires forall i :: 0 <= i < |values| ==> values[i] >= 1
    ensures AllItems(DateNames(values, kind))
  {
    forall i | 0 <= i < |values| ensures IsItem(DateNames(values, kind)[i]) {
      DateNameIsItem(values[i], kind);
    }
  }

  /** What `date_list` returns for a non-empty set. */
  function DateListText(values: seq<nat>, kind: DateNaming): string
    requires |values| >= 1 && forall i :: 0 <= i < |values| ==> values[i] >= 1
  {
    EnglishList(DateNames(values, kind))
  }

  /**
   * `date_list`: the placeholder of a single value; otherwise the
   * placeholders of all values but the last, built up in a loop with ", "
   * between them, then " and ", then the placeholder of the last value.
   */
  method DateList(values: seq<nat>, kind: DateNaming) returns (text: string)
    requires |values| >= 1 && forall i :: 0 <= i < |values| ==> values[i] >= 1
    ensures text == DateListText(values, kind)
  {
    var vals := values;
    if |vals| < 2 {
      return NumberToDateName(vals[0], kind);
    }
    var lastVal := vals[|vals| - 1];
    vals := vals[..|vals| - 1];
    ghost var names := DateNames(vals, kind);
    var outputText := "";
    for i := 0 to |vals|
      invariant outputText == Join(names[..i], ", ")
      invariant outputText == "" <==> i == 0
    {
      if |outputText| > 0 {
        outputText := outputText + ", ";
      } else {
        EmptyConcat(NumberToDateName(vals[i], kind));
      }
      outputText := outputText + NumberToDateName(vals[i], kind);
      JoinSnoc(names, ", ", i);
    }
    assert names[..|vals|] == names;
    DateListShape(values, kind);
    text := outputText + " and " + NumberToDateName(lastVal, kind);
  }

  /**
   * The shape of a `date_list` text: the placeholder of a single value, or
   * the placeholders of the first n - 1 values joined by ", ", then " and ",
   * then the placeholder of the last.
   */
  lemma DateListShape(values: seq<nat>, kind: DateNaming)
    requires |values| >= 1 && forall i :: 0 <= i < |values| ==> values[i] >= 1
    ensures |values| == 1 ==> DateListText(values, kind) == NumberToDateName(values[0], kind)
    ensures |values| >= 2 ==>
      DateListText(values, kind) ==
        Join(DateNames(values[..|values| - 1], kind), ", ") + " and " + NumberToDateName(values[|values| - 1], kind)
  {
    if |values| >= 2 {
      assert DateNames(values, kind)[..|values| - 1] == DateNames(values[..|values| - 1], kind);
    }
  }

  /** Reads placeholders of the given kind back into their values, failing on any other text. */
  function ParseDateNames(names: seq<string>, kind: DateNaming): Option<seq<nat>>
  {
    if names == [] then Some([])
    else
      match ParseDateName(names[0])
      case None => None
      case Some(parsed) =>
        if parsed.0 != kind then None
        else
          match ParseDateNames(names[1..], kind)
          case None => None
          case Some(rest) => Some([parsed.1] + rest)
  }

  lemma {:induction false} DateNamesRoundTrip(values: seq<nat>, kind: DateNaming)
    requires forall i :: 0 <= i < |values| ==> values[i] >= 1
    ensures ParseDateNames(DateNames(values, kind), kind) == Some(values)
  {
    if values != [] {
      var names := DateNames(values, kind);
      DateNameRoundTrip(values[0], kind);
      assert names[1..] == DateNames(values[1..], kind);
      DateNamesRoundTrip(values[1..], kind);
      assert [values[0]] + values[1..] == values;
    }
  }

  /** Reads a `date_list` text of the given kind back into its values. */
  function ParseDateList(s: string, kind: DateNaming): Option<seq<nat>>
  {
    match ParseList(s)
    case None => None
    case Some(names) => ParseDateNames(names, kind)
  }

  /** `date_list` loses nothing: its text parses back to exactly the values it was given. */
  lemma DateListRoundTrip(values: seq<nat>, kind: DateNaming)
    requires |values| >= 1 && forall i :: 0 <= i < |values| ==> values[i] >= 1
    ensures ParseDateList(DateListText(values, kind), kind) == Some(values)
  {
    DateNamesAreItems(values, kind);
    ParseEnglishList(DateNames(values, kind));
    DateNamesRoundTrip(values, kind);
  }

  /** `date_list` text is non-empty and well spaced. */
  lemma DateListWellSpaced(values: seq<nat>, kind: DateNaming)
    requires |values| >= 1 && forall i :: 0 <= i < |values| ==> values[i] >= 1
    ensures DateListText(values, kind) != "" && WellSpaced(DateListText(values, kind))
  {
    var names := DateNames(values, kind);
    forall i | 0 <= i < |names| ensures names[i] != "" && WellSpaced(names[i]) {
      DateNameIsItem(values[i], kind);
      NoSpaceWellSpaced(names[i]);
    }
    EnglishListWellSpaced(names);
  }
}
