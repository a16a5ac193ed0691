/**
 * Ordinal sets and the classifiers of src/lib.rs. An ordinal set is the set of
 * values a cron field matches, kept in increasing order (the cron crate's
 * `OrdinalSet` is an ordered set of unsigned integers). A field is "all" when
 * its set is the whole range of the field.
 */
module Classify {

  predicate StrictlyIncreasing(s: seq<nat>) {
    forall i, j :: 0 <= i < j < |s| ==> s[i] < s[j]
  }

  predicate InRange(s: seq<nat>, lo: nat, hi: nat) {
    forall i :: 0 <= i < |s| ==> lo <= s[i] <= hi
  }

  /** A valid value of a field whose range is lo..hi: non-empty, ordered, within the range. */
  predicate IsOrdinalSet(s: seq<nat>, lo: nat, hi: nat) {
    |s| >= 1 && StrictlyIncreasing(s) && InRange(s, lo, hi)
  }

  /** `set == X::all()`: the set holds every value of the range lo..hi, in order. */
  predicate IsFull(s: seq<nat>, lo: nat, hi: nat) {
    |s| == hi - lo + 1 && forall i :: 0 <= i < |s| ==> s[i] == lo + i
  }

  /** The whole range lo..hi as an ordinal set. */
  function FullRange(lo: nat, hi: nat): (s: seq<nat>)
    requires lo <= hi
    ensures IsFull(s, lo, hi) && IsOrdinalSet(s, lo, hi)
  {
    seq(hi - lo + 1, i => lo + i)
  }

  lemma {:induction false} LowerBound(s: seq<nat>, lo: nat, hi: nat, k: nat)
    requires StrictlyIncreasing(s) && InRange(s, lo, hi) && k < |s|
    ensures s[k] >= lo + k
  {
    if k > 0 {
      LowerBound(s, lo, hi, k - 1);
    }
  }

  lemma {:induction false} UpperBound(s: seq<nat>, hi: nat, k: nat)
    requires StrictlyIncreasing(s) && InRange(s, 0, hi) && k < |s|
    ensures s[k] + (|s| - 1 - k) <= hi
    decreases |s| - k
  {
    if k < |s| - 1 {
      UpperBound(s, hi, k + 1);
    }
  }

  /**
   * For an ordered set within lo..hi, being the whole range and having
   * hi - lo + 1 elements are the same thing, and no such set is longer: the
   * source's length tests (`len() != 31`, `len() < 60`) agree with its
   * `== X::all()` tests.
   */
  lemma FullIffLength(s: seq<nat>, lo: nat, hi: nat)
    ensures StrictlyIncreasing(s) && InRange(s, lo, hi) && lo <= hi ==>
      (IsFull(s, lo, hi) <==> |s| == hi - lo + 1) && |s| <= hi - lo + 1
  {
    if StrictlyIncreasing(s) && InRange(s, lo, hi) && lo <= hi {
      if |s| == hi - lo + 1 {
        forall k | 0 <= k < |s|
          ensures s[k] == lo + k
        {
          LowerBound(s, lo, hi, k);
          UpperBound(s, hi, k);
        }
      }
      if |s| > 0 {
        LowerBound(s, lo, hi, |s| - 1);
      }
    }
  }

  /**
   * `step_size`: the gap between the two values of a two-element set, and 0
   * otherwise. The equal-gap check for longer sets is commented out in the
   * source, so every longer set has step 0.
   */
  function StepSize(s: seq<nat>): (step: nat)
    requires StrictlyIncreasing(s)
    ensures step > 0 <==> |s| == 2
    ensures |s| == 2 ==> s[0] + step == s[1]
  {
    if |s| <= 1 then 0
    else
      var expectedStep := s[1] - s[0];
      if |s| == 2 then expectedStep else 0
  }

  /** `isEveryOther`: thirty values two apart; never true of a set with the step `step_size` gives it. */
  predicate IsEveryOther(step: nat, s: seq<nat>)
    ensures StrictlyIncreasing(s) && step == StepSize(s) ==> !IsEveryOther(step, s)
  {
    |s| == 30 && step == 2
  }

  /** `isTwicePerHour`: with the source's step, exactly the sets of two values thirty apart. */
  predicate IsTwicePerHour(step: nat, s: seq<nat>)
    ensures StrictlyIncreasing(s) && step == StepSize(s) ==>
      (IsTwicePerHour(step, s) <==> |s| == 2 && s[1] - s[0] == 30)
  {
    |s| == 2 && step == 30
  }

  /** `isOnTheHour`: the set {0}. */
  predicate IsOnTheHour(s: seq<nat>)
    ensures IsOnTheHour(s) <==> s == [0]
  {
    |s| == 1 && s[0] == 0
  }

  /** `isStepValue`: more than two values with a non-zero step; never true with the step `step_size` gives. */
  predicate IsStepValue(step: nat, s: seq<nat>)
    ensures StrictlyIncreasing(s) && step == StepSize(s) ==> !IsStepValue(step, s)
  {
    |s| > 2 && step > 0
  }
}
