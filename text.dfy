/**
 * String helpers the formatter relies on: Rust's `join` on a vector of
 * strings, and the shape of a well-formed sentence (words separated by
 * exactly one space, no space at either end).
 */
module Text {

  /** t is a suffix of s. */
  predicate EndsWith(s: string, t: string) {
    |t| <= |s| && s[|s| - |t|..] == t
  }

  lemma EndsWithConcat(x: string, t: string)
    ensures EndsWith(x + t, t)
  {
    assert (x + t)[|x|..] == t;
  }

  /** `parts.join(sep)`: the parts with sep between each neighbouring pair. */
  function Join(parts: seq<string>, sep: string): string
  {
    if |parts| == 0 then ""
    else if |parts| == 1 then parts[0]
    else Join(parts[..|parts| - 1], sep) + sep + parts[|parts| - 1]
  }

  /** Join read from the front: the first part, then sep, then the join of the rest. */
  lemma {:induction false} JoinCons(parts: seq<string>, sep: string)
    requires |parts| >= 2
    ensures Join(parts, sep) == parts[0] + sep + Join(parts[1..], sep)
  {
    var n := |parts|;
    if n > 2 {
      var init := parts[..n - 1];
      JoinCons(init, sep);
      assert init[1..] == parts[1..][..n - 2];
    }
  }

  lemma EmptyConcat(s: string)
    ensures "" + s == s
  {
  }

  /** Joining one more part: the part alone after nothing, otherwise after sep. */
  lemma JoinSnoc(parts: seq<string>, sep: string, i: nat)
    requires i < |parts|
    ensures Join(parts[..i + 1], sep) == if i == 0 then parts[0] else Join(parts[..i], sep) + sep + parts[i]
  {
    assert parts[..i + 1][..i] == parts[..i];
  }

  /** Joining two non-empty part lists one after the other. */
  lemma {:induction false} JoinAppend(x: seq<string>, y: seq<string>, sep: string)
    requires x != [] && y != []
    ensures Join(x + y, sep) == Join(x, sep) + sep + Join(y, sep)
    decreases |y|
  {
    var n := |y|;
    if n == 1 {
      assert (x + y)[..|x + y| - 1] == x;
    } else {
      assert (x + y)[..|x + y| - 1] == x + y[..n - 1];
      JoinAppend(x, y[..n - 1], sep);
    }
  }

  /** A join of non-empty parts is empty exactly when there are no parts. */
  lemma JoinEmptyIff(parts: seq<string>, sep: string)
    requires forall i :: 0 <= i < |parts| ==> parts[i] != ""
    ensures Join(parts, sep) == "" <==> parts == []
  {
    if |parts| >= 2 {
      JoinEmptyIff(parts[..|parts| - 1], sep);
    }
  }

  /** No space at either end and never two spaces in a row. */
  ghost predicate WellSpaced(s: string) {
    && (|s| > 0 ==> s[0] != ' ' && s[|s| - 1] != ' ')
    && forall i :: 0 < i < |s| && s[i] == ' ' ==> s[i - 1] != ' '
  }

  /** A string without spaces is well spaced. */
  lemma NoSpaceWellSpaced(s: string)
    requires ' ' !in s
    ensures WellSpaced(s)
  {
  }

  /** Well-spaced strings stay well spaced when put side by side. */
  lemma ConcatWellSpaced(a: string, b: string)
    requires WellSpaced(a) && WellSpaced(b)
    ensures WellSpaced(a + b)
  {
    var s := a + b;
    forall i | 0 < i < |s| && s[i] == ' '
      ensures s[i - 1] != ' '
    {
      if i < |a| {
        assert s[i] == a[i] && s[i - 1] == a[i - 1];
      } else if i > |a| {
        assert s[i] == b[i - |a|] && s[i - 1] == b[i - 1 - |a|];
      }
    }
  }

  /** Two non-empty well-spaced strings with one space between them are well spaced. */
  lemma SpacedWellSpaced(a: string, b: string)
    requires WellSpaced(a) && WellSpaced(b) && a != [] && b != []
    ensures WellSpaced(a + " " + b)
  {
    var s := a + " " + b;
    forall i | 0 < i < |s| && s[i] == ' '
      ensures s[i - 1] != ' '
    {
      if i < |a| {
        assert s[i] == a[i] && s[i - 1] == a[i - 1];
      } else if i == |a| {
        assert s[i - 1] == a[|a| - 1];
      } else if i > |a| + 1 {
        assert s[i] == b[i - |a| - 1] && s[i - 1] == b[i - 2 - |a|];
      }
    }
  }

  /** Two non-empty well-spaced texts with " and " between them are well spaced. */
  lemma AndWellSpaced(a: string, b: string)
    requires WellSpaced(a) && WellSpaced(b) && a != [] && b != []
    ensures WellSpaced(a + " and " + b)
  {
    SpacedWellSpaced("and", b);
    SpacedWellSpaced(a, "and" + " " + b);
    assert a + " and " + b == a + " " + ("and" + " " + b);
  }

  /** Joining non-empty well-spaced words with one space gives a well-spaced string. */
  lemma {:induction false} JoinSpaceWellSpaced(parts: seq<string>)
    requires forall i :: 0 <= i < |parts| ==> parts[i] != "" && WellSpaced(parts[i])
    ensures WellSpaced(Join(parts, " "))
    ensures parts != [] ==> Join(parts, " ") != ""
  {
    var n := |parts|;
    if n >= 2 {
      JoinSpaceWellSpaced(parts[..n - 1]);
      SpacedWellSpaced(Join(parts[..n - 1], " "), parts[n - 1]);
    }
  }

  /** Joining with ", " keeps non-empty well-spaced items well spaced. */
  lemma {:induction false} JoinCommaWellSpaced(parts: seq<string>)
    requires forall i :: 0 <= i < |parts| ==> parts[i] != "" && WellSpaced(parts[i])
    ensures WellSpaced(Join(parts, ", "))
    ensures parts != [] ==> Join(parts, ", ") != ""
  {
    var n := |parts|;
    if n >= 2 {
      var init := Join(parts[..n - 1], ", ");
      JoinCommaWellSpaced(parts[..n - 1]);
      assert WellSpaced(",");
      ConcatWellSpaced(init, ",");
      SpacedWellSpaced(init + ",", parts[n - 1]);
      assert init + ", " + parts[n - 1] == (init + ",") + " " + parts[n - 1];
    }
  }
}
