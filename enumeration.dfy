/**
 * The English enumeration both list formatters produce: one item alone, or
 * all items but the last separated by ", ", then " and ", then the last.
 * ParseList reads such a text back into its items, which shows that the
 * enumeration loses nothing and adds nothing to an item (no suffix).
 */
module Enumeration {
  import opened Text

  datatype Option<T> = None | Some(value: T)

  /** An item of a list: non-empty, and free of the separator characters. */
  predicate IsItem(x: string) {
    x != "" && ' ' !in x && ',' !in x
  }

  predicate AllItems(items: seq<string>) {
    forall i :: 0 <= i < |items| ==> IsItem(items[i])
  }

  /** "a", "a and b", "a, b and c", ... */
  function EnglishList(items: seq<string>): string
    requires |items| >= 1
  {
    if |items| == 1 then items[0]
    else Join(items[..|items| - 1], ", ") + " and " + items[|items| - 1]
  }

  /** An enumeration of three or more items is the first, ", ", then the enumeration of the rest. */
  lemma EnglishListCons(items: seq<string>)
    requires |items| >= 3
    ensures EnglishList(items) == items[0] + ", " + EnglishList(items[1..])
  {
    var n := |items|;
    JoinCons(items[..n - 1], ", ");
    assert items[..n - 1][1..] == items[1..][..n - 2];
  }

  /** Splits s at its first space or comma: the longest prefix free of both, and the rest. */
  function TakeItem(s: string): (r: (string, string))
    ensures r.0 + r.1 == s
    ensures ' ' !in r.0 && ',' !in r.0
    ensures r.1 != [] ==> r.1[0] == ' ' || r.1[0] == ','
  {
    if s == [] || s[0] == ' ' || s[0] == ',' then ("", s)
    else
      var r := TakeItem(s[1..]);
      ([s[0]] + r.0, r.1)
  }

  /** rest begins with the final separator " and ". */
  predicate StartsWithAnd(rest: string) {
    |rest| >= 5 && rest[0] == ' ' && rest[1] == 'a' && rest[2] == 'n' && rest[3] == 'd' && rest[4] == ' '
  }

  /** rest begins with the separator ", ". */
  predicate StartsWithComma(rest: string) {
    |rest| >= 2 && rest[0] == ',' && rest[1] == ' '
  }

  /** Reads an English enumeration back into its items. */
  function ParseList(s: string): Option<seq<string>>
    decreases |s|
  {
    var r := TakeItem(s);
    var item, rest := r.0, r.1;
    if item == "" then None
    else if rest == "" then Some([item])
    else if StartsWithAnd(rest) && IsItem(rest[5..]) then Some([item, rest[5..]])
    else if StartsWithComma(rest) then
      match ParseList(rest[2..])
      case Some(more) => if |more| >= 2 then Some([item] + more) else None
      case None => None
    else None
  }

  lemma {:induction false} TakeItemOf(x: string, rest: string)
    requires ' ' !in x && ',' !in x
    requires rest == [] || rest[0] == ' ' || rest[0] == ','
    ensures TakeItem(x + rest) == (x, rest)
  {
    if x != [] {
      assert x[0] in x;
      assert (x + rest)[0] == x[0] && (x + rest)[1..] == x[1..] + rest;
      assert ' ' !in x[1..] && ',' !in x[1..] by {
        forall c | c in x[1..] ensures c in x { }
      }
      TakeItemOf(x[1..], rest);
      assert [x[0]] + x[1..] == x;
    } else {
      assert x + rest == rest;
    }
  }

  lemma ParseSingle(x: string)
    requires IsItem(x)
    ensures ParseList(x) == Some([x])
  {
    TakeItemOf(x, "");
    assert x + "" == x;
  }

  lemma ParsePair(x: string, y: string)
    requires IsItem(x) && IsItem(y)
    ensures ParseList(x + " and " + y) == Some([x, y])
  {
    var rest := " and " + y;
    assert x + " and " + y == x + rest;
    TakeItemOf(x, rest);
    assert StartsWithAnd(rest) && rest[5..] == y;
  }

  lemma ParseFirst(x: string, tail: string, more: seq<string>)
    requires IsItem(x) && |more| >= 2 && ParseList(tail) == Some(more)
    ensures ParseList(x + ", " + tail) == Some([x] + more)
  {
    var rest := ", " + tail;
    assert x + ", " + tail == x + rest;
    TakeItemOf(x, rest);
    assert StartsWithComma(rest) && !StartsWithAnd(rest) && rest[2..] == tail;
  }

  /** Parsing an enumeration of items gives back exactly those items. */
  lemma {:induction false} ParseEnglishList(items: seq<string>)
    requires |items| >= 1 && AllItems(items)
    ensures ParseList(EnglishList(items)) == Some(items)
  {
    var n := |items|;
    if n == 1 {
      ParseSingle(items[0]);
      assert items == [items[0]];
    } else if n == 2 {
      ParsePair(items[0], items[1]);
      assert items == [items[0], items[1]];
    } else {
      EnglishListCons(items);
      ParseEnglishList(items[1..]);
      ParseFirst(items[0], EnglishList(items[1..]), items[1..]);
      assert [items[0]] + items[1..] == items;
    }
  }

  lemma AndSplit(rest: string)
    requires StartsWithAnd(rest)
    ensures rest == " and " + rest[5..]
  {
  }

  lemma CommaSplit(rest: string)
    requires StartsWithComma(rest)
    ensures rest == ", " + rest[2..]
  {
  }

  /** Every text ParseList accepts is the enumeration of the items it returns. */
  lemma {:induction false} ParsedIsEnglishList(s: string, items: seq<string>)
    requires ParseList(s) == Some(items)
    ensures |items| >= 1 && AllItems(items)
    ensures EnglishList(items) == s
    decreases |s|
  {
    var r := TakeItem(s);
    var item, rest := r.0, r.1;
    assert IsItem(item);
    if rest == "" {
      assert items == [item];
      assert s == item + rest;
      assert item + rest == item;
    } else if StartsWithAnd(rest) && IsItem(rest[5..]) {
      assert items == [item, rest[5..]];
      AndSplit(rest);
    } else {
      assert StartsWithComma(rest);
      var tail := rest[2..];
      var more := ParseList(tail).value;
      assert items == [item] + more;
      ParsedIsEnglishList(tail, more);
      EnglishListCons(items);
      assert items[1..] == more;
      CommaSplit(rest);
    }
  }

  /** Distinct item lists have distinct enumerations. */
  lemma EnglishListInjective(a: seq<string>, b: seq<string>)
    requires |a| >= 1 && AllItems(a) && |b| >= 1 && AllItems(b)
    requires EnglishList(a) == EnglishList(b)
    ensures a == b
  {
    ParseEnglishList(a);
    ParseEnglishList(b);
  }

  /** An enumeration of non-empty well-spaced items is non-empty and well spaced. */
  lemma EnglishListWellSpaced(items: seq<string>)
    requires |items| >= 1
    requires forall i :: 0 <= i < |items| ==> items[i] != "" && WellSpaced(items[i])
    ensures EnglishList(items) != "" && WellSpaced(EnglishList(items))
  {
    var n := |items|;
    if n >= 2 {
      var init := Join(items[..n - 1], ", ");
      JoinCommaWellSpaced(items[..n - 1]);
      AndWellSpaced(init, items[n - 1]);
    }
  }
}
