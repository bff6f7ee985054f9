/** `smartjoin` of `dmutils/filters.py`: an English list, with commas
    between the items and "and" before the last one. */
module Filters {

  import opened Text

  /** `smartjoin(input)`. */
  function SmartJoin(items: seq<string>): (r: string)
    ensures items == [] ==> r == []
    ensures |items| == 1 ==> r == items[0]
  {
    if |items| > 1 then Join(", ", items[..|items| - 1]) + " and " + items[|items| - 1]
    else if |items| == 1 then items[0]
    else ""
  }

  /** The same list written item by item from the front: every item but the
      last two is followed by a comma, the last two are joined by "and". */
  function EnglishList(items: seq<string>): string
  {
    if |items| == 0 then ""
    else if |items| == 1 then items[0]
    else if |items| == 2 then items[0] + " and " + items[1]
    else items[0] + ", " + EnglishList(items[1..])
  }

  /** `sep.join` peels off its first item. */
  lemma {:induction false} JoinCons(sep: string, items: seq<string>)
    requires |items| >= 2
    ensures Join(sep, items) == items[0] + sep + Join(sep, items[1..])
  {
  }

  /** `smartjoin` agrees with the item-by-item definition on every input. */
  lemma {:induction false} SmartJoinIsEnglishList(items: seq<string>)
    ensures SmartJoin(items) == EnglishList(items)
    decreases |items|
  {
    if |items| > 2 {
      var n := |items|;
      var rest := items[1..];
      SmartJoinIsEnglishList(rest);
      assert rest[..|rest| - 1] == items[..n - 1][1..];
      assert rest[|rest| - 1] == items[n - 1];
      JoinCons(", ", items[..n - 1]);
      assert SmartJoin(items) == items[0] + ", " + SmartJoin(rest);
    }
  }

  /** Two items are joined by "and" alone, without a comma. */
  lemma {:induction false} SmartJoinTwo(a: string, b: string)
    ensures SmartJoin([a, b]) == a + " and " + b
  {
    assert [a, b][..1] == [a];
  }
}
