/** Sums over sequences. */
module Totals {

  function Total<T>(weigh: T -> nat, items: seq<T>): nat {
    if items == [] then 0 else Total(weigh, items[..|items| - 1]) + weigh(items[|items| - 1])
  }

  lemma TotalOfNone<T>(weigh: T -> nat)
    ensures Total(weigh, []) == 0
  {
  }

  lemma TotalWith<T>(weigh: T -> nat, items: seq<T>, item: T)
    ensures Total(weigh, items + [item]) == Total(weigh, items) + weigh(item)
  {
    assert (items + [item])[..|items + [item]| - 1] == items;
  }

  lemma {:induction false} TotalOfConcat<T>(weigh: T -> nat, a: seq<T>, b: seq<T>)
    ensures Total(weigh, a + b) == Total(weigh, a) + Total(weigh, b)
  {
    if b == [] {
      assert a + b == a;
    } else {
      TotalOfConcat(weigh, a, b[..|b| - 1]);
      assert (a + b)[..|a + b| - 1] == a + b[..|b| - 1];
    }
  }

  lemma TotalWithout<T>(weigh: T -> nat, items: seq<T>, i: nat)
    requires i < |items|
    ensures Total(weigh, items) == weigh(items[i]) + Total(weigh, items[..i] + items[i + 1..])
  {
    hide Total;
    var before, after := items[..i], items[i + 1..];
    assert items == (before + [items[i]]) + after;
    TotalOfConcat(weigh, before + [items[i]], after);
    TotalWith(weigh, before, items[i]);
    TotalOfConcat(weigh, before, after);
  }
}
