/** Optional values, instants and integer bounds shared by every part of the model. */
module Basics {
  datatype Option<+T> = None | Some(value: T)

  /** A point in time, in nanoseconds. */
  type Instant = int

  function Min(a: int, b: int): int {
    if a <= b then a else b
  }

  function Max(a: int, b: int): int {
    if a >= b then a else b
  }

  ghost predicate Distinct<T>(s: seq<T>) {
    forall i, j :: 0 <= i < j < |s| ==> s[i] != s[j]
  }

  lemma Pick<T>(s: set<T>) returns (x: T)
    requires s != {}
    ensures x in s
  {
    x :| x in s;
  }

  lemma OnlyOne<T>(s: set<T>, x: T)
    requires s - {x} == {}
    ensures forall y :: y in s ==> y == x
  {
    forall y | y in s
      ensures y == x
    {
      assert y == x || y in s - {x};
    }
  }

  lemma CountWithin<T>(small: set<T>, large: set<T>)
    requires small <= large
    ensures |small| <= |large|
  {
    assert large == small + (large - small);
  }

  function Sum(values: seq<int>): int {
    if values == [] then 0 else Sum(values[..|values| - 1]) + values[|values| - 1]
  }

  /** What f gives for every item, in order. */
  function Values<T, U>(items: seq<T>, f: T -> U): (r: seq<U>)
    ensures |r| == |items| && forall i :: 0 <= i < |r| ==> r[i] == f(items[i])
  {
    seq(|items|, i requires 0 <= i < |items| => f(items[i]))
  }

  lemma ValuesGrow<T, U>(items: seq<T>, item: T, f: T -> U)
    ensures Values(items + [item], f) == Values(items, f) + [f(item)]
  {
  }

  lemma SumGrows<T>(items: seq<T>, item: T, f: T -> int)
    ensures Sum(Values(items + [item], f)) == Sum(Values(items, f)) + f(item)
  {
    ValuesGrow(items, item, f);
    assert (Values(items, f) + [f(item)])[..|items|] == Values(items, f);
  }
}
