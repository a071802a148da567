/** sort.Slice: the elements of a slice in a given order. */
module Sorting {

  /** A strict weak order, as sort.Slice asks of its comparison. */
  ghost predicate IsOrder<T(!new)>(less: (T, T) -> bool) {
    && (forall a, b :: less(a, b) ==> !less(b, a))
    && (forall a, b, c {:trigger less(c, b), less(b, a)} :: !less(c, b) && !less(b, a) ==> !less(c, a))
  }

  ghost predicate Ordered<T>(less: (T, T) -> bool, xs: seq<T>) {
    forall i, j | 0 <= i < j < |xs| :: !less(xs[j], xs[i])
  }

  function Insert<T>(x: T, ys: seq<T>, less: (T, T) -> bool): seq<T> {
    if |ys| == 0 || less(x, ys[0]) then [x] + ys else [ys[0]] + Insert(x, ys[1..], less)
  }

  function SortBy<T>(xs: seq<T>, less: (T, T) -> bool): seq<T> {
    if |xs| == 0 then [] else Insert(xs[|xs| - 1], SortBy(xs[..|xs| - 1], less), less)
  }

  lemma ConsOrdered<T(!new)>(y: T, rest: seq<T>, less: (T, T) -> bool)
    requires Ordered(less, rest) && forall j | 0 <= j < |rest| :: !less(rest[j], y)
    ensures Ordered(less, [y] + rest)
  {
  }

  /** Whatever precedes the head precedes the rest. */
  lemma BeforeHead<T(!new)>(x: T, ys: seq<T>, less: (T, T) -> bool)
    requires IsOrder(less) && Ordered(less, ys) && |ys| > 0 && less(x, ys[0])
    ensures forall j | 0 <= j < |ys| :: !less(ys[j], x)
  {
    forall j | 0 <= j < |ys| ensures !less(ys[j], x) {
      assert !less(ys[0], x);
      assert j > 0 ==> !less(ys[j], ys[0]);
    }
  }

  lemma {:induction false} InsertBag<T>(x: T, ys: seq<T>, less: (T, T) -> bool)
    ensures multiset(Insert(x, ys, less)) == multiset(ys) + multiset{x}
  {
    if |ys| > 0 {
      assert ys == [ys[0]] + ys[1..];
      if !less(x, ys[0]) {
        InsertBag(x, ys[1..], less);
      }
    }
  }

  lemma {:induction false} InsertOrders<T(!new)>(x: T, ys: seq<T>, less: (T, T) -> bool)
    requires IsOrder(less) && Ordered(less, ys)
    ensures Ordered(less, Insert(x, ys, less))
  {
    if |ys| > 0 {
      if less(x, ys[0]) {
        BeforeHead(x, ys, less);
        ConsOrdered(x, ys, less);
      } else {
        var rest := Insert(x, ys[1..], less);
        InsertOrders(x, ys[1..], less);
        InsertBag(x, ys[1..], less);
        forall j | 0 <= j < |rest| ensures !less(rest[j], ys[0]) {
          assert rest[j] in multiset(rest);
          assert rest[j] == x || rest[j] in ys[1..];
        }
        ConsOrdered(ys[0], rest, less);
      }
    }
  }

  /** The result is a permutation in order. */
  lemma {:induction false} SortByOrders<T(!new)>(xs: seq<T>, less: (T, T) -> bool)
    requires IsOrder(less)
    ensures Ordered(less, SortBy(xs, less))
    ensures multiset(SortBy(xs, less)) == multiset(xs)
  {
    if |xs| > 0 {
      var init, last := xs[..|xs| - 1], xs[|xs| - 1];
      assert xs == init + [last];
      SortByOrders(init, less);
      InsertOrders(last, SortBy(init, less), less);
      InsertBag(last, SortBy(init, less), less);
    }
  }

  lemma FirstIsLeast<T(!new)>(xs: seq<T>, less: (T, T) -> bool, x: T)
    requires IsOrder(less) && Ordered(less, xs) && x in xs
    ensures !less(x, xs[0])
  {
    var j :| 0 <= j < |xs| && xs[j] == x;
    assert !less(x, x);
  }

  /** Elements that compare as equal are equal. */
  ghost predicate Separates<T>(less: (T, T) -> bool, xs: seq<T>) {
    forall i, j | 0 <= i < |xs| && 0 <= j < |xs| && !less(xs[i], xs[j]) && !less(xs[j], xs[i]) :: xs[i] == xs[j]
  }

  lemma SameHead<T(!new)>(xs: seq<T>, ys: seq<T>, less: (T, T) -> bool)
    requires IsOrder(less) && Ordered(less, xs) && Ordered(less, ys) && multiset(xs) == multiset(ys)
    requires Separates(less, xs) && |xs| > 0 && |ys| > 0
    ensures xs[0] == ys[0]
  {
    assert xs[0] in multiset(ys) && ys[0] in multiset(xs);
    FirstIsLeast(ys, less, xs[0]);
    FirstIsLeast(xs, less, ys[0]);
    var j :| 0 <= j < |xs| && xs[j] == ys[0];
  }

  lemma SameTails<T>(xs: seq<T>, ys: seq<T>)
    requires multiset(xs) == multiset(ys) && |xs| > 0
    ensures |ys| > 0
    ensures xs[0] == ys[0] ==> multiset(xs[1..]) == multiset(ys[1..])
  {
    assert xs == [xs[0]] + xs[1..];
    assert xs[0] in multiset(ys);
    assert ys == [ys[0]] + ys[1..];
    assert multiset(xs[1..]) == multiset(xs) - multiset{xs[0]};
    assert multiset(ys[1..]) == multiset(ys) - multiset{ys[0]};
  }

  /** Only one permutation is in order when elements that compare as equal are equal. */
  lemma {:induction false} OrderedUnique<T(!new)>(xs: seq<T>, ys: seq<T>, less: (T, T) -> bool)
    requires IsOrder(less) && Ordered(less, xs) && Ordered(less, ys) && multiset(xs) == multiset(ys)
    requires Separates(less, xs)
    ensures xs == ys
  {
    if |ys| > 0 {
      SameTails(ys, xs);
      SameHead(xs, ys, less);
      OrderedUnique(xs[1..], ys[1..], less);
      assert xs == [xs[0]] + xs[1..] && ys == [ys[0]] + ys[1..];
    } else if |xs| > 0 {
      SameTails(xs, ys);
    }
  }

  /** Sorting what is already in order changes nothing, and any two arrangements sort alike. */
  lemma SortByUnique<T(!new)>(xs: seq<T>, ys: seq<T>, less: (T, T) -> bool)
    requires IsOrder(less) && Separates(less, ys) && multiset(xs) == multiset(ys)
    ensures SortBy(xs, less) == SortBy(ys, less)
    ensures Ordered(less, ys) ==> SortBy(xs, less) == ys
  {
    SortByOrders(xs, less);
    SortByOrders(ys, less);
    SeparatesPermuted(ys, SortBy(ys, less), less);
    OrderedUnique(SortBy(ys, less), SortBy(xs, less), less);
    if Ordered(less, ys) {
      OrderedUnique(ys, SortBy(xs, less), less);
    }
  }

  lemma SeparatesPermuted<T(!new)>(xs: seq<T>, ys: seq<T>, less: (T, T) -> bool)
    requires Separates(less, xs) && multiset(xs) == multiset(ys)
    ensures Separates(less, ys)
  {
    forall i, j | 0 <= i < |ys| && 0 <= j < |ys| && !less(ys[i], ys[j]) && !less(ys[j], ys[i]) ensures ys[i] == ys[j] {
      assert ys[i] in multiset(xs) && ys[j] in multiset(xs);
      var m :| 0 <= m < |xs| && xs[m] == ys[i];
      var n :| 0 <= n < |xs| && xs[n] == ys[j];
    }
  }

  ghost predicate Distinct<T>(xs: seq<T>) {
    forall i, j | 0 <= i < j < |xs| :: xs[i] != xs[j]
  }

  /** Distinctness survives rearrangement. */
  lemma DistinctPermuted<T(!new)>(xs: seq<T>, ys: seq<T>)
    requires Distinct(xs) && multiset(xs) == multiset(ys)
    ensures Distinct(ys)
  {
    forall i, j | 0 <= i < j < |ys| ensures ys[i] != ys[j] {
      TwiceIn(ys, i, j);
      OnceEach(xs, ys[i]);
    }
  }

  lemma TwiceIn<T>(ys: seq<T>, i: nat, j: nat)
    requires i < j < |ys|
    ensures ys[i] == ys[j] ==> multiset(ys)[ys[i]] >= 2
  {
    assert ys == ys[..j] + ys[j..];
    assert ys[..j][i] == ys[i] && ys[j..][0] == ys[j];
    assert multiset(ys) == multiset(ys[..j]) + multiset(ys[j..]);
  }

  lemma {:induction false} OnceEach<T>(xs: seq<T>, x: T)
    requires Distinct(xs)
    ensures multiset(xs)[x] <= 1
  {
    if |xs| > 0 {
      var n := |xs| - 1;
      assert xs == xs[..n] + [xs[n]];
      OnceEach(xs[..n], x);
      if xs[n] == x {
        assert x !in xs[..n];
      }
    }
  }
}
