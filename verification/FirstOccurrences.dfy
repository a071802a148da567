/** Dropping repeated elements while keeping the first of each, as the listing loops do with their `seen` sets. */
module FirstOccurrences {
  import opened Sequences

  function Dedup<T(==)>(xs: seq<T>): seq<T> {
    if |xs| == 0 then [] else
      var earlier := Dedup(xs[..|xs| - 1]);
      if xs[|xs| - 1] in earlier then earlier else earlier + [xs[|xs| - 1]]
  }

  lemma {:induction false} DedupMembers<T>(xs: seq<T>)
    ensures forall x :: x in Dedup(xs) <==> x in xs
  {
    if |xs| > 0 {
      DedupMembers(xs[..|xs| - 1]);
      assert xs == xs[..|xs| - 1] + [xs[|xs| - 1]];
    }
  }

  lemma {:induction false} DedupDistinct<T>(xs: seq<T>)
    ensures forall i, j | 0 <= i < j < |Dedup(xs)| :: Dedup(xs)[i] != Dedup(xs)[j]
  {
    if |xs| > 0 {
      DedupDistinct(xs[..|xs| - 1]);
    }
  }

  lemma DedupNotEmpty<T>(xs: seq<T>)
    ensures |xs| > 0 ==> |Dedup(xs)| > 0
  {
  }

  lemma DedupAppend<T>(xs: seq<T>, x: T)
    ensures Dedup(xs + [x]) == if x in Dedup(xs) then Dedup(xs) else Dedup(xs) + [x]
  {
    assert (xs + [x])[..|xs|] == xs;
  }

  /** Reading further only appends. */
  lemma {:induction false} DedupGrows<T>(xs: seq<T>, ys: seq<T>)
    ensures Dedup(xs) <= Dedup(xs + ys)
  {
    if |ys| == 0 {
      assert xs + ys == xs;
    } else {
      assert xs + ys == (xs + ys[..|ys| - 1]) + [ys[|ys| - 1]];
      DedupGrows(xs, ys[..|ys| - 1]);
      DedupAppend(xs + ys[..|ys| - 1], ys[|ys| - 1]);
    }
  }

  /** Equal elements have only equal elements between them. */
  ghost predicate Contiguous<T>(xs: seq<T>) {
    forall i, m, j | 0 <= i < m < j < |xs| && xs[i] == xs[j] :: xs[m] == xs[i]
  }

  /** In a contiguous sequence a block that has ended does not come back. */
  lemma BlockEnded<T>(xs: seq<T>, ys: seq<T>, x: T)
    requires Contiguous(xs + ys) && |xs| > 0 && |ys| > 0 && xs[|xs| - 1] != ys[0]
    requires x in xs
    ensures x !in ys
  {
    var all, n := xs + ys, |xs|;
    var i :| 0 <= i < n && xs[i] == x;
    assert all[i] == x && all[n - 1] == xs[n - 1] && all[n] == ys[0];
    forall j | 0 <= j < |ys| ensures ys[j] != x {
      assert all[n + j] == ys[j];
    }
  }

  /** A cut between two blocks splits the result in two independent ones. */
  lemma {:induction false} DedupSplits<T>(xs: seq<T>, ys: seq<T>)
    requires Contiguous(xs + ys)
    requires |xs| > 0 && |ys| > 0 ==> xs[|xs| - 1] != ys[0]
    ensures Dedup(xs + ys) == Dedup(xs) + Dedup(ys)
  {
    if |ys| == 0 {
      assert xs + ys == xs;
    } else if |xs| == 0 {
      assert xs + ys == ys;
    } else {
      var init, last := ys[..|ys| - 1], ys[|ys| - 1];
      LastApart(xs, ys);
      ContiguousPrefix(xs + ys, |xs + init|);
      hide Dedup, Contiguous;
      DedupSplits(xs, init);
      DedupAppend(xs + init, last);
      DedupAppend(init, last);
      LastIsNew(xs, ys);
      DedupMembers(xs);
    }
  }

  lemma LastIsNew<T>(xs: seq<T>, ys: seq<T>)
    requires Contiguous(xs + ys) && |xs| > 0 && |ys| > 0 && xs[|xs| - 1] != ys[0]
    ensures ys[|ys| - 1] !in xs
  {
    if ys[|ys| - 1] in xs {
      BlockEnded(xs, ys, ys[|ys| - 1]);
    }
  }

  lemma ContiguousPrefix<T>(xs: seq<T>, n: nat)
    requires Contiguous(xs) && n <= |xs|
    ensures Contiguous(xs[..n])
  {
    var p := xs[..n];
    forall i, m, j | 0 <= i < m < j < |p| && p[i] == p[j] ensures p[m] == p[i] {
      assert xs[i] == xs[j];
    }
  }
}
