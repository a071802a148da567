/**
 Exactly what recursive copy and move do to the tables, and exactly when they do it: the filter folds
 case while the key rewriting does not, and images may land back under the source prefix.
 */
module PrefixOps {
  import opened Bytes
  import opened Like
  import opened Results
  import opened Tables
  import opened Transactions

  /** The object keys that really start with the prefix. */
  ghost predicate IsSource(t: Database, bucket: Str, prefix: Str, key: Str) {
    prefix <= key && RowKey(bucket, key) in t.objects
  }

  /** No object of the bucket passes the case-folding filter without having the prefix. */
  ghost predicate NoStray(t: Database, bucket: Str, prefix: Str) {
    forall k | k in MatchingKeys(t, bucket, prefix) :: prefix <= k
  }

  /** No image of a matched key is a matched key that the copy loop, going in key order, has still to read. */
  ghost predicate NoOverlap(t: Database, bucket: Str, srcPrefix: Str, dstPrefix: Str) {
    forall k | k in MatchingKeys(t, bucket, srcPrefix) ::
      ImageKey(k, srcPrefix, dstPrefix) in MatchingKeys(t, bucket, srcPrefix) ==>
        AtMost(ImageKey(k, srcPrefix, dstPrefix), k)
  }

  /** No image of a source key passes the filter of the source prefix. */
  ghost predicate ImagesEscape(t: Database, bucket: Str, srcPrefix: Str, dstPrefix: Str) {
    forall k | IsSource(t, bucket, srcPrefix, k) :: !(Fold(srcPrefix) <= Fold(ImageKey(k, srcPrefix, dstPrefix)))
  }

  /** The source row a destination row is the image of. */
  function Origin(row: RowKey, srcPrefix: Str, dstPrefix: Str): RowKey
    requires dstPrefix <= row.key
  {
    RowKey(row.bucket, srcPrefix + row.key[|dstPrefix|..])
  }

  ghost predicate IsImage(row: RowKey, bucket: Str, srcPrefix: Str, dstPrefix: Str, sources: iset<Str>) {
    row.bucket == bucket && dstPrefix <= row.key && Origin(row, srcPrefix, dstPrefix).key in sources
  }

  /** `t'` is `t` plus the images of the given source keys, and nothing else changed. */
  ghost predicate Copied(
    t: Database, t': Database, bucket: Str, srcPrefix: Str, dstPrefix: Str, now: int, sources: iset<Str>)
  {
    && t'.buckets == t.buckets
    && forall row: RowKey ::
         if IsImage(row, bucket, srcPrefix, dstPrefix, sources)
         then RowCopied(t, t', Origin(row, srcPrefix, dstPrefix), row, now)
         else RowUnchanged(t, t', row)
  }

  ghost function Sources(t: Database, bucket: Str, prefix: Str): iset<Str> {
    iset k | IsSource(t, bucket, prefix, k)
  }

  /** The promise of CopyPrefix. */
  ghost predicate CopiedExactly(t: Database, t': Database, bucket: Str, srcPrefix: Str, dstPrefix: Str, now: int) {
    Copied(t, t', bucket, srcPrefix, dstPrefix, now, Sources(t, bucket, srcPrefix))
  }

  /** The promise of MovePrefix: the images are there, the other source keys are gone, the rest is untouched. */
  ghost predicate MovedExactly(t: Database, t': Database, bucket: Str, srcPrefix: Str, dstPrefix: Str, now: int) {
    && t'.buckets == t.buckets
    && forall row: RowKey ::
         if IsImage(row, bucket, srcPrefix, dstPrefix, Sources(t, bucket, srcPrefix))
         then RowCopied(t, t', Origin(row, srcPrefix, dstPrefix), row, now)
         else if row.bucket == bucket && IsSource(t, bucket, srcPrefix, row.key) then RowAbsent(t', row)
         else RowUnchanged(t, t', row)
  }

  // ---------------------------------------------------------------------------------------------
  // Keys and their images
  // ---------------------------------------------------------------------------------------------

  lemma ImageOfSource(key: Str, srcPrefix: Str, dstPrefix: Str, row: RowKey)
    requires srcPrefix <= key
    ensures dstPrefix <= ImageKey(key, srcPrefix, dstPrefix)
    ensures row.key == ImageKey(key, srcPrefix, dstPrefix) <==>
      dstPrefix <= row.key && Origin(row, srcPrefix, dstPrefix).key == key
  {
    assert key == srcPrefix + key[|srcPrefix|..];
    if dstPrefix <= row.key {
      assert row.key == dstPrefix + row.key[|dstPrefix|..];
      if Origin(row, srcPrefix, dstPrefix).key == key {
        assert key[|srcPrefix|..] == row.key[|dstPrefix|..];
      }
    }
    if row.key == ImageKey(key, srcPrefix, dstPrefix) {
      assert row.key[|dstPrefix|..] == key[|srcPrefix|..];
    }
  }

  lemma PrefixesComparable(a: Text, b: Text, s: Text)
    requires a <= s && b <= s
    ensures a <= b || b <= a
  {
    assert a == s[..|a|] && b == s[..|b|];
    assert |a| <= |b| ==> a == b[..|a|];
    assert |b| <= |a| ==> b == a[..|b|];
  }

  lemma FoldOfPrefix(p: Str, s: Str)
    requires p <= s
    ensures Fold(p) <= Fold(s)
  {
    assert Fold(p) == Fold(s)[..|p|];
  }

  /** The selected rows are the matched keys, each once. */
  lemma SelectPrefixMeaning(t: Database, bucket: Str, prefix: Str)
    ensures var rows := SelectPrefix(t, bucket, prefix);
      && (forall k :: k in MatchingKeys(t, bucket, prefix) <==> exists i :: 0 <= i < |rows| && rows[i].key == k)
      && (forall i, j | 0 <= i < j < |rows| :: Less(rows[i].key, rows[j].key) && rows[i].key != rows[j].key)
      && (forall i | 0 <= i < |rows| ::
           ObjectRow(rows[i]) in t.objects && t.objects[ObjectRow(rows[i])] == rows[i].attrs
                                      && rows[i].bucket == bucket)
  {
    var rows := SelectPrefix(t, bucket, prefix);
    var keys := SortKeys(MatchingKeys(t, bucket, prefix));
    forall k ensures k in MatchingKeys(t, bucket, prefix) <==> exists i :: 0 <= i < |rows| && rows[i].key == k {
      if k in keys {
        var i :| 0 <= i < |keys| && keys[i] == k;
        assert rows[i].key == k;
      }
      if i :| 0 <= i < |rows| && rows[i].key == k {
        assert keys[i] == k;
      }
    }
    forall i, j | 0 <= i < j < |rows| ensures Less(rows[i].key, rows[j].key) && rows[i].key != rows[j].key {
      assert Less(keys[i], keys[j]);
      LessAsymmetric(keys[i], keys[j]);
    }
    forall i | 0 <= i < |rows|
      ensures ObjectRow(rows[i]) in t.objects && t.objects[ObjectRow(rows[i])] == rows[i].attrs
    {
      MatchingKeysMember(t, bucket, prefix, rows[i].key);
    }
  }

  // ---------------------------------------------------------------------------------------------
  // The copy loop
  // ---------------------------------------------------------------------------------------------

  ghost function KeysOf(rows: seq<Object>): iset<Str> {
    iset i | 0 <= i < |rows| :: rows[i].key
  }

  /** What the loop needs of the rows it is given. */
  ghost predicate CopyInput(t: Database, bucket: Str, rows: seq<Object>, srcPrefix: Str) {
    && (forall i | 0 <= i < |rows| ::
          && rows[i].bucket == bucket && srcPrefix <= rows[i].key
          && ObjectRow(rows[i]) in t.objects && t.objects[ObjectRow(rows[i])] == rows[i].attrs)
    && (forall i, j | 0 <= i < j < |rows| :: Less(rows[i].key, rows[j].key) && rows[i].key != rows[j].key)
  }

  /** The destination of the i-th turn. */
  function Target(rows: seq<Object>, i: nat, srcPrefix: Str, dstPrefix: Str): RowKey
    requires i < |rows|
  {
    RowKey(rows[i].bucket, ImageKey(rows[i].key, srcPrefix, dstPrefix))
  }

  ghost predicate SomeImageExists(t: Database, rows: seq<Object>, n: nat, srcPrefix: Str, dstPrefix: Str)
    requires n <= |rows|
  {
    exists i :: 0 <= i < n && Target(rows, i, srcPrefix, dstPrefix) in t.objects
  }

  /** Turn `m` writes the row that turn `i` reads. */
  ghost predicate Feeds(rows: seq<Object>, m: nat, i: nat, srcPrefix: Str, dstPrefix: Str)
    requires m < |rows| && i < |rows|
  {
    Target(rows, m, srcPrefix, dstPrefix) == ObjectRow(rows[i])
  }

  /** The chunks that the i-th turn finds: its own, or those an earlier turn has put in their place. */
  ghost function LiveChunks(t: Database, rows: seq<Object>, i: nat, srcPrefix: Str, dstPrefix: Str): seq<Chunk>
    requires i < |rows|
  {
    if m: nat :| m < i && Feeds(rows, m, i, srcPrefix, dstPrefix)
    then CopyChunksForKey(LiveChunks(t, rows, m, srcPrefix, dstPrefix), ObjectRow(rows[i]))
    else ListChunks(t, ObjectRow(rows[i]))
  }

  ghost predicate IsTarget(rows: seq<Object>, n: nat, srcPrefix: Str, dstPrefix: Str, row: RowKey)
    requires n <= |rows|
  {
    exists i :: 0 <= i < n && row == Target(rows, i, srcPrefix, dstPrefix)
  }

  /** A target carries the row its turn was given and the chunks its turn found. */
  ghost predicate TargetWritten(
    t: Database, u: Database, rows: seq<Object>, i: nat, srcPrefix: Str, dstPrefix: Str, now: int)
    requires i < |rows|
  {
    var dst := Target(rows, i, srcPrefix, dstPrefix);
    && dst in u.objects && u.objects[dst] == rows[i].attrs.(lastModified := now)
    && ListChunks(u, dst) == CopyChunksForKey(LiveChunks(t, rows, i, srcPrefix, dstPrefix), dst)
  }

  /** The tables after `n` turns: the first `n` targets are written, and nothing else changed. */
  ghost predicate Written(
    t: Database, u: Database, rows: seq<Object>, n: nat, srcPrefix: Str, dstPrefix: Str, now: int)
    requires n <= |rows|
  {
    && u.buckets == t.buckets
    && (forall i | 0 <= i < n :: TargetWritten(t, u, rows, i, srcPrefix, dstPrefix, now))
    && (forall row: RowKey | !IsTarget(rows, n, srcPrefix, dstPrefix, row) :: RowUnchanged(t, u, row))
  }

  /** Different turns write different rows. */
  lemma TargetsDiffer(t: Database, bucket: Str, rows: seq<Object>, srcPrefix: Str, dstPrefix: Str, i: nat, j: nat)
    requires CopyInput(t, bucket, rows, srcPrefix) && i < j < |rows|
    ensures Target(rows, i, srcPrefix, dstPrefix) != Target(rows, j, srcPrefix, dstPrefix)
  {
    ImageOfSource(rows[i].key, srcPrefix, dstPrefix, Target(rows, i, srcPrefix, dstPrefix));
    ImageOfSource(rows[j].key, srcPrefix, dstPrefix, Target(rows, i, srcPrefix, dstPrefix));
  }

  lemma OnlyFeeder(t: Database, bucket: Str, rows: seq<Object>, m: nat, i: nat, srcPrefix: Str, dstPrefix: Str)
    requires CopyInput(t, bucket, rows, srcPrefix) && m < i < |rows| && Feeds(rows, m, i, srcPrefix, dstPrefix)
    ensures LiveChunks(t, rows, i, srcPrefix, dstPrefix)
         == CopyChunksForKey(LiveChunks(t, rows, m, srcPrefix, dstPrefix), ObjectRow(rows[i]))
  {
    hide ListChunks;
    forall o: nat | o < i && Feeds(rows, o, i, srcPrefix, dstPrefix) ensures o == m {
      if o < m {
        TargetsDiffer(t, bucket, rows, srcPrefix, dstPrefix, o, m);
      } else if m < o {
        TargetsDiffer(t, bucket, rows, srcPrefix, dstPrefix, m, o);
      }
    }
  }

  /** Before its turn comes, a row has its live chunks. */
  lemma LiveAtTurn(t: Database, u: Database, bucket: Str, rows: seq<Object>, n: nat,
                   srcPrefix: Str, dstPrefix: Str, now: int)
    requires CopyInput(t, bucket, rows, srcPrefix) && n < |rows|
    requires Written(t, u, rows, n, srcPrefix, dstPrefix, now)
    ensures ListChunks(u, ObjectRow(rows[n])) == LiveChunks(t, rows, n, srcPrefix, dstPrefix)
  {
    if m: nat :| m < n && Feeds(rows, m, n, srcPrefix, dstPrefix) {
      OnlyFeeder(t, bucket, rows, m, n, srcPrefix, dstPrefix);
      hide ListChunks, LiveChunks, CopyInput, Target, RowUnchanged, CopyChunksForKey;
      assert TargetWritten(t, u, rows, m, srcPrefix, dstPrefix, now);
    } else {
      NotFed(t, rows, n, srcPrefix, dstPrefix);
      hide ListChunks, LiveChunks, CopyInput, Target, TargetWritten;
      assert !IsTarget(rows, n, srcPrefix, dstPrefix, ObjectRow(rows[n]));
    }
  }

  lemma NotFed(t: Database, rows: seq<Object>, n: nat, srcPrefix: Str, dstPrefix: Str)
    requires n < |rows| && forall m: nat | m < n :: !Feeds(rows, m, n, srcPrefix, dstPrefix)
    ensures LiveChunks(t, rows, n, srcPrefix, dstPrefix) == ListChunks(t, ObjectRow(rows[n]))
    ensures !IsTarget(rows, n, srcPrefix, dstPrefix, ObjectRow(rows[n]))
  {
    hide ListChunks, Target;
    forall m: nat | m < n ensures Target(rows, m, srcPrefix, dstPrefix) != ObjectRow(rows[n]) {
      assert !Feeds(rows, m, n, srcPrefix, dstPrefix);
    }
  }

  /** One turn of the loop, whatever the earlier ones have overwritten. */
  lemma CopyTurn(t: Database, u: Database, bucket: Str, rows: seq<Object>, n: nat,
                 srcPrefix: Str, dstPrefix: Str, overwrite: bool, now: int)
    requires CopyInput(t, bucket, rows, srcPrefix) && n < |rows|
    requires Written(t, u, rows, n, srcPrefix, dstPrefix, now)
    ensures var r := CopyRow(u, rows[n], srcPrefix, dstPrefix, overwrite, now);
      && (r.Err? <==> !overwrite && Target(rows, n, srcPrefix, dstPrefix) in t.objects)
      && (r.Err? ==> r.error == DestinationExists)
      && (r.Ok? ==> && (r.value.1 <==> Target(rows, n, srcPrefix, dstPrefix) !in t.objects)
                    && Written(t, r.value.0, rows, n + 1, srcPrefix, dstPrefix, now))
  {
    var dst := Target(rows, n, srcPrefix, dstPrefix);
    CopyRowEffect(u, rows[n], srcPrefix, dstPrefix, overwrite, now);
    LiveAtTurn(t, u, bucket, rows, n, srcPrefix, dstPrefix, now);
    FreshTarget(t, bucket, rows, n, srcPrefix, dstPrefix);
    hide CopyRow, ListChunks, LiveChunks, CopyInput, Target, TargetWritten, IsTarget;
    assert RowUnchanged(t, u, dst);
    var r := CopyRow(u, rows[n], srcPrefix, dstPrefix, overwrite, now);
    if r.Ok? {
      WrittenNext(t, u, r.value.0, rows, n, srcPrefix, dstPrefix, now);
    }
  }

  lemma FreshTarget(t: Database, bucket: Str, rows: seq<Object>, n: nat, srcPrefix: Str, dstPrefix: Str)
    requires CopyInput(t, bucket, rows, srcPrefix) && n < |rows|
    ensures !IsTarget(rows, n, srcPrefix, dstPrefix, Target(rows, n, srcPrefix, dstPrefix))
  {
    forall i | 0 <= i < n ensures Target(rows, i, srcPrefix, dstPrefix) != Target(rows, n, srcPrefix, dstPrefix) {
      TargetsDiffer(t, bucket, rows, srcPrefix, dstPrefix, i, n);
    }
  }

  /** Replacing the next target extends what has been written. */
  lemma WrittenNext(t: Database, u: Database, v: Database, rows: seq<Object>, n: nat,
                    srcPrefix: Str, dstPrefix: Str, now: int)
    requires n < |rows| && Written(t, u, rows, n, srcPrefix, dstPrefix, now)
    requires !IsTarget(rows, n, srcPrefix, dstPrefix, Target(rows, n, srcPrefix, dstPrefix))
    requires var dst := Target(rows, n, srcPrefix, dstPrefix);
      RowReplaced(u, v, dst, rows[n].attrs.(lastModified := now),
                  CopyChunksForKey(LiveChunks(t, rows, n, srcPrefix, dstPrefix), dst))
    ensures Written(t, v, rows, n + 1, srcPrefix, dstPrefix, now)
  {
    hide ListChunks, LiveChunks, Target, CopyChunksForKey;
    var dst := Target(rows, n, srcPrefix, dstPrefix);
    forall i | 0 <= i < n + 1 ensures TargetWritten(t, v, rows, i, srcPrefix, dstPrefix, now) {
      if i < n {
        assert TargetWritten(t, u, rows, i, srcPrefix, dstPrefix, now);
        assert Target(rows, i, srcPrefix, dstPrefix) != dst;
      }
    }
    forall row: RowKey | !IsTarget(rows, n + 1, srcPrefix, dstPrefix, row) ensures RowUnchanged(t, v, row) {
      assert row != dst && !IsTarget(rows, n, srcPrefix, dstPrefix, row);
      assert RowUnchanged(t, u, row);
    }
  }

  /**
   The loop as a whole: it fails exactly on a destination it may not overwrite, reports creation exactly when no
   destination existed, and otherwise writes every target with the chunks that its turn finds.
   */
  lemma {:induction false} CopyRowsExact(
    t: Database, bucket: Str, rows: seq<Object>, n: nat, srcPrefix: Str, dstPrefix: Str, overwrite: bool, now: int)
    requires CopyInput(t, bucket, rows, srcPrefix) && n <= |rows|
    ensures var r := CopyRows(t, rows[..n], srcPrefix, dstPrefix, overwrite, now);
      && (r.Err? <==> !overwrite && SomeImageExists(t, rows, n, srcPrefix, dstPrefix))
      && (r.Err? ==> r.error == DestinationExists)
      && (r.Ok? ==> && (r.value.1 <==> !SomeImageExists(t, rows, n, srcPrefix, dstPrefix))
                    && Written(t, r.value.0, rows, n, srcPrefix, dstPrefix, now))
  {
    if n > 0 {
      CopyRowsExact(t, bucket, rows, n - 1, srcPrefix, dstPrefix, overwrite, now);
      assert rows[..n][..n - 1] == rows[..n - 1];
      SomeImageAppend(t, rows, n - 1, srcPrefix, dstPrefix);
      var before := CopyRows(t, rows[..n - 1], srcPrefix, dstPrefix, overwrite, now);
      hide SomeImageExists, Written, CopyRow, CopyInput, Target;
      if before.Ok? {
        CopyTurn(t, before.value.0, bucket, rows, n - 1, srcPrefix, dstPrefix, overwrite, now);
      }
    }
  }

  lemma SomeImageAppend(t: Database, rows: seq<Object>, n: nat, srcPrefix: Str, dstPrefix: Str)
    requires n < |rows|
    ensures SomeImageExists(t, rows, n + 1, srcPrefix, dstPrefix) <==>
      SomeImageExists(t, rows, n, srcPrefix, dstPrefix) || Target(rows, n, srcPrefix, dstPrefix) in t.objects
  {
    hide Target;
    if SomeImageExists(t, rows, n, srcPrefix, dstPrefix) {
      var i :| 0 <= i < n && Target(rows, i, srcPrefix, dstPrefix) in t.objects;
      assert i < n + 1;
    }
  }

  // ---------------------------------------------------------------------------------------------
  // Exactness of the loop
  // ---------------------------------------------------------------------------------------------

  /** Relabelling keeps lists of one row apart. */
  lemma RelabelInjective(a: seq<Chunk>, b: seq<Chunk>, from: RowKey, to: RowKey)
    requires BelongTo(a, from) && BelongTo(b, from)
    ensures CopyChunksForKey(a, to) == CopyChunksForKey(b, to) <==> a == b
  {
    if CopyChunksForKey(a, to) == CopyChunksForKey(b, to) {
      assert |a| == |CopyChunksForKey(a, to)| == |b|;
      forall i | 0 <= i < |a| ensures a[i] == b[i] {
        assert CopyChunksForKey(a, to)[i] == CopyChunksForKey(b, to)[i];
      }
    }
  }

  lemma LiveBelong(t: Database, rows: seq<Object>, i: nat, srcPrefix: Str, dstPrefix: Str)
    requires i < |rows|
    ensures BelongTo(LiveChunks(t, rows, i, srcPrefix, dstPrefix), ObjectRow(rows[i]))
    ensures BelongTo(ListChunks(t, ObjectRow(rows[i])), ObjectRow(rows[i]))
  {
    ListChunksMeaning(t, ObjectRow(rows[i]));
  }

  /** Every turn finds the chunks its row had before the loop. */
  ghost predicate NoneDisturbed(t: Database, rows: seq<Object>, srcPrefix: Str, dstPrefix: Str) {
    forall i | 0 <= i < |rows| :: LiveChunks(t, rows, i, srcPrefix, dstPrefix) == ListChunks(t, ObjectRow(rows[i]))
  }

  /** What one turn hands to a later one is what that one has anyway. */
  ghost predicate FeedsAgree(t: Database, rows: seq<Object>, srcPrefix: Str, dstPrefix: Str) {
    forall m: nat, i: nat | m < i < |rows| && Feeds(rows, m, i, srcPrefix, dstPrefix) ::
      CopyChunksForKey(ListChunks(t, ObjectRow(rows[m])), ObjectRow(rows[i])) == ListChunks(t, ObjectRow(rows[i]))
  }

  lemma {:induction false} AgreeingFeeds(t: Database, rows: seq<Object>, i: nat, srcPrefix: Str, dstPrefix: Str)
    requires FeedsAgree(t, rows, srcPrefix, dstPrefix) && i < |rows|
    ensures LiveChunks(t, rows, i, srcPrefix, dstPrefix) == ListChunks(t, ObjectRow(rows[i]))
  {
    hide ListChunks;
    forall m: nat | m < i {
      AgreeingFeeds(t, rows, m, srcPrefix, dstPrefix);
    }
  }

  lemma NoneDisturbedIff(t: Database, bucket: Str, rows: seq<Object>, srcPrefix: Str, dstPrefix: Str)
    requires CopyInput(t, bucket, rows, srcPrefix)
    ensures NoneDisturbed(t, rows, srcPrefix, dstPrefix) <==> FeedsAgree(t, rows, srcPrefix, dstPrefix)
  {
    hide ListChunks, LiveChunks, CopyInput, Feeds;
    if FeedsAgree(t, rows, srcPrefix, dstPrefix) {
      forall i: nat | i < |rows|
        ensures LiveChunks(t, rows, i, srcPrefix, dstPrefix) == ListChunks(t, ObjectRow(rows[i]))
      {
        AgreeingFeeds(t, rows, i, srcPrefix, dstPrefix);
      }
    }
    if NoneDisturbed(t, rows, srcPrefix, dstPrefix) {
      forall m: nat, i: nat | m < i < |rows| && Feeds(rows, m, i, srcPrefix, dstPrefix)
        ensures CopyChunksForKey(ListChunks(t, ObjectRow(rows[m])), ObjectRow(rows[i]))
             == ListChunks(t, ObjectRow(rows[i]))
      {
        OnlyFeeder(t, bucket, rows, m, i, srcPrefix, dstPrefix);
      }
    }
  }

  /** The images of the rows' keys are the targets. */
  lemma ImageIsTarget(t: Database, bucket: Str, rows: seq<Object>, srcPrefix: Str, dstPrefix: Str, row: RowKey)
    requires CopyInput(t, bucket, rows, srcPrefix)
    ensures IsImage(row, bucket, srcPrefix, dstPrefix, KeysOf(rows))
       <==> IsTarget(rows, |rows|, srcPrefix, dstPrefix, row)
  {
    if IsImage(row, bucket, srcPrefix, dstPrefix, KeysOf(rows)) {
      var i :| 0 <= i < |rows| && rows[i].key == Origin(row, srcPrefix, dstPrefix).key;
      ImageOfSource(rows[i].key, srcPrefix, dstPrefix, row);
      assert row == Target(rows, i, srcPrefix, dstPrefix);
    }
    if i :| 0 <= i < |rows| && row == Target(rows, i, srcPrefix, dstPrefix) {
      ImageOfSource(rows[i].key, srcPrefix, dstPrefix, row);
    }
  }

  lemma TargetOrigin(t: Database, bucket: Str, rows: seq<Object>, srcPrefix: Str, dstPrefix: Str, i: nat)
    requires CopyInput(t, bucket, rows, srcPrefix) && i < |rows|
    ensures dstPrefix <= Target(rows, i, srcPrefix, dstPrefix).key
    ensures Origin(Target(rows, i, srcPrefix, dstPrefix), srcPrefix, dstPrefix) == ObjectRow(rows[i])
  {
    ImageOfSource(rows[i].key, srcPrefix, dstPrefix, Target(rows, i, srcPrefix, dstPrefix));
  }

  /** A target is an exact image exactly when its turn found undisturbed chunks. */
  lemma TargetCopiedIff(t: Database, u: Database, bucket: Str, rows: seq<Object>, i: nat,
                        srcPrefix: Str, dstPrefix: Str, now: int)
    requires CopyInput(t, bucket, rows, srcPrefix) && i < |rows|
    requires Written(t, u, rows, |rows|, srcPrefix, dstPrefix, now)
    ensures RowCopied(t, u, ObjectRow(rows[i]), Target(rows, i, srcPrefix, dstPrefix), now) <==>
      LiveChunks(t, rows, i, srcPrefix, dstPrefix) == ListChunks(t, ObjectRow(rows[i]))
  {
    LiveBelong(t, rows, i, srcPrefix, dstPrefix);
    RelabelInjective(LiveChunks(t, rows, i, srcPrefix, dstPrefix), ListChunks(t, ObjectRow(rows[i])),
                     ObjectRow(rows[i]), Target(rows, i, srcPrefix, dstPrefix));
    hide ListChunks, LiveChunks, Target, CopyChunksForKey, IsTarget;
    assert TargetWritten(t, u, rows, i, srcPrefix, dstPrefix, now);
  }

  lemma WrittenIsCopiedIff(t: Database, u: Database, bucket: Str, rows: seq<Object>,
                           srcPrefix: Str, dstPrefix: Str, now: int)
    requires CopyInput(t, bucket, rows, srcPrefix) && Written(t, u, rows, |rows|, srcPrefix, dstPrefix, now)
    ensures Copied(t, u, bucket, srcPrefix, dstPrefix, now, KeysOf(rows)) <==> FeedsAgree(t, rows, srcPrefix, dstPrefix)
  {
    NoneDisturbedIff(t, bucket, rows, srcPrefix, dstPrefix);
    assert forall row: RowKey | !IsTarget(rows, |rows|, srcPrefix, dstPrefix, row) :: RowUnchanged(t, u, row);
    assert u.buckets == t.buckets;
    hide Written, CopyInput, Target, LiveChunks, ListChunks, RowCopied, RowUnchanged, IsImage, KeysOf, FeedsAgree;
    if NoneDisturbed(t, rows, srcPrefix, dstPrefix) {
      forall row: RowKey
        ensures if IsImage(row, bucket, srcPrefix, dstPrefix, KeysOf(rows))
                then dstPrefix <= row.key && RowCopied(t, u, Origin(row, srcPrefix, dstPrefix), row, now)
                else RowUnchanged(t, u, row)
      {
        ImageIsTarget(t, bucket, rows, srcPrefix, dstPrefix, row);
        if i :| 0 <= i < |rows| && row == Target(rows, i, srcPrefix, dstPrefix) {
          TargetOrigin(t, bucket, rows, srcPrefix, dstPrefix, i);
          TargetCopiedIff(t, u, bucket, rows, i, srcPrefix, dstPrefix, now);
        }
      }
    }
    if Copied(t, u, bucket, srcPrefix, dstPrefix, now, KeysOf(rows)) {
      forall i: nat | i < |rows|
        ensures LiveChunks(t, rows, i, srcPrefix, dstPrefix) == ListChunks(t, ObjectRow(rows[i]))
      {
        var row := Target(rows, i, srcPrefix, dstPrefix);
        ImageIsTarget(t, bucket, rows, srcPrefix, dstPrefix, row);
        TargetOrigin(t, bucket, rows, srcPrefix, dstPrefix, i);
        TargetCopiedIff(t, u, bucket, rows, i, srcPrefix, dstPrefix, now);
      }
    }
  }

  // ---------------------------------------------------------------------------------------------
  // CopyPrefix
  // ---------------------------------------------------------------------------------------------

  ghost predicate SomeDestinationExists(t: Database, bucket: Str, srcPrefix: Str, dstPrefix: Str) {
    exists k :: IsSource(t, bucket, srcPrefix, k) && RowKey(bucket, ImageKey(k, srcPrefix, dstPrefix)) in t.objects
  }

  /** Whenever a source key's image is a later source key, that one has the same chunks, relabelled. */
  ghost predicate ChainsAgree(t: Database, bucket: Str, srcPrefix: Str, dstPrefix: Str) {
    forall k | IsSource(t, bucket, srcPrefix, k) && IsSource(t, bucket, srcPrefix, ImageKey(k, srcPrefix, dstPrefix))
                 && Less(k, ImageKey(k, srcPrefix, dstPrefix)) ::
      CopyChunksForKey(ListChunks(t, RowKey(bucket, k)), RowKey(bucket, ImageKey(k, srcPrefix, dstPrefix)))
        == ListChunks(t, RowKey(bucket, ImageKey(k, srcPrefix, dstPrefix)))
  }

  /** Under no stray key the filter and the prefix agree. */
  lemma MatchedAreSources(t: Database, bucket: Str, prefix: Str, key: Str)
    requires NoStray(t, bucket, prefix)
    ensures key in MatchingKeys(t, bucket, prefix) <==> key in Sources(t, bucket, prefix)
  {
    MatchingKeysMember(t, bucket, prefix, key);
    if prefix <= key {
      FoldOfPrefix(prefix, key);
    }
  }

  /** The selected rows are the source keys, each once and in order. */
  lemma SelectedRowsFit(t: Database, bucket: Str, srcPrefix: Str)
    requires NoStray(t, bucket, srcPrefix)
    ensures CopyInput(t, bucket, SelectPrefix(t, bucket, srcPrefix), srcPrefix)
    ensures KeysOf(SelectPrefix(t, bucket, srcPrefix)) == Sources(t, bucket, srcPrefix)
  {
    var rows := SelectPrefix(t, bucket, srcPrefix);
    SelectPrefixMeaning(t, bucket, srcPrefix);
    hide SelectPrefix, MatchingKeys;
    forall k ensures k in KeysOf(rows) <==> k in Sources(t, bucket, srcPrefix) {
      MatchedAreSources(t, bucket, srcPrefix, k);
    }
    forall i | 0 <= i < |rows| ensures srcPrefix <= rows[i].key {
      assert rows[i].key in MatchingKeys(t, bucket, srcPrefix);
    }
  }

  lemma SelectedImages(t: Database, bucket: Str, srcPrefix: Str, dstPrefix: Str, rows: seq<Object>)
    requires CopyInput(t, bucket, rows, srcPrefix) && KeysOf(rows) == Sources(t, bucket, srcPrefix)
    ensures SomeImageExists(t, rows, |rows|, srcPrefix, dstPrefix)
       <==> SomeDestinationExists(t, bucket, srcPrefix, dstPrefix)
  {
    if k :| IsSource(t, bucket, srcPrefix, k) && RowKey(bucket, ImageKey(k, srcPrefix, dstPrefix)) in t.objects {
      assert k in KeysOf(rows);
      var i :| 0 <= i < |rows| && rows[i].key == k;
      assert Target(rows, i, srcPrefix, dstPrefix) in t.objects;
    }
    if i :| 0 <= i < |rows| && Target(rows, i, srcPrefix, dstPrefix) in t.objects {
      assert rows[i].key in KeysOf(rows);
    }
  }

  /** Turns that feed later turns are source keys whose image is a later source key. */
  lemma FeedsAreChains(t: Database, bucket: Str, srcPrefix: Str, dstPrefix: Str, rows: seq<Object>)
    requires CopyInput(t, bucket, rows, srcPrefix) && KeysOf(rows) == Sources(t, bucket, srcPrefix)
    ensures FeedsAgree(t, rows, srcPrefix, dstPrefix) <==> ChainsAgree(t, bucket, srcPrefix, dstPrefix)
  {
    hide ListChunks, CopyChunksForKey, ImageKey;
    if ChainsAgree(t, bucket, srcPrefix, dstPrefix) {
      forall m: nat, i: nat | m < i < |rows| && Feeds(rows, m, i, srcPrefix, dstPrefix)
        ensures CopyChunksForKey(ListChunks(t, ObjectRow(rows[m])), ObjectRow(rows[i]))
             == ListChunks(t, ObjectRow(rows[i]))
      {
        assert rows[m].key in KeysOf(rows) && rows[i].key in KeysOf(rows);
      }
    }
    if FeedsAgree(t, rows, srcPrefix, dstPrefix) {
      forall k | IsSource(t, bucket, srcPrefix, k) && IsSource(t, bucket, srcPrefix, ImageKey(k, srcPrefix, dstPrefix))
                   && Less(k, ImageKey(k, srcPrefix, dstPrefix))
        ensures CopyChunksForKey(ListChunks(t, RowKey(bucket, k)), RowKey(bucket, ImageKey(k, srcPrefix, dstPrefix)))
             == ListChunks(t, RowKey(bucket, ImageKey(k, srcPrefix, dstPrefix)))
      {
        var image := ImageKey(k, srcPrefix, dstPrefix);
        assert k in KeysOf(rows) && image in KeysOf(rows);
        var m :| 0 <= m < |rows| && rows[m].key == k;
        var i :| 0 <= i < |rows| && rows[i].key == image;
        LessAsymmetric(k, image);
        assert Feeds(rows, m, i, srcPrefix, dstPrefix);
      }
    }
  }

  /**
   A recursive copy without stray keys: when it fails, what it reports, and exactly when it keeps its promise. The
   rows are read before the loop and their chunks during it, so a later row must not have lost its own by then.
   */
  lemma CopyPrefixExactIff(t: Database, bucket: Str, srcPrefix: Str, dstPrefix: Str, overwrite: bool, now: int)
    requires NoStray(t, bucket, srcPrefix)
    ensures var r := CopyPrefixTx(t, bucket, srcPrefix, dstPrefix, overwrite, now);
      && (r.Err? <==> !overwrite && SomeDestinationExists(t, bucket, srcPrefix, dstPrefix))
      && (r.Err? ==> r.error == DestinationExists)
      && (r.Ok? ==> (r.value.1 <==> !SomeDestinationExists(t, bucket, srcPrefix, dstPrefix)))
      && (r.Ok? ==> (CopiedExactly(t, r.value.0, bucket, srcPrefix, dstPrefix, now) <==>
                     ChainsAgree(t, bucket, srcPrefix, dstPrefix)))
  {
    var rows := SelectPrefix(t, bucket, srcPrefix);
    assert CopyPrefixTx(t, bucket, srcPrefix, dstPrefix, overwrite, now)
        == CopyRows(t, rows, srcPrefix, dstPrefix, overwrite, now);
    assert rows[..|rows|] == rows;
    hide SelectPrefix, CopyPrefixTx, CopyRows, CopyInput, SomeImageExists, SomeDestinationExists, Written, Copied,
      FeedsAgree, ChainsAgree, KeysOf, Sources;
    SelectedRowsFit(t, bucket, srcPrefix);
    CopyRowsExact(t, bucket, rows, |rows|, srcPrefix, dstPrefix, overwrite, now);
    SelectedImages(t, bucket, srcPrefix, dstPrefix, rows);
    FeedsAreChains(t, bucket, srcPrefix, dstPrefix, rows);
    var r := CopyRows(t, rows, srcPrefix, dstPrefix, overwrite, now);
    if r.Ok? {
      WrittenIsCopiedIff(t, r.value.0, bucket, rows, srcPrefix, dstPrefix, now);
    }
  }

  lemma CopyRowKeepsObjects(t: Database, src: Object, srcPrefix: Str, dstPrefix: Str, overwrite: bool, now: int)
    requires CopyRow(t, src, srcPrefix, dstPrefix, overwrite, now).Ok?
    ensures CopyRow(t, src, srcPrefix, dstPrefix, overwrite, now).value.0.objects.Keys ==
      t.objects.Keys + {RowKey(src.bucket, ImageKey(src.key, srcPrefix, dstPrefix))}
  {
    hide CopyRow, ListChunks, ImageKey;
    CopyRowEffect(t, src, srcPrefix, dstPrefix, overwrite, now);
  }

  /** Every turn leaves its destination in the table. */
  lemma {:induction false} TargetsStay(
    t: Database, rows: seq<Object>, n: nat, srcPrefix: Str, dstPrefix: Str, overwrite: bool, now: int)
    requires n <= |rows| && CopyRows(t, rows[..n], srcPrefix, dstPrefix, overwrite, now).Ok?
    ensures forall i | 0 <= i < n ::
      Target(rows, i, srcPrefix, dstPrefix)
        in CopyRows(t, rows[..n], srcPrefix, dstPrefix, overwrite, now).value.0.objects
  {
    hide CopyRow;
    if n > 0 {
      assert rows[..n][..n - 1] == rows[..n - 1];
      TargetsStay(t, rows, n - 1, srcPrefix, dstPrefix, overwrite, now);
      var u := CopyRows(t, rows[..n - 1], srcPrefix, dstPrefix, overwrite, now).value.0;
      CopyRowKeepsObjects(u, rows[n - 1], srcPrefix, dstPrefix, overwrite, now);
      hide CopyRows;
    }
  }

  /**
   A stray key is copied too, under the destination prefix and with its whole key behind it. Where that is neither
   the image of a source key nor an object already, the copy is not exact.
   */
  lemma StrayCopyLeaks(t: Database, bucket: Str, srcPrefix: Str, dstPrefix: Str, overwrite: bool, now: int, key: Str)
    requires CopyPrefixTx(t, bucket, srcPrefix, dstPrefix, overwrite, now).Ok?
    requires key in MatchingKeys(t, bucket, srcPrefix) && !(srcPrefix <= key)
    requires RowKey(bucket, dstPrefix + key) !in t.objects && RowKey(bucket, srcPrefix + key) !in t.objects
    ensures RowKey(bucket, dstPrefix + key)
      in CopyPrefixTx(t, bucket, srcPrefix, dstPrefix, overwrite, now).value.0.objects
    ensures !CopiedExactly(t, CopyPrefixTx(t, bucket, srcPrefix, dstPrefix, overwrite, now).value.0,
                           bucket, srcPrefix, dstPrefix, now)
  {
    var rows := SelectPrefix(t, bucket, srcPrefix);
    var u := CopyPrefixTx(t, bucket, srcPrefix, dstPrefix, overwrite, now).value.0;
    var row := RowKey(bucket, dstPrefix + key);
    assert rows[..|rows|] == rows;
    SelectPrefixMeaning(t, bucket, srcPrefix);
    TargetsStay(t, rows, |rows|, srcPrefix, dstPrefix, overwrite, now);
    hide SelectPrefix, CopyRows, MatchingKeys;
    var i :| 0 <= i < |rows| && rows[i].key == key;
    assert Target(rows, i, srcPrefix, dstPrefix) == row;
    assert row.key[|dstPrefix|..] == key;
    assert !IsImage(row, bucket, srcPrefix, dstPrefix, Sources(t, bucket, srcPrefix));
    assert !RowUnchanged(t, u, row);
  }

  /** Without an image ahead of the loop there is no chain to agree. */
  lemma NoOverlapNoChains(t: Database, bucket: Str, srcPrefix: Str, dstPrefix: Str)
    requires NoOverlap(t, bucket, srcPrefix, dstPrefix)
    ensures ChainsAgree(t, bucket, srcPrefix, dstPrefix)
  {
    hide ListChunks, ImageKey;
    forall k | IsSource(t, bucket, srcPrefix, k) && IsSource(t, bucket, srcPrefix, ImageKey(k, srcPrefix, dstPrefix))
      ensures !Less(k, ImageKey(k, srcPrefix, dstPrefix))
    {
      var image := ImageKey(k, srcPrefix, dstPrefix);
      FoldOfPrefix(srcPrefix, k);
      FoldOfPrefix(srcPrefix, image);
      MatchingKeysMember(t, bucket, srcPrefix, k);
      MatchingKeysMember(t, bucket, srcPrefix, image);
      if Less(k, image) {
        LessAsymmetric(k, image);
      }
    }
  }

  /** A recursive copy whose images meet no matched key still to be read does exactly what it promises. */
  lemma CopyPrefixExact(t: Database, bucket: Str, srcPrefix: Str, dstPrefix: Str, overwrite: bool, now: int)
    requires NoStray(t, bucket, srcPrefix) && NoOverlap(t, bucket, srcPrefix, dstPrefix)
    ensures var r := CopyPrefixTx(t, bucket, srcPrefix, dstPrefix, overwrite, now);
      && (r.Err? <==> !overwrite && SomeDestinationExists(t, bucket, srcPrefix, dstPrefix))
      && (r.Err? ==> r.error == DestinationExists)
      && (r.Ok? ==> && (r.value.1 <==> !SomeDestinationExists(t, bucket, srcPrefix, dstPrefix))
                    && CopiedExactly(t, r.value.0, bucket, srcPrefix, dstPrefix, now))
  {
    hide CopyPrefixTx, ChainsAgree, CopiedExactly, SomeDestinationExists;
    CopyPrefixExactIff(t, bucket, srcPrefix, dstPrefix, overwrite, now);
    NoOverlapNoChains(t, bucket, srcPrefix, dstPrefix);
  }

  /**
   Neither prefix extends the other, or the source is the destination with nothing but 0xFF bytes (usually none)
   added.
   */
  predicate PrefixesSafe(srcPrefix: Str, dstPrefix: Str) {
    || (!(srcPrefix <= dstPrefix) && !(dstPrefix <= srcPrefix))
    || (dstPrefix <= srcPrefix && forall i | |dstPrefix| <= i < |srcPrefix| :: srcPrefix[i] == 0xFF)
  }

  /** Putting 0xFF bytes in front never moves a string down. */
  lemma {:induction false} HighBytesGoUp(u: Str, r: Str)
    requires forall i | 0 <= i < |u| :: u[i] == 0xFF
    ensures AtMost(r, u + r)
    decreases |r|
  {
    if |u| == 0 {
      assert u + r == r;
    } else if |r| > 0 && r[0] == 0xFF {
      assert u[1..] + [0xFF] == u;
      assert u + r == [0xFF] + (u[1..] + [0xFF] + r[1..]) == [0xFF] + (u + r[1..]);
      assert r == [0xFF] + r[1..];
      HighBytesGoUp(u, r[1..]);
      LessUnderPrefix([0xFF], r[1..], u + r[1..]);
    }
  }

  /** Between safe prefixes a source key's image that is a source key again does not lie behind it. */
  lemma SafeImageGoesDown(srcPrefix: Str, dstPrefix: Str, k: Str)
    requires PrefixesSafe(srcPrefix, dstPrefix) && srcPrefix <= k && srcPrefix <= ImageKey(k, srcPrefix, dstPrefix)
    ensures AtMost(ImageKey(k, srcPrefix, dstPrefix), k)
  {
    var image := ImageKey(k, srcPrefix, dstPrefix);
    assert dstPrefix <= image;
    PrefixesComparable(srcPrefix, dstPrefix, image);
    var u, rest := srcPrefix[|dstPrefix|..], k[|srcPrefix|..];
    assert srcPrefix == dstPrefix + u && k == srcPrefix + rest;
    assert k == dstPrefix + (u + rest) && image == dstPrefix + rest;
    HighBytesGoUp(u, rest);
    LessUnderPrefix(dstPrefix, rest, u + rest);
  }

  /** Safe prefixes never overlap forwards once there is no stray key. */
  lemma SafePrefixesDoNotOverlap(t: Database, bucket: Str, srcPrefix: Str, dstPrefix: Str)
    requires NoStray(t, bucket, srcPrefix) && PrefixesSafe(srcPrefix, dstPrefix)
    ensures NoOverlap(t, bucket, srcPrefix, dstPrefix)
  {
    forall k | k in MatchingKeys(t, bucket, srcPrefix)
                 && ImageKey(k, srcPrefix, dstPrefix) in MatchingKeys(t, bucket, srcPrefix)
      ensures AtMost(ImageKey(k, srcPrefix, dstPrefix), k)
    {
      SafeImageGoesDown(srcPrefix, dstPrefix, k);
    }
  }

  /** The same, whatever the case of the other keys, when the folded prefixes are unrelated. */
  lemma SeparateFoldedPrefixes(t: Database, bucket: Str, srcPrefix: Str, dstPrefix: Str)
    requires !(Fold(srcPrefix) <= Fold(dstPrefix)) && !(Fold(dstPrefix) <= Fold(srcPrefix))
    ensures NoOverlap(t, bucket, srcPrefix, dstPrefix) && ImagesEscape(t, bucket, srcPrefix, dstPrefix)
  {
    forall k ensures !(Fold(srcPrefix) <= Fold(ImageKey(k, srcPrefix, dstPrefix))) {
      var image := ImageKey(k, srcPrefix, dstPrefix);
      FoldOfPrefix(dstPrefix, image);
      if Fold(srcPrefix) <= Fold(image) {
        PrefixesComparable(Fold(srcPrefix), Fold(dstPrefix), Fold(image));
      }
    }
    forall k | k in MatchingKeys(t, bucket, srcPrefix)
      ensures ImageKey(k, srcPrefix, dstPrefix) !in MatchingKeys(t, bucket, srcPrefix)
    {
      MatchingKeysMember(t, bucket, srcPrefix, ImageKey(k, srcPrefix, dstPrefix));
    }
  }

  // ---------------------------------------------------------------------------------------------
  // MovePrefix
  // ---------------------------------------------------------------------------------------------

  lemma EscapingImagesDoNotOverlap(t: Database, bucket: Str, srcPrefix: Str, dstPrefix: Str)
    requires NoStray(t, bucket, srcPrefix) && ImagesEscape(t, bucket, srcPrefix, dstPrefix)
    ensures NoOverlap(t, bucket, srcPrefix, dstPrefix)
  {
    forall k | k in MatchingKeys(t, bucket, srcPrefix)
      ensures ImageKey(k, srcPrefix, dstPrefix) !in MatchingKeys(t, bucket, srcPrefix)
    {
      MatchingKeysMember(t, bucket, srcPrefix, k);
      assert IsSource(t, bucket, srcPrefix, k);
      MatchingKeysMember(t, bucket, srcPrefix, ImageKey(k, srcPrefix, dstPrefix));
    }
  }

  lemma MovePrefixSufficient(t: Database, bucket: Str, srcPrefix: Str, dstPrefix: Str, overwrite: bool, now: int)
    requires ReferentialIntegrity(t)
    requires NoStray(t, bucket, srcPrefix) && ImagesEscape(t, bucket, srcPrefix, dstPrefix)
    requires MovePrefixTx(t, bucket, srcPrefix, dstPrefix, overwrite, now).Ok?
    ensures MovedExactly(t, MovePrefixTx(t, bucket, srcPrefix, dstPrefix, overwrite, now).value.0,
                         bucket, srcPrefix, dstPrefix, now)
  {
    EscapingImagesDoNotOverlap(t, bucket, srcPrefix, dstPrefix);
    CopyPrefixExact(t, bucket, srcPrefix, dstPrefix, overwrite, now);
    var u := CopyPrefixTx(t, bucket, srcPrefix, dstPrefix, overwrite, now).value.0;
    var v := DeletePrefixRows(u, bucket, srcPrefix);
    var sources := Sources(t, bucket, srcPrefix);
    forall row: RowKey
      ensures if IsImage(row, bucket, srcPrefix, dstPrefix, sources)
              then RowCopied(t, v, Origin(row, srcPrefix, dstPrefix), row, now)
              else if row.bucket == bucket && IsSource(t, bucket, srcPrefix, row.key) then RowAbsent(v, row)
              else RowUnchanged(t, v, row)
    {
      DeletePrefixEffect(u, bucket, srcPrefix, row);
      if IsImage(row, bucket, srcPrefix, dstPrefix, sources) {
        var k := Origin(row, srcPrefix, dstPrefix).key;
        ImageOfSource(k, srcPrefix, dstPrefix, row);
        assert IsSource(t, bucket, srcPrefix, k);
        assert !(Fold(srcPrefix) <= Fold(row.key));
      } else {
        assert RowUnchanged(t, u, row);
        if row.bucket == bucket {
          MatchingKeysMember(t, bucket, srcPrefix, row.key);
          if srcPrefix <= row.key {
            KeyLikeIsFoldedPrefix(row.key, srcPrefix);
            PrefixIsLike(row.key, srcPrefix);
          }
          if row !in t.objects {
            IntegrityByList(t);
          }
        }
      }
    }
  }

  lemma MovePrefixNecessary(t: Database, bucket: Str, srcPrefix: Str, dstPrefix: Str, overwrite: bool, now: int)
    requires MovePrefixTx(t, bucket, srcPrefix, dstPrefix, overwrite, now).Ok?
    requires MovedExactly(t, MovePrefixTx(t, bucket, srcPrefix, dstPrefix, overwrite, now).value.0,
                          bucket, srcPrefix, dstPrefix, now)
    ensures NoStray(t, bucket, srcPrefix) && ImagesEscape(t, bucket, srcPrefix, dstPrefix)
  {
    var u := CopyPrefixTx(t, bucket, srcPrefix, dstPrefix, overwrite, now).value.0;
    var v := DeletePrefixRows(u, bucket, srcPrefix);
    var sources := Sources(t, bucket, srcPrefix);
    forall k | k in MatchingKeys(t, bucket, srcPrefix) ensures srcPrefix <= k {
      var row := RowKey(bucket, k);
      MatchingKeysMember(t, bucket, srcPrefix, k);
      DeletePrefixEffect(u, bucket, srcPrefix, row);
      assert row !in v.objects;
      assert !RowUnchanged(t, v, row);
    }
    forall k | IsSource(t, bucket, srcPrefix, k)
      ensures !(Fold(srcPrefix) <= Fold(ImageKey(k, srcPrefix, dstPrefix)))
    {
      var row := RowKey(bucket, ImageKey(k, srcPrefix, dstPrefix));
      ImageOfSource(k, srcPrefix, dstPrefix, row);
      assert IsImage(row, bucket, srcPrefix, dstPrefix, sources);
      assert RowCopied(t, v, Origin(row, srcPrefix, dstPrefix), row, now);
      DeletePrefixEffect(u, bucket, srcPrefix, row);
    }
  }

  /**
   A recursive move that succeeds keeps its promise if and only if no other key of the bucket differs
   from the source keys only in case, and no image passes the source filter.
   */
  lemma MovePrefixExactIff(t: Database, bucket: Str, srcPrefix: Str, dstPrefix: Str, overwrite: bool, now: int)
    requires ReferentialIntegrity(t)
    requires MovePrefixTx(t, bucket, srcPrefix, dstPrefix, overwrite, now).Ok?
    ensures MovedExactly(t, MovePrefixTx(t, bucket, srcPrefix, dstPrefix, overwrite, now).value.0,
                         bucket, srcPrefix, dstPrefix, now)
      <==> NoStray(t, bucket, srcPrefix) && ImagesEscape(t, bucket, srcPrefix, dstPrefix)
  {
    var v := MovePrefixTx(t, bucket, srcPrefix, dstPrefix, overwrite, now).value.0;
    if MovedExactly(t, v, bucket, srcPrefix, dstPrefix, now) {
      MovePrefixNecessary(t, bucket, srcPrefix, dstPrefix, overwrite, now);
    } else if NoStray(t, bucket, srcPrefix) && ImagesEscape(t, bucket, srcPrefix, dstPrefix) {
      MovePrefixSufficient(t, bucket, srcPrefix, dstPrefix, overwrite, now);
      assert false;
    }
  }
}
