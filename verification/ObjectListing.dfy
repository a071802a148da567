/** ObjectStore.ListObjects: one page of a delimited listing, read from the metadata store in batches. */
module ObjectListing {
  import opened Bytes
  import opened Results
  import opened Tables
  import opened MetadataStore
  import opened FirstOccurrences
  import opened Listing

  datatype ListObjectsInput = ListObjectsInput(bucket: Str, prefix: Str, delimiter: Str, afterKey: Str, limit: int)

  datatype ListObjectsResult = ListObjectsResult(
    objects: seq<ObjectInfo>, commonPrefixes: seq<Str>, nextContinuationAfter: Str, isTruncated: bool)

  function PageLimit(limit: int): nat {
    if limit < 0 then 1000 else limit
  }

  /**
   `r` is a page of the listing of `rows`: the first `limit` entries of the one-shot collapse, ending behind row
   `j`. All that was read is shown, and either nothing is left or the last entry shown is complete.
   */
  ghost predicate IsPageAt(rows: seq<Object>, es: seq<Entry>, limit: nat, r: ListObjectsResult, j: nat)
    requires |es| == |rows|
  {
    && j <= |rows|
    && var shown, all := Dedup(es[..j]), Dedup(es);
    && shown <= all && |shown| == (if limit <= |all| then limit else |all|)
    && r.objects == ObjectsOf(shown) && r.commonPrefixes == PrefixesOf(shown)
    && (j == 0 <==> shown == [])
    && r.nextContinuationAfter == (if j == 0 then [] else rows[j - 1].key)
    && r.isTruncated == (0 < j < |rows|)
    && (0 < j < |rows| ==> es[j - 1] == shown[|shown| - 1] && es[j] != shown[|shown| - 1])
  }

  ghost predicate IsPage(rows: seq<Object>, prefix: Str, delimiter: Str, limit: nat, r: ListObjectsResult) {
    exists j :: IsPageAt(rows, EntriesOf(rows, prefix, delimiter), limit, r, j)
  }

  /** `rows` is what the store holds for this listing behind `afterKey`. */
  ghost predicate RowsBehind(db: Database, input: ListObjectsInput, afterKey: Str, rows: seq<Object>) {
    rows == SelectAfter(db, input.bucket, input.prefix, afterKey)
  }

  /** The cursor that stands behind the first `i` of these rows. */
  ghost function CursorAt(rows: seq<Object>, afterKey: Str, i: nat): Str
    requires i <= |rows|
  {
    if i == 0 then afterKey else rows[i - 1].key
  }

  /** Where the run of entries equal to `e` that starts at `from` ends. */
  ghost function RunEnd(es: seq<Entry>, from: nat, e: Entry): (end: nat)
    requires from <= |es|
    ensures from <= end <= |es|
    ensures forall i | from <= i < end :: es[i] == e
    ensures end < |es| ==> es[end] != e
    decreases |es| - from
  {
    if from == |es| || es[from] != e then from else RunEnd(es, from + 1, e)
  }

  lemma RunReaches(es: seq<Entry>, from: nat, e: Entry, n: nat)
    requires from <= |es| && from <= n <= RunEnd(es, from, e)
    ensures n < |es| && es[n] == e ==> n + 1 <= RunEnd(es, from, e)
    ensures n < |es| && es[n] != e ==> n == RunEnd(es, from, e)
    ensures n == |es| ==> n == RunEnd(es, from, e)
  {
  }

  /** The grouping step of both loops: the text up to the first delimiter behind the prefix, if there is one. */
  method GroupOf(o: Object, input: ListObjectsInput, ghost e: Entry) returns (grouped: bool, commonPrefix: Str)
    requires e == EntryOf(o, input.prefix, input.delimiter)
    ensures e == if grouped then CommonPrefix(commonPrefix) else Listed(InfoOf(o))
    ensures grouped ==> input.delimiter != []
  {
    if input.delimiter == [] {
      return false, [];
    }
    var remainder := TrimPrefix(o.key, input.prefix);
    var idx := Index(remainder, input.delimiter);
    if idx < 0 {
      return false, [];
    }
    return true, input.prefix + remainder[..idx] + input.delimiter;
  }

  /** `es` are the entries of `rows`. */
  ghost predicate Labelled(rows: seq<Object>, es: seq<Entry>, input: ListObjectsInput) {
    && |es| == |rows|
    && forall k {:trigger rows[k], es[k]} | 0 <= k < |rows| :: es[k] == EntryOf(rows[k], input.prefix, input.delimiter)
  }

  /** `objects` are the rows from `i` on, labelled by `es`. */
  ghost predicate Batch(objects: seq<Object>, input: ListObjectsInput, rows: seq<Object>, es: seq<Entry>, i: nat) {
    && |es| == |rows| && i + |objects| <= |rows|
    && forall k {:trigger objects[k]} | 0 <= k < |objects| ::
         objects[k] == rows[i + k] && es[i + k] == EntryOf(objects[k], input.prefix, input.delimiter)
  }

  /** The inner loop of advanceContinuationPastPrefix, over the batch that starts at row `i`. */
  method ScanGroup(objects: seq<Object>, input: ListObjectsInput, prefix: Str, cursor: Str,
                   ghost rows: seq<Object>, ghost es: seq<Entry>, ghost from: nat, ghost i: nat)
    returns (next: Str, stopped: bool)
    requires input.delimiter != [] && Batch(objects, input, rows, es, i)
    requires from <= i <= RunEnd(es, from, CommonPrefix(prefix)) && cursor == CursorAt(rows, input.afterKey, i)
    ensures var end := RunEnd(es, from, CommonPrefix(prefix));
      && (stopped ==> end < |rows| && next == CursorAt(rows, input.afterKey, end))
      && (!stopped ==> i + |objects| <= end && next == CursorAt(rows, input.afterKey, i + |objects|))
  {
    next := cursor;
    for m := 0 to |objects|
      invariant i + m <= RunEnd(es, from, CommonPrefix(prefix)) && next == CursorAt(rows, input.afterKey, i + m)
    {
      RunReaches(es, from, CommonPrefix(prefix), i + m);
      var grouped, currentPrefix := GroupOf(objects[m], input, es[i + m]);
      if !grouped {
        return next, true;
      }
      if currentPrefix != prefix {
        return next, true;
      }
      next := objects[m].key;
    }
    stopped := false;
  }

  /** One turn of advanceContinuationPastPrefix: `done` when the loop returns. */
  method SkipBatch(meta: SQLiteStore, input: ListObjectsInput, prefix: Str, cursor: Str,
                   ghost rows: seq<Object>, ghost es: seq<Entry>, ghost from: nat, ghost i: nat)
    returns (next: Str, done: bool, hasMore: bool, ghost j: nat)
    requires input.delimiter != [] && RowsBehind(meta.db, input, input.afterKey, rows)
    requires Labelled(rows, es, input)
    requires from <= |rows| == |es|
    requires from <= i <= RunEnd(es, from, CommonPrefix(prefix)) && cursor == CursorAt(rows, input.afterKey, i)
    ensures i <= j <= RunEnd(es, from, CommonPrefix(prefix)) && next == CursorAt(rows, input.afterKey, j)
    ensures done ==> j == RunEnd(es, from, CommonPrefix(prefix)) && (hasMore <==> j < |rows|)
    ensures !done ==> i < j
  {
    assert |es| == |rows|;
    hide SelectAfter, EntryOf, Labelled, Batch, RunEnd, CursorAt;
    var objects := ReadBatch(meta, input, cursor, 32, rows, es, i);
    if |objects| == 0 {
      return cursor, true, false, i;
    }
    var stopped;
    next, stopped := ScanGroup(objects, input, prefix, cursor, rows, es, from, i);
    if stopped {
      return next, true, true, RunEnd(es, from, CommonPrefix(prefix));
    }
    return next, |objects| < 32, false, i + |objects|;
  }

  /** advanceContinuationPastPrefix: from row `from` past every row of the group, in batches of 32. */
  method AdvancePastPrefix(meta: SQLiteStore, input: ListObjectsInput, prefix: Str, afterKey: Str,
                           ghost rows: seq<Object>, ghost es: seq<Entry>, ghost from: nat)
    returns (cursor: Str, hasMore: bool)
    requires input.delimiter != [] && RowsBehind(meta.db, input, input.afterKey, rows)
    requires Labelled(rows, es, input)
    requires from <= |rows| && afterKey == CursorAt(rows, input.afterKey, from)
    ensures var end := RunEnd(es, from, CommonPrefix(prefix));
      cursor == CursorAt(rows, input.afterKey, end) && (hasMore <==> end < |rows|)
  {
    assert |es| == |rows|;
    hide SelectAfter, EntryOf, Labelled, RunEnd, CursorAt;
    cursor := afterKey;
    ghost var i := from;
    while true
      invariant from <= i <= RunEnd(es, from, CommonPrefix(prefix))
      invariant cursor == CursorAt(rows, input.afterKey, i)
      decreases |rows| - i
    {
      var done;
      cursor, done, hasMore, i := SkipBatch(meta, input, prefix, cursor, rows, es, from, i);
      if done {
        return;
      }
    }
  }

  /** A page query from the cursor behind row `i` returns the rows from there on, up to its limit. */
  method ReadBatch(meta: SQLiteStore, input: ListObjectsInput, cursor: Str, limit: int,
                   ghost rows: seq<Object>, ghost es: seq<Entry>, ghost i: nat)
    returns (objects: seq<Object>)
    requires limit > 0 && RowsBehind(meta.db, input, input.afterKey, rows)
    requires Labelled(rows, es, input)
    requires i <= |rows| && cursor == CursorAt(rows, input.afterKey, i)
    ensures |objects| <= limit && i + |objects| <= |rows| && Batch(objects, input, rows, es, i)
    ensures |objects| < limit ==> i + |objects| == |rows|
  {
    objects := meta.ListObjects(ListQuery(input.bucket, input.prefix, cursor, limit));
    RowsContinue(meta.db, input, input.afterKey, rows, i);
    BatchOfSuffix(objects, input, rows, es, i, limit);
  }

  lemma BatchOfSuffix(objects: seq<Object>, input: ListObjectsInput, rows: seq<Object>, es: seq<Entry>, i: nat,
                      limit: nat)
    requires Labelled(rows, es, input) && i <= |rows|
    requires objects == if |rows[i..]| <= limit then rows[i..] else rows[i..][..limit]
    ensures Batch(objects, input, rows, es, i)
  {
    forall k | 0 <= k < |objects|
      ensures objects[k] == rows[i + k] && es[i + k] == EntryOf(objects[k], input.prefix, input.delimiter)
    {
      assert objects[k] == rows[i..][k];
    }
  }

  lemma RowsContinue(db: Database, input: ListObjectsInput, afterKey: Str, rows: seq<Object>, i: nat)
    requires RowsBehind(db, input, afterKey, rows) && i <= |rows|
    ensures RowsBehind(db, input, CursorAt(rows, afterKey, i), rows[i..])
  {
    if i > 0 {
      SelectAfterContinues(db, input.bucket, input.prefix, afterKey, i);
    }
  }

  // ---------------------------------------------------------------------------------------------
  // Reading one more row
  // ---------------------------------------------------------------------------------------------

  datatype PageView = PageView(objects: seq<ObjectInfo>, prefixes: seq<Str>, entries: seq<Entry>)

  ghost function NextView(v: PageView, e: Entry): PageView {
    if e in v.entries then v
    else if e.Listed? then PageView(v.objects + [e.info], v.prefixes, v.entries + [e])
    else PageView(v.objects, v.prefixes + [e.prefix], v.entries + [e])
  }

  /** What a page shows after its first `n` rows. */
  ghost function View(es: seq<Entry>, n: nat): PageView
    requires n <= |es|
  {
    if n == 0 then PageView([], [], []) else
      NextView(View(es, n - 1), es[n - 1])
  }

  lemma {:induction false} ViewEntries(es: seq<Entry>, n: nat)
    requires n <= |es|
    ensures View(es, n).entries == Dedup(es[..n])
  {
    if n > 0 {
      ViewEntries(es, n - 1);
      assert es[..n] == es[..n - 1] + [es[n - 1]];
      DedupAppend(es[..n - 1], es[n - 1]);
    }
  }

  ghost predicate Split(v: PageView) {
    && v.objects == ObjectsOf(v.entries) && v.prefixes == PrefixesOf(v.entries)
    && |v.objects| + |v.prefixes| == |v.entries|
  }

  lemma NextViewSplit(v: PageView, e: Entry)
    requires Split(v)
    ensures Split(NextView(v, e))
  {
    SplitAppend(v.entries, e);
  }

  lemma {:induction false} ViewSplits(es: seq<Entry>, n: nat)
    requires n <= |es|
    ensures Split(View(es, n))
  {
    if n > 0 {
      ViewSplits(es, n - 1);
      NextViewSplit(View(es, n - 1), es[n - 1]);
    }
  }

  /** The view is the collapse of those rows, split in its two lists. */
  lemma ViewIsCollapse(es: seq<Entry>, n: nat)
    requires n <= |es|
    ensures View(es, n) == PageView(ObjectsOf(Dedup(es[..n])), PrefixesOf(Dedup(es[..n])), Dedup(es[..n]))
    ensures |View(es, n).objects| + |View(es, n).prefixes| == |View(es, n).entries|
  {
    ViewEntries(es, n);
    ViewSplits(es, n);
  }

  /** Row `i` brings an entry the page does not show yet. */
  ghost predicate IsNew(es: seq<Entry>, i: nat)
    requires i < |es|
  {
    es[i] !in View(es, i).entries
  }

  ghost predicate Shows(es: seq<Entry>, i: nat, objects: seq<ObjectInfo>, prefixes: seq<Str>) {
    i <= |es| && objects == View(es, i).objects && prefixes == View(es, i).prefixes
  }

  lemma ShownPrefix(es: seq<Entry>, i: nat, p: Str)
    requires i <= |es|
    ensures p in View(es, i).prefixes <==> CommonPrefix(p) in View(es, i).entries
  {
    ViewSplits(es, i);
    SplitLength(View(es, i).entries);
  }

  lemma ListedKey(o: Object, prefix: Str, delimiter: Str)
    ensures EntryOf(o, prefix, delimiter).Listed? ==> EntryOf(o, prefix, delimiter).info.key == o.key
  {
  }

  /** An object's own entry belongs to no other row. */
  ghost predicate ListedOnce(es: seq<Entry>) {
    forall j, k | 0 <= j < k < |es| && es[j].Listed? :: es[j] != es[k]
  }

  lemma KeysListedOnce(rows: seq<Object>, prefix: Str, delimiter: Str)
    requires KeyAscending(rows)
    ensures ListedOnce(EntriesOf(rows, prefix, delimiter))
  {
    forall j, k | 0 <= j < k < |rows| && EntryOf(rows[j], prefix, delimiter).Listed?
      ensures EntryOf(rows[j], prefix, delimiter) != EntryOf(rows[k], prefix, delimiter)
    {
      ListedKey(rows[j], prefix, delimiter);
      ListedKey(rows[k], prefix, delimiter);
      LessAsymmetric(rows[j].key, rows[k].key);
    }
  }

  lemma ListedIsNew(es: seq<Entry>, i: nat)
    requires ListedOnce(es) && i < |es| && es[i].Listed?
    ensures IsNew(es, i)
    ensures i + 1 < |es| ==> es[i + 1] != es[i]
  {
    ViewEntries(es, i);
    DedupMembers(es[..i]);
    forall m | 0 <= m < i ensures es[..i][m] != es[i] {
      assert es[..i][m] == es[m];
    }
  }

  lemma DedupCut(es: seq<Entry>, i: nat)
    requires i <= |es|
    ensures Dedup(es[..i]) <= Dedup(es)
    ensures i > 0 ==> Dedup(es[..i]) != []
  {
    hide Dedup;
    DedupNotEmpty(es[..i]);
    DedupGrows(es[..i], es[i..]);
    assert es == es[..i] + es[i..];
  }

  /** Entries already shown add nothing. */
  lemma {:induction false} DedupRun(shown: seq<Entry>, run: seq<Entry>, e: Entry)
    requires e in Dedup(shown) && forall x | x in run :: x == e
    ensures Dedup(shown + run) == Dedup(shown)
  {
    if |run| == 0 {
      assert shown + run == shown;
    } else {
      var init, last := run[..|run| - 1], run[|run| - 1];
      hide Dedup;
      assert run == init + [last];
      assert shown + run == (shown + init) + [last];
      forall x | x in init ensures x == e {
        assert x in run;
      }
      assert last in run;
      DedupRun(shown, init, e);
      DedupAppend(shown + init, last);
    }
  }

  lemma DedupSameGroup(es: seq<Entry>, i: nat, j: nat, e: Entry)
    requires i <= j <= |es| && e in Dedup(es[..i])
    requires forall m | i <= m < j :: es[m] == e
    ensures Dedup(es[..j]) == Dedup(es[..i])
  {
    hide Dedup;
    assert es[..j] == es[..i] + es[i..j];
    DedupRun(es[..i], es[i..j], e);
  }

  /** The page that ends because the rows do. */
  lemma ExhaustedPage(rows: seq<Object>, es: seq<Entry>, limit: nat, r: ListObjectsResult)
    requires |es| == |rows| && |Dedup(es)| <= limit
    requires r.objects == ObjectsOf(Dedup(es)) && r.commonPrefixes == PrefixesOf(Dedup(es))
    requires r.nextContinuationAfter == (if |rows| == 0 then [] else rows[|rows| - 1].key) && !r.isTruncated
    ensures IsPageAt(rows, es, limit, r, |rows|)
  {
    assert es[..|rows|] == es;
    DedupCut(es, |rows|);
  }

  /**
   The page that ends because it is full: its entries are a prefix of the collapse, and nothing later belongs to them.
   */
  lemma FullPageEntries(es: seq<Entry>, i: nat, j: nat)
    requires 0 < i <= j <= |es| && IsNew(es, i - 1)
    requires forall m | i <= m < j :: es[m] == es[i - 1]
    ensures var c := View(es, i).entries;
      && |c| > 0 && c[|c| - 1] == es[i - 1] && Dedup(es[..j]) == c && c <= Dedup(es)
  {
    ViewEntries(es, i);
    var c := View(es, i).entries;
    assert c == View(es, i - 1).entries + [es[i - 1]];
    DedupSameGroup(es, i, j, es[i - 1]);
    DedupCut(es, i);
  }

  // ---------------------------------------------------------------------------------------------
  // The listing loop
  // ---------------------------------------------------------------------------------------------

  datatype Scan = More | PageFull | PrefixFull(prefix: Str)

  ghost function KeyBefore(rows: seq<Object>, i: nat): Str
    requires i <= |rows|
  {
    if i == 0 then [] else rows[i - 1].key
  }

  /** The prefixes a page has emitted, as the code's `seenPrefixes` holds them. */
  function SetOf(prefixes: seq<Str>): set<Str> {
    set p | p in prefixes
  }

  /** Showing one more row's entry, unless it is a common prefix already shown. */
  method ShowEntry(grouped: bool, prefix: Str, info: ObjectInfo,
                   objects0: seq<ObjectInfo>, prefixes0: seq<Str>, seen0: set<Str>, ghost es: seq<Entry>, ghost i: nat)
    returns (objects: seq<ObjectInfo>, prefixes: seq<Str>, seen: set<Str>, shown: bool)
    requires Shows(es, i, objects0, prefixes0) && seen0 == SetOf(prefixes0) && ListedOnce(es)
    requires i < |es| && es[i] == if grouped then CommonPrefix(prefix) else Listed(info)
    ensures Shows(es, i + 1, objects, prefixes) && seen == SetOf(prefixes)
    ensures shown <==> IsNew(es, i)
    ensures |objects| + |prefixes| == |objects0| + |prefixes0| + if shown then 1 else 0
  {
    ShownPrefix(es, i, prefix);
    objects, prefixes, seen := objects0, prefixes0, seen0;
    if grouped {
      shown := prefix !in seen;
      if shown {
        seen := seen + {prefix};
        prefixes := prefixes + [prefix];
      }
    } else {
      ListedIsNew(es, i);
      shown := true;
      objects := objects + [info];
    }
  }

  /** One row of the listing loop: group it, show it, and see whether the page is full. */
  method ScanRow(o: Object, input: ListObjectsInput, limit: nat,
                 objects0: seq<ObjectInfo>, prefixes0: seq<Str>, seen0: set<Str>, ghost es: seq<Entry>, ghost i: nat)
    returns (objects: seq<ObjectInfo>, prefixes: seq<Str>, seen: set<Str>, scan: Scan)
    requires Shows(es, i, objects0, prefixes0) && seen0 == SetOf(prefixes0) && ListedOnce(es) &&
      |objects0| + |prefixes0| < limit
    requires i < |es| && es[i] == EntryOf(o, input.prefix, input.delimiter)
    ensures Shows(es, i + 1, objects, prefixes) && seen == SetOf(prefixes)
    ensures scan.More? ==> |objects| + |prefixes| < limit
    ensures !scan.More? ==> |objects| + |prefixes| == limit && IsNew(es, i)
    ensures scan.PageFull? ==> es[i].Listed?
    ensures scan.PrefixFull? ==> input.delimiter != [] && es[i] == CommonPrefix(scan.prefix)
  {
    var grouped, prefix := GroupOf(o, input, es[i]);
    var shown;
    objects, prefixes, seen, shown := ShowEntry(grouped, prefix, InfoOf(o), objects0, prefixes0, seen0, es, i);
    if |objects| + |prefixes| >= limit {
      scan := if grouped then PrefixFull(prefix) else PageFull;
    } else {
      scan := More;
    }
  }

  /**
   The inner loop of ListObjects over one batch. It stops behind the row that fills the page: a key, or the
   first key of a common prefix. A row is only looked at while the page has room.
   */
  method ScanBatch(batch: seq<Object>, input: ListObjectsInput, limit: nat,
                   objects0: seq<ObjectInfo>, prefixes0: seq<Str>, next0: Str, seen0: set<Str>,
                   ghost rows: seq<Object>, ghost es: seq<Entry>, ghost i: nat)
    returns (objects: seq<ObjectInfo>, prefixes: seq<Str>, next: Str, seen: set<Str>, scan: Scan, ghost done: nat)
    requires Batch(batch, input, rows, es, i) && ListedOnce(es)
    requires Shows(es, i, objects0, prefixes0) && seen0 == SetOf(prefixes0) && |objects0| + |prefixes0| < limit
    requires next0 == KeyBefore(rows, i)
    ensures i <= done <= i + |batch| && Shows(es, done, objects, prefixes) && seen == SetOf(prefixes) &&
      next == KeyBefore(rows, done)
    ensures scan.More? ==> done == i + |batch| && |objects| + |prefixes| < limit
    ensures !scan.More? ==> |objects| + |prefixes| == limit && done > 0 && IsNew(es, done - 1)
    ensures scan.PageFull? ==> es[done - 1].Listed?
    ensures scan.PrefixFull? ==> input.delimiter != [] && es[done - 1] == CommonPrefix(scan.prefix)
  {
    objects, prefixes, next, seen := objects0, prefixes0, next0, seen0;
    for m := 0 to |batch|
      invariant Shows(es, i + m, objects, prefixes) && seen == SetOf(prefixes) && next == KeyBefore(rows, i + m)
      invariant |objects| + |prefixes| < limit
    {
      objects, prefixes, seen, scan := ScanRow(batch[m], input, limit, objects, prefixes, seen, es, i + m);
      next := batch[m].key;
      if !scan.More? {
        return objects, prefixes, next, seen, scan, i + m + 1;
      }
    }
    scan, done := More, i + |batch|;
  }

  lemma PageSoFar(rows: seq<Object>, es: seq<Entry>, done: nat, limit: nat, r: ListObjectsResult)
    requires |es| == |rows| && Shows(es, done, r.objects, r.commonPrefixes)
    requires r.nextContinuationAfter == KeyBefore(rows, done) && !r.isTruncated
    requires done == |rows| && |r.objects| + |r.commonPrefixes| <= limit
    ensures IsPageAt(rows, es, limit, r, done)
  {
    assert es[..done] == es;
    ViewIsCollapse(es, done);
    ExhaustedPage(rows, es, limit, r);
  }

  lemma FullPageAt(rows: seq<Object>, es: seq<Entry>, done: nat, end: nat, limit: nat, r: ListObjectsResult)
    requires |es| == |rows| && Shows(es, done, r.objects, r.commonPrefixes)
    requires |r.objects| + |r.commonPrefixes| == limit && 0 < done <= end <= |es| && IsNew(es, done - 1)
    requires (forall m | done <= m < end :: es[m] == es[done - 1]) && (end < |es| ==> es[end] != es[done - 1])
    requires r.nextContinuationAfter == rows[end - 1].key && r.isTruncated == (end < |rows|)
    ensures IsPageAt(rows, es, limit, r, end)
  {
    ViewSplits(es, done);
    FullPageEntries(es, done, end);
    assert es[end - 1] == es[done - 1];
  }

  lemma EmptyPage(rows: seq<Object>, es: seq<Entry>, r: ListObjectsResult)
    requires |es| == |rows| && r == ListObjectsResult([], [], [], false)
    ensures IsPageAt(rows, es, 0, r, 0)
  {
    assert es[..0] == [];
  }

  /** How the listing loop can end. */
  ghost predicate LoopEnded(es: seq<Entry>, input: ListObjectsInput, limit: nat, objects: seq<ObjectInfo>,
                            prefixes: seq<Str>, scan: Scan, done: nat)
    requires done <= |es|
  {
    && (scan.More? ==> (limit == 0 && done == 0) || (done == |es| && |objects| + |prefixes| <= limit))
    && (!scan.More? ==> |objects| + |prefixes| == limit && done > 0 && IsNew(es, done - 1))
    && (scan.PageFull? ==> es[done - 1].Listed?)
    && (scan.PrefixFull? ==> input.delimiter != [] && es[done - 1] == CommonPrefix(scan.prefix))
  }

  /** Where a full page ends: behind the group of its last entry. */
  method EndOfGroup(meta: SQLiteStore, input: ListObjectsInput, next: Str, scan: Scan,
                    ghost rows: seq<Object>, ghost es: seq<Entry>, ghost done: nat)
    returns (lastKey: Str, hasMore: bool)
    requires RowsBehind(meta.db, input, input.afterKey, rows) && Labelled(rows, es, input)
    requires ListedOnce(es) && 0 < done <= |rows| && next == rows[done - 1].key && !scan.More?
    requires scan.PageFull? ==> es[done - 1].Listed?
    requires scan.PrefixFull? ==> input.delimiter != [] && es[done - 1] == CommonPrefix(scan.prefix)
    ensures lastKey == rows[RunEnd(es, done, es[done - 1]) - 1].key
    ensures hasMore ==> RunEnd(es, done, es[done - 1]) < |rows|
  {
    hide SelectAfter, Labelled;
    if scan.PrefixFull? {
      lastKey, hasMore := AdvancePastPrefix(meta, input, scan.prefix, next, rows, es, done);
    } else {
      assert done < |es| ==> es[done] != es[done - 1];
      lastKey, hasMore := next, false;
    }
  }

  /** The end of a page: past the group that filled it, then one look for a further key. */
  method FinishPage(meta: SQLiteStore, input: ListObjectsInput, limit: nat,
                    objects: seq<ObjectInfo>, prefixes: seq<Str>, next: Str, scan: Scan,
                    ghost rows: seq<Object>, ghost es: seq<Entry>, ghost done: nat)
    returns (r: ListObjectsResult)
    requires RowsBehind(meta.db, input, input.afterKey, rows) && Labelled(rows, es, input)
    requires ListedOnce(es) && Shows(es, done, objects, prefixes) && next == KeyBefore(rows, done)
    requires LoopEnded(es, input, limit, objects, prefixes, scan, done)
    ensures exists j :: IsPageAt(rows, es, limit, r, j)
  {
    assert |es| == |rows|;
    hide SelectAfter, EntryOf, Labelled, ListedOnce, IsPageAt;
    if scan.More? {
      var truncated := LookFurther(meta, input, next, false, rows, done);
      r := ListObjectsResult(objects, prefixes, next, truncated);
      if done == |rows| {
        PageSoFar(rows, es, done, limit, r);
      } else {
        EmptyPage(rows, es, r);
      }
    } else {
      r := FinishFullPage(meta, input, limit, objects, prefixes, next, scan, rows, es, done);
    }
  }

  /** The end of a full page: its last group is read to its end. */
  method FinishFullPage(meta: SQLiteStore, input: ListObjectsInput, limit: nat,
                        objects: seq<ObjectInfo>, prefixes: seq<Str>, next: Str, scan: Scan,
                        ghost rows: seq<Object>, ghost es: seq<Entry>, ghost done: nat)
    returns (r: ListObjectsResult)
    requires RowsBehind(meta.db, input, input.afterKey, rows) && Labelled(rows, es, input)
    requires ListedOnce(es) && Shows(es, done, objects, prefixes) && next == KeyBefore(rows, done)
    requires LoopEnded(es, input, limit, objects, prefixes, scan, done) && !scan.More?
    ensures exists j :: IsPageAt(rows, es, limit, r, j)
  {
    assert |es| == |rows|;
    hide SelectAfter, EntryOf, Labelled, ListedOnce, IsPageAt, Shows, IsNew;
    var lastKey, truncated := EndOfGroup(meta, input, next, scan, rows, es, done);
    truncated := LookFurther(meta, input, lastKey, truncated, rows, RunEnd(es, done, es[done - 1]));
    r := ListObjectsResult(objects, prefixes, lastKey, truncated);
    FullPageAt(rows, es, done, RunEnd(es, done, es[done - 1]), limit, r);
  }

  /** IsTruncated: decided by one more query unless it is known already; a page that read nothing is never truncated. */
  method LookFurther(meta: SQLiteStore, input: ListObjectsInput, lastKey: Str, known: bool,
                     ghost rows: seq<Object>, ghost j: nat) returns (truncated: bool)
    requires RowsBehind(meta.db, input, input.afterKey, rows) && j <= |rows| && lastKey == KeyBefore(rows, j)
    requires known ==> 0 < j < |rows|
    ensures truncated <==> 0 < j < |rows|
  {
    SelectAfterMeaning(meta.db, input.bucket, input.prefix, input.afterKey);
    if lastKey == [] {
      return false;
    }
    if known {
      return true;
    }
    RowsContinue(meta.db, input, input.afterKey, rows, j);
    var further := meta.ListObjects(ListQuery(input.bucket, input.prefix, lastKey, 1));
    truncated := |further| > 0;
  }

  /** One page: the first `limit` entries of the collapse of the keys behind `AfterKey`, whatever the batch sizes. */
  method ListObjects(meta: SQLiteStore, startupBuckets: set<Str>, input: ListObjectsInput)
    returns (result: Result<ListObjectsResult>)
    ensures input.bucket !in startupBuckets ==> result == Err(NoSuchBucket)
    ensures input.bucket in startupBuckets ==>
      && result.Ok?
      && PageLimit(input.limit) == (if input.limit < 0 then 1000 else input.limit)
      && IsPage(SelectAfter(meta.db, input.bucket, input.prefix, input.afterKey), input.prefix, input.delimiter,
                PageLimit(input.limit), result.value)
  {
    if input.bucket !in startupBuckets {
      return Err(NoSuchBucket);
    }
    ghost var rows := SelectAfter(meta.db, input.bucket, input.prefix, input.afterKey);
    ghost var es := EntriesOf(rows, input.prefix, input.delimiter);
    SelectAfterMeaning(meta.db, input.bucket, input.prefix, input.afterKey);
    KeysListedOnce(rows, input.prefix, input.delimiter);
    var page := ReadPage(meta, input, PageLimit(input.limit), rows, es);
    return Ok(page);
  }

  /** The size of a batch, in 64-bit arithmetic. */
  method QueryLimit(remaining: nat) returns (queryLimit: int)
    ensures queryLimit >= 2
    ensures 0 < remaining <= 0x1FFF_FFFF_FFFF_FFFF ==> queryLimit == 4 * remaining + 1
  {
    queryLimit := Wrap64(remaining * 4 + 1);
    if queryLimit < 2 {
      queryLimit := 2;
    }
  }

  /** The listing loop. The batch size is computed in 64-bit arithmetic and may wrap for a huge limit. */
  method ReadPage(meta: SQLiteStore, input: ListObjectsInput, limit: nat, ghost rows: seq<Object>, ghost es: seq<Entry>)
    returns (r: ListObjectsResult)
    requires RowsBehind(meta.db, input, input.afterKey, rows) && Labelled(rows, es, input)
    requires ListedOnce(es)
    ensures exists j :: IsPageAt(rows, es, limit, r, j)
  {
    assert |es| == |rows| && Shows(es, 0, [], []);
    hide SelectAfter, EntryOf, Labelled, ListedOnce, IsPageAt, Batch, View, IsNew;
    var objects, prefixes, next, seen, scan := [], [], [], {}, More;
    var afterKey := input.afterKey;
    ghost var done := 0;
    while |objects| + |prefixes| < limit
      invariant Shows(es, done, objects, prefixes) && seen == SetOf(prefixes) && scan.More?
      invariant next == KeyBefore(rows, done) && afterKey == CursorAt(rows, input.afterKey, done)
      invariant |objects| + |prefixes| < limit || (limit == 0 && done == 0)
      decreases |rows| - done
    {
      var queryLimit := QueryLimit(limit - (|objects| + |prefixes|));
      var batch := ReadBatch(meta, input, afterKey, queryLimit, rows, es, done);
      if |batch| == 0 {
        break;
      }
      objects, prefixes, next, seen, scan, done :=
        ScanBatch(batch, input, limit, objects, prefixes, next, seen, rows, es, done);
      afterKey := next;
      if !scan.More? {
        break;
      }
      if |batch| < queryLimit {
        break;
      }
    }
    r := FinishPage(meta, input, limit, objects, prefixes, next, scan, rows, es, done);
  }
}
