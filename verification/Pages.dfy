/** Following continuation keys from page to page: when the pages together are the one-shot listing. */
module Pages {
  import opened Bytes
  import opened Like
  import opened Tables
  import opened MetadataStore
  import opened FirstOccurrences
  import opened Listing
  import opened ObjectListing
  import opened PrefixOps

  /** A page that the store may answer with to a request that starts behind `afterKey`. */
  ghost predicate Answers(db: Database, input: ListObjectsInput, afterKey: Str, limit: nat, page: ListObjectsResult) {
    IsPage(SelectAfter(db, input.bucket, input.prefix, afterKey), input.prefix, input.delimiter, limit, page)
  }

  /** A client's run: pages of any sizes, each starting where the last one said, until one is not truncated. */
  ghost predicate Run(db: Database, input: ListObjectsInput, afterKey: Str, limits: seq<nat>,
                      pages: seq<ListObjectsResult>)
    decreases |pages|
  {
    && |limits| == |pages| && |pages| > 0 && limits[0] >= 1
    && Answers(db, input, afterKey, limits[0], pages[0])
    && if |pages| == 1 then !pages[0].isTruncated
       else pages[0].isTruncated && Run(db, input, pages[0].nextContinuationAfter, limits[1..], pages[1..])
  }

  function AllObjects(pages: seq<ListObjectsResult>): seq<ObjectInfo> {
    if |pages| == 0 then [] else pages[0].objects + AllObjects(pages[1..])
  }

  function AllPrefixes(pages: seq<ListObjectsResult>): seq<Str> {
    if |pages| == 0 then [] else pages[0].commonPrefixes + AllPrefixes(pages[1..])
  }

  /** Rows behind a cursor with their entries. */
  ghost predicate Behind(db: Database, input: ListObjectsInput, afterKey: Str, rows: seq<Object>, es: seq<Entry>) {
    RowsBehind(db, input, afterKey, rows) && es == EntriesOf(rows, input.prefix, input.delimiter)
  }

  lemma BehindCursor(db: Database, input: ListObjectsInput, afterKey: Str, rows: seq<Object>, es: seq<Entry>, j: nat)
    requires Behind(db, input, afterKey, rows, es) && 0 < j <= |rows|
    ensures Behind(db, input, rows[j - 1].key, rows[j..], es[j..])
  {
    RowsContinue(db, input, afterKey, rows, j);
    EntriesOfTail(rows, input.prefix, input.delimiter, j);
  }

  lemma EntriesOfTail(rows: seq<Object>, prefix: Str, delimiter: Str, j: nat)
    requires j <= |rows|
    ensures EntriesOf(rows[j..], prefix, delimiter) == EntriesOf(rows, prefix, delimiter)[j..]
  {
  }

  lemma ContiguousTail(es: seq<Entry>, j: nat)
    requires Contiguous(es) && j <= |es|
    ensures Contiguous(es[j..])
  {
    var tail := es[j..];
    forall i, m, k | 0 <= i < m < k < |tail| && tail[i] == tail[k] ensures tail[m] == tail[i] {
      assert es[j + i] == es[j + k];
    }
  }

  lemma CutBetweenGroups(es: seq<Entry>, j: nat)
    requires Contiguous(es) && j <= |es| && (0 < j < |es| ==> es[j - 1] != es[j])
    ensures Dedup(es) == Dedup(es[..j]) + Dedup(es[j..])
  {
    hide Contiguous, Dedup;
    CutPieces(es, j);
    DedupSplits(es[..j], es[j..]);
  }

  lemma CutPieces(es: seq<Entry>, j: nat)
    requires j <= |es|
    ensures es == es[..j] + es[j..]
    ensures 0 < j < |es| ==> es[..j][j - 1] == es[j - 1] && es[j..][0] == es[j]
  {
  }

  lemma LastPageLeavesNothing(es: seq<Entry>, j: nat)
    requires j == |es| || (j == 0 && Dedup(es) == [])
    ensures Dedup(es[j..]) == []
  {
    assert es[0..] == es && es[|es|..] == [];
  }

  /** A page cuts the listing in what it shows and what is left. */
  lemma PageCut(rows: seq<Object>, es: seq<Entry>, limit: nat, page: ListObjectsResult, j: nat)
    requires |es| == |rows| && Contiguous(es) && limit >= 1 && IsPageAt(rows, es, limit, page, j)
    ensures Dedup(es) == Dedup(es[..j]) + Dedup(es[j..])
    ensures !page.isTruncated ==> Dedup(es[j..]) == []
  {
    CutBetweenGroups(es, j);
    if !page.isTruncated {
      LastPageLeavesNothing(es, j);
    }
  }

  /** Where groups are not split, the pages of a run put together are the collapse, and there are no more than rows. */
  lemma {:induction false} PagesConcatenate(
    db: Database, input: ListObjectsInput, afterKey: Str, rows: seq<Object>, es: seq<Entry>,
    limits: seq<nat>, pages: seq<ListObjectsResult>)
    requires Behind(db, input, afterKey, rows, es) && Contiguous(es) && Run(db, input, afterKey, limits, pages)
    ensures AllObjects(pages) == ObjectsOf(Dedup(es)) && AllPrefixes(pages) == PrefixesOf(Dedup(es))
    ensures |pages| <= |rows| + 1
    decreases |pages|
  {
    hide SelectAfter, EntryOf;
    assert Answers(db, input, afterKey, limits[0], pages[0]);
    var j: nat :| IsPageAt(rows, es, limits[0], pages[0], j);
    PageCut(rows, es, limits[0], pages[0], j);
    SplitConcat(Dedup(es[..j]), Dedup(es[j..]));
    if |pages| == 1 {
      assert pages[1..] == [];
    } else {
      BehindCursor(db, input, afterKey, rows, es, j);
      ContiguousTail(es, j);
      PagesConcatenate(db, input, pages[0].nextContinuationAfter, rows[j..], es[j..], limits[1..], pages[1..]);
    }
  }

  // ---------------------------------------------------------------------------------------------
  // Without contiguous groups, pages of one entry repeat a group
  // ---------------------------------------------------------------------------------------------

  /** The first entry of every run of equal entries. */
  ghost function Heads(es: seq<Entry>): (heads: seq<Entry>)
    decreases |es|
  {
    if |es| == 0 then [] else [es[0]] + Heads(es[RunEnd(es, 1, es[0])..])
  }

  lemma DedupOfRun(es: seq<Entry>, j: nat)
    requires 0 < j <= |es| && forall i | 0 <= i < j :: es[i] == es[0]
    ensures Dedup(es[..j]) == [es[0]]
  {
    assert es[..1] == [] + [es[0]];
    DedupAppend([], es[0]);
    DedupSameGroup(es, 1, j, es[0]);
  }

  lemma {:induction false} DedupOverlap(xs: seq<Entry>, ys: seq<Entry>)
    ensures |Dedup(xs + ys)| <= |Dedup(xs)| + |Dedup(ys)|
    ensures (exists y :: y in xs && y in ys) ==> |Dedup(xs + ys)| < |Dedup(xs)| + |Dedup(ys)|
  {
    if |ys| == 0 {
      assert xs + ys == xs;
    } else {
      var init, last := ys[..|ys| - 1], ys[|ys| - 1];
      assert xs + ys == (xs + init) + [last] && ys == init + [last];
      DedupOverlap(xs, init);
      DedupAppend(xs + init, last);
      DedupAppend(init, last);
      DedupMembers(xs + init);
      DedupMembers(init);
      assert forall y :: y in ys <==> y in init || y == last;
      assert forall y :: y in xs + init <==> y in xs || y in init;
    }
  }

  /** There are at least as many runs as different entries, and more as soon as one entry has two runs. */
  lemma {:induction false} RunsCountEntries(es: seq<Entry>)
    ensures |Heads(es)| >= |Dedup(es)|
    ensures |Heads(es)| == |Dedup(es)| ==> Contiguous(es)
    decreases |es|
  {
    if |es| > 0 {
      var j := RunEnd(es, 1, es[0]);
      var run, rest := es[..j], es[j..];
      assert es == run + rest;
      RunsCountEntries(rest);
      DedupOfRun(es, j);
      DedupOverlap(run, rest);
      assert es[0] in run;
      if |Heads(es)| == |Dedup(es)| {
        assert es[0] !in rest;
        FreshRunContiguous(es, j);
      }
    }
  }

  lemma FreshRunContiguous(es: seq<Entry>, j: nat)
    requires 0 < j <= |es| && (forall i | 0 <= i < j :: es[i] == es[0])
    requires es[0] !in es[j..] && Contiguous(es[j..])
    ensures Contiguous(es)
  {
    forall i, m, k | 0 <= i < m < k < |es| && es[i] == es[k] ensures es[m] == es[i] {
      assert k >= j ==> es[j..][k - j] == es[k];
      assert i >= j ==> es[j..][i - j] == es[i] && es[j..][m - j] == es[m];
    }
  }

  /** The page of one entry. */
  ghost function FirstRunPage(rows: seq<Object>, es: seq<Entry>): (page: ListObjectsResult)
    requires |es| == |rows|
  {
    if |rows| == 0 then ListObjectsResult([], [], [], false) else
      var j := RunEnd(es, 1, es[0]);
      ListObjectsResult(ObjectsOf([es[0]]), PrefixesOf([es[0]]), rows[j - 1].key, j < |rows|)
  }

  lemma FirstRunPageIsPage(rows: seq<Object>, es: seq<Entry>)
    requires |es| == |rows|
    ensures IsPageAt(rows, es, 1, FirstRunPage(rows, es), if |rows| == 0 then 0 else RunEnd(es, 1, es[0]))
  {
    if |rows| == 0 {
      assert es[..0] == es == [];
    } else {
      var j := RunEnd(es, 1, es[0]);
      DedupOfRun(es, j);
      DedupCut(es, j);
    }
  }

  /** Reading one entry at a time shows the head of every run of the listing. */
  lemma {:induction false} OneEntryRun(db: Database, input: ListObjectsInput, afterKey: Str, rows: seq<Object>,
                                       es: seq<Entry>)
    returns (limits: seq<nat>, pages: seq<ListObjectsResult>)
    requires Behind(db, input, afterKey, rows, es)
    ensures Run(db, input, afterKey, limits, pages)
    ensures AllObjects(pages) == ObjectsOf(Heads(es)) && AllPrefixes(pages) == PrefixesOf(Heads(es))
    decreases |rows|
  {
    hide SelectAfter, EntryOf;
    var page := FirstRunPage(rows, es);
    FirstRunPageIsPage(rows, es);
    assert Answers(db, input, afterKey, 1, page);
    if !page.isTruncated {
      limits, pages := [1], [page];
      assert pages[1..] == [];
      if |es| > 0 {
        assert Heads(es[RunEnd(es, 1, es[0])..]) == [];
        assert Heads(es) == [es[0]];
      }
    } else {
      var j := RunEnd(es, 1, es[0]);
      BehindCursor(db, input, afterKey, rows, es, j);
      limits, pages := OneEntryRun(db, input, page.nextContinuationAfter, rows[j..], es[j..]);
      SplitConcat([es[0]], Heads(es[j..]));
      limits, pages := [1] + limits, [page] + pages;
      assert limits[1..] == limits[1..] && pages[0] == page;
    }
  }

  /** The pages of every run, of any page sizes, together are the one-shot collapse. */
  ghost predicate EveryRunIsExact(db: Database, input: ListObjectsInput, es: seq<Entry>) {
    forall limits, pages | Run(db, input, input.afterKey, limits, pages) ::
      AllObjects(pages) == ObjectsOf(Dedup(es)) && AllPrefixes(pages) == PrefixesOf(Dedup(es))
  }

  /**
   Paging never loses, splits or repeats an entry exactly when the keys of each group are consecutive in the
   listing's key order.
   */
  lemma EveryRunIsExactIff(db: Database, input: ListObjectsInput, rows: seq<Object>, es: seq<Entry>)
    requires Behind(db, input, input.afterKey, rows, es)
    ensures EveryRunIsExact(db, input, es) <==> Contiguous(es)
  {
    if Contiguous(es) {
      forall limits, pages | Run(db, input, input.afterKey, limits, pages)
        ensures AllObjects(pages) == ObjectsOf(Dedup(es)) && AllPrefixes(pages) == PrefixesOf(Dedup(es))
      {
        PagesConcatenate(db, input, input.afterKey, rows, es, limits, pages);
      }
    }
    if EveryRunIsExact(db, input, es) {
      var limits, pages := OneEntryRun(db, input, input.afterKey, rows, es);
      SplitLength(Heads(es));
      SplitLength(Dedup(es));
      RunsCountEntries(es);
    }
  }

  // ---------------------------------------------------------------------------------------------
  // The listing a client assembles, without naming the collapse
  // ---------------------------------------------------------------------------------------------

  lemma {:induction false} ObjectsAscend(entries: seq<Entry>)
    requires NamesAscend(entries)
    ensures forall i, j | 0 <= i < j < |ObjectsOf(entries)| ::
      Less(ObjectsOf(entries)[i].key, ObjectsOf(entries)[j].key)
  {
    if |entries| > 0 {
      var init, last := entries[..|entries| - 1], entries[|entries| - 1];
      ObjectsAscend(init);
      SplitLength(init);
      var earlier := ObjectsOf(init);
      forall i | 0 <= i < |earlier| && last.Listed? ensures Less(earlier[i].key, last.info.key) {
        NamedBefore(entries, Listed(earlier[i]));
      }
    }
  }

  lemma {:induction false} PrefixesAscend(entries: seq<Entry>)
    requires NamesAscend(entries)
    ensures Ascending(PrefixesOf(entries))
  {
    if |entries| > 0 {
      var init, last := entries[..|entries| - 1], entries[|entries| - 1];
      PrefixesAscend(init);
      SplitLength(init);
      var earlier := PrefixesOf(init);
      forall i | 0 <= i < |earlier| && last.CommonPrefix? ensures Less(earlier[i], last.prefix) {
        NamedBefore(entries, CommonPrefix(earlier[i]));
      }
    }
  }

  lemma NamedBefore(entries: seq<Entry>, e: Entry)
    requires |entries| > 0 && NamesAscend(entries) && e in entries[..|entries| - 1]
    ensures Less(e.Name(), entries[|entries| - 1].Name())
  {
    var m :| 0 <= m < |entries| - 1 && entries[m] == e;
  }

  /** A key the client asked for, behind the start of the listing. */
  ghost predicate Wanted(db: Database, input: ListObjectsInput, key: Str) {
    RowKey(input.bucket, key) in db.objects && input.prefix <= key && Less(input.afterKey, key)
  }

  ghost function WantedEntry(db: Database, input: ListObjectsInput, key: Str): Entry
    requires Wanted(db, input, key)
  {
    EntryOf(Object(input.bucket, key, db.objects[RowKey(input.bucket, key)]), input.prefix, input.delimiter)
  }

  ghost predicate IsWantedEntry(db: Database, input: ListObjectsInput, e: Entry) {
    exists k :: Wanted(db, input, k) && WantedEntry(db, input, k) == e
  }

  lemma RowsAreWanted(db: Database, input: ListObjectsInput, rows: seq<Object>, i: nat)
    requires NoStray(db, input.bucket, input.prefix) && RowsBehind(db, input, input.afterKey, rows) && i < |rows|
    ensures Wanted(db, input, rows[i].key)
    ensures rows[i] == Object(input.bucket, rows[i].key, db.objects[RowKey(input.bucket, rows[i].key)])
  {
    SelectAfterMeaning(db, input.bucket, input.prefix, input.afterKey);
    MatchingKeysMember(db, input.bucket, input.prefix, rows[i].key);
  }

  lemma WantedIsRow(db: Database, input: ListObjectsInput, rows: seq<Object>, k: Str) returns (i: nat)
    requires NoStray(db, input.bucket, input.prefix) && RowsBehind(db, input, input.afterKey, rows) &&
      Wanted(db, input, k)
    ensures i < |rows| && rows[i].key == k
  {
    MatchedAreSources(db, input.bucket, input.prefix, k);
    SelectAfterComplete(db, input.bucket, input.prefix, input.afterKey, k);
    i :| 0 <= i < |rows| && rows[i].key == k;
  }

  /** The collapse holds exactly the entries of the wanted keys. */
  lemma CollapseHoldsWanted(db: Database, input: ListObjectsInput, rows: seq<Object>, es: seq<Entry>, e: Entry)
    requires NoStray(db, input.bucket, input.prefix) && Behind(db, input, input.afterKey, rows, es)
    ensures e in Dedup(es) <==> IsWantedEntry(db, input, e)
  {
    DedupMembers(es);
    if e in es {
      var i :| 0 <= i < |es| && es[i] == e;
      RowsAreWanted(db, input, rows, i);
      assert WantedEntry(db, input, rows[i].key) == e;
    }
    if k :| Wanted(db, input, k) && WantedEntry(db, input, k) == e {
      var i := WantedIsRow(db, input, rows, k);
      RowsAreWanted(db, input, rows, i);
      assert es[i] == e;
    }
  }

  lemma RowsPrefixed(db: Database, input: ListObjectsInput, afterKey: Str, rows: seq<Object>)
    requires NoStray(db, input.bucket, input.prefix) && RowsBehind(db, input, afterKey, rows)
    ensures KeyAscending(rows) && AllPrefixed(rows, input.prefix)
  {
    SelectAfterMeaning(db, input.bucket, input.prefix, afterKey);
  }

  /**
   The listing a client assembles: in strictly ascending order, exactly the undelimited wanted keys and exactly
   the common prefixes of the delimited ones.
   */
  lemma PagesAreTheListing(db: Database, input: ListObjectsInput, limits: seq<nat>, pages: seq<ListObjectsResult>)
    requires NoStray(db, input.bucket, input.prefix)
    requires Run(db, input, input.afterKey, limits, pages)
    ensures forall i, j | 0 <= i < j < |AllObjects(pages)| :: Less(AllObjects(pages)[i].key, AllObjects(pages)[j].key)
    ensures Ascending(AllPrefixes(pages))
    ensures forall o :: o in AllObjects(pages) <==> IsWantedEntry(db, input, Listed(o))
    ensures forall p :: p in AllPrefixes(pages) <==> IsWantedEntry(db, input, CommonPrefix(p))
  {
    var rows := SelectAfter(db, input.bucket, input.prefix, input.afterKey);
    var es := EntriesOf(rows, input.prefix, input.delimiter);
    hide SelectAfter, EntryOf, Run, NoStray, Contiguous, NamesAscend, IsWantedEntry, Dedup;
    RowsPrefixed(db, input, input.afterKey, rows);
    PrefixedRowsContiguous(rows, input.prefix, input.delimiter);
    PagesConcatenate(db, input, input.afterKey, rows, es, limits, pages);
    CollapseStrictlySorted(rows, input.prefix, input.delimiter);
    ObjectsAscend(Dedup(es));
    PrefixesAscend(Dedup(es));
    SplitLength(Dedup(es));
    forall o ensures o in AllObjects(pages) <==> IsWantedEntry(db, input, Listed(o)) {
      CollapseHoldsWanted(db, input, rows, es, Listed(o));
    }
    forall p ensures p in AllPrefixes(pages) <==> IsWantedEntry(db, input, CommonPrefix(p)) {
      CollapseHoldsWanted(db, input, rows, es, CommonPrefix(p));
    }
  }

  // ---------------------------------------------------------------------------------------------
  // Where a page ends
  // ---------------------------------------------------------------------------------------------

  /** `j` is where the group of the last of `shown` ends: nothing behind it belongs to an entry already shown. */
  ghost predicate EndsGroup(es: seq<Entry>, shown: seq<Entry>, j: nat) {
    && 0 < j <= |es| && |shown| > 0
    && es[j - 1] == shown[|shown| - 1]
    && forall i | j <= i < |es| :: es[i] !in shown
  }

  /** In a contiguous sequence the last element read is the last one kept. */
  lemma {:induction false} LastShown(es: seq<Entry>, j: nat)
    requires Contiguous(es) && 0 < j <= |es|
    ensures |Dedup(es[..j])| > 0 && Dedup(es[..j])[|Dedup(es[..j])| - 1] == es[j - 1]
  {
    assert es[..j] == es[..j - 1] + [es[j - 1]];
    DedupAppend(es[..j - 1], es[j - 1]);
    if j > 1 && es[j - 1] in Dedup(es[..j - 1]) {
      LastShown(es, j - 1);
      DedupMembers(es[..j - 1]);
      var i :| 0 <= i < j - 1 && es[..j - 1][i] == es[j - 1];
      assert es[i] == es[j - 1];
      assert i == j - 2 || es[j - 2] == es[i];
    }
  }

  lemma PageEndsGroup(es: seq<Entry>, j: nat)
    requires Contiguous(es) && 0 < j <= |es| && (j < |es| ==> es[j] != es[j - 1])
    ensures EndsGroup(es, Dedup(es[..j]), j)
  {
    LastShown(es, j);
    DedupMembers(es[..j]);
    var read, rest := es[..j], es[j..];
    assert es == read + rest;
    forall i | j <= i < |es| ensures es[i] !in read {
      assert rest[i - j] == es[i];
      if es[i] in read {
        BlockEnded(read, rest, es[i]);
      }
    }
  }

  /**
   A non-empty page's continuation key is the last key of the group of the last entry it shows, and it is
   truncated exactly when a matching key lies behind that.
   */
  lemma ContinuationEndsGroup(rows: seq<Object>, es: seq<Entry>, limit: nat, page: ListObjectsResult, j: nat)
    requires |es| == |rows| && |rows| > 0 && Contiguous(es) && limit >= 1 && IsPageAt(rows, es, limit, page, j)
    ensures EndsGroup(es, Dedup(es[..j]), j) && Dedup(es[..j]) <= Dedup(es)
    ensures page.nextContinuationAfter == rows[j - 1].key && (page.isTruncated <==> j < |rows|)
    ensures |page.objects| + |page.commonPrefixes| == if limit <= |Dedup(es)| then limit else |Dedup(es)|
  {
    DedupMembers(es);
    assert es[0] in Dedup(es);
    SplitLength(Dedup(es[..j]));
    PageEndsGroup(es, j);
  }

  // ---------------------------------------------------------------------------------------------
  // Case folding can split a group
  // ---------------------------------------------------------------------------------------------

  /** With no delimiter every key is its own entry, and paging is exact whatever the keys. */
  lemma FlatListingContiguous(db: Database, input: ListObjectsInput, rows: seq<Object>, es: seq<Entry>)
    requires Behind(db, input, input.afterKey, rows, es) && input.delimiter == []
    ensures Contiguous(es)
  {
    SelectAfterMeaning(db, input.bucket, input.prefix, input.afterKey);
    KeysListedOnce(rows, input.prefix, input.delimiter);
  }

  const STRAY_KEYS: seq<Str> := [Ascii("Ab/x"), Ascii("Ac/z"), Ascii("aAb/y")]

  /** Listing these ascending keys, all matched by the folding filter for `a`, meets the group `aAb/` twice. */
  lemma StrayKeysSplitGroup(rows: seq<Object>)
    requires |rows| == 3 && forall i | 0 <= i < 3 :: rows[i].key == STRAY_KEYS[i]
    ensures KeyAscending(rows) && forall i | 0 <= i < 3 :: Fold(Ascii("a")) <= Fold(rows[i].key)
    ensures !Contiguous(EntriesOf(rows, Ascii("a"), Ascii("/")))
  {
    var es := EntriesOf(rows, Ascii("a"), Ascii("/"));
    assert !(Ascii("a") <= rows[0].key) && !(Ascii("a") <= rows[1].key) by {
      assert rows[0].key[0] == rows[1].key[0] == 'A' as int && Ascii("a")[0] == 'a' as int;
    }
    StrayEntry(rows[0], rows[0].key, Ascii("Ab"));
    StrayEntry(rows[1], rows[1].key, Ascii("Ac"));
    StrayEntry(rows[2], rows[2].key[1..], Ascii("Ab"));
    assert es[0] == es[2];
    assert es[0].prefix[2] == 'b' as int && es[1].prefix[2] == 'c' as int;
  }

  lemma StrayEntry(o: Object, remainder: Str, head: Str)
    requires TrimPrefix(o.key, Ascii("a")) == remainder
    requires |head| == 2 && |remainder| == 4 && remainder[..2] == head && remainder[2] == '/' as int
    requires head[0] != '/' as int && head[1] != '/' as int
    ensures EntryOf(o, Ascii("a"), Ascii("/")) == CommonPrefix(Ascii("a") + head + Ascii("/"))
  {
    var sub := Ascii("/");
    assert remainder[0] == head[0] && remainder[1] == head[1];
    assert OccursAt(remainder, sub, 2) && !OccursAt(remainder, sub, 0) && !OccursAt(remainder, sub, 1);
    IndexFromIsFirst(remainder, sub, 0, 2);
  }
}
