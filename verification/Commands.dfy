/** The listing commands: `ls` prints keys, `lsd` prints the common prefixes up to the next slash. */
module Commands {
  import opened Bytes
  import opened Tables
  import opened MetadataStore
  import opened FirstOccurrences
  import opened Listing
  import opened ObjectListing
  import opened Pages

  const CLI_LIST_PAGE_SIZE := 1000

  const SLASH: Str := [0x2F]

  /** The page query of a command: everything in the bucket that starts with the prefix. */
  function PrefixQuery(bucket: Str, prefix: Str): ListObjectsInput {
    ListObjectsInput(bucket, prefix, SLASH, [], -1)
  }

  /** `lines` are the keys of the first rows, as many as `limit` allows (all of them for 0). */
  ghost predicate FirstKeys(lines: seq<Str>, rows: seq<Object>, limit: int) {
    && |lines| == (if 0 < limit <= |rows| then limit else |rows|)
    && forall i | 0 <= i < |lines| :: lines[i] == rows[i].key
  }

  ghost predicate KeysSoFar(lines: seq<Str>, rows: seq<Object>) {
    |lines| <= |rows| && forall i | 0 <= i < |lines| :: lines[i] == rows[i].key
  }

  /** The printing loop over one page. */
  method WriteBatch(objects: seq<Object>, limit: int, lines0: seq<Str>, input: ListObjectsInput,
                    ghost rows: seq<Object>, ghost es: seq<Entry>)
    returns (lines: seq<Str>, afterKey: Str, full: bool)
    requires KeysSoFar(lines0, rows) && Batch(objects, input, rows, es, |lines0|) && |objects| > 0
    requires limit > 0 ==> |lines0| < limit
    ensures KeysSoFar(lines, rows)
    ensures full ==> 0 < limit == |lines|
    ensures !full ==>
      |lines| == |lines0| + |objects| && afterKey == CursorAt(rows, [], |lines|) && (limit > 0 ==> |lines| < limit)
  {
    lines, afterKey, full := lines0, [], false;
    for m := 0 to |objects|
      invariant KeysSoFar(lines, rows) && |lines| == |lines0| + m && (limit > 0 ==> |lines| < limit)
      invariant m > 0 ==> afterKey == CursorAt(rows, [], |lines|)
    {
      lines := lines + [objects[m].key];
      afterKey := objects[m].key;
      if limit > 0 && |lines| >= limit {
        return lines, afterKey, true;
      }
    }
  }

  /** writeObjectKeys. */
  method WriteObjectKeys(meta: SQLiteStore, bucket: Str, prefix: Str, limit: int) returns (lines: seq<Str>)
    ensures FirstKeys(lines, SelectAfter(meta.db, bucket, prefix, []), limit)
  {
    hide SelectAfter, EntryOf;
    ghost var rows := SelectAfter(meta.db, bucket, prefix, []);
    ghost var es := EntriesOf(rows, prefix, SLASH);
    var input := PrefixQuery(bucket, prefix);
    var afterKey := [];
    lines := [];
    while true
      invariant KeysSoFar(lines, rows) && afterKey == CursorAt(rows, [], |lines|)
      invariant limit > 0 ==> |lines| < limit
      decreases |rows| - |lines|
    {
      var pageLimit := CLI_LIST_PAGE_SIZE;
      if limit > 0 {
        var remaining := limit - |lines|;
        if remaining <= 0 {
          return;
        }
        if remaining < pageLimit {
          pageLimit := remaining;
        }
      }
      var objects := ReadBatch(meta, input, afterKey, pageLimit, rows, es, |lines|);
      if |objects| == 0 {
        return;
      }
      var full;
      lines, afterKey, full := WriteBatch(objects, limit, lines, input, rows, es);
      if full {
        return;
      }
      if |objects| < pageLimit {
        return;
      }
    }
  }

  function Without(names: seq<Str>, skipped: Str): seq<Str> {
    if |names| == 0 then [] else
      var init := Without(names[..|names| - 1], skipped);
      if names[|names| - 1] == skipped then init else init + [names[|names| - 1]]
  }

  lemma WithoutAppend(names: seq<Str>, name: Str, skipped: Str)
    ensures Without(names + [name], skipped) ==
      if name == skipped then Without(names, skipped) else Without(names, skipped) + [name]
  {
    assert (names + [name])[..|names|] == names;
  }

  lemma {:induction false} WithoutMembers(names: seq<Str>, skipped: Str)
    ensures forall n :: n in Without(names, skipped) <==> n in names && n != skipped
  {
    if |names| > 0 {
      assert names == names[..|names| - 1] + [names[|names| - 1]];
      WithoutMembers(names[..|names| - 1], skipped);
    }
  }

  /** The lines `lsd` owes for the first `n` rows: their common prefixes, but not the one of an empty segment. */
  ghost predicate PrefixLines(lines: seq<Str>, es: seq<Entry>, n: nat, prefix: Str) {
    n <= |es| && lines == Without(View(es, n).prefixes, prefix + SLASH)
  }

  /** What one more row adds to the lines. */
  lemma LinesAppend(es: seq<Entry>, n: nat, prefix: Str)
    requires n < |es|
    ensures var lines, skipped := Without(View(es, n).prefixes, prefix + SLASH), prefix + SLASH;
      Without(View(es, n + 1).prefixes, skipped) ==
      (if es[n].CommonPrefix? && es[n].prefix != skipped && es[n].prefix !in lines
       then lines + [es[n].prefix] else lines)
  {
    if es[n].CommonPrefix? {
      WithoutAppend(View(es, n).prefixes, es[n].prefix, prefix + SLASH);
      WithoutMembers(View(es, n).prefixes, prefix + SLASH);
      ShownPrefix(es, n, es[n].prefix);
    }
  }

  lemma SegmentNames(prefix: Str, segment: Str)
    ensures prefix + segment + SLASH == prefix + SLASH <==> segment == []
  {
    assert |prefix + segment + SLASH| == |prefix + SLASH| + |segment|;
    assert prefix + [] + SLASH == prefix + SLASH;
  }

  /** One row of writeCommonPrefixes. */
  method WriteRow(o: Object, prefix: Str, lines0: seq<Str>, seen0: set<Str>, ghost es: seq<Entry>, ghost n: nat)
    returns (lines: seq<Str>, seen: set<Str>)
    requires n < |es| && PrefixLines(lines0, es, n, prefix) && seen0 == SetOf(lines0)
    requires es[n] == EntryOf(o, prefix, SLASH)
    ensures PrefixLines(lines, es, n + 1, prefix) && seen == SetOf(lines)
  {
    hide View, Without, Index;
    lines, seen := lines0, seen0;
    LinesAppend(es, n, prefix);
    var remainder := TrimPrefix(o.key, prefix);
    var idx := Index(remainder, SLASH);
    if idx < 0 {
      return;
    }
    IndexBounds(remainder, SLASH);
    var segment := remainder[..idx];
    SegmentNames(prefix, segment);
    if segment == [] {
      return;
    }
    var commonPrefix := prefix + segment + SLASH;
    if commonPrefix in seen {
      return;
    }
    seen := seen + {commonPrefix};
    lines := lines + [commonPrefix];
  }

  /** writeCommonPrefixes. */
  method WriteCommonPrefixes(meta: SQLiteStore, bucket: Str, prefix: Str) returns (lines: seq<Str>)
    ensures lines ==
      Without(PrefixesOf(Collapse(SelectAfter(meta.db, bucket, prefix, []), prefix, SLASH)), prefix + SLASH)
  {
    hide SelectAfter, EntryOf;
    ghost var rows := SelectAfter(meta.db, bucket, prefix, []);
    ghost var es := EntriesOf(rows, prefix, SLASH);
    ghost var n := 0;
    var input := PrefixQuery(bucket, prefix);
    var afterKey, seen := [], {};
    lines := [];
    while true
      invariant PrefixLines(lines, es, n, prefix) && seen == SetOf(lines) && afterKey == CursorAt(rows, [], n)
      decreases |rows| - n
    {
      var objects := ReadBatch(meta, input, afterKey, CLI_LIST_PAGE_SIZE, rows, es, n);
      if |objects| == 0 {
        break;
      }
      for m := 0 to |objects|
        invariant PrefixLines(lines, es, n + m, prefix) && seen == SetOf(lines)
        invariant m > 0 ==> afterKey == CursorAt(rows, [], n + m)
      {
        afterKey := objects[m].key;
        lines, seen := WriteRow(objects[m], prefix, lines, seen, es, n + m);
      }
      n := n + |objects|;
      if |objects| < CLI_LIST_PAGE_SIZE {
        break;
      }
    }
    assert es[..n] == es;
    ViewIsCollapse(es, n);
  }

  /** `lsd` prints what a client gets by following the pages of the object listing, where groups are not split. */
  lemma PrefixesMatchPages(db: Database, input: ListObjectsInput, limits: seq<nat>, pages: seq<ListObjectsResult>,
                           rows: seq<Object>, es: seq<Entry>)
    requires input.afterKey == [] && input.delimiter == SLASH
    requires Behind(db, input, [], rows, es) && Contiguous(es) && Run(db, input, [], limits, pages)
    ensures Without(PrefixesOf(Collapse(rows, input.prefix, SLASH)), input.prefix + SLASH)
         == Without(AllPrefixes(pages), input.prefix + SLASH)
  {
    PagesConcatenate(db, input, [], rows, es, limits, pages);
  }

  lemma {:induction false} DedupOfDistinct(es: seq<Entry>)
    requires forall i, j | 0 <= i < j < |es| :: es[i] != es[j]
    ensures Dedup(es) == es
  {
    if |es| > 0 {
      var init := es[..|es| - 1];
      DedupOfDistinct(init);
      assert es[|es| - 1] !in init;
      assert es == init + [es[|es| - 1]];
    }
  }

  lemma {:induction false} ObjectsOfKeys(es: seq<Entry>)
    requires forall i | 0 <= i < |es| :: es[i].Listed?
    ensures |ObjectsOf(es)| == |es| && forall i | 0 <= i < |es| :: ObjectsOf(es)[i] == es[i].info
  {
    if |es| > 0 {
      ObjectsOfKeys(es[..|es| - 1]);
    }
  }

  lemma FlatEntries(rows: seq<Object>, prefix: Str)
    requires KeyAscending(rows)
    ensures var es := EntriesOf(rows, prefix, []);
      && (forall i | 0 <= i < |es| :: es[i].Listed? && es[i].info.key == rows[i].key)
      && Dedup(es) == es
  {
    var es := EntriesOf(rows, prefix, []);
    KeysListedOnce(rows, prefix, []);
    DedupOfDistinct(es);
  }

  /** `ls` prints the keys a client gets by following the pages without a delimiter. */
  lemma KeysMatchPages(db: Database, input: ListObjectsInput, limits: seq<nat>, pages: seq<ListObjectsResult>,
                       rows: seq<Object>, lines: seq<Str>)
    requires input.afterKey == [] && input.delimiter == []
    requires RowsBehind(db, input, [], rows) && Run(db, input, [], limits, pages) && FirstKeys(lines, rows, 0)
    ensures |lines| == |AllObjects(pages)| && forall i | 0 <= i < |lines| :: lines[i] == AllObjects(pages)[i].key
  {
    hide SelectAfter, Run, AllObjects;
    var es := EntriesOf(rows, input.prefix, []);
    FlatListingContiguous(db, input, rows, es);
    PagesConcatenate(db, input, [], rows, es, limits, pages);
    SelectAfterMeaning(db, input.bucket, input.prefix, []);
    FlatEntries(rows, input.prefix);
    ObjectsOfKeys(es);
  }

  /** The key holds, behind the prefix, a segment that is not empty and ends in a slash. */
  ghost predicate HasSegment(key: Str, prefix: Str, segment: Str) {
    segment != [] && 0x2F !in segment && segment + [0x2F] <= TrimPrefix(key, prefix)
  }

  lemma SegmentEntry(o: Object, prefix: Str, segment: Str)
    requires HasSegment(o.key, prefix, segment)
    ensures EntryOf(o, prefix, SLASH) == CommonPrefix(prefix + segment + SLASH)
  {
    var rest, n := TrimPrefix(o.key, prefix), |segment|;
    FirstByteIndex(segment, 0x2F, rest[n + 1..]);
    assert rest == segment + [0x2F] + rest[n + 1..];
    assert rest[..n] == segment;
  }

  lemma EntrySegment(o: Object, prefix: Str) returns (segment: Str)
    requires EntryOf(o, prefix, SLASH).CommonPrefix? && EntryOf(o, prefix, SLASH).prefix != prefix + SLASH
    ensures HasSegment(o.key, prefix, segment) && EntryOf(o, prefix, SLASH).prefix == prefix + segment + SLASH
  {
    var rest := TrimPrefix(o.key, prefix);
    var idx := Index(rest, SLASH);
    FirstSeparator(rest, 0x2F);
    segment := rest[..idx];
    SegmentNames(prefix, segment);
    assert rest[..idx] + [rest[idx]] == rest[..idx + 1];
  }

  lemma {:induction false} PrefixesOfMembers(es: seq<Entry>, p: Str)
    ensures p in PrefixesOf(es) <==> CommonPrefix(p) in es
  {
    if |es| > 0 {
      PrefixesOfMembers(es[..|es| - 1], p);
      assert es == es[..|es| - 1] + [es[|es| - 1]];
    }
  }

  /** `lsd` prints a prefix exactly when some matching key has that segment in front of a slash. */
  lemma PrintedIff(db: Database, bucket: Str, prefix: Str, segment: Str)
    requires segment != [] && 0x2F !in segment
    ensures var lines :=
      Without(PrefixesOf(Collapse(SelectAfter(db, bucket, prefix, []), prefix, SLASH)), prefix + SLASH);
      prefix + segment + SLASH in lines <==>
      exists k :: k in MatchingKeys(db, bucket, prefix) && HasSegment(k, prefix, segment)
  {
    var rows := SelectAfter(db, bucket, prefix, []);
    var es := EntriesOf(rows, prefix, SLASH);
    var p := prefix + segment + SLASH;
    hide SelectAfter, EntryOf, MatchingKeys, HasSegment, TrimPrefix;
    SegmentNames(prefix, segment);
    WithoutMembers(PrefixesOf(Dedup(es)), prefix + SLASH);
    PrefixesOfMembers(Dedup(es), p);
    DedupMembers(es);
    SelectAfterMeaning(db, bucket, prefix, []);
    if CommonPrefix(p) in es {
      var i :| 0 <= i < |es| && es[i] == CommonPrefix(p);
      var found := EntrySegment(rows[i], prefix);
      assert (prefix + found + SLASH)[|prefix|..] == found + SLASH && p[|prefix|..] == segment + SLASH;
      assert found == (found + SLASH)[..|found|] && segment == (segment + SLASH)[..|segment|];
      assert HasSegment(rows[i].key, prefix, segment);
    }
    if k :| k in MatchingKeys(db, bucket, prefix) && HasSegment(k, prefix, segment) {
      SegmentNotEmpty(k, prefix, segment);
      SelectAfterComplete(db, bucket, prefix, [], k);
      var i :| 0 <= i < |rows| && rows[i].key == k;
      SegmentEntry(rows[i], prefix, segment);
      assert es[i] == CommonPrefix(p);
    }
  }

  lemma SegmentNotEmpty(key: Str, prefix: Str, segment: Str)
    requires HasSegment(key, prefix, segment)
    ensures Less([], key)
  {
  }
}
